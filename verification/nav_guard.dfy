/** The front end's route table and the navigation guard that runs before
    every route change. */
module NavGuard {
  import opened Common

  /** The route meta fields the table uses. */
  datatype RouteMeta = RouteMeta(requiresAuth: bool, requiresGuest: bool, role: Option<string>)

  datatype Route = Route(path: string, name: string, meta: RouteMeta)

  const NoMeta: RouteMeta := RouteMeta(false, false, None)
  const GuestOnly: RouteMeta := RouteMeta(false, true, None)
  const SignedIn: RouteMeta := RouteMeta(true, false, None)

  /** The routes in declaration order; the last one catches every other path. */
  const Routes: seq<Route> := [
    Route("/", "home", NoMeta),
    Route("/login", "login", GuestOnly),
    Route("/signup", "signup", GuestOnly),
    Route("/profile", "profile", SignedIn),
    Route("/mentors", "mentors", RouteMeta(true, false, Some("mentee"))),
    Route("/match-requests", "match-requests", SignedIn),
    Route("/:pathMatch(.*)*", "not-found", NoMeta)
  ]

  const CatchAll: Route := Routes[6]

  /** The text a static route path compiles to before the optional trailing
      slash: the root path "/" compiles to nothing but that slash. */
  function Stem(routePath: string): string {
    if routePath == "/" then "" else routePath
  }

  predicate MatchesStem(lowered: string, stem: string) {
    lowered == stem || lowered == stem + "/"
  }

  /** Whether a static route path matches a visited path, as vue-router 4
      compiles it with its default options (`sensitive: false`,
      `strict: false`): ASCII letters compare without regard to case, and one
      trailing slash is optional. The root path "/" thus matches "" and "/". */
  predicate PathMatches(routePath: string, path: string) {
    MatchesStem(LowerAscii(path), Stem(routePath))
  }

  /** The route a path resolves to: the static route whose path matches it, or
      the catch-all, which ranks below every static route. */
  function RouteFor(path: string): (r: Route)
    ensures r in Routes
    ensures r == CatchAll || PathMatches(r.path, path)
    ensures (forall k | 0 <= k < 6 :: !PathMatches(Routes[k].path, path)) ==> r == CatchAll
    ensures forall k | 0 <= k < 6 && PathMatches(Routes[k].path, path) :: r == Routes[k]
  {
    var k :=
      if PathMatches(Routes[0].path, path) then 0
      else if PathMatches(Routes[1].path, path) then 1
      else if PathMatches(Routes[2].path, path) then 2
      else if PathMatches(Routes[3].path, path) then 3
      else if PathMatches(Routes[4].path, path) then 4
      else if PathMatches(Routes[5].path, path) then 5
      else 6;
    StaticMatchUnique(path, k);
    Routes[k]
  }

  /** The stems of the six static routes, in declaration order. */
  const Stems: seq<string> := ["", "/login", "/signup", "/profile", "/mentors", "/match-requests"]

  lemma StemTable()
    ensures forall j | 0 <= j < 6 :: Stem(Routes[j].path) == Stems[j]
  {
  }

  lemma StemsShape()
    ensures forall j | 0 <= j < 6 :: |Stems[j]| == 0 || Stems[j][|Stems[j]| - 1] != '/'
  {
  }

  lemma StemsDistinct()
    ensures forall i, j | 0 <= i < j < 6 :: Stems[i] != Stems[j]
  {
    assert Stems[3][1] != Stems[4][1];
  }

  /** No two static routes match the same path: their stems differ, and none
      ends in a slash. */
  lemma StaticMatchUnique(path: string, k: nat)
    requires k < 7
    requires k < 6 ==> PathMatches(Routes[k].path, path)
    requires forall j | 0 <= j < k :: !PathMatches(Routes[j].path, path)
    ensures forall j | 0 <= j < 6 && PathMatches(Routes[j].path, path) :: j == k
  {
    StemTable();
    StemsShape();
    StemsDistinct();
    forall j | 0 <= j < 6 && PathMatches(Routes[j].path, path)
      ensures j == k
    {
      if j != k {
        StemsExclusive(LowerAscii(path), Stems[k], Stems[j]);
      }
    }
  }

  /** A lowered path matches at most one stem among stems that do not end in a
      slash. */
  lemma StemsExclusive(l: string, a: string, b: string)
    requires |a| == 0 || a[|a| - 1] != '/'
    requires |b| == 0 || b[|b| - 1] != '/'
    requires MatchesStem(l, a) && MatchesStem(l, b)
    ensures a == b
  {
    if l == a + "/" && l == b + "/" {
      assert a == l[..|l| - 1] == b;
    }
  }

  predicate NoUpperAscii(s: string) {
    forall i | 0 <= i < |s| :: !('A' <= s[i] <= 'Z')
  }

  lemma LowerAsciiKeepsLower(s: string)
    requires NoUpperAscii(s)
    ensures LowerAscii(s) == s
  {
    assert forall i | 0 <= i < |s| :: LowerAscii(s)[i] == s[i];
  }

  lemma RoutePathsLower()
    ensures forall j | 0 <= j < 6 :: NoUpperAscii(Routes[j].path)
  {
  }

  /** Each declared path resolves to its own route. */
  lemma ResolvesToOwnRoute(k: nat, p: string)
    requires k < 6 && p == Routes[k].path
    ensures RouteFor(p) == Routes[k]
  {
    RoutePathsLower();
    LowerAsciiKeepsLower(p);
    StemTable();
    if k == 0 {
      assert p == Stems[0] + "/";
    } else {
      assert p == Stems[k];
    }
    assert PathMatches(p, p);
  }

  /** Letter case and one trailing slash do not change the route: a visited
      path resolves as its lower-cased form does, and as the same path with a
      slash appended. */
  lemma PathSpellingsResolveAlike(path: string)
    requires |path| == 0 || path[|path| - 1] != '/'
    ensures RouteFor(path) == RouteFor(LowerAscii(path))
    ensures RouteFor(path + "/") == RouteFor(path)
  {
    var l := LowerAscii(path);
    LowerAsciiIdempotent(path);
    LowerAsciiAppend(path, "/");
    assert LowerAscii("/") == "/";
    assert LowerAscii(path + "/") == l + "/";
    assert |l| == 0 || l[|l| - 1] != '/';
    StemTable();
    StemsShape();
    forall j | 0 <= j < 6
      ensures PathMatches(Routes[j].path, l) == PathMatches(Routes[j].path, path)
      ensures PathMatches(Routes[j].path, path + "/") == PathMatches(Routes[j].path, path)
    {
      SlashStep(l, Stems[j]);
    }
    if j :| 0 <= j < 6 && PathMatches(Routes[j].path, path) {
      assert RouteFor(path) == Routes[j] == RouteFor(l) == RouteFor(path + "/");
    } else {
      assert RouteFor(path) == CatchAll == RouteFor(l) == RouteFor(path + "/");
    }
  }

  /** Without a token, the profile page is closed under every spelling the
      router accepts for it, not only under its declared path. */
  lemma ProfileSpellingsNeedToken(stored: Option<string>)
    requires !HasToken(stored)
    ensures Guard(RouteFor("/profile/").meta, stored) == RedirectTo("/login")
    ensures Guard(RouteFor("/Profile").meta, stored) == RedirectTo("/login")
  {
    ProfileSpelling("/profile/", "/profile/");
    CapitalProfileLowers();
    ProfileSpelling("/Profile", "/profile");
  }

  lemma CapitalProfileLowers()
    ensures LowerAscii("/Profile") == "/profile"
  {
    var u, l := "/Profile", "/profile";
    assert u == "/P" + "rofile" && l == "/p" + "rofile";
    LowerAsciiAppend("/P", "rofile");
    LowerAsciiKeepsLower("rofile");
    assert LowerAscii("/P") == "/p";
  }

  lemma ProfileSpelling(path: string, lowered: string)
    requires LowerAscii(path) == lowered
    requires lowered == "/profile" || lowered == "/profile/"
    ensures RouteFor(path) == Routes[3]
  {
    assert Stem(Routes[3].path) == "/profile";
    assert PathMatches(Routes[3].path, path);
  }

  /** Appending a slash to a text that does not end in one keeps whether it
      matches a stem that does not end in one either. */
  lemma SlashStep(l: string, stem: string)
    requires |l| == 0 || l[|l| - 1] != '/'
    requires |stem| == 0 || stem[|stem| - 1] != '/'
    ensures MatchesStem(l + "/", stem) == MatchesStem(l, stem)
  {
    if l + "/" == stem + "/" {
      assert l == (l + "/")[..|l|] && stem == (stem + "/")[..|stem|];
    }
  }

  lemma LowerAsciiIdempotent(s: string)
    ensures LowerAscii(LowerAscii(s)) == LowerAscii(s)
  {
    assert forall i | 0 <= i < |s| :: LowerAscii(LowerAscii(s))[i] == LowerAscii(s)[i];
  }

  lemma LowerAsciiAppend(a: string, b: string)
    ensures LowerAscii(a + b) == LowerAscii(a) + LowerAscii(b)
  {
    assert forall i | 0 <= i < |a + b| :: LowerAscii(a + b)[i] == (LowerAscii(a) + LowerAscii(b))[i];
  }

  /** `AuthService.hasToken()`: whatever is stored under the token key, made
      boolean. A missing key and an empty string are both false. */
  predicate HasToken(stored: Option<string>) {
    Truthy(stored)
  }

  datatype Decision = Proceed | RedirectTo(target: string)

  /** `beforeEach`: a signed-in-only route without a token goes to /login, a
      guest-only route with a token goes to /, anything else proceeds. */
  function Guard(meta: RouteMeta, stored: Option<string>): (d: Decision)
    ensures d == RedirectTo("/login") <==> meta.requiresAuth && !HasToken(stored)
    ensures d == RedirectTo("/") <==> meta.requiresGuest && HasToken(stored)
    ensures d == Proceed <==> (meta.requiresAuth ==> HasToken(stored)) && (meta.requiresGuest ==> !HasToken(stored))
  {
    if meta.requiresAuth && !HasToken(stored) then RedirectTo("/login")
    else if meta.requiresGuest && HasToken(stored) then RedirectTo("/")
    else Proceed
  }

  /** The guard sees only the two flags and whether a token is stored: neither
      the role meta nor the token's value (valid, expired or forged) matters. */
  lemma GuardSeesOnlyFlagsAndPresence(m1: RouteMeta, m2: RouteMeta, t1: Option<string>, t2: Option<string>)
    requires m1.requiresAuth == m2.requiresAuth && m1.requiresGuest == m2.requiresGuest
    requires HasToken(t1) == HasToken(t2)
    ensures Guard(m1, t1) == Guard(m2, t2)
  {
  }

  /** The paths of the table resolve to their own routes. */
  lemma GuestPathsResolve()
    ensures RouteFor("/") == Routes[0]
    ensures RouteFor("/login") == Routes[1]
    ensures RouteFor("/signup") == Routes[2]
  {
    ResolvesToOwnRoute(0, "/");
    ResolvesToOwnRoute(1, "/login");
    ResolvesToOwnRoute(2, "/signup");
  }

  lemma SignedInPathsResolve()
    ensures RouteFor("/profile") == Routes[3]
    ensures RouteFor("/mentors") == Routes[4]
    ensures RouteFor("/match-requests") == Routes[5]
  {
    ResolvesToOwnRoute(3, "/profile");
    ResolvesToOwnRoute(4, "/mentors");
    ResolvesToOwnRoute(5, "/match-requests");
  }

  /** What the guard decides for each path of the table. */
  lemma TableDecisions(stored: Option<string>)
    ensures Guard(RouteFor("/").meta, stored) == Proceed
    ensures Guard(RouteFor("/login").meta, stored) == (if HasToken(stored) then RedirectTo("/") else Proceed)
    ensures Guard(RouteFor("/signup").meta, stored) == (if HasToken(stored) then RedirectTo("/") else Proceed)
    ensures Guard(RouteFor("/profile").meta, stored) == (if HasToken(stored) then Proceed else RedirectTo("/login"))
    ensures Guard(RouteFor("/mentors").meta, stored) == (if HasToken(stored) then Proceed else RedirectTo("/login"))
    ensures Guard(RouteFor("/match-requests").meta, stored) == (if HasToken(stored) then Proceed else RedirectTo("/login"))
  {
    GuestPathsResolve();
    SignedInPathsResolve();
  }

  /** A redirect never leads to a second one: with the same token state, the
      guard lets the navigation to the redirect target through. */
  lemma RedirectTargetProceeds(path: string, stored: Option<string>)
    requires Guard(RouteFor(path).meta, stored).RedirectTo?
    ensures Guard(RouteFor(Guard(RouteFor(path).meta, stored).target).meta, stored) == Proceed
  {
    GuestPathsResolve();
  }

  /** Any stored token opens the mentee-only mentor list, whatever role it
      belongs to. */
  lemma MentorListOpenToAnyToken(stored: Option<string>)
    requires HasToken(stored)
    ensures RouteFor("/mentors").meta.role == Some("mentee")
    ensures Guard(RouteFor("/mentors").meta, stored) == Proceed
  {
    SignedInPathsResolve();
  }
}
