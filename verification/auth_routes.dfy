/** `POST /signup` and `POST /login` over the user table. */
module AuthRoutes {
  import opened Common
  import opened Model
  import opened Schemas
  import opened Credentials
  import Decimal
  import Dependencies

  const EmailTaken: HttpError := HttpError(400, "Email already registered")
  const LoginFailed: HttpError := HttpError(401, "Incorrect email or password")
  const SignupMessage: string := "User created successfully"

  /** `timedelta(minutes=60)` in seconds. */
  const LoginLifetime: int := 60 * 60

  /** The row signup inserts. */
  function NewUser(s: Store, req: SignupRequest, hash: string -> string): User {
    User(
      NextUserId(s.users), req.email, PasswordHash(hash, req.password), req.role, req.name,
      Some(""), None, None,
      if req.role == Mentor then Some("[]") else None)
  }

  /** `signup`: refuses an e-mail address already on file, otherwise appends
      one user and answers with a fixed message. */
  function Signup(s: Store, req: SignupRequest, hash: string -> string): (o: Outcome<string>)
    ensures o.result.Err? <==> exists i | 0 <= i < |s.users| :: s.users[i].email == req.email
    ensures o.result.Err? ==> o.result.error == EmailTaken && o.store == s
    ensures o.result.Ok? ==>
              && o.result.value == SignupMessage
              && o.store.requests == s.requests
              && |o.store.users| == |s.users| + 1
              && o.store.users[..|s.users|] == s.users
              && var u := o.store.users[|s.users|];
              && u.email == req.email && u.name == req.name && u.role == req.role
              && VerifyPassword(hash, req.password, u.passwordHash)
              && u.bio == Some("") && u.imageData.None?
              && (u.role == Mentor ==> u.skills == Some("[]"))
              && (u.role == Mentee ==> u.skills.None?)
              && !HasUser(s.users, u.id)
  {
    if exists i | 0 <= i < |s.users| :: s.users[i].email == req.email then
      Outcome(s, Err(EmailTaken))
    else
      Outcome(Store(s.users + [NewUser(s, req, hash)], s.requests), Ok(SignupMessage))
  }

  /** The dictionary login hands to the token builder. */
  function LoginData(u: User): Claims {
    map["user_id" := Int(u.id), "email" := Str(u.email), "name" := Str(u.name), "role" := Str(RoleValue(u.role))]
  }

  /** `login`: the first user with the e-mail address, if the password verifies,
      gets a one-hour token naming them; an unknown address and a wrong password
      get the same 401. The answer is the token's claim set. */
  function Login(s: Store, req: LoginRequest, hash: string -> string, now: int, jti: string): (r: Result<Claims>)
    ensures r.Err? ==> r.error == LoginFailed
    ensures !(exists i | 0 <= i < |s.users| :: s.users[i].email == req.email) ==> r.Err?
    ensures r.Ok? ==> exists i | 0 <= i < |s.users| ::
              && s.users[i].email == req.email
              && VerifyPassword(hash, req.password, s.users[i].passwordHash)
              && (forall j | 0 <= j < i :: s.users[j].email != req.email)
              && Get(r.value, "sub") == Str(Decimal.NatToString(s.users[i].id))
              && Get(r.value, "email") == Str(s.users[i].email)
              && Get(r.value, "name") == Str(s.users[i].name)
              && Get(r.value, "role") == Str(RoleValue(s.users[i].role))
              && Get(r.value, "user_id") == Int(s.users[i].id)
    ensures r.Ok? ==> Get(r.value, "exp").Int? && Get(r.value, "iat").Int?
                      && Get(r.value, "exp").i - Get(r.value, "iat").i == LoginLifetime
  {
    match FirstIndex(s.users, (u: User) => u.email == req.email)
    case None => Err(LoginFailed)
    case Some(i) =>
      if !VerifyPassword(hash, req.password, s.users[i].passwordHash) then Err(LoginFailed)
      else
        LoginToken(s.users[i], now, jti);
        Ok(CreateAccessToken(LoginData(s.users[i]), Some(LoginLifetime), now, jti))
  }

  /** The claims of the token login issues for `u`. */
  lemma LoginToken(u: User, now: int, jti: string)
    ensures var c := CreateAccessToken(LoginData(u), Some(LoginLifetime), now, jti);
      && Get(c, "sub") == Str(Decimal.NatToString(u.id))
      && Get(c, "email") == Str(u.email)
      && Get(c, "name") == Str(u.name)
      && Get(c, "role") == Str(RoleValue(u.role))
      && Get(c, "user_id") == Int(u.id)
      && Get(c, "exp").Int? && Get(c, "iat").Int?
      && Get(c, "exp").i - Get(c, "iat").i == LoginLifetime
  {
    var d := LoginData(u);
    assert "user_id" in d && "user_id" !in RegisteredClaims && "user_id" !in ProfileClaims;
  }

  /** With unique e-mail addresses, login succeeds exactly for a stored user
      whose password verifies. */
  lemma LoginSucceedsIff(s: Store, req: LoginRequest, hash: string -> string, now: int, jti: string)
    requires EmailsUnique(s.users)
    ensures Login(s, req, hash, now, jti).Ok? <==>
              exists i | 0 <= i < |s.users| ::
                s.users[i].email == req.email && VerifyPassword(hash, req.password, s.users[i].passwordHash)
  {
    if exists i | 0 <= i < |s.users| ::
         s.users[i].email == req.email && VerifyPassword(hash, req.password, s.users[i].passwordHash) {
      var i :| 0 <= i < |s.users| &&
        s.users[i].email == req.email && VerifyPassword(hash, req.password, s.users[i].passwordHash);
      var k := FirstIndex(s.users, (u: User) => u.email == req.email);
      assert k.Some?;
      assert k.value == i by {
        if k.value < i {
        } else if k.value > i {
        }
      }
    }
  }

  /** Round trip: right after signing up, logging in with the same address and
      password succeeds, and the token it yields resolves to the new user. */
  lemma SignupThenLogin(s: Store, req: SignupRequest, hash: string -> string, now: int, jti: string)
    requires Signup(s, req, hash).result.Ok?
    ensures var s' := Signup(s, req, hash).store;
      var u := s'.users[|s.users|];
      var r := Login(s', LoginRequest(req.email, req.password), hash, now, jti);
      && r.Ok?
      && Get(r.value, "sub") == Str(Decimal.NatToString(u.id))
      && Dependencies.GetCurrentUser(s', Some(r.value)) == Ok(u)
  {
    var s' := Signup(s, req, hash).store;
    var u := NewUser(s, req, hash);
    assert s'.users == s.users + [u];
    LoginFindsAppended(s.users, s.requests, u, req.password, hash, now, jti);
  }

  /** The round trip through the schema layer: after a signup, every spelling
      of the address that normalises to the same address logs in, and a second
      signup with any such spelling is refused. */
  lemma SignupThenOtherSpelling(s: Store, raw: RawSignup, other: RawSignup, login: RawLogin, rules: EmailRules,
                                hash: string -> string, now: int, jti: string)
    requires ValidateSignup(raw, rules).Ok? && ValidateSignup(other, rules).Ok? && ValidateLogin(login, rules).Ok?
    requires rules.normalize(other.email) == rules.normalize(raw.email)
    requires rules.normalize(login.email) == rules.normalize(raw.email) && login.password == raw.password
    requires Signup(s, ValidateSignup(raw, rules).value, hash).result.Ok?
    ensures var s' := Signup(s, ValidateSignup(raw, rules).value, hash).store;
      && Signup(s', ValidateSignup(other, rules).value, hash) == Outcome(s', Err(EmailTaken))
      && var r := Login(s', ValidateLogin(login, rules).value, hash, now, jti);
      && r.Ok?
      && Dependencies.GetCurrentUser(s', Some(r.value)) == Ok(s'.users[|s.users|])
  {
    var req := ValidateSignup(raw, rules).value;
    var s' := Signup(s, req, hash).store;
    assert ValidateLogin(login, rules).value == LoginRequest(req.email, req.password);
    SignupThenLogin(s, req, hash, now, jti);
    assert s'.users[|s.users|].email == ValidateSignup(other, rules).value.email;
  }

  lemma LoginFindsAppended(us: seq<User>, rs: seq<MatchRequest>, u: User, password: string,
                           hash: string -> string, now: int, jti: string)
    requires forall j | 0 <= j < |us| :: us[j].email != u.email && us[j].id != u.id
    requires VerifyPassword(hash, password, u.passwordHash)
    ensures var r := Login(Store(us + [u], rs), LoginRequest(u.email, password), hash, now, jti);
      && r == Ok(CreateAccessToken(LoginData(u), Some(LoginLifetime), now, jti))
      && Get(r.value, "sub") == Str(Decimal.NatToString(u.id))
      && Dependencies.GetCurrentUser(Store(us + [u], rs), Some(r.value)) == Ok(u)
  {
    FirstIndexOfAppended(us, u, (v: User) => v.email == u.email);
    var c := CreateAccessToken(LoginData(u), Some(LoginLifetime), now, jti);
    assert Login(Store(us + [u], rs), LoginRequest(u.email, password), hash, now, jti) == Ok(c);
    TokenFindsAppended(us, rs, u, c);
  }

  /** A token whose subject is the appended user's id resolves to that user. */
  lemma TokenFindsAppended(us: seq<User>, rs: seq<MatchRequest>, u: User, c: Claims)
    requires forall j | 0 <= j < |us| :: us[j].id != u.id
    requires Get(c, "sub") == Str(Decimal.NatToString(u.id))
    ensures Dependencies.GetCurrentUser(Store(us + [u], rs), Some(c)) == Ok(u)
  {
    Decimal.ParseNatRoundTrip(u.id);
    assert Dependencies.SubjectId(Get(c, "sub")) == Some(u.id);
    FirstIndexOfAppended(us, u, (v: User) => v.id == u.id);
  }

  /** The first match in a sequence extended by one element is that element
      when nothing before it matches. */
  lemma FirstIndexOfAppended(us: seq<User>, u: User, p: User -> bool)
    requires p(u)
    requires forall j | 0 <= j < |us| :: !p(us[j])
    ensures FirstIndex(us + [u], p) == Some(|us|)
  {
    assert (us + [u])[|us|] == u;
  }

  /** Signup never changes a stored user or any match request. */
  lemma SignupKeepsUsers(s: Store, req: SignupRequest, hash: string -> string, i: nat)
    requires i < |s.users|
    ensures i < |Signup(s, req, hash).store.users| && Signup(s, req, hash).store.users[i] == s.users[i]
    ensures Signup(s, req, hash).store.requests == s.requests
  {
  }

  /** Signup keeps the store valid: ids and e-mail addresses stay unique, the
      new mentor's skills text "[]" is readable ASCII, and every reference still
      resolves. */
  lemma SignupKeepsValid(s: Store, req: SignupRequest, hash: string -> string)
    requires Valid(s)
    ensures Valid(Signup(s, req, hash).store)
  {
    var o := Signup(s, req, hash);
    if o.result.Ok? {
      var n := |s.users|;
      var u := o.store.users[n];
      assert forall i | 0 <= i < n :: o.store.users[i] == s.users[i];
      if u.role == Mentor {
        assert SkillsJson.Decode("[]") == Some([]) by {
          SkillsJson.DecodeEncode([]);
          assert SkillsJson.Encode([]) == "[]";
        }
      }
      forall i | 0 <= i < |s.requests|
        ensures HasUser(o.store.users, s.requests[i].mentorId) && HasUser(o.store.users, s.requests[i].menteeId)
      {
        var a :| 0 <= a < n && s.users[a].id == s.requests[i].mentorId;
        var b :| 0 <= b < n && s.users[b].id == s.requests[i].menteeId;
        assert o.store.users[a] == s.users[a] && o.store.users[b] == s.users[b];
      }
    }
  }
}
