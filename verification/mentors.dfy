/** `GET /mentors`: the mentor list a mentee browses, with the optional skill
    filter and the optional ordering. */
module Mentors {
  import opened Common
  import opened Model
  import opened Schemas
  import opened Ordering
  import SkillsJson
  import SqlLike
  import Decimal

  // ---- Filtering ----

  /** The skill filter as written: the raw skills text must satisfy
      `contains('"' + skill + '"')`, a LIKE match; a NULL column never does. */
  predicate SkillFilterAsWritten(u: User, skill: string) {
    u.skills.Some? && SqlLike.ContainsLike(u.skills.value, "\"" + skill + "\"")
  }

  /** The skill list a mentor is shown with contains the skill. */
  predicate HasListedSkill(u: User, skill: string) {
    ShownSkills(u.skills).Some? && skill in ShownSkills(u.skills).value
  }

  /** Which skill filter a query applies: the LIKE match the code performs, or
      membership in the decoded skill list, which is what the filter is for. */
  datatype SkillMatch = LikeOnText | ListMembership

  predicate SkillFilter(u: User, skill: string, m: SkillMatch) {
    match m
    case LikeOnText => SkillFilterAsWritten(u, skill)
    case ListMembership => HasListedSkill(u, skill)
  }

  /** Whether a mentor passes the query's filters: the mentor role, and the skill
      filter when the `skill` parameter is non-empty. */
  predicate Selected(u: User, skill: Option<string>, m: SkillMatch) {
    u.role == Mentor && (Truthy(skill) ==> SkillFilter(u, skill.value, m))
  }

  /** The rows the filtered query returns, in store order. */
  function SelectMentors(us: seq<User>, skill: Option<string>, m: SkillMatch): (r: seq<User>)
    ensures forall u :: u in r <==> u in us && Selected(u, skill, m)
    ensures |r| <= |us|
  {
    if |us| == 0 then []
    else (if Selected(us[0], skill, m) then [us[0]] else []) + SelectMentors(us[1..], skill, m)
  }

  // ---- Ordering ----

  /** The columns `orderBy` can name. */
  datatype SortKey = ByName | BySkills

  /** `orderBy` is declared with an enum in the schema only; any other value is
      accepted and leaves the rows unordered. */
  function SortKeyOf(orderBy: Option<string>): Option<SortKey> {
    if orderBy == Some("name") then Some(ByName)
    else if orderBy == Some("skill") then Some(BySkills)
    else None
  }

  /** `ORDER BY name` compares names; `ORDER BY skills` compares the raw JSON
      text with NULL first. */
  predicate KeyLe(k: SortKey, a: User, b: User) {
    match k
    case ByName => StrLe(a.name, b.name)
    case BySkills => OptLe(a.skills, b.skills)
  }

  lemma KeyLeTotal(k: SortKey, a: User, b: User)
    ensures KeyLe(k, a, b) || KeyLe(k, b, a)
  {
    match k
    case ByName => StrLeTotal(a.name, b.name);
    case BySkills => OptLeTotal(a.skills, b.skills);
  }

  lemma KeyLeTransitive(k: SortKey, a: User, b: User, c: User)
    requires KeyLe(k, a, b) && KeyLe(k, b, c)
    ensures KeyLe(k, a, c)
  {
    match k
    case ByName => StrLeTransitive(a.name, b.name, c.name);
    case BySkills => OptLeTransitive(a.skills, b.skills, c.skills);
  }

  predicate SortedBy(k: SortKey, xs: seq<User>) {
    forall i, j | 0 <= i < j < |xs| :: KeyLe(k, xs[i], xs[j])
  }

  /** `u` placed before the first element it does not follow. */
  function Insert(k: SortKey, u: User, xs: seq<User>): (r: seq<User>)
    ensures multiset(r) == multiset(xs) + multiset{u}
    decreases |xs|
  {
    if |xs| == 0 || KeyLe(k, u, xs[0]) then [u] + xs
    else
      assert xs == [xs[0]] + xs[1..];
      [xs[0]] + Insert(k, u, xs[1..])
  }

  /** Prepending an element no later than everything after it keeps a sequence
      sorted. */
  lemma PrependSorted(k: SortKey, x: User, ys: seq<User>)
    requires SortedBy(k, ys)
    requires forall v | v in ys :: KeyLe(k, x, v)
    ensures SortedBy(k, [x] + ys)
  {
    forall i, j | 0 <= i < j < |[x] + ys|
      ensures KeyLe(k, ([x] + ys)[i], ([x] + ys)[j])
    {
      if i == 0 {
        assert ([x] + ys)[j] == ys[j - 1];
      } else {
        assert ([x] + ys)[i] == ys[i - 1] && ([x] + ys)[j] == ys[j - 1];
      }
    }
  }

  lemma {:induction false} InsertSorted(k: SortKey, u: User, xs: seq<User>)
    requires SortedBy(k, xs)
    ensures SortedBy(k, Insert(k, u, xs))
    decreases |xs|
  {
    if |xs| == 0 || KeyLe(k, u, xs[0]) {
      forall v | v in xs
        ensures KeyLe(k, u, v)
      {
        var j :| 0 <= j < |xs| && xs[j] == v;
        if j > 0 {
          KeyLeTransitive(k, u, xs[0], v);
        }
      }
      PrependSorted(k, u, xs);
    } else {
      var rest := Insert(k, u, xs[1..]);
      InsertSorted(k, u, xs[1..]);
      assert SortedBy(k, xs[1..]);
      KeyLeTotal(k, u, xs[0]);
      forall v | v in rest
        ensures KeyLe(k, xs[0], v)
      {
        assert v in multiset(rest);
        if v != u {
          assert v in multiset(xs[1..]);
          var j :| 0 <= j < |xs[1..]| && xs[1..][j] == v;
          assert xs[j + 1] == v;
        }
      }
      PrependSorted(k, xs[0], rest);
    }
  }

  /** An insertion sort: one of the orders `ORDER BY` may return, since rows with
      equal keys may come back in any order. */
  function SortBy(k: SortKey, xs: seq<User>): (r: seq<User>)
    ensures SortedBy(k, r)
    ensures multiset(r) == multiset(xs)
    decreases |xs|
  {
    if |xs| == 0 then []
    else
      var rest := SortBy(k, xs[1..]);
      InsertSorted(k, xs[0], rest);
      assert xs == [xs[0]] + xs[1..];
      Insert(k, xs[0], rest)
  }

  /** The rows in the order the query returns them. */
  function Ordered(ms: seq<User>, orderBy: Option<string>): (r: seq<User>)
    ensures multiset(r) == multiset(ms)
    ensures SortKeyOf(orderBy).Some? ==> SortedBy(SortKeyOf(orderBy).value, r)
    ensures SortKeyOf(orderBy).None? ==> r == ms
  {
    match SortKeyOf(orderBy)
    case None => ms
    case Some(k) => SortBy(k, ms)
  }

  // ---- Response items ----

  /** The image address a mentor is listed with. */
  function MentorImageUrl(id: nat): string {
    "/images/mentor/" + Decimal.NatToString(id)
  }

  /** One `MentorListItem`; a skills text that does not decode is an uncaught
      error, a 500. */
  function ListItem(u: User): (r: Result<MentorListItem>)
    ensures r.Ok? <==> ShownSkills(u.skills).Some?
    ensures r.Err? ==> r.error == InternalError
    ensures r.Ok? ==>
              && r.value.id == u.id && r.value.email == u.email && r.value.role == u.role
              && r.value.profile.name == u.name
              && r.value.profile.bio == (if u.bio.Some? then u.bio.value else "")
              && r.value.profile.imageUrl == MentorImageUrl(u.id)
              && r.value.profile.skills == ShownSkills(u.skills).value
  {
    match ShownSkills(u.skills)
    case None => Err(InternalError)
    case Some(xs) =>
      var bio := if u.bio.Some? then u.bio.value else "";
      Ok(MentorListItem(u.id, u.email, u.role, MentorDetails(u.name, bio, MentorImageUrl(u.id), xs)))
  }

  /** The items for the rows in order; the first row that fails fails the call. */
  function ListItems(us: seq<User>): (r: Result<seq<MentorListItem>>)
    ensures r.Ok? <==> forall i | 0 <= i < |us| :: ListItem(us[i]).Ok?
    ensures r.Ok? ==> |r.value| == |us| && forall i | 0 <= i < |us| :: ListItem(us[i]) == Ok(r.value[i])
    ensures r.Err? ==> r.error == InternalError
  {
    if |us| == 0 then Ok([])
    else
      var item :- ListItem(us[0]);
      var rest :- ListItems(us[1..]);
      assert forall i | 1 <= i < |us| :: us[i] == us[1..][i - 1];
      Ok([item] + rest)
  }

  /** The rows `get_mentors` converts: the selected mentors, each once, in the
      requested order. */
  lemma RowsAreSelected(us: seq<User>, skill: Option<string>, m: SkillMatch, orderBy: Option<string>, rows: seq<User>)
    requires rows == Ordered(SelectMentors(us, skill, m), orderBy)
    ensures |rows| == |SelectMentors(us, skill, m)|
    ensures forall u :: u in rows <==> u in us && Selected(u, skill, m)
  {
    var ms := SelectMentors(us, skill, m);
    forall u
      ensures u in rows <==> u in ms
    {
      assert u in rows <==> u in multiset(rows);
    }
    assert |multiset(rows)| == |multiset(ms)|;
  }

  /** `get_mentors`, after the mentee gate: select, order, convert. The code
      filters with `LikeOnText`. */
  function GetMentors(s: Store, skill: Option<string>, m: SkillMatch, orderBy: Option<string>): (r: Result<seq<MentorListItem>>)
    ensures r.Ok? ==> |r.value| == |SelectMentors(s.users, skill, m)|
    ensures r.Ok? && orderBy == Some("name") ==>
              forall i, j | 0 <= i < j < |r.value| :: StrLe(r.value[i].profile.name, r.value[j].profile.name)
    ensures r.Err? <==> exists u | u in s.users && Selected(u, skill, m) :: ListItem(u).Err?
    ensures r.Err? ==> r.error == InternalError
  {
    var rows := Ordered(SelectMentors(s.users, skill, m), orderBy);
    RowsAreSelected(s.users, skill, m, orderBy, rows);
    assert forall i | 0 <= i < |rows| :: rows[i] in rows;
    ListItems(rows)
  }

  /** The item is the item of some selected mentor. */
  predicate ItemOfSelected(item: MentorListItem, us: seq<User>, skill: Option<string>, m: SkillMatch) {
    exists u | u in us && Selected(u, skill, m) :: ListItem(u) == Ok(item)
  }

  /** Every item is a selected mentor's item, and every selected mentor has one. */
  predicate ListsExactly(items: seq<MentorListItem>, us: seq<User>, skill: Option<string>, m: SkillMatch) {
    && (forall i | 0 <= i < |items| :: ItemOfSelected(items[i], us, skill, m))
    && (forall u | u in us && Selected(u, skill, m) ::
          exists i | 0 <= i < |items| :: ListItem(u) == Ok(items[i]))
  }

  /** The list holds exactly the selected mentors. */
  lemma GetMentorsListsSelected(s: Store, skill: Option<string>, m: SkillMatch, orderBy: Option<string>)
    requires GetMentors(s, skill, m, orderBy).Ok?
    ensures ListsExactly(GetMentors(s, skill, m, orderBy).value, s.users, skill, m)
  {
    var r := GetMentors(s, skill, m, orderBy);
    var rows := Ordered(SelectMentors(s.users, skill, m), orderBy);
    assert r == ListItems(rows);
    RowsAreSelected(s.users, skill, m, orderBy, rows);
    ItemsCoverRows(rows, r.value, s.users, skill, m);
  }

  lemma ItemsCoverRows(rows: seq<User>, items: seq<MentorListItem>, us: seq<User>, skill: Option<string>, m: SkillMatch)
    requires ListItems(rows) == Ok(items)
    requires forall u :: u in rows <==> u in us && Selected(u, skill, m)
    ensures ListsExactly(items, us, skill, m)
  {
    forall i | 0 <= i < |items|
      ensures ItemOfSelected(items[i], us, skill, m)
    {
      assert rows[i] in rows;
    }
    forall u | u in us && Selected(u, skill, m)
      ensures exists i | 0 <= i < |items| :: ListItem(u) == Ok(items[i])
    {
      var i :| 0 <= i < |rows| && rows[i] == u;
      assert ListItem(rows[i]) == Ok(items[i]);
    }
  }

  /** With `orderBy=skill` the mentors come in the order of their raw skills
      text, NULL first: the items are those of a sorted arrangement of the
      selected rows. */
  lemma GetMentorsOrderedBySkillText(s: Store, skill: Option<string>, m: SkillMatch)
    requires GetMentors(s, skill, m, Some("skill")).Ok?
    ensures exists rows: seq<User> ::
              && SortedBy(BySkills, rows)
              && multiset(rows) == multiset(SelectMentors(s.users, skill, m))
              && ListItems(rows) == GetMentors(s, skill, m, Some("skill"))
  {
    var rows := Ordered(SelectMentors(s.users, skill, m), Some("skill"));
    assert ListItems(rows) == GetMentors(s, skill, m, Some("skill"));
  }

  /** In a store whose mentors' skills all decode, the list never fails. */
  lemma ReadableSkillsNeverFail(s: Store, skill: Option<string>, m: SkillMatch, orderBy: Option<string>)
    requires SkillsReadable(s.users)
    ensures GetMentors(s, skill, m, orderBy).Ok?
  {
    forall u | u in s.users && Selected(u, skill, m)
      ensures ListItem(u).Ok?
    {
      var i :| 0 <= i < |s.users| && s.users[i] == u;
    }
  }

  lemma {:induction false} NothingSelectedIsEmpty(us: seq<User>, skill: Option<string>, m: SkillMatch, orderBy: Option<string>)
    requires forall i | 0 <= i < |us| :: !Selected(us[i], skill, m)
    ensures SelectMentors(us, skill, m) == []
    ensures Ordered(SelectMentors(us, skill, m), orderBy) == []
    decreases |us|
  {
    if |us| > 0 {
      NothingSelectedIsEmpty(us[1..], skill, m, orderBy);
    }
    assert |multiset(Ordered(SelectMentors(us, skill, m), orderBy))| == 0;
  }

  /** The code's filter never finds a skill with a character above ASCII: the
      stored text has every such character escaped as `\uXXXX`, and LIKE
      compares the pattern literally. The list comes back empty whoever lists
      the skill. */
  lemma WideSkillNeverListed(s: Store, skill: string, j: nat, orderBy: Option<string>)
    requires SkillsTextAscii(s.users)
    requires j < |skill| && skill[j] > '~'
    ensures GetMentors(s, Some(skill), LikeOnText, orderBy) == Ok([])
  {
    forall i | 0 <= i < |s.users|
      ensures !Selected(s.users[i], Some(skill), LikeOnText)
    {
      var u := s.users[i];
      if u.skills.Some? {
        var x := "\"" + skill + "\"";
        assert x[j + 1] == skill[j];
        SqlLike.WideNeedleNeverMatchesAscii(u.skills.value, x, j + 1);
      }
    }
    NothingSelectedIsEmpty(s.users, Some(skill), LikeOnText, orderBy);
  }

  const WideSkill: string := "리액트"
  const WideSkillMentor: User := User(1, "mentor@example.com", "h", Mentor, "Mentor", None, None, None, Some(SkillsJson.Encode([WideSkill])))

  /** A mentor whose saved skills are exactly ["리액트"] is not found by a
      search for "리액트", though the same mentor's profile lists that skill. */
  lemma WideSkillExample()
    ensures HasListedSkill(WideSkillMentor, WideSkill)
    ensures GetMentors(Store([WideSkillMentor], []), Some(WideSkill), LikeOnText, None) == Ok([])
  {
    SkillsJson.DecodeEncode([WideSkill]);
    SkillsJson.EncodeIsAscii([WideSkill]);
    assert WideSkill[0] > '~';
    WideSkillNeverListed(Store([WideSkillMentor], []), WideSkill, 0, None);
  }

  /** The code's filter does find a skill made of plain ASCII characters (no
      quote, no backslash) in any skill list the encoder wrote. */
  lemma PlainSkillListedAsWritten(u: User, xs: seq<string>, k: nat)
    requires u.role == Mentor && u.skills == Some(SkillsJson.Encode(xs))
    requires k < |xs| && |xs[k]| > 0
    requires forall c | c in xs[k] :: SkillsJson.Plain(c)
    ensures Selected(u, Some(xs[k]), LikeOnText)
  {
    var pos := SkillsJson.QuotedItemOccurs(xs, k);
    SkillsJson.EscapePlain(xs[k]);
    SqlLike.OccurrenceMatches(u.skills.value, "\"" + xs[k] + "\"", pos);
  }

  /** The corrected filter lists exactly the mentors whose shown skills contain
      the skill: every item shows it, and every mentor showing it is listed. */
  lemma ListMembershipFindsExactly(s: Store, skill: string, orderBy: Option<string>)
    requires |skill| > 0 && SkillsReadable(s.users)
    ensures GetMentors(s, Some(skill), ListMembership, orderBy).Ok?
    ensures ShowsSkillExactly(GetMentors(s, Some(skill), ListMembership, orderBy).value, s.users, skill)
  {
    ReadableSkillsNeverFail(s, Some(skill), ListMembership, orderBy);
    GetMentorsListsSelected(s, Some(skill), ListMembership, orderBy);
    ItemsShowSkill(GetMentors(s, Some(skill), ListMembership, orderBy).value, s.users, skill);
  }

  predicate ShowsSkillExactly(items: seq<MentorListItem>, us: seq<User>, skill: string) {
    && (forall i | 0 <= i < |items| :: skill in items[i].profile.skills)
    && (forall u | u in us && u.role == Mentor && HasListedSkill(u, skill) ::
          exists i | 0 <= i < |items| :: ListItem(u) == Ok(items[i]))
  }

  lemma ItemsShowSkill(items: seq<MentorListItem>, us: seq<User>, skill: string)
    requires |skill| > 0 && ListsExactly(items, us, Some(skill), ListMembership)
    ensures ShowsSkillExactly(items, us, skill)
  {
    forall i | 0 <= i < |items|
      ensures skill in items[i].profile.skills
    {
      assert ItemOfSelected(items[i], us, Some(skill), ListMembership);
      var u :| u in us && Selected(u, Some(skill), ListMembership) && ListItem(u) == Ok(items[i]);
    }
    forall u | u in us && u.role == Mentor && HasListedSkill(u, skill)
      ensures exists i | 0 <= i < |items| :: ListItem(u) == Ok(items[i])
    {
      assert Selected(u, Some(skill), ListMembership);
    }
  }

  /** With the corrected filter, a mentor who saved a skill list containing the
      skill is found, whatever characters the skill has. */
  lemma SavedSkillIsFound(s: Store, u: User, xs: seq<string>, k: nat, orderBy: Option<string>)
    requires SkillsReadable(s.users)
    requires u in s.users && u.role == Mentor && u.skills == Some(SkillsJson.Encode(xs))
    requires k < |xs| && |xs[k]| > 0
    ensures var r := GetMentors(s, Some(xs[k]), ListMembership, orderBy);
            r.Ok? && exists i | 0 <= i < |r.value| :: ListItem(u) == Ok(r.value[i])
  {
    SkillsJson.DecodeEncode(xs);
    assert xs[k] in xs;
    ListMembershipFindsExactly(s, xs[k], orderBy);
  }
}
