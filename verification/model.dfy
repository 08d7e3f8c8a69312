/** The two tables of the back end (users and match_requests) as immutable
    values, the enumerations stored in them, id allocation, first-match lookup
    and the cross-record invariants the handlers are meant to keep. */
module Model {
  import opened Common
  import SkillsJson

  /** `UserRole`: exactly two members. */
  datatype Role = Mentor | Mentee

  /** `MatchRequestStatus`: exactly four members. */
  datatype Status = Pending | Accepted | Rejected | Cancelled

  /** The value each role is stored and serialised as. */
  function RoleValue(r: Role): string {
    match r
    case Mentor => "mentor"
    case Mentee => "mentee"
  }

  /** The value each status is stored and serialised as. */
  function StatusValue(st: Status): string {
    match st
    case Pending => "pending"
    case Accepted => "accepted"
    case Rejected => "rejected"
    case Cancelled => "cancelled"
  }

  /** A row of `users`. Nullable columns are `Option`s; `skills` holds the raw
      JSON text and is used by mentors only. */
  datatype User = User(
    id: nat,
    email: string,
    passwordHash: string,
    role: Role,
    name: string,
    bio: Option<string>,
    imageData: Option<seq<byte>>,
    imageFilename: Option<string>,
    skills: Option<string>)

  /** A row of `match_requests`. Both references are non-null user ids with no
      role constraint; the message is non-null (but may be empty). */
  datatype MatchRequest = MatchRequest(
    id: nat,
    mentorId: nat,
    menteeId: nat,
    message: string,
    status: Status)

  datatype Store = Store(users: seq<User>, requests: seq<MatchRequest>)

  /** What a handler leaves behind: the store after the call and the response. */
  datatype Outcome<+T> = Outcome(store: Store, result: Result<T>)

  /** Pending and accepted requests are the active ones. */
  predicate IsActive(st: Status) {
    st == Pending || st == Accepted
  }

  /** The first element satisfying `p`, as a query's `.first()` returns it. */
  function FirstIndex<T>(xs: seq<T>, p: T -> bool): (r: Option<nat>)
    ensures r.Some? ==> r.value < |xs| && p(xs[r.value])
    ensures r.Some? ==> forall j | 0 <= j < r.value :: !p(xs[j])
    ensures r.None? ==> forall j | 0 <= j < |xs| :: !p(xs[j])
  {
    if |xs| == 0 then None
    else if p(xs[0]) then Some(0)
    else
      match FirstIndex(xs[1..], p)
      case None => None
      case Some(k) => Some(k + 1)
  }

  function MaxUserId(us: seq<User>): (m: nat)
    ensures forall i | 0 <= i < |us| :: us[i].id <= m
  {
    if |us| == 0 then 0
    else
      var m := MaxUserId(us[1..]);
      if us[0].id > m then us[0].id else m
  }

  function MaxRequestId(rs: seq<MatchRequest>): (m: nat)
    ensures forall i | 0 <= i < |rs| :: rs[i].id <= m
  {
    if |rs| == 0 then 0
    else
      var m := MaxRequestId(rs[1..]);
      if rs[0].id > m then rs[0].id else m
  }

  /** The id SQLite gives the next inserted user: one past the largest so far. */
  function NextUserId(us: seq<User>): (n: nat)
    ensures n >= 1
    ensures forall i | 0 <= i < |us| :: us[i].id < n
  {
    MaxUserId(us) + 1
  }

  /** The id SQLite gives the next inserted match request. */
  function NextRequestId(rs: seq<MatchRequest>): (n: nat)
    ensures n >= 1
    ensures forall i | 0 <= i < |rs| :: rs[i].id < n
  {
    MaxRequestId(rs) + 1
  }

  /** Some stored user has this id. */
  predicate HasUser(us: seq<User>, id: int) {
    exists j | 0 <= j < |us| :: us[j].id == id
  }

  // ---- Invariants ----

  /** `users.id` is the primary key. */
  predicate UserIdsUnique(us: seq<User>) {
    forall i, j | 0 <= i < j < |us| :: us[i].id != us[j].id
  }

  /** `users.email` is unique. */
  predicate EmailsUnique(us: seq<User>) {
    forall i, j | 0 <= i < j < |us| :: us[i].email != us[j].email
  }

  /** `match_requests.id` is the primary key. */
  predicate RequestIdsUnique(rs: seq<MatchRequest>) {
    forall i, j | 0 <= i < j < |rs| :: rs[i].id != rs[j].id
  }

  /** Both foreign keys of every request name a stored user. */
  predicate ReferencesResolve(s: Store) {
    forall i | 0 <= i < |s.requests| ::
      HasUser(s.users, s.requests[i].mentorId) && HasUser(s.users, s.requests[i].menteeId)
  }

  /** A mentee has at most one pending request. */
  predicate PendingPerMenteeAtMostOne(rs: seq<MatchRequest>) {
    forall i, j | 0 <= i < j < |rs| ::
      !(rs[i].status == Pending && rs[j].status == Pending && rs[i].menteeId == rs[j].menteeId)
  }

  /** A mentor has at most one accepted request. */
  predicate AcceptedPerMentorAtMostOne(rs: seq<MatchRequest>) {
    forall i, j | 0 <= i < j < |rs| ::
      !(rs[i].status == Accepted && rs[j].status == Accepted && rs[i].mentorId == rs[j].mentorId)
  }

  /** A (mentor, mentee) pair has at most one active request. */
  predicate ActivePerPairAtMostOne(rs: seq<MatchRequest>) {
    forall i, j | 0 <= i < j < |rs| ::
      !(IsActive(rs[i].status) && IsActive(rs[j].status)
        && rs[i].mentorId == rs[j].mentorId && rs[i].menteeId == rs[j].menteeId)
  }

  /** The skills a profile shows: the decoded list, or none when the column is
      NULL or empty. None when the text is not a JSON list of strings. */
  function ShownSkills(skills: Option<string>): Option<seq<string>> {
    if Truthy(skills) then SkillsJson.Decode(skills.value) else Some([])
  }

  /** Every mentor's non-empty skills text is a JSON list of strings. */
  predicate SkillsReadable(us: seq<User>) {
    forall i | 0 <= i < |us| ::
      us[i].role == Mentor ==> ShownSkills(us[i].skills).Some?
  }

  /** Every stored skills text is ASCII only, as everything the encoder writes
      is. */
  predicate SkillsTextAscii(us: seq<User>) {
    forall i | 0 <= i < |us| :: us[i].skills.Some? ==> SkillsJson.Ascii(us[i].skills.value)
  }

  /** The invariants every operation of the back end keeps. Pair uniqueness of
      active requests is not among them: accepting re-activates a closed request. */
  predicate Valid(s: Store) {
    && UserIdsUnique(s.users)
    && EmailsUnique(s.users)
    && SkillsReadable(s.users)
    && SkillsTextAscii(s.users)
    && RequestIdsUnique(s.requests)
    && ReferencesResolve(s)
    && PendingPerMenteeAtMostOne(s.requests)
    && AcceptedPerMentorAtMostOne(s.requests)
  }

  /** How many pending requests the mentee has. */
  function PendingCount(rs: seq<MatchRequest>, mentee: nat): nat {
    if |rs| == 0 then 0
    else (if rs[0].status == Pending && rs[0].menteeId == mentee then 1 else 0) + PendingCount(rs[1..], mentee)
  }

  /** How many accepted requests the mentor has. */
  function AcceptedCount(rs: seq<MatchRequest>, mentor: nat): nat {
    if |rs| == 0 then 0
    else (if rs[0].status == Accepted && rs[0].mentorId == mentor then 1 else 0) + AcceptedCount(rs[1..], mentor)
  }

  /** The pairwise form of the per-mentee rule gives the counting form: at most
      one pending request per mentee. */
  lemma {:induction false} PendingCountAtMostOne(rs: seq<MatchRequest>, mentee: nat)
    requires PendingPerMenteeAtMostOne(rs)
    ensures PendingCount(rs, mentee) <= 1
    decreases |rs|
  {
    if |rs| > 0 {
      PendingCountAtMostOne(rs[1..], mentee);
      if rs[0].status == Pending && rs[0].menteeId == mentee {
        NoOtherPending(rs[1..], mentee);
      }
    }
  }

  lemma {:induction false} NoOtherPending(rs: seq<MatchRequest>, mentee: nat)
    requires forall i | 0 <= i < |rs| :: !(rs[i].status == Pending && rs[i].menteeId == mentee)
    ensures PendingCount(rs, mentee) == 0
    decreases |rs|
  {
    if |rs| > 0 {
      NoOtherPending(rs[1..], mentee);
    }
  }

  /** The pairwise form of the per-mentor rule gives the counting form. */
  lemma {:induction false} AcceptedCountAtMostOne(rs: seq<MatchRequest>, mentor: nat)
    requires AcceptedPerMentorAtMostOne(rs)
    ensures AcceptedCount(rs, mentor) <= 1
    decreases |rs|
  {
    if |rs| > 0 {
      AcceptedCountAtMostOne(rs[1..], mentor);
      if rs[0].status == Accepted && rs[0].mentorId == mentor {
        NoOtherAccepted(rs[1..], mentor);
      }
    }
  }

  lemma {:induction false} NoOtherAccepted(rs: seq<MatchRequest>, mentor: nat)
    requires forall i | 0 <= i < |rs| :: !(rs[i].status == Accepted && rs[i].mentorId == mentor)
    ensures AcceptedCount(rs, mentor) == 0
    decreases |rs|
  {
    if |rs| > 0 {
      NoOtherAccepted(rs[1..], mentor);
    }
  }
}
