/** Resolution of the caller from a verified token payload, and the two role
    gates layered on it. Authentication (401) is decided before the role (403)
    because each gate only runs on the user the resolver returned. */
module Dependencies {
  import opened Common
  import opened Model
  import opened Credentials
  import Decimal

  const InvalidCredentials: HttpError := HttpError(401, "Invalid authentication credentials")
  const UserNotFound: HttpError := HttpError(401, "User not found")
  const MentorRequired: HttpError := HttpError(403, "Access forbidden: mentor role required")
  const MenteeRequired: HttpError := HttpError(403, "Access forbidden: mentee role required")

  /** `int(payload.get("sub"))`; None stands for the TypeError or ValueError
      that `int` raises. It never yields None as a value, which is why the
      handler's later `user_id is None` test can never fire. */
  function SubjectId(v: Claim): Option<int> {
    match v
    case Str(s) => Decimal.ParseInt(s)
    case Int(i) => Some(i)
    case Null => None
  }

  /** `get_current_user` applied to the result of `verify_token`. */
  function GetCurrentUser(s: Store, payload: Option<Claims>): (r: Result<User>)
    ensures r == Err(InvalidCredentials) <==> payload.None?
    ensures r == Err(InternalError) <==> payload.Some? && SubjectId(Get(payload.value, "sub")).None?
    ensures payload.Some? && SubjectId(Get(payload.value, "sub")).Some? ==>
              var uid := SubjectId(Get(payload.value, "sub")).value;
              && (r == Err(UserNotFound) <==> !HasUser(s.users, uid))
              && (r.Ok? ==> r.value in s.users && r.value.id == uid)
    ensures r.Ok? || r.error in {InvalidCredentials, UserNotFound, InternalError}
  {
    match payload
    case None => Err(InvalidCredentials)
    case Some(p) =>
      match SubjectId(Get(p, "sub"))
      case None => Err(InternalError)
      case Some(uid) =>
        match FirstIndex(s.users, (u: User) => u.id == uid)
        case None => Err(UserNotFound)
        case Some(i) => Ok(s.users[i])
  }

  /** `get_current_mentor`. */
  function GetCurrentMentor(s: Store, payload: Option<Claims>): (r: Result<User>)
    ensures GetCurrentUser(s, payload).Err? ==> r == GetCurrentUser(s, payload)
    ensures GetCurrentUser(s, payload).Ok? && GetCurrentUser(s, payload).value.role != Mentor ==>
              r == Err(MentorRequired)
    ensures r.Ok? ==> r == GetCurrentUser(s, payload) && r.value.role == Mentor
  {
    var user :- GetCurrentUser(s, payload);
    if user.role != Mentor then Err(MentorRequired) else Ok(user)
  }

  /** `get_current_mentee`. */
  function GetCurrentMentee(s: Store, payload: Option<Claims>): (r: Result<User>)
    ensures GetCurrentUser(s, payload).Err? ==> r == GetCurrentUser(s, payload)
    ensures GetCurrentUser(s, payload).Ok? && GetCurrentUser(s, payload).value.role != Mentee ==>
              r == Err(MenteeRequired)
    ensures r.Ok? ==> r == GetCurrentUser(s, payload) && r.value.role == Mentee
  {
    var user :- GetCurrentUser(s, payload);
    if user.role != Mentee then Err(MenteeRequired) else Ok(user)
  }

  /** A role gate answers 403 only for an authenticated caller, and every
      authentication failure comes out of both gates unchanged. */
  lemma AuthenticationBeforeRole(s: Store, payload: Option<Claims>)
    ensures GetCurrentMentor(s, payload).Err? && GetCurrentMentor(s, payload).error.status == 403 ==>
              GetCurrentUser(s, payload).Ok?
    ensures GetCurrentMentee(s, payload).Err? && GetCurrentMentee(s, payload).error.status == 403 ==>
              GetCurrentUser(s, payload).Ok?
    ensures payload.None? ==>
              GetCurrentMentor(s, payload) == Err(InvalidCredentials)
              && GetCurrentMentee(s, payload) == Err(InvalidCredentials)
  {
  }

  /** Every authenticated user passes exactly one of the two gates. */
  lemma ExactlyOneGate(s: Store, payload: Option<Claims>)
    requires GetCurrentUser(s, payload).Ok?
    ensures GetCurrentMentor(s, payload).Ok? != GetCurrentMentee(s, payload).Ok?
  {
  }
}
