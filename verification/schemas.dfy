/** Request and response shapes of the API, with the validation the schema
    layer performs before a handler runs. Role-dependent shapes are tagged
    variants: a mentor shape carries a skills list, a mentee shape does not. */
module Schemas {
  import opened Common
  import opened Model

  /** The request-schema `UserRole` enum: which strings it accepts. */
  function ParseRole(v: string): Option<Role> {
    if v == "mentor" then Some(Mentor)
    else if v == "mentee" then Some(Mentee)
    else None
  }

  /** The request-schema `MatchRequestStatus` enum. */
  function ParseStatus(v: string): Option<Status> {
    if v == "pending" then Some(Pending)
    else if v == "accepted" then Some(Accepted)
    else if v == "rejected" then Some(Rejected)
    else if v == "cancelled" then Some(Cancelled)
    else None
  }

  /** The schema role enum accepts exactly the stored role values, each naming
      the same role. */
  lemma RoleSchemaMatchesModel(v: string, r: Role)
    ensures ParseRole(v) == Some(r) <==> RoleValue(r) == v
  {
  }

  /** The schema status enum accepts exactly the stored status values, each
      naming the same status. */
  lemma StatusSchemaMatchesModel(v: string, st: Status)
    ensures ParseStatus(v) == Some(st) <==> StatusValue(st) == v
  {
  }

  /** Distinct roles and statuses are stored as distinct strings. */
  lemma EnumValuesDistinct(r1: Role, r2: Role, s1: Status, s2: Status)
    ensures RoleValue(r1) == RoleValue(r2) ==> r1 == r2
    ensures StatusValue(s1) == StatusValue(s2) ==> s1 == s2
  {
  }

  /** `MatchRequest` response: every column, message included. */
  datatype RequestView = RequestView(id: nat, mentorId: nat, menteeId: nat, message: string, status: Status)

  /** `MatchRequestOutgoing` response: the same without the message. */
  datatype OutgoingView = OutgoingView(id: nat, mentorId: nat, menteeId: nat, status: Status)

  function ViewOf(r: MatchRequest): RequestView {
    RequestView(r.id, r.mentorId, r.menteeId, r.message, r.status)
  }

  function OutgoingViewOf(r: MatchRequest): OutgoingView {
    OutgoingView(r.id, r.mentorId, r.menteeId, r.status)
  }

  /** The full view determines the request; the outgoing view determines it up
      to the message, which it does not reveal. */
  lemma ViewsAndMessage(r1: MatchRequest, r2: MatchRequest)
    ensures ViewOf(r1) == ViewOf(r2) <==> r1 == r2
    ensures OutgoingViewOf(r1) == OutgoingViewOf(r2) <==> r1.(message := r2.message) == r2
  {
  }

  datatype MentorDetails = MentorDetails(name: string, bio: string, imageUrl: string, skills: seq<string>)
  datatype MenteeDetails = MenteeDetails(name: string, bio: string, imageUrl: string)

  /** `MentorProfile | MenteeProfile`, told apart by the tag. */
  datatype Profile =
    | MentorProfile(id: nat, email: string, role: Role, mentor: MentorDetails)
    | MenteeProfile(id: nat, email: string, role: Role, mentee: MenteeDetails)

  /** `MentorListItem`. */
  datatype MentorListItem = MentorListItem(id: nat, email: string, role: Role, profile: MentorDetails)

  /** A validated `SignupRequest`. */
  datatype SignupRequest = SignupRequest(email: string, password: string, name: string, role: Role)

  /** A signup body as the client sent it. */
  datatype RawSignup = RawSignup(email: string, password: string, name: string, role: string)

  /** The `EmailStr` field type: an external validator decides whether a text is
      an acceptable address (`isEmail`) and, for one that is, which normalised
      address the field holds (`normalize`: the domain lower-cased, surrounding
      blanks and a display name dropped). */
  datatype EmailRules = EmailRules(isEmail: string -> bool, normalize: string -> string)

  /** Schema validation of a signup body: the address must be acceptable and
      the role one of the two roles; the validated body holds the normalised
      address. */
  function ValidateSignup(raw: RawSignup, rules: EmailRules): (r: Result<SignupRequest>)
    ensures r.Ok? <==> rules.isEmail(raw.email) && (raw.role == "mentor" || raw.role == "mentee")
    ensures r.Ok? ==>
              && r.value.email == rules.normalize(raw.email) && r.value.password == raw.password
              && r.value.name == raw.name && RoleValue(r.value.role) == raw.role
    ensures r.Err? ==> r.error == ValidationError
  {
    if !rules.isEmail(raw.email) then Err(ValidationError)
    else
      match ParseRole(raw.role)
      case None => Err(ValidationError)
      case Some(role) => Ok(SignupRequest(rules.normalize(raw.email), raw.password, raw.name, role))
  }

  /** A validated `LoginRequest`. */
  datatype LoginRequest = LoginRequest(email: string, password: string)

  /** A login body as the client sent it. */
  datatype RawLogin = RawLogin(email: string, password: string)

  /** Schema validation of a login body: the same `EmailStr` rules as signup. */
  function ValidateLogin(raw: RawLogin, rules: EmailRules): (r: Result<LoginRequest>)
    ensures r.Ok? <==> rules.isEmail(raw.email)
    ensures r.Ok? ==> r.value.email == rules.normalize(raw.email) && r.value.password == raw.password
    ensures r.Err? ==> r.error == ValidationError
  {
    if !rules.isEmail(raw.email) then Err(ValidationError)
    else Ok(LoginRequest(rules.normalize(raw.email), raw.password))
  }

  /** A profile-update body after validation against
      `Union[UpdateMentorProfileRequest, UpdateMenteeProfileRequest]`. */
  datatype UpdateBody =
    | MentorUpdate(id: int, name: string, role: Role, bio: string, image: string, skills: seq<string>)
    | MenteeUpdate(id: int, name: string, role: Role, bio: string, image: string)

  /** The `skills` member of a raw update body. */
  datatype RawSkills = Absent | StringList(items: seq<string>) | NotAStringList

  datatype RawUpdate = RawUpdate(id: int, name: string, role: string, bio: string, image: string, skills: RawSkills)

  /** Union validation tries the mentor shape first: a body whose skills are a
      list of strings is a mentor update, any other body with a valid role is a
      mentee update (an unknown `skills` member is ignored there), whatever the
      role field says. */
  function ParseUpdate(raw: RawUpdate): (r: Result<UpdateBody>)
    ensures r.Ok? <==> ParseRole(raw.role).Some?
    ensures r.Ok? ==> (r.value.MentorUpdate? <==> raw.skills.StringList?)
    ensures r.Ok? && r.value.MentorUpdate? ==> r.value.skills == raw.skills.items
    ensures r.Ok? ==>
              && r.value.id == raw.id && r.value.name == raw.name && r.value.bio == raw.bio
              && r.value.image == raw.image && RoleValue(r.value.role) == raw.role
    ensures r.Err? ==> r.error == ValidationError
  {
    match ParseRole(raw.role)
    case None => Err(ValidationError)
    case Some(role) =>
      match raw.skills
      case StringList(items) => Ok(MentorUpdate(raw.id, raw.name, role, raw.bio, raw.image, items))
      case _ => Ok(MenteeUpdate(raw.id, raw.name, role, raw.bio, raw.image))
  }

  /** `MatchRequestCreate`. */
  datatype MatchRequestCreate = MatchRequestCreate(mentorId: int, menteeId: int, message: string)
}
