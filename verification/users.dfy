/** The user routes: the caller's own profile, the profile update with its
    image checks, and the profile image. */
module Users {
  import opened Common
  import opened Model
  import opened Schemas
  import SkillsJson
  import Decimal

  const OtherProfile: HttpError := HttpError(403, "Cannot update other user's profile")
  const UserMissing: HttpError := HttpError(404, "User not found")
  const WrongFormat: string := "Only JPEG and PNG images are allowed"
  const WrongDimensions: string := "Image size must be between 500x500 and 1000x1000 pixels"
  const TooLarge: string := "Image size must be less than 1MB"
  /** What Python says when `.lower()` is called on None. */
  const NoFormat: string := "'NoneType' object has no attribute 'lower'"
  const MaxImageBytes: nat := 1024 * 1024
  const MinSide: int := 500
  const MaxSide: int := 1000

  /** The image address a profile is shown with. */
  function ProfileImageUrl(u: User): string {
    "/images/" + RoleValue(u.role) + "/" + Decimal.NatToString(u.id)
  }

  /** `get_current_user_info`: a mentor profile with the decoded skills, or a
      mentee profile; a mentor's skills text that does not decode is a 500. */
  function ProfileOf(u: User): (r: Result<Profile>)
    ensures r.Ok? <==> u.role == Mentee || ShownSkills(u.skills).Some?
    ensures r.Err? ==> r.error == InternalError
    ensures r.Ok? ==> r.value.id == u.id && r.value.email == u.email && r.value.role == u.role
    ensures r.Ok? ==> (r.value.MentorProfile? <==> u.role == Mentor)
    ensures r.Ok? && u.role == Mentor ==>
              r.value.mentor == MentorDetails(u.name, if u.bio.Some? then u.bio.value else "",
                                              ProfileImageUrl(u), ShownSkills(u.skills).value)
    ensures r.Ok? && u.role == Mentee ==>
              r.value.mentee == MenteeDetails(u.name, if u.bio.Some? then u.bio.value else "", ProfileImageUrl(u))
  {
    var bio := if u.bio.Some? then u.bio.value else "";
    match u.role
    case Mentor =>
      (match ShownSkills(u.skills)
       case None => Err(InternalError)
       case Some(xs) => Ok(MentorProfile(u.id, u.email, u.role, MentorDetails(u.name, bio, ProfileImageUrl(u), xs))))
    case Mentee => Ok(MenteeProfile(u.id, u.email, u.role, MenteeDetails(u.name, bio, ProfileImageUrl(u))))
  }

  // ---- Image upload ----

  /** What saving the cropped image produced: an error, or the bytes and the
      format the cropped image reports. */
  datatype Saved = SaveFailed(reason: string) | Saved(bytes: seq<byte>, format: Option<string>)

  /** What base64 decoding and the imaging library made of the uploaded text:
      an error, or an image with its format, size and the result of cropping it
      to a square and saving it. */
  datatype ImageProbe =
    | Undecodable(reason: string)
    | Opened(format: Option<string>, width: int, height: int, save: Saved)

  /** Every error inside the image block is caught and re-raised as a 400 whose
      detail embeds the error's text; an HTTP error's text is "status: detail". */
  function ImageError(reason: string): HttpError {
    HttpError(400, "Invalid image data: " + reason)
  }

  function RaisedText(detail: string): string {
    "400: " + detail
  }

  predicate AllowedFormat(f: Option<string>) {
    f == Some("JPEG") || f == Some("PNG")
  }

  predicate AllowedSize(width: int, height: int) {
    MinSide <= width <= MaxSide && MinSide <= height <= MaxSide
  }

  /** The upload passes every check of the image block: it opens as a JPEG or
      PNG within the size bounds, and saving the cropped image gives at most
      1 MiB and reports a format. */
  predicate ImageAccepted(probe: ImageProbe) {
    && probe.Opened? && AllowedFormat(probe.format) && AllowedSize(probe.width, probe.height)
    && probe.save.Saved? && |probe.save.bytes| <= MaxImageBytes && probe.save.format.Some?
  }

  /** The file name an accepted image is stored under. */
  function ImageFileName(userId: nat, format: string): string {
    "profile_" + Decimal.NatToString(userId) + "." + LowerAscii(format)
  }

  /** The stored image and its file name, or the 400 the image block raises.
      The checks run in the source's order: decoding, format, dimensions,
      saving, bytes, the saved format. */
  function StoreImage(probe: ImageProbe, userId: nat): (r: Result<(seq<byte>, string)>)
    ensures r.Ok? <==> ImageAccepted(probe)
    ensures r.Ok? ==> r.value.0 == probe.save.bytes && |r.value.0| <= MaxImageBytes
    ensures r.Ok? ==> r.value.1 == ImageFileName(userId, probe.save.format.value)
    ensures probe.Undecodable? ==> r == Err(ImageError(probe.reason))
    ensures probe.Opened? && !AllowedFormat(probe.format) ==> r == Err(ImageError(RaisedText(WrongFormat)))
    ensures probe.Opened? && AllowedFormat(probe.format) && !AllowedSize(probe.width, probe.height) ==>
              r == Err(ImageError(RaisedText(WrongDimensions)))
    ensures probe.Opened? && AllowedFormat(probe.format) && AllowedSize(probe.width, probe.height) ==>
              && (probe.save.SaveFailed? ==> r == Err(ImageError(probe.save.reason)))
              && (probe.save.Saved? && |probe.save.bytes| > MaxImageBytes ==> r == Err(ImageError(RaisedText(TooLarge))))
              && (probe.save.Saved? && |probe.save.bytes| <= MaxImageBytes && probe.save.format.None? ==>
                    r == Err(ImageError(NoFormat)))
    ensures r.Err? ==> r.error.status == 400
  {
    match probe
    case Undecodable(reason) => Err(ImageError(reason))
    case Opened(format, width, height, save) =>
      if !AllowedFormat(format) then Err(ImageError(RaisedText(WrongFormat)))
      else if !AllowedSize(width, height) then Err(ImageError(RaisedText(WrongDimensions)))
      else
        match save
        case SaveFailed(reason) => Err(ImageError(reason))
        case Saved(bytes, saved) =>
          if |bytes| > MaxImageBytes then Err(ImageError(RaisedText(TooLarge)))
          else if saved.None? then Err(ImageError(NoFormat))
          else Ok((bytes, ImageFileName(userId, saved.value)))
  }

  /** Different users never share an image file name, whatever the formats:
      the digits of the id end where the first dot is. */
  lemma ImageFileNamesDistinct(p1: ImageProbe, p2: ImageProbe, a: nat, b: nat)
    requires StoreImage(p1, a).Ok? && StoreImage(p2, b).Ok?
    requires a != b
    ensures StoreImage(p1, a).value.1 != StoreImage(p2, b).value.1
  {
    var x, y := Decimal.NatToString(a), Decimal.NatToString(b);
    var e1, e2 := LowerAscii(p1.save.format.value), LowerAscii(p2.save.format.value);
    Decimal.NatToStringInjective(a, b);
    var n1, n2 := StoreImage(p1, a).value.1, StoreImage(p2, b).value.1;
    if n1 == n2 {
      assert n1 == "profile_" + (x + "." + e1);
      assert n2 == "profile_" + (y + "." + e2);
      assert n1[|"profile_"|..] == x + "." + e1;
      assert n2[|"profile_"|..] == y + "." + e2;
      DigitsEndAtDot(x, y, e1, e2);
    }
  }

  /** Two digit strings each followed by a dot and anything are equal if the
      whole texts are. */
  lemma DigitsEndAtDot(x: string, y: string, e1: string, e2: string)
    requires Decimal.AllDigits(x) && Decimal.AllDigits(y)
    requires x + "." + e1 == y + "." + e2
    ensures x == y
  {
    var t, u := x + "." + e1, y + "." + e2;
    assert t[|x|] == '.' && u[|y|] == '.';
    assert forall i | 0 <= i < |x| :: t[i] == x[i];
    assert forall i | 0 <= i < |y| :: u[i] == y[i];
    if |x| == |y| {
      assert x == t[..|x|];
      assert y == u[..|y|];
    }
  }

  /** The user after the update: name and bio from the body, the image when one
      was sent, the encoded skills for a mentor-shaped body. Role, e-mail and
      password are left alone. */
  function Updated(caller: User, body: UpdateBody, probe: ImageProbe): (r: Result<User>)
    ensures r.Ok? ==> r.value.id == caller.id && r.value.email == caller.email
                      && r.value.passwordHash == caller.passwordHash && r.value.role == caller.role
    ensures r.Ok? ==> r.value.name == body.name && r.value.bio == Some(body.bio)
    ensures r.Ok? && |body.image| == 0 ==>
              r.value.imageData == caller.imageData && r.value.imageFilename == caller.imageFilename
    ensures r.Ok? && |body.image| > 0 ==>
              && StoreImage(probe, caller.id).Ok?
              && r.value.imageData == Some(StoreImage(probe, caller.id).value.0)
              && r.value.imageFilename == Some(StoreImage(probe, caller.id).value.1)
    ensures r.Ok? && body.MentorUpdate? ==> r.value.skills == Some(SkillsJson.Encode(body.skills))
    ensures r.Ok? && body.MenteeUpdate? ==> r.value.skills == caller.skills
    ensures r.Err? <==> |body.image| > 0 && StoreImage(probe, caller.id).Err?
    ensures r.Err? ==> r.error == StoreImage(probe, caller.id).error
  {
    var u := caller.(name := body.name, bio := Some(body.bio));
    var u :- if |body.image| == 0 then Ok(u)
             else
               var (bytes, filename) :- StoreImage(probe, caller.id);
               Ok(u.(imageData := Some(bytes), imageFilename := Some(filename)));
    if body.MentorUpdate? then Ok(u.(skills := Some(SkillsJson.Encode(body.skills)))) else Ok(u)
  }

  /** Every user with the id of `u` replaced by `u`. */
  function ReplaceUser(us: seq<User>, u: User): (r: seq<User>)
    ensures |r| == |us|
    ensures forall i | 0 <= i < |us| :: r[i] == if us[i].id == u.id then u else us[i]
  {
    if |us| == 0 then [] else [if us[0].id == u.id then u else us[0]] + ReplaceUser(us[1..], u)
  }

  /** `update_profile`: 403 for another user's id, the image block's 400s,
      then the commit and the caller's profile. Until the commit nothing is
      stored; the 500 of a skills text that does not decode comes after it. */
  function UpdateProfile(s: Store, caller: User, body: UpdateBody, probe: ImageProbe): (o: Outcome<Profile>)
    ensures caller.id != body.id <==> o.result == Err(OtherProfile)
    ensures o.result.Err? && o.result.error.status != 500 ==> o.store == s
    ensures caller.id == body.id && Updated(caller, body, probe).Err? ==>
              o.result == Err(Updated(caller, body, probe).error)
    ensures caller.id == body.id && Updated(caller, body, probe).Ok? ==>
              && o.store.requests == s.requests
              && o.store.users == ReplaceUser(s.users, Updated(caller, body, probe).value)
              && o.result == ProfileOf(Updated(caller, body, probe).value)
  {
    if caller.id != body.id then Outcome(s, Err(OtherProfile))
    else
      match Updated(caller, body, probe)
      case Err(e) => Outcome(s, Err(e))
      case Ok(u) =>
        Outcome(Store(ReplaceUser(s.users, u), s.requests), ProfileOf(u))
  }

  // ---- Profile image ----

  datatype ImageResponse = ImageBytes(content: seq<byte>, mediaType: string) | Redirect(location: string)

  /** The placeholder address; the role text is upper-cased, and only the two
      role values get this far. */
  function PlaceholderUrl(r: Role): string {
    "https://placehold.co/500x500.jpg?text=" + (match r case Mentor => "MENTOR" case Mentee => "MENTEE")
  }

  /** A stored non-empty image is served as JPEG whatever its format; otherwise
      the client is sent to the placeholder. */
  function ImageOf(u: User): ImageResponse {
    if u.imageData.Some? && |u.imageData.value| > 0 then ImageBytes(u.imageData.value, "image/jpeg")
    else Redirect(PlaceholderUrl(u.role))
  }

  /** `get_profile_image`: a role text that is not a role is an uncaught error
      (500); no user with that id and role is a 404. No authentication is
      asked for. */
  function GetProfileImage(s: Store, role: string, userId: int): (r: Result<ImageResponse>)
    ensures ParseRole(role).None? <==> r == Err(InternalError)
    ensures ParseRole(role).Some? ==>
              (r == Err(UserMissing) <==>
                 forall i | 0 <= i < |s.users| :: !(s.users[i].id == userId && RoleValue(s.users[i].role) == role))
    ensures r.Ok? ==> exists i | 0 <= i < |s.users| ::
              s.users[i].id == userId && RoleValue(s.users[i].role) == role && r.value == ImageOf(s.users[i])
  {
    match ParseRole(role)
    case None => Err(InternalError)
    case Some(rl) =>
      RoleSchemaMatchesModelAll(role, rl);
      match FirstIndex(s.users, (u: User) => u.id == userId && u.role == rl)
      case None => Err(UserMissing)
      case Some(i) => Ok(ImageOf(s.users[i]))
  }

  lemma RoleSchemaMatchesModelAll(v: string, rl: Role)
    requires ParseRole(v) == Some(rl)
    ensures forall r: Role :: RoleValue(r) == v <==> r == rl
  {
    forall r: Role
      ensures RoleValue(r) == v <==> r == rl
    {
      RoleSchemaMatchesModel(v, r);
    }
  }

  /** The image route, called with the role and id a profile shows, returns
      that user's image: with unique ids it finds the user the profile belongs
      to. */
  lemma ProfileImageUrlResolves(s: Store, u: User)
    requires UserIdsUnique(s.users) && u in s.users
    ensures ProfileImageUrl(u) == "/images/" + RoleValue(u.role) + "/" + Decimal.NatToString(u.id)
    ensures GetProfileImage(s, RoleValue(u.role), u.id) == Ok(ImageOf(u))
  {
    RoleSchemaMatchesModel(RoleValue(u.role), u.role);
    var r := GetProfileImage(s, RoleValue(u.role), u.id);
    var k :| 0 <= k < |s.users| && s.users[k] == u;
    assert !(r == Err(UserMissing)) by {
      assert s.users[k].id == u.id && RoleValue(s.users[k].role) == RoleValue(u.role);
    }
    var i :| 0 <= i < |s.users| && s.users[i].id == u.id && RoleValue(s.users[i].role) == RoleValue(u.role)
             && r.value == ImageOf(s.users[i]);
    assert i == k;
  }

  // ---- Properties of the update ----

  /** A mentor's saved skills come back unchanged in the updated profile. */
  lemma MentorSkillsRoundTrip(s: Store, caller: User, body: UpdateBody, probe: ImageProbe)
    requires caller.role == Mentor && body.MentorUpdate? && caller.id == body.id
    requires Updated(caller, body, probe).Ok?
    ensures UpdateProfile(s, caller, body, probe).result.Ok?
    ensures UpdateProfile(s, caller, body, probe).result.value.mentor.skills == body.skills
  {
    SkillsJson.DecodeEncode(body.skills);
  }

  /** The update keeps the store valid: ids, e-mail addresses and references are
      untouched, and a written skills text is readable ASCII. */
  lemma UpdateKeepsValid(s: Store, caller: User, body: UpdateBody, probe: ImageProbe)
    requires Valid(s) && caller in s.users
    ensures Valid(UpdateProfile(s, caller, body, probe).store)
  {
    if caller.id == body.id && Updated(caller, body, probe).Ok? {
      var u := Updated(caller, body, probe).value;
      var k :| 0 <= k < |s.users| && s.users[k] == caller;
      if body.MentorUpdate? {
        SkillsJson.DecodeEncode(body.skills);
        SkillsJson.EncodeIsAscii(body.skills);
        assert ShownSkills(u.skills) == Some(body.skills);
      } else {
        assert u.skills == s.users[k].skills && u.role == s.users[k].role;
      }
      ReplaceKeepsValid(s, u, k);
    }
  }

  /** Replacing a user by a record with the same id and e-mail address and
      readable ASCII skills keeps the store valid. */
  lemma ReplaceKeepsValid(s: Store, u: User, k: nat)
    requires Valid(s) && k < |s.users|
    requires s.users[k].id == u.id && s.users[k].email == u.email
    requires u.role == Mentor ==> ShownSkills(u.skills).Some?
    requires u.skills.Some? ==> SkillsJson.Ascii(u.skills.value)
    ensures Valid(Store(ReplaceUser(s.users, u), s.requests))
  {
    var us := ReplaceUser(s.users, u);
    ReplaceAtOwnId(s.users, u, k);
    ReplaceKeepsEmails(s.users, u, k);
    ReplaceKeepsSkills(s.users, u, k);
    SameIdsKeepReferences(s, us);
  }

  lemma ReplaceKeepsEmails(us: seq<User>, u: User, k: nat)
    requires EmailsUnique(us) && k < |us| && us[k].email == u.email
    requires |ReplaceUser(us, u)| == |us|
    requires forall i | 0 <= i < |us| && i != k :: ReplaceUser(us, u)[i] == us[i]
    requires ReplaceUser(us, u)[k] == u
    ensures EmailsUnique(ReplaceUser(us, u))
  {
    var rs := ReplaceUser(us, u);
    assert forall i | 0 <= i < |us| :: rs[i].email == us[i].email;
  }

  lemma ReplaceKeepsSkills(us: seq<User>, u: User, k: nat)
    requires SkillsReadable(us) && SkillsTextAscii(us) && k < |us|
    requires u.role == Mentor ==> ShownSkills(u.skills).Some?
    requires u.skills.Some? ==> SkillsJson.Ascii(u.skills.value)
    requires |ReplaceUser(us, u)| == |us|
    requires forall i | 0 <= i < |us| && i != k :: ReplaceUser(us, u)[i] == us[i]
    requires ReplaceUser(us, u)[k] == u
    ensures SkillsReadable(ReplaceUser(us, u)) && SkillsTextAscii(ReplaceUser(us, u))
  {
    var rs := ReplaceUser(us, u);
    forall i | 0 <= i < |rs|
      ensures rs[i].role == Mentor ==> ShownSkills(rs[i].skills).Some?
      ensures rs[i].skills.Some? ==> SkillsJson.Ascii(rs[i].skills.value)
    {
      if i != k {
        assert rs[i] == us[i];
      }
    }
  }

  /** Users with the same ids at the same positions resolve the same references. */
  lemma SameIdsKeepReferences(s: Store, us: seq<User>)
    requires ReferencesResolve(s)
    requires |us| == |s.users| && forall i | 0 <= i < |us| :: us[i].id == s.users[i].id
    ensures ReferencesResolve(Store(us, s.requests))
  {
    forall i | 0 <= i < |s.requests|
      ensures HasUser(us, s.requests[i].mentorId) && HasUser(us, s.requests[i].menteeId)
    {
      var a :| 0 <= a < |s.users| && s.users[a].id == s.requests[i].mentorId;
      var b :| 0 <= b < |s.users| && s.users[b].id == s.requests[i].menteeId;
      assert us[a].id == s.users[a].id && us[b].id == s.users[b].id;
    }
  }

  /** An accepted upload is what the image route serves afterwards: the saved
      bytes as JPEG, or the placeholder when the saved bytes are empty. */
  lemma UploadedImageIsServed(s: Store, caller: User, body: UpdateBody, probe: ImageProbe)
    requires UserIdsUnique(s.users) && caller in s.users
    requires caller.id == body.id && |body.image| > 0
    requires Updated(caller, body, probe).Ok?
    ensures var bytes := probe.save.bytes;
            GetProfileImage(UpdateProfile(s, caller, body, probe).store, RoleValue(caller.role), caller.id)
              == Ok(if |bytes| > 0 then ImageBytes(bytes, "image/jpeg") else Redirect(PlaceholderUrl(caller.role)))
  {
    var u := Updated(caller, body, probe).value;
    var s' := UpdateProfile(s, caller, body, probe).store;
    var k :| 0 <= k < |s.users| && s.users[k] == caller;
    assert u.imageData == Some(probe.save.bytes) && u.role == caller.role;
    ReplaceAtOwnId(s.users, u, k);
    ProfileImageUrlResolves(s', u);
  }

  /** Replacing the user with a given id, in a list of unique ids, puts the new
      record at that user's position and keeps every id where it was. */
  lemma ReplaceAtOwnId(us: seq<User>, u: User, k: nat)
    requires UserIdsUnique(us) && k < |us| && us[k].id == u.id
    ensures var r := ReplaceUser(us, u);
            && r[k] == u && u in r
            && (forall i | 0 <= i < |us| :: r[i].id == us[i].id)
            && (forall i | 0 <= i < |us| && i != k :: r[i] == us[i])
            && UserIdsUnique(r)
  {
    var r := ReplaceUser(us, u);
    forall i | 0 <= i < |us| && i != k
      ensures r[i] == us[i]
    {
      assert us[i].id != us[k].id by {
        if i < k { assert us[i].id != us[k].id; } else { assert us[k].id != us[i].id; }
      }
    }
  }
}
