/** The front end's pure user-service helpers: the image-file check before an
    upload and the profile image address. */
module UserService {
  import opened Common
  import opened Model
  import Decimal
  import Users

  /** What the check reads of a selected file: its MIME type and size in bytes. */
  datatype FileInfo = FileInfo(mimeType: string, size: int)

  datatype Validation = Validation(valid: bool, error: Option<string>)

  const AllowedTypes: seq<string> := ["image/jpeg", "image/png"]
  const MaxFileSize: int := 1024 * 1024
  const TypeError: string := "JPEG 또는 PNG 파일만 업로드 가능합니다."
  const SizeError: string := "파일 크기는 1MB 이하여야 합니다."
  const ServerOrigin: string := "http://localhost:8080"

  /** `validateImageFile`: the type is checked first, then the size; a file of
      exactly 1 MiB passes. */
  function ValidateImageFile(f: FileInfo): (r: Validation)
    ensures r.valid <==> f.mimeType in AllowedTypes && f.size <= MaxFileSize
    ensures r.valid <==> r.error.None?
    ensures f.mimeType !in AllowedTypes ==> r.error == Some(TypeError)
    ensures f.mimeType in AllowedTypes && f.size > MaxFileSize ==> r.error == Some(SizeError)
  {
    if f.mimeType !in AllowedTypes then Validation(false, Some(TypeError))
    else if f.size > MaxFileSize then Validation(false, Some(SizeError))
    else Validation(true, None)
  }

  /** `getProfileImageUrl`. */
  function ProfileImageUrl(role: Role, userId: int): string {
    ServerOrigin + "/images/" + RoleValue(role) + "/" + Decimal.IntToString(userId)
  }

  /** The size limit agrees with the server's limit on stored images, and the
      boundary is inclusive on both sides. */
  lemma SizeLimitMatchesServer(f: FileInfo)
    ensures MaxFileSize == Users.MaxImageBytes
    ensures f.mimeType == "image/png" && f.size == 1048576 ==> ValidateImageFile(f).valid
    ensures f.mimeType == "image/png" && f.size == 1048577 ==> ValidateImageFile(f) == Validation(false, Some(SizeError))
  {
  }

  /** The type error wins over the size error. */
  lemma TypeCheckedFirst(f: FileInfo)
    requires f.mimeType !in AllowedTypes && f.size > MaxFileSize
    ensures ValidateImageFile(f).error == Some(TypeError)
  {
  }

  /** The address the front end builds is the server origin followed by the
      image address the back end puts in the user's profile. */
  lemma UrlMatchesProfile(u: User)
    ensures ProfileImageUrl(u.role, u.id) == ServerOrigin + Users.ProfileImageUrl(u)
  {
  }
}
