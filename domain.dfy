/** The values the account service works on: the user record, an uploaded file,
    the roles, the errors it throws, and the two pure checks it makes on its
    inputs (the role name and the content type of a profile image). */
module Domain {
  import opened Wrappers
  import Text

  /** The persisted user entity. `id` is the database key; `userId` is the
      random public identifier. Dates are clock ticks; an absent date is null. */
  datatype User = User(
    id: nat,
    userId: string,
    firstName: string,
    lastName: string,
    username: string,
    email: string,
    password: string,
    profileImageUrl: string,
    lastLoginDate: Option<nat>,
    lastLoginDateDisplay: Option<nat>,
    joinDate: Option<nat>,
    role: string,
    authorities: seq<string>,
    isActive: bool,
    isNotLocked: bool)

  /** A multipart upload: what the service reads of it before the file copy. */
  datatype Upload = Upload(originalFilename: string, contentType: Option<string>)

  /** A constant of the `Role` enumeration: its name and its authorities. */
  datatype Role = Role(name: string, authorities: seq<string>)

  /** The exceptions the service throws, with their messages. */
  datatype Error =
    | UsernameNotFound(message: string)   // UsernameNotFoundException
    | UsernameExist(message: string)      // UsernameExistException
    | EmailExist(message: string)         // EmailExistException
    | EmailNotFound(message: string)      // EmailNotFoundException
    | NotAnImageFile(message: string)     // NotAnImageFileException
    | NoSuchRole(message: string)         // IllegalArgumentException from Role.valueOf
    | NullUser                            // NullPointerException on a null user

  const USERNAME_ALREADY_EXISTS := "Username already exists"
  const EMAIL_ALREADY_EXISTS := "Email already exists"
  const NO_USER_FOUND_BY_USERNAME := "No user found by username"
  const NOT_AN_IMAGE_FILE := "is not an image file. Please upload an image"
  const NO_ENUM_CONSTANT := "No enum constant com.todo.taskManager.enumeration.Role."

  /** The name of the role every self-registered user gets. */
  const ROLE_USER := "ROLE_USER"

  /** The MIME types accepted for a profile image, `MimeTypeUtils.IMAGE_*_VALUE`. */
  const IMAGE_JPEG := "image/jpeg"
  const IMAGE_PNG := "image/png"
  const IMAGE_GIF := "image/gif"

  /** The allow-list test of `saveProfileImage`: a missing content type is never
      in the list, and every accepted type is one of the three image types. */
  function IsImageContentType(contentType: Option<string>): (r: bool)
    ensures r <==> contentType.Some? && contentType.value in {IMAGE_JPEG, IMAGE_PNG, IMAGE_GIF}
    ensures r ==> |contentType.value| > 6 && contentType.value[..6] == "image/"
  {
    match contentType
    case None => false
    case Some(t) => t in [IMAGE_JPEG, IMAGE_PNG, IMAGE_GIF]
  }

  /** `getRoleEnumName`: `Role.valueOf(role.toUpperCase())` over the table of the
      enumeration's constants (name to authorities). `valueOf` throws unless the
      upper-cased name is exactly a constant's name. */
  function GetRoleEnumName(roles: map<string, seq<string>>, role: string): (r: Result<Role, Error>)
    ensures r.Success? <==> Text.ToUpper(role) in roles
    ensures r.Success? ==>
      && r.value.name in roles
      && r.value.authorities == roles[r.value.name]
      && Text.ToUpper(r.value.name) == r.value.name
      && Text.ToUpper(role) == Text.ToUpper(r.value.name)
    ensures r.Failure? ==> r.error == NoSuchRole(NO_ENUM_CONSTANT + Text.ToUpper(role))
  {
    var name := Text.ToUpper(role);
    Text.ToUpperIdempotent(role);
    if name in roles then Success(Role(name, roles[name]))
    else Failure(NoSuchRole(NO_ENUM_CONSTANT + name))
  }
}
