/** The account service: login handling, registration, administrative creation
    and update of accounts, deletion and password reset, over the user store and
    the login-attempt tracker. Random values (user ids, passwords) and the clock
    are parameters of the operations; the password encoder, the builders of
    profile-image URLs and the table of roles are supplied when the service is
    built. */
module UserServiceImpl {
  import opened Wrappers
  import opened Domain
  import opened UserRepository
  import opened AccountRules
  import opened LoginAttempts
  import Text

  class UserService {
    /** The user repository, by database id. */
    var store: Store
    /** The next id the database hands out on a first save. */
    var nextId: nat
    const loginAttemptService: LoginAttemptService
    /** The password encoder. */
    const encode: string -> string
    /** URL of the default image of a username (`getTemporaryProfileImageUrl`). */
    const temporaryProfileImageUrl: string -> string
    /** URL of an uploaded image of a username (`setProfileImageUrl`). */
    const profileImageUrl: string -> string
    /** The constants of the `Role` enumeration: name to authorities. */
    const roles: map<string, seq<string>>

    ghost predicate Valid()
      reads this
    {
      && WellFormed(store)
      && (forall id :: id in store ==> id < nextId)
      && ROLE_USER in roles
    }

    constructor (store: Store, nextId: nat,
                 loginAttemptService: LoginAttemptService, encode: string -> string,
                 temporaryProfileImageUrl: string -> string, profileImageUrl: string -> string,
                 roles: map<string, seq<string>>)
      requires WellFormed(store) && forall id :: id in store ==> id < nextId
      requires ROLE_USER in roles
      ensures Valid()
      ensures this.store == store && this.nextId == nextId
      ensures this.loginAttemptService == loginAttemptService && this.encode == encode
      ensures this.temporaryProfileImageUrl == temporaryProfileImageUrl
      ensures this.profileImageUrl == profileImageUrl && this.roles == roles
    {
      this.store := store;
      this.nextId := nextId;
      this.loginAttemptService := loginAttemptService;
      this.encode := encode;
      this.temporaryProfileImageUrl := temporaryProfileImageUrl;
      this.profileImageUrl := profileImageUrl;
      this.roles := roles;
    }

    /** `validateLoginAttempt`: a not-locked user is locked exactly when the
        tracker reports too many failed attempts; for a locked user the only
        effect is that the tracker forgets that username. No other field of
        the user changes. */
    method ValidateLoginAttempt(user: User) returns (checked: User)
      modifies loginAttemptService
      ensures checked == user.(isNotLocked :=
        LockStep(user.isNotLocked, old(loginAttemptService.HasExceededMaxAttempts(user.username))))
      ensures !user.isNotLocked ==> !checked.isNotLocked
      ensures loginAttemptService.cache ==
        if user.isNotLocked then old(loginAttemptService.cache)
        else old(loginAttemptService.cache) - {user.username}
    {
      checked := user;
      if user.isNotLocked {
        if loginAttemptService.HasExceededMaxAttempts(user.username) {
          checked := checked.(isNotLocked := false);
        } else {
          checked := checked.(isNotLocked := true);
        }
      } else {
        loginAttemptService.EvictUserFromLoginAttemptCache(user.username);
      }
    }

    /** `loadUserByUsername`: an unknown username fails and changes nothing;
        otherwise the lock flag is re-evaluated, the previous login time moves
        to the display field, the login time becomes `now`, and the record is
        saved with no other field changed. */
    method LoadUserByUsername(username: string, now: nat) returns (r: Result<User, Error>)
      requires Valid()
      modifies this, loginAttemptService
      ensures Valid() && nextId == old(nextId)
      ensures old(FindUserByUsername(store, username)).None? ==>
        && r == Failure(UsernameNotFound(NO_USER_FOUND_BY_USERNAME + username))
        && store == old(store)
        && loginAttemptService.cache == old(loginAttemptService.cache)
      ensures old(FindUserByUsername(store, username)).Some? ==>
        var u := old(FindUserByUsername(store, username)).value;
        && r.Success?
        && r.value == u.(isNotLocked := LockStep(u.isNotLocked, old(loginAttemptService.HasExceededMaxAttempts(username))),
                         lastLoginDateDisplay := u.lastLoginDate,
                         lastLoginDate := Some(now))
        && store == old(store)[u.id := r.value]
        && loginAttemptService.cache ==
             if u.isNotLocked then old(loginAttemptService.cache)
             else old(loginAttemptService.cache) - {username}
    {
      var found := FindUserByUsername(store, username);
      if found.None? {
        r := Failure(UsernameNotFound(NO_USER_FOUND_BY_USERNAME + username));
      } else {
        var user := ValidateLoginAttempt(found.value);
        user := user.(lastLoginDateDisplay := user.lastLoginDate);
        user := user.(lastLoginDate := Some(now));
        ResaveKeepsWellFormed(store, user);
        store := store[user.id := user];
        r := Success(user);
      }
    }

    /** `register`: after the new-account check, saves a fresh record under the
        next id: active, not locked, with the `ROLE_USER` role, the encoded
        generated password and the default image. A failed check saves nothing. */
    method Register(firstName: string, lastName: string, username: string, email: string,
                    now: nat, generatedUserId: string, generatedPassword: string)
      returns (r: Result<User, Error>)
      requires Valid()
      modifies this
      ensures Valid()
      ensures old(ValidateNewUsernameAndEmail(store, "", username, email)).Failure? ==>
        && r == Failure(old(ValidateNewUsernameAndEmail(store, "", username, email)).error)
        && store == old(store) && nextId == old(nextId)
      ensures old(ValidateNewUsernameAndEmail(store, "", username, email)).Success? ==>
        && r == Success(User(old(nextId), generatedUserId, firstName, lastName, username, email,
                             encode(generatedPassword), temporaryProfileImageUrl(username),
                             None, None, Some(now), ROLE_USER, roles[ROLE_USER], true, true))
        && old(nextId) !in old(store)
        && store == old(store)[old(nextId) := r.value]
        && nextId == old(nextId) + 1
    {
      var validated := ValidateNewUsernameAndEmail(store, "", username, email);
      if validated.Failure? {
        return Failure(validated.error);
      }
      var user := User(nextId, generatedUserId, firstName, lastName, username, email,
                       encode(generatedPassword), temporaryProfileImageUrl(username),
                       None, None, Some(now), ROLE_USER, roles[ROLE_USER], true, true);
      NewAccountKeepsUniqueness(store, "", user);
      store := store[user.id := user];
      nextId := nextId + 1;
      r := Success(user);
    }

    /** `saveProfileImage` on a record just saved: no upload changes nothing; an
        upload whose content type is not an allowed image type fails; otherwise
        the record gets the uploaded image's URL and is saved again. */
    method SaveProfileImage(user: User, profileImage: Option<Upload>) returns (r: Result<User, Error>)
      requires Valid()
      requires user.id in store && store[user.id] == user
      modifies this
      ensures Valid() && nextId == old(nextId)
      ensures profileImage.None? ==> r == Success(user) && store == old(store)
      ensures profileImage.Some? && !IsImageContentType(profileImage.value.contentType) ==>
        && r == Failure(NotAnImageFile(profileImage.value.originalFilename + NOT_AN_IMAGE_FILE))
        && store == old(store)
      ensures profileImage.Some? && IsImageContentType(profileImage.value.contentType) ==>
        && r == Success(user.(profileImageUrl := profileImageUrl(user.username)))
        && store == old(store)[user.id := r.value]
    {
      if profileImage.None? {
        return Success(user);
      }
      if !IsImageContentType(profileImage.value.contentType) {
        return Failure(NotAnImageFile(profileImage.value.originalFilename + NOT_AN_IMAGE_FILE));
      }
      var saved := user.(profileImageUrl := profileImageUrl(user.username));
      ResaveKeepsWellFormed(store, saved);
      store := store[saved.id := saved];
      r := Success(saved);
    }

    /** `addNewUser`: the new-account check, then the role lookup, then a save of
        a fresh record with the given flags and role; then the profile image is
        stored. A failed check or an unknown role saves nothing; a rejected image
        fails after the record has been saved. */
    method AddNewUser(firstName: string, lastName: string, username: string, email: string, role: string,
                      isNotLocked: bool, isActive: bool, profileImage: Option<Upload>,
                      now: nat, generatedUserId: string, generatedPassword: string)
      returns (r: Result<User, Error>)
      requires Valid()
      modifies this
      ensures Valid()
      ensures old(ValidateNewUsernameAndEmail(store, "", username, email)).Failure? ==>
        && r == Failure(old(ValidateNewUsernameAndEmail(store, "", username, email)).error)
        && store == old(store) && nextId == old(nextId)
      ensures old(ValidateNewUsernameAndEmail(store, "", username, email)).Success? &&
              GetRoleEnumName(roles, role).Failure? ==>
        && r == Failure(GetRoleEnumName(roles, role).error)
        && store == old(store) && nextId == old(nextId)
      ensures old(ValidateNewUsernameAndEmail(store, "", username, email)).Success? &&
              GetRoleEnumName(roles, role).Success? ==>
        var granted := GetRoleEnumName(roles, role).value;
        var user := User(old(nextId), generatedUserId, firstName, lastName, username, email,
                         encode(generatedPassword), temporaryProfileImageUrl(username),
                         None, None, Some(now), granted.name, granted.authorities, isActive, isNotLocked);
        && old(nextId) !in old(store)
        && nextId == old(nextId) + 1
        && (profileImage.Some? && !IsImageContentType(profileImage.value.contentType) ==>
              && r == Failure(NotAnImageFile(profileImage.value.originalFilename + NOT_AN_IMAGE_FILE))
              && store == old(store)[user.id := user])
        && (profileImage.None? ==> r == Success(user) && store == old(store)[user.id := user])
        && (profileImage.Some? && IsImageContentType(profileImage.value.contentType) ==>
              && r == Success(user.(profileImageUrl := profileImageUrl(username)))
              && store == old(store)[user.id := r.value])
    {
      var validated := ValidateNewUsernameAndEmail(store, "", username, email);
      if validated.Failure? {
        return Failure(validated.error);
      }
      var granted := GetRoleEnumName(roles, role);
      if granted.Failure? {
        return Failure(granted.error);
      }
      var user := User(nextId, generatedUserId, firstName, lastName, username, email,
                       encode(generatedPassword), temporaryProfileImageUrl(username),
                       None, None, Some(now), granted.value.name, granted.value.authorities,
                       isActive, isNotLocked);
      NewAccountKeepsUniqueness(store, "", user);
      store := store[user.id := user];
      nextId := nextId + 1;
      r := SaveProfileImage(user, profileImage);
    }

    /** `updateUser`: the update check for the current username, then the role
        lookup, then the current record is saved with the new names, email,
        flags and role (its id, password, dates and image untouched); then the
        profile image is stored. A blank current username whose new username
        and email are free leaves the check with no user, and the update fails
        on it. Failures before the save change nothing. */
    method UpdateUser(currentUsername: string, newFirstName: string, newLastName: string,
                      newUsername: string, newEmail: string, role: string,
                      isNotLocked: bool, isActive: bool, profileImage: Option<Upload>)
      returns (r: Result<User, Error>)
      requires Valid()
      modifies this
      ensures Valid() && nextId == old(nextId)
      ensures old(ValidateNewUsernameAndEmail(store, currentUsername, newUsername, newEmail)).Failure? ==>
        && r == Failure(old(ValidateNewUsernameAndEmail(store, currentUsername, newUsername, newEmail)).error)
        && store == old(store)
      ensures old(ValidateNewUsernameAndEmail(store, currentUsername, newUsername, newEmail)) == Success(None) ==>
        r == Failure(NullUser) && store == old(store)
      ensures old(ValidateNewUsernameAndEmail(store, currentUsername, newUsername, newEmail)).Success? &&
              old(ValidateNewUsernameAndEmail(store, currentUsername, newUsername, newEmail)).value.Some? &&
              GetRoleEnumName(roles, role).Failure? ==>
        r == Failure(GetRoleEnumName(roles, role).error) && store == old(store)
      ensures old(ValidateNewUsernameAndEmail(store, currentUsername, newUsername, newEmail)).Success? &&
              old(ValidateNewUsernameAndEmail(store, currentUsername, newUsername, newEmail)).value.Some? &&
              GetRoleEnumName(roles, role).Success? ==>
        var current := old(ValidateNewUsernameAndEmail(store, currentUsername, newUsername, newEmail)).value.value;
        var granted := GetRoleEnumName(roles, role).value;
        var user := current.(firstName := newFirstName, lastName := newLastName,
                             username := newUsername, email := newEmail,
                             isActive := isActive, isNotLocked := isNotLocked,
                             role := granted.name, authorities := granted.authorities);
        && current.id in old(store) && current == old(store)[current.id]
        && current.username == currentUsername
        && (profileImage.Some? && !IsImageContentType(profileImage.value.contentType) ==>
              && r == Failure(NotAnImageFile(profileImage.value.originalFilename + NOT_AN_IMAGE_FILE))
              && store == old(store)[user.id := user])
        && (profileImage.None? ==> r == Success(user) && store == old(store)[user.id := user])
        && (profileImage.Some? && IsImageContentType(profileImage.value.contentType) ==>
              && r == Success(user.(profileImageUrl := profileImageUrl(newUsername)))
              && store == old(store)[user.id := r.value])
    {
      var validated := ValidateNewUsernameAndEmail(store, currentUsername, newUsername, newEmail);
      if validated.Failure? {
        return Failure(validated.error);
      }
      if validated.value.None? {
        return Failure(NullUser);
      }
      var current := validated.value.value;
      var granted := GetRoleEnumName(roles, role);
      if granted.Failure? {
        return Failure(granted.error);
      }
      var user := current.(firstName := newFirstName, lastName := newLastName,
                           username := newUsername, email := newEmail,
                           isActive := isActive, isNotLocked := isNotLocked,
                           role := granted.value.name, authorities := granted.value.authorities);
      UpdateKeepsUniqueness(store, currentUsername, user);
      store := store[user.id := user];
      r := SaveProfileImage(user, profileImage);
    }

    /** `deleteUser`, store part: removes the record holding the username. An
        unknown username is dereferenced as null and nothing is removed. */
    method DeleteUser(username: string) returns (r: Result<(), Error>)
      requires Valid()
      modifies this
      ensures Valid() && nextId == old(nextId)
      ensures old(FindUserByUsername(store, username)).None? ==> r == Failure(NullUser) && store == old(store)
      ensures old(FindUserByUsername(store, username)).Some? ==>
        && r == Success(())
        && store == old(store) - {old(FindUserByUsername(store, username)).value.id}
        && !UsernameTaken(store, username)
    {
      var user := FindUserByUsername(store, username);
      if user.None? {
        return Failure(NullUser);
      }
      store := store - {user.value.id};
      r := Success(());
    }

    /** `resetPassword`: an unknown email fails and saves nothing; otherwise
        only the password of the record holding the email changes, to the
        encoding of the generated password. */
    method ResetPassword(email: string, generatedPassword: string) returns (r: Result<(), Error>)
      requires Valid()
      modifies this
      ensures Valid() && nextId == old(nextId)
      ensures old(FindUserByEmail(store, email)).None? ==>
        r == Failure(EmailNotFound(NO_USER_FOUND_BY_USERNAME + email)) && store == old(store)
      ensures old(FindUserByEmail(store, email)).Some? ==>
        var u := old(FindUserByEmail(store, email)).value;
        && r == Success(())
        && store == old(store)[u.id := u.(password := encode(generatedPassword))]
    {
      var user := FindUserByEmail(store, email);
      if user.None? {
        return Failure(EmailNotFound(NO_USER_FOUND_BY_USERNAME + email));
      }
      var updated := user.value.(password := encode(generatedPassword));
      ResaveKeepsWellFormed(store, updated);
      store := store[updated.id := updated];
      r := Success(());
    }
  }
}
