# Account service rules of taskManager, in Dafny

This project models the account rules of the task manager's user service
(`UserServiceImpl`). The model covers:

- login handling: the lock flag is re-evaluated against the login-attempt
  tracker, and the last-login timestamps are shifted;
- the username/email uniqueness check that guards every write;
- the operations that build and store user records: self-registration,
  administrative creation and update, deletion, password reset, and the
  content-type check on profile images.

The user repository is a finite map from database id to a `User` record. The
login-attempt tracker is a separate object: a cache keyed by username, an
injected verdict on "too many attempts", and removal of one username's entry.

Files:

- `wrappers.dfy`: `Option` (Java's null) and `Result` (a thrown exception).
- `text.dfy`: `StringUtils.isBlank` over Java's `Character.isWhitespace`, and
  upper-casing.
- `domain.dfy`: the `User` record, uploads, roles, the service's exceptions
  and their messages, the role lookup and the image content-type check.
- `repository.dfy`: the store, its well-formedness invariant, the
  single-result lookups by username and by email, and the fact that saving
  keeps the store well formed.
- `account_rules.dfy`: the uniqueness check and its outcomes in order, the
  lemmas that a passing check keeps usernames and emails unique, and the
  lock-flag transition with its behaviour over runs of logins.
- `login_attempts.dfy`: the tracker collaborator.
- `user_service.dfy`: the service class, one method per operation. Each method
  states the whole new store and its result, error paths included.

The class invariant `Valid()` says three things: the store is well formed (ids
match keys, and no two records share a username or an email), every id is
below the next id the database will hand out, and the role table has
`ROLE_USER`. Every operation keeps this invariant. So uniqueness holds after
`register`, `addNewUser` and `updateUser`, which follows from the uniqueness
check through `NewAccountKeepsUniqueness` and `UpdateKeepsUniqueness`. These two
lemmas also prove the converse: whenever the check fails on a name or an email,
the write it blocks would have broken uniqueness.

The locked branch of `validateLoginAttempt` (UserServiceImpl.java lines 93-95)
only evicts the tracker's entry; it never clears the lock flag.
`LoginNeverUnlocks` proves that no run of logins lifts a lock; only an
administrative `updateUser` can.

Some behaviour of the code is modelled as it is, even though it may look
accidental:

- `updateUser` with a blank current username and a free new username and email
  gets no user back from the check. It then dereferences null, which is
  modelled as the `NullUser` error.
- `deleteUser` on an unknown username also dereferences null.
- `resetPassword` builds its message from the "No user found by username"
  constant.
- Under `@Transactional`, a checked exception does not roll back. So when
  `addNewUser` or `updateUser` rejects an image's content type, the record
  saved just before stays saved.

## Model

| member | source | states |
|---|---|---|
| `Text.IsBlank` | src/main/java/com/todo/taskManager/service/impl/UserServiceImpl.java:158 | a current username is blank exactly when every character is Java whitespace (the empty string included) |
| `Domain.IsImageContentType` | src/main/java/com/todo/taskManager/service/impl/UserServiceImpl.java:253-267 | an upload is accepted exactly when its content type is present and one of image/jpeg, image/png, image/gif; every accepted type starts with "image/" |
| `Domain.GetRoleEnumName` | src/main/java/com/todo/taskManager/service/impl/UserServiceImpl.java:318-320 | the lookup succeeds exactly when the upper-cased name is a role constant; the role found is upper-case, matches the requested name case-insensitively and carries that constant's authorities; otherwise it fails with valueOf's "No enum constant" error |
| `UserRepository.FindUserByUsername` | src/main/java/com/todo/taskManager/service/impl/UserServiceImpl.java:203-206 | returns the stored record holding the username when one exists, and null exactly when none does |
| `UserRepository.FindUserByEmail` | src/main/java/com/todo/taskManager/service/impl/UserServiceImpl.java:208-211 | returns the stored record holding the email when one exists, and null exactly when none does |
| `AccountRules.ValidateNewUsernameAndEmail` | src/main/java/com/todo/taskManager/service/impl/UserServiceImpl.java:149-196 | blank current username: UsernameExist iff the new username is taken, else EmailExist iff the email is taken, else null. Non-blank: UsernameNotFound iff the current user is missing; otherwise UsernameExist / EmailExist iff held by a user with a different id, in that order, else the current user |
| `AccountRules.NewAccountKeepsUniqueness` | src/main/java/com/todo/taskManager/service/impl/UserServiceImpl.java:106-123 | for a record stored under a fresh id, the new-account check passes exactly when the store afterwards has no two records sharing a username or an email |
| `AccountRules.UpdateKeepsUniqueness` | src/main/java/com/todo/taskManager/service/impl/UserServiceImpl.java:335-349 | for the user holding the current username, the update check returns that user exactly when saving it back with the new username and email leaves no two records sharing a username or an email |
| `AccountRules.LockStep` | src/main/java/com/todo/taskManager/service/impl/UserServiceImpl.java:86-96 | after the check a user is not locked iff it was not locked and the tracker did not report too many attempts |
| `AccountRules.LoginNeverUnlocks` | src/main/java/com/todo/taskManager/service/impl/UserServiceImpl.java:93-95 | from a locked state, no run of logins clears the lock, whatever the tracker reports |
| `AccountRules.OpenUntilExceeded` | src/main/java/com/todo/taskManager/service/impl/UserServiceImpl.java:87-92 | a not-locked account stays not locked over a run of logins iff the tracker reported no excess at any of them |
| `LoginAttempts.LoginAttemptService.EvictUserFromLoginAttemptCache` | src/main/java/com/todo/taskManager/service/impl/UserServiceImpl.java:94 | removes that username's tracker entry; every other entry is unchanged |
| `UserServiceImpl.UserService.constructor` | src/main/java/com/todo/taskManager/service/impl/UserServiceImpl.java:52-63 | the service starts with its collaborators and the repository it is given, which must be well formed (ids match keys, usernames and emails unique) with every id below the next id to hand out |
| `UserServiceImpl.UserService.ValidateLoginAttempt` | src/main/java/com/todo/taskManager/service/impl/UserServiceImpl.java:86-96 | not locked: the lock flag becomes the negation of the tracker's verdict and the tracker is untouched; locked: the flag stays set and only that username's entry is evicted; no other field changes |
| `UserServiceImpl.UserService.LoadUserByUsername` | src/main/java/com/todo/taskManager/service/impl/UserServiceImpl.java:66-84 | unknown username: UsernameNotFound, store and tracker unchanged; otherwise the record is saved with the lock flag re-evaluated, lastLoginDateDisplay set to the old lastLoginDate and lastLoginDate set to now, nothing else changed; uniqueness kept |
| `UserServiceImpl.UserService.Register` | src/main/java/com/todo/taskManager/service/impl/UserServiceImpl.java:99-128 | a failed check returns its error and saves nothing; otherwise one new record under a fresh id, active, not locked, ROLE_USER with its authorities, encoded generated password, default image; uniqueness kept |
| `UserServiceImpl.UserService.SaveProfileImage` | src/main/java/com/todo/taskManager/service/impl/UserServiceImpl.java:251-302 | no upload: nothing changes; a content type outside the allow-list: NotAnImageFile and nothing changes; otherwise only the record's image URL changes and it is saved |
| `UserServiceImpl.UserService.AddNewUser` | src/main/java/com/todo/taskManager/service/impl/UserServiceImpl.java:214-249 | check error, then unknown role, each saving nothing; otherwise one new record with the given flags and role under a fresh id, then the image step (a rejected image fails with the record saved); uniqueness kept |
| `UserServiceImpl.UserService.UpdateUser` | src/main/java/com/todo/taskManager/service/impl/UserServiceImpl.java:322-353 | check error, null user, unknown role, each saving nothing; otherwise the current record is saved with new names, email, flags and role, with id, password, dates and image kept, then the image step; uniqueness kept |
| `UserServiceImpl.UserService.DeleteUser` | src/main/java/com/todo/taskManager/service/impl/UserServiceImpl.java:355-364 | unknown username: null dereference, store unchanged; otherwise exactly that record is removed |
| `UserServiceImpl.UserService.ResetPassword` | src/main/java/com/todo/taskManager/service/impl/UserServiceImpl.java:366-387 | unknown email: EmailNotFound and nothing saved; otherwise only that record's password changes, to the encoding of the generated password |

## Left out

- Token issuance and verification (`JWTTokenProvider`): a wrapper over a JWT library. It signs with HS512 and checks expiry against the wall clock inside the library. Its `isTokenValid` never compares the given username with the token's subject.
- HTTP endpoints (`UserResource`) and the mapping of exceptions to HTTP statuses (`ExceptionHandling`): framework glue. The message constants of `UserImplConstant` appear as string literals.
- The login-attempt tracker's internals are not part of this model: how failures are recorded and counted, the threshold, time-based expiry and thread safety. The verdict is an injected function of the tracker's cache and the username. No concurrency is modelled.
- Password encoding is an injected deterministic function, so BCrypt's random salt is not modelled.
- Generated user ids, generated passwords and the clock are parameters of each operation.
- Email sending, logging and printing of passwords are not modelled. Neither are the `MessagingException` and `IOException` they, or the file operations, can raise.
- Profile-image files are not modelled: creating and copying them (lines 269-293), and deleting a user's folder (lines 358-362). The URL builders are injected functions of the username.
- `@Transactional` is not modelled as such. A failure before a save changes nothing. A checked exception after a save keeps the save, which is what the annotation does by default.
- Users are values written back by `save`. In-place changes to a managed entity that are never saved are not modelled, and neither is aliasing between entities.
- Null strings are not modelled. A null current username would behave like the empty one. A null role would raise a null dereference.
- The store is assumed to start well formed: the service is built on a well-formed repository and every operation keeps it so. A store that already held duplicates is outside the model, and on one the repository's single-result queries would throw.
- `Domain.GetRoleEnumName`: upper-casing covers only the letters a-z. Java's full Unicode, locale-dependent case mapping is not modelled (for example, dotless ı maps to I).
- `Text.IsBlank`: whitespace follows `Character.isWhitespace` of Java 9 and later; under Java 8, U+180E also counts as whitespace, which is not modelled.
- `getUsers` (lines 198-201) is a plain read of every record, and is left out.
- `updateProfileImage` (lines 389-395) passes null as the new username and email to the check, and is left out because null strings are not modelled.
