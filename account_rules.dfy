/** The pure decisions of the account service: the uniqueness check that guards
    every write of a username or email, and the lock-flag transition made at
    each login. */
module AccountRules {
  import opened Wrappers
  import opened Domain
  import opened UserRepository
  import Text

  /** `validateNewUsernameAndEmail`. With a blank current username (a new
      account) the new username must be free, then the new email must be free,
      and the result is null. With a non-blank one (an update) the current user
      must exist, the new username and email may be held only by that same
      user, and the result is the current user. Errors come in that order. */
  function ValidateNewUsernameAndEmail(store: Store, currentUsername: string, newUsername: string, newEmail: string)
    : (r: Result<Option<User>, Error>)
    requires WellFormed(store)
    // a new account
    ensures Text.IsBlank(currentUsername) ==>
      && (r == Failure(UsernameExist(USERNAME_ALREADY_EXISTS)) <==> UsernameTaken(store, newUsername))
      && (r == Failure(EmailExist(EMAIL_ALREADY_EXISTS)) <==>
            !UsernameTaken(store, newUsername) && EmailTaken(store, newEmail))
      && (r == Success(None) <==> !UsernameTaken(store, newUsername) && !EmailTaken(store, newEmail))
    // an update of an existing account
    ensures !Text.IsBlank(currentUsername) && !UsernameTaken(store, currentUsername) ==>
      r == Failure(UsernameNotFound(NO_USER_FOUND_BY_USERNAME + currentUsername))
    ensures !Text.IsBlank(currentUsername) ==>
      forall id :: id in store && store[id].username == currentUsername ==>
        && (r == Failure(UsernameExist(USERNAME_ALREADY_EXISTS)) <==> UsernameHeldByOther(store, newUsername, id))
        && (r == Failure(EmailExist(EMAIL_ALREADY_EXISTS)) <==>
              !UsernameHeldByOther(store, newUsername, id) && EmailHeldByOther(store, newEmail, id))
        && (r == Success(Some(store[id])) <==>
              !UsernameHeldByOther(store, newUsername, id) && !EmailHeldByOther(store, newEmail, id))
  {
    var userByNewUsername := FindUserByUsername(store, newUsername);
    var userByNewEmail := FindUserByEmail(store, newEmail);
    if !Text.IsBlank(currentUsername) then
      match FindUserByUsername(store, currentUsername)
      case None => Failure(UsernameNotFound(NO_USER_FOUND_BY_USERNAME + currentUsername))
      case Some(currentUser) =>
        if userByNewUsername.Some? && currentUser.id != userByNewUsername.value.id then
          Failure(UsernameExist(USERNAME_ALREADY_EXISTS))
        else if userByNewEmail.Some? && currentUser.id != userByNewEmail.value.id then
          Failure(EmailExist(EMAIL_ALREADY_EXISTS))
        else
          Success(Some(currentUser))
    else
      if userByNewUsername.Some? then
        Failure(UsernameExist(USERNAME_ALREADY_EXISTS))
      else if userByNewEmail.Some? then
        Failure(EmailExist(EMAIL_ALREADY_EXISTS))
      else
        Success(None)
  }

  /** The new-account check passes exactly when a record with that username
      and email, stored under a fresh id, leaves no two records sharing a
      username or an email. */
  lemma NewAccountKeepsUniqueness(store: Store, currentUsername: string, u: User)
    requires WellFormed(store)
    requires Text.IsBlank(currentUsername)
    requires u.id !in store
    ensures ValidateNewUsernameAndEmail(store, currentUsername, u.username, u.email).Success?
            <==> WellFormed(store[u.id := u])
  {
    var s := store[u.id := u];
    if UsernameTaken(store, u.username) {
      var j :| j in store && store[j].username == u.username;
      assert s[j].username == s[u.id].username;
    } else if EmailTaken(store, u.email) {
      var j :| j in store && store[j].email == u.email;
      assert s[j].email == s[u.id].email;
    } else {
      SaveKeepsWellFormed(store, u);
    }
  }

  /** For the stored user holding the current username, the update check
      passes exactly when that user, saved back with the new username and
      email, leaves no two records sharing a username or an email. */
  lemma UpdateKeepsUniqueness(store: Store, currentUsername: string, u: User)
    requires WellFormed(store)
    requires !Text.IsBlank(currentUsername)
    requires u.id in store && store[u.id].username == currentUsername
    ensures ValidateNewUsernameAndEmail(store, currentUsername, u.username, u.email) == Success(Some(store[u.id]))
            <==> WellFormed(store[u.id := u])
  {
    var s := store[u.id := u];
    if UsernameHeldByOther(store, u.username, u.id) {
      var j :| j in store && store[j].username == u.username && j != u.id;
      assert s[j].username == s[u.id].username;
    } else if EmailHeldByOther(store, u.email, u.id) {
      var j :| j in store && store[j].email == u.email && j != u.id;
      assert s[j].email == s[u.id].email;
    } else {
      SaveKeepsWellFormed(store, u);
    }
  }

  /** `validateLoginAttempt` on the lock flag: a not-locked user becomes locked
      exactly when the attempt tracker reports too many failures; a locked user
      stays locked (the locked branch only evicts the tracker's entry). */
  function LockStep(isNotLocked: bool, exceededMaxAttempts: bool): (r: bool)
    ensures r <==> isNotLocked && !exceededMaxAttempts
  {
    if isNotLocked then
      if exceededMaxAttempts then false else true
    else
      false
  }

  /** The lock flag after a run of logins, given the tracker's verdict at each. */
  function NotLockedAfterLogins(isNotLocked: bool, verdicts: seq<bool>): bool
  {
    if verdicts == [] then isNotLocked
    else NotLockedAfterLogins(LockStep(isNotLocked, verdicts[0]), verdicts[1..])
  }

  /** No run of logins lifts a lock, whatever the tracker reports. */
  lemma {:induction false} LoginNeverUnlocks(verdicts: seq<bool>)
    ensures !NotLockedAfterLogins(false, verdicts)
  {
    if verdicts != [] {
      LoginNeverUnlocks(verdicts[1..]);
    }
  }

  /** A not-locked account is still not locked after a run of logins exactly
      when the tracker reported no excess at any of them. */
  lemma {:induction false} OpenUntilExceeded(verdicts: seq<bool>)
    ensures NotLockedAfterLogins(true, verdicts) <==> forall i :: 0 <= i < |verdicts| ==> !verdicts[i]
  {
    if verdicts != [] {
      if verdicts[0] {
        LoginNeverUnlocks(verdicts[1..]);
      } else {
        OpenUntilExceeded(verdicts[1..]);
        assert forall i :: 1 <= i < |verdicts| ==> verdicts[i] == verdicts[1..][i - 1];
      }
    }
  }
}
