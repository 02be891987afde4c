/** The user repository as a finite map from database id to user record, with
    the two single-result lookups and the invariant that makes them well defined. */
module UserRepository {
  import opened Wrappers
  import opened Domain

  type Store = map<nat, User>

  /** Every record sits under its own id, and no two records share a username
      or an email. A single-result repository query fails on duplicates, so
      the service relies on this throughout. */
  ghost predicate WellFormed(store: Store)
  {
    && (forall id :: id in store ==> store[id].id == id)
    && (forall i, j :: i in store && j in store && store[i].username == store[j].username ==> i == j)
    && (forall i, j :: i in store && j in store && store[i].email == store[j].email ==> i == j)
  }

  predicate UsernameTaken(store: Store, username: string)
  {
    exists id :: id in store && store[id].username == username
  }

  predicate EmailTaken(store: Store, email: string)
  {
    exists id :: id in store && store[id].email == email
  }

  /** The username is held by a record whose id is not `id`. */
  predicate UsernameHeldByOther(store: Store, username: string, id: nat)
  {
    exists j :: j in store && store[j].username == username && j != id
  }

  /** The email is held by a record whose id is not `id`. */
  predicate EmailHeldByOther(store: Store, email: string, id: nat)
  {
    exists j :: j in store && store[j].email == email && j != id
  }

  /** `findUserByUsername`: the record holding the username, or null. */
  function FindUserByUsername(store: Store, username: string): (r: Option<User>)
    requires WellFormed(store)
    ensures forall id :: id in store && store[id].username == username ==> r == Some(store[id])
    ensures r.Some? ==> r.value.id in store && store[r.value.id] == r.value && r.value.username == username
  {
    if UsernameTaken(store, username) then
      var id :| id in store && store[id].username == username;
      Some(store[id])
    else
      None
  }

  /** `findUserByEmail`: the record holding the email, or null. */
  function FindUserByEmail(store: Store, email: string): (r: Option<User>)
    requires WellFormed(store)
    ensures forall id :: id in store && store[id].email == email ==> r == Some(store[id])
    ensures r.Some? ==> r.value.id in store && store[r.value.id] == r.value && r.value.email == email
  {
    if EmailTaken(store, email) then
      var id :| id in store && store[id].email == email;
      Some(store[id])
    else
      None
  }

  /** `save` of a record whose username and email no other record holds keeps
      the store well formed. */
  lemma SaveKeepsWellFormed(store: Store, u: User)
    requires WellFormed(store)
    requires !UsernameHeldByOther(store, u.username, u.id)
    requires !EmailHeldByOther(store, u.email, u.id)
    ensures WellFormed(store[u.id := u])
  {
  }

  /** Re-saving a stored record with its username and email unchanged keeps
      the store well formed. */
  lemma ResaveKeepsWellFormed(store: Store, u: User)
    requires WellFormed(store)
    requires u.id in store && store[u.id].username == u.username && store[u.id].email == u.email
    ensures WellFormed(store[u.id := u])
  {
  }
}
