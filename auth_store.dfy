/**
 * The session store of src/store/useAuth.ts: the `user` and
 * `isAuthenticated` state and the `login`, `logout` and `setUser` actions,
 * each of which also writes or removes the `user` key of the browser storage.
 */
module AuthStore {
  import opened Wrappers
  import opened Storage
  import opened Accounts
  import Auth

  class AuthState {
    var user: Option<User>
    var isAuthenticated: bool
    const storage: LocalStorage

    /** The flag says whether a user is held. */
    ghost predicate Valid()
      reads this
    {
      isAuthenticated <==> user.Some?
    }

    /** The initial state: no user and not signed in; storage is not read. */
    constructor (storage: LocalStorage)
      ensures this.storage == storage
      ensures user == None && !isAuthenticated && Valid()
    {
      this.storage := storage;
      user := None;
      isAuthenticated := false;
    }

    /** `login(u)`. */
    method Login(u: User)
      modifies this, storage
      ensures user == Some(u) && isAuthenticated && Valid()
      ensures storage.items == old(storage.items)[UserKey := SessionUser(u)]
      ensures Auth.IsAuthenticated(storage.items) && Auth.GetCurrentUser(storage.items) == Auth.Current(u)
    {
      storage.SetItem(UserKey, SessionUser(u));
      user := Some(u);
      isAuthenticated := true;
    }

    /** `logout()`. */
    method Logout()
      modifies this, storage
      ensures user == None && !isAuthenticated && Valid()
      ensures storage.items == old(storage.items) - {UserKey}
      ensures !Auth.IsAuthenticated(storage.items) && Auth.GetCurrentUser(storage.items) == Auth.NoUser
    {
      storage.RemoveItem(UserKey);
      user := None;
      isAuthenticated := false;
    }

    /** `setUser(x)`: writes storage only for a user; `setUser(null)` leaves the stored key in place. */
    method SetUser(x: Option<User>)
      modifies this, storage
      ensures user == x && isAuthenticated == x.Some? && Valid()
      ensures x.Some? ==> storage.items == old(storage.items)[UserKey := SessionUser(x.value)]
      ensures x.None? ==> storage.items == old(storage.items)
    {
      if x.Some? {
        storage.SetItem(UserKey, SessionUser(x.value));
      }
      user := x;
      isAuthenticated := x.Some?;
    }
  }
}
