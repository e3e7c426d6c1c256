/**
 * The storage-backed helpers of src/lib/auth.ts: the credential check
 * against the stored `users` list and the readers and the remover of the
 * `user` session key.
 */
module Auth {
  import opened Wrappers
  import opened Storage
  import opened Accounts

  /** `AuthResponse`: `{success: true, user}` or `{success: false, error}`. */
  datatype AuthResponse = Success(user: User) | Failure(error: string)

  /** What `getCurrentUser()` does: return null, return the stored user, or throw from `JSON.parse`. */
  datatype CurrentUser = NoUser | Current(user: User) | Unreadable

  const InvalidCredentials := "Invalid credentials"
  const AuthenticationFailed := "Authentication failed"
  const MinPasswordLength := 6

  /** Some stored account has exactly this email and this password. */
  predicate Registered(accounts: seq<Account>, email: string, password: string)
  {
    exists i :: 0 <= i < |accounts| && Matches(accounts[i], email, password)
  }

  /** `validateCredentials(email, password)`. */
  function ValidateCredentials(items: Items, email: string, password: string): (r: AuthResponse)
    ensures email == "" || |password| < MinPasswordLength ==> r == Failure(InvalidCredentials)
    ensures email != "" && |password| >= MinPasswordLength && LoadAccounts(items).None?
            ==> r == Failure(AuthenticationFailed)
    ensures r.Success? <==> email != "" && |password| >= MinPasswordLength && LoadAccounts(items).Some?
                            && Registered(LoadAccounts(items).value, email, password)
    ensures r.Success? ==> exists i :: 0 <= i < |LoadAccounts(items).value|
                            && Matches(LoadAccounts(items).value[i], email, password)
                            && (forall j :: 0 <= j < i ==> !Matches(LoadAccounts(items).value[j], email, password))
                            && r.user == Public(LoadAccounts(items).value[i])
    ensures && email != "" && |password| >= MinPasswordLength && LoadAccounts(items).Some?
            && !Registered(LoadAccounts(items).value, email, password)
            ==> r == Failure(InvalidCredentials)
    ensures r.Failure? ==> r.error == InvalidCredentials || r.error == AuthenticationFailed
  {
    if email == "" || |password| < MinPasswordLength then Failure(InvalidCredentials)
    else match LoadAccounts(items)
      case None => Failure(AuthenticationFailed)
      case Some(users) =>
        match FirstMatch(users, email, password)
        case Some(i) => Success(Public(users[i]))
        case None => Failure(InvalidCredentials)
  }

  /**
   * `isAuthenticated()`: `!!localStorage.getItem('user')`. It reports a
   * session exactly when `getCurrentUser()` would not return null.
   */
  function IsAuthenticated(items: Items): (r: bool)
    ensures r <==> !GetCurrentUser(items).NoUser?
  {
    UserKey in items && !items[UserKey].Empty?
  }

  /** `getCurrentUser()`: `user ? JSON.parse(user) : null`. */
  function GetCurrentUser(items: Items): (r: CurrentUser)
    ensures UserKey !in items ==> r == NoUser
    ensures UserKey in items && items[UserKey].Empty? ==> r == NoUser
    ensures UserKey in items && items[UserKey].SessionUser? ==> r == Current(items[UserKey].user)
    ensures WellShaped(items) ==> (r.Unreadable? <==> UserKey in items && items[UserKey].Corrupt?)
  {
    if UserKey !in items then NoUser
    else match items[UserKey]
      case Empty => NoUser
      case SessionUser(u) => Current(u)
      case _ => Unreadable
  }

  /** `logout()`. */
  method Logout(storage: LocalStorage)
    modifies storage
    ensures storage.items == old(storage.items) - {UserKey}
    ensures !IsAuthenticated(storage.items) && GetCurrentUser(storage.items) == NoUser
  {
    storage.RemoveItem(UserKey);
  }

  // ---------------------------------------------------------------------
  // Properties

  /** A stored session user is reported as signed in and read back unchanged. */
  lemma StoredSessionRead(items: Items, u: User)
    ensures var after := items[UserKey := SessionUser(u)];
      IsAuthenticated(after) && GetCurrentUser(after) == Current(u)
  {
  }

  /** Without the `user` key nobody is signed in. */
  lemma RemovedSessionRead(items: Items)
    ensures !IsAuthenticated(items - {UserKey}) && GetCurrentUser(items - {UserKey}) == NoUser
  {
  }

  /** The two readers agree except on an unreadable value, which counts as signed in while reading it throws. */
  lemma ReadersAgree(items: Items)
    ensures GetCurrentUser(items).Current? ==> IsAuthenticated(items)
    ensures GetCurrentUser(items).NoUser? ==> !IsAuthenticated(items)
    ensures UserKey in items && items[UserKey] == Corrupt ==> IsAuthenticated(items) && GetCurrentUser(items) == Unreadable
  {
  }

  /** Only the `users` key is consulted: writes to other keys do not change the verdict. */
  lemma ValidateReadsOnlyUsers(items: Items, key: string, v: StoredValue, email: string, password: string)
    requires key != UsersKey
    ensures ValidateCredentials(items[key := v], email, password) == ValidateCredentials(items, email, password)
  {
    assert LoadAccounts(items[key := v]) == LoadAccounts(items);
  }
}
