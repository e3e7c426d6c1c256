/**
 * The registration logic of the sign-up page (`handleSubmit` of
 * src/app/signup/page.tsx): the form checks in their order, the
 * email-taken check against the stored `users`, the append of the new
 * account and the session login. The random id is the parameter `newId`.
 */
module Signup {
  import opened Wrappers
  import opened Storage
  import opened Accounts
  import Auth
  import AuthStore

  const FillAllFields := "Please fill in all fields"
  const PasswordsDiffer := "Passwords do not match"
  const PasswordTooShort := "Password must be at least 6 characters"
  const EmailRegistered := "Email already registered"
  const SignupFailed := "Sign up failed. Please try again."
  const AnalyzerPath := "/analyzer"

  predicate AllFilled(name: string, email: string, password: string, confirm: string)
  {
    name != "" && email != "" && password != "" && confirm != ""
  }

  /** The form checks of lines 25-41: the message of the first that fails, None when all pass. */
  function FormCheck(name: string, email: string, password: string, confirm: string): (r: Option<string>)
    ensures r.None? <==> AllFilled(name, email, password, confirm) && password == confirm
                         && |password| >= Auth.MinPasswordLength
    ensures !AllFilled(name, email, password, confirm) ==> r == Some(FillAllFields)
    ensures AllFilled(name, email, password, confirm) && password != confirm ==> r == Some(PasswordsDiffer)
    ensures AllFilled(name, email, password, confirm) && password == confirm && |password| < Auth.MinPasswordLength
            ==> r == Some(PasswordTooShort)
  {
    if !AllFilled(name, email, password, confirm) then Some(FillAllFields)
    else if password != confirm then Some(PasswordsDiffer)
    else if |password| < Auth.MinPasswordLength then Some(PasswordTooShort)
    else None
  }

  datatype Outcome = Refused(message: string) | Created(account: Account)

  /** The outcome of one submission against the stored items. */
  function Register(items: Items, name: string, email: string, password: string, confirm: string, newId: string): (r: Outcome)
    ensures r.Created? <==> FormCheck(name, email, password, confirm).None? && LoadAccounts(items).Some?
                            && !EmailTaken(LoadAccounts(items).value, email)
    ensures r.Created? ==> r.account == Account(newId, name, email, password)
    ensures FormCheck(name, email, password, confirm).Some? ==> r == Refused(FormCheck(name, email, password, confirm).value)
    ensures (FormCheck(name, email, password, confirm).None? && LoadAccounts(items).Some?
             && EmailTaken(LoadAccounts(items).value, email)) ==> r == Refused(EmailRegistered)
    ensures FormCheck(name, email, password, confirm).None? && LoadAccounts(items).None? ==> r == Refused(SignupFailed)
  {
    match FormCheck(name, email, password, confirm)
    case Some(message) => Refused(message)
    case None =>
      match LoadAccounts(items)
      case None => Refused(SignupFailed)
      case Some(users) =>
        if EmailTaken(users, email) then Refused(EmailRegistered)
        else Created(Account(newId, name, email, password))
  }

  /** The items after a successful registration: `users` extended, then the session written by `login`. */
  function AfterRegister(items: Items, account: Account): Items
    requires LoadAccounts(items).Some?
  {
    items[UsersKey := AccountList(LoadAccounts(items).value + [account])][UserKey := SessionUser(Public(account))]
  }

  class SignupPage {
    var name: string
    var email: string
    var password: string
    var confirmPassword: string
    var error: string
    const auth: AuthStore.AuthState

    constructor (auth: AuthStore.AuthState)
      ensures this.auth == auth
      ensures name == "" && email == "" && password == "" && confirmPassword == "" && error == ""
    {
      this.auth := auth;
      name, email, password, confirmPassword, error := "", "", "", "", "";
    }

    /** `handleSubmit`; returns the path the router is sent to, if any. */
    method HandleSubmit(newId: string) returns (redirect: Option<string>)
      modifies this`error, auth, auth.storage
      ensures var outcome := Register(old(auth.storage.items), name, email, password, confirmPassword, newId);
        match outcome
        case Refused(message) =>
          && error == message && redirect == None
          && auth.storage.items == old(auth.storage.items)
          && auth.user == old(auth.user) && auth.isAuthenticated == old(auth.isAuthenticated)
        case Created(account) =>
          && error == "" && redirect == Some(AnalyzerPath)
          && auth.storage.items == AfterRegister(old(auth.storage.items), account)
          && auth.user == Some(Public(account)) && auth.isAuthenticated
    {
      error := "";
      if name == "" || email == "" || password == "" || confirmPassword == "" {
        error := FillAllFields;
        return None;
      }
      if password != confirmPassword {
        error := PasswordsDiffer;
        return None;
      }
      if |password| < Auth.MinPasswordLength {
        error := PasswordTooShort;
        return None;
      }
      var userData := Account(newId, name, email, password);
      var loaded := LoadAccounts(auth.storage.items);
      if loaded.None? {
        error := SignupFailed;  // JSON.parse threw
        return None;
      }
      var existingUsers := loaded.value;
      if EmailTaken(existingUsers, email) {
        error := EmailRegistered;
        return None;
      }
      existingUsers := existingUsers + [userData];
      auth.storage.SetItem(UsersKey, AccountList(existingUsers));
      auth.Login(Public(userData));
      redirect := Some(AnalyzerPath);
    }
  }

  // ---------------------------------------------------------------------
  // Properties

  /** The `users` list grows by exactly the new account, at the end. */
  lemma RegisteredAppends(items: Items, account: Account)
    requires LoadAccounts(items).Some?
    ensures LoadAccounts(AfterRegister(items, account)) == Some(LoadAccounts(items).value + [account])
    ensures Auth.GetCurrentUser(AfterRegister(items, account)) == Auth.Current(Public(account))
  {
    KeysDistinct();
  }

  /** Registration keeps the stored emails pairwise distinct. */
  lemma RegisterKeepsEmailsDistinct(items: Items, name: string, email: string, password: string, confirm: string, newId: string)
    requires LoadAccounts(items).Some? && DistinctEmails(LoadAccounts(items).value)
    ensures var r := Register(items, name, email, password, confirm, newId);
      r.Created? ==> DistinctEmails(LoadAccounts(AfterRegister(items, r.account)).value)
  {
    var r := Register(items, name, email, password, confirm, newId);
    if r.Created? {
      RegisteredAppends(items, r.account);
      AppendKeepsDistinct(LoadAccounts(items).value, r.account);
    }
  }

  /** An account created by sign-up is later accepted by `validateCredentials` with its email and password. */
  lemma CreatedAccountValidates(items: Items, name: string, email: string, password: string, confirm: string, newId: string)
    requires Register(items, name, email, password, confirm, newId).Created?
    ensures var a := Register(items, name, email, password, confirm, newId).account;
      Auth.ValidateCredentials(AfterRegister(items, a), email, password) == Auth.Success(Public(a))
  {
    var a := Register(items, name, email, password, confirm, newId).account;
    var users := LoadAccounts(items).value;
    RegisteredAppends(items, a);
    AppendedIsFound(users, a);
  }

  /** A taken email refuses the account and leaves the stored list as it was. */
  lemma TakenEmailRefused(items: Items, name: string, email: string, password: string, newId: string)
    requires AllFilled(name, email, password, password) && |password| >= Auth.MinPasswordLength
    requires LoadAccounts(items).Some? && EmailTaken(LoadAccounts(items).value, email)
    ensures Register(items, name, email, password, password, newId) == Refused(EmailRegistered)
  {
  }
}
