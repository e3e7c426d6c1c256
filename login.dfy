/**
 * The authentication logic of the login page (`handleSubmit` of
 * src/app/login/page.tsx): the empty-field check, the credential scan over
 * the stored `users` and the session login.
 */
module Login {
  import opened Wrappers
  import opened Storage
  import opened Accounts
  import Auth
  import AuthStore
  import Signup

  const FillAllFields := "Please fill in all fields"
  const InvalidEmailOrPassword := "Invalid email or password"
  const LoginFailed := "Login failed. Please try again."
  const AnalyzerPath := "/analyzer"

  datatype Outcome = Refused(message: string) | SignedIn(user: User)

  /** The outcome of one submission against the stored items. */
  function Authenticate(items: Items, email: string, password: string): (r: Outcome)
    ensures email == "" || password == "" ==> r == Refused(FillAllFields)
    ensures email != "" && password != "" && LoadAccounts(items).None? ==> r == Refused(LoginFailed)
    ensures r.SignedIn? <==> email != "" && password != "" && LoadAccounts(items).Some?
                             && Auth.Registered(LoadAccounts(items).value, email, password)
    ensures r.SignedIn? ==> exists i :: 0 <= i < |LoadAccounts(items).value|
                             && Matches(LoadAccounts(items).value[i], email, password)
                             && (forall j :: 0 <= j < i ==> !Matches(LoadAccounts(items).value[j], email, password))
                             && r.user == Public(LoadAccounts(items).value[i])
    ensures (email != "" && password != "" && LoadAccounts(items).Some?
             && !Auth.Registered(LoadAccounts(items).value, email, password)) ==> r == Refused(InvalidEmailOrPassword)
  {
    if email == "" || password == "" then Refused(FillAllFields)
    else match LoadAccounts(items)
      case None => Refused(LoginFailed)
      case Some(users) =>
        match FirstMatch(users, email, password)
        case Some(i) => SignedIn(Public(users[i]))
        case None => Refused(InvalidEmailOrPassword)
  }

  class LoginPage {
    var email: string
    var password: string
    var error: string
    const auth: AuthStore.AuthState

    constructor (auth: AuthStore.AuthState)
      ensures this.auth == auth && email == "" && password == "" && error == ""
    {
      this.auth := auth;
      email, password, error := "", "", "";
    }

    /** `handleSubmit`; returns the path the router is sent to, if any. It never writes `users`. */
    method HandleSubmit() returns (redirect: Option<string>)
      modifies this`error, auth, auth.storage
      ensures match Authenticate(old(auth.storage.items), email, password)
        case Refused(message) =>
          && error == message && redirect == None
          && auth.storage.items == old(auth.storage.items)
          && auth.user == old(auth.user) && auth.isAuthenticated == old(auth.isAuthenticated)
        case SignedIn(u) =>
          && error == "" && redirect == Some(AnalyzerPath)
          && auth.storage.items == old(auth.storage.items)[UserKey := SessionUser(u)]
          && auth.user == Some(u) && auth.isAuthenticated
    {
      error := "";
      if email == "" || password == "" {
        error := FillAllFields;
        return None;
      }
      var loaded := LoadAccounts(auth.storage.items);
      if loaded.None? {
        error := LoginFailed;  // JSON.parse threw
        return None;
      }
      var users := loaded.value;
      var found := FirstMatch(users, email, password);
      if found.Some? {
        var user := users[found.value];
        auth.Login(User(user.id, user.email, user.name));
        redirect := Some(AnalyzerPath);
      } else {
        error := InvalidEmailOrPassword;
        redirect := None;
      }
    }
  }

  // ---------------------------------------------------------------------
  // Properties

  /** For passwords of at least six characters the page and `validateCredentials` agree, user for user. */
  lemma AgreesWithValidate(items: Items, email: string, password: string)
    requires |password| >= Auth.MinPasswordLength
    ensures Authenticate(items, email, password).SignedIn? <==> Auth.ValidateCredentials(items, email, password).Success?
    ensures Authenticate(items, email, password).SignedIn? ==>
      Authenticate(items, email, password).user == Auth.ValidateCredentials(items, email, password).user
  {
  }

  /** The page has no length check: a stored account with a short password signs in here and fails there. */
  lemma ShortPasswordDiffers(items: Items, a: Account)
    requires items == map[UsersKey := AccountList([a])]
    requires a.email != "" && a.password != "" && |a.password| < Auth.MinPasswordLength
    ensures Authenticate(items, a.email, a.password) == SignedIn(Public(a))
    ensures Auth.ValidateCredentials(items, a.email, a.password) == Auth.Failure(Auth.InvalidCredentials)
  {
    assert Matches([a][0], a.email, a.password);
  }

  /** Whoever registered through the sign-up page can then sign in with the same email and password. */
  lemma SignupThenLogin(items: Items, name: string, email: string, password: string, confirm: string, newId: string)
    requires Signup.Register(items, name, email, password, confirm, newId).Created?
    ensures var a := Signup.Register(items, name, email, password, confirm, newId).account;
      Authenticate(Signup.AfterRegister(items, a), email, password) == SignedIn(Public(a))
  {
    var a := Signup.Register(items, name, email, password, confirm, newId).account;
    Signup.CreatedAccountValidates(items, name, email, password, confirm, newId);
    AgreesWithValidate(Signup.AfterRegister(items, a), email, password);
  }
}
