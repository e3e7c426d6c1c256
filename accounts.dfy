/**
 * The records of the account system: the session `User` of src/lib/auth.ts
 * and the stored account `{id, name, email, password}` that the signup page
 * appends to the `users` list, with the credential scan
 * `users.find(u => u.email === email && u.password === password)` that
 * src/lib/auth.ts and src/app/login/page.tsx both run.
 */
module Accounts {
  import opened Wrappers

  /** `User`: what the session holds; it has no password. */
  datatype User = User(id: string, email: string, name: string)

  /** One element of the stored `users` list. */
  datatype Account = Account(id: string, name: string, email: string, password: string)

  /** The session view `{id, name, email}` of an account. */
  function Public(a: Account): User
  {
    User(a.id, a.email, a.name)
  }

  predicate Matches(a: Account, email: string, password: string)
  {
    a.email == email && a.password == password
  }

  /** The position of the first account with this email and this password, None when there is none. */
  function FirstMatch(accounts: seq<Account>, email: string, password: string): (r: Option<nat>)
    ensures r.Some? ==> r.value < |accounts| && Matches(accounts[r.value], email, password)
    ensures r.Some? ==> forall j :: 0 <= j < r.value ==> !Matches(accounts[j], email, password)
    ensures r.None? <==> forall j :: 0 <= j < |accounts| ==> !Matches(accounts[j], email, password)
  {
    if |accounts| == 0 then None
    else if Matches(accounts[0], email, password) then Some(0)
    else match FirstMatch(accounts[1..], email, password)
      case None => None
      case Some(k) => Some(k + 1)
  }

  /** `users.some(u => u.email === email)`. */
  predicate EmailTaken(accounts: seq<Account>, email: string)
  {
    exists i :: 0 <= i < |accounts| && accounts[i].email == email
  }

  /** No two stored accounts share an email. */
  predicate DistinctEmails(accounts: seq<Account>)
  {
    forall i, j :: 0 <= i < j < |accounts| ==> accounts[i].email != accounts[j].email
  }

  /** Appending an account whose email is not taken keeps the emails distinct. */
  lemma AppendKeepsDistinct(accounts: seq<Account>, a: Account)
    requires DistinctEmails(accounts) && !EmailTaken(accounts, a.email)
    ensures DistinctEmails(accounts + [a])
  {
    forall i, j | 0 <= i < j < |accounts + [a]|
      ensures (accounts + [a])[i].email != (accounts + [a])[j].email
    {
      if j == |accounts| {
        assert (accounts + [a])[i] == accounts[i];
      }
    }
  }

  /**
   * An account appended when its email is not taken is the first match for
   * its own email and password: no earlier account has that email.
   */
  lemma AppendedIsFound(accounts: seq<Account>, a: Account)
    requires !EmailTaken(accounts, a.email)
    ensures FirstMatch(accounts + [a], a.email, a.password) == Some(|accounts|)
  {
    var all := accounts + [a];
    forall j | 0 <= j < |accounts| ensures !Matches(all[j], a.email, a.password) {
      assert all[j] == accounts[j];
    }
    assert Matches(all[|accounts|], a.email, a.password);
    FirstMatchIsLeast(all, a.email, a.password, |accounts|);
  }

  /** A matching position with no match before it is the one the scan returns. */
  lemma FirstMatchIsLeast(accounts: seq<Account>, email: string, password: string, k: nat)
    requires k < |accounts| && Matches(accounts[k], email, password)
    requires forall j :: 0 <= j < k ==> !Matches(accounts[j], email, password)
    ensures FirstMatch(accounts, email, password) == Some(k)
  {
    var r := FirstMatch(accounts, email, password);
    assert r.Some?;
  }
}
