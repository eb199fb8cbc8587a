/** The ordered validation chains of `create` and `update`: each operation
    runs a fixed list of checks and stops at the first that fails. */
module Validation {
  import opened Accounts

  /** One `if (...) throw new AppError(...)` of the controller: the condition
      under which it lets the request through, and the error it raises. */
  datatype Check = Check(ok: bool, error: Error)

  /** The distinct error messages of the controller. */
  datatype Error =
    | EmailInUse               // the email is already in use (create and update)
    | NameRequired             // create: the name is required
    | EmailRequired            // create: the email is required
    | PasswordRequired         // create: the password is required
    | NoUsers                  // index: no user registered
    | UserNotFound             // show, delete, update: no such user
    | RegisteredEmailRequired  // update: the registered email must be given
    | OldPasswordRequired      // update: the current password must be given
    | NewPasswordRequired      // update: the new password must be given
    | OldPasswordMismatch      // update: the current password does not match
    | SamePassword             // update: the new password equals the current one

  /** The error of the first check, in list order, that fails; None when all
      pass. This is what a chain of `if (...) throw` statements reports. */
  function FirstError(checks: seq<Check>): (e: Option<Error>)
    ensures e.None? <==> forall i :: 0 <= i < |checks| ==> checks[i].ok
    ensures forall i :: (0 <= i < |checks| && !checks[i].ok &&
              (forall j :: 0 <= j < i ==> checks[j].ok)) ==> e == Some(checks[i].error)
    ensures e.Some? ==> exists i :: (0 <= i < |checks| && !checks[i].ok &&
              e.value == checks[i].error && (forall j :: 0 <= j < i ==> checks[j].ok))
  {
    if checks == [] then None
    else if !checks[0].ok then Some(checks[0].error)
    else
      var e := FirstError(checks[1..]);
      assert forall i :: 1 <= i < |checks| ==> checks[i] == checks[1..][i - 1];
      e
  }

  /** The checks of `create`, in the order the controller runs them: the
      email lookup comes before every presence check, and no two checks share
      an error, so the reply tells which one failed. */
  function CreateChecks(t: Table, name: Field, email: Field, password: Field): (checks: seq<Check>)
    ensures |checks| == 4
    ensures checks[0] == Check(!EmailHeld(t, email, None), EmailInUse)
    ensures forall i :: 1 <= i < |checks| ==> checks[i].error != EmailInUse
    ensures forall i, j :: 0 <= i < j < |checks| ==> checks[i].error != checks[j].error
  {
    [ Check(!EmailHeld(t, email, None), EmailInUse),
      Check(Present(name), NameRequired),
      Check(Present(email), EmailRequired),
      Check(Present(password), PasswordRequired) ]
  }

  /** Why `create` refuses a request, or None when it inserts the row. */
  function CreateCheck(t: Table, name: Field, email: Field, password: Field): (e: Option<Error>)
    ensures e.None? <==>
              !EmailHeld(t, email, None) && Present(name) && Present(email) && Present(password)
    ensures e == Some(EmailInUse) <==> EmailHeld(t, email, None)
    ensures e == Some(NameRequired) <==> !EmailHeld(t, email, None) && !Present(name)
    ensures e == Some(EmailRequired) <==>
              !EmailHeld(t, email, None) && Present(name) && !Present(email)
    ensures e == Some(PasswordRequired) <==>
              !EmailHeld(t, email, None) && Present(name) && Present(email) && !Present(password)
  {
    var checks := CreateChecks(t, name, email, password);
    assert checks[0].ok <==> !EmailHeld(t, email, None);
    assert checks[1].ok <==> Present(name);
    assert checks[2].ok <==> Present(email);
    assert checks[3].ok <==> Present(password);
    FirstError(checks)
  }

  /** `compare(password, user.password)` for the row at `id`; an absent
      password is taken not to match (the result is only looked at after the
      presence checks, so this choice never shows). */
  predicate Matches(t: Table, id: int, password: Field)
    ensures password.None? || id !in t ==> !Matches(t, id, password)
  {
    id in t && password.Some? && Compare(password.value, t[id].password)
  }

  /** The checks of `update`, in the order the controller runs them: the id
      lookup first, and no two checks share an error. The last one compares
      the two comparison results, as the controller does. */
  function UpdateChecks(t: Table, id: int, email: Field, oldPassword: Field, newPassword: Field)
    : (checks: seq<Check>)
    ensures |checks| == 7
    ensures checks[0] == Check(id in t, UserNotFound)
    ensures checks[6] ==
              Check(Matches(t, id, oldPassword) != Matches(t, id, newPassword), SamePassword)
    ensures forall i, j :: 0 <= i < j < |checks| ==> checks[i].error != checks[j].error
  {
    var checkOld := Matches(t, id, oldPassword);
    var checkNew := Matches(t, id, newPassword);
    [ Check(id in t, UserNotFound),
      Check(Present(email), RegisteredEmailRequired),
      Check(!EmailHeld(t, email, Some(id)), EmailInUse),
      Check(Present(oldPassword), OldPasswordRequired),
      Check(Present(newPassword), NewPasswordRequired),
      Check(checkOld, OldPasswordMismatch),
      Check(checkOld != checkNew, SamePassword) ]
  }

  /** The condition under which `update` succeeds, stated directly: the user
      exists, the email is given and held by no other user, both passwords are
      given, the old one matches the stored hash and the new one differs from
      the old one. */
  ghost predicate UpdateAllowed(t: Table, id: int, email: Field, oldPassword: Field, newPassword: Field)
  {
    && id in t
    && Present(email)
    && !EmailHeld(t, email, Some(id))
    && Present(oldPassword)
    && Present(newPassword)
    && Compare(oldPassword.value, t[id].password)
    && newPassword.value != oldPassword.value
  }

  /** Why `update` refuses a request, or None when it rewrites the row. */
  function UpdateCheck(t: Table, id: int, email: Field, oldPassword: Field, newPassword: Field): (e: Option<Error>)
    ensures e.None? <==> UpdateAllowed(t, id, email, oldPassword, newPassword)
  {
    var checks := UpdateChecks(t, id, email, oldPassword, newPassword);
    assert checks[1].ok <==> Present(email);
    assert checks[2].ok <==> !EmailHeld(t, email, Some(id));
    assert checks[5].ok <==> Matches(t, id, oldPassword);
    assert checks[6].ok <==> Matches(t, id, oldPassword) != Matches(t, id, newPassword);
    if id in t && Present(oldPassword) && Present(newPassword) && Matches(t, id, oldPassword) then
      SameComparisonMeansSamePassword(t, id, oldPassword, newPassword);
      FirstError(checks)
    else
      assert !checks[0].ok || !checks[3].ok || !checks[4].ok || !checks[5].ok;
      FirstError(checks)
  }

  /** The guard `checkOldPassword === checkNewPassword` is reached only when
      the old password matched; there it fails exactly when the new password
      also matches the stored hash, that is, when it equals the old password. */
  lemma SameComparisonMeansSamePassword(t: Table, id: int, oldPassword: Field, newPassword: Field)
    requires Present(oldPassword) && Present(newPassword)
    requires Matches(t, id, oldPassword)
    ensures (Matches(t, id, oldPassword) == Matches(t, id, newPassword))
            <==> newPassword.value == oldPassword.value
  {
    HashInjective(oldPassword.value, newPassword.value);
  }

  /** The error `update` reports, for every error it can report: each is
      raised exactly when every earlier check passes and its own fails. */
  lemma UpdateCheckOrder(t: Table, id: int, email: Field, oldPassword: Field, newPassword: Field)
    ensures var e := UpdateCheck(t, id, email, oldPassword, newPassword);
      && (e == Some(UserNotFound) <==> id !in t)
      && (e == Some(RegisteredEmailRequired) <==> id in t && !Present(email))
      && (e == Some(EmailInUse) <==>
            id in t && Present(email) && EmailHeld(t, email, Some(id)))
      && (e == Some(OldPasswordRequired) <==>
            id in t && Present(email) && !EmailHeld(t, email, Some(id)) && !Present(oldPassword))
      && (e == Some(NewPasswordRequired) <==>
            id in t && Present(email) && !EmailHeld(t, email, Some(id)) && Present(oldPassword)
            && !Present(newPassword))
      && (e == Some(OldPasswordMismatch) <==>
            id in t && Present(email) && !EmailHeld(t, email, Some(id)) && Present(oldPassword)
            && Present(newPassword) && !Compare(oldPassword.value, t[id].password))
      && (e == Some(SamePassword) <==>
            id in t && Present(email) && !EmailHeld(t, email, Some(id)) && Present(oldPassword)
            && Present(newPassword) && Compare(oldPassword.value, t[id].password)
            && newPassword.value == oldPassword.value)
  {
    var checks := UpdateChecks(t, id, email, oldPassword, newPassword);
    if id in t && Present(oldPassword) && Present(newPassword) && Matches(t, id, oldPassword) {
      SameComparisonMeansSamePassword(t, id, oldPassword, newPassword);
    }
    assert checks[0] == Check(id in t, UserNotFound);
    assert checks[1] == Check(Present(email), RegisteredEmailRequired);
    assert checks[2] == Check(!EmailHeld(t, email, Some(id)), EmailInUse);
    assert checks[3] == Check(Present(oldPassword), OldPasswordRequired);
    assert checks[4] == Check(Present(newPassword), NewPasswordRequired);
    assert checks[5] == Check(Matches(t, id, oldPassword), OldPasswordMismatch);
  }
}
