/** Request sequences a client of the controller can run, with what their
    replies and the table are afterwards, proved from the handlers' contracts. */
module Scenarios {
  import opened Accounts
  import opened Validation
  import opened Controller

  /** A create with a free email and every field given succeeds; showing the
      new id then gives back the name and email, and a password hash that
      only the submitted password matches. */
  method CreateThenShow(c: UsersController, name: Field, email: Field, password: Field)
    returns (created: Reply, shown: Reply)
    requires c.Valid()
    requires Present(name) && Present(email) && Present(password)
    requires !EmailHeld(c.users, email, None)
    modifies c
    ensures c.Valid()
    ensures created == Success && |c.users| == |old(c.users)| + 1
    ensures shown.Found?
    ensures shown.user.name == name.value && shown.user.email == email.value
    ensures forall p :: Compare(p, shown.user.password) <==> p == password.value
  {
    var id;
    created, id := c.Create(name, email, password);
    shown := c.Show(id);
  }

  /** A second create with an email already in the table fails with
      EmailInUse whatever the other fields are, and changes nothing: the
      table holds just the first create's row. */
  method CreateDuplicate(c: UsersController, name: Field, email: Field, password: Field,
                         name': Field, password': Field)
    returns (first: Reply, second: Reply, id: int)
    requires c.Valid()
    requires Present(name) && Present(email) && Present(password)
    requires !EmailHeld(c.users, email, None)
    modifies c
    ensures c.Valid()
    ensures first == Success && second == Failure(EmailInUse)
    ensures id !in old(c.users)
    ensures c.users == old(c.users)[id := User(name.value, email.value, Hash(password.value))]
  {
    first, id := c.Create(name, email, password);
    assert c.users[id].email == email.value;
    var unused;
    second, unused := c.Create(name', email, password');
  }

  /** Listing right after a successful create is never the NoUsers error. */
  method CreateThenIndex(c: UsersController, name: Field, email: Field, password: Field)
    returns (created: Reply, listed: Reply)
    requires c.Valid()
    modifies c
    ensures c.Valid()
    ensures created == Success ==> listed.Listing? && listed.users == c.users
  {
    var id;
    created, id := c.Create(name, email, password);
    assert created == Success ==> id in c.users;
    listed := c.Index();
  }

  /** Deleting an existing id succeeds once; the same delete again fails with
      UserNotFound, and so does showing the id. */
  method DeleteTwice(c: UsersController, id: int) returns (first: Reply, second: Reply, shown: Reply)
    requires c.Valid() && id in c.users
    modifies c
    ensures c.Valid()
    ensures first == Success && second == Failure(UserNotFound) && shown == Failure(UserNotFound)
    ensures c.users == old(c.users) - {id}
  {
    first := c.Delete(id);
    second := c.Delete(id);
    shown := c.Show(id);
  }

  /** A successful update is seen by the next show: the new name (when given)
      and email, and a hash that the new password matches and the old one
      no longer does. */
  method UpdateThenShow(c: UsersController, id: int, name: Field, email: Field,
                        oldPassword: Field, newPassword: Field)
    returns (updated: Reply, shown: Reply)
    requires c.Valid()
    requires UpdateAllowed(c.users, id, email, oldPassword, newPassword)
    modifies c
    ensures c.Valid()
    ensures updated == Success && shown.Found?
    ensures shown.user.name == (if name.Some? then name.value else old(c.users)[id].name)
    ensures shown.user.email == email.value
    ensures Compare(newPassword.value, shown.user.password)
    ensures !Compare(oldPassword.value, shown.user.password)
  {
    updated := c.Update(id, name, email, oldPassword, newPassword);
    shown := c.Show(id);
  }

  /** A user may re-state their own current email in an update. */
  method UpdateOwnEmail(c: UsersController, id: int, name: Field,
                        oldPassword: Field, newPassword: Field)
    returns (r: Reply)
    requires c.Valid() && id in c.users
    requires Present(oldPassword) && Present(newPassword)
    requires Compare(oldPassword.value, c.users[id].password)
    requires newPassword.value != oldPassword.value
    modifies c
    ensures c.Valid()
    ensures r == Success && id in c.users && c.users[id].email == old(c.users)[id].email
  {
    OwnEmailNotHeld(c.users, id);
    r := c.Update(id, name, Some(c.users[id].email), oldPassword, newPassword);
  }

  /** An update whose old password does not match the stored hash fails with
      OldPasswordMismatch and leaves the table as it was. */
  method UpdateWrongPassword(c: UsersController, id: int, name: Field, email: Field,
                             oldPassword: Field, newPassword: Field)
    returns (r: Reply)
    requires c.Valid() && id in c.users
    requires Present(email) && !EmailHeld(c.users, email, Some(id))
    requires Present(oldPassword) && Present(newPassword)
    requires !Compare(oldPassword.value, c.users[id].password)
    modifies c
    ensures c.Valid()
    ensures r == Failure(OldPasswordMismatch) && c.users == old(c.users)
  {
    UpdateCheckOrder(c.users, id, email, oldPassword, newPassword);
    r := c.Update(id, name, email, oldPassword, newPassword);
  }

  /** Updating to an email that another user holds fails with EmailInUse. */
  method UpdateTakenEmail(c: UsersController, id: int, other: int, name: Field,
                          oldPassword: Field, newPassword: Field)
    returns (r: Reply)
    requires c.Valid() && id in c.users && other in c.users && other != id
    modifies c
    ensures c.Valid()
    ensures r == Failure(EmailInUse) && c.users == old(c.users)
  {
    var email := Some(c.users[other].email);
    assert EmailHeld(c.users, email, Some(id));
    UpdateCheckOrder(c.users, id, email, oldPassword, newPassword);
    r := c.Update(id, name, email, oldPassword, newPassword);
  }
}
