/** The user-account controller: five request handlers over one users table. */
module Controller {
  import opened Accounts
  import opened Validation

  /** What a handler answers: a confirmation message, the list of all rows,
      one row, or an error. */
  datatype Reply =
    | Success
    | Listing(users: Table)
    | Found(user: User)
    | Failure(error: Error)

  /** The reply of a handler whose validation chain ended in `e`. */
  function Respond(e: Option<Error>): (r: Reply)
    ensures r.Failure? <==> e.Some?
    ensures e.Some? ==> r.error == e.value
  {
    match e
    case None => Success
    case Some(err) => Failure(err)
  }

  class UsersController {
    /** The users table. */
    var users: Table
    /** The id the store gives the next inserted row. */
    var nextId: int

    ghost predicate Valid()
      reads this
    {
      WellFormed(users) && forall id :: id in users ==> id < nextId
    }

    constructor ()
      ensures Valid() && users == map[]
    {
      users := map[];
      nextId := 1;
    }

    /** POST /users. `id` is the key the store gives the new row (the reply
        itself carries only the confirmation). */
    method Create(name: Field, email: Field, password: Field) returns (r: Reply, id: int)
      requires Valid()
      modifies this
      ensures Valid()
      ensures r == Respond(CreateCheck(old(users), name, email, password))
      ensures r.Failure? ==> users == old(users) && nextId == old(nextId)
      ensures r == Success ==>
                Present(name) && Present(email) && Present(password) &&
                id !in old(users) &&
                users == old(users)[id := User(name.value, email.value, Hash(password.value))]
    {
      id := nextId;
      if EmailHeld(users, email, None) {
        return Failure(EmailInUse), id;
      }
      if !Present(name) {
        return Failure(NameRequired), id;
      }
      if !Present(email) {
        return Failure(EmailRequired), id;
      }
      if !Present(password) {
        return Failure(PasswordRequired), id;
      }
      var hashedPassword := Hash(password.value);
      InsertKeepsWellFormed(users, id, User(name.value, email.value, hashedPassword));
      users := users[id := User(name.value, email.value, hashedPassword)];
      nextId := nextId + 1;
      r := Success;
    }

    /** GET /users. */
    method Index() returns (r: Reply)
      requires Valid()
      ensures r.Failure? <==> users == map[]
      ensures r.Failure? ==> r.error == NoUsers
      ensures !r.Failure? ==> r == Listing(users)
    {
      if |users| == 0 {
        return Failure(NoUsers);
      }
      r := Listing(users);
    }

    /** GET /users/:id. */
    method Show(id: int) returns (r: Reply)
      requires Valid()
      ensures r.Failure? <==> id !in users
      ensures r.Failure? ==> r.error == UserNotFound
      ensures !r.Failure? ==> id in users && r == Found(users[id])
    {
      if id !in users {
        return Failure(UserNotFound);
      }
      r := Found(users[id]);
    }

    /** DELETE /users/:id. */
    method Delete(id: int) returns (r: Reply)
      requires Valid()
      modifies this
      ensures Valid() && nextId == old(nextId)
      ensures r == (if id in old(users) then Success else Failure(UserNotFound))
      ensures r.Failure? ==> users == old(users)
      ensures r == Success ==> users == old(users) - {id}
    {
      if id !in users {
        return Failure(UserNotFound);
      }
      RemoveKeepsWellFormed(users, id);
      users := users - {id};
      r := Success;
    }

    /** PUT /users/:id. */
    method Update(id: int, name: Field, email: Field, oldPassword: Field, newPassword: Field)
      returns (r: Reply)
      requires Valid()
      modifies this
      ensures Valid() && nextId == old(nextId)
      ensures r == Respond(UpdateCheck(old(users), id, email, oldPassword, newPassword))
      ensures r.Failure? ==> users == old(users)
      ensures r == Success ==>
                id in old(users) && Present(email) && Present(newPassword) &&
                users == old(users)[id := User(
                  if name.Some? then name.value else old(users)[id].name,
                  email.value,
                  Hash(newPassword.value))]
    {
      UpdateCheckOrder(users, id, email, oldPassword, newPassword);
      if id !in users {
        return Failure(UserNotFound);
      }
      var user := users[id];
      if !Present(email) {
        return Failure(RegisteredEmailRequired);
      }
      if EmailHeld(users, email, Some(id)) {
        return Failure(EmailInUse);
      }
      var checkOldPassword := oldPassword.Some? && Compare(oldPassword.value, user.password);
      var checkNewPassword := newPassword.Some? && Compare(newPassword.value, user.password);
      if !Present(oldPassword) {
        return Failure(OldPasswordRequired);
      }
      if !Present(newPassword) {
        return Failure(NewPasswordRequired);
      }
      if !checkOldPassword {
        return Failure(OldPasswordMismatch);
      }
      if checkOldPassword == checkNewPassword {
        SameComparisonMeansSamePassword(users, id, oldPassword, newPassword);
        return Failure(SamePassword);
      }
      SameComparisonMeansSamePassword(users, id, oldPassword, newPassword);
      user := user.(
        name := if name.Some? then name.value else user.name,
        email := email.value,
        password := Hash(newPassword.value));
      ReplaceKeepsWellFormed(users, id, user);
      users := users[id := user];
      r := Success;
    }
  }
}
