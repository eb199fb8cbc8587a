/** The users table: its rows, the password hash abstraction and the
    invariant that no two rows share an email. */
module Accounts {

  datatype Option<T> = None | Some(value: T)

  /** A field of a request body: absent (undefined or null) or a string. */
  type Field = Option<string>

  /** JavaScript truthiness of a string field, as tested by `!name`: the
      falsy values are exactly an absent field and the empty string. */
  predicate Present(f: Field)
    ensures Present(f) <==> f !in {None, Some("")}
  {
    f.Some? && f.value != ""
  }

  /** A stored password hash. `Digest` is a type separate from `string`;
      the controller fills the password column only through `Hash`. */
  datatype Digest = Hashed(string)

  /** The password hash. It wraps the password; the model relies only on its
      injectivity, not on its being one-way, salted or costly. */
  function Hash(password: string): (d: Digest)
  {
    Hashed(password)
  }

  lemma HashInjective(p: string, q: string)
    ensures Hash(p) == Hash(q) <==> p == q
  {
  }

  /** bcrypt's `compare`: the plaintext matches the stored hash. */
  predicate Compare(password: string, h: Digest)
  {
    h == Hash(password)
  }

  /** One row of the users table, without its key and its timestamps. */
  datatype User = User(name: string, email: string, password: Digest)

  /** The users table, keyed by id. */
  type Table = map<int, User>

  /** Some row, other than the one keyed `except`, holds `email`: the query
      `where({ email })` (optionally `.whereNot("id", id)`) followed by
      `.first()` finds a row. An absent email matches no row. */
  predicate EmailHeld(t: Table, email: Field, except: Option<int>)
    ensures email.None? ==> !EmailHeld(t, email, except)
  {
    exists id :: id in t && except != Some(id) && email == Some(t[id].email)
  }

  /** No two rows share an email. */
  ghost predicate EmailsUnique(t: Table)
  {
    forall i, j :: i in t && j in t && i != j ==> t[i].email != t[j].email
  }

  /** What every reachable table satisfies: unique emails, none of them empty. */
  ghost predicate WellFormed(t: Table)
  {
    EmailsUnique(t) && forall id :: id in t ==> t[id].email != ""
  }

  /** Re-stating a user's own email is never an email held by someone else. */
  lemma OwnEmailNotHeld(t: Table, id: int)
    requires WellFormed(t) && id in t
    ensures !EmailHeld(t, Some(t[id].email), Some(id))
  {
  }

  /** Inserting a row under a fresh key whose email no row holds keeps the
      table well formed. */
  lemma InsertKeepsWellFormed(t: Table, id: int, u: User)
    requires WellFormed(t) && id !in t
    requires u.email != "" && !EmailHeld(t, Some(u.email), None)
    ensures WellFormed(t[id := u])
  {
  }

  /** Replacing the row at `id` by one whose email no OTHER row holds keeps
      the table well formed. */
  lemma ReplaceKeepsWellFormed(t: Table, id: int, u: User)
    requires WellFormed(t) && id in t
    requires u.email != "" && !EmailHeld(t, Some(u.email), Some(id))
    ensures WellFormed(t[id := u])
  {
  }

  /** Removing a row keeps the table well formed. */
  lemma RemoveKeepsWellFormed(t: Table, id: int)
    requires WellFormed(t)
    ensures WellFormed(t - {id})
  {
  }
}
