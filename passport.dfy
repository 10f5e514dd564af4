/**
 * The board's passport configuration: the LocalStrategy callback that
 * checks an email and password, and the serializeUser/deserializeUser
 * pair that keeps only the user's id in the session.
 */
module Passport {
  import opened Wrappers
  import opened Bcrypt
  import opened Store

  /** What the strategy hands to `done`: the user, or `false` with a message. */
  datatype AuthResult = Authenticated(user: User) | Rejected(message: string)

  const IncorrectEmail := "Incorrect email"
  const IncorrectPassword := "Incorrect password"
  /** passport-local's own refusal when the email or the password field is empty. */
  const MissingCredentials := "Missing credentials"

  /**
   * The LocalStrategy callback (the email is the username field): look the
   * row up by email, then compare the password with the stored digest.
   * Reads the table and changes nothing.
   */
  function Authenticate(t: UserTable, h: Hasher, email: string, password: string): (r: AuthResult)
    requires t.Valid()
    ensures r.Authenticated? <==>
      exists id :: id in t.rows && t.rows[id].email == email && h.compare(password, t.rows[id].password)
    ensures r.Authenticated? ==> r.user.id in t.rows && t.rows[r.user.id] == r.user && r.user.email == email
    ensures r == Rejected(IncorrectEmail) <==> forall id :: id in t.rows ==> t.rows[id].email != email
    ensures r == Rejected(IncorrectPassword) <==>
      exists id :: id in t.rows && t.rows[id].email == email && !h.compare(password, t.rows[id].password)
    ensures r.Rejected? ==> r.message == IncorrectEmail || r.message == IncorrectPassword
  {
    match FindByEmail(t, email)
    case None => Rejected(IncorrectEmail)
    case Some(u) => if h.compare(password, u.password) then Authenticated(u) else Rejected(IncorrectPassword)
  }

  /**
   * serializeUser: the session keeps the user's id and nothing else, so
   * reading it back against any later table yields that table's row for
   * the user.
   */
  function Serialize(u: User): (id: UserId)
    ensures forall t: UserTable :: t.Valid() && u.id in t.rows ==> Deserialize(t, id) == Some(t.rows[u.id])
  {
    u.id
  }

  /**
   * deserializeUser, i.e. `SELECT * FROM users WHERE id = $1` followed by
   * `rows[0]`: re-reads the row by id on every request, so the
   * request sees the row as it is now, not as it was at login. For an id
   * with no row it yields None (passport's handling of that is not modelled).
   */
  function Deserialize(t: UserTable, id: UserId): (r: Option<User>)
    requires t.Valid()
    ensures r.Some? <==> id in t.rows
    ensures r.Some? ==> r.value == t.rows[id] && r.value.id == id
  {
    if id in t.rows then Some(t.rows[id]) else None
  }
}
