/**
 * Properties that relate several operations of the board: sign-up followed
 * by login, the session round trip after an elevation, the idempotence and
 * monotonicity of elevation, and the guard's treatment of admins.
 */
module Properties {
  import opened Wrappers
  import opened Bcrypt
  import opened Store
  import opened Passport
  import opened Routes

  /**
   * For a user inserted with the digest of `password`, the LocalStrategy
   * callback accepts that email and password and yields exactly the inserted
   * row. Needs bcrypt's own promise that a plaintext matches its digest. The
   * full `POST /login` also needs both fields non-empty (`App.Board.Login`).
   */
  lemma SignUpThenAuthenticate(t: UserTable, h: Hasher, u: NewUser, password: string, salt: Salt, defaults: ColumnDefaults)
    requires t.Valid() && Sound(h)
    requires u.password == h.hash(password, SaltRounds, salt)
    requires Insert(t, u, defaults).Inserted?
    ensures Authenticate(Insert(t, u, defaults).table, h, u.email, password) == Authenticated(Insert(t, u, defaults).row)
  {
  }

  /**
   * The session keeps only the id, and reading it back yields the row as
   * stored now: an elevation committed after the session was written shows
   * up on the next request, and nothing else about the row changes.
   */
  lemma ElevationSeenOnNextRequest(t: UserTable, u: User, f: Flag)
    requires t.Valid() && u.id in t.rows
    ensures var p := Deserialize(SetFlag(t, u.id, f), Serialize(u));
      && p.Some? && p.value.id == u.id
      && (f == MemberFlag ==> Truthy(p.value.isMember) && p.value.isAdmin == t.rows[u.id].isAdmin)
      && (f == AdminFlag ==> Truthy(p.value.isAdmin) && p.value.isMember == t.rows[u.id].isMember)
      && p.value.email == t.rows[u.id].email && p.value.password == t.rows[u.id].password
  {
  }

  /** Submitting the same passcode again leaves the table as the first time did. */
  lemma SetFlagIdempotent(t: UserTable, id: UserId, f: Flag)
    requires t.Valid()
    ensures SetFlag(SetFlag(t, id, f), id, f) == SetFlag(t, id, f)
  {
  }

  /** No elevation ever clears a flag, on any row. */
  lemma SetFlagNeverDemotes(t: UserTable, id: UserId, f: Flag)
    requires t.Valid()
    ensures forall k :: k in t.rows ==>
      && (Truthy(t.rows[k].isMember) ==> Truthy(SetFlag(t, id, f).rows[k].isMember))
      && (Truthy(t.rows[k].isAdmin) ==> Truthy(SetFlag(t, id, f).rows[k].isAdmin))
  {
  }

  /** Admin does not imply member: an admin who is not a member cannot reach the message form or post. */
  lemma AdminAloneCannotPost(u: User)
    requires Truthy(u.isAdmin) && !Truthy(u.isMember)
    ensures !MayPostMessage(Some(u))
    ensures NewMessagePage(Some(u)) == Redirect("/login")
  {
  }

  /** A passcode that matches both digests grants membership, never admin. */
  lemma BothDigestsMatchGrantsMember(h: Hasher, memberHash: string, adminHash: string, passcode: string)
    requires h.compare(passcode, memberHash) && h.compare(passcode, adminHash)
    ensures Elevation(h, memberHash, adminHash, passcode) == GrantMember
  {
  }
}
