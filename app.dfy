/**
 * The board itself: the two tables, the session slot of the client making
 * requests, and one method per route handler that changes something.
 * Every request first rehydrates its user from the session (passport's
 * session middleware), which `Principal` models.
 */
module App {
  import opened Wrappers
  import opened Bcrypt
  import opened Store
  import opened Passport
  import opened Routes

  /** The sign-up form's fields. */
  datatype SignUpForm = SignUpForm(
    firstName: string, lastName: string, email: string, password: string, confirmPassword: string)

  /**
   * What the process is started with: bcrypt, the two passcode digests from
   * the environment (MEMBER_PASSCODE_HASH, ADMIN_PASSCODE_HASH) and the
   * schema's defaults for the flag columns, which the code does not show.
   */
  datatype Config = Config(
    hasher: Hasher,
    memberPasscodeHash: string,
    adminPasscodeHash: string,
    defaults: ColumnDefaults)

  class Board {
    const config: Config
    var users: UserTable
    var messages: seq<Message>
    /** The id passport keeps in this client's session, if anyone is logged in. */
    var session: Option<UserId>

    /**
     * The table is consistent, the session names an existing row (rows are
     * never deleted, so a stored id always resolves), and every message's
     * author exists.
     */
    ghost predicate Valid()
      reads this
    {
      && users.Valid()
      && (session.Some? ==> session.value in users.rows)
      && AuthorsExist(users, messages)
    }

    constructor (config: Config)
      ensures Valid()
      ensures this.config == config
      ensures users.rows == map[] && messages == [] && session.None?
    {
      this.config := config;
      users := EmptyTable();
      messages := [];
      session := None;
    }

    /** `req.user` for the current request: the session's id, read back through deserializeUser. */
    function Principal(): (p: Option<User>)
      reads this
      requires Valid()
      ensures p.None? <==> session.None?
      ensures p.Some? ==> p.value == users.rows[session.value] && p.value.id == session.value
    {
      match session
      case None => None
      case Some(id) => Deserialize(users, id)
    }

    /** `GET /`. */
    function Home(): (r: Response)
      reads this
      requires Valid()
      ensures r.RenderIndex? && r.flags == IndexFlagsOf(Principal())
      ensures |r.messages| == |messages|
      ensures forall i :: 0 <= i < |messages| ==>
        r.messages[i] == Joined(messages[i], users.rows[messages[i].userId])
    {
      IndexPage(Principal(), users, messages)
    }

    /**
     * `POST /sign-up`: a confirmation mismatch answers 400 before any
     * hashing or writing; otherwise the password is hashed, one row is
     * inserted holding the digest, and the new user is logged in.
     */
    method SignUp(form: SignUpForm, salt: Salt) returns (res: Response)
      requires Valid()
      modifies this
      ensures Valid()
      ensures messages == old(messages)
      ensures form.password != form.confirmPassword ==>
        && res == Status(400, "Passwords do not match!")
        && users == old(users) && session == old(session)
      ensures form.password == form.confirmPassword && FindByEmail(old(users), form.email).Some? ==>
        && res == NextError("duplicate email")
        && users == old(users) && session == old(session)
      ensures form.password == form.confirmPassword && FindByEmail(old(users), form.email).None? ==>
        var id := old(users.nextId);
        && users.rows == old(users.rows)[id := User(id, form.email,
             config.hasher.hash(form.password, SaltRounds, salt),
             form.firstName, form.lastName, config.defaults.isMember, config.defaults.isAdmin)]
        && id !in old(users.rows)
        && users.nextId == id + 1
        && session == Some(id)
        && res == Redirect("/join-club")
    {
      if form.password != form.confirmPassword {
        return Status(400, "Passwords do not match!");
      }
      var hashedPassword := config.hasher.hash(form.password, SaltRounds, salt);
      var result := Insert(users, NewUser(form.firstName, form.lastName, form.email, hashedPassword), config.defaults);
      match result {
        case DuplicateEmail =>
          res := NextError("duplicate email");
        case Inserted(table, newUser) =>
          users := table;
          session := Some(Serialize(newUser));
          res := Redirect("/join-club");
      }
    }

    /**
     * `POST /login`: passport-local refuses an empty email or password with
     * "Missing credentials" before the strategy callback runs; otherwise, on
     * success the user's id goes into the session and the client goes to
     * `/`, and on failure back to `/login` with the strategy's message. No
     * table changes either way.
     */
    method Login(email: string, password: string) returns (res: Response)
      requires Valid()
      modifies this`session
      ensures Valid()
      ensures email == "" || password == "" ==>
        session == old(session) && res == FlashRedirect("/login", MissingCredentials)
      ensures email != "" && password != "" ==>
        match Authenticate(users, config.hasher, email, password)
        case Authenticated(u) => session == Some(u.id) && res == Redirect("/")
        case Rejected(m) => session == old(session) && res == FlashRedirect("/login", m)
    {
      if email == "" || password == "" {
        return FlashRedirect("/login", MissingCredentials);
      }
      var outcome := Authenticate(users, config.hasher, email, password);
      match outcome {
        case Authenticated(u) =>
          session := Some(Serialize(u));
          res := Redirect("/");
        case Rejected(m) =>
          res := FlashRedirect("/login", m);
      }
    }

    /**
     * `POST /join-club`: the member digest is tried first and grants only
     * `is_member`; the admin digest grants `is_admin` only when the member
     * one failed; no match answers 400. The handler has no login check: when
     * a passcode matches for an anonymous visitor, reading `req.user.id`
     * throws and nothing is written.
     */
    method JoinClub(passcode: string) returns (res: Response)
      requires Valid()
      modifies this`users
      ensures Valid()
      ensures var g := Elevation(config.hasher, config.memberPasscodeHash, config.adminPasscodeHash, passcode);
        && (g == NoGrant ==> res == Status(400, "Incorrect passcode.") && users == old(users))
        && (g != NoGrant && session.None? ==> res.Unhandled? && users == old(users))
        && (g == GrantMember && session.Some? ==>
              users == SetFlag(old(users), session.value, MemberFlag) && res == Redirect("/"))
        && (g == GrantAdmin && session.Some? ==>
              users == SetFlag(old(users), session.value, AdminFlag) && res == Redirect("/"))
    {
      var grant := Elevation(config.hasher, config.memberPasscodeHash, config.adminPasscodeHash, passcode);
      if grant == NoGrant {
        return Status(400, "Incorrect passcode.");
      }
      if session.None? {
        return Unhandled("TypeError: req.user is undefined");
      }
      var flag := if grant == GrantMember then MemberFlag else AdminFlag;
      users := SetFlag(users, session.value, flag);
      res := Redirect("/");
    }

    /**
     * `POST /new-message`: unless the request's user is a member, back to
     * `/login` with nothing written; otherwise exactly one message is
     * appended, owned by the session's user.
     */
    method PostMessage(title: string, text: string) returns (res: Response)
      requires Valid()
      modifies this`messages
      ensures Valid()
      ensures !MayPostMessage(Principal()) ==> res == Redirect("/login") && messages == old(messages)
      ensures MayPostMessage(Principal()) ==>
        && messages == old(messages) + [Message(title, text, session.value)]
        && res == Redirect("/")
    {
      var user := Principal();
      if !MayPostMessage(user) {
        return Redirect("/login");
      }
      messages := messages + [Message(title, text, user.value.id)];
      res := Redirect("/");
    }

    /** `GET /logout`: the session forgets its user. */
    method Logout() returns (res: Response)
      requires Valid()
      modifies this`session
      ensures Valid()
      ensures session.None? && res == Redirect("/")
    {
      session := None;
      res := Redirect("/");
    }
  }
}
