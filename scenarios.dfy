/**
 * Request sequences against a fresh board, each proved from the handlers'
 * contracts alone.
 */
module Scenarios {
  import opened Wrappers
  import opened Bcrypt
  import opened Store
  import opened Routes
  import opened App
  import Properties

  /**
   * Sign up, log out, log in again with the same (non-empty) email and
   * password: the login succeeds and the session holds the new user's id
   * again.
   */
  method SignUpLogOutLogIn(config: Config, form: SignUpForm, salt: Salt)
    returns (signedUp: Response, loggedIn: Response, id: UserId, session: Option<UserId>, rows: map<UserId, User>)
    requires Sound(config.hasher)
    requires form.password == form.confirmPassword
    requires form.email != "" && form.password != ""
    ensures signedUp == Redirect("/join-club")
    ensures loggedIn == Redirect("/") && session == Some(id)
    ensures id in rows && rows[id].email == form.email
  {
    var board := new Board(config);
    signedUp := board.SignUp(form, salt);
    id := board.session.value;
    var out := board.Logout();
    loggedIn := board.Login(form.email, form.password);
    assert board.users.rows[id].password == config.hasher.hash(form.password, SaltRounds, salt);
    session := board.session;
    rows := board.users.rows;
  }

  /**
   * A fresh account whose schema default does not make it a member is sent
   * to login and writes nothing; after joining with the member passcode the
   * same post appends exactly one message carrying its id.
   */
  method MembershipUnlocksPosting(config: Config, form: SignUpForm, salt: Salt, passcode: string, title: string, text: string)
    returns (denied: Response, granted: Response, author: UserId, posted: seq<Message>, rows: map<UserId, User>)
    requires form.password == form.confirmPassword
    requires !Truthy(config.defaults.isMember)
    requires config.hasher.compare(passcode, config.memberPasscodeHash)
    ensures denied == Redirect("/login") && granted == Redirect("/")
    ensures |posted| == 1 && posted[0] == Message(title, text, author)
    ensures author in rows && rows[author].email == form.email
  {
    var board := new Board(config);
    var r := board.SignUp(form, salt);
    author := board.session.value;
    denied := board.PostMessage(title, text);
    assert board.messages == [];
    r := board.JoinClub(passcode);
    assert Truthy(board.users.rows[author].isMember);
    granted := board.PostMessage(title, text);
    posted := board.messages;
    rows := board.users.rows;
  }

  /** An anonymous visitor can neither open the message form nor post. */
  method AnonymousCannotPost(config: Config, title: string, text: string)
    returns (page: Response, post: Response, posted: seq<Message>)
    ensures page == Redirect("/login") && post == Redirect("/login") && posted == []
  {
    var board := new Board(config);
    page := NewMessagePage(board.Principal());
    post := board.PostMessage(title, text);
    posted := board.messages;
  }

  /** Confirmation mismatch: 400, and no row is created and no one is logged in. */
  method MismatchedConfirmation(config: Config, form: SignUpForm, salt: Salt)
    returns (res: Response, rows: map<UserId, User>, session: Option<UserId>)
    requires form.password != form.confirmPassword
    ensures res.Status? && res.code == 400 && rows == map[] && session.None?
  {
    var board := new Board(config);
    res := board.SignUp(form, salt);
    rows := board.users.rows;
    session := board.session;
  }

  /** Joining twice with the member passcode: both succeed and the second changes nothing. */
  method JoinClubTwice(config: Config, form: SignUpForm, salt: Salt, passcode: string)
    returns (first: Response, second: Response, stable: bool)
    requires form.password == form.confirmPassword
    requires config.hasher.compare(passcode, config.memberPasscodeHash)
    ensures first == Redirect("/") && second == Redirect("/") && stable
  {
    var board := new Board(config);
    var r := board.SignUp(form, salt);
    ghost var beforeJoin := board.users;
    first := board.JoinClub(passcode);
    var afterFirst := board.users;
    second := board.JoinClub(passcode);
    Properties.SetFlagIdempotent(beforeJoin, board.session.value, MemberFlag);
    stable := board.users == afterFirst;
  }
}
