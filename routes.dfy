/**
 * What the route handlers answer, and the pure parts of them: the
 * authorization guards, the GET pages, the index page's view flags and
 * the passcode check of `POST /join-club`.
 */
module Routes {
  import opened Wrappers
  import opened Bcrypt
  import opened Store

  /** The index page's template variables other than the message list. */
  datatype IndexFlags = IndexFlags(isAuthenticated: bool, isAdmin: bool, isMember: bool, firstName: Option<string>)

  /**
   * A handler's answer. `FlashRedirect` is a redirect together with the
   * message passport pushes onto the session's `messages` list
   * (`failureMessage: true`); the session's flash list itself is not part of
   * the modelled state, and the login form never shows it. `NextError` hands an error to Express's error
   * handler (`next(err)`); `Unhandled` is an exception thrown inside an async
   * handler that no code of the board catches.
   */
  datatype Response =
    | Redirect(location: string)
    | FlashRedirect(location: string, message: string)
    | Status(code: nat, body: string)
    | Render(view: string)
    | RenderIndex(flags: IndexFlags, messages: seq<MessageRow>)
    | NextError(reason: string)
    | Unhandled(reason: string)

  /** The guard of both `/new-message` handlers: authenticated and `is_member` truthy. */
  predicate MayPostMessage(principal: Option<User>)
    ensures MayPostMessage(principal) ==> principal.Some? && principal.value.isMember == Some(true)
    ensures principal.Some? && Truthy(principal.value.isAdmin) && !Truthy(principal.value.isMember) ==>
      !MayPostMessage(principal)
  {
    principal.Some? && Truthy(principal.value.isMember)
  }

  /** `GET /join-club`: anonymous visitors are sent to the login page. */
  function JoinClubPage(principal: Option<User>): (r: Response)
    ensures r == Redirect("/login") <==> principal.None?
    ensures principal.Some? <==> r == Render("join-club")
  {
    if principal.None? then Redirect("/login") else Render("join-club")
  }

  /** `GET /new-message`: only a member sees the form; everyone else goes to login. */
  function NewMessagePage(principal: Option<User>): (r: Response)
    ensures r == Redirect("/login") <==> principal.None? || !Truthy(principal.value.isMember)
    ensures r == Render("new-message-form") <==> principal.Some? && principal.value.isMember == Some(true)
  {
    if !MayPostMessage(principal) then Redirect("/login") else Render("new-message-form")
  }

  /**
   * The flags `GET /` renders with: all false for an anonymous visitor; for
   * a user, the truthiness of the nullable flag columns, and "Guest" when
   * the first name is empty.
   */
  function IndexFlagsOf(principal: Option<User>): (r: IndexFlags)
    ensures r.isAuthenticated <==> principal.Some?
    ensures principal.None? ==> !r.isAdmin && !r.isMember && r.firstName.None?
    ensures principal.Some? ==>
      && (r.isAdmin <==> principal.value.isAdmin == Some(true))
      && (r.isMember <==> principal.value.isMember == Some(true))
      && r.firstName.Some? && r.firstName.value != ""
      && (principal.value.firstName != "" ==> r.firstName.value == principal.value.firstName)
      && (principal.value.firstName == "" ==> r.firstName.value == "Guest")
  {
    match principal
    case None => IndexFlags(false, false, false, None)
    case Some(u) =>
      IndexFlags(true, Truthy(u.isAdmin), Truthy(u.isMember), Some(if u.firstName != "" then u.firstName else "Guest"))
  }

  /** `GET /`: the view flags and the joined message list. */
  function IndexPage(principal: Option<User>, t: UserTable, msgs: seq<Message>): (r: Response)
    ensures r.RenderIndex? && r.flags == IndexFlagsOf(principal)
    ensures AuthorsExist(t, msgs) ==> |r.messages| == |msgs|
    ensures AuthorsExist(t, msgs) ==>
      forall i :: 0 <= i < |msgs| ==> r.messages[i] == Joined(msgs[i], t.rows[msgs[i].userId])
  {
    RenderIndex(IndexFlagsOf(principal), Listing(t, msgs))
  }

  /** Which flag a passcode earns. */
  datatype Grant = GrantMember | GrantAdmin | NoGrant

  /**
   * The passcode check of `POST /join-club`: it is compared with both
   * configured digests, and the member digest takes precedence, so a
   * passcode matching both earns membership, never admin.
   */
  function Elevation(h: Hasher, memberHash: string, adminHash: string, passcode: string): (r: Grant)
    ensures r == GrantMember <==> h.compare(passcode, memberHash)
    ensures r == GrantAdmin <==> !h.compare(passcode, memberHash) && h.compare(passcode, adminHash)
    ensures r == NoGrant <==> !h.compare(passcode, memberHash) && !h.compare(passcode, adminHash)
  {
    var isMemberPasscode := h.compare(passcode, memberHash);
    var isAdminPasscode := h.compare(passcode, adminHash);
    if isMemberPasscode then GrantMember
    else if isAdminPasscode then GrantAdmin
    else NoGrant
  }
}
