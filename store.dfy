/**
 * The two Postgres tables the board reads and writes, as values: `users`
 * (a map from id to row, plus the counter that gives each new row a fresh
 * id) and `messages` (a sequence of rows). The lookup by email, the users
 * INSERT, the flag UPDATEs and the index page's join are functions here.
 */
module Store {
  import opened Wrappers

  type UserId = nat

  /**
   * A row of `users`. `password` holds the bcrypt digest. The flag columns
   * are nullable (None stands for SQL NULL): the board only ever tests
   * their JavaScript truthiness.
   */
  datatype User = User(
    id: UserId,
    email: string,
    password: string,
    firstName: string,
    lastName: string,
    isMember: Option<bool>,
    isAdmin: Option<bool>)

  /** JavaScript truthiness of a nullable boolean column. */
  predicate Truthy(flag: Option<bool>) {
    flag == Some(true)
  }

  /** The values a new `users` row takes for the columns sign-up leaves out. */
  datatype ColumnDefaults = ColumnDefaults(isMember: Option<bool>, isAdmin: Option<bool>)

  /** The columns sign-up supplies; `password` is already the digest. */
  datatype NewUser = NewUser(firstName: string, lastName: string, email: string, password: string)

  /** A row of `messages`. */
  datatype Message = Message(title: string, text: string, userId: UserId)

  /** One row of the index page's join of `messages` with its author's names. */
  datatype MessageRow = MessageRow(title: string, text: string, userId: UserId, firstName: string, lastName: string)

  datatype UserTable = UserTable(rows: map<UserId, User>, nextId: UserId) {
    /**
     * Every row is stored under its own id, below the id counter, and
     * no two rows share an email. The last is the schema's UNIQUE
     * constraint, which the board's code assumes but does not show.
     */
    ghost predicate Valid() {
      && (forall id :: id in rows ==> id < nextId && rows[id].id == id)
      && (forall i, j :: i in rows && j in rows && rows[i].email == rows[j].email ==> i == j)
    }
  }

  /** The empty table a fresh database starts from. */
  function EmptyTable(): (t: UserTable)
    ensures t.Valid() && t.rows == map[]
  {
    UserTable(map[], 1)
  }

  /** Scans the ids from `from` upwards for a row with this email. */
  function FindByEmailFrom(t: UserTable, email: string, from: UserId): (r: Option<User>)
    requires t.Valid()
    decreases t.nextId - from
    ensures r.Some? ==> r.value.id in t.rows && t.rows[r.value.id] == r.value && r.value.email == email
    ensures r.None? ==> forall id :: from <= id < t.nextId && id in t.rows ==> t.rows[id].email != email
  {
    if from >= t.nextId then None
    else if from in t.rows && t.rows[from].email == email then Some(t.rows[from])
    else FindByEmailFrom(t, email, from + 1)
  }

  /** `SELECT * FROM users WHERE email = $1` followed by `rows[0]`. */
  function FindByEmail(t: UserTable, email: string): (r: Option<User>)
    requires t.Valid()
    ensures r.Some? ==> r.value.id in t.rows && t.rows[r.value.id] == r.value && r.value.email == email
    ensures r.None? <==> forall id :: id in t.rows ==> t.rows[id].email != email
  {
    FindByEmailFrom(t, email, 0)
  }

  datatype InsertResult = Inserted(table: UserTable, row: User) | DuplicateEmail

  /**
   * `INSERT INTO users (...) VALUES (...) RETURNING *`: the new row gets the
   * next fresh id and the column defaults; an email already present is
   * refused by the UNIQUE constraint and leaves the table as it was.
   */
  function Insert(t: UserTable, u: NewUser, defaults: ColumnDefaults): (r: InsertResult)
    requires t.Valid()
    ensures r.DuplicateEmail? <==> exists id :: id in t.rows && t.rows[id].email == u.email
    ensures r.Inserted? ==>
      && r.table.Valid()
      && r.row.id !in t.rows
      && r.table.rows == t.rows[r.row.id := r.row]
      && r.table.rows.Keys == t.rows.Keys + {r.row.id}
      && r.row.email == u.email && r.row.password == u.password
      && r.row.firstName == u.firstName && r.row.lastName == u.lastName
      && r.row.isMember == defaults.isMember && r.row.isAdmin == defaults.isAdmin
  {
    if FindByEmail(t, u.email).Some? then DuplicateEmail
    else
      var row := User(t.nextId, u.email, u.password, u.firstName, u.lastName, defaults.isMember, defaults.isAdmin);
      Inserted(UserTable(t.rows[t.nextId := row], t.nextId + 1), row)
  }

  /** The two flag columns an UPDATE can set. */
  datatype Flag = MemberFlag | AdminFlag

  /** The row `u` with the column `f` set to true. */
  function WithFlag(u: User, f: Flag): User {
    match f
    case MemberFlag => u.(isMember := Some(true))
    case AdminFlag => u.(isAdmin := Some(true))
  }

  /**
   * `UPDATE users SET is_member = true WHERE id = $1` (or `is_admin`): sets
   * one column of one row to true; an unknown id updates nothing.
   */
  function SetFlag(t: UserTable, id: UserId, f: Flag): (r: UserTable)
    requires t.Valid()
    ensures r.Valid()
    ensures r.nextId == t.nextId && r.rows.Keys == t.rows.Keys
    ensures forall k :: k in t.rows && k != id ==> r.rows[k] == t.rows[k]
    ensures id in t.rows ==>
      && r.rows[id].id == id && r.rows[id].email == t.rows[id].email
      && r.rows[id].password == t.rows[id].password
      && r.rows[id].firstName == t.rows[id].firstName && r.rows[id].lastName == t.rows[id].lastName
      && (f == MemberFlag ==> r.rows[id].isMember == Some(true) && r.rows[id].isAdmin == t.rows[id].isAdmin)
      && (f == AdminFlag ==> r.rows[id].isAdmin == Some(true) && r.rows[id].isMember == t.rows[id].isMember)
    ensures id !in t.rows ==> r == t
  {
    if id in t.rows then t.(rows := t.rows[id := WithFlag(t.rows[id], f)]) else t
  }

  /** Every message's author is a row of the table. */
  ghost predicate AuthorsExist(t: UserTable, msgs: seq<Message>) {
    forall i :: 0 <= i < |msgs| ==> msgs[i].userId in t.rows
  }

  /** A message joined with its author's row. */
  function Joined(m: Message, u: User): MessageRow {
    MessageRow(m.title, m.text, m.userId, u.firstName, u.lastName)
  }

  /**
   * The index page's `SELECT messages.*, users.first_name, users.last_name
   * FROM messages JOIN users ON messages.user_id = users.id`: an inner join,
   * so a message whose author is missing does not appear.
   */
  function Listing(t: UserTable, msgs: seq<Message>): (r: seq<MessageRow>)
    ensures |r| <= |msgs|
    ensures forall i :: 0 <= i < |r| ==>
      r[i].userId in t.rows && r[i].firstName == t.rows[r[i].userId].firstName
      && r[i].lastName == t.rows[r[i].userId].lastName
    ensures AuthorsExist(t, msgs) ==>
      |r| == |msgs| && forall i :: 0 <= i < |msgs| ==> r[i] == Joined(msgs[i], t.rows[msgs[i].userId])
  {
    if msgs == [] then []
    else
      var front := msgs[..|msgs| - 1];
      var m := msgs[|msgs| - 1];
      assert AuthorsExist(t, msgs) ==> AuthorsExist(t, front) && m.userId in t.rows;
      var rest := Listing(t, front);
      if m.userId in t.rows then rest + [Joined(m, t.rows[m.userId])] else rest
  }
}
