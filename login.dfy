/**
 * The decision logic of `POST /login` in backend/server.js: the
 * missing-credentials check, the lookup of a user row by e-mail and password
 * among rows not soft-deleted, and the choice of status code and body.
 */
module Login {
  import opened JsText
  import opened Options

  /** A row of the `users` table (column names in comments where they differ). */
  datatype UserRow = UserRow(
    id: int,
    firstName: JsString,     // first_name
    lastName: JsString,      // last_name
    contact: JsString,
    email: JsString,
    address: JsString,
    password: JsString,      // stored and compared as plain text
    isActive: bool,          // is_active
    isDeleted: bool,         // is_deleted
    profileImage: Option<JsString>)  // profile_image, nullable

  /** The columns the login query selects: id, first_name, last_name, email, is_active, profile_image. */
  datatype SelectedRow = SelectedRow(
    id: int, firstName: JsString, lastName: JsString, email: JsString,
    isActive: bool, profileImage: Option<JsString>)

  /** The body of a successful login: no password and no is_active. */
  datatype PublicUser = PublicUser(
    id: int, firstName: JsString, lastName: JsString, email: JsString,
    profileImage: Option<JsString>)

  /** The `email` and `password` fields of the request body; None when absent or null. */
  datatype Credentials = Credentials(email: Option<JsString>, password: Option<JsString>)

  /** The database as the login query meets it: its rows in scan order, or a query that throws. */
  datatype Database = Reachable(users: seq<UserRow>) | Failing

  datatype LoginResponse =
    | MissingCredentials
    | InvalidCredentials
    | AccountInactive
    | ServerError
    | LoggedIn(user: PublicUser)
  {
    /** The HTTP status code of the response. */
    function Status(): int {
      match this
      case MissingCredentials => 400
      case InvalidCredentials => 401
      case AccountInactive => 403
      case ServerError => 500
      case LoggedIn(_) => 200
    }

    /** The `error` field of a failure response. */
    function ErrorText(): string
      requires !LoggedIn?
    {
      match this
      case MissingCredentials => "Email and password are required"
      case InvalidCredentials => "Invalid credentials"
      case AccountInactive => "Account is inactive"
      case ServerError => "Server error"
    }
  }

  /** JavaScript truthiness of a string field: present, not null and not empty. */
  predicate Truthy(field: Option<JsString>) {
    field.Some? && field.value != []
  }

  /** The WHERE clause: `email = $1 AND password = $2 AND is_deleted = false`. */
  predicate RowMatches(row: UserRow, email: JsString, password: JsString) {
    row.email == email && row.password == password && !row.isDeleted
  }

  function Project(row: UserRow): SelectedRow {
    SelectedRow(row.id, row.firstName, row.lastName, row.email, row.isActive, row.profileImage)
  }

  /** Row k is the first row of the table that satisfies the WHERE clause. */
  ghost predicate IsFirstMatch(users: seq<UserRow>, email: JsString, password: JsString, k: int) {
    0 <= k < |users| && RowMatches(users[k], email, password) &&
    forall j :: 0 <= j < k ==> !RowMatches(users[j], email, password)
  }

  /** The login query: the selected columns of the matching rows, in scan order. */
  function Query(users: seq<UserRow>, email: JsString, password: JsString): (rows: seq<SelectedRow>)
    ensures |rows| <= |users|
    ensures forall r :: r in rows ==>
      exists k :: 0 <= k < |users| && RowMatches(users[k], email, password) && r == Project(users[k])
    ensures forall k :: 0 <= k < |users| && RowMatches(users[k], email, password) ==> Project(users[k]) in rows
    ensures |rows| > 0 ==> exists k :: IsFirstMatch(users, email, password, k) && rows[0] == Project(users[k])
  {
    if users == [] then []
    else
      var tail := Query(users[1..], email, password);
      if RowMatches(users[0], email, password) then [Project(users[0])] + tail else tail
  }

  /** Both credentials are truthy, so the handler goes on to the query. */
  predicate HasCredentials(body: Credentials) {
    Truthy(body.email) && Truthy(body.password)
  }

  /** The body a successful login sends for a row. */
  function Publish(row: UserRow): PublicUser {
    PublicUser(row.id, row.firstName, row.lastName, row.email, row.profileImage)
  }

  /**
   * The handler. Its outcome is characterised against the table itself:
   * 400 without credentials, 500 when the query throws, 401 when no live row
   * has the credentials, 403 when the first such row is inactive, and 200
   * with that row's public fields otherwise.
   */
  function HandleLogin(body: Credentials, db: Database): (r: LoginResponse)
    ensures r.Status() == 400 <==> !HasCredentials(body)
    ensures r.Status() == 500 <==> HasCredentials(body) && db.Failing?
    ensures r.Status() == 401 <==> (HasCredentials(body) && db.Reachable? &&
      forall k :: 0 <= k < |db.users| ==> !RowMatches(db.users[k], body.email.value, body.password.value))
    ensures r.Status() == 403 <==> (HasCredentials(body) && db.Reachable? &&
      exists k :: IsFirstMatch(db.users, body.email.value, body.password.value, k) && !db.users[k].isActive)
    ensures r.Status() == 200 <==> (HasCredentials(body) && db.Reachable? &&
      exists k :: IsFirstMatch(db.users, body.email.value, body.password.value, k) && db.users[k].isActive)
    ensures r.LoggedIn? ==> exists k ::
      IsFirstMatch(db.users, body.email.value, body.password.value, k) && r.user == Publish(db.users[k])
  {
    if !Truthy(body.email) || !Truthy(body.password) then MissingCredentials
    else
      match db
      case Failing => ServerError
      case Reachable(users) =>
        var rows := Query(users, body.email.value, body.password.value);
        if |rows| == 0 then InvalidCredentials
        else
          var user := rows[0];
          if !user.isActive then AccountInactive
          else LoggedIn(PublicUser(user.id, user.firstName, user.lastName, user.email, user.profileImage))
  }

  /** Without both credentials the response is 400 whatever the table holds: it is not consulted. */
  lemma MissingCredentialsIgnoreTable(body: Credentials, db1: Database, db2: Database)
    requires !HasCredentials(body)
    ensures HandleLogin(body, db1) == HandleLogin(body, db2) == MissingCredentials
  {
  }

  /** The rows not soft-deleted, in table order. */
  function Live(users: seq<UserRow>): (live: seq<UserRow>)
    ensures forall r :: r in live ==> r in users && !r.isDeleted
    ensures forall r :: r in users && !r.isDeleted ==> r in live
  {
    if users == [] then []
    else if users[0].isDeleted then Live(users[1..])
    else [users[0]] + Live(users[1..])
  }

  /** The query never sees a soft-deleted row. */
  lemma {:induction false} QueryIgnoresDeletedRows(users: seq<UserRow>, email: JsString, password: JsString)
    ensures Query(users, email, password) == Query(Live(users), email, password)
  {
    if users != [] {
      QueryIgnoresDeletedRows(users[1..], email, password);
      if !users[0].isDeleted {
        assert Live(users) == [users[0]] + Live(users[1..]);
        assert ([users[0]] + Live(users[1..]))[1..] == Live(users[1..]);
      }
    }
  }

  /** Soft-deleting rows can never change a login's outcome: a deleted row never logs in. */
  lemma LoginIgnoresDeletedRows(body: Credentials, users: seq<UserRow>)
    ensures HandleLogin(body, Reachable(users)) == HandleLogin(body, Reachable(Live(users)))
  {
    if HasCredentials(body) {
      QueryIgnoresDeletedRows(users, body.email.value, body.password.value);
    }
  }

  /** A 200 response comes from a live, active row holding exactly the submitted credentials. */
  lemma LoggedInRowIsLiveAndActive(body: Credentials, users: seq<UserRow>)
    requires HandleLogin(body, Reachable(users)).LoggedIn?
    ensures exists row ::
      row in users && !row.isDeleted && row.isActive &&
      Some(row.email) == body.email && Some(row.password) == body.password &&
      HandleLogin(body, Reachable(users)).user == Publish(row)
  {
    var k :| IsFirstMatch(users, body.email.value, body.password.value, k) &&
      HandleLogin(body, Reachable(users)).user == Publish(users[k]);
    assert users[k] in users;
  }
}
