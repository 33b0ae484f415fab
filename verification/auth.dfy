/** Sessions and the two route guards, and the `POST /login` decision.
    The bcrypt comparison is a predicate passed in by the caller. */
module Auth {
  import opened Common
  import opened Tables
  import opened Users

  /** The four fields `POST /login` copies into the session. */
  datatype SessionUser = SessionUser(id: nat, username: Option<string>, role: Role, name: Option<string>)

  /** A guard either lets the handler body run or redirects. */
  datatype Guard = Proceed | RedirectTo(path: string)

  /** `requireAuth`: any signed-in user may proceed. */
  function RequireAuth(session: Option<SessionUser>): (g: Guard)
    ensures g == Proceed <==> session.Some?
    ensures g != Proceed ==> g == RedirectTo("/login")
  {
    if session.None? then RedirectTo("/login") else Proceed
  }

  /** `requireAdmin`: only a signed-in user whose role text is 'admin' may
      proceed; a visitor goes to the login page and staff go home. */
  function RequireAdmin(session: Option<SessionUser>): (g: Guard)
    ensures g == Proceed <==> session.Some? && session.value.role == Admin
    ensures session.None? ==> g == RedirectTo("/login")
    ensures session.Some? && session.value.role == Staff ==> g == RedirectTo("/")
  {
    if session.None? then RedirectTo("/login")
    else if RoleText(session.value.role) != "admin" then RedirectTo("/")
    else Proceed
  }

  datatype LoginResult =
    | LoggedIn(user: SessionUser)
    | BadCredentials
      /** No password at all: bcrypt rejects the comparison and the handler throws. */
    | NoPassword

  /** The session summary of a user row. */
  function Summary(row: Row<User>): SessionUser {
    SessionUser(row.id, row.val.username, row.val.role, row.val.name)
  }

  predicate HasUsername(username: Option<string>, u: User) {
    username.Some? && u.username == username
  }

  /** `POST /login`: look the user up by name (`username = NULL` matches no
      row), then compare the password with the stored hash. */
  function Login(users: seq<Row<User>>, username: Option<string>, password: Option<string>,
                 matches: (string, string) -> bool): (r: LoginResult)
    ensures r.LoggedIn? ==> password.Some?
    ensures r.LoggedIn? ==>
      exists k :: 0 <= k < |users| && HasUsername(username, users[k].val)
                  && r.user == Summary(users[k]) && matches(password.value, users[k].val.passwordHash)
    ensures (forall k :: 0 <= k < |users| ==> !HasUsername(username, users[k].val)) ==> r == BadCredentials
  {
    match FirstWhere(users, (u: User) => HasUsername(username, u))
    case None => BadCredentials
    case Some(row) =>
      if password.None? then NoPassword
      else if matches(password.value, row.val.passwordHash) then LoggedIn(Summary(row))
      else BadCredentials
  }

  /** The session after a login attempt: replaced on success, otherwise left
      exactly as it was (a failed attempt does not sign anyone out). */
  function SessionAfterLogin(session: Option<SessionUser>, r: LoginResult): (s: Option<SessionUser>)
    ensures r.LoggedIn? ==> s == Some(r.user)
    ensures !r.LoggedIn? ==> s == session
  {
    if r.LoggedIn? then Some(r.user) else session
  }

  // ---------------------------------------------------------------------
  // Lemmas

  /** Every admin passes the authentication guard too. */
  lemma AdminIsAuthenticated(session: Option<SessionUser>)
    ensures RequireAdmin(session) == Proceed ==> RequireAuth(session) == Proceed
  {
  }

  /** With unique usernames, a login succeeds exactly when the named user
      exists and the password matches that user's hash, and the session then
      holds exactly that user's id, username, role and name. */
  lemma LoginExact(users: Table<User>, k: nat, password: Option<string>, matches: (string, string) -> bool)
    requires UsersValid(users) && k < |users.rows| && users.rows[k].val.username.Some?
    ensures var r := Login(users.rows, users.rows[k].val.username, password, matches);
            && (r.LoggedIn? <==> password.Some? && matches(password.value, users.rows[k].val.passwordHash))
            && (r.LoggedIn? ==> r.user == Summary(users.rows[k]))
  {
    var name := users.rows[k].val.username;
    var p := (u: User) => HasUsername(name, u);
    var found := FirstWhere(users.rows, p);
    assert found.Some? by {
      assert p(users.rows[k].val);
    }
    var j :| 0 <= j < |users.rows| && users.rows[j] == found.value;
    assert j == k;
  }

  /** An unknown username or a wrong password never signs anyone in: a
      signed-out visitor stays signed out. */
  lemma FailedLoginKeepsSignedOut(users: Table<User>, username: Option<string>, password: Option<string>,
                                  matches: (string, string) -> bool)
    requires UsersValid(users)
    requires forall k :: 0 <= k < |users.rows| && HasUsername(username, users.rows[k].val)
               ==> password.None? || !matches(password.value, users.rows[k].val.passwordHash)
    ensures SessionAfterLogin(None, Login(users.rows, username, password, matches)) == None
  {
  }
}
