/** The `users` table and the admin-only handlers that write it
    (`POST /users`, `PUT /users/:id`, `DELETE /users/:id`). The schema
    restricts `role` to 'admin' or 'staff' with 'staff' as the default and
    makes `username` UNIQUE; like SQLite, uniqueness ignores NULL usernames.
    bcrypt is abstracted to a hash function passed in by the caller. */
module Users {
  import opened Common
  import opened Tables

  datatype Role = Admin | Staff

  function RoleText(r: Role): string {
    match r
    case Admin => "admin"
    case Staff => "staff"
  }

  /** `CHECK(role IN ('admin','staff'))`: the texts the column accepts. */
  function ParseRole(s: string): (r: Option<Role>)
    ensures r.Some? <==> s == "admin" || s == "staff"
    ensures r.Some? ==> RoleText(r.value) == s
  {
    if s == "admin" then Some(Admin)
    else if s == "staff" then Some(Staff)
    else None
  }

  datatype User = User(
    username: Option<string>,
    passwordHash: string,
    role: Role,
    name: Option<string>,
    phone: Option<string>)

  /** The body of the create and edit forms. */
  datatype UserForm = UserForm(
    username: Option<string>,
    password: Option<string>,
    role: Option<string>,
    name: Option<string>,
    phone: Option<string>)

  /** No two rows share a non-NULL username. */
  predicate UniqueUsernames(rows: seq<Row<User>>) {
    forall i, j :: 0 <= i < |rows| && 0 <= j < |rows| && i != j && rows[i].val.username.Some?
      ==> rows[i].val.username != rows[j].val.username
  }

  predicate UsersValid(t: Table<User>) {
    Valid(t) && UniqueUsernames(t.rows)
  }

  /** Writing `username` into a row other than `except` would break UNIQUE. */
  predicate Clash(rows: seq<Row<User>>, username: Option<string>, except: Option<nat>) {
    username.Some? && exists k :: 0 <= k < |rows| && rows[k].val.username == username && Some(rows[k].id) != except
  }

  /** `POST /users`: insert with `password || '1234'` hashed and
      `role || 'staff'`; a duplicate username or a role outside the CHECK
      makes the INSERT fail, which the handler catches. */
  function CreateUser(t: Table<User>, f: UserForm, hash: string -> string): (r: Change<Table<User>>)
    requires UsersValid(t)
    ensures r.Applied? || r.Refused?
    ensures r.Refused? <==> Clash(t.rows, f.username, None) || ParseRole(OrEmpty(JsOr(f.role, Some("staff")))).None?
    ensures r.Applied? ==> UsersValid(r.value) && Ids(r.value.rows) == Ids(t.rows) + {t.next}
    ensures r.Applied? ==> forall other :: other != t.next ==> Get(r.value.rows, other) == Get(t.rows, other)
    ensures r.Applied? ==> Get(r.value.rows, t.next) == Some(User(
      f.username,
      hash(if Truthy(f.password) then f.password.value else "1234"),
      if Truthy(f.role) then ParseRole(f.role.value).value else Staff,
      f.name,
      f.phone))
  {
    var role := ParseRole(OrEmpty(JsOr(f.role, Some("staff"))));
    if role.None? || Clash(t.rows, f.username, None) then Refused
    else
      var u := User(f.username, hash(OrEmpty(JsOr(f.password, Some("1234")))), role.value, f.name, f.phone);
      var r := Insert(t, u);
      InsertKeepsUnique(t, u);
      forall other ensures Get(r.rows, other) == if other == t.next then Some(u) else Get(t.rows, other) {
        GetAfterInsert(t, u, other);
      }
      Applied(r)
  }

  /** `PUT /users/:id`: a missing id redirects without writing; otherwise the
      row is overwritten, keeping the stored hash when no password is given
      and the stored role when no role is given. */
  function UpdateUser(t: Table<User>, id: nat, f: UserForm, hash: string -> string): (r: Change<Table<User>>)
    requires UsersValid(t)
    ensures r.Applied? || r.Refused? || r.Missing?
    ensures r.Missing? <==> Get(t.rows, id).None?
    ensures r.Applied? ==> UsersValid(r.value) && Ids(r.value.rows) == Ids(t.rows)
    ensures r.Applied? ==> forall other :: other != id ==> Get(r.value.rows, other) == Get(t.rows, other)
    ensures r.Applied? ==>
      var prev := Get(t.rows, id).value;
      var now := Get(r.value.rows, id).value;
      && now.username == f.username && now.name == f.name && now.phone == f.phone
      && now.passwordHash == (if Truthy(f.password) then hash(f.password.value) else prev.passwordHash)
      && (Truthy(f.role) ==> Some(now.role) == ParseRole(f.role.value))
      && (!Truthy(f.role) ==> now.role == prev.role)
    ensures Get(t.rows, id).Some? ==>
      (r.Refused? <==> Clash(t.rows, f.username, Some(id)) || (Truthy(f.role) && ParseRole(f.role.value).None?))
  {
    match Get(t.rows, id)
    case None => Missing
    case Some(prev) =>
      var pw := if Truthy(f.password) then hash(f.password.value) else prev.passwordHash;
      var role := EditedRole(f.role, prev.role);
      if role.None? || Clash(t.rows, f.username, Some(id)) then Refused
      else
        var u := User(f.username, pw, role.value, f.name, f.phone);
        OverwriteUser(t, id, u);
        Applied(t.(rows := Put(t.rows, id, u)))
  }

  /** `role || user.role` on an edit, read back through the role CHECK: the
      form's role when one is given, else the stored one. */
  function EditedRole(field: Option<string>, prev: Role): (r: Option<Role>)
    ensures Truthy(field) ==> r == ParseRole(field.value)
    ensures !Truthy(field) ==> r == Some(prev)
  {
    RoleRoundTrip(prev);
    ParseRole(OrEmpty(JsOr(field, Some(RoleText(prev)))))
  }

  /** `DELETE /users/:id`: removes that row, if any. */
  function DeleteUser(t: Table<User>, id: nat): (r: Table<User>)
    requires UsersValid(t)
    ensures UsersValid(r)
    ensures Get(r.rows, id).None?
    ensures forall other :: other != id ==> Get(r.rows, other) == Get(t.rows, other)
  {
    var r := Remove(t, id);
    forall i, j | 0 <= i < |r.rows| && 0 <= j < |r.rows| && i != j && r.rows[i].val.username.Some?
      ensures r.rows[i].val.username != r.rows[j].val.username
    {
      var a :| 0 <= a < |t.rows| && t.rows[a] == r.rows[i];
      var b :| 0 <= b < |t.rows| && t.rows[b] == r.rows[j];
    }
    r
  }

  // ---------------------------------------------------------------------
  // Lemmas

  lemma InsertKeepsUnique(t: Table<User>, u: User)
    requires UsersValid(t) && !Clash(t.rows, u.username, None)
    ensures UsersValid(Insert(t, u))
  {
  }

  /** Overwriting an existing row with a non-clashing user keeps the table
      valid and changes only that row. */
  lemma OverwriteUser(t: Table<User>, id: nat, u: User)
    requires UsersValid(t) && id in Ids(t.rows) && !Clash(t.rows, u.username, Some(id))
    ensures var r := t.(rows := Put(t.rows, id, u));
            && UsersValid(r) && Ids(r.rows) == Ids(t.rows)
            && Get(r.rows, id) == Some(u)
            && forall other :: other != id ==> Get(r.rows, other) == Get(t.rows, other)
  {
    var r := t.(rows := Put(t.rows, id, u));
    PutKeepsUnique(t, id, u);
    forall other ensures Get(r.rows, other) == if other == id then Some(u) else Get(t.rows, other) {
      GetAfterPut(t.rows, id, u, other);
    }
  }

  lemma PutKeepsUnique(t: Table<User>, id: nat, u: User)
    requires UsersValid(t) && !Clash(t.rows, u.username, Some(id))
    ensures UsersValid(t.(rows := Put(t.rows, id, u)))
  {
    PutKeepsValid(t, id, u);
    var r := Put(t.rows, id, u);
    forall i, j | 0 <= i < |r| && 0 <= j < |r| && i != j && r[i].val.username.Some?
      ensures r[i].val.username != r[j].val.username
    {
      assert t.rows[i].id != t.rows[j].id;
    }
  }

  /** The role text round trip: every role is stored as a text the CHECK
      constraint accepts and reads back as the same role. */
  lemma RoleRoundTrip(r: Role)
    ensures ParseRole(RoleText(r)) == Some(r)
  {
  }

  /** A username already in the table cannot be inserted again, and the
      table stays as it was. */
  lemma DuplicateUsernameRefused(t: Table<User>, f: UserForm, hash: string -> string, k: nat)
    requires UsersValid(t) && k < |t.rows|
    requires f.username.Some? && t.rows[k].val.username == f.username
    ensures CreateUser(t, f, hash) == Refused
    ensures CreateUser(t, f, hash).Or(t) == t
  {
  }

  /** Leaving the role blank creates a staff user. */
  lemma DefaultRoleIsStaff(t: Table<User>, f: UserForm, hash: string -> string)
    requires UsersValid(t) && !Truthy(f.role) && !Clash(t.rows, f.username, None)
    ensures CreateUser(t, f, hash).Applied?
    ensures Get(CreateUser(t, f, hash).value.rows, t.next).value.role == Staff
  {
  }
}
