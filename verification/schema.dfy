/** The database as a whole and the bootstrap script that prepares it:
    `CREATE TABLE IF NOT EXISTS` for the five tables, then `INSERT OR IGNORE`
    of the default settings and of the `sona` administrator. */
module Schema {
  import opened Common
  import opened Tables
  import opened Users
  import opened SettingsStore
  import opened Payments
  import opened TempContracts
  import opened PermContracts

  datatype TableName = UsersTable | SettingsTable | PaymentsTable | TempTable | PermTable

  const AllTables: set<TableName> := {UsersTable, SettingsTable, PaymentsTable, TempTable, PermTable}

  /** The stored state: which tables exist, and their contents. */
  datatype Db = Db(
    schema: set<TableName>,
    users: Table<User>,
    settings: Settings,
    payments: Table<Payment>,
    temps: Table<TempContract>,
    perms: Table<PermContract>)

  /** Every table keeps its constraints: ascending ids under the counter,
      and unique usernames. The role CHECK and the settings primary key
      hold by the types `Role` and `map`. */
  predicate DbValid(db: Db) {
    UsersValid(db.users) && Valid(db.payments) && Valid(db.temps) && Valid(db.perms)
  }

  /** The tables that exist keep their constraints; the others are not
      looked at. */
  predicate StoredValid(db: Db) {
    && (UsersTable in db.schema ==> UsersValid(db.users))
    && (PaymentsTable in db.schema ==> Valid(db.payments))
    && (TempTable in db.schema ==> Valid(db.temps))
    && (PermTable in db.schema ==> Valid(db.perms))
  }

  /** The five `CREATE TABLE IF NOT EXISTS`: a table that exists keeps its
      rows, a missing one starts empty. */
  function CreateTables(db: Db): (r: Db)
    requires StoredValid(db)
    ensures r.schema == AllTables && DbValid(r)
    ensures UsersTable in db.schema ==> r.users == db.users
    ensures SettingsTable in db.schema ==> r.settings == db.settings
    ensures PaymentsTable in db.schema ==> r.payments == db.payments
    ensures TempTable in db.schema ==> r.temps == db.temps
    ensures PermTable in db.schema ==> r.perms == db.perms
    ensures UsersTable !in db.schema ==> r.users.rows == []
    ensures SettingsTable !in db.schema ==> r.settings == map[]
    ensures PaymentsTable !in db.schema ==> r.payments.rows == []
    ensures TempTable !in db.schema ==> r.temps.rows == []
    ensures PermTable !in db.schema ==> r.perms.rows == []
  {
    Db(AllTables,
       if UsersTable in db.schema then db.users else Empty(),
       if SettingsTable in db.schema then db.settings else map[],
       if PaymentsTable in db.schema then db.payments else Empty(),
       if TempTable in db.schema then db.temps else Empty(),
       if PermTable in db.schema then db.perms else Empty())
  }

  /** `INSERT OR IGNORE INTO settings`: the primary key turns a second row
      for the key into a no-op. */
  function InsertOrIgnore(s: Settings, key: string, value: string): (r: Settings)
    ensures r.Keys == s.Keys + {key}
    ensures key in s ==> r[key] == s[key]
    ensures key !in s ==> r[key] == value
    ensures forall k :: k in s ==> r[k] == s[k]
  {
    if key in s then s else s[key := value]
  }

  /** The four default settings, in the script's order. */
  function SeedSettings(s: Settings): (r: Settings)
    ensures r.Keys == s.Keys + {BrandKey, VatRateKey, VatVisibleKey, VatNumberKey}
    ensures forall k :: k in s ==> r[k] == s[k]
    ensures BrandKey !in s ==> r[BrandKey] == Agency
    ensures VatRateKey !in s ==> r[VatRateKey] == "5"
    ensures VatVisibleKey !in s ==> r[VatVisibleKey] == "1"
    ensures VatNumberKey !in s ==> r[VatNumberKey] == "1000000000"
  {
    KeysDistinct();
    var s1 := InsertOrIgnore(s, BrandKey, Agency);
    var s2 := InsertOrIgnore(s1, VatRateKey, "5");
    var s3 := InsertOrIgnore(s2, VatVisibleKey, "1");
    InsertOrIgnore(s3, VatNumberKey, "1000000000")
  }

  const AdminUsername := "sona"

  /** The seeded administrator, with `hash` the bcrypt hash of 'sona'; the
      phone column is left NULL. */
  function SeedUser(hash: string): User {
    User(Some(AdminUsername), hash, Admin, Some("Sona Admin"), None)
  }

  /** `INSERT OR IGNORE INTO users(...)`: the UNIQUE username makes the
      insert drop its row when a 'sona' user exists. SQLite takes the new
      rowid from the AUTOINCREMENT counter before it checks UNIQUE, and the
      statement, which succeeds, writes the advanced counter back to
      `sqlite_sequence`: an ignored insert still consumes an id. */
  function SeedAdmin(users: Table<User>, hash: string): (r: Table<User>)
    requires UsersValid(users)
    ensures UsersValid(r)
    ensures r.next == users.next + 1
    ensures Clash(users.rows, Some(AdminUsername), None) ==> r.rows == users.rows
    ensures !Clash(users.rows, Some(AdminUsername), None) ==>
              && Ids(r.rows) == Ids(users.rows) + {users.next}
              && Get(r.rows, users.next) == Some(SeedUser(hash))
              && forall other :: other != users.next ==> Get(r.rows, other) == Get(users.rows, other)
  {
    if Clash(users.rows, Some(AdminUsername), None) then users.(next := users.next + 1)
    else
      var u := SeedUser(hash);
      InsertKeepsUnique(users, u);
      forall other ensures Get(Insert(users, u).rows, other) == if other == users.next then Some(u) else Get(users.rows, other) {
        GetAfterInsert(users, u, other);
      }
      Insert(users, u)
  }

  /** The whole script, with `hash` the value bcrypt returns for 'sona'. */
  function Bootstrap(db: Db, hash: string): (r: Db)
    requires StoredValid(db)
    ensures r.schema == AllTables && DbValid(r)
  {
    var d := CreateTables(db);
    d.(settings := SeedSettings(d.settings), users := SeedAdmin(d.users, hash))
  }

  // ---------------------------------------------------------------------
  // Lemmas

  /** Seeding never overwrites: every stored setting and every stored user
      reads back unchanged, and the other tables are untouched. */
  lemma SeedNeverOverwrites(db: Db, hash: string)
    requires StoredValid(db)
    ensures var r := Bootstrap(db, hash);
            && (SettingsTable in db.schema ==> forall k :: k in db.settings ==> k in r.settings && r.settings[k] == db.settings[k])
            && (UsersTable in db.schema ==> forall id :: id in Ids(db.users.rows) ==> Get(r.users.rows, id) == Get(db.users.rows, id))
            && (PaymentsTable in db.schema ==> r.payments == db.payments)
            && (TempTable in db.schema ==> r.temps == db.temps)
            && (PermTable in db.schema ==> r.perms == db.perms)
  {
    var d := CreateTables(db);
    if UsersTable in db.schema {
      assert db.users.next !in Ids(db.users.rows);
    }
  }

  /** Afterwards all four settings exist. */
  lemma SeedCompletesSettings(db: Db, hash: string)
    requires StoredValid(db)
    ensures var s := Bootstrap(db, hash).settings;
            BrandKey in s && VatRateKey in s && VatVisibleKey in s && VatNumberKey in s
  {
  }

  /** The administrator is added exactly when no user is called 'sona';
      otherwise the users rows are left as they were, and either way the
      counter moves on by one. */
  lemma AdminSeededOnlyWhenAbsent(db: Db, hash: string)
    requires StoredValid(db)
    ensures var before := CreateTables(db).users;
            var after := Bootstrap(db, hash).users;
            && after.next == before.next + 1
            && (Clash(before.rows, Some(AdminUsername), None) ==> after.rows == before.rows)
            && (!Clash(before.rows, Some(AdminUsername), None) ==>
                  Get(after.rows, before.next) == Some(SeedUser(hash)) && |after.rows| == |before.rows| + 1)
  {
  }

  /** Afterwards a user called 'sona' always exists. */
  lemma SeededAdminExists(users: Table<User>, hash: string)
    requires UsersValid(users)
    ensures Clash(SeedAdmin(users, hash).rows, Some(AdminUsername), None)
  {
    if !Clash(users.rows, Some(AdminUsername), None) {
      var r := SeedAdmin(users, hash);
      assert r.rows[|users.rows|].val.username == Some(AdminUsername);
    }
  }

  /** Running the script twice is running it once, whatever hash the second
      run computes, except that the ignored administrator insert of the
      second run uses up one more users id. */
  lemma BootstrapIdempotent(db: Db, h1: string, h2: string)
    requires StoredValid(db)
    ensures var once := Bootstrap(db, h1);
            Bootstrap(once, h2) == once.(users := once.users.(next := once.users.next + 1))
  {
    var once := Bootstrap(db, h1);
    SeededAdminExists(CreateTables(db).users, h1);
    assert CreateTables(once) == once;
    assert SeedSettings(once.settings) == once.settings;
  }

  /** On a fresh file the script leaves exactly the four defaults and the
      one administrator, with id 1. */
  lemma FreshBootstrap(db: Db, hash: string)
    requires db.schema == {}
    ensures var r := Bootstrap(db, hash);
            && r.settings == map[BrandKey := Agency, VatRateKey := "5", VatVisibleKey := "1", VatNumberKey := "1000000000"]
            && r.users == Table([Row(1, SeedUser(hash))], 2)
            && r.payments.rows == [] && r.temps.rows == [] && r.perms.rows == []
  {
  }

  /** Run twice on a fresh file, the script leaves the one administrator at
      id 1 and the counter at 3: the first user created afterwards gets
      id 3, not 2. */
  lemma RerunUsesAnId(db: Db, h1: string, h2: string)
    requires db.schema == {}
    ensures Bootstrap(Bootstrap(db, h1), h2).users == Table([Row(1, SeedUser(h1))], 3)
  {
    FreshBootstrap(db, h1);
    BootstrapIdempotent(db, h1, h2);
  }
}
