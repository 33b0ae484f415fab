/** The request handlers of the server as one state transition: the guard
    each route is mounted behind, then the handler body. Hashing, the
    password comparison, today's date and the fresh file name are inputs;
    rendering and flash messages are not modelled, only where a request
    redirects to. */
module App {
  import opened Common
  import opened Numbers
  import opened Tables
  import opened Users
  import opened Auth
  import opened SettingsStore
  import opened Payments
  import opened TempContracts
  import opened PermContracts
  import opened Schema

  /** What a request may consult besides the database and session. */
  datatype Env = Env(
    hash: string -> string,
    matches: (string, string) -> bool,
    today: Day,
    uuid: string)

  datatype State = State(db: Db, session: Option<SessionUser>)

  /** The requests that change state. */
  datatype Request =
    | LoginReq(username: Option<string>, password: Option<string>)
    | LogoutReq
    | CreateUserReq(userForm: UserForm)
    | UpdateUserReq(id: nat, userForm: UserForm)
    | DeleteUserReq(id: nat)
    | SaveSettingsReq(settingsForm: SettingsForm)
    | CreatePaymentReq(paymentForm: PaymentForm)
    | CreateTempReq(tempForm: TempForm)
    | UpdateTempReq(id: nat, tempForm: TempForm)
    | DeleteTempReq(id: nat)
    | CreatePermReq(permForm: PermForm, uploads: Uploads)
    | UpdatePermReq(id: nat, permForm: PermForm, uploads: Uploads)
    | DeletePermReq(id: nat)

  /** A redirect, or nothing at all when the async handler throws. Express 4
      does not catch a rejected async handler, so on a runtime that only
      reports the unhandled rejection the request is left hanging and the
      process keeps its sessions. */
  datatype Response = Redirect(to: string) | NoResponse

  datatype Outcome = Outcome(state: State, response: Response)

  /** Routes mounted behind `requireAdmin`. */
  predicate AdminRoute(req: Request) {
    req.CreateUserReq? || req.UpdateUserReq? || req.DeleteUserReq? || req.SaveSettingsReq?
  }

  /** Routes mounted behind either guard; login and logout are open. */
  predicate GuardedRoute(req: Request) {
    !req.LoginReq? && !req.LogoutReq?
  }

  function RouteGuard(req: Request, session: Option<SessionUser>): (g: Guard)
    ensures !GuardedRoute(req) ==> g == Proceed
    ensures GuardedRoute(req) && !AdminRoute(req) ==> (g == Proceed <==> session.Some?)
    ensures AdminRoute(req) ==> (g == Proceed <==> session.Some? && session.value.role == Admin)
    ensures GuardedRoute(req) && session.None? ==> g == RedirectTo("/login")
    ensures AdminRoute(req) && session.Some? && session.value.role == Staff ==> g == RedirectTo("/")
  {
    if AdminRoute(req) then RequireAdmin(session)
    else if GuardedRoute(req) then RequireAuth(session)
    else Proceed
  }

  /** One request: the guard, then the handler. The database stays valid,
      only login and logout touch the session, and a redirecting guard
      leaves everything as it was. */
  function Dispatch(st: State, env: Env, req: Request): (out: Outcome)
    requires DbValid(st.db)
    ensures DbValid(out.state.db) && out.state.db.schema == st.db.schema
    ensures GuardedRoute(req) ==> out.state.session == st.session
    ensures RouteGuard(req, st.session).RedirectTo? ==>
              out == Outcome(st, Redirect(RouteGuard(req, st.session).path))
  {
    match RouteGuard(req, st.session)
    case RedirectTo(path) => Outcome(st, Redirect(path))
    case Proceed => Handle(st, env, req)
  }

  /** The handler bodies, once the guard has let the request through. */
  function Handle(st: State, env: Env, req: Request): (out: Outcome)
    requires DbValid(st.db)
    requires GuardedRoute(req) ==> st.session.Some?
    ensures DbValid(out.state.db) && out.state.db.schema == st.db.schema
    ensures GuardedRoute(req) ==> out.state.session == st.session
    ensures out.response == NoResponse ==> out.state == st
  {
    var db := st.db;
    match req
    case LoginReq(username, password) =>
      var r := Login(db.users.rows, username, password, env.matches);
      if r.NoPassword? then Outcome(st, NoResponse)
      else Outcome(st.(session := SessionAfterLogin(st.session, r)),
                   Redirect(if r.LoggedIn? then "/" else "/login"))
    case LogoutReq =>
      Outcome(st.(session := None), Redirect("/login"))
    case CreateUserReq(f) =>
      var users := CreateUser(db.users, f, env.hash).Or(db.users);
      Outcome(st.(db := db.(users := users)), Redirect("/users"))
    case UpdateUserReq(id, f) =>
      var users := UpdateUser(db.users, id, f, env.hash).Or(db.users);
      Outcome(st.(db := db.(users := users)), Redirect("/users"))
    case DeleteUserReq(id) =>
      Outcome(st.(db := db.(users := DeleteUser(db.users, id))), Redirect("/users"))
    case SaveSettingsReq(f) =>
      Outcome(st.(db := db.(settings := SaveSettings(db.settings, f))), Redirect("/settings"))
    case CreatePaymentReq(f) =>
      var configured := RequestLocals(db.settings).vatRate;
      var payments := CreatePayment(db.payments, f, configured, st.session.value.id, env.today);
      Outcome(st.(db := db.(payments := payments)), Redirect("/payments"))
    case CreateTempReq(f) =>
      var r := CreateTemp(db.temps, f, st.session.value.id, env.uuid);
      if r.Thrown? then Outcome(st, NoResponse)
      else Outcome(st.(db := db.(temps := r.value)), Redirect("/contracts/temp"))
    case UpdateTempReq(id, f) =>
      var r := UpdateTemp(db.temps, id, f, env.uuid);
      if r.Thrown? then Outcome(st, NoResponse)
      else Outcome(st.(db := db.(temps := r.value)), Redirect("/contracts/temp"))
    case DeleteTempReq(id) =>
      Outcome(st.(db := db.(temps := Remove(db.temps, id))), Redirect("/contracts/temp"))
    case CreatePermReq(f, up) =>
      var perms := CreatePerm(db.perms, f, up, st.session.value.id);
      Outcome(st.(db := db.(perms := perms)), Redirect("/contracts/perm"))
    case UpdatePermReq(id, f, up) =>
      var perms := UpdatePerm(db.perms, id, f, up).Or(db.perms);
      Outcome(st.(db := db.(perms := perms)), Redirect("/contracts/perm"))
    case DeletePermReq(id) =>
      Outcome(st.(db := db.(perms := Remove(db.perms, id))), Redirect("/contracts/perm"))
  }

  // ---------------------------------------------------------------------
  // Lemmas

  /** A visitor who is not signed in changes nothing and is sent to the
      login page, whatever guarded route they call. */
  lemma SignedOutCannotWrite(st: State, env: Env, req: Request)
    requires DbValid(st.db) && st.session.None? && GuardedRoute(req)
    ensures Dispatch(st, env, req) == Outcome(st, Redirect("/login"))
  {
  }

  /** A staff member calling a user or settings route changes nothing and
      is sent home. */
  lemma StaffCannotAdminister(st: State, env: Env, req: Request)
    requires DbValid(st.db) && st.session.Some? && st.session.value.role == Staff && AdminRoute(req)
    ensures Dispatch(st, env, req) == Outcome(st, Redirect("/"))
  {
  }

  /** A recorded payment is attributed to the signed-in user. */
  lemma PaymentIsAttributed(st: State, env: Env, f: PaymentForm)
    requires DbValid(st.db) && st.session.Some?
    ensures var db := Dispatch(st, env, CreatePaymentReq(f)).state.db;
            && Get(db.payments.rows, st.db.payments.next).Some?
            && Get(db.payments.rows, st.db.payments.next).value.userId == st.session.value.id
  {
  }

  /** With the rate left blank on the form, a payment uses `Number` of
      whatever rate text is stored, unless that is 0 or NaN (both falsy), and
      5 when no rate is stored. For a stored whole number `String(n)` that
      is n, with 0 again giving 5. */
  lemma BlankRateUsesSettings(s: Settings, f: PaymentForm, n: nat)
    requires !Truthy(f.vatRate)
    ensures VatRateKey !in s ==> EffectiveRate(f.vatRate, RequestLocals(s).vatRate) == Some(5.0)
    ensures VatRateKey in s ==>
              var c := JsNumber(s[VatRateKey]);
              EffectiveRate(f.vatRate, RequestLocals(s).vatRate) == if c.Some? && c.value != 0.0 then c else Some(5.0)
    ensures VatRateKey in s && s[VatRateKey] == NatText(n) ==>
              EffectiveRate(f.vatRate, RequestLocals(s).vatRate) == Some(if n == 0 then 5.0 else n as real)
  {
    var l := RequestLocals(s);
    if VatRateKey in s {
      assert l.vatRate == JsNumber(s[VatRateKey]);
      if s[VatRateKey] == NatText(n) {
        ParseNatText(n);
      }
    }
  }

  /** On a freshly bootstrapped database, signing in as sona with the
      password the hash was made from yields an administrator session. */
  lemma SeededAdminCanSignIn(db: Db, hash: string, env: Env)
    requires db.schema == {} && env.matches("sona", hash)
    ensures var st := State(Bootstrap(db, hash), None);
            var out := Dispatch(st, env, LoginReq(Some("sona"), Some("sona")));
            && out.state.session == Some(SessionUser(1, Some("sona"), Admin, Some("Sona Admin")))
            && out.response == Redirect("/")
            && RequireAdmin(out.state.session) == Proceed
  {
    var db1 := Bootstrap(db, hash);
    FreshBootstrap(db, hash);
    LoginExact(db1.users, 0, Some("sona"), env.matches);
    var admin := SessionUser(1, Some("sona"), Admin, Some("Sona Admin"));
    assert Login(db1.users.rows, Some("sona"), Some("sona"), env.matches) == LoggedIn(admin);
    var req := LoginReq(Some("sona"), Some("sona"));
    var st := State(db1, None);
    assert Dispatch(st, env, req) == Handle(st, env, req);
  }
}
