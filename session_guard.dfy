/** The main page's guard: `checkAuthentication`, which decides whether the stored
    session still admits the user, `clearSession`, and the role the page reads for
    section gating. */
module SessionGuard {
  import opened Options
  import opened WebStorage
  import opened Navigation
  import LoginPage

  /** Twenty-four hours in milliseconds. */
  const DayMillis: int := 24 * 60 * 60 * 1000

  /** `localStorage.getItem('userSession') || sessionStorage.getItem('userSession')`. */
  function StoredSession(local: map<string, Value>, session: map<string, Value>): (v: Option<Value>)
    ensures UserSessionKey in local && local[UserSessionKey] != Raw("") ==> v == Some(local[UserSessionKey])
    ensures !(UserSessionKey in local && local[UserSessionKey] != Raw("")) ==> v == TruthyItem(session, UserSessionKey)
  {
    var fromLocal := TruthyItem(local, UserSessionKey);
    if fromLocal.Some? then fromLocal else TruthyItem(session, UserSessionKey)
  }

  datatype AuthOutcome =
    | NoSession      // nothing stored: straight to the login page
    | Rejected       // unreadable, not a session object, or not authenticated
    | Expired        // logged in more than 24 hours ago
    | Authenticated

  /** Whether a session logged in at `loginTime` is past its 24 hours at `now`, as the
      script computes it: the elapsed milliseconds over 3 600 000 compared with 24. A
      login time that is not a date makes the difference NaN, which is never greater. */
  predicate HoursExceeded(loginTime: Option<int>, now: int) {
    loginTime.Some? && (now - loginTime.value) as real / 3600000.0 > 24.0
  }

  /** The outcome of `checkAuthentication` at clock reading `now`. Parsing a stored
      string that is not a session object either throws or yields a value whose
      `isAuthenticated` is undefined; both reject the session. */
  function AuthVerdict(local: map<string, Value>, session: map<string, Value>, now: int): (v: AuthOutcome)
    ensures v == NoSession <==> StoredSession(local, session).None?
    ensures v == Authenticated <==>
      && StoredSession(local, session).Some?
      && StoredSession(local, session).value.SessionObject?
      && StoredSession(local, session).value.session.isAuthenticated
      && !HoursExceeded(StoredSession(local, session).value.session.loginTime, now)
    ensures v == Expired <==>
      && StoredSession(local, session).Some?
      && StoredSession(local, session).value.SessionObject?
      && StoredSession(local, session).value.session.isAuthenticated
      && HoursExceeded(StoredSession(local, session).value.session.loginTime, now)
  {
    match StoredSession(local, session)
    case None => NoSession
    case Some(SessionObject(s)) =>
      if !s.isAuthenticated then Rejected
      else if s.loginTime.Some? && now - s.loginTime.value > DayMillis then Expired
      else Authenticated
    case Some(_) => Rejected
  }

  /** The store after `removeItem('userSession')`. */
  function Cleared(m: map<string, Value>): (r: map<string, Value>)
    ensures UserSessionKey !in r
    ensures forall k :: k in m && k != UserSessionKey ==> k in r && r[k] == m[k]
    ensures forall k :: k in r ==> k in m
  {
    m - {UserSessionKey}
  }

  /** `clearSession()`: the session goes from both stores. */
  method ClearSession(stores: Stores)
    modifies stores
    ensures stores.local == Cleared(old(stores.local)) && stores.session == Cleared(old(stores.session))
  {
    stores.local := Cleared(stores.local);
    stores.session := Cleared(stores.session);
  }

  /** `checkAuthentication()`: true exactly when the user may stay; every failure but a
      missing session clears both stores. */
  method CheckAuthentication(stores: Stores, now: int) returns (ok: bool)
    modifies stores
    ensures ok <==> AuthVerdict(old(stores.local), old(stores.session), now) == Authenticated
    ensures AuthVerdict(old(stores.local), old(stores.session), now) in {Rejected, Expired} ==>
      stores.local == Cleared(old(stores.local)) && stores.session == Cleared(old(stores.session))
    ensures AuthVerdict(old(stores.local), old(stores.session), now) in {NoSession, Authenticated} ==>
      stores.local == old(stores.local) && stores.session == old(stores.session)
  {
    var verdict := AuthVerdict(stores.local, stores.session, now);
    ok := verdict == Authenticated;
    if verdict == Rejected || verdict == Expired {
      ClearSession(stores);
    }
  }

  /** A session is still admitted at exactly 24 hours and expired one millisecond
      later. */
  lemma DayBoundary(local: map<string, Value>, session: map<string, Value>, s: Session, t: int)
    requires s.isAuthenticated && s.loginTime == Some(t)
    requires StoredSession(local, session) == Some(SessionObject(s))
    ensures AuthVerdict(local, session, t + DayMillis) == Authenticated
    ensures AuthVerdict(local, session, t + DayMillis + 1) == Expired
  {
  }

  /** A stored session that is not marked authenticated never admits the user. */
  lemma UnauthenticatedIsRejected(local: map<string, Value>, session: map<string, Value>, s: Session, now: int)
    requires StoredSession(local, session) == Some(SessionObject(s)) && !s.isAuthenticated
    ensures AuthVerdict(local, session, now) == Rejected
  {
  }

  /** A login the login page stores admits the user again for 24 hours from its login
      time, as long as the store it was written to is the one consulted: always for a
      remembered login, and for a session-only login when `localStorage` holds no
      session. */
  lemma LoginIsAdmittedForADay(local: map<string, Value>, session: map<string, Value>,
                               email: string, role: string, name: Option<string>,
                               remember: bool, loginAt: int, now: int)
    requires loginAt <= now <= loginAt + DayMillis
    requires !remember ==> TruthyItem(local, UserSessionKey).None?
    ensures var record := SessionObject(LoginPage.NewSession(email, role, name, loginAt));
      var local' := if remember then local[UserSessionKey := record] else local;
      var session' := if remember then session else session[UserSessionKey := record];
      AuthVerdict(local', session', now) == Authenticated
  {
  }

  // ---------------------------------------------------------------- role used for gating

  /** `sessionStorage.getItem('userRole') || localStorage.getItem('userRole')`, the
      role `script.js` reads, as the script has it. */
  function StoredRoleAsWritten(local: map<string, Value>, session: map<string, Value>): (role: Option<string>)
    ensures TruthyItem(session, UserRoleKey).Some? && TruthyItem(session, UserRoleKey).value.Raw?
      ==> role == Some(session[UserRoleKey].text)
    ensures TruthyItem(session, UserRoleKey).None? && TruthyItem(local, UserRoleKey).Some?
      && TruthyItem(local, UserRoleKey).value.Raw?
      ==> role == Some(local[UserRoleKey].text)
    ensures TruthyItem(session, UserRoleKey).None? && TruthyItem(local, UserRoleKey).None? ==> role == None
    ensures role.Some? ==> role.value != ""
  {
    match (TruthyItem(session, UserRoleKey), TruthyItem(local, UserRoleKey))
    case (Some(Raw(t)), _) => Some(t)
    case (Some(_), _) => None
    case (None, Some(Raw(t))) => Some(t)
    case (None, _) => None
  }

  /** The role recorded in the stored session, the one the login page writes and the
      user menu shows. */
  function SessionRole(local: map<string, Value>, session: map<string, Value>): (role: Option<string>)
    ensures role.Some? <==> StoredSession(local, session).Some? && StoredSession(local, session).value.SessionObject?
    ensures role.Some? ==> role.value == StoredSession(local, session).value.session.role
  {
    match StoredSession(local, session)
    case Some(SessionObject(s)) => Some(s.role)
    case _ => None
  }

  /** After the guest demo login, from stores that hold no role item, the role read as
      written is missing, so the guest is shown the administrators' section. */
  lemma {:induction false} GuestOpensAdminAsWritten(local: map<string, Value>, session: map<string, Value>,
                                                    sections: map<string, SectionElement>, now: int)
    requires UserRoleKey !in local && UserRoleKey !in session
    requires "admin" in sections && sections["admin"].dataRoles == Some("admin")
    ensures var account := LoginPage.DemoAccountFor("guest").value;
      var session' := session[UserSessionKey := SessionObject(LoginPage.NewSession(account.email, "guest", Some(account.name), now))];
      ShowSection(sections, "admin", StoredRoleAsWritten(local, session')).active == Some("admin")
  {
    var account := LoginPage.DemoAccountFor("guest").value;
    var session' := session[UserSessionKey := SessionObject(LoginPage.NewSession(account.email, "guest", Some(account.name), now))];
    assert StoredRoleAsWritten(local, session') == None;
    NoRoleNoRedirect(sections, "admin", None);
  }

  /** Read from the stored session instead, after the same login the guest asking for
      the administrators' section is sent to the guest house. */
  lemma {:induction false} GuestKeptFromAdmin(local: map<string, Value>, session: map<string, Value>,
                                              sections: map<string, SectionElement>, now: int)
    requires TruthyItem(local, UserSessionKey).None?
    requires "admin" in sections && sections["admin"].dataRoles == Some("admin")
    ensures var account := LoginPage.DemoAccountFor("guest").value;
      var session' := session[UserSessionKey := SessionObject(LoginPage.NewSession(account.email, "guest", Some(account.name), now))];
      TargetSection(sections, "admin", SessionRole(local, session')) == "guesthouse"
  {
    var account := LoginPage.DemoAccountFor("guest").value;
    var session' := session[UserSessionKey := SessionObject(LoginPage.NewSession(account.email, "guest", Some(account.name), now))];
    assert SessionRole(local, session') == Some("guest");
    JsText.SplitNoSeparator("admin", ',');
  }

  /** A login stores the role it was given, and the session reader returns it. */
  lemma LoginRoleIsRead(local: map<string, Value>, session: map<string, Value>,
                        email: string, role: string, name: Option<string>, remember: bool, now: int)
    requires !remember ==> TruthyItem(local, UserSessionKey).None?
    ensures var record := SessionObject(LoginPage.NewSession(email, role, name, now));
      var local' := if remember then local[UserSessionKey := record] else local;
      var session' := if remember then session else session[UserSessionKey := record];
      SessionRole(local', session') == Some(role)
  {
  }

  /** The section the page opens with (its `DOMContentLoaded` handler) for the role it
      has read. It is always the role's default section: when that section's role list
      excludes the role, the redirect leads back to it. */
  function StartupDisplay(sections: map<string, SectionElement>, role: Option<string>): (d: Display)
    ensures var home := DefaultSectionForRole(role);
      (d.active.Some? <==> home in sections) && (d.active.Some? ==> d.active.value == home)
  {
    ShowSection(sections, DefaultSectionForRole(role), role)
  }

  /** As written, the page reads no role after the guest demo login, so the guest
      starts on the dashboard. */
  lemma {:induction false} GuestStartsOnDashboardAsWritten(local: map<string, Value>, session: map<string, Value>,
                                                           sections: map<string, SectionElement>, now: int)
    requires UserRoleKey !in local && UserRoleKey !in session
    requires "dashboard" in sections
    ensures var account := LoginPage.DemoAccountFor("guest").value;
      var session' := session[UserSessionKey := SessionObject(LoginPage.NewSession(account.email, "guest", Some(account.name), now))];
      StartupDisplay(sections, StoredRoleAsWritten(local, session')).active == Some("dashboard")
  {
    var account := LoginPage.DemoAccountFor("guest").value;
    var session' := session[UserSessionKey := SessionObject(LoginPage.NewSession(account.email, "guest", Some(account.name), now))];
    assert StoredRoleAsWritten(local, session') == None;
  }

  /** Reading the role from the stored session instead, the guest starts on the guest
      house, the start the role table intends for guests. */
  lemma {:induction false} GuestStartsOnGuestHouse(local: map<string, Value>, session: map<string, Value>,
                                                   sections: map<string, SectionElement>, now: int)
    requires TruthyItem(local, UserSessionKey).None?
    requires "guesthouse" in sections
    ensures var account := LoginPage.DemoAccountFor("guest").value;
      var session' := session[UserSessionKey := SessionObject(LoginPage.NewSession(account.email, "guest", Some(account.name), now))];
      StartupDisplay(sections, SessionRole(local, session')).active == Some("guesthouse")
  {
    var account := LoginPage.DemoAccountFor("guest").value;
    var session' := session[UserSessionKey := SessionObject(LoginPage.NewSession(account.email, "guest", Some(account.name), now))];
    assert SessionRole(local, session') == Some("guest");
  }
}
