/** The login page: the demo credential and role tables, the session record a login
    stores, the demo logins and the two registration forms whose requests are queued
    for administrator review. Notifications, the loading state of the submit button,
    the form reset and the redirect to the main page have no effect on the state
    modelled here. */
module LoginPage {
  import opened Options
  import opened JsText
  import opened WebStorage
  import opened FormValidation

  /** The accounts `validateLogin` accepts, by email, with their passwords. */
  const Passwords: map<string, string> := map[
    "admin@company.com" := "admin123",
    "john.doe@company.com" := "employee123",
    "jane.smith@company.com" := "employee123",
    "guest@visitor.com" := "guest123"]

  /** The roles `getUserRole` knows, by email. */
  const RoleOfEmail: map<string, string> := map[
    "admin@company.com" := "admin",
    "john.doe@company.com" := "employee",
    "jane.smith@company.com" := "employee",
    "guest@visitor.com" := "guest"]

  /** `validateLogin(email, password)`: the password the table holds for the email,
      compared strictly; an email missing from the table gives `undefined`, which
      equals no password. */
  function ValidateLogin(email: string, password: string): (ok: bool)
    ensures ok <==>
      || (email == "admin@company.com" && password == "admin123")
      || (email == "john.doe@company.com" && password == "employee123")
      || (email == "jane.smith@company.com" && password == "employee123")
      || (email == "guest@visitor.com" && password == "guest123")
  {
    email in Passwords && Passwords[email] == password
  }

  /** `getUserRole(email)`: the table's role, `'employee'` for every other email. */
  function GetUserRole(email: string): (role: string)
    ensures email == "admin@company.com" ==> role == "admin"
    ensures email == "guest@visitor.com" ==> role == "guest"
    ensures email != "admin@company.com" && email != "guest@visitor.com" ==> role == "employee"
  {
    if email in RoleOfEmail then RoleOfEmail[email] else "employee"
  }

  /** Every account that can sign in has an entry of its own in the role table, so no
      successful login falls back to the default role. */
  lemma {:induction false} SignedInAccountsHaveRoles(email: string, password: string)
    requires ValidateLogin(email, password)
    ensures email in RoleOfEmail && GetUserRole(email) == RoleOfEmail[email]
  {
  }

  /** The object `storeSession` writes: the name given, or, when it is missing or
      empty, the part of the email before its first `@`. */
  function NewSession(email: string, role: string, name: Option<string>, now: int): (s: Session)
    ensures s.email == email && s.role == role
    ensures s.isAuthenticated && s.loginTime == Some(now)
    ensures name.Some? && name.value != [] ==> s.name == name.value
    ensures name.None? || name.value == [] ==>
      && '@' !in s.name
      && |s.name| <= |email|
      && s.name == email[..|s.name|]
      && (|s.name| < |email| ==> email[|s.name|] == '@')
  {
    FirstPieceIsPrefix(email, '@');
    var shown := if name.Some? && name.value != [] then name.value else Split(email, '@')[0];
    Session(email, role, shown, Some(now), true)
  }

  /** With no name given, an email of the form `user@domain` yields the name `user`. */
  lemma DefaultNameIsUser(user: string, domain: string, role: string, now: int)
    requires '@' !in user
    ensures NewSession(user + "@" + domain, role, None, now).name == user
  {
    SplitAfterPiece(user, '@', domain);
  }

  /** `storeSession(email, role, remember, name)` at clock reading `now`: the session
      goes to `localStorage` when `remember` is set and to `sessionStorage` otherwise;
      the other store is left as it was. */
  method StoreSession(stores: Stores, email: string, role: string, remember: bool, name: Option<string>, now: int)
    modifies stores
    ensures remember ==> stores.local == old(stores.local)[UserSessionKey := SessionObject(NewSession(email, role, name, now))]
    ensures remember ==> stores.session == old(stores.session)
    ensures !remember ==> stores.session == old(stores.session)[UserSessionKey := SessionObject(NewSession(email, role, name, now))]
    ensures !remember ==> stores.local == old(stores.local)
  {
    var record := SessionObject(NewSession(email, role, name, now));
    if remember {
      stores.local := stores.local[UserSessionKey := record];
    } else {
      stores.session := stores.session[UserSessionKey := record];
    }
  }

  /** `handleLogin`: a valid email and password store a session for the email's role,
      under the default name; anything else stores nothing. `remember` is whether the
      checkbox was ticked. */
  method HandleLogin(stores: Stores, email: string, password: string, remember: bool, now: int) returns (ok: bool)
    modifies stores
    ensures ok == ValidateLogin(email, password)
    ensures ok && remember ==> stores.local == old(stores.local)[UserSessionKey := SessionObject(NewSession(email, GetUserRole(email), None, now))]
    ensures ok && !remember ==> stores.session == old(stores.session)[UserSessionKey := SessionObject(NewSession(email, GetUserRole(email), None, now))]
    ensures !(ok && remember) ==> stores.local == old(stores.local)
    ensures !(ok && !remember) ==> stores.session == old(stores.session)
  {
    ok := ValidateLogin(email, password);
    if ok {
      StoreSession(stores, email, GetUserRole(email), remember, None, now);
    }
  }

  /** A demo account of `loginAsDemo`: email, display name and role. */
  datatype DemoAccount = DemoAccount(email: string, name: string, role: string)

  function DemoAccountFor(role: string): (a: Option<DemoAccount>)
    ensures a.Some? <==> role == "admin" || role == "employee" || role == "guest"
    ensures a.Some? ==> a.value.role == role && a.value.email in Passwords && ValidateLogin(a.value.email, Passwords[a.value.email])
  {
    match role
    case "admin" => Some(DemoAccount("admin@company.com", "Admin User", "admin"))
    case "employee" => Some(DemoAccount("john.doe@company.com", "John Doe", "employee"))
    case "guest" => Some(DemoAccount("guest@visitor.com", "Guest User", "guest"))
    case _ => None
  }

  /** Every demo account is one the role table gives the same role. */
  lemma DemoAccountsAgreeWithRoleTable(role: string)
    requires DemoAccountFor(role).Some?
    ensures GetUserRole(DemoAccountFor(role).value.email) == role
  {
  }

  /** `loginAsDemo(role)`: for a demo role, a session for its account in
      `sessionStorage`; for any other role nothing at all. */
  method LoginAsDemo(stores: Stores, role: string, now: int) returns (found: bool)
    modifies stores
    ensures found <==> DemoAccountFor(role).Some?
    ensures found ==> stores.session == old(stores.session)[UserSessionKey := SessionObject(
      NewSession(DemoAccountFor(role).value.email, role, Some(DemoAccountFor(role).value.name), now))]
    ensures stores.local == old(stores.local)
    ensures !found ==> stores.session == old(stores.session)
  {
    var account := DemoAccountFor(role);
    found := account.Some?;
    if found {
      StoreSession(stores, account.value.email, account.value.role, false, Some(account.value.name), now);
    }
  }

  /** `storeRegistrationRequest(data)`: the request joins the end of the
      `pendingRegistrations` list. */
  method StoreRegistrationRequest(stores: Stores, reg: Registration) returns (ok: bool)
    modifies stores
    ensures ok == Pushed(GetItem(old(stores.local), PendingRegistrationsKey), RegistrationRecord(reg)).Some?
    ensures ok ==> stores.local == old(stores.local)[PendingRegistrationsKey :=
      RecordList(ListOf(GetItem(old(stores.local), PendingRegistrationsKey)) + [RegistrationRecord(reg)])]
    ensures !ok ==> stores.local == old(stores.local)
    ensures stores.session == old(stores.session)
  {
    ok := stores.PushLocal(PendingRegistrationsKey, RegistrationRecord(reg));
  }

  const EmployeeRequired := ["employeeId", "fullName", "officeEmail", "department", "managerName", "contactNumber"]
  const EmployeeEntries := EmployeeRequired + ["managerEmail", "residentialArea"]
  const GuestRequired := ["guestName", "guestContact", "visitPurpose", "visitDuration", "hostEmployee", "hostDepartment", "arrivalDate", "idProofType"]
  const GuestEntries := GuestRequired + ["guestEmail", "organization", "hostEmployeeId", "departureDate", "comments"]

  /** The `data` of a request: the value of each listed entry the form has. */
  function Entries(fields: map<string, Field>, names: seq<string>): (data: map<string, string>)
    ensures forall n :: n in data <==> n in names && n in fields
    ensures forall n :: n in data ==> data[n] == fields[n].value
  {
    map n | n in names && n in fields :: fields[n].value
  }

  /** The entries depend only on the fields' values, not on their groups. */
  lemma EntriesDependOnValues(a: map<string, Field>, b: map<string, Field>, names: seq<string>)
    requires a.Keys == b.Keys
    requires forall n :: n in a ==> a[n].value == b[n].value
    ensures Entries(a, names) == Entries(b, names)
  {
  }

  /** The request `handleEmployeeRegistration` builds from a form that has its
      required fields. */
  function EmployeeRequest(id: string, fields: map<string, Field>, services: seq<string>): (r: Registration)
    requires "fullName" in fields
    ensures r.kind == "registration" && r.subtype == "employee"
    ensures r.title == "Employee Registration - " + fields["fullName"].value
    ensures r.status == "pending" && r.priority == "high"
    ensures r.data == Entries(fields, EmployeeEntries) && r.services == services && r.id == id
  {
    Registration(id, "registration", "employee", "Employee Registration - " + fields["fullName"].value,
      Entries(fields, EmployeeEntries), services, "pending", "high")
  }

  /** The request `handleGuestRegistration` builds. */
  function GuestRequest(id: string, fields: map<string, Field>, services: seq<string>): (r: Registration)
    requires "guestName" in fields
    ensures r.kind == "guesthouse" && r.subtype == "guest_registration"
    ensures r.title == "Guest Registration - " + fields["guestName"].value
    ensures r.status == "pending" && r.priority == "high"
    ensures r.data == Entries(fields, GuestEntries) && r.services == services && r.id == id
  {
    Registration(id, "guesthouse", "guest_registration", "Guest Registration - " + fields["guestName"].value,
      Entries(fields, GuestEntries), services, "pending", "high")
  }

  /** `handleEmployeeRegistration`: the required fields are checked and marked; only
      when all are filled is the request queued. `id` stands for the generated
      identifier and `services` for the values of the ticked service boxes. The form
      must have every required field, as the script looks each of them up. */
  method HandleEmployeeRegistration(stores: Stores, form: Form, id: string, services: seq<string>)
    returns (valid: bool, stored: bool)
    requires forall k :: 0 <= k < |EmployeeRequired| ==> EmployeeRequired[k] in form.fields
    requires "fullName" in form.fields
    modifies stores, form
    ensures valid <==> forall k :: 0 <= k < |EmployeeRequired| ==> Filled(old(form.fields)[EmployeeRequired[k]])
    ensures form.fields == MarkAll(old(form.fields), EmployeeRequired)
    ensures stored ==> valid
    ensures stored == (valid && Pushed(GetItem(old(stores.local), PendingRegistrationsKey),
      RegistrationRecord(EmployeeRequest(id, old(form.fields), services))).Some?)
    ensures stored ==> stores.local == old(stores.local)[PendingRegistrationsKey :=
      RecordList(ListOf(GetItem(old(stores.local), PendingRegistrationsKey))
        + [RegistrationRecord(EmployeeRequest(id, old(form.fields), services))])]
    ensures !stored ==> stores.local == old(stores.local)
    ensures stores.session == old(stores.session)
  {
    ghost var before := form.fields;
    valid := form.ValidateRequiredFields(EmployeeRequired);
    stored := false;
    if valid {
      var fields := form.fields;
      assert "fullName" == EmployeeRequired[1];
      EntriesDependOnValues(fields, before, EmployeeEntries);
      var request := EmployeeRequest(id, fields, services);
      assert request == EmployeeRequest(id, before, services);
      stored := StoreRegistrationRequest(stores, request);
    }
  }

  /** `handleGuestRegistration`, alike for the guest form. */
  method HandleGuestRegistration(stores: Stores, form: Form, id: string, services: seq<string>)
    returns (valid: bool, stored: bool)
    requires forall k :: 0 <= k < |GuestRequired| ==> GuestRequired[k] in form.fields
    requires "guestName" in form.fields
    modifies stores, form
    ensures valid <==> forall k :: 0 <= k < |GuestRequired| ==> Filled(old(form.fields)[GuestRequired[k]])
    ensures form.fields == MarkAll(old(form.fields), GuestRequired)
    ensures stored ==> valid
    ensures stored == (valid && Pushed(GetItem(old(stores.local), PendingRegistrationsKey),
      RegistrationRecord(GuestRequest(id, old(form.fields), services))).Some?)
    ensures stored ==> stores.local == old(stores.local)[PendingRegistrationsKey :=
      RecordList(ListOf(GetItem(old(stores.local), PendingRegistrationsKey))
        + [RegistrationRecord(GuestRequest(id, old(form.fields), services))])]
    ensures !stored ==> stores.local == old(stores.local)
    ensures stores.session == old(stores.session)
  {
    ghost var before := form.fields;
    valid := form.ValidateRequiredFields(GuestRequired);
    stored := false;
    if valid {
      var fields := form.fields;
      assert "guestName" == GuestRequired[0];
      EntriesDependOnValues(fields, before, GuestEntries);
      var request := GuestRequest(id, fields, services);
      assert request == GuestRequest(id, before, services);
      stored := StoreRegistrationRequest(stores, request);
    }
  }
}
