/** Browser storage as the two scripts use it, and the records they keep in it.

    `localStorage` and `sessionStorage` are each a map from key to stored value. A
    stored value is kept in the parsed form the scripts read it back in: the JSON text
    of a session object, the JSON text of an array of records, or any other string.
    Serialising and parsing JSON are not modelled. */
module WebStorage {
  import opened Options

  const UserSessionKey := "userSession"
  const UserRoleKey := "userRole"
  const PendingRegistrationsKey := "pendingRegistrations"
  const WorkflowsKey := "workflows"
  const WorkflowDraftsKey := "workflowDrafts"

  /** The object stored under `userSession`. `loginTime` (milliseconds since the epoch)
      is `None` when the stored field is missing or is not a date, which makes
      `new Date(loginTime)` NaN; `isAuthenticated` is the truthiness of that field. */
  datatype Session = Session(
    email: string,
    role: string,
    name: string,
    loginTime: Option<int>,
    isAuthenticated: bool)

  /** A value read from a form: the string entered, or the number that a `|| n`
      fallback puts in the place of an empty entry. */
  datatype FormValue = Str(text: string) | Num(n: int)

  /** A registration request kept for administrator review. `data` holds the form
      entries that were present (FormData.get gives null for the others). */
  datatype Registration = Registration(
    id: string,
    kind: string,
    subtype: string,
    title: string,
    data: map<string, string>,
    services: seq<string>,
    status: string,
    priority: string)

  /** One approval step of a workflow definition as `collectWorkflowSteps` builds it. */
  datatype WorkflowStep = WorkflowStep(
    order: nat,
    name: string,
    approverRole: string,
    approvalType: string,
    timeout: FormValue)

  datatype Conditions = Conditions(
    autoApprove: bool,
    autoApproveLimit: FormValue,
    escalationEnabled: bool,
    escalationTime: FormValue)

  datatype NotificationSettings = NotificationSettings(
    notifySubmitter: bool,
    notifyApprovers: bool,
    notifyManager: bool)

  /** A workflow definition as saved: a draft carries no `createdBy`. The text fields
      are `None` where the form had no such entry. `createdAt` is the clock reading in
      milliseconds. */
  datatype Workflow = Workflow(
    id: string,
    name: Option<string>,
    category: Option<string>,
    description: Option<string>,
    priority: Option<string>,
    sla: Option<string>,
    status: string,
    steps: seq<WorkflowStep>,
    conditions: Conditions,
    notifications: NotificationSettings,
    createdAt: int,
    createdBy: Option<string>)

  datatype Record = RegistrationRecord(registration: Registration) | WorkflowRecord(workflow: Workflow)

  /** A stored string: the JSON text of an object (read as a session; an object that
      lacks a field reads as a session whose field is falsy), the JSON text of an array
      of records, or `Raw(text)` for every other string, that is text `JSON.parse`
      rejects or that denotes neither an object nor an array. */
  datatype Value = SessionObject(session: Session) | RecordList(records: seq<Record>) | Raw(text: string)

  /** `storage.getItem(key)` on a store, and `formData.get(key)` on a form's entries:
      `None` standing for `null`. */
  function GetItem<V>(m: map<string, V>, key: string): (r: Option<V>)
    ensures r.Some? <==> key in m
    ensures r.Some? ==> r.value == m[key]
  {
    if key in m then Some(m[key]) else None
  }

  /** The value `storage.getItem(key)` yields where JavaScript tests it for truth: only a
      missing key and the empty string are false. */
  function TruthyItem(m: map<string, Value>, key: string): (r: Option<Value>)
    ensures r.Some? <==> key in m && m[key] != Raw("")
    ensures r.Some? ==> r.value == m[key]
  {
    if key in m && m[key] != Raw("") then Some(m[key]) else None
  }

  /** The records a stored value holds as a list; empty for anything that is not one. */
  function ListOf(stored: Option<Value>): seq<Record> {
    if stored.Some? && stored.value.RecordList? then stored.value.records else []
  }

  /** `JSON.parse(getItem(key) || '[]')` followed by `push(rec)`: the list to store
      back, or `None` when the parse throws or its result is not an array (the push
      then throws and nothing is stored). */
  function Pushed(stored: Option<Value>, rec: Record): (r: Option<seq<Record>>)
    ensures r.Some? <==> stored.None? || stored == Some(Raw("")) || stored.value.RecordList?
    ensures r.Some? ==> r.value == ListOf(stored) + [rec]
  {
    if stored.None? || stored == Some(Raw("")) then Some([rec])
    else if stored.value.RecordList? then Some(stored.value.records + [rec])
    else None
  }

  /** A push that succeeds appends exactly one record, at the end, and keeps every
      earlier record where it was. */
  lemma PushedAppendsOne(stored: Option<Value>, rec: Record)
    requires Pushed(stored, rec).Some?
    ensures var r := Pushed(stored, rec).value;
      && |r| == |ListOf(stored)| + 1
      && r[..|r| - 1] == ListOf(stored)
      && r[|r| - 1] == rec
  {
  }

  /** The page's two stores, `localStorage` and `sessionStorage`. */
  class Stores {
    var local: map<string, Value>
    var session: map<string, Value>

    constructor (local0: map<string, Value>, session0: map<string, Value>)
      ensures local == local0 && session == session0
    {
      local := local0;
      session := session0;
    }

    /** `storage.setItem(key, JSON.stringify(JSON.parse(storage.getItem(key) || '[]')
        .concat([rec])))` on `localStorage`: `ok` is false when reading the list
        throws, and then nothing changes. */
    method PushLocal(key: string, rec: Record) returns (ok: bool)
      modifies this
      ensures ok == Pushed(GetItem(old(local), key), rec).Some?
      ensures ok ==> local == old(local)[key := RecordList(Pushed(GetItem(old(local), key), rec).value)]
      ensures !ok ==> local == old(local)
      ensures session == old(session)
    {
      var list := Pushed(GetItem(local, key), rec);
      ok := list.Some?;
      if ok {
        local := local[key := RecordList(list.value)];
      }
    }
  }
}
