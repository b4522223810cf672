/** The administrators' workflow builder: a list of approval steps kept numbered
    1..N while steps are added and removed, and the two ways the form is saved, as a
    draft (no checks) or as an active workflow (checked first). Both are appended to a
    list in `localStorage`. */
module Workflows {
  import opened Options
  import opened JsText
  import opened WebStorage

  /** A `.workflow-step` element: its `data-step` attribute, the text of its number
      badge and title, whether it has a remove button and whether that button is
      displayed, and the values of its four inputs. */
  datatype StepElement = StepElement(
    dataStep: nat,
    numberText: string,
    titleText: string,
    hasRemove: bool,
    removeShown: bool,
    name: string,
    approverRole: string,
    approvalType: string,
    timeout: string)

  /** The title a step shows at position `n`. */
  function StepTitle(n: nat): string {
    "Step " + NatToString(n)
  }

  /** The element `addWorkflowStep` inserts as step `count`: only a step after the
      first gets a remove button; the inputs start empty, the approval type on its
      first option, `required`. */
  function NewStep(count: nat): (e: StepElement)
    ensures e.hasRemove <==> count > 1
    ensures e.name == "" && e.approverRole == "" && e.approvalType == "required" && e.timeout == ""
  {
    StepElement(count, NatToString(count), StepTitle(count), count > 1, count > 1, "", "", "required", "")
  }

  /** One turn of `updateStepNumbers` on the step at index `i`. */
  function Renumber(e: StepElement, i: nat): (r: StepElement)
    ensures r.dataStep == i + 1 && r.numberText == NatToString(i + 1) && r.titleText == StepTitle(i + 1)
    ensures r.hasRemove == e.hasRemove && (r.hasRemove ==> (r.removeShown <==> i > 0))
    ensures r.name == e.name && r.approverRole == e.approverRole
      && r.approvalType == e.approvalType && r.timeout == e.timeout
  {
    e.(dataStep := i + 1, numberText := NatToString(i + 1), titleText := StepTitle(i + 1),
       removeShown := if e.hasRemove then i + 1 != 1 else e.removeShown)
  }

  /** The steps after `updateStepNumbers`. */
  function Renumbered(s: seq<StepElement>): (r: seq<StepElement>)
    ensures |r| == |s|
    ensures forall i :: 0 <= i < |s| ==> r[i] == Renumber(s[i], i)
  {
    seq(|s|, i requires 0 <= i < |s| => Renumber(s[i], i))
  }

  /** Only the first step of the list lacks a remove button. */
  predicate RemoveButtonsAfterFirst(s: seq<StepElement>) {
    forall i :: 0 <= i < |s| ==> (s[i].hasRemove <==> i > 0)
  }

  /** The shape the builder keeps: the step at index `i` is numbered and titled
      `i + 1` everywhere it shows its number, and it shows a remove button exactly
      when it is not the first. */
  predicate ValidSteps(s: seq<StepElement>) {
    && RemoveButtonsAfterFirst(s)
    && forall i :: 0 <= i < |s| ==>
      && s[i].dataStep == i + 1
      && s[i].numberText == NatToString(i + 1)
      && s[i].titleText == StepTitle(i + 1)
      && (s[i].hasRemove ==> s[i].removeShown)
  }

  /** Whether a step's remove control can be seen. */
  predicate RemoveVisible(e: StepElement) {
    e.hasRemove && e.removeShown
  }

  /** In a builder of that shape only step 1 has no visible remove control. */
  lemma OnlyFirstStepLacksRemove(s: seq<StepElement>, i: nat)
    requires ValidSteps(s) && i < |s|
    ensures RemoveVisible(s[i]) <==> i > 0
  {
  }

  /** Renumbering yields that shape whenever the remove buttons are right. */
  lemma {:induction false} RenumberedIsValid(s: seq<StepElement>)
    requires RemoveButtonsAfterFirst(s)
    ensures ValidSteps(Renumbered(s))
  {
    var r := Renumbered(s);
    forall i | 0 <= i < |r| ensures r[i].hasRemove <==> i > 0 {
      assert r[i].hasRemove == s[i].hasRemove;
    }
  }

  /** Appending a new step keeps the remove buttons right. */
  lemma {:induction false} AppendKeepsButtons(s: seq<StepElement>)
    requires RemoveButtonsAfterFirst(s)
    ensures RemoveButtonsAfterFirst(s + [NewStep(|s| + 1)])
  {
    var t := s + [NewStep(|s| + 1)];
    forall i | 0 <= i < |t| ensures t[i].hasRemove <==> i > 0 {
      if i < |s| {
        assert t[i] == s[i];
      }
    }
  }

  /** Removing a step that has a remove button, which is never the first, keeps the
      remove buttons right. */
  lemma {:induction false} RemoveKeepsButtons(s: seq<StepElement>, k: nat)
    requires RemoveButtonsAfterFirst(s) && k < |s| && s[k].hasRemove
    ensures RemoveButtonsAfterFirst(s[..k] + s[k + 1..])
  {
    var t := s[..k] + s[k + 1..];
    forall i | 0 <= i < |t| ensures t[i].hasRemove <==> i > 0 {
      if i < k {
        assert t[i] == s[i];
      } else {
        assert t[i] == s[i + 1];
      }
    }
  }

  /** The record `collectWorkflowSteps` makes of the step at index `i`: its order is
      its position from 1 and a blank timeout becomes 24 hours. */
  function StepData(e: StepElement, i: nat): (w: WorkflowStep)
    ensures w.order == i + 1
    ensures w.name == e.name && w.approverRole == e.approverRole && w.approvalType == e.approvalType
    ensures e.timeout == "" ==> w.timeout == Num(24)
    ensures e.timeout != "" ==> w.timeout == Str(e.timeout)
  {
    WorkflowStep(i + 1, e.name, e.approverRole, e.approvalType, if e.timeout == "" then Num(24) else Str(e.timeout))
  }

  /** The steps' data in list order. */
  function StepRecords(s: seq<StepElement>): (r: seq<WorkflowStep>)
    ensures |r| == |s|
    ensures forall i :: 0 <= i < |s| ==> r[i] == StepData(s[i], i)
  {
    seq(|s|, i requires 0 <= i < |s| => StepData(s[i], i))
  }

  /** The steps of the workflow form, in document order. */
  class WorkflowBuilder {
    var steps: seq<StepElement>

    predicate Valid()
      reads this
    {
      ValidSteps(steps)
    }

    constructor ()
      ensures steps == [] && Valid()
    {
      steps := [];
    }

    /** `initializeWorkflowSteps()`: the list is emptied and one step added. */
    method Initialize()
      modifies this
      ensures steps == Renumbered([NewStep(1)]) && Valid()
    {
      steps := [];
      AddStep();
    }

    /** `addWorkflowStep()`: a fresh step joins the end, then all are renumbered. */
    method AddStep()
      requires Valid()
      modifies this
      ensures steps == Renumbered(old(steps) + [NewStep(|old(steps)| + 1)])
      ensures Valid() && |steps| == |old(steps)| + 1
    {
      AppendKeepsButtons(steps);
      steps := steps + [NewStep(|steps| + 1)];
      RenumberedIsValid(steps);
      UpdateStepNumbers();
    }

    /** `removeWorkflowStep(button)` for the remove button of the step at index `k`. */
    method RemoveStep(k: nat)
      requires Valid() && k < |steps| && steps[k].hasRemove
      modifies this
      ensures steps == Renumbered(old(steps)[..k] + old(steps)[k + 1..])
      ensures Valid() && |steps| == |old(steps)| - 1
    {
      RemoveKeepsButtons(steps, k);
      steps := steps[..k] + steps[k + 1..];
      RenumberedIsValid(steps);
      UpdateStepNumbers();
    }

    /** `updateStepNumbers()`: each step is given its position from 1, and a step's
        remove button is hidden exactly when the step is first. */
    method UpdateStepNumbers()
      modifies this
      ensures steps == Renumbered(old(steps))
    {
      var i := 0;
      while i < |steps|
        invariant 0 <= i <= |steps| && |steps| == |old(steps)|
        invariant forall j :: 0 <= j < i ==> steps[j] == Renumber(old(steps)[j], j)
        invariant forall j :: i <= j < |steps| ==> steps[j] == old(steps)[j]
      {
        var stepNumber := i + 1;
        var step := steps[i];
        step := step.(dataStep := stepNumber, numberText := NatToString(stepNumber), titleText := StepTitle(stepNumber));
        if step.hasRemove {
          step := step.(removeShown := stepNumber != 1);
        }
        steps := steps[i := step];
        i := i + 1;
      }
    }

    /** The user filling in the inputs of the step at index `k`. */
    method FillStep(k: nat, name: string, approverRole: string, approvalType: string, timeout: string)
      requires k < |steps|
      modifies this
      ensures steps == old(steps)[k := old(steps)[k].(name := name, approverRole := approverRole,
        approvalType := approvalType, timeout := timeout)]
      ensures old(Valid()) ==> Valid()
    {
      steps := steps[k := steps[k].(name := name, approverRole := approverRole,
        approvalType := approvalType, timeout := timeout)];
    }

    /** `collectWorkflowSteps()`. */
    method CollectSteps() returns (collected: seq<WorkflowStep>)
      ensures |collected| == |steps|
      ensures forall i :: 0 <= i < |steps| ==> collected[i] == StepData(steps[i], i)
    {
      collected := [];
      var i := 0;
      while i < |steps|
        invariant 0 <= i <= |steps| && |collected| == i
        invariant forall j :: 0 <= j < i ==> collected[j] == StepData(steps[j], j)
      {
        var step := steps[i];
        var timeout := if step.timeout == "" then Num(24) else Str(step.timeout);
        collected := collected + [WorkflowStep(i + 1, step.name, step.approverRole, step.approvalType, timeout)];
        i := i + 1;
      }
    }

    /** `closeCreateWorkflowModal()` empties the step list. */
    method Close()
      modifies this
      ensures steps == [] && Valid()
    {
      steps := [];
    }
  }

  // ---------------------------------------------------------------- saving

  /** `formData.get(key) || fallback`: the entry, or the number when the entry is
      missing or empty. */
  function GetOr(entries: map<string, string>, key: string, fallback: int): (v: FormValue)
    ensures key in entries && entries[key] != "" ==> v == Str(entries[key])
    ensures !(key in entries && entries[key] != "") ==> v == Num(fallback)
  {
    if key in entries && entries[key] != "" then Str(entries[key]) else Num(fallback)
  }

  /** `collectWorkflowConditions(formData)`: a checkbox counts as ticked when the form
      has its entry; the limit falls back to 0 and the escalation time to 24. */
  function CollectConditions(entries: map<string, string>): (c: Conditions)
    ensures c.autoApprove <==> "autoApprove" in entries
    ensures c.escalationEnabled <==> "escalationEnabled" in entries
    ensures c.autoApproveLimit == GetOr(entries, "autoApproveLimit", 0)
    ensures c.escalationTime == GetOr(entries, "escalationTime", 24)
  {
    Conditions("autoApprove" in entries, GetOr(entries, "autoApproveLimit", 0),
      "escalationEnabled" in entries, GetOr(entries, "escalationTime", 24))
  }

  /** `collectNotificationSettings(formData)`. */
  function CollectNotifications(entries: map<string, string>): (n: NotificationSettings)
    ensures n.notifySubmitter <==> "notifySubmitter" in entries
    ensures n.notifyApprovers <==> "notifyApprovers" in entries
    ensures n.notifyManager <==> "notifyManager" in entries
  {
    NotificationSettings("notifySubmitter" in entries, "notifyApprovers" in entries, "notifyManager" in entries)
  }

  /** The record saved for the form, with the given status, identifier, clock reading
      and author. */
  function WorkflowOf(entries: map<string, string>, steps: seq<WorkflowStep>, status: string,
                      id: string, createdAt: int, createdBy: Option<string>): Workflow
  {
    Workflow(id, GetItem(entries, "workflowName"), GetItem(entries, "workflowCategory"),
      GetItem(entries, "workflowDescription"), GetItem(entries, "workflowPriority"), GetItem(entries, "workflowSLA"),
      status, steps, CollectConditions(entries), CollectNotifications(entries), createdAt, createdBy)
  }

  /** The list `saveWorkflowDraft` stores back under `workflowDrafts`: the draft is
      appended whatever the form holds; only an unreadable stored list stops it. */
  function DraftList(stored: Option<Value>, entries: map<string, string>, steps: seq<WorkflowStep>,
                     id: string, now: int): (r: Option<seq<Record>>)
    ensures r.Some? <==> Pushed(stored, WorkflowRecord(WorkflowOf(map[], [], "draft", "", 0, None))).Some?
    ensures r.Some? ==> |r.value| == |ListOf(stored)| + 1 && r.value[..|ListOf(stored)|] == ListOf(stored)
    ensures r.Some? ==> var last := r.value[|ListOf(stored)|];
      last.WorkflowRecord? && last.workflow.status == "draft" && last.workflow.createdBy.None?
      && last.workflow.steps == steps && last.workflow.name == GetItem(entries, "workflowName")
  {
    Pushed(stored, WorkflowRecord(WorkflowOf(entries, steps, "draft", id, now, None)))
  }

  /** Whether `handleWorkflowCreation` goes ahead: a non-empty name and category and at
      least one step. */
  predicate CreationAccepted(entries: map<string, string>, steps: seq<WorkflowStep>) {
    && "workflowName" in entries && entries["workflowName"] != ""
    && "workflowCategory" in entries && entries["workflowCategory"] != ""
    && |steps| > 0
  }

  /** The list `handleWorkflowCreation` stores back under `workflows`, or `None` when it
      stores nothing: a refused form, or an unreadable stored list. */
  function CreatedList(stored: Option<Value>, entries: map<string, string>, steps: seq<WorkflowStep>,
                       id: string, now: int): (r: Option<seq<Record>>)
    ensures r.Some? ==> CreationAccepted(entries, steps)
    ensures CreationAccepted(entries, steps) && (stored.None? || stored.value.RecordList?) ==> r.Some?
    ensures r.Some? ==> |r.value| == |ListOf(stored)| + 1 && r.value[..|ListOf(stored)|] == ListOf(stored)
    ensures r.Some? ==> var last := r.value[|ListOf(stored)|];
      last.WorkflowRecord? && last.workflow.status == "active" && last.workflow.createdBy == Some("Admin User")
      && last.workflow.steps == steps && last.workflow.name == GetItem(entries, "workflowName")
  {
    if !CreationAccepted(entries, steps) then None
    else Pushed(stored, WorkflowRecord(WorkflowOf(entries, steps, "active", id, now, Some("Admin User"))))
  }

  /** Whether a draft is saved depends on nothing but the stored list. */
  lemma DraftSavedRegardlessOfForm(stored: Option<Value>, e1: map<string, string>, s1: seq<WorkflowStep>,
                                   e2: map<string, string>, s2: seq<WorkflowStep>, id1: string, id2: string, t1: int, t2: int)
    ensures DraftList(stored, e1, s1, id1, t1).Some? == DraftList(stored, e2, s2, id2, t2).Some?
  {
  }

  /** A form without a name, or with the name input left empty, is refused whatever the
      stored list, even where a draft of it is saved. */
  lemma NamelessFormIsOnlyADraft(stored: Option<Value>, entries: map<string, string>, steps: seq<WorkflowStep>,
                                 id: string, now: int)
    requires "workflowName" !in entries || entries["workflowName"] == ""
    ensures CreatedList(stored, entries, steps, id, now).None?
    ensures DraftList(None, entries, steps, id, now).Some?
  {
  }

  /** `saveWorkflowDraft()` at clock reading `now`, `id` standing for the generated draft
      identifier. */
  method SaveWorkflowDraft(stores: Stores, builder: WorkflowBuilder, entries: map<string, string>, id: string, now: int)
    returns (saved: bool)
    modifies stores
    ensures saved == DraftList(GetItem(old(stores.local), WorkflowDraftsKey), entries, StepRecords(builder.steps), id, now).Some?
    ensures saved ==> stores.local == old(stores.local)[WorkflowDraftsKey :=
      RecordList(DraftList(GetItem(old(stores.local), WorkflowDraftsKey), entries, StepRecords(builder.steps), id, now).value)]
    ensures !saved ==> stores.local == old(stores.local)
    ensures stores.session == old(stores.session)
  {
    var steps := builder.CollectSteps();
    assert steps == StepRecords(builder.steps);
    var draft := WorkflowOf(entries, steps, "draft", id, now, None);
    saved := stores.PushLocal(WorkflowDraftsKey, WorkflowRecord(draft));
  }

  /** `handleWorkflowCreation()` at clock reading `now`, `id` standing for the
      generated workflow identifier. */
  method HandleWorkflowCreation(stores: Stores, builder: WorkflowBuilder, entries: map<string, string>, id: string, now: int)
    returns (created: bool)
    modifies stores
    ensures created == CreatedList(GetItem(old(stores.local), WorkflowsKey), entries, StepRecords(builder.steps), id, now).Some?
    ensures created ==> stores.local == old(stores.local)[WorkflowsKey :=
      RecordList(CreatedList(GetItem(old(stores.local), WorkflowsKey), entries, StepRecords(builder.steps), id, now).value)]
    ensures !created ==> stores.local == old(stores.local)
    ensures stores.session == old(stores.session)
  {
    var steps := builder.CollectSteps();
    assert steps == StepRecords(builder.steps);
    var name := GetItem(entries, "workflowName");
    var category := GetItem(entries, "workflowCategory");
    if name.None? || name.value == "" || category.None? || category.value == "" || |steps| == 0 {
      return false;
    }
    var workflow := WorkflowOf(entries, steps, "active", id, now, Some("Admin User"));
    created := stores.PushLocal(WorkflowsKey, WorkflowRecord(workflow));
  }
}
