/** The administrators' ticket list. Each ticket shows a status label (its text and
    the class of the `.status` element) and a row of action buttons. The actions
    overwrite the label whatever it showed before: no current status is checked. */
module Tickets {
  import opened Options

  /** The buttons an action puts in a ticket's `.ticket-actions` row. */
  datatype Button = AssignToTeamButton | ViewDetailsButton | ReopenButton | MarkInProgressButton

  datatype Ticket = Ticket(statusText: string, statusClass: string, actions: seq<Button>)

  /** An administrator's action with the answer it collects: the `confirm` answer of a
      rejection, the `prompt` answer of an information request (`None` when cancelled). */
  datatype AdminAction =
    | Approve
    | Reject(confirmed: bool)
    | RequestMoreInfo(answer: Option<string>)
    | AssignToTeam(teamType: string)
    | UpdateStatus(newStatus: string)

  /** The team `assignToTeam` names in its notification. */
  function TeamName(teamType: string): (name: string)
    ensures teamType == "transport" ==> name == "Transport Team"
    ensures teamType == "guesthouse" ==> name == "Guest House Team"
    ensures teamType == "maintenance" ==> name == "Maintenance Team"
    ensures teamType == "registration" ==> name == "HR Team"
    ensures teamType !in {"transport", "guesthouse", "maintenance", "registration"} ==> name == "General Team"
  {
    match teamType
    case "transport" => "Transport Team"
    case "guesthouse" => "Guest House Team"
    case "maintenance" => "Maintenance Team"
    case "registration" => "HR Team"
    case _ => "General Team"
  }

  /** The notification `assignToTeam(id, teamType)` shows. */
  function AssignedNotice(id: string, teamType: string): string {
    "Ticket " + id + " assigned to " + TeamName(teamType)
  }

  /** Whether an action changes a ticket at all: a rejection only when confirmed, an
      information request only with a non-empty answer, a status update only to one of
      the three statuses the update knows. */
  predicate Effective(a: AdminAction) {
    match a
    case Approve => true
    case Reject(confirmed) => confirmed
    case RequestMoreInfo(answer) => answer.Some? && answer.value != []
    case AssignToTeam(_) => true
    case UpdateStatus(s) => s in {"in-progress", "completed", "on-hold"}
  }

  /** The ticket after an action. */
  function Apply(t: Ticket, a: AdminAction): (u: Ticket)
    ensures !Effective(a) ==> u == t
    ensures a.RequestMoreInfo? || a.UpdateStatus? ==> u.actions == t.actions
  {
    if !Effective(a) then t
    else match a
      case Approve => Ticket("Approved", "status confirmed", [AssignToTeamButton, ViewDetailsButton])
      case Reject(_) => Ticket("Rejected", "status unavailable", [ViewDetailsButton, ReopenButton])
      case RequestMoreInfo(_) => t.(statusText := "Info Required", statusClass := "status warning")
      case AssignToTeam(_) => Ticket("Assigned", "status in-progress", [MarkInProgressButton, ViewDetailsButton])
      case UpdateStatus(s) =>
        match s
        case "in-progress" => t.(statusText := "In Progress", statusClass := "status in-progress")
        case "completed" => t.(statusText := "Completed", statusClass := "status completed")
        case _ => t.(statusText := "On Hold", statusClass := "status warning")
  }

  /** An effective action sets the same label on every ticket, whatever its current
      status, and the same buttons except where it keeps the existing ones. */
  lemma {:induction false} LabelIgnoresCurrentStatus(t1: Ticket, t2: Ticket, a: AdminAction)
    requires Effective(a)
    ensures Apply(t1, a).statusText == Apply(t2, a).statusText
    ensures Apply(t1, a).statusClass == Apply(t2, a).statusClass
    ensures !(a.RequestMoreInfo? || a.UpdateStatus?) ==> Apply(t1, a).actions == Apply(t2, a).actions
  {
    match a
    case Approve =>
    case Reject(_) =>
    case RequestMoreInfo(_) =>
    case AssignToTeam(_) =>
    case UpdateStatus(s) =>
  }

  /** The labels, read off the action alone. */
  lemma ActionLabels(t: Ticket, a: AdminAction)
    ensures a == Approve ==> Apply(t, a).statusText == "Approved" && Apply(t, a).statusClass == "status confirmed"
    ensures a == Reject(true) ==> Apply(t, a).statusText == "Rejected" && Apply(t, a).statusClass == "status unavailable"
    ensures a.RequestMoreInfo? && Effective(a) ==> Apply(t, a).statusText == "Info Required" && Apply(t, a).statusClass == "status warning"
    ensures a.AssignToTeam? ==> Apply(t, a).statusText == "Assigned" && Apply(t, a).statusClass == "status in-progress"
    ensures a == UpdateStatus("in-progress") ==> Apply(t, a).statusText == "In Progress" && Apply(t, a).statusClass == "status in-progress"
    ensures a == UpdateStatus("completed") ==> Apply(t, a).statusText == "Completed" && Apply(t, a).statusClass == "status completed"
    ensures a == UpdateStatus("on-hold") ==> Apply(t, a).statusText == "On Hold" && Apply(t, a).statusClass == "status warning"
  {
  }

  /** A rejected ticket can be approved again, and an approved one rejected: the
      actions do not form a one-way progression. */
  lemma NoTransitionGuard(t: Ticket)
    ensures Apply(Apply(t, Reject(true)), Approve).statusText == "Approved"
    ensures Apply(Apply(t, Approve), Reject(true)).statusText == "Rejected"
    ensures Apply(Apply(t, UpdateStatus("completed")), UpdateStatus("in-progress")).statusText == "In Progress"
  {
  }

  /** The ticket list after an action on the ticket `id`; an id with no ticket element
      changes nothing. */
  function Acted(tickets: map<string, Ticket>, id: string, a: AdminAction): (r: map<string, Ticket>)
    ensures r.Keys == tickets.Keys
    ensures id in tickets ==> r[id] == Apply(tickets[id], a)
    ensures forall other :: other in tickets && other != id ==> r[other] == tickets[other]
  {
    if id in tickets then tickets[id := Apply(tickets[id], a)] else tickets
  }

  /** The tickets on the administrators' page, by `data-ticket` id. */
  class TicketBoard {
    var tickets: map<string, Ticket>

    constructor (tickets0: map<string, Ticket>)
      ensures tickets == tickets0
    {
      tickets := tickets0;
    }

    /** `approveTicket(id)`. */
    method ApproveTicket(id: string)
      modifies this
      ensures tickets == Acted(old(tickets), id, Approve)
    {
      if id !in tickets {
        return;
      }
      tickets := tickets[id := Ticket("Approved", "status confirmed", [AssignToTeamButton, ViewDetailsButton])];
    }

    /** `rejectTicket(id)`, `confirmed` being the answer to its `confirm` dialog. */
    method RejectTicket(id: string, confirmed: bool)
      modifies this
      ensures tickets == Acted(old(tickets), id, Reject(confirmed))
    {
      if !confirmed || id !in tickets {
        return;
      }
      tickets := tickets[id := Ticket("Rejected", "status unavailable", [ViewDetailsButton, ReopenButton])];
    }

    /** `requestMoreInfo(id)`, `answer` being what its `prompt` returned. */
    method RequestMoreInfo(id: string, answer: Option<string>)
      modifies this
      ensures tickets == Acted(old(tickets), id, AdminAction.RequestMoreInfo(answer))
    {
      if answer.None? || answer.value == [] || id !in tickets {
        return;
      }
      tickets := tickets[id := tickets[id].(statusText := "Info Required", statusClass := "status warning")];
    }

    /** `assignToTeam(id, teamType)`; `notice` is the notification shown, if any. */
    method AssignToTeam(id: string, teamType: string) returns (notice: Option<string>)
      modifies this
      ensures tickets == Acted(old(tickets), id, AdminAction.AssignToTeam(teamType))
      ensures notice.Some? <==> id in old(tickets)
      ensures notice.Some? ==> notice.value == AssignedNotice(id, teamType)
    {
      var teamName := TeamName(teamType);
      if id !in tickets {
        return None;
      }
      tickets := tickets[id := Ticket("Assigned", "status in-progress", [MarkInProgressButton, ViewDetailsButton])];
      notice := Some("Ticket " + id + " assigned to " + teamName);
    }

    /** `updateTicketStatus(id, newStatus)`. */
    method UpdateTicketStatus(id: string, newStatus: string)
      modifies this
      ensures tickets == Acted(old(tickets), id, UpdateStatus(newStatus))
    {
      if id !in tickets {
        return;
      }
      var t := tickets[id];
      if newStatus == "in-progress" {
        tickets := tickets[id := t.(statusText := "In Progress", statusClass := "status in-progress")];
      } else if newStatus == "completed" {
        tickets := tickets[id := t.(statusText := "Completed", statusClass := "status completed")];
      } else if newStatus == "on-hold" {
        tickets := tickets[id := t.(statusText := "On Hold", statusClass := "status warning")];
      }
    }
  }
}
