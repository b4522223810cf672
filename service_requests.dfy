/** The residence-service request form: which required entries are missing, and the
    request that is added to the top of the page's request list when none is. */
module ServiceRequests {
  import opened Options

  /** The entries the request copies from the form. */
  const RequestEntries := ["serviceType", "problemDescription", "urgencyLevel", "buildingName",
    "apartmentNumber", "residentName", "contactNumber", "alternateContact", "preferredTime",
    "accessInstructions"]

  /** The entries that must not be empty, in the order they are checked. */
  const RequiredFields := ["problemDescription", "urgencyLevel", "buildingName",
    "apartmentNumber", "residentName", "contactNumber"]

  /** An entry is missing when the form has no such entry or it is empty. Unlike the
      login page's check, nothing is trimmed. */
  predicate Missing(form: map<string, string>, name: string) {
    name !in form || form[name] == []
  }

  /** Whether `a` is `b` with some elements left out, the rest in their order. */
  predicate SubsequenceOf(a: seq<string>, b: seq<string>) {
    if a == [] then true
    else if b == [] then false
    else if a[0] == b[0] then SubsequenceOf(a[1..], b[1..])
    else SubsequenceOf(a, b[1..])
  }

  /** `requiredFields.filter(field => !requestData[field])`. */
  function MissingFields(form: map<string, string>, required: seq<string>): (missing: seq<string>)
    ensures forall n :: n in missing <==> n in required && Missing(form, n)
    ensures SubsequenceOf(missing, required)
  {
    if required == [] then []
    else
      var rest := MissingFields(form, required[1..]);
      if Missing(form, required[0]) then [required[0]] + rest else rest
  }

  /** A submitted request as it is added to the list. */
  datatype ServiceRequest = ServiceRequest(data: map<string, Option<string>>, requestId: string, status: string)

  datatype Submission = Refused(missing: seq<string>) | Accepted(request: ServiceRequest)

  /** The `requestData` object: every one of the ten entry names, each holding the
      form's entry, or `None` (`null`) where the form has none. */
  function RequestData(form: map<string, string>): (data: map<string, Option<string>>)
    ensures forall n :: n in data <==> n in RequestEntries
    ensures forall n :: n in data ==> (data[n].Some? <==> n in form)
    ensures forall n :: n in data && n in form ==> data[n] == Some(form[n])
  {
    map n | n in RequestEntries :: if n in form then Some(form[n]) else None
  }

  /** The filter's test `!requestData[field]`: a required entry is missing exactly when
      the copied value is `null` or empty. */
  lemma MissingIsFalsyEntry(form: map<string, string>, name: string)
    requires name in RequiredFields
    ensures name in RequestData(form)
    ensures Missing(form, name) <==> RequestData(form)[name] == None || RequestData(form)[name] == Some("")
  {
  }

  /** `handleServiceRequestSubmission`: refused, with the missing entries in the order
      of the required list, exactly when some required entry is missing; otherwise a
      pending request under `requestId`, which stands for the generated identifier. */
  function Submit(form: map<string, string>, requestId: string): (s: Submission)
    ensures s.Refused? <==> exists n :: n in RequiredFields && Missing(form, n)
    ensures s.Refused? ==> SubsequenceOf(s.missing, RequiredFields) && s.missing != []
    ensures s.Refused? ==> forall n :: n in s.missing <==> n in RequiredFields && Missing(form, n)
    ensures s.Accepted? ==> s.request.status == "pending" && s.request.requestId == requestId
    ensures s.Accepted? ==> s.request.data == RequestData(form)
  {
    var missing := MissingFields(form, RequiredFields);
    if |missing| > 0 then
      assert missing[0] in missing;
      Refused(missing)
    else Accepted(ServiceRequest(RequestData(form), requestId, "pending"))
  }

  /** A list of entries none of which is missing yields no missing entry. */
  lemma NothingMissing(form: map<string, string>, required: seq<string>)
    requires forall k :: 0 <= k < |required| ==> !Missing(form, required[k])
    ensures MissingFields(form, required) == []
  {
  }

  /** When `name` is a list's only missing entry and the list has no repeats, the
      missing entries are `name` alone. */
  lemma {:induction false} OnlyMissingEntry(form: map<string, string>, required: seq<string>, name: string)
    requires name in required && Missing(form, name)
    requires forall k :: 0 <= k < |required| && required[k] != name ==> !Missing(form, required[k])
    requires forall i, j :: 0 <= i < j < |required| ==> required[i] != required[j]
    ensures MissingFields(form, required) == [name]
  {
    var rest := required[1..];
    assert forall k :: 0 <= k < |rest| ==> rest[k] == required[k + 1];
    if required[0] == name {
      NothingMissing(form, rest);
    } else {
      OnlyMissingEntry(form, rest, name);
    }
  }

  /** No entry is required twice. */
  lemma RequiredFieldsDistinct()
    ensures forall i, j :: 0 <= i < j < |RequiredFields| ==> RequiredFields[i] != RequiredFields[j]
  {
  }

  /** A form that leaves out one required entry and fills in all the others is refused
      for that entry alone. */
  lemma OneMissingEntryIsNamed(form: map<string, string>, requestId: string, name: string)
    requires name in RequiredFields && Missing(form, name)
    requires forall n :: n in RequiredFields && n != name ==> !Missing(form, n)
    ensures Submit(form, requestId) == Refused([name])
  {
    RequiredFieldsDistinct();
    OnlyMissingEntry(form, RequiredFields, name);
  }

  /** The page's list of submitted requests, newest first. */
  class RequestList {
    var items: seq<ServiceRequest>

    constructor ()
      ensures items == []
    {
      items := [];
    }

    /** Submitting the form: an accepted request goes to the top of the list. */
    method HandleSubmission(form: map<string, string>, requestId: string) returns (accepted: bool)
      modifies this
      ensures accepted == Submit(form, requestId).Accepted?
      ensures accepted ==> items == [Submit(form, requestId).request] + old(items)
      ensures !accepted ==> items == old(items)
    {
      var submission := Submit(form, requestId);
      accepted := submission.Accepted?;
      if accepted {
        items := [submission.request] + items;
      }
    }
  }
}
