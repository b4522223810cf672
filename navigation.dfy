/** Role-based gating of the main page's sections. A section element may carry a
    `data-roles` attribute listing, comma-separated, the roles allowed to see it. */
module Navigation {
  import opened Options
  import opened JsText

  /** An element found by `document.getElementById`: its `data-roles` attribute,
      `None` when the attribute is absent. */
  datatype SectionElement = SectionElement(dataRoles: Option<string>)

  /** `getDefaultSectionForRole(role)`: guests start at the guest house, every other
      role, a missing one included, at the dashboard. */
  function DefaultSectionForRole(role: Option<string>): (section: string)
    ensures role == Some("guest") ==> section == "guesthouse"
    ensures role != Some("guest") ==> section == "dashboard"
  {
    match role
    case Some("guest") => "guesthouse"
    case _ => "dashboard"
  }

  /** A string JavaScript treats as true: present and not empty. */
  predicate Truthy(s: Option<string>) {
    s.Some? && s.value != []
  }

  /** The condition under which `showSection` sends the user elsewhere: the requested
      element exists, its role list is not empty, the user has a role, and that role
      is none of the list's comma-separated entries. */
  predicate Redirects(sections: map<string, SectionElement>, requested: string, role: Option<string>) {
    && requested in sections
    && Truthy(sections[requested].dataRoles)
    && Truthy(role)
    && role.value !in Split(sections[requested].dataRoles.value, ',')
  }

  /** The section `showSection(requested)` ends up showing. The role's default
      section is shown without being checked against its own role list. */
  function TargetSection(sections: map<string, SectionElement>, requested: string, role: Option<string>): (target: string)
    ensures Redirects(sections, requested, role) ==> target == DefaultSectionForRole(role)
    ensures !Redirects(sections, requested, role) ==> target == requested
  {
    if Redirects(sections, requested, role) then DefaultSectionForRole(role) else requested
  }

  /** `updatePageTitle(section)`. */
  function PageTitle(section: string): (title: string)
    ensures section == "dashboard" ==> title == "Dashboard - Community Hub"
    ensures section == "transport" ==> title == "Transport Services - Community Hub"
    ensures section == "guesthouse" ==> title == "Guest House - Community Hub"
    ensures section == "services" ==> title == "Residence Services - Community Hub"
    ensures section == "admin" ==> title == "Admin Dashboard - Community Hub"
    ensures section !in {"dashboard", "transport", "guesthouse", "services", "admin"} ==> title == "Community Hub"
  {
    match section
    case "dashboard" => "Dashboard - Community Hub"
    case "transport" => "Transport Services - Community Hub"
    case "guesthouse" => "Guest House - Community Hub"
    case "services" => "Residence Services - Community Hub"
    case "admin" => "Admin Dashboard - Community Hub"
    case _ => "Community Hub"
  }

  /** What the page shows after `showSection`: the one section marked active (none
      when the target has no element) and the document title. */
  datatype Display = Display(active: Option<string>, title: string)

  /** `showSection(requested)` for a user whose role is `role`: every section is
      deactivated, then the target (if it exists) is activated and titled. */
  function ShowSection(sections: map<string, SectionElement>, requested: string, role: Option<string>): (d: Display)
    ensures var target := TargetSection(sections, requested, role);
      && (d.active.Some? <==> target in sections)
      && (d.active.Some? ==> d.active.value == target)
      && d.title == PageTitle(target)
  {
    var target := TargetSection(sections, requested, role);
    Display(if target in sections then Some(target) else None, PageTitle(target))
  }

  /** Without a role, `showSection` never redirects. */
  lemma NoRoleNoRedirect(sections: map<string, SectionElement>, requested: string, role: Option<string>)
    requires !Truthy(role)
    ensures TargetSection(sections, requested, role) == requested
  {
  }

  /** A section without a role list is open to every role. */
  lemma UnrestrictedSectionIsOpen(sections: map<string, SectionElement>, requested: string, role: Option<string>)
    requires requested in sections && !Truthy(sections[requested].dataRoles)
    ensures TargetSection(sections, requested, role) == requested
  {
  }

  /** A role named in the section's comma-separated role list sees the section. */
  lemma {:induction false} ListedRoleStays(sections: map<string, SectionElement>, requested: string, roles: seq<string>, k: nat)
    requires 0 <= k < |roles|
    requires forall i :: 0 <= i < |roles| ==> ',' !in roles[i]
    requires requested in sections && sections[requested].dataRoles == Some(Join(roles, ','))
    ensures TargetSection(sections, requested, Some(roles[k])) == requested
  {
    SplitJoin(roles, ',');
    assert roles[k] in Split(Join(roles, ','), ',');
  }

  /** A role missing from a section's non-empty role list is sent to its own default
      section. */
  lemma {:induction false} UnlistedRoleIsRedirected(sections: map<string, SectionElement>, requested: string, roles: seq<string>, role: string)
    requires |roles| >= 1 && forall i :: 0 <= i < |roles| ==> ',' !in roles[i]
    requires Join(roles, ',') != [] && role != [] && role !in roles
    requires requested in sections && sections[requested].dataRoles == Some(Join(roles, ','))
    ensures TargetSection(sections, requested, Some(role)) == DefaultSectionForRole(Some(role))
  {
    SplitJoin(roles, ',');
  }
}
