# Community Services Platform — a verified model of its page logic

The platform is a browser application in two scripts.
- `login-script.js` runs the login page. It has sign-in with a fixed demo credential table, demo logins and employee and guest registration forms, and it stores the session in web storage.
- `script.js` runs the main page. It guards entry with a 24-hour session check and shows sections gated by role. It also runs the guest-house room cards, the administrators' ticket actions, the residence-service request form and the workflow builder.

Nearly everything in the scripts is DOM glue. This project lifts out the decisions the event handlers make and the state they change:
- The DOM elements they read and write become records and maps.
- `localStorage` and `sessionStorage` become two maps from key to stored value.
- The answers of `confirm` and `prompt` are parameters.

Modules:

- `Options`: the `Option` type used for `null`/`undefined`.
- `JsText`: the JavaScript string primitives the scripts rely on, with their edge cases. These are `trim` with JavaScript's white-space set, `split` on one character, and `parseInt` and printing a number, both for integers below 2^53.
- `WebStorage`: the two stores, the records kept in them, and the "read the list (or `'[]'`), push, write back" pattern.
- `FormValidation`: the login page's required-field check and its per-field check with the email and phone rules.
- `LoginPage`: the credential and role tables, building and storing the session record, demo logins, and the registration forms.
- `Navigation`: default sections, `data-roles` gating and page titles.
- `SessionGuard`: `checkAuthentication`, `clearSession`, and the role the main page reads.
- `Rooms`: the room-availability counter (class `RoomCard`).
- `Tickets`: the administrators' ticket actions (class `TicketBoard`).
- `ServiceRequests`: required-entry checking of service requests (class `RequestList`).
- `Workflows`: the step list of the workflow builder (class `WorkflowBuilder`), and saving workflows as drafts or as active definitions.

Where the code does something in place, the model is imperative. This covers the room card, the ticket list, the `validateRequiredFields` and `updateStepNumbers` loops, the step collection and the store writes. Each such method is tied to a function of the old state, and the properties are proved about those functions.

Where the design notes and the code disagree, the model follows the code:
- The ticket actions check no current status, and no transition table exists.
- Any action overwrites the label.
- Drafts are saved without validation.
- There is no auto-approval, escalation or conflict detection.

## Model

| member | source | states |
|---|---|---|
| JsText.Trim | login-script.js:295 | `trim()`: the leading cut followed by the trailing cut; what it returns is stated by TrimIsInnerSlice and TrimEmptyIff |
| JsText.TrimStart | login-script.js:295 | the result is a suffix of the input that is empty or starts with a non-white-space character |
| JsText.TrimStartDropsWhiteSpace | login-script.js:295 | every character the leading cut removes is white space |
| JsText.TrimEnd | login-script.js:295 | the result is a prefix of the input that is empty or ends with a non-white-space character |
| JsText.TrimEndDropsWhiteSpace | login-script.js:295 | every character the trailing cut removes is white space |
| JsText.TrimIsSlice | login-script.js:295 | `trim()` returns a contiguous slice of the input starting after its leading white space |
| JsText.TrimDropsWhiteSpace | login-script.js:295 | everything `trim()` cuts off at either end is white space |
| JsText.TrimEndsAreNotWhiteSpace | login-script.js:295 | a non-empty trimmed value neither starts nor ends with white space |
| JsText.TrimIsInnerSlice | login-script.js:295 | `trim()` returns a contiguous slice of the input, cut only where the input is white space, with no white space at either end |
| JsText.TrimEmptyIff | login-script.js:295 | a trimmed value is empty exactly when the input is all white space |
| JsText.Split | login-script.js:397 | `split(sep)` yields at least one piece, no piece holds the separator, and joining the pieces with it gives back the input |
| JsText.SplitJoin | script.js:81 | splitting a comma-join of comma-free entries returns exactly those entries |
| JsText.SplitNoSeparator | script.js:81 | a text without the separator splits into itself alone |
| JsText.SplitAfterPiece | login-script.js:397 | splitting `a + sep + t` gives `a` followed by the pieces of `t` |
| JsText.FirstPieceIsPrefix | login-script.js:397 | the first piece is a prefix of the input and is followed by the separator or by the end |
| JsText.FirstWord | script.js:301 | `split(' ')[0]`, the first piece of the space split; FirstWordOf states its value on a badge text |
| JsText.FirstWordOf | script.js:301 | the first space-separated word of `a + " " + t` is `a` when `a` has no space |
| JsText.NatToString | script.js:303 | a printed count is a non-empty run of decimal digits, with a leading zero only for 0 |
| JsText.DecimalValueOfNatToString | script.js:303 | reading a printed count's digits back gives the count |
| JsText.DigitPrefix | script.js:301 | the longest prefix of decimal digits |
| JsText.HexPrefix | script.js:301 | the longest prefix of hexadecimal digits |
| JsText.DigitPrefixOfDigits | script.js:301 | a run of decimal digits is read whole |
| JsText.ParseUnsignedOfDigits | script.js:301 | a run of decimal digits has no `0x` prefix and is read in base 10 |
| JsText.ParseInt | script.js:301 | `parseInt` without a radix: skip leading white space, take one sign, then read a `0x` hexadecimal run or a decimal run, NaN when no digit follows; the lemmas below state its values |
| JsText.ParseIntOfDigitStart | script.js:301 | a text starting with a digit has no white space or sign for `parseInt` to skip |
| JsText.ParseIntOfDigits | script.js:301 | `parseInt` of a non-empty run of decimal digits is the run's decimal value |
| JsText.ParseIntOfNatToString | script.js:301-303 | `parseInt` of a printed count returns the count |
| JsText.ParseIntWithoutDigits | script.js:301 | `parseInt` of a text starting with neither a sign, white space nor a digit is NaN |
| WebStorage.GetItem | login-script.js:411 | `getItem`, and `formData.get` on a form's entries, yield a value exactly when the key is present, and then the stored one |
| WebStorage.TruthyItem | script.js:1151 | a stored item counts as present for `\|\|` exactly when it is stored and not the empty string |
| WebStorage.Pushed | login-script.js:411-412 | reading `getItem(key) \|\| '[]'` and pushing succeeds exactly when the item is missing, empty or a list, and then yields the old list with the record appended |
| WebStorage.PushedAppendsOne | login-script.js:409-414 | a successful push lengthens the list by one, keeps every earlier record in place and puts the new one last |
| WebStorage.Stores.PushLocal | login-script.js:411-413 | writes the grown list back under the key when the push succeeds, and otherwise changes nothing; `sessionStorage` is untouched |
| FormValidation.HasContentIsNotAllWhiteSpace | login-script.js:295 | a value has content exactly when it is not all white space |
| FormValidation.Filled | login-script.js:295 | the required check's test on one field; FilledIsTrimmedNonEmpty shows it is `value.trim() !== ''` |
| FormValidation.FilledIsTrimmedNonEmpty | login-script.js:295 | a field passes the required check exactly when its trimmed value is not empty |
| FormValidation.MarkedGroup | login-script.js:295-312 | what one turn of the walk does to a group: an empty field adds `error` and, only when the group shows no message, the required message; a filled field drops `error` and its first message |
| FormValidation.MarkRequired | login-script.js:292-312 | marking a field leaves its type, required flag and value unchanged |
| FormValidation.MarkRequiredFlags | login-script.js:295-312 | an empty field gets the error class, and shows exactly the required message when it showed none and its own messages otherwise, so there is no duplicate marker; a filled field loses the error class and its first message, if it had one |
| FormValidation.MarkAll | login-script.js:291-313 | walking the list keeps every field and every value |
| FormValidation.MarkOneMore | login-script.js:291-313 | walking one more name marks that name's field once more |
| FormValidation.WalkStep | login-script.js:291-313 | one turn of the walk marks the next field once more and tests the value that field had on entry |
| FormValidation.MarkAllDistinct | login-script.js:291-313 | with no repeated name, each listed field ends marked once from its old state and every other field is unchanged |
| FormValidation.AllFilled | login-script.js:289-296 | the walk's `isValid` verdict, cleared by any unfilled field; AllFilledEach states it field by field |
| FormValidation.AllFilledEach | login-script.js:289-315 | the recursive "all filled" test holds exactly when every listed field is filled |
| FormValidation.Form.ValidateRequiredFields | login-script.js:288-316 | returns true exactly when every listed field's trimmed value is not empty, and leaves the fields as the walk marks them |
| FormValidation.IndexOf | login-script.js:361 | the position of the first occurrence of a character, or the length when there is none |
| FormValidation.IsValidEmail | login-script.js:360-361 | the direct email test: no white space, a single `@` not first, and a `.` with a character on each side after it; EmailTestIsPattern ties it to the pattern |
| FormValidation.EmailRunsCover | login-script.js:361 | every character of a pattern match other than its `@` and `.` is neither white space nor `@` |
| FormValidation.EmailTestMatchesPattern | login-script.js:360-361 | every string the direct test accepts matches the email pattern |
| FormValidation.EmailPatternPassesTest | login-script.js:360-361 | every string matching the email pattern passes the direct test |
| FormValidation.EmailTestIsPattern | login-script.js:360-361 | the direct test accepts exactly the strings matching `^[^\s@]+@[^\s@]+\.[^\s@]+$`: no white space, one `@` with something before it, and a domain with a `.` that is neither its first nor last character |
| FormValidation.StripPhoneSeparators | login-script.js:373 | what is left has no white space, `-`, `(` or `)` |
| FormValidation.StripConcat | login-script.js:373 | separators are removed piece by piece |
| FormValidation.IsValidPhone | login-script.js:372-373 | the direct phone test: an optional `+`, a first digit 1-9 and at most 16 digits in all; PhoneTestIsPattern ties it to the pattern |
| FormValidation.PhoneTestIsPattern | login-script.js:372-373 | the direct test accepts exactly the strings matching `^[\+]?[1-9][\d]{0,15}$` |
| FormValidation.StripKeepsPlainText | login-script.js:373 | a text without separators is left as it is |
| FormValidation.StripAroundSeparator | login-script.js:373 | a separator between two pieces disappears |
| FormValidation.StripSpacedGroups | login-script.js:373 | four separator-free groups joined by separators strip to the four groups joined directly |
| FormValidation.DemoPhoneDigitsValid | login-script.js:372-373 | `+12345678900` passes the phone test |
| FormValidation.DemoPhonePasses | login-script.js:493 | the demo number `+1 234 567 8900` passes the phone rule |
| FormValidation.FieldVerdict | login-script.js:336-390 | a missing required value fails exactly for a required field whose trimmed value is empty, and this is checked before any format rule; email and phone failures happen only for their field types |
| FormValidation.EmptyOptionalFieldIsValid | login-script.js:348-389 | an optional field with nothing but white space is valid |
| FormValidation.EmailFieldRule | login-script.js:359-368 | a filled email field is valid exactly when its trimmed value matches the email pattern |
| FormValidation.PhoneFieldRule | login-script.js:371-381 | a filled phone field is valid exactly when its trimmed value, separators removed, matches the phone pattern |
| FormValidation.ValidatedGroup | login-script.js:341-389 | a failing field's group shows `error` and not `success` and one new message; a valid field's group shows no `error`, and `success` exactly when the value is not blank |
| FormValidation.Form.ValidateField | login-script.js:336-390 | returns whether the field is valid and replaces its group by the validated group |
| LoginPage.ValidateLogin | login-script.js:265-275 | true exactly for the four listed email and password pairs; any other email is never valid |
| LoginPage.GetUserRole | login-script.js:277-286 | `admin` and `guest` for their two accounts, `employee` for every other email |
| LoginPage.SignedInAccountsHaveRoles | login-script.js:265-286 | every account that can sign in has its own entry in the role table |
| LoginPage.NewSession | login-script.js:393-400 | the record is authenticated and logged in now, and keeps the email and role; a missing or empty name becomes the part of the email before its first `@` |
| LoginPage.DefaultNameIsUser | login-script.js:396 | `user@domain` with no name gives the name `user` |
| LoginPage.StoreSession | login-script.js:393-407 | writes to `localStorage` when remember is set and to `sessionStorage` otherwise; the other store is not touched |
| LoginPage.HandleLogin | login-script.js:85-118 | stores a session for the email's role exactly when the credentials are valid; otherwise neither store changes |
| LoginPage.DemoAccountFor | login-script.js:122-126 | only `admin`, `employee` and `guest` have demo accounts, each with that role and credentials that sign in |
| LoginPage.DemoAccountsAgreeWithRoleTable | login-script.js:121-137 | each demo account's email maps to the same role in the role table |
| LoginPage.LoginAsDemo | login-script.js:121-137 | a demo role gets a session for its account in `sessionStorage`; any other role changes nothing |
| LoginPage.StoreRegistrationRequest | login-script.js:409-414 | the request is appended once at the end of `pendingRegistrations`, earlier ones unchanged |
| LoginPage.Entries | login-script.js:163-174 | the data holds exactly the listed entries the form has, with their values |
| LoginPage.EntriesDependOnValues | login-script.js:163-174 | the request data depends only on the fields' values, so marking the form before building the request does not change it |
| LoginPage.EmployeeRequest | login-script.js:160-179 | kind `registration`, subtype `employee`, title `Employee Registration - <name>`, status `pending`, priority `high` |
| LoginPage.GuestRequest | login-script.js:220-244 | kind `guesthouse`, subtype `guest_registration`, title `Guest Registration - <name>`, status `pending`, priority `high` |
| LoginPage.HandleEmployeeRegistration | login-script.js:140-198 | runs the required check on the six listed fields; stores the request only when all are filled |
| LoginPage.HandleGuestRegistration | login-script.js:200-261 | runs the required check on the eight listed fields; stores the request only when all are filled |
| Navigation.DefaultSectionForRole | script.js:36-45 | `guesthouse` for `guest` and `dashboard` for every other role, an absent one included |
| Navigation.Redirects | script.js:79-81 | the redirect condition: the section exists, has a non-empty `data-roles`, the role is present and not one of the comma-separated entries; the lemmas below state each case |
| Navigation.TargetSection | script.js:74-86 | the requested section unless the redirect condition holds, and the role's default section then |
| Navigation.PageTitle | script.js:105-115 | the five section titles, and `Community Hub` for anything else |
| Navigation.ShowSection | script.js:74-102 | exactly the target section is active when it exists, none otherwise, and the title is the target's |
| Navigation.NoRoleNoRedirect | script.js:81 | with no role, the requested section is shown |
| Navigation.UnrestrictedSectionIsOpen | script.js:79-81 | a section without a role list is shown to every role |
| Navigation.ListedRoleStays | script.js:81 | a role named in the section's list is shown the section |
| Navigation.UnlistedRoleIsRedirected | script.js:81-84 | a role missing from a non-empty list is sent to its default section |
| SessionGuard.StoredSession | script.js:1151 | the truthy `localStorage` session, else the `sessionStorage` one |
| SessionGuard.AuthVerdict | script.js:1150-1190 | admitted exactly when a stored session object is authenticated and at most 24 hours old; a missing login time never expires; no stored session is its own outcome |
| SessionGuard.Cleared | script.js:1243-1246 | the session key is gone and every other key is kept |
| SessionGuard.ClearSession | script.js:1243-1246 | removes the session from both stores |
| SessionGuard.CheckAuthentication | script.js:1150-1190 | true exactly when admitted; every failure except a missing session clears both stores |
| SessionGuard.DayBoundary | script.js:1170-1173 | exactly 24 hours after login is still valid, and one millisecond later is expired |
| SessionGuard.UnauthenticatedIsRejected | script.js:1160-1165 | a session not marked authenticated is rejected |
| SessionGuard.LoginIsAdmittedForADay | script.js:1150-1190 | a session the login page writes is admitted for 24 hours from its login time |
| SessionGuard.StoredRoleAsWritten | script.js:31-33 | the role item as the script reads it: the `sessionStorage` item's text when it is truthy, otherwise the `localStorage` item's, and none when neither is stored or non-empty |
| SessionGuard.GuestOpensAdminAsWritten | script.js:74-86 | after the guest demo login, the as-written role is missing and the guest is shown the admin section |
| SessionGuard.SessionRole | script.js:31-33 | the role recorded in the stored session object |
| SessionGuard.GuestKeptFromAdmin | script.js:74-86 | with the role read from the session, the same guest asking for the admin section is sent to the guest house |
| SessionGuard.LoginRoleIsRead | login-script.js:393-407 | the role a login stores is the role read back |
| SessionGuard.StartupDisplay | script.js:20-27 | for whatever role the page reads, it opens on that role's default section whatever the role lists say |
| SessionGuard.GuestStartsOnDashboardAsWritten | script.js:20-27 | as written, the role read after the guest demo login is missing, so the guest starts on the dashboard |
| SessionGuard.GuestStartsOnGuestHouse | script.js:20-27 | the corrected startup: with the role read from the session, the guest starts on the guest house |
| Rooms.BadgeCount | script.js:301 | `parseInt` of the badge text's first word, NaN as `None`; BadgeCountOfLeftText states its value on `n Left` |
| Rooms.Reserved | script.js:286-315 | a disabled button changes nothing; the button ends disabled exactly when a `limited` badge's count is not above 1; a card neither limited nor available is unchanged |
| Rooms.BadgeCountOfLeftText | script.js:301-303 | the count read from `n Left` is `n` |
| Rooms.AvailableBecomesOneLeft | script.js:311-314 | an available card becomes limited with `1 Left` |
| Rooms.LimitedCountsDown | script.js:300-303 | a limited card with `n > 1` left shows `n-1 Left` and keeps its button |
| Rooms.LastRoomMakesUnavailable | script.js:302-310 | the last room makes the card unavailable and disables the button |
| Rooms.UnreadableCountMakesUnavailable | script.js:300-310 | a limited badge with no readable count also makes the card unavailable |
| Rooms.RepeatCountsDown | script.js:286-315 | repeating a step that lowers a count by one and ends in a final state at 1 counts down from `n` to the final state in `n` steps |
| Rooms.RepeatFixedPoint | script.js:291-294 | repeating a step on a state the step leaves alone leaves it alone |
| Rooms.DisabledStaysPut | script.js:291-294 | a disabled card stays as it is however often it is clicked |
| Rooms.CountdownToUnavailable | script.js:286-315 | from `n Left`, `j < n` reservations leave `n-j Left` and `n` reservations leave the card unavailable |
| Rooms.RoomCard.Reserve | script.js:286-315 | updates the card in place to its reserved state; accepted exactly when the button was enabled |
| Tickets.TeamName | script.js:881-888 | the four team names, and `General Team` for any other type |
| Tickets.Effective | script.js:819-929 | which actions change a ticket: approval and assignment always, rejection only when confirmed, an information request only with a non-empty answer, a status update only for the three known statuses |
| Tickets.AssignedNotice | script.js:905 | the assignment notification text, naming the team TeamName gives |
| Tickets.Apply | script.js:819-929 | an ineffective action changes nothing; information requests and status updates keep the buttons |
| Tickets.LabelIgnoresCurrentStatus | script.js:819-929 | an effective action sets the same label whatever the ticket's current status |
| Tickets.ActionLabels | script.js:819-929 | Approved, Rejected, Info Required, Assigned, In Progress, Completed and On Hold with their classes |
| Tickets.NoTransitionGuard | script.js:819-929 | a rejected ticket can be approved, an approved one rejected, and a completed one set back in progress |
| Tickets.Acted | script.js:820-821 | only the addressed ticket changes, and an unknown id changes nothing |
| Tickets.TicketBoard.ApproveTicket | script.js:819-839 | the list after approving the ticket |
| Tickets.TicketBoard.RejectTicket | script.js:841-860 | the list after a confirmed rejection; unchanged when not confirmed |
| Tickets.TicketBoard.RequestMoreInfo | script.js:862-878 | the list after an information request; unchanged on an empty or cancelled prompt |
| Tickets.TicketBoard.AssignToTeam | script.js:880-909 | the list after assigning; the notice names the team of the type |
| Tickets.TicketBoard.UpdateTicketStatus | script.js:911-929 | the label changes only for `in-progress`, `completed` and `on-hold` |
| ServiceRequests.MissingFields | script.js:1733-1734 | the missing entries are exactly the required ones that are absent or empty, in the order of the required list |
| ServiceRequests.RequestData | script.js:1718-1729 | the request holds all ten listed entries, each the form's entry or `null` where the form has none |
| ServiceRequests.MissingIsFalsyEntry | script.js:1734 | a required entry counts as missing exactly when its copied value is `null` or empty |
| ServiceRequests.Submit | script.js:1715-1764 | refused exactly when some required entry is empty, with the entries it lacks; otherwise a pending request under the given id |
| ServiceRequests.NothingMissing | script.js:1733-1734 | a list none of whose entries is missing yields no missing entry |
| ServiceRequests.OnlyMissingEntry | script.js:1733-1734 | in a list without repeats whose only missing entry is `name`, the missing entries are `name` alone |
| ServiceRequests.RequiredFieldsDistinct | script.js:1733-1734 | no entry is required twice |
| ServiceRequests.OneMissingEntryIsNamed | script.js:1733-1739 | a form lacking exactly one required entry is refused for that entry alone |
| ServiceRequests.RequestList.HandleSubmission | script.js:1715-1764 | an accepted request goes to the top of the list; a refused one changes nothing |
| Workflows.NewStep | script.js:1953-1998 | a new step has a remove button exactly when it is not the first, and its inputs start blank with approval type `required` |
| Workflows.Renumber | script.js:2011-2021 | the step at index `i` is numbered and titled `i+1`; its remove button is hidden exactly when it is first |
| Workflows.Renumbered | script.js:2009-2023 | every step is renumbered from its position, the order kept |
| Workflows.OnlyFirstStepLacksRemove | script.js:2018-2021 | in a well-formed list only step 1 has no visible remove control |
| Workflows.RenumberedIsValid | script.js:2009-2023 | renumbering numbers the steps 1..N in list order |
| Workflows.AppendKeepsButtons | script.js:1953-2001 | adding a step keeps remove buttons on exactly the steps after the first |
| Workflows.RemoveKeepsButtons | script.js:2003-2007 | removing a step keeps remove buttons on exactly the steps after the first |
| Workflows.WorkflowBuilder.Initialize | script.js:1947-1951 | one fresh step, numbered 1 |
| Workflows.WorkflowBuilder.AddStep | script.js:1953-2001 | one step more, appended and renumbered; the list stays numbered 1..N |
| Workflows.WorkflowBuilder.RemoveStep | script.js:2003-2007 | that step is gone and the rest are renumbered; the list stays numbered 1..N |
| Workflows.WorkflowBuilder.UpdateStepNumbers | script.js:2009-2023 | the steps become their renumbered form |
| Workflows.WorkflowBuilder.FillStep | script.js:1966-1995 | the user's input changes that step's four values and nothing else |
| Workflows.StepData | script.js:2071-2078 | a collected step has order `index+1`, its inputs, and timeout 24 when blank |
| Workflows.StepRecords | script.js:2067-2083 | one collected step per element, in list order |
| Workflows.WorkflowBuilder.CollectSteps | script.js:2067-2083 | returns one record per step with `order = index+1` and timeout 24 when blank |
| Workflows.WorkflowBuilder.Close | script.js:1937-1945 | the step list is emptied |
| Workflows.GetOr | script.js:2088-2090 | an absent or empty entry falls back to the number |
| Workflows.CollectConditions | script.js:2085-2092 | checkboxes count by presence; the limit falls back to 0 and the escalation time to 24 |
| Workflows.CollectNotifications | script.js:2094-2100 | each setting is on exactly when its checkbox entry is present |
| Workflows.WorkflowOf | script.js:2041-2052 | the saved record: the five text entries as `formData.get` gives them, the collected steps, conditions and notification settings, with the given status, id, time and author |
| Workflows.DraftList | script.js:2040-2061 | saving a draft appends exactly one `draft` record with no author, whatever the form holds |
| Workflows.CreationAccepted | script.js:2129 | creation goes ahead only with a non-empty name, a non-empty category and at least one step |
| Workflows.CreatedList | script.js:2114-2164 | nothing is stored unless the name and category are non-empty and there is a step; then exactly one `active` record by `Admin User` is appended |
| Workflows.DraftSavedRegardlessOfForm | script.js:2040-2061 | whether a draft is saved depends only on the stored list, never on the form |
| Workflows.NamelessFormIsOnlyADraft | script.js:2129-2132 | a form with no name entry, or an empty one as an unfilled name input gives, is refused for creation whatever the stored list, but saved as a draft |
| Workflows.SaveWorkflowDraft | script.js:2040-2065 | writes the draft list back under `workflowDrafts` |
| Workflows.HandleWorkflowCreation | script.js:2114-2164 | writes the workflow list back under `workflows` only when creation is accepted |

## Left out

- DOM rendering, CSS, animations, modals, tabs and tooltips: these are presentation only. Button loading states, form resets and notifications change nothing in the model.
- Timers (`setTimeout`): each delayed effect is modelled as immediate.
- Redirects through `window.location`: the page change itself is not modelled. Any redirect is visible only as the outcome value of the decision that causes it.
- Randomised simulations (system health, KPI values, random notifications, stats increments): these use floating point and randomness.
- Identifiers made from `Date.now()` (`REG`, `GST`, `SR`, `WF`, `draft_` prefixes) are parameters, and nothing is claimed about their uniqueness. The registration requests' `createdAt` date is not recorded.
- Clock readings are integer parameters in milliseconds. ISO date strings and locale formatting are not modelled.
- Double-precision numbers: counts and numbers are unbounded integers. They agree with JavaScript for integers below 2^53. Above that, `parseInt` in JavaScript rounds (parseInt("9007199254740993") is 9007199254740992), and from 10^21 on a number prints in exponent form (`1e+21`, which `parseInt` reads as 1). So `ParseIntOfNatToString` and the room count-down hold for the script only below 2^53.
- JSON serialisation: stored values are kept in parsed form. No stored string is related to its JSON text.
- `showToast`, which `script.js` calls, is defined in neither script, so each call throws a `ReferenceError` and the rest of its handler does not run. After a service request this skips `closeServiceRequestModal` (script.js:1755). After creating a workflow it skips `closeCreateWorkflowModal` and the button reset (script.js:2155-2162). Every storage write and list update comes before the toast, so the modelled state is unaffected. The skipped modal and button changes are not modelled.
- JavaScript object-literal lookups also find inherited keys such as `constructor`. The tables here are plain maps, so those keys are not modelled.
- The checked service checkboxes of the registration forms are given as a parameter. The registration form's `data` holds only entries the form has, where the script would store `null` for the others. The service request does keep `null` entries.
- `checkExistingSession` (login-script.js:461-477) is left out. Its clearing depends on whether a stored non-session string is valid JSON, and the storage model does not keep that distinction.
- `initializeRoleBasedAccess` and the rest of the main page's menu hiding are left out. They read the same role as section gating (see Findings) and only toggle display.
- `handleTransportBooking` and the registration submits of `script.js` are declared twice. The model covers neither version, since the gating and storage logic above already covers what they share.
- `RequestList.HandleSubmission` takes the page to have its `.requests-list` element. Without it the script adds nothing, and the model does not cover that case.
- `FormValidation.Form.ValidateRequiredFields` requires every listed name to be a field of the form. The script throws a `TypeError` on a missing one.
- `StoredRoleAsWritten`: a `userRole` item holding the JSON text of an object or list is read as absent. The script would read its raw text, which the storage model does not keep.

## Findings

| source | as written | input that shows it | evidently intended | confidence | as-written member | corrected member |
|---|---|---|---|---|---|---|
| script.js:31-33 | the main page reads the user's role from a `userRole` item, which neither script ever writes, so section gating and role-based menus never act | log in with the guest demo account and open the `admin` section, whose `data-roles` is `admin`: it is shown | read the role from the stored `userSession` record, which the login page writes with the role | not executed | SessionGuard.GuestOpensAdminAsWritten | SessionGuard.GuestKeptFromAdmin |
| script.js:20-27 | the startup section is chosen for the role read from the never-written `userRole` item, so every user starts on the dashboard | log in with the guest demo account: the page opens on `dashboard` | start a guest on `guesthouse`, the role's default section, with the role read from the stored `userSession` record | not executed | SessionGuard.GuestStartsOnDashboardAsWritten | SessionGuard.GuestStartsOnGuestHouse |
