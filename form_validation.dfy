/** The form checks of the login page: the required-field check that runs on submit,
    and the per-field check that runs on blur with its email and phone rules. A form
    field and the `.form-group` around it are plain records; a form is an object whose
    field records the checks rewrite. */
module FormValidation {
  import opened JsText

  const RequiredMessage := "This field is required"
  const EmailMessage := "Please enter a valid email address"
  const PhoneMessage := "Please enter a valid phone number"

  /** A `.form-group`: its class tokens and the texts of its `.error-message`
      children, in document order. */
  datatype FormGroup = FormGroup(classes: set<string>, messages: seq<string>)

  /** An input or select element: its `type`, whether it carries the `required`
      attribute, its current value, and the form group around it. */
  datatype Field = Field(kind: string, required: bool, value: string, group: FormGroup)

  /** Whether `s` holds a character other than white space. */
  predicate HasContent(s: string) {
    s != [] && (!IsWhiteSpace(s[0]) || HasContent(s[1..]))
  }

  /** A field passes the required-field check when its value holds something besides
      white space. */
  predicate Filled(f: Field) {
    HasContent(f.value)
  }

  lemma {:induction false} HasContentIsNotAllWhiteSpace(s: string)
    ensures HasContent(s) <==> !AllWhiteSpace(s)
  {
    if s != [] {
      HasContentIsNotAllWhiteSpace(s[1..]);
      if AllWhiteSpace(s[1..]) && IsWhiteSpace(s[0]) {
        forall i | 0 <= i < |s| ensures IsWhiteSpace(s[i]) {
          if i > 0 { assert s[i] == s[1..][i - 1]; }
        }
      }
    }
  }

  /** That is exactly the script's test: the trimmed value is not empty. */
  lemma FilledIsTrimmedNonEmpty(f: Field)
    ensures Filled(f) <==> Trim(f.value) != []
  {
    HasContentIsNotAllWhiteSpace(f.value);
    TrimEmptyIff(f.value);
  }

  // ---------------------------------------------------------------- required fields

  /** What one turn of the `forEach` in `validateRequiredFields` does to a field's group:
      an empty field gains the `error` class and, when the group shows no message yet,
      the required-field message; a filled field loses the `error` class and its first
      message. */
  function MarkedGroup(g: FormGroup, filled: bool): FormGroup {
    if !filled then
      FormGroup(g.classes + {"error"}, if g.messages == [] then [RequiredMessage] else g.messages)
    else
      FormGroup(g.classes - {"error"}, if g.messages == [] then [] else g.messages[1..])
  }

  function MarkRequired(f: Field): (g: Field)
    ensures g.kind == f.kind && g.required == f.required && g.value == f.value
  {
    f.(group := MarkedGroup(f.group, Filled(f)))
  }

  /** An empty field is left flagged, showing the required-field message when it showed
      none and its own messages otherwise; a filled field is left unflagged and loses its
      first message, if any. */
  lemma MarkRequiredFlags(f: Field)
    ensures var g := MarkRequired(f).group;
      && (!Filled(f) ==> g.classes == f.group.classes + {"error"} && "error" in g.classes)
      && (!Filled(f) && f.group.messages == [] ==> g.messages == [RequiredMessage])
      && (!Filled(f) && f.group.messages != [] ==> g.messages == f.group.messages)
      && (Filled(f) ==> g.classes == f.group.classes - {"error"} && "error" !in g.classes)
      && (Filled(f) && f.group.messages == [] ==> g.messages == [])
      && (Filled(f) && f.group.messages != [] ==> g.messages == f.group.messages[1..])
  {
  }

  /** The fields after `validateRequiredFields` has walked `names` in order. */
  function MarkAll(fields: map<string, Field>, names: seq<string>): (r: map<string, Field>)
    requires forall k :: 0 <= k < |names| ==> names[k] in fields
    ensures r.Keys == fields.Keys
    ensures forall n :: n in fields ==> r[n].value == fields[n].value
  {
    if names == [] then fields
    else
      var before := MarkAll(fields, names[..|names| - 1]);
      var last := names[|names| - 1];
      before[last := MarkRequired(before[last])]
  }

  /** Whether every listed field is filled, walked from the last name back. */
  predicate AllFilled(fields: map<string, Field>, names: seq<string>)
    requires forall k :: 0 <= k < |names| ==> names[k] in fields
  {
    names == [] || (AllFilled(fields, names[..|names| - 1]) && Filled(fields[names[|names| - 1]]))
  }

  lemma {:induction false} AllFilledEach(fields: map<string, Field>, names: seq<string>)
    requires forall k :: 0 <= k < |names| ==> names[k] in fields
    ensures AllFilled(fields, names) <==> forall k :: 0 <= k < |names| ==> Filled(fields[names[k]])
  {
    if names != [] {
      var init := names[..|names| - 1];
      AllFilledEach(fields, init);
      assert forall k :: 0 <= k < |init| ==> init[k] == names[k];
    }
  }

  /** Walking one more name marks that name's field once more. */
  lemma MarkOneMore(fields: map<string, Field>, names: seq<string>, name: string)
    requires forall k :: 0 <= k < |names| ==> names[k] in fields
    requires name in fields
    ensures forall k :: 0 <= k < |names + [name]| ==> (names + [name])[k] in fields
    ensures MarkAll(fields, names + [name])
      == MarkAll(fields, names)[name := MarkRequired(MarkAll(fields, names)[name])]
  {
    assert (names + [name])[..|names|] == names;
  }

  /** One turn of the loop in `validateRequiredFields`: walking the first `i + 1` names
      marks the `i`-th once more, and that field's filled test reads the same before
      and after the earlier turns. */
  lemma WalkStep(fields: map<string, Field>, names: seq<string>, i: nat)
    requires forall k :: 0 <= k < |names| ==> names[k] in fields
    requires i < |names|
    ensures var before := MarkAll(fields, names[..i]);
      && MarkAll(fields, names[..i + 1]) == before[names[i] := MarkRequired(before[names[i]])]
      && (AllFilled(fields, names[..i + 1]) <==> AllFilled(fields, names[..i]) && Filled(before[names[i]]))
  {
    var name := names[i];
    assert names[..i + 1] == names[..i] + [name];
    MarkOneMore(fields, names[..i], name);
    assert MarkAll(fields, names[..i])[name].value == fields[name].value;
  }

  /** With no name listed twice, every listed field ends up exactly as one turn of the
      check leaves it, and every other field is untouched. */
  lemma {:induction false} MarkAllDistinct(fields: map<string, Field>, names: seq<string>)
    requires forall k :: 0 <= k < |names| ==> names[k] in fields
    requires forall i, j :: 0 <= i < j < |names| ==> names[i] != names[j]
    ensures forall k :: 0 <= k < |names| ==> MarkAll(fields, names)[names[k]] == MarkRequired(fields[names[k]])
    ensures forall n :: n in fields && n !in names ==> MarkAll(fields, names)[n] == fields[n]
  {
    if names != [] {
      var init := names[..|names| - 1];
      var last := names[|names| - 1];
      assert forall k :: 0 <= k < |init| ==> init[k] == names[k];
      MarkAllDistinct(fields, init);
      var before := MarkAll(fields, init);
      var after := MarkAll(fields, names);
      assert after == before[last := MarkRequired(before[last])];
      assert last !in init;
      forall k | 0 <= k < |names| ensures after[names[k]] == MarkRequired(fields[names[k]]) {
        if k < |names| - 1 {
          assert init[k] == names[k];
        }
      }
      forall n | n in fields && n !in names ensures after[n] == fields[n] {
        assert n !in init;
      }
    }
  }

  // ---------------------------------------------------------------- email rule

  predicate IsEmailChar(c: char) {
    !IsWhiteSpace(c) && c != '@'
  }

  predicate AllEmailChars(s: string) {
    forall i :: 0 <= i < |s| ==> IsEmailChar(s[i])
  }

  /** `/^[^\s@]+@[^\s@]+\.[^\s@]+$/.test(s)` read literally: `s` can be cut into a
      non-empty run, `@`, a non-empty run, `.` and a non-empty run, no run holding
      white space or `@`. */
  ghost predicate EmailPatternMatches(s: string) {
    exists i, j :: 0 < i && i + 1 < j && j + 1 < |s| && s[i] == '@' && s[j] == '.'
      && AllEmailChars(s[..i]) && AllEmailChars(s[i + 1..j]) && AllEmailChars(s[j + 1..])
  }

  /** The index of the first `c` in `s`, or `|s|` when there is none. */
  function IndexOf(s: string, c: char): (i: nat)
    ensures i <= |s|
    ensures forall m :: 0 <= m < i ==> s[m] != c
    ensures i < |s| ==> s[i] == c
  {
    if s == [] then 0 else if s[0] == c then 0 else 1 + IndexOf(s[1..], c)
  }

  /** The email rule as a direct test: no white space, exactly one `@`, something
      before it, and after it a domain with a `.` that is neither its first nor its
      last character. */
  predicate IsValidEmail(s: string) {
    var at := IndexOf(s, '@');
    && NoWhiteSpace(s)
    && 0 < at < |s|
    && (forall m :: at < m < |s| ==> s[m] != '@')
    && exists k :: at + 1 < k < |s| - 1 && s[k] == '.'
  }

  /** A stretch of a string without white space and without `@` is a run the email
      pattern accepts. */
  lemma RunOfEmailChars(s: string, lo: int, hi: int)
    requires 0 <= lo <= hi <= |s| && NoWhiteSpace(s)
    requires forall m :: lo <= m < hi ==> s[m] != '@'
    ensures AllEmailChars(s[lo..hi])
  {
    forall m | 0 <= m < hi - lo ensures IsEmailChar(s[lo..hi][m]) {
      assert s[lo..hi][m] == s[lo + m];
    }
  }

  /** The characters of a run the email pattern accepts, read back in the whole string. */
  lemma EmailCharsOfRun(s: string, lo: int, hi: int)
    requires 0 <= lo <= hi <= |s| && AllEmailChars(s[lo..hi])
    ensures forall m :: lo <= m < hi ==> IsEmailChar(s[m])
  {
    forall m | lo <= m < hi ensures IsEmailChar(s[m]) {
      assert s[lo..hi][m - lo] == s[m];
    }
  }

  lemma EmailTestMatchesPattern(s: string)
    requires IsValidEmail(s)
    ensures EmailPatternMatches(s)
  {
    var at := IndexOf(s, '@');
    var k :| at + 1 < k < |s| - 1 && s[k] == '.';
    RunOfEmailChars(s, 0, at);
    RunOfEmailChars(s, at + 1, k);
    RunOfEmailChars(s, k + 1, |s|);
    assert s[0..at] == s[..at];
  }

  /** The three runs of a match cover every character except the `@` and the `.`. */
  lemma EmailRunsCover(s: string, i: int, j: int)
    requires 0 < i && i + 1 < j && j + 1 < |s|
    requires AllEmailChars(s[..i]) && AllEmailChars(s[i + 1..j]) && AllEmailChars(s[j + 1..])
    ensures forall m :: 0 <= m < |s| && m != i && m != j ==> IsEmailChar(s[m])
  {
    assert s[0..i] == s[..i];
    assert s[j + 1..|s|] == s[j + 1..];
    EmailCharsOfRun(s, 0, i);
    EmailCharsOfRun(s, i + 1, j);
    EmailCharsOfRun(s, j + 1, |s|);
  }

  lemma EmailPatternPassesTest(s: string)
    requires EmailPatternMatches(s)
    ensures IsValidEmail(s)
  {
    var i, j :| 0 < i && i + 1 < j && j + 1 < |s| && s[i] == '@' && s[j] == '.'
      && AllEmailChars(s[..i]) && AllEmailChars(s[i + 1..j]) && AllEmailChars(s[j + 1..]);
    EmailRunsCover(s, i, j);
    assert IndexOf(s, '@') == i;
    assert NoWhiteSpace(s);
    assert forall m :: i < m < |s| ==> s[m] != '@';
  }

  /** The direct test accepts exactly what the regular expression accepts. */
  lemma EmailTestIsPattern(s: string)
    ensures IsValidEmail(s) <==> EmailPatternMatches(s)
  {
    if IsValidEmail(s) {
      EmailTestMatchesPattern(s);
    }
    if EmailPatternMatches(s) {
      EmailPatternPassesTest(s);
    }
  }

  // ---------------------------------------------------------------- phone rule

  /** The characters `/[\s\-\(\)]/g` removes before the phone test. */
  predicate IsPhoneSeparator(c: char) {
    IsWhiteSpace(c) || c == '-' || c == '(' || c == ')'
  }

  /** `value.replace(/[\s\-\(\)]/g, '')`. */
  function StripPhoneSeparators(s: string): (r: string)
    ensures |r| <= |s|
    ensures forall i :: 0 <= i < |r| ==> !IsPhoneSeparator(r[i])
  {
    if s == [] then []
    else if IsPhoneSeparator(s[0]) then StripPhoneSeparators(s[1..])
    else [s[0]] + StripPhoneSeparators(s[1..])
  }

  /** `/^[\+]?[1-9][\d]{0,15}$/.test(t)` read literally: an optional `+`, one digit
      from 1 to 9, then between zero and fifteen digits. */
  ghost predicate PhonePatternMatches(t: string) {
    exists p :: 0 <= p <= 1 && (p == 1 ==> t != [] && t[0] == '+') && p + 1 <= |t| <= p + 16
      && '1' <= t[p] <= '9' && AllDigits(t[p + 1..])
  }

  /** The phone rule as a direct test. */
  predicate IsValidPhone(t: string) {
    var u := if t != [] && t[0] == '+' then t[1..] else t;
    1 <= |u| <= 16 && '1' <= u[0] <= '9' && AllDigits(u)
  }

  /** The direct test accepts exactly what the regular expression accepts. */
  lemma PhoneTestIsPattern(t: string)
    ensures IsValidPhone(t) <==> PhonePatternMatches(t)
  {
    if IsValidPhone(t) {
      var p := if t != [] && t[0] == '+' then 1 else 0;
      assert t[p + 1..] == t[p..][1..];
      assert PhonePatternMatches(t);
    }
    if PhonePatternMatches(t) {
      var p :| 0 <= p <= 1 && (p == 1 ==> t != [] && t[0] == '+') && p + 1 <= |t| <= p + 16
        && '1' <= t[p] <= '9' && AllDigits(t[p + 1..]);
      if p == 0 {
        assert t[0] != '+';
        forall m | 0 <= m < |t| ensures IsDigit(t[m]) {
          if m > 0 { assert t[1..][m - 1] == t[m]; }
        }
      } else {
        forall m | 0 <= m < |t[1..]| ensures IsDigit(t[1..][m]) {
          if m > 0 { assert t[2..][m - 1] == t[1..][m]; }
        }
      }
    }
  }

  /** Removing separators works piece by piece. */
  lemma {:induction false} StripConcat(a: string, b: string)
    ensures StripPhoneSeparators(a + b) == StripPhoneSeparators(a) + StripPhoneSeparators(b)
  {
    if a == [] {
      assert a + b == b;
    } else {
      assert (a + b)[0] == a[0] && (a + b)[1..] == a[1..] + b;
      StripConcat(a[1..], b);
    }
  }

  /** A text without separators is left as it is. */
  lemma {:induction false} StripKeepsPlainText(s: string)
    requires forall i :: 0 <= i < |s| ==> !IsPhoneSeparator(s[i])
    ensures StripPhoneSeparators(s) == s
  {
    if s != [] {
      StripKeepsPlainText(s[1..]);
    }
  }

  /** One separator between two plain pieces disappears. */
  lemma StripAroundSeparator(a: string, c: char, b: string)
    requires IsPhoneSeparator(c)
    ensures StripPhoneSeparators(a + [c] + b) == StripPhoneSeparators(a) + StripPhoneSeparators(b)
  {
    StripConcat(a, [c]);
    StripConcat(a + [c], b);
  }

  /** Removing the single separators between four plain groups joins the groups. */
  lemma StripSpacedGroups(p1: string, p2: string, p3: string, p4: string, c: char)
    requires IsPhoneSeparator(c)
    requires forall i :: 0 <= i < |p1| ==> !IsPhoneSeparator(p1[i])
    requires forall i :: 0 <= i < |p2| ==> !IsPhoneSeparator(p2[i])
    requires forall i :: 0 <= i < |p3| ==> !IsPhoneSeparator(p3[i])
    requires forall i :: 0 <= i < |p4| ==> !IsPhoneSeparator(p4[i])
    ensures StripPhoneSeparators(p1 + [c] + p2 + [c] + p3 + [c] + p4) == p1 + p2 + p3 + p4
  {
    StripKeepsPlainText(p1);
    StripKeepsPlainText(p2);
    StripKeepsPlainText(p3);
    StripKeepsPlainText(p4);
    StripAroundSeparator(p1, c, p2);
    StripAroundSeparator(p1 + [c] + p2, c, p3);
    StripAroundSeparator(p1 + [c] + p2 + [c] + p3, c, p4);
  }

  /** The demo number with its spaces removed passes the direct test. */
  lemma DemoPhoneDigitsValid()
    ensures IsValidPhone("+12345678900")
  {
    var t := "+12345678900";
    assert t[1..] == "12345678900";
  }

  /** The phone number the employee demo form fills in, `+1 234 567 8900`, passes the
      phone rule. */
  lemma DemoPhonePasses()
    ensures IsValidPhone(StripPhoneSeparators("+1" + " " + "234" + " " + "567" + " " + "8900"))
  {
    StripSpacedGroups("+1", "234", "567", "8900", ' ');
    assert "+1" + "234" + "567" + "8900" == "+12345678900";
    DemoPhoneDigitsValid();
  }

  // ---------------------------------------------------------------- one field

  datatype Verdict = Valid | MissingRequired | InvalidEmail | InvalidPhone

  /** The outcome of `validateField`: the required check first, then the email rule for
      `type="email"` and the phone rule for `type="tel"`, each only on a non-empty
      trimmed value. */
  function FieldVerdict(f: Field): (v: Verdict)
    ensures v == MissingRequired <==> f.required && Trim(f.value) == []
    ensures Trim(f.value) == [] ==> v == MissingRequired || v == Valid
    ensures v == InvalidEmail ==> f.kind == "email" && !IsValidEmail(Trim(f.value))
    ensures v == InvalidPhone ==> f.kind == "tel" && !IsValidPhone(StripPhoneSeparators(Trim(f.value)))
  {
    var value := Trim(f.value);
    if f.required && value == [] then MissingRequired
    else if f.kind == "email" && value != [] && !IsValidEmail(value) then InvalidEmail
    else if f.kind == "tel" && value != [] && !IsValidPhone(StripPhoneSeparators(value)) then InvalidPhone
    else Valid
  }

  /** An empty optional field is valid, whatever its type. */
  lemma EmptyOptionalFieldIsValid(f: Field)
    requires !f.required && AllWhiteSpace(f.value)
    ensures FieldVerdict(f) == Valid
  {
    TrimEmptyIff(f.value);
  }

  /** For an email field with something in it, the field is valid exactly when the
      trimmed value matches the email pattern. */
  lemma EmailFieldRule(f: Field)
    requires f.kind == "email" && Trim(f.value) != []
    ensures FieldVerdict(f) == Valid <==> EmailPatternMatches(Trim(f.value))
  {
    EmailTestIsPattern(Trim(f.value));
  }

  /** For a phone field with something in it, the field is valid exactly when the
      trimmed value, separators removed, matches the phone pattern. */
  lemma PhoneFieldRule(f: Field)
    requires f.kind == "tel" && Trim(f.value) != []
    ensures FieldVerdict(f) == Valid <==> PhonePatternMatches(StripPhoneSeparators(Trim(f.value)))
  {
    PhoneTestIsPattern(StripPhoneSeparators(Trim(f.value)));
  }

  /** The form group after `validateField`: the `error` and `success` classes and the
      first error message are removed, then an error class and one message are added
      on failure, or the `success` class when the trimmed value is not empty. */
  function ValidatedGroup(f: Field): (g: FormGroup)
    ensures FieldVerdict(f) != Valid ==> "error" in g.classes && "success" !in g.classes
    ensures FieldVerdict(f) == Valid ==> "error" !in g.classes
    ensures FieldVerdict(f) == Valid ==> ("success" in g.classes <==> Trim(f.value) != [])
    ensures |g.messages| == (if f.group.messages == [] then 0 else |f.group.messages| - 1)
      + (if FieldVerdict(f) == Valid then 0 else 1)
  {
    var classes := f.group.classes - {"error", "success"};
    var messages := if f.group.messages == [] then [] else f.group.messages[1..];
    match FieldVerdict(f)
    case MissingRequired => FormGroup(classes + {"error"}, messages + [RequiredMessage])
    case InvalidEmail => FormGroup(classes + {"error"}, messages + [EmailMessage])
    case InvalidPhone => FormGroup(classes + {"error"}, messages + [PhoneMessage])
    case Valid => FormGroup(if Trim(f.value) != [] then classes + {"success"} else classes, messages)
  }

  /** A form of the login page: its fields by `name`. */
  class Form {
    var fields: map<string, Field>

    constructor (fields0: map<string, Field>)
      ensures fields == fields0
    {
      fields := fields0;
    }

    /** `validateRequiredFields(form, names)`: true exactly when every listed field has
        a non-empty trimmed value; every listed field's group is marked on the way. A
        name with no field in the form makes the script throw, so callers list only
        fields the form has. */
    method ValidateRequiredFields(names: seq<string>) returns (isValid: bool)
      requires forall k :: 0 <= k < |names| ==> names[k] in fields
      modifies this
      ensures isValid <==> forall k :: 0 <= k < |names| ==> Filled(old(fields)[names[k]])
      ensures fields == MarkAll(old(fields), names)
    {
      isValid := true;
      ghost var start := fields;
      var marked := fields;
      var i := 0;
      while i < |names|
        invariant 0 <= i <= |names|
        invariant marked == MarkAll(start, names[..i])
        invariant isValid == AllFilled(start, names[..i])
      {
        var name := names[i];
        var f := marked[name];
        WalkStep(start, names, i);
        isValid := isValid && Filled(f);
        marked := marked[name := MarkRequired(f)];
        i := i + 1;
      }
      assert names[..i] == names;
      AllFilledEach(start, names);
      fields := marked;
    }

    /** `validateField(field)` on the field called `name`. */
    method ValidateField(name: string) returns (ok: bool)
      requires name in fields
      modifies this
      ensures ok <==> FieldVerdict(old(fields)[name]) == Valid
      ensures fields == old(fields)[name := old(fields)[name].(group := ValidatedGroup(old(fields)[name]))]
    {
      var f := fields[name];
      ok := FieldVerdict(f) == Valid;
      fields := fields[name := f.(group := ValidatedGroup(f))];
    }
  }
}
