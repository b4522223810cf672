/** Guest-house room cards. Each card shows an availability badge (`available`,
    `limited` with a count such as "3 Left", or `unavailable`) and a reserve button
    that reservation disables once the last room is gone. */
module Rooms {
  import opened Options
  import opened JsText

  /** What a reservation reads and writes on a card: the badge's text and classes and
      the button's text, classes and `disabled` flag. */
  datatype RoomView = RoomView(
    availabilityText: string,
    availabilityClasses: set<string>,
    buttonText: string,
    buttonClasses: set<string>,
    buttonDisabled: bool)

  /** The count a `limited` badge shows: `parseInt` of its first space-separated word. */
  function BadgeCount(text: string): Option<int> {
    ParseInt(FirstWord(text))
  }

  /** `handleRoomReservation` on a card: a disabled button changes nothing; a `limited`
      badge counts down, and its last room makes the card unavailable; an `available`
      badge becomes "1 Left". The `limited` test comes first. */
  function Reserved(v: RoomView): (w: RoomView)
    ensures v.buttonDisabled ==> w == v
    ensures w.buttonDisabled <==> (v.buttonDisabled || ("limited" in v.availabilityClasses
      && !(BadgeCount(v.availabilityText).Some? && BadgeCount(v.availabilityText).value > 1)))
    ensures !v.buttonDisabled && "limited" !in v.availabilityClasses && "available" !in v.availabilityClasses ==> w == v
  {
    if v.buttonDisabled then v
    else if "limited" in v.availabilityClasses then
      var count := BadgeCount(v.availabilityText);
      if count.Some? && count.value > 1 then
        v.(availabilityText := NatToString(count.value - 1) + " Left")
      else
        RoomView("Unavailable", {"availability", "unavailable"}, "Unavailable", {"btn", "btn-disabled"}, true)
    else if "available" in v.availabilityClasses then
      v.(availabilityText := "1 Left", availabilityClasses := {"availability", "limited"})
    else v
  }

  /** The badge text of a card with `n` rooms left. */
  function LeftText(n: nat): string {
    NatToString(n) + " Left"
  }

  lemma {:induction false} BadgeCountOfLeftText(n: nat)
    ensures BadgeCount(LeftText(n)) == Some(n)
  {
    var digits := NatToString(n);
    assert ' ' !in digits by {
      forall i | 0 <= i < |digits| ensures digits[i] != ' ' {
        assert IsDigit(digits[i]);
      }
    }
    assert LeftText(n) == digits + " " + "Left";
    FirstWordOf(digits, "Left");
    ParseIntOfNatToString(n);
  }

  predicate IsLimited(v: RoomView, n: nat) {
    && !v.buttonDisabled
    && "limited" in v.availabilityClasses
    && v.availabilityText == LeftText(n)
  }

  predicate IsUnavailable(v: RoomView) {
    && v.buttonDisabled
    && v.availabilityText == "Unavailable"
    && v.availabilityClasses == {"availability", "unavailable"}
    && v.buttonText == "Unavailable"
  }

  /** An `available` card becomes a `limited` one with one room left. */
  lemma AvailableBecomesOneLeft(v: RoomView)
    requires !v.buttonDisabled && "limited" !in v.availabilityClasses && "available" in v.availabilityClasses
    ensures IsLimited(Reserved(v), 1)
  {
  }

  /** A `limited` card with more than one room left shows one room fewer. */
  lemma {:induction false} LimitedCountsDown(v: RoomView, n: nat)
    requires IsLimited(v, n) && n > 1
    ensures IsLimited(Reserved(v), n - 1)
    ensures Reserved(v).buttonText == v.buttonText && Reserved(v).buttonClasses == v.buttonClasses
  {
    BadgeCountOfLeftText(n);
  }

  /** Reserving the last room makes the card unavailable. */
  lemma {:induction false} LastRoomMakesUnavailable(v: RoomView)
    requires IsLimited(v, 1)
    ensures IsUnavailable(Reserved(v))
  {
    BadgeCountOfLeftText(1);
  }

  /** A `limited` badge whose text does not start with a number greater than 1 (a
      malformed or negative count) also makes the card unavailable. */
  lemma UnreadableCountMakesUnavailable(v: RoomView)
    requires !v.buttonDisabled && "limited" in v.availabilityClasses && BadgeCount(v.availabilityText).None?
    ensures IsUnavailable(Reserved(v))
  {
  }

  /** `k` applications of `step` in a row. */
  function Repeat(step: RoomView -> RoomView, v: RoomView, k: nat): RoomView {
    if k == 0 then v else step(Repeat(step, v, k - 1))
  }

  /** The card after `k` reservations in a row. */
  function ReservedTimes(v: RoomView, k: nat): RoomView {
    Repeat(Reserved, v, k)
  }

  /** A state the step leaves alone stays as it is however often the step runs. */
  lemma {:induction false} RepeatFixedPoint(step: RoomView -> RoomView, v: RoomView, k: nat)
    requires step(v) == v
    ensures Repeat(step, v, k) == v
  {
    if k > 0 {
      RepeatFixedPoint(step, v, k - 1);
    }
  }

  /** A disabled card stays as it is, however often it is clicked: "Unavailable" is
      final. */
  lemma DisabledStaysPut(v: RoomView, k: nat)
    requires v.buttonDisabled
    ensures ReservedTimes(v, k) == v
  {
    RepeatFixedPoint(Reserved, v, k);
  }

  /** Counting down with any step that takes a state with `m > 1` to one with `m - 1`,
      and the state with 1 to a final one: `j < n` steps from `n` leave `n - j`, and `n`
      steps reach the final state. */
  lemma {:induction false} RepeatCountsDown(step: RoomView -> RoomView, counted: (RoomView, nat) -> bool,
      final: RoomView -> bool, v: RoomView, n: nat, j: nat)
    requires forall x, m: nat :: counted(x, m) && m > 1 ==> counted(step(x), m - 1)
    requires forall x :: counted(x, 1) ==> final(step(x))
    requires counted(v, n) && 1 <= n && j <= n
    ensures j < n ==> counted(Repeat(step, v, j), n - j)
    ensures j == n ==> final(Repeat(step, v, j))
  {
    if j > 0 {
      RepeatCountsDown(step, counted, final, v, n, j - 1);
    }
  }

  /** A card with `n` rooms left shows `n - j` left after `j < n` reservations, and is
      unavailable after `n`. */
  lemma CountdownToUnavailable(v: RoomView, n: nat, j: nat)
    requires IsLimited(v, n) && 1 <= n && j <= n
    ensures j < n ==> IsLimited(ReservedTimes(v, j), n - j)
    ensures j == n ==> IsUnavailable(ReservedTimes(v, j))
  {
    forall x, m: nat | IsLimited(x, m) && m > 1 ensures IsLimited(Reserved(x), m - 1) {
      LimitedCountsDown(x, m);
    }
    forall x | IsLimited(x, 1) ensures IsUnavailable(Reserved(x)) {
      LastRoomMakesUnavailable(x);
    }
    RepeatCountsDown(Reserved, IsLimited, IsUnavailable, v, n, j);
  }

  /** A room card whose badge and button a reservation updates in place. */
  class RoomCard {
    var availabilityText: string
    var availabilityClasses: set<string>
    var buttonText: string
    var buttonClasses: set<string>
    var buttonDisabled: bool

    function View(): RoomView
      reads this
    {
      RoomView(availabilityText, availabilityClasses, buttonText, buttonClasses, buttonDisabled)
    }

    constructor (v: RoomView)
      ensures View() == v
    {
      availabilityText := v.availabilityText;
      availabilityClasses := v.availabilityClasses;
      buttonText := v.buttonText;
      buttonClasses := v.buttonClasses;
      buttonDisabled := v.buttonDisabled;
    }

    /** `handleRoomReservation` for a click on this card's button; `accepted` is false
        when the button was disabled. */
    method Reserve() returns (accepted: bool)
      modifies this
      ensures accepted == !old(buttonDisabled)
      ensures View() == Reserved(old(View()))
    {
      if buttonDisabled {
        return false;
      }
      accepted := true;
      if "limited" in availabilityClasses {
        var count := BadgeCount(availabilityText);
        if count.Some? && count.value > 1 {
          availabilityText := NatToString(count.value - 1) + " Left";
        } else {
          availabilityText := "Unavailable";
          availabilityClasses := {"availability", "unavailable"};
          buttonText := "Unavailable";
          buttonClasses := {"btn", "btn-disabled"};
          buttonDisabled := true;
        }
      } else if "available" in availabilityClasses {
        availabilityText := "1 Left";
        availabilityClasses := {"availability", "limited"};
      }
    }
  }
}
