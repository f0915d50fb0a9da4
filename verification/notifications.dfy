/**
 * app/onboarding/notifications.tsx: the demonstration timer on the first
 * notification card (reset to 07:00 on focus, one tick per second, shown as
 * MM:SS) and the two answers, which record whether notifications are
 * enabled.  The one-second interval itself is not modelled: `Ticks(t, k)`
 * is the timer after `k` interval callbacks.
 */
module Notifications {
  import opened Strings
  import opened Profile

  datatype Timer = Timer(minutes: nat, seconds: nat)

  /** The state the focus effect sets: 7 minutes, 0 seconds. */
  const FOCUS_RESET := Timer(7, 0)

  /** Seconds stay in 0..59. */
  predicate Valid(t: Timer) {
    t.seconds <= 59
  }

  function TotalSeconds(t: Timer): nat {
    60 * t.minutes + t.seconds
  }

  /** One interval callback: 59 seconds roll over to the next minute. */
  function Tick(t: Timer): (r: Timer)
    ensures Valid(t) ==> Valid(r)
    ensures Valid(t) ==> TotalSeconds(r) == TotalSeconds(t) + 1
  {
    if t.seconds == 59 then Timer(t.minutes + 1, 0) else Timer(t.minutes, t.seconds + 1)
  }

  /** The timer after `k` callbacks. */
  function Ticks(t: Timer, k: nat): Timer {
    if k == 0 then t else Tick(Ticks(t, k - 1))
  }

  /** `k` seconds after a focus the timer shows 7 minutes plus `k` seconds,
      split into minutes and seconds. */
  lemma {:induction false} TicksFromFocus(k: nat)
    ensures Valid(Ticks(FOCUS_RESET, k))
    ensures TotalSeconds(Ticks(FOCUS_RESET, k)) == 420 + k
    ensures Ticks(FOCUS_RESET, k) == Timer(7 + k / 60, k % 60)
  {
    if k > 0 {
      TicksFromFocus(k - 1);
    }
  }

  /** `n.toString().padStart(2, "0")` */
  function TwoDigits(n: nat): (r: string)
    ensures |r| >= 2
    ensures forall i :: 0 <= i < |r| ==> IsDigit(r[i])
    ensures DigitsValue(r) == n
    ensures n < 100 ==> |r| == 2
    ensures n >= 10 ==> r == Decimal(n)
  {
    var d := Decimal(n);
    DecimalRoundTrip(n);
    if |d| >= 2 then d
    else
      LeadingZero(d);
      assert PadStart(d, 2, '0') == "0" + d;
      PadStart(d, 2, '0')
  }

  /** `formatTimer(minutes, seconds)` */
  function FormatTimer(t: Timer): (r: string)
  {
    TwoDigits(t.minutes) + ":" + TwoDigits(t.seconds)
  }

  /** The text reads back: the only colon sits after the minutes, the digits
      before it spell the minutes and the digits after it the seconds.  Below
      100 minutes the text is exactly five characters; at 100 and beyond the
      minutes are not cut. */
  lemma FormatTimerReadsBack(t: Timer)
    ensures var r := FormatTimer(t); var k := |TwoDigits(t.minutes)|;
      k < |r| && r[k] == ':'
      && (forall i :: 0 <= i < |r| && i != k ==> IsDigit(r[i]))
      && DigitsValue(r[..k]) == t.minutes
      && DigitsValue(r[k + 1..]) == t.seconds
    ensures t.minutes < 100 && t.seconds < 100 ==> |FormatTimer(t)| == 5 && FormatTimer(t)[2] == ':'
    ensures t.minutes >= 100 ==> FormatTimer(t)[..|Decimal(t.minutes)|] == Decimal(t.minutes)
  {
    var r := FormatTimer(t);
    var m, s := TwoDigits(t.minutes), TwoDigits(t.seconds);
    assert r[..|m|] == m;
    assert r[|m| + 1..] == s;
  }

  /** A fresh focus shows "07:00". */
  lemma FocusShowsSevenMinutes()
    ensures FormatTimer(FOCUS_RESET) == "07:00"
  {
    SingleDigitsPadded();
  }

  lemma SingleDigitsPadded()
    ensures TwoDigits(7) == "07" && TwoDigits(8) == "08" && TwoDigits(0) == "00"
  {
  }

  /** `handleEnable` / `handleSkip`: record the answer, nothing else. */
  function Answer(profile: Record, enabled: bool): (r: Record)
    ensures Get(r, NOTIFICATIONS_ENABLED) == Flag(enabled)
    ensures forall f :: f != NOTIFICATIONS_ENABLED ==> Get(r, f) == Get(profile, f)
  {
    UpdateField(profile, NOTIFICATIONS_ENABLED, Flag(enabled))
  }

  /** Answering again replaces the earlier answer. */
  lemma LastAnswerWins(profile: Record, first: bool, second: bool)
    ensures Answer(Answer(profile, first), second) == Answer(profile, second)
  {
    LastWriteWins(profile, NOTIFICATIONS_ENABLED, Flag(first), Flag(second));
  }
}
