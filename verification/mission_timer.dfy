/**
 * The mission clock: the `HH:MM:SS` rendering of a duration in milliseconds used by the
 * mission timer and by the autonomous-mission screen, and the running duration of a
 * mission with its paused time taken off. Times are integer milliseconds.
 */
module MissionTimer {
  import opened Wrappers
  import opened JsRuntime

  /** `n.toString().padStart(2, '0')`. */
  function Pad2(n: int): string {
    PadStart(IntToString(n), 2, '0')
  }

  datatype Clock = Clock(hours: int, minutes: int, seconds: int)

  /** The fields `formatDuration` computes: whole seconds, then hours, minutes of the hour and seconds of the minute. */
  function Fields(ms: int): (c: Clock)
    ensures ms >= 0 ==> c.hours >= 0 && 0 <= c.minutes < 60 && 0 <= c.seconds < 60
    ensures ms >= 0 ==> c.hours * 3600 + c.minutes * 60 + c.seconds == ms / 1000
  {
    // `Math.floor(x / n)` for a positive `n` is Dafny's `/`; JavaScript's `%` is `JsRem`.
    var seconds := ms / 1000;
    if ms >= 0 then FieldsSum(seconds); Clock(seconds / 3600, JsRem(seconds, 3600) / 60, JsRem(seconds, 60))
    else Clock(seconds / 3600, JsRem(seconds, 3600) / 60, JsRem(seconds, 60))
  }

  /** Hours, minutes of the hour and seconds of the minute add back up to the seconds. */
  lemma FieldsSum(s: int)
    requires s >= 0
    ensures (s / 3600) * 3600 + ((s % 3600) / 60) * 60 + s % 60 == s
    ensures 0 <= (s % 3600) / 60 < 60
  {
    var h := s / 3600;
    var q := s % 3600;
    assert s == h * 3600 + q;
    var m := q / 60;
    var t := q % 60;
    assert q == m * 60 + t;
    assert s == (h * 60 + m) * 60 + t;
    assert s % 60 == t;
  }

  function ClockText(c: Clock): string {
    JoinClock(Pad2(c.hours), Pad2(c.minutes), Pad2(c.seconds))
  }

  /** Hours, minutes and seconds separated by colons. */
  function JoinClock(h: string, m: string, s: string): string {
    h + ":" + m + ":" + s
  }

  /** `formatDuration`: a missing or zero duration shows as `00:00:00`. */
  function FormatDuration(ms: Option<int>): (r: string)
    ensures ms.None? || ms.value == 0 ==> r == "00:00:00"
    ensures |r| >= 8
  {
    if ms.None? || ms.value == 0 then "00:00:00" else ClockText(Fields(ms.value))
  }

  /** Reads a clock `H…:MM:SS` with digits only in each field back as a number of seconds. */
  function ReadClock(r: string): Option<int> {
    if |r| >= 7 && r[|r| - 3] == ':' && r[|r| - 6] == ':' &&
       AllDigits(r[..|r| - 6]) && AllDigits(r[|r| - 5..|r| - 3]) && AllDigits(r[|r| - 2..])
    then Some(DecimalValue(r[..|r| - 6]) * 3600 + DecimalValue(r[|r| - 5..|r| - 3]) * 60 + DecimalValue(r[|r| - 2..]))
    else None
  }

  /** A leading zero does not change the value of a digit string. */
  lemma {:induction false} LeadingZero(s: string)
    requires AllDigits(s)
    ensures AllDigits(['0'] + s) && DecimalValue(['0'] + s) == DecimalValue(s)
    decreases |s|
  {
    var t := ['0'] + s;
    if s == [] {
      assert t[..0] == [];
    } else {
      assert t[..|t| - 1] == ['0'] + s[..|s| - 1];
      LeadingZero(s[..|s| - 1]);
    }
  }

  /** Numbers below 100 print in at most two digits. */
  lemma NatToStringShort(n: nat)
    requires n < 100
    ensures |NatToString(n)| <= 2
  {
    if n >= 10 {
      assert NatToString(n) == NatToString(n / 10) + [DigitChar(n % 10)];
    }
  }

  /** A padded non-negative number: its digits, read back as the number. */
  lemma Pad2Digits(n: nat)
    ensures AllDigits(Pad2(n)) && DecimalValue(Pad2(n)) == n
    ensures |Pad2(n)| == if |NatToString(n)| >= 2 then |NatToString(n)| else 2
  {
    var d := NatToString(n);
    NatToStringValue(n);
    if |d| < 2 {
      assert Pad2(n) == ['0'] + d;
      LeadingZero(d);
    }
  }

  /** A clock assembled from digit fields, two-digit minutes and seconds, reads back as its value in seconds. */
  lemma ReadClockOfFields(h: string, m: string, s: string, hours: int, minutes: int, seconds: int, total: int)
    requires |h| >= 1 && |m| == 2 && |s| == 2
    requires AllDigits(h) && AllDigits(m) && AllDigits(s)
    requires DecimalValue(h) == hours && DecimalValue(m) == minutes && DecimalValue(s) == seconds
    requires hours * 3600 + minutes * 60 + seconds == total
    ensures ReadClock(JoinClock(h, m, s)) == Some(total)
  {
    var r := JoinClock(h, m, s);
    assert r[..|r| - 6] == h;
    assert r[|r| - 5..|r| - 3] == m;
    assert r[|r| - 2..] == s;
  }

  /** The shown clock reads back as the whole seconds elapsed: hours, then two-digit minutes and seconds. */
  lemma FormatDurationReadsBack(ms: int)
    requires ms >= 0
    ensures ReadClock(FormatDuration(Some(ms))) == Some(ms / 1000)
  {
    if ms == 0 {
      ZeroClockReadsBack();
      assert FormatDuration(Some(ms)) == "00:00:00";
    } else {
      PositiveDurationReadsBack(ms);
    }
  }

  lemma PositiveDurationReadsBack(ms: int)
    requires ms > 0
    ensures ReadClock(FormatDuration(Some(ms))) == Some(ms / 1000)
  {
    var c := Fields(ms);
    PaddedFieldsReadBack(c.hours, c.minutes, c.seconds, ms / 1000, Pad2(c.hours), Pad2(c.minutes), Pad2(c.seconds));
  }

  /** Padded hours, minutes and seconds joined by colons read back as the seconds they stand for. */
  lemma PaddedFieldsReadBack(hours: nat, minutes: nat, seconds: nat, total: int, h: string, m: string, s: string)
    requires minutes < 60 && seconds < 60 && hours * 3600 + minutes * 60 + seconds == total
    requires h == Pad2(hours) && m == Pad2(minutes) && s == Pad2(seconds)
    ensures ReadClock(JoinClock(h, m, s)) == Some(total)
  {
    Pad2Hours(hours);
    Pad2Field(minutes);
    Pad2Field(seconds);
    ReadClockOfFields(h, m, s, hours, minutes, seconds, total);
  }

  /** An hour field: at least two digits, read back as the number. */
  lemma Pad2Hours(n: nat)
    ensures |Pad2(n)| >= 2 && AllDigits(Pad2(n)) && DecimalValue(Pad2(n)) == n
  {
    Pad2Digits(n);
  }

  /** A minute or second field: exactly two digits, read back as the number. */
  lemma Pad2Field(n: nat)
    requires n < 60
    ensures |Pad2(n)| == 2 && AllDigits(Pad2(n)) && DecimalValue(Pad2(n)) == n
  {
    Pad2Digits(n);
    NatToStringShort(n);
  }

  lemma ZeroClockReadsBack()
    ensures ReadClock("00:00:00") == Some(0)
  {
    var z := "00";
    assert z == ['0'] + ['0'];
    LeadingZero(['0']);
    assert DecimalValue(['0']) == 0 by {
      assert ['0'][..0] == [];
    }
    ReadClockOfFields(z, z, z, 0, 0, 0, 0);
    assert JoinClock(z, z, z) == "00:00:00";
  }

  /** Minutes and seconds always take two characters; hours take at least two and more from 100 hours on. */
  lemma FormatDurationWidth(ms: int)
    requires ms > 0
    ensures |FormatDuration(Some(ms))| == 6 + |Pad2(Fields(ms).hours)|
    ensures ms / 1000 >= 360000 ==> |FormatDuration(Some(ms))| > 8
  {
    var c := Fields(ms);
    Pad2Digits(c.hours);
    Pad2Digits(c.minutes);
    Pad2Digits(c.seconds);
    NatToStringShort(c.minutes);
    NatToStringShort(c.seconds);
    if ms / 1000 >= 360000 {
      assert c.hours >= 100;
      NatToStringLong(c.hours);
    }
  }

  /** Numbers from 100 on print in at least three digits. */
  lemma NatToStringLong(n: nat)
    requires n >= 100
    ensures |NatToString(n)| >= 3
  {
    assert NatToString(n) == NatToString(n / 10) + [DigitChar(n % 10)];
    assert NatToString(n / 10) == NatToString(n / 100) + [DigitChar(n / 10 % 10)];
  }

  /** The fields `getElapsedTime` computes, each straight from the milliseconds. */
  function ElapsedClock(diff: int): Clock {
    Clock(diff / 3600000, JsRem(diff, 3600000) / 60000, JsRem(diff, 60000) / 1000)
  }

  /** `getElapsedTime` on the autonomous-mission screen: the same clock, computed from milliseconds directly. */
  function ElapsedTime(startTime: Option<int>, now: int): string {
    if startTime.None? then "00:00:00"
    else
      ClockText(ElapsedClock(now - startTime.value))
  }

  /** `a == q * b + r` with `0 <= r < b` pins down quotient and remainder. */
  lemma DivModUnique(a: int, b: int, q: int, r: int)
    requires b > 0 && 0 <= r < b && a == q * b + r
    ensures a / b == q && a % b == r
  {
    var q0, r0 := a / b, a % b;
    assert (q - q0) * b == r0 - r;
    if q > q0 {
      MulAtLeastDivisor(b, q - q0);
    } else if q < q0 {
      MulAtLeastDivisor(b, q0 - q);
    }
  }

  /** The fields computed from milliseconds directly are those of `formatDuration`. */
  lemma ElapsedFields(d: int)
    requires d >= 0
    ensures ElapsedClock(d) == Fields(d)
  {
    var s, r0 := d / 1000, d % 1000;
    var h, q := s / 3600, s % 3600;
    var m, t := q / 60, q % 60;
    DivModUnique(d, 1000, s, r0);
    DivModUnique(s, 3600, h, q);
    DivModUnique(q, 60, m, t);
    DivModUnique(d, 3600000, h, 1000 * q + r0);
    DivModUnique(1000 * q + r0, 60000, m, 1000 * t + r0);
    DivModUnique(d, 60000, h * 60 + m, 1000 * t + r0);
    DivModUnique(1000 * t + r0, 1000, t, r0);
    DivModUnique(s, 60, h * 60 + m, t);
  }

  /** A zero duration shows as `00:00:00` on either clock. */
  lemma ClockZero()
    ensures ClockText(Clock(0, 0, 0)) == "00:00:00"
  {
    assert NatToString(0) == ['0'];
    assert Pad2(0) == "00";
  }

  /** The two clocks agree on every non-negative duration. */
  lemma ElapsedTimeIsFormatDuration(start: int, now: int)
    requires now >= start
    ensures ElapsedTime(Some(start), now) == FormatDuration(Some(now - start))
  {
    if now == start {
      ElapsedTimeAtStart(start);
    } else {
      ElapsedTimeRunning(start, now);
    }
  }

  lemma ElapsedTimeRunning(start: int, now: int)
    requires now > start
    ensures ElapsedTime(Some(start), now) == FormatDuration(Some(now - start))
  {
    var d := now - start;
    var text := ClockText(Fields(d));
    ElapsedFields(d);
    assert ElapsedTime(Some(start), now) == text;
    assert FormatDuration(Some(d)) == text;
  }

  /** At the start instant the clock shows zero. */
  lemma ElapsedTimeAtStart(start: int)
    ensures ElapsedTime(Some(start), start) == "00:00:00"
  {
    assert ElapsedClock(0) == Clock(0, 0, 0);
    ClockZero();
  }

  /**
   * `getCurrentDuration`: the time since the start, less the recorded paused time and,
   * while paused, less the time since the pause; never below zero. A zero or missing
   * paused total subtracts nothing.
   */
  function CurrentDuration(startedAt: Option<int>, totalPausedMs: Option<int>, isPaused: bool,
                           pausedAt: Option<int>, now: int): (r: int)
    ensures r >= 0
    ensures startedAt.None? ==> r == 0
    ensures startedAt.Some? ==>
              r == NonNegative(ClockStop(isPaused, pausedAt, now) - startedAt.value - PausedBefore(totalPausedMs))
  {
    if startedAt.None? then 0
    else
      var total := now - startedAt.value;
      var total := if totalPausedMs.Some? && totalPausedMs.value != 0 then total - totalPausedMs.value else total;
      var total := if isPaused && pausedAt.Some? then total - (now - pausedAt.value) else total;
      if total < 0 then 0 else total
  }

  /** The instant the mission clock stopped at: the pause instant while paused, else now. */
  function ClockStop(isPaused: bool, pausedAt: Option<int>, now: int): int {
    if isPaused && pausedAt.Some? then pausedAt.value else now
  }

  /** The paused time recorded before the current run; a missing total counts as none. */
  function PausedBefore(totalPausedMs: Option<int>): int {
    if totalPausedMs.Some? then totalPausedMs.value else 0
  }

  /** `Math.max(0, x)`. */
  function NonNegative(x: int): int {
    if x < 0 then 0 else x
  }

  /** A mission started `d` milliseconds ago and never paused shows exactly `d`. */
  lemma FreshRunDuration(startedAt: int, totalPausedMs: Option<int>, d: nat)
    requires totalPausedMs.None? || totalPausedMs == Some(0)
    ensures CurrentDuration(Some(startedAt), totalPausedMs, false, None, startedAt + d) == d
  {
  }

  /** Once the running duration is positive, it grows by exactly the time that passes. */
  lemma RunningDurationGrowsExactly(startedAt: int, totalPausedMs: Option<int>, isPaused: bool,
                                    pausedAt: Option<int>, t1: int, t2: int)
    requires !isPaused || pausedAt.None?
    requires t1 <= t2 && CurrentDuration(Some(startedAt), totalPausedMs, isPaused, pausedAt, t1) > 0
    ensures CurrentDuration(Some(startedAt), totalPausedMs, isPaused, pausedAt, t2)
         == CurrentDuration(Some(startedAt), totalPausedMs, isPaused, pausedAt, t1) + (t2 - t1)
  {
  }

  /** While paused the duration stands still: it is the running time up to the pause. */
  lemma PausedDurationFrozen(startedAt: int, totalPausedMs: Option<int>, pausedAt: int, t1: int, t2: int)
    ensures CurrentDuration(Some(startedAt), totalPausedMs, true, Some(pausedAt), t1)
         == CurrentDuration(Some(startedAt), totalPausedMs, true, Some(pausedAt), t2)
         == CurrentDuration(Some(startedAt), totalPausedMs, false, None, pausedAt)
  {
  }

  /** While running the duration keeps pace with the clock: it never goes down and never gains more than the time passed. */
  lemma RunningDurationTracksClock(startedAt: int, totalPausedMs: Option<int>, isPaused: bool,
                                   pausedAt: Option<int>, t1: int, t2: int)
    requires !isPaused || pausedAt.None?
    requires t1 <= t2
    ensures CurrentDuration(Some(startedAt), totalPausedMs, isPaused, pausedAt, t1)
         <= CurrentDuration(Some(startedAt), totalPausedMs, isPaused, pausedAt, t2)
         <= CurrentDuration(Some(startedAt), totalPausedMs, isPaused, pausedAt, t1) + (t2 - t1)
  {
  }
}
