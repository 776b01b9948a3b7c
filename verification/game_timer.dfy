/**
 * The two-sided countdown clock of the game page: one counter of seconds
 * per side, the side to move losing one second per tick while the clock is
 * active, and the m:ss display with its colour thresholds.
 */
module GameTimer {
  import opened Wrappers
  import opened Chess

  /**
   * The state updater of one tick, `prev <= 1 ? 0 : prev - 1`: one second
   * less, never below zero.
   */
  function CountDown(prev: int): (next: int)
    ensures next >= 0
    ensures prev > 0 ==> next == prev - 1
    ensures prev <= 0 ==> next == 0
  {
    if prev <= 1 then 0 else prev - 1
  }

  /** Whether a tick on a counter showing `prev` calls `onTimeUp`. */
  predicate TimesUp(prev: int)
  {
    prev <= 1
  }

  /** A counter after `n` consecutive ticks of its own side. */
  function CountDownTimes(prev: int, n: nat): int
    decreases n
  {
    if n == 0 then prev else CountDownTimes(CountDown(prev), n - 1)
  }

  /** `n` ticks take `n` seconds off a counter, stopping at zero. */
  lemma {:induction false} CountDownTimesValue(prev: nat, n: nat)
    ensures CountDownTimes(prev, n) == if n <= prev then prev - n else 0
  {
    if n > 0 {
      CountDownTimesValue(CountDown(prev), n - 1);
    }
  }

  /**
   * From `t` seconds, the tick that finds the counter at 1 or below (and so
   * calls `onTimeUp`) is tick number `t`, and none of the first `t - 1` ticks
   * does. From zero or one second every tick reports it.
   */
  lemma {:induction false} TimeUpOnTickNumber(t: nat, k: nat)
    ensures TimesUp(CountDownTimes(t, k)) <==> k + 1 >= t
  {
    CountDownTimesValue(t, k);
  }

  /** The `whiteTime` / `blackTime` counters of the GameTimer component. */
  class Clock {
    const initialTime: nat
    var whiteTime: int
    var blackTime: int

    /** Both counters lie between zero and the starting time. */
    ghost predicate Valid()
      reads this
    {
      0 <= whiteTime <= initialTime && 0 <= blackTime <= initialTime
    }

    /** Both counters start at `initialTime`. */
    constructor (initialTime: nat)
      ensures Valid()
      ensures this.initialTime == initialTime
      ensures whiteTime == initialTime && blackTime == initialTime
    {
      this.initialTime := initialTime;
      whiteTime := initialTime;
      blackTime := initialTime;
    }

    /**
     * One firing of the one-second interval. Nothing happens while the clock
     * is inactive; otherwise only the counter of `playerTurn` counts down,
     * and `timeUp` reports whether `onTimeUp` was called.
     */
    method Tick(isActive: bool, playerTurn: Color) returns (timeUp: bool)
      requires Valid()
      modifies this
      ensures Valid()
      ensures !isActive ==> !timeUp && whiteTime == old(whiteTime) && blackTime == old(blackTime)
      ensures isActive && playerTurn == White ==>
        whiteTime == CountDown(old(whiteTime)) && blackTime == old(blackTime) && timeUp == TimesUp(old(whiteTime))
      ensures isActive && playerTurn == Black ==>
        blackTime == CountDown(old(blackTime)) && whiteTime == old(whiteTime) && timeUp == TimesUp(old(blackTime))
      ensures whiteTime <= old(whiteTime) && blackTime <= old(blackTime)
    {
      timeUp := false;
      if !isActive {
        return;
      }
      if playerTurn == White {
        timeUp := TimesUp(whiteTime);
        whiteTime := CountDown(whiteTime);
      } else {
        timeUp := TimesUp(blackTime);
        blackTime := CountDown(blackTime);
      }
    }
  }

  /** The decimal digit for `d`. */
  function Digit(d: nat): char
    requires d < 10
  {
    ('0' as int + d) as char
  }

  predicate IsDigit(c: char)
  {
    '0' <= c <= '9'
  }

  predicate AllDigits(s: string)
  {
    forall i :: 0 <= i < |s| ==> IsDigit(s[i])
  }

  /** `n.toString()` for a whole number: its decimal digits, without leading zeros. */
  function DecimalString(n: nat): (s: string)
    ensures |s| >= 1 && AllDigits(s)
    ensures n < 10 <==> |s| == 1
    ensures s[0] == '0' <==> n == 0
  {
    if n < 10 then [Digit(n)] else DecimalString(n / 10) + [Digit(n % 10)]
  }

  /** The number a string of decimal digits denotes. */
  function DecimalValue(s: string): nat
    requires AllDigits(s)
  {
    if s == [] then 0 else 10 * DecimalValue(s[..|s| - 1]) + (s[|s| - 1] as int - '0' as int)
  }

  /** Reading back a written number gives the number. */
  lemma {:induction false} DecimalRoundTrip(n: nat)
    ensures DecimalValue(DecimalString(n)) == n
  {
    var s := DecimalString(n);
    if n >= 10 {
      DecimalRoundTrip(n / 10);
      assert s[..|s| - 1] == DecimalString(n / 10);
    }
  }

  /** `s.padStart(2, "0")`: zeros in front up to length two; longer strings stay as they are. */
  function PadStart2(s: string): (padded: string)
    ensures |padded| == if |s| >= 2 then |s| else 2
    ensures forall i :: 0 <= i < |padded| ==>
      padded[i] == if i < |padded| - |s| then '0' else s[i - (|padded| - |s|)]
  {
    if |s| >= 2 then s else seq(2 - |s|, _ => '0') + s
  }

  /** `formatTime`: whole minutes, a colon, and the remaining seconds as two digits. */
  function FormatTime(seconds: nat): (text: string)
    ensures |text| >= 4 && text[|text| - 3] == ':'
    ensures text[..|text| - 3] == DecimalString(seconds / 60)
    ensures text[|text| - 2..] == [Digit(seconds % 60 / 10), Digit(seconds % 60 % 10)]
  {
    var mins, secs := DecimalString(seconds / 60), PadStart2(DecimalString(seconds % 60));
    SecondsField(seconds % 60);
    ColonFields(mins, secs);
    mins + ":" + secs
  }

  /** The fields of `mins + ":" + secs` when the seconds field has two characters. */
  lemma ColonFields(mins: string, secs: string)
    requires |mins| >= 1 && |secs| == 2
    ensures var t := mins + ":" + secs;
      |t| >= 4 && t[|t| - 3] == ':' && t[..|t| - 3] == mins && t[|t| - 2..] == secs
  {
    SplitAround(mins, ':', secs);
    assert mins + ":" + secs == mins + [':'] + secs;
  }

  /** Reads "m:ss" back: any number of minute digits, a colon, two second digits below 60. */
  function ParseTime(text: string): Option<nat>
  {
    if |text| >= 4 then ParseFields(text[..|text| - 3], text[|text| - 3], text[|text| - 2..]) else None
  }

  /** The value of minute digits, a separator and second digits, when they form a time. */
  function ParseFields(mins: string, separator: char, secs: string): Option<nat>
  {
    if separator == ':' && AllDigits(mins) && AllDigits(secs) && DecimalValue(secs) < 60 then
      Some(DecimalValue(mins) * 60 + DecimalValue(secs))
    else None
  }

  /** The seconds field of the display is always two digits, value `s % 60`. */
  lemma SecondsField(s: nat)
    requires s < 60
    ensures PadStart2(DecimalString(s)) == [Digit(s / 10), Digit(s % 10)]
  {
    if s >= 10 {
      assert DecimalString(s / 10) == [Digit(s / 10)];
    }
  }

  /** Two digits denote ten times the first plus the second. */
  lemma TwoDigitValue(a: nat, b: nat)
    requires a < 10 && b < 10
    ensures AllDigits([Digit(a), Digit(b)])
    ensures DecimalValue([Digit(a), Digit(b)]) == 10 * a + b
  {
    var s := [Digit(a), Digit(b)];
    assert s[..1] == [Digit(a)];
    assert [Digit(a)][..0] == [];
    assert DecimalValue([Digit(a)]) == a;
    assert s[|s| - 1] as int - '0' as int == b;
  }

  /** The two sides and the separator of `a + [c] + b`, recovered by position. */
  lemma SplitAround<T>(a: seq<T>, c: T, b: seq<T>)
    ensures (a + [c] + b)[..|a|] == a
    ensures (a + [c] + b)[|a|] == c
    ensures (a + [c] + b)[|a| + 1..] == b
  {
  }

  /** ParseTime splits "m:ss" at the colon three characters from the end. */
  lemma ParseTimeSplits(mins: string, secs: string)
    requires |mins| >= 1 && |secs| == 2
    ensures ParseTime(mins + ":" + secs) == ParseFields(mins, ':', secs)
  {
    SplitAround(mins, ':', secs);
    assert mins + ":" + secs == mins + [':'] + secs;
  }

  /**
   * The display is exact: minutes times sixty plus the two-digit seconds
   * field (always below sixty) gives back the counter.
   */
  lemma {:induction false} FormatTimeRoundTrip(seconds: nat)
    ensures ParseTime(FormatTime(seconds)) == Some(seconds)
  {
    var m, r := seconds / 60, seconds % 60;
    SecondsField(r);
    TwoDigitValue(r / 10, r % 10);
    DecimalRoundTrip(m);
    ParseTimeSplits(DecimalString(m), PadStart2(DecimalString(r)));
    assert m * 60 + r == seconds;
  }

  const RedText: string := "text-red-500"
  const YellowText: string := "text-yellow-500"
  const GrayText: string := "text-gray-800"

  /** `getTimeColor`: red at thirty seconds or less, yellow up to a minute, gray above. */
  function TimeColor(time: int): (colour: string)
    ensures colour == RedText <==> time <= 30
    ensures colour == YellowText <==> 30 < time <= 60
    ensures colour == GrayText <==> time > 60
  {
    if time <= 30 then "text-red-500"
    else if time <= 60 then "text-yellow-500"
    else "text-gray-800"
  }

  /** How alarming a colour is. */
  function Urgency(colour: string): nat
  {
    if colour == RedText then 2 else if colour == YellowText then 1 else 0
  }

  /** Less time left never shows a calmer colour. */
  lemma TimeColorMonotone(t1: int, t2: int)
    requires t1 <= t2
    ensures Urgency(TimeColor(t1)) >= Urgency(TimeColor(t2))
  {
  }
}
