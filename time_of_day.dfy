/** Wall-clock "HH:MM" strings as the seeding script writes them, and the
    minute arithmetic it performs on them. */
module TimeOfDay {
  import opened Decimal

  const MinutesPerDay := 1440

  /** Two digits, a colon, two digits. */
  predicate IsTimeString(s: string)
  {
    |s| == 5 && IsDigit(s[0]) && IsDigit(s[1]) && s[2] == ':' && IsDigit(s[3]) && IsDigit(s[4])
  }

  function Hours(s: string): nat
    requires IsTimeString(s)
  {
    10 * DigitValue(s[0]) + DigitValue(s[1])
  }

  function Minutes(s: string): nat
    requires IsTimeString(s)
  {
    10 * DigitValue(s[3]) + DigitValue(s[4])
  }

  /** A clock reading "HH:MM" with hour 00..23 and minute 00..59. */
  predicate IsClockTime(s: string)
  {
    IsTimeString(s) && Hours(s) < 24 && Minutes(s) < 60
  }

  /** Minutes since midnight denoted by the string (the hour and minute fields
      are not range-checked, as Date.setHours does not check them either). */
  function MinuteOfDay(s: string): nat
    requires IsTimeString(s)
  {
    Hours(s) * 60 + Minutes(s)
  }

  /** n printed with padStart(2, '0'). */
  function Pad2(n: nat): (s: string)
    requires n < 100
    ensures |s| == 2 && IsDigit(s[0]) && IsDigit(s[1])
    ensures 10 * DigitValue(s[0]) + DigitValue(s[1]) == n
  {
    [DigitChar(n / 10), DigitChar(n % 10)]
  }

  /** The clock reading of minute m of the day. */
  function FormatTime(m: nat): (s: string)
    requires m < MinutesPerDay
    ensures IsClockTime(s) && MinuteOfDay(s) == m
  {
    Pad2(m / 60) + ":" + Pad2(m % 60)
  }

  /** addMinutesToTimeString: the time that many minutes later, wrapping
      around midnight (a negative count goes back in time). */
  function AddMinutesToTimeString(t: string, mins: int): (r: string)
    requires IsTimeString(t)
    ensures IsClockTime(r)
    ensures MinuteOfDay(r) == (MinuteOfDay(t) + mins) % MinutesPerDay
  {
    FormatTime((MinuteOfDay(t) + mins) % MinutesPerDay)
  }

  /** A clock reading is determined by its minute of the day. */
  lemma ClockTimeDeterminedByMinute(s: string, t: string)
    requires IsClockTime(s) && IsClockTime(t)
    requires MinuteOfDay(s) == MinuteOfDay(t)
    ensures s == t
  {
    assert Hours(s) == Hours(t) && Minutes(s) == Minutes(t);
    assert DigitValue(s[0]) == DigitValue(t[0]) && DigitValue(s[1]) == DigitValue(t[1]);
    assert DigitValue(s[3]) == DigitValue(t[3]) && DigitValue(s[4]) == DigitValue(t[4]);
  }

  /** Formatting the minute of a clock reading gives the reading back. */
  lemma FormatTimeOfClockTime(t: string)
    requires IsClockTime(t)
    ensures FormatTime(MinuteOfDay(t)) == t
  {
    ClockTimeDeterminedByMinute(FormatTime(MinuteOfDay(t)), t);
  }

  /** Adding zero minutes to a clock reading changes nothing. */
  lemma AddZeroMinutes(t: string)
    requires IsClockTime(t)
    ensures AddMinutesToTimeString(t, 0) == t
  {
    ClockTimeDeterminedByMinute(AddMinutesToTimeString(t, 0), t);
  }

  /** Adding a then b minutes is adding a + b minutes. */
  lemma AddMinutesCompose(t: string, a: int, b: int)
    requires IsTimeString(t)
    ensures AddMinutesToTimeString(AddMinutesToTimeString(t, a), b) == AddMinutesToTimeString(t, a + b)
  {
    var m := MinuteOfDay(t);
    ModAddMod(m + a, b);
    ClockTimeDeterminedByMinute(AddMinutesToTimeString(AddMinutesToTimeString(t, a), b), AddMinutesToTimeString(t, a + b));
  }

  lemma ModAddMod(x: int, y: int)
    ensures (x % MinutesPerDay + y) % MinutesPerDay == (x + y) % MinutesPerDay
  {
    var q := x / MinutesPerDay;
    assert x == q * MinutesPerDay + x % MinutesPerDay;
    assert x + y == (x % MinutesPerDay + y) + q * MinutesPerDay;
    ModShift(x % MinutesPerDay + y, q);
  }

  lemma ModShift(z: int, q: int)
    ensures (z + q * MinutesPerDay) % MinutesPerDay == z % MinutesPerDay
  {
    var r := z % MinutesPerDay;
    var p := z / MinutesPerDay;
    assert z == p * MinutesPerDay + r;
    assert z + q * MinutesPerDay == (p + q) * MinutesPerDay + r;
  }
}
