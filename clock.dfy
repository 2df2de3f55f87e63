/** The injected clock and `strftime("%H:%M")`.

    An instant is a whole number of local wall-clock seconds (the value of
    `datetime.now()` or `get_istanbul_time()`, counted from a local midnight),
    so the minute of the day is `(t / 60) % 1440`. */
module Clock {
  import opened Wrappers
  import opened Text

  /** A minute of the day, 00:00 to 23:59. */
  type Minute = m: int | 0 <= m < 1440

  function MinuteOfDay(t: int): Minute {
    (t / 60) % 1440
  }

  function TwoDigits(n: nat): string
    requires n < 100
  {
    [DigitChar(n / 10), DigitChar(n % 10)]
  }

  /** `strftime("%H:%M")` of a minute of the day: zero-padded hour, a colon, zero-padded minute. */
  function ClockText(m: Minute): (r: string)
    ensures |r| == 5 && r[2] == ':'
  {
    TwoDigits(m / 60) + ":" + TwoDigits(m % 60)
  }

  /** `t.strftime("%H:%M")`. */
  function HourMinute(t: int): string {
    ClockText(MinuteOfDay(t))
  }

  /** `(t + timedelta(minutes=k)).strftime("%H:%M")`. */
  function ClockAfter(t: int, k: int): string {
    HourMinute(t + 60 * k)
  }

  /** Adding k minutes to an instant moves its clock face k minutes on, wrapping at midnight. */
  lemma ClockAfterWraps(t: int, k: int)
    ensures ClockAfter(t, k) == ClockText((MinuteOfDay(t) + k) % 1440)
  {
    var q := t / 60;
    assert (t + 60 * k) / 60 == q + k;
    var a := q % 1440;
    assert q == (q / 1440) * 1440 + a;
    assert q + k == (q / 1440) * 1440 + (a + k);
    ModShift(a + k, q / 1440);
  }

  lemma ModShift(x: int, n: int)
    ensures (n * 1440 + x) % 1440 == x % 1440
  {
  }

  function DigitValue(c: char): nat
    requires IsDigit(c)
  {
    c as int - '0' as int
  }

  /** Reads a zero-padded "HH:MM" clock face back into a minute of the day; the inverse of ClockText. */
  function ParseClock(s: string): (r: Option<Minute>)
    ensures r.Some? ==> |s| == 5 && s[2] == ':'
  {
    if |s| == 5 && IsDigit(s[0]) && IsDigit(s[1]) && s[2] == ':' && IsDigit(s[3]) && IsDigit(s[4]) then
      var h := DigitValue(s[0]) * 10 + DigitValue(s[1]);
      var m := DigitValue(s[3]) * 10 + DigitValue(s[4]);
      if h < 24 && m < 60 then Some(h * 60 + m) else None
    else None
  }

  lemma ParseClockText(m: Minute)
    ensures ParseClock(ClockText(m)) == Some(m)
  {
    var s := ClockText(m);
    assert s[0] == DigitChar(m / 60 / 10) && s[1] == DigitChar(m / 60 % 10);
    assert s[3] == DigitChar(m % 60 / 10) && s[4] == DigitChar(m % 60 % 10);
  }

  lemma ClockTextParse(s: string)
    requires ParseClock(s).Some?
    ensures ClockText(ParseClock(s).value) == s
  {
    var h := DigitValue(s[0]) * 10 + DigitValue(s[1]);
    var m := DigitValue(s[3]) * 10 + DigitValue(s[4]);
    var v := h * 60 + m;
    assert v / 60 == h && v % 60 == m;
    assert h / 10 == DigitValue(s[0]) && h % 10 == DigitValue(s[1]);
    assert m / 10 == DigitValue(s[3]) && m % 10 == DigitValue(s[4]);
    var r := ClockText(v);
    assert r[0] == s[0] && r[1] == s[1] && r[3] == s[3] && r[4] == s[4];
  }
}
