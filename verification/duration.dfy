/** The duration formatter: `format_duration(x)` renders `str(timedelta(seconds=int(x)))`.
    The tracker's clock is counted here in whole microseconds, so the argument is a
    number of microseconds and `int(...)` becomes a truncation toward zero. */
module Duration {
  import opened Wrappers

  const MicrosPerSecond: int := 1_000_000
  const SecondsPerDay: int := 86_400

  predicate IsDigit(c: char) {
    '0' <= c <= '9'
  }

  predicate AllDigits(s: string) {
    forall i :: 0 <= i < |s| ==> IsDigit(s[i])
  }

  /** A decimal numeral as `%d` prints a non-negative number: no leading zero. */
  predicate Canonical(s: string) {
    && 1 <= |s|
    && AllDigits(s)
    && (s[0] == '0' ==> |s| == 1)
  }

  function DigitValue(c: char): int
    requires IsDigit(c)
  {
    c as int - '0' as int
  }

  function DigitChar(d: int): (c: char)
    requires 0 <= d < 10
    ensures IsDigit(c) && DigitValue(c) == d
  {
    ('0' as int + d) as char
  }

  /** The value of a string of decimal digits (the empty string reads as 0). */
  function ParseNat(s: string): nat
    requires AllDigits(s)
  {
    if |s| == 0 then 0 else 10 * ParseNat(s[..|s| - 1]) + DigitValue(s[|s| - 1])
  }

  /** `%d` of a non-negative number: a canonical numeral that reads back as `n`. */
  function NatToString(n: nat): (s: string)
    ensures Canonical(s)
    ensures ParseNat(s) == n
    decreases n
  {
    if n < 10 then [DigitChar(n)]
    else
      var p := NatToString(n / 10);
      var s := p + [DigitChar(n % 10)];
      assert s[..|s| - 1] == p;
      s
  }

  /** `%d` of any integer: a minus sign in front of negative numbers. */
  function IntToString(n: int): (s: string)
    ensures n >= 0 ==> Canonical(s) && ParseNat(s) == n
    ensures n < 0 ==> |s| >= 2 && s[0] == '-' && Canonical(s[1..]) && ParseNat(s[1..]) == -n
  {
    if n < 0 then "-" + NatToString(-n) else NatToString(n)
  }

  /** `%02d` of a number below one hundred. */
  function Pad2(n: int): (s: string)
    requires 0 <= n < 100
    ensures |s| == 2 && AllDigits(s) && ParseNat(s) == n
  {
    if n < 10 then
      var s := "0" + [DigitChar(n)];
      ParseTwoDigits(s);
      s
    else
      var s := NatToString(n);
      assert s == NatToString(n / 10) + [DigitChar(n % 10)];
      s
  }

  /** The value of a two-digit numeral. */
  lemma ParseTwoDigits(s: string)
    requires |s| == 2 && AllDigits(s)
    ensures ParseNat(s) == 10 * DigitValue(s[0]) + DigitValue(s[1])
  {
    assert s[..1][..0] == [];
    assert ParseNat(s[..1]) == DigitValue(s[0]);
  }

  /** Python's `int(x)` on a number of seconds held as microseconds: the whole
      seconds, rounded toward zero whatever the sign. */
  function TruncateSeconds(us: int): (s: int)
    ensures us >= 0 ==> 0 <= s && s * MicrosPerSecond <= us < (s + 1) * MicrosPerSecond
    ensures us < 0 ==> s <= 0 && (s - 1) * MicrosPerSecond < us <= s * MicrosPerSecond
  {
    if us >= 0 then us / MicrosPerSecond else -((-us) / MicrosPerSecond)
  }

  /** The `H:MM:SS` part of a timedelta's string, for the seconds within one day. */
  function ClockText(secs: int): string
    requires 0 <= secs < SecondsPerDay
  {
    var minutes := secs / 60;
    NatToString(minutes / 60) + ":" + Pad2(minutes % 60) + ":" + Pad2(secs % 60)
  }

  /** `str(timedelta(seconds=secs))` for a whole number of seconds: the days part is
      the floor of the quotient (Dafny's `/` agrees with Python's for a positive
      divisor) and is printed only when it is not zero. */
  function TimedeltaText(secs: int): string
  {
    var days := secs / SecondsPerDay;
    var clock := ClockText(secs % SecondsPerDay);
    if days == 0 then clock
    else IntToString(days) + (if days == 1 || days == -1 then " day, " else " days, ") + clock
  }

  /** `format_duration` applied to an elapsed time in microseconds. */
  function FormatDuration(us: int): string
  {
    TimedeltaText(TruncateSeconds(us))
  }

  /** Reads back an `H:MM:SS` text for less than one day: hours in canonical form
      below 24, minutes and seconds as two digits below 60. */
  function ParseClock(s: string): Option<int>
  {
    if |s| < 7 then None
    else
      var h := s[..|s| - 6];
      var m := s[|s| - 5..|s| - 3];
      var sec := s[|s| - 2..];
      if && s[|s| - 6] == ':' && s[|s| - 3] == ':'
         && Canonical(h) && AllDigits(m) && AllDigits(sec)
         && ParseNat(h) < 24 && ParseNat(m) < 60 && ParseNat(sec) < 60
      then Some(ParseNat(h) * 3600 + ParseNat(m) * 60 + ParseNat(sec))
      else None
  }

  /** A canonical numeral is what `%d` prints for its own value. */
  lemma {:induction false} CanonicalRoundTrip(s: string)
    requires Canonical(s)
    ensures NatToString(ParseNat(s)) == s
    decreases |s|
  {
    var p := s[..|s| - 1];
    var d := DigitValue(s[|s| - 1]);
    assert s == p + [s[|s| - 1]];
    if |p| == 0 {
      assert ParseNat(s) == d;
    } else {
      assert p[0] == s[0];
      assert p[0] != '0';
      CanonicalRoundTrip(p);
      var n := ParseNat(s);
      assert n == 10 * ParseNat(p) + d;
      assert ParseNat(p) != 0;
      assert n / 10 == ParseNat(p) && n % 10 == d;
    }
  }

  /** A two-digit numeral is what `%02d` prints for its own value. */
  lemma Pad2RoundTrip(s: string)
    requires |s| == 2 && AllDigits(s)
    ensures ParseNat(s) < 100
    ensures Pad2(ParseNat(s)) == s
  {
    var n := ParseNat(s);
    ParseTwoDigits(s);
    if s[0] != '0' {
      assert n / 10 == DigitValue(s[0]) && n % 10 == DigitValue(s[1]);
      assert NatToString(n / 10) == [s[0]];
    }
  }

  /** Splitting the `H:MM:SS` text of a clock back into its three fields. */
  lemma ClockTextParts(secs: int)
    requires 0 <= secs < SecondsPerDay
    ensures var s := ClockText(secs);
      && |s| >= 7
      && s[..|s| - 6] == NatToString(secs / 3600)
      && s[|s| - 6] == ':' && s[|s| - 3] == ':'
      && s[|s| - 5..|s| - 3] == Pad2((secs / 60) % 60)
      && s[|s| - 2..] == Pad2(secs % 60)
  {
    assert secs / 60 / 60 == secs / 3600;
    ClockFields(NatToString(secs / 3600), Pad2((secs / 60) % 60), Pad2(secs % 60));
  }

  /** Where the fields of `h:mm:ss` sit, counted from the end of the text. */
  lemma ClockFields(h: string, m: string, x: string)
    requires |m| == 2 && |x| == 2
    ensures var s := h + ":" + m + ":" + x;
      && |s| == |h| + 6
      && s[..|s| - 6] == h
      && s[|s| - 6] == ':' && s[|s| - 3] == ':'
      && s[|s| - 5..|s| - 3] == m
      && s[|s| - 2..] == x
  {
  }

  /** Within one day, the formatter's text reads back as the elapsed whole seconds:
      `H:MM:SS` with unpadded hours and two-digit minutes and seconds. */
  lemma FormatDurationRoundTrip(us: int)
    requires 0 <= us < SecondsPerDay * MicrosPerSecond
    ensures ParseClock(FormatDuration(us)) == Some(us / MicrosPerSecond)
  {
    var secs := TruncateSeconds(us);
    assert secs == us / MicrosPerSecond;
    assert 0 <= secs < SecondsPerDay;
    assert secs / SecondsPerDay == 0 && secs % SecondsPerDay == secs;
    var s := FormatDuration(us);
    assert s == ClockText(secs);
    ClockTextParts(secs);
    CanonicalRoundTrip(NatToString(secs / 3600));
    var h := s[..|s| - 6];
    var m := s[|s| - 5..|s| - 3];
    var x := s[|s| - 2..];
    assert ParseNat(h) == secs / 3600 < 24;
    assert ParseNat(m) == (secs / 60) % 60;
    assert ParseNat(x) == secs % 60;
    assert (secs / 3600) * 3600 + ((secs / 60) % 60) * 60 + secs % 60 == secs;
  }

  /** Every text the reader accepts is exactly what the formatter prints for it. */
  lemma ParseClockInverse(s: string, n: int)
    requires ParseClock(s) == Some(n)
    ensures 0 <= n < SecondsPerDay
    ensures FormatDuration(n * MicrosPerSecond) == s
  {
    var h := s[..|s| - 6];
    var m := s[|s| - 5..|s| - 3];
    var x := s[|s| - 2..];
    var hv, mv, xv := ParseNat(h), ParseNat(m), ParseNat(x);
    assert n == hv * 3600 + mv * 60 + xv;
    assert TruncateSeconds(n * MicrosPerSecond) == n;
    assert n / SecondsPerDay == 0 && n % SecondsPerDay == n;
    assert n / 60 == hv * 60 + mv && n % 60 == xv;
    assert (n / 60) / 60 == hv && (n / 60) % 60 == mv;
    CanonicalRoundTrip(h);
    Pad2RoundTrip(m);
    Pad2RoundTrip(x);
    assert s == h + ":" + m + ":" + x;
  }

  /** The fraction of a second never shows: only the truncated whole seconds matter. */
  lemma FormatDurationTruncates(us: int)
    ensures FormatDuration(us) == FormatDuration(TruncateSeconds(us) * MicrosPerSecond)
  {
    var s := TruncateSeconds(us);
    assert TruncateSeconds(s * MicrosPerSecond) == s;
  }

  /** The clock text of a time of day given as hours, minutes and seconds. */
  lemma ClockTextOf(secs: int, h: int, m: int, x: int)
    requires 0 <= h < 24 && 0 <= m < 60 && 0 <= x < 60
    requires secs == h * 3600 + m * 60 + x
    ensures 0 <= secs < SecondsPerDay
    ensures ClockText(secs) == NatToString(h) + ":" + Pad2(m) + ":" + Pad2(x)
  {
    DivMod60(secs, h * 60 + m, x);
    DivMod60(h * 60 + m, h, m);
  }

  /** Quotient and remainder by sixty are determined by any decomposition. */
  lemma DivMod60(a: int, q: int, r: int)
    requires 0 <= r < 60 && a == q * 60 + r
    ensures a / 60 == q && a % 60 == r
  {
  }

  /** No time at all prints as `0:00:00`. */
  lemma FormatZeroExample()
    ensures FormatDuration(0) == "0:00:00"
  {
    ClockTextOf(0, 0, 0, 0);
    assert NatToString(0) == "0" && Pad2(0) == "00";
  }

  /** Minutes and seconds are padded to two digits; the fraction of a second is dropped. */
  lemma FormatMinuteExample()
    ensures FormatDuration(65 * MicrosPerSecond + 999_999) == "0:01:05"
  {
    assert TruncateSeconds(65 * MicrosPerSecond + 999_999) == 65;
    ClockTextOf(65, 0, 1, 5);
    assert NatToString(0) == "0" && Pad2(1) == "01" && Pad2(5) == "05";
  }

  /** Hours are not padded. */
  lemma FormatHourExample()
    ensures FormatDuration(3661 * MicrosPerSecond) == "1:01:01"
  {
    assert TruncateSeconds(3661 * MicrosPerSecond) == 3661;
    ClockTextOf(3661, 1, 1, 1);
    assert NatToString(1) == "1" && Pad2(1) == "01";
  }

  /** Less than a second before zero truncates to zero, not to minus one. */
  lemma FormatNegativeFractionExample()
    ensures FormatDuration(-500_000) == "0:00:00"
  {
    assert TruncateSeconds(-500_000) == 0;
    FormatZeroExample();
  }

  /** From one day on, the days are printed in front: one day in the singular... */
  lemma FormatDurationOneDayExample()
    ensures FormatDuration(90_061 * MicrosPerSecond) == "1 day, 1:01:01"
  {
  }

  /** ... and more days in the plural. */
  lemma FormatDurationDaysExample()
    ensures FormatDuration(2 * SecondsPerDay * MicrosPerSecond) == "2 days, 0:00:00"
  {
  }

  /** A negative elapsed time (a clock that went backwards) borrows a whole day. */
  lemma FormatDurationNegativeExample()
    ensures FormatDuration(-MicrosPerSecond) == "-1 day, 23:59:59"
  {
    assert TruncateSeconds(-MicrosPerSecond) == -1;
    NegativeSecondText();
  }

  /** Minus one second is minus one day plus the last second of a day. */
  lemma NegativeSecondText()
    ensures TimedeltaText(-1) == "-1 day, 23:59:59"
  {
    assert -1 / SecondsPerDay == -1 && -1 % SecondsPerDay == 86399;
    LastSecondText();
    MinusOneText();
  }

  /** The last second of a day. */
  lemma LastSecondText()
    ensures ClockText(86399) == "23:59:59"
  {
    ClockTextOf(86399, 23, 59, 59);
    assert NatToString(23) == "23" && Pad2(59) == "59";
  }

  /** The day count of a negative elapsed second. */
  lemma MinusOneText()
    ensures IntToString(-1) == "-1"
  {
    assert NatToString(1) == "1";
  }
}
