/**
 * `stringFromTimeInterval`: a duration in seconds as the clock text shown on
 * the duration button, "MM:SS" under an hour and " H:MM:SS" from an hour on:
 * the hour field is space-padded to width 2 (`%2d`) and takes more digits from
 * 100 hours.
 *
 * The conversion `NSInteger(self)` truncates toward zero, and Swift's `/` and
 * `%` on integers truncate toward zero too; both are written out, because
 * Dafny's own `/` and `%` are Euclidean. The two printf directives are
 * rendered as C's `printf` does: `%0.2d` asks for at least two digits (the
 * `0` flag has no effect once a precision is given) after any minus sign, and
 * `%2d` pads the whole number, sign included, with spaces to width 2.
 */
module DurationFormat {
  import opened Wrappers

  // ---------------------------------------------------------------------------
  // integer arithmetic as Swift does it

  /** `NSInteger(x)`: the integer part of `x`, rounding toward zero. */
  function TruncateToInteger(x: real): (r: int)
    ensures 0.0 <= x ==> 0 <= r && r as real <= x < r as real + 1.0
    ensures x < 0.0 ==> r <= 0 && r as real - 1.0 < x <= r as real
  {
    if x >= 0.0 then x.Floor else -((-x).Floor)
  }

  /** Swift's `a / b` for a positive divisor: the quotient rounded toward zero. */
  function Quot(a: int, b: int): int
    requires b > 0
  {
    if a >= 0 then a / b else -((-a) / b)
  }

  /** Swift's `a % b` for a positive divisor: what is left after the truncated quotient. */
  function Rem(a: int, b: int): int
    requires b > 0
  {
    a - Quot(a, b) * b
  }

  /** The truncated quotient and the remainder: the remainder has the sign of `a` and is smaller than `b`. */
  lemma QuotRem(a: int, b: int)
    requires b > 0
    ensures a == Quot(a, b) * b + Rem(a, b)
    ensures 0 <= a ==> 0 <= Quot(a, b) && 0 <= Rem(a, b) < b
    ensures a < 0 ==> Quot(a, b) <= 0 && -b < Rem(a, b) <= 0
  {
    if a >= 0 {
      EuclideanSplit(a, b);
    } else {
      EuclideanSplit(-a, b);
      var q := (-a) / b;
      assert Rem(a, b) == a + q * b;
    }
  }

  /** Dafny's division of a non-negative number: a non-negative quotient and a remainder below `b`. */
  lemma EuclideanSplit(a: int, b: int)
    requires 0 <= a && 0 < b
    ensures a == (a / b) * b + a % b && 0 <= a / b && 0 <= a % b < b
  {
  }

  function Seconds(time: int): int { Rem(time, 60) }
  function Minutes(time: int): int { Rem(Quot(time, 60), 60) }
  function Hours(time: int): int { Quot(time, 3600) }

  // ---------------------------------------------------------------------------
  // decimal rendering

  predicate IsDigit(c: char) { '0' <= c <= '9' }

  predicate AllDigits(s: string)
  {
    forall i :: 0 <= i < |s| ==> IsDigit(s[i])
  }

  function DigitChar(d: int): (c: char)
    requires 0 <= d <= 9
    ensures IsDigit(c)
  {
    ('0' as int + d) as char
  }

  function DigitValue(c: char): int
  {
    c as int - '0' as int
  }

  function Abs(n: int): nat
  {
    if n < 0 then -n else n
  }

  /** The decimal digits of `n`, most significant first, with no leading zero. */
  function DecimalDigits(n: nat): (r: string)
    ensures 1 <= |r| && AllDigits(r)
    ensures n < 10 <==> |r| == 1
    ensures n < 100 ==> |r| <= 2
  {
    if n < 10 then [DigitChar(n)] else DecimalDigits(n / 10) + [DigitChar(n % 10)]
  }

  /** `s` preceded by enough copies of `c` to reach `width` characters. */
  function PadLeft(s: string, width: nat, c: char): (r: string)
    ensures |r| == if |s| < width then width else |s|
    ensures r[|r| - |s|..] == s
    ensures forall i :: 0 <= i < |r| - |s| ==> r[i] == c
  {
    if |s| < width then seq(width - |s|, _ => c) + s else s
  }

  /** `String(format: "%0.2d", n)`. */
  function PrecisionTwo(n: int): string
  {
    (if n < 0 then "-" else "") + PadLeft(DecimalDigits(Abs(n)), 2, '0')
  }

  /** `String(format: "%2d", n)`. */
  function WidthTwo(n: int): string
  {
    PadLeft((if n < 0 then "-" else "") + DecimalDigits(Abs(n)), 2, ' ')
  }

  // ---------------------------------------------------------------------------
  // the formatter

  /**
   * `stringFromTimeInterval`: the clock text of the whole number of seconds
   * in `t`, five characters "MM:SS" under an hour and longer from an hour on.
   */
  function StringFromTimeInterval(t: real): (r: string)
    ensures 0.0 <= t < 3600.0 ==> |r| == 5 && r[2] == ':'
    ensures 3600.0 <= t ==> 8 <= |r|
  {
    var time := TruncateToInteger(t);
    var text := ClockText(time);
    if t < 0.0 then text
    else
      TruncatedUnderAnHour(t);
      ClockShape(time, text);
      text
  }

  /** A non-negative duration keeps a non-negative whole part, under 3600 exactly when the duration is under an hour. */
  lemma TruncatedUnderAnHour(t: real)
    requires 0.0 <= t
    ensures 0 <= TruncateToInteger(t)
    ensures TruncateToInteger(t) < 3600 <==> t < 3600.0
  {
  }

  /** The clock text of a whole number of seconds: "%0.2d:%0.2d" without hours, "%2d:%0.2d:%0.2d" with. */
  function ClockText(time: int): string
  {
    var seconds := Seconds(time);
    var minutes := Minutes(time);
    var hours := Hours(time);
    if hours == 0 then PrecisionTwo(minutes) + ":" + PrecisionTwo(seconds)
    else WidthTwo(hours) + ":" + PrecisionTwo(minutes) + ":" + PrecisionTwo(seconds)
  }

  // ---------------------------------------------------------------------------
  // the fields

  /**
   * Hours, minutes and seconds put the whole number of seconds back
   * together; minutes and seconds lie below 60 in size and all three take the
   * sign of the time.
   */
  lemma {:induction false} Decomposition(time: int)
    ensures Hours(time) * 3600 + Minutes(time) * 60 + Seconds(time) == time
    ensures 0 <= time ==> 0 <= Hours(time) && 0 <= Minutes(time) < 60 && 0 <= Seconds(time) < 60
    ensures time < 0 ==> Hours(time) <= 0 && -60 < Minutes(time) <= 0 && -60 < Seconds(time) <= 0
  {
    var q := Quot(time, 60);
    var r := Seconds(time);
    QuotRem(time, 60);
    QuotRem(q, 60);
    var q2 := Quot(q, 60);
    var m := Minutes(time);
    assert time == q * 60 + r;
    assert q == q2 * 60 + m;
    assert time == q2 * 3600 + m * 60 + r;
    if 0 <= time {
      assert 0 <= m * 60 + r < 3600;
      QuotUnique(time, 3600, q2, m * 60 + r);
    } else {
      assert -3600 < m * 60 + r <= 0;
      QuotUniqueNegative(time, 3600, q2, m * 60 + r);
    }
  }

  /** A non-negative `a` split as `q * b + r` with `0 <= r < b` has quotient `q`, for the two divisors the formatter uses. */
  lemma QuotUnique(a: int, b: int, q: int, r: int)
    requires b == 60 || b == 3600
    requires 0 <= a && a == q * b + r && 0 <= r < b
    ensures Quot(a, b) == q
  {
  }

  /** A negative `a` split as `q * b + r` with `-b < r <= 0` has quotient `q`, for the two divisors the formatter uses. */
  lemma QuotUniqueNegative(a: int, b: int, q: int, r: int)
    requires b == 60 || b == 3600
    requires a < 0 && a == q * b + r && -b < r <= 0
    ensures Quot(a, b) == q
  {
  }

  /** Under an hour there is no hour field. */
  lemma HoursZeroUnderAnHour(time: int)
    requires 0 <= time
    ensures Hours(time) == 0 <==> time < 3600
  {
    if time < 3600 {
      QuotUnique(time, 3600, 0, time);
    }
  }

  // ---------------------------------------------------------------------------
  // the text

  /** A number below 100 with `%0.2d`: exactly its two decimal digits. */
  lemma TwoDigitField(n: int)
    requires 0 <= n < 100
    ensures PrecisionTwo(n) == [DigitChar(n / 10), DigitChar(n % 10)]
  {
    if n < 10 {
      assert PadLeft(DecimalDigits(n), 2, '0') == ['0'] + [DigitChar(n)];
    } else {
      assert DecimalDigits(n / 10) == [DigitChar(n / 10)];
    }
  }

  /** Under an hour the text is "MM:SS": five characters, two-digit minutes and seconds around a colon. */
  lemma UnderAnHour(time: int)
    requires 0 <= time < 3600
    ensures ClockText(time)
      == [DigitChar(Minutes(time) / 10), DigitChar(Minutes(time) % 10), ':',
          DigitChar(Seconds(time) / 10), DigitChar(Seconds(time) % 10)]
    ensures |ClockText(time)| == 5
  {
    HoursZeroUnderAnHour(time);
    Decomposition(time);
    var minutes, seconds := Minutes(time), Seconds(time);
    TwoDigitField(minutes);
    TwoDigitField(seconds);
    assert ClockText(time) == PrecisionTwo(minutes) + ":" + PrecisionTwo(seconds);
    JoinFields([DigitChar(minutes / 10), DigitChar(minutes % 10)], [DigitChar(seconds / 10), DigitChar(seconds % 10)]);
  }

  /** The text has five characters under an hour, and at least eight with the colons in place from an hour on. */
  lemma ClockShape(time: int, text: string)
    requires 0 <= time && text == ClockText(time)
    ensures time < 3600 ==> |text| == 5 && text[2] == ':'
    ensures 3600 <= time ==> 8 <= |text| && text[|text| - 6] == ':' && text[|text| - 3] == ':'
  {
    if time < 3600 {
      UnderAnHour(time);
    } else {
      LongShape(time, text);
    }
  }

  /** From an hour on, the minutes and seconds take the last six characters, each after a colon. */
  lemma LongShape(time: int, text: string)
    requires 3600 <= time && text == ClockText(time)
    ensures 8 <= |text| && text[|text| - 6] == ':' && text[|text| - 3] == ':'
  {
    FromAnHour(time);
    ColonsAtEnd(WidthTwo(Hours(time)), DigitChar(Minutes(time) / 10), DigitChar(Minutes(time) % 10),
                DigitChar(Seconds(time) / 10), DigitChar(Seconds(time) % 10));
  }

  /** A field of two or more characters, then ":MM:SS": the colons sit six and three from the end. */
  lemma ColonsAtEnd(h: string, m1: char, m2: char, s1: char, s2: char)
    requires |h| >= 2
    ensures var s := h + [':', m1, m2, ':', s1, s2]; 8 <= |s| && s[|s| - 6] == ':' && s[|s| - 3] == ':'
  {
  }

  /** Two two-character fields around a colon. */
  lemma JoinFields(a: string, b: string)
    requires |a| == 2 && |b| == 2
    ensures a + ":" + b == [a[0], a[1], ':', b[0], b[1]]
  {
  }

  /** From an hour on, the text is the hour count padded with spaces to width 2, then ":MM:SS". */
  lemma FromAnHour(time: int)
    requires 3600 <= time
    ensures 1 <= Hours(time)
    ensures ClockText(time)
      == WidthTwo(Hours(time))
         + [':', DigitChar(Minutes(time) / 10), DigitChar(Minutes(time) % 10), ':',
            DigitChar(Seconds(time) / 10), DigitChar(Seconds(time) % 10)]
    ensures WidthTwo(Hours(time)) == if Hours(time) < 10 then [' '] + DecimalDigits(Hours(time)) else DecimalDigits(Hours(time))
  {
    HoursZeroUnderAnHour(time);
    Decomposition(time);
    var hours, minutes, seconds := Hours(time), Minutes(time), Seconds(time);
    TwoDigitField(minutes);
    TwoDigitField(seconds);
    assert ClockText(time) == WidthTwo(hours) + ":" + PrecisionTwo(minutes) + ":" + PrecisionTwo(seconds);
    JoinHourFields(WidthTwo(hours), [DigitChar(minutes / 10), DigitChar(minutes % 10)],
                   [DigitChar(seconds / 10), DigitChar(seconds % 10)]);
    HourField(hours);
  }

  /** An hour field, then two two-character fields, separated by colons. */
  lemma JoinHourFields(h: string, a: string, b: string)
    requires |a| == 2 && |b| == 2
    ensures h + ":" + a + ":" + b == h + [':', a[0], a[1], ':', b[0], b[1]]
  {
  }

  /** A positive hour count with `%2d`: a single digit gets one leading space, longer counts none. */
  lemma HourField(hours: int)
    requires 1 <= hours
    ensures WidthTwo(hours) == if hours < 10 then [' '] + DecimalDigits(hours) else DecimalDigits(hours)
  {
    assert "" + DecimalDigits(hours) == DecimalDigits(hours);
  }

  /** Zero seconds read "00:00", the title the duration button starts with. */
  lemma ZeroIsInitialTitle()
    ensures StringFromTimeInterval(0.0) == "00:00"
  {
    assert TruncateToInteger(0.0) == 0;
    QuotUnique(0, 60, 0, 0);
    UnderAnHour(0);
  }

  /** 65 seconds read "01:05". */
  lemma MinuteExample()
    ensures StringFromTimeInterval(65.0) == "01:05"
  {
    assert TruncateToInteger(65.0) == 65;
    QuotUnique(65, 60, 1, 5);
    QuotUnique(1, 60, 0, 1);
    UnderAnHour(65);
  }

  /** The fraction of a second is dropped: 59.9 seconds read "00:59". */
  lemma FractionExample()
    ensures StringFromTimeInterval(59.9) == "00:59"
  {
    assert TruncateToInteger(59.9) == 59;
    LastSecondOfMinute();
  }

  /** 59 whole seconds read "00:59". */
  lemma LastSecondOfMinute()
    ensures ClockText(59) == "00:59"
  {
    QuotUnique(59, 60, 0, 59);
    UnderAnHour(59);
  }

  /** One hour, two minutes and five seconds read " 1:02:05". */
  lemma HourExample()
    ensures StringFromTimeInterval(3725.0) == " 1:02:05"
  {
    assert TruncateToInteger(3725.0) == 3725;
    QuotUnique(3725, 60, 62, 5);
    QuotUnique(62, 60, 1, 2);
    QuotUnique(3725, 3600, 1, 125);
    FromAnHour(3725);
    assert DecimalDigits(1) == "1";
  }

  /** A negative duration gives negative fields, each rendered with its minus sign: -65 seconds read "-01:-05". */
  lemma NegativeExample()
    ensures StringFromTimeInterval(-65.0) == "-01:-05"
  {
    assert TruncateToInteger(-65.0) == -65;
    NegativeMinute();
  }

  /** -65 whole seconds read "-01:-05". */
  lemma NegativeMinute()
    ensures ClockText(-65) == "-01:-05"
  {
    QuotUnique(65, 60, 1, 5);
    QuotUnique(1, 60, 0, 1);
    QuotUnique(65, 3600, 0, 65);
    assert Seconds(-65) == -5 && Minutes(-65) == -1 && Hours(-65) == 0;
    assert PrecisionTwo(-1) == "-" + "01";
    assert PrecisionTwo(-5) == "-" + "05";
    assert ClockText(-65) == PrecisionTwo(-1) + ":" + PrecisionTwo(-5);
  }

  // ---------------------------------------------------------------------------
  // reading the text back

  /** The number a string of decimal digits stands for. */
  function DigitsValue(s: string): int
  {
    if s == [] then 0 else DigitsValue(s[..|s| - 1]) * 10 + DigitValue(s[|s| - 1])
  }

  /** Reads "MM:SS" or "H:MM:SS" (the hour field possibly led by one space) back into whole seconds. */
  function ParseClock(s: string): Option<int>
  {
    if |s| == 5 && s[2] == ':' && AllDigits(s[..2]) && AllDigits(s[3..]) then
      Some(DigitsValue(s[..2]) * 60 + DigitsValue(s[3..]))
    else if |s| >= 8 && s[|s| - 6] == ':' && s[|s| - 3] == ':' then
      var field := s[..|s| - 6];
      var hours := if field[0] == ' ' then field[1..] else field;
      var minutes, seconds := s[|s| - 5..|s| - 3], s[|s| - 2..];
      if hours != [] && AllDigits(hours) && AllDigits(minutes) && AllDigits(seconds) then
        Some(DigitsValue(hours) * 3600 + DigitsValue(minutes) * 60 + DigitsValue(seconds))
      else None
    else None
  }

  /** Decimal digits read back as the number they render. */
  lemma {:induction false} DigitsRoundTrip(n: nat)
    ensures DigitsValue(DecimalDigits(n)) == n
  {
    if n >= 10 {
      var s := DecimalDigits(n);
      assert s[..|s| - 1] == DecimalDigits(n / 10);
      DigitsRoundTrip(n / 10);
    }
  }

  /** Two digits read back as the number below 100 they render. */
  lemma TwoDigitsRoundTrip(n: int)
    requires 0 <= n < 100
    ensures DigitsValue([DigitChar(n / 10), DigitChar(n % 10)]) == n
  {
    var s := [DigitChar(n / 10), DigitChar(n % 10)];
    assert s[..1] == [DigitChar(n / 10)];
    assert DigitsValue([DigitChar(n / 10)]) == n / 10 by {
      assert [DigitChar(n / 10)][..0] == [];
    }
  }

  /** "MM:SS" read back. */
  lemma ParseShort(s: string, mm: string, ss: string, time: int)
    requires s == mm + ":" + ss
    requires |mm| == 2 && |ss| == 2 && AllDigits(mm) && AllDigits(ss)
    requires time == DigitsValue(mm) * 60 + DigitsValue(ss)
    ensures ParseClock(s) == Some(time)
  {
    assert s[..2] == mm && s[3..] == ss && s[2] == ':';
  }

  /** "H:MM:SS", with the hour digits possibly led by one space, read back. */
  lemma ParseLong(s: string, field: string, hours: string, mm: string, ss: string, time: int)
    requires s == field + ":" + mm + ":" + ss
    requires hours != [] && AllDigits(hours) && (field == hours || field == [' '] + hours) && |field| >= 2
    requires |mm| == 2 && |ss| == 2 && AllDigits(mm) && AllDigits(ss)
    requires time == DigitsValue(hours) * 3600 + DigitsValue(mm) * 60 + DigitsValue(ss)
    ensures ParseClock(s) == Some(time)
  {
    LongSlices(field, mm, ss);
    if field == hours {
      assert IsDigit(hours[0]);
      assert s[0] == field[0];
    } else {
      assert s[0] == ' ';
      assert s[1..|s| - 6] == s[..|s| - 6][1..];
    }
    ReadLong(s, hours, mm, ss, time);
  }

  /** A text of eight characters or more with colons six and three from the end reads as hours, minutes and seconds. */
  lemma ReadLong(s: string, hours: string, mm: string, ss: string, time: int)
    requires |s| >= 8 && s[|s| - 6] == ':' && s[|s| - 3] == ':'
    requires hours == (if s[0] == ' ' then s[1..|s| - 6] else s[..|s| - 6])
    requires mm == s[|s| - 5..|s| - 3] && ss == s[|s| - 2..]
    requires hours != [] && AllDigits(hours) && AllDigits(mm) && AllDigits(ss)
    requires time == DigitsValue(hours) * 3600 + DigitsValue(mm) * 60 + DigitsValue(ss)
    ensures ParseClock(s) == Some(time)
  {
    var field := s[..|s| - 6];
    assert field[0] == s[0];
    assert field[1..] == s[1..|s| - 6];
    assert hours == if field[0] == ' ' then field[1..] else field;
    assert |s| != 5;
  }

  /** Where the fields of "H:MM:SS" sit, counted from the end. */
  lemma LongSlices(field: string, mm: string, ss: string)
    requires |mm| == 2 && |ss| == 2
    ensures var s := field + ":" + mm + ":" + ss;
      |s| == |field| + 6 && s[..|s| - 6] == field && s[|s| - 6] == ':' && s[|s| - 3] == ':'
      && s[|s| - 5..|s| - 3] == mm && s[|s| - 2..] == ss
  {
    var s := field + ":" + mm + ":" + ss;
    assert s == field + [':', mm[0], mm[1], ':', ss[0], ss[1]];
  }

  /** A two-digit field is two digits that read back as its number. */
  lemma TwoDigitText(n: int)
    requires 0 <= n < 100
    ensures |PrecisionTwo(n)| == 2 && AllDigits(PrecisionTwo(n)) && DigitsValue(PrecisionTwo(n)) == n
  {
    TwoDigitField(n);
    TwoDigitsRoundTrip(n);
  }

  /** The hour digits of an hour field, read back. */
  lemma HourText(hours: int)
    requires 1 <= hours
    ensures var field, digits := WidthTwo(hours), DecimalDigits(hours);
      |field| >= 2 && digits != [] && AllDigits(digits) && (field == digits || field == [' '] + digits)
      && DigitsValue(digits) == hours
  {
    HourField(hours);
    DigitsRoundTrip(hours);
  }

  /** Under an hour, the clock text "MM:SS" reads back as the time. */
  lemma ShortClockRoundTrip(time: int)
    requires 0 <= time < 3600
    ensures ParseClock(ClockText(time)) == Some(time)
  {
    var minutes, seconds := Minutes(time), Seconds(time);
    Decomposition(time);
    HoursZeroUnderAnHour(time);
    TwoDigitText(minutes);
    TwoDigitText(seconds);
    var mm, ss := PrecisionTwo(minutes), PrecisionTwo(seconds);
    var text := ClockText(time);
    assert text == mm + ":" + ss;
    ParseShort(text, mm, ss, time);
  }

  /** From an hour on, the clock text "H:MM:SS" reads back as the time. */
  lemma LongClockRoundTrip(time: int)
    requires 3600 <= time
    ensures ParseClock(ClockText(time)) == Some(time)
  {
    var hours, minutes, seconds := Hours(time), Minutes(time), Seconds(time);
    Decomposition(time);
    HoursZeroUnderAnHour(time);
    TwoDigitText(minutes);
    TwoDigitText(seconds);
    HourText(hours);
    var mm, ss := PrecisionTwo(minutes), PrecisionTwo(seconds);
    var text := ClockText(time);
    assert text == WidthTwo(hours) + ":" + mm + ":" + ss;
    ParseLong(text, WidthTwo(hours), DecimalDigits(hours), mm, ss, time);
  }

  /** Reading the clock text of a non-negative whole number of seconds gives that number back. */
  lemma ClockRoundTrip(time: int)
    requires 0 <= time
    ensures ParseClock(ClockText(time)) == Some(time)
  {
    if time < 3600 {
      ShortClockRoundTrip(time);
    } else {
      LongClockRoundTrip(time);
    }
  }

  /** Reading the text of a non-negative duration gives back its whole number of seconds. */
  lemma RoundTrip(t: real)
    requires 0.0 <= t
    ensures ParseClock(StringFromTimeInterval(t)) == Some(TruncateToInteger(t))
  {
    ClockRoundTrip(TruncateToInteger(t));
  }

  /** Two non-negative durations show the same text exactly when they hold the same whole number of seconds. */
  lemma SameTextSameSeconds(t: real, u: real)
    requires 0.0 <= t && 0.0 <= u
    ensures StringFromTimeInterval(t) == StringFromTimeInterval(u) <==> TruncateToInteger(t) == TruncateToInteger(u)
  {
    RoundTrip(t);
    RoundTrip(u);
  }
}
