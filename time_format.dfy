/** Rendering of a number of seconds as `{hours}h{MM}m`, as the report prints it. */
module TimeFormat {

  predicate IsDigit(c: char) { '0' <= c <= '9' }

  predicate AllDigits(s: string) { forall i :: 0 <= i < |s| ==> IsDigit(s[i]) }

  function DigitValue(c: char): nat
    requires IsDigit(c)
  {
    c as int - '0' as int
  }

  function DigitChar(d: nat): (c: char)
    requires d < 10
    ensures IsDigit(c) && DigitValue(c) == d
  {
    ('0' as int + d) as char
  }

  /** The value of a string of decimal digits, most significant first. */
  function DecimalValue(s: string): nat
    requires AllDigits(s)
  {
    if s == [] then 0 else DecimalValue(s[..|s| - 1]) * 10 + DigitValue(s[|s| - 1])
  }

  /** `ToString()` of a non-negative `int`: its decimal digits, no leading zero. */
  function NatToString(n: nat): (s: string)
    ensures |s| >= 1 && AllDigits(s)
    ensures s[0] == '0' ==> |s| == 1
    ensures n < 10 <==> |s| == 1
  {
    if n < 10 then [DigitChar(n)] else NatToString(n / 10) + [DigitChar(n % 10)]
  }

  lemma {:induction false} NatToStringRoundTrip(n: nat)
    ensures DecimalValue(NatToString(n)) == n
  {
    if n >= 10 {
      var s := NatToString(n);
      assert s[..|s| - 1] == NatToString(n / 10);
      NatToStringRoundTrip(n / 10);
    }
  }

  /** `ToString()` of any `int`: a leading '-' before the digits of a negative value. */
  function IntToString(n: int): (s: string)
    ensures |s| >= 1
    ensures n < 0 <==> s[0] == '-'
  {
    if n < 0 then "-" + NatToString(-n) else NatToString(n)
  }

  /** The value of what `IntToString` produces: an optional '-' and digits. */
  function SignedValue(s: string): int
    requires |s| >= 1
    requires AllDigits(if s[0] == '-' then s[1..] else s)
  {
    if s[0] == '-' then 0 - DecimalValue(s[1..]) else DecimalValue(s)
  }

  lemma IntToStringRoundTrip(n: int)
    ensures var s := IntToString(n);
      AllDigits(if s[0] == '-' then s[1..] else s) && SignedValue(s) == n
  {
    var s := IntToString(n);
    if n < 0 {
      assert s[1..] == NatToString(-n);
      NatToStringRoundTrip(-n);
    } else {
      NatToStringRoundTrip(n);
    }
  }

  /** `String.PadLeft(width, pad)`: puts `pad` in front until the string is `width`
      long; a string already that long is returned unchanged. */
  function PadLeft(s: string, width: nat, pad: char): (r: string)
    ensures |r| == if |s| >= width then |s| else width
    ensures r[|r| - |s|..] == s
    ensures forall i :: 0 <= i < |r| - |s| ==> r[i] == pad
  {
    if |s| >= width then s else seq(width - |s|, _ => pad) + s
  }

  /** C#'s `/` on `int`: the quotient truncated toward zero. */
  function TruncDiv(a: int, b: int): int
    requires b > 0
  {
    if a >= 0 then a / b else -((-a) / b)
  }

  /** C#'s `%` on `int`: what the truncated quotient leaves. */
  function TruncRem(a: int, b: int): int
    requires b > 0
  {
    a - b * TruncDiv(a, b)
  }

  /** C#'s integer division: dividend = divisor * quotient + remainder, the
      remainder below the divisor in magnitude and of the dividend's sign. */
  lemma TruncDivision(a: int, b: int)
    requires b > 0
    ensures a == b * TruncDiv(a, b) + TruncRem(a, b)
    ensures a >= 0 ==> 0 <= TruncRem(a, b) < b
    ensures a < 0 ==> -b < TruncRem(a, b) <= 0
  {
  }

  /** The interpolated string `{hours}h{minutes padded to 2}m`. */
  function Render(hours: int, minutes: int): string
  {
    IntToString(hours) + "h" + PadLeft(IntToString(minutes), 2, '0') + "m"
  }

  /** `FormatTimeSpent`: whole hours, then whole minutes padded to two characters. */
  function FormatTimeSpent(seconds: int): string
  {
    var hours := TruncDiv(seconds, 3600);
    var minutes := TruncDiv(TruncRem(seconds, 3600), 60);
    Render(hours, minutes)
  }

  /** Two digit characters read as a number. */
  lemma TwoDigitValue(s: string)
    requires |s| == 2 && AllDigits(s)
    ensures DecimalValue(s) == 10 * DigitValue(s[0]) + DigitValue(s[1])
  {
    assert s[..1][..0] == [];
    assert DecimalValue(s[..1]) == DigitValue(s[0]);
  }

  lemma PaddedOneDigit(m: nat)
    requires m < 10
    ensures var f := PadLeft(IntToString(m), 2, '0');
      |f| == 2 && AllDigits(f) && DecimalValue(f) == m
  {
    var f := PadLeft(IntToString(m), 2, '0');
    assert f == ['0', DigitChar(m)];
    TwoDigitValue(f);
  }

  lemma PaddedTwoDigits(m: nat)
    requires 10 <= m < 100
    ensures var f := PadLeft(IntToString(m), 2, '0');
      |f| == 2 && AllDigits(f) && DecimalValue(f) == m
  {
    var f := PadLeft(IntToString(m), 2, '0');
    assert NatToString(m) == NatToString(m / 10) + [DigitChar(m % 10)];
    assert f == [DigitChar(m / 10), DigitChar(m % 10)];
    TwoDigitValue(f);
  }

  /** The minutes field: exactly two digits whose value is `m`. */
  lemma MinutesField(m: nat)
    requires m < 60
    ensures var f := PadLeft(IntToString(m), 2, '0');
      |f| == 2 && AllDigits(f) && DecimalValue(f) == m
  {
    if m < 10 {
      PaddedOneDigit(m);
    } else {
      PaddedTwoDigits(m);
    }
  }

  /** For a non-negative count C#'s division and remainder are Dafny's. */
  lemma FormatTimeSpentOfNat(seconds: nat)
    ensures FormatTimeSpent(seconds) == Render(seconds / 3600, (seconds % 3600) / 60)
  {
    assert TruncDiv(seconds, 3600) == seconds / 3600;
    assert TruncRem(seconds, 3600) == seconds % 3600;
    assert TruncDiv(seconds % 3600, 60) == (seconds % 3600) / 60;
  }

  /** Dropping the seconds: whole hours and whole minutes make up the count less its last partial minute. */
  lemma WholeMinutes(seconds: nat)
    ensures (seconds % 3600) / 60 < 60
    ensures (seconds / 3600) * 3600 + ((seconds % 3600) / 60) * 60 == seconds - seconds % 60
  {
    var h, rest := seconds / 3600, seconds % 3600;
    var m := rest / 60;
    assert seconds == 3600 * h + rest;
    assert rest == 60 * m + rest % 60;
    assert seconds == 60 * (60 * h + m) + rest % 60;
    assert seconds % 60 == rest % 60;
  }

  /** Where the fields sit in `{hours}h{minutes}m` when the minutes take two characters. */
  lemma Fields(h: string, f: string)
    requires |h| >= 1 && |f| == 2
    ensures var r := h + "h" + f + "m";
      && |r| == |h| + 4
      && r[..|r| - 4] == h && r[|r| - 4] == 'h'
      && r[|r| - 3..|r| - 1] == f && r[|r| - 1] == 'm'
      && r[0] == h[0]
  {
  }

  /** The rendered text of a non-negative hour count and a minute count below 60. */
  lemma RenderShape(hours: nat, minutes: nat)
    requires minutes < 60
    ensures var r := Render(hours, minutes);
      && |r| >= 5
      && r[|r| - 4] == 'h' && r[|r| - 1] == 'm'
      && AllDigits(r[..|r| - 4]) && DecimalValue(r[..|r| - 4]) == hours
      && (r[0] == '0' ==> |r| == 5)
      && AllDigits(r[|r| - 3..|r| - 1]) && DecimalValue(r[|r| - 3..|r| - 1]) == minutes
  {
    var h := NatToString(hours);
    var f := PadLeft(IntToString(minutes), 2, '0');
    assert Render(hours, minutes) == h + "h" + f + "m";
    MinutesField(minutes);
    NatToStringRoundTrip(hours);
    Fields(h, f);
  }

  /** For a non-negative count, the text reads back as hours (no leading zero),
      'h', two minute digits below 60, 'm'; the seconds are dropped, not
      rounded. */
  lemma FormatTimeSpentShape(seconds: nat)
    ensures var r := FormatTimeSpent(seconds);
      var hours := seconds / 3600;
      var minutes := (seconds % 3600) / 60;
      && |r| >= 5
      && r[|r| - 4] == 'h' && r[|r| - 1] == 'm'
      && AllDigits(r[..|r| - 4]) && DecimalValue(r[..|r| - 4]) == hours
      && (r[0] == '0' ==> |r| == 5)
      && AllDigits(r[|r| - 3..|r| - 1]) && DecimalValue(r[|r| - 3..|r| - 1]) == minutes
      && minutes < 60
      && hours * 3600 + minutes * 60 == seconds - seconds % 60
  {
    WholeMinutes(seconds);
    FormatTimeSpentOfNat(seconds);
    RenderShape(seconds / 3600, (seconds % 3600) / 60);
  }

  /** The padded minutes field starts with '-' exactly for a negative count. */
  lemma PaddedSign(m: int)
    ensures var f := PadLeft(IntToString(m), 2, '0');
      |f| >= 2 && (f[0] == '-' <==> m < 0)
  {
    if m >= 0 {
      var s := NatToString(m);
      assert IsDigit(s[0]);
    }
  }

  /** The fields of a count: both truncated toward zero, so neither is positive
      for a negative count, the minutes lie strictly between -60 and 60. */
  lemma FieldRanges(seconds: int)
    ensures var hours := TruncDiv(seconds, 3600);
      var minutes := TruncDiv(TruncRem(seconds, 3600), 60);
      && -60 < minutes < 60
      && (hours < 0 <==> seconds <= -3600)
      && (seconds < 0 ==> hours <= 0 && minutes <= 0)
      && (seconds >= 0 ==> hours >= 0 && minutes >= 0)
  {
    TruncDivision(seconds, 3600);
    TruncDivision(TruncRem(seconds, 3600), 60);
  }

  /** Where the signs go: the text starts with '-' exactly when the hours are
      negative, and the minutes field (right after the 'h') starts with '-'
      exactly when the minutes are negative. For a negative count both fields
      are at most zero, so each carries a '-' exactly when it is not zero. */
  lemma FormatTimeSpentSigns(seconds: int)
    ensures var hours := TruncDiv(seconds, 3600);
      var minutes := TruncDiv(TruncRem(seconds, 3600), 60);
      var r := FormatTimeSpent(seconds);
      var at := |IntToString(hours)|;
      && at + 2 < |r| && r[at] == 'h' && r[|r| - 1] == 'm'
      && (r[0] == '-' <==> hours < 0)
      && (r[at + 1] == '-' <==> minutes < 0)
      && -60 < minutes < 60
      && (seconds < 0 ==> hours <= 0 && minutes <= 0)
  {
    var hours := TruncDiv(seconds, 3600);
    var minutes := TruncDiv(TruncRem(seconds, 3600), 60);
    var h := IntToString(hours);
    var f := PadLeft(IntToString(minutes), 2, '0');
    FormatTimeSpentIs(seconds, hours, minutes);
    assert Render(hours, minutes) == h + "h" + f + "m";
    FieldRanges(seconds);
    PaddedSign(minutes);
    SignFields(h, f);
  }

  /** Where the fields sit in `{hours}h{minutes}m` for fields of any length. */
  lemma SignFields(h: string, f: string)
    requires |h| >= 1 && |f| >= 2
    ensures var r := h + "h" + f + "m";
      && |h| + 2 < |r| && r[|h|] == 'h' && r[|r| - 1] == 'm'
      && r[0] == h[0] && r[|h| + 1] == f[0]
  {
  }

  /** A single-digit hour count and minute count. */
  lemma RenderSmall(hours: nat, minutes: nat)
    requires hours < 10 && minutes < 10
    ensures Render(hours, minutes) == [DigitChar(hours), 'h', '0', DigitChar(minutes), 'm']
  {
  }

  lemma ExampleQuotients()
    ensures 0 / 3600 == 0 && (0 % 3600) / 60 == 0
    ensures 59 / 3600 == 0 && (59 % 3600) / 60 == 0
    ensures 60 / 3600 == 0 && (60 % 3600) / 60 == 1
    ensures 3599 / 3600 == 0 && (3599 % 3600) / 60 == 59
    ensures 3600 / 3600 == 1 && (3600 % 3600) / 60 == 0
    ensures 3661 / 3600 == 1 && (3661 % 3600) / 60 == 1
  {
  }

  lemma FormatTimeSpentExamples()
    ensures FormatTimeSpent(0) == "0h00m"
    ensures FormatTimeSpent(59) == "0h00m"
    ensures FormatTimeSpent(60) == "0h01m"
    ensures FormatTimeSpent(3599) == "0h59m"
    ensures FormatTimeSpent(3600) == "1h00m"
    ensures FormatTimeSpent(3661) == "1h01m"
  {
    ExampleQuotients();
    FormatTimeSpentOfNat(0);
    FormatTimeSpentOfNat(59);
    FormatTimeSpentOfNat(60);
    FormatTimeSpentOfNat(3599);
    FormatTimeSpentOfNat(3600);
    FormatTimeSpentOfNat(3661);
    RenderSmall(0, 0);
    RenderSmall(0, 1);
    RenderSmall(1, 0);
    RenderSmall(1, 1);
    RenderFiftyNine();
  }

  lemma NegativeQuotients()
    ensures TruncDiv(-30, 3600) == 0 && TruncDiv(TruncRem(-30, 3600), 60) == 0
    ensures TruncDiv(-61, 3600) == 0 && TruncDiv(TruncRem(-61, 3600), 60) == -1
    ensures TruncDiv(-3600, 3600) == -1 && TruncDiv(TruncRem(-3600, 3600), 60) == 0
  {
    assert TruncRem(-30, 3600) == -30;
    assert TruncRem(-61, 3600) == -61;
    assert TruncRem(-3600, 3600) == 0;
  }

  lemma RenderMinusOneMinute()
    ensures Render(0, -1) == "0h-1m"
  {
    assert IntToString(-1) == "-1";
    assert PadLeft("-1", 2, '0') == "-1";
  }

  lemma RenderMinusOneHour()
    ensures Render(-1, 0) == "-1h00m"
  {
    assert IntToString(-1) == "-1";
    assert PadLeft("0", 2, '0') == "00";
  }

  /** Negative counts: each field carries its own '-' only when it is not zero. */
  lemma FormatTimeSpentNegativeExamples()
    ensures FormatTimeSpent(-30) == "0h00m"
    ensures FormatTimeSpent(-61) == "0h-1m"
    ensures FormatTimeSpent(-3600) == "-1h00m"
  {
    NegativeQuotients();
    RenderSmall(0, 0);
    FormatTimeSpentIs(-30, 0, 0);
    RenderMinusOneMinute();
    FormatTimeSpentIs(-61, 0, -1);
    RenderMinusOneHour();
    FormatTimeSpentIs(-3600, -1, 0);
  }

  lemma FormatTimeSpentIs(seconds: int, hours: int, minutes: int)
    requires hours == TruncDiv(seconds, 3600) && minutes == TruncDiv(TruncRem(seconds, 3600), 60)
    ensures FormatTimeSpent(seconds) == Render(hours, minutes)
  {
  }

  lemma RenderFiftyNine()
    ensures Render(0, 59) == "0h59m"
  {
    assert NatToString(59) == NatToString(5) + [DigitChar(9)];
  }
}
