/**
 * The display string of a timer: whole minutes and the remaining seconds, each
 * written in decimal and left-padded with '0' to at least two characters,
 * joined by ':'.
 */
module TimeFormat {

  datatype Option<T> = None | Some(value: T)

  predicate IsDigit(c: char)
  {
    '0' <= c <= '9'
  }

  predicate AllDigits(s: string)
  {
    forall i :: 0 <= i < |s| ==> IsDigit(s[i])
  }

  /** The value of a decimal digit character (0 for any other character). */
  function DigitValue(c: char): nat
  {
    if IsDigit(c) then c as int - '0' as int else 0
  }

  /** The numeric value of a string of decimal digits, leading zeros allowed;
      the reading that `NatToDecimal` and `FormatTime` are checked against. */
  function DecimalValue(s: string): nat
  {
    if s == [] then 0
    else DecimalValue(s[..|s| - 1]) * 10 + DigitValue(s[|s| - 1])
  }

  /** The character of one decimal digit. */
  function Digit(d: nat): (c: char)
    requires d < 10
    ensures IsDigit(c) && DigitValue(c) == d
  {
    (d + '0' as int) as char
  }

  /** `String(n)` for a non-negative whole number: its decimal digits, without
      leading zeros. */
  function NatToDecimal(n: nat): (r: string)
    ensures AllDigits(r) && DecimalValue(r) == n
    ensures |r| >= 1 && (|r| > 1 ==> r[0] != '0')
    ensures n < 10 <==> |r| == 1
    ensures n < 100 <==> |r| <= 2
  {
    if n < 10 then [Digit(n)]
    else
      var r := NatToDecimal(n / 10) + [Digit(n % 10)];
      assert r[..|r| - 1] == NatToDecimal(n / 10);
      r
  }

  /** `s.padStart(2, '0')`: '0' characters are prepended until the string is
      two characters long; a string already that long is returned unchanged. */
  function PadStart2(s: string): (r: string)
    ensures |r| == if |s| >= 2 then |s| else 2
    ensures r[|r| - |s|..] == s
    ensures forall i :: 0 <= i < |r| - |s| ==> r[i] == '0'
  {
    if |s| >= 2 then s
    else if |s| == 1 then "0" + s
    else "00"
  }

  /** A leading '0' does not change the value of a digit string. */
  lemma {:induction false} LeadingZero(s: string)
    requires AllDigits(s)
    ensures AllDigits("0" + s) && DecimalValue("0" + s) == DecimalValue(s)
  {
    var z := "0" + s;
    assert AllDigits(z) by {
      forall i | 0 <= i < |z| ensures IsDigit(z[i]) {
        if i > 0 { assert z[i] == s[i - 1]; }
      }
    }
    if s != [] {
      assert z[..|z| - 1] == "0" + s[..|s| - 1];
      LeadingZero(s[..|s| - 1]);
    }
  }

  /** Padding a digit string keeps it a digit string with the same value. */
  lemma PadStart2Value(s: string)
    requires AllDigits(s)
    ensures AllDigits(PadStart2(s)) && DecimalValue(PadStart2(s)) == DecimalValue(s)
  {
    if |s| == 1 {
      LeadingZero(s);
    } else if |s| == 0 {
      LeadingZero("0");
      LeadingZero("");
    }
  }

  /** The pieces of `m + ":" + s` for a two-character `s`. */
  lemma ClockParts(m: string, s: string)
    requires |s| == 2
    ensures var r := m + ":" + s;
      |r| == |m| + 3 && r[..|r| - 3] == m && r[|r| - 3] == ':' && r[|r| - 2..] == s
  {
  }

  /** `formatTime`: the whole minutes and the remaining seconds, each padded,
      joined by ':'. */
  function FormatTime(seconds: nat): string
  {
    PadStart2(NatToDecimal(seconds / 60)) + ":" + PadStart2(NatToDecimal(seconds % 60))
  }

  /** The display string reads back as the elapsed time: everything before the
      ':' is the whole minutes, the last two characters are the seconds below
      60, and the string is exactly five characters long precisely while the
      minutes stay below 100. */
  lemma FormatTimeParts(seconds: nat)
    ensures var r := FormatTime(seconds);
      && |r| >= 5 && r[|r| - 3] == ':'
      && AllDigits(r[..|r| - 3]) && DecimalValue(r[..|r| - 3]) == seconds / 60
      && AllDigits(r[|r| - 2..]) && DecimalValue(r[|r| - 2..]) == seconds % 60
      && (|r| == 5 <==> seconds < 6000)
  {
    MinuteBounds(seconds);
    var m := PadStart2(NatToDecimal(seconds / 60));
    var s := PadStart2(NatToDecimal(seconds % 60));
    PadStart2Value(NatToDecimal(seconds / 60));
    PadStart2Value(NatToDecimal(seconds % 60));
    ClockParts(m, s);
  }

  /** Whole minutes stay below 100 exactly while the time is below 6000
      seconds, and the seconds part is always below 60. */
  lemma MinuteBounds(seconds: nat)
    ensures seconds / 60 < 100 <==> seconds < 6000
    ensures seconds % 60 < 60
    ensures seconds == seconds / 60 * 60 + seconds % 60
  {
    var q, m := seconds / 60, seconds % 60;
    assert seconds == q * 60 + m;
  }

  /** A clock string read back as a number of seconds: the value of the text
      before the third-last character (which must be ':') times 60, plus the
      value of the last two characters; `None` for a string without that
      separator. That the parts are digits is stated by `FormatTimeParts`. */
  function ReadClock(r: string): Option<nat>
  {
    if |r| >= 5 && r[|r| - 3] == ':'
    then Some(DecimalValue(r[..|r| - 3]) * 60 + DecimalValue(r[|r| - 2..]))
    else None
  }

  /** Reading the display string back gives the elapsed time. */
  lemma ReadClockFormatTime(seconds: nat)
    ensures ReadClock(FormatTime(seconds)) == Some(seconds)
  {
    var r := FormatTime(seconds);
    FormatTimeParts(seconds);
    ReadClockOf(r, seconds);
    assert ReadClock(r) == Some(seconds);
  }

  /** A string with the separator in place, whose parts read as the minutes
      and the remaining seconds of `seconds`, reads back as `seconds`. */
  lemma ReadClockOf(r: string, seconds: nat)
    requires |r| >= 5 && r[|r| - 3] == ':'
    requires DecimalValue(r[..|r| - 3]) == seconds / 60
    requires DecimalValue(r[|r| - 2..]) == seconds % 60
    ensures ReadClock(r) == Some(seconds)
  {
    MinuteBounds(seconds);
  }

  /** Different elapsed times are displayed differently. */
  lemma FormatTimeInjective(a: nat, b: nat)
    ensures FormatTime(a) == FormatTime(b) ==> a == b
  {
    ReadClockFormatTime(a);
    ReadClockFormatTime(b);
  }

  lemma FormatTimeZero()
    ensures FormatTime(0) == "00:00"
  {
    assert NatToDecimal(0) == "0";
  }

  lemma FormatTimeThree()
    ensures FormatTime(3) == "00:03"
  {
    assert NatToDecimal(0) == "0";
    assert NatToDecimal(3) == "3";
  }

  lemma FormatTimeSixtyFive()
    ensures FormatTime(65) == "01:05"
  {
    assert 65 / 60 == 1 && 65 % 60 == 5;
    assert NatToDecimal(1) == "1";
    assert NatToDecimal(5) == "5";
  }

  lemma FormatTimeOneHour()
    ensures FormatTime(3600) == "60:00"
  {
    assert NatToDecimal(0) == "0";
    assert 3600 / 60 == 60 && 3600 % 60 == 0 && 60 / 10 == 6 && 60 % 10 == 0;
    assert NatToDecimal(6) == "6";
    assert NatToDecimal(60) == "60";
  }

  /** `padStart` does not truncate: 100 minutes take three digits. */
  lemma FormatTimeHundredMinutes()
    ensures FormatTime(6000) == "100:00"
  {
    assert 6000 / 60 == 100 && 6000 % 60 == 0;
    assert 100 / 10 == 10 && 100 % 10 == 0 && 10 / 10 == 1 && 10 % 10 == 0;
    assert NatToDecimal(0) == "0";
    assert NatToDecimal(1) == "1";
    assert NatToDecimal(10) == "10";
    assert NatToDecimal(100) == "100";
  }
}
