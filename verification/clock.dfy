/**
 * The `MM:SS` clock text shown for the countdown (`formatTime` in app.js).
 *
 * `formatTime` renders the minutes, ⌊s / 60⌋, and the seconds, s mod 60, with
 * `Number.prototype.toString` and left-pads each with `"0"` to width 2 using
 * `String.prototype.padStart`, joining the two with `":"`. The model renders
 * non-negative integers only; the countdown never holds anything else.
 */
module Clock {
  import opened Wrappers

  predicate IsDigit(c: char) {
    '0' <= c <= '9'
  }

  predicate AllDigits(s: string) {
    forall i :: 0 <= i < |s| ==> IsDigit(s[i])
  }

  /** The decimal digit character for `d`. */
  function DigitChar(d: nat): (c: char)
    requires d < 10
    ensures IsDigit(c) && c as int - '0' as int == d
  {
    ('0' as int + d) as char
  }

  /** The number a digit character stands for. */
  function DigitValue(c: char): (d: nat)
    requires IsDigit(c)
    ensures d < 10
  {
    c as int - '0' as int
  }

  /** The number a string of decimal digits denotes (the empty string denotes 0). */
  function Value(s: string): nat
    requires AllDigits(s)
    decreases |s|
  {
    if s == [] then 0 else Value(s[..|s| - 1]) * 10 + DigitValue(s[|s| - 1])
  }

  /**
   * `n.toString()` for a non-negative integer: the shortest decimal
   * numeral that denotes `n` (no leading zero unless `n` is 0).
   */
  function DecimalString(n: nat): (r: string)
    ensures 1 <= |r| && AllDigits(r) && Value(r) == n
    ensures |r| == 1 <==> n < 10
    ensures n < 100 ==> |r| <= 2
    ensures |r| > 1 ==> r[0] != '0'
    decreases n
  {
    if n < 10 then [DigitChar(n)]
    else
      var prefix := DecimalString(n / 10);
      var r := prefix + [DigitChar(n % 10)];
      assert r[..|r| - 1] == prefix;
      r
  }

  /**
   * `s.padStart(width, [fill])`: `s` itself when it is already `width` long
   * or longer, otherwise `s` preceded by as many `fill` characters as it
   * takes to reach `width`.
   */
  function PadStart(s: string, width: nat, fill: char): (r: string)
    ensures |r| == if |s| < width then width else |s|
    ensures r[|r| - |s|..] == s
    ensures forall i :: 0 <= i < |r| - |s| ==> r[i] == fill
  {
    if |s| >= width then s else seq(width - |s|, _ => fill) + s
  }

  /** `formatTime(totalSeconds)`: zero-padded minutes, a colon, zero-padded seconds. */
  function FormatTime(totalSeconds: nat): (r: string)
  {
    Join(totalSeconds / 60, totalSeconds % 60)
  }

  /** The template `${minutes}:${seconds}` over the two padded numerals. */
  function Join(minutes: nat, seconds: nat): string
  {
    PadStart(DecimalString(minutes), 2, '0') + ":" + PadStart(DecimalString(seconds), 2, '0')
  }

  /**
   * Reads a clock text back: all digits up to the third character from the
   * end are minutes, that character is `':'`, the last two digits are
   * seconds below 60.
   */
  function ParseTime(t: string): (r: Option<nat>)
    ensures r.Some? ==> |t| >= 4 && t[|t| - 3] == ':'
  {
    if |t| < 4 || t[|t| - 3] != ':' then None
    else
      var minutes, seconds := t[..|t| - 3], t[|t| - 2..];
      if AllDigits(minutes) && AllDigits(seconds) && Value(seconds) < 60
      then Some(Value(minutes) * 60 + Value(seconds))
      else None
  }

  /** A leading `'0'` does not change the number a digit string denotes. */
  lemma {:induction false} LeadingZeroValue(s: string)
    requires AllDigits(s)
    ensures AllDigits("0" + s) && Value("0" + s) == Value(s)
  {
    if s != [] {
      var front := s[..|s| - 1];
      assert ("0" + s)[..|s|] == "0" + front;
      LeadingZeroValue(front);
    }
  }

  /** Left-padding with zeros does not change the number a digit string denotes. */
  lemma {:induction false} PadStartValue(s: string, width: nat)
    requires AllDigits(s)
    ensures AllDigits(PadStart(s, width, '0'))
    ensures Value(PadStart(s, width, '0')) == Value(s)
    decreases width
  {
    if |s| < width {
      var shorter := PadStart(s, width - 1, '0');
      PadStartValue(s, width - 1);
      assert PadStart(s, width, '0') == "0" + shorter;
      LeadingZeroValue(shorter);
    }
  }

  /**
   * Every clock text has the shape `<minutes>:<SS>`: at least two minute
   * digits, a colon third from the end and exactly two second digits, and
   * the two parts denote ⌊s / 60⌋ and s mod 60.
   */
  lemma FormatTimeShape(s: nat)
    ensures var r := FormatTime(s);
      && |r| >= 5 && r[|r| - 3] == ':'
      && AllDigits(r[..|r| - 3]) && Value(r[..|r| - 3]) == s / 60
      && AllDigits(r[|r| - 2..]) && Value(r[|r| - 2..]) == s % 60
  {
    var m, k := s / 60, s % 60;
    assert k < 60;
    assert FormatTime(s) == Join(m, k);
    JoinShape(m, k);
  }

  lemma JoinShape(m: nat, k: nat)
    requires k < 60
    ensures var r := Join(m, k);
      && |r| >= 5 && r[|r| - 3] == ':'
      && AllDigits(r[..|r| - 3]) && Value(r[..|r| - 3]) == m
      && AllDigits(r[|r| - 2..]) && Value(r[|r| - 2..]) == k
  {
    var minutes := PadStart(DecimalString(m), 2, '0');
    var seconds := PadStart(DecimalString(k), 2, '0');
    PadStartValue(DecimalString(m), 2);
    PadStartValue(DecimalString(k), 2);
    assert |seconds| == 2;
    Split(minutes, seconds);
  }

  /** The two halves of `minutes + ":" + seconds` are found again by position. */
  lemma Split(minutes: string, seconds: string)
    requires |minutes| >= 2 && |seconds| == 2
    ensures var r := minutes + ":" + seconds;
      && |r| >= 5 && r[|r| - 3] == ':'
      && r[..|r| - 3] == minutes && r[|r| - 2..] == seconds
  {
  }

  /** Reading a clock text back recovers the number of seconds it was made from. */
  lemma ParseFormatTime(s: nat)
    ensures ParseTime(FormatTime(s)) == Some(s)
  {
    FormatTimeShape(s);
  }

  /**
   * Below 100 minutes the clock text is exactly five characters: two minute
   * digits, a colon, two second digits.
   */
  lemma FormatTimeDigits(s: nat)
    requires s < 6000
    ensures var r := FormatTime(s);
      && |r| == 5
      && r[0] == DigitChar(s / 60 / 10) && r[1] == DigitChar(s / 60 % 10)
      && r[2] == ':'
      && r[3] == DigitChar(s % 60 / 10) && r[4] == DigitChar(s % 60 % 10)
  {
    var m, k := s / 60, s % 60;
    assert m < 100 && k < 60;
    TwoDigits(m);
    TwoDigits(k);
    assert FormatTime(s) == Join(m, k);
  }

  /** A number below 100, rendered and padded to width 2, is its tens digit then its units digit. */
  lemma TwoDigits(n: nat)
    requires n < 100
    ensures PadStart(DecimalString(n), 2, '0') == [DigitChar(n / 10), DigitChar(n % 10)]
  {
    if n >= 10 {
      assert DecimalString(n) == DecimalString(n / 10) + [DigitChar(n % 10)];
    }
  }

  /** The two renderings given as examples: 125 s is "02:05" and 0 s is "00:00". */
  lemma FormatTimeExamples()
    ensures FormatTime(125) == "02:05"
    ensures FormatTime(0) == "00:00"
  {
    FormatTimeDigits(125);
    assert 125 / 60 == 2 && 125 % 60 == 5;
    DigitsAsChars();
    FormatTimeDigits(0);
  }

  lemma DigitsAsChars()
    ensures DigitChar(0) == '0' && DigitChar(2) == '2' && DigitChar(5) == '5'
  {
  }
}
