/** The `m:ss` clock text the audio player shows for a position or a duration
    given in milliseconds, together with the decimal numerals and the
    left padding it is built from. A parser for the same text serves as the
    partner definition: formatting and parsing are inverse to each other. */
module TimeFormat {
  import opened Wrappers

  predicate IsDigit(c: char) {
    '0' <= c <= '9'
  }

  function DigitValue(c: char): (d: nat)
    requires IsDigit(c)
    ensures d < 10
  {
    c as int - '0' as int
  }

  function DigitChar(d: nat): (c: char)
    requires d < 10
    ensures IsDigit(c) && DigitValue(c) == d
  {
    ('0' as int + d) as char
  }

  predicate AllDigits(s: string) {
    forall i :: 0 <= i < |s| ==> IsDigit(s[i])
  }

  /** A canonical decimal numeral: at least one digit and no leading zero
      unless the numeral is "0" itself. */
  predicate IsNumeral(s: string) {
    |s| >= 1 && AllDigits(s) && (|s| == 1 || s[0] != '0')
  }

  /** Decimal text of a non-negative integer, as `Number.prototype.toString`
      produces it. */
  function NatToString(n: nat): (s: string)
    ensures IsNumeral(s)
    ensures n >= 1 ==> s[0] != '0'
    decreases n
  {
    if n < 10 then [DigitChar(n)]
    else NatToString(n / 10) + [DigitChar(n % 10)]
  }

  /** Value of a string of decimal digits, most significant first. */
  function ParseNat(s: string): (n: nat)
    requires AllDigits(s)
    decreases |s|
  {
    if s == [] then 0
    else 10 * ParseNat(s[..|s| - 1]) + DigitValue(s[|s| - 1])
  }

  lemma {:induction false} NatToStringParses(n: nat)
    ensures ParseNat(NatToString(n)) == n
    decreases n
  {
    if n >= 10 {
      var s := NatToString(n);
      assert s[..|s| - 1] == NatToString(n / 10);
      NatToStringParses(n / 10);
    }
  }

  lemma {:induction false} LeadingDigitPositive(s: string)
    requires |s| >= 1 && AllDigits(s) && s[0] != '0'
    ensures ParseNat(s) >= 1
    decreases |s|
  {
    if |s| > 1 {
      LeadingDigitPositive(s[..|s| - 1]);
    }
  }

  /** Every canonical numeral is the text of the number it denotes. */
  lemma {:induction false} NumeralFormats(s: string)
    requires IsNumeral(s)
    ensures NatToString(ParseNat(s)) == s
    decreases |s|
  {
    var n := ParseNat(s);
    if |s| == 1 {
      assert s == [DigitChar(DigitValue(s[0]))];
    } else {
      var p := s[..|s| - 1];
      var d := DigitValue(s[|s| - 1]);
      LeadingDigitPositive(p);
      NumeralFormats(p);
      assert n / 10 == ParseNat(p) && n % 10 == d;
      assert s == p + [DigitChar(d)];
    }
  }

  function Repeat(c: char, k: nat): (r: string)
    ensures |r| == k
    ensures forall i :: 0 <= i < k ==> r[i] == c
  {
    seq(k, _ => c)
  }

  /** `String.prototype.padStart(len, fill)` for a one-character fill. */
  function PadStart(s: string, len: nat, fill: char): (r: string)
    ensures |r| == if |s| >= len then |s| else len
    ensures r[|r| - |s|..] == s
    ensures forall i :: 0 <= i < |r| - |s| ==> r[i] == fill
  {
    if |s| >= len then s else Repeat(fill, len - |s|) + s
  }

  /** Seconds below one minute always pad to exactly two digits. */
  lemma TwoDigitSeconds(secs: nat)
    requires secs < 60
    ensures PadStart(NatToString(secs), 2, '0') == [DigitChar(secs / 10), DigitChar(secs % 10)]
  {
    if secs >= 10 {
      assert NatToString(secs / 10) == [DigitChar(secs / 10)];
    }
  }

  /** The text shape `mins:ss`: a numeral, a colon, and two digits whose
      value is at most 59. */
  predicate IsClock(s: string) {
    && |s| >= 4
    && s[|s| - 3] == ':'
    && IsNumeral(s[..|s| - 3])
    && IsDigit(s[|s| - 2]) && IsDigit(s[|s| - 1])
    && DigitValue(s[|s| - 2]) < 6
  }

  /** Whole seconds named by clock text; None for text of any other shape. */
  function ParseClock(s: string): (r: Option<nat>)
    ensures r.Some? <==> IsClock(s)
  {
    if IsClock(s) then
      Some(ParseNat(s[..|s| - 3]) * 60 + DigitValue(s[|s| - 2]) * 10 + DigitValue(s[|s| - 1]))
    else None
  }

  /** `formatTime` of the audio player: whole minutes, a colon, and the
      remaining seconds padded to two digits. The sub-second part is dropped. */
  function FormatTime(millis: nat): (r: string)
    ensures IsClock(r)
    ensures DigitValue(r[|r| - 2]) * 10 + DigitValue(r[|r| - 1]) == (millis / 1000) % 60
  {
    var seconds := millis / 1000;
    var mins := seconds / 60;
    var secs := seconds % 60;
    TwoDigitSeconds(secs);
    var r := NatToString(mins) + ":" + PadStart(NatToString(secs), 2, '0');
    assert r[..|r| - 3] == NatToString(mins);
    r
  }

  /** The minutes field reads back as the whole minutes, the seconds field as
      the seconds left over (0..59). */
  lemma FormatTimeFields(millis: nat)
    ensures var r := FormatTime(millis);
      && ParseNat(r[..|r| - 3]) == millis / 1000 / 60
      && DigitValue(r[|r| - 2]) * 10 + DigitValue(r[|r| - 1]) <= 59
  {
    var r := FormatTime(millis);
    assert r[..|r| - 3] == NatToString(millis / 1000 / 60);
    NatToStringParses(millis / 1000 / 60);
  }

  /** Round trip: parsing the formatted text yields the whole-second count,
      so `mins * 60 + secs == floor(millis / 1000)`. */
  lemma FormatTimeParses(millis: nat)
    ensures ParseClock(FormatTime(millis)) == Some(millis / 1000)
  {
    var r := FormatTime(millis);
    var seconds := millis / 1000;
    FormatTimeFields(millis);
    var m := ParseNat(r[..|r| - 3]);
    var secs := DigitValue(r[|r| - 2]) * 10 + DigitValue(r[|r| - 1]);
    assert m == seconds / 60 && secs == seconds % 60;
    DivModSixty(seconds);
    assert ParseClock(r) == Some(m * 60 + secs);
  }

  lemma DivModSixty(t: nat)
    ensures t / 60 * 60 + t % 60 == t
  {
  }

  /** Formatting a whole number of seconds spells out its minutes and its
      two seconds digits. */
  lemma FormatWholeSeconds(t: nat)
    ensures FormatTime(1000 * t)
      == NatToString(t / 60) + ":" + [DigitChar(t % 60 / 10), DigitChar(t % 60 % 10)]
  {
    assert (1000 * t) / 1000 == t;
    TwoDigitSeconds(t % 60);
  }

  lemma MinutesSeconds(m: nat, secs: nat)
    requires secs < 60
    ensures (m * 60 + secs) / 60 == m && (m * 60 + secs) % 60 == secs
  {
  }

  lemma TensUnits(d1: nat, d0: nat)
    requires d0 < 10
    ensures (d1 * 10 + d0) / 10 == d1 && (d1 * 10 + d0) % 10 == d0
  {
  }

  /** The text of a clock string, rebuilt from its fields. */
  lemma ClockSplits(s: string)
    requires IsClock(s)
    ensures s == s[..|s| - 3] + ":" + [DigitChar(DigitValue(s[|s| - 2])), DigitChar(DigitValue(s[|s| - 1]))]
  {
  }

  /** Converse round trip: every clock text is the formatting of the whole
      seconds it names, so FormatTime is onto the clock texts. */
  lemma ClockFormats(s: string)
    requires IsClock(s)
    ensures FormatTime(1000 * ParseClock(s).value) == s
  {
    var p := s[..|s| - 3];
    var m := ParseNat(p);
    var d1 := DigitValue(s[|s| - 2]);
    var d0 := DigitValue(s[|s| - 1]);
    var secs := d1 * 10 + d0;
    var t := ParseClock(s).value;
    assert t == m * 60 + secs;
    MinutesSeconds(m, secs);
    TensUnits(d1, d0);
    FormatWholeSeconds(t);
    NumeralFormats(p);
    ClockSplits(s);
  }

  /** Two millisecond counts show the same text exactly when they agree in
      whole seconds. */
  lemma FormatTimeInjective(a: nat, b: nat)
    ensures FormatTime(a) == FormatTime(b) <==> a / 1000 == b / 1000
  {
    FormatTimeParses(a);
    FormatTimeParses(b);
  }

  /** The sub-second part is ignored. */
  lemma SubSecondIgnored(millis: nat)
    ensures FormatTime(millis) == FormatTime(1000 * (millis / 1000))
  {
    FormatTimeInjective(millis, 1000 * (millis / 1000));
  }
}
