/**
  Canonical clock times of a capture row: `HH:MM:SS` and `HH:MM:SS.mmm`.

  The regular expression of the source ends in `$`, which also matches just before a final
  newline. Such a time is read like its canonical form but is never written; it is called
  loose here.
 */
module ClockTime {
  import opened Wrappers

  const MS_PER_DAY := 86_400_000

  predicate IsDigit(c: char) {
    '0' <= c <= '9'
  }

  function DigitValue(c: char): (d: int)
    requires IsDigit(c)
  {
    c as int - '0' as int
  }

  function DigitChar(d: int): (c: char)
    requires 0 <= d < 10
  {
    ('0' as int + d) as char
  }

  function TwoDigits(n: int): string
    requires 0 <= n < 100
  {
    [DigitChar(n / 10), DigitChar(n % 10)]
  }

  function ThreeDigits(n: int): string
    requires 0 <= n < 1000
  {
    [DigitChar(n / 100), DigitChar(n / 10 % 10), DigitChar(n % 10)]
  }

  /** Two digits at `at`, or -1. */
  function ReadTwo(s: string, at: nat): int
    requires at + 2 <= |s|
  {
    if IsDigit(s[at]) && IsDigit(s[at + 1])
    then 10 * DigitValue(s[at]) + DigitValue(s[at + 1]) else -1
  }

  /** The fraction `.mmm` at `at`, or -1. */
  function ReadFraction(s: string, at: nat): int
    requires at + 4 <= |s|
  {
    if s[at] == '.' && IsDigit(s[at + 1]) && IsDigit(s[at + 2]) && IsDigit(s[at + 3])
    then 100 * DigitValue(s[at + 1]) + 10 * DigitValue(s[at + 2]) + DigitValue(s[at + 3]) else -1
  }

  function Milliseconds(h: int, m: int, s: int, frac: int): int {
    ((h * 60 + m) * 60 + s) * 1000 + frac
  }

  /** A full match of the canonical form: milliseconds since midnight, and whether `.mmm` is there. */
  function ParseExact(t: string): (r: Option<(int, bool)>) {
    if |t| != 8 && |t| != 12 then None
    else
      var h, m, s := ReadTwo(t, 0), ReadTwo(t, 3), ReadTwo(t, 6);
      var frac := if |t| == 12 then ReadFraction(t, 8) else 0;
      if 0 <= h < 24 && t[2] == ':' && 0 <= m < 60 && t[5] == ':' && 0 <= s < 60 && 0 <= frac
      then Some((Milliseconds(h, m, s, frac), |t| == 12))
      else None
  }

  predicate EndsInNewline(t: string) {
    t != [] && t[|t| - 1] == '\n'
  }

  function ParseMs(t: string): (r: Option<(int, bool)>) {
    if EndsInNewline(t) then ParseExact(t[..|t| - 1]) else ParseExact(t)
  }

  function FormatMs(ms: int, hasMs: bool): (r: Option<string>) {
    if !(0 <= ms < MS_PER_DAY) || (!hasMs && ms % 1000 != 0) then None
    else
      var s := ms / 1000;
      var m := s / 60;
      var base := TwoDigits(m / 60) + ":" + TwoDigits(m % 60) + ":" + TwoDigits(s % 60);
      Some(if hasMs then base + "." + ThreeDigits(ms % 1000) else base)
  }

  lemma SplitMilliseconds(h: int, m: int, s: int, frac: int)
    requires 0 <= h < 24 && 0 <= m < 60 && 0 <= s < 60 && 0 <= frac < 1000
    ensures var ms := Milliseconds(h, m, s, frac);
      0 <= ms < MS_PER_DAY && ms % 1000 == frac && ms / 1000 % 60 == s
      && ms / 1000 / 60 % 60 == m && ms / 1000 / 60 / 60 == h
  {
    var ms := Milliseconds(h, m, s, frac);
    assert ms / 1000 == (h * 60 + m) * 60 + s;
    assert ms / 1000 / 60 == h * 60 + m;
  }

  /** Every canonical time that can be written is read back as it was. */
  lemma FormatThenParse(ms: int, hasMs: bool)
    requires FormatMs(ms, hasMs).Some?
    ensures !EndsInNewline(FormatMs(ms, hasMs).value)
    ensures ParseMs(FormatMs(ms, hasMs).value) == Some((ms, hasMs))
  {
    var t := FormatMs(ms, hasMs).value;
    var s := ms / 1000;
    var m := s / 60;
    assert |t| == if hasMs then 12 else 8;
    assert ReadTwo(t, 0) == m / 60 && ReadTwo(t, 3) == m % 60 && ReadTwo(t, 6) == s % 60;
    assert hasMs ==> ReadFraction(t, 8) == ms % 1000;
    assert Milliseconds(m / 60, m % 60, s % 60, ms % 1000) == ms;
  }

  lemma TwoDigitsRead(t: string, at: nat)
    requires at + 2 <= |t| && ReadTwo(t, at) >= 0
    ensures ReadTwo(t, at) < 100 && TwoDigits(ReadTwo(t, at)) == t[at..at + 2]
  {
    var n := ReadTwo(t, at);
    assert n / 10 == DigitValue(t[at]) && n % 10 == DigitValue(t[at + 1]);
  }

  lemma ThreeDigitsRead(t: string, at: nat)
    requires at + 4 <= |t| && ReadFraction(t, at) >= 0
    ensures ReadFraction(t, at) < 1000 && "." + ThreeDigits(ReadFraction(t, at)) == t[at..at + 4]
  {
    var n := ReadFraction(t, at);
    assert n / 100 == DigitValue(t[at + 1]);
    assert n / 10 == 10 * DigitValue(t[at + 1]) + DigitValue(t[at + 2]);
    assert n % 10 == DigitValue(t[at + 3]);
  }

  lemma FormatOfParts(h: int, m: int, s: int, frac: int, hasMs: bool)
    requires 0 <= h < 24 && 0 <= m < 60 && 0 <= s < 60 && 0 <= frac < 1000
    requires !hasMs ==> frac == 0
    ensures FormatMs(Milliseconds(h, m, s, frac), hasMs)
         == Some(TwoDigits(h) + ":" + TwoDigits(m) + ":" + TwoDigits(s)
                 + if hasMs then "." + ThreeDigits(frac) else "")
  {
    SplitMilliseconds(h, m, s, frac);
    var base := TwoDigits(h) + ":" + TwoDigits(m) + ":" + TwoDigits(s);
    assert base + "" == base;
    assert base + "." + ThreeDigits(frac) == base + ("." + ThreeDigits(frac));
  }

  lemma ParseThenFormatExact(t: string)
    requires ParseExact(t).Some?
    ensures FormatMs(ParseExact(t).value.0, ParseExact(t).value.1) == Some(t)
  {
    var h, m, s := ReadTwo(t, 0), ReadTwo(t, 3), ReadTwo(t, 6);
    TwoDigitsRead(t, 0);
    TwoDigitsRead(t, 3);
    TwoDigitsRead(t, 6);
    assert t[..8] == t[0..2] + ":" + t[3..5] + ":" + t[6..8];
    if |t| == 12 {
      ThreeDigitsRead(t, 8);
      assert t == t[..8] + t[8..12];
      FormatOfParts(h, m, s, ReadFraction(t, 8), true);
    } else {
      assert t == t[..8] + "";
      FormatOfParts(h, m, s, 0, false);
    }
  }

  /** Reading a time and writing it again gives its canonical spelling, without the loose newline. */
  lemma ParseThenFormat(t: string)
    requires ParseMs(t).Some?
    ensures FormatMs(ParseMs(t).value.0, ParseMs(t).value.1)
         == Some(if EndsInNewline(t) then t[..|t| - 1] else t)
  {
    ParseThenFormatExact(if EndsInNewline(t) then t[..|t| - 1] else t);
  }

  // ---------- what the digits say ----------

  /** Two decimal digits at `at`: their number. */
  predicate HasNumber(t: string, at: nat, n: int) {
    && at + 1 < |t| && '0' <= t[at] <= '9' && '0' <= t[at + 1] <= '9'
    && n == 10 * (t[at] as int - '0' as int) + (t[at + 1] as int - '0' as int)
  }

  /** `HH:MM:SS` is so many hours, minutes and seconds after midnight. */
  lemma ClockSaysTime(t: string, h: int, m: int, s: int)
    requires |t| == 8 && HasNumber(t, 0, h) && t[2] == ':' && HasNumber(t, 3, m) && t[5] == ':' && HasNumber(t, 6, s)
    ensures ParseMs(t) ==
      if h < 24 && m < 60 && s < 60 then Some((3_600_000 * h + 60_000 * m + 1000 * s, false)) else None
  {
  }

  /** `.mmm` after it are milliseconds. */
  lemma ClockSaysMilliseconds(t: string, h: int, m: int, s: int, d: int, ms: int)
    requires |t| == 12 && HasNumber(t, 0, h) && t[2] == ':' && HasNumber(t, 3, m) && t[5] == ':' && HasNumber(t, 6, s)
    requires t[8] == '.' && '0' <= t[9] <= '9' && d == t[9] as int - '0' as int && HasNumber(t, 10, ms)
    ensures ParseMs(t) ==
      if h < 24 && m < 60 && s < 60 then Some((3_600_000 * h + 60_000 * m + 1000 * s + 100 * d + ms, true)) else None
  {
  }
}
