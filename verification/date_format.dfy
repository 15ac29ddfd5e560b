/**
 * `post_date.strftime('%Y.%m.%d')`: a four-digit year, two-digit month and
 * two-digit day, each zero-padded, separated by dots.
 */
module DateFormat {
  import opened Wrappers
  import opened Calendar
  import opened YmdParse

  function Pow10(n: nat): nat
  {
    if n == 0 then 1 else 10 * Pow10(n - 1)
  }

  function DigitChar(n: int): (c: char)
    requires 0 <= n <= 9
    ensures IsDigit(c) && DigitValue(c) == n
  {
    ('0' as int + n) as char
  }

  /** The last `width` decimal digits of `n`, zero-padded on the left. */
  function PadDecimal(n: nat, width: nat): (t: string)
    ensures |t| == width && AllDigits(t)
    ensures n < Pow10(width) ==> Value(t) == n
  {
    if width == 0 then ""
    else
      var t := PadDecimal(n / 10, width - 1) + [DigitChar(n % 10)];
      assert t[..|t| - 1] == PadDecimal(n / 10, width - 1);
      t
  }

  /** Padding a digit string's value back to the string's own width gives the string back. */
  lemma {:induction false} PadDecimalOfValue(t: string)
    requires AllDigits(t)
    ensures PadDecimal(Value(t), |t|) == t
  {
    if |t| > 0 {
      var init := t[..|t| - 1];
      var v := Value(t);
      assert v / 10 == Value(init) && v % 10 == DigitValue(t[|t| - 1]);
      PadDecimalOfValue(init);
      assert t == init + [t[|t| - 1]];
    }
  }

  /** Every occurrence of `from` in `s` replaced by `to`. */
  function Replace(s: string, from: char, to: char): (r: string)
    ensures |r| == |s|
    ensures forall i :: 0 <= i < |s| ==> r[i] == (if s[i] == from then to else s[i])
  {
    seq(|s|, i requires 0 <= i < |s| => if s[i] == from then to else s[i])
  }

  /** `strftime('%Y.%m.%d')` of a datetime. */
  function FormatDotted(t: DateTime): (r: string)
    requires ValidDateTime(t)
    ensures |r| == 10 && r[4] == '.' && r[7] == '.'
    ensures AllDigits(r[..4]) && AllDigits(r[5..7]) && AllDigits(r[8..])
  {
    var r := PadDecimal(t.year, 4) + "." + PadDecimal(t.month, 2) + "." + PadDecimal(t.day, 2);
    assert r[..4] == PadDecimal(t.year, 4);
    assert r[5..7] == PadDecimal(t.month, 2);
    assert r[8..] == PadDecimal(t.day, 2);
    r
  }

  lemma ReplaceDotsInFields(a: string, b: string, c: string)
    requires AllDigits(a) && AllDigits(b) && AllDigits(c)
    ensures Replace(a + "." + b + "." + c, '.', '-') == a + "-" + b + "-" + c
  {
  }

  /**
   * The displayed date reads back as the date it was made from: with its dots
   * turned into dashes it parses to the same year, month and day.
   */
  lemma FormatDottedRoundTrip(t: DateTime)
    requires ValidDateTime(t)
    ensures ParseYMD(Replace(FormatDotted(t), '.', '-')) == Some(DateOf(t))
  {
    var y, m, d := PadDecimal(t.year, 4), PadDecimal(t.month, 2), PadDecimal(t.day, 2);
    ReplaceDotsInFields(y, m, d);
    ParseYMDOfFields(y, m, d);
  }

  /** A `YYYY-MM-DD` string written with all ten characters. */
  predicate ZeroPadded(s: string) {
    && |s| == 10 && s[4] == '-' && s[7] == '-'
    && AllDigits(s[..4]) && AllDigits(s[5..7]) && AllDigits(s[8..])
  }

  lemma ReplaceDashesInFields(a: string, b: string, c: string)
    requires AllDigits(a) && AllDigits(b) && AllDigits(c)
    ensures Replace(a + "-" + b + "-" + c, '-', '.') == a + "." + b + "." + c
  {
  }

  /**
   * For a zero-padded date string that parses, the displayed date is the input
   * with its dashes replaced by dots.
   */
  lemma FormatOfZeroPaddedInput(s: string, d: Date)
    requires ZeroPadded(s) && ParseYMD(s) == Some(d)
    ensures FormatDotted(AtMidnight(d)) == Replace(s, '-', '.')
  {
    var y, m, dd := s[..4], s[5..7], s[8..];
    assert s == y + "-" + m + "-" + dd;
    ParseYMDMatchesGrammar(s, d);
    var k :| SpellsAt(s, k, d);
    SplitIsUnique(s, k, d);
    assert d == Date(Value(y), Value(m), Value(dd));
    PadDecimalOfValue(y);
    PadDecimalOfValue(m);
    PadDecimalOfValue(dd);
    ReplaceDashesInFields(y, m, dd);
  }

}
