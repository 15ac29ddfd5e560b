/**
 * `datetime.strptime(s, '%Y-%m-%d')` as CPython's `_strptime` implements it:
 * a regular-expression match of the whole string against
 *   `%Y` = exactly four digits,
 *   `%m` = `1[0-2]|0[1-9]|[1-9]`,
 *   `%d` = `3[01]|[12]\d|0[1-9]|[1-9]| [1-9]` (a one-digit day may carry a leading space),
 * with a literal `-` between the fields, followed by the calendar check of
 * `datetime.date`. A failure at either stage is a `ValueError`, modelled as `None`.
 */
module YmdParse {
  import opened Wrappers
  import opened Calendar

  predicate IsDigit(c: char) {
    '0' <= c <= '9'
  }

  predicate AllDigits(s: string) {
    forall i :: 0 <= i < |s| ==> IsDigit(s[i])
  }

  function DigitValue(c: char): (n: int)
    requires IsDigit(c)
    ensures 0 <= n <= 9
  {
    c as int - '0' as int
  }

  /** The decimal value of a digit string, most significant digit first. */
  function Value(s: string): (n: nat)
    requires AllDigits(s)
  {
    if |s| == 0 then 0 else Value(s[..|s| - 1]) * 10 + DigitValue(s[|s| - 1])
  }

  /** Text the `%Y` directive accepts. */
  predicate YearField(t: string) {
    |t| == 4 && AllDigits(t)
  }

  /** Text the `%m` directive accepts: "01".."12" or "1".."9". */
  predicate MonthField(t: string) {
    1 <= |t| <= 2 && AllDigits(t) && 1 <= Value(t) <= 12
  }

  /** Text the `%d` directive accepts: "01".."31", "1".."9", or " 1".." 9". */
  predicate DayField(t: string) {
    || (1 <= |t| <= 2 && AllDigits(t) && 1 <= Value(t) <= 31)
    || (|t| == 2 && t[0] == ' ' && '1' <= t[1] <= '9')
  }

  function DayValue(t: string): int
    requires DayField(t)
  {
    if t[0] == ' ' then DigitValue(t[1]) else Value(t)
  }

  /**
   * Reference grammar: `s` is year, `-`, month, `-`, day, with the second dash at
   * index `k`, and the fields read as the date `d`.
   */
  ghost predicate SpellsAt(s: string, k: int, d: Date) {
    && 6 <= k < |s|
    && s[4] == '-' && s[k] == '-'
    && YearField(s[..4]) && MonthField(s[5..k]) && DayField(s[k + 1..])
    && d == Date(Value(s[..4]), Value(s[5..k]), DayValue(s[k + 1..]))
  }

  /** `s` is accepted by `strptime(s, '%Y-%m-%d')` and denotes the calendar date `d`. */
  ghost predicate Denotes(s: string, d: Date) {
    (exists k :: SpellsAt(s, k, d)) && ValidDate(d)
  }

  /** `strptime(s, '%Y-%m-%d')`, returning the date part of the result, or `None` on `ValueError`. */
  function ParseYMD(s: string): (r: Option<Date>)
    ensures r.Some? ==> ValidDate(r.value)
  {
    if |s| < 7 || s[4] != '-' || !YearField(s[..4]) then None
    else
      // The month field is one or two digits, so the second dash is at index 6 or 7.
      var k := if s[6] == '-' then 6 else if |s| > 7 && s[7] == '-' then 7 else 0;
      if k == 0 || !MonthField(s[5..k]) || !DayField(s[k + 1..]) then None
      else
        var d := Date(Value(s[..4]), Value(s[5..k]), DayValue(s[k + 1..]));
        if ValidDate(d) then Some(d) else None
  }

  /** The position of the second dash is fixed by the text: at most one split fits the grammar. */
  lemma SplitIsUnique(s: string, k: int, d: Date)
    requires SpellsAt(s, k, d)
    ensures k == (if s[6] == '-' then 6 else 7)
  {
    assert |s[5..k]| == k - 5;
    if k == 7 {
      assert s[5..k][1] == s[6];
    }
  }

  /** The parser accepts exactly the strings of the reference grammar that name a real calendar date. */
  lemma ParseYMDMatchesGrammar(s: string, d: Date)
    ensures ParseYMD(s) == Some(d) <==> Denotes(s, d)
  {
    if ParseYMD(s) == Some(d) {
      var k := if s[6] == '-' then 6 else 7;
      assert SpellsAt(s, k, d);
    }
    if Denotes(s, d) {
      var k :| SpellsAt(s, k, d);
      SplitIsUnique(s, k, d);
    }
  }

  /** A string the grammar rejects, or whose fields are not a calendar date, does not parse. */
  lemma ParseYMDFailsOffGrammar(s: string)
    ensures ParseYMD(s) == None <==> forall d :: !Denotes(s, d)
  {
    if ParseYMD(s).Some? {
      ParseYMDMatchesGrammar(s, ParseYMD(s).value);
    }
    forall d | Denotes(s, d)
      ensures ParseYMD(s) == Some(d)
    {
      ParseYMDMatchesGrammar(s, d);
    }
  }

  lemma ValueOfTwo(t: string)
    requires |t| == 2 && AllDigits(t)
    ensures Value(t) == DigitValue(t[0]) * 10 + DigitValue(t[1])
  {
    assert t[..1][..0] == [];
    assert Value(t[..1]) == DigitValue(t[0]);
  }

  lemma ValueOfFour(t: string)
    requires |t| == 4 && AllDigits(t)
    ensures Value(t) == ((DigitValue(t[0]) * 10 + DigitValue(t[1])) * 10 + DigitValue(t[2])) * 10 + DigitValue(t[3])
  {
    ValueOfTwo(t[..2]);
    assert t[..3][..2] == t[..2];
  }

  /** How `ParseYMD` reads a string already split into its three fields. */
  lemma ParseYMDOfFields(y: string, m: string, d: string)
    requires YearField(y) && MonthField(m) && DayField(d)
    ensures var date := Date(Value(y), Value(m), DayValue(d));
      ParseYMD(y + "-" + m + "-" + d) == if ValidDate(date) then Some(date) else None
  {
    var s := y + "-" + m + "-" + d;
    var k := 5 + |m|;
    assert |s| == k + 1 + |d|;
    assert forall i | 0 <= i < 4 :: s[i] == y[i];
    assert s[4] == '-';
    assert forall i | 0 <= i < |m| :: s[5 + i] == m[i];
    assert s[k] == '-';
    assert forall i | 0 <= i < |d| :: s[k + 1 + i] == d[i];
    assert s[..4] == y;
    assert s[5..k] == m;
    assert s[k + 1..] == d;
    if |m| == 2 {
      assert s[6] == m[1];
    }
  }

  /** A leap day in a leap year is accepted. */
  lemma ParseYMDLeapDay()
    ensures ParseYMD("2024-02-29") == Some(Date(2024, 2, 29))
  {
    ValueOfFour("2024");
    ValueOfTwo("02");
    ValueOfTwo("29");
    ParseYMDOfFields("2024", "02", "29");
    assert "2024" + "-" + "02" + "-" + "29" == "2024-02-29";
  }

  /** Zero-padded dates are read field by field. */
  lemma ParseYMDNewYear()
    ensures ParseYMD("2024-01-01") == Some(Date(2024, 1, 1))
  {
    ValueOfFour("2024");
    ValueOfTwo("01");
    ParseYMDOfFields("2024", "01", "01");
    assert "2024" + "-" + "01" + "-" + "01" == "2024-01-01";
  }

  lemma ParseYMDFirstOfMarch()
    ensures ParseYMD("2024-03-01") == Some(Date(2024, 3, 1))
  {
    ValueOfFour("2024");
    ValueOfTwo("01");
    ValueOfTwo("03");
    ParseYMDOfFields("2024", "03", "01");
    assert "2024" + "-" + "03" + "-" + "01" == "2024-03-01";
  }

  /** Month and day need no zero padding. */
  lemma ParseYMDUnpadded()
    ensures ParseYMD("2024-1-5") == Some(Date(2024, 1, 5))
  {
    ValueOfFour("2024");
    ParseYMDOfFields("2024", "1", "5");
    assert "2024" + "-" + "1" + "-" + "5" == "2024-1-5";
  }

  /** A one-digit day may be preceded by a space instead of a zero. */
  lemma ParseYMDSpacePaddedDay()
    ensures ParseYMD("2024-01- 5") == Some(Date(2024, 1, 5))
  {
    ValueOfFour("2024");
    ValueOfTwo("01");
    ParseYMDOfFields("2024", "01", " 5");
    assert "2024" + "-" + "01" + "-" + " 5" == "2024-01- 5";
  }

  /** Text that is not a date at all, or that leaves characters unconsumed, is rejected. */
  lemma ParseYMDRejectsOffGrammar()
    ensures ParseYMD("not-a-date") == None
    ensures ParseYMD("2024-01-01x") == None
    ensures ParseYMD("2024-13-01") == None
  {
    ValueOfTwo("13");
    assert "2024-13-01"[5..7] == "13";
  }

  /** A February 29th outside a leap year is rejected by the calendar check. */
  lemma ParseYMDRejectsNonLeapDay()
    ensures ParseYMD("2023-02-29") == None
  {
    ValueOfFour("2023");
    ValueOfTwo("02");
    ValueOfTwo("29");
    ParseYMDOfFields("2023", "02", "29");
    assert "2023" + "-" + "02" + "-" + "29" == "2023-02-29";
  }

  /** April has 30 days, so its 31st is rejected by the calendar check. */
  lemma ParseYMDRejectsApril31()
    ensures ParseYMD("2024-04-31") == None
  {
    ValueOfFour("2024");
    ValueOfTwo("04");
    ValueOfTwo("31");
    ParseYMDOfFields("2024", "04", "31");
    assert "2024" + "-" + "04" + "-" + "31" == "2024-04-31";
  }

  /** Year 0 matches the four-digit pattern but is below `datetime.MINYEAR`. */
  lemma ParseYMDRejectsYearZero()
    ensures ParseYMD("0000-01-01") == None
  {
    ValueOfFour("0000");
    ValueOfTwo("01");
    ParseYMDOfFields("0000", "01", "01");
    assert "0000" + "-" + "01" + "-" + "01" == "0000-01-01";
  }

}
