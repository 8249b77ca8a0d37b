/**
 * The date column conversion at the end of `parse_ipo_data`
 * (backend/formatter.py): `pd.to_datetime(..., format='%d-%b', errors='coerce')`
 * followed by re-anchoring the year around a reference year.
 */
module Dates {
  import opened Wrappers
  import opened Text

  datatype Date = Date(year: int, month: nat, day: nat)

  function ToLower(c: char): char {
    if 'A' <= c <= 'Z' then (c as int - 'A' as int + 'a' as int) as char else c
  }

  const MonthAbbreviations: seq<string> :=
    ["jan", "feb", "mar", "apr", "may", "jun", "jul", "aug", "sep", "oct", "nov", "dec"]

  /** A three-letter text in lower case. */
  function Lowered(abbr: string): (lower: string)
    requires |abbr| == 3
    ensures |lower| == 3 && forall k :: 0 <= k < 3 ==> lower[k] == ToLower(abbr[k])
  {
    [ToLower(abbr[0]), ToLower(abbr[1]), ToLower(abbr[2])]
  }

  /** `abbr` spells the abbreviation of month `j + 1` in some letter case. */
  predicate Spells(abbr: string, j: nat)
    requires j < 12
  {
    |abbr| == 3 && forall k :: 0 <= k < 3 ==> ToLower(abbr[k]) == MonthAbbreviations[j][k]
  }

  /**
   * `%b`: an English month abbreviation in any letter case, as a month number
   * 1..12; every such abbreviation is recognised, as its own month.
   */
  function MonthNumber(abbr: string): (m: Option<nat>)
    ensures m.Some? ==> 1 <= m.value <= 12 && Spells(abbr, m.value - 1)
    ensures forall j :: 0 <= j < 12 && Spells(abbr, j) ==> m == Some(j + 1)
  {
    if |abbr| != 3 then None
    else
      LowerFindsMonth(abbr);
      MonthFrom(Lowered(abbr), 0)
  }

  /** A text that spells a month's abbreviation is found as that month. */
  lemma LowerFindsMonth(abbr: string)
    requires |abbr| == 3
    ensures forall j :: 0 <= j < 12 && Spells(abbr, j) ==> MonthFrom(Lowered(abbr), 0) == Some(j + 1)
  {
    AbbreviationsDistinct();
    forall j | 0 <= j < 12 && Spells(abbr, j)
      ensures MonthFrom(Lowered(abbr), 0) == Some(j + 1)
    {
      assert MonthAbbreviations[j] == Lowered(abbr);
      MonthFromFinds(Lowered(abbr), j);
    }
  }

  /** The search returns the month whose abbreviation is the text. */
  lemma MonthFromFinds(lower: string, j: nat)
    requires j < 12 && MonthAbbreviations[j] == lower
    ensures MonthFrom(lower, 0) == Some(j + 1)
  {
    var m := MonthFrom(lower, 0);
    assert m.Some?;
    AbbreviationsDistinct();
    assert MonthAbbreviations[m.value - 1] == MonthAbbreviations[j];
  }

  /** Every abbreviation has three letters, and no two months share one. */
  lemma AbbreviationsDistinct()
    ensures forall a :: 0 <= a < 12 ==> |MonthAbbreviations[a]| == 3
    ensures forall a, b :: 0 <= a < b < 12 ==> MonthAbbreviations[a] != MonthAbbreviations[b]
  {
  }

  function MonthFrom(lower: string, i: nat): (m: Option<nat>)
    requires i <= 12
    ensures m.Some? ==> i < m.value <= 12 && MonthAbbreviations[m.value - 1] == lower
    ensures m.None? ==> forall j :: i <= j < 12 ==> MonthAbbreviations[j] != lower
    decreases 12 - i
  {
    if i == 12 then None
    else if MonthAbbreviations[i] == lower then Some(i + 1)
    else MonthFrom(lower, i + 1)
  }

  /** Days per month in 1900, the year `strptime` assumes when the format has none. */
  function DaysIn1900(month: nat): nat
    requires 1 <= month <= 12
  {
    if month == 2 then 28
    else if month == 4 || month == 6 || month == 9 || month == 11 then 30
    else 31
  }

  /**
   * `%d-%b`: one or two digits naming a day of the month (1 to 31 and
   * valid for that month in 1900), a hyphen and a month abbreviation;
   * `None` is the coerced NaT.
   */
  function ParseDayMonth(s: string): (r: Option<(nat, nat)>)
    ensures r.Some? ==> 1 <= r.value.1 <= 12 && 1 <= r.value.0 <= DaysIn1900(r.value.1)
  {
    var n := RunFrom(s, 0, IsDigit);
    if (n == 1 || n == 2) && |s| == n + 4 && s[n] == '-' then
      var day := DigitsValue(s[..n]);
      match MonthNumber(s[n + 1..])
      case Some(month) =>
        if 1 <= day <= DaysIn1900(month) then Some((day, month)) else None
      case None => None
    else None
  }

  /**
   * The year re-anchoring applied to each parsed date: months before June
   * belong to the year after `currentYear`, the others to `currentYear`;
   * a missing or unparseable date stays missing.
   */
  function AnchorDate(text: Option<string>, currentYear: int): (d: Option<Date>)
    ensures d.Some? <==> text.Some? && ParseDayMonth(text.value).Some?
    ensures d.Some? ==> (d.value.day, d.value.month) == ParseDayMonth(text.value).value
    ensures d.Some? && d.value.month < 6 ==> d.value.year == currentYear + 1
    ensures d.Some? && d.value.month >= 6 ==> d.value.year == currentYear
  {
    match text
    case None => None
    case Some(s) =>
      match ParseDayMonth(s)
      case None => None
      case Some((day, month)) =>
        Some(Date(if month < 6 then currentYear + 1 else currentYear, month, day))
  }

  /** The digit run of a `d-Mon` or `dd-Mon` text is its day part. */
  lemma DayRun(s: string, n: nat)
    requires (n == 1 || n == 2) && |s| == n + 4 && AllDigits(s[..n]) && s[n] == '-'
    ensures RunFrom(s, 0, IsDigit) == n
  {
    assert forall q :: 0 <= q < n ==> s[..n][q] == s[q];
    DigitRunEnds(s, n);
  }

  /**
   * Every valid `d-Mon` or `dd-Mon` text parses: one or two digits naming a
   * day of that month in 1900, a hyphen and a month abbreviation give that
   * day and month.
   */
  lemma ParseDayMonthValid(s: string, n: nat, month: nat)
    requires (n == 1 || n == 2) && |s| == n + 4 && AllDigits(s[..n]) && s[n] == '-'
    requires MonthNumber(s[n + 1..]) == Some(month)
    requires 1 <= DigitsValue(s[..n]) <= DaysIn1900(month)
    ensures ParseDayMonth(s) == Some((DigitsValue(s[..n]), month))
  {
    DayRun(s, n);
  }

  /**
   * Every parsed text has that form: one or two leading digits giving the
   * day, a hyphen, and the abbreviation of the month.
   */
  lemma ParseDayMonthShape(s: string)
    requires ParseDayMonth(s).Some?
    ensures var n := |s| - 4;
      && (n == 1 || n == 2) && AllDigits(s[..n]) && s[n] == '-'
      && MonthNumber(s[n + 1..]) == Some(ParseDayMonth(s).value.1)
      && ParseDayMonth(s).value.0 == DigitsValue(s[..n])
  {
  }

  /** `%b` reads "Mar" as March. */
  lemma MonthMar()
    ensures MonthNumber("Mar") == Some(3)
  {
    assert Lowered("Mar") == "mar";
  }

  /** `%b` reads "Jul" as July. */
  lemma MonthJul()
    ensures MonthNumber("Jul") == Some(7)
  {
    assert Lowered("Jul") == "jul";
  }

  /** `%b` reads "Feb" as February. */
  lemma MonthFeb()
    ensures MonthNumber("Feb") == Some(2)
  {
    assert Lowered("Feb") == "feb";
  }

  /** "15-Mar" falls in the year after the reference year. */
  lemma AnchorMarch(y: int)
    ensures AnchorDate(Some("15-Mar"), y) == Some(Date(y + 1, 3, 15))
  {
    assert "15-Mar"[3..] == "Mar" && "15-Mar"[..2] == "15";
    assert DigitsValue("15") == 15 by { assert "15"[..1] == "1"; }
    MonthMar();
    ParseDayMonthValid("15-Mar", 2, 3);
  }

  /** "20-Jul" stays in the reference year. */
  lemma AnchorJuly(y: int)
    ensures AnchorDate(Some("20-Jul"), y) == Some(Date(y, 7, 20))
  {
    assert "20-Jul"[3..] == "Jul" && "20-Jul"[..2] == "20";
    assert DigitsValue("20") == 20 by { assert "20"[..1] == "2"; }
    MonthJul();
    ParseDayMonthValid("20-Jul", 2, 7);
  }

  /** "29-Feb" is not a day of 1900, so it is coerced to a missing date. */
  lemma AnchorLeapDay(y: int)
    ensures AnchorDate(Some("29-Feb"), y) == None
  {
    assert "29-Feb"[3..] == "Feb" && "29-Feb"[..2] == "29";
    assert DigitsValue("29") == 29 by { assert "29"[..1] == "2"; }
    MonthFeb();
    DayRun("29-Feb", 2);
  }
}
