/**
 * One record line followed through `parse_ipo_data` (backend/formatter.py)
 * from its text to the record it yields: `X IPO 120 (10%) â‚¹9 Cr`, with the
 * size mark as the three characters `â‚¹`.
 */
module SampleLine {
  import opened Wrappers
  import opened Text
  import opened Patterns
  import opened Pricing
  import opened Formatter

  const Line: string := "X IPO 120 (10%) \U{E2}\U{201A}\U{B9}9 Cr"

  /** `w` occurs at `i` when its characters do, one by one. */
  lemma HasAtChars(s: string, i: nat, w: string)
    requires i + |w| <= |s| && forall k :: 0 <= k < |w| ==> s[i + k] == w[k]
    ensures HasAt(s, i, w)
  {
    assert s[i..i + |w|] == w;
  }

  /** A status keyword starts with `U`, `A`, `L` or `C`, and `Close` needs five characters. */
  lemma StatusAtFirst(line: string, j: nat)
    ensures StatusAt(line, j).Some? ==>
      j < |line| && (line[j] == 'U' || line[j] == 'A' || line[j] == 'L' || (line[j] == 'C' && j + 5 <= |line|))
  {
    if HasAt(line, j, "Upcoming") { assert line[j] == line[j..j + 8][0]; }
    if HasAt(line, j, "Allotted") { assert line[j] == line[j..j + 8][0]; }
    if HasAt(line, j, "Listed") { assert line[j] == line[j..j + 6][0]; }
    if HasAt(line, j, "Close") { assert line[j] == line[j..j + 5][0]; }
  }

  /** A subscription token starts with `S`. */
  lemma SubscriptionAtFirst(line: string, j: nat)
    ensures SubscriptionAt(line, j).Some? ==> j < |line| && line[j] == 'S'
  {
    var r := SubscriptionAt(line, j);
    if r.Some? {
      var w := "Sub:" + r.value + "x";
      assert line[j] == line[j..j + |w|][0] == w[0];
    }
  }

  /** A price/percent token starts with a digit. */
  lemma PriceTokenAtFirst(line: string, j: nat)
    ensures PriceTokenAt(line, j).Some? ==> j < |line| && IsDigit(line[j])
  {
    if j < |line| && !IsDigit(line[j]) {
      assert RunFrom(line, j, IsDigit) == 0;
    }
  }

  /** A size token starts with the first character of the size mark. */
  lemma SizeAtFirst(line: string, j: nat)
    ensures SizeAt(line, j).Some? ==> j < |line| && line[j] == SizeMark[0]
  {
    if HasAt(line, j, SizeMark) { assert line[j] == line[j..j + 3][0]; }
  }

  /** The characters of the sample line that the patterns look at. */
  lemma LineChars()
    ensures |Line| == 23
    ensures forall j :: 0 <= j < |Line| ==>
      && Line[j] != 'U' && Line[j] != 'A' && Line[j] != 'L' && Line[j] != 'S' && Line[j] != '-'
      && (Line[j] == 'C' ==> j == 21)
      && (Line[j] == SizeMark[0] ==> j == 16)
      && (IsDigit(Line[j]) ==> 6 <= j < 9 || 11 <= j < 13 || j == 19)
  {
  }

  /** The name pattern ends only at index 1: `X` followed by ` IPO`. */
  lemma NameEndsOnlyAtOne()
    ensures NameEndsAt(Line, 1)
    ensures forall v: nat :: NameEndsAt(Line, v) ==> v == 1
  {
    HasAtChars(Line, 1, " IPO");
    assert !IsNameChar(Line[6]);
    forall v: nat | NameEndsAt(Line, v) ensures v == 1 {
      assert Line[v] == Line[v..v + 4][0] == ' ';
      assert Line[v + 1] == Line[v..v + 4][1] == 'I';
    }
  }

  /** The name group is `X`, and the line is a record line. */
  lemma LineName()
    ensures MatchName(Line) == Some(1)
    ensures IsRecordLine(Line)
  {
    NameEndsOnlyAtOne();
    MatchNameLongest(Line);
    assert !StartsWith(Line, HeaderMarker) by { assert Line[0] == Line[..|HeaderMarker|][0]; }
    assert !IsSpace(Line[0]);
  }

  /** The stripped name group is `X`. */
  lemma LineNameText()
    ensures Strip(Line[..1]) == "X"
  {
    HasAtChars(Line, 0, "X");
    var x := Line[..1];
    assert x == "X";
    StripEmptyIffBlank(x);
    assert RunFrom(x, 0, IsSpace) == 0;
  }

  /** No status keyword occurs, so the status is `Close`. */
  lemma LineStatus()
    ensures FindStatus(Line) == Close
  {
    LineChars();
    forall j | 0 <= j < |Line| ensures StatusAt(Line, j).None? {
      StatusAtFirst(Line, j);
    }
    FindStatusFirst(Line);
  }

  /** There is no `Sub:` number, so the subscription is `None`. */
  lemma LineSubscription()
    ensures ReadSubscription(Line) == Ok(None)
  {
    LineChars();
    forall j | 0 <= j < |Line| ensures SubscriptionAt(Line, j).None? {
      SubscriptionAtFirst(Line, j);
    }
    FindSubscriptionFirst(Line);
  }

  /** No token starts before index 6: the characters there are not digits. */
  lemma TokenNotBeforeSix()
    ensures forall j :: 0 <= j < 6 ==> PriceTokenAt(Line, j).None?
  {
    LineChars();
    forall j | 0 <= j < 6 ensures PriceTokenAt(Line, j).None? {
      PriceTokenAtFirst(Line, j);
    }
  }

  /** The digit group `120` at index 6. */
  lemma GroupAtSix()
    ensures DigitGroupAt(Line, 6).Some? && DigitGroupAt(Line, 6).value == DigitGroup("120", None)
  {
    assert Line[9] == Line[9..11][0];
    DigitGroupAtLead(Line, 6, 9);
    HasAtChars(Line, 6, "120");
  }

  /** ` (10%)` at index 9 of any line. */
  lemma SpacedPercentTen(line: string)
    requires 15 <= |line| && line[9] == ' ' && line[10] == '(' && line[11] == '1' && line[12] == '0'
    requires line[13] == '%' && line[14] == ')'
    ensures SpacedPercentAt(line, 9).Some? && SpacedPercentAt(line, 9).value == "10"
  {
    HasAtChars(line, 10, "(");
    HasAtChars(line, 13, "%)");
    PercentAtComplete(line, 10, 13);
    SpacedPercentAtComplete(line, 9, 10);
    HasAtChars(line, 11, "10");
  }

  /** The spaced percentage ` (10%)` after the group. */
  lemma PercentAfterGroup()
    ensures SpacedPercentAt(Line, 9).Some? && SpacedPercentAt(Line, 9).value == "10"
  {
    SpacedPercentTen(Line);
  }

  /** The token at index 6. */
  lemma TokenAtSix()
    ensures PriceTokenAt(Line, 6) == Some(PriceToken(DigitGroup("120", None), "10"))
  {
    GroupAtSix();
    PercentAfterGroup();
    assert DigitGroup("120", None).Text() == "120";
    PriceTokenAtComplete(Line, 6);
  }

  /** The first token is `120 (10%)`, at index 6. */
  lemma LineToken()
    ensures FindPriceToken(Line) == Some(PriceToken(DigitGroup("120", None), "10"))
  {
    TokenNotBeforeSix();
    TokenAtSix();
    FindPriceTokenFirst(Line);
  }

  /** The token yields price 1 and premium 0.1, whatever pair was carried. */
  lemma LineQuoteValue(carry: Option<Quote>)
    ensures UpdateQuote(Line, carry) == Ok(Some(Quote(1, 0.1)))
  {
    LineToken();
    var tok := PriceToken(DigitGroup("120", None), "10");
    DashesBecomeZeros("120", "");
    ParseDecimalOfDigits("10");
    assert DigitsValue("10") == 10 by { assert "10"[..1] == "1"; }
    PriceExampleThreeDigits();
  }

  /** No size token starts before index 16, where the size mark is. */
  lemma SizeNotBeforeSixteen()
    ensures forall j :: 0 <= j < 16 ==> SizeAt(Line, j).None?
  {
    LineChars();
    forall j | 0 <= j < 16 ensures SizeAt(Line, j).None? {
      SizeAtFirst(Line, j);
    }
  }

  /** The size token `â‚¹9 Cr` at index 16. */
  lemma SizeAtSixteen()
    ensures SizeAt(Line, 16).Some? && SizeAt(Line, 16).value == "9"
  {
    HasAtChars(Line, 16, SizeMark);
    HasAtChars(Line, 21, "Cr");
    SizeAtComplete(Line, 16, 20, 21);
    HasAtChars(Line, 19, "9");
  }

  /** The amount is `9`. */
  lemma LineSizeText()
    ensures FindSize(Line).Some? && FindSize(Line).value == "9"
  {
    SizeNotBeforeSixteen();
    SizeAtSixteen();
    FindSizeFirst(Line);
  }

  /** An amount `9` reads as 9.0. */
  lemma ReadSizeNine(line: string)
    requires FindSize(line).Some? && FindSize(line).value == "9"
    ensures ReadSize(line) == Ok(Some(9.0))
  {
    RemoveCommasConcat([], [], '9');
    ParseDecimalOfDigits("9");
    assert DigitsValue("9") == 9;
  }

  /** The size is 9.0. */
  lemma LineSize()
    ensures ReadSize(Line) == Ok(Some(9.0))
  {
    LineSizeText();
    ReadSizeNine(Line);
  }

  /** The line holds no `d-Mon` date. */
  lemma LineDates()
    ensures FindDates(Line) == []
  {
    LineChars();
    DatesFromEmpty(Line, 0);
  }

  /**
   * The sample line yields the record named `X`, status `Close`, no
   * subscription, price 1, premium 0.1, size 9.0, lot size 15000 and no
   * dates, and passes on the pair (1, 0.1).
   */
  lemma EmittingLineExample(carry: Option<Quote>)
    ensures ProcessLine(Line, carry) ==
      Step(Emitted(Row("X", Close, None, Some(1), Some(0.1), Some(9.0), Some(15000), None, None, None)),
           Some(Quote(1, 0.1)))
  {
    LineName();
    LineNameText();
    LineStatus();
    LineSubscription();
    LineQuoteValue(carry);
    LineSize();
    LineDates();
    RecordLineUnfold(Line, carry);
    RecordLineStages(Line, "X", carry);
  }
}
