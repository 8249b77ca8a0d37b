/**
 * `parse_ipo_data` (backend/formatter.py): the per-line record extractor,
 * the loop that carries `price` and `gmp` from line to line and drops the
 * lines whose processing raises, and the final date conversion.
 */
module Formatter {
  import opened Wrappers
  import opened Text
  import opened Patterns
  import opened Pricing
  import opened Dates

  /** One dict appended to `parsed_data`; the dates are still `d-Mon` text. */
  datatype Row = Row(
    name: string,
    status: Status,
    subscription: Option<real>,
    price: Option<nat>,
    gmp: Option<real>,
    size: Option<real>,
    lotSize: Option<nat>,
    openDate: Option<string>,
    closeDate: Option<string>,
    gmpUpdatedDate: Option<string>)

  /**
   * One row of the returned table. The price is a real because
   * `fill_missing_values` may write a rounded quotient into that column.
   */
  datatype IpoRecord = IpoRecord(
    name: string,
    status: Status,
    subscription: Option<real>,
    price: Option<real>,
    gmp: Option<real>,
    size: Option<real>,
    lotSize: Option<nat>,
    openDate: Option<Date>,
    closeDate: Option<Date>,
    gmpUpdatedDate: Option<Date>)

  /** What one line contributes: nothing (`continue`), a caught exception, or a record. */
  datatype Outcome = Skipped | Dropped(reason: Drop) | Emitted(row: Row)

  /** The outcome of one line and the `(price, gmp)` pair left for the next; `None` is "unbound". */
  datatype Step = Step(outcome: Outcome, carry: Option<Quote>)

  const HeaderMarker: string := "Current Mainboard"

  /** The fixed lot value: `lot_size = floor(15000 / price)`. */
  const LotValue: nat := 15000

  /** `float(subscription_match.group(1))`, or `None` without a match. */
  function ReadSubscription(line: string): (r: Result<Option<real>, Drop>)
    ensures r.Err? ==> r.error == InvalidFloat
    ensures r.Ok? && r.value.Some? ==> r.value.value >= 0.0
    ensures r.Ok? <==> FindSubscription(line).None? || ParseDecimal(FindSubscription(line).value).Some?
  {
    match FindSubscription(line)
    case None => Ok(None)
    case Some(text) =>
      match ParseDecimal(text)
      case None => Err(InvalidFloat)
      case Some(v) => Ok(Some(v))
  }

  /** `float(size_match.group(1).replace(',', ''))`, or `None` without a match. */
  function ReadSize(line: string): (r: Result<Option<real>, Drop>)
    ensures r.Err? ==> r.error == InvalidFloat
    ensures r.Ok? <==> FindSize(line).None? || ParseDecimal(Replace(FindSize(line).value, ",", "")).Some?
  {
    match FindSize(line)
    case None => Ok(None)
    case Some(text) =>
      match ParseDecimal(Replace(text, ",", ""))
      case None => Err(InvalidFloat)
      case Some(v) => Ok(Some(v))
  }

  /** The digit group with `--` replaced by `00` is a digit string. */
  lemma GroupDigits(tok: PriceToken)
    requires WellFormedToken(tok)
    ensures AllDigits(Replace(tok.Group(), "--", "00"))
    ensures |Replace(tok.Group(), "--", "00")| == |tok.Group()|
  {
    match tok.group.tail
    case None =>
      DashesBecomeZeros(tok.group.lead, "");
    case Some(t) =>
      DashesBecomeZeros(tok.group.lead, t);
  }

  /**
   * Lines 46-50: the pair computed from a price/percent token, `--` in the
   * digit group read as `00`.
   */
  function TokenQuote(tok: PriceToken): (r: Result<Quote, Drop>)
    requires WellFormedToken(tok)
    ensures r.Err? ==> r.error == InvalidFloat || r.error == EmptyPriceDigits
    ensures r.Err? && r.error == InvalidFloat <==> ParseDecimal(tok.percent).None?
    ensures r.Ok? ==> r.value.gmp == Premium(r.value.price, ParseDecimal(tok.percent).value)
  {
    var numStr := Replace(tok.Group(), "--", "00");
    match ParseDecimal(tok.percent)
    case None => Err(InvalidFloat)
    case Some(pct) =>
      GroupDigits(tok);
      PriceAndGmp(numStr, pct)
  }

  /**
   * The pair a token yields in closed form: an unreadable percentage or a
   * one-digit run raises; otherwise the price is the value of the first
   * min((len + 1) div 3, 3) digits of the group, at most 999, with its premium.
   */
  lemma TokenQuoteOutcome(tok: PriceToken)
    requires WellFormedToken(tok)
    ensures var numStr := Replace(tok.Group(), "--", "00");
      && AllDigits(numStr)
      && (ParseDecimal(tok.percent).None? ==> TokenQuote(tok) == Err(InvalidFloat))
      && (ParseDecimal(tok.percent).Some? && |numStr| <= 1 ==> TokenQuote(tok) == Err(EmptyPriceDigits))
      && (ParseDecimal(tok.percent).Some? && |numStr| >= 2 ==>
            var p := DigitsValue(numStr[..Min((|numStr| + 1) / 3, 3)]);
            p <= 999 && TokenQuote(tok) == Ok(Quote(p, Premium(p, ParseDecimal(tok.percent).value))))
  {
    GroupDigits(tok);
    if ParseDecimal(tok.percent).Some? {
      PriceAndGmpOutcome(Replace(tok.Group(), "--", "00"), ParseDecimal(tok.percent).value);
    }
  }

  /**
   * Lines 46-51: with a price/percent token the pair is recomputed from it;
   * without one the pair of an earlier line is kept as it is.
   */
  function UpdateQuote(line: string, carry: Option<Quote>): (r: Result<Option<Quote>, Drop>)
    ensures FindPriceToken(line).None? ==> r == Ok(carry)
    ensures FindPriceToken(line).Some? && r.Ok? ==> r.value.Some?
  {
    match FindPriceToken(line)
    case None => Ok(carry)
    case Some(tok) =>
      match TokenQuote(tok)
      case Err(e) => Err(e)
      case Ok(q) => Ok(Some(q))
  }

  /** Lines 53-83, once the pair is known: the record, or the exception that drops it. */
  function BuildRow(line: string, name: string, status: Status, sub: Option<real>, carry: Option<Quote>): (step: Step)
    ensures !step.outcome.Skipped?
    ensures step.carry == carry
    ensures step.outcome.Emitted? ==> carry.Some? && carry.value.price != 0 && step.outcome.row.price == Some(carry.value.price)
    ensures step.outcome.Emitted? ==>
      step.outcome.row.name == name && step.outcome.row.status == status && step.outcome.row.subscription == sub
    ensures carry.None? ==> step.outcome == Dropped(PriceUnbound)
    ensures carry.Some? ==> (step.outcome == Dropped(InvalidFloat) <==> ReadSize(line).Err?)
    ensures carry.Some? && ReadSize(line).Ok? ==> (step.outcome == Dropped(ZeroPrice) <==> carry.value.price == 0)
    ensures step.outcome.Emitted? <==> carry.Some? && carry.value.price != 0 && ReadSize(line).Ok?
  {
    match carry
    case None => Step(Dropped(PriceUnbound), carry)
    case Some(q) =>
      var ipoPrice := if q.price != 0 then Some(q.price) else None;
      var ipoGmp := if q.gmp != 0.0 then Some(q.gmp) else None;
      match ReadSize(line)
      case Err(e) => Step(Dropped(e), carry)
      case Ok(size) =>
        if q.price == 0 then Step(Dropped(ZeroPrice), carry)
        else
          var lot := LotValue / q.price;
          var dates := FindDates(line);
          Step(Emitted(Row(
            name, status, sub, ipoPrice, ipoGmp, size,
            if lot != 0 then Some(lot) else None,
            if |dates| > 0 then Some(dates[0]) else None,
            if |dates| > 1 then Some(dates[1]) else None,
            if |dates| > 2 then Some(dates[|dates| - 1]) else None)), carry)
  }

  /** The body of the `for line in lines` loop, with its `try`/`except`. */
  function ProcessLine(line: string, carry: Option<Quote>): (step: Step)
    ensures step.outcome.Skipped? ==> step.carry == carry
    ensures step.outcome.Emitted? ==> step.carry.Some? && step.outcome.row.price == Some(step.carry.value.price)
  {
    if StartsWith(line, HeaderMarker) || Strip(line) == [] then Step(Skipped, carry)
    else
      match MatchName(line)
      case None => Step(Skipped, carry)
      case Some(k) => RecordLine(line, Strip(line[..k]), carry)
  }

  /** Lines 22-83 for a line whose name has been found. */
  function RecordLine(line: string, name: string, carry: Option<Quote>): (step: Step)
    ensures !step.outcome.Skipped?
    ensures step.outcome.Emitted? ==> step.outcome.row.name == name && step.outcome.row.status == FindStatus(line)
  {
    var status := FindStatus(line);
    match ReadSubscription(line)
    case Err(e) => Step(Dropped(e), carry)
    case Ok(sub) =>
      match UpdateQuote(line, carry)
      case Err(e) => Step(Dropped(e), carry)
      case Ok(q) => BuildRow(line, name, status, sub, q)
  }

  function EmittedRows(o: Outcome): seq<Row> {
    if o.Emitted? then [o.row] else []
  }

  /** The records and the carried pair after a prefix of the lines has been processed. */
  datatype Scan = Scan(rows: seq<Row>, carry: Option<Quote>)

  function ScanLines(lines: seq<string>): (scan: Scan)
    ensures |scan.rows| <= |lines|
    decreases |lines|
  {
    if lines == [] then Scan([], None)
    else
      var before := ScanLines(lines[..|lines| - 1]);
      var step := ProcessLine(lines[|lines| - 1], before.carry);
      Scan(before.rows + EmittedRows(step.outcome), step.carry)
  }

  /** Processing one more line extends the scan by that line's step. */
  lemma ScanNext(lines: seq<string>, i: nat)
    requires i < |lines|
    ensures var before := ScanLines(lines[..i]);
      var step := ProcessLine(lines[i], before.carry);
      ScanLines(lines[..i + 1]) == Scan(before.rows + EmittedRows(step.outcome), step.carry)
  {
    assert lines[..i + 1][..i] == lines[..i];
  }

  /** `raw_text.strip().split('\n')`. */
  function Lines(rawText: string): seq<string> {
    SplitOn(Strip(rawText), '\n')
  }

  /** The date columns of one record converted with the reference year. */
  function AnchorRow(row: Row, currentYear: int): IpoRecord {
    IpoRecord(
      row.name, row.status, row.subscription,
      match row.price case None => None case Some(p) => Some(p as real),
      row.gmp, row.size, row.lotSize,
      AnchorDate(row.openDate, currentYear),
      AnchorDate(row.closeDate, currentYear),
      AnchorDate(row.gmpUpdatedDate, currentYear))
  }

  /** The KeyError raised when the frame built from no records has no date columns. */
  datatype ParseError = NoRecords

  /** The conversion of the three date columns, applied to every record in order. */
  function AnchorRows(rows: seq<Row>, currentYear: int): (table: seq<IpoRecord>)
    ensures |table| == |rows|
    ensures forall k :: 0 <= k < |rows| ==>
      && table[k].name == rows[k].name && table[k].status == rows[k].status
      && table[k].subscription == rows[k].subscription && table[k].gmp == rows[k].gmp
      && table[k].size == rows[k].size && table[k].lotSize == rows[k].lotSize
      && (table[k].price.Some? <==> rows[k].price.Some?)
      && (rows[k].price.Some? ==> table[k].price.value == rows[k].price.value as real)
    ensures forall k :: 0 <= k < |rows| ==>
      && table[k].openDate == AnchorDate(rows[k].openDate, currentYear)
      && table[k].closeDate == AnchorDate(rows[k].closeDate, currentYear)
      && table[k].gmpUpdatedDate == AnchorDate(rows[k].gmpUpdatedDate, currentYear)
  {
    seq(|rows|, k requires 0 <= k < |rows| => AnchorRow(rows[k], currentYear))
  }

  /** What `parse_ipo_data(raw_text)` returns or raises, with `datetime.now().year` given as `currentYear`. */
  function ParseSpec(rawText: string, currentYear: int): (r: Result<seq<IpoRecord>, ParseError>)
    ensures r.Err? <==> ScanLines(Lines(rawText)).rows == []
    ensures r.Ok? ==> |r.value| == |ScanLines(Lines(rawText)).rows|
  {
    var rows := ScanLines(Lines(rawText)).rows;
    if rows == [] then Err(NoRecords)
    else Ok(AnchorRows(rows, currentYear))
  }

  /** The `for line in lines` loop: the records emitted and the pair left at the end. */
  method ScanAll(lines: seq<string>) returns (rows: seq<Row>, carry: Option<Quote>)
    ensures Scan(rows, carry) == ScanLines(lines)
  {
    rows := [];
    carry := None;
    var i := 0;
    while i < |lines|
      invariant 0 <= i <= |lines|
      invariant Scan(rows, carry) == ScanLines(lines[..i])
    {
      var step := ProcessLine(lines[i], carry);
      ScanNext(lines, i);
      if step.outcome.Emitted? {
        rows := rows + [step.outcome.row];
      }
      carry := step.carry;
      i := i + 1;
    }
    assert lines[..i] == lines;
  }

  /** `parse_ipo_data`: the line loop, then the date conversion of every record. */
  method ParseIpoData(rawText: string, currentYear: int) returns (r: Result<seq<IpoRecord>, ParseError>)
    ensures r == ParseSpec(rawText, currentYear)
  {
    var lines := Lines(rawText);
    var rows, _ := ScanAll(lines);
    if rows == [] {
      return Err(NoRecords);
    }
    r := Ok(AnchorRows(rows, currentYear));
  }

  // ---- Properties of one line ----------------------------------------------

  /**
   * A line yields nothing, and leaves the carried pair alone, exactly when it
   * is a section header, blank, or lacks a "<name> IPO" prefix.
   */
  lemma SkippedLines(line: string, carry: Option<Quote>)
    ensures ProcessLine(line, carry).outcome.Skipped? <==>
      StartsWith(line, HeaderMarker) || AllSpace(line) || MatchName(line).None?
    ensures ProcessLine(line, carry).outcome.Skipped? ==> ProcessLine(line, carry).carry == carry
  {
    StripEmptyIffBlank(line);
  }

  /** A line that is processed past its name (not skipped). */
  predicate IsRecordLine(line: string) {
    !StartsWith(line, HeaderMarker) && !AllSpace(line) && MatchName(line).Some?
  }

  /** A record line is handed to `RecordLine` with its stripped name. */
  lemma RecordLineUnfold(line: string, carry: Option<Quote>)
    requires IsRecordLine(line)
    ensures ProcessLine(line, carry) == RecordLine(line, Strip(line[..MatchName(line).value]), carry)
  {
    StripEmptyIffBlank(line);
  }

  /** The three ways out of `RecordLine`. */
  lemma RecordLineStages(line: string, name: string, carry: Option<Quote>)
    ensures ReadSubscription(line).Err? ==> RecordLine(line, name, carry) == Step(Dropped(InvalidFloat), carry)
    ensures ReadSubscription(line).Ok? && UpdateQuote(line, carry).Err? ==>
      RecordLine(line, name, carry) == Step(Dropped(UpdateQuote(line, carry).error), carry)
    ensures ReadSubscription(line).Ok? && UpdateQuote(line, carry).Ok? ==>
      RecordLine(line, name, carry) ==
        BuildRow(line, name, FindStatus(line), ReadSubscription(line).value, UpdateQuote(line, carry).value)
  {
  }

  /** What `BuildRow` keeps, drops and fills in. */
  lemma BuildRowFacts(line: string, name: string, status: Status, sub: Option<real>, carry: Option<Quote>)
    ensures var step := BuildRow(line, name, status, sub, carry);
      && step.carry == carry
      && (carry.None? ==> step.outcome == Dropped(PriceUnbound))
      && (step.outcome.Emitted? ==>
            var row := step.outcome.row;
            var q := carry.value;
            var dates := FindDates(line);
            && carry.Some? && q.price != 0 && ReadSize(line) == Ok(row.size)
            && row.name == name && row.status == status && row.subscription == sub
            && row.price == Some(q.price)
            && row.gmp == (if q.gmp != 0.0 then Some(q.gmp) else None)
            && row.lotSize == (if LotValue / q.price != 0 then Some(LotValue / q.price) else None)
            && row.openDate == (if |dates| >= 1 then Some(dates[0]) else None)
            && row.closeDate == (if |dates| >= 2 then Some(dates[1]) else None)
            && row.gmpUpdatedDate == (if |dates| >= 3 then Some(dates[|dates| - 1]) else None))
  {
  }

  /**
   * Where a record line ends: a subscription that does not read raises; then
   * a token that raises; then a missing pair, a size that does not read, or a
   * zero price drops the record; otherwise it is emitted.
   */
  lemma RecordLineOutcome(line: string, carry: Option<Quote>)
    requires IsRecordLine(line)
    ensures var o := ProcessLine(line, carry).outcome;
      ReadSubscription(line).Err? ==> o == Dropped(InvalidFloat)
    ensures var o := ProcessLine(line, carry).outcome;
      ReadSubscription(line).Ok? && UpdateQuote(line, carry).Err? ==> o == Dropped(UpdateQuote(line, carry).error)
    ensures var o := ProcessLine(line, carry).outcome;
      ReadSubscription(line).Ok? && UpdateQuote(line, carry) == Ok(None) ==> o == Dropped(PriceUnbound)
    ensures var o := ProcessLine(line, carry).outcome; var u := UpdateQuote(line, carry);
      ReadSubscription(line).Ok? && u.Ok? && u.value.Some? ==>
        && (o == Dropped(InvalidFloat) <==> ReadSize(line).Err?)
        && (o == Dropped(ZeroPrice) <==> ReadSize(line).Ok? && u.value.value.price == 0)
        && (o.Emitted? <==> ReadSize(line).Ok? && u.value.value.price != 0)
  {
    var name := Strip(line[..MatchName(line).value]);
    RecordLineUnfold(line, carry);
    RecordLineStages(line, name, carry);
  }

  /**
   * A line yields a record exactly when it is a record line whose
   * subscription reads, whose pair is known without raising, whose price is
   * not zero and whose size reads; the record is the one `BuildRow` makes.
   */
  lemma EmittedPath(line: string, carry: Option<Quote>)
    ensures var u := UpdateQuote(line, carry);
      ProcessLine(line, carry).outcome.Emitted? <==>
        && IsRecordLine(line) && ReadSubscription(line).Ok?
        && u.Ok? && u.value.Some? && u.value.value.price != 0 && ReadSize(line).Ok?
    ensures ProcessLine(line, carry).outcome.Emitted? ==>
      && IsRecordLine(line) && ReadSubscription(line).Ok? && UpdateQuote(line, carry).Ok?
      && ProcessLine(line, carry) ==
           BuildRow(line, Strip(line[..MatchName(line).value]), FindStatus(line),
                    ReadSubscription(line).value, UpdateQuote(line, carry).value)
  {
    StripEmptyIffBlank(line);
    if IsRecordLine(line) {
      RecordLineUnfold(line, carry);
      RecordLineStages(line, Strip(line[..MatchName(line).value]), carry);
    }
  }

  /**
   * The text fields of an emitted record: the stripped name group, the first
   * status keyword, the first subscription number, the first size amount
   * without commas, the first and second dates, and the last date only when
   * the line has at least three.
   */
  lemma EmittedFields(line: string, carry: Option<Quote>)
    requires ProcessLine(line, carry).outcome.Emitted?
    ensures IsRecordLine(line)
    ensures var row := ProcessLine(line, carry).outcome.row;
      var dates := FindDates(line);
      && row.name == Strip(line[..MatchName(line).value])
      && row.status == FindStatus(line)
      && row.subscription == (if FindSubscription(line).Some? then ParseDecimal(FindSubscription(line).value) else None)
      && row.size == (if FindSize(line).Some? then ParseDecimal(Replace(FindSize(line).value, ",", "")) else None)
      && row.openDate == (if |dates| >= 1 then Some(dates[0]) else None)
      && row.closeDate == (if |dates| >= 2 then Some(dates[1]) else None)
      && row.gmpUpdatedDate == (if |dates| >= 3 then Some(dates[|dates| - 1]) else None)
  {
    EmittedPath(line, carry);
    BuildRowFacts(line, Strip(line[..MatchName(line).value]), FindStatus(line),
                  ReadSubscription(line).value, UpdateQuote(line, carry).value);
  }

  /**
   * Carry-over: a record line whose subscription reads and that has no
   * price/percent token keeps the pair of the latest line that computed
   * one, and is dropped when there is none.
   */
  lemma StaleQuoteReused(line: string, carry: Option<Quote>)
    requires IsRecordLine(line) && ReadSubscription(line).Ok?
    requires FindPriceToken(line).None?
    ensures ProcessLine(line, carry).carry == carry
    ensures carry.None? ==> ProcessLine(line, carry).outcome == Dropped(PriceUnbound)
    ensures ProcessLine(line, carry).outcome.Emitted? ==>
      carry.Some? && ProcessLine(line, carry).outcome.row.price == Some(carry.value.price)
  {
    var name := Strip(line[..MatchName(line).value]);
    RecordLineUnfold(line, carry);
    RecordLineStages(line, name, carry);
    BuildRowFacts(line, name, FindStatus(line), ReadSubscription(line).value, carry);
  }

  /**
   * A record line with a price/percent token: when the token yields no pair
   * the line is dropped with that exception and the old pair is kept;
   * otherwise the token's pair replaces the carried one.
   */
  lemma TokenLineQuote(line: string, carry: Option<Quote>)
    requires IsRecordLine(line) && ReadSubscription(line).Ok?
    requires FindPriceToken(line).Some?
    ensures var tok := FindPriceToken(line).value;
      var step := ProcessLine(line, carry);
      && (TokenQuote(tok).Err? ==> step == Step(Dropped(TokenQuote(tok).error), carry))
      && (TokenQuote(tok).Ok? ==> step.carry == Some(TokenQuote(tok).value))
  {
    var tok := FindPriceToken(line).value;
    var name := Strip(line[..MatchName(line).value]);
    RecordLineUnfold(line, carry);
    RecordLineStages(line, name, carry);
    if TokenQuote(tok).Ok? {
      BuildRowFacts(line, name, FindStatus(line), ReadSubscription(line).value, UpdateQuote(line, carry).value);
    }
  }

  /**
   * The `(price, gmp)` pair a line binds at line 51, if it gets there: it is
   * not skipped, its subscription is readable, it has a token, and the
   * token's computation does not raise.
   */
  function LineQuote(line: string): Option<Quote> {
    if IsRecordLine(line) && ReadSubscription(line).Ok? then
      match FindPriceToken(line)
      case None => None
      case Some(tok) =>
        match TokenQuote(tok)
        case Ok(q) => Some(q)
        case Err(_) => None
    else None
  }

  /** The value `f` gives for the last element that has one. */
  function Latest<S, T>(xs: seq<S>, f: S -> Option<T>): Option<T>
    decreases |xs|
  {
    if xs == [] then None
    else if f(xs[|xs| - 1]).Some? then f(xs[|xs| - 1])
    else Latest(xs[..|xs| - 1], f)
  }

  /** `Latest` is absent exactly when no element has a value, and otherwise is the value of the last one that has. */
  lemma {:induction false} LatestIsLast<S, T>(xs: seq<S>, f: S -> Option<T>)
    ensures Latest(xs, f).None? <==> forall k :: 0 <= k < |xs| ==> f(xs[k]).None?
    ensures Latest(xs, f).Some? ==>
      (exists k :: 0 <= k < |xs| && f(xs[k]) == Latest(xs, f) && forall j :: k < j < |xs| ==> f(xs[j]).None?)
    decreases |xs|
  {
    if xs != [] {
      var n := |xs| - 1;
      LatestIsLast(xs[..n], f);
      assert forall k :: 0 <= k < n ==> xs[..n][k] == xs[k];
      if f(xs[n]).Some? {
        assert f(xs[n]) == Latest(xs, f);
      } else if Latest(xs[..n], f).Some? {
        var k :| 0 <= k < n && f(xs[..n][k]) == Latest(xs[..n], f) && forall j :: k < j < n ==> f(xs[..n][j]).None?;
        assert f(xs[k]) == Latest(xs, f) && forall j :: k < j < |xs| ==> f(xs[j]).None?;
      }
    }
  }

  /** The pair bound by the latest line that bound one, `None` when no line did. */
  function LastQuote(lines: seq<string>): (q: Option<Quote>)
    ensures q.None? <==> forall k :: 0 <= k < |lines| ==> LineQuote(lines[k]).None?
    ensures q.Some? ==>
      (exists k :: 0 <= k < |lines| && LineQuote(lines[k]) == q && forall j :: k < j < |lines| ==> LineQuote(lines[j]).None?)
  {
    LatestIsLast(lines, LineQuote);
    Latest(lines, LineQuote)
  }

  /** One line replaces the carried pair exactly when it computes a new one. */
  lemma ProcessLineCarry(line: string, carry: Option<Quote>)
    ensures ProcessLine(line, carry).carry == if LineQuote(line).Some? then LineQuote(line) else carry
  {
    if !IsRecordLine(line) {
      SkippedLines(line, carry);
    } else if ReadSubscription(line).Err? {
      RecordLineUnfold(line, carry);
      RecordLineStages(line, Strip(line[..MatchName(line).value]), carry);
    } else if FindPriceToken(line).None? {
      StaleQuoteReused(line, carry);
    } else {
      TokenLineQuote(line, carry);
    }
  }

  /**
   * The carry-over across the loop: after any prefix of the lines, the
   * carried pair is the one computed by the latest line that computed one,
   * and `price` is unbound exactly when no line has.
   */
  lemma {:induction false} CarryIsLastQuote(lines: seq<string>)
    ensures ScanLines(lines).carry == LastQuote(lines)
    decreases |lines|
  {
    if lines != [] {
      var n := |lines| - 1;
      CarryIsLastQuote(lines[..n]);
      ProcessLineCarry(lines[n], ScanLines(lines[..n]).carry);
    }
  }

  /** What the carried pair always satisfies: a price of at most three digits, a non-negative premium. */
  predicate CarryOk(carry: Option<Quote>) {
    carry.Some? ==> carry.value.price <= 999 && carry.value.gmp >= 0.0
  }

  /** Every line leaves a carried pair that satisfies `CarryOk` if it found one. */
  lemma ProcessLineKeepsCarryOk(line: string, carry: Option<Quote>)
    requires CarryOk(carry)
    ensures CarryOk(ProcessLine(line, carry).carry)
  {
    if !IsRecordLine(line) {
      SkippedLines(line, carry);
    } else if ReadSubscription(line).Err? {
      RecordLineUnfold(line, carry);
      RecordLineStages(line, Strip(line[..MatchName(line).value]), carry);
    } else if FindPriceToken(line).None? {
      StaleQuoteReused(line, carry);
    } else {
      var tok := FindPriceToken(line).value;
      TokenLineQuote(line, carry);
      TokenQuoteOutcome(tok);
      if TokenQuote(tok).Ok? {
        PremiumNonNegative(TokenQuote(tok).value.price, ParseDecimal(tok.percent).value);
      }
    }
  }

  /** `floor(15000 / price)` for a price of one to three digits. */
  lemma LotBounds(price: nat)
    requires 1 <= price <= 999
    ensures 15 <= LotValue / price <= 15000
  {
    var q := LotValue / price;
    assert q * price + LotValue % price == LotValue;
    assert LotValue % price < price;
    assert 15 * price < 16 * price <= LotValue + price;
    assert q * price > LotValue - price >= 14 * price;
    assert q > 14 by {
      assert (q - 14) * price > 0;
    }
  }

  /** The invariant every emitted record satisfies. */
  predicate ValidRow(row: Row) {
    && row.price.Some? && 1 <= row.price.value <= 999
    && row.lotSize == Some(LotValue / row.price.value)
    && 15 <= LotValue / row.price.value <= 15000
    && (row.gmp.Some? ==> row.gmp.value > 0.0)
  }

  /**
   * An emitted record carries the pair left by its line: a price from 1 to
   * 999 (a zero price raises ZeroDivisionError instead), the lot size
   * 15000 div price, and a premium that is absent exactly when it is zero.
   */
  lemma EmittedQuote(line: string, carry: Option<Quote>)
    requires CarryOk(carry)
    requires ProcessLine(line, carry).outcome.Emitted?
    ensures var step := ProcessLine(line, carry);
      var row := step.outcome.row;
      && step.carry.Some? && 1 <= step.carry.value.price <= 999
      && row.price == Some(step.carry.value.price)
      && row.lotSize == Some(LotValue / step.carry.value.price)
      && (row.gmp.None? <==> step.carry.value.gmp == 0.0)
      && (row.gmp.Some? ==> row.gmp.value == step.carry.value.gmp)
      && ValidRow(row)
  {
    EmittedPath(line, carry);
    var next := UpdateQuote(line, carry).value;
    BuildRowFacts(line, Strip(line[..MatchName(line).value]), FindStatus(line),
                  ReadSubscription(line).value, next);
    ProcessLineKeepsCarryOk(line, carry);
    LotBounds(next.value.price);
  }

  // ---- Properties of the whole scan -----------------------------------------

  /** Every record of a scan satisfies `ValidRow`, and the carried pair stays `CarryOk`. */
  lemma {:induction false} ScanInvariant(lines: seq<string>)
    ensures CarryOk(ScanLines(lines).carry)
    ensures forall k :: 0 <= k < |ScanLines(lines).rows| ==> ValidRow(ScanLines(lines).rows[k])
    decreases |lines|
  {
    if lines != [] {
      var n := |lines| - 1;
      ScanInvariant(lines[..n]);
      var before := ScanLines(lines[..n]);
      ProcessLineKeepsCarryOk(lines[n], before.carry);
      if ProcessLine(lines[n], before.carry).outcome.Emitted? {
        EmittedQuote(lines[n], before.carry);
      }
    }
  }

  /** Indices of the lines that produced a record, in input order. */
  function Origins(lines: seq<string>): seq<nat>
    decreases |lines|
  {
    if lines == [] then []
    else
      var n := |lines| - 1;
      Origins(lines[..n]) + (if ProcessLine(lines[n], ScanLines(lines[..n]).carry).outcome.Emitted? then [n] else [])
  }

  /** One record per line listed in `Origins`. */
  lemma {:induction false} OriginsCount(lines: seq<string>)
    ensures |Origins(lines)| == |ScanLines(lines).rows|
    decreases |lines|
  {
    if lines != [] {
      var n := |lines| - 1;
      OriginsCount(lines[..n]);
      ScanNext(lines, n);
      assert lines[..n + 1] == lines;
    }
  }

  /** A line adds its own index to `Origins` or adds nothing. */
  lemma OriginsNext(lines: seq<string>)
    requires lines != []
    ensures var n := |lines| - 1;
      Origins(lines) == Origins(lines[..n]) || Origins(lines) == Origins(lines[..n]) + [n]
  {
  }

  /** `Origins` lists distinct line indices in increasing order. */
  lemma {:induction false} OriginsIncrease(lines: seq<string>)
    ensures var o := Origins(lines);
      && |o| <= |lines|
      && (forall a, b :: 0 <= a < b < |o| ==> o[a] < o[b])
      && (forall k :: 0 <= k < |o| ==> o[k] < |lines|)
    decreases |lines|
  {
    if lines != [] {
      var n := |lines| - 1;
      OriginsIncrease(lines[..n]);
      OriginsNext(lines);
    }
  }

  /** Line `i` emits `row`, given the pair carried into it by the lines before. */
  predicate EmitsAt(lines: seq<string>, i: nat, row: Row) {
    i < |lines| && ProcessLine(lines[i], ScanLines(lines[..i]).carry).outcome == Emitted(row)
  }

  /** Whether a line emits depends only on the lines up to it. */
  lemma EmitsInPrefix(lines: seq<string>, m: nat, i: nat, row: Row)
    requires i < m <= |lines|
    ensures EmitsAt(lines[..m], i, row) <==> EmitsAt(lines, i, row)
  {
    assert lines[..m][..i] == lines[..i];
  }

  /** The last line extends the records and `Origins` by what it emits. */
  lemma ScanLast(lines: seq<string>)
    requires lines != []
    ensures var n := |lines| - 1;
      var step := ProcessLine(lines[n], ScanLines(lines[..n]).carry);
      && ScanLines(lines).rows == ScanLines(lines[..n]).rows + EmittedRows(step.outcome)
      && Origins(lines) == Origins(lines[..n]) + (if step.outcome.Emitted? then [n] else [])
      && (step.outcome.Emitted? ==> EmitsAt(lines, n, step.outcome.row))
  {
    var n := |lines| - 1;
    ScanNext(lines, n);
    assert lines[..n + 1] == lines;
  }

  /**
   * Records keep input order and no line yields more than one: the k-th
   * record is the one emitted by line `Origins(lines)[k]`, given the pair
   * carried into that line, and these indices strictly increase.
   */
  lemma {:induction false} RecordsInLineOrder(lines: seq<string>)
    ensures var rows := ScanLines(lines).rows;
      var o := Origins(lines);
      && |o| == |rows| <= |lines|
      && (forall a, b :: 0 <= a < b < |o| ==> o[a] < o[b])
      && (forall k :: 0 <= k < |o| ==> o[k] < |lines|)
      && (forall k :: 0 <= k < |o| ==> EmitsAt(lines, o[k], rows[k]))
    decreases |lines|
  {
    OriginsCount(lines);
    OriginsIncrease(lines);
    if lines != [] {
      var n := |lines| - 1;
      var prefix := lines[..n];
      RecordsInLineOrder(prefix);
      ScanLast(lines);
      var o, o' := Origins(lines), Origins(prefix);
      var rows := ScanLines(lines).rows;
      forall k | 0 <= k < |o|
        ensures EmitsAt(lines, o[k], rows[k])
      {
        if k < |o'| {
          EmitsKeptByLastLine(lines, k);
        }
      }
    }
  }

  /** A record the lines before the last one emitted keeps its place and its origin once the last line is read. */
  lemma EmitsKeptByLastLine(lines: seq<string>, k: nat)
    requires lines != []
    requires var prefix := lines[..|lines| - 1];
      && k < |Origins(prefix)| == |ScanLines(prefix).rows|
      && Origins(prefix)[k] < |prefix|
      && EmitsAt(prefix, Origins(prefix)[k], ScanLines(prefix).rows[k])
    ensures k < |Origins(lines)| && k < |ScanLines(lines).rows|
    ensures EmitsAt(lines, Origins(lines)[k], ScanLines(lines).rows[k])
  {
    var n := |lines| - 1;
    ScanLast(lines);
    var i, row := Origins(lines[..n])[k], ScanLines(lines[..n]).rows[k];
    assert Origins(lines)[k] == i && ScanLines(lines).rows[k] == row;
    EmitsInPrefix(lines, n, i, row);
  }

  /** Lines none of which has a "<name> IPO" prefix produce no record. */
  lemma {:induction false} NamelessLinesEmitNothing(lines: seq<string>)
    requires forall k :: 0 <= k < |lines| ==> MatchName(lines[k]).None?
    ensures ScanLines(lines).rows == []
    decreases |lines|
  {
    if lines != [] {
      var n := |lines| - 1;
      NamelessLinesEmitNothing(lines[..n]);
      SkippedLines(lines[n], ScanLines(lines[..n]).carry);
    }
  }

  /** Text in which no line has a "<name> IPO" prefix makes the date conversion raise. */
  lemma NoNamesRaises(rawText: string, currentYear: int)
    requires forall k :: 0 <= k < |Lines(rawText)| ==> MatchName(Lines(rawText)[k]).None?
    ensures ParseSpec(rawText, currentYear) == Err(NoRecords)
  {
    NamelessLinesEmitNothing(Lines(rawText));
  }

  /** Empty input: one blank line, no record, and the conversion raises. */
  lemma EmptyTextRaises(currentYear: int)
    ensures ParseSpec("", currentYear) == Err(NoRecords)
  {
    assert Lines("") == [""];
    assert [""][..0] == [];
  }

  /** A date that is missing or anchored around the reference year. */
  predicate Anchored(d: Option<Date>, currentYear: int) {
    d.Some? ==>
      && 1 <= d.value.month <= 12
      && (d.value.month < 6 ==> d.value.year == currentYear + 1)
      && (d.value.month >= 6 ==> d.value.year == currentYear)
  }

  /** The invariant of every record in the returned table. */
  predicate ValidRecord(rec: IpoRecord, currentYear: int) {
    && rec.price.Some? && rec.price.value == rec.price.value.Floor as real
    && 1 <= rec.price.value.Floor <= 999
    && rec.lotSize == Some(LotValue / rec.price.value.Floor)
    && (rec.gmp.Some? ==> rec.gmp.value > 0.0)
    && Anchored(rec.openDate, currentYear)
    && Anchored(rec.closeDate, currentYear)
    && Anchored(rec.gmpUpdatedDate, currentYear)
  }

  /**
   * A returned table is non-empty, has one record per emitted row in order,
   * and every record has an integral price from 1 to 999, the matching lot
   * size, a positive premium when present, and year-anchored dates.
   */
  lemma ParsedTableValid(rawText: string, currentYear: int)
    ensures var r := ParseSpec(rawText, currentYear);
      r.Ok? ==>
        && |r.value| == |ScanLines(Lines(rawText)).rows| >= 1
        && forall k :: 0 <= k < |r.value| ==> ValidRecord(r.value[k], currentYear)
  {
    var rows := ScanLines(Lines(rawText)).rows;
    ScanInvariant(Lines(rawText));
    var r := ParseSpec(rawText, currentYear);
    if r.Ok? {
      forall k | 0 <= k < |r.value| ensures ValidRecord(r.value[k], currentYear) {
        var row := rows[k];
        assert ValidRow(row);
        assert r.value[k] == AnchorRow(row, currentYear);
        assert (row.price.value as real).Floor == row.price.value;
      }
    }
  }
}
