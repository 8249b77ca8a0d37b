# IPO dashboard formatter, modelled in Dafny

The dashboard scrapes a text listing of Indian mainboard IPOs and turns it
into a table in `backend/formatter.py`. This project models that file's two
operations and proves properties of them:

- `parse_ipo_data(raw_text)` strips the text and splits it into lines. It
  skips the section header, blank lines and lines without a
  `"<company name> IPO"` prefix. For every other line it extracts the
  status keyword, the `Sub:<n>x` subscription, the `<digits>[--<digits>]
  (<pct>%)` price/percent token, the `â‚¹<amount> Cr` issue size and the
  `d-Mon` dates. It derives the issue price from the digit run by a
  digit-splitting heuristic, the grey-market premium (GMP) from the
  percentage, and the lot size as `floor(15000 / price)`. A line whose
  processing raises is dropped. The price and GMP of the last line whose
  token computed a pair carry over to later lines that have no token. A
  token that raises leaves the earlier pair in place. At the end the dates
  are parsed as day-month and given a year around the current one.
- `fill_missing_values(df)` walks the table once. It fills a missing GMP
  from the price and the subscription, or a missing price from the GMP and
  the subscription.

Modules, one file each:

- `Wrappers` (`wrappers.dfy`): `Option` and `Result`.
- `Text` (`text.dfy`): `str.strip`, `split('\n')`, `replace`, `int()` on
  digit strings and `float()` on digit-and-dot strings.
- `Patterns` (`patterns.dfy`): hand-written matchers for the six regular
  expressions, the leftmost scan of `re.search` and the scan of `re.findall`.
- `Pricing` (`pricing.dfy`): `calculate_price_gmp_listing`, Python's
  `round` with ties to even, and the premium.
- `Dates` (`dates.dfy`): `to_datetime(format='%d-%b', errors='coerce')` and
  the year anchoring.
- `Formatter` (`formatter.dfy`): the per-line body with its `try`/`except`,
  the line loop that carries `(price, gmp)`, and `parse_ipo_data`.
- `Filler` (`filler.dfy`): `fill_missing_values` as an in-place pass over an
  `array` of records.
- `SampleLine` (`sample.dfy`): one record line, `X IPO 120 (10%) â‚¹9 Cr`,
  followed from its text to the record it yields.

A dropped line is `Dropped(reason)`, where the reason names the exception:
`InvalidFloat` for a `float()` ValueError, `EmptyPriceDigits` for `int('')`,
`PriceUnbound` for the UnboundLocalError on `price`, and `ZeroPrice` for the
ZeroDivisionError. A carried pair of `None` means `price` has not been bound
yet. The current year is a parameter. A missing cell is pandas NaN, which is
true in Python, or Python `None` in a column that holds no value at all, which
is false. The model takes every missing cell as true. Arithmetic on a missing
operand gives a missing result, so a fill that a missing cell lets through
leaves the cell missing. The table is the same as when the guard stops it,
and `Filler.FalsyMissingSameRow` proves that.

Where the code does not do what its intent suggests, the model follows the
code:

- If no line yields a record, `parse_ipo_data` raises. It does not return an
  empty table, because the frame has no date columns (`ParseError.NoRecords`).
- A digit run of three digits or fewer is not read whole. The split point is
  `min(round(L/3), 3)`, so `120 (10%)` gives price 1 and a one-digit run
  raises on `int('')`.
- The size pattern starts with the three characters `â‚¹`, the mis-decoded
  rupee sign. A line with a real `₹` therefore has no size.
- The `> 4000` price correction can never apply, since at most three digits
  are read. It is kept in `PriceAndGmp` and shown to be dead.

## Model

| member | source | states |
|---|---|---|
| Text.Strip | backend/formatter.py:8 | `strip()` returns the text that starts where the leading whitespace ends, with only whitespace after it, and with non-space characters at both ends |
| Text.StripEmptyIffBlank | backend/formatter.py:13 | `not line.strip()` holds exactly when the line is all whitespace |
| Text.SplitOn | backend/formatter.py:8 | `split('\n')` gives at least one piece, and no piece contains a newline |
| Text.JoinSplit | backend/formatter.py:8 | joining the pieces of the line split with `\n` gives back the stripped text |
| Text.SplitJoin | backend/formatter.py:8 | splitting a join of newline-free pieces gives back the pieces |
| Text.Replace | backend/formatter.py:49 | a replacement by a text of the same length keeps the length, and one by a shorter text never lengthens |
| Text.RemoveCommas | backend/formatter.py:59 | `replace(',', '')` keeps exactly the characters other than commas |
| Text.RemoveCommasConcat | backend/formatter.py:59 | removing commas works character by character: it distributes over concatenation, drops a comma and keeps any other character, so the other characters keep their order and number |
| Text.DashesBecomeZeros | backend/formatter.py:49 | in a digit group `a--b`, `replace("--", "00")` gives `a00b`, and a plain digit run is unchanged |
| Text.DigitsValueBound | backend/formatter.py:35 | `int()` of n digits is below 10^n |
| Text.DigitsValueFromLeft | backend/formatter.py:35 | `int()` reads the digits from the left: the first digit counts at its place value 10^(n-1), plus the value of the rest |
| Text.ParseDecimal | backend/formatter.py:28 | `float()` of a digit-and-dot string is non-negative when it succeeds |
| Text.ParseDecimalOfDigits | backend/formatter.py:50 | a non-empty digit string parses to its integer value |
| Text.DecimalValue | backend/formatter.py:28 | the value of a whole part and a fraction part is non-negative |
| Text.ParseDecimalOneDot | backend/formatter.py:28 | a text of digits, one dot and digits, with at least one digit, parses to the whole part plus the fraction part over 10^(its length) |
| Text.ParseDecimalNoDigits | backend/formatter.py:28 | a text of dots only makes `float()` raise |
| Text.ParseDecimalTwoDots | backend/formatter.py:28 | a number text with two dots makes `float()` raise |
| Text.ParseDecimalExamples | backend/formatter.py:28 | `2.5`, `10.5`, `.5` and `7.` parse, and `.` raises |
| Patterns.FirstMatchLeftmost | backend/formatter.py:23 | the `re.search` scan finds nothing exactly when no index matches, and otherwise the match at the leftmost index |
| Patterns.NameSearchLargest | backend/formatter.py:17 | the greedy name group backs off to the largest end followed by " IPO" |
| Patterns.MatchName | backend/formatter.py:17-20 | a found name group is a non-empty run of letters, whitespace, `&` and `-` directly followed by " IPO" |
| Patterns.MatchNameLongest | backend/formatter.py:17-20 | the group is the longest such prefix, and there is no match exactly when no prefix qualifies |
| Patterns.FindStatus | backend/formatter.py:23-24 | the status is `Close` or a keyword that occurs at some index of the line |
| Patterns.FindStatusFirst | backend/formatter.py:23-24 | the status is the keyword occurring first in the line, and `Close` when none occurs |
| Patterns.SubscriptionAt | backend/formatter.py:27 | `Sub:<n>x` at an index: the number is a non-empty run of digits and dots, and `Sub:`, the number and `x` are the line's text there |
| Patterns.SubscriptionAtComplete | backend/formatter.py:27 | conversely, `Sub:`, a run of digits and dots and `x` at an index are matched there, with that run as the number |
| Patterns.FindSubscription | backend/formatter.py:27 | a found subscription text is the `Sub:<n>x` match at some index of the line |
| Patterns.FindSubscriptionFirst | backend/formatter.py:27-28 | the subscription text is the non-empty digits and dots of the leftmost `Sub:<n>x`, and absent when there is none |
| Patterns.DashTailAt | backend/formatter.py:46 | `--\d+` at an index: a non-empty digit run, and `--` followed by it is the line's text there |
| Patterns.DashTailAtComplete | backend/formatter.py:46 | conversely, `--` followed by a digit run that ends at a non-digit or at the end of the line is matched with that run |
| Patterns.DigitGroupAt | backend/formatter.py:46 | `\d+(?:--\d+)?` at an index: non-empty digit runs, and the group is the line's text at that index |
| Patterns.DigitGroupAtLead | backend/formatter.py:46 | a digit run that ends at a non-digit or at the end of the line, and is not followed by `--` and a digit, is matched as a group without a `--` part |
| Patterns.DigitGroupAtTail | backend/formatter.py:46 | a digit run, `--` and a second digit run that ends at a non-digit or at the end of the line are matched as one group with that second run |
| Patterns.PercentAt | backend/formatter.py:46 | `\(([\d.]+)%\)` at an index: a non-empty run of digits and dots, and `(`, that text and `%)` are the line's text there |
| Patterns.PercentAtComplete | backend/formatter.py:46 | conversely, `(`, a run of digits and dots and `%)` at an index are matched there, with that run as the percent text |
| Patterns.SpacedPercentAt | backend/formatter.py:46 | `\s+\(([\d.]+)%\)` at an index: at least one whitespace character, then `(`, a non-empty run of digits and dots and `%)` |
| Patterns.SpacedPercentAtComplete | backend/formatter.py:46 | whitespace that runs from an index up to a percent match is matched with that percent text |
| Patterns.PriceTokenAt | backend/formatter.py:46 | a token found at an index is well formed, its digit group is the line's text at that index, and it is followed by at least one whitespace character and then `(`, the percent text and `%)` |
| Patterns.SpacedPercentChars | backend/formatter.py:46 | whitespace, then `(`, a run of digits and dots and `%)`, is matched as a spaced percentage whose text is that run |
| Patterns.PriceTokenAtChars | backend/formatter.py:46 | a digit run followed by whitespace and `(<digits and dots>%)` is matched as the token whose group is that run, with no `--` tail, and whose percent text is the run between the parentheses |
| Patterns.PriceTokenAtDashChars | backend/formatter.py:46 | a digit run, `--`, a second digit run, whitespace and `(<digits and dots>%)` is matched as the token whose group is the first run with the second as its tail, and whose percent text is the run between the parentheses |
| Patterns.FindPriceToken | backend/formatter.py:46 | the token of a line is well formed |
| Patterns.FindPriceTokenFirst | backend/formatter.py:46 | the token is the one at the leftmost matching index, and absent when there is none |
| Patterns.SizeAt | backend/formatter.py:58 | a size amount found at an index is a non-empty run of digits, commas and dots; the mark `â‚¹` and the amount are the line's text there, followed by optional whitespace and `Cr` |
| Patterns.SizeAtComplete | backend/formatter.py:58 | conversely, `â‚¹`, a run of digits, commas and dots, optional whitespace and `Cr` at an index are matched there, with that run as the amount |
| Patterns.FindSize | backend/formatter.py:58 | a found size amount is the match at some index of the line |
| Patterns.FindSizeFirst | backend/formatter.py:58-59 | the size text is the non-empty digits, commas and dots of the leftmost size token, and absent when there is none |
| Patterns.DateAt | backend/formatter.py:66 | a date match at an index is one or two digits, a hyphen and three letters, and there is no match only when neither a five- nor a six-character date text starts there |
| Patterns.DateTextAt | backend/formatter.py:66 | a five- or six-character text at an index is date-shaped exactly when its characters are the digits, the hyphen and the three letters |
| Patterns.DatesFrom | backend/formatter.py:66 | every `findall` match is date-shaped, and there are no more matches than characters; which matches, and in what order, is fixed by `Patterns.DatesFromFirst` and `Patterns.DatesFromEmpty` |
| Patterns.FindDates | backend/formatter.py:66 | every `findall` match of the line is date-shaped; with `Patterns.DatesFromFirst` and `Patterns.DatesFromEmpty` from index 0, the matches are the leftmost non-overlapping date texts, in order |
| Patterns.DatesFromEmpty | backend/formatter.py:66 | `findall` finds no date exactly when no date text starts at any index |
| Patterns.DatesFromFirst | backend/formatter.py:66 | the scan takes the leftmost date text at or after its start, whole, as the next match and resumes right after its end |
| Pricing.RoundHalfEven | backend/formatter.py:32 | `round(x)` is within one half of x, and an exact tie goes to the even neighbour |
| Pricing.Round2 | backend/formatter.py:41 | `round(x, 2)` is a whole number of hundredths within 0.005 of x, keeps the sign of a non-negative x, and is zero exactly for `\|x\| <= 0.005` |
| Pricing.Premium | backend/formatter.py:41 | the GMP is a whole number of hundredths within 0.005 of price times percentage over 100 |
| Pricing.PremiumNonNegative | backend/formatter.py:41 | a non-negative percentage gives a non-negative GMP |
| Pricing.SplitPoint | backend/formatter.py:31-33 | the split point is at most the run length and at most 3 |
| Pricing.SplitPointFormula | backend/formatter.py:31-33 | `min(round(L/3), 3)` equals `min((L+1) div 3, 3)`, because L/3 is never a tie; it is at least 1 for L >= 2 |
| Pricing.PriceAndGmp | backend/formatter.py:30-44 | the GMP is the rounded premium of the price, and the only exception is `int('')` |
| Pricing.PriceAtMost999 | backend/formatter.py:35-39 | the price read from the first split digits is at most 999, so the `> 4000` branch is dead |
| Pricing.PriceAndGmpOutcome | backend/formatter.py:30-44 | a one-digit run raises; otherwise the price is the value of the first `min((L+1) div 3, 3)` digits, at most 999, with its premium |
| Pricing.ShortRunFirstDigit | backend/formatter.py:31-35 | a run of two or three digits gives the first digit as the price, not the whole number |
| Pricing.GmpZeroIff | backend/formatter.py:41 | the GMP is non-negative, and zero exactly when price times percentage is at most 0.5 |
| Pricing.PriceExampleThreeDigits | backend/formatter.py:30-44 | `120` at 10% gives price 1 and GMP 0.1 |
| Pricing.PriceExampleDashes | backend/formatter.py:49-51 | `12--00` reads as `120000`, which at 10% gives price 12 and GMP 1.2 |
| Pricing.PriceExampleSixDigits | backend/formatter.py:30-44 | `120000` at 10% gives price 12 and GMP 1.2 |
| Pricing.PriceExampleOneDigit | backend/formatter.py:35 | a one-digit run raises on `int('')` |
| Dates.MonthNumber | backend/formatter.py:94 | a month read by `%b` is from 1 to 12 and its three letters, lower-cased, are that month's English abbreviation; conversely every month's abbreviation, in any letter case, is read as that month |
| Dates.ParseDayMonth | backend/formatter.py:94 | a parsed date has a month 1 to 12 and a day that exists in that month of 1900 |
| Dates.ParseDayMonthValid | backend/formatter.py:94 | every text of one or two digits, a hyphen and a month abbreviation, whose day exists in that month of 1900, parses to that day and month |
| Dates.ParseDayMonthShape | backend/formatter.py:94 | conversely, a text that parses is one or two digits, a hyphen and a month abbreviation, and the day is the digits' value |
| Dates.AnchorDate | backend/formatter.py:94-99 | a date is present exactly when its text parses; months before June get the next year, the others the current year |
| Dates.AnchorMarch | backend/formatter.py:97-98 | `15-Mar` becomes 15 March of the next year |
| Dates.AnchorJuly | backend/formatter.py:97-99 | `20-Jul` becomes 20 July of the current year |
| Dates.AnchorLeapDay | backend/formatter.py:94 | `29-Feb` does not exist in 1900 and is coerced to a missing date |
| Formatter.ReadSubscription | backend/formatter.py:27-28 | the subscription raises only when its text is not a valid float, and is non-negative |
| Formatter.ReadSize | backend/formatter.py:58-59 | the size raises only when the comma-free text is not a valid float |
| Formatter.GroupDigits | backend/formatter.py:49 | the digit group with `--` read as `00` is a digit string of the same length |
| Formatter.TokenQuote | backend/formatter.py:46-51 | a token raises only a `float()` ValueError or `int('')`, the ValueError exactly when the percentage does not parse, and otherwise gives the premium of its price at that percentage |
| Formatter.TokenQuoteOutcome | backend/formatter.py:46-51 | a token yields a ValueError for a bad percentage, `int('')` for a one-digit run, and otherwise the price of the first `min((L+1) div 3, 3)` digits, at most 999, with its premium |
| Formatter.UpdateQuote | backend/formatter.py:46-51 | without a token the carried pair is kept; with one that does not raise, a new pair is bound |
| Formatter.BuildRow | backend/formatter.py:53-83 | building a record keeps the carried pair; with no pair bound it raises on the unbound price; with a pair it raises the `float()` ValueError exactly when the size does not read, and the ZeroDivisionError exactly when the size reads and the price is zero; it emits exactly when the price is non-zero and the size reads, and the record holds that price and the name, status and subscription it was given |
| Formatter.RecordLine | backend/formatter.py:20-87 | a name-bearing line is never skipped, and its record has that name and the line's first status |
| Formatter.ProcessLine | backend/formatter.py:12-87 | a skipped line keeps the pair, and a record holds the price of the pair the line passes on |
| Formatter.ScanLines | backend/formatter.py:11-87 | the loop yields at most one record per line |
| Formatter.ScanAll | backend/formatter.py:11-87 | the line loop returns the records and the pair of the line-by-line scan |
| Formatter.AnchorRows | backend/formatter.py:91-99 | the date conversion keeps the number and order of the records and the value of every field other than the dates; each of the three dates is the record's date text parsed and anchored to the current year |
| Formatter.ParseSpec | backend/formatter.py:7-101 | the parse raises exactly when the scan has no records, and otherwise returns one record per scanned record |
| Formatter.ParseIpoData | backend/formatter.py:7-101 | `parse_ipo_data` returns the date-converted records of the scan, or raises when there are none |
| Formatter.SkippedLines | backend/formatter.py:13-19 | a line is skipped (`continue`) exactly when it is a header, blank, or lacks a name prefix, and then the pair is kept |
| Formatter.RecordLineOutcome | backend/formatter.py:20-87 | for every name-bearing line: a subscription that does not read drops it with the ValueError; then a token that raises drops it with that exception; then with no pair bound it is dropped on the unbound price; otherwise it is dropped on the size ValueError exactly when the size does not read, on the ZeroDivisionError exactly when the size reads and the price is zero, and emitted exactly when the size reads and the price is non-zero |
| Formatter.EmittedPath | backend/formatter.py:13-83 | a line yields a record exactly when it is a name-bearing line whose subscription reads, whose pair is bound without raising, whose price is non-zero and whose size reads; the record is the one built from the stripped name group, the first status, the subscription and that pair |
| Formatter.EmittedFields | backend/formatter.py:20-69 | an emitted record has the stripped name group, the first status, the first subscription, the comma-free first size, the first and second dates, and the last date only when there are at least three |
| Formatter.StaleQuoteReused | backend/formatter.py:46-55 | a record line whose subscription reads and that has no token keeps the carried pair and uses its price, and is dropped on the unbound price when there is none |
| Formatter.LastQuote | backend/formatter.py:46-51 | the pair of the last line whose token computed one, and none exactly when no line computed one |
| Formatter.ProcessLineCarry | backend/formatter.py:12-87 | a line passes on the pair its token computed, and otherwise the pair it was given |
| Formatter.CarryIsLastQuote | backend/formatter.py:11-87 | after any lines, the carried pair is the one computed by the last line whose token computed one, and unbound when there is no such line |
| Formatter.TokenLineQuote | backend/formatter.py:46-51 | a line whose token raises is dropped with that exception and keeps the old pair; otherwise the token's pair replaces it |
| Formatter.ProcessLineKeepsCarryOk | backend/formatter.py:30-51 | the carried price stays at most 999 and the carried GMP non-negative |
| Formatter.LotBounds | backend/formatter.py:62-63 | for a price from 1 to 999, `15000 div price` lies between 15 and 15000 |
| Formatter.EmittedQuote | backend/formatter.py:53-63 | an emitted record has a price from 1 to 999, lot size `15000 div price`, and a GMP that is absent exactly when it is zero |
| Formatter.ScanInvariant | backend/formatter.py:11-87 | every record of the scan satisfies those bounds, and the carried pair stays in range |
| Formatter.OriginsCount | backend/formatter.py:83 | there is one record per line that emitted one |
| Formatter.OriginsIncrease | backend/formatter.py:11-83 | the emitting lines are listed in increasing order |
| Formatter.EmitsInPrefix | backend/formatter.py:11-83 | whether a line emits depends only on the lines up to it |
| Formatter.RecordsInLineOrder | backend/formatter.py:11-87 | records keep input order, and no line yields more than one: the k-th record is the one emitted by the k-th emitting line |
| Formatter.NamelessLinesEmitNothing | backend/formatter.py:17-19 | lines without a name prefix produce no record |
| Formatter.NoNamesRaises | backend/formatter.py:89-94 | text in which no line has a name prefix makes `parse_ipo_data` raise |
| Formatter.EmptyTextRaises | backend/formatter.py:8-94 | empty text is one blank line, yields no record, and raises |
| Formatter.ParsedTableValid | backend/formatter.py:7-101 | a returned table is non-empty, and every record has an integral price from 1 to 999, the matching lot size, a positive GMP when present, and year-anchored dates |
| SampleLine.LineName | backend/formatter.py:13-20 | the sample line is not skipped, and its name group ends before ` IPO` |
| SampleLine.LineNameText | backend/formatter.py:20 | the stripped name of the sample line is `X` |
| SampleLine.LineStatus | backend/formatter.py:23-24 | the sample line has no status keyword, so its status is `Close` |
| SampleLine.LineSubscription | backend/formatter.py:27-28 | the sample line has no `Sub:` number, so its subscription is `None` |
| SampleLine.LineToken | backend/formatter.py:46 | the first token of the sample line is the group `120` with percent text `10` |
| SampleLine.LineQuoteValue | backend/formatter.py:46-51 | the sample line binds price 1 and GMP 0.1, whatever pair was carried |
| SampleLine.LineSizeText | backend/formatter.py:58 | the size amount of the sample line is `9` |
| SampleLine.LineSize | backend/formatter.py:58-59 | the size of the sample line is 9.0 |
| SampleLine.LineDates | backend/formatter.py:66 | the sample line holds no date |
| SampleLine.EmittingLineExample | backend/formatter.py:11-83 | the line `X IPO 120 (10%) â‚¹9 Cr` yields the record named `X` with status `Close`, no subscription, price 1, GMP 0.1, size 9.0, lot size 15000 and no dates, and passes on the pair (1, 0.1) |
| Filler.PremiumCell | backend/formatter.py:108 | the filled GMP is present exactly when both operands are, and within 0.005 of price times percentage |
| Filler.WholeOf | backend/formatter.py:111 | the quotient is the amount of which the GMP is that percentage |
| Filler.PriceCell | backend/formatter.py:111 | the filled price is present exactly when both operands are, and within 0.005 of the quotient |
| Filler.FillRow | backend/formatter.py:105-111 | one iteration changes at most the GMP and the price, and never a present value |
| Filler.FillTable | backend/formatter.py:104-112 | the pass keeps the number of rows |
| Filler.FillMissingValues | backend/formatter.py:104-112 | the in-place loop leaves every row as filled on its own, in the same order |
| Filler.GmpFilledWhen | backend/formatter.py:106-108 | the GMP changes exactly when it is missing and price and subscription are non-zero numbers, and becomes their rounded premium |
| Filler.PriceFilledWhen | backend/formatter.py:109-111 | the price changes exactly when it is missing and GMP and subscription are non-zero numbers, and becomes the rounded quotient |
| Filler.AtMostOneCellFilled | backend/formatter.py:105-111 | at most one of the two cells changes in a row |
| Filler.FillCompletes | backend/formatter.py:105-111 | with a non-zero subscription and a non-zero price or GMP, both cells are present afterwards |
| Filler.FillRowIdempotent | backend/formatter.py:105-111 | filling a row twice is filling it once |
| Filler.FalsyMissingSameRow | backend/formatter.py:105-111 | counting a missing cell as false, as `None` is, fills the row exactly as counting it true, as NaN is |
| Filler.FilledGmpIsPremium | backend/formatter.py:108 | a GMP filled for an integral price equals the premium the parser computes |
| Filler.FillGmpExample | backend/formatter.py:106-108 | price 100 at 50% fills GMP 50 |
| Filler.FillPriceExample | backend/formatter.py:109-111 | GMP 50 at 50% fills price 100 |
| Filler.FillTableRows | backend/formatter.py:104-112 | every row is filled on its own, and no field other than the two cells changes |
| Filler.FillTableIdempotent | backend/formatter.py:104-112 | running the pass twice is running it once |
| Filler.FillParsedTable | backend/formatter.py:104-112 | on a parsed table no price changes, and a GMP is filled exactly where it is missing and the subscription is non-zero |

## Left out

- Binary floating point. `float()`, `round(x, 2)`, the premium and the fill
  formulas are computed on exact reals, with `round` taking ties to even.
  A value whose float rounding differs from the exact result is not modelled.
- The general regular-expression engine. Only the six patterns of the file
  are modelled, as matchers at an index. `\s` and `\d` are taken on ASCII,
  and the Unicode whitespace and digits Python also accepts are not modelled.
- `str.strip()` is taken on ASCII whitespace; Unicode spaces are not modelled.
- `float()` is modelled only on the texts the patterns hand it, made of
  digits and dots. Signs, exponents, `inf` and `nan` cannot reach it.
- The `print` of the error message in the `except` branch. The model returns
  the reason for the drop instead.
- pandas itself: column dtypes, timestamps and the `iterrows` machinery. The
  table is a sequence of records, and a date is a (year, month, day) triple.
  The loop over the three date columns is modelled as converting the three
  date fields of every record, which gives the same table.
- `datetime.now()` becomes the `currentYear` parameter.
- `save_to_csv` and the module-level script at the end of the file: file I/O.
- backend/server.py, backend/webscrape.py and the frontend are not part of
  this model. They do HTTP, subprocess, network and UI work.
- Text.Replace: its contract gives only lengths. What it does for the two
  patterns the formatter uses is stated by `Text.RemoveCommas`,
  `Text.RemoveCommasConcat` and `Text.DashesBecomeZeros`.
