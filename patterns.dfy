/**
 * Hand-written matchers for the regular expressions of the line parser in
 * backend/formatter.py. Each `...At(line, i)` function says what the pattern
 * matches when the regex engine tries it at index `i`; `FirstMatch` is the
 * left-to-right scan of `re.search`, and `DatesFrom` the scan of `re.findall`.
 * Every pattern here is deterministic at a fixed start: each greedy run is
 * followed by a character outside its class, so backtracking never finds a
 * second way to match.
 */
module Patterns {
  import opened Wrappers
  import opened Text

  /** The lifecycle keywords searched for by `(Upcoming|Allotted|Listed|Close)`. */
  datatype Status = Upcoming | Allotted | Listed | Close

  /** `re.search`: the scan that tries `at` at from, from + 1, ... up to `limit`. */
  function FirstMatch<T>(from: nat, limit: nat, at: nat -> Option<T>): Option<T>
    decreases limit - from
  {
    if from >= limit then None
    else if at(from).Some? then at(from)
    else FirstMatch(from + 1, limit, at)
  }

  /** The scan finds nothing exactly when no index matches, and otherwise the match at the leftmost index. */
  lemma {:induction false} FirstMatchLeftmost<T>(from: nat, limit: nat, at: nat -> Option<T>)
    ensures FirstMatch(from, limit, at).None? <==> forall j :: from <= j < limit ==> at(j).None?
    ensures forall j :: from <= j < limit && at(j).Some? && (forall i :: from <= i < j ==> at(i).None?) ==>
              FirstMatch(from, limit, at) == at(j)
    ensures FirstMatch(from, limit, at).Some? ==> exists j :: from <= j < limit && at(j) == FirstMatch(from, limit, at)
    decreases limit - from
  {
    if from < limit && at(from).None? {
      FirstMatchLeftmost(from + 1, limit, at);
    }
  }

  // ---- `re.match(r'([A-Za-z\s&-]+) IPO', line)` ----------------------------

  predicate IsNameChar(c: char) { IsLetter(c) || IsSpace(c) || c == '&' || c == '-' }

  /** The name pattern matches at the start of `line` with group `line[..k]`. */
  predicate NameEndsAt(line: string, k: nat) {
    1 <= k && HasAt(line, k, " IPO") && forall i :: 0 <= i < k ==> IsNameChar(line[i])
  }

  /** The largest group end not above `k`: the greedy run backs off one character at a time. */
  function NameSearch(line: string, k: nat): (r: Option<nat>)
    ensures r.Some? ==> r.value <= k && NameEndsAt(line, r.value)
    decreases k
  {
    if k == 0 then None
    else if NameEndsAt(line, k) then Some(k)
    else NameSearch(line, k - 1)
  }

  /** The search returns the largest group end not above `k`. */
  lemma {:induction false} NameSearchLargest(line: string, k: nat)
    ensures NameSearch(line, k).Some? ==> forall j :: NameSearch(line, k).value < j <= k ==> !NameEndsAt(line, j)
    ensures NameSearch(line, k).None? ==> forall j: nat :: j <= k ==> !NameEndsAt(line, j)
    decreases k
  {
    if k > 0 && !NameEndsAt(line, k) {
      NameSearchLargest(line, k - 1);
    }
  }

  /**
   * The end of the company-name group: an index at which the name pattern
   * ends, with " IPO" right after it.
   */
  function MatchName(line: string): (r: Option<nat>)
    ensures r.Some? ==> NameEndsAt(line, r.value)
  {
    NameSearch(line, |line|)
  }

  /**
   * The group is the longest prefix of name characters that is directly
   * followed by " IPO"; there is no match exactly when no prefix qualifies.
   */
  lemma MatchNameLongest(line: string)
    ensures MatchName(line).Some? ==> forall j: nat :: MatchName(line).value < j ==> !NameEndsAt(line, j)
    ensures MatchName(line).None? <==> forall j: nat :: !NameEndsAt(line, j)
  {
    NameSearchLargest(line, |line|);
  }

  // ---- `re.search(r'(Upcoming|Allotted|Listed|Close)', line)` ---------------

  function StatusAt(line: string, i: nat): Option<Status> {
    if HasAt(line, i, "Upcoming") then Some(Upcoming)
    else if HasAt(line, i, "Allotted") then Some(Allotted)
    else if HasAt(line, i, "Listed") then Some(Listed)
    else if HasAt(line, i, "Close") then Some(Close)
    else None
  }

  /** The status column: the keyword found by the scan, `Close` when there is none. */
  function FindStatus(line: string): (s: Status)
    ensures s == Close || exists j :: 0 <= j < |line| && StatusAt(line, j) == Some(s)
  {
    var at := (j: nat) => StatusAt(line, j);
    assert forall j: nat :: at(j) == StatusAt(line, j);
    FirstMatchLeftmost(0, |line|, at);
    match FirstMatch(0, |line|, at)
    case Some(s) => s
    case None => Close
  }

  /** The status is the keyword that occurs first in the line, `Close` when none does. */
  lemma FindStatusFirst(line: string)
    ensures (forall j :: 0 <= j < |line| ==> StatusAt(line, j).None?) ==> FindStatus(line) == Close
    ensures forall j :: 0 <= j < |line| && StatusAt(line, j).Some? && (forall i :: 0 <= i < j ==> StatusAt(line, i).None?) ==>
              FindStatus(line) == StatusAt(line, j).value
  {
    var at := (j: nat) => StatusAt(line, j);
    assert forall j: nat :: at(j) == StatusAt(line, j);
    FirstMatchLeftmost(0, |line|, at);
  }

  // ---- `re.search(r'Sub:([\d.]+)x', line)` ---------------------------------

  /** `Sub:<n>x` at `i`: the number text, a non-empty run of digits and dots. */
  function SubscriptionAt(line: string, i: nat): (r: Option<string>)
    ensures r.Some? ==> r.value != [] && forall k :: 0 <= k < |r.value| ==> IsDigitOrDot(r.value[k])
    ensures r.Some? ==> HasAt(line, i, "Sub:" + r.value + "x")
  {
    if !HasAt(line, i, "Sub:") then None
    else
      var n := RunFrom(line, i + 4, IsDigitOrDot);
      if n > 0 && HasAt(line, i + 4 + n, "x") then
        var number := line[i + 4..i + 4 + n];
        assert line[i..i + n + 5] == line[i..i + 4] + number + line[i + 4 + n..i + n + 5];
        Some(number)
      else None
  }

  /** Every `Sub:<digits and dots>x` at `i` is matched there, with its number text. */
  lemma SubscriptionAtComplete(line: string, i: nat, e: nat)
    requires i + 4 < e && HasAt(line, i, "Sub:") && HasAt(line, e, "x")
    requires forall k :: i + 4 <= k < e ==> IsDigitOrDot(line[k])
    ensures SubscriptionAt(line, i) == Some(line[i + 4..e])
  {
    assert line[e] == line[e..e + 1][0];
    RunEndsAt(line, i + 4, e - i - 4, IsDigitOrDot);
  }

  /** The number text of the first `Sub:<n>x`. */
  function FindSubscription(line: string): (r: Option<string>)
    ensures r.Some? ==> exists j :: 0 <= j < |line| && SubscriptionAt(line, j) == r
  {
    var at := (j: nat) => SubscriptionAt(line, j);
    assert forall j: nat :: at(j) == SubscriptionAt(line, j);
    FirstMatchLeftmost(0, |line|, at);
    FirstMatch(0, |line|, at)
  }

  /**
   * The subscription text is the one at the leftmost `Sub:<n>x`, and absent
   * when there is none; it is made of digits and dots, at least one.
   */
  lemma FindSubscriptionFirst(line: string)
    ensures var r := FindSubscription(line);
      r.Some? ==> r.value != [] && forall k :: 0 <= k < |r.value| ==> IsDigitOrDot(r.value[k])
    ensures FindSubscription(line).None? <==> forall j :: 0 <= j < |line| ==> SubscriptionAt(line, j).None?
    ensures forall j :: 0 <= j < |line| && SubscriptionAt(line, j).Some? && (forall i :: 0 <= i < j ==> SubscriptionAt(line, i).None?) ==>
              FindSubscription(line) == SubscriptionAt(line, j)
  {
    var at := (j: nat) => SubscriptionAt(line, j);
    assert forall j: nat :: at(j) == SubscriptionAt(line, j);
    FirstMatchLeftmost(0, |line|, at);
  }

  // ---- `re.search(r"(\d+(?:--\d+)?)\s+\(([\d.]+)%\)", line)` ---------------

  /** The digit group `lead` or `lead--tail` of a token. */
  datatype DigitGroup = DigitGroup(lead: string, tail: Option<string>) {
    /** The text of the group, as matched. */
    function Text(): string {
      match tail
      case None => lead
      case Some(t) => lead + "--" + t
    }
  }

  /** A price/percent token: the digit group and the percent text. */
  datatype PriceToken = PriceToken(group: DigitGroup, percent: string) {
    /** The text of the first group, as matched. */
    function Group(): string {
      group.Text()
    }
  }

  predicate WellFormedToken(t: PriceToken) {
    && t.group.lead != [] && AllDigits(t.group.lead)
    && (t.group.tail.Some? ==> t.group.tail.value != [] && AllDigits(t.group.tail.value))
    && t.percent != [] && forall k :: 0 <= k < |t.percent| ==> IsDigitOrDot(t.percent[k])
  }

  /** The digit run at `i` is a digit string. */
  lemma DigitRun(line: string, i: nat)
    requires i <= |line|
    ensures AllDigits(line[i..i + RunFrom(line, i, IsDigit)])
  {
    var run := line[i..i + RunFrom(line, i, IsDigit)];
    assert forall q :: 0 <= q < |run| ==> run[q] == line[i + q];
  }

  /** The whitespace run at `k` is all whitespace. */
  lemma SpaceRun(line: string, k: nat)
    requires k <= |line|
    ensures AllSpace(line[k..k + RunFrom(line, k, IsSpace)])
  {
    var run := line[k..k + RunFrom(line, k, IsSpace)];
    assert forall q :: 0 <= q < |run| ==> run[q] == line[k + q];
  }

  /** `--\d+` at `j`: the digits after the `--`, when at least one follows it. */
  function DashTailAt(line: string, j: nat): (r: Option<string>)
    ensures r.Some? ==> r.value != [] && AllDigits(r.value) && HasAt(line, j, "--" + r.value)
  {
    if HasAt(line, j, "--") && j + 2 < |line| && IsDigit(line[j + 2]) then
      var t := RunFrom(line, j + 2, IsDigit);
      DigitRun(line, j + 2);
      var tail := line[j + 2..j + 2 + t];
      assert line[j..j + 2 + t] == line[j..j + 2] + tail;
      Some(tail)
    else None
  }

  /** A maximal digit run after `--` at `j` is the tail matched there. */
  lemma DashTailAtComplete(line: string, j: nat, e: nat)
    requires j + 2 < e <= |line| && HasAt(line, j, "--")
    requires forall k :: j + 2 <= k < e ==> IsDigit(line[k])
    requires e < |line| ==> !IsDigit(line[e])
    ensures DashTailAt(line, j) == Some(line[j + 2..e])
  {
    RunEndsAt(line, j + 2, e - j - 2, IsDigit);
  }

  /**
   * `\d+(?:--\d+)?` at `i`: the leading digits and, when `--` and a digit
   * follow them, the digits after the `--`. Each run is greedy and is
   * followed by a character outside its class, so no other split matches.
   */
  function DigitGroupAt(line: string, i: nat): (r: Option<DigitGroup>)
    ensures r.Some? ==> r.value.lead != [] && AllDigits(r.value.lead)
    ensures r.Some? && r.value.tail.Some? ==> r.value.tail.value != [] && AllDigits(r.value.tail.value)
    ensures r.Some? ==> HasAt(line, i, r.value.Text())
  {
    if i >= |line| then None
    else
      var d := RunFrom(line, i, IsDigit);
      var j := i + d;
      DigitRun(line, i);
      if d == 0 then None
      else
        var lead := line[i..j];
        match DashTailAt(line, j)
        case None => Some(DigitGroup(lead, None))
        case Some(tail) =>
          assert line[i..j + 2 + |tail|] == lead + line[j..j + 2 + |tail|];
          Some(DigitGroup(lead, Some(tail)))
  }

  /** A maximal digit run at `i` not followed by `--` and a digit is the whole group. */
  lemma DigitGroupAtLead(line: string, i: nat, j: nat)
    requires i < j <= |line| && forall k :: i <= k < j ==> IsDigit(line[k])
    requires j < |line| ==> !IsDigit(line[j])
    requires !(HasAt(line, j, "--") && j + 2 < |line| && IsDigit(line[j + 2]))
    ensures DigitGroupAt(line, i) == Some(DigitGroup(line[i..j], None))
  {
    RunEndsAt(line, i, j - i, IsDigit);
    DigitGroupAtRun(line, i, j);
  }

  /** The group at `i` is the digit run there and the tail after it. */
  lemma DigitGroupAtRun(line: string, i: nat, j: nat)
    requires i < j <= |line| && RunFrom(line, i, IsDigit) == j - i
    ensures DigitGroupAt(line, i) == Some(DigitGroup(line[i..j], DashTailAt(line, j)))
  {
  }

  /** Two maximal digit runs at `i` joined by `--` are the group, split at the `--`. */
  lemma DigitGroupAtTail(line: string, i: nat, j: nat, e: nat)
    requires i < j && j + 2 < e <= |line| && HasAt(line, j, "--")
    requires forall k :: i <= k < j ==> IsDigit(line[k])
    requires forall k :: j + 2 <= k < e ==> IsDigit(line[k])
    requires e < |line| ==> !IsDigit(line[e])
    ensures DigitGroupAt(line, i) == Some(DigitGroup(line[i..j], Some(line[j + 2..e])))
  {
    assert line[j] == line[j..j + 2][0];
    RunEndsAt(line, i, j - i, IsDigit);
    DigitGroupAtRun(line, i, j);
    DashTailAtComplete(line, j, e);
  }

  /** `\(([\d.]+)%\)` at `m`: the percent text between the parentheses. */
  function PercentAt(line: string, m: nat): (r: Option<string>)
    ensures r.Some? ==> r.value != [] && forall k :: 0 <= k < |r.value| ==> IsDigitOrDot(r.value[k])
    ensures r.Some? ==> HasAt(line, m, "(" + r.value + "%)")
  {
    if !HasAt(line, m, "(") then None
    else
      var p := RunFrom(line, m + 1, IsDigitOrDot);
      if p == 0 || !HasAt(line, m + 1 + p, "%)") then None
      else
        assert line[m..m + p + 3] == line[m..m + 1] + line[m + 1..m + 1 + p] + line[m + 1 + p..m + p + 3];
        Some(line[m + 1..m + 1 + p])
  }

  /** Every `(<digits and dots>%)` at `m` is matched there, with its percent text. */
  lemma PercentAtComplete(line: string, m: nat, e: nat)
    requires m + 1 < e && HasAt(line, m, "(") && HasAt(line, e, "%)")
    requires forall k :: m + 1 <= k < e ==> IsDigitOrDot(line[k])
    ensures PercentAt(line, m) == Some(line[m + 1..e])
  {
    assert line[e] == line[e..e + 2][0];
    RunEndsAt(line, m + 1, e - m - 1, IsDigitOrDot);
  }

  /** `\s+\(([\d.]+)%\)` at `k`: whitespace, at least one character, then a percent. */
  function SpacedPercentAt(line: string, k: nat): (r: Option<string>)
    ensures r.Some? ==> r.value != [] && forall q :: 0 <= q < |r.value| ==> IsDigitOrDot(r.value[q])
    ensures r.Some? ==>
      exists m :: k < m <= |line| && AllSpace(line[k..m]) && HasAt(line, m, "(" + r.value + "%)")
  {
    if k > |line| then None
    else
      var w := RunFrom(line, k, IsSpace);
      SpaceRun(line, k);
      if w == 0 then None else PercentAt(line, k + w)
  }

  /** Whitespace from `k` up to a percent at `m` is matched at `k`, with that percent. */
  lemma SpacedPercentAtComplete(line: string, k: nat, m: nat)
    requires k < m && PercentAt(line, m).Some?
    requires forall q :: k <= q < m ==> IsSpace(line[q])
    ensures SpacedPercentAt(line, k) == PercentAt(line, m)
  {
    var percent := PercentAt(line, m).value;
    assert line[m..m + |percent| + 3] == "(" + percent + "%)";
    assert line[m] == line[m..m + |percent| + 3][0];
    RunEndsAt(line, k, m - k, IsSpace);
  }

  /**
   * The token matched at `i`: its digit group is the text at `i`, followed by
   * at least one whitespace character and `(<percent>%)`.
   */
  function PriceTokenAt(line: string, i: nat): (r: Option<PriceToken>)
    ensures r.Some? ==> WellFormedToken(r.value)
    ensures r.Some? ==> HasAt(line, i, r.value.Group())
    ensures r.Some? ==>
      (exists m :: i + |r.value.Group()| < m <= |line| &&
        AllSpace(line[i + |r.value.Group()|..m]) && HasAt(line, m, "(" + r.value.percent + "%)"))
  {
    var group := DigitGroupAt(line, i);
    if group.None? then None
    else
      var percent := SpacedPercentAt(line, i + |group.value.Text()|);
      if percent.None? then None else Some(PriceToken(group.value, percent.value))
  }

  /** The stages compose: a digit group at `i` followed by a spaced percent is the token at `i`. */
  lemma PriceTokenAtComplete(line: string, i: nat)
    requires DigitGroupAt(line, i).Some?
    requires SpacedPercentAt(line, i + |DigitGroupAt(line, i).value.Text()|).Some?
    ensures PriceTokenAt(line, i) ==
      Some(PriceToken(DigitGroupAt(line, i).value, SpacedPercentAt(line, i + |DigitGroupAt(line, i).value.Text()|).value))
  {
  }

  /** The token at `i` is the group there and the spaced percent right after it. */
  lemma PriceTokenAtParts(line: string, i: nat, g: DigitGroup, p: string)
    requires DigitGroupAt(line, i).Some? && DigitGroupAt(line, i).value == g
    requires SpacedPercentAt(line, i + |g.Text()|).Some? && SpacedPercentAt(line, i + |g.Text()|).value == p
    ensures PriceTokenAt(line, i).Some? && PriceTokenAt(line, i).value == PriceToken(g, p)
  {
    PriceTokenAtComplete(line, i);
  }

  /** Whitespace on [j, m), `(` at m, digits and dots on (m, e) and `%)` at e: the spaced percent at j. */
  lemma SpacedPercentChars(line: string, j: nat, m: nat, e: nat)
    requires j < m && m + 1 < e && HasAt(line, m, "(") && HasAt(line, e, "%)")
    requires forall q :: j <= q < m ==> IsSpace(line[q])
    requires forall k :: m + 1 <= k < e ==> IsDigitOrDot(line[k])
    ensures SpacedPercentAt(line, j).Some? && SpacedPercentAt(line, j).value == line[m + 1..e]
  {
    PercentAtComplete(line, m, e);
    SpacedPercentAtComplete(line, j, m);
  }

  /**
   * A digit run on [i, j), whitespace on [j, m), `(` at m, digits and dots on
   * (m, e) and `%)` at e: the token at i is that run with that percent text.
   */
  lemma PriceTokenAtChars(line: string, i: nat, j: nat, m: nat, e: nat)
    requires i < j < m && m + 1 < e && HasAt(line, m, "(") && HasAt(line, e, "%)")
    requires forall k :: i <= k < j ==> IsDigit(line[k])
    requires forall q :: j <= q < m ==> IsSpace(line[q])
    requires forall k :: m + 1 <= k < e ==> IsDigitOrDot(line[k])
    ensures PriceTokenAt(line, i).Some?
    ensures PriceTokenAt(line, i).value == PriceToken(DigitGroup(line[i..j], None), line[m + 1..e])
  {
    assert IsSpace(line[j]) && !HasAt(line, j, "--");
    DigitGroupAtLead(line, i, j);
    SpacedPercentChars(line, j, m, e);
    assert DigitGroup(line[i..j], None).Text() == line[i..j];
    PriceTokenAtComplete(line, i);
  }

  /**
   * Digit runs on [i, j) and [j + 2, t) joined by `--`, then whitespace on
   * [t, m), `(` at m, digits and dots on (m, e) and `%)` at e: the token at i
   * is that `lead--tail` group with that percent text.
   */
  lemma PriceTokenAtDashChars(line: string, i: nat, j: nat, t: nat, m: nat, e: nat)
    requires i < j && j + 2 < t < m && m + 1 < e && HasAt(line, m, "(") && HasAt(line, e, "%)")
    requires HasAt(line, j, "--")
    requires forall k :: i <= k < j ==> IsDigit(line[k])
    requires forall k :: j + 2 <= k < t ==> IsDigit(line[k])
    requires forall q :: t <= q < m ==> IsSpace(line[q])
    requires forall k :: m + 1 <= k < e ==> IsDigitOrDot(line[k])
    ensures PriceTokenAt(line, i).Some?
    ensures PriceTokenAt(line, i).value == PriceToken(DigitGroup(line[i..j], Some(line[j + 2..t])), line[m + 1..e])
  {
    var g := DigitGroup(line[i..j], Some(line[j + 2..t]));
    assert IsSpace(line[t]);
    DigitGroupAtTail(line, i, j, t);
    assert DigitGroupAt(line, i).Some? && DigitGroupAt(line, i).value == g;
    assert i + |g.Text()| == t;
    SpacedPercentChars(line, t, m, e);
    PriceTokenAtParts(line, i, g, line[m + 1..e]);
  }

  /** The first price/percent token of the line: digits, an optional `--` and digits, and a percentage. */
  function FindPriceToken(line: string): (r: Option<PriceToken>)
    ensures r.Some? ==> WellFormedToken(r.value)
  {
    var at := (j: nat) => PriceTokenAt(line, j);
    assert forall j: nat :: at(j) == PriceTokenAt(line, j);
    FirstMatchLeftmost(0, |line|, at);
    FirstMatch(0, |line|, at)
  }

  /** The token is the one at the leftmost index where the pattern matches, and absent when there is none. */
  lemma FindPriceTokenFirst(line: string)
    ensures FindPriceToken(line).None? <==> forall j :: 0 <= j < |line| ==> PriceTokenAt(line, j).None?
    ensures forall j :: 0 <= j < |line| && PriceTokenAt(line, j).Some? && (forall i :: 0 <= i < j ==> PriceTokenAt(line, i).None?) ==>
              FindPriceToken(line) == PriceTokenAt(line, j)
  {
    var at := (j: nat) => PriceTokenAt(line, j);
    assert forall j: nat :: at(j) == PriceTokenAt(line, j);
    FirstMatchLeftmost(0, |line|, at);
  }

  // ---- `re.search(r'â‚¹([\d,.]+)\s*Cr', line)` ------------------------------

  /** The three characters `â‚¹` the size pattern starts with, taken literally. */
  const SizeMark: string := "\U{E2}\U{201A}\U{B9}"

  predicate IsSizeChar(c: char) { IsDigit(c) || c == ',' || c == '.' }

  /** The amount of a size token at `i`: after `â‚¹`, a non-empty run of digits, commas and dots, then optional whitespace and `Cr`. */
  function SizeAt(line: string, i: nat): (r: Option<string>)
    ensures r.Some? ==> r.value != [] && forall k :: 0 <= k < |r.value| ==> IsSizeChar(r.value[k])
    ensures r.Some? ==> HasAt(line, i, SizeMark + r.value)
    ensures r.Some? ==> exists c :: i + 3 + |r.value| <= c <= |line| && AllSpace(line[i + 3 + |r.value|..c]) && HasAt(line, c, "Cr")
  {
    if !HasAt(line, i, SizeMark) then None
    else
      var n := RunFrom(line, i + 3, IsSizeChar);
      var w := RunFrom(line, i + 3 + n, IsSpace);
      if n > 0 && HasAt(line, i + 3 + n + w, "Cr") then
        var amount := line[i + 3..i + 3 + n];
        assert forall k :: 0 <= k < n ==> amount[k] == line[i + 3 + k];
        assert line[i..i + 3 + n] == line[i..i + 3] + amount;
        SpaceRun(line, i + 3 + n);
        Some(amount)
      else None
  }

  /**
   * Every `â‚¹<digits, commas and dots>`, then optional whitespace and `Cr`,
   * at `i` is matched there, with its amount.
   */
  lemma SizeAtComplete(line: string, i: nat, e: nat, c: nat)
    requires HasAt(line, i, SizeMark) && i + 3 < e <= c && HasAt(line, c, "Cr")
    requires forall k :: i + 3 <= k < e ==> IsSizeChar(line[k])
    requires forall k :: e <= k < c ==> IsSpace(line[k])
    ensures SizeAt(line, i) == Some(line[i + 3..e])
  {
    assert line[c] == line[c..c + 2][0];
    assert !IsSizeChar(line[e]);
    RunEndsAt(line, i + 3, e - i - 3, IsSizeChar);
    RunEndsAt(line, e, c - e, IsSpace);
    SizeAtRuns(line, i, e, c);
  }

  /** The size token at `i` once the amount run ends at `e` and the whitespace after it at `c`. */
  lemma SizeAtRuns(line: string, i: nat, e: nat, c: nat)
    requires HasAt(line, i, SizeMark) && i + 3 < e <= c <= |line|
    requires RunFrom(line, i + 3, IsSizeChar) == e - i - 3 && RunFrom(line, e, IsSpace) == c - e
    requires HasAt(line, c, "Cr")
    ensures SizeAt(line, i).Some? && SizeAt(line, i).value == line[i + 3..e]
  {
  }

  /** The amount text of the first size token. */
  function FindSize(line: string): (r: Option<string>)
    ensures r.Some? ==> exists j :: 0 <= j < |line| && SizeAt(line, j) == r
  {
    var at := (j: nat) => SizeAt(line, j);
    assert forall j: nat :: at(j) == SizeAt(line, j);
    FirstMatchLeftmost(0, |line|, at);
    FirstMatch(0, |line|, at)
  }

  /**
   * The amount is the one of the leftmost size token, and absent when there
   * is none; it is made of digits, commas and dots, at least one.
   */
  lemma FindSizeFirst(line: string)
    ensures var r := FindSize(line);
      r.Some? ==> r.value != [] && forall k :: 0 <= k < |r.value| ==> IsSizeChar(r.value[k])
    ensures FindSize(line).None? <==> forall j :: 0 <= j < |line| ==> SizeAt(line, j).None?
    ensures forall j :: 0 <= j < |line| && SizeAt(line, j).Some? && (forall i :: 0 <= i < j ==> SizeAt(line, i).None?) ==>
              FindSize(line) == SizeAt(line, j)
  {
    var at := (j: nat) => SizeAt(line, j);
    assert forall j: nat :: at(j) == SizeAt(line, j);
    FirstMatchLeftmost(0, |line|, at);
  }

  // ---- `re.findall(r'(\d{1,2}-[A-Za-z]{3})', line)` -------------------------

  /** `d-Mon` or `dd-Mon`: one or two digits, a hyphen, three ASCII letters. */
  predicate IsDateText(d: string) {
    && (|d| == 5 || |d| == 6)
    && AllDigits(d[..|d| - 4])
    && d[|d| - 4] == '-'
    && IsLetter(d[|d| - 3]) && IsLetter(d[|d| - 2]) && IsLetter(d[|d| - 1])
  }

  /** Length of the date match at `i`: two digits are tried first, then one. */
  function DateAt(line: string, i: nat): (r: Option<nat>)
    ensures r.Some? ==> i + r.value <= |line| && IsDateText(line[i..i + r.value])
    ensures r.None? ==> !(i + 5 <= |line| && IsDateText(line[i..i + 5])) && !(i + 6 <= |line| && IsDateText(line[i..i + 6]))
  {
    DateTextAt(line, i);
    if i + 1 < |line| && IsDigit(line[i]) && IsDigit(line[i + 1]) then
      if i + 6 <= |line| && line[i + 2] == '-' && IsLetter(line[i + 3]) && IsLetter(line[i + 4]) && IsLetter(line[i + 5])
      then Some(6) else None
    else if i + 5 <= |line| && IsDigit(line[i]) && line[i + 1] == '-' && IsLetter(line[i + 2]) && IsLetter(line[i + 3]) && IsLetter(line[i + 4])
    then Some(5)
    else None
  }

  /** What `IsDateText` asks of the five or six characters at `i`. */
  lemma DateTextAt(line: string, i: nat)
    ensures i + 5 <= |line| ==> (IsDateText(line[i..i + 5]) <==>
      IsDigit(line[i]) && line[i + 1] == '-' && IsLetter(line[i + 2]) && IsLetter(line[i + 3]) && IsLetter(line[i + 4]))
    ensures i + 6 <= |line| ==> (IsDateText(line[i..i + 6]) <==>
      IsDigit(line[i]) && IsDigit(line[i + 1]) && line[i + 2] == '-' && IsLetter(line[i + 3]) && IsLetter(line[i + 4]) && IsLetter(line[i + 5]))
  {
    if i + 5 <= |line| {
      assert line[i..i + 5][..1] == [line[i]];
    }
    if i + 6 <= |line| {
      assert line[i..i + 6][..2] == [line[i], line[i + 1]];
    }
  }

  /** All non-overlapping date matches from index `i` on, left to right. */
  function DatesFrom(line: string, i: nat): (ds: seq<string>)
    requires i <= |line|
    ensures forall k :: 0 <= k < |ds| ==> IsDateText(ds[k])
    ensures |ds| <= |line| - i
    decreases |line| - i
  {
    if i == |line| then []
    else match DateAt(line, i)
      case Some(n) => [line[i..i + n]] + DatesFrom(line, i + n)
      case None => DatesFrom(line, i + 1)
  }

  function FindDates(line: string): (ds: seq<string>)
    ensures forall k :: 0 <= k < |ds| ==> IsDateText(ds[k])
  {
    DatesFrom(line, 0)
  }

  /** The scan from `i` finds no date exactly when no date text starts at any index from `i` on. */
  lemma {:induction false} DatesFromEmpty(line: string, i: nat)
    requires i <= |line|
    ensures DatesFrom(line, i) == [] <==> forall j :: i <= j < |line| ==> DateAt(line, j).None?
    decreases |line| - i
  {
    if i < |line| && DateAt(line, i).None? {
      DatesFromEmpty(line, i + 1);
    }
  }

  /**
   * The scan from `i` takes the leftmost date text at or after `i`, whole,
   * and goes on right after it: the matches are the leftmost
   * non-overlapping ones, in order.
   */
  lemma {:induction false} DatesFromFirst(line: string, i: nat, j: nat)
    requires i <= j < |line| && DateAt(line, j).Some?
    requires forall q :: i <= q < j ==> DateAt(line, q).None?
    ensures DatesFrom(line, i) ==
      [line[j..j + DateAt(line, j).value]] + DatesFrom(line, j + DateAt(line, j).value)
    decreases j - i
  {
    if i < j {
      DatesFromFirst(line, i + 1, j);
    }
  }
}
