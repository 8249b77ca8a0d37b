/**
 * Character classes and the handful of Python string operations the formatter
 * relies on: `str.strip()`, `str.startswith`, `str.split('\n')`,
 * `str.replace`, `int()` on digit strings and `float()` on digit-and-dot strings.
 */
module Text {
  import opened Wrappers

  /** Python's `str.isspace()` on the ASCII range; also what `\s` matches. */
  predicate IsSpace(c: char) {
    c == ' ' || ('\t' <= c <= '\r') || ('\U{1C}' <= c <= '\U{1F}')
  }

  predicate IsDigit(c: char) { '0' <= c <= '9' }

  predicate IsLetter(c: char) { 'A' <= c <= 'Z' || 'a' <= c <= 'z' }

  predicate IsDigitOrDot(c: char) { IsDigit(c) || c == '.' }

  predicate AllDigits(s: string) { forall k :: 0 <= k < |s| ==> IsDigit(s[k]) }

  predicate AllSpace(s: string) { forall k :: 0 <= k < |s| ==> IsSpace(s[k]) }

  /** `w` occurs in `s` starting at index `i`. */
  predicate HasAt(s: string, i: nat, w: string) {
    i + |w| <= |s| && s[i..i + |w|] == w
  }

  predicate StartsWith(s: string, prefix: string) { HasAt(s, 0, prefix) }

  /** Length of the longest run of characters satisfying `p` that starts at `i`. */
  function RunFrom(s: string, i: nat, p: char -> bool): (n: nat)
    requires i <= |s|
    ensures i + n <= |s|
    ensures forall k :: i <= k < i + n ==> p(s[k])
    ensures i + n < |s| ==> !p(s[i + n])
    decreases |s| - i
  {
    if i < |s| && p(s[i]) then 1 + RunFrom(s, i + 1, p) else 0
  }

  /** Length of the longest run of characters satisfying `p` that ends `s`. */
  function RunBack(s: string, p: char -> bool): (n: nat)
    ensures n <= |s|
    ensures forall k :: |s| - n <= k < |s| ==> p(s[k])
    ensures n < |s| ==> !p(s[|s| - 1 - n])
    decreases |s|
  {
    if s != [] && p(s[|s| - 1]) then 1 + RunBack(s[..|s| - 1], p) else 0
  }

  /** `r` sits at index `i` of `s` with only whitespace before and after it. */
  predicate PaddedAt(s: string, r: string, i: nat) {
    i + |r| <= |s| && s[i..i + |r|] == r && AllSpace(s[..i]) && AllSpace(s[i + |r|..])
  }

  /** Python's `str.strip()` with no argument: what follows the leading whitespace, less the trailing whitespace. */
  function Strip(s: string): (r: string)
    ensures PaddedAt(s, r, RunFrom(s, 0, IsSpace))
    ensures r != [] ==> !IsSpace(r[0]) && !IsSpace(r[|r| - 1])
  {
    var lead := RunFrom(s, 0, IsSpace);
    if lead == |s| then
      SpaceAround(s, |s|, |s|);
      assert s[|s|..|s|] == [];
      []
    else
      var trail := RunBack(s, IsSpace);
      assert !IsSpace(s[lead]);
      TrimBoth(s, lead, trail);
      s[lead..|s| - trail]
  }

  /**
   * Cutting a leading whitespace run that stops at a non-space and the
   * trailing whitespace run leaves a non-blank middle.
   */
  lemma TrimBoth(s: string, lead: nat, trail: nat)
    requires lead < |s| && !IsSpace(s[lead]) && forall k :: 0 <= k < lead ==> IsSpace(s[k])
    requires trail <= |s| && forall k :: |s| - trail <= k < |s| ==> IsSpace(s[k])
    requires trail < |s| ==> !IsSpace(s[|s| - 1 - trail])
    ensures lead < |s| - trail
    ensures PaddedAt(s, s[lead..|s| - trail], lead)
    ensures !IsSpace(s[|s| - 1 - trail])
  {
    assert lead < |s| - trail;
    SpaceAround(s, lead, |s| - trail);
  }

  /** Whitespace before `i` and from `j` on: `s[i..j]` is `s` with that whitespace cut. */
  lemma SpaceAround(s: string, i: nat, j: nat)
    requires i <= j <= |s|
    requires forall k :: 0 <= k < i ==> IsSpace(s[k])
    requires forall k :: j <= k < |s| ==> IsSpace(s[k])
    ensures PaddedAt(s, s[i..j], i)
  {
    assert s[i..i + (j - i)] == s[i..j];
    assert forall q :: 0 <= q < i ==> s[..i][q] == s[q];
    assert forall q :: 0 <= q < |s| - j ==> s[j..][q] == s[j + q];
  }

  /** A string strips to nothing exactly when it is all whitespace: `not line.strip()`. */
  lemma StripEmptyIffBlank(s: string)
    ensures Strip(s) == [] <==> AllSpace(s)
  {
    PaddingEmptyIffBlank(s, Strip(s), RunFrom(s, 0, IsSpace));
  }

  /** Cutting whitespace leaves nothing exactly when there was only whitespace. */
  lemma PaddingEmptyIffBlank(s: string, r: string, i: nat)
    requires PaddedAt(s, r, i)
    requires r != [] ==> !IsSpace(r[0])
    ensures r == [] <==> AllSpace(s)
  {
    if r == [] {
      forall k | 0 <= k < |s| ensures IsSpace(s[k]) {
        if k < i { assert s[..i][k] == s[k]; } else { assert s[i..][k - i] == s[k]; }
      }
    } else {
      assert s[i] == r[0];
    }
  }

  /** Python's `s.split(sep)` for a one-character separator. */
  function SplitOn(s: string, sep: char): (parts: seq<string>)
    ensures |parts| >= 1
    ensures forall k :: 0 <= k < |parts| ==> sep !in parts[k]
    decreases |s|
  {
    if s == [] then [[]]
    else if s[0] == sep then [[]] + SplitOn(s[1..], sep)
    else
      var rest := SplitOn(s[1..], sep);
      [[s[0]] + rest[0]] + rest[1..]
  }

  /** Python's `sep.join(parts)`. */
  function Join(parts: seq<string>, sep: char): string
    requires |parts| >= 1
    decreases |parts|
  {
    if |parts| == 1 then parts[0] else parts[0] + [sep] + Join(parts[1..], sep)
  }

  /** Joining the pieces of a split gives back the original text. */
  lemma {:induction false} JoinSplit(s: string, sep: char)
    ensures Join(SplitOn(s, sep), sep) == s
    decreases |s|
  {
    if s == [] {
    } else if s[0] == sep {
      JoinSplit(s[1..], sep);
      assert s == [sep] + s[1..];
    } else {
      var rest := SplitOn(s[1..], sep);
      JoinSplit(s[1..], sep);
      if |rest| == 1 {
        assert s == [s[0]] + s[1..];
      } else {
        calc {
          Join(SplitOn(s, sep), sep);
          ([s[0]] + rest[0]) + [sep] + Join(rest[1..], sep);
          [s[0]] + (rest[0] + [sep] + Join(rest[1..], sep));
          [s[0]] + Join(rest, sep);
          s;
        }
      }
    }
  }

  lemma {:induction false} SplitWithoutSep(a: string, sep: char)
    requires sep !in a
    ensures SplitOn(a, sep) == [a]
    decreases |a|
  {
    if a != [] {
      SplitWithoutSep(a[1..], sep);
      assert a == [a[0]] + a[1..];
    }
  }

  lemma {:induction false} SplitAfterPiece(a: string, sep: char, t: string)
    requires sep !in a
    ensures SplitOn(a + [sep] + t, sep) == [a] + SplitOn(t, sep)
    decreases |a|
  {
    if a == [] {
      assert a + [sep] + t == [sep] + t;
    } else {
      SplitAfterPiece(a[1..], sep, t);
      assert (a + [sep] + t)[1..] == a[1..] + [sep] + t;
      assert a == [a[0]] + a[1..];
    }
  }

  /** Splitting a join of separator-free pieces gives back the pieces. */
  lemma {:induction false} SplitJoin(parts: seq<string>, sep: char)
    requires |parts| >= 1
    requires forall k :: 0 <= k < |parts| ==> sep !in parts[k]
    ensures SplitOn(Join(parts, sep), sep) == parts
    decreases |parts|
  {
    if |parts| == 1 {
      SplitWithoutSep(parts[0], sep);
    } else {
      SplitJoin(parts[1..], sep);
      SplitAfterPiece(parts[0], sep, Join(parts[1..], sep));
      assert parts == [parts[0]] + parts[1..];
    }
  }

  /** Python's `s.replace(pat, rep)`: non-overlapping occurrences, left to right. */
  function Replace(s: string, pat: string, rep: string): (r: string)
    requires pat != []
    ensures |rep| == |pat| ==> |r| == |s|
    ensures |rep| <= |pat| ==> |r| <= |s|
    decreases |s|
  {
    if s == [] then []
    else if StartsWith(s, pat) then rep + Replace(s[|pat|..], pat, rep)
    else [s[0]] + Replace(s[1..], pat, rep)
  }

  /** Removing commas (`s.replace(',', '')`) keeps exactly the other characters. */
  lemma {:induction false} RemoveCommas(s: string)
    ensures forall c :: c in Replace(s, ",", "") <==> c in s && c != ','
    decreases |s|
  {
    if s != [] {
      RemoveCommas(s[1..]);
      assert s == [s[0]] + s[1..];
    }
  }

  /**
   * Removing commas works character by character: it distributes over
   * concatenation, drops a comma and keeps any other character, so the
   * remaining characters keep their order and their number.
   */
  lemma {:induction false} RemoveCommasConcat(a: string, b: string, c: char)
    ensures Replace(a + b, ",", "") == Replace(a, ",", "") + Replace(b, ",", "")
    ensures Replace([c], ",", "") == if c == ',' then [] else [c]
    decreases |a|
  {
    assert [c][1..] == [];
    if a == [] {
      assert a + b == b;
    } else {
      var s := a + b;
      assert s[1..] == a[1..] + b;
      assert s[0] == a[0];
      assert StartsWith(s, ",") <==> StartsWith(a, ",");
      RemoveCommasConcat(a[1..], b, c);
    }
  }

  lemma {:induction false} ReplaceDashesInDigits(a: string, t: string)
    requires AllDigits(a)
    ensures Replace(a + t, "--", "00") == a + Replace(t, "--", "00")
    decreases |a|
  {
    if a != [] {
      var s := a + t;
      assert !StartsWith(s, "--") by {
        assert s[0] == a[0] && IsDigit(a[0]);
      }
      assert s[1..] == a[1..] + t;
      ReplaceDashesInDigits(a[1..], t);
      assert Replace(s, "--", "00") == [s[0]] + Replace(s[1..], "--", "00");
      assert a == [a[0]] + a[1..];
    } else {
      assert a + t == t;
    }
  }

  /** The digit group `12--34` of a price token reads as `120034`. */
  lemma DashesBecomeZeros(a: string, b: string)
    requires AllDigits(a) && AllDigits(b)
    ensures Replace(a, "--", "00") == a
    ensures Replace(a + "--" + b, "--", "00") == a + "00" + b
  {
    ReplaceDashesInDigits(a, []);
    assert a + [] == a;
    ReplaceDashesInDigits(a, "--" + b);
    assert a + "--" + b == a + ("--" + b);
    ReplaceDashesInDigits(b, []);
    assert b + [] == b;
    assert ("--" + b)[2..] == b;
  }

  function Pow10(n: nat): (p: nat)
    ensures p >= 1
  {
    if n == 0 then 1 else 10 * Pow10(n - 1)
  }

  /** Python's `int(s)` on a string of ASCII digits (leading zeros allowed). */
  function DigitsValue(s: string): nat
    requires AllDigits(s)
    decreases |s|
  {
    if s == [] then 0 else 10 * DigitsValue(s[..|s| - 1]) + (s[|s| - 1] as int - '0' as int)
  }

  /** A digit string of length n denotes less than 10^n. */
  lemma {:induction false} DigitsValueBound(s: string)
    requires AllDigits(s)
    ensures DigitsValue(s) < Pow10(|s|)
    decreases |s|
  {
    if s != [] {
      DigitsValueBound(s[..|s| - 1]);
    }
  }

  /** Read from the left, the first digit is worth its place value `10^(n-1)`. */
  lemma {:induction false} DigitsValueFromLeft(s: string)
    requires AllDigits(s) && s != []
    ensures DigitsValue(s) == (s[0] as int - '0' as int) * Pow10(|s| - 1) + DigitsValue(s[1..])
    decreases |s|
  {
    if |s| > 1 {
      var t, u := s[..|s| - 1], s[1..];
      var d, c := s[0] as int - '0' as int, s[|s| - 1] as int - '0' as int;
      var p := Pow10(|s| - 2);
      DigitsValueFromLeft(t);
      assert t[0] == s[0] && |t| - 1 == |s| - 2;
      assert DigitsValue(t) == d * p + DigitsValue(t[1..]);
      assert u[..|u| - 1] == t[1..] && u[|u| - 1] == s[|s| - 1];
      assert DigitsValue(u) == 10 * DigitsValue(t[1..]) + c;
      assert DigitsValue(s) == 10 * DigitsValue(t) + c;
      assert Pow10(|s| - 1) == 10 * p;
      ScaleByTen(d, p);
    } else {
      assert s[1..] == [];
    }
  }

  /** Ten times a digit's place value is the digit times the next place value. */
  lemma ScaleByTen(d: int, p: int)
    ensures 10 * (d * p) == d * (10 * p)
  {
  }

  /**
   * Python's `float(s)` on a string of digits and dots, the only strings the
   * formatter's patterns hand to it: valid when there is at most one dot and
   * at least one digit; `None` stands for the ValueError.
   */
  function ParseDecimal(s: string): (r: Option<real>)
    ensures r.Some? ==> r.value >= 0.0
  {
    var n := RunFrom(s, 0, IsDigit);
    if n == |s| then
      if n == 0 then None else Some(DigitsValue(s) as real)
    else if s[n] != '.' then None
    else
      var frac := s[n + 1..];
      if !AllDigits(frac) || (n == 0 && frac == []) then None
      else Some(DecimalValue(s[..n], frac))
  }

  /** The number written `whole.frac`. */
  function DecimalValue(whole: string, frac: string): (v: real)
    requires AllDigits(whole) && AllDigits(frac)
    ensures v >= 0.0
  {
    DigitsValue(whole) as real + DigitsValue(frac) as real / Pow10(|frac|) as real
  }

  /** A non-empty digit string parses to its integer value. */
  lemma ParseDecimalOfDigits(s: string)
    requires s != [] && AllDigits(s)
    ensures ParseDecimal(s) == Some(DigitsValue(s) as real)
  {
  }

  /**
   * One dot with at least one digit beside it: `float()` gives the integer
   * part plus the fraction, as in `Sub:2.5x` or `(10.5%)`.
   */
  lemma ParseDecimalOneDot(a: string, b: string)
    requires AllDigits(a) && AllDigits(b) && (a != [] || b != [])
    ensures ParseDecimal(a + "." + b) == Some(DecimalValue(a, b))
  {
    var s := a + "." + b;
    assert forall k :: 0 <= k < |a| ==> s[k] == a[k];
    DigitRunEnds(s, |a|);
    var n := RunFrom(s, 0, IsDigit);
    assert n != |s| && s[n] == '.';
    assert s[..n] == a && s[n + 1..] == b;
    assert AllDigits(s[n + 1..]) && !(n == 0 && s[n + 1..] == []);
  }

  /** A run of `n` characters satisfying `p`, ended by the text or by one that does not, is the run at `i`. */
  lemma RunEndsAt(s: string, i: nat, n: nat, p: char -> bool)
    requires i + n <= |s| && forall k :: i <= k < i + n ==> p(s[k])
    requires i + n < |s| ==> !p(s[i + n])
    ensures RunFrom(s, i, p) == n
  {
    var r := RunFrom(s, i, p);
  }

  /** The leading digit run ends at the first character that is not a digit. */
  lemma DigitRunEnds(s: string, n: nat)
    requires n < |s| && (forall k :: 0 <= k < n ==> IsDigit(s[k])) && !IsDigit(s[n])
    ensures RunFrom(s, 0, IsDigit) == n
  {
    var r := RunFrom(s, 0, IsDigit);
    assert r <= n;
  }

  /** A text of dots alone, the empty text included, makes `float()` raise. */
  lemma ParseDecimalNoDigits(s: string)
    requires forall k :: 0 <= k < |s| ==> s[k] == '.'
    ensures ParseDecimal(s) == None
  {
    if s != [] {
      var n := RunFrom(s, 0, IsDigit);
      assert !IsDigit(s[0]);
      assert n == 0;
      if |s| > 1 {
        assert s[1..][0] == '.';
      }
    }
  }

  /** A digit-and-dot string with two dots makes `float()` raise. */
  lemma ParseDecimalTwoDots(s: string, i: nat, j: nat)
    requires i < j < |s| && s[i] == '.' && s[j] == '.'
    ensures ParseDecimal(s) == None
  {
    var n := RunFrom(s, 0, IsDigit);
    assert !IsDigit(s[i]);
    assert n <= i;
    if s[n] == '.' {
      assert s[n + 1..][j - n - 1] == s[j];
    }
  }

  lemma ParseDecimalExamples()
    ensures ParseDecimal("2.5") == Some(2.5)
    ensures ParseDecimal("10.5") == Some(10.5)
    ensures ParseDecimal(".5") == Some(0.5)
    ensures ParseDecimal("7.") == Some(7.0)
    ensures ParseDecimal(".") == None
  {
    assert RunFrom("2.5", 0, IsDigit) == 1;
    assert "2.5"[..1] == "2" && "2.5"[2..] == "5";
    assert RunFrom("10.5", 0, IsDigit) == 2;
    assert "10.5"[..2] == "10" && "10.5"[3..] == "5";
    assert DigitsValue("10") == 10 by { assert "10"[..1] == "1"; }
    assert RunFrom(".5", 0, IsDigit) == 0;
    assert ".5"[1..] == "5";
    assert RunFrom("7.", 0, IsDigit) == 1;
    assert "7."[..1] == "7";
    assert RunFrom(".", 0, IsDigit) == 0;
  }
}
