/**
 * `fill_missing_values` (backend/formatter.py): a pass over the table that
 * derives a missing grey-market premium from the price and the subscription,
 * and a missing price from the premium and the subscription.
 *
 * A missing cell is pandas NaN or, in a column that holds no value at all,
 * Python `None`. NaN is true and `None` is false. The model takes every
 * missing cell as true: a guard then lets a missing operand through, the
 * arithmetic yields NaN again and the cell stays missing, which is the same
 * table as when the guard stops it (`FalsyMissingSameRow`). Among numbers,
 * only `0.0` is false.
 */
module Filler {
  import opened Wrappers
  import opened Pricing
  import opened Formatter

  /** `bool(x)` for a float cell: NaN is true, only zero is false. */
  predicate Truthy(v: Option<real>) {
    v.None? || v.value != 0.0
  }

  /** A cell that holds a number other than zero. */
  predicate NonZero(v: Option<real>) {
    v.Some? && v.value != 0.0
  }

  /** `round(price * (subscription / 100), 2)` on cells: a missing operand gives a missing result. */
  function PremiumCell(price: Option<real>, sub: Option<real>): (r: Option<real>)
    ensures r.Some? <==> price.Some? && sub.Some?
    ensures r.Some? ==>
      PercentOf(price.value, sub.value) - 0.005 <= r.value <= PercentOf(price.value, sub.value) + 0.005
  {
    if price.Some? && sub.Some? then Some(Round2(PercentOf(price.value, sub.value))) else None
  }

  /** `gmp / (percentage / 100)`: the amount of which `gmp` is that percentage. */
  function WholeOf(gmp: real, percentage: real): (whole: real)
    requires percentage != 0.0
    ensures PercentOf(whole, percentage) == gmp
  {
    gmp / (percentage / 100.0)
  }

  /**
   * `round(gmp / (subscription / 100), 2)` on cells; the guard before it has
   * already ruled out a zero subscription.
   */
  function PriceCell(gmp: Option<real>, sub: Option<real>): (r: Option<real>)
    requires Truthy(sub)
    ensures r.Some? <==> gmp.Some? && sub.Some?
    ensures r.Some? ==>
      WholeOf(gmp.value, sub.value) - 0.005 <= r.value <= WholeOf(gmp.value, sub.value) + 0.005
  {
    if gmp.Some? && sub.Some? then Some(Round2(WholeOf(gmp.value, sub.value))) else None
  }

  /**
   * One iteration of the loop. Both guards read `row`, the copy taken before
   * the iteration, so a premium filled in by the first `if` does not feed
   * the second.
   */
  function FillRow(r: IpoRecord): (out: IpoRecord)
    ensures out == r.(gmp := out.gmp, price := out.price)
    ensures r.gmp.Some? ==> out.gmp == r.gmp
    ensures r.price.Some? ==> out.price == r.price
  {
    var gmp :=
      if r.gmp.None? && Truthy(r.subscription) && Truthy(r.price)
      then PremiumCell(r.price, r.subscription)
      else r.gmp;
    var price :=
      if r.price.None? && Truthy(r.gmp) && Truthy(r.subscription)
      then PriceCell(r.gmp, r.subscription)
      else r.price;
    r.(gmp := gmp, price := price)
  }

  /** One iteration when a missing cell counts as false, as a `None` cell does. */
  function FillRowFalsyMissing(r: IpoRecord): IpoRecord {
    var gmp :=
      if r.gmp.None? && NonZero(r.subscription) && NonZero(r.price)
      then PremiumCell(r.price, r.subscription)
      else r.gmp;
    var price :=
      if r.price.None? && NonZero(r.gmp) && NonZero(r.subscription)
      then PriceCell(r.gmp, r.subscription)
      else r.price;
    r.(gmp := gmp, price := price)
  }

  /** Whether a missing cell counts as true (NaN) or false (`None`) does not change the filled row. */
  lemma FalsyMissingSameRow(r: IpoRecord)
    ensures FillRowFalsyMissing(r) == FillRow(r)
  {
  }

  /** The table after the pass: every row filled on its own. */
  function FillTable(t: seq<IpoRecord>): (out: seq<IpoRecord>)
    ensures |out| == |t|
  {
    seq(|t|, k requires 0 <= k < |t| => FillRow(t[k]))
  }

  /** `fill_missing_values(df)`: the in-place pass over the rows of the table. */
  method FillMissingValues(table: array<IpoRecord>)
    modifies table
    ensures table[..] == FillTable(old(table[..]))
  {
    var i := 0;
    while i < table.Length
      invariant 0 <= i <= table.Length
      invariant forall k :: 0 <= k < i ==> table[k] == FillRow(old(table[k]))
      invariant forall k :: i <= k < table.Length ==> table[k] == old(table[k])
    {
      var row := table[i];
      table[i] := FillRow(row);
      i := i + 1;
    }
  }

  // ---- Properties of one row -------------------------------------------------

  /**
   * The premium is filled in exactly when it is missing and both the price
   * and the subscription are numbers other than zero, and then it is the
   * rounded premium of that price at that percentage.
   */
  lemma GmpFilledWhen(r: IpoRecord)
    ensures FillRow(r).gmp != r.gmp <==>
      r.gmp.None? && NonZero(r.price) && NonZero(r.subscription)
    ensures FillRow(r).gmp != r.gmp ==>
      FillRow(r).gmp == Some(Round2(PercentOf(r.price.value, r.subscription.value)))
  {
  }

  /**
   * The price is filled in exactly when it is missing and both the premium
   * and the subscription are numbers other than zero, and then it is the
   * rounded quotient of the premium by the percentage.
   */
  lemma PriceFilledWhen(r: IpoRecord)
    ensures FillRow(r).price != r.price <==>
      r.price.None? && NonZero(r.gmp) && NonZero(r.subscription)
    ensures FillRow(r).price != r.price ==>
      FillRow(r).price == Some(Round2(WholeOf(r.gmp.value, r.subscription.value)))
  {
  }

  /** A row never gets both cells filled: each fill needs the other cell present. */
  lemma AtMostOneCellFilled(r: IpoRecord)
    ensures FillRow(r).gmp == r.gmp || FillRow(r).price == r.price
  {
    GmpFilledWhen(r);
    PriceFilledWhen(r);
  }

  /**
   * With a subscription other than zero and either the price or the premium
   * a number other than zero, both cells are present after the pass.
   */
  lemma FillCompletes(r: IpoRecord)
    requires NonZero(r.subscription)
    requires NonZero(r.price) || NonZero(r.gmp)
    ensures FillRow(r).price.Some? && FillRow(r).gmp.Some?
  {
    GmpFilledWhen(r);
    PriceFilledWhen(r);
  }

  /** A second pass changes nothing. */
  lemma FillRowIdempotent(r: IpoRecord)
    ensures FillRow(FillRow(r)) == FillRow(r)
  {
    var once := FillRow(r);
    GmpFilledWhen(r);
    PriceFilledWhen(r);
    GmpFilledWhen(once);
    PriceFilledWhen(once);
  }

  /**
   * A premium filled in for an integral price is the one the parser computes
   * for that price and percentage.
   */
  lemma FilledGmpIsPremium(r: IpoRecord, price: nat)
    requires r.gmp.None? && r.price == Some(price as real) && price != 0
    requires NonZero(r.subscription)
    ensures FillRow(r).gmp == Some(Premium(price, r.subscription.value))
  {
    GmpFilledWhen(r);
  }

  /** Price 100 at 50%: the missing premium becomes 50. */
  lemma FillGmpExample(r: IpoRecord)
    requires r.price == Some(100.0) && r.subscription == Some(50.0) && r.gmp.None?
    ensures FillRow(r).gmp == Some(50.0) && FillRow(r).price == Some(100.0)
  {
    assert PercentOf(100.0, 50.0) == 50.0;
    assert RoundHalfEven(5000.0) == 5000;
  }

  /** Premium 50 at 50%: the missing price becomes 100. */
  lemma FillPriceExample(r: IpoRecord)
    requires r.gmp == Some(50.0) && r.subscription == Some(50.0) && r.price.None?
    ensures FillRow(r).price == Some(100.0) && FillRow(r).gmp == Some(50.0)
  {
    assert WholeOf(50.0, 50.0) == 100.0;
    assert RoundHalfEven(10000.0) == 10000;
  }

  // ---- Properties of the whole pass ------------------------------------------

  /** Every row of the table is filled on its own, and nothing but the two cells changes. */
  lemma FillTableRows(t: seq<IpoRecord>)
    ensures forall k :: 0 <= k < |t| ==>
      && FillTable(t)[k] == t[k].(gmp := FillTable(t)[k].gmp, price := FillTable(t)[k].price)
      && (t[k].gmp.Some? ==> FillTable(t)[k].gmp == t[k].gmp)
      && (t[k].price.Some? ==> FillTable(t)[k].price == t[k].price)
  {
  }

  /** Running the pass twice is the same as running it once. */
  lemma FillTableIdempotent(t: seq<IpoRecord>)
    ensures FillTable(FillTable(t)) == FillTable(t)
  {
    forall k | 0 <= k < |t|
      ensures FillTable(FillTable(t))[k] == FillTable(t)[k]
    {
      FillRowIdempotent(t[k]);
    }
  }

  /**
   * On a table returned by the parser, where every price is present, the pass
   * never touches a price and fills a premium only where it was missing and
   * the subscription is a number other than zero.
   */
  lemma FillParsedTable(t: seq<IpoRecord>, currentYear: int)
    requires forall k :: 0 <= k < |t| ==> ValidRecord(t[k], currentYear)
    ensures forall k :: 0 <= k < |t| ==>
      && FillTable(t)[k].price == t[k].price
      && (FillTable(t)[k].gmp != t[k].gmp <==> t[k].gmp.None? && NonZero(t[k].subscription))
  {
    forall k | 0 <= k < |t|
      ensures FillTable(t)[k].price == t[k].price
      ensures FillTable(t)[k].gmp != t[k].gmp <==> t[k].gmp.None? && NonZero(t[k].subscription)
    {
      GmpFilledWhen(t[k]);
      assert t[k].price.value != 0.0;
    }
  }
}
