/**
 * `calculate_price_discrepancy`: the mean of the positive prices, the largest deviation
 * from that mean relative to it, and whether that deviation exceeds the 10% tolerance.
 */
module Discrepancy {

  /** Prices that disagree by more than this fraction of their mean are flagged. */
  const PriceTolerance: real := 0.10

  /** The positive prices, in order (`[p for p in prices if p > 0]`). */
  function Positives(prices: seq<real>): (r: seq<real>)
    ensures |r| <= |prices|
    ensures forall i :: 0 <= i < |r| ==> r[i] > 0.0
  {
    if prices == [] then []
    else
      var r := Positives(prices[..|prices| - 1]);
      if prices[|prices| - 1] > 0.0 then r + [prices[|prices| - 1]] else r
  }

  lemma PositivesSnoc(prices: seq<real>, p: real)
    ensures Positives(prices + [p]) == Positives(prices) + (if p > 0.0 then [p] else [])
  {
    assert (prices + [p])[..|prices|] == prices;
  }

  /** Filtering distributes over concatenation. */
  lemma {:induction false} PositivesConcat(a: seq<real>, b: seq<real>)
    ensures Positives(a + b) == Positives(a) + Positives(b)
  {
    if b != [] {
      var init := b[..|b| - 1];
      var last := b[|b| - 1];
      assert b == init + [last];
      assert a + b == (a + init) + [last];
      PositivesConcat(a, init);
      PositivesSnoc(a + init, last);
      PositivesSnoc(init, last);
    } else {
      assert a + b == a;
    }
  }

  /** Positive prices pass the filter unchanged. */
  lemma {:induction false} PositivesOfPositives(prices: seq<real>)
    requires forall i :: 0 <= i < |prices| ==> prices[i] > 0.0
    ensures Positives(prices) == prices
  {
    if prices != [] {
      PositivesOfPositives(prices[..|prices| - 1]);
      assert prices == prices[..|prices| - 1] + [prices[|prices| - 1]];
    }
  }

  function Sum(xs: seq<real>): real {
    if xs == [] then 0.0 else xs[0] + Sum(xs[1..])
  }

  lemma {:induction false} SumPositive(xs: seq<real>)
    requires xs != []
    requires forall i :: 0 <= i < |xs| ==> xs[i] > 0.0
    ensures Sum(xs) > 0.0
  {
    if |xs| > 1 {
      SumPositive(xs[1..]);
    }
  }

  /** `abs(x)`. */
  function Abs(x: real): real { if x < 0.0 then -x else x }

  /** `abs(p - avg) / avg`. */
  function RelDev(p: real, avg: real): real
    requires avg != 0.0
  {
    Abs(p - avg) / avg
  }

  /** `max(abs(p - avg) / avg for p in prices)`. */
  function MaxRelDev(prices: seq<real>, avg: real): (m: real)
    requires prices != [] && avg != 0.0
    ensures forall i :: 0 <= i < |prices| ==> RelDev(prices[i], avg) <= m
    ensures exists i :: 0 <= i < |prices| && RelDev(prices[i], avg) == m
  {
    if |prices| == 1 then RelDev(prices[0], avg)
    else
      var rest := MaxRelDev(prices[1..], avg);
      assert forall i :: 1 <= i < |prices| ==> prices[i] == prices[1..][i - 1];
      if RelDev(prices[0], avg) >= rest then RelDev(prices[0], avg) else rest
  }

  /** `(average_price, max_deviation_percent, has_discrepancy)`. */
  datatype PriceCheck = PriceCheck(average: real, deviationPercent: real, flagged: bool)

  /**
   * `calculate_price_discrepancy`. The source also returns the zero result when the
   * mean is 0, which cannot happen for a non-empty list of positive prices
   * (`MeanOfPositivesIsPositive`); the branch is kept as written.
   */
  function CalculatePriceDiscrepancy(prices: seq<real>): (d: PriceCheck)
    ensures Positives(prices) == [] ==> d == PriceCheck(0.0, 0.0, false)
    ensures Positives(prices) != [] ==> d.average == Sum(Positives(prices)) / (|Positives(prices)| as real)
    ensures d.flagged <==> d.deviationPercent > 100.0 * PriceTolerance
    ensures d.average != 0.0 ==>
      && (forall i :: 0 <= i < |Positives(prices)| ==> 100.0 * RelDev(Positives(prices)[i], d.average) <= d.deviationPercent)
      && (exists i :: 0 <= i < |Positives(prices)| && 100.0 * RelDev(Positives(prices)[i], d.average) == d.deviationPercent)
  {
    if prices == [] then PriceCheck(0.0, 0.0, false)
    else
      var valid := Positives(prices);
      if valid == [] then PriceCheck(0.0, 0.0, false)
      else
        var avg := Sum(valid) / (|valid| as real);
        if avg == 0.0 then PriceCheck(0.0, 0.0, false)
        else
          var m := MaxRelDev(valid, avg);
          PriceCheck(avg, m * 100.0, m > PriceTolerance)
  }

  /** The mean of a non-empty list of positive prices is positive, so the `avg == 0` branch is dead. */
  lemma MeanOfPositivesIsPositive(prices: seq<real>)
    requires Positives(prices) != []
    ensures CalculatePriceDiscrepancy(prices).average > 0.0
  {
    var valid := Positives(prices);
    SumPositive(valid);
    DivPositive(Sum(valid), |valid| as real);
  }

  lemma DivPositive(x: real, y: real)
    requires x > 0.0 && y > 0.0
    ensures x / y > 0.0
  {
  }

  /** The flag is raised exactly when some positive price is more than 10% away from the mean. */
  lemma FlagMeaning(prices: seq<real>)
    ensures var d := CalculatePriceDiscrepancy(prices);
      d.flagged <==>
        && Positives(prices) != []
        && d.average > 0.0
        && exists i :: 0 <= i < |Positives(prices)| && RelDev(Positives(prices)[i], d.average) > PriceTolerance
  {
    if Positives(prices) != [] {
      MeanOfPositivesIsPositive(prices);
    }
  }

  /** A flag needs at least two positive prices: one positive price never deviates from itself. */
  lemma FlagNeedsTwoPrices(prices: seq<real>)
    ensures CalculatePriceDiscrepancy(prices).flagged ==> |Positives(prices)| >= 2
  {
    var valid := Positives(prices);
    if |valid| == 1 {
      assert Sum(valid) == valid[0];
      assert RelDev(valid[0], valid[0]) == 0.0;
    }
  }

  /** Prices 10% away from their mean are tolerated; 11% are flagged; a zero price is ignored. */
  /** Without a positive price there is nothing to compare. */
  lemma NoPositivePrices()
    ensures CalculatePriceDiscrepancy([]) == PriceCheck(0.0, 0.0, false)
    ensures CalculatePriceDiscrepancy([0.0, 0.0]) == PriceCheck(0.0, 0.0, false)
  {
    assert [0.0, 0.0][..1] == [0.0];
    assert Positives([0.0, 0.0]) == [];
  }

  /** A deviation of exactly 10% is not flagged: the comparison is strict. */
  lemma ToleranceIsStrict()
    ensures CalculatePriceDiscrepancy([90.0, 110.0]) == PriceCheck(100.0, 10.0, false)
  {
    var v := [90.0, 110.0];
    assert v[1..] == [110.0];
    assert v[..1] == [90.0];
    assert Positives([90.0]) == [90.0];
    assert Positives(v) == v;
    assert Sum(v) == 200.0;
    assert RelDev(110.0, 100.0) == 0.1;
    assert RelDev(90.0, 100.0) == 0.1;
    assert MaxRelDev([110.0], 100.0) == 0.1;
    assert MaxRelDev(v, 100.0) == 0.1;
  }

  /** Just over 10% is flagged. */
  lemma OverToleranceFlagged()
    ensures CalculatePriceDiscrepancy([89.0, 111.0]) == PriceCheck(100.0, 11.0, true)
  {
    var v := [89.0, 111.0];
    assert v[1..] == [111.0];
    assert v[..1] == [89.0];
    assert Positives([89.0]) == [89.0];
    assert Positives(v) == v;
    assert Sum(v) == 200.0;
    assert RelDev(111.0, 100.0) == 0.11;
    assert RelDev(89.0, 100.0) == 0.11;
    assert MaxRelDev([111.0], 100.0) == 0.11;
    assert MaxRelDev(v, 100.0) == 0.11;
  }

  /** A zero price is left out of the mean: `[0, 100]` averages to 100 with no deviation. */
  lemma ZeroPriceLeftOut()
    ensures CalculatePriceDiscrepancy([0.0, 100.0]) == PriceCheck(100.0, 0.0, false)
  {
    var v := [0.0, 100.0];
    assert v[..1] == [0.0];
    assert Positives([0.0]) == [];
    assert Positives(v) == [100.0];
    assert Sum([100.0]) == 100.0;
    assert RelDev(100.0, 100.0) == 0.0;
    assert MaxRelDev([100.0], 100.0) == 0.0;
  }
}
