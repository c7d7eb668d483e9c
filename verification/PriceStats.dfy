/** Highest, lowest and rounded average of a list of prices (prices.go). */
module PriceStats {
  import opened Market
  import opened Rounding

  ghost predicate IsHighest(prices: seq<MarketData>, h: real) {
    && (exists i :: 0 <= i < |prices| && prices[i].price == h)
    && (forall i :: 0 <= i < |prices| ==> prices[i].price <= h)
  }

  ghost predicate IsLowest(prices: seq<MarketData>, l: real) {
    && (exists i :: 0 <= i < |prices| && prices[i].price == l)
    && (forall i :: 0 <= i < |prices| ==> l <= prices[i].price)
  }

  method FindHighestPrice(prices: seq<MarketData>) returns (highest: real)
    ensures prices == [] ==> highest == 0.0
    ensures prices != [] ==> IsHighest(prices, highest)
  {
    if |prices| == 0 {
      return 0.0;
    }
    highest := prices[0].price;
    for i := 1 to |prices|
      invariant IsHighest(prices[..i], highest)
    {
      if prices[i].price > highest {
        highest := prices[i].price;
        assert prices[..i + 1][i].price == highest;
      } else {
        var k :| 0 <= k < i && prices[..i][k].price == highest;
        assert prices[..i + 1][k].price == highest;
      }
      assert forall j :: 0 <= j < i ==> prices[..i + 1][j] == prices[..i][j];
    }
    assert prices[..|prices|] == prices;
  }

  method FindLowestPrice(prices: seq<MarketData>) returns (lowest: real)
    ensures prices == [] ==> lowest == 0.0
    ensures prices != [] ==> IsLowest(prices, lowest)
  {
    if |prices| == 0 {
      return 0.0;
    }
    lowest := prices[0].price;
    for i := 1 to |prices|
      invariant IsLowest(prices[..i], lowest)
    {
      if prices[i].price < lowest {
        lowest := prices[i].price;
        assert prices[..i + 1][i].price == lowest;
      } else {
        var k :| 0 <= k < i && prices[..i][k].price == lowest;
        assert prices[..i + 1][k].price == lowest;
      }
      assert forall j :: 0 <= j < i ==> prices[..i + 1][j] == prices[..i][j];
    }
    assert prices[..|prices|] == prices;
  }

  function Total(prices: seq<MarketData>): real {
    if prices == [] then 0.0 else Total(prices[..|prices| - 1]) + prices[|prices| - 1].price
  }

  function Mean(prices: seq<MarketData>): real
    requires prices != []
  {
    Total(prices) / |prices| as real
  }

  method CalculateAveragePrice(prices: seq<MarketData>) returns (average: real)
    ensures prices == [] ==> average == 0.0
    ensures prices != [] ==> average == RoundTo(Mean(prices), Cents)
  {
    if |prices| == 0 {
      return 0.0;
    }
    var sum := 0.0;
    for i := 0 to |prices|
      invariant sum == Total(prices[..i])
    {
      assert prices[..i + 1][..i] == prices[..i];
      sum := sum + prices[i].price;
    }
    assert prices[..|prices|] == prices;
    average := RoundTo(sum / |prices| as real, Cents);
  }

  /** The mean lies between any bounds of the list. */
  lemma {:induction false} TotalBounds(prices: seq<MarketData>, lo: real, hi: real)
    requires forall i :: 0 <= i < |prices| ==> lo <= prices[i].price <= hi
    ensures lo * |prices| as real <= Total(prices) <= hi * |prices| as real
  {
    if prices != [] {
      var n := |prices| - 1;
      TotalBounds(prices[..n], lo, hi);
      assert lo * (n + 1) as real == lo * n as real + lo;
      assert hi * (n + 1) as real == hi * n as real + hi;
    }
  }

  lemma DivideBetween(lo: real, total: real, hi: real, n: real)
    requires n > 0.0 && lo * n <= total <= hi * n
    ensures lo <= total / n <= hi
  {
  }

  lemma MeanBounds(prices: seq<MarketData>, lo: real, hi: real)
    requires prices != []
    requires forall i :: 0 <= i < |prices| ==> lo <= prices[i].price <= hi
    ensures lo <= Mean(prices) <= hi
  {
    TotalBounds(prices, lo, hi);
    DivideBetween(lo, Total(prices), hi, |prices| as real);
  }

  /** The reported average is within half a cent of the mean and lies between the cent-rounded
      lowest and highest price. */
  lemma AverageBetween(prices: seq<MarketData>, lo: real, hi: real, average: real)
    requires prices != [] && IsLowest(prices, lo) && IsHighest(prices, hi)
    requires average == RoundTo(Mean(prices), Cents)
    ensures -0.005 <= average - Mean(prices) <= 0.005
    ensures RoundTo(lo, Cents) <= average <= RoundTo(hi, Cents)
  {
    MeanBounds(prices, lo, hi);
    RoundToNearest(Mean(prices), Cents);
    RoundToMonotone(lo, Mean(prices), Cents);
    RoundToMonotone(Mean(prices), hi, Cents);
  }

  /** The average never exceeds the highest price, whatever the list, exactly when rounding the
      highest price to cents does not raise it. */
  lemma AverageAtMostHighestIff(hi: real)
    ensures
      (forall prices: seq<MarketData> :: prices != [] && IsHighest(prices, hi) ==> RoundTo(Mean(prices), Cents) <= hi)
      <==> RoundTo(hi, Cents) <= hi
  {
    var single := [MarketData("", hi, 0, "")];
    SingletonMean(single[0]);
    assert IsHighest(single, hi) by {
      assert single[0].price == hi;
    }
    if RoundTo(hi, Cents) <= hi {
      forall prices: seq<MarketData> | prices != [] && IsHighest(prices, hi)
        ensures RoundTo(Mean(prices), Cents) <= hi
      {
        var lo := AnyLowerBound(prices);
        MeanBounds(prices, lo, hi);
        RoundToMonotone(Mean(prices), hi, Cents);
      }
    }
  }

  /** Dually, it is never below the lowest price exactly when rounding does not lower that price. */
  lemma AverageAtLeastLowestIff(lo: real)
    ensures
      (forall prices: seq<MarketData> :: prices != [] && IsLowest(prices, lo) ==> lo <= RoundTo(Mean(prices), Cents))
      <==> lo <= RoundTo(lo, Cents)
  {
    var single := [MarketData("", lo, 0, "")];
    SingletonMean(single[0]);
    assert IsLowest(single, lo) by {
      assert single[0].price == lo;
    }
    if lo <= RoundTo(lo, Cents) {
      forall prices: seq<MarketData> | prices != [] && IsLowest(prices, lo)
        ensures lo <= RoundTo(Mean(prices), Cents)
      {
        var hi := AnyUpperBound(prices);
        MeanBounds(prices, lo, hi);
        RoundToMonotone(lo, Mean(prices), Cents);
      }
    }
  }

  /** A sub-cent price is reported as an average of zero, below the lowest price. */
  lemma SubCentAverageIsZero(d: MarketData)
    requires 0.0 < d.price < 0.005
    ensures RoundTo(Mean([d]), Cents) == 0.0 < d.price && IsLowest([d], d.price)
  {
    SingletonMean(d);
    assert Round(d.price * 100.0) == 0;
    assert [d][0].price == d.price;
  }

  lemma SingletonMean(d: MarketData)
    ensures Mean([d]) == d.price
  {
    assert [d][..0] == [];
    assert Total([d]) == d.price;
  }

  lemma {:induction false} AnyLowerBound(prices: seq<MarketData>) returns (lo: real)
    ensures forall i :: 0 <= i < |prices| ==> lo <= prices[i].price
  {
    if prices == [] {
      lo := 0.0;
    } else {
      var rest := AnyLowerBound(prices[1..]);
      lo := if rest <= prices[0].price then rest else prices[0].price;
      assert forall i :: 0 < i < |prices| ==> prices[i] == prices[1..][i - 1];
    }
  }

  lemma {:induction false} AnyUpperBound(prices: seq<MarketData>) returns (hi: real)
    ensures forall i :: 0 <= i < |prices| ==> prices[i].price <= hi
  {
    if prices == [] {
      hi := 0.0;
    } else {
      var rest := AnyUpperBound(prices[1..]);
      hi := if rest >= prices[0].price then rest else prices[0].price;
      assert forall i :: 0 < i < |prices| ==> prices[i] == prices[1..][i - 1];
    }
  }

  lemma {:induction false} TotalConcat(a: seq<MarketData>, b: seq<MarketData>)
    ensures Total(a + b) == Total(a) + Total(b)
  {
    if b == [] {
      assert a + b == a;
    } else {
      TotalConcat(a, b[..|b| - 1]);
      assert (a + b)[..|a + b| - 1] == a + b[..|b| - 1];
    }
  }

  lemma Quotient(x: real, n: real) returns (q: real)
    requires n > 0.0
    ensures q == x / n && q * n == x
  {
    q := x / n;
  }

  lemma QuotientTimes(total: real, n: real)
    requires n > 0.0
    ensures total / n * n == total
  {
  }
}
