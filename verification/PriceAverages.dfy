/** When the reported average, a mean over distinct price texts, is the mean of the ticks. */
module PriceAverages {
  import opened Market
  import opened Store
  import opened CacheLog
  import opened Cache
  import opened CacheRefinement
  import opened PriceQueries
  import opened Rounding
  import PriceStats

  // ---------------------------------------------------------------- the ticks of a window

  /** The ticks scored in the window, in writing order. */
  function WindowTicks(ticks: seq<MarketData>, lo: real, hi: real): seq<MarketData> {
    if ticks == [] then []
    else
      var n := |ticks| - 1;
      WindowTicks(ticks[..n], lo, hi) + if InWindow(ticks[n], lo, hi) then [ticks[n]] else []
  }

  /** How many ticks carry a price text. */
  function CountOf(ticks: seq<MarketData>, m: Member): nat {
    if ticks == [] then 0
    else CountOf(ticks[..|ticks| - 1], m) + if FormatPrice(ticks[|ticks| - 1].price) == m then 1 else 0
  }

  /** The sum of the stored prices of all ticks. */
  function StoredTotal(ticks: seq<MarketData>): real {
    if ticks == [] then 0.0 else StoredTotal(ticks[..|ticks| - 1]) + StoredPrice(ticks[|ticks| - 1].price)
  }

  /** a is the rounded mean of the stored prices of all ticks. */
  ghost predicate IsTickMean(ticks: seq<MarketData>, a: real) {
    ticks != [] && a == RoundTo(StoredTotal(ticks) / |ticks| as real, Cents)
  }

  /** The ticks carry the given distinct texts and no others, each as often as its count says. */
  ghost predicate Tally(ticks: seq<MarketData>, texts: seq<Member>, counts: seq<nat>) {
    && |texts| == |counts|
    && (forall i, j :: 0 <= i < j < |texts| ==> texts[i] != texts[j])
    && (forall i :: 0 <= i < |texts| ==> CountOf(ticks, texts[i]) == counts[i])
    && (forall m :: CountOf(ticks, m) > 0 ==> m in texts)
  }

  lemma {:induction false} LoggedIsCounted(ticks: seq<MarketData>, lo: real, hi: real, m: Member)
    ensures LoggedIn(ticks, lo, hi, m) <==> CountOf(WindowTicks(ticks, lo, hi), m) > 0
  {
    hide FormatPrice, Score;
    if ticks != [] {
      var n := |ticks| - 1;
      var before := WindowTicks(ticks[..n], lo, hi);
      LoggedIsCounted(ticks[..n], lo, hi, m);
      assert (before + [ticks[n]])[..|before|] == before && before + [] == before;
      LoggedOneMore(ticks, lo, hi, m);
      hide LoggedIn;
    }
  }

  lemma LoggedOneMore(ticks: seq<MarketData>, lo: real, hi: real, m: Member)
    requires ticks != []
    ensures
      var n := |ticks| - 1;
      LoggedIn(ticks, lo, hi, m) <==>
      LoggedIn(ticks[..n], lo, hi, m) || (FormatPrice(ticks[n].price) == m && InWindow(ticks[n], lo, hi))
  {
    hide FormatPrice, Score;
    var n := |ticks| - 1;
    if LoggedIn(ticks[..n], lo, hi, m) {
      var i :| 0 <= i < n && FormatPrice(ticks[..n][i].price) == m && lo <= Score(ticks[..n][i]) <= hi;
      assert ticks[i] == ticks[..n][i];
    }
    if i :| 0 <= i < n && FormatPrice(ticks[i].price) == m && lo <= Score(ticks[i]) <= hi {
      assert ticks[i] == ticks[..n][i];
    }
  }

  // ---------------------------------------------------------------- counting by text

  function SumOf(counts: seq<nat>): nat {
    if counts == [] then 0 else SumOf(counts[..|counts| - 1]) + counts[|counts| - 1]
  }

  function Weighted(texts: seq<Member>, counts: seq<nat>): real
    requires |texts| == |counts|
  {
    if texts == [] then 0.0
    else
      var n := |texts| - 1;
      Weighted(texts[..n], counts[..n]) + counts[n] as real * ParsePrice(texts[n])
  }

  lemma {:induction false} OneLess(texts: seq<Member>, counts: seq<nat>, i: nat)
    requires |texts| == |counts| && i < |counts| && counts[i] > 0
    ensures SumOf(counts[i := counts[i] - 1]) + 1 == SumOf(counts)
    ensures Weighted(texts, counts[i := counts[i] - 1]) + ParsePrice(texts[i]) == Weighted(texts, counts)
  {
    hide ParsePrice;
    var n := |counts| - 1;
    var less := counts[i := counts[i] - 1];
    if i < n {
      OneLess(texts[..n], counts[..n], i);
      assert less[..n] == counts[..n][i := counts[i] - 1];
    } else {
      assert less[..n] == counts[..n];
      assert (counts[n] - 1) as real * ParsePrice(texts[n]) + ParsePrice(texts[n]) ==
        counts[n] as real * ParsePrice(texts[n]);
    }
  }

  lemma {:induction false} AllZero(texts: seq<Member>, counts: seq<nat>)
    requires |texts| == |counts| && forall i :: 0 <= i < |counts| ==> counts[i] == 0
    ensures SumOf(counts) == 0 && Weighted(texts, counts) == 0.0
  {
    hide ParsePrice;
    if texts != [] {
      AllZero(texts[..|texts| - 1], counts[..|counts| - 1]);
    }
  }

  /** The ticks' total is the texts' prices weighted with their counts. */
  lemma {:induction false} TotalByText(ticks: seq<MarketData>, texts: seq<Member>, counts: seq<nat>)
    requires Tally(ticks, texts, counts)
    ensures |ticks| == SumOf(counts) && StoredTotal(ticks) == Weighted(texts, counts)
  {
    hide FormatPrice, ParsePrice;
    if ticks == [] {
      AllZero(texts, counts);
    } else {
      var n := |ticks| - 1;
      var m := FormatPrice(ticks[n].price);
      assert CountOf(ticks, m) > 0;
      var i :| 0 <= i < |texts| && texts[i] == m;
      var less := counts[i := counts[i] - 1];
      assert Tally(ticks[..n], texts, less) by {
        assert forall m' :: CountOf(ticks[..n], m') > 0 ==> CountOf(ticks, m') > 0;
      }
      TotalByText(ticks[..n], texts, less);
      OneLess(texts, counts, i);
    }
  }

  // ---------------------------------------------------------------- equal counts

  predicate AllEqual(counts: seq<nat>) {
    forall i :: 0 <= i < |counts| ==> counts[i] == counts[0]
  }

  lemma {:induction false} EvenlyWeighted(texts: seq<Member>, counts: seq<nat>, c: nat)
    requires |texts| == |counts| && forall i :: 0 <= i < |counts| ==> counts[i] == c
    ensures SumOf(counts) == c * |counts| && Weighted(texts, counts) == c as real * TextTotal(texts)
  {
    hide ParsePrice;
    if texts != [] {
      var n := |texts| - 1;
      EvenlyWeighted(texts[..n], counts[..n], c);
      assert c as real * (TextTotal(texts[..n]) + ParsePrice(texts[n])) ==
        c as real * TextTotal(texts[..n]) + c as real * ParsePrice(texts[n]);
    }
  }

  lemma SameQuotient(w: real, s: real, c: real, x: real, n: real)
    requires c > 0.0 && n > 0.0 && w == c * x && s == c * n
    ensures s > 0.0 && w / s == x / n
  {
    var q := x / n;
    assert w == q * s;
  }

  /** When every logged text was logged equally often, the reported average is the mean of the ticks. */
  lemma EqualCountsAgree(ticks: seq<MarketData>, lo: real, hi: real, texts: seq<Member>, counts: seq<nat>, a: real)
    requires Tally(WindowTicks(ticks, lo, hi), texts, counts) && AverageLogged(ticks, lo, hi, a)
    requires AllEqual(counts)
    ensures IsTickMean(WindowTicks(ticks, lo, hi), a)
  {
    var window := WindowTicks(ticks, lo, hi);
    var listed :| ListsLogged(ticks, lo, hi, listed) && listed != [] && a == RoundedMean(listed);
    TalliedIsListed(ticks, lo, hi, texts, counts, listed);
    hide FormatPrice, ParsePrice, RoundTo, WindowTicks, ListsLogged, TextTotal, Weighted, SumOf, StoredTotal;
    TotalByText(window, texts, counts);
    TotalIgnoresOrder(listed, texts);
    EvenMean(texts, counts, counts[0]);
  }

  lemma EvenMean(texts: seq<Member>, counts: seq<nat>, c: nat)
    requires |texts| == |counts| && texts != [] && c > 0 && forall i :: 0 <= i < |counts| ==> counts[i] == c
    ensures SumOf(counts) > 0 && Weighted(texts, counts) / SumOf(counts) as real == TextTotal(texts) / |texts| as real
  {
    hide *;
    EvenlyWeighted(texts, counts, c);
    EvenQuotient(Weighted(texts, counts), SumOf(counts), c, TextTotal(texts), |texts|);
  }

  lemma EvenQuotient(w: real, sum: nat, c: nat, t: real, n: nat)
    requires c > 0 && n > 0 && w == c as real * t && sum == c * n
    ensures sum > 0 && w / sum as real == t / n as real
  {
    RealProduct(c, n);
    SameQuotient(w, sum as real, c as real, t, n as real);
  }

  lemma {:induction false} RealProduct(a: nat, b: nat)
    ensures (a * b) as real == a as real * b as real
  {
    if a > 0 {
      RealProduct(a - 1, b);
      assert a * b == (a - 1) * b + b;
      assert a as real * b as real == (a - 1) as real * b as real + b as real;
    }
  }

  lemma TalliedIsListed(ticks: seq<MarketData>, lo: real, hi: real, texts: seq<Member>, counts: seq<nat>,
                        listed: seq<Member>)
    requires Tally(WindowTicks(ticks, lo, hi), texts, counts) && ListsLogged(ticks, lo, hi, listed) && listed != []
    requires AllEqual(counts)
    ensures texts != [] && counts[0] > 0
    ensures forall i, j :: 0 <= i < j < |listed| ==> listed[i] != listed[j]
    ensures forall m :: m in listed <==> m in texts
  {
    hide WindowTicks, CountOf, LoggedIn;
    forall m
      ensures LoggedIn(ticks, lo, hi, m) <==> CountOf(WindowTicks(ticks, lo, hi), m) > 0
    {
      LoggedIsCounted(ticks, lo, hi, m);
    }
    assert listed[0] in listed;
    var i :| 0 <= i < |texts| && texts[i] == listed[0];
    assert counts[i] > 0;
  }

  // ---------------------------------------------------------------- unequal counts

  /** Whatever the prices, ticks with these counts are averaged correctly. */
  ghost predicate CountsAgree(counts: seq<nat>) {
    forall ticks: seq<MarketData>, lo: real, hi: real, texts: seq<Member>, a: real ::
      Tally(WindowTicks(ticks, lo, hi), texts, counts) && AverageLogged(ticks, lo, hi, a) ==>
        IsTickMean(WindowTicks(ticks, lo, hi), a)
  }

  lemma {:induction false} SumAtMost(counts: seq<nat>, most: nat)
    requires forall i :: 0 <= i < |counts| ==> counts[i] <= most
    ensures SumOf(counts) <= most * |counts|
    ensures (exists i :: 0 <= i < |counts| && counts[i] < most) ==> SumOf(counts) < most * |counts|
  {
    if counts != [] {
      var n := |counts| - 1;
      SumAtMost(counts[..n], most);
      assert most * |counts| == most * n + most;
      if i :| 0 <= i < n && counts[i] < most {
        assert counts[..n][i] < most;
      }
    }
  }

  lemma {:induction false} MostCounted(counts: seq<nat>) returns (a: nat)
    requires counts != []
    ensures a < |counts| && forall i :: 0 <= i < |counts| ==> counts[i] <= counts[a]
  {
    var n := |counts| - 1;
    a := n;
    if n > 0 {
      var b := MostCounted(counts[..n]);
      assert forall i :: 0 <= i < n ==> counts[i] == counts[..n][i];
      if counts[b] > counts[n] {
        a := b;
      }
    }
  }

  /** Unless all counts are equal, one is above their mean. */
  lemma AboveMean(counts: seq<nat>) returns (a: nat)
    requires !AllEqual(counts)
    ensures a < |counts| && SumOf(counts) < counts[a] * |counts|
  {
    a := MostCounted(counts);
    var i :| 0 <= i < |counts| && counts[i] != counts[0];
    assert counts[i] < counts[a] || counts[0] < counts[a];
    SumAtMost(counts, counts[a]);
  }

  // ticks at whole prices

  function WholeText(price: nat): Member {
    Member(false, 1000000 * price)
  }

  lemma FormatWhole(price: nat)
    ensures FormatPrice(price as real) == WholeText(price) && ParsePrice(WholeText(price)) == price as real
  {
    var x := price as real * 1000000.0;
    assert x == (1000000 * price) as real;
    assert x.Floor == 1000000 * price;
  }

  function Copies(price: nat, count: nat): seq<MarketData> {
    if count == 0 then [] else Copies(price, count - 1) + [MarketData("", price as real, 1000, "")]
  }

  /** Each price quoted as often as its count says. */
  function Quotes(prices: seq<nat>, counts: seq<nat>): seq<MarketData>
    requires |prices| == |counts|
  {
    if prices == [] then []
    else
      var n := |prices| - 1;
      Quotes(prices[..n], counts[..n]) + Copies(prices[n], counts[n])
  }

  function Texts(prices: seq<nat>): seq<Member> {
    seq(|prices|, i requires 0 <= i < |prices| => WholeText(prices[i]))
  }

  lemma {:induction false} CountConcat(a: seq<MarketData>, b: seq<MarketData>, m: Member)
    ensures CountOf(a + b, m) == CountOf(a, m) + CountOf(b, m)
  {
    hide FormatPrice;
    if b == [] {
      assert a + b == a;
    } else {
      CountConcat(a, b[..|b| - 1], m);
      assert (a + b)[..|a + b| - 1] == a + b[..|b| - 1];
    }
  }

  lemma {:induction false} CopiesCounted(price: nat, count: nat, m: Member)
    ensures CountOf(Copies(price, count), m) == if m == WholeText(price) then count else 0
  {
    FormatWhole(price);
    hide FormatPrice, WholeText;
    if count > 0 {
      CopiesCounted(price, count - 1, m);
      assert Copies(price, count)[..|Copies(price, count)| - 1] == Copies(price, count - 1);
    }
  }

  lemma {:induction false} QuotesCounted(prices: seq<nat>, counts: seq<nat>, m: Member)
    requires |prices| == |counts| && forall i, j :: 0 <= i < j < |prices| ==> prices[i] != prices[j]
    ensures forall i :: 0 <= i < |prices| && m == WholeText(prices[i]) ==>
      CountOf(Quotes(prices, counts), m) == counts[i]
    ensures m !in Texts(prices) ==> CountOf(Quotes(prices, counts), m) == 0
  {
    if prices != [] {
      var n := |prices| - 1;
      QuotesCounted(prices[..n], counts[..n], m);
      CountConcat(Quotes(prices[..n], counts[..n]), Copies(prices[n], counts[n]), m);
      CopiesCounted(prices[n], counts[n], m);
      assert Texts(prices) == Texts(prices[..n]) + [WholeText(prices[n])];
      if m == WholeText(prices[n]) {
        assert m !in Texts(prices[..n]);
      }
    }
  }

  lemma {:induction false} AllInWindow(prices: seq<nat>, counts: seq<nat>)
    requires |prices| == |counts|
    ensures forall t :: t in Quotes(prices, counts) ==> InWindow(t, 1000.0, 1000.0)
  {
    if prices != [] {
      var n := |prices| - 1;
      AllInWindow(prices[..n], counts[..n]);
      CopiesInWindow(prices[n], counts[n]);
    }
  }

  lemma {:induction false} CopiesInWindow(price: nat, count: nat)
    ensures forall t :: t in Copies(price, count) ==> InWindow(t, 1000.0, 1000.0)
  {
    if count > 0 {
      CopiesInWindow(price, count - 1);
    }
  }

  lemma {:induction false} WholeWindow(ticks: seq<MarketData>, lo: real, hi: real)
    requires forall t :: t in ticks ==> InWindow(t, lo, hi)
    ensures WindowTicks(ticks, lo, hi) == ticks
  {
    hide InWindow;
    if ticks != [] {
      WholeWindow(ticks[..|ticks| - 1], lo, hi);
    }
  }

  function PlainSum(prices: seq<nat>): nat {
    if prices == [] then 0 else PlainSum(prices[..|prices| - 1]) + prices[|prices| - 1]
  }

  function WeightedSum(prices: seq<nat>, counts: seq<nat>): nat
    requires |prices| == |counts|
  {
    if prices == [] then 0
    else
      var n := |prices| - 1;
      WeightedSum(prices[..n], counts[..n]) + counts[n] * prices[n]
  }

  lemma {:induction false} WholeTotals(prices: seq<nat>, counts: seq<nat>)
    requires |prices| == |counts|
    ensures TextTotal(Texts(prices)) == PlainSum(prices) as real
    ensures Weighted(Texts(prices), counts) == WeightedSum(prices, counts) as real
  {
    if prices != [] {
      var n := |prices| - 1;
      WholeTotals(prices[..n], counts[..n]);
      FormatWhole(prices[n]);
      assert Texts(prices)[..n] == Texts(prices[..n]);
    }
  }

  /** Raising one price raises both sums, the weighted one by its count. */
  lemma {:induction false} RaiseOne(prices: seq<nat>, counts: seq<nat>, a: nat, x: nat)
    requires |prices| == |counts| && a < |prices|
    ensures PlainSum(prices[a := x]) + prices[a] == PlainSum(prices) + x
    ensures WeightedSum(prices[a := x], counts) >= counts[a] * x
  {
    var n := |prices| - 1;
    if a < n {
      RaiseOne(prices[..n], counts[..n], a, x);
      assert prices[a := x][..n] == prices[..n][a := x];
    } else {
      assert prices[a := x][..n] == prices[..n];
    }
  }

  lemma ProductAtMost(a: nat, b: nat, c: nat)
    requires b <= c
    ensures a * b <= a * c
  {
  }

  /** A price far above the others pulls the weighted sum away from the plain one. */
  lemma SumsApart(plain: nat, weighted: nat, base: nat, x: nat, k: nat, n: nat, sum: nat)
    requires sum < k * n && plain <= base + x && weighted >= k * x && x >= sum * base + 2 * n * sum
    ensures n * weighted >= sum * plain + 2 * n * sum
  {
    ProductAtMost(n, k * x, weighted);
    assert n * (k * x) == (k * n) * x;
    ProductAtMost(x, sum + 1, k * n);
    assert x * (sum + 1) == sum * x + x;
    ProductAtMost(sum, plain, base + x);
    assert sum * (base + x) == sum * base + sum * x;
  }

  /** ... and with it the weighted mean from the plain one, by at least two units. */
  lemma MeansApart(plain: nat, weighted: nat, n: nat, sum: nat)
    requires n > 0 && sum > 0 && n * weighted >= sum * plain + 2 * n * sum
    ensures weighted as real / sum as real >= plain as real / n as real + 2.0
  {
    RealProduct(n, weighted);
    RealProduct(sum, plain);
    RealProduct(n, sum);
    assert 2 * n * sum == n * sum + n * sum;
    QuotientsApart(plain as real, weighted as real, n as real, sum as real);
  }

  lemma QuotientsApart(plain: real, weighted: real, n: real, s: real)
    requires n > 0.0 && s > 0.0 && n * weighted >= s * plain + n * s + n * s
    ensures weighted / s >= plain / n + 2.0
  {
    var p := PriceStats.Quotient(plain, n);
    var q := PriceStats.Quotient(weighted, s);
    CrossMultiplied(plain, weighted, p, q, n, s);
  }

  lemma CrossMultiplied(plain: real, weighted: real, p: real, q: real, n: real, s: real)
    requires n > 0.0 && s > 0.0 && n * weighted >= s * plain + n * s + n * s
    requires p * n == plain && q * s == weighted
    ensures q >= p + 2.0
  {
    Reordered(weighted, q, s, n);
    Reordered(plain, p, n, s);
    assert s * n == n * s;
    Distributed(n * s, q, p);
    PositiveFactor(n * s, q - p - 2.0);
  }

  lemma Reordered(w: real, q: real, s: real, n: real)
    requires q * s == w
    ensures n * w == (n * s) * q
  {
  }

  lemma Distributed(a: real, q: real, p: real)
    ensures a * (q - p - 2.0) == a * q - a * p - a - a
  {
  }

  lemma PositiveFactor(a: real, d: real)
    requires a > 0.0 && a * d >= 0.0
    ensures d >= 0.0
  {
  }

  lemma RoundedApart(p: real, q: real)
    requires q >= p + 2.0
    ensures RoundTo(p, Cents) != RoundTo(q, Cents)
  {
    RoundToNearest(p, Cents);
    RoundToNearest(q, Cents);
  }

  /** These quotes tally, all of them lie in the window, and their texts are what is logged in it. */
  lemma QuotesTally(prices: seq<nat>, counts: seq<nat>)
    requires |prices| == |counts| && forall i, j :: 0 <= i < j < |prices| ==> prices[i] != prices[j]
    requires forall i :: 0 <= i < |counts| ==> counts[i] > 0
    ensures WindowTicks(Quotes(prices, counts), 1000.0, 1000.0) == Quotes(prices, counts)
    ensures Tally(Quotes(prices, counts), Texts(prices), counts)
    ensures ListsLogged(Quotes(prices, counts), 1000.0, 1000.0, Texts(prices))
  {
    var ticks, texts := Quotes(prices, counts), Texts(prices);
    AllInWindow(prices, counts);
    WholeWindow(ticks, 1000.0, 1000.0);
    forall m
      ensures forall i :: 0 <= i < |prices| && m == texts[i] ==> CountOf(ticks, m) == counts[i]
      ensures m in texts <==> CountOf(ticks, m) > 0
      ensures LoggedIn(ticks, 1000.0, 1000.0, m) <==> CountOf(ticks, m) > 0
    {
      QuotesCounted(prices, counts, m);
      LoggedIsCounted(ticks, 1000.0, 1000.0, m);
    }
  }

  function FarAbove(sum: nat, base: nat, n: nat): nat {
    sum * base + 2 * n * sum
  }

  /** On such quotes the two means differ when one price is far above the others. */
  lemma QuotesDisagree(prices: seq<nat>, counts: seq<nat>, a: nat, base: nat, x: nat)
    requires |prices| == |counts| && forall i, j :: 0 <= i < j < |prices| ==> prices[i] != prices[j]
    requires forall i :: 0 <= i < |counts| ==> counts[i] > 0
    requires a < |counts| && SumOf(counts) < counts[a] * |counts|
    requires PlainSum(prices) <= base + x && WeightedSum(prices, counts) >= counts[a] * x
    requires x >= FarAbove(SumOf(counts), base, |counts|)
    ensures !CountsAgree(counts)
  {
    assert x >= SumOf(counts) * base + 2 * |counts| * SumOf(counts);
    var ticks, texts := Quotes(prices, counts), Texts(prices);
    QuotesTally(prices, counts);
    TotalByText(ticks, texts, counts);
    WholeTotals(prices, counts);
    hide Quotes, Texts, Tally, WindowTicks, PlainSum, WeightedSum, SumOf, ListsLogged, TextTotal, StoredTotal,
      CountOf, RoundTo;
    assert ticks != [] by {
      SomeCounted(ticks, texts, counts, a);
    }
    SumsApart(PlainSum(prices), WeightedSum(prices, counts), base, x, counts[a], |counts|, SumOf(counts));
    MeansApart(PlainSum(prices), WeightedSum(prices, counts), |counts|, SumOf(counts));
    RoundedApart(TextTotal(texts) / |texts| as real, StoredTotal(ticks) / |ticks| as real);
    assert AverageLogged(ticks, 1000.0, 1000.0, RoundedMean(texts));
    assert !IsTickMean(WindowTicks(ticks, 1000.0, 1000.0), RoundedMean(texts));
  }

  lemma SomeCounted(ticks: seq<MarketData>, texts: seq<Member>, counts: seq<nat>, i: nat)
    requires Tally(ticks, texts, counts) && i < |counts| && counts[i] > 0
    ensures ticks != []
  {
  }

  /** For counts that are not all equal there are prices for which the reported average is not the mean
      of the ticks, not even nearly. */
  lemma UnequalCountsDisagree(counts: seq<nat>)
    requires !AllEqual(counts) && forall i :: 0 <= i < |counts| ==> counts[i] > 0
    ensures !CountsAgree(counts)
  {
    var a := AboveMean(counts);
    var small := Upwards(|counts|);
    var x := FarAbove(SumOf(counts), PlainSum(small), |counts|) + |counts| + 1;
    RaiseOne(small, counts, a, x);
    RaisedDistinct(|counts|, a, x);
    assert |small| == |counts|;
    hide PlainSum, WeightedSum, SumOf, CountsAgree, Upwards, FarAbove, AllEqual;
    QuotesDisagree(small[a := x], counts, a, PlainSum(small), x);
  }

  /** The prices 1, 2, and so on. */
  function Upwards(n: nat): seq<nat> {
    seq(n, i requires 0 <= i < n => i + 1)
  }

  lemma RaisedDistinct(n: nat, a: nat, x: nat)
    requires a < n < x
    ensures
      var prices := Upwards(n)[a := x];
      forall i, j :: 0 <= i < j < |prices| ==> prices[i] != prices[j]
  {
  }

  /** The reported average is the mean of the ticks of its window, whatever their prices, exactly when
      every price text of the window was logged in it equally often. */
  lemma AverageIsTickMeanIff(counts: seq<nat>)
    requires forall i :: 0 <= i < |counts| ==> counts[i] > 0
    ensures CountsAgree(counts) <==> AllEqual(counts)
  {
    if AllEqual(counts) {
      forall ticks: seq<MarketData>, lo: real, hi: real, texts: seq<Member>, a: real |
        Tally(WindowTicks(ticks, lo, hi), texts, counts) && AverageLogged(ticks, lo, hi, a)
        ensures IsTickMean(WindowTicks(ticks, lo, hi), a)
      {
        EqualCountsAgree(ticks, lo, hi, texts, counts, a);
      }
    } else {
      UnequalCountsDisagree(counts);
    }
  }
}
