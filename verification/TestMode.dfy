/** The synthetic exchange: tiered price rounding and the bounded random walk that several
    servers run over one shared symbol record (test-mode/main.go). */
module TestMode {
  import opened Rounding

  // ---------------------------------------------------------------- tiered rounding

  /** The decimal grid a price of this size is published on. */
  function Tier(price: real): Grid {
    if price > 1000.0 then Cents else if price > 10.0 then Mills else Micros
  }

  function RoundPrice(price: real): real {
    RoundTo(price, Tier(price))
  }

  /** Every grid contains its coarser neighbours, and both tier borders lie on all grids. */
  lemma GridsNest(x: real)
    ensures OnGrid(x, Cents) ==> OnGrid(x, Mills)
    ensures OnGrid(x, Mills) ==> OnGrid(x, Micros)
  {
    if OnGrid(x, Cents) {
      FloorOfInteger(x * 1000.0, 10 * (x * 100.0).Floor);
    }
    if OnGrid(x, Mills) {
      FloorOfInteger(x * 1000000.0, 1000 * (x * 1000.0).Floor);
    }
  }

  lemma BordersOnGrids()
    ensures forall g: Grid :: RoundTo(10.0, g) == 10.0 && RoundTo(1000.0, g) == 1000.0
  {
    forall g: Grid
      ensures RoundTo(10.0, g) == 10.0 && RoundTo(1000.0, g) == 1000.0
    {
      match g
      case Cents => assert Round(1000.0) == 1000 && Round(100000.0) == 100000;
      case Mills => assert Round(10000.0) == 10000 && Round(1000000.0) == 1000000;
      case Micros => assert Round(10000000.0) == 10000000 && Round(1000000000.0) == 1000000000;
    }
  }

  /** Rounding never leaves the closed price band of its tier. */
  lemma RoundingStaysInTier(p: real)
    ensures p > 1000.0 ==> RoundPrice(p) >= 1000.0
    ensures 10.0 < p <= 1000.0 ==> 10.0 <= RoundPrice(p) <= 1000.0
    ensures p <= 10.0 ==> RoundPrice(p) <= 10.0
  {
    BordersOnGrids();
    var g := Tier(p);
    if p > 1000.0 {
      RoundToMonotone(1000.0, p, g);
    } else if p > 10.0 {
      RoundToMonotone(10.0, p, g);
      RoundToMonotone(p, 1000.0, g);
    } else {
      RoundToMonotone(p, 10.0, g);
    }
  }

  lemma RoundPriceMonotone(p: real, q: real)
    requires p <= q
    ensures RoundPrice(p) <= RoundPrice(q)
  {
    if Tier(p) == Tier(q) {
      RoundToMonotone(p, q, Tier(p));
    } else {
      RoundingStaysInTier(p);
      RoundingStaysInTier(q);
    }
  }

  lemma RoundPriceIdempotent(p: real)
    ensures RoundPrice(RoundPrice(p)) == RoundPrice(p)
  {
    var r := RoundPrice(p);
    RoundingStaysInTier(p);
    RoundToNearest(p, Tier(p));
    GridsNest(r);
    RoundToNearest(r, Tier(r));
  }

  lemma RoundPriceError(p: real)
    ensures -Step(Tier(p)) / 2.0 <= RoundPrice(p) - p <= Step(Tier(p)) / 2.0
  {
    RoundToNearest(p, Tier(p));
  }

  // ---------------------------------------------------------------- the walk

  /** The random numbers one price consumes, in drawing order: a normal draw, two uniform draws
      deciding the trend flip and the market event, and the uniform draw sizing the event. */
  datatype Draws = Draws(normal: real, flip: real, event: real, size: real) {
    /** Uniform draws lie in [0, 1); the normal draw is any number. */
    predicate Valid() {
      0.0 <= flip < 1.0 && 0.0 <= event < 1.0 && 0.0 <= size < 1.0
    }
  }

  datatype Walk = Walk(base: real, current: real, volatility: real, trend: real)

  function Change(w: Walk, d: Draws): real {
    d.normal * w.volatility * w.current
  }

  function Trended(change: real, trend: real): real {
    change + change * 0.1 * trend
  }

  /** The unclamped next price. */
  function Drift(w: Walk, d: Draws): real {
    w.current + Trended(Change(w, d), w.trend)
  }

  /** Price and trend after clamping to 20% around the base, the positivity repair included. */
  function Clamp(w: Walk, raw: real): (real, real) {
    var dev := w.base * 0.2;
    var (p, t) := if raw > w.base + dev then (w.base + dev, -1.0)
                  else if raw < w.base - dev then (w.base - dev, 1.0)
                  else (raw, w.trend);
    (if p <= 0.0 then w.base * 0.01 else p, t)
  }

  function Calm(w: Walk, d: Draws): real {
    RoundPrice(Clamp(w, Drift(w, d)).0)
  }

  function NextTrend(w: Walk, d: Draws): real {
    var t := Clamp(w, Drift(w, d)).1;
    if d.flip < 0.05 then -t else t
  }

  function Multiplier(d: Draws): real {
    1.0 + (d.size - 0.5) * 0.1
  }

  /** A price moved by a factor and rounded again. */
  function Bump(price: real, factor: real): real {
    RoundPrice(price * factor)
  }

  /** The rare market event on top of a calm price. */
  function Spike(calm: real, d: Draws): real {
    if d.event < 0.001 then Bump(calm, Multiplier(d)) else calm
  }

  function NextPrice(w: Walk, d: Draws): real {
    Spike(Calm(w, d), d)
  }

  function Low(base: real): real { RoundPrice(0.8 * base) }
  function High(base: real): real { RoundPrice(1.2 * base) }

  /** A published price is a calm price inside the rounded band, or such a price moved by a factor
      in [0.95, 1.05) and rounded again. */
  ghost predicate Published(base: real, p: real) {
    exists calm, m :: Explains(base, p, calm, m)
  }

  ghost predicate Explains(base: real, p: real, calm: real, m: real) {
    && Low(base) <= calm <= High(base)
    && (p == calm || (0.95 <= m < 1.05 && p == Bump(calm, m)))
  }

  /** Whatever the current price has become, one draw keeps the trend a sign, never takes the
      positivity repair, and publishes a price of the announced form. */
  lemma OneDraw(w: Walk, d: Draws)
    requires w.base > 0.0 && w.trend in {-1.0, 1.0} && d.Valid()
    ensures NextTrend(w, d) in {-1.0, 1.0}
    ensures 0.8 * w.base <= Clamp(w, Drift(w, d)).0 <= 1.2 * w.base
    ensures Explains(w.base, NextPrice(w, d), Calm(w, d), Multiplier(d))
  {
    ClampBand(w, Drift(w, d));
    SpikeExplains(w.base, Calm(w, d), d);
  }

  lemma DriftFactor(current: real, x: real, trend: real)
    ensures current + (x * current + x * current * 0.1 * trend) == current * (1.0 + x * (1.0 + 0.1 * trend))
  {
    assert x * current * 0.1 * trend == current * (x * (0.1 * trend));
  }

  lemma SpikeFactor(calm: real, d: Draws, factor: real)
    requires d.event < 0.001 && factor == Multiplier(d)
    ensures Spike(calm, d) == RoundPrice(calm * factor)
  {
    MovedPrice(calm, factor);
  }

  lemma MovedPrice(price: real, factor: real)
    ensures Bump(price, factor) == RoundPrice(price * factor)
  {
  }

  /** What the draws decide: the normal draw the drift, which is held within 20% of the base and turns the
      trend back at either end; the flip draw, below 0.05, turns the trend round; the event draw, below
      0.001, applies the factor that the size draw gives. */
  lemma DrawsDecide(w: Walk, d: Draws) returns (drift: real, calm: real, factor: real)
    requires w.base > 0.0
    ensures drift == w.current * (1.0 + d.normal * w.volatility * (1.0 + 0.1 * w.trend))
    ensures factor == 0.95 + 0.1 * d.size
    ensures
      var (top, bottom) := (1.2 * w.base, 0.8 * w.base);
      calm == RoundPrice(if drift > top then top else if drift < bottom then bottom else drift)
    ensures
      var pulled := if drift > 1.2 * w.base then -1.0 else if drift < 0.8 * w.base then 1.0 else w.trend;
      NextTrend(w, d) == if d.flip < 0.05 then -pulled else pulled
    ensures NextPrice(w, d) == if d.event < 0.001 then RoundPrice(calm * factor) else calm
  {
    drift, calm, factor := Drift(w, d), Calm(w, d), Multiplier(d);
    DriftFactor(w.current, d.normal * w.volatility, w.trend);
    if d.event < 0.001 {
      SpikeFactor(calm, d, factor);
    }
    hide Drift, RoundPrice;
  }

  lemma SpikeExplains(base: real, calm: real, d: Draws)
    requires Low(base) <= calm <= High(base) && d.Valid()
    ensures Explains(base, Spike(calm, d), calm, Multiplier(d))
  {
  }

  lemma ClampBand(w: Walk, raw: real)
    requires w.base > 0.0 && w.trend in {-1.0, 1.0}
    ensures Clamp(w, raw).1 in {-1.0, 1.0}
    ensures 0.8 * w.base <= Clamp(w, raw).0 <= 1.2 * w.base
    ensures Low(w.base) <= RoundPrice(Clamp(w, raw).0) <= High(w.base)
  {
    RoundPriceMonotone(0.8 * w.base, Clamp(w, raw).0);
    RoundPriceMonotone(Clamp(w, raw).0, 1.2 * w.base);
  }

  // ---------------------------------------------------------------- servers sharing a symbol

  /** The shared record. Computing a price and storing it are two separate critical sections. */
  class SymbolData {
    var basePrice: real
    var currentPrice: real
    var volatility: real
    var trend: real

    constructor (base: real, volatility: real)
      ensures Value() == Walk(base, base, volatility, 1.0)
    {
      basePrice, currentPrice, this.volatility, trend := base, base, volatility, 1.0;
    }

    function Value(): Walk
      reads this
    {
      Walk(basePrice, currentPrice, volatility, trend)
    }

    /** First critical section: compute a price, updating only the trend. */
    method GenerateNextPrice(d: Draws) returns (newPrice: real)
      modifies this`trend
      ensures newPrice == NextPrice(old(Value()), d)
      ensures trend == NextTrend(old(Value()), d)
    {
      ghost var w := Value();
      var change := d.normal * volatility * currentPrice;
      assert change == Change(w, d);
      var trendStrength := 0.1;
      change := change + change * trendStrength * trend;
      assert change == Trended(Change(w, d), w.trend);
      hide Change, Trended;
      newPrice := currentPrice + change;
      var maxDeviation := basePrice * 0.2;
      if newPrice > basePrice + maxDeviation {
        newPrice := basePrice + maxDeviation;
        trend := -1.0;
      } else if newPrice < basePrice - maxDeviation {
        newPrice := basePrice - maxDeviation;
        trend := 1.0;
      }
      if newPrice <= 0.0 {
        newPrice := basePrice * 0.01;
      }
      assert (newPrice, trend) == Clamp(w, Drift(w, d));
      newPrice := RoundPrice(newPrice);
      assert newPrice == Calm(w, d);
      if d.flip < 0.05 {
        trend := -trend;
      }
      if d.event < 0.001 {
        var eventMultiplier := Multiplier(d);
        newPrice := Bump(newPrice, eventMultiplier);
      }
    }

    /** Second critical section: store a price computed earlier. */
    method Store(newPrice: real)
      modifies this`currentPrice
      ensures Value() == old(Value()).(current := newPrice)
    {
      currentPrice := newPrice;
    }
  }

  /** What one of the servers does next: compute a price, or store and broadcast the one it holds. */
  datatype Move = Compute(server: nat, draws: Draws) | StoreHeld(server: nat)

  datatype World = World(walk: Walk, held: map<nat, real>, published: seq<real>)

  ghost predicate CanMove(w: World, m: Move) {
    match m
    case Compute(s, d) => s !in w.held && d.Valid()
    case StoreHeld(s) => s in w.held
  }

  ghost function Moved(w: World, m: Move): World
    requires CanMove(w, m)
  {
    match m
    case Compute(s, d) =>
      w.(walk := w.walk.(trend := NextTrend(w.walk, d)), held := w.held[s := NextPrice(w.walk, d)])
    case StoreHeld(s) =>
      World(w.walk.(current := w.held[s]), w.held - {s}, w.published + [w.held[s]])
  }

  /** The world after a list of moves, if each was possible when its turn came. */
  ghost function AfterMoves(w: World, moves: seq<Move>): (r: World)
    requires PossibleMoves(w, moves)
    decreases |moves|
  {
    if moves == [] then w else AfterMoves(Moved(w, moves[0]), moves[1..])
  }

  ghost predicate PossibleMoves(w: World, moves: seq<Move>)
    decreases |moves|
  {
    moves == [] || (CanMove(w, moves[0]) && PossibleMoves(Moved(w, moves[0]), moves[1..]))
  }

  ghost predicate WalkSafe(w: World) {
    && w.walk.base > 0.0
    && w.walk.trend in {-1.0, 1.0}
    && (forall s :: s in w.held ==> Published(w.walk.base, w.held[s]))
    && (forall i :: 0 <= i < |w.published| ==> Published(w.walk.base, w.published[i]))
    && (w.walk.current == w.walk.base || Published(w.walk.base, w.walk.current))
  }

  lemma MoveKeepsSafe(w: World, m: Move)
    requires WalkSafe(w) && CanMove(w, m)
    ensures WalkSafe(Moved(w, m)) && Moved(w, m).walk.base == w.walk.base
  {
    if m.Compute? {
      OneDraw(w.walk, m.draws);
      assert Published(w.walk.base, NextPrice(w.walk, m.draws));
    }
  }

  /** Any number of servers, any draws and any interleaving, stores overtaking computations
      included: the trend stays a sign and every published price has the announced form. */
  lemma WalkStaysSafe(base: real, volatility: real, moves: seq<Move>)
    requires base > 0.0
    requires PossibleMoves(World(Walk(base, base, volatility, 1.0), map[], []), moves)
    ensures
      var w := AfterMoves(World(Walk(base, base, volatility, 1.0), map[], []), moves);
      w.walk.base == base && WalkSafe(w)
  {
    SafeFrom(World(Walk(base, base, volatility, 1.0), map[], []), moves);
  }

  lemma {:induction false} SafeFrom(w: World, moves: seq<Move>)
    requires WalkSafe(w) && PossibleMoves(w, moves)
    ensures WalkSafe(AfterMoves(w, moves)) && AfterMoves(w, moves).walk.base == w.walk.base
    decreases |moves|
  {
    if moves != [] {
      MoveKeepsSafe(w, moves[0]);
      SafeFrom(Moved(w, moves[0]), moves[1..]);
    }
  }

  /** How many prices were stored. */
  function Stores(moves: seq<Move>): nat {
    if moves == [] then 0 else Stores(moves[1..]) + if moves[0].StoreHeld? then 1 else 0
  }

  /** Every stored price is published, and the current price is the last one. */
  lemma {:induction false} StoredIsPublished(w: World, moves: seq<Move>)
    requires PossibleMoves(w, moves)
    ensures w.published <= AfterMoves(w, moves).published
    ensures |AfterMoves(w, moves).published| == |w.published| + Stores(moves)
    ensures
      var r := AfterMoves(w, moves);
      r.walk.current == if Stores(moves) == 0 then w.walk.current else r.published[|r.published| - 1]
    decreases |moves|
  {
    hide NextPrice, NextTrend;
    if moves != [] {
      StoredIsPublished(Moved(w, moves[0]), moves[1..]);
    }
  }

  // ---------------------------------------------------------------- positivity

  /** The smallest base price whose whole band survives rounding. */
  const SMALLEST_BASE: real := 0.000000625

  lemma PublishedPositive(base: real, p: real)
    requires base >= SMALLEST_BASE && Published(base, p)
    ensures p > 0.0
  {
    var calm, m :| Explains(base, p, calm, m);
    MicroFloor(0.8 * base, 0.0000005);
    if p != calm {
      EventKeepsPositive(calm, m);
    }
  }

  /** A price of at least half a micro rounds to at least one micro. */
  lemma MicroFloor(p: real, half: real)
    requires half == 0.0000005 && p >= half
    ensures RoundPrice(p) >= 0.000001
  {
    assert Round(0.5) == 1;
    assert RoundPrice(half) == 0.000001;
    RoundPriceMonotone(half, p);
  }

  lemma EventKeepsPositive(calm: real, m: real)
    requires calm >= 0.000001 && 0.95 <= m
    ensures RoundPrice(calm * m) > 0.0
  {
    assert calm * m >= calm * 0.95;
    MicroFloor(calm * m, 0.0000005);
  }

  /** A base price below the bound: one draw from the initial walk publishes zero. */
  lemma TinyBaseCanPublishZero(base: real, volatility: real) returns (d: Draws)
    requires 0.0 < base < SMALLEST_BASE && volatility > 0.0
    ensures d.Valid() && NextPrice(Walk(base, base, volatility, 1.0), d) == 0.0
  {
    var w := Walk(base, base, volatility, 1.0);
    d := Draws(-1.0 / volatility, 0.5, 0.5, 0.5);
    assert d.normal * volatility == -1.0;
    assert d.normal * volatility * base == -base;
    assert Drift(w, d) == base + (-base + (-base) * 0.1 * 1.0);
    assert Clamp(w, Drift(w, d)).0 == base - base * 0.2;
    assert Round(base * 0.8 * 1000000.0) == 0;
  }

  /** Every price any walk over this base publishes is positive exactly when the base price is at
      least the bound. */
  lemma PricesPositiveIff(base: real, volatility: real)
    requires base > 0.0 && volatility > 0.0
    ensures
      (forall w: Walk, d: Draws :: w.base == base && w.trend in {-1.0, 1.0} && d.Valid() ==> NextPrice(w, d) > 0.0)
      <==> base >= SMALLEST_BASE
  {
    if base >= SMALLEST_BASE {
      forall w: Walk, d: Draws | w.base == base && w.trend in {-1.0, 1.0} && d.Valid()
        ensures NextPrice(w, d) > 0.0
      {
        OneDraw(w, d);
        assert Published(base, NextPrice(w, d));
        PublishedPositive(base, NextPrice(w, d));
      }
    } else {
      var d := TinyBaseCanPublishZero(base, volatility);
    }
  }
}
