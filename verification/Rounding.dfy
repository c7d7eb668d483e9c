/** Decimal rounding over exact reals: math.Round (half away from zero) on the three decimal
    grids the program uses. */
module Rounding {

  /** Nearest integer, ties away from zero. */
  function Round(x: real): int {
    if x >= 0.0 then (x + 0.5).Floor else -((0.5 - x).Floor)
  }

  lemma RoundMonotone(x: real, y: real)
    requires x <= y
    ensures Round(x) <= Round(y)
  {
  }

  lemma RoundWithinHalf(x: real)
    ensures -0.5 <= Round(x) as real - x <= 0.5
  {
  }

  /** Rounding leaves exactly the whole numbers alone. */
  lemma RoundFixesWholeNumbers(x: real)
    ensures Round(x) as real == x <==> x.Floor as real == x
  {
    if x.Floor as real == x {
      RoundOfInteger(x.Floor);
    }
    if Round(x) as real == x {
      FloorOfInteger(x, Round(x));
    }
  }

  lemma RoundOfInteger(n: int)
    ensures Round(n as real) == n
  {
  }

  lemma FloorOfInteger(x: real, n: int)
    requires x == n as real
    ensures x.Floor == n
  {
  }

  /** Two, three or six decimal places. */
  datatype Grid = Cents | Mills | Micros

  function Step(g: Grid): real {
    match g
    case Cents => 0.01
    case Mills => 0.001
    case Micros => 0.000001
  }

  /** Scale, round, scale back. */
  function RoundTo(x: real, g: Grid): real {
    match g
    case Cents => Round(x * 100.0) as real / 100.0
    case Mills => Round(x * 1000.0) as real / 1000.0
    case Micros => Round(x * 1000000.0) as real / 1000000.0
  }

  predicate OnGrid(x: real, g: Grid) {
    match g
    case Cents => (x * 100.0).Floor as real == x * 100.0
    case Mills => (x * 1000.0).Floor as real == x * 1000.0
    case Micros => (x * 1000000.0).Floor as real == x * 1000000.0
  }

  lemma RoundToMonotone(x: real, y: real, g: Grid)
    requires x <= y
    ensures RoundTo(x, g) <= RoundTo(y, g)
  {
    match g
    case Cents => RoundMonotone(x * 100.0, y * 100.0);
    case Mills => RoundMonotone(x * 1000.0, y * 1000.0);
    case Micros => RoundMonotone(x * 1000000.0, y * 1000000.0);
  }

  /** The result lies on the grid, at most half a step away; grid points stay where they are. */
  lemma RoundToNearest(x: real, g: Grid)
    ensures OnGrid(RoundTo(x, g), g)
    ensures -Step(g) / 2.0 <= RoundTo(x, g) - x <= Step(g) / 2.0
    ensures RoundTo(x, g) == x <==> OnGrid(x, g)
  {
    match g
    case Cents =>
      RoundWithinHalf(x * 100.0);
      RoundFixesWholeNumbers(x * 100.0);
      FloorOfInteger(RoundTo(x, g) * 100.0, Round(x * 100.0));
    case Mills =>
      RoundWithinHalf(x * 1000.0);
      RoundFixesWholeNumbers(x * 1000.0);
      FloorOfInteger(RoundTo(x, g) * 1000.0, Round(x * 1000.0));
    case Micros =>
      RoundWithinHalf(x * 1000000.0);
      RoundFixesWholeNumbers(x * 1000000.0);
      FloorOfInteger(RoundTo(x, g) * 1000000.0, Round(x * 1000000.0));
  }
}
