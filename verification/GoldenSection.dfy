/** Golden-section search (`golden_minimum` of search.rs) over the reals, for any cost. */
module GoldenSection {
  const GOLDEN_ITERATIONS: nat := 24

  /** The ratio of the search, (sqrt 5 - 1) / 2: the only number between 0 and 1 with this property. */
  ghost predicate IsGolden(ratio: real) {
    0.0 < ratio < 1.0 && ratio * ratio + ratio == 1.0
  }

  function LeftProbe(low: real, high: real, ratio: real): real {
    high - ratio * (high - low)
  }

  function RightProbe(low: real, high: real, ratio: real): real {
    low + ratio * (high - low)
  }

  datatype Bracket = Bracket(low: real, high: real, left: real, right: real)

  /** The bracket with both probes at its golden points. */
  function Around(low: real, high: real, ratio: real): Bracket {
    Bracket(low, high, LeftProbe(low, high, ratio), RightProbe(low, high, ratio))
  }

  function Narrowed(b: Bracket, ratio: real, cost: real -> real): Bracket {
    if cost(b.left) <= cost(b.right)
    then Bracket(b.low, b.right, LeftProbe(b.low, b.right, ratio), b.left)
    else Bracket(b.left, b.high, b.right, RightProbe(b.left, b.high, ratio))
  }

  function Search(low: real, high: real, ratio: real, cost: real -> real, rounds: nat): Bracket {
    if rounds == 0 then Around(low, high, ratio) else Narrowed(Search(low, high, ratio, cost, rounds - 1), ratio, cost)
  }

  function Cheaper(b: Bracket, cost: real -> real): real {
    if cost(b.left) <= cost(b.right) then b.left else b.right
  }

  /** Every point at which the cost is evaluated, in order. */
  function Probes(low: real, high: real, ratio: real, cost: real -> real, rounds: nat): (probes: seq<real>)
    ensures |probes| == rounds + 2
  {
    if rounds == 0 then
      var b := Around(low, high, ratio);
      [b.left, b.right]
    else
      var b := Search(low, high, ratio, cost, rounds - 1);
      var next := Narrowed(b, ratio, cost);
      Probes(low, high, ratio, cost, rounds - 1) + [if cost(b.left) <= cost(b.right) then next.left else next.right]
  }

  /** Evaluates the cost at one more point. */
  method Evaluate(cost: real -> real, point: real, ghost evaluated: seq<real>)
    returns (value: real, ghost more: seq<real>)
    ensures value == cost(point) && more == evaluated + [point]
  {
    value := cost(point);
    more := evaluated + [point];
  }

  /** Each round evaluates one point: the probe that is kept carries its cost along. */
  method GoldenMinimum(from: real, to: real, ratio: real, cost: real -> real)
    returns (minimum: real, ghost evaluated: seq<real>)
    ensures minimum == Cheaper(Search(from, to, ratio, cost, GOLDEN_ITERATIONS), cost)
    ensures evaluated == Probes(from, to, ratio, cost, GOLDEN_ITERATIONS)
  {
    hide LeftProbe, RightProbe;
    var low, high := from, to;
    var left, right := LeftProbe(low, high, ratio), RightProbe(low, high, ratio);
    var leftCost, rightCost;
    leftCost, evaluated := Evaluate(cost, left, []);
    rightCost, evaluated := Evaluate(cost, right, evaluated);
    for round := 0 to GOLDEN_ITERATIONS
      invariant Bracket(low, high, left, right) == Search(from, to, ratio, cost, round)
      invariant leftCost == cost(left) && rightCost == cost(right)
      invariant evaluated == Probes(from, to, ratio, cost, round)
    {
      if leftCost <= rightCost {
        high := right;
        right := left;
        rightCost := leftCost;
        left := LeftProbe(low, high, ratio);
        leftCost, evaluated := Evaluate(cost, left, evaluated);
      } else {
        low := left;
        left := right;
        leftCost := rightCost;
        right := RightProbe(low, high, ratio);
        rightCost, evaluated := Evaluate(cost, right, evaluated);
      }
    }
    minimum := if leftCost <= rightCost then left else right;
  }

  lemma GoldenShare(ratio: real, width: real)
    requires IsGolden(ratio)
    ensures width - ratio * width == ratio * (ratio * width)
  {
    assert (ratio * ratio + ratio) * width == width;
  }

  lemma NarrowedKeepsGoldenPoints(b: Bracket, ratio: real, cost: real -> real)
    requires IsGolden(ratio) && b == Around(b.low, b.high, ratio)
    ensures var c := Narrowed(b, ratio, cost);
            c == Around(c.low, c.high, ratio) && c.high - c.low == ratio * (b.high - b.low)
  {
    GoldenShare(ratio, b.high - b.low);
  }

  function Power(base: real, exponent: nat): real {
    if exponent == 0 then 1.0 else base * Power(base, exponent - 1)
  }

  /** Both probes stay at the golden points of a bracket that shrinks by the ratio in each round. */
  lemma {:induction false} SearchKeepsGoldenPoints(low: real, high: real, ratio: real, cost: real -> real, rounds: nat)
    requires IsGolden(ratio)
    ensures var b := Search(low, high, ratio, cost, rounds);
            b == Around(b.low, b.high, ratio) && b.high - b.low == Power(ratio, rounds) * (high - low)
  {
    hide LeftProbe, RightProbe, Narrowed;
    if rounds > 0 {
      var b := Search(low, high, ratio, cost, rounds - 1);
      SearchKeepsGoldenPoints(low, high, ratio, cost, rounds - 1);
      NarrowedKeepsGoldenPoints(b, ratio, cost);
      Regroup(ratio, Power(ratio, rounds - 1), high - low);
    }
  }

  lemma Regroup(x: real, y: real, z: real)
    ensures x * (y * z) == (x * y) * z
  {
  }

  ghost predicate IsStrictlyUnimodal(cost: real -> real, low: real, high: real, minimiser: real) {
    && low <= minimiser <= high
    && (forall x, y | low <= x < y <= minimiser :: cost(x) > cost(y))
    && (forall x, y | minimiser <= x < y <= high :: cost(x) < cost(y))
  }

  lemma GoldenIsAboveHalf(ratio: real)
    requires IsGolden(ratio)
    ensures ratio > 0.5
  {
    assert (ratio - 0.5) * (ratio + 1.5) == 0.25;
    assert ratio <= 0.5 ==> (ratio - 0.5) * (ratio + 1.5) <= 0.0;
  }

  lemma Ordered(b: Bracket, ratio: real)
    requires IsGolden(ratio) && b == Around(b.low, b.high, ratio) && b.low < b.high
    ensures b.low < b.left < b.right < b.high
  {
    var width := b.high - b.low;
    GoldenIsAboveHalf(ratio);
    var share := ratio * width;
    assert (ratio - 0.5) * width > 0.0 && (1.0 - ratio) * width > 0.0;
    assert 0.5 * width < share < width;
  }

  lemma NarrowedKeepsMinimiser(b: Bracket, ratio: real, cost: real -> real, minimiser: real)
    requires b.low < b.left < b.right < b.high && IsStrictlyUnimodal(cost, b.low, b.high, minimiser)
    ensures var c := Narrowed(b, ratio, cost);
            b.low <= c.low < c.high <= b.high && IsStrictlyUnimodal(cost, c.low, c.high, minimiser)
  {
    hide LeftProbe, RightProbe;
  }

  /** For a strictly unimodal cost the minimiser never leaves the bracket. */
  lemma {:induction false} SearchKeepsMinimiser(low: real, high: real, ratio: real, cost: real -> real,
        minimiser: real, rounds: nat)
    requires IsGolden(ratio) && low < high && IsStrictlyUnimodal(cost, low, high, minimiser)
    ensures var b := Search(low, high, ratio, cost, rounds);
            low <= b.low < b.high <= high && IsStrictlyUnimodal(cost, b.low, b.high, minimiser)
  {
    hide LeftProbe, RightProbe, Narrowed;
    if rounds > 0 {
      var b := Search(low, high, ratio, cost, rounds - 1);
      SearchKeepsMinimiser(low, high, ratio, cost, minimiser, rounds - 1);
      assert b == Around(b.low, b.high, ratio) by { SearchKeepsGoldenPoints(low, high, ratio, cost, rounds - 1); }
      Ordered(b, ratio);
      NarrowedKeepsMinimiser(b, ratio, cost, minimiser);
    }
  }

  function Distance(x: real, y: real): real {
    if x <= y then y - x else x - y
  }

  /** The golden points cut a bracket into a part, its golden share, and the part again. */
  lemma Thirds(b: Bracket, ratio: real)
    requires IsGolden(ratio) && b == Around(b.low, b.high, ratio) && b.low < b.high
    ensures b.left - b.low == ratio * (ratio * (b.high - b.low)) == b.high - b.right
    ensures 0.0 < b.right - b.left < b.left - b.low
  {
    var width := b.high - b.low;
    Ordered(b, ratio);
    GoldenShare(ratio, width);
    GoldenShare(ratio, ratio * width);
    var part := ratio * (ratio * width);
    assert b.right - b.left == ratio * part;
    assert part > 0.0;
    assert ratio * part < part;
  }

  /** The cheaper probe lies within ratio squared of the bracket's width of the minimiser. */
  lemma CheaperIsNear(b: Bracket, ratio: real, cost: real -> real, minimiser: real)
    requires IsGolden(ratio) && b == Around(b.low, b.high, ratio) && b.low < b.high
    requires IsStrictlyUnimodal(cost, b.low, b.high, minimiser)
    ensures Distance(Cheaper(b, cost), minimiser) <= ratio * (ratio * (b.high - b.low))
  {
    hide LeftProbe, RightProbe;
    Thirds(b, ratio);
  }

  /**
    For a strictly unimodal cost the result lies within ratio^26 times the width of the search of the minimiser:
    closer than the bracket of width ratio^24 that the rounds leave.
  */
  lemma {:induction false} ResultIsNearMinimiser(low: real, high: real, ratio: real, cost: real -> real,
        minimiser: real)
    requires IsGolden(ratio) && low < high && IsStrictlyUnimodal(cost, low, high, minimiser)
    ensures var result := Cheaper(Search(low, high, ratio, cost, GOLDEN_ITERATIONS), cost);
            Distance(result, minimiser) <= Power(ratio, 26) * (high - low)
  {
    hide LeftProbe, RightProbe, Narrowed, Search, Cheaper, Distance, Power, IsGolden, IsStrictlyUnimodal, Around;
    var b := Search(low, high, ratio, cost, GOLDEN_ITERATIONS);
    SearchKeepsGoldenPoints(low, high, ratio, cost, GOLDEN_ITERATIONS);
    SearchKeepsMinimiser(low, high, ratio, cost, minimiser, GOLDEN_ITERATIONS);
    CheaperIsNear(b, ratio, cost, minimiser);
    PowerOfTwoMore(ratio, GOLDEN_ITERATIONS, high - low);
  }

  lemma PowerOfTwoMore(ratio: real, exponent: nat, width: real)
    ensures Power(ratio, exponent + 2) * width == ratio * (ratio * (Power(ratio, exponent) * width))
  {
    assert Power(ratio, exponent + 2) == ratio * Power(ratio, exponent + 1);
  }

  /** For any cost at all the result is the cheapest of the probes: of 26 with the 24 rounds of the search. */
  lemma {:induction false} ResultIsCheapestProbe(low: real, high: real, ratio: real, cost: real -> real, rounds: nat)
    ensures var result := Cheaper(Search(low, high, ratio, cost, rounds), cost);
            var probes := Probes(low, high, ratio, cost, rounds);
            |probes| == rounds + 2 && result in probes && forall probe | probe in probes :: cost(result) <= cost(probe)
    ensures Search(low, high, ratio, cost, rounds).left in Probes(low, high, ratio, cost, rounds)
    ensures Search(low, high, ratio, cost, rounds).right in Probes(low, high, ratio, cost, rounds)
  {
    hide LeftProbe, RightProbe;
    if rounds > 0 {
      ResultIsCheapestProbe(low, high, ratio, cost, rounds - 1);
    }
  }
}
