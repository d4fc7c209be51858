/** The multi-start grid search (`starting_points` of search.rs) over the reals, for any cost. */
module StartingPoints {
  import opened Sorting

  const COARSE_STEP_M := 200.0
  const FINE_STEP_M := 50.0
  const FINE_REACH_M := 200.0
  const COARSE_CANDIDATES: nat := 10
  const KEPT_MINIMA: nat := 5
  const MINIMA_APART_M := 500.0

  datatype Point = Point(east: real, north: real)
  datatype Area = Area(west: real, south: real, east: real, north: real)
  datatype Candidate = Candidate(point: Point, cost: real)

  /** Over the reals the distance is at least the given one exactly when its square is. */
  predicate AreApart(a: Point, b: Point) {
    (a.east - b.east) * (a.east - b.east) + (a.north - b.north) * (a.north - b.north) >= MINIMA_APART_M * MINIMA_APART_M
  }

  function Steps(span: real, step: real): (steps: nat)
    requires step > 0.0
    ensures steps >= 1
  {
    if span < 0.0 then 1 else
      assert span / step >= 0.0;
      (span / step).Floor + 1
  }

  function Columns(area: Area, step: real): (columns: nat)
    requires step > 0.0
    ensures columns >= 1
  {
    Steps(area.east - area.west, step)
  }

  function Rows(area: Area, step: real): (rows: nat)
    requires step > 0.0
    ensures rows >= 1
  {
    Steps(area.north - area.south, step)
  }

  function GridPoints(area: Area, step: real): (points: seq<Point>)
    requires step > 0.0
    ensures |points| == Rows(area, step) * Columns(area, step)
  {
    var columns := Columns(area, step);
    seq(Rows(area, step) * columns, index requires 0 <= index =>
      Point(area.west + (index % columns) as real * step, area.south + (index / columns) as real * step))
  }

  lemma CellIsInGrid(rows: nat, columns: nat, row: int, column: int)
    requires 0 <= row < rows && 0 <= column < columns
    ensures 0 <= row * columns + column < rows * columns
  {
    assert row * columns <= (rows - 1) * columns;
  }

  predicate IsNoCheaper(costs: seq<real>, rows: nat, columns: nat, row: int, column: int, cost: real)
    requires |costs| == rows * columns
  {
    0 <= row < rows && 0 <= column < columns ==>
      (CellIsInGrid(rows, columns, row, column); costs[row * columns + column] >= cost)
  }

  /** No cell around the given one, itself included, costs less. */
  predicate IsLocalMinimum(costs: seq<real>, rows: nat, columns: nat, index: nat)
    requires columns > 0 && |costs| == rows * columns && index < |costs|
  {
    forall row, column | index / columns - 1 <= row <= index / columns + 1
        && index % columns - 1 <= column <= index % columns + 1 ::
      IsNoCheaper(costs, rows, columns, row, column, costs[index])
  }

  function LocalMinima(costs: seq<real>, rows: nat, columns: nat, upTo: nat): (minima: seq<nat>)
    requires columns > 0 && |costs| == rows * columns && upTo <= |costs|
    ensures forall index: nat :: index in minima <==> index < upTo && IsLocalMinimum(costs, rows, columns, index)
  {
    if upTo == 0 then []
    else if IsLocalMinimum(costs, rows, columns, upTo - 1) then LocalMinima(costs, rows, columns, upTo - 1) + [upTo - 1]
    else LocalMinima(costs, rows, columns, upTo - 1)
  }

  /** The first of the cheapest points. */
  function Cheapest(points: seq<Point>, cost: Point -> real): (best: Candidate)
    requires points != []
    ensures best.point in points && best.cost == cost(best.point)
    ensures forall point | point in points :: best.cost <= cost(point)
  {
    var last := points[|points| - 1];
    if |points| == 1 then Candidate(last, cost(last))
    else
      assert points == points[..|points| - 1] + [last];
      var best := Cheapest(points[..|points| - 1], cost);
      if cost(last) < best.cost then Candidate(last, cost(last)) else best
  }

  function FineGrid(point: Point): seq<Point> {
    GridPoints(Area(point.east - FINE_REACH_M, point.north - FINE_REACH_M, point.east + FINE_REACH_M, point.north
        + FINE_REACH_M),
               FINE_STEP_M)
  }

  function Costs(points: seq<Point>, cost: Point -> real): (costs: seq<real>)
    ensures |costs| == |points| && forall i | 0 <= i < |points| :: costs[i] == cost(points[i])
  {
    seq(|points|, i requires 0 <= i < |points| => cost(points[i]))
  }

  /** By cost, and by place in the grid where costs are equal. */
  predicate ComesBefore(costs: seq<real>, a: nat, b: nat) {
    if a < |costs| && b < |costs| then costs[a] < costs[b] || (costs[a] == costs[b] && a <= b) else a <= b
  }

  predicate IsCheaper(a: Candidate, b: Candidate) {
    || a.cost < b.cost
    || (a.cost == b.cost
        && (a.point.east < b.point.east || (a.point.east == b.point.east && a.point.north <= b.point.north)))
  }

  function Truncated<T>(xs: seq<T>, length: nat): seq<T> {
    if |xs| <= length then xs else xs[..length]
  }

  function Minima(costs: seq<real>, rows: nat, columns: nat): (minima: seq<nat>)
    requires columns > 0 && |costs| == rows * columns
    ensures forall k | 0 <= k < |minima| :: minima[k] < |costs|
  {
    var local := LocalMinima(costs, rows, columns, |costs|);
    var ordered := Sorted(local, (a, b) => ComesBefore(costs, a, b));
    SameElements(ordered, local);
    assert forall k | 0 <= k < |ordered| :: ordered[k] in local;
    Truncated(ordered, COARSE_CANDIDATES)
  }

  function Found(points: seq<Point>, minima: seq<nat>, cost: Point -> real): (found: seq<Candidate>)
    requires forall k | 0 <= k < |minima| :: minima[k] < |points|
    ensures |found| == |minima|
  {
    seq(|minima|, k requires 0 <= k < |minima| => Cheapest(FineGrid(points[minima[k]]), cost))
  }

  function Refined(area: Area, cost: Point -> real): seq<Candidate> {
    var points := GridPoints(area, COARSE_STEP_M);
    var minima := Minima(Costs(points, cost), Rows(area, COARSE_STEP_M), Columns(area, COARSE_STEP_M));
    Sorted(Found(points, minima, cost), IsCheaper)
  }

  /** What the first candidates leave in the selection. */
  function Selected(refined: seq<Candidate>, upTo: nat): (kept: seq<Candidate>)
    requires upTo <= |refined|
    ensures |kept| <= KEPT_MINIMA && |kept| <= upTo
  {
    if upTo == 0 then []
    else
      var kept := Selected(refined, upTo - 1);
      var next := refined[upTo - 1];
      if |kept| < KEPT_MINIMA && forall i | 0 <= i < |kept| :: AreApart(kept[i].point, next.point)
          then kept + [next] else kept
  }

  function Points(candidates: seq<Candidate>): (points: seq<Point>)
    ensures |points| == |candidates| && forall i | 0 <= i < |points| :: points[i] == candidates[i].point
  {
    seq(|candidates|, i requires 0 <= i < |candidates| => candidates[i].point)
  }

  method Select(refined: seq<Candidate>) returns (kept: seq<Point>)
    ensures kept == Points(Selected(refined, |refined|))
  {
    hide AreApart;
    kept := [];
    for n := 0 to |refined|
      invariant kept == Points(Selected(refined, n))
    {
      var point := refined[n].point;
      if |kept| < KEPT_MINIMA && forall i | 0 <= i < |kept| :: AreApart(kept[i], point) {
        kept := kept + [point];
      }
    }
  }

  method StartingPointsOf(area: Area, cost: Point -> real) returns (kept: seq<Point>)
    ensures kept == Points(Selected(Refined(area, cost), |Refined(area, cost)|))
  {
    hide AreApart, IsLocalMinimum, FineGrid, GridPoints, Rows, Columns, ComesBefore, IsCheaper;
    var points := GridPoints(area, COARSE_STEP_M);
    var costs := Costs(points, cost);
    var rows, columns := Rows(area, COARSE_STEP_M), Columns(area, COARSE_STEP_M);
    var minima := LocalMinima(costs, rows, columns, |costs|);
    minima := Sorted(minima, (a, b) => ComesBefore(costs, a, b));
    if |minima| > COARSE_CANDIDATES {
      minima := minima[..COARSE_CANDIDATES];
    }
    assert minima == Minima(costs, rows, columns);
    var refined := Found(points, minima, cost);
    refined := Sorted(refined, IsCheaper);
    kept := Select(refined);
  }

  // The grids

  lemma {:induction false} FineGridHoldsItsCentre(point: Point)
    ensures point in FineGrid(point)
  {
    var grid := FineGrid(point);
    var area := Area(point.east - FINE_REACH_M, point.north - FINE_REACH_M, point.east + FINE_REACH_M, point.north
        + FINE_REACH_M);
    assert Columns(area, FINE_STEP_M) == 9 && Rows(area, FINE_STEP_M) == 9;
    assert grid[40]
        == Point(point.east - FINE_REACH_M + 4.0 * FINE_STEP_M, point.north - FINE_REACH_M + 4.0 * FINE_STEP_M);
  }

  // The sorts

  lemma ComesBeforeIsOrder(costs: seq<real>)
    ensures IsTotalPreorder((a: nat, b: nat) => ComesBefore(costs, a, b))
  {
  }

  lemma IsCheaperIsOrder()
    ensures IsTotalPreorder(IsCheaper)
  {
  }

  // The cheapest start

  lemma {:induction false} CheapestCell(costs: seq<real>) returns (index: nat)
    requires costs != []
    ensures index < |costs| && forall i | 0 <= i < |costs| :: costs[index] <= costs[i]
  {
    if |costs| == 1 {
      index := 0;
    } else {
      index := CheapestCell(costs[..|costs| - 1]);
      if costs[|costs| - 1] < costs[index] {
        index := |costs| - 1;
      }
    }
  }

  lemma CheapestCellIsLocalMinimum(costs: seq<real>, rows: nat, columns: nat, index: nat)
    requires columns > 0 && |costs| == rows * columns && index < |costs|
    requires forall i | 0 <= i < |costs| :: costs[index] <= costs[i]
    ensures IsLocalMinimum(costs, rows, columns, index)
  {
    forall row, column ensures IsNoCheaper(costs, rows, columns, row, column, costs[index]) {
      if 0 <= row < rows && 0 <= column < columns {
        CellIsInGrid(rows, columns, row, column);
      }
    }
  }

  /** The cheapest cell of the grid is a local minimum, so that the first of the minima costs no more than any cell. */
  lemma {:induction false} FirstMinimumIsCheapest(costs: seq<real>, rows: nat, columns: nat)
    requires columns > 0 && |costs| == rows * columns && costs != []
    ensures Minima(costs, rows, columns) != []
    ensures forall i | 0 <= i < |costs| :: costs[Minima(costs, rows, columns)[0]] <= costs[i]
  {
    hide IsLocalMinimum;
    var cheapest := CheapestCell(costs);
    CheapestCellIsLocalMinimum(costs, rows, columns, cheapest);
    var local := LocalMinima(costs, rows, columns, |costs|);
    var before := (a: nat, b: nat) => ComesBefore(costs, a, b);
    var ordered := Sorted(local, before);
    SameElements(ordered, local);
    assert cheapest in ordered && forall k | 0 <= k < |ordered| :: ordered[k] in local;
    assert IsSorted(ordered, before) by {
      ComesBeforeIsOrder(costs);
      SortedIsSorted(local, before);
    }
    var k :| 0 <= k < |ordered| && ordered[k] == cheapest;
    assert before(ordered[0], ordered[k]) || k == 0;
    assert Minima(costs, rows, columns)[0] == ordered[0];
  }

  /** Only the ten cheapest local minima go on, and of equally cheap ones the first of the grid. */
  lemma {:induction false} MinimaAreTheCheapest(costs: seq<real>, rows: nat, columns: nat, index: nat)
    requires columns > 0 && |costs| == rows * columns && index < |costs| && IsLocalMinimum(costs, rows, columns, index)
    ensures var minima := Minima(costs, rows, columns);
            && (forall m | m in minima :: IsLocalMinimum(costs, rows, columns, m))
            && (index in minima
                || (|minima| == COARSE_CANDIDATES
                    && forall m | m in minima ::
                         costs[m] < costs[index] || (costs[m] == costs[index] && m <= index)))
  {
    hide IsLocalMinimum;
    var local := LocalMinima(costs, rows, columns, |costs|);
    var before := (a: nat, b: nat) => ComesBefore(costs, a, b);
    var ordered := Sorted(local, before);
    var minima := Minima(costs, rows, columns);
    SameElements(ordered, local);
    ComesBeforeIsOrder(costs);
    SortedIsSorted(local, before);
    assert minima == Truncated(ordered, COARSE_CANDIDATES);
    assert index in ordered;
    var n :| 0 <= n < |ordered| && ordered[n] == index;
    forall m | m in minima
      ensures IsLocalMinimum(costs, rows, columns, m)
      ensures n >= |minima| ==> costs[m] < costs[index] || (costs[m] == costs[index] && m <= index)
    {
      var k :| 0 <= k < |minima| && minima[k] == m;
      assert ordered[k] == m && m in ordered;
      assert n >= |minima| ==> before(ordered[k], ordered[n]);
    }
    assert n < |minima| ==> minima[n] == index;
  }

  lemma CheapestFoundIsFirst(found: seq<Candidate>)
    requires found != []
    ensures Sorted(found, IsCheaper) != [] && IsSorted(Sorted(found, IsCheaper), IsCheaper)
    ensures forall c | c in Sorted(found, IsCheaper) :: c in found
    ensures forall c | c in found :: Sorted(found, IsCheaper)[0].cost <= c.cost
  {
    var refined := Sorted(found, IsCheaper);
    IsCheaperIsOrder();
    SortedIsSorted(found, IsCheaper);
    SameElements(refined, found);
    forall c | c in found ensures refined[0].cost <= c.cost {
      var k :| 0 <= k < |refined| && refined[k] == c;
      assert IsCheaper(refined[0], refined[k]) || k == 0;
    }
  }

  lemma {:induction false} FirstRefinedIsCheapest(area: Area, cost: Point -> real)
    ensures Refined(area, cost) != [] && IsSorted(Refined(area, cost), IsCheaper)
    ensures forall c | c in Refined(area, cost) :: c.cost == cost(c.point)
    ensures forall point | point in GridPoints(area, COARSE_STEP_M) :: Refined(area, cost)[0].cost <= cost(point)
  {
    hide GridPoints, Minima, FineGrid, Rows, Columns, Sorted, IsCheaper, IsSorted;
    var points := GridPoints(area, COARSE_STEP_M);
    var rows, columns := Rows(area, COARSE_STEP_M), Columns(area, COARSE_STEP_M);
    var costs := Costs(points, cost);
    CellIsInGrid(rows, columns, 0, 0);
    FirstMinimumIsCheapest(costs, rows, columns);
    var minima := Minima(costs, rows, columns);
    FineGridHoldsItsCentre(points[minima[0]]);
    var found := Found(points, minima, cost);
    assert found[0].cost <= cost(points[minima[0]]);
    CheapestFoundIsFirst(found);
    assert found[0] in found;
    forall point | point in points ensures found[0].cost <= cost(point) {
      var i :| 0 <= i < |points| && points[i] == point;
      assert costs[minima[0]] <= costs[i];
    }
  }

  ghost predicate ArePairwiseApart(kept: seq<Candidate>) {
    forall i, j | 0 <= i < j < |kept| :: AreApart(kept[i].point, kept[j].point)
  }

  lemma {:induction false} SelectionIsApart(refined: seq<Candidate>, upTo: nat)
    requires upTo <= |refined|
    ensures ArePairwiseApart(Selected(refined, upTo))
    ensures forall c | c in Selected(refined, upTo) :: c in refined[..upTo]
    ensures upTo > 0 ==> Selected(refined, upTo) != [] && Selected(refined, upTo)[0] == refined[0]
  {
    hide AreApart;
    if upTo > 0 {
      SelectionIsApart(refined, upTo - 1);
      assert refined[..upTo] == refined[..upTo - 1] + [refined[upTo - 1]];
      forall c | c in Selected(refined, upTo) ensures c in refined[..upTo] {
        assert c in Selected(refined, upTo - 1) || c == refined[upTo - 1];
      }
    }
  }

  lemma {:induction false} SelectionGrows(refined: seq<Candidate>, n: nat, upTo: nat)
    requires n <= upTo <= |refined|
    ensures Selected(refined, n) <= Selected(refined, upTo)
  {
    hide AreApart;
    if n < upTo {
      SelectionGrows(refined, n, upTo - 1);
    }
  }

  /**
    Why the n-th candidate is not among the kept: one of no greater cost lies within 500 m, or five were already kept.
  */
  ghost predicate IsRejectedForCause(refined: seq<Candidate>, n: nat)
    requires n < |refined|
  {
    || |Selected(refined, n)| == KEPT_MINIMA
    || exists c :: c in Selected(refined, |refined|) && c.cost <= refined[n].cost
        && !AreApart(c.point, refined[n].point)
  }

  lemma NearKeptIsCause(refined: seq<Candidate>, n: nat, i: nat)
    requires IsSorted(refined, IsCheaper) && n < |refined|
    ensures i < |Selected(refined, n)| && !AreApart(Selected(refined, n)[i].point, refined[n].point) ==>
              IsRejectedForCause(refined, n)
  {
    hide AreApart;
    if i < |Selected(refined, n)| {
      var c := Selected(refined, n)[i];
      SelectionIsApart(refined, n);
      SelectionGrows(refined, n, |refined|);
      assert c in refined[..n];
      var k :| 0 <= k < n && refined[k] == c;
      assert IsCheaper(refined[k], refined[n]);
      assert Selected(refined, |refined|)[i] == c;
    }
  }

  lemma {:induction false} CandidateIsKeptOrRejectedForCause(refined: seq<Candidate>, n: nat)
    requires IsSorted(refined, IsCheaper) && n < |refined|
    ensures refined[n] in Selected(refined, |refined|) || IsRejectedForCause(refined, n)
  {
    hide AreApart, IsSorted;
    var kept := Selected(refined, n);
    if |kept| < KEPT_MINIMA {
      if i :| 0 <= i < |kept| && !AreApart(kept[i].point, refined[n].point) {
        NearKeptIsCause(refined, n, i);
      } else {
        SelectionGrows(refined, n + 1, |refined|);
        assert Selected(refined, n + 1) == kept + [refined[n]];
        assert Selected(refined, |refined|)[|kept|] == refined[n];
      }
    }
  }

  /**
    For every cost and every area: between one and five starting points, pairwise at least 500 m apart; the first
    costs no more than any point of the coarse grid; and every refined candidate is kept or rejected for cause.
  */
  lemma {:induction false} StartingPointsAreGood(area: Area, cost: Point -> real)
    ensures var refined := Refined(area, cost);
            var kept := Selected(refined, |refined|);
            && 1 <= |kept| <= KEPT_MINIMA
            && ArePairwiseApart(kept)
            && (forall c | c in kept :: c in refined && c.cost == cost(c.point))
            && (forall point | point in GridPoints(area, COARSE_STEP_M) :: cost(kept[0].point) <= cost(point))
            && (forall n: nat | n < |refined| :: refined[n] in kept || IsRejectedForCause(refined, n))
  {
    hide AreApart, Refined, GridPoints, Selected, IsSorted, IsRejectedForCause, ArePairwiseApart;
    var refined := Refined(area, cost);
    FirstRefinedIsCheapest(area, cost);
    SelectionIsApart(refined, |refined|);
    assert refined[..|refined|] == refined;
    assert refined[0] in refined;
    forall n: nat | n < |refined| ensures refined[n] in Selected(refined, |refined|) || IsRejectedForCause(refined, n) {
      CandidateIsKeptOrRejectedForCause(refined, n);
    }
  }
}
