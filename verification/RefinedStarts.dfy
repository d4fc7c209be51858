/** Where the starting points come from, in coordinates: the cheapest points around the coarse minima. */
module RefinedStarts {
  import opened Sorting
  import opened StartingPoints

  // The grids in coordinates

  /** The place of the coarse grid in that row and column. */
  function CoarsePoint(area: Area, row: int, column: int): Point {
    Point(area.west + column as real * 200.0, area.south + row as real * 200.0)
  }

  /** The first row and column always belong to the grid, the others as far as they lie inside the area. */
  predicate IsOnGrid(area: Area, row: int, column: int) {
    && (row == 0 || (row > 0 && CoarsePoint(area, row, column).north <= area.north))
    && (column == 0 || (column > 0 && CoarsePoint(area, row, column).east <= area.east))
  }

  /** No neighbour on the coarse grid undercuts the point. */
  ghost predicate IsCoarseMinimum(area: Area, cost: Point -> real, row: int, column: int) {
    && IsOnGrid(area, row, column)
    && forall r, c | row - 1 <= r <= row + 1 && column - 1 <= c <= column + 1 && IsOnGrid(area, r, c) ::
         cost(CoarsePoint(area, row, column)) <= cost(CoarsePoint(area, r, c))
  }

  /** One of the 9 by 9 points, 50 m apart, around the given one. */
  function FinePoint(centre: Point, row: int, column: int): Point {
    Point(centre.east - 200.0 + column as real * 50.0, centre.north - 200.0 + row as real * 50.0)
  }

  /** The fine point of that row and column: none around the centre is cheaper, and none before it as cheap. */
  ghost predicate IsCheapestAt(cost: Point -> real, centre: Point, candidate: Candidate, row: int, column: int) {
    && 0 <= row < 9 && 0 <= column < 9
    && candidate.point == FinePoint(centre, row, column) && candidate.cost == cost(candidate.point)
    && forall r, c | 0 <= r < 9 && 0 <= c < 9 ::
         if r < row || (r == row && c < column) then candidate.cost < cost(FinePoint(centre, r, c))
         else candidate.cost <= cost(FinePoint(centre, r, c))
  }

  ghost predicate IsCheapestAround(cost: Point -> real, centre: Point, candidate: Candidate) {
    exists row, column :: IsCheapestAt(cost, centre, candidate, row, column)
  }

  /** The candidate is the cheapest point around a coarse minimum of at most the given cost. */
  ghost predicate IsRefinedMinimum(area: Area, cost: Point -> real, candidate: Candidate, row: int, column: int) {
    IsCoarseMinimum(area, cost, row, column) && IsCheapestAround(cost, CoarsePoint(area, row, column), candidate)
  }

  lemma OnGrid(area: Area, row: nat, column: nat)
    ensures IsOnGrid(area, row, column) <==> row < Rows(area, COARSE_STEP_M) && column < Columns(area, COARSE_STEP_M)
  {
    StepsInside(area.north - area.south, row);
    StepsInside(area.east - area.west, column);
  }

  lemma StepsInside(span: real, step: nat)
    ensures step < Steps(span, 200.0) <==> step == 0 || step as real * 200.0 <= span
  {
    if span >= 0.0 {
      var steps := span / 200.0;
      assert step <= steps.Floor <==> step as real <= steps;
    }
  }

  lemma CellOfIndex(index: nat, rows: nat, columns: nat)
    requires index < rows * columns
    ensures columns > 0 && index / columns < rows && 0 <= index % columns < columns
    ensures index / columns * columns + index % columns == index
  {
  }

  lemma CellHasIndex(rows: nat, columns: nat, row: nat, column: nat)
    requires row < rows && column < columns
    ensures row * columns + column < rows * columns
    ensures (row * columns + column) / columns == row && (row * columns + column) % columns == column
  {
    CellIsInGrid(rows, columns, row, column);
    var index := row * columns + column;
    Multiples(index / columns - row, columns);
    assert index / columns * columns + index % columns == index;
    assert (index / columns - row) * columns == index / columns * columns - row * columns;
  }

  lemma Multiples(k: int, n: nat)
    ensures k >= 1 ==> k * n >= n
    ensures k <= -1 ==> k * n + n <= 0
  {
  }

  lemma CoarsePointIsListed(area: Area, row: nat, column: nat)
    requires row < Rows(area, COARSE_STEP_M) && column < Columns(area, COARSE_STEP_M)
    ensures var columns, points := Columns(area, COARSE_STEP_M), GridPoints(area, COARSE_STEP_M);
            row * columns + column < |points| && points[row * columns + column] == CoarsePoint(area, row, column)
  {
    CellHasIndex(Rows(area, COARSE_STEP_M), Columns(area, COARSE_STEP_M), row, column);
    hide Rows, Columns;
  }

  lemma FinePointIsListed(centre: Point, row: nat, column: nat)
    requires row < 9 && column < 9
    ensures |FineGrid(centre)| == 81 && FineGrid(centre)[row * 9 + column] == FinePoint(centre, row, column)
  {
    var area := Area(centre.east - FINE_REACH_M, centre.north - FINE_REACH_M, centre.east + FINE_REACH_M,
        centre.north + FINE_REACH_M);
    assert Columns(area, FINE_STEP_M) == 9 && Rows(area, FINE_STEP_M) == 9;
    hide Rows, Columns;
    assert (row * 9 + column) / 9 == row && (row * 9 + column) % 9 == column;
  }

  // The fine grid

  lemma {:induction false} CheapestIsFirst(points: seq<Point>, cost: Point -> real) returns (k: nat)
    requires points != []
    ensures k < |points| && points[k] == Cheapest(points, cost).point
    ensures forall j | 0 <= j < k :: Cheapest(points, cost).cost < cost(points[j])
  {
    var n := |points| - 1;
    if n == 0 {
      k := 0;
    } else {
      k := CheapestIsFirst(points[..n], cost);
      if cost(points[n]) < Cheapest(points[..n], cost).cost {
        k := n;
        assert forall j | 0 <= j < n :: points[j] in points[..n];
      }
    }
  }

  lemma {:induction false} CheapestIsCheapestAround(centre: Point, cost: Point -> real)
    ensures FineGrid(centre) != [] && IsCheapestAround(cost, centre, Cheapest(FineGrid(centre), cost))
  {
    hide FineGrid;
    var grid := FineGrid(centre);
    FinePointIsListed(centre, 0, 0);
    var k := CheapestIsFirst(grid, cost);
    var best := Cheapest(grid, cost);
    hide Cheapest;
    var row, column := k / 9, k % 9;
    FinePointIsListed(centre, row, column);
    forall r, c | 0 <= r < 9 && 0 <= c < 9
      ensures if r < row || (r == row && c < column) then best.cost < cost(FinePoint(centre, r, c))
              else best.cost <= cost(FinePoint(centre, r, c))
    {
      FinePointIsListed(centre, r, c);
      assert grid[r * 9 + c] in grid;
    }
    assert IsCheapestAt(cost, centre, best, row, column);
  }

  // The coarse grid

  lemma {:induction false} LocalMinimumIsCoarse(area: Area, cost: Point -> real, row: nat, column: nat)
    requires row < Rows(area, COARSE_STEP_M) && column < Columns(area, COARSE_STEP_M)
    ensures var rows, columns := Rows(area, COARSE_STEP_M), Columns(area, COARSE_STEP_M);
            var costs := Costs(GridPoints(area, COARSE_STEP_M), cost);
            && row * columns + column < |costs|
            && costs[row * columns + column] == cost(CoarsePoint(area, row, column))
            && (IsLocalMinimum(costs, rows, columns, row * columns + column)
                <==> IsCoarseMinimum(area, cost, row, column))
  {
    hide GridPoints, Rows, Columns, CoarsePoint, IsOnGrid;
    var rows, columns := Rows(area, COARSE_STEP_M), Columns(area, COARSE_STEP_M);
    var points := GridPoints(area, COARSE_STEP_M);
    var costs := Costs(points, cost);
    var index := row * columns + column;
    CellHasIndex(rows, columns, row, column);
    CoarsePointIsListed(area, row, column);
    OnGrid(area, row, column);
    forall r, c | row - 1 <= r <= row + 1 && column - 1 <= c <= column + 1
      ensures IsNoCheaper(costs, rows, columns, r, c, costs[index])
         <==> (IsOnGrid(area, r, c) ==> cost(CoarsePoint(area, row, column)) <= cost(CoarsePoint(area, r, c)))
    {
      NeighbourIsListed(area, cost, r, c, costs[index]);
    }
  }

  lemma NeighbourIsListed(area: Area, cost: Point -> real, r: int, c: int, least: real)
    ensures IsNoCheaper(Costs(GridPoints(area, COARSE_STEP_M), cost), Rows(area, COARSE_STEP_M),
                Columns(area, COARSE_STEP_M), r, c, least)
       <==> (IsOnGrid(area, r, c) ==> least <= cost(CoarsePoint(area, r, c)))
  {
    if r >= 0 && c >= 0 {
      OnGrid(area, r, c);
      if r < Rows(area, COARSE_STEP_M) && c < Columns(area, COARSE_STEP_M) {
        CoarsePointIsListed(area, r, c);
        CellIsInGrid(Rows(area, COARSE_STEP_M), Columns(area, COARSE_STEP_M), r, c);
      }
      hide Rows, Columns, GridPoints, CoarsePoint, IsOnGrid;
    }
  }

  // The candidates

  lemma MinimumOf(points: seq<Point>, minima: seq<nat>, cost: Point -> real, candidate: Candidate) returns (index: nat)
    requires forall k | 0 <= k < |minima| :: minima[k] < |points|
    requires candidate in Sorted(Found(points, minima, cost), IsCheaper)
    ensures index in minima && index < |points|
    ensures FineGrid(points[index]) != [] && candidate == Cheapest(FineGrid(points[index]), cost)
  {
    hide FineGrid, Cheapest, IsCheaper, Sorted;
    var found := Found(points, minima, cost);
    SameElements(Sorted(found, IsCheaper), found);
    var k :| 0 <= k < |found| && found[k] == candidate;
    index := minima[k];
    FinePointIsListed(points[index], 0, 0);
  }

  lemma {:induction false} SourceOf(area: Area, cost: Point -> real, candidate: Candidate)
    returns (row: nat, column: nat)
    requires candidate in Refined(area, cost)
    ensures IsRefinedMinimum(area, cost, candidate, row, column)
    ensures row < Rows(area, COARSE_STEP_M) && column < Columns(area, COARSE_STEP_M)
    ensures var costs := Costs(GridPoints(area, COARSE_STEP_M), cost);
            row * Columns(area, COARSE_STEP_M) + column
                in Minima(costs, Rows(area, COARSE_STEP_M), Columns(area, COARSE_STEP_M))
  {
    hide GridPoints, Rows, Columns, FineGrid, Cheapest, IsCheapestAround, IsCoarseMinimum, IsCheaper, Minima, Sorted,
        Found;
    var points := GridPoints(area, COARSE_STEP_M);
    var rows, columns := Rows(area, COARSE_STEP_M), Columns(area, COARSE_STEP_M);
    var costs := Costs(points, cost);
    var index := MinimumOf(points, Minima(costs, rows, columns), cost, candidate);
    MinimumIsLocal(costs, rows, columns, index);
    CellOfIndex(index, rows, columns);
    row, column := index / columns, index % columns;
    CoarsePointIsListed(area, row, column);
    LocalMinimumIsCoarse(area, cost, row, column);
    CheapestIsCheapestAround(points[index], cost);
  }

  lemma MinimumIsLocal(costs: seq<real>, rows: nat, columns: nat, index: nat)
    requires columns > 0 && |costs| == rows * columns && index in Minima(costs, rows, columns)
    ensures index < |costs| && IsLocalMinimum(costs, rows, columns, index)
  {
    var k :| 0 <= k < |Minima(costs, rows, columns)| && Minima(costs, rows, columns)[k] == index;
    SameElements(Sorted(LocalMinima(costs, rows, columns, |costs|), (a, b) => ComesBefore(costs, a, b)),
        LocalMinima(costs, rows, columns, |costs|));
    hide IsLocalMinimum;
  }

  /** Each candidate is the cheapest point of the fine grid around a point that no neighbour undercuts. */
  lemma {:induction false} CandidatesAreRefinedMinima(area: Area, cost: Point -> real, candidate: Candidate)
    requires candidate in Refined(area, cost)
    ensures exists row, column :: IsRefinedMinimum(area, cost, candidate, row, column)
  {
    hide *;
    var row, column := SourceOf(area, cost, candidate);
  }

  /** The first point is cheaper than the second, or as cheap and before it, row by row. */
  predicate IsPreferred(area: Area, cost: Point -> real, row: int, column: int, otherRow: int, otherColumn: int) {
    var first, second := cost(CoarsePoint(area, row, column)), cost(CoarsePoint(area, otherRow, otherColumn));
    first < second || (first == second && (row < otherRow || (row == otherRow && column <= otherColumn)))
  }

  ghost predicate ComesFromPreferred(area: Area, cost: Point -> real, candidate: Candidate, row: int, column: int) {
    exists r, c :: IsRefinedMinimum(area, cost, candidate, r, c) && IsPreferred(area, cost, r, c, row, column)
  }

  lemma RowByRow(columns: nat, row: nat, column: nat, otherRow: nat, otherColumn: nat)
    requires column < columns && otherColumn < columns
    requires row * columns + column <= otherRow * columns + otherColumn
    ensures row < otherRow || (row == otherRow && column <= otherColumn)
  {
    Multiples(row - otherRow, columns);
    assert (row - otherRow) * columns == row * columns - otherRow * columns;
  }

  /** Every coarse minimum gives a candidate, unless all of ten candidates come from coarse minima preferred to it. */
  lemma {:induction false} MinimaAreRefined(area: Area, cost: Point -> real, row: nat, column: nat)
    requires IsCoarseMinimum(area, cost, row, column)
    ensures var refined := Refined(area, cost);
            || (exists c :: c in refined && IsCheapestAround(cost, CoarsePoint(area, row, column), c))
            || (|refined| == 10 && forall c | c in refined :: ComesFromPreferred(area, cost, c, row, column))
  {
    hide GridPoints, Rows, Columns, FineGrid, Cheapest, IsCheapestAround, IsCheaper, Minima, Sorted, IsOnGrid;
    OnGrid(area, row, column);
    assert IsOnGrid(area, row, column);
    hide IsCoarseMinimum, IsRefinedMinimum;
    var points := GridPoints(area, COARSE_STEP_M);
    var rows, columns := Rows(area, COARSE_STEP_M), Columns(area, COARSE_STEP_M);
    var costs := Costs(points, cost);
    var index := row * columns + column;
    LocalMinimumIsCoarse(area, cost, row, column);
    MinimaAreTheCheapest(costs, rows, columns, index);
    var minima := Minima(costs, rows, columns);
    if index in minima {
      CoarsePointIsListed(area, row, column);
      MinimumIsFound(points, minima, cost, index);
      CheapestIsCheapestAround(points[index], cost);
    } else {
      forall c | c in Refined(area, cost) ensures ComesFromPreferred(area, cost, c, row, column) {
        var r, k := SourceOf(area, cost, c);
        LocalMinimumIsCoarse(area, cost, r, k);
        if costs[r * columns + k] == costs[index] {
          RowByRow(columns, r, k, row, column);
        }
      }
    }
  }

  lemma MinimumIsFound(points: seq<Point>, minima: seq<nat>, cost: Point -> real, index: nat)
    requires (forall k | 0 <= k < |minima| :: minima[k] < |points|) && index in minima && index < |points|
    ensures FineGrid(points[index]) != []
    ensures Cheapest(FineGrid(points[index]), cost) in Sorted(Found(points, minima, cost), IsCheaper)
  {
    hide FineGrid, Cheapest, IsCheaper, Sorted;
    FinePointIsListed(points[index], 0, 0);
    var found := Found(points, minima, cost);
    SameElements(Sorted(found, IsCheaper), found);
    var k :| 0 <= k < |minima| && minima[k] == index;
    assert found[k] in found;
  }

  // The starts

  predicate LieNear(a: Point, b: Point) {
    (a.east - b.east) * (a.east - b.east) + (a.north - b.north) * (a.north - b.north) < 250_000.0
  }

  lemma NearIsNotApart(a: Point, b: Point)
    ensures LieNear(a, b) <==> !AreApart(a, b)
  {
  }

  lemma {:induction false} SelectionIsSorted(refined: seq<Candidate>, upTo: nat)
    requires IsSorted(refined, IsCheaper) && upTo <= |refined|
    ensures forall i, j | 0 <= i < j < |Selected(refined, upTo)| ::
              IsCheaper(Selected(refined, upTo)[i], Selected(refined, upTo)[j])
    ensures upTo < |refined| ==> forall c | c in Selected(refined, upTo) :: IsCheaper(c, refined[upTo])
  {
    hide AreApart;
    if upTo > 0 {
      SelectionIsSorted(refined, upTo - 1);
      var kept := Selected(refined, upTo - 1);
      assert forall i | 0 <= i < |kept| :: kept[i] in kept;
      assert upTo < |refined| ==> IsCheaper(refined[upTo - 1], refined[upTo]);
      forall c | c in Selected(refined, upTo)
        ensures c in Selected(refined, upTo - 1) || c == refined[upTo - 1] {
      }
    }
  }

  /** Five kept starts cost no more than the point, or one of them does that lies near it. */
  ghost predicate IsRuledOut(kept: seq<Point>, cost: Point -> real, point: Point) {
    || (|kept| == 5 && forall i | 0 <= i < |kept| :: cost(kept[i]) <= cost(point))
    || exists i :: 0 <= i < |kept| && cost(kept[i]) <= cost(point) && LieNear(kept[i], point)
  }

  lemma {:induction false} RejectedIsRuledOut(area: Area, cost: Point -> real, n: nat)
    requires n < |Refined(area, cost)|
    ensures var refined := Refined(area, cost);
            var kept := Points(Selected(refined, |refined|));
            refined[n].point in kept || IsRuledOut(kept, cost, refined[n].point)
  {
    hide Refined, AreApart, LieNear, Selected;
    var refined := Refined(area, cost);
    var kept := Selected(refined, |refined|);
    FirstRefinedIsCheapest(area, cost);
    CandidateIsKeptOrRejectedForCause(refined, n);
    SelectionIsApart(refined, |refined|);
    assert refined[..|refined|] == refined && refined[n] in refined;
    if refined[n] in kept {
      var i :| 0 <= i < |kept| && kept[i] == refined[n];
      assert Points(kept)[i] == refined[n].point;
    } else if |Selected(refined, n)| == KEPT_MINIMA {
      SelectionGrows(refined, n, |refined|);
      SelectionIsSorted(refined, n);
      forall i | 0 <= i < |kept| ensures cost(kept[i].point) <= cost(refined[n].point) {
        assert kept[i] == Selected(refined, n)[i] && kept[i] in Selected(refined, n) && kept[i] in kept;
      }
    } else {
      var c :| c in kept && c.cost <= refined[n].cost && !AreApart(c.point, refined[n].point);
      var i :| 0 <= i < |kept| && kept[i] == c;
      NearIsNotApart(c.point, refined[n].point);
      assert Points(kept)[i] == c.point;
    }
  }

  /** The cheaper one, of equally cheap ones the western one, and of those the southern one. */
  predicate ComesFirst(cost: Point -> real, a: Point, b: Point) {
    || cost(a) < cost(b)
    || (cost(a) == cost(b) && (a.east < b.east || (a.east == b.east && a.north <= b.north)))
  }

  ghost predicate IsStart(area: Area, cost: Point -> real, point: Point) {
    exists row, column :: IsRefinedMinimum(area, cost, Candidate(point, cost(point)), row, column)
  }

  /**
    The starts are one to five points, the better one first and no two near each other. Each is the cheapest point
    around a coarse point that no neighbour undercuts, and the first costs no more than any point of the coarse grid.
  */
  lemma {:induction false} StartsAreRefinedMinima(area: Area, cost: Point -> real)
    ensures var kept := Points(Selected(Refined(area, cost), |Refined(area, cost)|));
            && 1 <= |kept| <= 5
            && (forall i | 0 <= i < |kept| :: IsStart(area, cost, kept[i]))
            && (forall i, j | 0 <= i < j < |kept| ::
                  ComesFirst(cost, kept[i], kept[j]) && !LieNear(kept[i], kept[j]))
            && (forall row, column | IsOnGrid(area, row, column) ::
                  cost(kept[0]) <= cost(CoarsePoint(area, row, column)))
  {
    hide Refined, GridPoints, Rows, Columns, Selected, AreApart, LieNear, IsRejectedForCause, IsOnGrid,
        IsRefinedMinimum, CoarsePoint;
    var refined := Refined(area, cost);
    var kept := Selected(refined, |refined|);
    StartingPointsAreGood(area, cost);
    FirstRefinedIsCheapest(area, cost);
    SelectionIsSorted(refined, |refined|);
    forall i | 0 <= i < |kept| ensures IsStart(area, cost, kept[i].point) {
      assert kept[i] in kept;
      CandidatesAreRefinedMinima(area, cost, kept[i]);
    }
    forall i, j | 0 <= i < j < |kept|
      ensures ComesFirst(cost, kept[i].point, kept[j].point) && !LieNear(kept[i].point, kept[j].point)
    {
      assert kept[i] in kept && kept[j] in kept;
      NearIsNotApart(kept[i].point, kept[j].point);
    }
    forall row, column | IsOnGrid(area, row, column)
      ensures cost(kept[0].point) <= cost(CoarsePoint(area, row, column))
    {
      GridPointIsListed(area, row, column);
    }
  }

  lemma GridPointIsListed(area: Area, row: int, column: int)
    requires IsOnGrid(area, row, column)
    ensures CoarsePoint(area, row, column) in GridPoints(area, COARSE_STEP_M)
  {
    OnGrid(area, row, column);
    hide Rows, Columns, GridPoints;
    CoarsePointIsListed(area, row, column);
  }
}
