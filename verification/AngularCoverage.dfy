/** `angular_coverage_deg` of estimate.rs: bearings are degrees from 0 up to 360, over the reals. */
module AngularCoverage {
  import opened Sorting

  const FULL_CIRCLE := 360.0

  ghost predicate AreBearings(bearings: seq<real>) {
    forall b | b in bearings :: 0.0 <= b < FULL_CIRCLE
  }

  predicate AtMost(a: real, b: real) {
    a <= b
  }

  function Larger(a: real, b: real): real {
    if a < b then b else a
  }

  /** The largest gap between neighbours in a sorted list, and 0 if there is none. */
  function LargestGap(sorted: seq<real>): real {
    if |sorted| < 2 then 0.0
    else Larger(LargestGap(sorted[..|sorted| - 1]), sorted[|sorted| - 1] - sorted[|sorted| - 2])
  }

  function CoverageOf(sorted: seq<real>): real {
    if |sorted| < 2 then 0.0
    else FULL_CIRCLE - Larger(LargestGap(sorted), sorted[0] + FULL_CIRCLE - sorted[|sorted| - 1])
  }

  function AngularCoverage(bearings: seq<real>): real {
    CoverageOf(Sorted(bearings, AtMost))
  }

  /** How far clockwise a bearing lies from the start of an arc. */
  function Clockwise(start: real, bearing: real): real {
    if bearing >= start then bearing - start else bearing - start + FULL_CIRCLE
  }

  /** The arc that begins at the start and goes clockwise over the given width holds every bearing. */
  ghost predicate Contains(start: real, width: real, bearings: seq<real>) {
    forall b | b in bearings :: Clockwise(start, b) <= width
  }

  ghost predicate Ascends(sorted: seq<real>) {
    forall i, j | 0 <= i <= j < |sorted| :: sorted[i] <= sorted[j]
  }

  /** The largest gap is one of the gaps, and no gap is larger. */
  lemma {:induction false} LargestGapIsLargest(sorted: seq<real>) returns (at: nat)
    requires |sorted| >= 2 && Ascends(sorted)
    ensures at + 1 < |sorted| && LargestGap(sorted) == sorted[at + 1] - sorted[at]
    ensures forall k | 0 <= k < |sorted| - 1 :: sorted[k + 1] - sorted[k] <= LargestGap(sorted)
  {
    var rest := sorted[..|sorted| - 1];
    if |sorted| == 2 {
      at := 0;
    } else {
      at := LargestGapIsLargest(rest);
      forall k | 0 <= k < |rest| - 1 ensures sorted[k + 1] - sorted[k] <= LargestGap(rest) {
        assert rest[k + 1] - rest[k] <= LargestGap(rest);
      }
      if LargestGap(rest) < sorted[|sorted| - 1] - sorted[|sorted| - 2] {
        at := |sorted| - 2;
      }
    }
  }

  /** The arc that begins behind the largest gap holds all bearings and is as wide as the coverage. */
  lemma {:induction false} CoverageIsReached(sorted: seq<real>) returns (start: real)
    requires sorted != [] && AreBearings(sorted) && Ascends(sorted)
    ensures start in sorted && Contains(start, CoverageOf(sorted), sorted)
  {
    if |sorted| == 1 {
      start := sorted[0];
    } else {
      var at := LargestGapIsLargest(sorted);
      var aroundNorth := sorted[0] + FULL_CIRCLE - sorted[|sorted| - 1];
      start := if LargestGap(sorted) < aroundNorth then sorted[0] else sorted[at + 1];
      forall b | b in sorted ensures Clockwise(start, b) <= CoverageOf(sorted) {
        var k :| 0 <= k < |sorted| && sorted[k] == b;
        assert sorted[0] <= sorted[k] <= sorted[|sorted| - 1];
        assert sorted[at] in sorted && sorted[|sorted| - 1] in sorted && sorted[0] in sorted;
        assert k <= at ==> sorted[k] <= sorted[at];
        assert at + 1 <= k ==> sorted[at + 1] <= sorted[k];
      }
    }
  }

  /** The bearings that lie before the start of an arc, in a sorted list. */
  lemma {:induction false} Before(sorted: seq<real>, start: real) returns (n: nat)
    requires Ascends(sorted)
    ensures n <= |sorted| && forall k | 0 <= k < |sorted| :: sorted[k] < start <==> k < n
  {
    n := 0;
    if sorted != [] {
      n := Before(sorted[..|sorted| - 1], start);
      if sorted[|sorted| - 1] < start {
        assert n < |sorted| - 1 ==> sorted[n] <= sorted[|sorted| - 1];
        n := |sorted|;
      }
    }
  }

  /** No arc that holds all bearings is narrower than the coverage: what it leaves out fits into one gap. */
  lemma {:induction false} CoverageIsLeast(sorted: seq<real>, start: real, width: real)
    requires sorted != [] && AreBearings(sorted) && Ascends(sorted)
    requires 0.0 <= start < FULL_CIRCLE && Contains(start, width, sorted)
    ensures CoverageOf(sorted) <= width
  {
    var first, last := sorted[0], sorted[|sorted| - 1];
    assert first in sorted && last in sorted;
    assert Clockwise(start, first) <= width && Clockwise(start, last) <= width;
    if |sorted| >= 2 {
      var at := LargestGapIsLargest(sorted);
      var n := Before(sorted, start);
      assert first < start <==> 0 < n;
      assert last < start <==> n == |sorted|;
      if 0 < n < |sorted| {
        assert sorted[n - 1] in sorted && Clockwise(start, sorted[n - 1]) <= width;
        assert sorted[n - 1] < start <= sorted[n];
        assert sorted[n - 1 + 1] - sorted[n - 1] <= LargestGap(sorted);
      }
    }
  }

  lemma SortedAscends(bearings: seq<real>) returns (sorted: seq<real>)
    ensures sorted == Sorted(bearings, AtMost) && |sorted| == |bearings| && Ascends(sorted)
    ensures forall b :: b in sorted <==> b in bearings
  {
    sorted := Sorted(bearings, AtMost);
    SameElements(sorted, bearings);
    SortedIsSorted(bearings, AtMost);
    forall i, j | 0 <= i <= j < |sorted| ensures sorted[i] <= sorted[j] {
      assert AtMost(sorted[i], sorted[j]) || i == j;
    }
  }

  lemma CoverageIsWithinCircle(sorted: seq<real>)
    requires sorted != [] && AreBearings(sorted) && Ascends(sorted)
    ensures 0.0 <= CoverageOf(sorted) < FULL_CIRCLE
  {
    assert sorted[0] in sorted && sorted[|sorted| - 1] in sorted;
    if |sorted| >= 2 {
      var at := LargestGapIsLargest(sorted);
      assert sorted[at] in sorted && sorted[at + 1] in sorted;
    }
  }

  /**
    For every list of bearings but the empty one, the coverage is the width of the smallest arc that holds them all:
    some arc of that width does, and no narrower one.
  */
  lemma {:induction false} CoverageIsSmallestArc(bearings: seq<real>) returns (start: real)
    requires bearings != [] && AreBearings(bearings)
    ensures 0.0 <= start < FULL_CIRCLE && Contains(start, AngularCoverage(bearings), bearings)
    ensures forall s, width | 0.0 <= s < FULL_CIRCLE && Contains(s, width, bearings) ::
             AngularCoverage(bearings) <= width
    ensures 0.0 <= AngularCoverage(bearings) < FULL_CIRCLE
  {
    hide CoverageOf, Clockwise, Ascends, Sorted;
    var sorted := SortedAscends(bearings);
    start := CoverageIsReached(sorted);
    CoverageIsWithinCircle(sorted);
    forall s, width | 0.0 <= s < FULL_CIRCLE && Contains(s, width, bearings)
      ensures AngularCoverage(bearings) <= width
    {
      CoverageIsLeast(sorted, s, width);
    }
  }
}
