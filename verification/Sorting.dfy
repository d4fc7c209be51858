/** A stable sort, standing in for the one of the Rust library. */
module Sorting {
  ghost predicate IsTotalPreorder<T(!new)>(before: (T, T) -> bool) {
    && (forall x, y :: before(x, y) || before(y, x))
    && (forall x, y, z :: before(x, y) && before(y, z) ==> before(x, z))
  }

  ghost predicate IsSorted<T>(xs: seq<T>, before: (T, T) -> bool) {
    forall i, j | 0 <= i <= j < |xs| :: before(xs[i], xs[j]) || i == j
  }

  /** Puts x behind everything that may stand before it. */
  function Inserted<T>(xs: seq<T>, x: T, before: (T, T) -> bool): (r: seq<T>)
    ensures multiset(r) == multiset(xs) + multiset{x}
  {
    if xs == [] then [x]
    else if before(xs[|xs| - 1], x) then xs + [x]
    else
      assert xs == xs[..|xs| - 1] + [xs[|xs| - 1]];
      Inserted(xs[..|xs| - 1], x, before) + [xs[|xs| - 1]]
  }

  function Sorted<T>(xs: seq<T>, before: (T, T) -> bool): (r: seq<T>)
    ensures multiset(r) == multiset(xs)
    ensures |r| == |xs|
  {
    if xs == [] then []
    else
      assert xs == xs[..|xs| - 1] + [xs[|xs| - 1]];
      var r := Inserted(Sorted(xs[..|xs| - 1], before), xs[|xs| - 1], before);
      assert |multiset(r)| == |multiset(xs)|;
      r
  }

  lemma SameElements<T>(xs: seq<T>, ys: seq<T>)
    requires multiset(xs) == multiset(ys)
    ensures forall x :: x in xs <==> x in ys
  {
    forall x ensures x in xs <==> x in ys {
      assert x in xs <==> x in multiset(xs);
      assert x in ys <==> x in multiset(ys);
    }
  }

  lemma {:induction false} InsertedIsSorted<T(!new)>(xs: seq<T>, x: T, before: (T, T) -> bool)
    requires IsTotalPreorder(before) && IsSorted(xs, before)
    ensures IsSorted(Inserted(xs, x, before), before)
  {
    if xs != [] {
      var last := xs[|xs| - 1];
      if before(last, x) {
        forall i | 0 <= i < |xs| ensures before(xs[i], x) { assert before(xs[i], last) || i == |xs| - 1; }
      } else {
        var rest := Inserted(xs[..|xs| - 1], x, before);
        InsertedIsSorted(xs[..|xs| - 1], x, before);
        SameElements(rest, xs[..|xs| - 1] + [x]);
        forall i | 0 <= i < |rest| ensures before(rest[i], last) {
          assert rest[i] in xs[..|xs| - 1] + [x];
        }
      }
    }
  }

  lemma {:induction false} SortedIsSorted<T(!new)>(xs: seq<T>, before: (T, T) -> bool)
    requires IsTotalPreorder(before)
    ensures IsSorted(Sorted(xs, before), before)
  {
    if xs != [] {
      SortedIsSorted(xs[..|xs| - 1], before);
      InsertedIsSorted(Sorted(xs[..|xs| - 1], before), xs[|xs| - 1], before);
    }
  }
}
