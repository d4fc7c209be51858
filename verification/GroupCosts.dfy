/** What a combined site holds, what a group costs, and exactly when a site may join it. */
module GroupCosts {
  import opened Options
  import opened Grouping

  // Combined sites

  function CellsBefore(sites: seq<Site>, n: nat): nat
    requires n <= |sites|
  {
    if n == 0 then 0 else CellsBefore(sites, n - 1) + |sites[n - 1].cells|
  }

  lemma {:induction false} CellsAreCounted(sites: seq<Site>, n: nat)
    requires n <= |sites|
    ensures |CellsOf(sites[..n])| == CellsBefore(sites, n)
  {
    if n > 0 {
      CellsAreCounted(sites, n - 1);
      assert sites[..n][..n - 1] == sites[..n - 1];
    }
  }

  lemma {:induction false} CellsStandInOrder(sites: seq<Site>, n: nat)
    requires n < |sites|
    ensures CellsBefore(sites, n) + |sites[n].cells| <= |CellsOf(sites)|
    ensures CellsOf(sites)[CellsBefore(sites, n)..CellsBefore(sites, n) + |sites[n].cells|] == sites[n].cells
    decreases |sites|
  {
    var front := sites[..|sites| - 1];
    CellsAreCounted(sites, |sites| - 1);
    if n < |sites| - 1 {
      CellsStandInOrder(front, n);
      SameCellsBefore(front, sites, n);
    }
  }

  lemma {:induction false} SameCellsBefore(front: seq<Site>, sites: seq<Site>, n: nat)
    requires n <= |front| <= |sites| && sites[..|front|] == front
    ensures CellsBefore(front, n) == CellsBefore(sites, n)
  {
    if n > 0 {
      SameCellsBefore(front, sites, n - 1);
      assert sites[n - 1] == sites[..|front|][n - 1];
    }
  }

  /** The number is the largest of these, or 0 without any. */
  ghost predicate IsMost(most: int, counts: seq<int>) {
    if counts == [] then most == 0 else most in counts && forall k | 0 <= k < |counts| :: counts[k] <= most
  }

  function ContributorsOf(sites: seq<Site>): (counts: seq<int>)
    ensures |counts| == |sites| && forall k | 0 <= k < |sites| :: counts[k] == sites[k].contributorCount
  {
    seq(|sites|, k requires 0 <= k < |sites| => sites[k].contributorCount)
  }

  function PeopleOf(sites: seq<Site>): (counts: seq<int>)
    ensures |counts| == |sites| && forall k | 0 <= k < |sites| :: counts[k] == sites[k].personCount
  {
    seq(|sites|, k requires 0 <= k < |sites| => sites[k].personCount)
  }

  lemma LargerIsMost(most: int, counts: seq<int>, next: int)
    requires IsMost(most, counts)
    ensures IsMost(if counts == [] then next else if most < next then next else most, counts + [next])
  {
  }

  lemma {:induction false} MostIsMost(sites: seq<Site>)
    ensures IsMost(MostContributors(sites), ContributorsOf(sites)) && IsMost(MostPeople(sites), PeopleOf(sites))
  {
    if sites != [] {
      var front, last := sites[..|sites| - 1], sites[|sites| - 1];
      MostIsMost(front);
      hide IsMost;
      LargerIsMost(MostContributors(front), ContributorsOf(front), last.contributorCount);
      LargerIsMost(MostPeople(front), PeopleOf(front), last.personCount);
      assert ContributorsOf(sites) == ContributorsOf(front) + [last.contributorCount];
      assert PeopleOf(sites) == PeopleOf(front) + [last.personCount];
    }
  }

  /** The combined site has the cells of each site in turn and no others, and the largest of their counts. */
  lemma {:induction false} CombinedHoldsAll(sites: seq<Site>)
    ensures var all := Combined(sites);
            && |all.cells| == CellsBefore(sites, |sites|)
            && (forall n | 0 <= n < |sites| ::
                  && CellsBefore(sites, n) + |sites[n].cells| <= |all.cells|
                  && all.cells[CellsBefore(sites, n)..CellsBefore(sites, n) + |sites[n].cells|] == sites[n].cells)
            && IsMost(all.contributorCount, ContributorsOf(sites)) && IsMost(all.personCount, PeopleOf(sites))
  {
    hide CellsOf, CellsBefore, HandoversOf, MostContributors, MostPeople, IsMost;
    CellsAreCounted(sites, |sites|);
    assert sites[..|sites|] == sites;
    forall n | 0 <= n < |sites|
      ensures CellsBefore(sites, n) + |sites[n].cells| <= |CellsOf(sites)|
      ensures CellsOf(sites)[CellsBefore(sites, n)..CellsBefore(sites, n) + |sites[n].cells|] == sites[n].cells
    {
      CellsStandInOrder(sites, n);
    }
    MostIsMost(sites);
  }

  // Costs

  function Sum(costs: seq<real>): real {
    if costs == [] then 0.0 else Sum(costs[..|costs| - 1]) + costs[|costs| - 1]
  }

  /** The n-th member has the cost, at the joint place and with those of the joint parameters that are its own. */
  ghost predicate IsShare(engine: Engine, members: seq<Site>, joint: Estimate, n: nat, cost: real)
    requires n < |members|
  {
    var from, to := CellsBefore(members, n), CellsBefore(members, n + 1);
    from <= to <= |joint.cellParameters|
    && engine.costAt(members[n], joint.point, joint.cellParameters[from..to]) == Some(cost)
  }

  ghost predicate AreShares(engine: Engine, members: seq<Site>, joint: Estimate, costs: seq<real>) {
    |costs| <= |members| && forall n | 0 <= n < |costs| :: IsShare(engine, members, joint, n, costs[n])
  }

  lemma {:induction false} SharesOfFirst(engine: Engine, members: seq<Site>, joint: Estimate, count: nat)
    returns (costs: seq<real>)
    requires count <= |members|
    ensures AreShares(engine, members, joint, costs) && |costs| <= count
    ensures match CostOfFirst(engine, members, joint, count)
            case Some((offset, total)) =>
              |costs| == count && offset == CellsBefore(members, count) && total == Sum(costs)
            case None => |costs| < count && forall cost :: !IsShare(engine, members, joint, |costs|, cost)
  {
    costs := [];
    if count > 0 {
      costs := SharesOfFirst(engine, members, joint, count - 1);
      var next := CellsBefore(members, count);
      if CostOfFirst(engine, members, joint, count - 1).Some? && next <= |joint.cellParameters| {
        var one := engine.costAt(members[count - 1], joint.point,
            joint.cellParameters[CellsBefore(members, count - 1)..next]);
        if one.Some? {
          assert (costs + [one.value])[..count - 1] == costs;
          costs := costs + [one.value];
        }
      }
    }
  }

  lemma {:induction false} SharesAreSummed(engine: Engine, members: seq<Site>, joint: Estimate, costs: seq<real>)
    requires AreShares(engine, members, joint, costs)
    ensures CostOfFirst(engine, members, joint, |costs|) == Some((CellsBefore(members, |costs|), Sum(costs)))
  {
    if costs != [] {
      var front := costs[..|costs| - 1];
      SharesAreSummed(engine, members, joint, front);
      assert Sum(costs) == Sum(front) + costs[|front|];
      hide Sum;
      assert IsShare(engine, members, joint, |front|, costs[|front|]);
      hide AreShares;
    }
  }

  /** The joint cost is the sum of the shares of all members, and there is none if a member has no share. */
  lemma {:induction false} JointCostIsSum(engine: Engine, members: seq<Site>, joint: Estimate, total: real)
    ensures JointCost(engine, members, joint) == Some(total)
       <==> exists costs :: |costs| == |members| && AreShares(engine, members, joint, costs) && Sum(costs) == total
  {
    hide AreShares, CostOfFirst, Sum;
    var own := SharesOfFirst(engine, members, joint, |members|);
    if costs :| |costs| == |members| && AreShares(engine, members, joint, costs) && Sum(costs) == total {
      SharesAreSummed(engine, members, joint, costs);
    }
  }

  // Joining

  /** A joint fit may cost up to twice its squared scale more than the parts; with a scale of 0 it must cost less. */
  lemma {:induction false} JoinsExactlyBelow(excess: real, scale: real)
    ensures MayJoin(excess, scale) <==> if scale == 0.0 then excess < 0.0 else excess <= 2.0 * (scale * scale)
  {
    var squared := scale * scale;
    SquareIsPositive(scale, squared);
    if squared > 0.0 {
      QuotientIsBelow(excess, squared);
    }
  }

  lemma SquareIsPositive(x: real, square: real)
    requires square == x * x
    ensures square >= 0.0 && (square == 0.0 <==> x == 0.0)
  {
    var size := if x < 0.0 then -x else x;
    assert square == size * size;
    if size > 0.0 {
      ProductIsPositive(size, size, square);
    } else {
      assert square == 0.0 * x;
    }
  }

  lemma ProductIsPositive(x: real, y: real, product: real)
    requires x > 0.0 && y > 0.0 && product == x * y
    ensures product > 0.0
  {
  }

  lemma QuotientIsBelow(x: real, divisor: real)
    requires divisor > 0.0
    ensures x / divisor <= 2.0 <==> x <= 2.0 * divisor
  {
    var quotient := x / divisor;
    assert x == quotient * divisor;
    assert (quotient - 2.0) * divisor == x - 2.0 * divisor;
  }

  /**
    A site joins a group exactly if they lie as near as their uncertainties allow, all
    of them have a joint estimate and cost, and that exceeds what they cost apart by little.
  */
  lemma {:induction false} SitesJoinExactly(engine: Engine, sites: seq<Located>, group: Group, index: nat,
        joined: Group)
    requires index < |sites| && forall k | 0 <= k < |group.members| :: group.members[k] < |sites|
    ensures var own, members := sites[index].own, SitesOf(sites, group.members) + [sites[index].site];
            var joint := joined.estimate;
            Joined(engine, sites, group, index) == Some(joined)
            <==> && engine.distance(group.estimate.point, own.point) <= group.estimate.uncertaintyM + own.uncertaintyM
                 && joined.members == group.members + [index]
                 && engine.estimate(Combined(members)) == Some(joint)
                 && JointCost(engine, members, joint) == Some(joined.cost)
                 && if joint.ellipseScale == 0.0 then joined.cost < group.cost + own.cost
                    else joined.cost <= group.cost + own.cost + 2.0 * (joint.ellipseScale * joint.ellipseScale)
  {
    hide MayJoin, Combined, JointCost;
    JoinsExactlyBelow(joined.cost - (group.cost + sites[index].own.cost), joined.estimate.ellipseScale);
  }
}
