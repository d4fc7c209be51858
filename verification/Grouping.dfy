/** Greedy grouping of sites (group.rs) over the reals; the estimator itself is any function. */
module Grouping {
  import opened Options

  const GROUPING_THRESHOLD := 2.0

  type CellData(==, !new)
  type CellParameters(==, !new)
  type Place(==, !new)

  datatype Handover = Handover(fromCell: nat, toCell: nat, square: nat, weightMilli: int, lastSeenOn: int)
  datatype Site = Site(cells: seq<CellData>, handovers: seq<Handover>, contributorCount: int, personCount: int)
  datatype Estimate = Estimate(point: Place, uncertaintyM: real, ellipseScale: real, cost: real,
        cellParameters: seq<CellParameters>)

  /** `estimate`, `cost_at` and `distance_meters`, about which nothing is assumed. */
  datatype Engine = Engine(
    estimate: Site -> Option<Estimate>,
    costAt: (Site, Place, seq<CellParameters>) -> Option<real>,
    distance: (Place, Place) -> real)

  /** A division by a zero scale is infinite, or no number at all, and then only a negative excess passes. */
  predicate MayJoin(excessCost: real, jointEllipseScale: real) {
    var squared := jointEllipseScale * jointEllipseScale;
    if squared == 0.0 then excessCost < 0.0 else excessCost / squared <= GROUPING_THRESHOLD
  }

  // Combined sites

  function Shifted(handover: Handover, offset: nat): Handover {
    handover.(fromCell := handover.fromCell + offset, toCell := handover.toCell + offset)
  }

  function ShiftedAll(handovers: seq<Handover>, offset: nat): (r: seq<Handover>)
    ensures |r| == |handovers| && forall k | 0 <= k < |r| :: r[k] == Shifted(handovers[k], offset)
  {
    seq(|handovers|, k requires 0 <= k < |handovers| => Shifted(handovers[k], offset))
  }

  function CellsOf(sites: seq<Site>): seq<CellData> {
    if sites == [] then [] else CellsOf(sites[..|sites| - 1]) + sites[|sites| - 1].cells
  }

  function HandoversOf(sites: seq<Site>): seq<Handover> {
    if sites == [] then []
    else
      var before := sites[..|sites| - 1];
      HandoversOf(before) + ShiftedAll(sites[|sites| - 1].handovers, |CellsOf(before)|)
  }

  function Larger(a: int, b: int): int {
    if a < b then b else a
  }

  function MostContributors(sites: seq<Site>): int {
    if sites == [] then 0
    else if |sites| == 1 then sites[0].contributorCount
    else Larger(MostContributors(sites[..|sites| - 1]), sites[|sites| - 1].contributorCount)
  }

  function MostPeople(sites: seq<Site>): int {
    if sites == [] then 0
    else if |sites| == 1 then sites[0].personCount
    else Larger(MostPeople(sites[..|sites| - 1]), sites[|sites| - 1].personCount)
  }

  function Combined(sites: seq<Site>): Site {
    Site(CellsOf(sites), HandoversOf(sites), MostContributors(sites), MostPeople(sites))
  }

  method Combine(sites: seq<Site>) returns (site: Site)
    ensures site == Combined(sites)
  {
    var cells, handovers := [], [];
    for n := 0 to |sites|
      invariant cells == CellsOf(sites[..n]) && handovers == HandoversOf(sites[..n])
    {
      assert sites[..n + 1][..n] == sites[..n];
      handovers := handovers + ShiftedAll(sites[n].handovers, |cells|);
      cells := cells + sites[n].cells;
    }
    assert sites[..|sites|] == sites;
    site := Site(cells, handovers, MostContributors(sites), MostPeople(sites));
  }

  /** Where the n-th site's own handover stands in the combined list. */
  lemma {:induction false} CombinedKeepsTargets(sites: seq<Site>, n: nat, k: nat)
    requires n < |sites| && k < |sites[n].handovers|
    ensures var at := |HandoversOf(sites[..n])| + k;
            var own := sites[n].handovers[k];
            var all := Combined(sites);
            && at < |all.handovers|
            && all.handovers[at] == Shifted(own, |CellsOf(sites[..n])|)
            && (own.fromCell < |sites[n].cells| ==>
                  all.handovers[at].fromCell < |all.cells|
                      && all.cells[all.handovers[at].fromCell] == sites[n].cells[own.fromCell])
            && (own.toCell < |sites[n].cells| ==>
                  all.handovers[at].toCell < |all.cells|
                      && all.cells[all.handovers[at].toCell] == sites[n].cells[own.toCell])
    decreases |sites|
  {
    var before := sites[..|sites| - 1];
    if n < |sites| - 1 {
      assert before[..n] == sites[..n];
      CombinedKeepsTargets(before, n, k);
    }
  }

  function TotalHandovers(sites: seq<Site>): nat {
    if sites == [] then 0 else TotalHandovers(sites[..|sites| - 1]) + |sites[|sites| - 1].handovers|
  }

  /** Nothing but the sites' own handovers is in the combined list. */
  lemma {:induction false} CombinedAddsNoHandover(sites: seq<Site>)
    ensures |Combined(sites).handovers| == TotalHandovers(sites)
  {
    if sites != [] {
      CombinedAddsNoHandover(sites[..|sites| - 1]);
    }
  }

  // Groups

  /** The cost of the first members at the joint place, each with its own share of the joint parameters. */
  function CostOfFirst(engine: Engine, members: seq<Site>, joint: Estimate, count: nat): (r: Option<(nat, real)>)
    requires count <= |members|
  {
    if count == 0 then Some((0, 0.0))
    else
      match CostOfFirst(engine, members, joint, count - 1)
      case None => None
      case Some((offset, total)) =>
        var site := members[count - 1];
        var next := offset + |site.cells|;
        if next > |joint.cellParameters| then None
        else
          match engine.costAt(site, joint.point, joint.cellParameters[offset..next])
          case None => None
          case Some(cost) => Some((next, total + cost))
  }

  function JointCost(engine: Engine, members: seq<Site>, joint: Estimate): Option<real> {
    match CostOfFirst(engine, members, joint, |members|)
    case None => None
    case Some((_, total)) => Some(total)
  }

  method JointCostOf(engine: Engine, members: seq<Site>, joint: Estimate) returns (cost: Option<real>)
    ensures cost == JointCost(engine, members, joint)
  {
    var offset, total := 0, 0.0;
    for n := 0 to |members|
      invariant CostOfFirst(engine, members, joint, n) == Some((offset, total))
    {
      var site := members[n];
      if offset + |site.cells| > |joint.cellParameters| {
        NoneStaysNone(engine, members, joint, n + 1);
        return None;
      }
      var one := engine.costAt(site, joint.point, joint.cellParameters[offset..offset + |site.cells|]);
      if one.None? {
        NoneStaysNone(engine, members, joint, n + 1);
        return None;
      }
      offset, total := offset + |site.cells|, total + one.value;
    }
    cost := Some(total);
  }

  lemma {:induction false} NoneStaysNone(engine: Engine, members: seq<Site>, joint: Estimate, count: nat)
    requires count <= |members| && CostOfFirst(engine, members, joint, count) == None
    ensures JointCost(engine, members, joint) == None
    decreases |members| - count
  {
    if count < |members| {
      NoneStaysNone(engine, members, joint, count + 1);
    }
  }

  datatype Group = Group(members: seq<nat>, estimate: Estimate, cost: real)

  /** A site with the estimate of its own. */
  datatype Located = Located(site: Site, own: Estimate)

  function SitesOf(sites: seq<Located>, members: seq<nat>): (r: seq<Site>)
    requires forall k | 0 <= k < |members| :: members[k] < |sites|
    ensures |r| == |members|
  {
    seq(|members|, k requires 0 <= k < |members| => sites[members[k]].site)
  }

  /** What the group becomes when it takes the site in, or None if it refuses. */
  function Joined(engine: Engine, sites: seq<Located>, group: Group, index: nat): Option<Group>
    requires index < |sites| && forall k | 0 <= k < |group.members| :: group.members[k] < |sites|
  {
    var own := sites[index].own;
    if engine.distance(group.estimate.point, own.point) > group.estimate.uncertaintyM + own.uncertaintyM then None
    else
      var members := SitesOf(sites, group.members) + [sites[index].site];
      match engine.estimate(Combined(members))
      case None => None
      case Some(joint) =>
        match JointCost(engine, members, joint)
        case None => None
        case Some(cost) =>
          if MayJoin(cost - (group.cost + own.cost), joint.ellipseScale)
          then Some(Group(group.members + [index], joint, cost))
          else None
  }

  ghost predicate NamesSites(groups: seq<Group>, count: nat) {
    forall g, k | 0 <= g < |groups| && 0 <= k < |groups[g].members| :: groups[g].members[k] < count
  }

  predicate IsRefused(engine: Engine, sites: seq<Located>, group: Group, index: nat)
    requires index < |sites| && forall k | 0 <= k < |group.members| :: group.members[k] < |sites|
  {
    Joined(engine, sites, group, index).None?
  }

  /** The first group from `from` on that takes the site in, or the number of groups. */
  function FirstToJoin(engine: Engine, sites: seq<Located>, groups: seq<Group>, index: nat, from: nat): (g: nat)
    requires index < |sites| && NamesSites(groups, |sites|) && from <= |groups|
    ensures from <= g <= |groups|
    ensures forall h | from <= h < g :: IsRefused(engine, sites, groups[h], index)
    ensures g < |groups| ==> !IsRefused(engine, sites, groups[g], index)
    decreases |groups| - from
  {
    if from == |groups| || !IsRefused(engine, sites, groups[from], index) then from
    else FirstToJoin(engine, sites, groups, index, from + 1)
  }

  /** The groups once the first sites have been placed. */
  function Groups(engine: Engine, sites: seq<Located>, count: nat): (groups: seq<Group>)
    requires count <= |sites|
    ensures NamesSites(groups, count)
  {
    if count == 0 then []
    else
      var index := count - 1;
      var groups := Groups(engine, sites, index);
      var g := FirstToJoin(engine, sites, groups, index, 0);
      if g < |groups| then groups[g := Joined(engine, sites, groups[g], index).value]
      else groups + [Group([index], sites[index].own, sites[index].own.cost)]
  }

  method FormGroups(engine: Engine, sites: seq<Located>) returns (groups: seq<Group>)
    ensures groups == Groups(engine, sites, |sites|)
  {
    hide Combined, JointCost, MayJoin;
    groups := [];
    for index := 0 to |sites|
      invariant groups == Groups(engine, sites, index)
    {
      var g := 0;
      while g < |groups| && Joined(engine, sites, groups[g], index).None?
        invariant g <= |groups|
        invariant FirstToJoin(engine, sites, groups, index, g) == FirstToJoin(engine, sites, groups, index, 0)
      {
        g := g + 1;
      }
      if g < |groups| {
        groups := groups[g := Joined(engine, sites, groups[g], index).value];
      } else {
        groups := groups + [Group([index], sites[index].own, sites[index].own.cost)];
      }
    }
  }

  // The partition

  function MembersOf(groups: seq<Group>): (lists: seq<seq<nat>>)
    ensures |lists| == |groups| && forall g | 0 <= g < |groups| :: lists[g] == groups[g].members
  {
    seq(|groups|, g requires 0 <= g < |groups| => groups[g].members)
  }

  ghost predicate AreIncreasing(members: seq<nat>) {
    forall i, j | 0 <= i < j < |members| :: members[i] < members[j]
  }

  ghost predicate IsIn(lists: seq<seq<nat>>, g: nat, index: nat) {
    g < |lists| && index in lists[g]
  }

  ghost predicate IsInSome(lists: seq<seq<nat>>, index: nat) {
    exists g: nat :: IsIn(lists, g, index)
  }

  /** Every index below the count is in exactly one of the lists, which are increasing and not empty. */
  ghost predicate IsPartition(lists: seq<seq<nat>>, count: nat) {
    && (forall g | 0 <= g < |lists| :: lists[g] != [] && AreIncreasing(lists[g]))
    && (forall g: nat, index: nat | IsIn(lists, g, index) :: index < count)
    && (forall index: nat | index < count :: IsInSome(lists, index))
    && (forall g: nat, h: nat, index: nat | IsIn(lists, g, index) && IsIn(lists, h, index) :: g == h)
  }

  lemma JoinKeepsPartition(lists: seq<seq<nat>>, index: nat, g: nat)
    requires IsPartition(lists, index) && g < |lists|
    ensures IsPartition(lists[g := lists[g] + [index]], index + 1)
  {
    var next := lists[g := lists[g] + [index]];
    forall h: nat, i: nat ensures IsIn(next, h, i) <==> IsIn(lists, h, i) || (h == g && i == index) {}
    forall i: nat | i < index + 1 ensures IsInSome(next, i) {
      if i == index {
        assert IsIn(next, g, i);
      } else {
        assert IsInSome(lists, i);
        var h: nat :| IsIn(lists, h, i);
        assert IsIn(next, h, i);
      }
    }
    forall k | 0 <= k < |lists[g]| ensures lists[g][k] < index { assert IsIn(lists, g, lists[g][k]); }
  }

  lemma OpeningKeepsPartition(lists: seq<seq<nat>>, index: nat)
    requires IsPartition(lists, index)
    ensures IsPartition(lists + [[index]], index + 1)
  {
    var next := lists + [[index]];
    forall h: nat, i: nat ensures IsIn(next, h, i) <==> IsIn(lists, h, i) || (h == |lists| && i == index) {}
    forall i: nat | i < index + 1 ensures IsInSome(next, i) {
      if i == index {
        assert IsIn(next, |lists|, i);
      } else {
        assert IsInSome(lists, i);
        var h: nat :| IsIn(lists, h, i);
        assert IsIn(next, h, i);
      }
    }
  }

  lemma {:induction false} GroupsPartitionTheSites(engine: Engine, sites: seq<Located>, count: nat)
    requires count <= |sites|
    ensures IsPartition(MembersOf(Groups(engine, sites, count)), count)
  {
    hide IsPartition, Combined;
    if count == 0 {
      NothingIsPartitioned();
    } else {
      var index := count - 1;
      var groups := Groups(engine, sites, index);
      var g := FirstToJoin(engine, sites, groups, index, 0);
      GroupsPartitionTheSites(engine, sites, index);
      if g < |groups| {
        JoinKeepsPartition(MembersOf(groups), index, g);
        assert MembersOf(Groups(engine, sites, count)) == MembersOf(groups)[g := MembersOf(groups)[g] + [index]];
      } else {
        OpeningKeepsPartition(MembersOf(groups), index);
        assert MembersOf(Groups(engine, sites, count)) == MembersOf(groups) + [[index]];
      }
    }
  }

  lemma NothingIsPartitioned()
    ensures IsPartition([], 0)
  {
  }

  // The cost

  function OwnCosts(sites: seq<Located>, members: seq<nat>): real {
    if members == [] then 0.0
    else
      var last := members[|members| - 1];
      OwnCosts(sites, members[..|members| - 1]) + if last < |sites| then sites[last].own.cost else 0.0
  }

  function ScaleOf(engine: Engine, sites: seq<Located>, members: seq<nat>): real
    requires forall k | 0 <= k < |members| :: members[k] < |sites|
  {
    match engine.estimate(Combined(SitesOf(sites, members)))
    case Some(joint) => joint.ellipseScale
    case None => 0.0
  }

  /** The squares of the ellipse scales of the joint estimates, one for each member that joined the first. */
  function SquaredScales(engine: Engine, sites: seq<Located>, members: seq<nat>): real
    requires forall k | 0 <= k < |members| :: members[k] < |sites|
  {
    if |members| < 2 then 0.0
    else
      var scale := ScaleOf(engine, sites, members);
      SquaredScales(engine, sites, members[..|members| - 1]) + scale * scale
  }

  /** A group's estimate is its own site's, or the joint one of its members; its cost is bounded by its joins. */
  ghost predicate IsWellCosted(engine: Engine, sites: seq<Located>, group: Group) {
    && group.members != []
    && (forall k | 0 <= k < |group.members| :: group.members[k] < |sites|)
    && (if |group.members| == 1
        then group.estimate == sites[group.members[0]].own && group.cost == group.estimate.cost
        else engine.estimate(Combined(SitesOf(sites, group.members))) == Some(group.estimate)
             && JointCost(engine, SitesOf(sites, group.members), group.estimate) == Some(group.cost))
    && group.cost <= OwnCosts(sites, group.members) + GROUPING_THRESHOLD * SquaredScales(engine, sites, group.members)
  }

  lemma {:induction false} JoiningCostsLittle(excess: real, scale: real)
    requires MayJoin(excess, scale)
    ensures excess <= GROUPING_THRESHOLD * (scale * scale)
  {
    var squared := scale * scale;
    if squared != 0.0 {
      assert squared > 0.0;
      assert excess == excess / squared * squared;
      assert excess / squared * squared <= GROUPING_THRESHOLD * squared;
    }
  }

  lemma JoinedIsWellCosted(engine: Engine, sites: seq<Located>, group: Group, index: nat)
    requires index < |sites| && IsWellCosted(engine, sites, group) && !IsRefused(engine, sites, group, index)
    ensures IsWellCosted(engine, sites, Joined(engine, sites, group, index).value)
  {
    var joined := Joined(engine, sites, group, index).value;
    var members := SitesOf(sites, group.members) + [sites[index].site];
    assert members == SitesOf(sites, joined.members);
    assert joined.members[..|joined.members| - 1] == group.members;
    JoiningCostsLittle(joined.cost - (group.cost + sites[index].own.cost), joined.estimate.ellipseScale);
  }

  /** Every group's cost is at most its members' own costs and twice the squared ellipse scales of its joins. */
  lemma {:induction false} GroupsAreWellCosted(engine: Engine, sites: seq<Located>, count: nat)
    requires count <= |sites|
    ensures forall g | 0 <= g < |Groups(engine, sites, count)| ::
             IsWellCosted(engine, sites, Groups(engine, sites, count)[g])
  {
    if count > 0 {
      var index := count - 1;
      var groups := Groups(engine, sites, index);
      var g := FirstToJoin(engine, sites, groups, index, 0);
      GroupsAreWellCosted(engine, sites, index);
      if g < |groups| {
        JoinedIsWellCosted(engine, sites, groups[g], index);
      } else {
        var own := sites[index].own;
        assert [index][..0] == [];
        assert IsWellCosted(engine, sites, Group([index], own, own.cost));
      }
    }
  }

  // What became of each site, from the final groups alone

  /** The group that the members form: one site alone, or sites with their joint estimate. */
  function GroupOf(engine: Engine, sites: seq<Located>, members: seq<nat>): Option<Group>
    requires forall k | 0 <= k < |members| :: members[k] < |sites|
  {
    if members == [] then None
    else if |members| == 1 then Some(Group(members, sites[members[0]].own, sites[members[0]].own.cost))
    else
      match engine.estimate(Combined(SitesOf(sites, members)))
      case None => None
      case Some(joint) =>
        match JointCost(engine, SitesOf(sites, members), joint)
        case None => None
        case Some(cost) => Some(Group(members, joint, cost))
  }

  /** The members that came before the given site. */
  function Below(members: seq<nat>, index: nat): (below: seq<nat>)
    ensures forall k | 0 <= k < |below| :: below[k] < index
  {
    if members == [] then []
    else
      var last := members[|members| - 1];
      Below(members[..|members| - 1], index) + if last < index then [last] else []
  }

  lemma {:induction false} AllAreBelow(members: seq<nat>, index: nat)
    requires forall k | 0 <= k < |members| :: members[k] < index
    ensures Below(members, index) == members
  {
    if members != [] {
      AllAreBelow(members[..|members| - 1], index);
    }
  }

  lemma OneMoreIsNotBelow(members: seq<nat>, later: nat, index: nat)
    requires index <= later
    ensures Below(members + [later], index) == Below(members, index) && Below([later], index) == []
  {
    assert (members + [later])[..|members|] == members;
    assert [later][..0] == [];
  }

  lemma GroupsGrowBySite(engine: Engine, sites: seq<Located>, index: nat, h: nat)
    requires index < |sites|
    ensures |Groups(engine, sites, index)| <= |Groups(engine, sites, index + 1)|
    ensures h < |Groups(engine, sites, index + 1)| ==>
              IsGrown(Groups(engine, sites, index), Groups(engine, sites, index + 1)[h].members, h, index)
  {
    hide Combined, JointCost, MayJoin;
  }

  predicate IsGrown(groups: seq<Group>, members: seq<nat>, h: nat, index: nat) {
    if h < |groups| then members == groups[h].members || members == groups[h].members + [index] else members == [index]
  }

  lemma {:induction false} GroupsOnlyGrow(engine: Engine, sites: seq<Located>, index: nat, count: nat)
    requires index <= count <= |sites|
    ensures |Groups(engine, sites, index)| <= |Groups(engine, sites, count)|
    decreases count
  {
    hide Groups, IsGrown;
    if index < count {
      GroupsOnlyGrow(engine, sites, index, count - 1);
      GroupsGrowBySite(engine, sites, count - 1, 0);
    }
  }

  /** The final groups, cut to what came before a site, are the groups that the site found. */
  lemma {:induction false} CutIsEarlier(engine: Engine, sites: seq<Located>, index: nat, count: nat, h: nat)
    requires index <= count <= |sites| && h < |Groups(engine, sites, count)|
    ensures |Groups(engine, sites, index)| <= |Groups(engine, sites, count)|
    ensures Below(Groups(engine, sites, count)[h].members, index)
         == if h < |Groups(engine, sites, index)| then Groups(engine, sites, index)[h].members else []
    decreases count
  {
    hide Groups, Below;
    var groups := Groups(engine, sites, count);
    if count == index {
      AllAreBelow(groups[h].members, index);
    } else {
      var earlier := Groups(engine, sites, count - 1);
      GroupsGrowBySite(engine, sites, count - 1, h);
      GroupsOnlyGrow(engine, sites, index, count - 1);
      if h < |earlier| {
        CutIsEarlier(engine, sites, index, count - 1, h);
        OneMoreIsNotBelow(earlier[h].members, count - 1, index);
      } else {
        OneMoreIsNotBelow([], count - 1, index);
      }
    }
  }

  lemma SiteJoinsFirst(engine: Engine, sites: seq<Located>, index: nat) returns (g: nat)
    requires index < |sites|
    ensures var groups := Groups(engine, sites, index);
            && g <= |groups| && g < |Groups(engine, sites, index + 1)|
                && index in Groups(engine, sites, index + 1)[g].members
            && (forall h | 0 <= h < g :: IsRefused(engine, sites, groups[h], index))
            && (g < |groups| ==> !IsRefused(engine, sites, groups[g], index))
  {
    hide Combined, JointCost, MayJoin;
    g := FirstToJoin(engine, sites, Groups(engine, sites, index), index, 0);
  }

  lemma {:induction false} BelowIsInside(members: seq<nat>, index: nat, member: nat)
    requires member in Below(members, index)
    ensures member in members
  {
    if members != [] {
      if member in Below(members[..|members| - 1], index) {
        BelowIsInside(members[..|members| - 1], index, member);
      }
    }
  }

  lemma GroupIsOfItsMembers(engine: Engine, sites: seq<Located>, count: nat, g: nat)
    requires count <= |sites| && g < |Groups(engine, sites, count)|
    ensures GroupOf(engine, sites, Groups(engine, sites, count)[g].members) == Some(Groups(engine, sites, count)[g])
  {
    GroupsAreWellCosted(engine, sites, count);
    assert IsWellCosted(engine, sites, Groups(engine, sites, count)[g]);
    hide Groups, Combined, JointCost, SquaredScales, OwnCosts;
    var group := Groups(engine, sites, count)[g];
    if |group.members| == 1 {
      assert group.members == [group.members[0]];
    }
  }

  /** The group that the site found at the given place, seen from the final groups. */
  function FoundBy(engine: Engine, sites: seq<Located>, h: nat, index: nat): Option<Group>
    requires index < |sites| && h < |Groups(engine, sites, |sites|)|
  {
    GroupOf(engine, sites, Below(Groups(engine, sites, |sites|)[h].members, index))
  }

  lemma FoundIsEarlier(engine: Engine, sites: seq<Located>, h: nat, index: nat)
    requires index < |sites| && h < |Groups(engine, sites, |sites|)|
    ensures var groups := Groups(engine, sites, index);
            FoundBy(engine, sites, h, index) == if h < |groups| then Some(groups[h]) else None
  {
    CutIsEarlier(engine, sites, index, |sites|, h);
    if h < |Groups(engine, sites, index)| {
      GroupIsOfItsMembers(engine, sites, index, h);
    }
    hide Groups;
  }

  lemma OneListHolds(lists: seq<seq<nat>>, count: nat, g: nat, h: nat, index: nat)
    requires IsPartition(lists, count) && g < |lists| && h < |lists| && index in lists[g] && index in lists[h]
    ensures g == h
  {
    assert IsIn(lists, g, index) && IsIn(lists, h, index);
  }

  lemma SiteWentTo(engine: Engine, sites: seq<Located>, index: nat, g: nat, p: nat)
    requires index < |sites|
    ensures var groups, next := Groups(engine, sites, |sites|), Groups(engine, sites, index + 1);
            (g < |groups| && index in groups[g].members && p < |next| && index in next[p].members) ==> p == g
  {
    hide Groups, IsPartition, Below;
    var groups, next := Groups(engine, sites, |sites|), Groups(engine, sites, index + 1);
    if g < |groups| && index in groups[g].members && p < |next| && index in next[p].members {
      var lists := MembersOf(groups);
      GroupsOnlyGrow(engine, sites, index + 1, |sites|);
      CutIsEarlier(engine, sites, index + 1, |sites|, p);
      BelowIsInside(lists[p], index + 1, index);
      GroupsPartitionTheSites(engine, sites, |sites|);
      OneListHolds(lists, |sites|, p, g, index);
    }
  }

  /**
    A site of a final group was refused by every group before it, as that stood
    when the site came, and taken in by its own unless that had no member yet; and
    then no later group was there. So a site opens a group only if all refused it.
  */
  lemma {:induction false} SiteIsPlaced(engine: Engine, sites: seq<Located>, index: nat, g: nat, h: nat)
    requires g < |Groups(engine, sites, |sites|)| && index < |sites|
             && index in Groups(engine, sites, |sites|)[g].members
    requires h < |Groups(engine, sites, |sites|)|
    ensures var found := FoundBy(engine, sites, h, index);
            && (h < g ==> found.Some? && IsRefused(engine, sites, found.value, index))
            && (h == g && found.Some? ==> !IsRefused(engine, sites, found.value, index))
            && (h > g && FoundBy(engine, sites, g, index).None? ==> found.None?)
  {
    hide Groups, IsRefused, FoundBy;
    var p := SiteJoinsFirst(engine, sites, index);
    SiteWentTo(engine, sites, index, g, p);
    FoundIsEarlier(engine, sites, h, index);
    FoundIsEarlier(engine, sites, g, index);
  }
}
