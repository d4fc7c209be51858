/** Over whole runs: a refresh that the lock granted stands behind one task start at most. */
module SchedulerRefreshes {
  import opened Options
  import opened Scheduler
  import opened SchedulerRuns

  /** The lock granted the call as the given entry of the log. */
  ghost predicate IsGrantedAs(s: System, i: nat, id: nat, entry: nat) {
    i in s.processes && id < |s.processes[i].calls| && s.processes[i].calls[id].outcome == Granted(entry)
  }

  ghost predicate GrantsAreApart(s: System) {
    forall i, id, j, jd, entry | IsGrantedAs(s, i, id, entry) && IsGrantedAs(s, j, jd, entry) :: i == j && id == jd
  }

  /** The call behind a task start was granted as the entry that the start names, and is answered for good. */
  ghost predicate IsSpent(s: System, e: Event)
    requires e.TaskStarted?
  {
    IsGrantedAs(s, e.instance, e.call, e.behind) && s.processes[e.instance].calls[e.call].waiter == Answered
  }

  ghost predicate StartsAreSpent(s: System) {
    forall k | 0 <= k < |s.log| && s.log[k].TaskStarted? :: IsSpent(s, s.log[k])
  }

  ghost predicate StartsHaveTheirOwn(s: System) {
    forall x, y | 0 <= x < y < |s.log| && s.log[x].TaskStarted? && s.log[y].TaskStarted? ::
      s.log[x].behind != s.log[y].behind
  }

  ghost predicate RefreshesAreApart(s: System) {
    GrantsAreApart(s) && StartsAreSpent(s) && StartsHaveTheirOwn(s)
  }

  lemma OthersGrantNothing(s: System, a: Action, i: nat, id: nat, entry: nat)
    requires IsEnabled(s, a) && !a.RedisActs? && IsGrantedAs(After(s, a), i, id, entry)
    ensures IsGrantedAs(s, i, id, entry)
  {
    if i in s.processes {
      StepKeepsCalls(s, a, i);
    }
  }

  lemma RedisGrantsNewEntry(s: System, i: nat, id: nat, j: nat, jd: nat, entry: nat)
    requires IsEnabled(s, RedisActs(i, id)) && IsGrantedAs(After(s, RedisActs(i, id)), j, jd, entry)
    ensures IsGrantedAs(s, j, jd, entry) || (j == i && jd == id && entry == |s.log|)
  {
  }

  lemma StepKeepsGrantsApart(s: System, a: Action)
    requires StartsFollowRefreshes(s) && GrantsAreApart(s) && IsEnabled(s, a)
    ensures GrantsAreApart(After(s, a))
  {
    hide After, IsEnabled;
    var t := After(s, a);
    forall i, id, j, jd, entry | IsGrantedAs(t, i, id, entry) && IsGrantedAs(t, j, jd, entry)
      ensures i == j && id == jd
    {
      if a.RedisActs? {
        RedisGrantsNewEntry(s, a.instance, a.id, i, id, entry);
        RedisGrantsNewEntry(s, a.instance, a.id, j, jd, entry);
      } else {
        OthersGrantNothing(s, a, i, id, entry);
        OthersGrantNothing(s, a, j, jd, entry);
      }
    }
  }

  lemma SpentStays(s: System, a: Action, e: Event)
    requires IsEnabled(s, a) && e.TaskStarted? && IsSpent(s, e)
    ensures IsSpent(After(s, a), e)
  {
    if !a.RedisActs? {
      StepKeepsCalls(s, a, e.instance);
    }
  }

  /** An action logs a task start when it answers a call, and then that one entry. */
  lemma StartIsLogged(s: System, a: Action, k: nat)
    requires IsEnabled(s, a) && |s.log| <= k < |After(s, a).log| && After(s, a).log[k].TaskStarted?
    ensures k == |s.log| && a.AnswerArrives? && After(s, a).log[k].instance == a.instance
    ensures After(s, a).log[k].call == a.id && IsGrantedAs(s, a.instance, a.id, After(s, a).log[k].behind)
    ensures s.processes[a.instance].calls[a.id].waiter != Answered
  {
  }

  lemma NewStartIsSpent(s: System, a: Action, k: nat)
    requires IsEnabled(s, a) && |s.log| <= k < |After(s, a).log| && After(s, a).log[k].TaskStarted?
    ensures IsSpent(After(s, a), After(s, a).log[k])
  {
    StartIsLogged(s, a, k);
    StepKeepsCalls(s, a, a.instance);
  }

  lemma LogGrows(s: System, a: Action)
    requires IsEnabled(s, a)
    ensures s.log <= After(s, a).log
  {
  }

  lemma StepKeepsRefreshesApart(s: System, a: Action)
    requires StartsFollowRefreshes(s) && RefreshesAreApart(s) && IsEnabled(s, a)
    ensures RefreshesAreApart(After(s, a))
  {
    var t := After(s, a);
    hide After, IsEnabled, IsSpent, GrantsAreApart, StartsFollowRefreshes;
    StepKeepsGrantsApart(s, a);
    LogGrows(s, a);
    forall k: nat | k < |t.log| && t.log[k].TaskStarted? ensures IsSpent(t, t.log[k]) {
      if k < |s.log| {
        SpentStays(s, a, t.log[k]);
      } else {
        NewStartIsSpent(s, a, k);
      }
    }
    forall x: nat, y: nat | x < y < |t.log| && t.log[x].TaskStarted? && t.log[y].TaskStarted?
      ensures t.log[x].behind != t.log[y].behind
    {
      if y >= |s.log| {
        StartIsLogged(s, a, y);
        NewStartIsApart(s, a, s.log[x], t.log[y].behind);
      }
    }
  }

  /** The refresh behind a new start stands behind no earlier one: the call of that one has long been answered. */
  lemma NewStartIsApart(s: System, a: Action, earlier: Event, entry: nat)
    requires GrantsAreApart(s) && earlier.TaskStarted? && IsSpent(s, earlier)
    requires a.AnswerArrives? && IsGrantedAs(s, a.instance, a.id, entry)
    requires s.processes[a.instance].calls[a.id].waiter != Answered
    ensures earlier.behind != entry
  {
  }

  lemma {:induction false} RunKeepsRefreshesApart(states: seq<System>, actions: seq<Action>, k: nat)
    requires IsRun(states, actions) && k < |states|
    ensures RefreshesAreApart(states[k])
  {
    if k > 0 {
      RunKeepsRefreshesApart(states, actions, k - 1);
      RunKeepsInvariant(states, actions, k - 1);
      StepKeepsRefreshesApart(states[k - 1], actions[k - 1]);
    }
  }

  /** In every run two task starts, of whatever instances, have two refreshes behind them. */
  lemma {:induction false} TaskStartsHaveTheirOwnRefresh(states: seq<System>, actions: seq<Action>, k: nat,
        x: nat, y: nat)
    requires IsRun(states, actions) && k < |states| && x != y
    requires x < |states[k].log| && states[k].log[x].TaskStarted?
    requires y < |states[k].log| && states[k].log[y].TaskStarted?
    ensures states[k].log[x].behind != states[k].log[y].behind
  {
    RunKeepsRefreshesApart(states, actions, k);
    assert x < y || y < x;
  }
}
