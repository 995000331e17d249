/** Switches do not get stuck: in every reachable state some processor inside a
    switch can go on, and going on they all get out. */
module SchedulerProgress {
  import opened Regions
  import opened Scheduler
  import opened SchedulerRuns
  import opened SwitchCode

  /** The steps of a switch once the lock has been taken. */
  predicate Switching(st: Step) {
    st.Begin? || st.Examine? || st.GiveUp? || st.Commit? || st.Swap? || st.Release? || st.Finish?
  }

  ghost predicate AllOutside(s: State) {
    forall i :: i in s.cpus ==> s.cpus[i].phase.Outside?
  }

  // -------------------------------------------------------- an order to search in

  lemma {:induction false} Greatest(ids: set<nat>) returns (m: nat)
    requires ids != {}
    ensures m in ids && forall x :: x in ids ==> x <= m
    decreases |ids|
  {
    var x :| x in ids;
    var rest := ids - {x};
    m := x;
    if rest != {} {
      m := Greatest(rest);
      if x > m { m := x; }
    }
    assert forall y :: y in ids ==> y == x || y in rest;
  }

  /** Every set of ids has an ascending list. */
  lemma {:induction false} AscendingKeys(ids: set<nat>) returns (keys: seq<nat>)
    ensures Ascending(keys) && forall k :: k in keys <==> k in ids
    decreases |ids|
  {
    if ids == {} {
      keys := [];
    } else {
      var m := Greatest(ids);
      var front := AscendingKeys(ids - {m});
      keys := front + [m];
      forall i | 0 <= i < |front| ensures front[i] < m { assert front[i] in front; }
    }
  }

  lemma {:induction false} OrderExists(ids: set<nat>, prev: nat) returns (order: seq<nat>)
    ensures IsOrder(order, ids, prev)
  {
    var keys := AscendingKeys(ids);
    CandidatesAreInOrder(keys, ids, prev);
    order := Candidates(keys, prev);
  }

  // -------------------------------------------------------------------- progress

  ghost predicate SomeReleased(s: State) {
    exists j :: j in s.cpus && s.cpus[j].phase.Released?
  }

  /** With no processor past the lock, guards are held by the lock's holder only. */
  lemma {:induction false} OnlyHolderGuards(s: State, i: nat, c: nat)
    requires Inv(s) && !SomeReleased(s) && i in s.cpus && Critical(s.cpus[i].phase) && c !in Holds(s.cpus[i].phase)
    ensures !Guarded(s, c)
  {
    hide RunInv, PhaseInv, GuardInv, RootInv, StackInv;
    if j :| j in s.cpus && c in Holds(s.cpus[j].phase) {
      assert false;
    }
  }

  /** The holder of the lock can go on if nobody is past it. */
  lemma {:induction false} HolderGoesOn(s: State, i: nat) returns (st: Step)
    requires Inv(s) && !SomeReleased(s) && i in s.cpus && Critical(s.cpus[i].phase)
    ensures Switching(st) && Enabled(s, st)
  {
    var k := s.cpus[i];
    assert PhaseFits(s, i) && k.current in s.contexts;
    hide Inv, Guarded, IsOrder;
    match k.phase
    case Locked =>
      OnlyHolderGuards(s, i, k.current);
      var order := OrderExists(s.contexts.Keys, k.current);
      st := Begin(i, order);
    case Searching(prev, rest) =>
      if rest == [] {
        st := GiveUp(i);
      } else {
        OnlyHolderGuards(s, i, rest[0]);
        st := Examine(i);
      }
    case Chosen(_, _) => st := Commit(i);
    case Committed(_, _) => st := Swap(i);
    case Saved(_, _) => st := Release(i);
  }

  /** Whenever some processor is inside a switch, one inside a switch can take its
      next step. */
  lemma {:induction false} SomeSwitchGoesOn(s: State) returns (st: Step)
    requires Inv(s) && !AllOutside(s)
    ensures Switching(st) && Enabled(s, st) && !s.cpus[st.cpu].phase.Outside?
  {
    hide Inv, Enabled;
    if SomeReleased(s) {
      var j :| j in s.cpus && s.cpus[j].phase.Released?;
      ReleasedFinishes(s, j);
      st := Finish(j);
    } else {
      var i :| i in s.cpus && !s.cpus[i].phase.Outside?;
      st := HolderGoesOn(s, i);
      SwitchingIsInside(s, st);
    }
  }

  lemma {:induction false} ReleasedFinishes(s: State, j: nat)
    requires Inv(s) && j in s.cpus && s.cpus[j].phase.Released?
    ensures Enabled(s, Finish(j))
  {
    assert PhaseFits(s, j) && s.cpus[j].current in s.contexts;
  }

  lemma {:induction false} SwitchingIsInside(s: State, st: Step)
    requires Switching(st) && Enabled(s, st)
    ensures st.cpu in s.cpus && !s.cpus[st.cpu].phase.Outside?
  {
  }

  /** No reachable state is a deadlock of the switches. */
  lemma {:induction false} NoSwitchDeadlock(ss: seq<State>, steps: seq<Step>, k: nat)
    requires IsRun(ss, steps) && ss[0] == Boot && k < |ss| && !AllOutside(ss[k])
    ensures exists st: Step :: Switching(st) && Enabled(ss[k], st) && !ss[k].cpus[st.cpu].phase.Outside?
  {
    hide Apply, Enabled, Inv, AllOutside;
    BootSatisfiesInv();
    InvHoldsThroughout(ss, steps, k);
    var st := SomeSwitchGoesOn(ss[k]);
  }

  // ---------------------------------------------------------------- getting out

  ghost function ReleasedSet(s: State): set<nat> { set i | i in s.cpus && s.cpus[i].phase.Released? }

  function PhaseWork(ph: Phase, contexts: nat): nat {
    match ph
    case Locked => contexts + 6
    case Searching(_, rest) => |rest| + 5
    case Chosen(_, _) => 4
    case Committed(_, _) => 3
    case Saved(_, _) => 2
    case _ => 0
  }

  /** How many steps the switches under way can still take. */
  ghost function Work(s: State): nat {
    |ReleasedSet(s)| +
    if i :| i in s.cpus && Critical(s.cpus[i].phase) then PhaseWork(s.cpus[i].phase, |s.contexts|) else 0
  }

  lemma {:induction false} WorkIs(s: State, i: nat)
    requires LockInv(s) && i in s.cpus && Critical(s.cpus[i].phase)
    ensures Work(s) == |ReleasedSet(s)| + PhaseWork(s.cpus[i].phase, |s.contexts|)
  {
  }

  lemma {:induction false} WorkIsLast(s: State)
    requires LockInv(s) && !s.locked
    ensures Work(s) == |ReleasedSet(s)|
  {
  }

  /** Distinct ids of a set are no more than it has. */
  lemma {:induction false} DistinctIsShort(order: seq<nat>, ids: set<nat>)
    requires forall c :: c in order ==> c in ids
    requires forall a, b :: 0 <= a < b < |order| ==> order[a] != order[b]
    ensures |order| <= |ids|
    decreases |order|
  {
    if order != [] {
      var n := |order| - 1;
      forall c | c in order[..n] ensures c in ids - {order[n]} { }
      DistinctIsShort(order[..n], ids - {order[n]});
    }
  }

  /** Only processor `i` differs. */
  ghost predicate Moved(s: State, t: State, i: nat) {
    && |t.contexts| == |s.contexts| && t.cpus.Keys == s.cpus.Keys && i in s.cpus
    && (forall j :: j in s.cpus && j != i ==> t.cpus[j] == s.cpus[j])
  }

  /** What a step of a switch does to its processor's phase. */
  ghost predicate Advanced(s: State, t: State, i: nat)
    requires Moved(s, t, i)
  {
    var from, to := s.cpus[i].phase, t.cpus[i].phase;
    || (from.Released? && to.Outside?)
    || (Critical(from) && to.Outside? && !t.locked)
    || (from.Saved? && to.Released? && !t.locked)
    || (Critical(from) && Critical(to) && PhaseWork(to, |t.contexts|) < PhaseWork(from, |s.contexts|))
  }

  lemma {:induction false} SwitchMoves(s: State, st: Step)
    requires Switching(st) && Enabled(s, st)
    ensures Moved(s, Apply(s, st), st.cpu)
  {
    hide Guarded, IsOrder, Eligible, RootAfter;
    assert Apply(s, st).contexts.Keys == s.contexts.Keys;
    assert |Apply(s, st).contexts| == |Apply(s, st).contexts.Keys|;
  }

  lemma {:induction false} SwitchAdvances(s: State, st: Step)
    requires Switching(st) && Enabled(s, st) && Moved(s, Apply(s, st), st.cpu)
    ensures Advanced(s, Apply(s, st), st.cpu)
  {
    if st.Begin? { DistinctIsShort(st.order, s.contexts.Keys); }
    hide Guarded, IsOrder, Eligible, RootAfter, Moved;
  }

  /** Every step of a switch leaves less work to do. */
  lemma {:induction false} WorkShrinks(s: State, st: Step)
    requires Inv(s) && Switching(st) && Enabled(s, st)
    ensures Inv(Apply(s, st)) && Work(Apply(s, st)) < Work(s)
  {
    var t, i := Apply(s, st), st.cpu;
    StepKeepsInv(s, st);
    SwitchMoves(s, st);
    SwitchAdvances(s, st);
    hide Apply, Enabled, Inv, Work, Moved, Switching;
    LocksOf(s);
    LocksOf(t);
    if s.cpus[i].phase.Released? {
      FinishShrinks(s, t, i);
    } else if Critical(t.cpus[i].phase) {
      AdvanceShrinks(s, t, i);
    } else {
      LeaveShrinks(s, t, i);
    }
  }

  lemma {:induction false} AdvanceShrinks(s: State, t: State, i: nat)
    requires LockInv(s) && LockInv(t) && Moved(s, t, i)
    requires Critical(s.cpus[i].phase) && Critical(t.cpus[i].phase)
    requires PhaseWork(t.cpus[i].phase, |t.contexts|) < PhaseWork(s.cpus[i].phase, |s.contexts|)
    ensures Work(t) < Work(s)
  {
    assert ReleasedSet(t) == ReleasedSet(s);
    hide Work, LockInv, ReleasedSet;
    WorkIs(s, i);
    WorkIs(t, i);
  }

  lemma {:induction false} LeaveShrinks(s: State, t: State, i: nat)
    requires LockInv(s) && LockInv(t) && Moved(s, t, i) && Critical(s.cpus[i].phase) && !t.locked
    requires t.cpus[i].phase.Outside? || t.cpus[i].phase.Released?
    ensures Work(t) < Work(s)
  {
    hide Work, LockInv;
    WorkIs(s, i);
    WorkIsLast(t);
    assert ReleasedSet(t) == if t.cpus[i].phase.Released? then ReleasedSet(s) + {i} else ReleasedSet(s);
  }

  lemma {:induction false} LocksOf(s: State)
    requires Inv(s)
    ensures LockInv(s)
  {
  }

  lemma {:induction false} FinishShrinks(s: State, t: State, i: nat)
    requires LockInv(s) && LockInv(t) && Moved(s, t, i) && s.cpus[i].phase.Released? && t.cpus[i].phase.Outside?
    ensures Work(t) < Work(s)
  {
    hide Work;
    assert ReleasedSet(t) == ReleasedSet(s) - {i} && i in ReleasedSet(s);
    if s.locked {
      var j :| j in s.cpus && Critical(s.cpus[j].phase);
      WorkIs(s, j);
      WorkIs(t, j);
    } else {
      assert forall j :: j in t.cpus ==> !Critical(t.cpus[j].phase);
      WorkIsLast(s);
      WorkIsLast(t);
    }
  }

  ghost predicate OnlySwitching(steps: seq<Step>) {
    forall k :: 0 <= k < |steps| ==> Switching(steps[k])
  }

  /** No run of switch steps alone goes on forever. */
  lemma {:induction false} SwitchingIsBounded(ss: seq<State>, steps: seq<Step>)
    requires IsRun(ss, steps) && Inv(ss[0]) && OnlySwitching(steps)
    ensures |steps| + Work(ss[|steps|]) <= Work(ss[0])
    decreases |steps|
  {
    hide Apply, Enabled, Inv, Work, Switching;
    if steps != [] {
      var n := |steps| - 1;
      SwitchingIsBounded(ss[..n + 1], steps[..n]);
      InvHoldsThroughout(ss, steps, n);
      WorkShrinks(ss[n], steps[n]);
      assert ss[n + 1] == Apply(ss[n], steps[n]);
    }
  }

  /** From `s` steps of switches alone lead to where every processor is outside. */
  ghost predicate CanSettle(s: State) {
    exists ss: seq<State>, steps: seq<Step> ::
      IsRun(ss, steps) && OnlySwitching(steps) && ss[0] == s && AllOutside(ss[|steps|])
  }

  lemma {:induction false} SettleFrom(s: State)
    requires Inv(s)
    ensures CanSettle(s)
    decreases Work(s)
  {
    hide Apply, Enabled, Inv, Work, Switching, AllOutside;
    if AllOutside(s) {
      assert IsRun([s], []) && OnlySwitching([]);
    } else {
      var st := SomeSwitchGoesOn(s);
      WorkShrinks(s, st);
      SettleFrom(Apply(s, st));
      SettleStep(s, st);
    }
  }

  lemma {:induction false} SettleStep(s: State, st: Step)
    requires Switching(st) && Enabled(s, st) && CanSettle(Apply(s, st))
    ensures CanSettle(s)
  {
    hide Apply, Enabled, Switching, AllOutside;
    var ss: seq<State>, steps: seq<Step> :|
      IsRun(ss, steps) && OnlySwitching(steps) && ss[0] == Apply(s, st) && AllOutside(ss[|steps|]);
    var ts, more := [s] + ss, [st] + steps;
    forall k | 0 <= k < |more| ensures Enabled(ts[k], more[k]) && ts[k + 1] == Apply(ts[k], more[k]) {
      if k > 0 { assert Enabled(ss[k - 1], steps[k - 1]) && ss[k - 1 + 1] == Apply(ss[k - 1], steps[k - 1]); }
    }
    assert IsRun(ts, more) && OnlySwitching(more) && ts[|more|] == ss[|steps|];
  }

  /** From every reachable state, however many switches are under way, they can all
      be completed by steps of the switching processors alone. */
  lemma {:induction false} SwitchesCanFinish(ss: seq<State>, steps: seq<Step>, k: nat)
    requires IsRun(ss, steps) && ss[0] == Boot && k < |ss|
    ensures CanSettle(ss[k])
  {
    hide Apply, Enabled, Inv, CanSettle;
    BootSatisfiesInv();
    InvHoldsThroughout(ss, steps, k);
    SettleFrom(ss[k]);
  }
}
