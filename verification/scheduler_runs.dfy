/** Theorems about whole runs of the scheduler. */
module SchedulerRuns {
  import opened Regions
  import opened Scheduler

  /** A run: every step is enabled where it is taken and leads to the next state. */
  ghost predicate IsRun(ss: seq<State>, steps: seq<Step>) {
    && |ss| == |steps| + 1
    && forall k :: 0 <= k < |steps| ==> Enabled(ss[k], steps[k]) && ss[k + 1] == Apply(ss[k], steps[k])
  }

  /** Every interleaving keeps the invariant at every point. */
  lemma {:induction false} InvHoldsThroughout(ss: seq<State>, steps: seq<Step>, k: nat)
    requires IsRun(ss, steps) && Inv(ss[0]) && k < |ss|
    ensures Inv(ss[k])
  {
    hide Inv, Enabled, Apply;
    if k > 0 {
      InvHoldsThroughout(ss, steps, k - 1);
      StepKeepsInv(ss[k - 1], steps[k - 1]);
    }
  }

  lemma {:induction false} BootSatisfiesInv()
    ensures Inv(Boot)
  {
  }

  /** From boot on, in every state of every run: a context runs exactly if it is
      some processor's current one, that processor is the only one, and it is the
      one the context is bound to; outside a switch the page table base is that
      of the current context's address space and the task stack the top of its
      kernel stack. */
  lemma {:induction false} RunningMatchesProcessors(ss: seq<State>, steps: seq<Step>, k: nat)
    requires IsRun(ss, steps) && ss[0] == Boot && k < |ss|
    ensures forall c :: c in ss[k].contexts ==>
      (ss[k].contexts[c].running <==> exists i :: i in ss[k].cpus && ss[k].cpus[i].current == c)
    ensures forall i, j :: i in ss[k].cpus && j in ss[k].cpus && ss[k].cpus[i].current == ss[k].cpus[j].current ==>
      i == j
    ensures forall i :: i in ss[k].cpus ==>
      ss[k].cpus[i].current in ss[k].contexts && ss[k].contexts[ss[k].cpus[i].current].cpu == Some(i)
    ensures forall i :: i in ss[k].cpus && ss[k].cpus[i].phase.Outside? ==> Settled(ss[k], i)
  {
    hide Apply, Enabled, LockInv, PhaseInv, GuardInv;
    BootSatisfiesInv();
    InvHoldsThroughout(ss, steps, k);
  }

  predicate Settled(s: State, i: nat)
    requires i in s.cpus && s.cpus[i].current in s.contexts
  {
    var x := s.contexts[s.cpus[i].current];
    && (x.space.Some? ==> s.cpus[i].root == SpaceRoot(x.space.value))
    && (x.stackTop.Some? ==> s.cpus[i].taskStack == x.stackTop.value)
  }

  /** A context that is being switched to is never one whose registers another
      processor has yet to save. */
  lemma {:induction false} UnsavedIsNeverChosen(ss: seq<State>, steps: seq<Step>, k: nat, i: nat, j: nat)
    requires IsRun(ss, steps) && ss[0] == Boot && k < |ss| && i in ss[k].cpus && j in ss[k].cpus
    requires ss[k].cpus[i].phase.Committed?
    requires ss[k].cpus[j].phase.Chosen? || ss[k].cpus[j].phase.Committed?
    ensures ss[k].cpus[j].phase.next != ss[k].cpus[i].phase.prev
  {
    hide Apply, Enabled, GuardInv, RootInv, StackInv;
    BootSatisfiesInv();
    InvHoldsThroughout(ss, steps, k);
    assert i == j;
    assert PhaseFits(ss[k], i);
  }

  // ------------------------------------------------------------------ the lock

  function Acquisitions(steps: seq<Step>): nat {
    if steps == [] then 0
    else Acquisitions(steps[..|steps| - 1]) + if steps[|steps| - 1].Acquire? then 1 else 0
  }

  function Releases(steps: seq<Step>): nat {
    if steps == [] then 0
    else Releases(steps[..|steps| - 1]) + if steps[|steps| - 1].Release? || steps[|steps| - 1].GiveUp? then 1 else 0
  }

  /** The lock is given back exactly once for each time it is taken. */
  lemma {:induction false} LockIsBalanced(ss: seq<State>, steps: seq<Step>)
    requires IsRun(ss, steps) && ss[0] == Boot
    ensures Acquisitions(steps) == Releases(steps) + if ss[|steps|].locked then 1 else 0
  {
    if steps != [] {
      var n := |steps| - 1;
      assert IsRun(ss[..n + 1], steps[..n]);
      LockIsBalanced(ss[..n + 1], steps[..n]);
      BootSatisfiesInv();
      InvHoldsThroughout(ss, steps, n);
      LockMoves(ss[n], steps[n]);
    }
  }

  lemma {:induction false} LockMoves(s: State, st: Step)
    requires Inv(s) && Enabled(s, st)
    ensures st.Acquire? ==> !s.locked && Apply(s, st).locked
    ensures st.Release? || st.GiveUp? ==> s.locked && !Apply(s, st).locked
    ensures !st.Acquire? && !st.Release? && !st.GiveUp? ==> Apply(s, st).locked == s.locked
  {
    hide RunInv, PhaseInv, GuardInv, RootInv, StackInv, Guarded, Eligible, IsOrder, NobodySearching;
    if st.Release? || st.GiveUp? { assert Critical(s.cpus[st.cpu].phase); }
  }

  // ------------------------------------------------------------------ affinity

  lemma {:induction false} StepKeepsAffinity(s: State, st: Step, c: nat)
    requires Inv(s) && Enabled(s, st) && c in s.contexts && s.contexts[c].cpu.Some?
    ensures c in Apply(s, st).contexts && Apply(s, st).contexts[c].cpu == s.contexts[c].cpu
  {
    hide LockInv, RunInv, GuardInv, RootInv, StackInv, Guarded, IsOrder, NobodySearching;
    if st.Commit? { assert PhaseFits(s, st.cpu); }
  }

  /** Once bound to a processor, a context stays bound to it. */
  lemma {:induction false} AffinityIsForever(ss: seq<State>, steps: seq<Step>, j: nat, k: nat, c: nat)
    requires IsRun(ss, steps) && ss[0] == Boot && j <= k < |ss|
    requires c in ss[j].contexts && ss[j].contexts[c].cpu.Some?
    ensures c in ss[k].contexts && ss[k].contexts[c].cpu == ss[j].contexts[c].cpu
    decreases k - j
  {
    hide Apply, Enabled, Inv;
    if j < k {
      AffinityIsForever(ss, steps, j, k - 1, c);
      BootSatisfiesInv();
      InvHoldsThroughout(ss, steps, k - 1);
      StepKeepsAffinity(ss[k - 1], steps[k - 1], c);
    }
  }

  // ------------------------------------------------------------- saved registers

  /** Step `st` switches context `c` out, saving its registers. */
  ghost predicate SwapsOut(s: State, st: Step, c: nat) {
    st.Swap? && st.cpu in s.cpus && s.cpus[st.cpu].phase.Committed? && s.cpus[st.cpu].phase.prev == c
  }

  ghost predicate SwapsIn(s: State, st: Step, c: nat) {
    st.Swap? && st.cpu in s.cpus && s.cpus[st.cpu].phase.Committed? && s.cpus[st.cpu].phase.next == c
  }

  lemma {:induction false} OnlySwapWritesRegisters(s: State, st: Step, c: nat)
    requires Enabled(s, st) && c in s.contexts && !SwapsOut(s, st, c)
    ensures c in Apply(s, st).contexts && Apply(s, st).contexts[c].regs == s.contexts[c].regs
  {
    hide Guarded, IsOrder, NobodySearching, Eligible;
  }

  lemma {:induction false} RegistersKeep(ss: seq<State>, steps: seq<Step>, a: nat, b: nat, c: nat)
    requires IsRun(ss, steps) && a <= b < |ss| && c in ss[a].contexts
    requires forall m :: a <= m < b ==> !SwapsOut(ss[m], steps[m], c)
    ensures c in ss[b].contexts && ss[b].contexts[c].regs == ss[a].contexts[c].regs
    decreases b - a
  {
    hide Apply, Enabled;
    if a < b {
      RegistersKeep(ss, steps, a, b - 1, c);
      OnlySwapWritesRegisters(ss[b - 1], steps[b - 1], c);
    }
  }

  /** The resume round trip: when a context is switched in, on whatever processor
      and after whatever else has run, that processor's registers become what the
      registers were when the context was last switched out. */
  lemma {:induction false} ResumeRestoresRegisters(ss: seq<State>, steps: seq<Step>, a: nat, b: nat, c: nat)
    requires IsRun(ss, steps) && ss[0] == Boot && a < b < |steps|
    requires SwapsOut(ss[a], steps[a], c) && SwapsIn(ss[b], steps[b], c)
    requires forall m :: a < m < b ==> !SwapsOut(ss[m], steps[m], c)
    ensures steps[b].cpu in ss[b + 1].cpus
    ensures ss[b + 1].cpus[steps[b].cpu].regs == ss[a].cpus[steps[a].cpu].regs
  {
    hide Guarded, IsOrder, NobodySearching, Eligible;
    SwapSaves(ss[a], steps[a], c);
    RegistersKeep(ss, steps, a + 1, b, c);
    SwapLoads(ss[b], steps[b], c);
  }

  lemma {:induction false} SwapSaves(s: State, st: Step, c: nat)
    requires Enabled(s, st) && SwapsOut(s, st, c)
    ensures c in Apply(s, st).contexts && Apply(s, st).contexts[c].regs == s.cpus[st.cpu].regs
  {
  }

  lemma {:induction false} SwapLoads(s: State, st: Step, c: nat)
    requires Enabled(s, st) && SwapsIn(s, st, c)
    ensures c in s.contexts && st.cpu in Apply(s, st).cpus && Apply(s, st).cpus[st.cpu].regs == s.contexts[c].regs
  {
  }

  // --------------------------------------------------------- the syscall flag

  ghost predicate CommitsOut(s: State, st: Step, c: nat) {
    st.Commit? && st.cpu in s.cpus && s.cpus[st.cpu].phase.Chosen? && s.cpus[st.cpu].phase.prev == c
  }

  ghost predicate CommitsIn(s: State, st: Step, c: nat) {
    st.Commit? && st.cpu in s.cpus && s.cpus[st.cpu].phase.Chosen? && s.cpus[st.cpu].phase.next == c
  }

  lemma {:induction false} OnlyCommitWritesFlag(s: State, st: Step, c: nat)
    requires Enabled(s, st) && c in s.contexts && !CommitsOut(s, st, c)
    ensures c in Apply(s, st).contexts && Apply(s, st).contexts[c].insideSyscall == s.contexts[c].insideSyscall
  {
    hide Guarded, IsOrder, NobodySearching, Eligible;
  }

  lemma {:induction false} FlagKeeps(ss: seq<State>, steps: seq<Step>, a: nat, b: nat, c: nat)
    requires IsRun(ss, steps) && a <= b < |ss| && c in ss[a].contexts
    requires forall m :: a <= m < b ==> !CommitsOut(ss[m], steps[m], c)
    ensures c in ss[b].contexts && ss[b].contexts[c].insideSyscall == ss[a].contexts[c].insideSyscall
    decreases b - a
  {
    hide Apply, Enabled;
    if a < b {
      FlagKeeps(ss, steps, a, b - 1, c);
      OnlyCommitWritesFlag(ss[b - 1], steps[b - 1], c);
    }
  }

  lemma {:induction false} CommitMovesFlags(s: State, st: Step, p: nat, n: nat)
    requires Inv(s) && Enabled(s, st) && CommitsOut(s, st, p) && CommitsIn(s, st, n)
    ensures p in Apply(s, st).contexts && Apply(s, st).contexts[p].insideSyscall == s.cpus[st.cpu].insideSyscall
    ensures n in s.contexts && st.cpu in Apply(s, st).cpus
    ensures Apply(s, st).cpus[st.cpu].insideSyscall == s.contexts[n].insideSyscall
  {
    hide LockInv, RunInv, GuardInv, RootInv, StackInv;
    assert PhaseFits(s, st.cpu);
  }

  /** The same for the flag that says a context is inside a system call. */
  lemma {:induction false} ResumeRestoresFlag(ss: seq<State>, steps: seq<Step>, a: nat, b: nat, c: nat)
    requires IsRun(ss, steps) && ss[0] == Boot && a < b < |steps|
    requires CommitsOut(ss[a], steps[a], c) && CommitsIn(ss[b], steps[b], c)
    requires forall m :: a < m < b ==> !CommitsOut(ss[m], steps[m], c)
    ensures steps[b].cpu in ss[b + 1].cpus
    ensures ss[b + 1].cpus[steps[b].cpu].insideSyscall == ss[a].cpus[steps[a].cpu].insideSyscall
  {
    hide Apply, Enabled, Inv;
    BootSatisfiesInv();
    InvHoldsThroughout(ss, steps, a);
    InvHoldsThroughout(ss, steps, b);
    CommitMovesFlags(ss[a], steps[a], c, ss[a].cpus[steps[a].cpu].phase.next);
    FlagKeeps(ss, steps, a + 1, b, c);
    CommitMovesFlags(ss[b], steps[b], ss[b].cpus[steps[b].cpu].phase.prev, c);
  }

  // ------------------------------------------------------------ bounded bypass

  ghost function Arc(ids: set<nat>, p: nat, t: nat): set<nat> {
    set c | c in ids && InArc(p, c, t)
  }

  /** How many contexts lie after `p` up to and including `t`, going around. */
  ghost function Distance(ids: set<nat>, p: nat, t: nat): nat {
    |Arc(ids, p, t)|
  }

  lemma {:induction false} ProperSubsetIsSmaller(a: set<nat>, b: set<nat>, x: nat)
    requires a <= b && x in b && x !in a
    ensures |a| < |b|
  {
    SubsetIsNoLarger(a, b - {x});
  }

  lemma {:induction false} SubsetIsNoLarger(a: set<nat>, b: set<nat>)
    requires a <= b
    ensures |a| <= |b|
  {
    if a != {} {
      var x :| x in a;
      SubsetIsNoLarger(a - {x}, b - {x});
    }
  }

  /** Moving forward to a context short of `t` brings `t` strictly closer. */
  lemma {:induction false} DistanceShrinks(ids: set<nat>, p: nat, n: nat, t: nat)
    requires n in ids && p != t && n != t && InArc(p, n, t)
    ensures Distance(ids, n, t) < Distance(ids, p, t)
  {
    ProperSubsetIsSmaller(Arc(ids, n, t), Arc(ids, p, t), n);
  }

  /** Processor `i`'s search cannot pass over `t`. */
  ghost predicate AimsAt(s: State, i: nat, t: nat) {
    i in s.cpus && match s.cpus[i].phase
      case Searching(prev, rest) =>
        exists k :: 0 <= k < |rest| && rest[k] == t && forall m :: 0 <= m <= k ==> InArc(prev, rest[m], t)
      case Chosen(prev, next) => InArc(prev, next, t)
      case _ => true
  }

  lemma {:induction false} BeginAims(s: State, st: Step, i: nat, t: nat)
    requires Enabled(s, st) && st.Begin? && st.cpu == i && t in s.contexts && t != s.cpus[i].current
    ensures AimsAt(Apply(s, st), i, t)
  {
    var order, p := st.order, s.cpus[i].current;
    var k :| 0 <= k < |order| && order[k] == t;
    forall m | 0 <= m <= k ensures InArc(p, order[m], t) {
      assert m < k ==> InArc(p, order[m], order[k]);
    }
  }

  lemma {:induction false} ExamineAims(s: State, st: Step, i: nat, t: nat)
    requires Enabled(s, st) && st.Examine? && st.cpu == i && AimsAt(s, i, t)
    requires t in s.contexts && Eligible(s.contexts[t], i)
    ensures AimsAt(Apply(s, st), i, t)
  {
    hide Guarded;
    var rest, p := s.cpus[i].phase.rest, s.cpus[i].phase.prev;
    var k :| 0 <= k < |rest| && rest[k] == t && forall m :: 0 <= m <= k ==> InArc(p, rest[m], t);
    assert InArc(p, rest[0], t);
    if !Eligible(s.contexts[rest[0]], i) {
      assert rest[1..][k - 1] == t;
    }
  }

  lemma {:induction false} OtherStepsAim(s: State, st: Step, i: nat, t: nat)
    requires Enabled(s, st) && AimsAt(s, i, t) && !((st.Begin? || st.Examine?) && st.cpu == i)
    ensures AimsAt(Apply(s, st), i, t)
  {
    hide Guarded, IsOrder, NobodySearching, Eligible;
  }

  function CommitsOf(steps: seq<Step>, i: nat): nat {
    if steps == [] then 0
    else CommitsOf(steps[..|steps| - 1], i) + if steps[|steps| - 1] == Commit(i) then 1 else 0
  }

  lemma {:induction false} CurrentMovesOnCommit(s: State, st: Step, i: nat)
    requires Enabled(s, st) && i in s.cpus && !st.InitCpu?
    ensures i in Apply(s, st).cpus
    ensures st == Commit(i) ==> Apply(s, st).cpus[i].current == s.cpus[i].phase.next && s.cpus[i].phase.Chosen?
    ensures st != Commit(i) ==> Apply(s, st).cpus[i].current == s.cpus[i].current
    ensures !st.Spawn? ==> Apply(s, st).contexts.Keys == s.contexts.Keys
  {
    hide Guarded, IsOrder, NobodySearching, Eligible;
  }

  /** While `t` stays eligible for processor `i` and no context is added, that
      processor commits to fewer other contexts than lie between its current
      context and `t`, going around; so `t` is chosen within that many switches. */
  lemma {:induction false} BypassIsBounded(ss: seq<State>, steps: seq<Step>, i: nat, t: nat)
    requires IsRun(ss, steps) && Inv(ss[0]) && i in ss[0].cpus && ss[0].cpus[i].phase.Outside?
    requires forall k :: 0 <= k < |steps| ==> !steps[k].Spawn? && !steps[k].InitCpu?
    requires forall k :: 0 <= k < |ss| ==> t in ss[k].contexts && Eligible(ss[k].contexts[t], i)
    ensures CommitsOf(steps, i) < Distance(ss[0].contexts.Keys, ss[0].cpus[i].current, t)
  {
    CommitsCount(ss, steps, i, t);
    var s := ss[|steps|];
    InvHoldsThroughout(ss, steps, |steps|);
    assert t in Arc(s.contexts.Keys, s.cpus[i].current, t);
  }

  lemma {:induction false} CommitsCount(ss: seq<State>, steps: seq<Step>, i: nat, t: nat)
    requires IsRun(ss, steps) && Inv(ss[0]) && i in ss[0].cpus && ss[0].cpus[i].phase.Outside?
    requires forall k :: 0 <= k < |steps| ==> !steps[k].Spawn? && !steps[k].InitCpu?
    requires forall k :: 0 <= k < |ss| ==> t in ss[k].contexts && Eligible(ss[k].contexts[t], i)
    ensures var s := ss[|steps|];
      && i in s.cpus && s.contexts.Keys == ss[0].contexts.Keys && AimsAt(s, i, t)
      && CommitsOf(steps, i) + Distance(s.contexts.Keys, s.cpus[i].current, t)
           <= Distance(ss[0].contexts.Keys, ss[0].cpus[i].current, t)
  {
    hide Apply, Enabled, Inv, AimsAt, Distance;
    if steps == [] {
      OutsideAims(ss[0], i, t);
    } else {
      var n := |steps| - 1;
      assert IsRun(ss[..n + 1], steps[..n]);
      CommitsCount(ss[..n + 1], steps[..n], i, t);
      InvHoldsThroughout(ss, steps, n);
      assert ss[n + 1] == Apply(ss[n], steps[n]) && t in ss[n + 1].contexts;
      CommitStep(ss[n], steps[n], i, t);
    }
  }

  lemma {:induction false} OutsideAims(s: State, i: nat, t: nat)
    requires i in s.cpus && s.cpus[i].phase.Outside?
    ensures AimsAt(s, i, t)
  {
  }

  /** One step: the distance shrinks on a commit and stays otherwise. */
  lemma {:induction false} CommitStep(s: State, st: Step, i: nat, t: nat)
    requires Inv(s) && Enabled(s, st) && !st.Spawn? && !st.InitCpu? && i in s.cpus && AimsAt(s, i, t)
    requires t in s.contexts && Eligible(s.contexts[t], i)
    requires t in Apply(s, st).contexts && Eligible(Apply(s, st).contexts[t], i)
    ensures var u := Apply(s, st);
      && i in u.cpus && u.contexts.Keys == s.contexts.Keys && AimsAt(u, i, t)
      && Distance(u.contexts.Keys, u.cpus[i].current, t) + (if st == Commit(i) then 1 else 0)
           <= Distance(s.contexts.Keys, s.cpus[i].current, t)
  {
    var u := Apply(s, st);
    CurrentMovesOnCommit(s, st, i);
    StepKeepsInv(s, st);
    NotCurrent(s, i, t);
    NotCurrent(u, i, t);
    AimKept(s, st, i, t);
    if st == Commit(i) { CommitIsInArc(s, i, t); }
    hide Apply, Enabled, Inv, AimsAt, Distance, Eligible;
    if st == Commit(i) {
      DistanceShrinks(s.contexts.Keys, s.cpus[i].current, u.cpus[i].current, t);
    }
  }

  lemma {:induction false} CommitIsInArc(s: State, i: nat, t: nat)
    requires Inv(s) && i in s.cpus && s.cpus[i].phase.Chosen? && AimsAt(s, i, t)
    ensures InArc(s.cpus[i].current, s.cpus[i].phase.next, t) && s.cpus[i].phase.next in s.contexts
  {
    hide LockInv, RunInv, GuardInv, RootInv, StackInv;
    assert PhaseFits(s, i);
  }

  lemma {:induction false} NotCurrent(s: State, i: nat, t: nat)
    requires Inv(s) && i in s.cpus && t in s.contexts && Eligible(s.contexts[t], i)
    ensures s.cpus[i].current != t
  {
    hide LockInv, PhaseInv, GuardInv, RootInv, StackInv;
  }

  lemma {:induction false} AimKept(s: State, st: Step, i: nat, t: nat)
    requires Inv(s) && Enabled(s, st) && i in s.cpus && AimsAt(s, i, t)
    requires t in s.contexts && Eligible(s.contexts[t], i)
    ensures AimsAt(Apply(s, st), i, t)
  {
    hide Inv, Apply, AimsAt, Enabled;
    NotCurrent(s, i, t);
    if st.Begin? && st.cpu == i {
      BeginAims(s, st, i, t);
    } else if st.Examine? && st.cpu == i {
      ExamineAims(s, st, i, t);
    } else {
      OtherStepsAim(s, st, i, t);
    }
  }

  // ---------------------------------------------------------------- statuses

  /** A switch changes no status but that of the context it selects, and that one
      only from soft-blocked with a deliverable signal to runnable. */
  lemma {:induction false} SwitchKeepsStatuses(s: State, st: Step, c: nat)
    requires Enabled(s, st) && !Ordinary(st) && c in s.contexts
    ensures c in Apply(s, st).contexts
    ensures Apply(s, st).contexts[c].status != s.contexts[c].status ==>
      && st.Examine? && Apply(s, st).cpus[st.cpu].phase == Chosen(s.cpus[st.cpu].phase.prev, c)
      && s.contexts[c].status.SoftBlocked? && s.contexts[c].signal && Apply(s, st).contexts[c].status.Runnable?
  {
    hide Guarded, IsOrder, NobodySearching;
  }
}
