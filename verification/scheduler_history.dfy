/** What processors run with, from the history of steps alone: the stack, address
    space, registers and flag a context was spawned with or last given, and when a
    context that is looked at is chosen. */
module SchedulerHistory {
  import opened Regions
  import opened Scheduler
  import opened SchedulerRuns

  // ------------------------------------------------------ stacks and address spaces

  predicate SetsSpace(st: Step, c: nat) { st.SetSpace? && st.id == c }

  lemma {:induction false} SpawnMakes(s: State, st: Step)
    requires Enabled(s, st) && st.Spawn?
    ensures st.id in Apply(s, st).contexts
    ensures var x := Apply(s, st).contexts[st.id];
      && x.stackTop == Some(st.top) && x.space == Some(st.space) && x.regs == st.regs
      && !x.insideSyscall && !x.running && x.cpu == None
  {
  }

  lemma {:induction false} SetSpaceSets(s: State, st: Step)
    requires Enabled(s, st) && st.SetSpace?
    ensures st.id in Apply(s, st).contexts && Apply(s, st).contexts[st.id].space == st.to
  {
    hide Guarded;
  }

  /** A kernel stack is for good. */
  lemma {:induction false} StepKeepsStack(s: State, st: Step, c: nat)
    requires Enabled(s, st) && c in s.contexts
    ensures c in Apply(s, st).contexts && Apply(s, st).contexts[c].stackTop == s.contexts[c].stackTop
  {
    hide Guarded, IsOrder, NobodySearching, Eligible;
  }

  lemma {:induction false} StepKeepsSpace(s: State, st: Step, c: nat)
    requires Enabled(s, st) && c in s.contexts && !SetsSpace(st, c)
    ensures c in Apply(s, st).contexts && Apply(s, st).contexts[c].space == s.contexts[c].space
  {
    hide Guarded, IsOrder, NobodySearching, Eligible;
  }

  lemma {:induction false} StackKeeps(ss: seq<State>, steps: seq<Step>, a: nat, b: nat, c: nat)
    requires IsRun(ss, steps) && a <= b < |ss| && c in ss[a].contexts
    ensures c in ss[b].contexts && ss[b].contexts[c].stackTop == ss[a].contexts[c].stackTop
    decreases b - a
  {
    hide Apply, Enabled;
    if a < b {
      StackKeeps(ss, steps, a, b - 1, c);
      StepKeepsStack(ss[b - 1], steps[b - 1], c);
    }
  }

  lemma {:induction false} SpaceKeeps(ss: seq<State>, steps: seq<Step>, a: nat, b: nat, c: nat)
    requires IsRun(ss, steps) && a <= b < |ss| && c in ss[a].contexts
    requires forall m :: a <= m < b ==> !SetsSpace(steps[m], c)
    ensures c in ss[b].contexts && ss[b].contexts[c].space == ss[a].contexts[c].space
    decreases b - a
  {
    hide Apply, Enabled;
    if a < b {
      SpaceKeeps(ss, steps, a, b - 1, c);
      StepKeepsSpace(ss[b - 1], steps[b - 1], c);
    }
  }

  /** The processor is outside a switch, with context `c`. */
  predicate Runs(s: State, i: nat, c: nat) { i in s.cpus && s.cpus[i].phase.Outside? && s.cpus[i].current == c }

  lemma {:induction false} RunsSettled(ss: seq<State>, steps: seq<Step>, k: nat, i: nat, c: nat)
    requires IsRun(ss, steps) && ss[0] == Boot && k < |ss| && Runs(ss[k], i, c)
    ensures c in ss[k].contexts && Settled(ss[k], i)
  {
    hide IsRun, Settled;
    RunningMatchesProcessors(ss, steps, k);
  }

  /** A processor that runs a spawned context has the top of the stack it was spawned
      with as its task stack, and, if no step has set its address space since, the
      page table of the space it was spawned with. */
  lemma {:induction false} SpawnedRunsWithItsOwn(
      ss: seq<State>, steps: seq<Step>, j: nat, k: nat, i: nat, c: nat)
    requires IsRun(ss, steps) && ss[0] == Boot && j < k < |ss| && Runs(ss[k], i, c)
    requires steps[j].Spawn? && steps[j].id == c
    ensures ss[k].cpus[i].taskStack == steps[j].top
    ensures (forall m :: j < m < k ==> !SetsSpace(steps[m], c)) ==> ss[k].cpus[i].root == SpaceRoot(steps[j].space)
  {
    RunsSettled(ss, steps, k, i, c);
    assert Enabled(ss[j], steps[j]) && ss[j + 1] == Apply(ss[j], steps[j]);
    hide Apply, Enabled;
    SpawnMakes(ss[j], steps[j]);
    StackKeeps(ss, steps, j + 1, k, c);
    if forall m :: j < m < k ==> !SetsSpace(steps[m], c) { SpaceKeeps(ss, steps, j + 1, k, c); }
  }

  /** A processor that runs a context whose address space was last set to `to` has
      that space's page table. */
  lemma {:induction false} LastSpaceIsInUse(
      ss: seq<State>, steps: seq<Step>, j: nat, k: nat, i: nat, c: nat, to: nat)
    requires IsRun(ss, steps) && ss[0] == Boot && j < k < |ss| && Runs(ss[k], i, c)
    requires SetsSpace(steps[j], c) && steps[j].to == Some(to)
    requires forall m :: j < m < k ==> !SetsSpace(steps[m], c)
    ensures ss[k].cpus[i].root == SpaceRoot(to)
  {
    RunsSettled(ss, steps, k, i, c);
    assert Enabled(ss[j], steps[j]) && ss[j + 1] == Apply(ss[j], steps[j]);
    hide Apply, Enabled;
    SetSpaceSets(ss[j], steps[j]);
    SpaceKeeps(ss, steps, j + 1, k, c);
  }

  // ------------------------------------------------- contexts without address space

  /** The step writes processor `i`'s page table base: it sets the space of the
      context that runs there to another one, or ends a switch to a context with
      another space. */
  ghost predicate LoadsRoot(s: State, st: Step, i: nat) {
    i in s.cpus && match st
      case SetSpace(p, c, to) =>
        p == i && c == s.cpus[i].current && c in s.contexts && (s.contexts[c].space != to || to == None)
      case Finish(p) =>
        p == i && s.cpus[i].phase.Released?
        && s.cpus[i].phase.prev in s.contexts && s.cpus[i].phase.next in s.contexts
        && s.contexts[s.cpus[i].phase.next].space.Some?
        && s.contexts[s.cpus[i].phase.next].space != s.contexts[s.cpus[i].phase.prev].space
      case _ => false
  }

  lemma {:induction false} StepKeepsRoot(s: State, st: Step, i: nat)
    requires Enabled(s, st) && i in s.cpus && !LoadsRoot(s, st, i)
    ensures i in Apply(s, st).cpus && Apply(s, st).cpus[i].root == s.cpus[i].root
  {
    hide Guarded, IsOrder, NobodySearching, Eligible;
  }

  lemma {:induction false} RootKeeps(ss: seq<State>, steps: seq<Step>, a: nat, b: nat, i: nat)
    requires IsRun(ss, steps) && a <= b < |ss| && i in ss[a].cpus
    requires forall m :: a <= m < b ==> !LoadsRoot(ss[m], steps[m], i)
    ensures i in ss[b].cpus && ss[b].cpus[i].root == ss[a].cpus[i].root
    decreases b - a
  {
    hide Apply, Enabled, LoadsRoot;
    if a < b {
      RootKeeps(ss, steps, a, b - 1, i);
      StepKeepsRoot(ss[b - 1], steps[b - 1], i);
    }
  }

  lemma {:induction false} LoadIs(s: State, st: Step, i: nat)
    requires Enabled(s, st) && LoadsRoot(s, st, i)
    ensures i in Apply(s, st).cpus
    ensures st.SetSpace? ==> Apply(s, st).cpus[i].root == if st.to.Some? then SpaceRoot(st.to.value) else KernelRoot
    ensures !st.SetSpace? ==> Apply(s, st).cpus[i].root.SpaceRoot?
  {
    hide Guarded, IsOrder, NobodySearching, Eligible;
  }

  /** Whatever runs there, after a step that wrote the page table base and none
      since, a processor is on the kernel's own page table if and only if that step
      took the address space of its context away. */
  lemma {:induction false} KernelRootIff(ss: seq<State>, steps: seq<Step>, j: nat, k: nat, i: nat)
    requires IsRun(ss, steps) && j < k < |ss| && LoadsRoot(ss[j], steps[j], i)
    requires forall m :: j < m < k ==> !LoadsRoot(ss[m], steps[m], i)
    ensures i in ss[k].cpus
    ensures ss[k].cpus[i].root == KernelRoot <==> steps[j].SetSpace? && steps[j].to == None
  {
    assert Enabled(ss[j], steps[j]) && ss[j + 1] == Apply(ss[j], steps[j]);
    hide Apply, Enabled, LoadsRoot;
    LoadIs(ss[j], steps[j], i);
    RootKeeps(ss, steps, j + 1, k, i);
  }

  // ------------------------------------------------------------ the first time it runs

  /** A spawned context starts with the registers it was spawned with, and outside
      any system call. */
  lemma {:induction false} SpawnedStartsWithItsRegisters(ss: seq<State>, steps: seq<Step>, j: nat, b: nat, c: nat)
    requires IsRun(ss, steps) && j < b < |steps| && steps[j].Spawn? && steps[j].id == c
    requires SwapsIn(ss[b], steps[b], c) && forall m :: j < m < b ==> !SwapsOut(ss[m], steps[m], c)
    ensures steps[b].cpu in ss[b + 1].cpus && ss[b + 1].cpus[steps[b].cpu].regs == steps[j].regs
  {
    assert Enabled(ss[j], steps[j]) && ss[j + 1] == Apply(ss[j], steps[j]);
    assert Enabled(ss[b], steps[b]) && ss[b + 1] == Apply(ss[b], steps[b]);
    hide Apply, Enabled, SwapsIn, SwapsOut;
    SpawnMakes(ss[j], steps[j]);
    RegistersKeep(ss, steps, j + 1, b, c);
    SwapLoads(ss[b], steps[b], c);
  }

  lemma {:induction false} SpawnedStartsOutsideSyscall(ss: seq<State>, steps: seq<Step>, j: nat, b: nat, c: nat)
    requires IsRun(ss, steps) && ss[0] == Boot && j < b < |steps| && steps[j].Spawn? && steps[j].id == c
    requires CommitsIn(ss[b], steps[b], c) && forall m :: j < m < b ==> !CommitsOut(ss[m], steps[m], c)
    ensures steps[b].cpu in ss[b + 1].cpus && !ss[b + 1].cpus[steps[b].cpu].insideSyscall
  {
    assert Enabled(ss[j], steps[j]) && ss[j + 1] == Apply(ss[j], steps[j]);
    assert Enabled(ss[b], steps[b]) && ss[b + 1] == Apply(ss[b], steps[b]);
    hide Apply, Enabled, Inv;
    BootSatisfiesInv();
    InvHoldsThroughout(ss, steps, b);
    SpawnMakes(ss[j], steps[j]);
    FlagKeeps(ss, steps, j + 1, b, c);
    CommitMovesFlags(ss[b], steps[b], ss[b].cpus[steps[b].cpu].phase.prev, c);
  }

  // --------------------------------------------------------------- and the next times

  /** The step gives processor `i` other registers, or another flag. */
  predicate ChangesRegisters(st: Step, i: nat) { (st.Execute? || st.Swap?) && st.cpu == i }

  predicate ChangesFlag(st: Step, i: nat) { (st.Execute? || st.Commit?) && st.cpu == i }

  lemma {:induction false} ExecuteIs(s: State, st: Step)
    requires Enabled(s, st) && st.Execute?
    ensures st.cpu in Apply(s, st).cpus
    ensures Apply(s, st).cpus[st.cpu].regs == st.regs && Apply(s, st).cpus[st.cpu].insideSyscall == st.flag
  {
  }

  lemma {:induction false} StepKeepsCpu(s: State, st: Step, i: nat)
    requires Enabled(s, st) && i in s.cpus
    ensures i in Apply(s, st).cpus
    ensures !ChangesRegisters(st, i) ==> Apply(s, st).cpus[i].regs == s.cpus[i].regs
    ensures !ChangesFlag(st, i) ==> Apply(s, st).cpus[i].insideSyscall == s.cpus[i].insideSyscall
  {
    hide Guarded, IsOrder, NobodySearching, Eligible;
  }

  lemma {:induction false} CpuKeeps(ss: seq<State>, steps: seq<Step>, a: nat, b: nat, i: nat)
    requires IsRun(ss, steps) && a <= b < |ss| && i in ss[a].cpus
    ensures i in ss[b].cpus
    ensures (forall m :: a <= m < b ==> !ChangesRegisters(steps[m], i)) ==> ss[b].cpus[i].regs == ss[a].cpus[i].regs
    ensures (forall m :: a <= m < b ==> !ChangesFlag(steps[m], i)) ==>
      ss[b].cpus[i].insideSyscall == ss[a].cpus[i].insideSyscall
    decreases b - a
  {
    hide Apply, Enabled, ChangesRegisters, ChangesFlag;
    if a < b {
      CpuKeeps(ss, steps, a, b - 1, i);
      StepKeepsCpu(ss[b - 1], steps[b - 1], i);
    }
  }

  /** A context that is switched out and later in again goes on with the registers
      that the last instructions before had left. */
  lemma {:induction false} ResumesWhereItStopped(
      ss: seq<State>, steps: seq<Step>, a: nat, b: nat, d: nat, c: nat)
    requires IsRun(ss, steps) && ss[0] == Boot && a < b < d < |steps| && steps[a].Execute?
    requires SwapsOut(ss[b], steps[b], c) && steps[b].cpu == steps[a].cpu
    requires forall m :: a < m < b ==> !ChangesRegisters(steps[m], steps[a].cpu)
    requires SwapsIn(ss[d], steps[d], c) && forall m :: b < m < d ==> !SwapsOut(ss[m], steps[m], c)
    ensures steps[d].cpu in ss[d + 1].cpus && ss[d + 1].cpus[steps[d].cpu].regs == steps[a].regs
  {
    assert Enabled(ss[a], steps[a]) && ss[a + 1] == Apply(ss[a], steps[a]);
    hide Apply, Enabled, SwapsIn, SwapsOut, ChangesRegisters;
    ExecuteIs(ss[a], steps[a]);
    CpuKeeps(ss, steps, a + 1, b, steps[a].cpu);
    ResumeRestoresRegisters(ss, steps, b, d, c);
  }

  /** And inside or outside a system call as before. */
  lemma {:induction false} ResumesInItsSyscall(
      ss: seq<State>, steps: seq<Step>, a: nat, b: nat, d: nat, c: nat)
    requires IsRun(ss, steps) && ss[0] == Boot && a < b < d < |steps| && steps[a].Execute?
    requires CommitsOut(ss[b], steps[b], c) && steps[b].cpu == steps[a].cpu
    requires forall m :: a < m < b ==> !ChangesFlag(steps[m], steps[a].cpu)
    requires CommitsIn(ss[d], steps[d], c) && forall m :: b < m < d ==> !CommitsOut(ss[m], steps[m], c)
    ensures steps[d].cpu in ss[d + 1].cpus && ss[d + 1].cpus[steps[d].cpu].insideSyscall == steps[a].flag
  {
    assert Enabled(ss[a], steps[a]) && ss[a + 1] == Apply(ss[a], steps[a]);
    hide Apply, Enabled, CommitsIn, CommitsOut, ChangesFlag;
    ExecuteIs(ss[a], steps[a]);
    CpuKeeps(ss, steps, a + 1, b, steps[a].cpu);
    ResumeRestoresFlag(ss, steps, b, d, c);
  }

  // ---------------------------------------------------------------- who is chosen

  /** The step says whether context `c` is ready. */
  predicate SetsReady(st: Step, c: nat) {
    match st
    case SetStatus(id, _, _) => id == c
    case Spawn(id, _, _, _) => id == c
    case InitCpu(id, _, _, _, _) => id == c
    case _ => false
  }

  /** Runnable, or soft-blocked with a signal to deliver; a new context is blocked
      until it is unblocked, a processor's first one is runnable. */
  predicate MakesReady(st: Step) {
    match st
    case SetStatus(_, status, signal) => status == Runnable || (status == SoftBlocked && signal)
    case InitCpu(_, _, _, _, _) => true
    case _ => false
  }

  predicate Ready(x: Context) { x.status == Runnable || (x.status == SoftBlocked && x.signal) }

  lemma {:induction false} ReadyIsSet(s: State, st: Step, c: nat)
    requires Enabled(s, st) && SetsReady(st, c)
    ensures c in Apply(s, st).contexts && (Ready(Apply(s, st).contexts[c]) <==> MakesReady(st))
  {
    hide Guarded, NobodySearching;
  }

  lemma {:induction false} StepKeepsReady(s: State, st: Step, c: nat)
    requires Enabled(s, st) && c in s.contexts && !SetsReady(st, c)
    ensures c in Apply(s, st).contexts && (Ready(Apply(s, st).contexts[c]) <==> Ready(s.contexts[c]))
  {
    hide Guarded, IsOrder, NobodySearching;
  }

  lemma {:induction false} ReadyKeeps(ss: seq<State>, steps: seq<Step>, a: nat, b: nat, c: nat)
    requires IsRun(ss, steps) && a <= b < |ss| && c in ss[a].contexts
    requires forall m :: a <= m < b ==> !SetsReady(steps[m], c)
    ensures c in ss[b].contexts && (Ready(ss[b].contexts[c]) <==> Ready(ss[a].contexts[c]))
    decreases b - a
  {
    hide Apply, Enabled, Ready, SetsReady;
    if a < b {
      ReadyKeeps(ss, steps, a, b - 1, c);
      StepKeepsReady(ss[b - 1], steps[b - 1], c);
    }
  }

  /** Processor `i` looks at context `c` next. */
  predicate Examines(s: State, st: Step, i: nat, c: nat) {
    st == Examine(i) && i in s.cpus && s.cpus[i].phase.Searching?
    && |s.cpus[i].phase.rest| > 0 && s.cpus[i].phase.rest[0] == c
  }

  /** A context that is looked at is chosen if and only if no processor runs it, it is
      not bound to another one, and the last step that set its status left it
      runnable, or soft-blocked with a signal to deliver. */
  lemma {:induction false} ExaminedIsChosenIff(
      ss: seq<State>, steps: seq<Step>, j: nat, k: nat, i: nat, c: nat)
    requires IsRun(ss, steps) && ss[0] == Boot && j < k < |steps| && Examines(ss[k], steps[k], i, c)
    requires SetsReady(steps[j], c) && forall m :: j < m < k ==> !SetsReady(steps[m], c)
    ensures i in ss[k + 1].cpus && c in ss[k].contexts
    ensures var prev := ss[k].cpus[i].phase.prev;
      ss[k + 1].cpus[i].phase == Chosen(prev, c) <==>
      && (forall p :: p in ss[k].cpus ==> ss[k].cpus[p].current != c)
      && (ss[k].contexts[c].cpu == None || ss[k].contexts[c].cpu == Some(i))
      && MakesReady(steps[j])
  {
    assert Enabled(ss[j], steps[j]) && ss[j + 1] == Apply(ss[j], steps[j]);
    assert Enabled(ss[k], steps[k]) && ss[k + 1] == Apply(ss[k], steps[k]);
    RunningMatchesProcessors(ss, steps, k);
    hide IsRun, SetsReady, MakesReady, Settled;
    ReadyIsSet(ss[j], steps[j], c);
    ReadyKeeps(ss, steps, j + 1, k, c);
    ExamineChooses(ss[k], i, c);
  }

  lemma {:induction false} ExamineChooses(s: State, i: nat, c: nat)
    requires Enabled(s, Examine(i)) && Examines(s, Examine(i), i, c)
    ensures c in s.contexts && i in Apply(s, Examine(i)).cpus
    ensures Apply(s, Examine(i)).cpus[i].phase == Chosen(s.cpus[i].phase.prev, c) <==>
      && !s.contexts[c].running && (s.contexts[c].cpu == None || s.contexts[c].cpu == Some(i)) && Ready(s.contexts[c])
  {
  }

  // -------------------------------------------------------------------- two runs

  /** A run of `n` steps from boot leads to `s`. */
  ghost predicate Reaches(s: State, n: nat) {
    exists ss: seq<State>, steps: seq<Step> :: IsRun(ss, steps) && ss[0] == Boot && |steps| == n && ss[n] == s
  }

  lemma {:induction false} ReachesMore(s: State, n: nat, st: Step, t: State)
    requires Reaches(s, n) && Enabled(s, st) && Apply(s, st) == t
    ensures Reaches(t, n + 1)
  {
    hide Enabled, Apply;
    var ss: seq<State>, steps: seq<Step> :| IsRun(ss, steps) && ss[0] == Boot && |steps| == n && ss[n] == s;
    assert IsRun(ss + [t], steps + [st]);
  }

  /** One processor and two contexts, the second one spawned. */
  function Pair(locked: bool, x: Context, y: Context, k: Cpu): State {
    State(locked, map[0 := x, 1 := y], map[0 := k])
  }

  lemma {:induction false} UpToChoice(x: Context, y: Context, k: Cpu, n: nat)
    requires Reaches(Pair(false, x, y, k), n) && k.phase.Outside? && k.current == 0
    requires y.status.Runnable? && !y.running && y.cpu == None
    ensures Reaches(Pair(true, x, y, k.(phase := Chosen(0, 1))), n + 3)
  {
    hide Reaches;
    var a, b, c := k.(phase := Locked), k.(phase := Searching(0, [1])), k.(phase := Chosen(0, 1));
    var s, t, u, v := Pair(false, x, y, k), Pair(true, x, y, a), Pair(true, x, y, b), Pair(true, x, y, c);
    assert s.cpus[0 := a] == t.cpus && t.cpus[0 := b] == u.cpus && u.cpus[0 := c] == v.cpus;
    assert u.contexts[1 := y.(status := Runnable)] == u.contexts;
    ReachesMore(s, n, Acquire(0), t);
    ReachesMore(t, n + 1, Begin(0, [1]), u);
    ReachesMore(u, n + 2, Examine(0), v);
  }

  /** What the switch leaves in the two contexts and the processor. */
  function Left(x: Context, k: Cpu): Context { x.(running := false, insideSyscall := k.insideSyscall) }

  function Entered(y: Context): Context { y.(running := true, cpu := Some(0)) }

  function Taken(y: Context, k: Cpu, phase: Phase): Cpu {
    k.(phase := phase, current := 1, insideSyscall := y.insideSyscall,
       taskStack := if y.stackTop.Some? then y.stackTop.value else k.taskStack)
  }

  lemma {:induction false} UpToSaving(x: Context, y: Context, k: Cpu, n: nat)
    requires Reaches(Pair(true, x, y, k.(phase := Chosen(0, 1))), n)
    ensures Reaches(Pair(true, Left(x, k).(regs := k.regs), Entered(y),
                         Taken(y, k, Saved(0, 1)).(regs := y.regs)), n + 2)
  {
    hide Reaches;
    var c, d, e := k.(phase := Chosen(0, 1)), Taken(y, k, Committed(0, 1)), Taken(y, k, Saved(0, 1)).(regs := y.regs);
    var s, t := Pair(true, x, y, c), Pair(true, Left(x, k), Entered(y), d);
    var u := Pair(true, Left(x, k).(regs := k.regs), Entered(y), e);
    assert s.contexts[0 := Left(x, k)][1 := Entered(y)] == t.contexts && s.cpus[0 := d] == t.cpus;
    assert t.contexts[0 := Left(x, k).(regs := k.regs)] == u.contexts && t.cpus[0 := e] == u.cpus;
    ReachesMore(s, n, Commit(0), t);
    ReachesMore(t, n + 1, Swap(0), u);
  }

  lemma {:induction false} UpToEnd(x: Context, y: Context, k: Cpu, n: nat)
    requires Reaches(Pair(true, x, y, k.(phase := Saved(0, 1))), n)
    ensures Reaches(Pair(false, x, y, k.(phase := Outside, root := RootAfter(k.root, x.space, y.space))), n + 2)
  {
    hide Reaches;
    var a, b := k.(phase := Saved(0, 1)), k.(phase := Released(0, 1));
    var c := k.(phase := Outside, root := RootAfter(k.root, x.space, y.space));
    var s, t, u := Pair(true, x, y, a), Pair(false, x, y, b), Pair(false, x, y, c);
    assert s.cpus[0 := b] == t.cpus && t.cpus[0 := c] == u.cpus;
    ReachesMore(s, n, Release(0), t);
    ReachesMore(t, n + 1, Finish(0), u);
  }

  /** A whole switch, from the processor's first context to the spawned one. */
  lemma {:induction false} OneSwitch(x: Context, y: Context, k: Cpu, n: nat)
    requires Reaches(Pair(false, x, y, k), n) && k.phase.Outside? && k.current == 0
    requires y.status.Runnable? && !y.running && y.cpu == None
    ensures Reaches(Pair(false, Left(x, k).(regs := k.regs), Entered(y),
                         Taken(y, k, Outside).(regs := y.regs, root := RootAfter(k.root, x.space, y.space))), n + 7)
  {
    hide Reaches, Pair;
    UpToChoice(x, y, k, n);
    UpToSaving(x, y, k, n + 3);
    UpToEnd(Left(x, k).(regs := k.regs), Entered(y), Taken(y, k, Saved(0, 1)).(regs := y.regs), n + 5);
  }

  function FirstContext(space: Option<nat>): Context {
    Context(true, Some(0), false, None, Runnable, false, Registers(0, 0, 0, 0, 0, 0, 0, 0), space)
  }

  function SpawnedContext(top: nat, space: Option<nat>, regs: Registers, status: Status): Context {
    Context(false, None, false, Some(top), status, false, regs, space)
  }

  lemma {:induction false} StartOne(k: Cpu)
    requires k.phase.Outside? && k.current == 0
    ensures Reaches(State(false, map[0 := FirstContext(None)], map[0 := k]), 1)
  {
    assert IsRun([Boot], []);
    assert Reaches(Boot, 0);
    hide Reaches, IsRun;
    ReachesMore(Boot, 0, InitCpu(0, k.regs, k.root, k.taskStack, k.insideSyscall),
                State(false, map[0 := FirstContext(None)], map[0 := k]));
  }

  /** A processor starts, spawns a context, unblocks it and switches to it: then it
      has the stack, page table and registers the context was spawned with. */
  lemma {:induction false} SpawnedContextRuns(k: Cpu, top: nat, space: nat, regs: Registers)
    requires k.phase.Outside? && k.current == 0
    ensures exists s: State ::
      && Reaches(s, 10) && Runs(s, 0, 1)
      && s.cpus[0].taskStack == top && s.cpus[0].root == SpaceRoot(space) && s.cpus[0].regs == regs
  {
    StartOne(k);
    hide Reaches;
    var x, y := FirstContext(None), SpawnedContext(top, Some(space), regs, HardBlocked);
    var s := State(false, map[0 := x], map[0 := k]);
    assert s.contexts[1 := y] == Pair(false, x, y, k).contexts;
    ReachesMore(s, 1, Spawn(1, top, space, regs), Pair(false, x, y, k));
    var z := y.(status := Runnable);
    assert Pair(false, x, y, k).contexts[1 := z] == Pair(false, x, z, k).contexts;
    ReachesMore(Pair(false, x, y, k), 2, SetStatus(1, Runnable, false), Pair(false, x, z, k));
    OneSwitch(x, z, k, 3);
  }

  lemma {:induction false} SpaceTakenAway(k: Cpu, regs: Registers)
    requires k.phase.Outside? && k.current == 0
    ensures Reaches(Pair(false, FirstContext(Some(5)), SpawnedContext(0x50000, None, regs, HardBlocked),
                         k.(root := SpaceRoot(5))), 4)
  {
    StartOne(k);
    hide Reaches;
    var w, x := FirstContext(None), FirstContext(Some(5));
    var l := k.(root := SpaceRoot(5));
    var s, t := State(false, map[0 := w], map[0 := k]), State(false, map[0 := x], map[0 := l]);
    assert s.contexts[0 := x] == t.contexts && s.cpus[0 := l] == t.cpus;
    ReachesMore(s, 1, SetSpace(0, 0, Some(5)), t);
    var y, z := SpawnedContext(0x50000, Some(7), regs, HardBlocked), SpawnedContext(0x50000, None, regs, HardBlocked);
    assert t.contexts[1 := y] == Pair(false, x, y, l).contexts;
    ReachesMore(t, 2, Spawn(1, 0x50000, 7, regs), Pair(false, x, y, l));
    assert Pair(false, x, y, l).contexts[1 := z] == Pair(false, x, z, l).contexts;
    ReachesMore(Pair(false, x, y, l), 3, SetSpace(0, 1, None), Pair(false, x, z, l));
  }

  /** A context without an address space keeps whatever page table was in use: here
      context 1 has had its space taken away before it first runs, and runs on the
      page table of context 0's. */
  lemma {:induction false} SpacelessRunsOnAnother(k: Cpu, regs: Registers)
    requires k.phase.Outside? && k.current == 0
    ensures exists s: State ::
      && Reaches(s, 12) && Runs(s, 0, 1)
      && 1 in s.contexts && s.contexts[1].space == None && s.cpus[0].root == SpaceRoot(5)
  {
    SpaceTakenAway(k, regs);
    hide Reaches;
    var x, l := FirstContext(Some(5)), k.(root := SpaceRoot(5));
    var z, v := SpawnedContext(0x50000, None, regs, HardBlocked), SpawnedContext(0x50000, None, regs, Runnable);
    assert Pair(false, x, z, l).contexts[1 := v] == Pair(false, x, v, l).contexts;
    ReachesMore(Pair(false, x, z, l), 4, SetStatus(1, Runnable, false), Pair(false, x, v, l));
    OneSwitch(x, v, l, 5);
  }
}
