/** Context switching on any number of processors, as a state machine: what each
    processor does between taking the switch lock and dropping the context guards. */
module Scheduler {
  import opened Regions

  // ------------------------------------------------------------------- state

  datatype Status = Runnable | SoftBlocked | HardBlocked | Stopped | Exited

  /** The registers a switch saves and loads. */
  datatype Registers = Registers(rflags: int, rbx: int, r12: int, r13: int, r14: int, r15: int, rbp: int, rsp: int)

  datatype Context = Context(
    running: bool,
    cpu: Option<nat>,
    insideSyscall: bool,
    stackTop: Option<nat>,
    status: Status,
    signal: bool,               // some signal is deliverable
    regs: Registers,
    space: Option<nat>)

  /** What the page table base register points to. */
  datatype Root = KernelRoot | SpaceRoot(space: nat)

  /** How far a processor is through a switch. */
  datatype Phase =
    | Outside
    | Locked
    | Searching(prev: nat, rest: seq<nat>)
    | Chosen(prev: nat, next: nat)
    | Committed(prev: nat, next: nat)
    | Saved(prev: nat, next: nat)
    | Released(prev: nat, next: nat)

  datatype Cpu = Cpu(phase: Phase, current: nat, regs: Registers, insideSyscall: bool, root: Root, taskStack: nat)

  datatype State = State(locked: bool, contexts: map<nat, Context>, cpus: map<nat, Cpu>)

  const Boot: State := State(false, map[], map[])

  /** The phases in which the switch lock is held. */
  predicate Critical(ph: Phase) {
    ph.Locked? || ph.Searching? || ph.Chosen? || ph.Committed? || ph.Saved?
  }

  /** The contexts whose guard a processor holds. */
  function Holds(ph: Phase): set<nat> {
    match ph
    case Outside => {}
    case Locked => {}
    case Searching(prev, _) => {prev}
    case Chosen(prev, next) => {prev, next}
    case Committed(prev, next) => {prev, next}
    case Saved(prev, next) => {prev, next}
    case Released(prev, next) => {prev, next}
  }

  ghost predicate Guarded(s: State, c: nat) {
    exists i :: i in s.cpus && c in Holds(s.cpus[i].phase)
  }

  // ------------------------------------------------------------------- steps

  datatype Step =
    | InitCpu(cpu: nat, regs: Registers, root: Root, taskStack: nat, flag: bool)
    | Spawn(id: nat, top: nat, space: nat, regs: Registers)
    | SetStatus(id: nat, status: Status, signal: bool)
    | Execute(cpu: nat, regs: Registers, flag: bool)
    | SetSpace(cpu: nat, id: nat, to: Option<nat>)
    | Acquire(cpu: nat)
    | Begin(cpu: nat, order: seq<nat>)
    | Examine(cpu: nat)
    | GiveUp(cpu: nat)
    | Commit(cpu: nat)
    | Swap(cpu: nat)
    | Release(cpu: nat)
    | Finish(cpu: nat)

  /** Going upwards from `p` and around, `c` comes no later than `t`. */
  predicate InArc(p: nat, c: nat, t: nat) {
    if p < t then p < c <= t else p < c || c <= t
  }

  /** The order in which candidates are looked at: the ids above `prev` in
      ascending order, then those below it. */
  ghost predicate IsOrder(order: seq<nat>, ids: set<nat>, prev: nat) {
    && (forall c :: c in order <==> c in ids && c != prev)
    && (forall a, b :: 0 <= a < b < |order| ==> order[a] != order[b] && InArc(prev, order[a], order[b]))
  }

  /** Whether a context may be switched to on a processor. */
  predicate Eligible(x: Context, cpu: nat) {
    && !x.running
    && (x.cpu == None || x.cpu == Some(cpu))
    && (x.status.Runnable? || (x.status.SoftBlocked? && x.signal))
  }

  ghost predicate NobodySearching(s: State) {
    forall i :: i in s.cpus ==> !s.cpus[i].phase.Searching?
  }

  ghost predicate Enabled(s: State, st: Step) {
    match st
    case InitCpu(i, _, _, _, _) => i !in s.cpus && i !in s.contexts && NobodySearching(s)
    case Spawn(c, _, _, _) => c !in s.contexts && NobodySearching(s)
    case SetStatus(c, _, _) => c in s.contexts && !Guarded(s, c)
    case Execute(i, _, _) => i in s.cpus && s.cpus[i].phase.Outside?
    case SetSpace(i, c, to) =>
      && i in s.cpus && s.cpus[i].phase.Outside? && c in s.contexts && !Guarded(s, c)
      && (c != s.cpus[i].current ==> !s.contexts[c].running || s.contexts[c].space == to != None)
    case Acquire(i) => i in s.cpus && s.cpus[i].phase.Outside? && !s.locked
    case Begin(i, order) =>
      && i in s.cpus && s.cpus[i].phase.Locked? && !Guarded(s, s.cpus[i].current)
      && IsOrder(order, s.contexts.Keys, s.cpus[i].current)
    case Examine(i) =>
      && i in s.cpus && s.cpus[i].phase.Searching? && |s.cpus[i].phase.rest| > 0
      && s.cpus[i].phase.rest[0] in s.contexts && !Guarded(s, s.cpus[i].phase.rest[0])
    case GiveUp(i) => i in s.cpus && s.cpus[i].phase.Searching? && s.cpus[i].phase.rest == []
    case Commit(i) =>
      && i in s.cpus && s.cpus[i].phase.Chosen?
      && s.cpus[i].phase.prev in s.contexts && s.cpus[i].phase.next in s.contexts
    case Swap(i) =>
      && i in s.cpus && s.cpus[i].phase.Committed?
      && s.cpus[i].phase.prev in s.contexts && s.cpus[i].phase.next in s.contexts
    case Release(i) => i in s.cpus && s.cpus[i].phase.Saved?
    case Finish(i) =>
      && i in s.cpus && s.cpus[i].phase.Released?
      && s.cpus[i].phase.prev in s.contexts && s.cpus[i].phase.next in s.contexts
  }

  function SetCpu(s: State, i: nat, k: Cpu): State { s.(cpus := s.cpus[i := k]) }

  function RootOf(to: Option<nat>): Root { if to.Some? then SpaceRoot(to.value) else KernelRoot }

  /** The page table base after a switch: untouched when both contexts share an
      address space or the new one has none. */
  function RootAfter(root: Root, prev: Option<nat>, next: Option<nat>): Root {
    if prev == next || next.None? then root else SpaceRoot(next.value)
  }

  ghost function Apply(s: State, st: Step): State
    requires Enabled(s, st)
  {
    match st
    case InitCpu(i, regs, root, stack, flag) =>
      State(s.locked,
            s.contexts[i := Context(true, Some(i), false, None,
                                    Runnable, false, Registers(0, 0, 0, 0, 0, 0, 0, 0), None)],
            s.cpus[i := Cpu(Outside, i, regs, flag, root, stack)])
    case Spawn(c, top, space, regs) =>
      s.(contexts := s.contexts[c := Context(false, None, false, Some(top), HardBlocked, false, regs, Some(space))])
    case SetStatus(c, status, signal) =>
      s.(contexts := s.contexts[c := s.contexts[c].(status := status, signal := signal)])
    case Execute(i, regs, flag) => SetCpu(s, i, s.cpus[i].(regs := regs, insideSyscall := flag))
    case SetSpace(i, c, to) =>
      if s.contexts[c].space == to != None then s
      else
        var t := s.(contexts := s.contexts[c := s.contexts[c].(space := to)]);
        if c == s.cpus[i].current then SetCpu(t, i, s.cpus[i].(root := RootOf(to))) else t
    case Acquire(i) => SetCpu(s, i, s.cpus[i].(phase := Locked)).(locked := true)
    case Begin(i, order) => SetCpu(s, i, s.cpus[i].(phase := Searching(s.cpus[i].current, order)))
    case Examine(i) =>
      var ph := s.cpus[i].phase;
      var c := ph.rest[0];
      if Eligible(s.contexts[c], i)
      then
        var t := SetCpu(s, i, s.cpus[i].(phase := Chosen(ph.prev, c)));
        t.(contexts := s.contexts[c := s.contexts[c].(status := Runnable)])
      else SetCpu(s, i, s.cpus[i].(phase := Searching(ph.prev, ph.rest[1..])))
    case GiveUp(i) => SetCpu(s, i, s.cpus[i].(phase := Outside)).(locked := false)
    case Commit(i) =>
      var k := s.cpus[i];
      var p, n := k.phase.prev, k.phase.next;
      var contexts := s.contexts[p := s.contexts[p].(running := false, insideSyscall := k.insideSyscall)];
      State(s.locked,
            contexts[n := contexts[n].(running := true, cpu := Some(i))],
            s.cpus[i := k.(phase := Committed(p, n), current := n, insideSyscall := s.contexts[n].insideSyscall,
                           taskStack :=
                             if s.contexts[n].stackTop.Some? then s.contexts[n].stackTop.value else k.taskStack)])
    case Swap(i) =>
      var k := s.cpus[i];
      var p, n := k.phase.prev, k.phase.next;
      State(s.locked,
            s.contexts[p := s.contexts[p].(regs := k.regs)],
            s.cpus[i := k.(phase := Saved(p, n), regs := s.contexts[n].regs)])
    case Release(i) =>
      SetCpu(s, i, s.cpus[i].(phase := Released(s.cpus[i].phase.prev, s.cpus[i].phase.next))).(locked := false)
    case Finish(i) =>
      var k := s.cpus[i];
      SetCpu(s, i, k.(phase := Outside,
                      root := RootAfter(k.root, s.contexts[k.phase.prev].space, s.contexts[k.phase.next].space)))
  }

  // -------------------------------------------------------------- invariants

  /** The lock is held exactly while one processor is in a critical phase. */
  ghost predicate LockInv(s: State) {
    && (s.locked <==> exists i :: i in s.cpus && Critical(s.cpus[i].phase))
    && (forall i, j :: i in s.cpus && j in s.cpus && Critical(s.cpus[i].phase) && Critical(s.cpus[j].phase) ==> i == j)
  }

  /** Running contexts and processors correspond one to one. */
  ghost predicate RunInv(s: State) {
    && (forall i :: i in s.cpus ==>
          s.cpus[i].current in s.contexts && s.contexts[s.cpus[i].current].running
            && s.contexts[s.cpus[i].current].cpu == Some(i))
    && (forall c :: c in s.contexts && s.contexts[c].running ==>
          s.contexts[c].cpu.Some? && s.contexts[c].cpu.value in s.cpus && s.cpus[s.contexts[c].cpu.value].current == c)
  }

  /** What a processor's phase says about the contexts it has in hand. */
  ghost predicate PhaseFits(s: State, i: nat)
    requires i in s.cpus
  {
    var k := s.cpus[i];
    match k.phase
    case Outside => true
    case Locked => true
    case Searching(prev, rest) => prev == k.current && forall c :: c in rest ==> c != prev && c in s.contexts
    case Chosen(prev, next) =>
      && prev == k.current && next != prev && next in s.contexts && prev in s.contexts
      && Eligible(s.contexts[next], i) && s.contexts[next].status.Runnable?
    case Committed(prev, next) => next == k.current && Left(s, i, prev)
    case Saved(prev, next) => next == k.current && Left(s, i, prev)
    case Released(prev, next) => next == k.current && Left(s, i, prev)
  }

  /** A context just switched away from, still held by processor `i`. */
  predicate Left(s: State, i: nat, prev: nat) {
    prev in s.contexts && !s.contexts[prev].running && s.contexts[prev].cpu == Some(i)
  }

  ghost predicate PhaseInv(s: State) {
    forall i :: i in s.cpus ==> PhaseFits(s, i)
  }

  /** No context is held by two processors. */
  ghost predicate GuardInv(s: State) {
    forall i, j :: i in s.cpus && j in s.cpus && i != j ==> Holds(s.cpus[i].phase) !! Holds(s.cpus[j].phase)
  }

  /** The context whose address space the page table base follows. */
  function Followed(k: Cpu): nat {
    if k.phase.Committed? || k.phase.Saved? || k.phase.Released? then k.phase.prev else k.current
  }

  /** If that context has an address space, the base points to it. */
  ghost predicate RootInv(s: State) {
    forall i :: i in s.cpus && Followed(s.cpus[i]) in s.contexts && s.contexts[Followed(s.cpus[i])].space.Some? ==>
      s.cpus[i].root == SpaceRoot(s.contexts[Followed(s.cpus[i])].space.value)
  }

  /** If the current context has a kernel stack, the task stack is its top. */
  ghost predicate StackInv(s: State) {
    forall i :: i in s.cpus && s.cpus[i].current in s.contexts && s.contexts[s.cpus[i].current].stackTop.Some? ==>
      s.cpus[i].taskStack == s.contexts[s.cpus[i].current].stackTop.value
  }

  ghost predicate Inv(s: State) {
    LockInv(s) && RunInv(s) && PhaseInv(s) && GuardInv(s) && RootInv(s) && StackInv(s)
  }

  // -------------------------------------------- each step keeps each invariant

  /** Steps taken outside a switch, and those of a switch that change no more
      than phases. */
  predicate Ordinary(st: Step) {
    st.InitCpu? || st.Spawn? || st.SetStatus? || st.Execute? || st.SetSpace?
  }

  predicate Moving(st: Step) {
    st.Acquire? || st.Begin? || st.GiveUp? || st.Release?
  }

  lemma {:induction false} LockFrame(s: State, t: State)
    requires LockInv(s) && t.locked == s.locked
    requires forall j :: j in s.cpus ==> j in t.cpus && (Critical(t.cpus[j].phase) <==> Critical(s.cpus[j].phase))
    requires forall j :: j in t.cpus && Critical(t.cpus[j].phase) ==> j in s.cpus
    ensures LockInv(t)
  {
    if s.locked {
      var i :| i in s.cpus && Critical(s.cpus[i].phase);
      assert i in t.cpus && Critical(t.cpus[i].phase);
    }
  }

  lemma {:induction false} LockKeptOrdinary(s: State, st: Step)
    requires Inv(s) && Enabled(s, st) && Ordinary(st)
    ensures LockInv(Apply(s, st))
  {
    hide RunInv, PhaseInv, GuardInv, RootInv, StackInv, Guarded, Eligible, IsOrder, NobodySearching;
    LockFrame(s, Apply(s, st));
  }

  lemma {:induction false} LockKeptMoving(s: State, st: Step)
    requires Inv(s) && Enabled(s, st) && Moving(st)
    ensures LockInv(Apply(s, st))
  {
    hide RunInv, PhaseInv, GuardInv, RootInv, StackInv, Guarded, Eligible, IsOrder, NobodySearching;
    if st.Acquire? {
      assert Critical(Apply(s, st).cpus[st.cpu].phase);
    } else if st.Begin? {
      LockFrame(s, Apply(s, st));
    }
  }

  lemma {:induction false} LockKeptExamine(s: State, st: Step)
    requires Inv(s) && Enabled(s, st) && st.Examine?
    ensures LockInv(Apply(s, st))
  {
    hide RunInv, PhaseInv, GuardInv, RootInv, StackInv, Guarded, Eligible, IsOrder, NobodySearching;
    LockFrame(s, Apply(s, st));
  }

  lemma {:induction false} LockKeptCommit(s: State, st: Step)
    requires Inv(s) && Enabled(s, st) && st.Commit?
    ensures LockInv(Apply(s, st))
  {
    hide RunInv, PhaseInv, GuardInv, RootInv, StackInv, Guarded, Eligible, IsOrder, NobodySearching;
    LockFrame(s, Apply(s, st));
  }

  lemma {:induction false} LockKeptClosing(s: State, st: Step)
    requires Inv(s) && Enabled(s, st) && (st.Swap? || st.Finish?)
    ensures LockInv(Apply(s, st))
  {
    hide RunInv, PhaseInv, GuardInv, RootInv, StackInv, Guarded, Eligible, IsOrder, NobodySearching;
    LockFrame(s, Apply(s, st));
  }

  lemma {:induction false} RunFrame(s: State, t: State)
    requires RunInv(s) && t.cpus.Keys == s.cpus.Keys
    requires forall i :: i in s.cpus ==> t.cpus[i].current == s.cpus[i].current
    requires forall c :: c in s.contexts ==>
      c in t.contexts && t.contexts[c].running == s.contexts[c].running && t.contexts[c].cpu == s.contexts[c].cpu
    requires forall c :: c in t.contexts && c !in s.contexts ==> !t.contexts[c].running
    ensures RunInv(t)
  {
  }

  lemma {:induction false} RunKeptOrdinary(s: State, st: Step)
    requires Inv(s) && Enabled(s, st) && Ordinary(st)
    ensures RunInv(Apply(s, st))
  {
    hide LockInv, PhaseInv, GuardInv, RootInv, StackInv, Guarded, IsOrder, NobodySearching, Eligible;
    if !st.InitCpu? {
      hide RunInv;
      RunFrame(s, Apply(s, st));
    }
  }

  lemma {:induction false} RunKeptMoving(s: State, st: Step)
    requires Inv(s) && Enabled(s, st) && Moving(st)
    ensures RunInv(Apply(s, st))
  {
    hide LockInv, GuardInv, RootInv, StackInv, Guarded, IsOrder, NobodySearching;
  }

  lemma {:induction false} RunKeptExamine(s: State, st: Step)
    requires Inv(s) && Enabled(s, st) && st.Examine?
    ensures RunInv(Apply(s, st))
  {
    hide LockInv, RunInv, PhaseInv, GuardInv, RootInv, StackInv, Guarded, IsOrder, NobodySearching, Eligible;
    RunFrame(s, Apply(s, st));
  }

  lemma {:induction false} RunKeptCommit(s: State, st: Step)
    requires Inv(s) && Enabled(s, st) && st.Commit?
    ensures RunInv(Apply(s, st))
  {
    hide LockInv, GuardInv, RootInv, StackInv, Guarded, IsOrder, NobodySearching;
    assert PhaseFits(s, st.cpu);
  }

  lemma {:induction false} RunKeptClosing(s: State, st: Step)
    requires Inv(s) && Enabled(s, st) && (st.Swap? || st.Finish?)
    ensures RunInv(Apply(s, st))
  {
    hide LockInv, GuardInv, RootInv, StackInv, Guarded, IsOrder, NobodySearching;
    assert PhaseFits(s, st.cpu);
  }

  lemma {:induction false} PhaseKeptOrdinary(s: State, st: Step)
    requires Inv(s) && Enabled(s, st) && Ordinary(st)
    ensures PhaseInv(Apply(s, st))
  {
    hide LockInv, GuardInv, StackInv, RootInv, NobodySearching, IsOrder;
  }

  lemma {:induction false} PhaseKeptMoving(s: State, st: Step)
    requires Inv(s) && Enabled(s, st) && Moving(st)
    ensures PhaseInv(Apply(s, st))
  {
    hide LockInv, StackInv, RootInv;
  }

  lemma {:induction false} PhaseKeptExamine(s: State, st: Step)
    requires Inv(s) && Enabled(s, st) && st.Examine?
    ensures PhaseInv(Apply(s, st))
  {
    hide LockInv, StackInv, RootInv;
    assert PhaseFits(s, st.cpu);
  }

  lemma {:induction false} PhaseKeptCommit(s: State, st: Step)
    requires Inv(s) && Enabled(s, st) && st.Commit?
    ensures PhaseInv(Apply(s, st))
  {
    hide LockInv, StackInv, RootInv;
    assert PhaseFits(s, st.cpu);
  }

  lemma {:induction false} PhaseKeptClosing(s: State, st: Step)
    requires Inv(s) && Enabled(s, st) && (st.Swap? || st.Finish?)
    ensures PhaseInv(Apply(s, st))
  {
    hide LockInv, StackInv, RootInv;
    assert PhaseFits(s, st.cpu);
  }

  lemma {:induction false} GuardKeptOrdinary(s: State, st: Step)
    requires Inv(s) && Enabled(s, st) && Ordinary(st)
    ensures GuardInv(Apply(s, st))
  {
    hide LockInv, RunInv, RootInv, StackInv, IsOrder, NobodySearching, Eligible;
  }

  lemma {:induction false} GuardKeptMoving(s: State, st: Step)
    requires Inv(s) && Enabled(s, st) && Moving(st)
    ensures GuardInv(Apply(s, st))
  {
    hide LockInv, RunInv, RootInv, StackInv, IsOrder, NobodySearching, Eligible;
  }

  lemma {:induction false} GuardKeptExamine(s: State, st: Step)
    requires Inv(s) && Enabled(s, st) && st.Examine?
    ensures GuardInv(Apply(s, st))
  {
    hide LockInv, RunInv, RootInv, StackInv, IsOrder, NobodySearching, Eligible;
    assert PhaseFits(s, st.cpu);
  }

  lemma {:induction false} GuardKeptCommit(s: State, st: Step)
    requires Inv(s) && Enabled(s, st) && st.Commit?
    ensures GuardInv(Apply(s, st))
  {
    hide LockInv, RunInv, RootInv, StackInv, IsOrder, NobodySearching, Eligible;
    assert PhaseFits(s, st.cpu);
  }

  lemma {:induction false} GuardKeptClosing(s: State, st: Step)
    requires Inv(s) && Enabled(s, st) && (st.Swap? || st.Finish?)
    ensures GuardInv(Apply(s, st))
  {
    hide LockInv, RunInv, RootInv, StackInv, IsOrder, NobodySearching, Eligible;
    assert PhaseFits(s, st.cpu);
  }

  lemma {:induction false} RootKeptOrdinary(s: State, st: Step)
    requires Inv(s) && Enabled(s, st) && Ordinary(st)
    ensures RootInv(Apply(s, st))
  {
    hide LockInv, StackInv, IsOrder, NobodySearching;
  }

  lemma {:induction false} RootKeptMoving(s: State, st: Step)
    requires Inv(s) && Enabled(s, st) && Moving(st)
    ensures RootInv(Apply(s, st))
  {
    hide LockInv, GuardInv, StackInv, Guarded, IsOrder, NobodySearching, Eligible;
  }

  lemma {:induction false} RootKeptExamine(s: State, st: Step)
    requires Inv(s) && Enabled(s, st) && st.Examine?
    ensures RootInv(Apply(s, st))
  {
    hide LockInv, StackInv, IsOrder, NobodySearching;
    assert PhaseFits(s, st.cpu);
  }

  lemma {:induction false} RootKeptCommit(s: State, st: Step)
    requires Inv(s) && Enabled(s, st) && st.Commit?
    ensures RootInv(Apply(s, st))
  {
    hide LockInv, StackInv, IsOrder, NobodySearching;
    assert PhaseFits(s, st.cpu);
  }

  lemma {:induction false} RootKeptClosing(s: State, st: Step)
    requires Inv(s) && Enabled(s, st) && (st.Swap? || st.Finish?)
    ensures RootInv(Apply(s, st))
  {
    hide LockInv, StackInv, IsOrder, NobodySearching;
    assert PhaseFits(s, st.cpu);
  }

  lemma {:induction false} StackKeptOrdinary(s: State, st: Step)
    requires Inv(s) && Enabled(s, st) && Ordinary(st)
    ensures StackInv(Apply(s, st))
  {
    hide LockInv, GuardInv, RootInv, IsOrder, NobodySearching;
  }

  lemma {:induction false} StackKeptMoving(s: State, st: Step)
    requires Inv(s) && Enabled(s, st) && Moving(st)
    ensures StackInv(Apply(s, st))
  {
    hide LockInv, GuardInv, RootInv, IsOrder, NobodySearching;
  }

  lemma {:induction false} StackKeptExamine(s: State, st: Step)
    requires Inv(s) && Enabled(s, st) && st.Examine?
    ensures StackInv(Apply(s, st))
  {
    hide LockInv, GuardInv, RootInv, IsOrder, NobodySearching;
    assert PhaseFits(s, st.cpu);
  }

  lemma {:induction false} StackKeptCommit(s: State, st: Step)
    requires Inv(s) && Enabled(s, st) && st.Commit?
    ensures StackInv(Apply(s, st))
  {
    hide LockInv, GuardInv, RootInv, IsOrder, NobodySearching;
    assert PhaseFits(s, st.cpu);
  }

  lemma {:induction false} StackKeptClosing(s: State, st: Step)
    requires Inv(s) && Enabled(s, st) && (st.Swap? || st.Finish?)
    ensures StackInv(Apply(s, st))
  {
    hide LockInv, GuardInv, RootInv, IsOrder, NobodySearching;
    assert PhaseFits(s, st.cpu);
  }

  /** Every step keeps the whole invariant. */
  lemma {:induction false} StepKeepsInv(s: State, st: Step)
    requires Inv(s) && Enabled(s, st)
    ensures Inv(Apply(s, st))
  {
    hide LockInv, RunInv, PhaseInv, GuardInv, RootInv, StackInv, Apply, Enabled;
    if Ordinary(st) {
      LockKeptOrdinary(s, st);
      RunKeptOrdinary(s, st);
      PhaseKeptOrdinary(s, st);
      GuardKeptOrdinary(s, st);
      RootKeptOrdinary(s, st);
      StackKeptOrdinary(s, st);
    } else if Moving(st) {
      LockKeptMoving(s, st);
      RunKeptMoving(s, st);
      PhaseKeptMoving(s, st);
      GuardKeptMoving(s, st);
      RootKeptMoving(s, st);
      StackKeptMoving(s, st);
    } else if st.Examine? {
      LockKeptExamine(s, st);
      RunKeptExamine(s, st);
      PhaseKeptExamine(s, st);
      GuardKeptExamine(s, st);
      RootKeptExamine(s, st);
      StackKeptExamine(s, st);
    } else if st.Commit? {
      LockKeptCommit(s, st);
      RunKeptCommit(s, st);
      PhaseKeptCommit(s, st);
      GuardKeptCommit(s, st);
      RootKeptCommit(s, st);
      StackKeptCommit(s, st);
    } else {
      LockKeptClosing(s, st);
      RunKeptClosing(s, st);
      PhaseKeptClosing(s, st);
      GuardKeptClosing(s, st);
      RootKeptClosing(s, st);
      StackKeptClosing(s, st);
    }
  }
}
