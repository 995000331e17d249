/** Starting the application processors: the boot processor and the processor
    being started share six words below one megabyte and one flag, and take steps
    in any order. */
module ApStartup {
  import opened Regions
  import opened KernelFrames

  // ---------------------------------------------------------------- the state

  const STACK_PAGES: nat := 64
  const STACK_SIZE: nat := 64 * 4096
  const IST_PAGES: nat := 16
  const STACK_RESERVE: nat := 256
  const FOUR_GIGABYTES: nat := 0x1_0000_0000

  /** What does not change: the local APIC ids in table order, the boot
      processor's own, the page table and entry point to start with, the frame
      allocator's parameters, with the page its base lies in, and the pages of a
      processor's control region. */
  datatype Config = Config(
    lapics: seq<nat>,
    bsp: nat,
    pageTable: nat,
    entry: nat,
    merged: seq<Range>,
    base: nat,
    boundary: nat,
    pcrPages: nat)

  datatype Mailbox = Mailbox(ready: nat, cpuId: nat, pageTable: nat, stackStart: nat, stackEnd: nat, code: nat)

  /** The boot processor, at processor `next` of the table. */
  datatype Phase =
    | Choose
    | Allocate
    | Fill(written: nat)
    | ClearFlag
    | SendInit
    | SendStart
    | AwaitTrampoline
    | AwaitKernel
    | Reload
    | Finished
    | Panicked

  /** What a starting processor has read from the mailbox. */
  datatype Registers = Registers(cr3: nat, rsp: int, code: nat, cpu: nat, tss: nat)

  /** A processor that got no frames stops; one that has turned paging on with
      another table than the kernel's goes astray. */
  datatype Ap = Reset | Booting(pc: nat, regs: Registers) | Running | Exhausted | Astray

  /** A start command: the processor and, by its place among all blocks handed
      out, the stack meant for it. */
  datatype Letter = Letter(processor: nat, block: nat)

  datatype State = State(
    next: nat,
    phase: Phase,
    stack: nat,               // the place of the stack allocated last
    mailbox: Mailbox,
    apReady: bool,
    cpuCount: nat,
    cursor: Cursor,
    blocks: seq<Range>,       // everything allocated, oldest first
    aps: map<nat, Ap>,
    sent: seq<Letter>,        // start commands
    started: seq<Registers>)  // what the processors that got ready had read

  predicate WellFormed(c: Config) {
    && c.pcrPages >= 1
    && (forall i :: 0 <= i < |c.lapics| ==> c.lapics[i] < 256)
  }

  // -------------------------------------------------------------------- steps

  /** Taking frames; the cursor moves on even if they are out of bounds. */
  function Take(c: Config, s: State, pages: nat): (r: (State, bool))
    requires pages >= 1 && s.cursor.index <= |c.merged|
  {
    var step := Next(c.merged, s.cursor, 4096 * pages);
    var t := s.(cursor := step.next);
    if step.block + 4096 * pages > c.boundary then (t, false)
    else (t.(blocks := s.blocks + [Range(step.block, step.block + 4096 * pages)]), true)
  }

  function FillWord(c: Config, s: State, k: nat): Mailbox
    requires s.next < |c.lapics| && s.stack < |s.blocks|
  {
    var m, start := s.mailbox, c.base + s.blocks[s.stack].start;
    if k == 0 then m.(ready := 0)
    else if k == 1 then m.(cpuId := c.lapics[s.next])
    else if k == 2 then m.(pageTable := c.pageTable)
    else if k == 3 then m.(stackStart := start)
    else if k == 4 then m.(stackEnd := start + STACK_SIZE)
    else m.(code := c.entry)
  }

  predicate BspEnabled(c: Config, s: State) {
    match s.phase
    case AwaitTrampoline => s.mailbox.ready % 256 != 0
    case AwaitKernel => s.apReady
    case Finished => false
    case Panicked => false
    case Choose => s.next <= |c.lapics|
    case _ => s.next < |c.lapics|
  }

  /** The processor being addressed, if it exists, takes state `to`. */
  function Signal(s: State, id: nat, to: Ap): State {
    if id in s.aps then s.(aps := s.aps[id := to]) else s
  }

  const NO_REGISTERS := Registers(0, 0, 0, 0, 0)

  function BspStep(c: Config, s: State): State
    requires WellFormed(c) && BspEnabled(c, s) && s.cursor.index <= |c.merged|
    requires s.phase.Fill? ==> s.stack < |s.blocks|
  {
    match s.phase
    case Choose =>
      if s.next == |c.lapics| then s.(phase := Finished)
      else if c.lapics[s.next] == c.bsp then s.(next := s.next + 1)
      else s.(phase := Allocate, cpuCount := s.cpuCount + 1)
    case Allocate =>
      var (t, ok) := Take(c, s, STACK_PAGES);
      if ok then t.(phase := Fill(0), stack := |s.blocks|) else t.(phase := Panicked)
    case Fill(k) =>
      s.(mailbox := FillWord(c, s, k), phase := if k < 5 then Fill(k + 1) else ClearFlag)
    case ClearFlag => s.(apReady := false, phase := SendInit)
    case SendInit => Signal(s, c.lapics[s.next], Reset).(phase := SendStart)
    case SendStart =>
      var id := c.lapics[s.next];
      var t := s.(phase := AwaitTrampoline, sent := s.sent + [Letter(id, s.stack)]);
      if id in s.aps && s.aps[id].Reset? then Signal(t, id, Booting(0, NO_REGISTERS)) else t
    case AwaitTrampoline => s.(phase := AwaitKernel)
    case AwaitKernel => s.(phase := Reload)
    case Reload => s.(phase := Choose, next := s.next + 1)
    case Finished => s
    case Panicked => s
  }

  predicate ApEnabled(c: Config, s: State, id: nat) {
    && id in s.aps && s.aps[id].Booting? && s.aps[id].pc <= 8
    && (s.aps[id].pc >= 4 ==> s.aps[id].regs.code == c.entry)
  }

  /** The trampoline up to its jump, then the kernel's entry for these processors
      up to the flag. The page table is read with a 32-bit move. */
  function ApStep(c: Config, s: State, id: nat): State
    requires WellFormed(c) && ApEnabled(c, s, id) && s.cursor.index <= |c.merged|
  {
    var Booting(pc, r) := s.aps[id];
    var m := s.mailbox;
    if pc == 0 then s.(aps := s.aps[id := Booting(1, r.(cr3 := m.pageTable % FOUR_GIGABYTES))])
    else if pc == 1 && r.cr3 != c.pageTable then s.(aps := s.aps[id := Astray])
    else if pc == 1 then s.(aps := s.aps[id := Booting(2, r.(rsp := m.stackEnd - STACK_RESERVE))])
    else if pc == 2 then s.(aps := s.aps[id := Booting(3, r.(code := m.code))])
    else if pc == 3 then s.(aps := s.aps[id := Booting(4, r)], mailbox := m.(ready := 1))
    else if pc == 4 then s.(aps := s.aps[id := Booting(5, r.(cpu := m.cpuId % 256))])
    else if pc == 5 then s.(aps := s.aps[id := Booting(6, r.(tss := m.stackEnd))])
    else if pc == 6 then
      var (t, ok) := Take(c, s, c.pcrPages);
      t.(aps := s.aps[id := if ok then Booting(7, r) else Exhausted])
    else if pc == 7 then
      var (t, ok) := Take(c, s, IST_PAGES);
      t.(aps := s.aps[id := if ok then Booting(8, r) else Exhausted])
    else s.(aps := s.aps[id := Running], apReady := true, started := s.started + [r])
  }

  datatype Step = Bsp | Processor(id: nat)

  /** Always so in a run. */
  predicate Sensible(c: Config, s: State) {
    s.cursor.index <= |c.merged| && (s.phase.Fill? ==> s.stack < |s.blocks|)
  }

  predicate Enabled(c: Config, s: State, step: Step) {
    Sensible(c, s) && match step case Bsp => BspEnabled(c, s) case Processor(id) => ApEnabled(c, s, id)
  }

  // --------------------------------------------------------------- invariants

  /** Blocks lie in allocation order without overlap, off everything reserved. */
  ghost predicate BlocksOk(c: Config, s: State) {
    && Separated(c.merged) && Passed(c.merged, s.cursor)
    && (forall i, j :: 0 <= i < j < |s.blocks| ==> s.blocks[i].end <= s.blocks[j].start)
    && (forall i :: 0 <= i < |s.blocks| ==>
      s.blocks[i].end <= s.cursor.value && Clear(c.merged, s.blocks[i].start, s.blocks[i].end))
  }

  predicate Preparing(p: Phase) { p.Fill? || p.ClearFlag? || p.SendInit? || p.SendStart? }

  predicate Waiting(p: Phase) { p.AwaitTrampoline? || p.AwaitKernel? }

  predicate HasSize(blocks: seq<Range>, i: nat, size: nat) {
    i < |blocks| && blocks[i].end == blocks[i].start + size
  }

  ghost predicate StacksOk(blocks: seq<Range>, sent: seq<Letter>) {
    && (forall i :: 0 <= i < |sent| ==> HasSize(blocks, sent[i].block, STACK_SIZE))
    && (forall i, j :: 0 <= i < j < |sent| ==> sent[i].block < sent[j].block)
  }

  lemma {:induction false} StacksGrow(blocks: seq<Range>, sent: seq<Letter>, more: seq<Range>)
    requires StacksOk(blocks, sent) && blocks <= more
    ensures StacksOk(more, sent)
  {
  }

  lemma {:induction false} StacksAppend(blocks: seq<Range>, sent: seq<Letter>, l: Letter)
    requires StacksOk(blocks, sent) && HasSize(blocks, l.block, STACK_SIZE)
    requires forall i :: 0 <= i < |sent| ==> sent[i].block < l.block
    ensures StacksOk(blocks, sent + [l])
  {
  }

  /** Every start command has its own stack; the one in preparation is newer. */
  ghost predicate SentOk(c: Config, s: State) {
    && StacksOk(s.blocks, s.sent)
    && (Preparing(s.phase) ==>
      && s.stack < |s.blocks| && s.blocks[s.stack].end == s.blocks[s.stack].start + STACK_SIZE
      && (forall i :: 0 <= i < |s.sent| ==> s.sent[i].block < s.stack))
  }

  /** The first `k` words are the ones for processor `id` and stack `start`. */
  predicate Filled(c: Config, m: Mailbox, id: nat, start: nat, k: nat) {
    && (k >= 2 ==> m.cpuId == id)
    && (k >= 3 ==> m.pageTable == c.pageTable)
    && (k >= 4 ==> m.stackStart == start)
    && (k >= 5 ==> m.stackEnd == start + STACK_SIZE)
    && (k >= 6 ==> m.code == c.entry)
  }

  function FilledWords(p: Phase): nat {
    match p
    case Fill(k) => k
    case ClearFlag => 6
    case SendInit => 6
    case SendStart => 6
    case AwaitTrampoline => 6
    case AwaitKernel => 6
    case _ => 0
  }

  ghost predicate MailboxOk(c: Config, s: State) {
    && (Preparing(s.phase) || Waiting(s.phase) ==>
          s.next < |c.lapics| && s.stack < |s.blocks| &&
          Filled(c, s.mailbox, c.lapics[s.next], c.base + s.blocks[s.stack].start, FilledWords(s.phase)))
    && (Preparing(s.phase) && FilledWords(s.phase) >= 1 ==> s.mailbox.ready == 0)
    && (s.phase.Fill? ==> s.phase.written <= 5)
    && (s.phase.SendInit? || s.phase.SendStart? ==> !s.apReady)
    && (Waiting(s.phase) ==> s.mailbox.ready <= 1)
    && (s.phase.AwaitKernel? ==> s.mailbox.ready == 1)
  }

  /** The processor for which the boot processor is in its loop body. */
  ghost predicate LoopOk(c: Config, s: State) {
    && s.next <= |c.lapics|
    && (!s.phase.Choose? && !s.phase.Finished? ==> s.next < |c.lapics| && c.lapics[s.next] != c.bsp)
    && (s.phase.Finished? ==> s.next == |c.lapics|)
  }

  /** What a processor at `pc` has read agrees with the mailbox. */
  predicate ReadSoFar(r: Registers, m: Mailbox, pc: nat) {
    && (pc >= 1 ==> r.cr3 == m.pageTable % FOUR_GIGABYTES)
    && (pc >= 2 ==> r.rsp == m.stackEnd - STACK_RESERVE)
    && (pc >= 3 ==> r.code == m.code)
    && (pc >= 5 ==> r.cpu == m.cpuId % 256)
    && (pc >= 6 ==> r.tss == m.stackEnd)
  }

  /** Only the processor being waited for is starting. */
  ghost predicate ApsOk(c: Config, s: State) {
    && (forall id :: id in s.aps && s.aps[id].Booting? ==>
      && Waiting(s.phase) && s.next < |c.lapics| && id == c.lapics[s.next] && !s.apReady
      && s.aps[id].pc <= 8 && ReadSoFar(s.aps[id].regs, s.mailbox, s.aps[id].pc)
      && (s.aps[id].pc >= 2 ==> c.pageTable < FOUR_GIGABYTES)
      && s.mailbox.ready == (if s.aps[id].pc >= 4 then 1 else 0))
    && (s.phase.SendStart? && s.next < |c.lapics| && c.lapics[s.next] in s.aps ==> s.aps[c.lapics[s.next]].Reset?)
    && (Waiting(s.phase) && s.next < |c.lapics| && c.lapics[s.next] in s.aps ==>
          var ap := s.aps[c.lapics[s.next]];
          ap.Booting? || ap.Exhausted? || ap.Astray? || (ap.Running? && s.apReady && s.mailbox.ready == 1))
    && (forall id :: id in s.aps && s.aps[id].Astray? ==> c.pageTable >= FOUR_GIGABYTES)
  }

  /** Whoever got no frames, there are none of that size left. */
  ghost predicate SpentOk(c: Config, s: State) {
    && (s.phase.Panicked? ==> s.cursor.value > c.boundary)
    && (forall id :: id in s.aps && s.aps[id].Exhausted? ==> s.cursor.value > c.boundary)
  }

  /** What a start command should make its processor read. */
  function Expected(c: Config, blocks: seq<Range>, l: Letter): Registers
    requires l.block < |blocks|
  {
    var end := c.base + blocks[l.block].start + STACK_SIZE;
    Registers(c.pageTable, end - STACK_RESERVE, c.entry, l.processor % 256, end)
  }

  ghost predicate StartedOk(c: Config, s: State) {
    && (s.started != [] ==> c.pageTable < FOUR_GIGABYTES)
    && |s.started| + (if Waiting(s.phase) && !s.apReady then 1 else 0) == |s.sent|
    && (Waiting(s.phase) ==>
          |s.sent| >= 1 && s.next < |c.lapics| && s.sent[|s.sent| - 1] == Letter(c.lapics[s.next], s.stack))
    && ReadAsSent(c, s.blocks, s.sent, s.started)
  }

  ghost predicate ReadAsSent(c: Config, blocks: seq<Range>, sent: seq<Letter>, started: seq<Registers>) {
    |started| <= |sent| && forall i :: 0 <= i < |started| ==>
      sent[i].block < |blocks| && started[i] == Expected(c, blocks, sent[i])
  }

  lemma {:induction false} ReadStaysAsSent(
      c: Config, blocks: seq<Range>, sent: seq<Letter>, started: seq<Registers>, more: seq<Range>, later: seq<Letter>)
    requires ReadAsSent(c, blocks, sent, started) && blocks <= more && sent <= later
    ensures ReadAsSent(c, more, later, started)
  {
  }

  /** The processors to start, in table order. */
  function Targets(ids: seq<nat>, bsp: nat): seq<nat> {
    if ids == [] then []
    else if ids[|ids| - 1] == bsp then Targets(ids[..|ids| - 1], bsp)
    else Targets(ids[..|ids| - 1], bsp) + [ids[|ids| - 1]]
  }

  function Processors(sent: seq<Letter>): seq<nat> { seq(|sent|, i requires 0 <= i < |sent| => sent[i].processor) }

  predicate Sent(p: Phase) { Waiting(p) || p.Reload? }

  ghost predicate OrderOk(c: Config, s: State) {
    && s.next <= |c.lapics|
    && (Sent(s.phase) ==> s.next < |c.lapics|)
    && Processors(s.sent) == Targets(c.lapics[..if Sent(s.phase) then s.next + 1 else s.next], c.bsp)
    && s.cpuCount == 1 + |s.sent| + (if s.phase.Allocate? || Preparing(s.phase) || s.phase.Panicked? then 1 else 0)
  }

  /** What processor `n` of those started has been given: a stack, a control region
      and an interrupt stack. */
  predicate Furnished(c: Config, blocks: seq<Range>, n: nat) {
    && HasSize(blocks, 3 * n, 64 * 4096)
    && HasSize(blocks, 3 * n + 1, c.pcrPages * 4096)
    && HasSize(blocks, 3 * n + 2, 16 * 4096)
  }

  /** What the one being started has been given so far. */
  predicate HalfFurnished(c: Config, s: State, n: nat)
    requires s.next < |c.lapics|
  {
    var id := c.lapics[s.next];
    if id !in s.aps || s.aps[id].Astray? || (s.aps[id].Booting? && s.aps[id].pc < 7) then |s.blocks| == 3 * n + 1
    else if s.aps[id].Booting? && s.aps[id].pc == 7 then
      |s.blocks| == 3 * n + 2 && HasSize(s.blocks, 3 * n + 1, c.pcrPages * 4096)
    else if s.aps[id].Booting? then |s.blocks| == 3 * n + 3 && Furnished(c, s.blocks, n)
    else true
  }

  ghost predicate BlocksFit(c: Config, s: State) {
    var n := |s.started|;
    && (forall i :: 0 <= i < n ==> i < |s.sent| && s.sent[i].block == 3 * i && Furnished(c, s.blocks, i))
    && if Preparing(s.phase) then |s.blocks| == 3 * n + 1 && s.stack == 3 * n
       else if Waiting(s.phase) && !s.apReady then
         n < |s.sent| && s.sent[n].block == 3 * n && s.next < |c.lapics| && HalfFurnished(c, s, n)
       else |s.blocks| == 3 * n
  }

  ghost predicate Inv(c: Config, s: State) {
    && BlocksOk(c, s) && SentOk(c, s) && MailboxOk(c, s) && LoopOk(c, s)
    && ApsOk(c, s) && StartedOk(c, s) && OrderOk(c, s) && SpentOk(c, s) && BlocksFit(c, s)
  }

  ghost predicate Boot(c: Config, s: State) {
    && s.next == 0 && s.phase.Choose? && s.cpuCount == 1 && s.blocks == [] && s.sent == [] && s.started == []
    && Separated(c.merged) && Passed(c.merged, s.cursor)
    && (forall id :: id in s.aps ==> s.aps[id].Reset?)
  }

  lemma {:induction false} BootSatisfiesInv(c: Config, s: State)
    requires Boot(c, s)
    ensures Inv(c, s)
  {
    assert c.lapics[..0] == [];
  }

  // ------------------------------------------------- every step keeps them all

  lemma {:induction false} TakeKeeps(c: Config, s: State, pages: nat)
    requires BlocksOk(c, s) && pages >= 1
    ensures var (t, ok) := Take(c, s, pages);
      && BlocksOk(c, t) && t == s.(cursor := t.cursor, blocks := t.blocks)
      && if ok then |t.blocks| == |s.blocks| + 1 && t.blocks[..|s.blocks|] == s.blocks
           && t.blocks[|s.blocks|].end == t.blocks[|s.blocks|].start + 4096 * pages
         else t.blocks == s.blocks && t.cursor.value > c.boundary
    ensures s.cursor.value <= Take(c, s, pages).0.cursor.value
  {
    NextAdvances(c.merged, s.cursor, 4096 * pages);
    NextIsClear(c.merged, s.cursor, 4096 * pages);
    hide Next, Clear, Passed, Separated;
  }

  lemma {:induction false} BspKeepsBlocks(c: Config, s: State)
    requires WellFormed(c) && Inv(c, s) && BspEnabled(c, s)
    ensures BlocksOk(c, BspStep(c, s)) && s.blocks <= BspStep(c, s).blocks
  {
    hide FillWord, Take, Separated, Passed, Clear, Filled, SentOk, MailboxOk, ApsOk, StartedOk, OrderOk, BlocksFit;
    if s.phase.Allocate? {
      TakeKeeps(c, s, STACK_PAGES);
    } else {
      SensibleOf(c, s);
      OthersTakeNothing(c, s);
      hide BspStep;
    }
  }

  lemma {:induction false} OthersTakeNothing(c: Config, s: State)
    requires WellFormed(c) && Sensible(c, s) && BspEnabled(c, s) && !s.phase.Allocate?
    ensures BspStep(c, s).blocks == s.blocks && BspStep(c, s).cursor == s.cursor
  {
    hide FillWord, Next, WellFormed;
  }

  /** What the boot processor's steps do to the history. */
  lemma {:induction false} BspHistory(c: Config, s: State)
    requires WellFormed(c) && Sensible(c, s) && BspEnabled(c, s)
    ensures var t := BspStep(c, s);
      && t.started == s.started
      && (s.phase.SendStart? ==> s.next < |c.lapics| && t.sent == s.sent + [Letter(c.lapics[s.next], s.stack)])
      && (!s.phase.SendStart? ==> t.sent == s.sent)
      && (!s.phase.Allocate? ==>
        t.blocks == s.blocks && t.stack == s.stack && (Preparing(t.phase) ==> Preparing(s.phase)))
      && (Waiting(t.phase) <==> s.phase.SendStart? || s.phase.AwaitTrampoline?)
      && (s.phase.AwaitTrampoline? ==> t.apReady == s.apReady && t.next == s.next)
      && (s.phase.SendStart? ==> t.apReady == s.apReady && t.next == s.next)
  {
    hide FillWord, Next, WellFormed;
  }

  lemma {:induction false} AllocateHistory(c: Config, s: State)
    requires WellFormed(c) && Inv(c, s) && s.phase.Allocate?
    ensures var t := BspStep(c, s);
      && |t.blocks| >= |s.blocks| && t.blocks[..|s.blocks|] == s.blocks
      && (Preparing(t.phase) ==>
          t.stack == |s.blocks| < |t.blocks| && t.blocks[t.stack].end == t.blocks[t.stack].start + STACK_SIZE)
  {
    TakeKeeps(c, s, STACK_PAGES);
    hide Take, BlocksOk, SentOk, ApsOk, StartedOk, OrderOk, BlocksFit;
  }

  lemma {:induction false} BspKeepsSent(c: Config, s: State)
    requires WellFormed(c) && Inv(c, s) && BspEnabled(c, s)
    ensures SentOk(c, BspStep(c, s))
  {
    SensibleOf(c, s);
    BspHistory(c, s);
    BspKeepsBlocks(c, s);
    if s.phase.Allocate? { AllocateHistory(c, s); }
    var t := BspStep(c, s);
    assert forall i :: 0 <= i < |s.sent| ==> s.sent[i].block < |s.blocks|;
    hide BspStep, BlocksOk, ApsOk, StartedOk, OrderOk, MailboxOk, LoopOk, SpentOk, BlocksFit, StacksOk;
    StacksGrow(s.blocks, s.sent, t.blocks);
    if s.phase.SendStart? { StacksAppend(s.blocks, s.sent, Letter(c.lapics[s.next], s.stack)); }
  }

  lemma {:induction false} BspKeepsMailbox(c: Config, s: State)
    requires WellFormed(c) && Inv(c, s) && BspEnabled(c, s)
    ensures MailboxOk(c, BspStep(c, s)) && LoopOk(c, BspStep(c, s))
  {
    hide Take, Separated, Passed, Clear, StartedOk, OrderOk, BlocksFit;
    if s.phase.Allocate? { TakeKeeps(c, s, STACK_PAGES); }
  }

  /** The two commands start at most the processor addressed. */
  lemma {:induction false} CommandsKeepAps(c: Config, s: State)
    requires WellFormed(c) && Inv(c, s) && BspEnabled(c, s) && (s.phase.SendInit? || s.phase.SendStart?)
    ensures ApsOk(c, BspStep(c, s))
  {
    assert s.cursor.index <= |c.merged|;
    hide Take, BlocksOk, SentOk, StartedOk, OrderOk, SpentOk, Filled, FillWord, BlocksFit;
  }

  lemma {:induction false} ApsFrame(c: Config, s: State, t: State)
    requires ApsOk(c, s) && t.aps == s.aps && !t.phase.SendStart?
    requires Waiting(t.phase) ==>
      Waiting(s.phase) && t.next == s.next && t.mailbox == s.mailbox && t.apReady == s.apReady
    requires !Waiting(t.phase) ==> !Waiting(s.phase) || s.apReady
    ensures ApsOk(c, t)
  {
    hide ReadSoFar;
  }

  /** No other step of the boot processor changes one. */
  lemma {:induction false} OthersLeaveAps(c: Config, s: State)
    requires WellFormed(c) && BspEnabled(c, s) && Sensible(c, s) && !s.phase.SendInit? && !s.phase.SendStart?
    ensures var t := BspStep(c, s);
      && t.aps == s.aps && !t.phase.SendStart?
      && (s.phase.AwaitTrampoline? ==> t == s.(phase := AwaitKernel))
      && (Waiting(t.phase) ==> s.phase.AwaitTrampoline?)
      && (!s.phase.Allocate? ==> t.cursor == s.cursor && (t.phase.Panicked? ==> s.phase.Panicked?))
  {
    hide FillWord, Next, WellFormed;
  }

  lemma {:induction false} OthersKeepAps(c: Config, s: State)
    requires WellFormed(c) && Inv(c, s) && BspEnabled(c, s) && !s.phase.SendInit? && !s.phase.SendStart?
    ensures ApsOk(c, BspStep(c, s))
  {
    OthersLeaveAps(c, s);
    hide BspStep, BlocksOk, SentOk, StartedOk, OrderOk, SpentOk, ApsOk, LoopOk, BlocksFit;
    ApsFrame(c, s, BspStep(c, s));
  }

  lemma {:induction false} BspKeepsStarted(c: Config, s: State)
    requires WellFormed(c) && Inv(c, s) && BspEnabled(c, s)
    ensures StartedOk(c, BspStep(c, s))
  {
    SensibleOf(c, s);
    BspHistory(c, s);
    BspKeepsBlocks(c, s);
    assert s.phase.SendStart? ==> !s.apReady;
    assert s.phase.AwaitKernel? ==> s.apReady;
    hide BspStep, BlocksOk, MailboxOk, ApsOk, OrderOk, LoopOk, SentOk, SpentOk, BlocksFit;
    hide ReadAsSent;
    var t := BspStep(c, s);
    ReadStaysAsSent(c, s.blocks, s.sent, s.started, t.blocks, t.sent);
  }

  lemma {:induction false} BspKeepsOrder(c: Config, s: State)
    requires WellFormed(c) && Inv(c, s) && BspEnabled(c, s)
    ensures OrderOk(c, BspStep(c, s))
  {
    hide FillWord, Take, Separated, Passed, Clear, Filled, ApsOk, StartedOk, SentOk, BlocksFit;
    if s.phase.Allocate? { TakeKeeps(c, s, STACK_PAGES); }
    if s.next < |c.lapics| {
      assert c.lapics[..s.next + 1][..s.next] == c.lapics[..s.next];
    }
  }

  lemma {:induction false} BspKeepsSpent(c: Config, s: State)
    requires WellFormed(c) && Inv(c, s) && BspEnabled(c, s)
    ensures SpentOk(c, BspStep(c, s))
  {
    hide BlocksOk, SentOk, MailboxOk, ApsOk, StartedOk, OrderOk, LoopOk, BlocksFit;
    if s.phase.Allocate? {
      TakeKeeps(c, s, STACK_PAGES);
      hide Take;
    } else if !s.phase.SendInit? && !s.phase.SendStart? {
      SensibleOf(c, s);
      OthersLeaveAps(c, s);
      hide BspStep;
    }
  }

  lemma {:induction false} SensibleOf(c: Config, s: State)
    requires Inv(c, s)
    ensures Sensible(c, s)
  {
  }

  lemma {:induction false} ApKeepsSpent(c: Config, s: State, id: nat)
    requires WellFormed(c) && Inv(c, s) && ApEnabled(c, s, id)
    ensures SpentOk(c, ApStep(c, s, id))
  {
    if s.aps[id].pc == 6 { TakeKeeps(c, s, c.pcrPages); }
    if s.aps[id].pc == 7 { TakeKeeps(c, s, IST_PAGES); }
    hide Take, BlocksOk, SentOk, MailboxOk, ApsOk, StartedOk, OrderOk, BlocksFit;
  }

  lemma {:induction false} FurnishedKeeps(c: Config, blocks: seq<Range>, more: seq<Range>, n: nat)
    requires Furnished(c, blocks, n) && blocks <= more
    ensures Furnished(c, more, n)
  {
  }

  lemma {:induction false} BspKeepsFit(c: Config, s: State)
    requires WellFormed(c) && Inv(c, s) && BspEnabled(c, s)
    ensures BlocksFit(c, BspStep(c, s))
  {
    SensibleOf(c, s);
    BspHistory(c, s);
    BspKeepsBlocks(c, s);
    BspPhases(c, s);
    if s.phase.Allocate? { AllocateHistory(c, s); AllocateCounts(c, s); }
    var t := BspStep(c, s);
    assert s.phase.AwaitKernel? ==> s.apReady;
    hide BspStep, BlocksOk, SentOk, OrderOk, LoopOk, SpentOk, Furnished, Filled;
    forall i | 0 <= i < |s.started| ensures Furnished(c, t.blocks, i) {
      FurnishedKeeps(c, s.blocks, t.blocks, i);
    }
  }

  lemma {:induction false} AllocateCounts(c: Config, s: State)
    requires WellFormed(c) && Inv(c, s) && s.phase.Allocate?
    ensures var t := BspStep(c, s);
      |t.blocks| == (if Preparing(t.phase) then |s.blocks| + 1 else |s.blocks|) && !Waiting(t.phase)
  {
    TakeKeeps(c, s, STACK_PAGES);
    hide Take, BlocksOk, SentOk, ApsOk, StartedOk, OrderOk, BlocksFit;
  }

  /** Where the boot processor's steps lead, as far as blocks go. */
  lemma {:induction false} BspPhases(c: Config, s: State)
    requires WellFormed(c) && Sensible(c, s) && BspEnabled(c, s) && (s.phase.SendStart? ==> !s.apReady)
    requires s.phase.SendStart? && c.lapics[s.next] in s.aps ==> s.aps[c.lapics[s.next]].Reset?
    ensures var t := BspStep(c, s);
      && (Preparing(t.phase) <== Preparing(s.phase) && !s.phase.SendStart?)
      && (s.phase.SendStart? ==> !t.apReady && t.next == s.next < |c.lapics|)
      && (s.phase.SendStart? && c.lapics[s.next] in t.aps ==> t.aps[c.lapics[s.next]] == Booting(0, NO_REGISTERS))
      && (s.phase.AwaitTrampoline? ==> t == s.(phase := AwaitKernel))
      && (!s.phase.Allocate? && !Preparing(s.phase) ==> !Preparing(t.phase))
  {
    hide FillWord, Next, WellFormed;
  }

  lemma {:induction false} ApKeepsFit(c: Config, s: State, id: nat)
    requires WellFormed(c) && Inv(c, s) && ApEnabled(c, s, id)
    ensures BlocksFit(c, ApStep(c, s, id))
  {
    var t, n := ApStep(c, s, id), |s.started|;
    assert Waiting(s.phase) && !s.apReady && id == c.lapics[s.next] && s.sent[n].block == 3 * n;
    assert HasSize(s.blocks, 3 * n, 64 * 4096);
    ApKeepsBlocks(c, s, id);
    ApEffects(c, s, id);
    hide ApStep, BlocksOk, SentOk, MailboxOk, ApsOk, StartedOk, OrderOk, LoopOk, SpentOk;
    assert s.blocks <= t.blocks;
    forall i | 0 <= i < n ensures Furnished(c, t.blocks, i) { FurnishedKeeps(c, s.blocks, t.blocks, i); }
    OneFurnished(c, s, t, id);
  }

  /** What a starting processor's step does to it and to the blocks. */
  ghost predicate Proceeds(c: Config, s: State, t: State, id: nat)
    requires id in s.aps && s.aps[id].Booting?
  {
    var pc := s.aps[id].pc;
    && id in t.aps && s.blocks <= t.blocks && t.next == s.next
    && (pc <= 5 ==> t.blocks == s.blocks && (t.aps[id].Astray? || (t.aps[id].Booting? && t.aps[id].pc == pc + 1)))
    && (pc == 6 || pc == 7 ==>
          t.aps[id].Exhausted? || (t.aps[id].Booting? && t.aps[id].pc == pc + 1 && |t.blocks| == |s.blocks| + 1
            && HasSize(t.blocks, |s.blocks|, 4096 * (if pc == 6 then c.pcrPages else 16))))
    && (pc == 8 ==> t.blocks == s.blocks && t.apReady && t.started == s.started + [s.aps[id].regs])
    && (pc <= 7 ==> !t.apReady && t.started == s.started)
  }

  lemma {:induction false} ApEffects(c: Config, s: State, id: nat)
    requires WellFormed(c) && Inv(c, s) && ApEnabled(c, s, id)
    ensures Proceeds(c, s, ApStep(c, s, id), id)
  {
    if s.aps[id].pc == 6 { TakeKeeps(c, s, c.pcrPages); }
    if s.aps[id].pc == 7 { TakeKeeps(c, s, IST_PAGES); }
    hide Take, BlocksOk, SentOk, MailboxOk, StartedOk, OrderOk, LoopOk, SpentOk, BlocksFit, ReadSoFar;
  }

  lemma {:induction false} OneFurnished(c: Config, s: State, t: State, id: nat)
    requires s.next < |c.lapics| && id == c.lapics[s.next] && id in s.aps && s.aps[id].Booting? && s.aps[id].pc <= 8
    requires HalfFurnished(c, s, |s.started|) && HasSize(s.blocks, 3 * |s.started|, 64 * 4096) && Proceeds(c, s, t, id)
    ensures s.aps[id].pc <= 7 ==> HalfFurnished(c, t, |s.started|)
    ensures s.aps[id].pc == 8 ==> Furnished(c, t.blocks, |s.started|) && |t.blocks| == 3 * (|s.started| + 1)
  {
  }

  lemma {:induction false} ApFrame(c: Config, s: State, id: nat)
    requires WellFormed(c) && Sensible(c, s) && ApEnabled(c, s, id)
    ensures var t := ApStep(c, s, id);
      && t.sent == s.sent && t.phase == s.phase && t.next == s.next && t.stack == s.stack && t.cpuCount == s.cpuCount
      && (s.aps[id].pc == 6 ==> var u := Take(c, s, c.pcrPages).0; t.blocks == u.blocks && t.cursor == u.cursor)
      && (s.aps[id].pc == 7 ==> var u := Take(c, s, IST_PAGES).0; t.blocks == u.blocks && t.cursor == u.cursor)
      && (s.aps[id].pc != 6 && s.aps[id].pc != 7 ==> t.blocks == s.blocks && t.cursor == s.cursor)
  {
    hide Next;
  }

  lemma {:induction false} ApKeepsBlocks(c: Config, s: State, id: nat)
    requires WellFormed(c) && Inv(c, s) && ApEnabled(c, s, id)
    ensures BlocksOk(c, ApStep(c, s, id)) && s.blocks <= ApStep(c, s, id).blocks
    ensures ApStep(c, s, id).sent == s.sent && ApStep(c, s, id).phase == s.phase && ApStep(c, s, id).next == s.next
      && ApStep(c, s, id).stack == s.stack && ApStep(c, s, id).cpuCount == s.cpuCount
  {
    SensibleOf(c, s);
    ApFrame(c, s, id);
    if s.aps[id].pc == 6 { TakeKeeps(c, s, c.pcrPages); }
    if s.aps[id].pc == 7 { TakeKeeps(c, s, IST_PAGES); }
    hide ApStep, Take, Separated, Passed, Clear, SentOk, MailboxOk, ApsOk, StartedOk, OrderOk, SpentOk, BlocksFit;
  }

  lemma {:induction false} ApKeepsRest(c: Config, s: State, id: nat)
    requires WellFormed(c) && Inv(c, s) && ApEnabled(c, s, id)
    ensures var t := ApStep(c, s, id); SentOk(c, t) && LoopOk(c, t) && OrderOk(c, t)
  {
    ApKeepsBlocks(c, s, id);
    hide ApStep, BlocksOk, MailboxOk, ApsOk, StartedOk, BlocksFit;
  }

  lemma {:induction false} ApKeepsMailbox(c: Config, s: State, id: nat)
    requires WellFormed(c) && Inv(c, s) && ApEnabled(c, s, id)
    ensures MailboxOk(c, ApStep(c, s, id))
  {
    ApKeepsBlocks(c, s, id);
    hide Take, BlocksOk, OrderOk, StartedOk, SentOk, BlocksFit;
  }

  /** What must be so of the processor being started and the mailbox. */
  predicate Sound(c: Config, ap: Ap, m: Mailbox, apReady: bool) {
    match ap
    case Booting(pc, regs) =>
      && !apReady && pc <= 8 && ReadSoFar(regs, m, pc) && (pc >= 2 ==> c.pageTable < FOUR_GIGABYTES)
      && m.ready == (if pc >= 4 then 1 else 0)
    case Running => apReady && m.ready == 1
    case Astray => c.pageTable >= FOUR_GIGABYTES
    case Exhausted => true
    case Reset => false
  }

  lemma {:induction false} ApsAfter(c: Config, s: State, t: State, id: nat)
    requires ApsOk(c, s) && id in s.aps && s.aps[id].Booting?
    requires id in t.aps && t.aps == s.aps[id := t.aps[id]] && t.phase == s.phase && t.next == s.next
    requires Sound(c, t.aps[id], t.mailbox, t.apReady)
    ensures ApsOk(c, t)
  {
    hide ReadSoFar;
  }

  lemma {:induction false} ApIsSound(c: Config, s: State, id: nat)
    requires ApsOk(c, s) && id in s.aps && s.aps[id].Booting?
    ensures Sound(c, s.aps[id], s.mailbox, s.apReady)
  {
    hide ReadSoFar;
  }

  lemma {:induction false} ApStaysSound(c: Config, s: State, id: nat)
    requires WellFormed(c) && Inv(c, s) && ApEnabled(c, s, id)
    ensures var t := ApStep(c, s, id);
      && id in t.aps && t.aps == s.aps[id := t.aps[id]] && Sound(c, t.aps[id], t.mailbox, t.apReady)
  {
    ApIsSound(c, s, id);
    assert s.mailbox.pageTable == c.pageTable && s.cursor.index <= |c.merged|;
    hide BlocksOk, OrderOk, StartedOk, SentOk, MailboxOk, LoopOk, SpentOk, ApsOk, BlocksFit, Next;
  }

  lemma {:induction false} ApKeepsAps(c: Config, s: State, id: nat)
    requires WellFormed(c) && Inv(c, s) && ApEnabled(c, s, id)
    ensures ApsOk(c, ApStep(c, s, id))
  {
    ApStaysSound(c, s, id);
    ApKeepsBlocks(c, s, id);
    hide ApStep, BlocksOk, OrderOk, StartedOk, SentOk, MailboxOk, LoopOk, SpentOk, ApsOk, BlocksFit, Sound;
    ApsAfter(c, s, ApStep(c, s, id), id);
  }

  lemma {:induction false} ApKeepsStarted(c: Config, s: State, id: nat)
    requires WellFormed(c) && Inv(c, s) && ApEnabled(c, s, id)
    ensures StartedOk(c, ApStep(c, s, id))
  {
    ApKeepsBlocks(c, s, id);
    ApEffects(c, s, id);
    if s.aps[id].pc == 8 { LastRead(c, s, id); }
    hide ApStep, BlocksOk, OrderOk, SentOk, MailboxOk, ApsOk, LoopOk, SpentOk, BlocksFit;
    var t := ApStep(c, s, id);
    ReadStaysAsSent(c, s.blocks, s.sent, s.started, t.blocks, t.sent);
  }

  lemma {:induction false} LastRead(c: Config, s: State, id: nat)
    requires WellFormed(c) && Inv(c, s) && ApEnabled(c, s, id) && s.aps[id].pc == 8
    ensures var n := |s.started|;
      && n == |s.sent| - 1 && s.sent[n].block < |s.blocks| && c.pageTable < FOUR_GIGABYTES
      && s.aps[id].regs == Expected(c, s.blocks, s.sent[n])
  {
    hide BlocksOk, OrderOk, SpentOk, BlocksFit;
  }

  function Apply(c: Config, s: State, step: Step): State
    requires WellFormed(c) && Enabled(c, s, step)
  {
    match step case Bsp => BspStep(c, s) case Processor(id) => ApStep(c, s, id)
  }

  lemma {:induction false} StepKeepsInv(c: Config, s: State, step: Step)
    requires WellFormed(c) && Inv(c, s) && Enabled(c, s, step)
    ensures Inv(c, Apply(c, s, step))
  {
    hide BspStep, ApStep, BspEnabled, ApEnabled, WellFormed;
    hide BlocksOk, SentOk, MailboxOk, LoopOk, ApsOk, StartedOk, OrderOk, SpentOk, BlocksFit;
    match step
    case Bsp =>
      BspKeepsBlocks(c, s);
      BspKeepsSent(c, s);
      BspKeepsMailbox(c, s);
      if s.phase.SendInit? || s.phase.SendStart? { CommandsKeepAps(c, s); } else { OthersKeepAps(c, s); }
      BspKeepsStarted(c, s);
      BspKeepsOrder(c, s);
      BspKeepsSpent(c, s);
      BspKeepsFit(c, s);
    case Processor(id) =>
      ApKeepsBlocks(c, s, id);
      ApKeepsRest(c, s, id);
      ApKeepsMailbox(c, s, id);
      ApKeepsAps(c, s, id);
      ApKeepsStarted(c, s, id);
      ApKeepsSpent(c, s, id);
      ApKeepsFit(c, s, id);
  }

  // --------------------------------------------------------------------- runs

  /** States and the steps between them. */
  ghost predicate IsRun(c: Config, states: seq<State>, steps: seq<Step>) {
    && WellFormed(c) && |states| == |steps| + 1 && Boot(c, states[0])
    && forall k :: 0 <= k < |steps| ==>
      Enabled(c, states[k], steps[k]) && states[k + 1] == Apply(c, states[k], steps[k])
  }

  lemma {:induction false} InvHoldsThroughout(c: Config, states: seq<State>, steps: seq<Step>, k: nat)
    requires IsRun(c, states, steps) && k < |states|
    ensures Inv(c, states[k])
    decreases k
  {
    hide Inv, Apply, Enabled, WellFormed, Boot;
    if k == 0 {
      BootSatisfiesInv(c, states[0]);
    } else {
      InvHoldsThroughout(c, states, steps, k - 1);
      assert states[k - 1 + 1] == Apply(c, states[k - 1], steps[k - 1]);
      StepKeepsInv(c, states[k - 1], steps[k - 1]);
    }
  }

  /** At most one processor is between its start command and the flag, and it is
      the one the boot processor waits for. */
  lemma {:induction false} OneProcessorStarts(c: Config, states: seq<State>, steps: seq<Step>, k: nat, a: nat, b: nat)
    requires IsRun(c, states, steps) && k < |states|
    requires a in states[k].aps && states[k].aps[a].Booting? && b in states[k].aps && states[k].aps[b].Booting?
    ensures a == b && Waiting(states[k].phase) && states[k].next < |c.lapics| && a == c.lapics[states[k].next]
  {
    InvHoldsThroughout(c, states, steps, k);
  }

  /** Every processor that got ready has read exactly what its own start command
      meant for it: its id, its stack, the entry point and the page table. */
  lemma {:induction false} EachReadsItsOwn(c: Config, states: seq<State>, steps: seq<Step>, k: nat, i: nat)
    requires IsRun(c, states, steps) && k < |states| && i < |states[k].started|
    ensures var s := states[k];
      && i < |s.sent| && s.sent[i].block < |s.blocks| && s.sent[i].processor < 256
      && var end := c.base + s.blocks[s.sent[i].block].end;
        s.started[i] == Registers(c.pageTable, end - 256, c.entry, s.sent[i].processor, end)
  {
    InvHoldsThroughout(c, states, steps, k);
    var s := states[k];
    hide BlocksOk, MailboxOk, ApsOk, LoopOk, Targets, IsRun;
    assert s.started[i] == Expected(c, s.blocks, s.sent[i]);
    SentIsSmall(c, s, i);
  }

  lemma {:induction false} SentIsSmall(c: Config, s: State, i: nat)
    requires WellFormed(c) && OrderOk(c, s) && i < |s.sent|
    ensures s.sent[i].processor < 256
  {
    var ids := c.lapics[..if Sent(s.phase) then s.next + 1 else s.next];
    assert Processors(s.sent)[i] == s.sent[i].processor;
    TargetsInTable(ids, c.bsp, i);
  }

  lemma {:induction false} TargetsInTable(ids: seq<nat>, bsp: nat, i: nat)
    requires i < |Targets(ids, bsp)|
    ensures Targets(ids, bsp)[i] in ids && Targets(ids, bsp)[i] != bsp
    decreases |ids|
  {
    var front := ids[..|ids| - 1];
    if i < |Targets(front, bsp)| { TargetsInTable(front, bsp, i); }
  }

  /** Stacks of different start commands never overlap, nor does a stack overlap
      any other block a processor took on the way. */
  lemma {:induction false} StacksAreDisjoint(c: Config, states: seq<State>, steps: seq<Step>, k: nat, i: nat, b: nat)
    requires IsRun(c, states, steps) && k < |states| && i < |states[k].sent| && b < |states[k].blocks|
    ensures var s := states[k];
      && s.sent[i].block < |s.blocks|
      && var stack := s.blocks[s.sent[i].block];
      && stack.end == stack.start + STACK_SIZE && Clear(c.merged, stack.start, stack.end)
      && (b != s.sent[i].block ==> stack.end <= s.blocks[b].start || s.blocks[b].end <= stack.start)
      && (forall j :: 0 <= j < |s.sent| && j != i ==> s.sent[j].block != s.sent[i].block)
  {
    InvHoldsThroughout(c, states, steps, k);
    hide MailboxOk, ApsOk, LoopOk, OrderOk, StartedOk, IsRun, Clear, BlocksFit;
  }

  /** Every processor that got ready has its own three blocks, and in this order: the
      stack its start command named, a control region and an interrupt stack; when
      all are started there are no others. */
  lemma {:induction false} EachHasItsOwnMemory(c: Config, states: seq<State>, steps: seq<Step>, k: nat, i: nat)
    requires IsRun(c, states, steps) && k < |states| && i < |states[k].started|
    ensures var s := states[k];
      && i < |s.sent| && s.sent[i].block == 3 * i && 3 * i + 2 < |s.blocks|
      && s.blocks[3 * i].end == s.blocks[3 * i].start + 64 * 4096
      && s.blocks[3 * i + 1].end == s.blocks[3 * i + 1].start + c.pcrPages * 4096
      && s.blocks[3 * i + 2].end == s.blocks[3 * i + 2].start + 16 * 4096
      && (s.phase.Finished? ==> |s.blocks| == 3 * |s.started|)
  {
    InvHoldsThroughout(c, states, steps, k);
    hide IsRun, BlocksOk, SentOk, MailboxOk, LoopOk, ApsOk, StartedOk, OrderOk, SpentOk;
    assert Furnished(c, states[k].blocks, i);
  }

  /** When the boot processor is done every other processor of the table has been
      started, once for each entry and in order, has got ready, and is counted. */
  lemma {:induction false} FinishedMeansAllStarted(c: Config, states: seq<State>, steps: seq<Step>, k: nat)
    requires IsRun(c, states, steps) && k < |states| && states[k].phase.Finished?
    ensures var s := states[k];
      && Processors(s.sent) == Targets(c.lapics, c.bsp) && |s.started| == |s.sent| && s.cpuCount == 1 + |s.started|
  {
    InvHoldsThroughout(c, states, steps, k);
    assert c.lapics[..|c.lapics|] == c.lapics;
  }

  /** A processor turns paging on with the kernel's page table exactly if that lies
      below four gigabytes. Otherwise it goes astray, and none ever gets ready. */
  lemma {:induction false} PageTableMustBeLow(c: Config, states: seq<State>, steps: seq<Step>, k: nat, id: nat)
    requires IsRun(c, states, steps) && k < |states|
    ensures ApEnabled(c, states[k], id) && states[k].aps[id].pc == 1 ==>
      states[k].cursor.index <= |c.merged| &&
      var next := ApStep(c, states[k], id).aps[id];
      if c.pageTable < FOUR_GIGABYTES then next.Booting? && next.pc == 2 && next.regs.cr3 == c.pageTable
      else next.Astray?
    ensures id in states[k].aps && states[k].aps[id].Astray? ==> c.pageTable >= FOUR_GIGABYTES
    ensures states[k].started != [] ==> c.pageTable < FOUR_GIGABYTES
  {
    InvHoldsThroughout(c, states, steps, k);
    hide IsRun, OrderOk, SentOk, Take, BlocksFit;
  }

  /** A run of `n` steps leads to `s`. */
  ghost predicate Reaches(c: Config, s: State, n: nat) {
    exists states: seq<State>, steps: seq<Step> :: IsRun(c, states, steps) && |steps| == n && states[n] == s
  }

  lemma {:induction false} ReachesMore(c: Config, s: State, n: nat, step: Step)
    requires Reaches(c, s, n) && WellFormed(c) && Enabled(c, s, step)
    ensures Reaches(c, Apply(c, s, step), n + 1)
  {
    var states: seq<State>, steps: seq<Step> :| IsRun(c, states, steps) && |steps| == n && states[n] == s;
    hide WellFormed, Enabled, Apply, Boot;
    assert IsRun(c, states + [Apply(c, s, step)], steps + [step]);
  }

  function HighTable(): Config { Config([0, 1], 0, FOUR_GIGABYTES, 0x1000, [], 0, 0x2_0000_0000, 1) }

  function Cleared(): State {
    State(0, Choose, 0, Mailbox(0, 0, 0, 0, 0, 0), false, 1, Cursor(0, 0x100000), [], map[1 := Reset], [], [])
  }

  /** With the table at four gigabytes and one processor to start, fourteen steps
      lead to where it has gone astray and the boot processor waits forever. */
  lemma {:induction false} HighTableStrands()
    ensures exists s: State :: Reaches(HighTable(), s, 14) && Stranded(HighTable(), s) && s.aps == map[1 := Astray]
  {
    var c, t := HighTable(), Awaiting(map[1 := Booting(0, NO_REGISTERS)]);
    StartIsSent();
    hide Reaches, IsRun;
    ReachesMore(c, t, 12, Processor(1));
    var u := Awaiting(map[1 := Booting(1, NO_REGISTERS)]);
    assert t.aps[1 := Booting(1, NO_REGISTERS)] == u.aps;
    ReachesMore(c, u, 13, Processor(1));
    assert u.aps[1 := Astray] == Awaiting(map[1 := Astray]).aps;
    assert Stranded(c, Awaiting(map[1 := Astray]));
  }

  /** The boot processor waits and nothing can happen any more. */
  ghost predicate Stranded(c: Config, s: State) {
    s.phase.AwaitTrampoline? && forall step: Step :: !Enabled(c, s, step)
  }

  function Filling(phase: Phase): State {
    State(1, phase, 0, Mailbox(0, 1, FOUR_GIGABYTES, 0x100000, 0x140000, 0x1000), false, 2, Cursor(0, 0x140000),
          [Range(0x100000, 0x140000)], map[1 := Reset], [], [])
  }

  function Awaiting(aps: map<nat, Ap>): State { Filling(AwaitTrampoline).(sent := [Letter(1, 0)], aps := aps) }

  lemma {:induction false} StartIsSent()
    ensures Reaches(HighTable(), Awaiting(map[1 := Booting(0, NO_REGISTERS)]), 12)
  {
    var c, s := HighTable(), Filling(SendStart);
    MailboxIsFilled();
    hide Reaches, IsRun;
    ReachesMore(c, Filling(ClearFlag), 9, Bsp);
    ReachesMore(c, Filling(SendInit), 10, Bsp);
    assert s.aps[1 := Reset] == s.aps;
    ReachesMore(c, s, 11, Bsp);
    var t := Awaiting(map[1 := Booting(0, NO_REGISTERS)]);
    assert s.aps[1 := Booting(0, NO_REGISTERS)] == t.aps && s.sent + [Letter(1, 0)] == t.sent;
  }

  /** The first nine of them: the boot processor's own entry, the stack and the six
      words of the mailbox. */
  lemma {:induction false} MailboxIsFilled()
    ensures Reaches(HighTable(), Filling(ClearFlag), 9)
  {
    StackIsTaken();
    hide Reaches;
    FillOne(0, Mailbox(0, 0, 0, 0, 0, 0), Mailbox(0, 0, 0, 0, 0, 0));
    FillOne(1, Mailbox(0, 0, 0, 0, 0, 0), Mailbox(0, 1, 0, 0, 0, 0));
    FillOne(2, Mailbox(0, 1, 0, 0, 0, 0), Mailbox(0, 1, FOUR_GIGABYTES, 0, 0, 0));
    FillOne(3, Mailbox(0, 1, FOUR_GIGABYTES, 0, 0, 0), Mailbox(0, 1, FOUR_GIGABYTES, 0x100000, 0, 0));
    FillOne(4, Mailbox(0, 1, FOUR_GIGABYTES, 0x100000, 0, 0), Mailbox(0, 1, FOUR_GIGABYTES, 0x100000, 0x140000, 0));
    FillOne(5, Mailbox(0, 1, FOUR_GIGABYTES, 0x100000, 0x140000, 0),
            Mailbox(0, 1, FOUR_GIGABYTES, 0x100000, 0x140000, 0x1000));
  }

  lemma {:induction false} FillOne(k: nat, m: Mailbox, next: Mailbox)
    requires k <= 5 && FillWord(HighTable(), Filling(Fill(k)).(mailbox := m), k) == next
    requires Reaches(HighTable(), Filling(Fill(k)).(mailbox := m), 3 + k)
    ensures Reaches(HighTable(), Filling(if k < 5 then Fill(k + 1) else ClearFlag).(mailbox := next), 4 + k)
  {
    hide Reaches, FillWord;
    ReachesMore(HighTable(), Filling(Fill(k)).(mailbox := m), 3 + k, Bsp);
  }

  lemma {:induction false} StackIsTaken()
    ensures Reaches(HighTable(), Filling(Fill(0)).(mailbox := Mailbox(0, 0, 0, 0, 0, 0)), 3)
  {
    var c, s := HighTable(), Cleared();
    assert IsRun(c, [s], []);
    hide IsRun;
    ReachesMore(c, s, 0, Bsp);
    ReachesMore(c, s.(next := 1), 1, Bsp);
    ReachesMore(c, s.(next := 1, phase := Allocate, cpuCount := 2), 2, Bsp);
  }

  // -------------------------------------------------------------- termination

  function PhaseRank(p: Phase): nat {
    match p
    case Choose => 30
    case Allocate => 29
    case Fill(k) => if k <= 5 then 28 - k else 22
    case ClearFlag => 21
    case SendInit => 20
    case SendStart => 19
    case AwaitTrampoline => 9
    case AwaitKernel => 8
    case Reload => 7
    case _ => 0
  }

  function ApRank(c: Config, s: State): nat {
    if s.next < |c.lapics| && c.lapics[s.next] in s.aps
      && s.aps[c.lapics[s.next]].Booting? && s.aps[c.lapics[s.next]].pc <= 8
    then 9 - s.aps[c.lapics[s.next]].pc else 0
  }

  function Rank(c: Config, s: State): nat {
    (if s.next <= |c.lapics| then 40 * (|c.lapics| - s.next) else 0) + PhaseRank(s.phase) + ApRank(c, s)
  }

  /** The boot processor goes down through its phases, or on to the next processor. */
  lemma {:induction false} BspMovesOn(c: Config, s: State)
    requires WellFormed(c) && Sensible(c, s) && BspEnabled(c, s) && s.next <= |c.lapics|
    requires s.phase.Fill? ==> s.phase.written <= 5
    ensures var t := BspStep(c, s);
      || (t.next == s.next && PhaseRank(t.phase) + (if s.phase.SendStart? then 10 else 1) <= PhaseRank(s.phase))
      || (t.next == s.next + 1 <= |c.lapics| && t.phase.Choose? && PhaseRank(s.phase) >= 7)
  {
    hide FillWord, Next, WellFormed;
  }

  lemma {:induction false} InitKeepsApRank(c: Config, s: State)
    requires WellFormed(c) && Sensible(c, s) && BspEnabled(c, s) && s.phase.SendInit?
    ensures ApRank(c, BspStep(c, s)) <= ApRank(c, s)
  {
    hide FillWord, Next, WellFormed;
  }

  lemma {:induction false} BspRankFalls(c: Config, s: State)
    requires WellFormed(c) && Inv(c, s) && BspEnabled(c, s)
    ensures Rank(c, BspStep(c, s)) < Rank(c, s)
  {
    SensibleOf(c, s);
    BspMovesOn(c, s);
    if s.phase.SendInit? { InitKeepsApRank(c, s); }
    if !s.phase.SendInit? && !s.phase.SendStart? { OthersLeaveAps(c, s); }
    hide BspStep, BlocksOk, SentOk, MailboxOk, ApsOk, StartedOk, OrderOk, SpentOk, BlocksFit, PhaseRank, WellFormed;
    assert PhaseRank(Choose) <= 30 by { ChooseRank(); }
  }

  lemma {:induction false} ChooseRank()
    ensures PhaseRank(Choose) == 30
  {
  }

  lemma {:induction false} ApRankFalls(c: Config, s: State, id: nat)
    requires WellFormed(c) && Inv(c, s) && ApEnabled(c, s, id)
    ensures Rank(c, ApStep(c, s, id)) < Rank(c, s)
  {
    assert Passed(c.merged, s.cursor);
    hide Next, Filled, BlocksOk, StartedOk, OrderOk, SentOk, Passed, ReadSoFar, BlocksFit;
  }

  /** Every step of a run brings the end nearer, whoever takes it. */
  lemma {:induction false} RunsAreBounded(c: Config, states: seq<State>, steps: seq<Step>, k: nat)
    requires IsRun(c, states, steps) && k < |states|
    ensures k + Rank(c, states[k]) <= Rank(c, states[0])
    decreases k
  {
    hide Inv, Enabled, WellFormed, Boot, Rank, BspStep, ApStep;
    if k > 0 {
      RunsAreBounded(c, states, steps, k - 1);
      InvHoldsThroughout(c, states, steps, k - 1);
      assert states[k - 1 + 1] == Apply(c, states[k - 1], steps[k - 1]);
      StepRankFalls(c, states[k - 1], steps[k - 1]);
    }
  }

  lemma {:induction false} StepRankFalls(c: Config, s: State, step: Step)
    requires WellFormed(c) && Inv(c, s) && Enabled(c, s, step)
    ensures Inv(c, s) && Rank(c, Apply(c, s, step)) < Rank(c, s)
  {
    hide Inv, BspEnabled, ApEnabled, WellFormed, Rank, BspStep, ApStep;
    match step
    case Bsp => BspRankFalls(c, s);
    case Processor(id) => ApRankFalls(c, s, id);
  }

  /** A run that cannot go on has finished, or has passed the end of memory, or
      waits for a processor that does not exist, or for one that has gone astray
      because the page table is too high. */
  lemma {:induction false} StuckMeansOver(c: Config, states: seq<State>, steps: seq<Step>, k: nat)
    requires IsRun(c, states, steps) && k < |states|
    requires forall step: Step :: !Enabled(c, states[k], step)
    ensures var s := states[k];
      || s.phase.Finished?
      || (s.phase.Panicked? && s.cursor.value > c.boundary)
      || (Waiting(s.phase) && s.next < |c.lapics| && var id := c.lapics[s.next];
          || id !in s.aps
          || (s.aps[id].Exhausted? && s.cursor.value > c.boundary)
          || (s.aps[id].Astray? && c.pageTable >= FOUR_GIGABYTES))
  {
    InvHoldsThroughout(c, states, steps, k);
    var s := states[k];
    assert !Enabled(c, s, Bsp) && Sensible(c, s);
    hide IsRun, BlocksOk, SentOk, OrderOk, BlocksFit;
    if Waiting(s.phase) && c.lapics[s.next] in s.aps {
      var id := c.lapics[s.next];
      assert !Enabled(c, s, Processor(id));
    }
  }
}
