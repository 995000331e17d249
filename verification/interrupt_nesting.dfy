/** Interrupts nested to any depth, landing between any two instructions. */
module InterruptNesting {
  import opened InterruptMachine
  import opened Interrupts

  // ------------------------------------------------------------ same machine

  /** Below these addresses stack memory is dead. */
  function KernelFloor(s: Machine): int { if s.sp.Kernel? then s.sp.addr else s.stackTop }

  function UserFloor(s: Machine): int { if s.sp.User? then s.sp.addr else s.userTop }

  /** The cells that still matter. Those of user addresses that lead to the kernel
      stack do so only for what the kernel itself has pushed there. */
  predicate Live(s: Machine, c: Pointer) {
    if c.User? then c.addr >= UserFloor(s) && !Mapped(s, c.addr)
    else
      || c.addr >= KernelFloor(s)
      || (s.sp.User? && !InUserMode(s) && Mapped(s, Shadow(s, c.addr)) && s.sp.addr <= Shadow(s, c.addr) < s.userTop)
  }

  /** Two machines no program can tell apart: all registers and live memory agree. */
  ghost predicate Agree(s: Machine, t: Machine) {
    && SameRegs(s.regs, t.regs) && t.sp == s.sp
    && t.rip == s.rip && t.cs == s.cs && t.rflags == s.rflags && t.ss == s.ss
    && t.gs == s.gs && t.kernelGs == s.kernelGs
    && t.tmp == s.tmp && t.pcr == s.pcr && t.stackTop == s.stackTop
    && (t.userTop == s.userTop || (InUserMode(s) && s.sp.User?))
    && t.window == s.window && (forall c :: Live(s, c) ==> Read(t.mem, c) == Read(s.mem, c))
  }

  lemma {:induction false} AgreeSymm(s: Machine, t: Machine)
    requires Agree(s, t)
    ensures Agree(t, s)
  {
  }

  lemma {:induction false} AgreeTrans(s: Machine, t: Machine, u: Machine)
    requires Agree(s, t) && Agree(t, u)
    ensures Agree(s, u)
  {
  }

  lemma {:induction false} RestoredAgrees(s: Machine, t: Machine)
    requires Restored(s, t) && (InUserMode(s) ==> s.sp.User?)
    ensures Agree(s, t)
  {
  }

  // ------------------------------------------------------- what programs need

  /** Moving the stack pointer to `p` brings no dead memory back to life. */
  predicate Lands(s: Machine, p: Pointer) {
    KernelFloor(s.(sp := p)) >= KernelFloor(s) && UserFloor(s.(sp := p)) >= UserFloor(s)
  }

  /** Instructions that only the kernel executes. */
  predicate Privileged(op: Op) { !op.UserWork? && !op.SysCall? && !op.Trap? }

  /** One of the two GS bases is the control region; in user mode it is the hidden
      one, and the stack is a user stack. The kernel only goes down on it. */
  predicate Sound(s: Machine) {
    && (s.gs == s.pcr || s.kernelGs == s.pcr) && (InUserMode(s) ==> s.sp.User? && s.kernelGs == s.pcr)
    && (!InUserMode(s) ==> Owns(s, 0))
  }

  /** On a user stack, the next `n` words are the kernel's own. */
  predicate Owns(s: Machine, n: nat) { s.sp.User? ==> s.sp.addr + n <= s.userTop }

  /** How many words from the stack pointer up an instruction looks at. */
  function Span(op: Op): nat {
    match op
    case Pop(_) => 1
    case DropWord => 1
    case SwapGsIfUser(offset) => offset + 1
    case ExchangeErrorCode => RAX_OFFSET + 1
    case Iret => 5
    case PopStackPointer => 1
    case ReturnBranch(_, _) => 3
    case _ => 0
  }

  /** Every body starts with the control region as GS base, every return goes to a
      live stack and to user mode only with the bases as they should be there, and
      kernel code runs in kernel mode. */
  ghost predicate Good(ops: seq<Op>, s: Machine)
    decreases ops, 0
  {
    ops == [] || (GoodOp(ops[0], s) && Good(ops[1..], ExecOp(ops[0], s)))
  }

  ghost predicate GoodOp(op: Op, s: Machine)
    decreases op, 1
  {
    (Privileged(op) ==> !InUserMode(s)) && (Span(op) > 0 ==> Owns(s, Span(op))) &&
    match op
    case Call(body) => s.gs == s.pcr && Good(body, s)
    case ReturnBranch(slow, fast) => if TrapFlagSet(Word(s, Above(s.sp, 2))) then Good(slow, s) else Good(fast, s)
    case Trap(kind, code) => Good(code, Enter(s, kind))
    case SysCall(code) => s.sp.User? && Good(code, EnterSysCall(s))
    case Iret => Lands(s, Decode(Word(s, Above(s.sp, 3)))) && Sound(DoIret(s))
    case PopStackPointer => Lands(s, Decode(Word(s, s.sp))) && Sound(s.(sp := Decode(Word(s, s.sp))))
    case LoadKernelStack => s.gs == s.pcr && Lands(s, Kernel(s.stackTop))
    case SysRet => s.sp.User? && s.kernelGs == s.pcr
    case UserWork(_, _, _) => InUserMode(s) && s.sp.User?
    case _ => true
  }

  /** The only assumption about arriving interrupts: while the kernel runs with the
      user's GS base, between entry and swap or between swap and return, only
      paranoid ones arrive. */
  ghost predicate Placed(ops: seq<Op>, s: Machine)
    decreases ops, 0
  {
    ops == [] || (PlacedOp(ops[0], s) && Placed(ops[1..], ExecOp(ops[0], s)))
  }

  ghost predicate PlacedOp(op: Op, s: Machine)
    decreases op, 1
  {
    match op
    case Trap(kind, code) => (kind.Paranoid? || InUserMode(s) || s.gs == s.pcr) && Placed(code, Enter(s, kind))
    case Call(body) => Placed(body, s)
    case ReturnBranch(slow, fast) => if TrapFlagSet(Word(s, Above(s.sp, 2))) then Placed(slow, s) else Placed(fast, s)
    case SysCall(code) => Placed(code, EnterSysCall(s))
    case _ => true
  }

  /** Interrupted programs: an arriving interrupt runs its entry code around a
      body, itself interrupted anywhere; bodies are kernel code at work. */
  ghost predicate Typed(ops: seq<Op>)
    decreases ops, 0
  {
    forall i :: 0 <= i < |ops| ==> TypedOp(ops[i])
  }

  ghost predicate TypedOp(op: Op)
    decreases op, 1
  {
    match op
    case Trap(kind, code) => Typed(code) && exists b :: WorkOnly(b) && Strip(code) == Code(kind, b)
    case Call(body) => Typed(body) && WorkOnly(Strip(body))
    case ReturnBranch(slow, fast) => Typed(slow) && Typed(fast)
    case SysCall(code) => Typed(code)
    case _ => true
  }

  // ------------------------------------------------------- the bases stay sound

  /** No operation loses the control region. */
  lemma {:induction false} SimpleKeepsSound(op: Op, s: Machine)
    requires IsSimple(op) && Sound(s) && GoodOp(op, s)
    ensures Sound(Simple(op, s))
  {
  }

  lemma {:induction false} CallKeepsSound(b: seq<Op>, s: Machine)
    requires WorkOnly(b) && Sound(s) && !InUserMode(s)
    ensures Sound(ExecOp(Call(b), s))
  {
    hide ExecOp, Words;
    assert Grew(s, s, s.sp);
    CallKeeps(b, s, 0, s.sp);
  }

  /** Neither does a good program of the kind that gets interrupted. */
  lemma {:induction false} OpKeepsSound(op: Op, t: Machine)
    requires !op.Trap? && TypedOp(op) && Sound(t) && GoodOp(StripOp(op), t)
    ensures Sound(ExecOp(StripOp(op), t))
    decreases op, 1
  {
    hide Exec, Good, Typed, Sound, Strip;
    if op.Call? {
      CallKeepsSound(Strip(op.body), t);
    } else if op.ReturnBranch? {
      ProgramKeepsSound(if TrapFlagSet(Word(t, Above(t.sp, 2))) then op.slow else op.fast, t);
    } else if op.SysCall? {
      EntryIsSound(t);
      ProgramKeepsSound(op.code, EnterSysCall(t));
    } else {
      SimpleKeepsSound(op, t);
    }
  }

  lemma {:induction false} ProgramKeepsSound(ops: seq<Op>, t: Machine)
    requires Typed(ops) && Sound(t) && Good(Strip(ops), t)
    ensures Sound(Exec(Strip(ops), t))
    decreases ops, 0
  {
    if ops != [] {
      hide ExecOp, GoodOp, TypedOp, StripOp, Sound;
      var op, rest := ops[0], ops[1..];
      if op.Trap? {
        ProgramKeepsSound(rest, t);
      } else {
        var stripped := [StripOp(op)] + Strip(rest);
        assert stripped[0] == StripOp(op) && stripped[1..] == Strip(rest);
        OpKeepsSound(op, t);
        ProgramKeepsSound(rest, ExecOp(StripOp(op), t));
      }
    }
  }

  lemma {:induction false} EntryIsSound(t: Machine)
    requires Sound(t)
    ensures Sound(EnterSysCall(t))
    ensures forall kind: Kind :: Sound(Enter(t, kind)) && !InUserMode(Enter(t, kind))
  {
  }

  // --------------------------------------------- ops do the same on both machines

  predicate IsSimple(op: Op) { !op.Call? && !op.ReturnBranch? && !op.Trap? && !op.SysCall? }

  /** Stack operations. */
  predicate IsStackOp(op: Op) {
    op.Push? || op.Pop? || op.PushConstant? || op.PushSavedUserStack?
      || op.ExchangeErrorCode? || op.StoreReturn? || op.DropWord?
  }

  /** A word at or above the stack pointer is kept in a live cell. */
  lemma {:induction false} WordIsLive(s: Machine, n: nat)
    requires !InUserMode(s) && Owns(s, n + 1)
    ensures Live(s, Cell(s, Above(s.sp, n)))
  {
  }

  lemma {:induction false} WordAgrees(s: Machine, t: Machine, n: nat)
    requires Agree(s, t) && !InUserMode(s) && Owns(s, n + 1)
    ensures Word(t, Above(t.sp, n)) == Word(s, Above(s.sp, n))
  {
    WordIsLive(s, n);
  }

  lemma {:induction false} PushAgrees(s: Machine, t: Machine, v: int)
    requires Agree(s, t) && !InUserMode(s)
    ensures Agree(PushWord(s, v), PushWord(t, v))
  {
    var u, w, x := PushWord(s, v), PushWord(t, v), Cell(s, Above(s.sp, -1));
    assert Cell(t, Above(t.sp, -1)) == x;
    forall c | Live(u, c) ensures Read(w.mem, c) == Read(u.mem, c) {
      if c != x { PushLives(s, v, c); }
    }
  }

  lemma {:induction false} PushLives(s: Machine, v: int, c: Pointer)
    requires !InUserMode(s) && Live(PushWord(s, v), c) && c != Cell(s, Above(s.sp, -1))
    ensures Live(s, c)
  {
  }

  lemma {:induction false} SetAgrees(s: Machine, t: Machine, r: Reg, v: int)
    requires Agree(s, t)
    ensures Agree(SetReg(s, r, v), SetReg(t, r, v))
  {
    var u, w := SetReg(s, r, v), SetReg(t, r, v);
    forall q: Reg ensures Get(u.regs, q) == Get(w.regs, q) {
      assert Get(s.regs, q) == Get(t.regs, q);
    }
  }

  lemma {:induction false} DropAgrees(s: Machine, t: Machine)
    requires Agree(s, t)
    ensures Agree(Drop(s, 1), Drop(t, 1))
  {
  }

  lemma {:induction false} StoreAgrees(s: Machine, t: Machine, n: nat, v: int)
    requires Agree(s, t)
    ensures Agree(Store(s, Above(s.sp, n), v), Store(t, Above(s.sp, n), v))
  {
    var u, w := Store(s, Above(s.sp, n), v), Store(t, Above(s.sp, n), v);
    forall c | Live(u, c) ensures Read(w.mem, c) == Read(u.mem, c) {
      assert Live(s, c);
    }
  }

  lemma {:induction false} ExchangeAgrees(s: Machine, t: Machine, code: int, rax: int)
    requires Agree(s, t)
    ensures Agree(Store(SetReg(s, Rsi, code), Above(s.sp, RAX_OFFSET), rax),
                  Store(SetReg(t, Rsi, code), Above(t.sp, RAX_OFFSET), rax))
  {
    OwnsAgrees(s, t);
    hide Agree, Store;
    SetAgrees(s, t, Rsi, code);
    StoreAgrees(SetReg(s, Rsi, code), SetReg(t, Rsi, code), RAX_OFFSET, rax);
  }

  lemma {:induction false} StackOpAgrees(op: Op, s: Machine, t: Machine)
    requires IsStackOp(op) && Agree(s, t) && GoodOp(op, t)
    ensures Agree(Simple(op, s), Simple(op, t)) && GoodOp(op, s)
  {
    OwnsAgrees(s, t);
    assert Above(s.sp, 0) == s.sp;
    hide Agree, Live, Cell, Word, Store;
    if op.Pop? || op.DropWord? { WordAgrees(s, t, 0); }
    if op.ExchangeErrorCode? { WordAgrees(s, t, RAX_OFFSET); }
    SetFacts(s, t);
    match op
    case Push(r) => PushAgrees(s, t, Get(s.regs, r));
    case PushConstant(v) => PushAgrees(s, t, v);
    case PushSavedUserStack => PushAgrees(s, t, if s.gs == s.pcr then s.tmp else 0);
    case Pop(r) =>
      SetAgrees(s, t, r, Word(s, s.sp));
      DropAgrees(SetReg(s, r, Word(s, s.sp)), SetReg(t, r, Word(s, s.sp)));
    case ExchangeErrorCode => ExchangeAgrees(s, t, Word(s, Above(s.sp, RAX_OFFSET)), Get(s.regs, Rax));
    case StoreReturn(v) => StoreAgrees(s, t, RAX_OFFSET, v);
    case DropWord => DropAgrees(s, t);
  }

  lemma {:induction false} OwnsAgrees(s: Machine, t: Machine)
    requires Agree(s, t)
    ensures t.cs == s.cs && t.sp == s.sp && t.gs == s.gs && t.kernelGs == s.kernelGs && t.pcr == s.pcr
    ensures t.tmp == s.tmp && t.stackTop == s.stackTop
    ensures !InUserMode(s) ==> t.userTop == s.userTop
  {
  }

  /** The stack pointer goes to a place where everything is live already. */
  lemma {:induction false} LandAgrees(s: Machine, t: Machine, p: Pointer)
    requires Agree(s, t) && Lands(t, p) && t.userTop == s.userTop && !InUserMode(s)
    ensures Lands(s, p)
    ensures forall c :: Live(s.(sp := p), c) ==> Read(t.mem, c) == Read(s.mem, c)
  {
    forall c | Live(s.(sp := p), c) ensures Read(t.mem, c) == Read(s.mem, c) {
      assert Live(s, c);
    }
  }

  lemma {:induction false} IretAgrees(s: Machine, t: Machine)
    requires Agree(s, t) && GoodOp(Iret, t) && !InUserMode(s)
    ensures Agree(Simple(Iret, s), Simple(Iret, t)) && GoodOp(Iret, s)
  {
    OwnsAgrees(s, t);
    FrameAgrees(s, t);
    LandAgrees(s, t, Decode(Word(s, Above(s.sp, 3))));
    hide Word, Decode;
    var u, w := Simple(Iret, s), Simple(Iret, t);
    forall c | Live(u, c) ensures Read(w.mem, c) == Read(u.mem, c) {
      assert Live(s.(sp := u.sp), c);
    }
  }

  lemma {:induction false} FrameAgrees(s: Machine, t: Machine)
    requires Agree(s, t) && !InUserMode(s) && Owns(s, 5)
    ensures t.sp == s.sp && Word(t, t.sp) == Word(s, s.sp)
    ensures Word(t, Above(s.sp, 1)) == Word(s, Above(s.sp, 1)) && Word(t, Above(s.sp, 2)) == Word(s, Above(s.sp, 2))
    ensures Word(t, Above(s.sp, 3)) == Word(s, Above(s.sp, 3)) && Word(t, Above(s.sp, 4)) == Word(s, Above(s.sp, 4))
  {
    OwnsAgrees(s, t);
    hide Agree, Word, Live, Cell;
    WordAgrees(s, t, 0);
    WordAgrees(s, t, 1);
    WordAgrees(s, t, 2);
    WordAgrees(s, t, 3);
    WordAgrees(s, t, 4);
    assert Above(s.sp, 0) == s.sp;
  }

  lemma {:induction false} PointerAgrees(op: Op, s: Machine, t: Machine)
    requires (op.PopStackPointer? || op.LoadKernelStack?) && Agree(s, t) && GoodOp(op, t) && !InUserMode(s)
    ensures Agree(Simple(op, s), Simple(op, t)) && GoodOp(op, s)
  {
    OwnsAgrees(s, t);
    assert Above(s.sp, 0) == s.sp;
    if op.PopStackPointer? {
      WordAgrees(s, t, 0);
      LandAgrees(s, t, Decode(Word(s, s.sp)));
    } else {
      LandAgrees(s, t, Kernel(s.stackTop));
    }
  }

  lemma {:induction false} WorkAgrees(op: Op, s: Machine, t: Machine)
    requires op.Work? && Agree(s, t) && GoodOp(op, t)
    ensures Agree(Simple(op, s), Simple(op, t)) && GoodOp(op, s)
  {
    OwnsAgrees(s, t);
    var u, w := Simple(op, s), Simple(op, t);
    forall c | Live(u, c) ensures Read(w.mem, c) == Read(u.mem, c) {
      if !Under(s, c, s.sp) { WorkLives(s, op, c); }
      hide Live;
      ReplacedReads(s, s.sp, op.below, c);
      ReplacedReads(t, t.sp, op.below, c);
    }
  }

  lemma {:induction false} ReplacedReads(s: Machine, top: Pointer, below: Memory, c: Pointer)
    ensures Read(Replaced(s, top, below), c) == if Under(s, c, top) then Read(below, c) else Read(s.mem, c)
  {
  }

  lemma {:induction false} UserWorkAgrees(op: Op, s: Machine, t: Machine)
    requires op.UserWork? && Agree(s, t) && GoodOp(op, t)
    ensures Agree(Simple(op, s), Simple(op, t)) && GoodOp(op, s)
  {
    var u, w := Simple(op, s), Simple(op, t);
    forall c | Live(u, c) ensures Read(w.mem, c) == Read(u.mem, c) {
      if !UserCell(s, c) { assert Live(s, c); }
      hide Live;
      RewrittenReads(s, op.memory, c);
      RewrittenReads(t, op.memory, c);
    }
  }

  lemma {:induction false} RewrittenReads(s: Machine, memory: Memory, c: Pointer)
    ensures Read(Rewritten(s, memory), c) == if UserCell(s, c) then Read(memory, c) else Read(s.mem, c)
  {
  }

  lemma {:induction false} WorkLives(s: Machine, op: Op, c: Pointer)
    requires op.Work? && Live(Simple(op, s), c) && !Under(s, c, s.sp)
    ensures Live(s, c)
  {
  }

  lemma {:induction false} CalcAgrees(op: Op, s: Machine, t: Machine)
    requires op.LoadGdtBase? || op.SubtractGdtOffset? || op.ReadGsBase?
      || op.CompareAndSetBl? || op.PassStack? || op.ClearRcxR11? || op.SignExtendRcx?
    requires Agree(s, t)
    ensures Agree(Simple(op, s), Simple(op, t))
  {
    hide Agree, KernelFloor, UserFloor, Read, SetReg;
    SetFacts(s, t);
    match op
    case LoadGdtBase => SetAgrees(s, t, Rdi, s.pcr + PCR_GDT_OFFSET);
    case SubtractGdtOffset => SetAgrees(s, t, Rdi, Get(s.regs, Rdi) - PCR_GDT_OFFSET);
    case CompareAndSetBl =>
      var b := Get(s.regs, Rbx);
      SetAgrees(s, t, Rbx, b - b % 256 + if Get(s.regs, Rdx) == Get(s.regs, Rdi) then 1 else 0);
    case PassStack => SetAgrees(s, t, Rdi, Encode(s.sp));
    case SignExtendRcx => SetAgrees(s, t, Rcx, SignExtend48(Get(s.regs, Rcx)));
    case ClearRcxR11 => SetTwice(s, t, Rcx, 0, R11, 0);
    case ReadGsBase =>
      SetTwice(s, t, Rcx, IA32_GS_BASE, Rax, s.gs % 0x1_0000_0000);
      SetAgrees(SetReg(SetReg(s, Rcx, IA32_GS_BASE), Rax, s.gs % 0x1_0000_0000),
                SetReg(SetReg(t, Rcx, IA32_GS_BASE), Rax, s.gs % 0x1_0000_0000), Rdx, s.gs);
  }

  lemma {:induction false} SetFacts(s: Machine, t: Machine)
    requires Agree(s, t)
    ensures forall r: Reg :: Get(s.regs, r) == Get(t.regs, r)
    ensures s.pcr == t.pcr && s.gs == t.gs && s.sp == t.sp
  {
  }

  lemma {:induction false} SetTwice(s: Machine, t: Machine, q: Reg, v: int, r: Reg, w: int)
    requires Agree(s, t)
    ensures Agree(SetReg(SetReg(s, q, v), r, w), SetReg(SetReg(t, q, v), r, w))
  {
    SetAgrees(s, t, q, v);
    SetAgrees(SetReg(s, q, v), SetReg(t, q, v), r, w);
  }

  lemma {:induction false} SwitchAgrees(op: Op, s: Machine, t: Machine)
    requires op.SwapGs? || op.SwapGsIfUser? || op.SwapGsUnlessEqual?
      || op.SwapGsUnlessBl? || op.SaveUserStack? || op.SysRet?
    requires Agree(s, t) && !InUserMode(s) && GoodOp(op, t)
    ensures Agree(Simple(op, s), Simple(op, t)) && GoodOp(op, s)
  {
    OwnsAgrees(s, t);
    if op.SwapGsIfUser? { WordAgrees(s, t, op.offset); }
    SetFacts(s, t);
  }

  /** Every simple operation does the same on machines that agree. */
  lemma {:induction false} SimpleAgrees(op: Op, s: Machine, t: Machine)
    requires IsSimple(op) && Agree(s, t) && GoodOp(op, t)
    ensures Agree(Simple(op, s), Simple(op, t)) && GoodOp(op, s)
  {
    assert t.cs == s.cs;
    hide Agree, Simple;
    if IsStackOp(op) {
      StackOpAgrees(op, s, t);
    } else if op.Work? {
      WorkAgrees(op, s, t);
    } else if op.UserWork? {
      UserWorkAgrees(op, s, t);
    } else if op.Iret? {
      IretAgrees(s, t);
    } else if op.PopStackPointer? || op.LoadKernelStack? {
      PointerAgrees(op, s, t);
    } else if op.SwapGs? || op.SwapGsIfUser? || op.SwapGsUnlessEqual?
      || op.SwapGsUnlessBl? || op.SaveUserStack? || op.SysRet? {
      SwitchAgrees(op, s, t);
    } else {
      CalcAgrees(op, s, t);
    }
  }

  // ------------------------------------------------------------- transparency

  lemma {:induction false} GoodAppend(a: seq<Op>, b: seq<Op>, s: Machine)
    requires Good(a, s) && Good(b, Exec(a, s))
    ensures Good(a + b, s)
    decreases |a|
  {
    hide GoodOp, ExecOp;
    if a == [] {
      assert a + b == b;
    } else {
      assert (a + b)[0] == a[0] && (a + b)[1..] == a[1..] + b;
      GoodAppend(a[1..], b, ExecOp(a[0], s));
    }
  }

  lemma {:induction false} GoodOne(op: Op, s: Machine)
    requires GoodOp(op, s)
    ensures Good([op], s)
  {
    assert [op][1..] == [];
  }

  /** Pushing and popping are always good in kernel mode. */
  lemma {:induction false} PushesAreGood(rs: seq<Reg>, s: Machine)
    requires !InUserMode(s)
    ensures Good(Pushes(rs), s)
    decreases |rs|
  {
    if rs == [] {
      assert Pushes(rs) == [];
    } else {
      assert Pushes(rs)[0] == Push(rs[0]) && Pushes(rs)[1..] == Pushes(rs[1..]);
      PushesAreGood(rs[1..], ExecOp(Push(rs[0]), s));
    }
  }

  lemma {:induction false} PopsAreGood(rs: seq<Reg>, s: Machine)
    requires !InUserMode(s) && Owns(s, |rs|)
    ensures Good(Pops(rs), s)
    decreases |rs|
  {
    if rs == [] {
      assert Pops(rs) == [];
    } else {
      assert Pops(rs)[0] == Pop(rs[0]) && Pops(rs)[1..] == Pops(rs[1..]);
      PopsAreGood(rs[1..], ExecOp(Pop(rs[0]), s));
    }
  }

  lemma {:induction false} WorkIsGood(b: seq<Op>, s: Machine)
    requires WorkOnly(b) && !InUserMode(s)
    ensures Good(b, s)
    decreases |b|
  {
    if b != [] {
      WorkIsGood(b[1..], ExecOp(b[0], s));
    }
  }

  lemma {:induction false} BeforeCallIsGood(kind: Kind, p: Machine)
    requires !InUserMode(p) && (kind.Error? ==> Owns(p, RAX_OFFSET + 1))
    ensures Good(BeforeCall(kind), p)
  {
    match kind
    case Plain =>
    case Stack => GoodOne(PassStack, p);
    case Error(_) =>
      GoodOne(PassStack, ExecOp(ExchangeErrorCode, p));
      assert [ExchangeErrorCode, PassStack][1..] == [PassStack];
    case Paranoid => ParanoidIsGood(p);
  }

  lemma {:induction false} ParanoidIsGood(p: Machine)
    requires !InUserMode(p)
    ensures Good(BeforeCall(Paranoid), p)
  {
    var ops := BeforeCall(Paranoid);
    QuietIsGood(ops, p);
  }

  predicate Quiet(op: Op) {
    op.LoadGdtBase? || op.SubtractGdtOffset? || op.ReadGsBase?
      || op.CompareAndSetBl? || op.SwapGsUnlessEqual? || op.PassStack?
  }

  lemma {:induction false} QuietIsGood(ops: seq<Op>, p: Machine)
    requires !InUserMode(p) && forall i :: 0 <= i < |ops| ==> Quiet(ops[i])
    ensures Good(ops, p)
    decreases |ops|
  {
    if ops != [] {
      QuietIsGood(ops[1..], ExecOp(ops[0], p));
    }
  }

  lemma {:induction false} EpilogueIsGood(kind: Kind, s: Machine, r: Machine)
    requires !InUserMode(r) && Words(r, 5) == Frame(s) && Lands(r, s.sp)
    requires Sound(Exec(Epilogue(kind), r)) && Owns(r, 5)
    ensures Good(Epilogue(kind), r)
  {
    FrameWords(r, s);
    EncodeRoundTrip(s.sp);
    hide Words, Decode, Encode, Lands;
    if kind.Paranoid? {
      ExecOne(Iret, r);
      GoodOne(Iret, r);
    } else {
      var u := ExecOp(SwapGsIfUser(1), r);
      assert u == r || u == Swapped(r);
      ExecTwo(SwapGsIfUser(1), Iret, r);
      hide Exec;
      SwapLands(r, u, s.sp);
      GoodOne(Iret, u);
      assert [SwapGsIfUser(1), Iret][1..] == [Iret];
    }
  }

  lemma {:induction false} SwapLands(r: Machine, u: Machine, p: Pointer)
    requires Lands(r, p) && (u == r || u == Swapped(r))
    ensures Lands(u, p)
  {
  }

  /** The frame's stack pointer is live again when the handler returns. */
  lemma {:induction false} ReturnLands(s: Machine, r: Machine, kind: Kind)
    requires (InUserMode(s) ==> s.sp.User?) && r.stackTop == s.stackTop && r.userTop == OnStack(s).userTop
    requires r.sp == Above(EntryPointer(s), -5)
    ensures Lands(r, s.sp)
  {
  }

  /** An uninterrupted handler is good: its body runs with the control region. */
  lemma {:induction false} HandlerIsGood(kind: Kind, b: seq<Op>, s: Machine)
    requires WorkOnly(b) && GsFits(s, kind) && Sound(s)
    ensures Good(Code(kind, b), Enter(s, kind))
  {
    hide Code, Sound, WorkOnly, Exec, ExecOp, Enter, Grew, Words, SavedWords, Saves, Restores;
    hide WordsAtCall, SameRegs, Pushes, Pops, Prologue, Epilogue, BeforeCall, AfterCall, Frame, Good, Lands;
    HandlerEndsSound(kind, b, s);
    UserStackFits(s);
    var e, top, n := Enter(s, kind), EntryPointer(s), |SavedWords(s, kind)|;
    EnterPushesFrame(s, kind);
    PrologueSwaps(s, kind);
    SavedAll(s, kind);
    SavedLength(s, kind);
    var f := Exec(Prologue(kind), e);
    var p := AfterSaving(s, kind);
    ReachesCall(kind, p, n, top);
    var x := Exec(BeforeCall(kind), p);
    CallsAndReturns(kind, b, p, n, top);
    var c := ExecOp(Call(b), x);
    var q := Exec(AfterCall(kind), c);
    PopsRestore(kind, s, q);
    var r := Exec(Pops(Restores(kind)), q);
    ReturnLands(s, r, kind);
    CoreAtCall(kind, p, b);
    PrologueIsGood(kind, e);
    PushesAreGood(Saves(kind), f);
    BeforeCallIsGood(kind, p);
    WorkIsGood(b, x);
    CallIsGood(b, x);
    AfterCallIsGood(kind, c);
    PopsAreGood(Restores(kind), q);
    CodeStages(kind, b, e);
    EpilogueIsGood(kind, s, r);
    JoinGood(kind, b, e);
  }

  lemma {:induction false} UserStackFits(s: Machine)
    requires Sound(s)
    ensures InUserMode(s) ==> s.sp.User?
    ensures EntryPointer(s).User? ==> EntryPointer(s).addr <= OnStack(s).userTop
  {
  }

  lemma {:induction false} HandlerEndsSound(kind: Kind, b: seq<Op>, s: Machine)
    requires WorkOnly(b) && GsFits(s, kind) && Sound(s)
    ensures Sound(Exec(Code(kind, b), Enter(s, kind)))
  {
    hide Exec, Code, Enter;
    HandlerRestores(kind, b, s);
  }

  lemma {:induction false} CallIsGood(b: seq<Op>, x: Machine)
    requires x.gs == x.pcr && Good(b, x) && !InUserMode(x)
    ensures Good([Call(b)], x)
  {
    GoodOne(Call(b), x);
  }

  lemma {:induction false} PrologueIsGood(kind: Kind, e: Machine)
    requires !InUserMode(e) && Owns(e, 5)
    ensures Good(Prologue(kind), e)
  {
    if kind.Error? { GoodOne(SwapGsIfUser(2), e); } else { GoodOne(SwapGsIfUser(1), e); }
  }

  lemma {:induction false} AfterCallIsGood(kind: Kind, c: Machine)
    requires !InUserMode(c)
    ensures Good(AfterCall(kind), c)
  {
    GoodOne(SwapGsUnlessBl, c);
  }

  /** Calling a body leaves the privilege level alone. */
  lemma {:induction false} CoreAtCall(kind: Kind, p: Machine, b: seq<Op>)
    requires WorkOnly(b) && Grew(p, p, p.sp)
    requires if kind.Paranoid? then p.gs == p.pcr || p.kernelGs == p.pcr else p.gs == p.pcr
    ensures Exec(BeforeCall(kind), p).cs == p.cs && ExecOp(Call(b), Exec(BeforeCall(kind), p)).cs == p.cs
  {
    var x := Exec(BeforeCall(kind), p);
    CsKept(BeforeCall(kind), p);
    assert Grew(x, x, x.sp);
    CallKeeps(b, x, 0, x.sp);
  }

  lemma {:induction false} CsKept(ops: seq<Op>, p: Machine)
    requires forall i :: 0 <= i < |ops| ==> Quiet(ops[i]) || ops[i].ExchangeErrorCode?
    ensures Exec(ops, p).cs == p.cs
    decreases |ops|
  {
    if ops != [] { CsKept(ops[1..], ExecOp(ops[0], p)); }
  }

  lemma {:induction false} JoinGood(kind: Kind, b: seq<Op>, e: Machine)
    requires var f := Exec(Prologue(kind), e);
      var p := Exec(Pushes(Saves(kind)), f);
      var x := Exec(BeforeCall(kind), p);
      var c := ExecOp(Call(b), x);
      var q := Exec(AfterCall(kind), c);
      && Good(Prologue(kind), e) && Good(Pushes(Saves(kind)), f) && Good(BeforeCall(kind), p) && Good([Call(b)], x)
      && Good(AfterCall(kind), c) && Good(Pops(Restores(kind)), q)
      && Good(Epilogue(kind), Exec(Pops(Restores(kind)), q))
    ensures Good(Code(kind, b), e)
  {
    hide Exec, ExecOp, Prologue, Epilogue, BeforeCall, AfterCall, Saves, Restores, Pushes, Pops, Good;
    var c1 := Prologue(kind);
    var c2 := c1 + Pushes(Saves(kind));
    var c3 := c2 + BeforeCall(kind);
    var c4 := c3 + [Call(b)];
    var c5 := c4 + AfterCall(kind);
    var c6 := c5 + Pops(Restores(kind));
    ExecAppend(c5, Pops(Restores(kind)), e);
    ExecAppend(c4, AfterCall(kind), e);
    ExecAppend(c3, [Call(b)], e);
    ExecAppend(c2, BeforeCall(kind), e);
    ExecAppend(c1, Pushes(Saves(kind)), e);
    ExecOne(Call(b), Exec(c3, e));
    GoodAppend(c1, Pushes(Saves(kind)), e);
    GoodAppend(c2, BeforeCall(kind), e);
    GoodAppend(c3, [Call(b)], e);
    GoodAppend(c4, AfterCall(kind), e);
    GoodAppend(c5, Pops(Restores(kind)), e);
    GoodAppend(c6, Epilogue(kind), e);
  }

  /** An interrupt, with everything nested in it, leaves no trace. */
  lemma {:induction false} TrapIsTransparent(kind: Kind, code: seq<Op>, s: Machine)
    requires TypedOp(Trap(kind, code)) && PlacedOp(Trap(kind, code), s) && Sound(s)
    ensures Agree(s, Exec(code, Enter(s, kind))) && Good(code, Enter(s, kind))
    decreases code, 2
  {
    var e := Enter(s, kind);
    var b :| WorkOnly(b) && Strip(code) == Code(kind, b);
    hide Exec, Enter, Agree, Good, Code, Strip, Restored, Placed, Typed;
    HandlerRestores(kind, b, s);
    RestoredAgrees(s, Exec(Code(kind, b), e));
    HandlerIsGood(kind, b, s);
    AgreeRefl(e);
    EntryIsSound(s);
    InterruptsAreTransparent(code, e, e);
    AgreeSymm(Exec(code, e), Exec(Code(kind, b), e));
    AgreeTrans(s, Exec(Code(kind, b), e), Exec(code, e));
  }

  lemma {:induction false} AgreeRefl(s: Machine)
    ensures Agree(s, s)
  {
  }

  /** One operation of an interrupted program, other than an interrupt. */
  lemma {:induction false} OpIsTransparent(op: Op, s: Machine, t: Machine)
    requires !op.Trap? && TypedOp(op) && PlacedOp(op, s) && Agree(s, t) && GoodOp(StripOp(op), t) && Sound(t)
    ensures Agree(ExecOp(op, s), ExecOp(StripOp(op), t)) && GoodOp(op, s)
    decreases op, 1
  {
    if op.Call? {
      CallIsTransparent(op.body, s, t);
    } else if op.ReturnBranch? {
      BranchIsTransparent(op.slow, op.fast, s, t);
    } else if op.SysCall? {
      SysCallIsTransparent(op.code, s, t);
    } else {
      assert t.cs == s.cs && t.sp == s.sp && t.gs == s.gs && t.pcr == s.pcr;
      hide Agree, Simple;
      SimpleAgrees(op, s, t);
    }
  }

  lemma {:induction false} CallIsTransparent(body: seq<Op>, s: Machine, t: Machine)
    requires TypedOp(Call(body)) && PlacedOp(Call(body), s) && Agree(s, t) && GoodOp(Call(Strip(body)), t) && Sound(t)
    ensures Agree(ExecOp(Call(body), s), ExecOp(Call(Strip(body)), t)) && GoodOp(Call(body), s)
    decreases body, 1
  {
    assert t.cs == s.cs && t.gs == s.gs && t.pcr == s.pcr;
    hide Exec, Agree, Good, Placed, Typed;
    InterruptsAreTransparent(body, s, t);
    ReturnAgrees(Strip(body), s, t, Exec(body, s));
  }

  lemma {:induction false} BranchIsTransparent(slow: seq<Op>, fast: seq<Op>, s: Machine, t: Machine)
    requires TypedOp(ReturnBranch(slow, fast)) && PlacedOp(ReturnBranch(slow, fast), s) && Agree(s, t)
    requires GoodOp(ReturnBranch(Strip(slow), Strip(fast)), t) && Sound(t)
    ensures Agree(ExecOp(ReturnBranch(slow, fast), s), ExecOp(ReturnBranch(Strip(slow), Strip(fast)), t))
    ensures GoodOp(ReturnBranch(slow, fast), s)
    decreases ReturnBranch(slow, fast), 0
  {
    assert t.cs == s.cs && t.sp == s.sp;
    WordAgrees(s, t, 2);
    hide Exec, Agree, Good, Placed, Typed;
    if TrapFlagSet(Word(s, Above(s.sp, 2))) {
      InterruptsAreTransparent(slow, s, t);
    } else {
      InterruptsAreTransparent(fast, s, t);
    }
  }

  lemma {:induction false} SysCallIsTransparent(code: seq<Op>, s: Machine, t: Machine)
    requires TypedOp(SysCall(code)) && PlacedOp(SysCall(code), s)
    requires Agree(s, t) && GoodOp(SysCall(Strip(code)), t) && Sound(t)
    ensures Agree(ExecOp(SysCall(code), s), ExecOp(SysCall(Strip(code)), t)) && GoodOp(SysCall(code), s)
    decreases code, 1
  {
    assert t.sp == s.sp;
    SysCallEntryAgrees(s, t);
    EntryIsSound(t);
    hide Exec, Agree, Sound, Good, Placed, Typed, EnterSysCall;
    InterruptsAreTransparent(code, EnterSysCall(s), EnterSysCall(t));
  }

  lemma {:induction false} SysCallEntryAgrees(s: Machine, t: Machine)
    requires Agree(s, t) && s.sp.User?
    ensures Agree(EnterSysCall(s), EnterSysCall(t))
  {
    SetTwice(s, t, Rcx, s.rip, R11, s.rflags);
  }

  /** Returning from a body on machines that agree. */
  lemma {:induction false} ReturnAgrees(b: seq<Op>, s: Machine, t: Machine, u: Machine)
    requires WorkOnly(b) && Agree(s, t) && Agree(u, Exec(b, t)) && !InUserMode(t)
    ensures Agree(Returned(s, u), Returned(t, Exec(b, t)))
  {
    assert Grew(t, t, t.sp);
    BodyGrows(b, t, t.sp);
    var w := Exec(b, t);
    var x, y := Returned(s, u), Returned(t, w);
    hide Exec;
    forall r: Reg ensures Get(x.regs, r) == Get(y.regs, r) {
      assert Get(s.regs, r) == Get(t.regs, r) && Get(u.regs, r) == Get(w.regs, r);
    }
  }

  /** The main theorem. Take any program that is good when left alone, with
      interrupts of any kinds nested in it anywhere and to any depth, only paranoid
      ones where the kernel runs with the user's GS base. From machines that agree
      it ends in a machine that agrees with the end of the same program with no
      interrupt at all; every handler body, however deep, has run with the control
      region as GS base. */
  lemma {:induction false} InterruptsAreTransparent(ops: seq<Op>, s: Machine, t: Machine)
    requires Typed(ops) && Placed(ops, s) && Agree(s, t) && Good(Strip(ops), t) && Sound(t)
    ensures Agree(Exec(ops, s), Exec(Strip(ops), t)) && Good(ops, s)
    decreases ops, 0
  {
    if ops == [] {
      AgreesTrivially(s, t);
    } else {
      var op, rest := ops[0], ops[1..];
      var u := ExecOp(op, s);
      Unfolds(ops, s, t);
      if op.Trap? {
        SoundAgrees(s, t);
        TrapIsTransparent(op.kind, op.code, s);
        TrapRuns(op, s);
        hide Agree, ExecOp, Exec, Good, Placed, Typed, Strip;
        AgreeSymm(s, u);
        AgreeTrans(u, s, t);
        InterruptsAreTransparent(rest, u, t);
      } else {
        hide Agree, ExecOp, GoodOp, PlacedOp, TypedOp, StripOp, Exec, Good, Placed, Typed, Strip, Sound;
        OpKeepsSound(op, t);
        OpIsTransparent(op, s, t);
        InterruptsAreTransparent(rest, u, ExecOp(StripOp(op), t));
      }
    }
  }

  lemma {:induction false} SoundAgrees(s: Machine, t: Machine)
    requires Agree(s, t) && Sound(t)
    ensures Sound(s)
  {
  }

  lemma {:induction false} AgreesTrivially(s: Machine, t: Machine)
    requires Agree(s, t)
    ensures Agree(Exec([], s), Exec(Strip([]), t)) && Good([], s)
  {
    hide Agree;
  }

  lemma {:induction false} TrapRuns(op: Op, s: Machine)
    requires op.Trap?
    ensures ExecOp(op, s) == Exec(op.code, Enter(s, op.kind)) && (GoodOp(op, s) <==> Good(op.code, Enter(s, op.kind)))
  {
    hide Exec, Good, Enter;
  }

  /** One step of everything that recurses over a program. */
  lemma {:induction false} Unfolds(ops: seq<Op>, s: Machine, t: Machine)
    requires ops != [] && Typed(ops) && Placed(ops, s) && Good(Strip(ops), t)
    ensures var op, rest := ops[0], ops[1..];
      && TypedOp(op) && Typed(rest) && PlacedOp(op, s) && Placed(rest, ExecOp(op, s))
      && Exec(ops, s) == Exec(rest, ExecOp(op, s))
      && (GoodOp(op, s) && Good(rest, ExecOp(op, s)) ==> Good(ops, s))
      && (op.Trap? ==> Strip(ops) == Strip(rest))
      && (!op.Trap? ==>
        && GoodOp(StripOp(op), t) && Good(Strip(rest), ExecOp(StripOp(op), t))
        && Exec(Strip(ops), t) == Exec(Strip(rest), ExecOp(StripOp(op), t)))
  {
    hide ExecOp, GoodOp, PlacedOp, TypedOp, StripOp;
    var op, rest := ops[0], ops[1..];
    if !op.Trap? {
      var stripped := [StripOp(op)] + Strip(rest);
      assert stripped[0] == StripOp(op) && stripped[1..] == Strip(rest);
    }
  }
}
