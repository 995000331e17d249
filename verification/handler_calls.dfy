/** What the functions behind interrupts and system calls are called with: the
    pointer to the saved registers, the error code, and what they find there. */
module HandlerCalls {
  import opened InterruptMachine
  import opened Interrupts
  import opened InterruptNesting
  import opened SystemCalls

  /** The twenty words of an `InterruptStack`, lowest first: preserved registers,
      scratch registers, and what the processor pushed. */
  function StackWords(m: RegFile, rip: int, cs: int, rflags: int, sp: Pointer, ss: int): (ws: seq<int>)
    ensures |ws| == 20
  {
    [Get(m, R15), Get(m, R14), Get(m, R13), Get(m, R12), Get(m, Rbp), Get(m, Rbx),
     Get(m, R11), Get(m, R10), Get(m, R9), Get(m, R8), Get(m, Rsi), Get(m, Rdi), Get(m, Rdx), Get(m, Rcx), Get(m, Rax),
     rip, cs, rflags, Encode(sp), ss]
  }

  function Interrupted(s: Machine): seq<int> { StackWords(s.regs, s.rip, s.cs, s.rflags, s.sp, s.ss) }

  /** How many of these words an entry saves: the plain one leaves the preserved
      registers out. */
  function Depth(kind: Kind): nat { if kind.Plain? then 14 else 20 }

  /** The machine as the Rust function behind the entry is called. */
  function AtCall(kind: Kind, s: Machine): Machine { Exec(BeforeCall(kind), AfterSaving(s, kind)) }

  /** And everything after it returns. */
  function AfterReturn(kind: Kind, c: Machine): Machine {
    Exec(Epilogue(kind), Exec(Pops(Restores(kind)), Exec(AfterCall(kind), c)))
  }

  // ---------------------------------------------------------------- the arguments

  lemma {:induction false} PassStackPasses(p: Machine)
    ensures var x := ExecOp(PassStack, p);
      && x.sp == p.sp && Get(x.regs, Rdi) == Encode(p.sp)
      && forall r: Reg :: r != Rdi ==> Get(x.regs, r) == Get(p.regs, r)
  {
  }

  lemma {:induction false} ExchangePasses(p: Machine)
    ensures var x := ExecOp(ExchangeErrorCode, p);
      x.sp == p.sp && Get(x.regs, Rsi) == Word(p, Above(p.sp, 14))
  {
  }

  lemma {:induction false} CheckPasses(p: Machine)
    ensures var x := Exec(BeforeCall(Paranoid), p);
      x.sp == p.sp && Get(x.regs, Rdi) == Encode(p.sp)
  {
    CheckSteps(p);
    CompareSees(p);
    hide Exec, AfterCompare;
  }

  /** The arguments follow the System V ABI: RDI, then RSI. */
  lemma {:induction false} PassesArguments(kind: Kind, p: Machine)
    ensures var x := Exec(BeforeCall(kind), p);
      && x.sp == p.sp
      && (!kind.Plain? ==> Get(x.regs, Rdi) == Encode(p.sp))
      && (kind.Error? ==> Get(x.regs, Rsi) == Word(p, Above(p.sp, 14)))
  {
    match kind
    case Plain =>
    case Stack =>
      ExecOne(PassStack, p);
      PassStackPasses(p);
      hide Exec, ExecOp;
    case Error(_) =>
      ExecTwo(ExchangeErrorCode, PassStack, p);
      ExchangePasses(p);
      PassStackPasses(ExecOp(ExchangeErrorCode, p));
      hide Exec, ExecOp, Word;
    case Paranoid =>
      CheckPasses(p);
      hide Exec;
  }

  // ---------------------------------------------------------------- the saved words

  const ORDER: seq<Reg> := [R15, R14, R13, R12, Rbp, Rbx, R11, R10, R9, R8, Rsi, Rdi, Rdx, Rcx, Rax]

  lemma {:induction false} RestoresInOrder(kind: Kind)
    ensures |Restores(kind)| == Depth(kind) - 5 && |ORDER| == 15
    ensures Restores(kind) == ORDER[15 - |Restores(kind)|..]
  {
    assert ORDER[6..] == [R11, R10, R9, R8, Rsi, Rdi, Rdx, Rcx, Rax];
  }

  lemma {:induction false} StackWordsInOrder(m: RegFile, rip: int, cs: int, rflags: int, sp: Pointer, ss: int, k: nat)
    requires k < 15
    ensures |ORDER| == 15 && StackWords(m, rip, cs, rflags, sp, ss)[k] == Get(m, ORDER[k])
  {
    hide Get, Encode;
  }

  lemma {:induction false} StackWordsEnd(m: RegFile, rip: int, cs: int, rflags: int, sp: Pointer, ss: int)
    ensures StackWords(m, rip, cs, rflags, sp, ss)[15..] == [rip, cs, rflags, Encode(sp), ss]
  {
    hide Get, Encode;
  }

  /** The words at the call are those of an `InterruptStack`, as far as they go. */
  lemma {:induction false} WordsAreInterrupted(kind: Kind, s: Machine)
    requires kind.Error? ==> |SavedWords(s, kind)| > 14
    ensures WordsAtCall(kind, SavedWords(s, kind), Get(s.regs, Rax)) == Interrupted(s)[20 - Depth(kind)..]
  {
    var ws, vs := WordsAtCall(kind, SavedWords(s, kind), Get(s.regs, Rax)), Interrupted(s)[20 - Depth(kind)..];
    RestoresInOrder(kind);
    SavedLength(s, kind);
    SavedFrame(kind, s);
    StackWordsEnd(s.regs, s.rip, s.cs, s.rflags, s.sp, s.ss);
    hide Saves, Restores, WordsAtCall, SavedWords, StackWords, Get, ORDER, Encode;
    var n := |Restores(kind)|;
    forall k | 0 <= k < n ensures ws[k] == vs[k] {
      SavedWordAt(kind, s, k);
      StackWordsInOrder(s.regs, s.rip, s.cs, s.rflags, s.sp, s.ss, 15 - n + k);
    }
    assert ws == ws[..n] + ws[n..] && vs == vs[..n] + vs[n..];
    assert vs[n..] == Interrupted(s)[15..] == Frame(s);
  }

  lemma {:induction false} ErrorIsSaved(kind: Kind, s: Machine)
    requires kind.Error?
    ensures |SavedWords(s, kind)| == 20 && SavedWords(s, kind)[14] == kind.code
  {
    SavesListed(kind);
    PushedIs(s.regs, Saves(kind));
    hide Saves;
  }

  lemma {:induction false} LengthIsDepth(s: Machine, kind: Kind)
    ensures |SavedWords(s, kind)| == Depth(kind)
  {
    SavedLength(s, kind);
    RestoresInOrder(kind);
    hide SavedWords, Restores;
  }

  lemma {:induction false} WordsOf(p: Machine, n: nat, k: nat)
    requires k < n
    ensures |Words(p, n)| == n && Words(p, n)[k] == Word(p, Above(p.sp, k))
  {
  }

  /** Where the stack pointer is: the frame goes to the top of the task's kernel
      stack from user mode, and else to the next even word below what is on the
      interrupted stack. */
  function StackAtCall(kind: Kind, s: Machine): Pointer {
    if s.cs % 4 != 0 then Kernel(s.stackTop - Depth(kind))
    else Above(s.sp, 0 - s.sp.addr % 2 - Depth(kind))
  }

  /** For every kind of entry and every state it can cope with: the Rust function is
      called with the control region as GS base, its first argument the stack
      pointer and its second the error code, for the entries that pass them; at the
      stack pointer it finds the interrupted registers and frame as an
      `InterruptStack`; and what it returns to is the rest of the entry. */
  lemma {:induction false} HandlerIsCalledWith(kind: Kind, b: seq<Op>, s: Machine)
    requires GsFits(s, kind)
    ensures var c := AtCall(kind, s);
      && Exec(Code(kind, b), Enter(s, kind)) == AfterReturn(kind, ExecOp(Call(b), c))
      && c.gs == c.pcr && c.sp == StackAtCall(kind, s)
      && (!kind.Plain? ==> Get(c.regs, Rdi) == Encode(c.sp))
      && (kind.Error? ==> Get(c.regs, Rsi) == kind.code)
      && Words(c, Depth(kind)) == Interrupted(s)[20 - Depth(kind)..]
  {
    hide Exec, ExecOp, Enter, Grew, Words, Word, SavedWords, Saves, Restores, WordsAtCall, Code;
    hide Pushes, Pops, Prologue, Epilogue, BeforeCall, AfterCall, Frame, Interrupted, GsFits;
    SavesStack(s, kind);
    var p, n, top := AfterSaving(s, kind), Depth(kind), EntryPointer(s);
    CodeStages(kind, b, Enter(s, kind));
    hide AfterSaving;
    ReachesCall(kind, p, n, top);
    PassesArguments(kind, p);
    if kind.Error? {
      ErrorIsSaved(kind, s);
      WordsOf(p, n, 14);
    }
    WordsAreInterrupted(kind, s);
  }

  lemma {:induction false} SavesStack(s: Machine, kind: Kind)
    requires GsFits(s, kind)
    ensures var p := AfterSaving(s, kind);
      && p.regs == s.regs && Grew(p, p, EntryPointer(s)) && |SavedWords(s, kind)| == Depth(kind)
      && Words(p, Depth(kind)) == SavedWords(s, kind)
      && p.sp == StackAtCall(kind, s)
      && (kind.Error? ==> Above(p.sp, 15).addr <= EntryPointer(s).addr)
      && if kind.Paranoid? then p.gs == p.pcr || p.kernelGs == p.pcr else p.gs == p.pcr
  {
    hide Exec, Enter, Grew, Words, SavedWords, Saves, Pushes, Prologue;
    EnterPushesFrame(s, kind);
    PrologueSwaps(s, kind);
    SavedAll(s, kind);
    LengthIsDepth(s, kind);
  }

  // ------------------------------------------------------------------- system calls

  lemma {:induction false} PushedInOrder(m: RegFile, rip: int, cs: int, rflags: int, sp: Pointer, ss: int)
    ensures Pushed(m, Saves(Stack)) + [rip, cs, rflags, Encode(sp), ss] == StackWords(m, rip, cs, rflags, sp, ss)
  {
    var ws, vs := Pushed(m, Saves(Stack)), StackWords(m, rip, cs, rflags, sp, ss);
    StackWordsEnd(m, rip, cs, rflags, sp, ss);
    PushedOrder(m);
    hide Saves, Pushed, StackWords, Get, ORDER, Encode;
    forall k | 0 <= k < 15 ensures ws[k] == vs[k] {
      StackWordsInOrder(m, rip, cs, rflags, sp, ss, k);
    }
    assert ws == vs[..15];
    assert vs == vs[..15] + vs[15..];
  }

  lemma {:induction false} FullIsOrder()
    ensures |ORDER| == 15 && Full() == ORDER
  {
  }

  lemma {:induction false} PushedOrder(m: RegFile)
    ensures |ORDER| == 15 && |Pushed(m, Saves(Stack))| == 15
    ensures forall k :: 0 <= k < 15 ==> Pushed(m, Saves(Stack))[k] == Get(m, ORDER[k])
  {
    FullIsOrder();
    SavesMirrorFull(Stack);
    PushedIs(m, Saves(Stack));
    hide Saves, Full, Pushed, Get, ORDER;
  }

  lemma {:induction false} FunctionFinds(s: Machine)
    requires UserState(s)
    ensures var y, c := OnKernelStack(s), AtFunction(s);
      && SameCore(y, c) && c.sp == Kernel(s.stackTop - 20) && Get(c.regs, Rdi) == Encode(c.sp)
      && Words(c, 20) == Pushed(y.regs, Saves(Stack)) + [Get(y.regs, Rcx), USER_CS, Get(y.regs, R11), y.tmp, USER_SS]
  {
    hide Exec, ExecOp, Words, Grew, Saves, Pushes, FramePushed, Pushed;
    var y := OnKernelStack(s);
    GrewSelf(y);
    FramePushedIs(y);
    var f := FramePushed(y);
    SavesLength();
    GrewAgain(y, f, y.sp);
    PushesWork(Saves(Stack), f, 5, y.sp);
    var p := Exec(Pushes(Saves(Stack)), f);
    PassStackKeeps(p);
    PassStackPasses(p);
    GrewAgain(f, p, y.sp);
    RegistersOnlyKeeps(p, ExecOp(PassStack, p), 20, y.sp);
  }

  lemma {:induction false} OnKernelStackIs(s: Machine)
    requires UserState(s)
    ensures var y := OnKernelStack(s);
      && y.regs == s.regs[Rcx := s.rip][R11 := s.rflags] && y.tmp == Encode(s.sp) && y.gs == y.pcr
      && Get(y.regs, Rcx) == s.rip && Get(y.regs, R11) == s.rflags
  {
  }

  /** The function behind the system call instruction is called with the control
      region as GS base and a pointer to the caller's registers, RCX and R11 as the
      instruction left them, with the frame an interrupt would have. */
  lemma {:induction false} SysCallIsCalledWith(s: Machine, b: seq<Op>, result: int)
    requires UserState(s)
    ensures var c := AtFunction(s);
      && ExecOp(SysCall(SysCallCode(b, result)), s) ==
         Exec(EnterUserMode(), ExecOp(StoreReturn(result), ExecOp(Call(b), c)))
      && c.gs == c.pcr && c.sp == Kernel(s.stackTop - 20) && Get(c.regs, Rdi) == Encode(c.sp)
      && Words(c, 20) == StackWords(s.regs[Rcx := s.rip][R11 := s.rflags], s.rip, USER_CS, s.rflags, s.sp, USER_SS)
  {
    SysCallRuns(s, SysCallCode(b, result));
    SysCallStages(s, b, result);
    FunctionFinds(s);
    OnKernelStackIs(s);
    hide Exec, ExecOp, Words, Saves, AtFunction, Pushed, StackWords, Encode, EnterSysCall, OnKernelStack;
    PushedInOrder(s.regs[Rcx := s.rip][R11 := s.rflags], s.rip, USER_CS, s.rflags, s.sp, USER_SS);
  }
}
