/** A context's kernel stack is mapped for its user as well, and the user's first
    stack pointer is into it. Which words of user memory survive entering the
    kernel, and which do not. */
module SharedStack {
  import opened InterruptMachine
  import opened Interrupts
  import opened InterruptNesting
  import opened SystemCalls
  import opened UserPrograms

  // ------------------------------------------------------- what an entry leaves

  lemma {:induction false} SysCallLeaves(s: Machine, b: seq<Op>, result: int)
    requires UserState(s) && WorkOnly(b)
    ensures var t := ExecOp(SysCall(SysCallCode(b, result)), s);
      t.mem == AfterFunction(s, b, result).mem && t.window == s.window && t.stackTop == s.stackTop
  {
    hide Exec, ExecOp, AfterFunction, SysCallCode, EnterUserMode, EnterSysCall, Words, SysReturned, WorkOnly, UserState;
    SysCallRuns(s, SysCallCode(b, result));
    SysCallStages(s, b, result);
    ExitLoadsFrame(AfterFunction(s, b, result));
    SysCallReturns(s, b, result);
  }

  /** The twenty words of a system call's frame, lowest first. */
  function FrameLeft(s: Machine, result: int): (ws: seq<int>)
    ensures |ws| == 20
  {
    SysWords(s, result);
    (Pushed(OnKernelStack(s).regs, Saves(Stack)) + SysFrame(s))[14 := result]
  }

  /** They stay at the top of the kernel stack. */
  lemma {:induction false} FrameStays(s: Machine, b: seq<Op>, result: int, k: nat)
    requires UserState(s) && WorkOnly(b) && 1 <= k <= 20
    ensures Read(ExecOp(SysCall(SysCallCode(b, result)), s).mem, Kernel(s.stackTop - k)) == FrameLeft(s, result)[20 - k]
  {
    hide Exec, ExecOp, AfterFunction, AtFunction, SysCallCode, Pushed;
    hide Saves, WorkOnly, Words, Grew, SysFrame, EnterSysCall;
    SysCallLeaves(s, b, result);
    FunctionKeepsFrame(s, b, result);
    SysWords(s, result);
    var w := AfterFunction(s, b, result);
    WordsAt(w, 20 - k, 20);
    assert Above(w.sp, 20 - k) == Kernel(s.stackTop - k);
  }

  /** A system call function that uses the stack below its frame. */
  function Wipe(): seq<Op> { [Work(map[], 0, map[])] }

  lemma {:induction false} WipeClears(x: Machine, result: int, k: int)
    requires x.sp.Kernel? && k < x.sp.addr
    ensures Read(ExecOp(StoreReturn(result), ExecOp(Call(Wipe()), x)).mem, Kernel(k)) == 0
  {
    ExecOne(Work(map[], 0, map[]), x);
    assert ExecOp(Call(Wipe()), x).mem == Replaced(x, x.sp, map[]);
    ReplacedReads(x, x.sp, map[], Kernel(k));
  }

  lemma {:induction false} FunctionKeepsPointer(x: Machine, b: seq<Op>, result: int)
    ensures ExecOp(StoreReturn(result), ExecOp(Call(b), x)).sp == x.sp
  {
    hide Exec;
  }

  lemma {:induction false} FunctionStack(s: Machine)
    requires UserState(s)
    ensures AtFunction(s).sp == Kernel(s.stackTop - 20)
  {
    hide Exec, ExecOp, AtFunction, Words, Grew, Pushed, Saves, EnterSysCall, SameCore, SysFrame;
    FunctionKeepsFrame(s, [], 0);
    FunctionKeepsPointer(AtFunction(s), [], 0);
  }

  lemma {:induction false} RestIsWiped(s: Machine, result: int, k: nat)
    requires UserState(s) && k > 20
    ensures Read(ExecOp(SysCall(SysCallCode(Wipe(), result)), s).mem, Kernel(s.stackTop - k)) == 0
  {
    hide Exec, ExecOp, AtFunction, SysCallCode, UserState, Read;
    WipeIsWork();
    FunctionStack(s);
    SysCallLeaves(s, Wipe(), result);
    hide Wipe;
    WipeClears(AtFunction(s), result, s.stackTop - k);
  }

  lemma {:induction false} WipeIsWork()
    ensures WorkOnly(Wipe())
  {
  }

  // ----------------------------------------------------------- which words survive

  function AfterSysCall(s: Machine, m: Memory, b: seq<Op>, result: int): Machine {
    ExecOp(SysCall(SysCallCode(b, result)), s.(mem := m))
  }

  function AfterInterrupt(s: Machine, m: Memory, kind: Kind, b: seq<Op>): Machine {
    Exec(Code(kind, b), Enter(s.(mem := m), kind))
  }

  /** Whatever memory holds, the user word at `a` is the same after every system call
      and after every interrupt. */
  ghost predicate Survives(s: Machine, a: int) {
    && (forall m: Memory, b: seq<Op>, result: int :: WorkOnly(b) ==>
          Word(AfterSysCall(s, m, b, result), User(a)) == Word(s.(mem := m), User(a)))
    && (forall m: Memory, kind: Kind, b: seq<Op> :: WorkOnly(b) ==>
          Word(AfterInterrupt(s, m, kind, b), User(a)) == Word(s.(mem := m), User(a)))
  }

  lemma {:induction false} UnmappedSurvives(s: Machine, a: int)
    requires UserState(s) && !Mapped(s, a)
    ensures Survives(s, a)
  {
    hide Exec, ExecOp, SysCallCode, Code, Enter, WorkOnly, SysReturned, Restored;
    forall m: Memory, b: seq<Op>, result: int | WorkOnly(b)
      ensures Word(AfterSysCall(s, m, b, result), User(a)) == Word(s.(mem := m), User(a))
    {
      SysCallReturns(s.(mem := m), b, result);
    }
    forall m: Memory, kind: Kind, b: seq<Op> | WorkOnly(b)
      ensures Word(AfterInterrupt(s, m, kind, b), User(a)) == Word(s.(mem := m), User(a))
    {
      HandlerRestores(kind, b, s.(mem := m));
    }
  }

  /** What is left of word `k` from the top. */
  function Left(s: Machine, k: nat): int
    requires k >= 1
  {
    if k <= 20 then FrameLeft(s, 0)[20 - k] else 0
  }

  lemma {:induction false} LeftIs(s: Machine, k: nat)
    requires UserState(s) && k >= 1
    ensures Read(ExecOp(SysCall(SysCallCode(Wipe(), 0)), s).mem, Kernel(s.stackTop - k)) == Left(s, k)
  {
    hide ExecOp, SysCallCode, FrameLeft, Wipe, UserState, Read;
    WipeIsWork();
    if k <= 20 { FrameStays(s, Wipe(), 0, k); } else { RestIsWiped(s, 0, k); }
  }

  lemma {:induction false} ChangedDoesNotSurvive(s: Machine, a: int, m: Memory, b: seq<Op>, result: int)
    requires WorkOnly(b) && Word(AfterSysCall(s, m, b, result), User(a)) != Word(s.(mem := m), User(a))
    ensures !Survives(s, a)
  {
    hide AfterSysCall, AfterInterrupt, Word, WorkOnly;
  }

  /** A mapped word is overwritten with something that does not depend on it. */
  lemma {:induction false} MappedIsLost(s: Machine, a: int)
    requires UserState(s) && Mapped(s, a)
    ensures !Survives(s, a)
  {
    hide ExecOp, SysCallCode, FrameLeft, Wipe, Survives;
    var k: nat := s.window.top - a;
    var cell := Kernel(s.stackTop - k);
    var m := s.mem[cell := Left(s, k) + 1];
    var u := s.(mem := m);
    FrameIgnoresMemory(s, m);
    assert Left(u, k) == Left(s, k);
    WipeIsWork();
    SysCallLeaves(u, Wipe(), 0);
    LeftIs(u, k);
    hide Left;
    assert Cell(AfterSysCall(s, m, Wipe(), 0), User(a)) == cell;
    ChangedDoesNotSurvive(s, a, m, Wipe(), 0);
  }

  lemma {:induction false} FrameIgnoresMemory(s: Machine, m: Memory)
    ensures FrameLeft(s.(mem := m), 0) == FrameLeft(s, 0)
  {
    hide Pushed, Saves;
    assert OnKernelStack(s.(mem := m)).regs == OnKernelStack(s).regs && SysFrame(s.(mem := m)) == SysFrame(s);
  }

  /** The user's live stack words survive every entry from user mode if and only if
      none of them is in the mapped kernel stack. */
  lemma {:induction false} LiveWordsSurviveIff(s: Machine)
    requires UserState(s)
    ensures (forall a: int :: a >= s.sp.addr ==> Survives(s, a)) <==> Apart(s)
  {
    hide Survives;
    ApartIsUnmapped(s);
    forall a: int | a >= s.sp.addr ensures Survives(s, a) <==> !Mapped(s, a) {
      if Mapped(s, a) { MappedIsLost(s, a); } else { UnmappedSurvives(s, a); }
    }
  }

  // ------------------------------------------------------------ as spawn builds it

  const STACK_WORDS: nat := 64 * 512
  const USER_STACK_TOP: int := 0x7f_8000_0000 / 8 + 64 * 512

  /** The first stack pointer of a new context's user. */
  const FIRST_STACK: Pointer := User(USER_STACK_TOP - 1)

  predicate Spawned(s: Machine) {
    UserState(s) && s.window == Window(USER_STACK_TOP, STACK_WORDS) && s.sp == FIRST_STACK
  }

  /** A new context starts that way, on the last word of its kernel stack, so its
      live words do not all survive. */
  lemma {:induction false} FirstEntryIsSpawned(w: Machine, rip: int)
    requires w.gs == w.pcr && Words(w, 20) == InitialFrame(rip, FIRST_STACK)
    requires w.window == Window(USER_STACK_TOP, STACK_WORDS)
    ensures var t := Exec(EnterUserMode(), w);
      Spawned(t) && Cell(t, t.sp) == Kernel(w.stackTop - 1) && !Apart(t)
  {
    hide Exec, EnterUserMode, Words;
    FirstEntryIsUser(w, rip, FIRST_STACK);
    ExitLoadsFrame(w);
  }

  /** The first word such a program pushes. */
  function PushOne(s: Machine, v: int): Op {
    UserWork(s.regs, USER_STACK_TOP - 2, s.mem[Cell(s, User(USER_STACK_TOP - 2)) := v])
  }

  lemma {:induction false} PushOneIs(s: Machine, v: int)
    requires Spawned(s)
    ensures var u := ExecOp(PushOne(s, v), s);
      && UserState(u) && u.sp == User(USER_STACK_TOP - 2) && u.window == s.window && u.stackTop == s.stackTop
      && Word(u, u.sp) == v
  {
    var cell := Kernel(s.stackTop - 2);
    assert Cell(s, User(USER_STACK_TOP - 2)) == cell && UserCell(s, cell);
    RewrittenReads(s, s.mem[cell := v], cell);
    hide Rewritten;
  }

  lemma {:induction false} FrameLeftPointer(u: Machine, result: int)
    ensures FrameLeft(u, result)[18] == Encode(u.sp)
  {
    hide Pushed, Saves;
    SysWords(u, result);
    assert FrameLeft(u, result)[18] == FrameLeft(u, result)[15..][3];
  }

  /** One push and one system call, and the word pushed is the stack pointer. */
  lemma {:induction false} FirstPushIsLost(s: Machine, v: int, b: seq<Op>, result: int)
    requires Spawned(s) && WorkOnly(b)
    ensures var u := ExecOp(PushOne(s, v), s);
      && u.sp == User(USER_STACK_TOP - 2) && Word(u, u.sp) == v
      && Word(ExecOp(SysCall(SysCallCode(b, result)), u), u.sp) == Encode(u.sp)
  {
    hide ExecOp, SysCallCode, WorkOnly, PushOne, FrameLeft, Encode, UserState;
    PushOneIs(s, v);
    var u := ExecOp(PushOne(s, v), s);
    FrameStays(u, b, result, 2);
    SysCallLeaves(u, b, result);
    FrameLeftPointer(u, result);
    assert Cell(ExecOp(SysCall(SysCallCode(b, result)), u), u.sp) == Kernel(s.stackTop - 2);
  }
}
