/** User programs: system calls and interrupts anywhere, and the first entry. */
module UserPrograms {
  import opened InterruptMachine
  import opened Interrupts
  import opened InterruptNesting
  import opened SystemCalls

  // ------------------------------------------------------- system calls are good

  /** The exit path needs a frame whose stack pointer is the user's, and the control
      region in place. */
  ghost predicate ExitFits(w: Machine) {
    && !InUserMode(w) && w.gs == w.pcr && w.sp.Kernel? && Above(w.sp, 20).addr <= w.stackTop
    && var p := Decode(Word(w, Above(w.sp, 18)));
    p.User? && p.addr == w.userTop
  }

  lemma {:induction false} FitLands(w: Machine, u: Machine)
    requires ExitFits(w) && u.stackTop == w.stackTop
    requires u.userTop == w.userTop && u.sp.Kernel? && u.sp.addr <= w.stackTop
    ensures Lands(u, Decode(Word(w, Above(w.sp, 18))))
  {
    hide Decode, Word;
  }

  lemma {:induction false} SlowIsGood(u: Machine)
    requires !InUserMode(u) && Lands(u, Decode(Word(u, Above(u.sp, 3))))
    requires Decode(Word(u, Above(u.sp, 3))).User? && u.kernelGs == u.pcr && u.sp.Kernel?
    requires Decode(Word(u, Above(u.sp, 3))).addr <= u.userTop
    ensures Good([ClearRcxR11, Iret], u)
  {
    var v := ExecOp(ClearRcxR11, u);
    GoodOne(Iret, v);
    assert [ClearRcxR11, Iret][1..] == [Iret];
  }

  predicate Easy(op: Op) { op.Pop? || op.SignExtendRcx? || op.DropWord? || op.SwapGs? }

  lemma {:induction false} EasyIsGood(ops: seq<Op>, u: Machine)
    requires !InUserMode(u) && u.sp.Kernel? && forall i :: 0 <= i < |ops| ==> Easy(ops[i])
    ensures Good(ops, u)
    decreases |ops|
  {
    if ops != [] {
      var v := ExecOp(ops[0], u);
      assert v.cs == u.cs && v.sp.Kernel? && GoodOp(ops[0], u);
      hide ExecOp, GoodOp;
      EasyIsGood(ops[1..], v);
    }
  }

  function FastPops(u: Machine): Machine { ExecOp(Pop(R11), FastFirst(u)) }

  lemma {:induction false} FastPopsIs(u: Machine)
    ensures var a := FastPops(u);
      a.sp == Above(u.sp, 3) && a.cs == u.cs && a.stackTop == u.stackTop && a.userTop == u.userTop
      && a.mem == u.mem && a.window == u.window && a.gs == u.gs && a.kernelGs == u.kernelGs && a.pcr == u.pcr
  {
  }

  lemma {:induction false} FastPopsSteps(u: Machine)
    ensures Exec([Pop(Rcx), SignExtendRcx, DropWord] + [Pop(R11)], u) == FastPops(u)
  {
    ExecAppend([Pop(Rcx), SignExtendRcx, DropWord], [Pop(R11)], u);
    hide ExecOp;
    ExecThree(Pop(Rcx), SignExtendRcx, DropWord, u);
    ExecOne(Pop(R11), FastFirst(u));
    hide Exec;
  }

  lemma {:induction false} ReturnOpsGood(a: Machine)
    requires !InUserMode(a) && Lands(a, Decode(Word(a, a.sp)))
    requires Decode(Word(a, a.sp)).User? && a.kernelGs == a.pcr
    requires a.sp.Kernel? && Decode(Word(a, a.sp)).addr <= a.userTop
    ensures Good([PopStackPointer, SysRet], a)
  {
    var v := ExecOp(PopStackPointer, a);
    GoodOne(SysRet, v);
    assert [PopStackPointer, SysRet][1..] == [SysRet];
  }

  lemma {:induction false} FastIsGood(u: Machine)
    requires !InUserMode(u) && Lands(FastPops(u), Decode(Word(u, Above(u.sp, 3))))
    requires Decode(Word(u, Above(u.sp, 3))).User? && u.kernelGs == u.pcr && u.sp.Kernel?
    requires Decode(Word(u, Above(u.sp, 3))).addr <= u.userTop
    ensures Good(FAST, u)
  {
    FastPopsIs(u);
    hide ExecOp, Good, Exec, Lands, Decode, FastPops;
    var first, last := [Pop(Rcx), SignExtendRcx, DropWord] + [Pop(R11)], [PopStackPointer, SysRet];
    assert FAST == first + last;
    FastPopsSteps(u);
    EasyIsGood(first, u);
    ReturnOpsGood(FastPops(u));
    GoodAppend(first, last, u);
  }

  lemma {:induction false} BranchIsGood(u: Machine)
    requires !InUserMode(u) && u.sp.Kernel? && Good([ClearRcxR11, Iret], u) && Good(FAST, u)
    ensures Good([ReturnBranch([ClearRcxR11, Iret], FAST)], u)
  {
    GoodOne(ReturnBranch([ClearRcxR11, Iret], FAST), u);
  }

  lemma {:induction false} ExitIsGood(w: Machine)
    requires ExitFits(w)
    ensures Good(EnterUserMode(), w)
  {
    PopsFull(w);
    var r := Exec(Pops(Restores(Stack)), w);
    var u := Swapped(r);
    FastPopsIs(u);
    FitLands(w, u);
    FitLands(w, FastPops(u));
    hide Exec, Good, ExecOp, Pops, Restores, Lands, Decode, FastPops;
    assert Above(u.sp, 3) == Above(w.sp, 18);
    SlowIsGood(u);
    FastIsGood(u);
    BranchIsGood(u);
    PopsAreGood(Restores(Stack), w);
    JoinExit(w);
  }

  lemma {:induction false} SwapGsIs(r: Machine)
    ensures ExecOp(SwapGs, r) == Swapped(r)
  {
  }

  lemma {:induction false} JoinExit(w: Machine)
    requires var r := Exec(Pops(Restores(Stack)), w);
      && Good(Pops(Restores(Stack)), w) && !InUserMode(r) && r.sp.Kernel?
      && Good([ReturnBranch([ClearRcxR11, Iret], FAST)], Swapped(r))
    ensures Good(EnterUserMode(), w)
  {
    hide Exec, Good, ExecOp, Pops, Restores;
    var r := Exec(Pops(Restores(Stack)), w);
    var branch := [ReturnBranch([ClearRcxR11, Iret], FAST)];
    EasyIsGood([SwapGs], r);
    ExecOne(SwapGs, r);
    SwapGsIs(r);
    GoodAppend([SwapGs], branch, r);
    GoodAppend(Pops(Restores(Stack)), [SwapGs] + branch, w);
    assert EnterUserMode() == Pops(Restores(Stack)) + ([SwapGs] + branch);
  }

  /** A system call is good: its function runs with the control region. */
  lemma {:induction false} SysCallIsGood(s: Machine, b: seq<Op>, result: int)
    requires UserState(s) && WorkOnly(b)
    ensures Good(SysCallCode(b, result), EnterSysCall(s))
  {
    hide Exec, Good, ExecOp, Pushes, Saves, AfterFunction, AtFunction, WorkOnly;
    hide FramePushed, EnterSysCall, ExitFits, Words, Grew, Pushed, OnKernelStack;
    var y, x, w := OnKernelStack(s), AtFunction(s), AfterFunction(s, b, result);
    KernelStackFits(s);
    SwitchStackIs(s);
    AfterFits(s, b, result);
    FunctionKeepsFrame(s, b, result);
    FakeFrameSteps(y);
    FramePushedIs(y);
    PushesAreGood(Saves(Stack), FramePushed(y));
    StoresAreGood([StoreReturn(result)], ExecOp(Call(b), x));
    QuietIsGood([PassStack], Exec(Pushes(Saves(Stack)), FramePushed(y)));
    WorkIsGood(b, x);
    CallIsGood(b, x);
    ExitIsGood(w);
    JoinSysCall(s, b, result);
  }

  lemma {:induction false} KernelStackFits(s: Machine)
    requires UserState(s)
    ensures var y := OnKernelStack(s); y.gs == y.pcr && !InUserMode(y) && y.sp.Kernel?
  {
  }

  lemma {:induction false} AfterFits(s: Machine, b: seq<Op>, result: int)
    requires UserState(s) && WorkOnly(b)
    ensures ExitFits(AfterFunction(s, b, result))
  {
    hide AfterFunction, AtFunction, Saves, Pushed, Exec, ExecOp, WorkOnly, Encode, Decode;
    var w := AfterFunction(s, b, result);
    FunctionKeepsFrame(s, b, result);
    SysWords(s, result);
    WordsAt(w, 18, 20);
    EncodeRoundTrip(s.sp);
    assert Words(w, 20)[18] == Words(w, 20)[15..][3];
  }

  lemma {:induction false} JoinSysCall(s: Machine, b: seq<Op>, result: int)
    requires var y, x := OnKernelStack(s), AtFunction(s);
      && UserState(s) && Good(SwitchStack(), EnterSysCall(s)) && Good(FakeFrame(), y)
      && Good(Pushes(Saves(Stack)), FramePushed(y)) && Good([PassStack], Exec(Pushes(Saves(Stack)), FramePushed(y)))
      && Good([Call(b)], x) && Good([StoreReturn(result)], ExecOp(Call(b), x))
      && Good(EnterUserMode(), AfterFunction(s, b, result))
    ensures Good(SysCallCode(b, result), EnterSysCall(s))
  {
    hide Exec, ExecOp, SwitchStack, FakeFrame, Pushes, EnterUserMode;
    hide FramePushed, EnterSysCall, Good, OnKernelStack, UserState;
    EntryStages(s);
    var e := EnterSysCall(s);
    var c1 := SwitchStack();
    var c2 := c1 + FakeFrame();
    var c3 := c2 + Pushes(Saves(Stack));
    var c4 := c3 + [PassStack];
    var c5 := c4 + [Call(b)];
    var c6 := c5 + [StoreReturn(result)];
    ExecAppend(c5, [StoreReturn(result)], e);
    ExecAppend(c4, [Call(b)], e);
    ExecAppend(c3, [PassStack], e);
    ExecAppend(c2, Pushes(Saves(Stack)), e);
    ExecAppend(c1, FakeFrame(), e);
    ExecOne(StoreReturn(result), Exec(c5, e));
    ExecOne(Call(b), Exec(c4, e));
    ExecOne(PassStack, Exec(c3, e));
    GoodAppend(c1, FakeFrame(), e);
    GoodAppend(c2, Pushes(Saves(Stack)), e);
    GoodAppend(c3, [PassStack], e);
    GoodAppend(c4, [Call(b)], e);
    GoodAppend(c5, [StoreReturn(result)], e);
    GoodAppend(c6, EnterUserMode(), e);
  }

  // ----------------------------------------------------------------- programs

  /** A user program without interrupts: work in user mode and system calls. */
  ghost predicate PlainUser(ops: seq<Op>) {
    forall i :: 0 <= i < |ops| ==>
      ops[i].UserWork? || (ops[i].SysCall? && IsSysCall(ops[i].code))
  }

  ghost predicate IsSysCall(code: seq<Op>) {
    exists b, result :: WorkOnly(b) && code == SysCallCode(b, result)
  }

  lemma {:induction false} SysCallKeepsUser(code: seq<Op>, s: Machine)
    requires UserState(s) && IsSysCall(code)
    ensures GoodOp(SysCall(code), s) && UserState(ExecOp(SysCall(code), s))
  {
    hide ExecOp, Exec, SysCallCode, Good, WorkOnly, EnterSysCall;
    var b, result :| WorkOnly(b) && code == SysCallCode(b, result);
    SysCallReturns(s, b, result);
    SysCallIsGood(s, b, result);
  }

  lemma {:induction false} PlainUserIsGood(ops: seq<Op>, s: Machine)
    requires UserState(s) && PlainUser(ops)
    ensures Good(ops, s) && UserState(Exec(ops, s))
    decreases |ops|
  {
    if ops != [] {
      if ops[0].SysCall? { SysCallKeepsUser(ops[0].code, s); }
      hide IsSysCall;
      PlainUserIsGood(ops[1..], ExecOp(ops[0], s));
    }
  }

  /** User programs: from any user state, a program of user work and system calls
      with interrupts nested anywhere, in user mode, inside the system call code or
      inside each other, only paranoid ones around the swaps, ends as if no interrupt
      had arrived, in user mode with the user's GS base; and every system call
      function and handler body on the way has run with the control region.
      Registers, flags, pointers and bases agree whatever the stacks; so does every
      live word of user memory that is not the kernel stack's, and thus all of it if
      none is. */
  lemma {:induction false} UserProgramsAreUndisturbed(ops: seq<Op>, s: Machine)
    requires UserState(s) && Typed(ops) && Placed(ops, s) && PlainUser(Strip(ops))
    ensures Agree(Exec(ops, s), Exec(Strip(ops), s)) && Good(ops, s) && UserState(Exec(ops, s))
    ensures var u, t := Exec(ops, s), Exec(Strip(ops), s);
      && (forall a: int :: a >= u.sp.addr && !Mapped(u, a) ==> Word(u, User(a)) == Word(t, User(a)))
      && (Apart(u) ==> forall a: int :: a >= u.sp.addr ==> Word(u, User(a)) == Word(t, User(a)))
  {
    hide Exec, Good, Strip, Typed, Placed, PlainUser, Agree, UserState;
    PlainUserIsGood(Strip(ops), s);
    AgreeRefl(s);
    UserStateIsSound(s);
    InterruptsAreTransparent(ops, s, s);
    var u, t := Exec(ops, s), Exec(Strip(ops), s);
    UserStateAgrees(u, t);
    UserWordsAgree(u, t);
    ApartIsUnmapped(u);
  }

  /** The user's live stack words are all outside the mapped kernel stack. */
  predicate Apart(s: Machine) { s.window.words == 0 || s.window.top <= s.sp.addr }

  lemma {:induction false} ApartIsUnmapped(s: Machine)
    ensures Apart(s) <==> forall a: int :: a >= s.sp.addr ==> !Mapped(s, a)
  {
    if !Apart(s) { assert Mapped(s, s.window.top - 1); }
  }

  lemma {:induction false} UserStateIsSound(s: Machine)
    requires UserState(s)
    ensures Sound(s)
  {
  }

  lemma {:induction false} UserStateAgrees(u: Machine, t: Machine)
    requires Agree(u, t) && UserState(t)
    ensures UserState(u)
  {
  }

  lemma {:induction false} UserWordsAgree(u: Machine, t: Machine)
    requires Agree(u, t) && UserState(u)
    ensures forall a: int :: a >= u.sp.addr && !Mapped(u, a) ==> Word(u, User(a)) == Word(t, User(a))
  {
    forall a: int | a >= u.sp.addr && !Mapped(u, a) ensures Word(u, User(a)) == Word(t, User(a)) {
      assert Live(u, User(a));
    }
  }

  // -------------------------------------------------------------- first entry

  const USER_FLAGS: int := 0x200

  /** The frame a new context starts with: zeroed registers, interrupts enabled. */
  function InitialFrame(rip: int, stack: Pointer): seq<int> {
    seq(15, _ => 0) + [rip, USER_CS, USER_FLAGS, Encode(stack), USER_SS]
  }

  /** A new context that falls through to the exit path starts in a user state, on
      its own stack, with interrupts enabled and nothing of the kernel's in its
      registers. */
  lemma {:induction false} FirstEntryIsUser(w: Machine, rip: int, stack: Pointer)
    requires w.gs == w.pcr && Words(w, 20) == InitialFrame(rip, stack) && stack.User?
    ensures var t := Exec(EnterUserMode(), w);
      && UserState(t) && t.sp == stack && t.rflags == USER_FLAGS && t.rip == SignExtend48(rip)
      && forall r: Reg :: r != Rcx && r != R11 ==> Get(t.regs, r) == 0
  {
    hide Exec, EnterUserMode, Words, SignExtend48, Encode, Decode;
    ExitLoadsFrame(w);
    EncodeRoundTrip(stack);
  }
}
