/** The system call entry and exit, first entry into user mode, and user programs
    with system calls and interrupts anywhere. */
module SystemCalls {
  import opened InterruptMachine
  import opened Interrupts
  import opened InterruptNesting

  // ------------------------------------------------------------- the exit path

  /** The register values in a full frame of twenty words. */
  function FrameReg(ws: seq<int>, r: Reg): int
    requires |ws| == 20
  {
    ws[Slot(r)]
  }

  /** The machine the exit path arrives at. */
  ghost predicate Arrived(w: Machine, ws: seq<int>, t: Machine)
    requires |ws| == 20
  {
    var slow := TrapFlagSet(ws[17]);
    && (forall r: Reg :: r != Rcx && r != R11 ==> Get(t.regs, r) == FrameReg(ws, r))
    && Get(t.regs, Rcx) == (if slow then 0 else SignExtend48(ws[15]))
    && Get(t.regs, R11) == (if slow then 0 else ws[17])
    && t.rip == (if slow then ws[15] else SignExtend48(ws[15]))
    && t.cs == (if slow then ws[16] else USER_CS) && t.rflags == ws[17]
    && t.sp == Decode(ws[18]) && t.ss == (if slow then ws[19] else USER_SS)
    && t.gs == w.kernelGs && t.kernelGs == w.gs
    && t.pcr == w.pcr && t.stackTop == w.stackTop && t.tmp == w.tmp && t.userTop == w.userTop
    && t.mem == w.mem && t.window == w.window
  }

  const FAST: seq<Op> := [Pop(Rcx), SignExtendRcx, DropWord, Pop(R11), PopStackPointer, SysRet]

  lemma {:induction false} RestoresBySlot()
    ensures |Restores(Stack)| == 15 && Distinct(Restores(Stack))
    ensures forall q: Reg :: Slot(q) < 15 && Restores(Stack)[Slot(q)] == q
  {
    hide Restores, Full, Saves;
    RestoresIsFull(Stack);
    RestoresMirrorSaves(Stack);
    FullIsBySlot();
  }

  lemma {:induction false} PopsFull(w: Machine)
    ensures var ws := Words(w, 20);
      var r := Exec(Pops(Restores(Stack)), w);
      && |ws| == 20 && SameCore(w, r) && r.mem == w.mem
      && Words(r, 5) == ws[15..] && (forall q: Reg :: Get(r.regs, q) == FrameReg(ws, q))
      && r.sp == Above(w.sp, 15)
  {
    hide Words, Exec, Restores, Pops, Slot;
    RestoresBySlot();
    var rs := Restores(Stack);
    PopsWork(rs, w, 5);
    forall q: Reg ensures Get(Exec(Pops(rs), w).regs, q) == Words(w, 20)[Slot(q)] {
      assert Get(Exec(Pops(rs), w).regs, rs[Slot(q)]) == Words(w, 20)[Slot(q)];
    }
  }

  lemma {:induction false} WordsAt(r: Machine, k: nat, n: nat)
    requires k < n
    ensures |Words(r, n)| == n && Word(r, Above(r.sp, k)) == Words(r, n)[k]
  {
  }

  /** Registers and the stack pointer have no part in what a word is. */
  lemma {:induction false} SameWord(r: Machine, a: Machine, p: Pointer)
    requires a.mem == r.mem && a.window == r.window && a.stackTop == r.stackTop
    ensures Word(a, p) == Word(r, p)
  {
  }

  lemma {:induction false} ExecThree(a: Op, b: Op, c: Op, s: Machine)
    ensures Exec([a, b, c], s) == ExecOp(c, ExecOp(b, ExecOp(a, s)))
  {
    assert [a, b, c][1..] == [b, c];
    ExecTwo(b, c, ExecOp(a, s));
  }

  function FastFirst(r: Machine): Machine { ExecOp(DropWord, ExecOp(SignExtendRcx, ExecOp(Pop(Rcx), r))) }

  function FastLast(a: Machine): Machine { ExecOp(SysRet, ExecOp(PopStackPointer, ExecOp(Pop(R11), a))) }

  lemma {:induction false} FastFirstIs(r: Machine, f: seq<int>)
    requires Words(r, 5) == f
    ensures |f| == 5 && FastFirst(r) == r.(regs := r.regs[Rcx := SignExtend48(f[0])], sp := Above(r.sp, 2))
  {
    WordsAt(r, 0, 5);
    hide Words, SignExtend48;
    assert Above(r.sp, 0) == r.sp;
    assert r.regs[Rcx := f[0]][Rcx := SignExtend48(f[0])] == r.regs[Rcx := SignExtend48(f[0])];
  }

  lemma {:induction false} FastLastIs(r: Machine, a: Machine, f: seq<int>)
    requires Words(r, 5) == f && a == r.(regs := a.regs, sp := Above(r.sp, 2)) && R11 != Rcx
    ensures |f| == 5 && FastLast(a) ==
      a.(regs := a.regs[R11 := f[2]], rip := Get(a.regs, Rcx),
         rflags := f[2], cs := USER_CS, ss := USER_SS, sp := Decode(f[3]))
  {
    WordsAt(r, 2, 5);
    WordsAt(r, 3, 5);
    hide Words, Decode, Word;
    assert Above(a.sp, 1) == Above(r.sp, 3);
    var b := ExecOp(Pop(R11), a);
    SameWord(r, a, Above(r.sp, 2));
    SameWord(r, b, Above(r.sp, 3));
  }

  /** The fast return: RCX and R11 carry the return address and the flags. */
  lemma {:induction false} FastReturn(r: Machine, f: seq<int>)
    requires Words(r, 5) == f
    ensures |f| == 5 && Exec(FAST, r) ==
      r.(regs := r.regs[Rcx := SignExtend48(f[0])][R11 := f[2]], rip := SignExtend48(f[0]), rflags := f[2],
         cs := USER_CS, ss := USER_SS, sp := Decode(f[3]))
  {
    hide Words, SignExtend48, Decode, FastFirst, FastLast;
    FastFirstIs(r, f);
    var a := FastFirst(r);
    FastLastIs(r, a, f);
    FastSteps(r);
    hide Exec;
  }

  lemma {:induction false} FastSteps(r: Machine)
    ensures Exec(FAST, r) == FastLast(FastFirst(r))
  {
    hide ExecOp;
    var a, b := [Pop(Rcx), SignExtendRcx, DropWord], [Pop(R11), PopStackPointer, SysRet];
    assert FAST == a + b;
    ExecAppend(a, b, r);
    ExecThree(Pop(Rcx), SignExtendRcx, DropWord, r);
    ExecThree(Pop(R11), PopStackPointer, SysRet, FastFirst(r));
    hide Exec;
  }

  lemma {:induction false} SlowReturn(r: Machine, f: seq<int>)
    requires Words(r, 5) == f
    ensures |f| == 5 && Exec([ClearRcxR11, Iret], r) ==
      r.(regs := r.regs[Rcx := 0][R11 := 0], rip := f[0], cs := f[1], rflags := f[2], sp := Decode(f[3]), ss := f[4])
  {
    WordsAt(r, 0, 5);
    WordsAt(r, 1, 5);
    WordsAt(r, 2, 5);
    WordsAt(r, 3, 5);
    WordsAt(r, 4, 5);
    ExecTwo(ClearRcxR11, Iret, r);
    hide Words, Decode, Exec, Word;
    assert Above(r.sp, 0) == r.sp;
    var a := ExecOp(ClearRcxR11, r);
    SameWord(r, a, r.sp);
    SameWord(r, a, Above(r.sp, 1));
    SameWord(r, a, Above(r.sp, 2));
    SameWord(r, a, Above(r.sp, 3));
    SameWord(r, a, Above(r.sp, 4));
  }

  lemma {:induction false} ExitSteps(w: Machine)
    ensures Exec(EnterUserMode(), w) ==
      ExecOp(ReturnBranch([ClearRcxR11, Iret], FAST), Swapped(Exec(Pops(Restores(Stack)), w)))
  {
    hide Pops, Restores;
    var r := Exec(Pops(Restores(Stack)), w);
    assert EnterUserMode() == Pops(Restores(Stack)) + [SwapGs, ReturnBranch([ClearRcxR11, Iret], FAST)];
    ExecAppend(Pops(Restores(Stack)), [SwapGs, ReturnBranch([ClearRcxR11, Iret], FAST)], w);
    ExecTwo(SwapGs, ReturnBranch([ClearRcxR11, Iret], FAST), r);
    hide Exec;
  }

  /** The exit path loads the frame: all registers but RCX and R11, which the
      return instruction uses, the user's stack, and swaps the GS bases. */
  lemma {:induction false} ExitLoadsFrame(w: Machine)
    ensures |Words(w, 20)| == 20 && Arrived(w, Words(w, 20), Exec(EnterUserMode(), w))
  {
    hide Exec, Words, ExecOp, Pops, Restores, Slot, SignExtend48, Decode, TrapFlagSet, EnterUserMode;
    var ws := Words(w, 20);
    PopsFull(w);
    var r := Exec(Pops(Restores(Stack)), w);
    var u := Swapped(r);
    SwapWords(r, 5);
    WordsAt(u, 2, 5);
    ExitSteps(w);
    BranchIs(u);
    var t := Exec(EnterUserMode(), w);
    if TrapFlagSet(ws[17]) {
      SlowReturn(u, ws[15..]);
      assert forall q: Reg :: q != Rcx && q != R11 ==> Get(t.regs, q) == Get(r.regs, q);
    } else {
      FastReturn(u, ws[15..]);
      assert forall q: Reg :: q != Rcx && q != R11 ==> Get(t.regs, q) == Get(r.regs, q);
    }
  }

  lemma {:induction false} SwapWords(r: Machine, n: nat)
    ensures Words(Swapped(r), n) == Words(r, n)
  {
  }

  lemma {:induction false} BranchIs(u: Machine)
    ensures ExecOp(ReturnBranch([ClearRcxR11, Iret], FAST), u) ==
      if TrapFlagSet(Word(u, Above(u.sp, 2))) then Exec([ClearRcxR11, Iret], u) else Exec(FAST, u)
  {
    hide Exec;
  }

  // ----------------------------------------------------------- the entry path

  /** User mode as the kernel sets it up. */
  predicate UserState(s: Machine) {
    s.cs == USER_CS && s.ss == USER_SS && s.sp.User? && s.kernelGs == s.pcr
  }

  /** On the kernel stack, with the control region in place. */
  function OnKernelStack(s: Machine): Machine {
    EnterSysCall(s).(gs := s.pcr, kernelGs := s.gs, tmp := Encode(s.sp), sp := Kernel(s.stackTop))
  }

  lemma {:induction false} SwitchStackIs(s: Machine)
    requires UserState(s)
    ensures Exec(SwitchStack(), EnterSysCall(s)) == OnKernelStack(s)
    ensures Good(SwitchStack(), EnterSysCall(s))
  {
    var e := EnterSysCall(s);
    var a := ExecOp(SwapGs, e);
    var b := ExecOp(SaveUserStack, a);
    ExecThree(SwapGs, SaveUserStack, LoadKernelStack, e);
    GoodOne(LoadKernelStack, b);
    assert SwitchStack()[1..] == [SaveUserStack, LoadKernelStack]
      && [SaveUserStack, LoadKernelStack][1..] == [LoadKernelStack];
  }

  function SysFrame(s: Machine): seq<int> { [s.rip, USER_CS, s.rflags, Encode(s.sp), USER_SS] }

  /** The state with the frame and the registers pushed. */
  function FramePushed(y: Machine): Machine {
    PushWord(PushWord(PushWord(PushWord(PushWord(y, USER_SS), y.tmp), Get(y.regs, R11)), USER_CS), Get(y.regs, Rcx))
  }

  lemma {:induction false} FakeFrameSteps(y: Machine)
    requires y.gs == y.pcr && !InUserMode(y)
    ensures Exec(FakeFrame(), y) == FramePushed(y) && Good(FakeFrame(), y)
  {
    hide Exec, ExecOp, Good, PushWord, Get, InUserMode;
    StoresAreGood(FakeFrame(), y);
    var t1 := PushWord(y, USER_SS);
    var t2 := PushWord(t1, y.tmp);
    var t3 := PushWord(t2, Get(y.regs, R11));
    var t4 := PushWord(t3, USER_CS);
    PushSteps(y, USER_SS);
    PushSteps(t1, y.tmp);
    PushSteps(t2, Get(y.regs, R11));
    PushSteps(t3, USER_CS);
    PushSteps(t4, USER_CS);
    var first, last := [PushConstant(USER_SS), PushSavedUserStack], [Push(R11), PushConstant(USER_CS), Push(Rcx)];
    assert FakeFrame() == first + last;
    ExecAppend(first, last, y);
    ExecTwo(PushConstant(USER_SS), PushSavedUserStack, y);
    ExecThree(Push(R11), PushConstant(USER_CS), Push(Rcx), t2);
  }

  lemma {:induction false} PushSteps(y: Machine, v: int)
    ensures ExecOp(PushConstant(v), y) == PushWord(y, v)
    ensures y.gs == y.pcr ==> ExecOp(PushSavedUserStack, y) == PushWord(y, y.tmp)
    ensures forall r: Reg :: ExecOp(Push(r), y) == PushWord(y, Get(y.regs, r))
    ensures var t := PushWord(y, v); t.gs == y.gs && t.pcr == y.pcr && t.tmp == y.tmp && t.regs == y.regs
  {
  }

  lemma {:induction false} StoresAreGood(ops: seq<Op>, y: Machine)
    requires !InUserMode(y)
    requires forall i :: 0 <= i < |ops| ==>
      ops[i].PushConstant? || ops[i].PushSavedUserStack? || ops[i].Push? || ops[i].StoreReturn?
    ensures Good(ops, y)
    decreases |ops|
  {
    if ops != [] { StoresAreGood(ops[1..], ExecOp(ops[0], y)); }
  }

  lemma {:induction false} FramePushedIs(y: Machine)
    requires y.sp.Kernel?
    ensures Words(FramePushed(y), 5) == [Get(y.regs, Rcx), USER_CS, Get(y.regs, R11), y.tmp, USER_SS]
    ensures SameCore(y, FramePushed(y)) && FramePushed(y).regs == y.regs && Grew(y, FramePushed(y), y.sp)
    ensures FramePushed(y).sp == Above(y.sp, -5)
  {
    var t1 := PushWord(y, USER_SS);
    var t2 := PushWord(t1, y.tmp);
    var t3 := PushWord(t2, Get(y.regs, R11));
    var t4 := PushWord(t3, USER_CS);
    var t5 := PushWord(t4, Get(y.regs, Rcx));
    PushAdds(y, USER_SS, 0);
    PushAdds(t1, y.tmp, 1);
    PushAdds(t2, Get(y.regs, R11), 2);
    PushAdds(t3, USER_CS, 3);
    PushAdds(t4, Get(y.regs, Rcx), 4);
    assert Words(y, 0) == [];
    FramePushedKeeps(y);
    hide PushWord, Words;
  }

  lemma {:induction false} FramePushedKeeps(y: Machine)
    requires y.sp.Kernel?
    ensures SameCore(y, FramePushed(y)) && FramePushed(y).regs == y.regs && Grew(y, FramePushed(y), y.sp)
    ensures FramePushed(y).sp == Above(y.sp, -5)
  {
  }

  lemma {:induction false} StoreReturnIs(c: Machine, v: int, n: nat, top: Pointer)
    requires Grew(c, c, top) && n > 14 && Above(c.sp, 15).addr <= top.addr
    ensures var w := ExecOp(StoreReturn(v), c);
      && SameCore(c, w) && w.sp == c.sp && Grew(c, w, top) && Words(w, n) == Words(c, n)[14 := v]
  {
    var w := ExecOp(StoreReturn(v), c);
    CellIsUnder(c, Above(c.sp, RAX_OFFSET), top);
    forall k | 0 <= k < n ensures Words(w, n)[k] == Words(c, n)[14 := v][k] {
      if k != RAX_OFFSET { CellsDiffer(c, Above(c.sp, k), Above(c.sp, RAX_OFFSET)); }
    }
  }

  /** The state with a full frame and its address in RDI, and the state after the
      system call function has stored its result. */
  function AtFunction(s: Machine): Machine {
    ExecOp(PassStack, Exec(Pushes(Saves(Stack)), FramePushed(OnKernelStack(s))))
  }

  function AfterFunction(s: Machine, b: seq<Op>, result: int): Machine {
    ExecOp(StoreReturn(result), ExecOp(Call(b), AtFunction(s)))
  }

  lemma {:induction false} SavesLength()
    ensures |Saves(Stack)| == 15
  {
    SavesMirrorFull(Stack);
  }

  lemma {:induction false} FunctionKeepsFrame(s: Machine, b: seq<Op>, result: int)
    requires UserState(s) && WorkOnly(b)
    ensures var y, w := OnKernelStack(s), AfterFunction(s, b, result);
      && SameCore(y, w) && Grew(y, w, y.sp) && w.sp == Above(y.sp, -20)
      && |Pushed(y.regs, Saves(Stack))| == 15
      && Words(w, 20) == (Pushed(y.regs, Saves(Stack)) + SysFrame(s))[14 := result]
      && SameCore(y, Exec(Pushes(Saves(Stack)), FramePushed(y)))
      && SameCore(y, AtFunction(s)) && SameCore(y, ExecOp(Call(b), AtFunction(s)))
  {
    hide Exec, ExecOp, Words, Grew, Saves, Pushes, FramePushed;
    var y := OnKernelStack(s);
    GrewSelf(y);
    FramePushedIs(y);
    var f := FramePushed(y);
    SavesLength();
    PushedIs(y.regs, Saves(Stack));
    GrewAgain(y, f, y.sp);
    PushesWork(Saves(Stack), f, 5, y.sp);
    var p := Exec(Pushes(Saves(Stack)), f);
    GrewTrans(y, f, p, y.sp);
    PassStackKeeps(p);
    var x := ExecOp(PassStack, p);
    GrewAgain(y, p, y.sp);
    RegistersOnlyKeeps(p, x, 20, y.sp);
    GrewTrans(y, p, x, y.sp);
    GrewAgain(y, x, y.sp);
    CallKeeps(b, x, 20, y.sp);
    var c := ExecOp(Call(b), x);
    GrewTrans(y, x, c, y.sp);
    GrewAgain(y, c, y.sp);
    StoreReturnIs(c, result, 20, y.sp);
    GrewTrans(y, c, AfterFunction(s, b, result), y.sp);
    assert Words(p, 20) == Pushed(y.regs, Saves(Stack)) + SysFrame(s);
  }

  lemma {:induction false} GrewSelf(y: Machine)
    ensures Grew(y, y, y.sp)
  {
  }

  /** The machine a system call returns to: the caller's, but for the result in
      RAX and the return address and flags in RCX and R11. */
  ghost predicate SysReturned(s: Machine, result: int, t: Machine) {
    var slow := TrapFlagSet(s.rflags);
    && (forall r: Reg :: r != Rax && r != Rcx && r != R11 ==> Get(t.regs, r) == Get(s.regs, r))
    && Get(t.regs, Rax) == result
    && Get(t.regs, Rcx) == (if slow then 0 else SignExtend48(s.rip))
    && Get(t.regs, R11) == (if slow then 0 else s.rflags)
    && t.rip == (if slow then s.rip else SignExtend48(s.rip))
    && t.cs == s.cs && t.ss == s.ss && t.rflags == s.rflags && t.sp == s.sp
    && t.gs == s.gs && t.kernelGs == s.kernelGs && t.pcr == s.pcr && t.stackTop == s.stackTop
    && t.window == s.window
    && (forall c :: !Under(s, c, Kernel(s.stackTop)) ==> Read(t.mem, c) == Read(s.mem, c))
  }

  lemma {:induction false} EntryStages(s: Machine)
    requires UserState(s)
    ensures Exec(SwitchStack(), EnterSysCall(s)) == OnKernelStack(s)
    ensures Exec(FakeFrame(), OnKernelStack(s)) == FramePushed(OnKernelStack(s))
  {
    hide Exec, FakeFrame, FramePushed, SwitchStack, Good;
    SwitchStackIs(s);
    FakeFrameSteps(OnKernelStack(s));
  }

  lemma {:induction false} SysCallStages(s: Machine, b: seq<Op>, result: int)
    requires UserState(s)
    ensures Exec(SysCallCode(b, result), EnterSysCall(s)) == Exec(EnterUserMode(), AfterFunction(s, b, result))
  {
    hide Exec, ExecOp, SwitchStack, FakeFrame, Pushes, EnterUserMode;
    hide FramePushed, EnterSysCall, Good, OnKernelStack, UserState;
    EntryStages(s);
    var e := EnterSysCall(s);
    var c1 := SwitchStack();
    var c2 := c1 + FakeFrame();
    var c3 := c2 + Pushes(Saves(Stack));
    var c4 := c3 + [PassStack];
    var c5 := c4 + [Call(b)];
    var c6 := c5 + [StoreReturn(result)];
    ExecAppend(c6, EnterUserMode(), e);
    ExecAppend(c5, [StoreReturn(result)], e);
    ExecAppend(c4, [Call(b)], e);
    ExecAppend(c3, [PassStack], e);
    ExecAppend(c2, Pushes(Saves(Stack)), e);
    ExecAppend(c1, FakeFrame(), e);
    ExecOne(StoreReturn(result), Exec(c5, e));
    ExecOne(Call(b), Exec(c4, e));
    ExecOne(PassStack, Exec(c3, e));
  }

  /** The frame's words, register by register. */
  lemma {:induction false} SysWords(s: Machine, result: int)
    ensures var m := OnKernelStack(s).regs;
      && |Pushed(m, Saves(Stack))| == 15
      && var ws := (Pushed(m, Saves(Stack)) + SysFrame(s))[14 := result];
      && |ws| == 20 && ws[15..] == SysFrame(s) && FrameReg(ws, Rax) == result
      && forall r: Reg :: r != Rax && r != Rcx && r != R11 ==> FrameReg(ws, r) == Get(s.regs, r)
  {
    var m := OnKernelStack(s).regs;
    SavesMirrorFull(Stack);
    PushedIs(m, Saves(Stack));
    FullIsBySlot();
    hide Saves, Full, Pushed;
    var ws := (Pushed(m, Saves(Stack)) + SysFrame(s))[14 := result];
    forall r: Reg | r != Rax && r != Rcx && r != R11 ensures FrameReg(ws, r) == Get(s.regs, r) {
      assert Saves(Stack)[14 - Slot(r)] == r;
      assert Slot(r) < 14;
    }
  }

  lemma {:induction false} ArrivedIsReturned(s: Machine, result: int, w: Machine, ws: seq<int>, t: Machine)
    requires UserState(s) && |ws| == 20 && ws[15..] == SysFrame(s) && FrameReg(ws, Rax) == result
    requires forall r: Reg :: r != Rax && r != Rcx && r != R11 ==> FrameReg(ws, r) == Get(s.regs, r)
    requires SameCore(OnKernelStack(s), w) && Grew(OnKernelStack(s), w, OnKernelStack(s).sp) && Arrived(w, ws, t)
    ensures SysReturned(s, result, t)
  {
    hide FrameReg, SignExtend48, Encode, Decode, TrapFlagSet, Read, Get;
    EncodeRoundTrip(s.sp);
    var f := ws[15..];
    assert ws[15] == f[0] && ws[16] == f[1] && ws[17] == f[2] && ws[18] == f[3] && ws[19] == f[4];
  }

  lemma {:induction false} SysCallRuns(s: Machine, code: seq<Op>)
    ensures ExecOp(SysCall(code), s) == Exec(code, EnterSysCall(s))
  {
    hide Exec;
  }

  /** A system call returns to its caller with the result and nothing else changed
      but RCX and R11, and user words that are the kernel stack's. */
  lemma {:induction false} SysCallReturns(s: Machine, b: seq<Op>, result: int)
    requires UserState(s) && WorkOnly(b)
    ensures var t := ExecOp(SysCall(SysCallCode(b, result)), s);
      && SysReturned(s, result, t) && t.window == s.window && t.stackTop == s.stackTop
      && forall a: int :: !Mapped(s, a) ==> Word(t, User(a)) == Word(s, User(a))
  {
    hide Exec, ExecOp, AfterFunction, SysCallCode, EnterUserMode, EnterSysCall, Words, Saves, Pushed;
    hide WorkOnly, Arrived, SysReturned, SysFrame, FrameReg, Grew, SameCore, OnKernelStack;
    SysCallRuns(s, SysCallCode(b, result));
    SysCallStages(s, b, result);
    FunctionKeepsFrame(s, b, result);
    var w := AfterFunction(s, b, result);
    ExitLoadsFrame(w);
    SysWords(s, result);
    ArrivedIsReturned(s, result, w, Words(w, 20), Exec(EnterUserMode(), w));
    WordsReturned(s, result, Exec(EnterUserMode(), w));
  }

  lemma {:induction false} WordsReturned(s: Machine, result: int, t: Machine)
    requires SysReturned(s, result, t)
    ensures t.window == s.window && t.stackTop == s.stackTop
    ensures forall a: int :: !Mapped(s, a) ==> Word(t, User(a)) == Word(s, User(a))
  {
  }

  /** The return address survives exactly if it is canonical. */
  lemma {:induction false} CanonicalReturns(v: int)
    requires 0 <= v < 0x1_0000_0000_0000_0000
    ensures SignExtend48(v) == v <==> v < 0x8000_0000_0000 || v >= 0xFFFF_8000_0000_0000
  {
    var q := v / 0x1_0000_0000_0000;
    assert v == q * 0x1_0000_0000_0000 + v % 0x1_0000_0000_0000;
    if v >= 0xFFFF_8000_0000_0000 {
      assert q == 0xFFFF;
    }
  }
}
