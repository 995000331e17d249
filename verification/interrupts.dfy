/** Interrupts are transparent: whatever is interrupted, wherever it is
    interrupted and however deeply, goes on as if nothing had happened. */
module Interrupts {
  import opened InterruptMachine

  // ------------------------------------------------------- executing programs

  lemma {:induction false} ExecAppend(a: seq<Op>, b: seq<Op>, s: Machine)
    ensures Exec(a + b, s) == Exec(b, Exec(a, s))
    decreases |a|
  {
    if a == [] {
      assert a + b == b;
    } else {
      assert (a + b)[0] == a[0] && (a + b)[1..] == a[1..] + b;
      ExecAppend(a[1..], b, ExecOp(a[0], s));
    }
  }

  lemma {:induction false} ExecOne(op: Op, s: Machine)
    ensures Exec([op], s) == ExecOp(op, s)
  {
    assert [op][1..] == [];
  }

  lemma {:induction false} PushesStep(rs: seq<Reg>, s: Machine)
    requires rs != []
    ensures Exec(Pushes(rs), s) == Exec(Pushes(rs[1..]), PushWord(s, Get(s.regs, rs[0])))
  {
    assert Pushes(rs)[0] == Push(rs[0]) && Pushes(rs)[1..] == Pushes(rs[1..]);
  }

  lemma {:induction false} PopsStep(rs: seq<Reg>, s: Machine)
    requires rs != []
    ensures Exec(Pops(rs), s) == Exec(Pops(rs[1..]), Drop(SetReg(s, rs[0], Word(s, s.sp)), 1))
  {
    assert Pops(rs)[0] == Pop(rs[0]) && Pops(rs)[1..] == Pops(rs[1..]);
  }

  // ------------------------------------------------------------ stack contents

  /** The `n` words from the stack pointer upwards. */
  function Words(s: Machine, n: nat): seq<int> {
    seq(n, k => Word(s, Above(s.sp, k)))
  }

  /** Different addresses of one stack lead to different cells. */
  lemma {:induction false} CellsDiffer(s: Machine, p: Pointer, q: Pointer)
    requires p.Kernel? == q.Kernel? && p != q
    ensures Cell(s, p) != Cell(s, q)
  {
  }

  /** Addresses below `top`, and no others of its stack, lead to cells under it. */
  lemma {:induction false} CellIsUnder(s: Machine, p: Pointer, top: Pointer)
    requires p.Kernel? == top.Kernel?
    ensures Under(s, Cell(s, p), top) <==> p.addr < top.addr
  {
  }

  lemma {:induction false} PushAdds(s: Machine, v: int, n: nat)
    ensures Words(PushWord(s, v), n + 1) == [v] + Words(s, n)
  {
    var t := PushWord(s, v);
    forall k | 0 <= k < n + 1 ensures Words(t, n + 1)[k] == ([v] + Words(s, n))[k] {
      var p := Above(t.sp, k);
      assert Cell(t, p) == Cell(s, p);
      if k > 0 {
        assert p == Above(s.sp, k - 1);
        CellsDiffer(s, p, t.sp);
      }
    }
  }

  lemma {:induction false} DropRemoves(s: Machine, n: nat)
    requires n >= 1
    ensures Words(Drop(s, 1), n - 1) == Words(s, n)[1..]
  {
  }

  /** Registers `rs` as they lie on the stack after being pushed in order. */
  function Pushed(m: RegFile, rs: seq<Reg>): seq<int> {
    if rs == [] then [] else Pushed(m, rs[1..]) + [Get(m, rs[0])]
  }

  /** Everything but the stack pointer and stack memory. */
  predicate SameCore(s: Machine, t: Machine) {
    && t.rip == s.rip && t.cs == s.cs && t.rflags == s.rflags && t.ss == s.ss
    && t.gs == s.gs && t.kernelGs == s.kernelGs
    && t.userTop == s.userTop && t.tmp == s.tmp && t.pcr == s.pcr && t.stackTop == s.stackTop
    && t.window == s.window
  }

  /** `t` is below `s` on the same stack and everything from `top` up is untouched. */
  ghost predicate Grew(s: Machine, t: Machine, top: Pointer) {
    && s.sp.Kernel? == t.sp.Kernel? == top.Kernel? && t.sp.addr <= top.addr && s.sp.addr <= top.addr
    && t.window == s.window && t.stackTop == s.stackTop
    && forall c :: !Under(s, c, top) ==> Read(t.mem, c) == Read(s.mem, c)
  }

  lemma {:induction false} GrewTrans(s: Machine, t: Machine, u: Machine, top: Pointer)
    requires Grew(s, t, top) && Grew(t, u, top)
    ensures Grew(s, u, top)
  {
  }

  lemma {:induction false} PushGrows(s: Machine, v: int, top: Pointer)
    requires Grew(s, s, top)
    ensures Grew(s, PushWord(s, v), top)
  {
    CellIsUnder(s, Above(s.sp, -1), top);
  }

  lemma {:induction false} PushesWork(rs: seq<Reg>, s: Machine, n: nat, top: Pointer)
    requires Grew(s, s, top)
    ensures var t := Exec(Pushes(rs), s);
      && t.regs == s.regs && SameCore(s, t) && Grew(s, t, top)
      && t.sp == Above(s.sp, -|rs|)
      && Words(t, |rs| + n) == Pushed(s.regs, rs) + Words(s, n)
    decreases |rs|
  {
    if rs == [] {
      assert Pushes(rs) == [];
    } else {
      hide Exec, Words, Grew, Pushes;
      var v := Get(s.regs, rs[0]);
      var u := PushWord(s, v);
      PushesStep(rs, s);
      PushAdds(s, v, n);
      PushGrows(s, v, top);
      PushesWork(rs[1..], u, n + 1, top);
      GrewTrans(s, u, Exec(Pushes(rs), s), top);
      assert Pushed(s.regs, rs) + Words(s, n) == Pushed(s.regs, rs[1..]) + ([v] + Words(s, n));
      assert |rs| + n == |rs[1..]| + (n + 1);
    }
  }

  ghost predicate Distinct(rs: seq<Reg>) {
    forall i, j :: 0 <= i < j < |rs| ==> rs[i] != rs[j]
  }

  lemma {:induction false} PopsWork(rs: seq<Reg>, s: Machine, n: nat)
    requires Distinct(rs)
    ensures var t := Exec(Pops(rs), s);
      && SameCore(s, t) && t.mem == s.mem
      && t.sp == Above(s.sp, |rs|)
      && |Words(s, |rs| + n)| == |rs| + n && Words(t, n) == Words(s, |rs| + n)[|rs|..]
      && (forall k :: 0 <= k < |rs| ==> Get(t.regs, rs[k]) == Words(s, |rs| + n)[k])
      && (forall r :: r !in rs ==> Get(t.regs, r) == Get(s.regs, r))
    decreases |rs|
  {
    if rs == [] {
      assert Pops(rs) == [];
    } else {
      hide Exec, Words, Pops, Word;
      var u := Drop(SetReg(s, rs[0], Word(s, s.sp)), 1);
      var t := Exec(Pops(rs), s);
      PopsStep(rs, s);
      PopsWork(rs[1..], u, n);
      PopMoves(s, rs[0], |rs| + n);
      assert Words(s, |rs| + n)[1..][|rs| - 1..] == Words(s, |rs| + n)[|rs|..];
      forall k | 0 <= k < |rs| ensures Get(t.regs, rs[k]) == Words(s, |rs| + n)[k] {
        if k > 0 { assert rs[1..][k - 1] == rs[k]; }
      }
      forall r | r !in rs ensures Get(t.regs, r) == Get(s.regs, r) {
        assert r !in rs[1..] && r != rs[0];
      }
    }
  }

  lemma {:induction false} PopMoves(s: Machine, r: Reg, n: nat)
    requires n >= 1
    ensures Words(Drop(SetReg(s, r, Word(s, s.sp)), 1), n - 1) == Words(s, n)[1..]
    ensures Words(s, n)[0] == Word(s, s.sp) && |Words(s, n)| == n
  {
    DropRemoves(SetReg(s, r, Word(s, s.sp)), n);
    assert Words(SetReg(s, r, Word(s, s.sp)), n) == Words(s, n);
  }

  // ------------------------------------------------------------ handler bodies

  /** A body with no interrupt in it: kernel code at work. */
  predicate WorkOnly(b: seq<Op>) {
    forall i :: 0 <= i < |b| ==> b[i].Work?
  }

  lemma {:induction false} WorkGrows(op: Op, s: Machine, top: Pointer)
    requires op.Work? && Grew(s, s, top)
    ensures Grew(s, ExecOp(op, s), top) && SameCore(s, ExecOp(op, s))
  {
  }

  lemma {:induction false} BodyGrows(b: seq<Op>, s: Machine, top: Pointer)
    requires WorkOnly(b) && Grew(s, s, top)
    ensures Grew(s, Exec(b, s), top) && SameCore(s, Exec(b, s))
    decreases |b|
  {
    if b != [] {
      var u := ExecOp(b[0], s);
      WorkGrows(b[0], s, top);
      hide ExecOp, Grew;
      GrewAgain(s, u, top);
      BodyGrows(b[1..], u, top);
      GrewTrans(s, u, Exec(b, s), top);
    }
  }

  lemma {:induction false} GrewAgain(s: Machine, u: Machine, top: Pointer)
    requires Grew(s, u, top)
    ensures Grew(u, u, top)
  {
  }

  lemma {:induction false} GrewKeepsWords(s: Machine, t: Machine, n: nat)
    requires Grew(s, t, s.sp)
    ensures Words(t.(sp := s.sp), n) == Words(s, n)
  {
    forall k | 0 <= k < n ensures Words(t.(sp := s.sp), n)[k] == Words(s, n)[k] {
      CellIsUnder(s, Above(s.sp, k), s.sp);
    }
  }

  /** A called body leaves the stack from its frame up, the callee-saved registers
      and everything but registers and stack as they were. */
  lemma {:induction false} CallKeeps(b: seq<Op>, s: Machine, n: nat, top: Pointer)
    requires WorkOnly(b) && Grew(s, s, top)
    ensures var t := ExecOp(Call(b), s);
      && SameCore(s, t) && t.sp == s.sp && Grew(s, t, top) && Words(t, n) == Words(s, n)
      && forall r :: r in CALLEE_SAVED ==> Get(t.regs, r) == Get(s.regs, r)
  {
    BodyGrows(b, s, top);
    BodyGrows(b, s, s.sp);
    var u, t := Exec(b, s), ExecOp(Call(b), s);
    assert t == Returned(s, u);
    hide Exec, ExecOp;
    GrewKeepsWords(s, u, n);
    assert Words(t, n) == Words(u.(sp := s.sp), n);
  }

  // ---------------------------------------------------------------- the frame

  /** Where a handler finds itself when it starts: the interrupted machine with
      the stack pointer moved to where the frame goes. */
  function OnStack(s: Machine): Machine {
    s.(sp := EntryPointer(s), userTop := if InUserMode(s) then s.sp.addr else s.userTop)
  }

  function Frame(s: Machine): seq<int> { [s.rip, s.cs, s.rflags, Encode(s.sp), s.ss] }

  lemma {:induction false} EnterPushesFrame(s: Machine, kind: Kind)
    ensures var e := Enter(s, kind);
      && e.regs == s.regs && e.gs == s.gs && e.kernelGs == s.kernelGs && e.cs == KERNEL_CS
      && e.tmp == s.tmp && e.pcr == s.pcr && e.stackTop == s.stackTop && e.userTop == OnStack(s).userTop
      && e.window == s.window
      && e.sp == Above(EntryPointer(s), if kind.Error? then -6 else -5)
      && Grew(OnStack(s), e, EntryPointer(s)) && Grew(e, e, EntryPointer(s))
      && Words(e, if kind.Error? then 6 else 5) == (if kind.Error? then [kind.code] else []) + Frame(s)
  {
    EnterGrows(s, kind);
    FiveWords(s);
    var t := PushFrame(s);
    var g := t.(cs := KERNEL_CS, ss := 0, rip := 0, rflags := 0);
    hide PushWord, Grew;
    assert Enter(s, kind) == if kind.Error? then PushWord(g, kind.code) else g;
    assert Words(g, 5) == Words(t, 5);
    if kind.Error? { PushAdds(g, kind.code, 5); }
    ErrorPushKeeps(g, if kind.Error? then kind.code else 0);
  }

  function PushFrame(s: Machine): Machine {
    PushWord(PushWord(PushWord(PushWord(PushWord(OnStack(s), s.ss), Encode(s.sp)), s.rflags), s.cs), s.rip)
  }

  lemma {:induction false} ErrorPushKeeps(g: Machine, v: int)
    ensures SameCore(g, PushWord(g, v)) && PushWord(g, v).regs == g.regs
  {
  }

  lemma {:induction false} FiveWords(s: Machine)
    ensures Words(PushFrame(s), 5) == Frame(s)
    ensures SameCore(OnStack(s), PushFrame(s)) && PushFrame(s).regs == s.regs
  {
    var t0 := OnStack(s);
    ErrorPushKeeps(t0, s.ss);
    var t1 := PushWord(t0, s.ss);
    PushAdds(t0, s.ss, 0);
    ErrorPushKeeps(t1, Encode(s.sp));
    var t2 := PushWord(t1, Encode(s.sp));
    PushAdds(t1, Encode(s.sp), 1);
    ErrorPushKeeps(t2, s.rflags);
    var t3 := PushWord(t2, s.rflags);
    PushAdds(t2, s.rflags, 2);
    ErrorPushKeeps(t3, s.cs);
    var t4 := PushWord(t3, s.cs);
    PushAdds(t3, s.cs, 3);
    ErrorPushKeeps(t4, s.rip);
    PushAdds(t4, s.rip, 4);
    assert Words(t0, 0) == [];
    hide PushWord, Words;
  }

  lemma {:induction false} EnterGrows(s: Machine, kind: Kind)
    ensures Grew(OnStack(s), Enter(s, kind), EntryPointer(s)) && Grew(Enter(s, kind), Enter(s, kind), EntryPointer(s))
    ensures Enter(s, kind).sp == Above(EntryPointer(s), if kind.Error? then -6 else -5)
  {
  }

  lemma {:induction false} EncodeRoundTrip(p: Pointer)
    ensures Decode(Encode(p)) == p
  {
  }

  // ------------------------------------------------------- saving and restoring

  lemma {:induction false} PushedIs(m: RegFile, rs: seq<Reg>)
    ensures |Pushed(m, rs)| == |rs|
    ensures forall k :: 0 <= k < |rs| ==> Pushed(m, rs)[k] == Get(m, rs[|rs| - 1 - k])
  {
    if rs != [] {
      PushedIs(m, rs[1..]);
    }
  }

  /** The slot of each register, counted from the top of a full frame. */
  function Slot(r: Reg): nat {
    match r
    case R15 => 0 case R14 => 1 case R13 => 2 case R12 => 3 case Rbp => 4 case Rbx => 5
    case R11 => 6 case R10 => 7 case R9 => 8 case R8 => 9 case Rsi => 10 case Rdi => 11
    case Rdx => 12 case Rcx => 13 case Rax => 14
  }

  function Full(): seq<Reg> { [R15, R14, R13, R12, Rbp, Rbx, R11, R10, R9, R8, Rsi, Rdi, Rdx, Rcx, Rax] }

  lemma {:induction false} FullIsBySlot()
    ensures |Full()| == 15
    ensures forall k :: 0 <= k < 15 ==> Slot(Full()[k]) == k
    ensures forall r: Reg :: Slot(r) < 15 && Full()[Slot(r)] == r
  {
  }

  lemma {:induction false} RestoresIsFull(kind: Kind)
    ensures |Full()| == 15 && Restores(kind) == if kind.Plain? then Full()[6..] else Full()
  {
  }

  lemma {:induction false} SavesMirrorFull(kind: Kind)
    ensures |Full()| == 15
    ensures kind.Plain? ==> |Saves(kind)| == 9 && forall k :: 0 <= k < 9 ==> Full()[6..][k] == Saves(kind)[8 - k]
    ensures kind.Error? ==> |Saves(kind)| == 14 && forall k :: 0 <= k < 14 ==> Full()[k] == Saves(kind)[13 - k]
    ensures kind.Stack? || kind.Paranoid? ==>
      |Saves(kind)| == 15 && forall k :: 0 <= k < 15 ==> Full()[k] == Saves(kind)[14 - k]
  {
    SavesListed(kind);
    hide Saves;
  }

  lemma {:induction false} SavesListed(kind: Kind)
    ensures kind.Plain? ==> Saves(kind) == [Rax, Rcx, Rdx, Rdi, Rsi, R8, R9, R10, R11]
    ensures kind.Error? ==> Saves(kind) == [Rcx, Rdx, Rdi, Rsi, R8, R9, R10, R11, Rbx, Rbp, R12, R13, R14, R15]
    ensures kind.Stack? || kind.Paranoid? ==>
      Saves(kind) == [Rax, Rcx, Rdx, Rdi, Rsi, R8, R9, R10, R11, Rbx, Rbp, R12, R13, R14, R15]
  {
  }

  /** The pop order is the push order reversed; the error entry's slot for RAX is
      the one the error code was in. */
  lemma {:induction false} RestoresMirrorSaves(kind: Kind)
    ensures Distinct(Restores(kind))
    ensures |Restores(kind)| == |Saves(kind)| + if kind.Error? then 1 else 0
    ensures forall k :: 0 <= k < |Saves(kind)| ==> Restores(kind)[k] == Saves(kind)[|Saves(kind)| - 1 - k]
    ensures kind.Error? ==> Restores(kind)[|Saves(kind)|] == Rax && |Saves(kind)| == RAX_OFFSET
    ensures forall r: Reg :: r !in Restores(kind) ==> kind.Plain? && r in CALLEE_SAVED
  {
    RestoresCoverAll(kind);
    hide Full, Restores, Saves, CALLEE_SAVED;
    FullIsBySlot();
    RestoresIsFull(kind);
    SavesMirrorFull(kind);
    assert Full()[Slot(Rax)] == Rax;
  }

  lemma {:induction false} RestoresCoverAll(kind: Kind)
    ensures forall r: Reg :: r !in Restores(kind) ==> kind.Plain? && r in CALLEE_SAVED
  {
    hide Full, Restores, Saves;
    FullIsBySlot();
    RestoresIsFull(kind);
    forall r: Reg ensures r in Restores(kind) || (kind.Plain? && r in CALLEE_SAVED) {
      if !kind.Plain? {
        assert Restores(kind)[Slot(r)] == r;
      } else if Slot(r) >= 6 {
        assert Restores(kind)[Slot(r) - 6] == r;
      }
    }
  }

  // -------------------------------------------------------------- whole handlers

  /** The GS bases an entry can cope with: the fast entries need the swap state
      that the privilege level promises, the paranoid ones only that one of the
      two bases is the control region. */
  predicate GsFits(s: Machine, kind: Kind) {
    match kind
    case Paranoid => s.gs == s.pcr || s.kernelGs == s.pcr
    case _ => if InUserMode(s) then s.kernelGs == s.pcr else s.gs == s.pcr
  }

  /** After the prologue of a fast entry the control region is in place. */
  lemma {:induction false} PrologueSwaps(s: Machine, kind: Kind)
    requires GsFits(s, kind)
    ensures var e := Enter(s, kind);
      var p := Exec(Prologue(kind), e);
      && p == (if InUserMode(s) && !kind.Paranoid? then Swapped(e) else e)
      && (!kind.Paranoid? ==> p.gs == p.pcr)
  {
    EnterPushesFrame(s, kind);
    var e := Enter(s, kind);
    hide Enter, Grew;
    if !kind.Paranoid? {
      var offset := if kind.Error? then 2 else 1;
      assert Word(e, Above(e.sp, offset)) == Words(e, if kind.Error? then 6 else 5)[offset];
      ExecOne(SwapGsIfUser(offset), e);
    }
  }

  /** The state a handler's middle part starts in. */
  function AfterSaving(s: Machine, kind: Kind): Machine {
    Exec(Pushes(Saves(kind)), Exec(Prologue(kind), Enter(s, kind)))
  }

  /** The words between the stack pointer and the end of the frame by then. */
  function SavedWords(s: Machine, kind: Kind): seq<int> {
    Pushed(s.regs, Saves(kind)) + (if kind.Error? then [kind.code] else []) + Frame(s)
  }

  lemma {:induction false} SavedAll(s: Machine, kind: Kind)
    requires GsFits(s, kind)
    ensures var p := AfterSaving(s, kind);
      && p.regs == s.regs && Grew(OnStack(s), p, EntryPointer(s)) && Grew(p, p, EntryPointer(s))
      && Words(p, |SavedWords(s, kind)|) == SavedWords(s, kind)
      && SameCore(Exec(Prologue(kind), Enter(s, kind)), p)
      && Above(p.sp, |SavedWords(s, kind)|) == EntryPointer(s)
  {
    PrologueSwaps(s, kind);
    EnterPushesFrame(s, kind);
    PushedIs(s.regs, Saves(kind));
    var e := Enter(s, kind);
    var f := Exec(Prologue(kind), e);
    var n := if kind.Error? then 6 else 5;
    SwapKeepsStack(e, n, EntryPointer(s));
    hide Enter, Exec, Grew, Saves;
    PushesWork(Saves(kind), f, n, EntryPointer(s));
    GrewFrom(OnStack(s), e, f, EntryPointer(s));
    GrewTrans(OnStack(s), f, AfterSaving(s, kind), EntryPointer(s));
    GrewAgain(f, AfterSaving(s, kind), EntryPointer(s));
    assert SavedWords(s, kind) == Pushed(s.regs, Saves(kind)) + Words(e, n);
  }

  lemma {:induction false} SwapKeepsStack(e: Machine, n: nat, top: Pointer)
    requires Grew(e, e, top)
    ensures Words(Swapped(e), n) == Words(e, n) && Grew(Swapped(e), Swapped(e), top)
  {
  }

  lemma {:induction false} GrewFrom(s: Machine, e: Machine, f: Machine, top: Pointer)
    requires Grew(s, e, top) && (f == e || f == Swapped(e))
    ensures Grew(s, f, top)
  {
  }

  lemma {:induction false} ExecTwo(a: Op, b: Op, s: Machine)
    ensures Exec([a, b], s) == ExecOp(b, ExecOp(a, s))
  {
    assert [a, b][1..] == [b];
    ExecOne(b, ExecOp(a, s));
  }

  /** The paranoid entry compares the GS base with the control region's address. */
  function AfterCompare(p: Machine): Machine {
    ExecOp(CompareAndSetBl, ExecOp(ReadGsBase, ExecOp(SubtractGdtOffset, ExecOp(LoadGdtBase, p))))
  }

  lemma {:induction false} CompareSees(p: Machine)
    ensures var x := AfterCompare(p);
      && x == p.(regs := x.regs) && Get(x.regs, Rdi) == p.pcr && Get(x.regs, Rdx) == p.gs
      && Get(x.regs, Rbx) % 256 == (if p.gs == p.pcr then 1 else 0)
  {
    var x2 := ExecOp(SubtractGdtOffset, ExecOp(LoadGdtBase, p));
    assert x2 == p.(regs := x2.regs) && Get(x2.regs, Rdi) == p.pcr;
  }

  lemma {:induction false} CheckSteps(p: Machine)
    ensures Exec(BeforeCall(Paranoid), p) == ExecOp(PassStack, ExecOp(SwapGsUnlessEqual, AfterCompare(p)))
  {
    hide ExecOp;
    var a, b, c := [LoadGdtBase, SubtractGdtOffset], [ReadGsBase, CompareAndSetBl], [SwapGsUnlessEqual, PassStack];
    assert BeforeCall(Paranoid) == a + b + c;
    ExecAppend(a + b, c, p);
    ExecAppend(a, b, p);
    ExecTwo(LoadGdtBase, SubtractGdtOffset, p);
    ExecTwo(ReadGsBase, CompareAndSetBl, Exec(a, p));
    ExecTwo(SwapGsUnlessEqual, PassStack, Exec(b, Exec(a, p)));
    hide Exec;
  }

  /** The paranoid check: afterwards the control region is the GS base, the low
      byte of RBX says whether it was before, and the swap state follows it. */
  lemma {:induction false} ParanoidCheck(p: Machine)
    requires p.gs == p.pcr || p.kernelGs == p.pcr
    ensures var x := Exec(BeforeCall(Paranoid), p);
      && x.sp == p.sp && x.mem == p.mem && x.window == p.window
      && x.gs == x.pcr && x.pcr == p.pcr && x.stackTop == p.stackTop && x.tmp == p.tmp && x.userTop == p.userTop
      && x.rip == p.rip && x.cs == p.cs && x.rflags == p.rflags && x.ss == p.ss
      && Get(x.regs, Rbx) % 256 == (if p.gs == p.pcr then 1 else 0)
      && x.kernelGs == (if p.gs == p.pcr then p.kernelGs else p.gs)
  {
    hide Exec, AfterCompare;
    CheckSteps(p);
    CompareSees(p);
  }

  /** The words a body finds on the stack: the saved ones, with RAX in the place of
      an error code. */
  function WordsAtCall(kind: Kind, words: seq<int>, rax: int): seq<int>
    requires kind.Error? ==> |words| > 14
  {
    if kind.Error? then words[14 := rax] else words
  }

  /** An op that changes registers other than the stack pointer only. */
  ghost predicate RegistersOnly(p: Machine, x: Machine) {
    x.sp == p.sp && x.mem == p.mem && x.window == p.window && x.stackTop == p.stackTop
  }

  lemma {:induction false} RegistersOnlyKeeps(p: Machine, x: Machine, n: nat, top: Pointer)
    requires RegistersOnly(p, x) && Grew(p, p, top)
    ensures Words(x, n) == Words(p, n) && Grew(p, x, top)
  {
  }

  lemma {:induction false} PassStackKeeps(p: Machine)
    ensures RegistersOnly(p, ExecOp(PassStack, p)) && SameCore(p, ExecOp(PassStack, p))
  {
  }

  lemma {:induction false} ReachesCall(kind: Kind, p: Machine, n: nat, top: Pointer)
    requires Grew(p, p, top) && (kind.Error? ==> n > 14 && Above(p.sp, 15).addr <= top.addr)
    requires if kind.Paranoid? then p.gs == p.pcr || p.kernelGs == p.pcr else p.gs == p.pcr
    ensures var x := Exec(BeforeCall(kind), p);
      && x.gs == x.pcr && x.sp == p.sp && Grew(p, x, top)
      && Words(x, n) == WordsAtCall(kind, Words(p, n), Get(p.regs, Rax))
      && (!kind.Paranoid? ==> SameCore(p, x))
      && (kind.Plain? ==> x == p)
  {
    var x := Exec(BeforeCall(kind), p);
    match kind
    case Plain =>
    case Stack =>
      ExecOne(PassStack, p);
      PassStackKeeps(p);
      hide Exec, ExecOp, Grew, Words;
      RegistersOnlyKeeps(p, x, n, top);
    case Error(_) =>
      ExecTwo(ExchangeErrorCode, PassStack, p);
      ExchangeStores(p, n, top);
      var y := ExecOp(ExchangeErrorCode, p);
      assert y == Simple(ExchangeErrorCode, p);
      PassStackKeeps(y);
      hide Exec, ExecOp, Simple, Grew, Words;
      GrewAgain(p, y, top);
      RegistersOnlyKeeps(y, x, n, top);
      GrewTrans(p, y, x, top);
    case Paranoid =>
      ParanoidCheck(p);
      hide Exec, Grew, Words;
      RegistersOnlyKeeps(p, x, n, top);
  }

  lemma {:induction false} ExchangeStores(p: Machine, n: nat, top: Pointer)
    requires Grew(p, p, top) && n > 14 && Above(p.sp, 15).addr <= top.addr
    ensures var x := Simple(ExchangeErrorCode, p);
      && x.sp == p.sp && SameCore(p, x) && Grew(p, x, top)
      && Words(x, n) == Words(p, n)[14 := Get(p.regs, Rax)]
  {
    var x, v := Simple(ExchangeErrorCode, p), Get(p.regs, Rax);
    CellIsUnder(p, Above(p.sp, RAX_OFFSET), top);
    forall k | 0 <= k < n ensures Words(x, n)[k] == Words(p, n)[14 := v][k] {
      if k != RAX_OFFSET { CellsDiffer(p, Above(p.sp, k), Above(p.sp, RAX_OFFSET)); }
    }
  }

  /** From the saved registers to the body and back: the stack is as the body
      found it, and so are the GS bases the handler started with. */
  lemma {:induction false} CallsAndReturns(kind: Kind, b: seq<Op>, p: Machine, n: nat, top: Pointer)
    requires WorkOnly(b) && Grew(p, p, top) && (kind.Error? ==> n > 14 && Above(p.sp, 15).addr <= top.addr)
    requires if kind.Paranoid? then p.gs == p.pcr || p.kernelGs == p.pcr else p.gs == p.pcr
    ensures var q := Exec(AfterCall(kind), ExecOp(Call(b), Exec(BeforeCall(kind), p)));
      && SameCore(p, q) && q.sp == p.sp && Grew(p, q, top)
      && Words(q, n) == WordsAtCall(kind, Words(p, n), Get(p.regs, Rax))
      && (kind.Plain? ==> forall r :: r in CALLEE_SAVED ==> Get(q.regs, r) == Get(p.regs, r))
  {
    var x := Exec(BeforeCall(kind), p);
    var c := ExecOp(Call(b), x);
    var q := Exec(AfterCall(kind), c);
    ReachesCall(kind, p, n, top);
    GrewAgain(p, x, top);
    CallKeeps(b, x, n, top);
    GrewTrans(p, x, c, top);
    if kind.Paranoid? {
      ParanoidCheck(p);
      SwapBack(c);
      hide Exec, ExecOp, Grew, Words, WordsAtCall;
      GrewAgain(x, c, top);
      RegistersOnlyKeeps(c, q, n, top);
      GrewTrans(p, c, q, top);
    } else {
      assert q == c;
    }
  }

  lemma {:induction false} SwapBack(c: Machine)
    ensures Exec(AfterCall(Paranoid), c) == if Get(c.regs, Rbx) % 256 != 0 then c else Swapped(c)
  {
    ExecOne(SwapGsUnlessBl, c);
  }

  /** Popping gives every register the value it had when it was pushed. */
  lemma {:induction false} PopsRestore(kind: Kind, s: Machine, q: Machine)
    requires |SavedWords(s, kind)| == |Restores(kind)| + 5 && (kind.Error? ==> |SavedWords(s, kind)| > 14)
    requires Words(q, |SavedWords(s, kind)|) == WordsAtCall(kind, SavedWords(s, kind), Get(s.regs, Rax))
    requires kind.Plain? ==> forall r :: r in CALLEE_SAVED ==> Get(q.regs, r) == Get(s.regs, r)
    ensures var r := Exec(Pops(Restores(kind)), q);
      && SameRegs(r.regs, s.regs) && SameCore(q, r) && r.mem == q.mem
      && r.sp == Above(q.sp, |Restores(kind)|) && Words(r, 5) == Frame(s)
  {
    hide Words, Exec, Saves, Restores, WordsAtCall, SavedWords;
    var rs := Restores(kind);
    RestoresMirrorSaves(kind);
    PopsWork(rs, q, 5);
    var t, words := Exec(Pops(rs), q), Words(q, |rs| + 5);
    forall r: Reg ensures Get(t.regs, r) == Get(s.regs, r) {
      if r in rs {
        var k :| 0 <= k < |rs| && rs[k] == r;
        SavedWordAt(kind, s, k);
        assert Get(t.regs, rs[k]) == words[k];
      }
    }
    SavedFrame(kind, s);
  }

  lemma {:induction false} SavedWordAt(kind: Kind, s: Machine, k: nat)
    requires |SavedWords(s, kind)| == |Restores(kind)| + 5
    requires k < |Restores(kind)| && (kind.Error? ==> |SavedWords(s, kind)| > 14)
    ensures |WordsAtCall(kind, SavedWords(s, kind), Get(s.regs, Rax))| == |SavedWords(s, kind)|
    ensures WordsAtCall(kind, SavedWords(s, kind), Get(s.regs, Rax))[k] == Get(s.regs, Restores(kind)[k])
  {
    hide Saves, Restores;
    RestoresMirrorSaves(kind);
    PushedIs(s.regs, Saves(kind));
  }

  lemma {:induction false} SavedFrame(kind: Kind, s: Machine)
    requires |SavedWords(s, kind)| == |Restores(kind)| + 5 && (kind.Error? ==> |SavedWords(s, kind)| > 14)
    ensures |WordsAtCall(kind, SavedWords(s, kind), Get(s.regs, Rax))| == |SavedWords(s, kind)|
    ensures WordsAtCall(kind, SavedWords(s, kind), Get(s.regs, Rax))[|Restores(kind)|..] == Frame(s)
  {
    hide Saves, Restores;
    RestoresMirrorSaves(kind);
    PushedIs(s.regs, Saves(kind));
  }

  lemma {:induction false} SavedLength(s: Machine, kind: Kind)
    ensures |SavedWords(s, kind)| == |Restores(kind)| + 5
    ensures kind.Error? ==> |SavedWords(s, kind)| > 14
  {
    RestoresMirrorSaves(kind);
    PushedIs(s.regs, Saves(kind));
  }

  /** The return: swap back if the frame says user mode, and reload the frame. */
  lemma {:induction false} EpilogueReturns(kind: Kind, s: Machine, r: Machine)
    requires Words(r, 5) == Frame(s)
    ensures var t := Exec(Epilogue(kind), r);
      && t.rip == s.rip && t.cs == s.cs && t.rflags == s.rflags && t.sp == s.sp && t.ss == s.ss
      && t.regs == r.regs && t.mem == r.mem && t.window == r.window
      && t.tmp == r.tmp && t.pcr == r.pcr && t.stackTop == r.stackTop && t.userTop == r.userTop
      && t.gs == (if InUserMode(s) && !kind.Paranoid? then r.kernelGs else r.gs)
      && t.kernelGs == (if InUserMode(s) && !kind.Paranoid? then r.gs else r.kernelGs)
  {
    FrameWords(r, s);
    EncodeRoundTrip(s.sp);
    hide Words;
    if kind.Paranoid? {
      ExecOne(Iret, r);
    } else {
      ExecTwo(SwapGsIfUser(1), Iret, r);
    }
  }

  lemma {:induction false} FrameWords(r: Machine, s: Machine)
    requires Words(r, 5) == Frame(s)
    ensures Word(r, r.sp) == s.rip && Word(r, Above(r.sp, 1)) == s.cs && Word(r, Above(r.sp, 2)) == s.rflags
    ensures Word(r, Above(r.sp, 3)) == Encode(s.sp) && Word(r, Above(r.sp, 4)) == s.ss
  {
    assert Words(r, 5)[0] == s.rip && Words(r, 5)[1] == s.cs && Words(r, 5)[2] == s.rflags;
    assert Words(r, 5)[3] == Encode(s.sp) && Words(r, 5)[4] == s.ss;
    assert Above(r.sp, 0) == r.sp;
  }

  /** `t` is `s` again: every register, both GS bases, the privilege level and the
      stack pointer; stack memory differs at most below where the frame went. */
  ghost predicate Restored(s: Machine, t: Machine) {
    && SameRegs(t.regs, s.regs) && t.sp == s.sp
    && t.rip == s.rip && t.cs == s.cs && t.rflags == s.rflags && t.ss == s.ss
    && t.gs == s.gs && t.kernelGs == s.kernelGs
    && t.tmp == s.tmp && t.pcr == s.pcr && t.stackTop == s.stackTop && t.userTop == OnStack(s).userTop
    && t.window == s.window && Grew(OnStack(s), t.(sp := EntryPointer(s)), EntryPointer(s))
  }

  lemma {:induction false} CodeStages(kind: Kind, b: seq<Op>, e: Machine)
    ensures Exec(Code(kind, b), e) ==
      var p := Exec(Pushes(Saves(kind)), Exec(Prologue(kind), e));
      var q := Exec(AfterCall(kind), ExecOp(Call(b), Exec(BeforeCall(kind), p)));
      Exec(Epilogue(kind), Exec(Pops(Restores(kind)), q))
  {
    hide Exec, ExecOp, Prologue, Epilogue, BeforeCall, AfterCall, Saves, Restores, Pushes, Pops;
    var c1 := Prologue(kind);
    var c2 := c1 + Pushes(Saves(kind));
    var c3 := c2 + BeforeCall(kind);
    var c4 := c3 + [Call(b)];
    var c5 := c4 + AfterCall(kind);
    var c6 := c5 + Pops(Restores(kind));
    ExecAppend(c6, Epilogue(kind), e);
    ExecAppend(c5, Pops(Restores(kind)), e);
    ExecAppend(c4, AfterCall(kind), e);
    ExecAppend(c3, [Call(b)], e);
    ExecAppend(c2, BeforeCall(kind), e);
    ExecAppend(c1, Pushes(Saves(kind)), e);
    ExecOne(Call(b), Exec(c3, e));
  }

  /** From user mode the user's words stay, but for those that are the kernel
      stack's. */
  lemma {:induction false} RestoredWords(s: Machine, t: Machine)
    requires Restored(s, t)
    ensures InUserMode(s) ==> forall a: int :: !Mapped(s, a) ==> Word(t, User(a)) == Word(s, User(a))
  {
  }

  /** An uninterrupted handler restores everything it found. */
  lemma {:induction false} HandlerRestores(kind: Kind, b: seq<Op>, s: Machine)
    requires WorkOnly(b) && GsFits(s, kind)
    ensures var t := Exec(Code(kind, b), Enter(s, kind));
      && Restored(s, t)
      && (InUserMode(s) ==> forall a: int :: !Mapped(s, a) ==> Word(t, User(a)) == Word(s, User(a)))
  {
    hide Exec, ExecOp, Enter, Grew, Words, SavedWords, Saves, Restores, WordsAtCall;
    hide SameRegs, Pushes, Pops, Prologue, Epilogue, BeforeCall, AfterCall, Frame;
    var e, top, n := Enter(s, kind), EntryPointer(s), |SavedWords(s, kind)|;
    EnterPushesFrame(s, kind);
    PrologueSwaps(s, kind);
    SavedAll(s, kind);
    SavedLength(s, kind);
    var p := AfterSaving(s, kind);
    CallsAndReturns(kind, b, p, n, top);
    var q := Exec(AfterCall(kind), ExecOp(Call(b), Exec(BeforeCall(kind), p)));
    PopsRestore(kind, s, q);
    var r := Exec(Pops(Restores(kind)), q);
    EpilogueReturns(kind, s, r);
    CodeStages(kind, b, e);
    GrewTrans(OnStack(s), p, q, top);
    GrewAtTop(OnStack(s), q, Exec(Code(kind, b), e), top);
    RestoredWords(s, Exec(Code(kind, b), e));
  }

  lemma {:induction false} GrewAtTop(s: Machine, q: Machine, t: Machine, top: Pointer)
    requires Grew(s, q, top) && t.mem == q.mem && t.window == q.window && t.stackTop == q.stackTop
    ensures Grew(s, t.(sp := top), top)
  {
  }
}
