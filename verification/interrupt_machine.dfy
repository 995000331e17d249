/** A processor small enough to run the interrupt and system call entry code:
    general registers, a stack pointer into user or kernel stack memory, and the
    two GS bases. The kernel stack of a context is mapped for its user too. */
module InterruptMachine {

  datatype Reg = Rax | Rbx | Rcx | Rdx | Rsi | Rdi | Rbp | R8 | R9 | R10 | R11 | R12 | R13 | R14 | R15

  type RegFile = map<Reg, int>

  function Get(m: RegFile, r: Reg): int { if r in m then m[r] else 0 }

  ghost predicate SameRegs(m: RegFile, n: RegFile) { forall r: Reg :: Get(m, r) == Get(n, r) }

  /** A stack pointer, in eight-byte words. User and kernel addresses are different,
      but a range of user addresses leads to kernel stack memory. */
  datatype Pointer = User(addr: int) | Kernel(addr: int)

  /** A stack pointer as a word; which memory it points into is part of its value. */
  function Encode(p: Pointer): int {
    match p case Kernel(a) => 2 * a case User(a) => 2 * a + 1
  }

  function Decode(v: int): Pointer {
    if v % 2 == 0 then Kernel(v / 2) else User((v - 1) / 2)
  }

  function Above(p: Pointer, n: int): Pointer {
    match p case User(a) => User(a + n) case Kernel(a) => Kernel(a + n)
  }

  /** Memory by where words are kept. */
  type Memory = map<Pointer, int>

  function Read(m: Memory, c: Pointer): int { if c in m then m[c] else 0 }

  /** The user addresses just below `top` that are mapped to the kernel stack. */
  datatype Window = Window(top: int, words: nat)

  datatype Machine = Machine(
    regs: RegFile,
    sp: Pointer,
    rip: int,
    cs: int,
    rflags: int,
    ss: int,
    gs: int,              // the GS base in use
    kernelGs: int,        // the one swapgs would bring in
    mem: Memory,
    window: Window,       // where the user sees the kernel stack
    userTop: int,         // the user stack pointer when user mode was last left
    tmp: int,             // the control region's slot for the user stack pointer
    pcr: int,             // the address of the control region
    stackTop: int)        // the kernel stack in the task state segment

  const PCR_GDT_OFFSET: int := 16
  const IA32_GS_BASE: int := 0xc0000101
  const KERNEL_CS: int := 0x08
  const USER_CS: int := 0x2b
  const USER_SS: int := 0x23
  const TRAP_FLAG: int := 0x100

  predicate InUserMode(s: Machine) { s.cs % 4 != 0 }

  predicate Mapped(s: Machine, a: int) { s.window.top - s.window.words <= a < s.window.top }

  /** Where the word at an address is kept: the window ends where the stack does. */
  function Cell(s: Machine, p: Pointer): Pointer {
    if p.User? && Mapped(s, p.addr) then Kernel(s.stackTop - (s.window.top - p.addr)) else p
  }

  /** The user address of a kernel word, if it has one. */
  function Shadow(s: Machine, a: int): int { s.window.top - (s.stackTop - a) }

  function Word(s: Machine, at: Pointer): int { Read(s.mem, Cell(s, at)) }

  function Store(s: Machine, at: Pointer, v: int): Machine { s.(mem := s.mem[Cell(s, at) := v]) }

  function PushWord(s: Machine, v: int): Machine {
    Store(s, Above(s.sp, -1), v).(sp := Above(s.sp, -1))
  }

  function Drop(s: Machine, n: int): Machine { s.(sp := Above(s.sp, n)) }

  function SetReg(s: Machine, r: Reg, v: int): Machine { s.(regs := s.regs[r := v]) }

  function Swapped(s: Machine): Machine { s.(gs := s.kernelGs, kernelGs := s.gs) }

  /** The entry points: maskable interrupts, exceptions without and with an error
      code, and the entries that may interrupt anything. */
  datatype Kind = Plain | Stack | Error(code: int) | Paranoid

  /** Instructions, in groups where no interrupt could tell the difference.
      `Trap` is an interrupt arriving, with everything executed until it returns. */
  datatype Op =
    | Push(r: Reg)
    | Pop(r: Reg)
    | SwapGs
    | SwapGsIfUser(offset: nat)
    | LoadGdtBase
    | SubtractGdtOffset
    | ReadGsBase
    | CompareAndSetBl
    | SwapGsUnlessEqual
    | SwapGsUnlessBl
    | ExchangeErrorCode
    | PassStack
    | Call(body: seq<Op>)
    | StoreReturn(v: int)
    | Iret
    | SaveUserStack
    | LoadKernelStack
    | PushConstant(v: int)
    | PushSavedUserStack
    | ReturnBranch(slow: seq<Op>, fast: seq<Op>)
    | ClearRcxR11
    | SignExtendRcx
    | DropWord
    | PopStackPointer
    | SysRet
    | Work(regs: RegFile, down: nat, below: Memory)
    | UserWork(regs: RegFile, to: int, memory: Memory)
    | Trap(kind: Kind, code: seq<Op>)
    | SysCall(code: seq<Op>)

  const CALLEE_SAVED: set<Reg> := {Rbx, Rbp, R12, R13, R14, R15}

  /** The cells that addresses below `top`, on the same stack, lead to. */
  predicate Under(s: Machine, c: Pointer, top: Pointer) {
    match top
    case Kernel(x) => c.Kernel? && c.addr < x
    case User(x) =>
      if c.User? then c.addr < x else Mapped(s, Shadow(s, c.addr)) && Shadow(s, c.addr) < x
  }

  /** The cells user addresses lead to. */
  predicate UserCell(s: Machine, c: Pointer) { c.User? || Mapped(s, Shadow(s, c.addr)) }

  /** Memory with everything under `top` replaced. */
  function Replaced(s: Machine, top: Pointer, below: Memory): Memory {
    (map c | c in s.mem && !Under(s, c, top) :: s.mem[c]) + (map c | c in below && Under(s, c, top) :: below[c])
  }

  /** Memory with everything the user can write replaced. */
  function Rewritten(s: Machine, memory: Memory): Memory {
    (map c | c in s.mem && !UserCell(s, c) :: s.mem[c]) + (map c | c in memory && UserCell(s, c) :: memory[c])
  }

  /** Kernel code at work: registers, and memory below the stack pointer, take any
      values; the stack pointer only goes down. */
  function DoWork(s: Machine, regs: RegFile, down: nat, below: Memory): Machine {
    s.(regs := regs, sp := Above(s.sp, 0 - down), mem := Replaced(s, s.sp, below))
  }

  /** A called function returns as the System V ABI says: callee-saved registers
      and the stack pointer as they were. */
  function Returned(s: Machine, t: Machine): Machine {
    t.(sp := s.sp, regs := t.regs + map r | r in CALLEE_SAVED :: Get(s.regs, r))
  }

  /** The stack an interrupt is taken on, aligned as the processor does. */
  function EntryPointer(s: Machine): Pointer {
    if InUserMode(s) then Kernel(s.stackTop)
    else match s.sp case User(a) => User(a - a % 2) case Kernel(a) => Kernel(a - a % 2)
  }

  /** Taking an interrupt: the five words of the frame, and the error code if any. */
  function Enter(s: Machine, kind: Kind): Machine {
    var t := s.(sp := EntryPointer(s), userTop := if InUserMode(s) then s.sp.addr else s.userTop);
    var f := PushWord(PushWord(PushWord(PushWord(PushWord(t, s.ss), Encode(s.sp)), s.rflags), s.cs), s.rip);
    var g := f.(cs := KERNEL_CS, ss := 0, rip := 0, rflags := 0);
    if kind.Error? then PushWord(g, kind.code) else g
  }

  /** Returning from one. */
  function DoIret(s: Machine): Machine {
    s.(rip := Word(s, s.sp), cs := Word(s, Above(s.sp, 1)), rflags := Word(s, Above(s.sp, 2)),
       sp := Decode(Word(s, Above(s.sp, 3))), ss := Word(s, Above(s.sp, 4)))
  }

  /** The `syscall` instruction: no stack switch. */
  function EnterSysCall(s: Machine): Machine {
    SetReg(SetReg(s, Rcx, s.rip), R11, s.rflags)
      .(cs := KERNEL_CS, ss := 0, rip := 0, rflags := 0, userTop := s.sp.addr)
  }

  /** Bits 0..47 of a 64-bit word, with bit 47 repeated above: shifting left by 16
      and arithmetically right by 16. */
  function SignExtend48(v: int): int {
    var low := v % 0x1_0000_0000_0000;
    if low < 0x8000_0000_0000 then low else low + 0xFFFF_0000_0000_0000
  }

  predicate TrapFlagSet(flags: int) { flags / TRAP_FLAG % 2 == 1 }

  const RAX_OFFSET: nat := 14

  function Simple(op: Op, s: Machine): Machine {
    match op
    case Push(r) => PushWord(s, Get(s.regs, r))
    case Pop(r) => Drop(SetReg(s, r, Word(s, s.sp)), 1)
    case SwapGs => Swapped(s)
    case SwapGsIfUser(offset) => if Word(s, Above(s.sp, offset)) % 4 != 0 then Swapped(s) else s
    case LoadGdtBase => SetReg(s, Rdi, s.pcr + PCR_GDT_OFFSET)
    case SubtractGdtOffset => SetReg(s, Rdi, Get(s.regs, Rdi) - PCR_GDT_OFFSET)
    case ReadGsBase => SetReg(SetReg(SetReg(s, Rcx, IA32_GS_BASE), Rax, s.gs % 0x1_0000_0000), Rdx, s.gs)
    case CompareAndSetBl =>
      var b := Get(s.regs, Rbx);
      SetReg(s, Rbx, b - b % 256 + if Get(s.regs, Rdx) == Get(s.regs, Rdi) then 1 else 0)
    case SwapGsUnlessEqual => if Get(s.regs, Rdx) == Get(s.regs, Rdi) then s else Swapped(s)
    case SwapGsUnlessBl => if Get(s.regs, Rbx) % 256 != 0 then s else Swapped(s)
    case ExchangeErrorCode =>
      Store(SetReg(s, Rsi, Word(s, Above(s.sp, RAX_OFFSET))), Above(s.sp, RAX_OFFSET), Get(s.regs, Rax))
    case PassStack => SetReg(s, Rdi, Encode(s.sp))
    case StoreReturn(v) => Store(s, Above(s.sp, RAX_OFFSET), v)
    case Iret => DoIret(s)
    case SaveUserStack => if s.gs == s.pcr then s.(tmp := Encode(s.sp)) else s
    case LoadKernelStack => if s.gs == s.pcr then s.(sp := Kernel(s.stackTop)) else s
    case PushConstant(v) => PushWord(s, v)
    case PushSavedUserStack => PushWord(s, if s.gs == s.pcr then s.tmp else 0)
    case ClearRcxR11 => SetReg(SetReg(s, Rcx, 0), R11, 0)
    case SignExtendRcx => SetReg(s, Rcx, SignExtend48(Get(s.regs, Rcx)))
    case DropWord => Drop(s, 1)
    case PopStackPointer => s.(sp := Decode(Word(s, s.sp)))
    case SysRet => s.(rip := Get(s.regs, Rcx), rflags := Get(s.regs, R11), cs := USER_CS, ss := USER_SS)
    case Work(regs, down, below) => DoWork(s, regs, down, below)
    case UserWork(regs, to, memory) => s.(regs := regs, sp := User(to), mem := Rewritten(s, memory))
    case Call(_) => s
    case ReturnBranch(_, _) => s
    case Trap(_, _) => s
    case SysCall(_) => s
  }

  function Exec(ops: seq<Op>, s: Machine): Machine
    decreases ops, 0
  {
    if ops == [] then s else Exec(ops[1..], ExecOp(ops[0], s))
  }

  function ExecOp(op: Op, s: Machine): Machine
    decreases op, 1
  {
    match op
    case Call(body) => Returned(s, Exec(body, s))
    case ReturnBranch(slow, fast) => if TrapFlagSet(Word(s, Above(s.sp, 2))) then Exec(slow, s) else Exec(fast, s)
    case Trap(kind, code) => Exec(code, Enter(s, kind))
    case SysCall(code) => Exec(code, EnterSysCall(s))
    case _ => Simple(op, s)
  }

  /** The same program with no interrupt arriving. */
  function Strip(ops: seq<Op>): seq<Op>
    decreases ops, 0
  {
    if ops == [] then []
    else if ops[0].Trap? then Strip(ops[1..])
    else [StripOp(ops[0])] + Strip(ops[1..])
  }

  function StripOp(op: Op): Op
    decreases op, 1
  {
    match op
    case Call(body) => Call(Strip(body))
    case ReturnBranch(slow, fast) => ReturnBranch(Strip(slow), Strip(fast))
    case SysCall(code) => SysCall(Strip(code))
    case _ => op
  }

  // ---------------------------------------------------------- the entry code

  const SCRATCH: seq<Reg> := [Rcx, Rdx, Rdi, Rsi, R8, R9, R10, R11]
  const PRESERVED: seq<Reg> := [Rbx, Rbp, R12, R13, R14, R15]
  const POP_PRESERVED: seq<Reg> := [R15, R14, R13, R12, Rbp, Rbx]
  const POP_SCRATCH: seq<Reg> := [R11, R10, R9, R8, Rsi, Rdi, Rdx, Rcx, Rax]

  function Pushes(rs: seq<Reg>): seq<Op> { seq(|rs|, i requires 0 <= i < |rs| => Push(rs[i])) }

  function Pops(rs: seq<Reg>): seq<Op> { seq(|rs|, i requires 0 <= i < |rs| => Pop(rs[i])) }

  /** What runs between saving the registers and calling the body, and between
      the body and restoring them. */
  function BeforeCall(kind: Kind): seq<Op> {
    match kind
    case Plain => []
    case Stack => [PassStack]
    case Error(_) => [ExchangeErrorCode, PassStack]
    case Paranoid => [LoadGdtBase, SubtractGdtOffset, ReadGsBase, CompareAndSetBl, SwapGsUnlessEqual, PassStack]
  }

  function AfterCall(kind: Kind): seq<Op> {
    if kind.Paranoid? then [SwapGsUnlessBl] else []
  }

  function Saves(kind: Kind): seq<Reg> {
    match kind
    case Plain => [Rax] + SCRATCH
    case Error(_) => SCRATCH + PRESERVED
    case _ => [Rax] + SCRATCH + PRESERVED
  }

  function Restores(kind: Kind): seq<Reg> {
    if kind.Plain? then POP_SCRATCH else POP_PRESERVED + POP_SCRATCH
  }

  function Prologue(kind: Kind): seq<Op> {
    match kind
    case Paranoid => []
    case Error(_) => [SwapGsIfUser(2)]
    case _ => [SwapGsIfUser(1)]
  }

  function Epilogue(kind: Kind): seq<Op> {
    if kind.Paranoid? then [Iret] else [SwapGsIfUser(1), Iret]
  }

  /** The naked function behind an interrupt vector, around its Rust body. */
  function Code(kind: Kind, body: seq<Op>): seq<Op> {
    Prologue(kind) + Pushes(Saves(kind)) + BeforeCall(kind) + [Call(body)] + AfterCall(kind)
    + Pops(Restores(kind)) + Epilogue(kind)
  }

  /** The system call entry: onto the kernel stack, and a frame like an interrupt's. */
  function SwitchStack(): seq<Op> { [SwapGs, SaveUserStack, LoadKernelStack] }

  function FakeFrame(): seq<Op> {
    [PushConstant(USER_SS), PushSavedUserStack, Push(R11), PushConstant(USER_CS), Push(Rcx)]
  }

  /** All of it, around the function that stores its result. */
  function SysCallCode(body: seq<Op>, result: int): seq<Op> {
    SwitchStack() + FakeFrame() + Pushes(Saves(Stack)) + [PassStack] + [Call(body)] + [StoreReturn(result)]
    + EnterUserMode()
  }

  /** Its exit path, also taken by a context that enters user mode first. */
  function EnterUserMode(): seq<Op> {
    Pops(Restores(Stack))
    + [SwapGs,
       ReturnBranch([ClearRcxR11, Iret],
                    [Pop(Rcx), SignExtendRcx, DropWord, Pop(R11), PopStackPointer, SysRet])]
  }
}
