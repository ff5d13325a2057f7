/**
 The trap entry and exit code of a hart that runs apps in U-mode and everything else
 in M-mode, at the level of single instructions.

 A word is either a number or a pointer into one task's kernel stack, so two tasks'
 stacks are disjoint and a stack pointer is never zero. Offset 0 of a stack is the
 value `mscratch` holds while that task runs in U-mode; the two words from there up
 are the scratch words, the saved registers lie below.
 */
module Umode {

  datatype Word = Num(n: bv32) | Stk(task: nat, off: int)

  type Memory = map<Word, Word>
  type Regs = x: seq<Word> | |x| == 32 witness seq(32, _ => Num(0))

  const NO_REGS: Regs := seq(32, _ => Num(0))

  const ZERO := 0
  const RA := 1
  const SP := 2
  const GP := 3
  const TP := 4
  const T0 := 5
  const T1 := 6
  const T2 := 7
  const S0 := 8
  const S1 := 9
  const A0 := 10
  const A1 := 11
  const A2 := 12
  const S2 := 18

  // The frame: the pc at 0, register r at 4r, the status word, and its size.
  const STK_MSTATUS := 128
  const FRMSZ := 160
  const FRAME_USER: bv32 := 0x1800
  const MSTATUS_FS: bv32 := 0x2000
  const MCAUSE_TO_USER: bv32 := 0x0800_0000
  const MCAUSE_TO_KERNEL: bv32 := 0x3800_0000

  datatype Cpu = Cpu(x: Regs, pc: Word, user: bool, mscratch: Word, satp: Word, mepc: Word,
                     mstatus: bv32, mcause: bv32, ktp: Word, mem: Memory)

  /** What the kernel knows of each task, and its own global pointer. */
  datatype Config = Config(kgp: Word, kentry: Word, satp: nat -> Word, ktp: nat -> Word)

  /** What a task must get back. */
  datatype Context = Context(x: Regs, pc: Word, user: bool)

  function Load(m: Memory, a: Word): Word {
    if a in m then m[a] else Num(0)
  }

  function At(a: Word, k: int): Word
    requires a.Stk?
  {
    Stk(a.task, a.off + k)
  }

  function Mpp(mstatus: bv32): bv32 {
    (mstatus >> 11) & 3
  }

  function CauseMpp(mcause: bv32): bv32 {
    (mcause >> 28) & 3
  }

  // ----- The hardware -----

  /** A trap: section 3.1.6.1 of the RISC-V Privileged Architecture, and the CLIC's mcause copy. */
  function Trap(c: Cpu, cause: bv32): Cpu {
    var mpie := (c.mstatus & 8) << 4;
    var mpp: bv32 := if c.user then 0 else 0x1800;
    c.(user := false, mepc := c.pc,
       mstatus := (c.mstatus & !0x1888) | mpie | mpp,
       mcause := (cause & !0x3000_0000) | (mpp << 17))
  }

  /** mret: the privilege comes from mcause's MPP; mstatus's is cleared. */
  function Mret(c: Cpu): Cpu {
    var mie := (c.mstatus >> 4) & 8;
    c.(user := CauseMpp(c.mcause) == 0, pc := c.mepc,
       mstatus := (c.mstatus & !0x1888) | mie | 0x80,
       mcause := c.mcause & !0x3000_0000)
  }

  /** The two records of the privilege to return to say the same. */
  predicate Agree(c: Cpu) {
    Mpp(c.mstatus) == CauseMpp(c.mcause)
  }

  /** Interrupts off and the FPU on: all that the exits outside the interrupt vector do to mstatus. */
  function UserStatus(mstatus: bv32): bv32 {
    (mstatus & !8) | MSTATUS_FS
  }

  /** An exit that masks interrupts and writes only mcause agrees exactly when mstatus said U. */
  lemma MaskedExit(c: Cpu, h: Cpu)
    requires h.mstatus == UserStatus(c.mstatus) && h.mcause == MCAUSE_TO_USER
    ensures Agree(h) <==> Mpp(c.mstatus) == 0
  {
    assert Mpp(UserStatus(c.mstatus)) == Mpp(c.mstatus);
  }

  /** After mret interrupts are on exactly when MPIE said so: the MPIE handed in, or on in U-mode. */
  lemma InterruptsAfter(user: bool, mstatus: bv32, mcause: bv32, h: Cpu)
    requires StatusFor(user, mstatus, h.mstatus) && CauseFor(user, mcause, h.mcause)
    ensures Mret(h).mstatus & 8 == if user then 8 else (mstatus >> 4) & 8
    ensures Mret(h).mcause & 0x00ff_0000 == if user then 0 else mcause & 0x00ff_0000
  {
  }

  /** mret forgets the previous privilege; a trap records it twice. */
  lemma PrivilegeBits(c: Cpu, cause: bv32)
    ensures Mpp(Mret(c).mstatus) == 0
    ensures Agree(Trap(c, cause)) && Mpp(Trap(c, cause).mstatus) == if c.user then 0 else 3
  {
  }

  // ----- The register save and restore the vectors share -----

  ghost predicate HoldsRegs(m: Memory, f: Word, x: Regs)
    requires f.Stk?
  {
    forall r {:trigger x[r]} :: 1 <= r < 32 && r != SP ==> Load(m, At(f, 4 * r)) == x[r]
  }

  ghost predicate SameOutside(m: Memory, m': Memory, task: nat, lo: int, hi: int) {
    forall a: Word {:trigger Load(m', a)} :: !(a.Stk? && a.task == task && lo <= a.off < hi) ==> Load(m', a) == Load(m, a)
  }

  function SaveRegs(m: Memory, f: Word, x: Regs): (m': Memory)
    requires f.Stk?
    ensures HoldsRegs(m', f, x)
    ensures SameOutside(m, m', f.task, f.off + 4, f.off + 128)
  {
    var regs := map r | 1 <= r < 32 :: At(f, 4 * r) := x[r];
    assert forall r :: 1 <= r < 32 ==> At(f, 4 * r) in regs && regs[At(f, 4 * r)] == x[r];
    m + regs
  }

  method SaveGeneralRegs(c: Cpu) returns (h: Cpu)
    requires c.x[SP].Stk?
    ensures var f := At(c.x[SP], -FRMSZ);
            && h == c.(x := c.x[SP := f], mem := h.mem)
            && HoldsRegs(h.mem, f, c.x)
            && SameOutside(c.mem, h.mem, f.task, f.off + 4, f.off + 128)
  {
    h := c.(x := c.x[SP := At(c.x[SP], -FRMSZ)]);
    h := h.(mem := SaveRegs(h.mem, h.x[SP], c.x));
  }

  /** Every register but gp and sp from the frame at sp, which is popped. */
  function RestoreGeneralRegs(c: Cpu): Cpu
    requires c.x[SP].Stk?
  {
    var f := c.x[SP];
    var x: seq<Word> := seq(32, r requires 0 <= r < 32 =>
      if r == ZERO then c.x[ZERO]
      else if r == SP then At(f, FRMSZ)
      else if r == GP then c.x[GP]
      else Load(c.mem, At(f, 4 * r)));
    c.(x := x)
  }

  // ----- Entry -----

  /** A trap out of an app moves to its thread's kernel stack and keeps its sp aside; any other leaves the hart as it is. */
  method UmEntry(c: Cpu) returns (h: Cpu)
    requires c.mscratch == Num(0) || c.mscratch.Stk?
    ensures c.mscratch == Num(0) ==> h == c
    ensures c.mscratch.Stk? ==>
      && h == c.(x := c.x[SP := c.mscratch], mem := h.mem)
      && Load(h.mem, c.mscratch) == c.x[SP]
      && SameOutside(c.mem, h.mem, c.mscratch.task, c.mscratch.off, c.mscratch.off + 8)
  {
    h := c.(x := c.x[T0 := c.mscratch], mscratch := c.x[T0]);       // swap t0 and mscratch
    if h.x[T0] == Num(0) {                                          // from M-mode
      h := h.(x := h.x[T0 := h.mscratch], mscratch := h.x[T0]);     // swap back
      assert h.x == c.x;
    } else {
      h := h.(mem := h.mem[h.x[T0] := h.x[SP]]);                    // the user's sp above the stack top
      h := h.(x := h.x[SP := h.mscratch]);                          // the user's t0
      h := h.(mem := h.mem[At(h.x[T0], 4) := h.x[SP]]);             // beside it
      h := h.(x := h.x[SP := h.x[T0]]);                             // onto the kernel stack
      h := h.(x := h.x[T0 := Load(h.mem, At(h.x[SP], 4))]);         // t0 back
      h := h.(mscratch := h.x[SP]);                                 // mscratch back
      assert h.x == c.x[SP := c.mscratch];
    }
  }

  /** The frame after the fix: the user's sp in it, and for an interrupt the privilege it came from. */
  function FixedFrame(c: Cpu, flag: bool): Memory
    requires c.x[SP].Stk?
  {
    var sp := c.x[SP];
    var m := if flag then c.mem[At(sp, STK_MSTATUS) := Num(0)] else c.mem;
    if c.mscratch == Num(0) then m
    else
      var m1 := m[At(sp, 4 * SP) := Load(m, c.mscratch)];
      if flag then m1[At(sp, STK_MSTATUS) := Num(FRAME_USER)] else m1
  }

  lemma FixedFrameSlots(c: Cpu, flag: bool)
    requires c.x[SP].Stk?
    requires c.mscratch == Num(0) || c.mscratch == At(c.x[SP], FRMSZ)
    ensures var (sp, m) := (c.x[SP], FixedFrame(c, flag));
            && Load(m, At(sp, 4 * SP)) == Load(c.mem, if c.mscratch == Num(0) then At(sp, 4 * SP) else c.mscratch)
            && Load(m, At(sp, STK_MSTATUS))
               == (if !flag then Load(c.mem, At(sp, STK_MSTATUS))
                   else if c.mscratch == Num(0) then Num(0) else Num(FRAME_USER))
            && Load(m, sp) == Load(c.mem, sp)
            && OnlySlots(c.mem, m, sp)
  {
  }

  method LoadKernelPointers(cfg: Config, c: Cpu) returns (h: Cpu)
    ensures h == c.(x := c.x[GP := cfg.kgp][TP := c.ktp])
  {
    h := c.(x := c.x[GP := cfg.kgp]);                                 // the kernel's global pointer
    h := h.(x := h.x[TP := h.ktp]);                                   // this hart's kernel tp
  }

  /** Once the registers are in the frame: its sp slot corrected, and the kernel's pointers for an app's. */
  method UmEntryFix(cfg: Config, c: Cpu, flag: bool) returns (h: Cpu)
    requires c.x[SP].Stk?
    requires c.mscratch == Num(0) || c.mscratch == At(c.x[SP], FRMSZ)
    ensures h == c.(x := h.x, mscratch := Num(0), satp := h.satp, mem := FixedFrame(c, flag))
    ensures h.satp == if c.mscratch == Num(0) then c.satp else Num(0)
    ensures h.x == if c.mscratch == Num(0) then c.x[T0 := h.x[T0]]
                   else c.x[T0 := h.x[T0]][GP := cfg.kgp][TP := c.ktp]
  {
    h := c.(x := c.x[T0 := c.mscratch], mscratch := Num(0));          // take mscratch, leave zero
    if flag {
      h := h.(mem := h.mem[At(h.x[SP], STK_MSTATUS) := Num(0)]);      // came from M-mode, so far
    }
    if h.x[T0] != Num(0) {                                            // from U-mode
      h := h.(satp := Num(0));                                        // no app's table
      h := h.(x := h.x[T0 := Load(h.mem, h.x[T0])]);                  // the sp parked on entry
      h := h.(mem := h.mem[At(h.x[SP], 4 * SP) := h.x[T0]]);          // into the frame
      if flag {
        h := h.(x := h.x[T0 := Num(FRAME_USER)]);                     // and the privilege
        h := h.(mem := h.mem[At(h.x[SP], STK_MSTATUS) := h.x[T0]]);
      }
      assert h.x == c.x[T0 := h.x[T0]];
      h := LoadKernelPointers(cfg, h);
    }
  }

  // ----- What the entries establish -----

  ghost predicate FrameHolds(m: Memory, f: Word, ctx: Context)
    requires f.Stk?
  {
    && HoldsRegs(m, f, ctx.x)
    && Load(m, At(f, 4 * SP)) == ctx.x[SP]
    && Load(m, f) == ctx.pc
    && Load(m, At(f, STK_MSTATUS)) == if ctx.user then Num(FRAME_USER) else Num(0)
  }

  /** Where a trap taken in `c` puts its frame. */
  function FrameOf(c: Cpu): Word
    requires c.mscratch.Stk? || c.x[SP].Stk?
  {
    At(if c.mscratch.Stk? then c.mscratch else c.x[SP], -FRMSZ)
  }

  /** `h` runs kernel code on the frame of the trap taken in `c`. */
  ghost predicate KernelEntered(cfg: Config, c: Cpu, h: Cpu)
    requires c.mscratch.Stk? || c.x[SP].Stk?
  {
    var fromUser := c.mscratch.Stk?;
    var f := FrameOf(c);
    && h.x[ZERO] == c.x[ZERO]
    && h.x[SP] == f
    && h.mscratch == Num(0)
    && h.satp == (if fromUser then Num(0) else c.satp)
    && h.x[GP] == (if fromUser then cfg.kgp else c.x[GP])
    && h.x[TP] == (if fromUser then c.ktp else c.x[TP])
    && h == c.(x := h.x, mscratch := h.mscratch, satp := h.satp, mem := h.mem)
    && SameOutside(c.mem, h.mem, f.task, f.off, f.off + FRMSZ + if fromUser then 8 else 0)
  }

  /** The start of both vectors: onto the kernel stack if need be, and every register into a frame. */
  method EnterAndSave(c: Cpu) returns (h: Cpu)
    requires c.mscratch.Stk? || (c.mscratch == Num(0) && c.x[SP].Stk?)
    ensures h == c.(x := c.x[SP := FrameOf(c)], mem := h.mem)
    ensures HoldsRegs(h.mem, FrameOf(c), c.x)
    ensures c.mscratch.Stk? ==> Load(h.mem, c.mscratch) == c.x[SP]
    ensures var f := FrameOf(c);
            SameOutside(c.mem, h.mem, f.task, f.off, f.off + FRMSZ + if c.mscratch.Stk? then 8 else 0)
  {
    h := UmEntry(c);
    ghost var entered := h;
    h := SaveGeneralRegs(h);
    assert forall r {:trigger c.x[r]} :: 0 <= r < 32 && r != SP ==> entered.x[r] == c.x[r];
  }

  /** The ordinary interrupt vector, from the trap to the call of the handler. */
  method InterruptVector(cfg: Config, c: Cpu) returns (h: Cpu)
    requires c.mscratch.Stk? || (c.mscratch == Num(0) && c.x[SP].Stk?)
    ensures KernelEntered(cfg, c, h)
    ensures FrameHolds(h.mem, FrameOf(c), Context(c.x, c.mepc, c.mscratch.Stk?))
  {
    h := EnterAndSave(c);
    ghost var saved := h;
    h := h.(mem := h.mem[h.x[SP] := h.mepc]);                      // the pc
    h := h.(x := h.x[A0 := At(h.x[SP], FRMSZ)]);                   // sp as it was before the frame
    h := h.(mem := h.mem[At(h.x[SP], 4 * SP) := h.x[A0]]);
    assert c.mscratch.Stk? ==> Load(h.mem, c.mscratch) == c.x[SP];
    FixedFrameSlots(h, true);
    h := UmEntryFix(cfg, h, true);
    FrameSurvives(c.mem, saved.mem, h.mem, FrameOf(c), c.x,
                  FrameOf(c).off + FRMSZ + if c.mscratch.Stk? then 8 else 0);
  }

  /** Only the pc, sp and status slots of the frame at `f` differ. */
  ghost predicate OnlySlots(m: Memory, m': Memory, f: Word)
    requires f.Stk?
  {
    forall a: Word {:trigger Load(m', a)} ::
      a != f && a != At(f, 4 * SP) && a != At(f, STK_MSTATUS) ==> Load(m', a) == Load(m, a)
  }

  /** Rewriting those slots leaves the other registers' slots and everything outside the frame alone. */
  lemma FrameSurvives(m0: Memory, m: Memory, m': Memory, f: Word, x: Regs, hi: int)
    requires f.Stk? && HoldsRegs(m, f, x) && OnlySlots(m, m', f)
    requires SameOutside(m0, m, f.task, f.off, hi) && f.off + FRMSZ <= hi
    ensures HoldsRegs(m', f, x)
    ensures SameOutside(m0, m', f.task, f.off, hi)
  {
  }

  // ----- Exit -----

  predicate CallerSaved(r: nat) {
    r == RA || T0 <= r <= T2 || A0 <= r < S2 || 28 <= r < 32
  }

  /**
   The C function every return to U-mode calls: the thread's table, its kernel tp and the FPU.
   `left` is what it leaves in the registers a callee need not keep.
   */
  method UmReturn(cfg: Config, c: Cpu, task: nat, left: Regs) returns (h: Cpu)
    ensures h == c.(x := h.x, satp := cfg.satp(task), ktp := cfg.ktp(task), mstatus := c.mstatus | MSTATUS_FS)
    ensures forall r :: 0 <= r < 32 && !CallerSaved(r) ==> h.x[r] == c.x[r]
  {
    var x: seq<Word> := seq(32, r requires 0 <= r < 32 => if CallerSaved(r) then left[r] else c.x[r]);
    h := c.(x := x, satp := cfg.satp(task), ktp := cfg.ktp(task), mstatus := c.mstatus | MSTATUS_FS);
  }

  /** How the exits outside the interrupt vector begin. */
  method TurnToUser(cfg: Config, c: Cpu, task: nat, left: Regs) returns (h: Cpu)
    ensures h == c.(x := h.x, satp := cfg.satp(task), ktp := cfg.ktp(task),
                    mstatus := UserStatus(c.mstatus), mcause := MCAUSE_TO_USER)
    ensures forall r :: 0 <= r < 32 && !CallerSaved(r) ==> h.x[r] == c.x[r]
    ensures CauseMpp(h.mcause) == 0
  {
    h := c.(mstatus := c.mstatus & !8);                                 // interrupts off
    h := UmReturn(cfg, h, task, left);                                  // the thread's table
    h := h.(mcause := MCAUSE_TO_USER);
  }

  /** `x` is every register of the frame at `f`, sp and gp included. */
  ghost predicate AllRegsOf(m: Memory, f: Word, x: Regs)
    requires f.Stk?
  {
    forall r {:trigger x[r]} :: 1 <= r < 32 ==> x[r] == Load(m, At(f, 4 * r))
  }

  /** `h`, about to mret, holds all of what the frame at the kernel stack top of `task` recorded. */
  ghost predicate ReturnsToUser(cfg: Config, c: Cpu, h: Cpu, task: nat) {
    var f := Stk(task, -FRMSZ);
    && AllRegsOf(c.mem, f, h.x)
    && h.x[ZERO] == c.x[ZERO]
    && h.mepc == Load(c.mem, f)
    && h.mscratch == Stk(task, 0)
    && h.satp == cfg.satp(task)
    && h.ktp == cfg.ktp(task)
    && h.mem == c.mem
    && CauseMpp(h.mcause) == 0
  }

  /** `h`, about to mret to M-mode, has popped the frame at `c`'s sp. */
  ghost predicate ReturnsToKernel(c: Cpu, h: Cpu)
    requires c.x[SP].Stk?
  {
    var f := c.x[SP];
    && (forall r {:trigger h.x[r]} :: 1 <= r < 32 && r != SP && r != GP ==> h.x[r] == Load(c.mem, At(f, 4 * r)))
    && h.x[ZERO] == c.x[ZERO]
    && h.x[SP] == At(f, FRMSZ)
    && h.x[GP] == c.x[GP]
    && h.mepc == Load(c.mem, f)
    && h == c.(x := h.x, mepc := h.mepc, mstatus := h.mstatus, mcause := h.mcause)
    && CauseMpp(h.mcause) == 3
  }

  /** The last steps to U-mode: the frame lies at the stack top and the app's sp waits in mscratch. */
  method UmExitToUser(c: Cpu, task: nat) returns (h: Cpu)
    requires c.x[SP] == Stk(task, -FRMSZ)
    requires c.mscratch == Load(c.mem, At(c.x[SP], 4 * SP))
    ensures AllRegsOf(c.mem, c.x[SP], h.x) && h.x[ZERO] == c.x[ZERO]
    ensures h == c.(x := h.x, mscratch := Stk(task, 0))
  {
    h := c.(x := c.x[GP := Load(c.mem, At(c.x[SP], 4 * GP))]);        // the app's gp first
    h := RestoreGeneralRegs(h);
    h := h.(x := h.x[SP := h.mscratch], mscratch := h.x[SP]);         // sp and mscratch trade places
  }

  /** What a resumed task's mstatus owes to the one handed in: MPP, and to U-mode also MPIE and the FPU's state. */
  ghost predicate StatusFor(user: bool, mstatus: bv32, a0: bv32) {
    if user then a0 & 0xffff_c77f == mstatus & 0xffff_c77f && a0 & 0x3880 == 0x2080
    else a0 & 0xffff_e7ff == mstatus & 0xffff_e7ff && a0 & 0x1800 == 0x1800
  }

  /** And its mcause: MPP, and to U-mode also MPIE and the interrupt level. */
  ghost predicate CauseFor(user: bool, mcause: bv32, s1: bv32) {
    if user then s1 & 0xc700_ffff == mcause & 0xc700_ffff && s1 & 0x38ff_0000 == 0x0800_0000
    else s1 & 0xcfff_ffff == mcause & 0xcfff_ffff && s1 & 0x3000_0000 == 0x3000_0000
  }

  lemma XorZero(x: bv32, zero: bv32)
    requires zero == 0
    ensures x ^ zero == x
  {
  }

  lemma StatusToKernel(m: bv32)
    ensures StatusFor(false, m, m | 0x1800) && Mpp(m | 0x1800) == 3
  {
  }

  lemma CauseToKernel(m: bv32)
    ensures CauseFor(false, m, m | 0x3000_0000) && CauseMpp(m | 0x3000_0000) == 3
  {
  }

  lemma CauseToUser(m: bv32)
    ensures var s := (((m | 0x3000_0000) ^ 0x3000_0000) & 0xff00_ffff) | 0x0800_0000;
            CauseFor(true, m, s) && CauseMpp(s) == 0
  {
  }

  /**
   The mstatus and mcause a resumed task gets, from the interrupted task's and from the
   flag its own frame recorded. The six registers of this stretch are locals.
   */
  method ResumeStatus(flag: bv32, mstatus: bv32, mcause: bv32) returns (a0: bv32, s1: bv32)
    requires flag == 0 || flag == FRAME_USER
    ensures Mpp(a0) == CauseMpp(s1) == if flag == FRAME_USER then 0 else 3
    ensures StatusFor(flag == FRAME_USER, mstatus, a0) && CauseFor(flag == FRAME_USER, mcause, s1)
  {
    a0 := StatusOf(flag, mstatus);
    s1 := CauseOf(flag, mcause);
  }

  method StatusOf(flag: bv32, mstatus: bv32) returns (a0: bv32)
    requires flag == 0 || flag == FRAME_USER
    ensures StatusFor(flag == FRAME_USER, mstatus, a0) && Mpp(a0) == if flag == FRAME_USER then 0 else 3
  {
    if flag == 0 {
      a0 := KernelMpp(mstatus, flag);
    } else {
      a0 := UserMpp(mstatus, flag);
    }
  }

  /** MPP = M, and U where the flag says so. */
  method KernelMpp(mstatus: bv32, flag: bv32) returns (a0: bv32)
    requires flag == 0
    ensures StatusFor(false, mstatus, a0) && Mpp(a0) == 3
  {
    a0 := mstatus | 0x1800;
    StatusToKernel(mstatus);
    XorZero(a0, flag);
    a0 := a0 ^ flag;
  }

  /** To U-mode also MPIE, and FS at least Initial. */
  method UserMpp(mstatus: bv32, flag: bv32) returns (a0: bv32)
    requires flag == 0x1800
    ensures StatusFor(true, mstatus, a0) && Mpp(a0) == 0
  {
    a0 := mstatus | 0x1800;
    a0 := a0 ^ flag;
    a0 := a0 | 0x80;
    a0 := a0 | 0x2000;
  }

  /** The same for mcause, whose MPP lies 17 bits up. */
  method CauseOf(flag: bv32, mcause: bv32) returns (s1: bv32)
    requires flag == 0 || flag == FRAME_USER
    ensures CauseFor(flag == FRAME_USER, mcause, s1) && CauseMpp(s1) == if flag == FRAME_USER then 0 else 3
  {
    s1 := mcause | 0x3000_0000;
    if flag == 0 {
      CauseToKernel(mcause);
    } else {
      CauseToUser(mcause);
    }
    s1 := s1 ^ (flag << 17);
    if flag != 0 {
      s1 := s1 & !(0xff << 16);        // interrupt level 0
      s1 := s1 | MCAUSE_TO_USER;       // MPIE in mcause too
    }
  }

  /**
   The end of the interrupt vector: `c` is the state after rtos_int_exit, sp the frame of
   the task to run next, `mstatus` and `mcause` (a0 and s1) those of the task interrupted.
   */
  method InterruptResume(cfg: Config, c: Cpu, mstatus: bv32, mcause: bv32, left: Regs) returns (h: Cpu)
    requires c.x[SP].Stk? && c.mscratch == Num(0)
    requires var flag := Load(c.mem, At(c.x[SP], STK_MSTATUS));
             flag == Num(0) || (flag == Num(FRAME_USER) && c.x[SP].off == -FRMSZ)
    ensures var user := Load(c.mem, At(c.x[SP], STK_MSTATUS)) == Num(FRAME_USER);
            && (user ==> ReturnsToUser(cfg, c, h, c.x[SP].task))
            && (!user ==> ReturnsToKernel(c, h))
            && Mpp(h.mstatus) == CauseMpp(h.mcause) == (if user then 0 else 3)
            && StatusFor(user, mstatus, h.mstatus) && CauseFor(user, mcause, h.mcause)
  {
    var flag := Load(c.mem, At(c.x[SP], STK_MSTATUS));
    var a0, s1 := ResumeStatus(flag.n, mstatus, mcause);
    h := c;
    if flag != Num(0) {
      h := UmReturn(cfg, h, c.x[SP].task, left);                      // the thread's table
      h := h.(x := h.x[T0 := Load(h.mem, At(h.x[SP], 4 * SP))]);      // the user's sp
      h := h.(mscratch := h.x[T0]);
      h := h.(mcause := s1);                                          // both privilege records
      h := h.(mstatus := a0);
      h := h.(mepc := Load(h.mem, h.x[SP]));                          // the pc
      h := UmExitToUser(h, c.x[SP].task);
    } else {
      h := h.(mcause := s1);                                          // both privilege records
      h := h.(mstatus := a0);
      h := h.(mepc := Load(h.mem, h.x[SP]));                          // the pc
      h := RestoreGeneralRegs(h);
    }
  }

  // ----- Exceptions: into task code on the kernel stack, and back -----

  /** The exception vector up to its dispatch: the frame keeps mstatus instead of a flag. */
  method ExceptionEntry(cfg: Config, c: Cpu) returns (h: Cpu)
    requires c.mscratch.Stk? || (c.mscratch == Num(0) && c.x[SP].Stk?)
    ensures KernelEntered(cfg, c, h)
    ensures HoldsRegs(h.mem, FrameOf(c), c.x)
    ensures Load(h.mem, At(FrameOf(c), 4 * SP)) == c.x[SP]
    ensures Load(h.mem, FrameOf(c)) == c.mepc
    ensures Load(h.mem, At(FrameOf(c), STK_MSTATUS)) == Num(c.mstatus)
  {
    h := EnterAndSave(c);
    ghost var saved := h;
    h := h.(x := h.x[T0 := At(h.x[SP], FRMSZ)]);                        // sp as it was before the frame
    h := h.(mem := h.mem[At(h.x[SP], 4 * SP) := h.x[T0]]);
    h := h.(mem := h.mem[h.x[SP] := h.mepc]);                           // the pc
    h := h.(mem := h.mem[At(h.x[SP], STK_MSTATUS) := Num(h.mstatus)]);  // and the status, not a flag
    assert c.mscratch.Stk? ==> Load(h.mem, c.mscratch) == c.x[SP];
    FixedFrameSlots(h, false);
    h := UmEntryFix(cfg, h, false);
    FrameSurvives(c.mem, saved.mem, h.mem, FrameOf(c), c.x,
                  FrameOf(c).off + FRMSZ + if c.mscratch.Stk? then 8 else 0);
  }

  /**
   The exception vector and its dispatch. An exception of an app goes to the app's own
   kernel code; every other one stays with the panic path.
   */
  method ExceptionVector(cfg: Config, c: Cpu) returns (h: Cpu, toTask: bool)
    requires c.mscratch.Stk? || (c.mscratch == Num(0) && c.x[SP].Stk?)
    ensures KernelEntered(cfg, c, h)
    ensures HoldsRegs(h.mem, FrameOf(c), c.x)
    ensures Load(h.mem, At(FrameOf(c), 4 * SP)) == c.x[SP]
    ensures Load(h.mem, FrameOf(c)) == c.mepc
    ensures toTask <==> c.mcause & 0x8000_0000 == 0 && c.mstatus & FRAME_USER == 0
  {
    h := ExceptionEntry(cfg, c);
    var t0 := Load(h.mem, At(h.x[SP], STK_MSTATUS)).n;                  // the saved status
    toTask := h.mcause & 0x8000_0000 == 0 && t0 & FRAME_USER == 0;      // no interrupt, and from U-mode
  }

  /** An app's exception is left at once, into task code below the saved registers; mstatus is not rewritten. */
  method UmTrap(cfg: Config, c: Cpu, thread: Word) returns (h: Cpu)
    ensures h == c.(x := h.x, mepc := cfg.kentry, mcause := h.mcause)
    ensures h.x[SP] == c.x[SP] && h.x[GP] == c.x[GP] && h.x[TP] == c.x[TP] && h.x[ZERO] == c.x[ZERO]
    ensures h.x[A0] == c.x[SP] && h.x[A1] == Num(c.mcause) && h.x[A2] == thread && h.x[RA] == Num(0)
    ensures h.mcause == (3 << 28) | (1 << 27) && CauseMpp(h.mcause) == 3 && (Agree(h) <==> Mpp(c.mstatus) == 3)
  {
    h := c.(x := c.x[A0 := c.x[SP]][A1 := Num(c.mcause)][A2 := thread]);   // the arguments: frame, cause and thread
    h := h.(mepc := cfg.kentry);
    h := h.(mcause := MCAUSE_TO_KERNEL);
    h := h.(x := h.x[RA := Num(0)]);                                    // no caller
  }

  /** Back to U-mode from task code, with the registers saved at `u`. */
  method UmResume(cfg: Config, c: Cpu, u: Word, ms: Word, left: Regs) returns (h: Cpu)
    requires u.Stk? && u.off == -FRMSZ && ms == At(u, FRMSZ)
    ensures ReturnsToUser(cfg, c, h, u.task)
    ensures h.mstatus == UserStatus(c.mstatus) && h.mcause == MCAUSE_TO_USER
  {
    h := c.(x := c.x[S0 := u][S1 := ms]);                               // the arguments, where the call keeps them
    h := TurnToUser(cfg, h, u.task, left);
    h := h.(mepc := Load(h.mem, h.x[S0]));                              // the pc
    h := h.(mscratch := h.x[S1]);                                       // the stack top for the next trap
    h := h.(x := h.x[SP := h.x[S0]]);
    var sp := h.x[SP];
    var x: seq<Word> := seq(32, r requires 0 <= r < 32 =>               // every register but sp
      if r == ZERO || r == SP then h.x[r] else Load(h.mem, At(sp, 4 * r)));
    h := h.(x := x);
    h := h.(x := h.x[SP := Load(h.mem, At(sp, 4 * SP))]);               // sp last
  }

  /** The exception vector's return to U-mode, from a frame at the stack top. */
  method LeaveToUser(cfg: Config, c: Cpu, left: Regs) returns (h: Cpu)
    requires c.x[SP].Stk? && c.x[SP].off == -FRMSZ
    ensures ReturnsToUser(cfg, c, h, c.x[SP].task)
    ensures h.mstatus == UserStatus(c.mstatus) && h.mcause == MCAUSE_TO_USER
  {
    h := TurnToUser(cfg, c, c.x[SP].task, left);
    h := h.(x := h.x[T0 := Load(h.mem, At(h.x[SP], 4 * SP))]);          // the user's sp
    h := h.(mscratch := h.x[T0]);
    h := h.(mepc := Load(h.mem, h.x[SP]));                              // the pc
    h := UmExitToUser(h, c.x[SP].task);
  }

  /** The exception vector's own way back, to U-mode exactly when the frame says U. */
  method ExceptionExit(cfg: Config, c: Cpu, left: Regs) returns (h: Cpu, toUser: bool)
    requires c.x[SP].Stk? && c.x[SP].off == -FRMSZ && Load(c.mem, At(c.x[SP], STK_MSTATUS)).Num?
    ensures toUser <==> Load(c.mem, At(c.x[SP], STK_MSTATUS)).n & FRAME_USER == 0
    ensures if toUser then ReturnsToUser(cfg, c, h, c.x[SP].task) else h == c
    ensures toUser ==> h.mstatus == UserStatus(c.mstatus) && h.mcause == MCAUSE_TO_USER
    ensures toUser ==> (Agree(h) <==> Mpp(c.mstatus) == 0)
  {
    h := c;
    var t0 := Load(h.mem, At(h.x[SP], STK_MSTATUS)).n & FRAME_USER;
    toUser := t0 == 0;                                                  // the frame says U
    if toUser {
      h := LeaveToUser(cfg, h, left);
      MaskedExit(c, h);
    }
  }

  /** The first entry into U-mode: the stack top for later traps lies 16 bytes below sp. */
  method UmEnter(cfg: Config, c: Cpu, entry: Word, usp: Word, a0: Word, a1: Word, a2: Word, utp: Word, left: Regs)
    returns (h: Cpu)
    requires c.x[SP].Stk? && c.x[SP].off == 16
    ensures h.mscratch == Stk(c.x[SP].task, 0) && h.mepc == entry && CauseMpp(h.mcause) == 0
    ensures h.satp == cfg.satp(c.x[SP].task) && h.ktp == cfg.ktp(c.x[SP].task) && h.mem == c.mem
    ensures h.x == NO_REGS[SP := usp][A0 := a0][A1 := a1][A2 := a2][TP := utp]
    ensures h.mstatus == UserStatus(c.mstatus) && h.mcause == MCAUSE_TO_USER
  {
    h := TurnToUser(cfg, c, c.x[SP].task, left);
    h := h.(mepc := entry);
    h := h.(mscratch := At(h.x[SP], -16));                              // two scratch words above the stack top
    h := h.(x := NO_REGS[SP := usp][A0 := a0][A1 := a1][A2 := a2][TP := utp]);   // nothing of the kernel's left
  }
}
