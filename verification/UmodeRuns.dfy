/**
 Whole runs of one hart: any number of tasks, in U-mode or M-mode, interrupted,
 switched and resumed in any order. The steps are what the entry and exit code of
 module Umode establishes; the context a task was interrupted in is recorded beside
 the machine, and it must come back.
 */
module UmodeRuns {
  import opened Umode
  import UmodeIpc

  /** A task that is not running: where its frame is and what it must get back. */
  datatype Parked = Parked(frame: int, ctx: Context)

  datatype Machine = Machine(cpu: Cpu, cur: nat, handler: bool, parked: map<nat, Parked>)

  datatype Event =
    | Compute
    | Interrupt(cause: bv32)
    | HandlerWork
    | Resume(task: nat, mstatus: bv32, mcause: bv32, exit: Cpu)
    | Exception(cause: bv32, entered: Cpu, exit: Cpu)
    | Fixup(cause: bv32, entered: Cpu, back: Cpu, exit: Cpu)
    | BackToUser(exit: Cpu)
    | FirstEntry(exit: Cpu)
    | CrossCall(cause: bv32, exit: Cpu)

  // ----- The invariant -----

  ghost predicate RunsUser(cfg: Config, c: Cpu, task: nat) {
    c.user && c.mscratch == Stk(task, 0) && c.satp == cfg.satp(task) && c.ktp == cfg.ktp(task)
  }

  ghost predicate RunsKernel(cfg: Config, c: Cpu) {
    !c.user && c.mscratch == Num(0) && c.satp == Num(0) && c.x[GP] == cfg.kgp && c.x[SP].Stk?
  }

  ghost predicate ParkedWell(cfg: Config, m: Memory, task: nat, p: Parked) {
    && FrameHolds(m, Stk(task, p.frame), p.ctx)
    && p.ctx.x[ZERO] == Num(0)
    && (p.ctx.user ==> p.frame == -FRMSZ)
    && (!p.ctx.user ==> p.ctx.x[SP] == Stk(task, p.frame + FRMSZ) && p.ctx.x[GP] == cfg.kgp)
  }

  /** Code at `sp` has popped none of the parked frames. */
  ghost predicate ClearOf(parked: map<nat, Parked>, sp: Word)
    requires sp.Stk?
  {
    sp.task in parked ==> sp.off <= parked[sp.task].frame
  }

  ghost predicate Inv(cfg: Config, m: Machine) {
    && m.cpu.x[ZERO] == Num(0)
    && (m.handler ==> RunsKernel(cfg, m.cpu) && m.cur in m.parked && ClearOf(m.parked, m.cpu.x[SP]))
    && (!m.handler ==>
          && m.cur !in m.parked
          && (m.cpu.user ==> RunsUser(cfg, m.cpu, m.cur))
          && (!m.cpu.user ==> RunsKernel(cfg, m.cpu) && m.cpu.x[SP].task == m.cur))
    && forall j :: j in m.parked ==> ParkedWell(cfg, m.cpu.mem, j, m.parked[j])
  }

  // ----- The steps -----

  ghost predicate StackKept(m: Memory, m': Memory, task: nat) {
    forall k {:trigger Load(m', Stk(task, k))} :: Load(m', Stk(task, k)) == Load(m, Stk(task, k))
  }

  ghost predicate KeptAbove(m: Memory, m': Memory, task: nat, lo: int) {
    forall k {:trigger Load(m', Stk(task, k))} :: lo <= k ==> Load(m', Stk(task, k)) == Load(m, Stk(task, k))
  }

  /** U-mode code reaches no control register and no kernel memory; kernel code keeps off other tasks' stacks. */
  ghost predicate ComputeStep(cfg: Config, m: Machine, m': Machine) {
    var (c, c') := (m.cpu, m'.cpu);
    && !m.handler
    && m' == m.(cpu := c')
    && c'.x[ZERO] == Num(0)
    && if c.user then c' == c.(x := c'.x, pc := c'.pc)
       else && c' == c.(x := c'.x, pc := c'.pc, mepc := c'.mepc, mstatus := c'.mstatus, mcause := c'.mcause, mem := c'.mem)
            && c'.x[GP] == c.x[GP] && c'.x[SP].Stk? && c'.x[SP].task == m.cur
            && forall j :: j != m.cur ==> StackKept(c.mem, c'.mem, j)
  }

  ghost predicate InterruptStep(cfg: Config, m: Machine, m': Machine, cause: bv32) {
    var c := Trap(m.cpu, cause);
    && !m.handler
    && (c.mscratch.Stk? || c.x[SP].Stk?)
    && KernelEntered(cfg, c, m'.cpu)
    && FrameHolds(m'.cpu.mem, FrameOf(c), Context(c.x, c.mepc, c.mscratch.Stk?))
    && m' == m.(cpu := m'.cpu, handler := true,
                parked := m.parked[m.cur := Parked(FrameOf(c).off, Context(m.cpu.x, m.cpu.pc, m.cpu.user))])
  }

  /** The handler and the scheduler, nested interrupts included: on any stack, but below the parked frames. */
  ghost predicate HandlerStep(cfg: Config, m: Machine, m': Machine) {
    var (c, c') := (m.cpu, m'.cpu);
    && m.handler
    && m' == m.(cpu := c')
    && c' == c.(x := c'.x, pc := c'.pc, mepc := c'.mepc, mstatus := c'.mstatus, mcause := c'.mcause, mem := c'.mem)
    && c'.x[ZERO] == Num(0) && c'.x[GP] == c.x[GP] && c'.x[SP].Stk? && ClearOf(m.parked, c'.x[SP])
    && forall j :: j in m.parked ==> KeptAbove(c.mem, c'.mem, j, m.parked[j].frame)
  }

  /**
   rtos_int_exit put sp on the frame of the task to run next; `mstatus` and `mcause` are those
   the vector kept of the task it interrupted, and `exit` is the state at mret.
   */
  ghost predicate ResumeStep(cfg: Config, m: Machine, m': Machine, task: nat, mstatus: bv32, mcause: bv32, exit: Cpu) {
    && m.handler
    && task in m.parked
    && var f := Stk(task, m.parked[task].frame);
       var c := m.cpu.(x := m.cpu.x[SP := f]);
       var user := Load(c.mem, At(f, STK_MSTATUS)) == Num(FRAME_USER);
    && (user ==> ReturnsToUser(cfg, c, exit, task))
    && (!user ==> ReturnsToKernel(c, exit))
    && Agree(exit) && StatusFor(m'.cpu.user, mstatus, exit.mstatus) && CauseFor(m'.cpu.user, mcause, exit.mcause)
    && m' == Machine(Mret(exit), task, false, m.parked - {task})
  }

  /** An app's exception: its registers saved at the stack top, its own task code running below them. */
  ghost predicate ExceptionStep(cfg: Config, m: Machine, m': Machine, cause: bv32, entered: Cpu, exit: Cpu) {
    var c := Trap(m.cpu, cause);
    && !m.handler && m.cpu.user && c.mscratch.Stk?
    && KernelEntered(cfg, c, entered)
    && HoldsRegs(entered.mem, FrameOf(c), c.x)
    && Load(entered.mem, At(FrameOf(c), 4 * SP)) == c.x[SP]
    && Load(entered.mem, FrameOf(c)) == c.mepc
    && exit == entered.(x := exit.x, mepc := cfg.kentry, mcause := exit.mcause)
    && exit.x[SP] == entered.x[SP] && exit.x[GP] == entered.x[GP] && exit.x[TP] == entered.x[TP]
    && exit.x[ZERO] == entered.x[ZERO]
    && exit.x[A0] == FrameOf(c) && exit.x[A1] == Num(c.mcause)
    && CauseMpp(exit.mcause) == 3
    && m' == m.(cpu := Mret(exit))
  }

  /**
   An app's exception that the vector answers itself, such as lending it a coprocessor.
   `back` is the state the answer leaves: the frame stands and the previous privilege is U.
   */
  ghost predicate FixupStep(cfg: Config, m: Machine, m': Machine, cause: bv32, entered: Cpu, back: Cpu, exit: Cpu) {
    var c := Trap(m.cpu, cause);
    && !m.handler && m.cpu.user && c.mscratch.Stk?
    && KernelEntered(cfg, c, entered)
    && HoldsRegs(entered.mem, FrameOf(c), c.x)
    && Load(entered.mem, At(FrameOf(c), 4 * SP)) == c.x[SP]
    && Load(entered.mem, FrameOf(c)) == c.mepc
    && back == entered.(x := back.x, mstatus := back.mstatus, mem := back.mem)
    && back.x[SP] == entered.x[SP] && back.x[ZERO] == entered.x[ZERO]
    && Mpp(back.mstatus) == Mpp(entered.mstatus)
    && UmodeIpc.KeptFrom(entered.mem, back.mem, FrameOf(c))
    && ReturnsToUser(cfg, back, exit, m.cur)
    && exit.mstatus == UserStatus(back.mstatus) && exit.mcause == MCAUSE_TO_USER
    && m' == m.(cpu := Mret(exit))
  }

  ghost predicate BackToUserStep(cfg: Config, m: Machine, m': Machine, exit: Cpu) {
    && !m.handler && !m.cpu.user
    && ReturnsToUser(cfg, m.cpu, exit, m.cur)
    && exit.mstatus == UserStatus(m.cpu.mstatus) && exit.mcause == MCAUSE_TO_USER
    && m' == m.(cpu := Mret(exit))
  }

  /** A task whose stack is all but empty goes to U-mode for the first time. */
  ghost predicate FirstEntryStep(cfg: Config, m: Machine, m': Machine, exit: Cpu) {
    && !m.handler && !m.cpu.user && m.cpu.x[SP] == Stk(m.cur, 16)
    && exit.mscratch == Stk(m.cur, 0)
    && exit.mstatus == UserStatus(m.cpu.mstatus) && exit.mcause == MCAUSE_TO_USER
    && exit.satp == cfg.satp(m.cur) && exit.ktp == cfg.ktp(m.cur) && exit.mem == m.cpu.mem
    && exit.x[ZERO] == Num(0)
    && m' == m.(cpu := Mret(exit))
  }

  /** The other core's call, taken anywhere: in an app, in a task's kernel code or in a handler. */
  ghost predicate CrossCallStep(cfg: Config, m: Machine, m': Machine, cause: bv32, exit: Cpu) {
    var c := Trap(m.cpu, cause);
    && (m.cpu.user || m.cpu.x[SP].Stk?)
    && exit == c.(mem := exit.mem)
    && UmodeIpc.KeptFrom(c.mem, exit.mem, if m.cpu.user then Stk(m.cur, 8) else m.cpu.x[SP])
    && m' == m.(cpu := Mret(exit))
  }

  predicate Exits(e: Event) {
    !e.Compute? && !e.Interrupt? && !e.HandlerWork?
  }

  ghost predicate WorkStep(cfg: Config, m: Machine, e: Event, m': Machine)
    requires !Exits(e)
  {
    match e
    case Compute => ComputeStep(cfg, m, m')
    case Interrupt(cause) => InterruptStep(cfg, m, m', cause)
    case HandlerWork => HandlerStep(cfg, m, m')
  }

  ghost predicate ExitStep(cfg: Config, m: Machine, e: Event, m': Machine)
    requires Exits(e)
  {
    match e
    case Resume(task, mstatus, mcause, exit) => ResumeStep(cfg, m, m', task, mstatus, mcause, exit)
    case Exception(cause, entered, exit) => ExceptionStep(cfg, m, m', cause, entered, exit)
    case Fixup(cause, entered, back, exit) => FixupStep(cfg, m, m', cause, entered, back, exit)
    case BackToUser(exit) => BackToUserStep(cfg, m, m', exit)
    case FirstEntry(exit) => FirstEntryStep(cfg, m, m', exit)
    case CrossCall(cause, exit) => CrossCallStep(cfg, m, m', cause, exit)
  }

  ghost predicate Step(cfg: Config, m: Machine, e: Event, m': Machine) {
    if Exits(e) then ExitStep(cfg, m, e, m') else WorkStep(cfg, m, e, m')
  }

  // ----- Each step keeps the invariant -----

  lemma KeptFrame(cfg: Config, m: Memory, m': Memory, task: nat, p: Parked)
    requires ParkedWell(cfg, m, task, p)
    requires KeptAbove(m, m', task, p.frame)
    ensures ParkedWell(cfg, m', task, p)
  {
    var f := Stk(task, p.frame);
    forall r {:trigger p.ctx.x[r]} | 1 <= r < 32 && r != SP
      ensures Load(m', At(f, 4 * r)) == p.ctx.x[r]
    {
      assert Load(m', Stk(task, p.frame + 4 * r)) == Load(m, Stk(task, p.frame + 4 * r));
    }
    assert Load(m', Stk(task, p.frame)) == Load(m, Stk(task, p.frame));
    assert Load(m', Stk(task, p.frame + 4 * SP)) == Load(m, Stk(task, p.frame + 4 * SP));
    assert Load(m', Stk(task, p.frame + STK_MSTATUS)) == Load(m, Stk(task, p.frame + STK_MSTATUS));
  }

  /** The trap frame lies on the running task's stack, so every parked frame stays. */
  lemma EntryKeepsParked(cfg: Config, m: Machine, c: Cpu, h: Cpu, j: nat)
    requires Inv(cfg, m) && !m.handler && j in m.parked
    requires c.mscratch == m.cpu.mscratch && c.x == m.cpu.x && c.mem == m.cpu.mem
    requires c.mscratch.Stk? || c.x[SP].Stk?
    requires KernelEntered(cfg, c, h)
    ensures ParkedWell(cfg, h.mem, j, m.parked[j])
  {
    assert FrameOf(c).task == m.cur;
    assert StackKept(m.cpu.mem, h.mem, j);
    KeptFrame(cfg, m.cpu.mem, h.mem, j, m.parked[j]);
  }

  lemma ComputeKeeps(cfg: Config, m: Machine, m': Machine)
    requires Inv(cfg, m) && ComputeStep(cfg, m, m')
    ensures Inv(cfg, m')
  {
    forall j | j in m'.parked ensures ParkedWell(cfg, m'.cpu.mem, j, m'.parked[j]) {
      if !m.cpu.user {
        assert StackKept(m.cpu.mem, m'.cpu.mem, j);
        KeptFrame(cfg, m.cpu.mem, m'.cpu.mem, j, m.parked[j]);
      }
    }
  }

  lemma HandlerKeeps(cfg: Config, m: Machine, m': Machine)
    requires Inv(cfg, m) && HandlerStep(cfg, m, m')
    ensures Inv(cfg, m')
  {
    forall j | j in m'.parked ensures ParkedWell(cfg, m'.cpu.mem, j, m'.parked[j]) {
      KeptFrame(cfg, m.cpu.mem, m'.cpu.mem, j, m.parked[j]);
    }
  }

  lemma InterruptKeeps(cfg: Config, m: Machine, m': Machine, cause: bv32)
    requires Inv(cfg, m) && InterruptStep(cfg, m, m', cause)
    ensures Inv(cfg, m')
  {
    var c := Trap(m.cpu, cause);
    forall j | j in m'.parked ensures ParkedWell(cfg, m'.cpu.mem, j, m'.parked[j]) {
      if j != m.cur {
        EntryKeepsParked(cfg, m, c, m'.cpu, j);
      }
    }
  }

  /** A resumed task gets back exactly the registers, pc and privilege it was interrupted with. */
  lemma ResumeRestores(cfg: Config, m: Machine, m': Machine, task: nat, mstatus: bv32, mcause: bv32, exit: Cpu)
    requires Inv(cfg, m) && ResumeStep(cfg, m, m', task, mstatus, mcause, exit)
    ensures m'.cpu.x == m.parked[task].ctx.x
    ensures m'.cpu.pc == m.parked[task].ctx.pc
    ensures m'.cpu.user == m.parked[task].ctx.user
    ensures m'.cpu.mem == m.cpu.mem
    ensures if m'.cpu.user then RunsUser(cfg, m'.cpu, task) else RunsKernel(cfg, m'.cpu)
  {
    var p := m.parked[task];
    assert ParkedWell(cfg, m.cpu.mem, task, p);
    var f := Stk(task, p.frame);
    forall r | 0 <= r < 32 ensures m'.cpu.x[r] == p.ctx.x[r] {
      assert 1 <= r && r != SP ==> Load(m.cpu.mem, At(f, 4 * r)) == p.ctx.x[r];
    }
  }

  lemma ExceptionKeeps(cfg: Config, m: Machine, m': Machine, cause: bv32, entered: Cpu, exit: Cpu)
    requires Inv(cfg, m) && ExceptionStep(cfg, m, m', cause, entered, exit)
    ensures Inv(cfg, m')
    ensures !m'.cpu.user && m'.cpu.pc == cfg.kentry && m'.cpu.x[SP] == Stk(m.cur, -FRMSZ)
    ensures AllRegsOf(m'.cpu.mem, Stk(m.cur, -FRMSZ), m.cpu.x)
    ensures Load(m'.cpu.mem, Stk(m.cur, -FRMSZ)) == m.cpu.pc
  {
    var c := Trap(m.cpu, cause);
    forall j | j in m'.parked ensures ParkedWell(cfg, m'.cpu.mem, j, m'.parked[j]) {
      EntryKeepsParked(cfg, m, c, entered, j);
    }
  }

  /** An exception the vector answers itself gives the app back everything it had. */
  lemma FixupRestores(cfg: Config, m: Machine, m': Machine, cause: bv32, entered: Cpu, back: Cpu, exit: Cpu)
    requires Inv(cfg, m) && FixupStep(cfg, m, m', cause, entered, back, exit)
    ensures m'.cpu.x == m.cpu.x && m'.cpu.pc == m.cpu.pc && m'.cpu.user
    ensures RunsUser(cfg, m'.cpu, m.cur)
    ensures m'.cpu.mem == back.mem
  {
    var f := FrameOf(Trap(m.cpu, cause));
    assert f == Stk(m.cur, -FRMSZ);
    forall r | 0 <= r < 32 ensures m'.cpu.x[r] == m.cpu.x[r] {
      if r > 0 {
        assert Load(back.mem, At(f, 4 * r)) == Load(entered.mem, At(f, 4 * r));
      }
    }
    assert Load(back.mem, At(f, 0)) == Load(entered.mem, At(f, 0));
  }

  lemma FixupKeeps(cfg: Config, m: Machine, m': Machine, cause: bv32, entered: Cpu, back: Cpu, exit: Cpu)
    requires Inv(cfg, m) && FixupStep(cfg, m, m', cause, entered, back, exit)
    ensures Inv(cfg, m')
  {
    FixupRestores(cfg, m, m', cause, entered, back, exit);
    forall j | j in m'.parked ensures ParkedWell(cfg, m'.cpu.mem, j, m'.parked[j]) {
      EntryKeepsParked(cfg, m, Trap(m.cpu, cause), entered, j);
      KeptFrame(cfg, entered.mem, back.mem, j, m.parked[j]);
    }
  }

  /** The other core's call, wherever it comes, changes nothing the code it interrupts can see. */
  lemma CrossCallTransparent(cfg: Config, m: Machine, m': Machine, cause: bv32, exit: Cpu)
    requires Inv(cfg, m) && CrossCallStep(cfg, m, m', cause, exit)
    ensures m'.cpu == m.cpu.(mepc := m'.cpu.mepc, mstatus := m'.cpu.mstatus, mcause := m'.cpu.mcause, mem := m'.cpu.mem)
    ensures m' == m.(cpu := m'.cpu)
  {
    PrivilegeBits(m.cpu, cause);
  }

  lemma CrossCallKeeps(cfg: Config, m: Machine, m': Machine, cause: bv32, exit: Cpu)
    requires Inv(cfg, m) && CrossCallStep(cfg, m, m', cause, exit)
    ensures Inv(cfg, m')
  {
    CrossCallTransparent(cfg, m, m', cause, exit);
    var sp := if m.cpu.user then Stk(m.cur, 8) else m.cpu.x[SP];
    forall j | j in m'.parked ensures ParkedWell(cfg, m'.cpu.mem, j, m'.parked[j]) {
      forall k {:trigger Load(exit.mem, Stk(j, k))} | m.parked[j].frame <= k
        ensures Load(exit.mem, Stk(j, k)) == Load(m.cpu.mem, Stk(j, k))
      {
        if j == sp.task {
          assert Stk(j, k) == At(sp, k - sp.off);
        }
      }
      KeptFrame(cfg, m.cpu.mem, exit.mem, j, m.parked[j]);
    }
  }

  lemma ResumedExit(cfg: Config, m: Machine, m': Machine, task: nat, mstatus: bv32, mcause: bv32, exit: Cpu)
    requires ResumeStep(cfg, m, m', task, mstatus, mcause, exit)
    ensures m'.cpu == Mret(exit)
    ensures StatusFor(m'.cpu.user, mstatus, exit.mstatus) && CauseFor(m'.cpu.user, mcause, exit.mcause)
  {
  }

  lemma ResumeKeeps(cfg: Config, m: Machine, m': Machine, task: nat, mstatus: bv32, mcause: bv32, exit: Cpu)
    requires Inv(cfg, m) && ResumeStep(cfg, m, m', task, mstatus, mcause, exit)
    ensures Inv(cfg, m')
  {
    ResumeRestores(cfg, m, m', task, mstatus, mcause, exit);
  }

  lemma BackToUserKeeps(cfg: Config, m: Machine, m': Machine, exit: Cpu)
    requires Inv(cfg, m) && BackToUserStep(cfg, m, m', exit)
    ensures Inv(cfg, m')
  {
  }

  lemma FirstEntryKeeps(cfg: Config, m: Machine, m': Machine, exit: Cpu)
    requires Inv(cfg, m) && FirstEntryStep(cfg, m, m', exit)
    ensures Inv(cfg, m')
  {
  }

  lemma StepKeepsInv(cfg: Config, m: Machine, e: Event, m': Machine)
    requires Inv(cfg, m) && Step(cfg, m, e, m')
    ensures Inv(cfg, m')
  {
    if Exits(e) {
      ExitKeepsInv(cfg, m, e, m');
    } else {
      WorkKeepsInv(cfg, m, e, m');
    }
  }

  lemma WorkKeepsInv(cfg: Config, m: Machine, e: Event, m': Machine)
    requires Inv(cfg, m) && !Exits(e) && WorkStep(cfg, m, e, m')
    ensures Inv(cfg, m')
  {
    match e
    case Compute => ComputeKeeps(cfg, m, m');
    case Interrupt(cause) => InterruptKeeps(cfg, m, m', cause);
    case HandlerWork => HandlerKeeps(cfg, m, m');
  }

  lemma ExitKeepsInv(cfg: Config, m: Machine, e: Event, m': Machine)
    requires Inv(cfg, m) && Exits(e) && ExitStep(cfg, m, e, m')
    ensures Inv(cfg, m')
  {
    match e
    case Resume(task, mstatus, mcause, exit) => ResumeKeeps(cfg, m, m', task, mstatus, mcause, exit);
    case Exception(cause, entered, exit) => ExceptionKeeps(cfg, m, m', cause, entered, exit);
    case Fixup(cause, entered, back, exit) => FixupKeeps(cfg, m, m', cause, entered, back, exit);
    case BackToUser(exit) => BackToUserKeeps(cfg, m, m', exit);
    case FirstEntry(exit) => FirstEntryKeeps(cfg, m, m', exit);
    case CrossCall(cause, exit) => CrossCallKeeps(cfg, m, m', cause, exit);
  }

  // ----- The code takes these steps -----

  method TakeInterrupt(cfg: Config, m: Machine, cause: bv32) returns (m': Machine)
    requires Inv(cfg, m) && !m.handler
    ensures InterruptStep(cfg, m, m', cause) && Inv(cfg, m')
  {
    var c := Trap(m.cpu, cause);
    var h := InterruptVector(cfg, c);
    m' := m.(cpu := h, handler := true,
             parked := m.parked[m.cur := Parked(FrameOf(c).off, Context(m.cpu.x, m.cpu.pc, m.cpu.user))]);
    InterruptKeeps(cfg, m, m', cause);
  }

  method SwitchTo(cfg: Config, m: Machine, task: nat, mstatus: bv32, mcause: bv32, left: Regs)
    returns (m': Machine, exit: Cpu)
    requires Inv(cfg, m) && m.handler && task in m.parked
    ensures ResumeStep(cfg, m, m', task, mstatus, mcause, exit) && Inv(cfg, m')
  {
    assert ParkedWell(cfg, m.cpu.mem, task, m.parked[task]);
    var c := m.cpu.(x := m.cpu.x[SP := Stk(task, m.parked[task].frame)]);
    exit := InterruptResume(cfg, c, mstatus, mcause, left);
    m' := Machine(Mret(exit), task, false, m.parked - {task});
    ResumeKeeps(cfg, m, m', task, mstatus, mcause, exit);
  }

  method TakeException(cfg: Config, m: Machine, cause: bv32, thread: Word)
    returns (m': Machine, entered: Cpu, exit: Cpu)
    requires Inv(cfg, m) && !m.handler && m.cpu.user && cause & 0x8000_0000 == 0
    ensures ExceptionStep(cfg, m, m', cause, entered, exit) && Inv(cfg, m')
  {
    var c := Trap(m.cpu, cause);
    var toTask;
    entered, toTask := ExceptionVector(cfg, c);
    assert toTask;
    exit := UmTrap(cfg, entered, thread);
    m' := m.(cpu := Mret(exit));
    ExceptionKeeps(cfg, m, m', cause, entered, exit);
  }

  /** `left` and `scribble` are what the vector's answer leaves in registers and memory. */
  method AnswerException(cfg: Config, m: Machine, cause: bv32, left: Regs, scribble: Memory)
    returns (m': Machine, entered: Cpu, back: Cpu, exit: Cpu)
    requires Inv(cfg, m) && !m.handler && m.cpu.user
    ensures FixupStep(cfg, m, m', cause, entered, back, exit) && Inv(cfg, m')
  {
    var c := Trap(m.cpu, cause);
    PrivilegeBits(m.cpu, cause);
    entered := ExceptionEntry(cfg, c);
    back := UmodeIpc.Body(cfg, entered, c.ktp, left, scribble);
    var toUser;
    assert Load(back.mem, At(FrameOf(c), STK_MSTATUS)) == Num(c.mstatus);
    exit, toUser := ExceptionExit(cfg, back, left);
    assert toUser;
    m' := m.(cpu := Mret(exit));
    FixupKeeps(cfg, m, m', cause, entered, back, exit);
  }

  method TakeCrossCall(cfg: Config, m: Machine, cause: bv32, left: Regs, scribble: Memory) returns (m': Machine, exit: Cpu)
    requires Inv(cfg, m)
    ensures CrossCallStep(cfg, m, m', cause, exit) && Inv(cfg, m')
  {
    exit := UmodeIpc.Handler(cfg, Trap(m.cpu, cause), left, scribble);
    m' := m.(cpu := Mret(exit));
    CrossCallKeeps(cfg, m, m', cause, exit);
  }

  method ReturnToApp(cfg: Config, m: Machine, left: Regs) returns (m': Machine, exit: Cpu)
    requires Inv(cfg, m) && !m.handler && !m.cpu.user
    ensures BackToUserStep(cfg, m, m', exit) && Inv(cfg, m')
  {
    exit := UmResume(cfg, m.cpu, Stk(m.cur, -FRMSZ), Stk(m.cur, 0), left);
    m' := m.(cpu := Mret(exit));
    BackToUserKeeps(cfg, m, m', exit);
  }

  method EnterApp(cfg: Config, m: Machine, entry: Word, usp: Word, a0: Word, a1: Word, a2: Word, utp: Word, left: Regs)
    returns (m': Machine, exit: Cpu)
    requires Inv(cfg, m) && !m.handler && !m.cpu.user && m.cpu.x[SP] == Stk(m.cur, 16)
    ensures FirstEntryStep(cfg, m, m', exit) && Inv(cfg, m')
    ensures m'.cpu.pc == entry && m'.cpu.x[SP] == usp && m'.cpu.x[TP] == utp
  {
    exit := UmEnter(cfg, m.cpu, entry, usp, a0, a1, a2, utp, left);
    m' := m.(cpu := Mret(exit));
    FirstEntryKeeps(cfg, m, m', exit);
  }

  // ----- Whole runs -----

  ghost predicate Run(cfg: Config, ms: seq<Machine>, es: seq<Event>) {
    && |ms| == |es| + 1
    && Inv(cfg, ms[0])
    && forall i {:trigger es[i]} :: 0 <= i < |es| ==> Step(cfg, ms[i], es[i], ms[i + 1])
  }

  lemma {:induction false} RunKeepsInv(cfg: Config, ms: seq<Machine>, es: seq<Event>, k: nat)
    requires Run(cfg, ms, es) && k < |ms|
    ensures Inv(cfg, ms[k])
  {
    if k > 0 {
      RunKeepsInv(cfg, ms, es, k - 1);
      StepKeepsInv(cfg, ms[k - 1], es[k - 1], ms[k]);
    }
  }

  /**
   In every reachable state outside an entry or exit, mscratch tells the two worlds apart
   and kernel code runs with the kernel's gp and no app's table.
   */
  lemma MscratchTellsPrivilege(cfg: Config, ms: seq<Machine>, es: seq<Event>, k: nat)
    requires Run(cfg, ms, es) && k < |ms|
    ensures var m := ms[k];
            && m.cpu.mscratch == (if m.cpu.user then Stk(m.cur, 0) else Num(0))
            && m.cpu.satp == (if m.cpu.user then cfg.satp(m.cur) else Num(0))
            && (!m.cpu.user ==> m.cpu.x[GP] == cfg.kgp)
  {
    RunKeepsInv(cfg, ms, es, k);
  }

  /** Interrupts and the interrupt level after a resume: those kept by the vector, and on and 0 in U-mode. */
  lemma ResumedLevel(cfg: Config, m: Machine, m': Machine, task: nat, mstatus: bv32, mcause: bv32, exit: Cpu)
    requires ResumeStep(cfg, m, m', task, mstatus, mcause, exit)
    ensures m'.cpu == Mret(exit)
    ensures Mret(exit).mstatus & 8 == if m'.cpu.user then 8 else (mstatus >> 4) & 8
    ensures Mret(exit).mcause & 0x00ff_0000 == if m'.cpu.user then 0 else mcause & 0x00ff_0000
  {
    ResumedExit(cfg, m, m', task, mstatus, mcause, exit);
    InterruptsAfter(m'.cpu.user, mstatus, mcause, exit);
  }

  // ----- The privilege an exit leaves in mstatus and in mcause -----

  lemma ExceptionDisagrees(cfg: Config, m: Machine, m': Machine, cause: bv32, entered: Cpu, exit: Cpu)
    requires ExceptionStep(cfg, m, m', cause, entered, exit)
    ensures !Agree(exit) && !m'.cpu.user
  {
    PrivilegeBits(m.cpu, cause);
  }

  lemma FixupAgrees(cfg: Config, m: Machine, m': Machine, cause: bv32, entered: Cpu, back: Cpu, exit: Cpu)
    requires FixupStep(cfg, m, m', cause, entered, back, exit)
    ensures Agree(exit) && CauseMpp(exit.mcause) == 0 && m'.cpu.user
  {
    PrivilegeBits(m.cpu, cause);
    MaskedExit(back, exit);
  }

  lemma CrossCallAgrees(cfg: Config, m: Machine, m': Machine, cause: bv32, exit: Cpu)
    requires CrossCallStep(cfg, m, m', cause, exit)
    ensures Agree(exit) && CauseMpp(exit.mcause) == if m'.cpu.user then 0 else 3
  {
    PrivilegeBits(m.cpu, cause);
  }

  lemma ResumeAgrees(cfg: Config, m: Machine, m': Machine, task: nat, mstatus: bv32, mcause: bv32, exit: Cpu)
    requires ResumeStep(cfg, m, m', task, mstatus, mcause, exit)
    ensures Agree(exit) && CauseMpp(exit.mcause) == if m'.cpu.user then 0 else 3
  {
  }

  /**
   Every exit's mcause says where it goes. mstatus says the same at every exit but two kinds:
   never where an app's exception is left for task code, and from task code back to U-mode
   exactly when mstatus said U already.
   */
  lemma AgreesExactly(cfg: Config, m: Machine, e: Event, m': Machine)
    requires Step(cfg, m, e, m') && Exits(e)
    ensures CauseMpp(e.exit.mcause) == if m'.cpu.user then 0 else 3
    ensures Agree(e.exit) <==> !e.Exception? && (e.BackToUser? || e.FirstEntry? ==> Mpp(m.cpu.mstatus) == 0)
  {
    match e
    case Resume(task, mstatus, mcause, exit) => ResumeAgrees(cfg, m, m', task, mstatus, mcause, exit);
    case Exception(cause, entered, exit) => ExceptionDisagrees(cfg, m, m', cause, entered, exit);
    case Fixup(cause, entered, back, exit) => FixupAgrees(cfg, m, m', cause, entered, back, exit);
    case BackToUser(exit) => MaskedExit(m.cpu, exit);
    case FirstEntry(exit) => MaskedExit(m.cpu, exit);
    case CrossCall(cause, exit) => CrossCallAgrees(cfg, m, m', cause, exit);
  }

  /** Task code writes mstatus, but never its previous privilege. */
  ghost predicate LeavesMppAlone(ms: seq<Machine>, es: seq<Event>)
    requires |ms| == |es| + 1
  {
    forall i {:trigger es[i]} :: 0 <= i < |es| && es[i].Compute? ==> Mpp(ms[i + 1].cpu.mstatus) == Mpp(ms[i].cpu.mstatus)
  }

  ghost predicate Settled(m: Machine) {
    !m.handler ==> Mpp(m.cpu.mstatus) == 0
  }

  lemma {:induction false} StaysSettled(cfg: Config, ms: seq<Machine>, es: seq<Event>, k: nat)
    requires Run(cfg, ms, es) && LeavesMppAlone(ms, es) && Settled(ms[0]) && k < |ms|
    ensures Settled(ms[k])
  {
    if k > 0 {
      StaysSettled(cfg, ms, es, k - 1);
      var e := es[k - 1];
      assert Step(cfg, ms[k - 1], e, ms[k]);
      if Exits(e) {
        PrivilegeBits(e.exit, 0);
      }
    }
  }

  /** Over a whole run the two records agree at every exit but the one into task code. */
  lemma ExitsAgree(cfg: Config, ms: seq<Machine>, es: seq<Event>, k: nat)
    requires Run(cfg, ms, es) && LeavesMppAlone(ms, es) && Settled(ms[0])
    requires k < |es| && Exits(es[k])
    ensures Agree(es[k].exit) <==> !es[k].Exception?
  {
    RunKeepsInv(cfg, ms, es, k);
    StaysSettled(cfg, ms, es, k);
    assert Step(cfg, ms[k], es[k], ms[k + 1]);
    AgreesExactly(cfg, ms[k], es[k], ms[k + 1]);
  }

  /** `task` is not resumed by any event from `a` up to `b`. */
  ghost predicate StaysParked(es: seq<Event>, a: nat, b: nat, task: nat)
    requires b <= |es|
  {
    forall i :: a <= i < b ==> !(es[i].Resume? && es[i].task == task)
  }

  lemma StepKeepsParked(cfg: Config, m: Machine, e: Event, m': Machine, task: nat)
    requires Inv(cfg, m) && Step(cfg, m, e, m') && task in m.parked && !(e.Resume? && e.task == task)
    ensures task in m'.parked && m'.parked[task] == m.parked[task]
  {
  }

  lemma {:induction false} ParkedContextStable(cfg: Config, ms: seq<Machine>, es: seq<Event>, a: nat, b: nat, task: nat)
    requires Run(cfg, ms, es) && a <= b < |ms|
    requires task in ms[a].parked && StaysParked(es, a, b, task)
    ensures task in ms[b].parked && ms[b].parked[task] == ms[a].parked[task]
    decreases b
  {
    if a < b {
      ParkedContextStable(cfg, ms, es, a, b - 1, task);
      RunKeepsInv(cfg, ms, es, b - 1);
      StepKeepsParked(cfg, ms[b - 1], es[b - 1], ms[b], task);
    }
  }

  /**
   However many tasks ran in between, a task interrupted at step `a` and next resumed at
   step `b` continues where it was, at its own privilege, with all 32 registers.
   */
  lemma InterruptedTaskComesBack(cfg: Config, ms: seq<Machine>, es: seq<Event>, a: nat, b: nat)
    requires Run(cfg, ms, es) && a < b < |es|
    requires es[a].Interrupt? && es[b].Resume? && es[b].task == ms[a].cur
    requires StaysParked(es, a + 1, b, ms[a].cur)
    ensures var (before, after) := (ms[a].cpu, ms[b + 1].cpu);
            && ms[b + 1].cur == ms[a].cur
            && after.x == before.x
            && after.pc == before.pc
            && after.user == before.user
            && after.mscratch == before.mscratch
            && after.satp == before.satp
  {
    assert Step(cfg, ms[a], es[a], ms[a + 1]);
    ParkedContextStable(cfg, ms, es, a + 1, b, ms[a].cur);
    RunKeepsInv(cfg, ms, es, a);
    RunKeepsInv(cfg, ms, es, b);
    assert Step(cfg, ms[b], es[b], ms[b + 1]);
    ResumeRestores(cfg, ms[b], ms[b + 1], ms[a].cur, es[b].mstatus, es[b].mcause, es[b].exit);
  }

  // ----- An app's exception and the way back, with anything in between -----

  /** A frame that still holds what an exception saved gives back every register, sp, t0, gp and tp included. */
  lemma FrameGivesBack(cfg: Config, m: Machine, m1: Machine, cause: bv32, entered: Cpu, left: Cpu,
                       m2: Machine, m3: Machine, exit: Cpu)
    requires Inv(cfg, m) && ExceptionStep(cfg, m, m1, cause, entered, left)
    requires Inv(cfg, m2) && m2.cur == m.cur && BackToUserStep(cfg, m2, m3, exit)
    requires KeptAbove(m1.cpu.mem, m2.cpu.mem, m.cur, -FRMSZ)
    ensures m3.cpu.x == m.cpu.x && m3.cpu.pc == m.cpu.pc && m3.cpu.user
    ensures m3.cpu.mscratch == m.cpu.mscratch && m3.cpu.satp == m.cpu.satp
  {
    ExceptionKeeps(cfg, m, m1, cause, entered, left);
    forall r | 0 <= r < 32 ensures m3.cpu.x[r] == m.cpu.x[r] {
      if r > 0 {
        assert Load(m2.cpu.mem, Stk(m.cur, -FRMSZ + 4 * r)) == Load(m1.cpu.mem, Stk(m.cur, -FRMSZ + 4 * r));
      }
    }
  }

  /** The task is in its kernel code, running or parked, with its stack below the saved registers. */
  ghost predicate BelowFrame(m: Machine, task: nat) {
    && (task in m.parked || (!m.handler && m.cur == task))
    && (task in m.parked ==> !m.parked[task].ctx.user && m.parked[task].frame <= -FRMSZ - FRMSZ)
    && (!m.handler && m.cur == task ==> !m.cpu.user && m.cpu.x[SP].Stk? && m.cpu.x[SP].off <= -FRMSZ)
  }

  /** The task's own steps: kernel code that leaves the saved registers alone, and no way out to U-mode. */
  ghost predicate LeavesFrame(m: Machine, e: Event, m': Machine, task: nat) {
    !m.handler && m.cur == task ==>
      && !e.BackToUser? && !e.FirstEntry?
      && (e.Compute? ==> KeptAbove(m.cpu.mem, m'.cpu.mem, task, -FRMSZ)
                         && m'.cpu.x[SP].Stk? && m'.cpu.x[SP].off <= -FRMSZ)
  }

  lemma StaysBelow(cfg: Config, m: Machine, e: Event, m': Machine, task: nat)
    requires Inv(cfg, m) && Step(cfg, m, e, m') && BelowFrame(m, task) && LeavesFrame(m, e, m', task)
    ensures BelowFrame(m', task)
  {
    if e.Resume? && e.task == task {
      ResumeRestores(cfg, m, m', task, e.mstatus, e.mcause, e.exit);
      assert ParkedWell(cfg, m.cpu.mem, task, m.parked[task]);
    }
  }

  /** Whatever the step, the saved registers stay. */
  lemma FrameStays(cfg: Config, m: Machine, e: Event, m': Machine, task: nat)
    requires Inv(cfg, m) && Step(cfg, m, e, m') && BelowFrame(m, task) && LeavesFrame(m, e, m', task)
    ensures KeptAbove(m.cpu.mem, m'.cpu.mem, task, -FRMSZ)
  {
    match e
    case Compute =>
      if m.cur != task && !m.cpu.user {
        assert StackKept(m.cpu.mem, m'.cpu.mem, task);
      }
    case Interrupt(cause) => assert FrameOf(Trap(m.cpu, cause)).task == m.cur;
    case HandlerWork => assert KeptAbove(m.cpu.mem, m'.cpu.mem, task, m.parked[task].frame);
    case Resume(t, mstatus, mcause, exit) => ResumeRestores(cfg, m, m', t, mstatus, mcause, exit);
    case Exception(cause, _, _) => assert FrameOf(Trap(m.cpu, cause)).task == m.cur != task;
    case Fixup(cause, entered, back, exit) => FixupFar(cfg, m, m', cause, entered, back, exit, task);
    case BackToUser(_) =>
    case FirstEntry(_) =>
    case CrossCall(cause, exit) => CrossCallFar(cfg, m, m', cause, exit, task);
  }

  lemma FixupFar(cfg: Config, m: Machine, m': Machine, cause: bv32, entered: Cpu, back: Cpu, exit: Cpu, task: nat)
    requires Inv(cfg, m) && FixupStep(cfg, m, m', cause, entered, back, exit) && task != m.cur
    ensures StackKept(m.cpu.mem, m'.cpu.mem, task)
  {
    assert FrameOf(Trap(m.cpu, cause)).task == m.cur;
  }

  lemma CrossCallFar(cfg: Config, m: Machine, m': Machine, cause: bv32, exit: Cpu, task: nat)
    requires Inv(cfg, m) && CrossCallStep(cfg, m, m', cause, exit) && BelowFrame(m, task)
    ensures KeptAbove(m.cpu.mem, m'.cpu.mem, task, -FRMSZ)
  {
    var sp := if m.cpu.user then Stk(m.cur, 8) else m.cpu.x[SP];
    forall k {:trigger Load(exit.mem, Stk(task, k))} | -FRMSZ <= k
      ensures Load(exit.mem, Stk(task, k)) == Load(m.cpu.mem, Stk(task, k))
    {
      if task == sp.task {
        assert Stk(task, k) == At(sp, k - sp.off);
      }
    }
  }

  ghost predicate LeavesFrameFrom(ms: seq<Machine>, es: seq<Event>, a: nat, b: nat, task: nat)
    requires |ms| == |es| + 1 && b <= |es|
  {
    forall i {:trigger es[i]} :: a <= i < b ==> LeavesFrame(ms[i], es[i], ms[i + 1], task)
  }

  lemma {:induction false} FrameStable(cfg: Config, ms: seq<Machine>, es: seq<Event>, a: nat, b: nat, task: nat)
    requires Run(cfg, ms, es) && a <= b < |ms| && BelowFrame(ms[a], task) && LeavesFrameFrom(ms, es, a, b, task)
    ensures BelowFrame(ms[b], task) && KeptAbove(ms[a].cpu.mem, ms[b].cpu.mem, task, -FRMSZ)
    decreases b
  {
    if a < b {
      FrameStable(cfg, ms, es, a, b - 1, task);
      RunKeepsInv(cfg, ms, es, b - 1);
      assert Step(cfg, ms[b - 1], es[b - 1], ms[b]) && LeavesFrame(ms[b - 1], es[b - 1], ms[b], task);
      StaysBelow(cfg, ms[b - 1], es[b - 1], ms[b], task);
      FrameStays(cfg, ms[b - 1], es[b - 1], ms[b], task);
    }
  }

  /**
   Over every run: an app that took an exception at step `a` and next goes back to U-mode at
   step `b` has every register it had, and its pc, whatever interrupts, switches to other
   tasks, their exceptions and cross-core calls came in between, as long as its own kernel
   code leaves the saved registers alone.
   */
  lemma ExceptionRoundTrip(cfg: Config, ms: seq<Machine>, es: seq<Event>, a: nat, b: nat)
    requires Run(cfg, ms, es) && a < b < |es|
    requires es[a].Exception? && es[b].BackToUser? && ms[b].cur == ms[a].cur
    requires LeavesFrameFrom(ms, es, a + 1, b, ms[a].cur)
    ensures var (before, after) := (ms[a].cpu, ms[b + 1].cpu);
            && after.x == before.x && after.pc == before.pc && after.user
            && after.mscratch == before.mscratch && after.satp == before.satp
  {
    RunKeepsInv(cfg, ms, es, a);
    RunKeepsInv(cfg, ms, es, b);
    assert Step(cfg, ms[a], es[a], ms[a + 1]) && Step(cfg, ms[b], es[b], ms[b + 1]);
    ExceptionKeeps(cfg, ms[a], ms[a + 1], es[a].cause, es[a].entered, es[a].exit);
    FrameStable(cfg, ms, es, a + 1, b, ms[a].cur);
    FrameGivesBack(cfg, ms[a], ms[a + 1], es[a].cause, es[a].entered, es[a].exit, ms[b], ms[b + 1], es[b].exit);
  }

  /** An interrupt taken inside a handler is invisible to it, the stack from its sp up included. */
  lemma NestedInterruptTransparent(cfg: Config, c: Cpu, cause: bv32, h: Cpu, c': Cpu, exit: Cpu)
    requires RunsKernel(cfg, c)
    requires KernelEntered(cfg, Trap(c, cause), h)
    requires var t := Trap(c, cause); FrameHolds(h.mem, FrameOf(t), Context(t.x, t.mepc, t.mscratch.Stk?))
    requires c'.x[SP] == h.x[SP] && c'.x[GP] == h.x[GP] && c'.x[ZERO] == c.x[ZERO]
    requires c'.mscratch == h.mscratch && c'.satp == h.satp && KeptAbove(h.mem, c'.mem, h.x[SP].task, h.x[SP].off)
    requires ReturnsToKernel(c', exit)
    ensures Mret(exit).x == c.x && Mret(exit).pc == c.pc && !Mret(exit).user
    ensures Mret(exit).mscratch == Num(0) && Mret(exit).satp == c.satp
    ensures KeptAbove(c.mem, Mret(exit).mem, c.x[SP].task, c.x[SP].off)
  {
    var f := h.x[SP];
    forall r | 0 <= r < 32 ensures exit.x[r] == c.x[r] {
      assert Load(c'.mem, Stk(f.task, f.off + 4 * r)) == Load(h.mem, Stk(f.task, f.off + 4 * r));
    }
    assert Load(c'.mem, Stk(f.task, f.off)) == Load(h.mem, Stk(f.task, f.off));
  }
}
