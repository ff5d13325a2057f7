/**
 The cross-core IPC interrupt. It has its own vector, saves only the registers a call
 may change, and must leave no trace, whichever privilege it interrupts.
 */
module UmodeIpc {
  import opened Umode

  const CONTEXT_SIZE := 128

  /** The register the handler's prologue keeps in word `i` of its context. */
  function RegOf(i: nat): (r: nat)
    requires i < 16
    ensures r < 32 && CallerSaved(r)
  {
    if i < 8 then A0 + i else if i < 11 then T0 + i - 8 else if i < 15 then 17 + i else RA
  }

  function SlotOf(r: nat): (i: nat)
    requires r < 32 && CallerSaved(r)
    ensures i < 16 && RegOf(i) == r
  {
    if r == RA then 15 else if A0 <= r < S2 then r - A0 else if r <= T2 then 8 + r - T0 else r - 17
  }

  ghost predicate HoldsCallerSaved(m: Memory, f: Word, x: Regs)
    requires f.Stk?
  {
    forall i {:trigger RegOf(i)} :: 0 <= i < 16 ==> Load(m, At(f, 4 * i)) == x[RegOf(i)]
  }

  /** A write below `f` on its stack, or to no stack at all. */
  predicate Below(a: Word, f: Word)
    requires f.Stk?
  {
    a.Stk? ==> a.task == f.task && a.off < f.off
  }

  /** Of the stacks, only what lies below `f` on its own has changed. */
  ghost predicate KeptFrom(m: Memory, m': Memory, f: Word)
    requires f.Stk?
  {
    && (forall k {:trigger Load(m', At(f, k))} :: 0 <= k ==> Load(m', At(f, k)) == Load(m, At(f, k)))
    && (forall j, k {:trigger Load(m', Stk(j, k))} :: j != f.task ==> Load(m', Stk(j, k)) == Load(m, Stk(j, k)))
  }

  /** Words one after another from `f` up. */
  function StoreWords(m: Memory, f: Word, words: seq<Word>): (m': Memory)
    requires f.Stk?
    ensures forall i {:trigger words[i]} :: 0 <= i < |words| ==> Load(m', At(f, 4 * i)) == words[i]
    ensures SameOutside(m, m', f.task, f.off, f.off + 4 * |words|)
  {
    var stored := map i | 0 <= i < |words| :: At(f, 4 * i) := words[i];
    assert forall i :: 0 <= i < |words| ==> At(f, 4 * i) in stored && stored[At(f, 4 * i)] == words[i];
    m + stored
  }

  /** IDF's prologue: a0-a7, t0-t6 and ra at the bottom of a new context. */
  method Prologue(c: Cpu) returns (h: Cpu)
    requires c.x[SP].Stk?
    ensures var f := At(c.x[SP], -CONTEXT_SIZE);
            && h == c.(x := c.x[SP := f], mem := h.mem)
            && HoldsCallerSaved(h.mem, f, c.x)
            && SameOutside(c.mem, h.mem, f.task, f.off, f.off + 64)
  {
    var f := At(c.x[SP], -CONTEXT_SIZE);
    var words: seq<Word> := seq(16, i requires 0 <= i < 16 => c.x[RegOf(i)]);
    h := c.(x := c.x[SP := f], mem := StoreWords(c.mem, f, words));
    assert forall i {:trigger RegOf(i)} :: 0 <= i < 16 ==> words[i] == c.x[RegOf(i)];
  }

  /**
   The function the other core asked for: kernel code, so it wants the kernel's gp and tp
   and no app's table, and keeps what every callee keeps. `left` and `scribble` are what
   it leaves in registers and memory.
   */
  method Body(cfg: Config, c: Cpu, tp: Word, left: Regs, scribble: Memory) returns (h: Cpu)
    requires c.x[SP].Stk? && c.x[GP] == cfg.kgp && c.x[TP] == tp && c.satp == Num(0)
    ensures h == c.(x := h.x, mem := h.mem)
    ensures forall r :: 0 <= r < 32 && !CallerSaved(r) ==> h.x[r] == c.x[r]
    ensures KeptFrom(c.mem, h.mem, c.x[SP])
  {
    var x: seq<Word> := seq(32, r requires 0 <= r < 32 => if CallerSaved(r) then left[r] else c.x[r]);
    var sp := c.x[SP];
    h := c.(x := x, mem := c.mem + map a | a in scribble && Below(a, sp) :: scribble[a]);
  }

  /** The first half of the patched entry: which world it came from, and onto the kernel stack. */
  method ToKernelStack(c: Cpu) returns (h: Cpu)
    requires c.mscratch == Num(0) || c.mscratch.Stk?
    ensures c.mscratch == Num(0) ==> h == c
    ensures c.mscratch.Stk? ==>
      && h == c.(x := c.x[T0 := c.mscratch][SP := c.mscratch], mscratch := h.mscratch, mem := h.mem)
      && Load(h.mem, c.mscratch) == c.x[SP]
      && Load(h.mem, At(c.mscratch, 4)) == c.x[T0]
      && SameOutside(c.mem, h.mem, c.mscratch.task, c.mscratch.off, c.mscratch.off + 8)
  {
    h := c.(x := c.x[T0 := c.mscratch], mscratch := c.x[T0]);       // swap t0 and mscratch
    if h.x[T0] == Num(0) {                                          // from M-mode
      h := h.(x := h.x[T0 := h.mscratch], mscratch := h.x[T0]);     // swap back
      assert h.x == c.x;
    } else {
      h := h.(mem := h.mem[h.x[T0] := h.x[SP]]);                    // the user's sp above the stack top
      h := h.(x := h.x[SP := h.mscratch]);                          // the user's t0
      h := h.(mem := h.mem[At(h.x[T0], 4) := h.x[SP]]);             // beside it
      h := h.(x := h.x[SP := h.x[T0]]);                             // onto the kernel stack
      assert h.x == c.x[T0 := c.mscratch][SP := c.mscratch];
    }
  }

  /** The second half, on the way from U-mode: the app's gp, tp and table kept, the kernel's loaded. */
  method ToKernelWorld(cfg: Config, c: Cpu) returns (h: Cpu)
    requires c.x[SP].Stk?
    ensures h == c.(x := c.x[SP := At(c.x[SP], -16)][GP := cfg.kgp][TP := c.ktp][T0 := Load(c.mem, At(c.x[SP], 4))],
                    satp := Num(0), mscratch := Num(1), mem := h.mem)
    ensures Load(h.mem, At(c.x[SP], -16)) == c.x[GP]
    ensures Load(h.mem, At(c.x[SP], -12)) == c.x[TP]
    ensures Load(h.mem, At(c.x[SP], -8)) == c.satp
    ensures SameOutside(c.mem, h.mem, c.x[SP].task, c.x[SP].off - 16, c.x[SP].off)
  {
    h := c.(x := c.x[SP := At(c.x[SP], -16)]);                      // room for three words
    h := h.(mem := h.mem[h.x[SP] := h.x[GP]]);                      // the app's gp
    h := h.(mem := h.mem[At(h.x[SP], 4) := h.x[TP]]);               // its tp
    h := h.(x := h.x[T0 := h.satp], satp := Num(0));                // no app's table
    h := h.(mem := h.mem[At(h.x[SP], 8) := h.x[T0]]);               // its table
    h := h.(x := h.x[GP := cfg.kgp]);                               // the kernel's global pointer
    h := h.(x := h.x[TP := h.ktp]);                                 // this hart's kernel tp
    h := h.(x := h.x[T0 := Load(h.mem, At(h.x[SP], 20))]);          // the user's t0 back
    h := h.(mscratch := Num(1));                                    // from U-mode, for the exit
    assert h.x == c.x[SP := At(c.x[SP], -16)][GP := cfg.kgp][TP := c.ktp][T0 := Load(c.mem, At(c.x[SP], 4))];
  }

  /** The patched entry. */
  method Entry(cfg: Config, c: Cpu) returns (h: Cpu)
    requires c.mscratch == Num(0) || c.mscratch.Stk?
    ensures c.mscratch == Num(0) ==> h == c
    ensures c.mscratch.Stk? ==>
      && h == c.(x := c.x[SP := At(c.mscratch, -16)][GP := cfg.kgp][TP := c.ktp],
                 satp := Num(0), mscratch := Num(1), mem := h.mem)
      && Load(h.mem, c.mscratch) == c.x[SP]
      && Load(h.mem, At(c.mscratch, -16)) == c.x[GP]
      && Load(h.mem, At(c.mscratch, -12)) == c.x[TP]
      && Load(h.mem, At(c.mscratch, -8)) == c.satp
      && SameOutside(c.mem, h.mem, c.mscratch.task, c.mscratch.off - 16, c.mscratch.off + 8)
  {
    h := ToKernelStack(c);
    if c.mscratch.Stk? {
      h := ToKernelWorld(cfg, h);
      assert h.x == c.x[SP := At(c.mscratch, -16)][GP := cfg.kgp][TP := c.ktp];
    }
  }

  /** The caller-saved registers back and the context popped. */
  function Epilogue(c: Cpu): Cpu
    requires c.x[SP].Stk?
  {
    var f := c.x[SP];
    var x: seq<Word> := seq(32, r requires 0 <= r < 32 =>
      if CallerSaved(r) then Load(c.mem, At(f, 4 * SlotOf(r))) else if r == SP then At(f, CONTEXT_SIZE) else c.x[r]);
    c.(x := x)
  }

  /** The end of the way back to U-mode: the app's gp, tp and sp, and the stack top for the next trap. */
  method ToUserWorld(c: Cpu) returns (h: Cpu)
    requires c.x[SP].Stk?
    ensures h == c.(mscratch := At(c.x[SP], 16),
                    x := c.x[GP := Load(c.mem, c.x[SP])][TP := Load(c.mem, At(c.x[SP], 4))][SP := Load(c.mem, At(c.x[SP], 16))])
  {
    h := c.(x := c.x[GP := Load(c.mem, c.x[SP])]);                  // the app's gp
    h := h.(x := h.x[TP := Load(h.mem, At(h.x[SP], 4))]);           // its tp
    h := h.(x := h.x[SP := At(h.x[SP], 16)]);                       // the stack top
    h := h.(mscratch := h.x[SP]);                                   // for the next trap
    h := h.(x := h.x[SP := Load(h.mem, h.x[SP])]);                  // the user's sp
    assert h.x == c.x[GP := Load(c.mem, c.x[SP])][TP := Load(c.mem, At(c.x[SP], 4))][SP := Load(c.mem, At(c.x[SP], 16))];
  }

  /** The patched exit, up to mret; `e` is what the caller-saved registers were on entry. */
  method Exit(c: Cpu, ghost e: Regs) returns (h: Cpu)
    requires c.x[SP].Stk? && HoldsCallerSaved(c.mem, c.x[SP], e)
    requires forall r :: 0 <= r < 32 && !CallerSaved(r) && r != SP ==> c.x[r] == e[r]
    requires At(c.x[SP], CONTEXT_SIZE) == e[SP]
    ensures c.mscratch == Num(0) ==> h == c.(x := e)
    ensures c.mscratch != Num(0) ==>
      h == c.(satp := Load(c.mem, At(e[SP], 8)), mscratch := At(e[SP], 16),
              x := e[GP := Load(c.mem, e[SP])][TP := Load(c.mem, At(e[SP], 4))][SP := Load(c.mem, At(e[SP], 16))])
  {
    h := c.(x := c.x[T0 := c.mscratch]);                            // which world to return to
    if h.x[T0] == Num(0) {
      h := Epilogue(h);
      assert h.x == e;
    } else {
      h := h.(x := h.x[A0 := At(h.x[SP], CONTEXT_SIZE)]);           // above the context
      h := h.(x := h.x[A0 := Load(h.mem, At(h.x[A0], 8))]);         // the app's table
      h := h.(satp := h.x[A0]);
      h := Epilogue(h);
      assert h.x == e;
      h := ToUserWorld(h);
    }
  }

  /** The handler leaves every register, satp and mscratch as it found them. */
  method Handler(cfg: Config, c: Cpu, left: Regs, scribble: Memory) returns (h: Cpu)
    requires c.mscratch.Stk? || (c.mscratch == Num(0) && c.x[SP].Stk? && c.x[GP] == cfg.kgp && c.satp == Num(0))
    ensures h == c.(mem := h.mem)
    ensures c.mscratch.Stk? ==> KeptFrom(c.mem, h.mem, At(c.mscratch, 8))
    ensures c.mscratch == Num(0) ==> KeptFrom(c.mem, h.mem, c.x[SP])
  {
    var e := Entry(cfg, c);
    var p := Prologue(e);
    var b := Body(cfg, p, if c.mscratch.Stk? then c.ktp else c.x[TP], left, scribble);
    ghost var f := p.x[SP];
    KeptContext(p.mem, b.mem, f, e.x);
    h := Exit(b, e.x);
    ghost var base := e.x[SP];
    Outside(e, p, b, f, base);
    if c.mscratch.Stk? {
      var top := c.mscratch;
      assert At(base, 0) == At(top, -16) && At(base, 4) == At(top, -12) && At(base, 8) == At(top, -8) && At(base, 16) == top;
      assert Load(b.mem, At(base, 0)) == c.x[GP] && Load(b.mem, At(base, 4)) == c.x[TP];
      assert Load(b.mem, At(base, 8)) == c.satp && Load(b.mem, At(base, 16)) == c.x[SP];
      assert h.x == c.x;
      forall k {:trigger Load(b.mem, At(At(top, 8), k))} | 0 <= k
        ensures Load(b.mem, At(At(top, 8), k)) == Load(c.mem, At(At(top, 8), k))
      {
        assert At(At(top, 8), k) == At(base, 24 + k);
        assert Load(b.mem, At(base, 24 + k)) == Load(e.mem, At(base, 24 + k));
      }
    }
  }

  lemma KeptContext(m: Memory, m': Memory, f: Word, x: Regs)
    requires f.Stk? && HoldsCallerSaved(m, f, x) && KeptFrom(m, m', f)
    ensures HoldsCallerSaved(m', f, x)
  {
    forall i {:trigger RegOf(i)} | 0 <= i < 16 ensures Load(m', At(f, 4 * i)) == x[RegOf(i)] {
      assert Load(m', At(f, 4 * i)) == Load(m, At(f, 4 * i));
    }
  }

  /** Nothing from the context up changes between the entry and the exit. */
  lemma Outside(e: Cpu, p: Cpu, b: Cpu, f: Word, base: Word)
    requires f.Stk? && base == At(f, CONTEXT_SIZE)
    requires SameOutside(e.mem, p.mem, f.task, f.off, f.off + 64)
    requires KeptFrom(p.mem, b.mem, f)
    ensures KeptFrom(e.mem, b.mem, base)
  {
    forall k {:trigger Load(b.mem, At(base, k))} | 0 <= k ensures Load(b.mem, At(base, k)) == Load(e.mem, At(base, k)) {
      assert At(base, k) == At(f, CONTEXT_SIZE + k);
      assert Load(b.mem, At(f, CONTEXT_SIZE + k)) == Load(p.mem, At(f, CONTEXT_SIZE + k));
    }
  }
}
