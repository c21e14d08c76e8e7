/** swtch() and the two returns of fork(), instruction by instruction. The stack pointer is
    kept as a word number: rsp is 8 * sp. */
module Switch {
  import opened Fork

  /** The callee-saved registers. */
  datatype Regs = Regs(rbp: int, rbx: int, r12: int, r13: int, r14: int, r15: int)

  datatype Cpu = Cpu(mem: Mem, sp: int, regs: Regs, rax: int, rip: int, cr3: int)

  function Push(c: Cpu, v: int): Cpu { c.(sp := c.sp - 1, mem := c.mem[c.sp - 1 := v]) }

  function Ret(c: Cpu): Cpu
    requires c.sp in c.mem
  {
    c.(sp := c.sp + 1, rip := c.mem[c.sp])
  }

  /** push rbp, rbx, r12, r13, r14, r15. */
  function SaveRegs(c: Cpu): Cpu
  {
    Push(Push(Push(Push(Push(Push(c, c.regs.rbp), c.regs.rbx), c.regs.r12), c.regs.r13), c.regs.r14), c.regs.r15)
  }

  /** pop r15, r14, r13, r12, rbx, rbp. */
  function LoadRegs(c: Cpu): Cpu
    requires forall w :: c.sp <= w < c.sp + 6 ==> w in c.mem
  {
    c.(sp := c.sp + 6, regs := Regs(c.mem[c.sp + 5], c.mem[c.sp + 4], c.mem[c.sp + 3], c.mem[c.sp + 2],
                                    c.mem[c.sp + 1], c.mem[c.sp]))
  }

  /** swtch(&old->sp, newSp, newCr3), entered by a call: its return address is at sp. The
      stack pointer it saves for the old process is c.sp - 6. */
  function Swtch(c: Cpu, newSp: int, newCr3: int): (r: Cpu)
    requires forall w :: newSp <= w < newSp + 7 ==> w in c.mem
    ensures r.sp == newSp + 7 && forall w :: w in c.mem ==> w in r.mem
  {
    Ret(LoadRegs(SaveRegs(c).(sp := newSp, cr3 := newCr3)))
  }

  /** Where SaveRegs puts what; everything else is left alone. */
  lemma SaveRegsAt(c: Cpu)
    ensures var s := SaveRegs(c);
            && s == c.(sp := c.sp - 6, mem := s.mem)
            && (forall w :: w in c.mem ==> w in s.mem)
            && (forall w :: w in c.mem && !(c.sp - 6 <= w < c.sp) ==> s.mem[w] == c.mem[w])
            && (forall w :: c.sp - 6 <= w < c.sp ==> w in s.mem)
            && Regs(s.mem[c.sp - 1], s.mem[c.sp - 2], s.mem[c.sp - 3], s.mem[c.sp - 4], s.mem[c.sp - 5],
                    s.mem[c.sp - 6]) == c.regs
  {
  }

  /** The frame that c pushes is there in memory m, and its return address above it. */
  ghost predicate FrameKept(c: Cpu, m: Mem)
  {
    && c.sp in c.mem && (forall w :: c.sp - 6 <= w <= c.sp ==> w in m) && m[c.sp] == c.mem[c.sp]
    && Regs(m[c.sp - 1], m[c.sp - 2], m[c.sp - 3], m[c.sp - 4], m[c.sp - 5], m[c.sp - 6]) == c.regs
  }

  lemma FrameSaved(c: Cpu)
    requires c.sp in c.mem
    ensures FrameKept(c, SaveRegs(c).mem)
  {
    hide SaveRegs;
    SaveRegsAt(c);
  }

  /** A process switched out at c and back in from any later state d, on another stack,
      goes on after its call with its registers and stack as they were. */
  lemma SwitchSymmetric(c: Cpu, d: Cpu, cr3: int)
    requires FrameKept(c, d.mem) && (d.sp <= c.sp - 6 || c.sp < d.sp - 6)
    ensures var e := Swtch(d, c.sp - 6, cr3);
            e.regs == c.regs && e.sp == c.sp + 1 && e.rip == c.mem[c.sp] && e.cr3 == cr3 && e.rax == d.rax
    ensures forall w :: w in d.mem && !(d.sp - 6 <= w < d.sp) ==> Swtch(d, c.sp - 6, cr3).mem[w] == d.mem[w]
  {
    hide SaveRegs;
    SaveRegsAt(d);
  }

  /** A process switching to itself: ctx_switch() reads the stack pointer to load before
      swtch() saves the current one, so what is loaded is `saved`, from the last time the
      process left the CPU. It returns like a plain call, registers and all, if and only if
      that is where the frame is being pushed now. */
  lemma SwitchToSelf(c: Cpu, saved: int, cr3: int)
    requires c.sp in c.mem && forall w :: saved <= w < saved + 7 ==> w in c.mem
    ensures var e := Swtch(c, saved, cr3);
            (e.regs == c.regs && e.sp == c.sp + 1 && e.rip == c.mem[c.sp]) <==> saved == c.sp - 6
  {
    hide SaveRegs;
    SaveRegsAt(c);
  }

  /** A process that left at c, came back and calls deeper, at d, does not return from that
      call: it is back where c left, with c's registers, and d's frames are gone. */
  lemma SelfSwitchGoesBack(c: Cpu, d: Cpu, cr3: int)
    requires FrameKept(c, d.mem) && d.sp <= c.sp - 6
    ensures var e := Swtch(d, c.sp - 6, cr3);
            e.sp == c.sp + 1 > d.sp + 1 && e.rip == c.mem[c.sp] && e.regs == c.regs
  {
    SwitchSymmetric(c, d, cr3);
  }

  /** For instance: it last left with its return address at word 100, and now calls with
      one at word 90. It returns to the first address, eleven words further up. */
  lemma SelfSwitchFails(m: Mem, regs: Regs, cr3: int)
    requires (forall w :: 80 <= w <= 100 ==> w in m) && m[100] == 1000 && m[90] == 2000
    ensures var e := Swtch(Cpu(m, 90, regs, 0, 0, cr3), 94, cr3);
            e.rip == 1000 && e.sp == 101 && Cpu(m, 90, regs, 0, 0, cr3).mem[90] == 2000
  {
    hide SaveRegs;
    SaveRegsAt(Cpu(m, 90, regs, 0, 0, cr3));
  }

  // --------------------------------------------------------------- a new process

  /** init_stack(): the frame built by hand below the end of a new stack. */
  function InitStack(m: Mem, end: int, entry: int): Mem
  {
    m[end - 1 := 0][end - 2 := entry][end - 3 := 0][end - 4 := 0][end - 5 := 0][end - 6 := 0][end - 7 := 0][end - 8 := 0]
  }

  lemma InitStackAt(m: Mem, end: int, entry: int)
    ensures var s := InitStack(m, end, entry);
            && s[end - 2] == entry && s[end - 3] == 0 && s[end - 4] == 0 && s[end - 5] == 0 && s[end - 6] == 0
            && s[end - 7] == 0 && s[end - 8] == 0
  {
  }

  lemma StackParity(end: int)
    requires end % 512 == 0
    ensures 8 * (end - 1) % 16 == 8
  {
    assert end == 512 * (end / 512);
  }

  /** The first switch into a new process enters `entry` with rsp 8 off a multiple of 16, as
      after a call, and a zero frame pointer, which ends every walk. */
  lemma FirstSwitch(d: Cpu, end: int, entry: int, cr3: int)
    requires end % 512 == 0 && (d.sp <= end - 8 || end <= d.sp - 6)
    requires forall w :: end - 8 <= w < end ==> w in d.mem && d.mem[w] == InitStack(d.mem, end, entry)[w]
    ensures var e := Swtch(d, end - 8, cr3);
            && e.rip == entry && 8 * e.sp % 16 == 8 && e.sp == end - 1 && e.cr3 == cr3
            && e.regs == Regs(0, 0, 0, 0, 0, 0)
  {
    hide SaveRegs, InitStack;
    SaveRegsAt(d);
    InitStackAt(d.mem, end, entry);
    StackParity(end);
  }

  // --------------------------------------------------------------- fork

  /** clone_parent_base_frame() up to its call: the child's resume address, then a frame. */
  function Snapshot(c: Cpu, resume: int): Cpu { SaveRegs(Push(c, resume)) }

  /** What fork() needs of the stack it copies: the words in use end at hi, the child's stack
      is `shift` words away, and frame pointers ascend, the caller's own lying above the
      return address. */
  ghost predicate CanFork(c: Cpu, resume: int, hi: int, shift: int)
  {
    var m := Snapshot(c, resume).mem;
    && c.sp in c.mem && c.sp < hi && Stacks(m, c.sp - 7, hi, shift) && Ascending(m, c.sp - 7, hi, c.sp - 2)
    && (Points(c.regs.rbp, c.sp - 7, hi) ==> c.sp < c.regs.rbp / 8)
  }

  /** Memory after clone_stack_rebased(). */
  ghost function ForkMem(c: Cpu, resume: int, hi: int, shift: int): Mem
    requires CanFork(c, resume, hi, shift)
  {
    var m := Snapshot(c, resume).mem;
    AscendingChain(m, c.sp - 7, hi, c.sp - 2, {});
    Clone(m, c.sp - 7, hi, shift, Chain(m, c.sp - 7, hi, c.sp - 2, {}))
  }

  /** The rest of clone_parent_base_frame(): pop the frame, skip the resume address, return 1. */
  function ParentSide(s: Cpu, m: Mem): Cpu
    requires forall w :: s.sp <= w < s.sp + 8 ==> w in m
  {
    var r := LoadRegs(s.(mem := m));
    Ret(r.(sp := r.sp + 1, rax := 1))
  }

  /** fork_child_resume: return 0. */
  function ChildSide(c: Cpu): Cpu
    requires c.sp in c.mem
  {
    Ret(c.(rax := 0))
  }

  lemma SnapshotAt(c: Cpu, resume: int)
    ensures var s := Snapshot(c, resume);
            && s == c.(sp := c.sp - 7, mem := s.mem)
            && (forall w :: w in c.mem ==> w in s.mem)
            && (forall w :: w in c.mem && !(c.sp - 7 <= w < c.sp) ==> s.mem[w] == c.mem[w])
            && (forall w :: c.sp - 7 <= w < c.sp ==> w in s.mem)
            && s.mem[c.sp - 1] == resume
            && Regs(s.mem[c.sp - 2], s.mem[c.sp - 3], s.mem[c.sp - 4], s.mem[c.sp - 5], s.mem[c.sp - 6],
                    s.mem[c.sp - 7]) == c.regs
  {
    SaveRegsAt(Push(c, resume));
  }

  /** The slot from which clone_stack_rebased() starts its walk is the saved frame pointer. */
  lemma WalkStartsAtRbp(c: Cpu, resume: int)
    ensures var m := Snapshot(c, resume).mem; c.sp - 7 + FP_SLOT in m && m[c.sp - 7 + FP_SLOT] == c.regs.rbp
  {
    hide Snapshot;
    SnapshotAt(c, resume);
  }

  /** The call in the middle of clone_parent_base_frame(): the code, on the memory as the
      snapshot leaves it, produces the memory the two returns below are about. */
  method ForkStack(memory: Memory, frame: int, parentTop: int, childTop: int, ghost c: Cpu, ghost resume: int)
    returns (sp: int)
    requires CanFork(c, resume, parentTop, childTop - parentTop)
    requires memory.words == Snapshot(c, resume).mem && frame == c.sp - 7
    modifies memory
    ensures memory.words == ForkMem(c, resume, parentTop, childTop - parentTop)
    ensures sp == c.sp - 7 + (childTop - parentTop)
  {
    hide Snapshot, Clone, Chain, Aligned, Ascending;
    AscendingChain(memory.words, frame, parentTop, c.sp - 2, {});
    sp := memory.CloneStackRebased(frame, parentTop, childTop);
  }

  /** The parent comes back from clone_parent_base_frame() with 1, its registers, stack
      pointer and return address; no word at or above its stack pointer has changed. */
  lemma ParentReturns(c: Cpu, resume: int, hi: int, shift: int)
    requires CanFork(c, resume, hi, shift)
    ensures var m := ForkMem(c, resume, hi, shift);
            && (forall w :: c.sp - 7 <= w < hi ==> w in m)
            && ParentSide(Snapshot(c, resume), m) == c.(mem := m, sp := c.sp + 1, rax := 1, rip := c.mem[c.sp])
            && (forall w :: w in c.mem && !(c.sp - 7 <= w < c.sp) && !(c.sp - 7 + shift <= w < hi + shift)
                  ==> w in m && m[w] == c.mem[w])
  {
    SnapshotAt(c, resume);
    AscendingChain(Snapshot(c, resume).mem, c.sp - 7, hi, c.sp - 2, {});
  }

  /** Whenever the child is first switched to, from any state d on another stack that has
      left the child's stack alone, it comes back from the same call with 0: same return
      address, same registers, stack and frame pointers moved to its own stack. */
  lemma ChildReturns(c: Cpu, resume: int, hi: int, shift: int, d: Cpu, cr3: int)
    requires CanFork(c, resume, hi, shift)
    requires forall w :: c.sp - 7 + shift <= w < hi + shift
               ==> w in d.mem && w in ForkMem(c, resume, hi, shift) && d.mem[w] == ForkMem(c, resume, hi, shift)[w]
    requires d.sp <= c.sp - 7 + shift || hi + shift <= d.sp - 6
    ensures var e := Swtch(d, c.sp - 7 + shift, cr3);
            && e.rip == resume
            && var f := ChildSide(e);
               && f.rax == 0 && f.rip == c.mem[c.sp] && f.sp == c.sp + 1 + shift
               && f.regs.(rbp := c.regs.rbp) == c.regs
               && f.regs.rbp == (if 8 * (c.sp - 7) <= c.regs.rbp < 8 * hi then c.regs.rbp + 8 * shift else c.regs.rbp)
  {
    hide Snapshot, SaveRegs;
    SnapshotAt(c, resume);
    SaveRegsAt(d);
    var m := Snapshot(c, resume).mem;
    AscendingChain(m, c.sp - 7, hi, c.sp - 2, {});
    ChainMember(m, c.sp - 7, hi, c.sp - 2, {});
    SavedOnly(m, c.sp - 7, hi, c.sp, Chain(m, c.sp - 7, hi, c.sp - 2, {}));
  }

  /** Of the saved frame and the return address, only the frame pointer's slot is rebased. */
  lemma SavedOnly(m: Mem, lo: int, hi: int, sp: int, chain: set<int>)
    requires lo + 7 == sp < hi && Mapped(m, lo, hi) && Ascending(m, lo, hi, lo + 5) && Aligned(m, lo, hi, lo + 5, {})
    requires chain == Chain(m, lo, hi, lo + 5, {}) && (Points(m[lo + 5], lo, hi) ==> sp < m[lo + 5] / 8)
    ensures forall w :: w in chain ==> w == lo + 5 || sp < w
  {
    assert {} + {lo + 5} == {lo + 5};
    if Points(m[lo + 5], lo, hi) { AscendingChain(m, lo, hi, m[lo + 5] / 8, {lo + 5}); }
  }
}
