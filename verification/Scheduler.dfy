/** The scheduler's own routines, updating the kernel's globals in place. Each does in
    one call what the step machine does in the steps between two preemption points. */
module Scheduler {
  import opened Options
  import opened SchedMachine

  /** The MLFQ, its lock, the interrupt flag and the process table. */
  class Kernel {
    var mlfq: seq<seq<nat>>
    var lock: bool
    var intr: bool
    var states: seq<ProcState>
    var pids: seq<nat>
    var glblPid: nat
    var panicked: bool

    ghost predicate Valid()
      reads this
    {
      |mlfq| == LEVELS && |states| == SLOTS && |pids| == SLOTS
    }

    /** init_scheduler: empty levels, lock free. */
    constructor ()
      ensures Valid() && mlfq == [[], [], []] && !lock && !intr && !panicked && glblPid == 0
      ensures states == seq(SLOTS, _ => UNUSED)
    {
      mlfq := [[], [], []];
      lock := false;
      intr := false;
      states := seq(SLOTS, _ => UNUSED);
      pids := seq(SLOTS, _ => 0);
      glblPid := 0;
      panicked := false;
    }

    /** irq_save: read the flag, then cli. */
    method IrqSave() returns (flags: bool)
      modifies this`intr
      ensures flags == old(intr) && !intr
    {
      flags := intr;
      intr := false;
    }

    /** irq_restore: sti if the saved flag was set; never cli. */
    method IrqRestore(flags: bool)
      modifies this`intr
      ensures intr == Restore(old(intr), flags)
    {
      if flags {
        intr := true;
      }
    }

    /** One round of spinlock()'s loop: set the flag and see what it was. */
    method TestAndSet() returns (was: bool)
      modifies this`lock
      ensures was == old(lock) && lock
    {
      was := lock;
      lock := true;
    }

    /** spinlock: the first round gets a free lock; on one CPU a held one is never let go. */
    method Spinlock()
      requires !lock
      modifies this`lock
      ensures lock
    {
      var was := TestAndSet();
      assert !was;
    }

    method Release()
      modifies this`lock
      ensures !lock
    {
      lock := false;
    }

    /** sched_enqueue: the entry goes to the tail of its level; interrupt flag and lock are
        as before. Out of range panics. */
    method SchedEnqueue(p: nat, level: int)
      requires Valid() && !lock
      modifies this`mlfq, this`lock, this`intr, this`panicked
      ensures Valid() && !lock && intr == old(intr)
      ensures panicked == (old(panicked) || !(0 <= level < LEVELS))
      ensures mlfq == if 0 <= level < LEVELS then old(mlfq)[level := old(mlfq)[level] + [p]] else old(mlfq)
    {
      if level < 0 || level >= LEVELS {
        panicked := true;
        return;
      }
      var flags := IrqSave();
      Spinlock();
      mlfq := mlfq[level := mlfq[level] + [p]];
      Release();
      IrqRestore(flags);
    }

    /** The claim of scheduler(): scan the levels from the top and take the oldest entry. */
    method ClaimNext() returns (got: Option<nat>, level: nat)
      requires Valid() && !lock
      modifies this`mlfq, this`lock, this`intr
      ensures Valid() && !lock && intr == old(intr)
      ensures (got, level, mlfq) == Pick(old(mlfq))
    {
      got, level := None, 0;
      var flags := IrqSave();
      Spinlock();
      var i := 0;
      while i < LEVELS
        invariant 0 <= i <= LEVELS && Valid() && lock && !intr && got == None && mlfq == old(mlfq)
        invariant forall j :: 0 <= j < i ==> mlfq[j] == []
      {
        if mlfq[i] != [] {
          FirstIs(mlfq, i);
          got, level := Some(mlfq[i][0]), i;
          mlfq := mlfq[i := mlfq[i][1..]];
          break;
        }
        i := i + 1;
      }
      if got == None { FirstIs(old(mlfq), LEVELS); }
      Release();
      IrqRestore(flags);
    }

    /** The slot search of alloc_process: claim the first UNUSED slot and number it. */
    method AllocSlot() returns (slot: Option<nat>)
      requires Valid()
      modifies this`states, this`pids, this`glblPid, this`intr
      ensures Valid() && intr == old(intr)
      ensures slot == None <==> forall i :: 0 <= i < SLOTS ==> old(states)[i] != UNUSED
      ensures slot == None ==> states == old(states) && pids == old(pids) && glblPid == old(glblPid)
      ensures slot.Some? ==>
                && slot.value < SLOTS && old(states)[slot.value] == UNUSED
                && (forall i :: 0 <= i < slot.value ==> old(states)[i] != UNUSED)
                && states == old(states)[slot.value := READY] && pids == old(pids)[slot.value := old(glblPid)]
                && glblPid == (old(glblPid) + 1) % 256
    {
      var flags := IrqSave();
      slot := None;
      var it := 0;
      while it < SLOTS
        invariant 0 <= it <= SLOTS && Valid() && !intr && slot == None
        invariant states == old(states) && pids == old(pids) && glblPid == old(glblPid)
        invariant forall i :: 0 <= i < it ==> states[i] != UNUSED
      {
        if states[it] == UNUSED {
          slot := Some(it);
          states := states[it := READY];
          pids := pids[it := glblPid];
          glblPid := (glblPid + 1) % 256;
          break;
        }
        it := it + 1;
      }
      IrqRestore(flags);
    }
  }

  /** The scan stops at the first non-empty level. */
  lemma FirstIs(queues: seq<seq<nat>>, i: nat)
    requires i <= |queues| && (i < |queues| ==> queues[i] != []) && forall j :: 0 <= j < i ==> queues[j] == []
    ensures FirstLevel(queues) == i
  {
    if i > 0 { FirstIs(queues[1..], i - 1); }
  }

  /** demote() stops at the bottom level and otherwise goes one down. */
  lemma DemoteRange(level: nat)
    requires level < LEVELS
    ensures level <= Demote(level) < LEVELS && (Demote(level) == level <==> level == LEVELS - 1)
  {
  }

  // ------------------------------------------------------------- calls and steps

  /** n forced steps of the running process. */
  function Forced(s: State, n: nat): State
    decreases n
  {
    if n == 0 || !Shaped(s) then s else Forced(Advance(s), n - 1)
  }

  lemma ForcedOne(s: State, t: State, n: nat)
    requires Shaped(s) && Advance(s) == t
    ensures Forced(s, n + 1) == Forced(t, n)
  {
  }

  lemma EnqueueLocks(s: State)
    requires Shaped(s) && !s.lock && At(s).Enq? && 0 <= At(s).lv < LEVELS
    ensures Forced(s, 2) == To(s, EnqHeld(At(s).c, At(s).lv, s.intr, At(s).k)).(intr := false, lock := true)
  {
    hide FirstLevel, AdvanceScheduler, AdvanceProcess;
    var t := To(s, EnqOff(At(s).c, At(s).lv, s.intr, At(s).k)).(intr := false);
    ForcedOne(s, t, 1);
    ForcedOne(t, Advance(t), 0);
    assert Advance(t).procs == To(s, EnqHeld(At(s).c, At(s).lv, s.intr, At(s).k)).procs;
  }

  lemma ForcedSum(s: State, m: nat, n: nat)
    ensures Forced(s, m + n) == Forced(Forced(s, m), n)
    decreases m
  {
    hide Advance, Shaped;
    if m > 0 && Shaped(s) { ForcedSum(Advance(s), m - 1, n); }
    else if m > 0 { assert Forced(s, m + n) == s == Forced(s, n); }
  }

  lemma EnqueueAdds(s: State)
    requires Shaped(s) && At(s).EnqHeld? && 0 <= At(s).lv < LEVELS && At(s).c < SLOTS
    ensures var k := At(s);
            && Forced(s, 1) == To(s, EnqDone(k.fl, k.k)).(queues := s.queues[k.lv := s.queues[k.lv] + [k.c]])
            && Shaped(Forced(s, 1))
  {
    hide FirstLevel, AdvanceScheduler, AdvanceProcess;
    ForcedOne(s, Advance(s), 0);
  }

  lemma EnqueueReleases(s: State)
    requires Shaped(s) && At(s).EnqDone?
    ensures Forced(s, 2) == To(s, At(s).k).(lock := false, intr := Restore(s.intr, At(s).fl))
  {
    hide FirstLevel, AdvanceScheduler, AdvanceProcess;
    var k := At(s);
    var t := To(s, EnqFree(k.fl, k.k)).(lock := false);
    ForcedOne(s, t, 1);
    ForcedOne(t, Advance(t), 0);
    assert Advance(t).procs == To(s, k.k).procs;
  }

  lemma EnqueueUnlocks(s: State)
    requires Shaped(s) && At(s).EnqHeld? && 0 <= At(s).lv < LEVELS && At(s).c < SLOTS
    ensures var k := At(s);
            Forced(s, 3) == To(s, k.k).(queues := s.queues[k.lv := s.queues[k.lv] + [k.c]], lock := false,
                                        intr := Restore(s.intr, k.fl))
  {
    hide FirstLevel, Advance, Forced;
    var k := At(s);
    EnqueueAdds(s);
    ForcedSum(s, 1, 2);
    var t := Forced(s, 1);
    EnqueueReleases(t);
    assert To(t, k.k).procs == To(s, k.k).procs;
  }

  /** The five steps of sched_enqueue() are one SchedEnqueue: entry at the tail, lock free,
      and the interrupt flag as it was on entry. */
  lemma EnqueueSteps(s: State)
    requires Shaped(s) && !s.lock && At(s).Enq? && 0 <= At(s).lv < LEVELS && At(s).c < SLOTS
    ensures var k := At(s);
            Forced(s, 5) == To(s, k.k).(queues := s.queues[k.lv := s.queues[k.lv] + [k.c]])
  {
    hide FirstLevel, Advance, Forced;
    var k := At(s);
    EnqueueLocks(s);
    ForcedSum(s, 2, 3);
    var t := To(s, EnqHeld(k.c, k.lv, s.intr, k.k)).(intr := false, lock := true);
    EnqueueUnlocks(t);
    assert To(t, k.k).procs == To(s, k.k).procs;
  }

  lemma ClaimLocks(s: State)
    requires Shaped(s) && !s.lock && At(s).On?
    ensures Forced(s, 2) == To(s, Held(s.intr)).(intr := false, lock := true)
  {
    hide FirstLevel, AdvanceEnqueue, AdvanceProcess;
    var t := To(s, Off(s.intr)).(intr := false);
    ForcedOne(s, t, 1);
    ForcedOne(t, Advance(t), 0);
    assert Advance(t).procs == To(s, Held(s.intr)).procs;
  }

  lemma ClaimUnlocks(s: State)
    requires Shaped(s) && At(s).Claimed?
    ensures var k := At(s);
            Forced(s, 2) == To(s, Chosen(k.got, k.level)).(lock := false, intr := Restore(s.intr, k.fl))
  {
    hide FirstLevel, AdvanceEnqueue, AdvanceProcess;
    var k := At(s);
    var t := To(s, Freed(k.fl, k.got, k.level)).(lock := false);
    ForcedOne(s, t, 1);
    ForcedOne(t, Advance(t), 0);
    assert Advance(t).procs == To(s, Chosen(k.got, k.level)).procs;
  }

  /** What the scan takes, and what it leaves. */
  function Pick(queues: seq<seq<nat>>): (Option<nat>, nat, seq<seq<nat>>)
  {
    var i := FirstLevel(queues);
    if i == |queues| then (None, 0, queues) else (Some(queues[i][0]), i, queues[i := queues[i][1..]])
  }

  lemma ClaimScans(s: State)
    requires Shaped(s) && At(s).Held?
    ensures var p := Pick(s.queues);
            Advance(s) == To(s, Claimed(At(s).fl, p.0, p.1)).(queues := p.2) && Shaped(Advance(s))
  {
    hide AdvanceEnqueue, AdvanceProcess;
  }

  /** The steps from irq_save() to irq_restore() in scheduler() are one ClaimNext. */
  lemma ClaimSteps(s: State)
    requires Shaped(s) && !s.lock && At(s).On?
    ensures var p := Pick(s.queues);
            Forced(s, 5) == To(s, Chosen(p.0, p.1)).(queues := p.2)
  {
    hide Pick, FirstLevel, Advance, Forced;
    var p := Pick(s.queues);
    ClaimLocks(s);
    ForcedSum(s, 2, 3);
    var t := To(s, Held(s.intr)).(intr := false, lock := true);
    ClaimScans(t);
    var u := Advance(t);
    ForcedOne(t, u, 2);
    ClaimUnlocks(u);
    assert To(u, Chosen(p.0, p.1)).procs == To(s, Chosen(p.0, p.1)).procs;
  }
}
