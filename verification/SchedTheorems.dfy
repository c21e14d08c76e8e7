/** What the invariant means: scheduler safety, interrupt-flag discipline and process
    identity over every run from boot. */
module SchedTheorems {
  import opened Options
  import opened SchedMachine
  import opened SchedSafety

  /** Every state of every run satisfies the invariant, and no run panics. */
  lemma EveryRun(evs: seq<Event>, t: State)
    requires Run(Boot(), evs, t)
    ensures Inv(t) && !t.panicked
  {
    BootInv();
    RunKeepsInv(Boot(), evs, t);
  }

  /** A live process other than the scheduler is on exactly one level exactly once, or is
      the one claimed process and on none, or is a child on its way to its first queue. */
  lemma LiveProcessHasOnePlace(s: State, p: nat)
    requires Inv(s) && p < s.nextPid && s.sched != Some(p) && s.procs[p].state != ZOMBIE
    ensures Queued(s.queues, p) <= 1
    ensures Queued(s.queues, p) == 1 <==> !IsClaimed(s, p) && !IsEmbryo(s, p)
    ensures !(IsClaimed(s, p) && IsEmbryo(s, p))
  {
    hide Queued;
    assert Places(s, p) == 1;
  }

  /** Zombies, unused slots and the scheduler process are never queued. */
  lemma NeverQueued(s: State, p: nat)
    requires Inv(s) && p < SLOTS
    requires s.sched == Some(p) || s.procs[p].state == ZOMBIE || s.procs[p].state == UNUSED
    ensures Queued(s.queues, p) == 0
  {
    hide Queued;
    assert Places(s, p) <= 1;
    assert s.sched == Some(p) || s.procs[p].state == UNUSED ==> Places(s, p) == 0;
  }

  /** Once the scheduler has run, whoever else is on the cpu is the claimed process and off every queue. */
  lemma RunningIsClaimed(s: State)
    requires Inv(s) && s.booted && s.sched != Some(s.cur)
    ensures IsClaimed(s, s.cur) && Queued(s.queues, s.cur) == 0
  {
    hide Queued;
    assert Places(s, s.cur) <= 1;
  }

  /** Process ids are distinct: each used slot's pid is its index. */
  lemma PidsAreDistinct(s: State, p: nat, q: nat)
    requires Inv(s) && p < SLOTS && q < SLOTS && p != q
    requires s.procs[p].state != UNUSED && s.procs[q].state != UNUSED
    ensures s.procs[p].pid == p && s.procs[q].pid == q && s.procs[p].pid != s.procs[q].pid
  {
  }

  /** A forked child's pid is never 0, so fork() returns 0 in the child alone. */
  lemma ChildPidIsNonzero(s: State, level: int)
    requires Inv(s) && Enabled(s, Fork(level)) && FreeSlot(s.procs) < SLOTS
    ensures Step(s, Fork(level)).procs[FreeSlot(s.procs)].pid == s.nextPid != 0
  {
    FreeSlotIs(s);
  }

  /** While mlfq_lock is held interrupts are off, so the timer cannot run; and whoever is
      about to take it finds it free: no self-deadlock. */
  lemma LockDiscipline(s: State)
    requires Inv(s)
    ensures s.lock ==> !s.intr && !Enabled(s, Tick)
    ensures At(s).EnqOff? || At(s).Off? ==> !s.lock && Step(s, Go).lock
  {
  }

  /** sched_enqueue panics exactly for a level out of range. */
  lemma EnqueuePanics(s: State, level: int)
    requires Inv(s) && Enabled(s, Fork(level)) && s.nextPid < SLOTS
    ensures var t := Step(s, Fork(level));
            Shaped(t) && Enabled(t, Go) && (Step(t, Go).panicked <==> !(0 <= level < LEVELS))
  {
    FreeSlotIs(s);
  }

  // ------------------------------------------------------------- the interrupt flag

  lemma ToSets(s: State)
    requires Shaped(s)
    ensures forall k {:trigger To(s, k)} :: To(s, k).cur == s.cur && |To(s, k).procs| == SLOTS && To(s, k).procs[s.cur].ctl == k
  {
  }

  lemma SchedulerLeaves(s: State)
    requires Shaped(s) && InScheduler(At(s)) && AdvanceScheduler(s).cur != s.cur
    ensures |AdvanceScheduler(s).procs| == SLOTS
    ensures AdvanceScheduler(s).procs[s.cur].ctl.Switched? && AdvanceScheduler(s).procs[s.cur].ctl.fl == s.intr
  {
    hide FirstLevel, Demote, Restore, To;
    ToSets(s);
  }

  lemma ProcessLeaves(s: State)
    requires Shaped(s) && !InEnqueue(At(s)) && !InScheduler(At(s)) && AdvanceProcess(s).cur != s.cur
    ensures |AdvanceProcess(s).procs| == SLOTS
    ensures AdvanceProcess(s).procs[s.cur].ctl.Switched? && AdvanceProcess(s).procs[s.cur].ctl.fl == s.intr
  {
    hide To;
    ToSets(s);
  }

  lemma EnqueueStays(s: State)
    requires Shaped(s) && InEnqueue(At(s))
    ensures AdvanceEnqueue(s).cur == s.cur
  {
  }

  /** Leaving the cpu saves the flag: in the ctx_switch() frame, or in the interrupt frame. */
  lemma LeavingSavesFlag(s: State, ev: Event)
    requires Inv(s) && Enabled(s, ev) && Sane(s, ev) && Step(s, ev).cur != s.cur
    ensures |Step(s, ev).procs| == SLOTS
    ensures var k := Step(s, ev).procs[s.cur].ctl;
            if ev == Tick then s.intr && k == Switched(false, Iret(At(s))) else k.Switched? && k.fl == s.intr
  {
    hide Once, Parked, Running, Scheduling, Table, Control, AdvanceEnqueue, AdvanceScheduler, AdvanceProcess;
    if ev == Go {
      if InEnqueue(At(s)) { EnqueueStays(s); }
      else if InScheduler(At(s)) { SchedulerLeaves(s); }
      else { ProcessLeaves(s); }
    }
  }

  predicate SameFor(s: State, t: State, p: nat)
    requires Shaped(s) && p < SLOTS
  {
    |t.procs| == SLOTS && t.procs[p].ctl == s.procs[p].ctl && t.nextPid == s.nextPid
  }

  /** Moving the running process touches nobody else. */
  lemma ToKeeps(s: State, p: nat)
    requires Shaped(s) && p < SLOTS && p != s.cur
    ensures forall k {:trigger To(s, k)} :: To(s, k).procs[p] == s.procs[p] && To(s, k) == s.(procs := To(s, k).procs)
    ensures forall k {:trigger To(s, k)} :: |To(s, k).procs| == SLOTS
  {
  }

  lemma EnqueueKeepsOthers(s: State, p: nat)
    requires Shaped(s) && p < SLOTS && p != s.cur && InEnqueue(At(s))
    ensures SameFor(s, AdvanceEnqueue(s), p)
  {
    hide To;
    ToKeeps(s, p);
  }

  lemma SchedulerKeepsOthers(s: State, p: nat)
    requires Shaped(s) && p < SLOTS && p != s.cur && InScheduler(At(s))
    ensures SameFor(s, AdvanceScheduler(s), p)
  {
    hide FirstLevel, Restore, Demote, To;
    ToKeeps(s, p);
  }

  lemma ProcessKeepsOthers(s: State, p: nat)
    requires Shaped(s) && p < SLOTS && p != s.cur && !InEnqueue(At(s)) && !InScheduler(At(s))
    ensures SameFor(s, AdvanceProcess(s), p)
  {
    hide To;
    ToKeeps(s, p);
  }

  lemma AdvanceKeepsOthers(s: State, p: nat)
    requires Shaped(s) && p < SLOTS && p != s.cur
    ensures SameFor(s, Advance(s), p)
  {
    hide AdvanceEnqueue, AdvanceScheduler, AdvanceProcess, SameFor;
    if InEnqueue(At(s)) { EnqueueKeepsOthers(s, p); }
    else if InScheduler(At(s)) { SchedulerKeepsOthers(s, p); }
    else { ProcessKeepsOthers(s, p); }
  }

  lemma ChoiceKeepsOthers(s: State, ev: Event, p: nat)
    requires Shaped(s) && Table(s) && Enabled(s, ev) && ev != Go && p < s.nextPid && p != s.cur && s.nextPid <= SLOTS
    ensures var t := Step(s, ev); |t.procs| == SLOTS && t.procs[p].ctl == s.procs[p].ctl && s.nextPid <= t.nextPid
  {
    FreeSlotIs(s);
  }

  /** A step changes the control point of nobody but the running process, new slots apart. */
  lemma OthersStay(s: State, ev: Event, p: nat)
    requires Inv(s) && Enabled(s, ev) && p < s.nextPid && p != s.cur
    ensures var t := Step(s, ev); |t.procs| == SLOTS && t.procs[p].ctl == s.procs[p].ctl && s.nextPid <= t.nextPid
  {
    hide Once, Control, ClaimAlive, Embryo, Table, Advance;
    InvShaped(s);
    if ev == Go { AdvanceKeepsOthers(s, p); } else { ChoiceKeepsOthers(s, ev, p); }
  }

  /** Back on the cpu inside ctx_switch(), the only step restores exactly the saved flag. */
  lemma ResumeRestores(s: State, ev: Event)
    requires Inv(s) && Enabled(s, ev) && At(s).Switched?
    ensures ev == Go && Step(s, ev).cur == s.cur && Step(s, ev).intr == At(s).fl && At(Step(s, ev)) == At(s).k
  {
  }

  /** ... and an interrupt frame turns interrupts back on, as they were. */
  lemma IretRestores(s: State, ev: Event)
    requires Inv(s) && Enabled(s, ev) && At(s).Iret?
    ensures ev == Go && Step(s, ev).cur == s.cur && Step(s, ev).intr && At(Step(s, ev)) == At(s).k
  {
  }

  /** Whatever runs in between, a process that left inside ctx_switch() with flag b gets
      b back at the moment it returns from ctx_switch(). */
  lemma {:induction false} FlagComesBack(s: State, evs: seq<Event>, t: State, p: nat, b: bool, k: Ctl)
    returns (n: nat, u: State)
    requires Inv(s) && Run(s, evs, t) && p < s.nextPid && s.procs[p].ctl == Switched(b, k)
    requires Shaped(t) && t.procs[p].ctl != Switched(b, k)
    ensures n < |evs| && evs[n] == Go && Run(s, evs[..n], u) && Inv(u) && u.cur == p && At(u) == Switched(b, k)
    ensures Enabled(u, Go) && Step(u, Go).cur == p && Step(u, Go).intr == b && At(Step(u, Go)) == k
    decreases |evs|
  {
    hide Inv, Enabled, Step;
    InvShaped(s);
    var ev, s1 := evs[0], Step(s, evs[0]);
    StepKeepsInv(s, ev);
    if s.cur == p {
      ResumeRestores(s, ev);
      n, u := 0, s;
    } else {
      OthersStay(s, ev, p);
      var m;
      m, u := FlagComesBack(s1, evs[1..], t, p, b, k);
      n := m + 1;
      assert evs[..n][0] == ev && evs[..n][1..] == evs[1..][..m];
    }
  }

  lemma InvShaped(s: State)
    requires Inv(s)
    ensures Shaped(s) && s.nextPid <= SLOTS && Table(s)
  {
  }
}
