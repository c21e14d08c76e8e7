/** What the steps amount to: a picked process gets the CPU, and fork(), yield(),
    exit_process() and the timer do what their callers count on. */
module SchedTurns {
  import opened Options
  import opened SchedMachine
  import opened SchedSafety
  import opened Scheduler
  import SchedFairness
  import SchedTheorems

  // ------------------------------------------------------------- a pick is a turn

  /** The process p is on the CPU, marked as running. */
  predicate HasCpu(s: State, p: nat) { |s.procs| == SLOTS && p < SLOTS && s.cur == p && s.procs[p].state == RUNNING }

  /** The scheduler's code leaves no choice, and the timer leaves it alone. */
  lemma OnlyGo(s: State, ev: Event)
    requires Shaped(s) && Enabled(s, ev) && s.sched == Some(s.cur) && At(s) != Body
    ensures ev == Go
  {
  }

  lemma GoReleases(s: State)
    requires Inv(s) && s.sched == Some(s.cur) && At(s).Claimed? && At(s).got.Some?
    ensures var t := Step(s, Go);
            Inv(t) && t.sched == Some(t.cur) && At(t) == Freed(At(s).fl, At(s).got, At(s).level) && t.queues == s.queues
  {
    hide Once, Base, AdvanceEnqueue, AdvanceProcess, FirstLevel;
    SchedFacts(s);
    StepKeepsInv(s, Go);
  }

  lemma GoRestores(s: State)
    requires Inv(s) && s.sched == Some(s.cur) && At(s).Freed? && At(s).got.Some?
    ensures var t := Step(s, Go);
            Inv(t) && t.sched == Some(t.cur) && At(t) == Chosen(At(s).got, At(s).level) && t.queues == s.queues
  {
    hide Once, Base, AdvanceEnqueue, AdvanceProcess, FirstLevel;
    SchedFacts(s);
    StepKeepsInv(s, Go);
  }

  /** From the choice it is two steps to the CPU. */
  lemma GoLaunches(s: State)
    requires Inv(s) && s.sched == Some(s.cur) && At(s).Chosen? && At(s).got.Some?
    ensures var c := At(s).got.value;
            && c < SLOTS && c != s.cur
            && var t := Step(s, Go);
               && Inv(t) && t.sched == Some(t.cur) && At(t) == Launch(c, At(s).level) && t.procs[c].state == RUNNING
               && t.queues == s.queues && t.cur == s.cur
  {
    hide Once, Base, AdvanceEnqueue, AdvanceProcess, FirstLevel;
    SchedFacts(s);
    ClaimedIsUsed(s, At(s).got.value);
    StepKeepsInv(s, Go);
  }

  lemma GoSwitches(s: State)
    requires Inv(s) && s.sched == Some(s.cur) && At(s).Launch? && At(s).c < SLOTS && At(s).c != s.cur
    requires s.procs[At(s).c].state == RUNNING
    ensures var t := Step(s, Go); Inv(t) && HasCpu(t, At(s).c) && t.queues == s.queues
  {
    hide Once, Base, AdvanceEnqueue, AdvanceProcess, FirstLevel;
    SchedFacts(s);
    StepKeepsInv(s, Go);
  }

  /** A claim is carried out: four forced steps on, the claimed process has the CPU. */
  lemma ClaimLaunches(s: State)
    requires Inv(s) && s.sched == Some(s.cur) && At(s).Claimed? && At(s).got.Some?
    ensures HasCpu(Forced(s, 4), At(s).got.value) && Forced(s, 4).queues == s.queues
  {
    hide Inv, Step, HasCpu, Forced;
    InvRuns(s);
    GoReleases(s);
    var a := Step(s, Go);
    InvRuns(a);
    GoRestores(a);
    var b := Step(a, Go);
    InvRuns(b);
    GoLaunches(b);
    var c := Step(b, Go);
    InvRuns(c);
    GoSwitches(c);
    ForcedStep(s, 3); ForcedStep(a, 2); ForcedStep(b, 1); ForcedStep(c, 0);
    ForcedNone(Step(c, Go));
  }

  lemma InvRuns(s: State)
    requires Inv(s)
    ensures Shaped(s) && !s.panicked
  {
  }

  lemma ForcedStep(s: State, n: nat)
    requires Shaped(s) && Enabled(s, Go)
    ensures Forced(s, n + 1) == Forced(Step(s, Go), n)
  {
    hide Advance;
  }

  lemma ForcedNone(s: State)
    ensures Forced(s, 0) == s
  {
  }

  lemma BackQueues(s: State)
    requires Inv(s) && s.sched == Some(s.cur) && At(s).Back? && At(s).c < SLOTS && s.procs[At(s).c].state != ZOMBIE
    ensures var t := Forced(s, 1);
            && Shaped(t) && !t.lock && At(t) == Enq(At(s).c, Demote(At(s).level), Top) && Demote(At(s).level) < LEVELS
            && t == To(s, At(t))
  {
    hide Once, AdvanceEnqueue, AdvanceProcess, FirstLevel;
    ForcedOne(s, Advance(s), 0);
  }

  lemma BackDrops(s: State)
    requires Inv(s) && s.sched == Some(s.cur) && At(s).Back?
    ensures At(s).c < SLOTS && (s.procs[At(s).c].state == ZOMBIE ==> Forced(s, 1) == To(s, Top))
  {
    hide Once, AdvanceEnqueue, AdvanceProcess, FirstLevel, Forced;
    ForcedOne(s, Advance(s), 0);
    ForcedNone(Advance(s));
  }

  lemma BackEnqueues(s: State)
    requires Inv(s) && s.sched == Some(s.cur) && At(s).Back? && At(s).c < SLOTS && s.procs[At(s).c].state != ZOMBIE
    ensures var c, l := At(s).c, Demote(At(s).level);
            l < LEVELS && Forced(s, 6) == To(s, Top).(queues := s.queues[l := s.queues[l] + [c]])
  {
    BackQueues(s);
    hide Inv, Forced;
    ForcedSum(s, 1, 5);
    var t := Forced(s, 1);
    EnqueueSteps(t);
    assert To(t, Top).procs == To(s, Top).procs;
  }

  /** A process that hands the CPU back goes to the end of the next level down, unless it has
      died; then it is let go of. Nothing else changes. */
  lemma BackRequeues(s: State)
    requires Inv(s) && s.sched == Some(s.cur) && At(s).Back?
    ensures At(s).c < SLOTS
    ensures var c, l := At(s).c, Demote(At(s).level);
            if s.procs[c].state == ZOMBIE then Forced(s, 1) == To(s, Top)
            else l < LEVELS && Forced(s, 6) == To(s, Top).(queues := s.queues[l := s.queues[l] + [c]])
  {
    hide Once, Forced;
    BackDrops(s);
    if s.procs[At(s).c].state != ZOMBIE { BackEnqueues(s); }
  }

  // ------------------------------------------------------------- over runs

  /** The k-th state of a run. */
  function Nth(s: State, evs: seq<Event>, k: nat): (t: State)
    requires Inv(s) && SchedFairness.Runs(s, evs) && k <= |evs|
    ensures Inv(t)
    decreases k
  {
    if k == 0 then s else
    StepKeepsInv(s, evs[0]);
    Nth(Step(s, evs[0]), evs[1..], k - 1)
  }

  lemma {:induction false} NthRuns(s: State, evs: seq<Event>, k: nat)
    requires Inv(s) && SchedFairness.Runs(s, evs) && k < |evs|
    ensures Enabled(Nth(s, evs, k), evs[k]) && SchedFairness.Runs(Nth(s, evs, k), evs[k..])
    ensures Nth(s, evs, k + 1) == Step(Nth(s, evs, k), evs[k])
    decreases k
  {
    hide Inv, Step, Enabled;
    if k > 0 {
      StepKeepsInv(s, evs[0]);
      NthRuns(Step(s, evs[0]), evs[1..], k - 1);
      assert evs[1..][k - 1..] == evs[k..];
    } else {
      assert evs[0..] == evs;
      StepKeepsInv(s, evs[0]);
      assert Nth(s, evs, 1) == Nth(Step(s, evs[0]), evs[1..], 0);
    }
  }

  /** In a run, the next event of a busy scheduler is its own step. */
  lemma NthGo(s: State, evs: seq<Event>, k: nat)
    requires Inv(s) && SchedFairness.Runs(s, evs) && k < |evs|
    requires var t := Nth(s, evs, k); Shaped(t) && t.sched == Some(t.cur) && At(t) != Body
    ensures evs[k] == Go && Nth(s, evs, k + 1) == Step(Nth(s, evs, k), Go)
  {
    hide Inv, Step, Enabled;
    NthRuns(s, evs, k);
    OnlyGo(Nth(s, evs, k), evs[k]);
  }

  lemma PickClaims(s: State)
    requires Inv(s) && Enabled(s, Go) && SchedFairness.Picks(s, Go)
    ensures var t := Step(s, Go);
            && Inv(t) && t.sched == Some(t.cur) && At(t).Claimed? && At(t).got == Some(SchedFairness.Picked(s))
  {
    hide Once, Base, AdvanceEnqueue, AdvanceProcess;
    SchedFacts(s);
    StepKeepsInv(s, Go);
  }

  lemma NotHeld(s: State, ev: Event)
    requires Shaped(s) && !At(s).Held?
    ensures !SchedFairness.Picks(s, ev)
  {
  }

  /** Five events after a pick the picked process has the CPU, and there is no other pick
      before that. */
  lemma PickedRuns(s: State, evs: seq<Event>, i: nat)
    requires Inv(s) && SchedFairness.Runs(s, evs) && i < |evs|
    requires Shaped(Nth(s, evs, i)) && SchedFairness.Picks(Nth(s, evs, i), evs[i])
    ensures i + 5 <= |evs| ==> HasCpu(Nth(s, evs, i + 5), SchedFairness.Picked(Nth(s, evs, i)))
    ensures forall j :: i < j < |evs| && j < i + 5 ==> Shaped(Nth(s, evs, j)) && !SchedFairness.Picks(Nth(s, evs, j), evs[j])
  {
    hide Inv, Step, Enabled, Nth, SchedFairness.Runs, SchedFairness.Picked, HasCpu;
    NthRuns(s, evs, i);
    PickClaims(Nth(s, evs, i));
    var a := Nth(s, evs, i + 1);
    InvRuns(a);
    if i + 1 < |evs| {
      NotHeld(a, evs[i + 1]);
      NthGo(s, evs, i + 1);
      GoReleases(a);
      var b := Nth(s, evs, i + 2);
      InvRuns(b);
      if i + 2 < |evs| {
        NotHeld(b, evs[i + 2]);
        NthGo(s, evs, i + 2);
        GoRestores(b);
        var c := Nth(s, evs, i + 3);
        InvRuns(c);
        if i + 3 < |evs| {
          NotHeld(c, evs[i + 3]);
          NthGo(s, evs, i + 3);
          GoLaunches(c);
          var d := Nth(s, evs, i + 4);
          InvRuns(d);
          if i + 4 < |evs| {
            NotHeld(d, evs[i + 4]);
            NthGo(s, evs, i + 4);
            GoSwitches(d);
          }
        }
      }
    }
  }

  /** Every pick is a turn: between two picks, the process picked first has had the CPU. */
  lemma BetweenPicks(s: State, evs: seq<Event>, i: nat, j: nat) returns (k: nat)
    requires Inv(s) && SchedFairness.Runs(s, evs) && i < j < |evs|
    requires Shaped(Nth(s, evs, i)) && SchedFairness.Picks(Nth(s, evs, i), evs[i])
    requires Shaped(Nth(s, evs, j)) && SchedFairness.Picks(Nth(s, evs, j), evs[j])
    ensures i < k <= j && HasCpu(Nth(s, evs, k), SchedFairness.Picked(Nth(s, evs, i)))
  {
    hide Inv, Step, Enabled, Nth, SchedFairness.Runs, SchedFairness.Picked, SchedFairness.Picks, HasCpu;
    PickedRuns(s, evs, i);
    k := i + 5;
  }

  // ------------------------------------------------------------- fork

  /** The state fork() leaves: a child in the next slot, queued last on its level, that will
      come out of fork() with the caller's interrupt flag. */
  function Forked(s: State, level: nat): State
    requires Shaped(s) && level < LEVELS && s.nextPid < SLOTS
  {
    s.(procs := s.procs[s.nextPid := Proc(READY, s.nextPid, ForkChild(s.intr))], nextPid := s.nextPid + 1,
       queues := s.queues[level := s.queues[level] + [s.nextPid]])
  }

  lemma BodyFacts(s: State)
    requires Inv(s) && At(s) == Body
    ensures Shaped(s) && Table(s) && !s.lock && !s.panicked && s.cur < s.nextPid <= SLOTS
  {
  }

  lemma ForkEntersEnqueue(s: State, level: int)
    requires Inv(s) && Enabled(s, Fork(level)) && s.nextPid < SLOTS
    ensures var t := Step(s, Fork(level));
            && Shaped(t) && !t.lock && !t.intr && At(t) == Enq(s.nextPid, level, ForkEnd(s.intr))
            && t.queues == s.queues && t.cur == s.cur
            && To(t, Body).procs == s.procs[s.nextPid := Proc(READY, s.nextPid, ForkChild(s.intr))]
            && t.(procs := s.procs, intr := s.intr, nextPid := s.nextPid) == s && t.nextPid == s.nextPid + 1
  {
    hide Inv, FreeSlot;
    BodyFacts(s);
    FreeSlotIs(s);
    var t := Step(s, Fork(level));
    assert To(t, Body).procs == s.procs[s.nextPid := Proc(READY, s.nextPid, ForkChild(s.intr))];
  }

  lemma ForkEnds(s: State)
    requires Shaped(s) && At(s).ForkEnd? && !s.intr
    ensures Forced(s, 1) == To(s, Body).(intr := At(s).fl)
  {
    hide AdvanceEnqueue, AdvanceScheduler;
    ForcedOne(s, Advance(s), 0);
  }

  /** fork() is its six forced steps: afterwards the parent is where it was, with the interrupt
      flag it had, and all that changed is the new child. With a full table nothing changes. */
  lemma ForkReturns(s: State, level: nat)
    requires Inv(s) && Enabled(s, Fork(level)) && level < LEVELS
    ensures Shaped(s) && s.nextPid <= SLOTS
    ensures s.nextPid < SLOTS ==> Forced(Step(s, Fork(level)), 6) == Forked(s, level)
    ensures s.nextPid == SLOTS ==> Step(s, Fork(level)) == s
  {
    hide Forced, Advance, Inv, FreeSlot;
    BodyFacts(s);
    FreeSlotIs(s);
    if s.nextPid < SLOTS {
      ForkEntersEnqueue(s, level);
      var t := Step(s, Fork(level));
      EnqueueSteps(t);
      ForcedSum(t, 5, 1);
      var u := To(t, ForkEnd(s.intr)).(queues := s.queues[level := s.queues[level] + [s.nextPid]]);
      ForkEnds(u);
      assert To(u, Body).procs == To(t, Body).procs;
    }
  }

  /** Nobody can come in between: until fork() returns, interrupts are off. */
  lemma ForkIsAtomic(s: State, ev: Event)
    requires Inv(s) && Enabled(s, ev) && s.sched != Some(s.cur) && (InEnqueue(At(s)) || At(s).ForkEnd?)
    ensures ev == Go && !s.intr
  {
  }

  /** The child's first step gives it the flag its parent had. */
  lemma ChildStarts(s: State, ev: Event)
    requires Inv(s) && Enabled(s, ev) && At(s).ForkChild?
    ensures ev == Go && Step(s, ev).cur == s.cur && At(Step(s, ev)) == Body && Step(s, ev).intr == At(s).fl
  {
    hide Once, AdvanceEnqueue, AdvanceScheduler;
  }

  /** Whatever runs in between, a child forked with flag b comes out of fork() with b. */
  lemma {:induction false} ChildFlagComesBack(s: State, evs: seq<Event>, t: State, p: nat, b: bool)
    returns (n: nat, u: State)
    requires Inv(s) && Run(s, evs, t) && p < s.nextPid && s.procs[p].ctl == ForkChild(b)
    requires Shaped(t) && t.procs[p].ctl != ForkChild(b)
    ensures n < |evs| && evs[n] == Go && Run(s, evs[..n], u) && Inv(u) && u.cur == p && At(u) == ForkChild(b)
    ensures Enabled(u, Go) && Step(u, Go).cur == p && Step(u, Go).intr == b && At(Step(u, Go)) == Body
    decreases |evs|
  {
    hide Inv, Enabled, Step;
    SchedTheorems.InvShaped(s);
    var ev, s1 := evs[0], Step(s, evs[0]);
    StepKeepsInv(s, ev);
    if s.cur == p {
      ChildStarts(s, ev);
      n, u := 0, s;
    } else {
      SchedTheorems.OthersStay(s, ev, p);
      var m;
      m, u := ChildFlagComesBack(s1, evs[1..], t, p, b);
      n := m + 1;
      assert evs[..n][0] == ev && evs[..n][1..] == evs[1..][..m];
    }
  }

  // ------------------------------------------------------------- leaving the CPU

  /** yield(): the process is READY, the scheduler has the CPU, and the process will go on in
      its own code with the interrupt flag it has now. */
  lemma YieldHandsOver(s: State)
    requires Inv(s) && Enabled(s, Yield)
    ensures var t := Step(s, Yield);
            && Shaped(t) && Enabled(t, Go)
            && var u := Step(t, Go);
               && Some(u.cur) == s.sched && u.queues == s.queues && !u.intr
               && u.procs == s.procs[s.cur := Proc(READY, s.procs[s.cur].pid, Switched(s.intr, Body))]
  {
    hide Once, AdvanceEnqueue, AdvanceScheduler;
    var u := Step(Step(s, Yield), Go);
    assert u.procs == s.procs[s.cur := Proc(READY, s.procs[s.cur].pid, Switched(s.intr, Body))];
  }

  /** exit_process(): the process is a ZOMBIE and the scheduler has the CPU. */
  lemma ExitHandsOver(s: State)
    requires Inv(s) && Enabled(s, Exit)
    ensures var t := Step(s, Exit);
            && Shaped(t) && Enabled(t, Go)
            && var u := Step(t, Go);
               && Some(u.cur) == s.sched && u.queues == s.queues && !u.intr
               && u.procs == s.procs[s.cur := Proc(ZOMBIE, s.procs[s.cur].pid, Switched(s.intr, Gone))]
  {
    hide Once, AdvanceEnqueue, AdvanceScheduler;
    var u := Step(Step(s, Exit), Go);
    assert u.procs == s.procs[s.cur := Proc(ZOMBIE, s.procs[s.cur].pid, Switched(s.intr, Gone))];
  }

  /** The timer takes the CPU from whoever has it, at any point at which interrupts are on, and
      leaves a frame that goes on at that point with interrupts on again. */
  lemma TickHandsOver(s: State)
    requires Inv(s) && Enabled(s, Tick)
    ensures var u := Step(s, Tick);
            && Some(u.cur) == s.sched && u.cur != s.cur && u.queues == s.queues && !u.intr
            && u.procs == s.procs[s.cur := s.procs[s.cur].(ctl := Switched(false, Iret(At(s))))]
  {
    hide Once;
  }

  /** A zombie is on the CPU only on its way out; nobody ever returns into exit_process(). */
  lemma DeadOnlyLeaves(s: State)
    requires Inv(s)
    ensures s.sched != Some(s.cur) ==> (s.procs[s.cur].state == ZOMBIE <==> At(s) == Dying)
    ensures !At(s).Gone?
  {
    hide Once;
  }

  /** Once the scheduler has let go of a zombie it never has the CPU again. */
  lemma DeadNeverRuns(s: State, evs: seq<Event>, p: nat)
    requires Inv(s) && SchedFairness.Runs(s, evs) && p < s.nextPid && SchedFairness.Buried(s, p)
    ensures SchedFairness.After(s, evs).cur != p
  {
    hide Inv, SchedFairness.After, SchedFairness.Buried;
    SchedFairness.LevelsNeverDecrease(s, evs, p);
    SchedFairness.BuriedIsOffCpu(SchedFairness.After(s, evs), p);
  }

  /** A new process starts with interrupts on: forkret() enables them, whatever they were. */
  lemma FirstRunEnables(s: State, ev: Event)
    requires Inv(s) && Enabled(s, ev) && At(s).Fresh?
    ensures ev == Go && Step(s, ev).intr && Step(s, ev).cur == s.cur
    ensures At(Step(s, ev)) == if s.sched == Some(s.cur) then Top else Body
  {
    hide Once, AdvanceEnqueue, AdvanceScheduler;
  }

  /** The scheduler looks for work, and switches to it, with interrupts on; they are off
      exactly from irq_save() to irq_restore() and right after it has been switched to. */
  lemma SchedulerInterruptible(s: State)
    requires Inv(s) && s.sched == Some(s.cur)
    ensures s.intr <==> At(s).Top? || At(s).On? || At(s).Chosen? || At(s).Launch? || At(s).Back? || At(s).Enq?
  {
    hide Once;
  }

  // ------------------------------------------------------------- the beginning

  /** At boot init runs, is queued on the lowest level and nowhere else, and is alone. */
  lemma BootPlaces(p: nat)
    requires p < SLOTS
    ensures Shaped(Boot()) && Boot().cur == 0 && !Boot().intr && Boot().sched == None
    ensures Boot().procs[p].state == if p == 0 then RUNNING else UNUSED
    ensures SchedFairness.LevelIn(Boot(), 0) == Some(LEVELS - 1) && Queued(Boot().queues, p) == if p == 0 then 1 else 0
  {
    hide Once;
    BootInv();
    assert p != 0 ==> p !in Boot().queues[2];
  }

  /** Starting the scheduler adds one process, READY, queued nowhere, which will begin at
      forkret(), and installs it; nothing else changes. */
  lemma StartInstalls(s: State)
    requires Inv(s) && Enabled(s, StartScheduler) && s.nextPid < SLOTS
    ensures Step(s, StartScheduler)
            == s.(procs := s.procs[s.nextPid := Proc(READY, s.nextPid, Fresh)], nextPid := s.nextPid + 1, sched := Some(s.nextPid))
  {
    hide Inv, FreeSlot;
    BodyFacts(s);
    FreeSlotIs(s);
  }
}
