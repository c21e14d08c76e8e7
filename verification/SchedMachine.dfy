/** The scheduler, fork, yield, exit and the timer as one step machine on a single
    CPU: processes are preempted between any two steps at which interrupts are on. */
module SchedMachine {
  import opened Options

  const LEVELS: nat := 3   // NUM_PRIORITY_LEVELS
  const SLOTS: nat := 10   // NUM_PROCESSES

  datatype ProcState = UNUSED | READY | RUNNING | SLEEPING | ZOMBIE

  /** Where a process is in its kernel code, with the interrupt flags its frames saved. */
  datatype Ctl =
    | Fresh                                                   // never run: forkret() comes first
    | ForkChild(fl: bool)                                     // never run: comes back out of fork()
    | Switched(fl: bool, k: Ctl)                              // inside ctx_switch(), past irq_save()
    | Iret(k: Ctl)                                            // interrupt frame, interrupts were on
    | Body                                                    // its own code
    | Yielding                                                // yield(), state is READY
    | Dying                                                   // exit_process(), state is ZOMBIE
    | Gone                                                    // past exit_process()'s ctx_switch()
    | ForkEnd(fl: bool)                                       // fork(), child queued
    | Enq(c: nat, lv: int, k: Ctl)                            // sched_enqueue() entered
    | EnqOff(c: nat, lv: int, fl: bool, k: Ctl)               // after irq_save()
    | EnqHeld(c: nat, lv: int, fl: bool, k: Ctl)              // lock taken
    | EnqDone(fl: bool, k: Ctl)                               // entry added, lock still held
    | EnqFree(fl: bool, k: Ctl)                               // lock released
    | Top                                                     // scheduler(): head of the loop
    | On                                                      // after sti
    | Off(fl: bool)                                           // after irq_save()
    | Held(fl: bool)                                          // lock taken
    | Claimed(fl: bool, got: Option<nat>, level: nat)         // scan done, lock still held
    | Freed(fl: bool, got: Option<nat>, level: nat)           // lock released
    | Chosen(got: Option<nat>, level: nat)                    // flags restored
    | Launch(c: nat, level: nat)                              // state is RUNNING
    | Back(c: nat, level: nat)                                // c handed the cpu back

  datatype Proc = Proc(state: ProcState, pid: nat, ctl: Ctl)

  /** Process table, MLFQ, cpus[0], __glbl_pid, the interrupt flag and mlfq_lock.
      `booted` is set once control has first passed to the scheduler process. */
  datatype State = State(procs: seq<Proc>, queues: seq<seq<nat>>, cur: nat, sched: Option<nat>,
                         nextPid: nat, intr: bool, lock: bool, booted: bool, panicked: bool)

  /** What the running process, or the timer, does next. */
  datatype Event = Go | Yield | Exit | Fork(level: int) | StartScheduler | HandOver | Tick

  function Demote(level: nat): nat { if level + 1 < LEVELS then level + 1 else level }

  /** Index of the first non-empty level, LEVELS if there is none. */
  function FirstLevel(queues: seq<seq<nat>>): (i: nat)
    ensures i <= |queues|
    ensures i < |queues| ==> queues[i] != []
    ensures forall j :: 0 <= j < i ==> queues[j] == []
  {
    if queues == [] || queues[0] != [] then 0
    else
      var i := FirstLevel(queues[1..]) + 1;
      assert forall j :: 0 < j < i ==> queues[j] == queues[1..][j - 1];
      i
  }

  /** First UNUSED slot, or the table size. */
  function FreeSlot(procs: seq<Proc>): (i: nat)
    ensures i <= |procs|
    ensures i < |procs| ==> procs[i].state == UNUSED
    ensures forall j :: 0 <= j < i ==> procs[j].state != UNUSED
  {
    if procs == [] || procs[0].state == UNUSED then 0
    else
      var i := FreeSlot(procs[1..]) + 1;
      assert forall j :: 0 < j < i ==> procs[j] == procs[1..][j - 1];
      i
  }

  predicate Shaped(s: State)
  {
    && |s.procs| == SLOTS && |s.queues| == LEVELS && s.cur < SLOTS
    && (s.sched.Some? ==> s.sched.value < SLOTS)
    && forall l, j :: 0 <= l < LEVELS && 0 <= j < |s.queues[l]| ==> s.queues[l][j] < SLOTS
  }

  function At(s: State): Ctl
    requires Shaped(s)
  {
    s.procs[s.cur].ctl
  }

  /** The running process moves to control point k. */
  function To(s: State, k: Ctl): State
    requires Shaped(s)
  {
    s.(procs := s.procs[s.cur := s.procs[s.cur].(ctl := k)])
  }

  function SetState(s: State, p: nat, st: ProcState): State
    requires Shaped(s) && p < SLOTS
  {
    s.(procs := s.procs[p := s.procs[p].(state := st)])
  }

  /** ctx_switch(new): save and clear the interrupt flag, leave at k, run new. */
  function SwitchTo(s: State, new_: nat, k: Ctl): State
    requires Shaped(s) && new_ < SLOTS
  {
    To(s, Switched(s.intr, k)).(intr := false, cur := new_, booted := true)
  }

  /** irq_restore(fl): can only turn interrupts on. */
  function Restore(intr: bool, fl: bool): bool { intr || fl }

  predicate InEnqueue(k: Ctl) { k.Enq? || k.EnqOff? || k.EnqHeld? || k.EnqDone? || k.EnqFree? }

  predicate InScheduler(k: Ctl)
  {
    k.Top? || k.On? || k.Off? || k.Held? || k.Claimed? || k.Freed? || k.Chosen? || k.Launch? || k.Back?
  }

  /** sched_enqueue(): range check, irq_save, lock, add at the tail, release, irq_restore. */
  function AdvanceEnqueue(s: State): State
    requires Shaped(s) && InEnqueue(At(s))
  {
    match At(s)
    case Enq(c, lv, k) =>
      if 0 <= lv < LEVELS then To(s, EnqOff(c, lv, s.intr, k)).(intr := false) else s.(panicked := true)
    case EnqOff(c, lv, fl, k) => if s.lock then s else To(s, EnqHeld(c, lv, fl, k)).(lock := true)
    case EnqHeld(c, lv, fl, k) =>
      if 0 <= lv < LEVELS && c < SLOTS
      then To(s, EnqDone(fl, k)).(queues := s.queues[lv := s.queues[lv] + [c]])
      else s.(panicked := true)
    case EnqDone(fl, k) => To(s, EnqFree(fl, k)).(lock := false)
    case EnqFree(fl, k) => To(s, k).(intr := Restore(s.intr, fl))
  }

  /** scheduler(): sti, irq_save, lock, claim the oldest entry of the first non-empty level,
      release, irq_restore, run it, and requeue it one level down unless it died. */
  function AdvanceScheduler(s: State): State
    requires Shaped(s) && InScheduler(At(s))
  {
    match At(s)
    case Top => To(s, On).(intr := true)
    case On => To(s, Off(s.intr)).(intr := false)
    case Off(fl) => if s.lock then s else To(s, Held(fl)).(lock := true)
    case Held(fl) =>
      var i := FirstLevel(s.queues);
      if i == LEVELS then To(s, Claimed(fl, None, 0))
      else To(s, Claimed(fl, Some(s.queues[i][0]), i)).(queues := s.queues[i := s.queues[i][1..]])
    case Claimed(fl, got, level) => To(s, Freed(fl, got, level)).(lock := false)
    case Freed(fl, got, level) => To(s, Chosen(got, level)).(intr := Restore(s.intr, fl))
    case Chosen(got, level) =>
      if got.None? then To(s, Top)
      else if got.value < SLOTS then SetState(To(s, Launch(got.value, level)), got.value, RUNNING)
      else s.(panicked := true)
    case Launch(c, level) => if c < SLOTS then SwitchTo(s, c, Back(c, level)) else s.(panicked := true)
    case Back(c, level) =>
      if c < SLOTS && s.procs[c].state == ZOMBIE then To(s, Top) else To(s, Enq(c, Demote(level), Top))
  }

  /** Returning into a process, and the ends of yield(), exit_process() and fork(). */
  function AdvanceProcess(s: State): State
    requires Shaped(s) && !InEnqueue(At(s)) && !InScheduler(At(s))
  {
    match At(s)
    case Fresh => To(s, if s.sched == Some(s.cur) then Top else Body).(intr := Restore(s.intr, true))
    case ForkChild(fl) => To(s, Body).(intr := Restore(s.intr, fl))
    case Switched(fl, k) => To(s, k).(intr := Restore(s.intr, fl))
    case Iret(k) => To(s, k).(intr := true)
    case Body => s
    case Yielding => if s.sched.None? then s.(panicked := true) else SwitchTo(s, s.sched.value, Body)
    case Dying => if s.sched.None? then s.(panicked := true) else SwitchTo(s, s.sched.value, Gone)
    case Gone => s.(panicked := true)
    case ForkEnd(fl) => To(s, Body).(intr := Restore(s.intr, fl))
  }

  /** The next step of code that has no choice left. */
  function Advance(s: State): State
    requires Shaped(s)
  {
    if InEnqueue(At(s)) then AdvanceEnqueue(s)
    else if InScheduler(At(s)) then AdvanceScheduler(s)
    else AdvanceProcess(s)
  }

  /** A process table entry as alloc_process() leaves it. */
  function NewProc(s: State, k: Ctl): Proc { Proc(READY, s.nextPid % 256, k) }

  /** fork(): irq_save(), claim a slot, copy the stack, and go on to sched_enqueue(). With
      a full table it restores the flags and returns. */
  function ForkStep(s: State, level: int): State
    requires Shaped(s)
  {
    var i := FreeSlot(s.procs);
    if i == SLOTS then s
    else
      var t := s.(procs := s.procs[i := NewProc(s, ForkChild(s.intr))], nextPid := (s.nextPid + 1) % 256);
      To(t, Enq(i, level, ForkEnd(s.intr))).(intr := false)
  }

  /** init(): allocate the scheduler process and install it. */
  function StartStep(s: State): State
    requires Shaped(s)
  {
    var i := FreeSlot(s.procs);
    if i == SLOTS then s.(panicked := true)
    else s.(procs := s.procs[i := NewProc(s, Fresh)], nextPid := (s.nextPid + 1) % 256, sched := Some(i))
  }

  /** When an event can happen. A process in its own code may yield, exit or fork; init,
      before control first passes to the scheduler, may only fork, start the scheduler and
      hand over. A tick may come before init hands over; it still does so when resumed. The
      timer ticks when interrupts are on, except on the scheduler process itself. */
  predicate Enabled(s: State, ev: Event)
    requires Shaped(s)
  {
    !s.panicked &&
    match ev
    case Go => At(s) != Body
    case Yield => At(s) == Body && s.booted && s.sched != Some(s.cur)
    case Exit => At(s) == Body && s.booted && s.sched != Some(s.cur)
    case Fork(_) => At(s) == Body && s.sched != Some(s.cur)
    case StartScheduler => At(s) == Body && !s.booted && s.sched == None
    case HandOver => At(s) == Body && s.cur == 0 && s.sched.Some? && s.sched != Some(0)
    case Tick => s.intr && s.sched.Some? && s.sched != Some(s.cur)
  }

  function Step(s: State, ev: Event): State
    requires Shaped(s) && Enabled(s, ev)
  {
    match ev
    case Go => Advance(s)
    case Yield => To(SetState(s, s.cur, READY), Yielding)
    case Exit => To(SetState(s, s.cur, ZOMBIE), Dying)
    case Fork(level) => ForkStep(s, level)
    case StartScheduler => StartStep(s)
    case HandOver => SwitchTo(s, s.sched.value, Body)
    case Tick => SwitchTo(s.(intr := false), s.sched.value, Iret(At(s)))
  }

  /** After init_scheduler() and init_process(): init is queued on the lowest level and
      already running, about to enter forkret() with interrupts off. */
  function Boot(): State
  {
    State(seq(SLOTS, i => if i == 0 then Proc(RUNNING, 0, Fresh) else Proc(UNUSED, 0, Fresh)),
          [[], [], [0]], 0, None, 1, false, false, false, false)
  }
}
