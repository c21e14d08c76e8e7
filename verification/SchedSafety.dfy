/** What every step of the scheduler machine keeps, and so what holds in every run:
    each live process is in exactly one place, the lock is only held with interrupts
    off, and nothing panics. */
module SchedSafety {
  import opened Options
  import opened SchedMachine

  /** The process the scheduler has taken off the queue and not yet put back, and the
      level it would go back to. */
  function ClaimOf(k: Ctl): Option<(nat, int)>
  {
    match k
    case Claimed(_, got, level) => if got.Some? then Some((got.value, Demote(level))) else None
    case Freed(_, got, level) => if got.Some? then Some((got.value, Demote(level))) else None
    case Chosen(got, level) => if got.Some? then Some((got.value, Demote(level))) else None
    case Launch(c, level) => Some((c, Demote(level)))
    case Back(c, level) => Some((c, Demote(level)))
    case Switched(_, j) => if j.Back? then Some((j.c, Demote(j.level))) else None
    case Enq(c, lv, _) => Some((c, lv))
    case EnqOff(c, lv, _, _) => Some((c, lv))
    case EnqHeld(c, lv, _, _) => Some((c, lv))
    case _ => None
  }

  function Claim(s: State): Option<(nat, int)>
    requires Shaped(s)
  {
    if s.sched.Some? then ClaimOf(s.procs[s.sched.value].ctl) else None
  }

  predicate IsClaimed(s: State, p: nat)
    requires Shaped(s)
  {
    Claim(s).Some? && Claim(s).value.0 == p
  }

  /** The child a fork() in progress has allocated and not yet queued, and its level. */
  function Embryo(s: State): Option<(nat, int)>
    requires Shaped(s)
  {
    if s.sched == Some(s.cur) then None
    else match At(s)
      case Enq(c, lv, _) => Some((c, lv))
      case EnqOff(c, lv, _, _) => Some((c, lv))
      case EnqHeld(c, lv, _, _) => Some((c, lv))
      case _ => None
  }

  predicate IsEmbryo(s: State, p: nat)
    requires Shaped(s)
  {
    Embryo(s).Some? && Embryo(s).value.0 == p
  }

  /** How often p is queued. */
  function Queued(queues: seq<seq<nat>>, p: nat): nat
    requires |queues| == LEVELS
  {
    multiset(queues[0])[p] + multiset(queues[1])[p] + multiset(queues[2])[p]
  }

  lemma DequeueCounts(queues: seq<seq<nat>>, i: nat, p: nat)
    requires |queues| == LEVELS && i < LEVELS && queues[i] != []
    ensures Queued(queues, p) == Queued(queues[i := queues[i][1..]], p) + (if p == queues[i][0] then 1 else 0)
    ensures Queued(queues, queues[i][0]) >= 1
  {
    var q := queues[i];
    assert q == [q[0]] + q[1..];
    assert multiset(q) == multiset{q[0]} + multiset(q[1..]);
  }

  lemma EnqueueCounts(queues: seq<seq<nat>>, i: nat, c: nat, p: nat)
    requires |queues| == LEVELS && i < LEVELS
    ensures Queued(queues[i := queues[i] + [c]], p) == Queued(queues, p) + (if p == c then 1 else 0)
  {
    assert multiset(queues[i] + [c]) == multiset(queues[i]) + multiset{c};
  }

  /** How often p is queued, claimed or being born. */
  function Places(s: State, p: nat): nat
    requires Shaped(s)
  {
    Queued(s.queues, p) + (if IsClaimed(s, p) then 1 else 0) + (if IsEmbryo(s, p) then 1 else 0)
  }

  // ------------------------------------------------------------- the invariant

  /** Slots are handed out in order and never recycled, so a slot's pid is its index. */
  predicate Table(s: State)
    requires Shaped(s)
  {
    0 < s.nextPid <= SLOTS && forall i :: 0 <= i < SLOTS ==>
      (s.procs[i].state != UNUSED <==> i < s.nextPid) && (i < s.nextPid ==> s.procs[i].pid == i)
  }

  /** A live process is in exactly one place; a zombie only while it is still claimed;
      the scheduler process and unused slots never. */
  predicate Once(s: State)
    requires Shaped(s)
  {
    forall p :: 0 <= p < SLOTS ==>
      Places(s, p) == if p < s.nextPid && s.sched != Some(p) && (s.procs[p].state != ZOMBIE || IsClaimed(s, p)) then 1 else 0
  }

  /** Off the cpu: somewhere ctx_switch() can resume, and dead exactly if it is a zombie. */
  predicate Parked(p: Proc)
  {
    match p.ctl
    case ForkChild(_) => p.state != ZOMBIE
    case Switched(fl, k) =>
      && (k.Body? || k.Gone? || (k.Iret? && !fl && (k.k.Body? || k.k.Yielding? || k.k.Dying?)))
      && (p.state == ZOMBIE <==> k.Gone? || (k.Iret? && k.k.Dying?))
    case _ => false
  }

  /** A process on the cpu, with the interrupt flag it must have there. */
  predicate Running(p: Proc, intr: bool)
  {
    match p.ctl
    case ForkChild(_) => !intr && p.state != ZOMBIE
    case Switched(fl, k) => !intr && p.state != ZOMBIE && (k.Body? || (k.Iret? && !fl && (k.k.Body? || k.k.Yielding?)))
    case Iret(k) => !intr && p.state != ZOMBIE && (k.Body? || k.Yielding?)
    case Fresh => !intr && p.state != ZOMBIE
    case Body => p.state != ZOMBIE
    case Yielding => p.state != ZOMBIE
    case Dying => p.state == ZOMBIE
    case ForkEnd(_) => !intr && p.state != ZOMBIE
    case Enq(c, lv, k) => !intr && p.state != ZOMBIE && k.ForkEnd? && 0 <= lv < LEVELS
    case EnqOff(c, lv, fl, k) => !intr && p.state != ZOMBIE && k.ForkEnd? && !fl && 0 <= lv < LEVELS
    case EnqHeld(c, lv, fl, k) => !intr && p.state != ZOMBIE && k.ForkEnd? && !fl && 0 <= lv < LEVELS
    case EnqDone(fl, k) => !intr && p.state != ZOMBIE && k.ForkEnd? && !fl
    case EnqFree(fl, k) => !intr && p.state != ZOMBIE && k.ForkEnd? && !fl
    case _ => false
  }

  /** The scheduler process on the cpu: interrupts are on exactly outside its critical sections. */
  predicate Scheduling(k: Ctl, intr: bool)
  {
    match k
    case Fresh => !intr
    case Top => intr
    case On => intr
    case Off(fl) => !intr && fl
    case Held(fl) => !intr && fl
    case Claimed(fl, _, level) => !intr && fl && level < LEVELS
    case Freed(fl, _, level) => !intr && fl && level < LEVELS
    case Chosen(_, level) => intr && level < LEVELS
    case Launch(_, level) => intr && level < LEVELS
    case Switched(fl, j) => !intr && fl && j.Back? && j.level < LEVELS
    case Back(_, level) => intr && level < LEVELS
    case Enq(_, lv, j) => intr && j.Top? && 0 <= lv < LEVELS
    case EnqOff(_, lv, fl, j) => !intr && fl && j.Top? && 0 <= lv < LEVELS
    case EnqHeld(_, lv, fl, j) => !intr && fl && j.Top? && 0 <= lv < LEVELS
    case EnqDone(fl, j) => !intr && fl && j.Top?
    case EnqFree(fl, j) => !intr && fl && j.Top?
    case _ => false
  }

  /** Where init can be before it first hands over. */
  predicate BootCtl(k: Ctl)
  {
    k.Fresh? || k.Body? || k.ForkEnd? || k.Enq? || k.EnqOff? || k.EnqHeld? || k.EnqDone? || k.EnqFree?
  }

  predicate Holds(k: Ctl) { k.EnqHeld? || k.EnqDone? || k.Held? || k.Claimed? }

  /** Who is on the cpu, and what the scheduler process is waiting for. */
  predicate Control(s: State)
    requires Shaped(s)
  {
    && s.cur < s.nextPid
    && (s.lock <==> Holds(At(s)))
    && (forall p :: 0 <= p < s.nextPid && p < SLOTS && p != s.cur && s.sched != Some(p) ==> Parked(s.procs[p]))
    && (s.sched.Some? ==> s.sched.value < s.nextPid && s.procs[s.sched.value].state != ZOMBIE)
    && (if s.sched == Some(s.cur) then s.booted && Scheduling(At(s), s.intr) else Running(s.procs[s.cur], s.intr))
    && (!s.booted ==> s.cur == 0 && s.sched != Some(0) && (s.sched.Some? ==> s.procs[s.sched.value].ctl == Fresh)
                      && BootCtl(At(s)))
    && (s.booted ==> s.sched.Some?)
    && (s.booted && s.sched != Some(s.cur) ==>
          var k := s.procs[s.sched.value].ctl;
          k.Switched? && k.fl && k.k.Back? && k.k.c == s.cur && k.k.level < LEVELS)
  }

  /** The process the scheduler is about to run, or to requeue, is alive. */
  predicate ClaimAlive(s: State)
    requires Shaped(s)
  {
    s.sched == Some(s.cur) ==>
      match At(s)
      case Claimed(_, got, _) => got.Some? ==> got.value < SLOTS && s.procs[got.value].state != ZOMBIE
      case Freed(_, got, _) => got.Some? ==> got.value < SLOTS && s.procs[got.value].state != ZOMBIE
      case Chosen(got, _) => got.Some? ==> got.value < SLOTS && s.procs[got.value].state != ZOMBIE
      case Launch(c, _) => c < SLOTS && s.procs[c].state != ZOMBIE
      case Switched(_, j) => j.Back? ==> j.c < SLOTS
      case Back(c, _) => c < SLOTS
      case Enq(c, _, _) => c < SLOTS && s.procs[c].state != ZOMBIE
      case EnqOff(c, _, _, _) => c < SLOTS && s.procs[c].state != ZOMBIE
      case EnqHeld(c, _, _, _) => c < SLOTS && s.procs[c].state != ZOMBIE
      case _ => true
  }

  predicate Base(s: State)
  {
    && Shaped(s) && !s.panicked && Table(s) && Control(s) && ClaimAlive(s)
    && (Embryo(s).Some? ==> Embryo(s).value.0 < SLOTS)
  }

  predicate Inv(s: State) { Base(s) && Once(s) }

  lemma BootInv()
    ensures Inv(Boot())
  {
  }

  // ------------------------------------------------------------- control

  predicate QueuesOk(queues: seq<seq<nat>>)
  {
    |queues| == LEVELS && forall l, j :: 0 <= l < LEVELS && 0 <= j < |queues[l]| ==> queues[l][j] < SLOTS
  }

  /** An ordinary process moves within its own code. */
  lemma ProcMove(s: State, k: Ctl, intr: bool, lock: bool, queues: seq<seq<nat>>)
    requires Base(s) && s.sched != Some(s.cur) && QueuesOk(queues)
    requires Running(s.procs[s.cur].(ctl := k), intr) && (lock <==> Holds(k))
    requires !s.booted ==> BootCtl(k)
    requires (k.Enq? || k.EnqOff? || k.EnqHeld?) ==> k.c < SLOTS
    ensures Base(To(s, k).(intr := intr, lock := lock, queues := queues))
  {
  }

  /** The scheduler process moves within its own code. */
  lemma SchedMove(s: State, k: Ctl, intr: bool, lock: bool, queues: seq<seq<nat>>)
    requires Base(s) && s.sched == Some(s.cur) && QueuesOk(queues)
    requires Scheduling(k, intr) && (lock <==> Holds(k))
    requires ClaimAlive(To(s, k))
    ensures Base(To(s, k).(intr := intr, lock := lock, queues := queues))
  {
  }

  /** An ordinary process gives the cpu to the scheduler process. */
  lemma ToScheduler(s: State, k: Ctl, intr: bool)
    requires Base(s) && s.sched.Some? && s.sched != Some(s.cur) && !Holds(At(s))
    requires Parked(s.procs[s.cur].(ctl := Switched(intr, k)))
    ensures Base(SwitchTo(s.(intr := intr), s.sched.value, k))
  {
  }

  /** The scheduler process gives the cpu to the process it claimed. */
  lemma ToClaimed(s: State, c: nat, level: nat)
    requires Base(s) && s.sched == Some(s.cur) && At(s) == Launch(c, level) && c < s.nextPid && c != s.cur
    ensures Base(SwitchTo(s, c, Back(c, level)))
  {
  }

  /** sched_enqueue() inside fork(). */
  lemma ProcEnqBase(s: State)
    requires Inv(s) && Enabled(s, Go) && s.sched != Some(s.cur)
    requires At(s).Enq? || At(s).EnqOff? || At(s).EnqHeld? || At(s).EnqDone? || At(s).EnqFree?
    ensures Base(Step(s, Go))
  {
    hide Base, Once, Parked, ClaimAlive, Table;
    ProcFacts(s);
    match At(s)
    case Enq(c, lv, k) => ProcMove(s, EnqOff(c, lv, s.intr, k), false, s.lock, s.queues);
    case EnqOff(c, lv, fl, k) => ProcMove(s, EnqHeld(c, lv, fl, k), s.intr, true, s.queues);
    case EnqHeld(c, lv, fl, k) => ProcMove(s, EnqDone(fl, k), s.intr, s.lock, s.queues[lv := s.queues[lv] + [c]]);
    case EnqDone(fl, k) => ProcMove(s, EnqFree(fl, k), s.intr, false, s.queues);
    case EnqFree(fl, k) => ProcMove(s, k, s.intr, s.lock, s.queues);
  }

  /** The other forced steps of an ordinary process. */
  lemma ProcTurnBase(s: State)
    requires Inv(s) && Enabled(s, Go) && s.sched != Some(s.cur)
    requires !(At(s).Enq? || At(s).EnqOff? || At(s).EnqHeld? || At(s).EnqDone? || At(s).EnqFree?)
    ensures Base(Step(s, Go))
  {
    hide Base, Once, Parked, ClaimAlive, Table, FirstLevel, AdvanceEnqueue, AdvanceScheduler;
    ProcFacts(s);
    match At(s)
    case Fresh => ProcMove(s, Body, true, s.lock, s.queues);
    case ForkChild(fl) => ProcMove(s, Body, fl, s.lock, s.queues);
    case Switched(fl, k) => ProcMove(s, k, fl, s.lock, s.queues);
    case Iret(k) => ProcMove(s, k, true, s.lock, s.queues);
    case Yielding => ToScheduler(s, Body, s.intr);
    case Dying => ToScheduler(s, Gone, s.intr);
    case ForkEnd(fl) => ProcMove(s, Body, fl, s.lock, s.queues);
  }

  lemma ProcFacts(s: State)
    requires Inv(s) && s.sched != Some(s.cur)
    ensures Base(s) && Shaped(s) && !s.panicked && Running(s.procs[s.cur], s.intr) && (s.lock <==> Holds(At(s)))
    ensures QueuesOk(s.queues) && (!s.booted ==> BootCtl(At(s))) && (s.booted ==> s.sched.Some?)
    ensures (At(s).Enq? || At(s).EnqOff? || At(s).EnqHeld?) ==> At(s).c < SLOTS
    ensures At(s).Yielding? ==> Parked(s.procs[s.cur].(ctl := Switched(s.intr, Body)))
    ensures At(s).Dying? ==> Parked(s.procs[s.cur].(ctl := Switched(s.intr, Gone)))
  {
  }

  /** The scheduler scans and takes the oldest entry of the first non-empty level. */
  lemma PickIsAlive(s: State, i: nat)
    requires Inv(s) && s.sched == Some(s.cur) && At(s).Held? && i < LEVELS && s.queues[i] != []
    ensures s.queues[i][0] < s.nextPid && s.queues[i][0] != s.cur && s.procs[s.queues[i][0]].state != ZOMBIE
  {
    DequeueCounts(s.queues, i, s.queues[i][0]);
    assert Places(s, s.queues[i][0]) >= 1;
  }

  lemma ClaimedIsUsed(s: State, c: nat)
    requires Inv(s) && s.sched.Some? && IsClaimed(s, c) && c < SLOTS
    ensures c < s.nextPid && s.sched != Some(c)
  {
  }

  lemma SchedFacts(s: State)
    requires Inv(s) && s.sched == Some(s.cur)
    ensures Base(s) && Shaped(s) && !s.panicked && Scheduling(At(s), s.intr) && (s.lock <==> Holds(At(s)))
    ensures QueuesOk(s.queues) && ClaimAlive(s)
  {
  }

  /** `p->state = RUNNING` for the claimed process. */
  lemma LaunchBase(s: State, c: nat, level: nat)
    requires Base(s) && s.sched == Some(s.cur) && At(s) == Chosen(Some(c), level) && c < s.nextPid && c != s.cur
    ensures Base(SetState(To(s, Launch(c, level)), c, RUNNING))
  {
  }

  lemma HeldBase(s: State, fl: bool)
    requires Inv(s) && s.sched == Some(s.cur) && At(s) == Held(fl)
    ensures Base(Step(s, Go))
  {
    hide Base, Once, Parked, Table;
    SchedFacts(s);
    var i := FirstLevel(s.queues);
    if i == LEVELS {
      SchedMove(s, Claimed(fl, None, 0), s.intr, s.lock, s.queues);
    } else {
      PickIsAlive(s, i);
      SchedMove(s, Claimed(fl, Some(s.queues[i][0]), i), s.intr, s.lock, s.queues[i := s.queues[i][1..]]);
    }
  }

  /** The scheduler between two claims. */
  lemma SchedScanBase(s: State)
    requires Inv(s) && Enabled(s, Go) && s.sched == Some(s.cur) && (At(s).Fresh? || At(s).Top? || At(s).On? || At(s).Off?)
    ensures Base(Step(s, Go))
  {
    hide Base, Once, Parked, Table, FirstLevel, AdvanceEnqueue;
    SchedFacts(s);
    match At(s)
    case Fresh => SchedMove(s, Top, true, s.lock, s.queues);
    case Top => SchedMove(s, On, true, s.lock, s.queues);
    case On => SchedMove(s, Off(s.intr), false, s.lock, s.queues);
    case Off(fl) => SchedMove(s, Held(fl), s.intr, true, s.queues);
  }

  lemma SchedPickBase(s: State)
    requires Inv(s) && Enabled(s, Go) && s.sched == Some(s.cur) && (At(s).Claimed? || At(s).Freed? || At(s).Chosen?)
    ensures Base(Step(s, Go))
  {
    hide Base, Once, Parked, Table, FirstLevel, AdvanceEnqueue, AdvanceProcess;
    SchedFacts(s);
    match At(s)
    case Claimed(fl, got, level) => SchedMove(s, Freed(fl, got, level), s.intr, false, s.queues);
    case Freed(fl, got, level) => SchedMove(s, Chosen(got, level), true, s.lock, s.queues);
    case Chosen(got, level) =>
      if got.None? {
        SchedMove(s, Top, s.intr, s.lock, s.queues);
      } else {
        ClaimedIsUsed(s, got.value);
        LaunchBase(s, got.value, level);
      }
  }

  /** The scheduler around running the claimed process. */
  lemma SchedTurnBase(s: State)
    requires Inv(s) && Enabled(s, Go) && s.sched == Some(s.cur)
    requires At(s).Launch? || At(s).Switched? || At(s).Back?
    ensures Base(Step(s, Go))
  {
    hide Base, Once, Parked, Table;
    SchedFacts(s);
    match At(s)
    case Launch(c, level) => ClaimedIsUsed(s, c); ToClaimed(s, c, level);
    case Switched(fl, k) => SchedMove(s, k, true, s.lock, s.queues);
    case Back(c, level) =>
      if s.procs[c].state == ZOMBIE { SchedMove(s, Top, s.intr, s.lock, s.queues); }
      else { SchedMove(s, Enq(c, Demote(level), Top), s.intr, s.lock, s.queues); }
  }

  /** sched_enqueue() called by the scheduler. */
  lemma SchedEnqBase(s: State)
    requires Inv(s) && Enabled(s, Go) && s.sched == Some(s.cur)
    requires At(s).Enq? || At(s).EnqOff? || At(s).EnqHeld? || At(s).EnqDone? || At(s).EnqFree?
    ensures Base(Step(s, Go))
  {
    hide Base, Once, Parked, Table, FirstLevel, AdvanceScheduler, AdvanceProcess;
    SchedFacts(s);
    match At(s)
    case Enq(c, lv, k) => SchedMove(s, EnqOff(c, lv, s.intr, k), false, s.lock, s.queues);
    case EnqOff(c, lv, fl, k) => SchedMove(s, EnqHeld(c, lv, fl, k), s.intr, true, s.queues);
    case EnqHeld(c, lv, fl, k) => SchedMove(s, EnqDone(fl, k), s.intr, s.lock, s.queues[lv := s.queues[lv] + [c]]);
    case EnqDone(fl, k) => SchedMove(s, EnqFree(fl, k), s.intr, false, s.queues);
    case EnqFree(fl, k) => SchedMove(s, k, true, s.lock, s.queues);
  }

  lemma FreeSlotIs(s: State)
    requires Shaped(s) && Table(s)
    ensures FreeSlot(s.procs) == s.nextPid
  {
    var i := FreeSlot(s.procs);
    assert s.nextPid < SLOTS ==> s.procs[s.nextPid].state == UNUSED;
    assert i < SLOTS ==> s.procs[i].state == UNUSED;
  }

  /** fork() claims the next slot of the table. */
  lemma ForkBase(s: State, level: int)
    requires Inv(s) && Enabled(s, Fork(level)) && 0 <= level < LEVELS
    ensures Base(Step(s, Fork(level)))
  {
    hide Once, Advance, FirstLevel, FreeSlot, ClaimAlive;
    FreeSlotIs(s);
    if s.nextPid < SLOTS {
      AllocBase(s, ForkChild(s.intr));
      ProcMove(Alloc(s, ForkChild(s.intr)), Enq(s.nextPid, level, ForkEnd(s.intr)), false, s.lock, s.queues);
    }
  }

  /** The table with the next slot filled in. */
  function Alloc(s: State, k: Ctl): State
    requires Shaped(s) && s.nextPid < SLOTS
  {
    s.(procs := s.procs[s.nextPid := NewProc(s, k)], nextPid := (s.nextPid + 1) % 256)
  }

  lemma AllocBase(s: State, k: Ctl)
    requires Base(s) && s.nextPid < SLOTS && k.ForkChild? && s.sched != Some(s.cur)
    ensures Base(Alloc(s, k))
  {
  }

  lemma StartBase(s: State)
    requires Inv(s) && Enabled(s, StartScheduler) && s.nextPid < SLOTS
    ensures Base(Step(s, StartScheduler))
  {
    hide Once, Advance, FirstLevel, FreeSlot;
    FreeSlotIs(s);
  }

  /** fork() is given an existing level, and there is a slot left for the scheduler process. */
  predicate Sane(s: State, ev: Event)
  {
    (ev.Fork? ==> 0 <= ev.level < LEVELS) && (ev.StartScheduler? ==> s.nextPid < SLOTS)
  }

  lemma ChoiceStepBase(s: State, ev: Event)
    requires Inv(s) && Enabled(s, ev) && ev != Go && Sane(s, ev)
    ensures Base(Step(s, ev))
  {
    match ev
    case Yield => YieldBase(s, READY, Yielding);
    case Exit => YieldBase(s, ZOMBIE, Dying);
    case Fork(level) => ForkBase(s, level);
    case StartScheduler => StartBase(s);
    case HandOver => ToScheduler(s, Body, s.intr);
    case Tick => ToScheduler(s, Iret(At(s)), false);
  }

  lemma YieldBase(s: State, st: ProcState, k: Ctl)
    requires Base(s) && s.booted && s.sched != Some(s.cur) && At(s) == Body
    requires (st == READY && k == Yielding) || (st == ZOMBIE && k == Dying)
    ensures Base(To(SetState(s, s.cur, st), k))
  {
  }

  // ------------------------------------------------------------- one place each

  /** Nothing moved between queue, claim and birth, and nobody died. */
  lemma SamePlaces(s: State, t: State)
    requires Shaped(s) && Shaped(t) && Once(s)
    requires t.queues == s.queues && Claim(t) == Claim(s) && Embryo(t) == Embryo(s)
    requires t.nextPid == s.nextPid && t.sched == s.sched
    requires forall p :: 0 <= p < SLOTS ==> (t.procs[p].state == ZOMBIE <==> s.procs[p].state == ZOMBIE)
    ensures Once(t)
  {
  }

  /** An entry goes from the front of a level to the claim. */
  lemma PickPlaces(s: State, t: State, i: nat)
    requires Shaped(s) && Shaped(t) && Once(s) && s.sched == Some(s.cur) && At(s).Held? && i < LEVELS && s.queues[i] != []
    requires t == To(s, Claimed(At(s).fl, Some(s.queues[i][0]), i)).(queues := s.queues[i := s.queues[i][1..]])
    ensures Once(t)
  {
    hide Queued;
    DequeueCounts(s.queues, i, s.queues[i][0]);
    assert Places(s, s.queues[i][0]) >= 1;
    forall p | 0 <= p < SLOTS ensures Places(t, p) == Places(s, p) { DequeueCounts(s.queues, i, p); }
  }

  /** An entry goes from the claim, or from birth, to the tail of a level. */
  lemma EnqueuePlaces(s: State, t: State)
    requires Shaped(s) && Shaped(t) && Once(s) && At(s).EnqHeld? && 0 <= At(s).lv < LEVELS
    requires At(s).c < SLOTS && s.procs[At(s).c].state != ZOMBIE
    requires t == To(s, EnqDone(At(s).fl, At(s).k)).(queues := s.queues[At(s).lv := s.queues[At(s).lv] + [At(s).c]])
    ensures Once(t)
  {
    hide Queued;
    forall p | 0 <= p < SLOTS ensures Places(t, p) == Places(s, p) { EnqueueCounts(s.queues, At(s).lv, At(s).c, p); }
  }

  /** A zombie that hands back the cpu is in no place any more. */
  lemma DropPlaces(s: State, t: State)
    requires Shaped(s) && Once(s) && s.sched == Some(s.cur) && At(s).Back? && At(s).c < SLOTS
    requires s.procs[At(s).c].state == ZOMBIE && t == To(s, Top)
    ensures Once(t)
  {
  }

  lemma ParkedNoEmbryo(s: State, c: nat)
    requires Inv(s) && s.sched == Some(s.cur) && At(s).Launch? && At(s).c == c && c < SLOTS
    ensures c < s.nextPid && c != s.cur && Parked(s.procs[c])
  {
    ClaimedIsUsed(s, c);
  }

  lemma HeldOnce(s: State)
    requires Inv(s) && Enabled(s, Go) && s.sched == Some(s.cur) && Shaped(Step(s, Go)) && At(s).Held?
    ensures Once(Step(s, Go))
  {
    hide Base, Scheduling, Once, Parked, Table, AdvanceEnqueue, AdvanceProcess;
    SchedFacts(s);
    var t := Step(s, Go);
    if FirstLevel(s.queues) < LEVELS {
      PickPlaces(s, t, FirstLevel(s.queues));
    } else {
      SamePlaces(s, t);
    }
  }

  lemma SchedScanOnce(s: State)
    requires Inv(s) && Enabled(s, Go) && s.sched == Some(s.cur) && Shaped(Step(s, Go))
    requires At(s).Fresh? || At(s).Top? || At(s).On? || At(s).Off?
    ensures Once(Step(s, Go))
  {
    hide Base, Scheduling, Once, Parked, Table, FirstLevel, AdvanceEnqueue;
    SchedFacts(s);
    SamePlaces(s, Step(s, Go));
  }

  lemma SchedPickOnce(s: State)
    requires Inv(s) && Enabled(s, Go) && s.sched == Some(s.cur) && Shaped(Step(s, Go))
    requires At(s).Claimed? || At(s).Freed? || At(s).Chosen?
    ensures Once(Step(s, Go))
  {
    hide Base, Scheduling, Once, Parked, Table, FirstLevel, AdvanceEnqueue, AdvanceProcess;
    SchedFacts(s);
    SamePlaces(s, Step(s, Go));
  }

  lemma TurnFacts(s: State)
    requires Inv(s) && s.sched == Some(s.cur)
    ensures At(s).EnqHeld? ==> 0 <= At(s).lv < LEVELS
    ensures At(s).Enq? ==> 0 <= At(s).lv < LEVELS
    ensures At(s).EnqDone? || At(s).EnqFree? ==> At(s).k.Top?
    ensures At(s).Switched? ==> At(s).k.Back?
  {
  }

  lemma SchedRunOnce(s: State)
    requires Inv(s) && Enabled(s, Go) && s.sched == Some(s.cur) && Shaped(Step(s, Go))
    requires At(s).Launch? || At(s).Switched? || At(s).Back?
    ensures Once(Step(s, Go))
  {
    hide Base, Scheduling, Once, Table, FirstLevel, AdvanceEnqueue;
    SchedFacts(s);
    TurnFacts(s);
    var t := Step(s, Go);
    if At(s).Back? && s.procs[At(s).c].state == ZOMBIE {
      DropPlaces(s, t);
    } else {
      if At(s).Launch? { ParkedNoEmbryo(s, At(s).c); }
      SamePlaces(s, t);
    }
  }

  lemma SchedEnqOnce(s: State)
    requires Inv(s) && Enabled(s, Go) && s.sched == Some(s.cur) && Shaped(Step(s, Go)) && InEnqueue(At(s))
    ensures Once(Step(s, Go))
  {
    hide Base, Scheduling, Once, Table, FirstLevel, AdvanceScheduler, AdvanceProcess;
    SchedFacts(s);
    TurnFacts(s);
    if At(s).EnqHeld? { EnqueuePlaces(s, Step(s, Go)); } else { SamePlaces(s, Step(s, Go)); }
  }

  lemma EmbryoAlive(s: State)
    requires Inv(s) && Embryo(s).Some?
    ensures Embryo(s).value.0 < s.nextPid && s.procs[Embryo(s).value.0].state != ZOMBIE
  {
    assert Places(s, Embryo(s).value.0) >= 1;
  }

  lemma ProcEnqOnce(s: State)
    requires Inv(s) && Enabled(s, Go) && s.sched != Some(s.cur) && Shaped(Step(s, Go)) && InEnqueue(At(s))
    ensures Once(Step(s, Go))
  {
    hide Base, Once, Table, Parked, FirstLevel, AdvanceScheduler, AdvanceProcess;
    ProcFacts(s);
    if At(s).EnqHeld? {
      EmbryoAlive(s);
      EnqueuePlaces(s, Step(s, Go));
    } else {
      SamePlaces(s, Step(s, Go));
    }
  }

  lemma ProcTurnOnce(s: State)
    requires Inv(s) && Enabled(s, Go) && s.sched != Some(s.cur) && Shaped(Step(s, Go)) && !InEnqueue(At(s))
    ensures Once(Step(s, Go))
  {
    hide Base, Once, Table, Parked, FirstLevel, AdvanceEnqueue;
    ProcFacts(s);
    SamePlaces(s, Step(s, Go));
  }

  /** A process that dies is the one the scheduler has claimed. */
  lemma CurrentIsClaimed(s: State)
    requires Inv(s) && s.booted && s.sched != Some(s.cur)
    ensures IsClaimed(s, s.cur)
  {
  }

  lemma ExitPlaces(s: State, t: State)
    requires Shaped(s) && Once(s) && s.sched != Some(s.cur) && At(s) == Body && IsClaimed(s, s.cur)
    requires t == To(SetState(s, s.cur, ZOMBIE), Dying) && s.procs[s.cur].state != ZOMBIE
    ensures Once(t)
  {
    hide Queued;
    forall p | 0 <= p < SLOTS ensures Places(t, p) == Places(s, p) { }
  }

  /** A new slot is in no place before fork() makes it an embryo. */
  lemma AllocPlaces(s: State, k: Ctl)
    requires Inv(s) && s.nextPid < SLOTS && s.sched != Some(s.cur) && At(s) == Body
    ensures var t := Alloc(s, k);
            forall p :: 0 <= p < SLOTS ==> Places(t, p) == Places(s, p) && (p == s.nextPid ==> Places(t, p) == 0)
  {
    hide Queued;
    assert Claim(Alloc(s, k)) == Claim(s) && Embryo(Alloc(s, k)) == Embryo(s);
    assert Places(s, s.nextPid) == 0;
  }

  lemma ForkPlaces(s: State, level: int)
    requires Inv(s) && Enabled(s, Fork(level)) && s.nextPid < SLOTS
    ensures Shaped(Step(s, Fork(level))) && Once(Step(s, Fork(level)))
  {
    hide Queued, Parked, Running;
    FreeSlotIs(s);
    AllocPlaces(s, ForkChild(s.intr));
    BirthPlaces(s, Alloc(s, ForkChild(s.intr)), Step(s, Fork(level)), level);
  }

  lemma BirthPlaces(s: State, a: State, t: State, level: int)
    requires Shaped(s) && Once(s) && Shaped(a) && s.sched != Some(s.cur) && At(s) == Body && At(a) == Body
    requires s.nextPid < SLOTS && a.nextPid == s.nextPid + 1 && a.sched == s.sched && a.cur == s.cur
    requires s.sched != Some(s.nextPid) && a.procs[s.nextPid].state == READY
    requires forall p :: 0 <= p < SLOTS && p != s.nextPid ==> a.procs[p] == s.procs[p]
    requires forall p :: 0 <= p < SLOTS ==> Places(a, p) == Places(s, p) && (p == s.nextPid ==> Places(a, p) == 0)
    requires t == To(a, Enq(s.nextPid, level, ForkEnd(s.intr))).(intr := false)
    ensures Shaped(t) && Once(t)
  {
    hide Queued;
    assert Claim(t) == Claim(a) == Claim(s);
    forall p | 0 <= p < SLOTS ensures Places(t, p) == Places(a, p) + if p == s.nextPid then 1 else 0 { }
  }

  lemma StartPlaces(s: State)
    requires Inv(s) && Enabled(s, StartScheduler) && s.nextPid < SLOTS
    ensures Shaped(Step(s, StartScheduler)) && Once(Step(s, StartScheduler))
  {
    hide Queued;
    FreeSlotIs(s);
    AllocPlaces(s, Fresh);
    var t := Step(s, StartScheduler);
    forall p | 0 <= p < SLOTS ensures Places(t, p) == Places(s, p) { }
  }

  lemma ChoiceStepOnce(s: State, ev: Event)
    requires Inv(s) && Enabled(s, ev) && ev != Go && Sane(s, ev) && Shaped(Step(s, ev))
    ensures Once(Step(s, ev))
  {
    hide Queued, Once, Parked, Table;
    if ev.Exit? {
      ProcFacts(s);
      CurrentIsClaimed(s);
      ExitPlaces(s, Step(s, ev));
    } else if ev.Fork? && s.nextPid < SLOTS {
      ForkPlaces(s, ev.level);
    } else if ev.StartScheduler? {
      StartPlaces(s);
    } else {
      FreeSlotOf(s);
      ProcFacts(s);
      SamePlaces(s, Step(s, ev));
    }
  }

  lemma FreeSlotOf(s: State)
    requires Inv(s)
    ensures FreeSlot(s.procs) == s.nextPid
  {
    FreeSlotIs(s);
  }

  // ------------------------------------------------------------- every step, every run

  /** Every step keeps the invariant; in particular nothing ever panics. */
  lemma StepKeepsInv(s: State, ev: Event)
    requires Inv(s) && Enabled(s, ev) && Sane(s, ev)
    ensures Inv(Step(s, ev))
  {
    hide Once, Control, Table, ClaimAlive, Embryo, Step, Enabled, Running, Scheduling;
    if ev != Go {
      ChoiceStepBase(s, ev);
      ChoiceStepOnce(s, ev);
    } else if s.sched == Some(s.cur) {
      SchedStepInv(s);
    } else {
      ProcStepInv(s);
    }
  }

  lemma ProcStepInv(s: State)
    requires Inv(s) && Enabled(s, Go) && s.sched != Some(s.cur)
    ensures Inv(Step(s, Go))
  {
    hide Once, Control, Table, ClaimAlive, Embryo, Step, Enabled;
    if InEnqueue(At(s)) {
      ProcEnqBase(s);
      ProcEnqOnce(s);
    } else {
      ProcTurnBase(s);
      ProcTurnOnce(s);
    }
  }

  lemma SchedStepInv(s: State)
    requires Inv(s) && Enabled(s, Go) && s.sched == Some(s.cur)
    ensures Inv(Step(s, Go))
  {
    hide Once, Table, ClaimAlive, Embryo, Step, Enabled, Parked;
    if At(s).Held? {
      HeldBase(s, At(s).fl);
      HeldOnce(s);
    } else if At(s).Fresh? || At(s).Top? || At(s).On? || At(s).Off? {
      SchedScanBase(s);
      SchedScanOnce(s);
    } else if At(s).Claimed? || At(s).Freed? || At(s).Chosen? {
      SchedPickBase(s);
      SchedPickOnce(s);
    } else if InEnqueue(At(s)) {
      SchedEnqBase(s);
      SchedEnqOnce(s);
    } else {
      SchedTurnBase(s);
      SchedRunOnce(s);
    }
  }

  /** A run: every event enabled and sane when its turn comes. */
  predicate Run(s: State, evs: seq<Event>, t: State)
    decreases |evs|
  {
    if evs == [] then s == t
    else Shaped(s) && Enabled(s, evs[0]) && Sane(s, evs[0]) && Run(Step(s, evs[0]), evs[1..], t)
  }

  lemma {:induction false} RunKeepsInv(s: State, evs: seq<Event>, t: State)
    requires Inv(s) && Run(s, evs, t)
    ensures Inv(t)
    decreases |evs|
  {
    hide Inv, Step, Enabled;
    if evs != [] {
      StepKeepsInv(s, evs[0]);
      RunKeepsInv(Step(s, evs[0]), evs[1..], t);
    }
  }
}
