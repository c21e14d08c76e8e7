/** How long a queued process can wait: an exact account of the turns ahead of it, over
    every run, and exact round-robin once everybody is on the bottom level. */
module SchedFairness {
  import opened Options
  import opened SchedMachine
  import opened SchedSafety
  import opened Words
  import SchedTheorems

  /** Turns a process entering at level lv can take before one waiting on level L. */
  function Cost(lv: int, L: nat): nat { if lv < L then if lv < 0 then L else L - lv else 0 }

  function Pending(x: Option<(nat, int)>, L: nat): nat { if x.Some? then Cost(x.value.1, L) else 0 }

  /** Turns due to processes queued on levels above L. */
  function Above(queues: seq<seq<nat>>, L: nat): nat
    requires |queues| == LEVELS && L < LEVELS
  {
    if L == 0 then 0 else if L == 1 then |queues[0]| else 2 * |queues[0]| + |queues[1]|
  }

  /** The turns ahead of the entry at position k of level L: those before it on its level,
      L - level for everyone above it, and the same for the process that is running and
      for a child being forked. */
  function Ahead(s: State, L: nat, k: nat): nat
    requires Shaped(s) && L < LEVELS
  {
    k + Above(s.queues, L) + Pending(Claim(s), L) + Pending(Embryo(s), L)
  }

  /** The scheduler takes a process off the queue in this step. */
  predicate Picks(s: State, ev: Event)
    requires Shaped(s)
  {
    ev == Go && s.sched == Some(s.cur) && At(s).Held? && FirstLevel(s.queues) < LEVELS
  }

  /** The scheduler lets go of a zombie in this step. */
  predicate Drops(s: State, ev: Event)
    requires Shaped(s)
  {
    ev == Go && s.sched == Some(s.cur) && At(s).Back? && At(s).c < SLOTS && s.procs[At(s).c].state == ZOMBIE
  }

  predicate Adds(s: State, ev: Event)
    requires Shaped(s)
  {
    ev == Go && At(s).EnqHeld?
  }

  predicate Forks(s: State, ev: Event)
    requires Shaped(s)
  {
    ev.Fork? && FreeSlot(s.procs) < SLOTS
  }

  /** Every other step leaves queues, claim and birth alone. */
  lemma QuietStep(s: State, ev: Event)
    requires Inv(s) && Enabled(s, ev) && Sane(s, ev)
    requires !Picks(s, ev) && !Drops(s, ev) && !Adds(s, ev) && !Forks(s, ev)
    ensures var t := Step(s, ev);
            Shaped(t) && t.queues == s.queues && Claim(t) == Claim(s) && Embryo(t) == Embryo(s)
  {
    StepKeepsInv(s, ev);
    if ev != Go { QuietChoice(s, ev); }
    else if s.sched == Some(s.cur) { QuietSched(s); }
    else { QuietProc(s); }
  }

  lemma QuietChoice(s: State, ev: Event)
    requires Inv(s) && Enabled(s, ev) && Sane(s, ev) && ev != Go && !Forks(s, ev) && Shaped(Step(s, ev))
    ensures var t := Step(s, ev); t.queues == s.queues && Claim(t) == Claim(s) && Embryo(t) == Embryo(s)
  {
    hide Once, Parked, Table;
    FreeSlotOf(s);
    ProcFacts(s);
  }

  lemma QuietProc(s: State)
    requires Inv(s) && Enabled(s, Go) && s.sched != Some(s.cur) && !Adds(s, Go) && Shaped(Step(s, Go))
    ensures var t := Step(s, Go); t.queues == s.queues && Claim(t) == Claim(s) && Embryo(t) == Embryo(s)
  {
    hide Once, Parked, Table;
    ProcFacts(s);
  }

  lemma QuietLoop(s: State)
    requires Inv(s) && Enabled(s, Go) && s.sched == Some(s.cur) && Shaped(Step(s, Go)) && InScheduler(At(s)) && !At(s).Launch?
    requires !Picks(s, Go) && !Drops(s, Go)
    ensures var t := Step(s, Go); t.queues == s.queues && Claim(t) == Claim(s) && Embryo(t) == Embryo(s)
  {
    hide Base, Once, Table, Inv, FirstLevel, Parked, Scheduling;
    SchedFacts(s);
    TurnFacts(s);
  }

  lemma QuietTurn(s: State)
    requires Inv(s) && Enabled(s, Go) && s.sched == Some(s.cur) && Shaped(Step(s, Go)) && (!InScheduler(At(s)) || At(s).Launch?)
    requires !Adds(s, Go)
    ensures var t := Step(s, Go); t.queues == s.queues && Claim(t) == Claim(s) && Embryo(t) == Embryo(s)
  {
    hide Base, Once, Table, Inv, FirstLevel;
    SchedFacts(s);
    TurnFacts(s);
    if At(s).Launch? { ParkedNoEmbryo(s, At(s).c); }
  }

  lemma QuietSched(s: State)
    requires Inv(s) && Enabled(s, Go) && s.sched == Some(s.cur) && Shaped(Step(s, Go))
    requires !Adds(s, Go) && !Picks(s, Go) && !Drops(s, Go)
    ensures var t := Step(s, Go); t.queues == s.queues && Claim(t) == Claim(s) && Embryo(t) == Embryo(s)
  {
    hide Inv, Step, Claim, Embryo, Adds, Picks, Drops;
    SchedFacts(s);
    if InScheduler(At(s)) && !At(s).Launch? { QuietLoop(s); } else { QuietTurn(s); }
  }

  // ------------------------------------------------------------- one step

  /** The process this step picks, if it picks one. */
  function Picked(s: State): nat
    requires Shaped(s) && FirstLevel(s.queues) < LEVELS
  {
    s.queues[FirstLevel(s.queues)][0]
  }

  /** Where position k of level L is after a pick from level i. */
  function Shift(i: nat, L: nat, k: nat): int { if i == L then k - 1 else k }

  lemma PickBalance(s: State, t: State, L: nat, k: nat)
    requires Inv(s) && Enabled(s, Go) && Picks(s, Go) && t == Step(s, Go) && Shaped(t)
    requires L < LEVELS && k < |s.queues[L]| && !(FirstLevel(s.queues) == L && k == 0)
    ensures var k' := Shift(FirstLevel(s.queues), L, k);
            0 <= k' < |t.queues[L]| && t.queues[L][k'] == s.queues[L][k] && Ahead(t, L, k') + 1 == Ahead(s, L, k)
  {
    hide Once, Control, Table;
    var i := FirstLevel(s.queues);
    assert i <= L;
    assert Claim(s) == None && Embryo(s) == None && Embryo(t) == None;
    assert Claim(t) == Some((s.queues[i][0], Demote(i)));
    assert t.queues == s.queues[i := s.queues[i][1..]];
  }

  lemma AddBalance(s: State, t: State, L: nat, k: nat)
    requires Inv(s) && Enabled(s, Go) && Adds(s, Go) && t == Step(s, Go) && Inv(t)
    requires L < LEVELS && k < |s.queues[L]|
    ensures k < |t.queues[L]| && t.queues[L][k] == s.queues[L][k] && Ahead(t, L, k) == Ahead(s, L, k)
  {
    hide Once, Parked, Table;
    assert 0 <= At(s).lv < LEVELS && At(s).c < SLOTS;
    assert t.queues == s.queues[At(s).lv := s.queues[At(s).lv] + [At(s).c]];
    if s.sched == Some(s.cur) {
      assert Claim(s) == Some((At(s).c, At(s).lv)) && Claim(t) == None && Embryo(s) == Embryo(t) == None;
    } else {
      assert Embryo(s) == Some((At(s).c, At(s).lv)) && Embryo(t) == None && Claim(s) == Claim(t);
    }
  }

  lemma DropBalance(s: State, t: State, L: nat, k: nat)
    requires Inv(s) && Enabled(s, Go) && Drops(s, Go) && t == Step(s, Go) && Shaped(t)
    requires L < LEVELS && k < |s.queues[L]|
    ensures t.queues == s.queues && Ahead(t, L, k) + Pending(Claim(s), L) == Ahead(s, L, k)
  {
    hide Once, Control, Table;
    assert t == To(s, Top);
    assert Claim(t) == None && Embryo(s) == None && Embryo(t) == None;
  }

  lemma ForkBalance(s: State, ev: Event, t: State, L: nat, k: nat)
    requires Inv(s) && Enabled(s, ev) && Sane(s, ev) && Forks(s, ev) && t == Step(s, ev) && Shaped(t)
    requires L < LEVELS && k < |s.queues[L]|
    ensures t.queues == s.queues && Ahead(t, L, k) == Ahead(s, L, k) + Cost(ev.level, L)
  {
    hide Once, Parked;
    FreeSlotIs(s);
    assert Claim(t) == Claim(s) && Embryo(s) == None && Embryo(t) == Some((s.nextPid, ev.level));
  }

  /** The turns a step takes off, or adds to, the account of a process waiting on level L. */
  function Spent(s: State, ev: Event, L: nat): nat
    requires Shaped(s) && L < LEVELS
  {
    if Picks(s, ev) then 1 else if Drops(s, ev) then Pending(Claim(s), L) else 0
  }

  function Gained(s: State, ev: Event, L: nat): nat
    requires Shaped(s)
  {
    if Forks(s, ev) then Cost(ev.level, L) else 0
  }

  /** The position of the waiting entry after a step that does not pick it. */
  function Moved(s: State, ev: Event, L: nat, k: nat): int
    requires Shaped(s)
  {
    if Picks(s, ev) then Shift(FirstLevel(s.queues), L, k) else k
  }

  predicate PicksEntry(s: State, ev: Event, L: nat, k: nat)
    requires Shaped(s)
  {
    Picks(s, ev) && FirstLevel(s.queues) == L && k == 0
  }

  lemma StepBalance(s: State, ev: Event, L: nat, k: nat)
    requires Inv(s) && Enabled(s, ev) && Sane(s, ev)
    requires L < LEVELS && k < |s.queues[L]| && !PicksEntry(s, ev, L, k)
    ensures var t, k' := Step(s, ev), Moved(s, ev, L, k);
            && Inv(t) && 0 <= k' < |t.queues[L]| && t.queues[L][k'] == s.queues[L][k]
            && Ahead(t, L, k') + Spent(s, ev, L) == Ahead(s, L, k) + Gained(s, ev, L)
  {
    hide Once, Control, Table, ClaimAlive, Step, Enabled, Claim, Embryo;
    StepKeepsInv(s, ev);
    var t := Step(s, ev);
    if Picks(s, ev) { PickBalance(s, t, L, k); }
    else if Drops(s, ev) { DropBalance(s, t, L, k); }
    else if Adds(s, ev) { AddBalance(s, t, L, k); }
    else if Forks(s, ev) { ForkBalance(s, ev, t, L, k); }
    else { QuietStep(s, ev); }
  }

  // ------------------------------------------------------------- whole runs

  /** The processes picked in a run, in order. */
  function PickList(s: State, evs: seq<Event>): seq<nat>
    requires Inv(s) && Runs(s, evs)
    decreases |evs|
  {
    if evs == [] then [] else
    StepKeepsInv(s, evs[0]);
    (if Picks(s, evs[0]) then [Picked(s)] else []) + PickList(Step(s, evs[0]), evs[1..])
  }

  /** evs can happen one after the other from s. */
  predicate Runs(s: State, evs: seq<Event>)
    decreases |evs|
  {
    evs == [] || (Shaped(s) && Enabled(s, evs[0]) && Sane(s, evs[0]) && Runs(Step(s, evs[0]), evs[1..]))
  }

  /** Turns taken off (picks, and the turns of processes that died) and added (forks). */
  function TotalSpent(s: State, evs: seq<Event>, L: nat): nat
    requires Inv(s) && Runs(s, evs) && L < LEVELS
    decreases |evs|
  {
    if evs == [] then 0 else
    StepKeepsInv(s, evs[0]);
    Spent(s, evs[0], L) + TotalSpent(Step(s, evs[0]), evs[1..], L)
  }

  function TotalGained(s: State, evs: seq<Event>, L: nat): nat
    requires Inv(s) && Runs(s, evs)
    decreases |evs|
  {
    if evs == [] then 0 else
    StepKeepsInv(s, evs[0]);
    Gained(s, evs[0], L) + TotalGained(Step(s, evs[0]), evs[1..], L)
  }

  function After(s: State, evs: seq<Event>): (t: State)
    requires Inv(s) && Runs(s, evs)
    ensures Inv(t)
    decreases |evs|
  {
    if evs == [] then s else
    StepKeepsInv(s, evs[0]);
    After(Step(s, evs[0]), evs[1..])
  }

  /** The account balances over every run in which the entry is not picked: what is ahead
      of it at the end, plus what was spent, is what was ahead of it plus what forks added. */
  lemma {:induction false} RunBalance(s: State, evs: seq<Event>, L: nat, k: nat) returns (k': nat)
    requires Inv(s) && Runs(s, evs) && L < LEVELS && k < |s.queues[L]|
    requires s.queues[L][k] !in PickList(s, evs)
    ensures var t := After(s, evs);
            && k' < |t.queues[L]| && t.queues[L][k'] == s.queues[L][k]
            && Ahead(t, L, k') + TotalSpent(s, evs, L) == Ahead(s, L, k) + TotalGained(s, evs, L)
    decreases |evs|
  {
    hide Inv, Step, Enabled, Ahead, Spent, Gained;
    if evs == [] {
      k' := k;
    } else {
      InvShape(s);
      StepKeepsInv(s, evs[0]);
      assert !PicksEntry(s, evs[0], L, k);
      StepBalance(s, evs[0], L, k);
      k' := RunBalance(Step(s, evs[0]), evs[1..], L, Moved(s, evs[0], L, k));
    }
  }

  lemma InvShape(s: State)
    requires Inv(s)
    ensures Shaped(s)
  {
  }

  lemma {:induction false} PicksAreSpent(s: State, evs: seq<Event>, L: nat)
    requires Inv(s) && Runs(s, evs) && L < LEVELS
    ensures |PickList(s, evs)| <= TotalSpent(s, evs, L)
    decreases |evs|
  {
    hide Inv, Step, Enabled;
    if evs != [] {
      StepKeepsInv(s, evs[0]);
      PicksAreSpent(Step(s, evs[0]), evs[1..], L);
    }
  }

  /** Bounded waiting: a run with more turns than were ahead of an entry, plus what later
      forks added, has picked it. */
  lemma BoundedWaiting(s: State, evs: seq<Event>, L: nat, k: nat)
    requires Inv(s) && Runs(s, evs) && L < LEVELS && k < |s.queues[L]|
    requires |PickList(s, evs)| > Ahead(s, L, k) + TotalGained(s, evs, L)
    ensures s.queues[L][k] in PickList(s, evs)
  {
    hide Inv, Step, Enabled, Ahead;
    PicksAreSpent(s, evs, L);
    if s.queues[L][k] !in PickList(s, evs) {
      var k' := RunBalance(s, evs, L, k);
    }
  }

  /** The bound is exact: with nothing left ahead of it, the entry is the next one picked. */
  lemma NothingAheadIsNext(s: State, ev: Event, L: nat, k: nat)
    requires Inv(s) && L < LEVELS && k < |s.queues[L]| && Ahead(s, L, k) == 0 && Picks(s, ev)
    ensures Picked(s) == s.queues[L][k]
  {
  }

  // ------------------------------------------------------------- round-robin

  /** Everybody queued or running is on, or bound for, the bottom level; no fork is under way. */
  predicate AllAtBottom(s: State)
    requires Shaped(s)
  {
    s.queues[0] == [] && s.queues[1] == [] && Embryo(s) == None && (Claim(s).Some? ==> Claim(s).value.1 == LEVELS - 1)
  }

  /** The bottom level with the claimed process behind it. */
  function Ring(s: State): seq<nat>
    requires Shaped(s)
  {
    s.queues[2] + if Claim(s).Some? then [Claim(s).value.0] else []
  }

  function Rotate(q: seq<nat>): seq<nat> { if q == [] then [] else q[1..] + [q[0]] }

  lemma PickRotates(s: State, t: State)
    requires Inv(s) && AllAtBottom(s) && Enabled(s, Go) && Picks(s, Go) && t == Step(s, Go) && Shaped(t)
    ensures AllAtBottom(t) && Ring(s) != [] && Picked(s) == Ring(s)[0] && Ring(t) == Rotate(Ring(s))
  {
    hide Once, Control, Table;
    assert FirstLevel(s.queues) == 2;
    assert Claim(s) == None;
    assert Claim(t) == Some((s.queues[2][0], Demote(2))) && Embryo(t) == None;
    assert t.queues == s.queues[2 := s.queues[2][1..]];
  }

  lemma AddKeepsRing(s: State, t: State)
    requires Inv(s) && AllAtBottom(s) && Enabled(s, Go) && Adds(s, Go) && t == Step(s, Go) && Inv(t)
    ensures AllAtBottom(t) && Ring(t) == Ring(s)
  {
    hide Once, Parked, Table;
    assert s.sched == Some(s.cur);
    assert Claim(s) == Some((At(s).c, At(s).lv)) && Claim(t) == None && Embryo(t) == None;
    assert t.queues == s.queues[At(s).lv := s.queues[At(s).lv] + [At(s).c]];
  }

  lemma RingStep(s: State, ev: Event)
    requires Inv(s) && AllAtBottom(s) && Enabled(s, ev) && Sane(s, ev) && !Drops(s, ev) && !Forks(s, ev)
    ensures var t := Step(s, ev);
            Inv(t) && AllAtBottom(t) && Ring(t) == (if Picks(s, ev) then Rotate(Ring(s)) else Ring(s))
            && (Picks(s, ev) ==> Ring(s) != [] && Picked(s) == Ring(s)[0])
  {
    hide Once, Control, Table, ClaimAlive, Step, Enabled, Claim, Embryo;
    StepKeepsInv(s, ev);
    var t := Step(s, ev);
    if Picks(s, ev) { PickRotates(s, t); }
    else if Adds(s, ev) { AddKeepsRing(s, t); }
    else { QuietStep(s, ev); }
  }

  /** No process dies or is born. */
  predicate Steady(s: State, evs: seq<Event>)
    requires Inv(s) && Runs(s, evs)
    decreases |evs|
  {
    evs == [] || (StepKeepsInv(s, evs[0]); !Drops(s, evs[0]) && !Forks(s, evs[0]) && Steady(Step(s, evs[0]), evs[1..]))
  }

  /** The j-th element of a queue that rotates. */
  lemma {:induction false} RotateIndex(q: seq<nat>, j: nat)
    requires q != []
    ensures Rotate(q) != [] && |Rotate(q)| == |q| && Rotate(q)[j % |q|] == q[(j + 1) % |q|]
  {
    var n := |q|;
    assert (j + 1) % n == (if j % n + 1 == n then 0 else j % n + 1) by {
      var a, r := j / n, j % n;
      assert j == n * a + r;
      if r + 1 == n { assert j + 1 == n * (a + 1); QuotientUnique(j + 1, n, a + 1, 0); } else { QuotientUnique(j + 1, n, a, r + 1); }
    }
  }

  /** Exact round-robin: once everybody is at the bottom and while nobody is born or dies,
      the j-th turn goes to entry j of the ring, over and over. */
  lemma {:induction false} RoundRobin(s: State, evs: seq<Event>, j: nat)
    requires Inv(s) && AllAtBottom(s) && Runs(s, evs) && Steady(s, evs) && j < |PickList(s, evs)|
    ensures Ring(s) != [] && PickList(s, evs)[j] == Ring(s)[j % |Ring(s)|]
    decreases |evs|
  {
    hide Inv, Step, Enabled, AllAtBottom, Ring, Rotate;
    InvShape(s);
    RingStep(s, evs[0]);
    var t := Step(s, evs[0]);
    if Picks(s, evs[0]) {
      if j > 0 {
        RoundRobin(t, evs[1..], j - 1);
        RotateIndex(Ring(s), j - 1);
      }
    } else {
      RoundRobin(t, evs[1..], j);
    }
  }

  // ------------------------------------------------------------- levels

  /** The level a process is on, or will go back to. */
  function LevelIn(s: State, p: nat): Option<int>
    requires Shaped(s)
  {
    if IsClaimed(s, p) then Some(Claim(s).value.1)
    else if IsEmbryo(s, p) then Some(Embryo(s).value.1)
    else if p in s.queues[0] then Some(0)
    else if p in s.queues[1] then Some(1)
    else if p in s.queues[2] then Some(2)
    else None
  }

  predicate NotBelow(x: Option<int>, y: Option<int>) { x.Some? && y.Some? ==> x.value <= y.value }

  lemma PickLevel(s: State, t: State, p: nat)
    requires Inv(s) && Enabled(s, Go) && Picks(s, Go) && t == Step(s, Go) && Shaped(t)
    ensures NotBelow(LevelIn(s, p), LevelIn(t, p)) && (LevelIn(s, p).Some? ==> LevelIn(t, p).Some?)
  {
    hide Once, Control, Table;
    var i := FirstLevel(s.queues);
    assert Claim(s) == None && Embryo(s) == None && Embryo(t) == None;
    assert Claim(t) == Some((s.queues[i][0], Demote(i)));
    assert t.queues == s.queues[i := s.queues[i][1..]];
    assert s.queues[i] == [s.queues[i][0]] + s.queues[i][1..];
  }

  lemma NotQueued(s: State, c: nat)
    requires Inv(s) && c < SLOTS && (IsClaimed(s, c) || IsEmbryo(s, c))
    ensures c !in s.queues[0] && c !in s.queues[1] && c !in s.queues[2] && !(IsClaimed(s, c) && IsEmbryo(s, c))
  {
    assert Places(s, c) <= 1;
  }

  lemma AddLevel(s: State, t: State, p: nat)
    requires Inv(s) && Enabled(s, Go) && Adds(s, Go) && t == Step(s, Go) && Inv(t)
    ensures LevelIn(t, p) == LevelIn(s, p)
  {
    hide Once, Parked, Table;
    var c, lv := At(s).c, At(s).lv;
    assert 0 <= lv < LEVELS && c < SLOTS;
    assert IsClaimed(s, c) || IsEmbryo(s, c);
    NotQueued(s, c);
    assert t.queues == s.queues[lv := s.queues[lv] + [c]];
    assert forall x :: x in s.queues[lv] + [c] <==> x in s.queues[lv] || x == c;
    if s.sched == Some(s.cur) {
      assert Claim(s) == Some((c, lv)) && Claim(t) == None && Embryo(s) == Embryo(t) == None;
    } else {
      assert Embryo(s) == Some((c, lv)) && Embryo(t) == None && Claim(s) == Claim(t);
    }
  }

  /** A zombie the scheduler has let go of. */
  predicate Buried(s: State, p: nat)
    requires Shaped(s)
  {
    p < SLOTS && s.procs[p].state == ZOMBIE && !IsClaimed(s, p)
  }

  lemma BuriedHasNoLevel(s: State, p: nat)
    requires Inv(s) && Buried(s, p)
    ensures LevelIn(s, p) == None
  {
    assert Places(s, p) == 0;
  }

  lemma StepLevel(s: State, ev: Event, p: nat)
    requires Inv(s) && Enabled(s, ev) && Sane(s, ev) && p < s.nextPid
    ensures var t := Step(s, ev);
            Inv(t) && p < t.nextPid && NotBelow(LevelIn(s, p), LevelIn(t, p))
            && (LevelIn(s, p).Some? ==> LevelIn(t, p).Some? || Buried(t, p))
            && (Buried(s, p) ==> Buried(t, p))
  {
    hide Once, Control, Table, ClaimAlive, Step, Enabled, Claim, Embryo, IsClaimed, IsEmbryo, LevelIn, Buried;
    StepKeepsInv(s, ev);
    var t := Step(s, ev);
    SlotsGrow(s, ev);
    if Buried(s, p) { StaysBuried(s, ev, p); }
    if Picks(s, ev) { PickLevel(s, t, p); }
    else if Drops(s, ev) { DropLevel(s, t, p); }
    else if Adds(s, ev) { AddLevel(s, t, p); }
    else if Forks(s, ev) { ForkLevel(s, ev, t, p); }
    else { QuietStep(s, ev); SameLevel(s, t, p); }
  }

  lemma SlotsGrow(s: State, ev: Event)
    requires Inv(s) && Enabled(s, ev)
    ensures s.nextPid <= Step(s, ev).nextPid
  {
    hide Once, Parked, Running, Scheduling, Advance, Control, ClaimAlive;
    FreeSlotIs(s);
    AdvanceKeepsPid(s);
  }

  lemma AdvanceKeepsPid(s: State)
    requires Shaped(s)
    ensures Advance(s).nextPid == s.nextPid
  {
    hide Advance;
    SchedTheorems.AdvanceKeepsOthers(s, if s.cur == 0 then 1 else 0);
  }

  lemma SameLevel(s: State, t: State, p: nat)
    requires Shaped(s) && Shaped(t) && t.queues == s.queues && Claim(t) == Claim(s) && Embryo(t) == Embryo(s)
    ensures LevelIn(t, p) == LevelIn(s, p)
  {
  }

  lemma DropLevel(s: State, t: State, p: nat)
    requires Inv(s) && Enabled(s, Go) && Drops(s, Go) && t == Step(s, Go) && Shaped(t)
    ensures NotBelow(LevelIn(s, p), LevelIn(t, p)) && (LevelIn(s, p).Some? ==> LevelIn(t, p).Some? || Buried(t, p))
  {
    hide Control, Table;
    assert t == To(s, Top);
    assert IsClaimed(s, At(s).c);
    NotQueued(s, At(s).c);
  }

  lemma ForkLevel(s: State, ev: Event, t: State, p: nat)
    requires Inv(s) && Enabled(s, ev) && Sane(s, ev) && Forks(s, ev) && t == Step(s, ev) && Shaped(t) && p < s.nextPid
    ensures LevelIn(t, p) == LevelIn(s, p)
  {
    hide Once, Parked;
    FreeSlotIs(s);
    assert Claim(t) == Claim(s) && Embryo(s) == None && Embryo(t) == Some((s.nextPid, ev.level));
  }

  /** Only the running process, the claimed one and new slots change state. */
  predicate KeepsState(s: State, t: State, p: nat)
    requires Shaped(s) && p < SLOTS
  {
    |t.procs| == SLOTS && t.procs[p].state == s.procs[p].state && s.nextPid <= t.nextPid
  }

  lemma SchedulerKeepsState(s: State, p: nat)
    requires Shaped(s) && p < SLOTS && p != s.cur && InScheduler(At(s))
    requires At(s).Chosen? && At(s).got.Some? ==> At(s).got.value != p
    ensures KeepsState(s, AdvanceScheduler(s), p)
  {
    hide FirstLevel, To;
    SchedTheorems.ToKeeps(s, p);
  }

  lemma ProcessKeepsState(s: State, p: nat)
    requires Shaped(s) && p < SLOTS && p != s.cur && !InScheduler(At(s))
    ensures KeepsState(s, Advance(s), p)
  {
    hide AdvanceEnqueue, AdvanceProcess, KeepsState;
    if InEnqueue(At(s)) { EnqueueKeepsState(s, p); } else { ReturnKeepsState(s, p); }
  }

  lemma EnqueueKeepsState(s: State, p: nat)
    requires Shaped(s) && p < SLOTS && p != s.cur && InEnqueue(At(s))
    ensures KeepsState(s, AdvanceEnqueue(s), p)
  {
    hide To;
    SchedTheorems.ToKeeps(s, p);
  }

  lemma ReturnKeepsState(s: State, p: nat)
    requires Shaped(s) && p < SLOTS && p != s.cur && !InEnqueue(At(s)) && !InScheduler(At(s))
    ensures KeepsState(s, AdvanceProcess(s), p)
  {
    hide To;
    SchedTheorems.ToKeeps(s, p);
  }

  lemma ChoiceKeepsState(s: State, ev: Event, p: nat)
    requires Shaped(s) && Table(s) && Enabled(s, ev) && ev != Go && p < s.nextPid && p != s.cur
    ensures p < SLOTS && KeepsState(s, Step(s, ev), p)
  {
    FreeSlotIs(s);
  }

  lemma StepKeepsState(s: State, ev: Event, p: nat)
    requires Inv(s) && Enabled(s, ev) && p < s.nextPid && p != s.cur && !IsClaimed(s, p)
    ensures p < SLOTS && KeepsState(s, Step(s, ev), p)
  {
    hide Once, ClaimAlive, Embryo, AdvanceScheduler, AdvanceProcess, AdvanceEnqueue, KeepsState, Parked;
    if ev != Go { ChoiceKeepsState(s, ev, p); }
    else if InScheduler(At(s)) { SchedulerKeepsState(s, p); }
    else { ProcessKeepsState(s, p); }
  }

  lemma BuriedIsOffCpu(s: State, p: nat)
    requires Inv(s) && Buried(s, p)
    ensures p != s.cur
  {
    hide Once;
  }

  lemma NewClaimIsAlive(s: State, t: State, p: nat)
    requires Inv(s) && Enabled(s, Go) && Picks(s, Go) && t == Step(s, Go) && Shaped(t) && Buried(s, p)
    ensures !IsClaimed(t, p)
  {
    hide Once, Control, Table;
    PickIsAlive(s, FirstLevel(s.queues));
    assert Claim(t) == Some((Picked(s), Demote(FirstLevel(s.queues))));
  }

  lemma StaysBuried(s: State, ev: Event, p: nat)
    requires Inv(s) && Enabled(s, ev) && Sane(s, ev) && p < s.nextPid && Inv(Step(s, ev)) && Buried(s, p)
    ensures p < Step(s, ev).nextPid && Buried(Step(s, ev), p)
  {
    hide Once, Control, Table, ClaimAlive, Step, Enabled, Claim, Embryo;
    var t := Step(s, ev);
    BuriedIsOffCpu(s, p);
    StepKeepsState(s, ev, p);
    if Picks(s, ev) { NewClaimIsAlive(s, t, p); }
    else if Drops(s, ev) || Adds(s, ev) || Forks(s, ev) { ClaimShrinks(s, ev, t); }
    else { QuietStep(s, ev); }
  }

  lemma ClaimShrinks(s: State, ev: Event, t: State)
    requires Inv(s) && Enabled(s, ev) && Sane(s, ev) && t == Step(s, ev) && Inv(t)
    requires Drops(s, ev) || Adds(s, ev) || Forks(s, ev)
    ensures Claim(t) == None || Claim(t) == Claim(s)
  {
    hide Inv, Step, Enabled, Claim, Drops, Adds, Forks;
    InvShape(s);
    if Drops(s, ev) { DropClaim(s, ev, t); } else if Adds(s, ev) { AddClaim(s, ev, t); } else { ForkClaim(s, ev, t); }
  }

  lemma DropClaim(s: State, ev: Event, t: State)
    requires Inv(s) && Enabled(s, ev) && t == Step(s, ev) && Inv(t) && Drops(s, ev)
    ensures Claim(t) == None
  {
    hide Once, Parked, FirstLevel, AdvanceEnqueue, AdvanceProcess;
  }

  lemma AddClaim(s: State, ev: Event, t: State)
    requires Inv(s) && Enabled(s, ev) && t == Step(s, ev) && Inv(t) && Adds(s, ev)
    ensures Claim(t) == None || Claim(t) == Claim(s)
  {
    hide Once, Parked, FirstLevel, AdvanceScheduler, AdvanceProcess;
  }

  lemma ForkClaim(s: State, ev: Event, t: State)
    requires Inv(s) && Enabled(s, ev) && t == Step(s, ev) && Inv(t) && Forks(s, ev)
    ensures Claim(t) == None || Claim(t) == Claim(s)
  {
    hide Once, Parked, Advance;
    FreeSlotIs(s);
  }

  /** Levels never decrease: a process that is somewhere stays somewhere, at or below the
      level it was on, until it is a zombie that the scheduler has let go of, for good. */
  lemma {:induction false} LevelsNeverDecrease(s: State, evs: seq<Event>, p: nat)
    requires Inv(s) && Runs(s, evs) && p < s.nextPid
    ensures NotBelow(LevelIn(s, p), LevelIn(After(s, evs), p))
    ensures LevelIn(s, p).Some? ==> LevelIn(After(s, evs), p).Some? || Buried(After(s, evs), p)
    ensures Buried(s, p) ==> Buried(After(s, evs), p) && LevelIn(After(s, evs), p) == None
    decreases |evs|
  {
    hide Inv, Step, Enabled, LevelIn, Buried;
    InvShape(s);
    if evs == [] {
      if Buried(s, p) { BuriedHasNoLevel(s, p); }
    } else {
      StepLevel(s, evs[0], p);
      LevelsNeverDecrease(Step(s, evs[0]), evs[1..], p);
    }
  }
}
