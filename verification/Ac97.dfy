/** The AC97 driver's buffer descriptor ring and the controller that plays from it. */
module Ac97 {
  import Words

  const RING: nat := 32         // NUM_BDL_ENTRIES
  const MAX_SAMPLES: nat := 0xFFE

  datatype Entry = Entry(addr: nat, samples: nat)

  /** What the driver keeps: the ring, the last valid index, and the bytes still to queue. */
  datatype Dev = Dev(slots: seq<Entry>, lvi: nat, pos: nat, end: nat)

  /** samples_in_chunk: 16-bit samples for one entry, an even number. */
  function SamplesInChunk(pos: nat, end: nat): nat
    requires pos <= end
  {
    var remaining := end - pos;
    if remaining >= MAX_SAMPLES * 2 then MAX_SAMPLES else remaining / 2 - remaining / 2 % 2
  }

  /** As much as an entry holds, or all whole stereo frames that are left: four bytes are the
      least that gets queued. */
  lemma ChunkSize(pos: nat, end: nat)
    requires pos <= end
    ensures var s := SamplesInChunk(pos, end);
            && s % 2 == 0 && s <= MAX_SAMPLES && pos + 2 * s <= end && (s == 0 <==> end - pos < 4)
            && (end - pos) % 4 == (end - (pos + 2 * s)) % 4
            && (s == 0xFFE || end - (pos + 2 * s) < 4)
  {
    var r, s := end - pos, SamplesInChunk(pos, end);
    if r < MAX_SAMPLES * 2 { assert r / 2 == 2 * (s / 2) + r / 2 % 2; }
    assert s == 2 * (s / 2);
  }

  /** The entries for the clip pos .. end, in order. */
  function Chunks(pos: nat, end: nat): seq<Entry>
    requires pos <= end
    decreases end - pos
  {
    var s := SamplesInChunk(pos, end);
    ChunkSize(pos, end);
    if s == 0 then [] else [Entry(pos, s)] + Chunks(pos + 2 * s, end)
  }

  /** The entries play the bytes a .. b, each once and in order. */
  predicate Cover(es: seq<Entry>, a: nat, b: nat)
  {
    if es == [] then a == b else es[0].addr == a && Cover(es[1..], a + 2 * es[0].samples, b)
  }

  lemma CoverCons(e: Entry, es: seq<Entry>, b: nat)
    requires Cover(es, e.addr + 2 * e.samples, b)
    ensures Cover([e] + es, e.addr, b)
  {
    assert ([e] + es)[1..] == es;
  }

  /** The chunks play all of the clip but an odd rest of less than a stereo frame. */
  lemma ChunksCover(pos: nat, end: nat)
    requires pos <= end
    ensures Cover(Chunks(pos, end), pos, end - (end - pos) % 4)
    ensures forall e :: e in Chunks(pos, end) ==> e.samples % 2 == 0 && 0 < e.samples <= MAX_SAMPLES
  {
    ChunksCoverTo(pos, end, end - (end - pos) % 4);
    ChunksEven(pos, end);
  }

  lemma {:induction false} ChunksCoverTo(pos: nat, end: nat, b: nat)
    requires pos <= b <= end && end - b == (end - pos) % 4
    ensures Cover(Chunks(pos, end), pos, b)
    decreases end - pos
  {
    hide SamplesInChunk;
    var s := SamplesInChunk(pos, end);
    ChunkSize(pos, end);
    if s != 0 {
      hide Cover;
      ChunksCoverTo(pos + 2 * s, end, b);
      CoverCons(Entry(pos, s), Chunks(pos + 2 * s, end), b);
    }
  }

  lemma {:induction false} ChunksEven(pos: nat, end: nat)
    requires pos <= end
    ensures forall e :: e in Chunks(pos, end) ==> e.samples % 2 == 0 && 0 < e.samples <= MAX_SAMPLES
    decreases end - pos
  {
    hide SamplesInChunk;
    var s := SamplesInChunk(pos, end);
    ChunkSize(pos, end);
    if s != 0 { ChunksEven(pos + 2 * s, end); }
  }

  /** Where the first n entries end. */
  function After(es: seq<Entry>, a: nat): nat
  {
    if es == [] then a else After(es[1..], a + 2 * es[0].samples)
  }

  lemma {:induction false} CoverAfter(es: seq<Entry>, a: nat, b: nat)
    requires Cover(es, a, b)
    ensures After(es, a) == b
  {
    if es != [] { CoverAfter(es[1..], a + 2 * es[0].samples, b); }
  }

  lemma {:induction false} AfterAdd(es: seq<Entry>, e: Entry, a: nat)
    ensures After(es + [e], a) == After(es, a) + 2 * e.samples
  {
    if es != [] {
      assert (es + [e])[1..] == es[1..] + [e];
      AfterAdd(es[1..], e, a + 2 * es[0].samples);
    } else {
      assert (es + [e])[1..] == [];
    }
  }

  /** The chunk that follows the first n is cut where they end. */
  lemma {:induction false} ChunkAt(pos: nat, end: nat, n: nat)
    requires pos <= end && n <= |Chunks(pos, end)|
    ensures var at := After(Chunks(pos, end)[..n], pos);
            && pos <= at <= end && (end - at) % 4 == (end - pos) % 4
            && (n < |Chunks(pos, end)| <==> SamplesInChunk(at, end) > 0)
            && (n < |Chunks(pos, end)| ==> Chunks(pos, end)[n] == Entry(at, SamplesInChunk(at, end)))
    decreases n
  {
    hide SamplesInChunk;
    ChunkSize(pos, end);
    if n > 0 {
      var s := SamplesInChunk(pos, end);
      assert Chunks(pos, end)[..n][1..] == Chunks(pos + 2 * s, end)[..n - 1];
      ChunkAt(pos + 2 * s, end, n - 1);
    } else {
      assert Chunks(pos, end)[..0] == [];
    }
  }

  // ------------------------------------------------------------- driver and controller

  /** The refill of the interrupt handler: the next chunk goes to the slot after the last
      valid one. */
  function Refill(d: Dev): Dev
    requires |d.slots| == RING && d.pos <= d.end
  {
    var next, samples := (d.lvi + 1) % RING, SamplesInChunk(d.pos, d.end);
    Dev(d.slots[next := Entry(d.pos, samples)], next, d.pos + 2 * samples, d.end)
  }

  /** A clip being played. The controller is at entry `civ`; it is halted once it completes
      the last valid entry; `bcis` is its pending completion interrupt. `queued` and `played`
      record all entries ever queued and played. */
  datatype Play = Play(dev: Dev, start: nat, civ: nat, halted: bool, bcis: bool, queued: seq<Entry>, played: seq<Entry>)

  predicate Shaped(s: Play) { |s.dev.slots| == RING && s.dev.pos <= s.dev.end && s.civ < RING }

  /** The controller completes its current entry. */
  function Complete(s: Play): Play
    requires Shaped(s) && !s.halted
  {
    var t := s.(played := s.played + [s.dev.slots[s.civ]], bcis := true);
    if s.civ == s.dev.lvi then t.(halted := true) else t.(civ := (s.civ + 1) % RING)
  }

  /** The interrupt handler. Moving the last valid index makes a halted controller go on. */
  function Irq(s: Play): Play
    requires Shaped(s)
  {
    if !s.bcis then s
    else if s.dev.pos >= s.dev.end then s.(bcis := false)
    else
      var t := s.(bcis := false, dev := Refill(s.dev),
                  queued := s.queued + [Entry(s.dev.pos, SamplesInChunk(s.dev.pos, s.dev.end))]);
      if s.halted then t.(halted := false, civ := (s.civ + 1) % RING) else t
  }

  /** The entries queued so far are the clip's chunks in order, followed, once these are
      out, by entries with no samples. */
  ghost predicate InOrder(queued: seq<Entry>, start: nat, end: nat)
    requires start <= end
  {
    var all := Chunks(start, end);
    if |queued| <= |all| then queued == all[..|queued|]
    else queued[..|all|] == all && forall k :: |all| <= k < |queued| ==> queued[k].samples == 0
  }

  ghost predicate Queue(s: Play)
  {
    && s.start <= s.dev.pos <= s.dev.end && s.dev.pos == After(s.queued, s.start)
    && InOrder(s.queued, s.start, s.dev.end)
    && (|s.queued| > |Chunks(s.start, s.dev.end)| ==> s.dev.pos < s.dev.end)
  }

  /** The slots hold the last entries queued. */
  ghost predicate Slots(slots: seq<Entry>, queued: seq<Entry>)
    requires |slots| == RING
  {
    forall k :: 0 <= k < |queued| && |queued| - 32 <= k ==> slots[k % 32] == queued[k]
  }

  /** Indices of controller and driver, and how far they can be apart. */
  ghost predicate Indices(s: Play)
  {
    var n, m := |s.queued|, |s.played|;
    && 1 <= n && m <= n && n + (if s.bcis then 1 else 0) <= m + 32 && s.dev.lvi == (n - 1) % 32
    && (s.halted <==> m == n) && s.civ == (if s.halted then n - 1 else m) % 32
    && (s.halted && !s.bcis ==> s.dev.pos >= s.dev.end)
  }

  ghost predicate Inv(s: Play)
  {
    && Shaped(s) && Indices(s) && Slots(s.dev.slots, s.queued) && Queue(s)
    && s.played == s.queued[..|s.played|]
  }

  lemma RingDistance(k: nat, n: nat)
    requires k <= n < k + 32
    ensures k % 32 == n % 32 <==> k == n
    ensures (n % 32 + 1) % 32 == (n + 1) % 32
  {
    var q, r, d := k / 32, k % 32, n - k;
    if r + d < 32 { Words.QuotientUnique(n, 32, q, r + d); } else { Words.QuotientUnique(n, 32, q + 1, r + d - 32); }
    var u, v := n / 32, n % 32;
    if v < 31 { Words.QuotientUnique(n + 1, 32, u, v + 1); } else { Words.QuotientUnique(n + 1, 32, u + 1, 0); }
  }

  /** What the controller plays next is the next entry queued. */
  lemma CompleteKeeps(s: Play)
    requires Inv(s) && !s.halted
    ensures Inv(Complete(s)) && Complete(s).played == s.queued[..|s.played| + 1]
  {
    var n, m := |s.queued|, |s.played|;
    RingDistance(m, n - 1);
    RingDistance(m, m);
    assert s.dev.slots[m % 32] == s.queued[m];
  }

  /** The slot a refill writes was completed before, and the queue goes on in order. */
  lemma RefillQueue(queued: seq<Entry>, start: nat, pos: nat, end: nat)
    requires start <= pos < end && pos == After(queued, start) && InOrder(queued, start, end)
    ensures var e := Entry(pos, SamplesInChunk(pos, end));
            && InOrder(queued + [e], start, end) && After(queued + [e], start) == pos + 2 * e.samples <= end
            && (|queued| < |Chunks(start, end)| <==> e.samples > 0)
  {
    hide SamplesInChunk, Chunks;
    var all, e := Chunks(start, end), Entry(pos, SamplesInChunk(pos, end));
    AfterAdd(queued, e, start);
    ChunkSize(pos, end);
    if |queued| <= |all| {
      ChunkAt(start, end, |queued|);
      assert |queued| < |all| ==> (queued + [e]) == all[..|queued| + 1];
      assert |queued| == |all| ==> queued == all && (queued + [e])[..|all|] == all;
    } else {
      ZerosAfter(queued, |all|, start);
      ChunkAt(start, end, |all|);
      assert all[..|all|] == all;
      assert (queued + [e])[..|all|] == all;
    }
  }

  /** Entries with no samples move nothing. */
  lemma {:induction false} ZerosAfter(es: seq<Entry>, n: nat, a: nat)
    requires n <= |es| && forall k :: n <= k < |es| ==> es[k].samples == 0
    ensures After(es, a) == After(es[..n], a)
    decreases |es|
  {
    if n < |es| {
      var rest := es[..|es| - 1];
      assert es == rest + [es[|es| - 1]];
      AfterAdd(rest, es[|es| - 1], a);
      ZerosAfter(rest, n, a);
      assert rest[..n] == es[..n];
    } else {
      assert es[..n] == es;
    }
  }

  lemma RefillSlots(slots: seq<Entry>, queued: seq<Entry>, e: Entry)
    requires |slots| == RING && Slots(slots, queued)
    ensures Slots(slots[|queued| % 32 := e], queued + [e])
  {
    var n := |queued|;
    forall k | 0 <= k < n && n + 1 - 32 <= k ensures k % 32 != n % 32 { RingDistance(k, n); }
  }

  lemma IrqKeeps(s: Play)
    requires Inv(s)
    ensures Inv(Irq(s))
    ensures Irq(s).queued != s.queued ==>
              && Irq(s).dev.lvi == |s.queued| % 32
              && (|s.queued| >= 32 ==> |s.queued| - 32 < |s.played| && s.dev.slots[Irq(s).dev.lvi] == s.queued[|s.queued| - 32])
  {
    hide SamplesInChunk, InOrder, After, Chunks;
    var n := |s.queued|;
    if s.bcis && s.dev.pos < s.dev.end {
      var e := Entry(s.dev.pos, SamplesInChunk(s.dev.pos, s.dev.end));
      RefillQueue(s.queued, s.start, s.dev.pos, s.dev.end);
      RefillSlots(s.dev.slots, s.queued, e);
      RingDistance(n - 1, n - 1);
      assert (s.queued + [e])[..|s.played|] == s.queued[..|s.played|];
      if n >= 32 { assert (n - 32) % 32 == n % 32; }
    }
  }

  // ------------------------------------------------------------- whole runs

  datatype Event = Completion | Interrupt

  predicate Enabled(s: Play, ev: Event) { Shaped(s) && (ev == Completion ==> !s.halted) }

  function Step(s: Play, ev: Event): Play
    requires Enabled(s, ev)
  {
    if ev == Completion then Complete(s) else Irq(s)
  }

  ghost predicate Run(states: seq<Play>, evs: seq<Event>)
  {
    |states| == |evs| + 1 &&
    forall i :: 0 <= i < |evs| ==> Enabled(states[i], evs[i]) && states[i + 1] == Step(states[i], evs[i])
  }

  lemma {:induction false} RunKeeps(states: seq<Play>, evs: seq<Event>, k: nat)
    requires Run(states, evs) && Inv(states[0]) && k < |states|
    ensures Inv(states[k]) && states[k].start == states[0].start && states[k].dev.end == states[0].dev.end
  {
    if k > 0 {
      RunKeeps(states, evs, k - 1);
      var s := states[k - 1];
      assert states[k] == Step(s, evs[k - 1]);
      if evs[k - 1] == Completion { CompleteKeeps(s); } else { IrqKeeps(s); }
    }
  }

  /** The controller has halted and no interrupt is pending: nothing more will happen. */
  predicate AtRest(s: Play) { s.halted && !s.bcis }

  lemma {:induction false} InOrderPrefix(queued: seq<Entry>, start: nat, end: nat, n: nat)
    requires start <= end && InOrder(queued, start, end) && n <= |queued|
    ensures InOrder(queued[..n], start, end)
  {
    hide Chunks;
    var all := Chunks(start, end);
    if |queued| > |all| {
      assert queued[..|all|] == all;
      assert n <= |all| ==> queued[..n] == queued[..|all|][..n];
      assert n > |all| ==> queued[..n][..|all|] == queued[..|all|];
    } else {
      assert queued[..n] == all[..n];
    }
  }

  /** Whatever the order of completions and interrupts, what has been played is the clip's
      chunks in order, then entries with no samples; and once the controller is at rest the
      whole clip has been played, each byte once, and nothing else. */
  lemma PlayedExactly(states: seq<Play>, evs: seq<Event>)
    requires Run(states, evs) && Inv(states[0])
    ensures var s := states[|evs|];
            && s.start <= s.dev.end && InOrder(s.played, s.start, s.dev.end)
            && (AtRest(s) ==> s.played == Chunks(s.start, s.dev.end) && Cover(s.played, s.start, s.dev.end))
  {
    hide Chunks, SamplesInChunk, InOrder;
    RunKeeps(states, evs, |evs|);
    var s := states[|evs|];
    InOrderPrefix(s.queued, s.start, s.dev.end, |s.played|);
    if AtRest(s) { RestIsEnd(s); }
  }

  lemma RestIsEnd(s: Play)
    requires Inv(s) && AtRest(s)
    ensures (s.dev.end - s.start) % 4 == 0 && s.played == Chunks(s.start, s.dev.end)
    ensures Cover(s.played, s.start, s.dev.end)
  {
    hide Chunks, SamplesInChunk;
    var all, n := Chunks(s.start, s.dev.end), |s.queued|;
    assert s.played == s.queued[..n] == s.queued;
    if n <= |all| {
      ChunkAt(s.start, s.dev.end, n);
      ChunkSize(s.dev.pos, s.dev.end);
      assert n == |all| && all[..n] == all;
    }
    ChunksCover(s.start, s.dev.end);
  }

  // ------------------------------------------------------------- coming to rest

  /** For a clip of whole stereo frames no more than its chunks are ever queued. */
  lemma WholeClipQueue(s: Play)
    requires Inv(s) && (s.dev.end - s.start) % 4 == 0
    ensures |s.played| <= |s.queued| <= |Chunks(s.start, s.dev.end)|
  {
    hide Chunks, SamplesInChunk;
    var all := Chunks(s.start, s.dev.end);
    if |s.queued| > |all| {
      ZerosAfter(s.queued, |all|, s.start);
      ChunksCover(s.start, s.dev.end);
      CoverAfter(all, s.start, s.dev.end);
      assert false;
    }
  }

  /** Completions and interrupts still to come before a whole clip is at rest. */
  ghost function Left(s: Play): int
    requires s.start <= s.dev.end
  {
    2 * (|Chunks(s.start, s.dev.end)| - |s.played|) + (if s.bcis then 1 else 0)
  }

  /** An interrupt with nothing pending changes nothing; every other event brings a whole
      clip one step closer to rest. */
  lemma EventCounts(s: Play, ev: Event)
    requires Inv(s) && Enabled(s, ev) && (s.dev.end - s.start) % 4 == 0
    ensures var t := Step(s, ev);
            && Inv(t) && t.start == s.start && t.dev.end == s.dev.end
            && (t == s <==> ev == Interrupt && !s.bcis)
            && (t != s ==> 0 <= Left(t) < Left(s))
  {
    hide Chunks, SamplesInChunk, InOrder;
    if ev == Completion { CompleteKeeps(s); } else { IrqKeeps(s); }
    WholeClipQueue(Step(s, ev));
  }

  /** A whole clip cannot go on: a run whose every event does something is this short. */
  lemma {:induction false} WholeClipStops(states: seq<Play>, evs: seq<Event>)
    requires Run(states, evs) && Inv(states[0]) && (states[0].dev.end - states[0].start) % 4 == 0
    requires forall i :: 0 <= i < |evs| ==> states[i + 1] != states[i]
    ensures |evs| <= Left(states[0])
    decreases |evs|
  {
    hide Inv, Step, Enabled, Left;
    if evs != [] {
      assert states[1] == Step(states[0], evs[0]) && states[1] != states[0];
      EventCounts(states[0], evs[0]);
      assert forall i :: 0 <= i < |evs[1..]| ==> evs[1..][i] == evs[i + 1] && states[1..][i] == states[i + 1];
      forall i | 0 <= i < |evs| - 1
        ensures Enabled(states[1..][i], evs[1..][i]) && states[1..][i + 1] == Step(states[1..][i], evs[1..][i])
        ensures states[1..][i + 1] != states[1..][i]
      {
        assert states[i + 2] == Step(states[i + 1], evs[i + 1]);
      }
      WholeClipStops(states[1..], evs[1..]);
    } else {
      LeftIsNat(states[0]);
    }
  }

  lemma LeftIsNat(s: Play)
    requires Inv(s) && (s.dev.end - s.start) % 4 == 0
    ensures 0 <= Left(s)
  {
    hide Chunks;
    WholeClipQueue(s);
  }

  /** And until it is at rest, there is such an event. */
  lemma {:induction false} WholeClipRests(s: Play) returns (states: seq<Play>, evs: seq<Event>)
    requires Inv(s) && (s.dev.end - s.start) % 4 == 0
    ensures Run(states, evs) && states[0] == s && AtRest(states[|evs|])
    decreases if Left(s) < 0 then 0 else Left(s)
  {
    hide Step, Left, Queue, Slots, Indices;
    if AtRest(s) {
      states, evs := [s], [];
    } else {
      var ev := if s.bcis then Interrupt else Completion;
      EventCounts(s, ev);
      LeftIsNat(s);
      states, evs := WholeClipRests(Step(s, ev));
      AddFirst(s, ev, states, evs);
      states, evs := [s] + states, [ev] + evs;
    }
  }

  lemma AddFirst(s: Play, ev: Event, states: seq<Play>, evs: seq<Event>)
    requires Run(states, evs) && Enabled(s, ev) && states[0] == Step(s, ev)
    ensures Run([s] + states, [ev] + evs)
  {
    hide Step, Enabled;
    forall i | 0 <= i < |evs| + 1
      ensures Enabled(([s] + states)[i], ([ev] + evs)[i])
      ensures ([s] + states)[i + 1] == Step(([s] + states)[i], ([ev] + evs)[i])
    {
      if i > 0 { assert states[i] == Step(states[i - 1], evs[i - 1]); }
    }
  }

  /** Some run from s comes to rest. */
  ghost predicate CanRest(s: Play)
  {
    exists states, evs :: Run(states, evs) && states[0] == s && AtRest(states[|evs|])
  }

  lemma RestIsWhole(states: seq<Play>, evs: seq<Event>)
    requires Run(states, evs) && Inv(states[0]) && AtRest(states[|evs|])
    ensures (states[0].dev.end - states[0].start) % 4 == 0
  {
    hide Inv, Step, Enabled, AtRest;
    RunKeeps(states, evs, |evs|);
    RestIsEnd(states[|evs|]);
  }

  lemma CanRestBy(states: seq<Play>, evs: seq<Event>)
    requires Run(states, evs) && AtRest(states[|evs|])
    ensures CanRest(states[0])
  {
    hide Step, Enabled, AtRest;
  }

  /** Playback can come to rest if and only if the clip is whole stereo frames. With a rest
      of one to three bytes the driver answers every completion with an empty entry. */
  lemma RestIff(s: Play)
    requires Inv(s)
    ensures CanRest(s) <==> (s.dev.end - s.start) % 4 == 0
  {
    hide Inv, AtRest, Step, Enabled, InOrder;
    if (s.dev.end - s.start) % 4 == 0 {
      var states, evs := WholeClipRests(s);
      CanRestBy(states, evs);
    } else if CanRest(s) {
      var states, evs :| Run(states, evs) && states[0] == s && AtRest(states[|evs|]);
      RestIsWhole(states, evs);
    }
  }

  /** The smallest failing clip that plays at all: of six bytes four are queued, and the
      first completion makes the driver queue an entry with no samples, and then another. */
  lemma SixByteClip(slots: seq<Entry>, addr: nat)
    requires |slots| == RING && slots[0] == Entry(addr, 2)
    ensures var s := Begin(Dev(slots, 0, addr + 4, addr + 6), addr, 1);
            && Inv(s) && !CanRest(s)
            && var t := Irq(Complete(s));
               && t.queued == [Entry(addr, 2), Entry(addr + 4, 0)] && !t.halted
               && Irq(Complete(t)).queued == t.queued + [Entry(addr + 4, 0)]
  {
    var s := Begin(Dev(slots, 0, addr + 4, addr + 6), addr, 1);
    assert SamplesInChunk(addr, addr + 6) == 2 && SamplesInChunk(addr + 4, addr + 6) == 0;
    assert Chunks(addr + 4, addr + 6) == [];
    assert Chunks(addr, addr + 6) == [Entry(addr, 2)];
    assert s.queued == [Entry(addr, 2)];
    assert After(s.queued, addr) == After([], addr + 4) by { assert s.queued[1..] == []; }
    assert s.queued == Chunks(addr, addr + 6)[..1];
    RestIff(s);
  }

  // ------------------------------------------------------------- the driver's code

  /** Playback as ac97_start_playback() starts it, n entries being filled. */
  function Begin(d: Dev, start: nat, n: nat): Play
    requires n <= |d.slots|
  {
    Play(d, start, 0, false, false, d.slots[..n], [])
  }

  class Driver {
    const ring: array<Entry>
    var filled: nat
    var lvi: nat
    var pos: nat
    var end: nat

    constructor ()
      ensures fresh(ring) && ring.Length == RING && filled == 0 && pos == end == 0
    {
      ring := new Entry[RING](_ => Entry(0, 0));
      filled, lvi, pos, end := 0, 0, 0, 0;
    }

    ghost function View(): Dev
      reads this, ring
    {
      Dev(ring[..], lvi, pos, end)
    }

    /** What setup leaves behind: as many of the clip's chunks as fit. */
    ghost predicate Filled(start: nat)
      reads this, ring
    {
      && ring.Length == RING && filled <= RING && start <= pos <= end
      && filled == (if |Chunks(start, end)| <= RING then |Chunks(start, end)| else RING)
      && ring[..filled] == Chunks(start, end)[..filled] && pos == After(ring[..filled], start)
    }

    /** ac97_setup_bdl; it halts the machine for audio above 4 GiB. */
    method SetupBdl(start: nat, stop: nat) returns (ok: bool)
      requires ring.Length == RING && start <= stop
      modifies this, ring
      ensures ok <==> stop <= 0xFFFF_FFFF
      ensures ok ==> Filled(start) && end == stop
    {
      hide SamplesInChunk, Chunks;
      if start > 0xFFFF_FFFF || stop > 0xFFFF_FFFF {
        return false;
      }
      var at, i := start, 0;
      ghost var all := Chunks(start, stop);
      ChunkAt(start, stop, 0);
      assert ring[..0] == all[..0] == [];
      while i < RING && at < stop
        invariant 0 <= i <= RING && i <= |all| && start <= at <= stop
        invariant ring[..i] == all[..i] && at == After(ring[..i], start)
      {
        ChunkAt(start, stop, i);
        var samples := SamplesInChunk(at, stop);
        if samples == 0 {
          break;
        }
        ghost var before := ring[..i];
        ring[i] := Entry(at, samples);
        AfterAdd(before, ring[i], start);
        ChunkSize(at, stop);
        assert ring[..i + 1] == before + [ring[i]] == all[..i + 1];
        at := at + samples * 2;
        i := i + 1;
      }
      ChunkAt(start, stop, i);
      ChunkSize(at, stop);
      filled := i;
      pos := at;
      end := stop;
      return true;
    }

    /** ac97_start_playback: nothing to start if nothing is filled. */
    method StartPlayback(ghost start: nat) returns (started: bool)
      requires Filled(start)
      modifies this`lvi
      ensures started <==> end - start >= 4
      ensures started ==> Inv(Begin(View(), start, filled))
    {
      hide SamplesInChunk;
      ChunkSize(start, end);
      if filled == 0 {
        return false;
      }
      lvi := filled - 1;
      ghost var s := Begin(View(), start, filled);
      assert s.queued == ring[..filled];
      assert Slots(s.dev.slots, s.queued);
      return true;
    }

    /** The interrupt handler, `complete` being the buffer completion bit it read. */
    method IrqHandler(complete: bool)
      requires ring.Length == RING && pos <= end
      modifies this`pos, this`lvi, ring
      ensures View() == if complete && old(pos) < end then Refill(old(View())) else old(View())
    {
      if !complete {
        return;
      }
      if pos >= end {
        return;
      }
      var next := (lvi + 1) % RING;
      var samples := SamplesInChunk(pos, end);
      ring[next] := Entry(pos, samples);
      pos := pos + samples * 2;
      lvi := next;
    }
  }
}
