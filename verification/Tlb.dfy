/** The translation lookaside buffer next to the tables: the hardware may cache the
    translation of any page at any moment, at the size the walk finds, and the code must
    invalidate enough (Intel SDM Vol. 3A section 4.10.4.1). */
module Tlb {
  import opened Options
  import opened Words
  import opened PageEntry
  import opened PageForest
  import opened PageWalk
  import opened PageOps

  const GLOBAL_BIT: nat := 8

  /** A cached translation of a whole 4 KiB, 2 MiB or 1 GiB page. */
  datatype TlbEntry = TlbEntry(page: Page, level: nat, base: nat, rights: Rights, attrs: set<nat>, global: bool)

  predicate Covers(e: TlbEntry, q: Page)
  {
    && 1 <= e.level <= 3
    && e.page.i4 == q.i4 && e.page.i3 == q.i3
    && (e.level < 3 ==> e.page.i2 == q.i2)
    && (e.level < 2 ==> e.page.i1 == q.i1)
  }

  function Cached(e: TlbEntry, q: Page): Xlat
    requires Covers(e, q)
  {
    Hit(e.base + Within(q, e.level), e.rights, e.attrs)
  }

  /** What the hardware would cache for page p. PGE decides whether G is honoured. */
  function Lookup(mem: Mem, t: nat, level: nat, p: Page, acc: Rights, pge: bool): Option<TlbEntry>
    requires 1 <= level <= 4
    decreases level
  {
    if t !in mem then None else
    var e := mem[t][Idx(p, level)];
    if !e.present then None
    else if IsLeaf(e, level) then
      Some(TlbEntry(p, level, LeafBase(e.frame, level), Meet(acc, e), e.attrs, pge && GLOBAL_BIT in e.attrs))
    else Lookup(mem, e.frame, level - 1, p, Meet(acc, e), pge)
  }

  /** A cached entry is right for every page it covers, not just the one that was touched. */
  lemma {:induction false} LookupCovers(mem: Mem, t: nat, level: nat, p: Page, acc: Rights, pge: bool, q: Page)
    requires 1 <= level <= 4
    ensures var x := Lookup(mem, t, level, p, acc, pge);
            x.Some? ==> 1 <= x.value.level <= 3 && x.value.level <= level && Covers(x.value, p)
                        && (x.value.global ==> pge)
                        && (Covers(x.value, q) ==> Walk(mem, t, level, q, acc) == Cached(x.value, q))
    decreases level
  {
    if t in mem {
      var e := mem[t][Idx(p, level)];
      if e.present && !IsLeaf(e, level) { LookupCovers(mem, e.frame, level - 1, p, Meet(acc, e), pge, q); }
    }
  }

  /** The live address space, under the control register cr3. */
  datatype Cpu = Cpu(s: State, c: Cert, cr3: nat, pge: bool, tlb: set<TlbEntry>)

  /** The PML4 that cr3 names. */
  function Root(u: Cpu): nat { FrameOf(u.cr3) }

  /** cr3 holds a table address and nothing else. */
  predicate Clean(u: Cpu) { And(u.cr3, FRAME_MASK) == u.cr3 }

  /** Every cached entry agrees with the tables on every page it covers. */
  ghost predicate Coherent(tlb: set<TlbEntry>, mem: Mem, root: nat)
  {
    forall e, q :: e in tlb && Covers(e, q) ==> Translate(mem, root, q) == Cached(e, q)
  }

  /** Agreement except for page p, in the window between a write and its invlpg. */
  ghost predicate CoherentBut(tlb: set<TlbEntry>, mem: Mem, root: nat, p: Page)
  {
    forall e, q :: e in tlb && Covers(e, q) && !Covers(e, p) ==> Translate(mem, root, q) == Cached(e, q)
  }

  ghost predicate Ok(u: Cpu, limit: nat)
  {
    && Forest(u.s.mem, u.c) && InStep(u.s.mem, u.c) && HeapFree(u.s, limit) && Root(u) in u.c.space
    && (!u.pge ==> forall e :: e in u.tlb ==> !e.global)
    && Coherent(u.tlb, u.s.mem, Root(u))
  }

  /** Room for the tables one walk may allocate. */
  predicate HasRoom(u: Cpu, limit: nat) { FreshFrame(u.s.brk) + 3 <= limit }

  // ------------------------------------------------------------- hardware

  /** The hardware caches page p, if it resolves. */
  function Touch(u: Cpu, p: Page): Cpu
  {
    var x := Lookup(u.s.mem, Root(u), 4, p, ALL, u.pge);
    if x.Some? then u.(tlb := u.tlb + {x.value}) else u
  }

  function TouchAll(u: Cpu, ps: seq<Page>): Cpu
    decreases |ps|
  {
    if ps == [] then u else TouchAll(Touch(u, ps[0]), ps[1..])
  }

  function Invlpg(tlb: set<TlbEntry>, p: Page): set<TlbEntry> { set e | e in tlb && !Covers(e, p) }

  /** Reloading cr3 keeps global entries; toggling CR4.PGE drops everything. */
  function FlushAll(tlb: set<TlbEntry>, pge: bool): set<TlbEntry>
  {
    if pge then {} else set e | e in tlb && e.global
  }

  lemma FlushAllEmpties(u: Cpu, limit: nat)
    requires Ok(u, limit)
    ensures FlushAll(u.tlb, u.pge) == {}
  {
  }

  lemma {:induction false} TouchAllKeeps(u: Cpu, ps: seq<Page>, p: Page)
    requires !u.pge ==> forall e :: e in u.tlb ==> !e.global
    requires CoherentBut(u.tlb, u.s.mem, Root(u), p)
    ensures var v := TouchAll(u, ps);
            && v == u.(tlb := v.tlb) && u.tlb <= v.tlb && (!u.pge ==> forall e :: e in v.tlb ==> !e.global)
            && CoherentBut(v.tlb, u.s.mem, Root(u), p)
            && (Coherent(u.tlb, u.s.mem, Root(u)) ==> Coherent(v.tlb, u.s.mem, Root(u)))
    decreases |ps|
  {
    if ps != [] {
      forall q ensures var x := Lookup(u.s.mem, Root(u), 4, ps[0], ALL, u.pge);
                       x.Some? ==> (x.value.global ==> u.pge)
                                   && (Covers(x.value, q) ==> Translate(u.s.mem, Root(u), q) == Cached(x.value, q))
      {
        LookupCovers(u.s.mem, Root(u), 4, ps[0], ALL, u.pge, q);
      }
      TouchAllKeeps(Touch(u, ps[0]), ps[1..], p);
    }
  }

  // ------------------------------------------------------------- the paging code on the live root

  /** The walk from t meets a huge page. */
  predicate SplitsFrom(mem: Mem, t: nat, level: nat, p: Page)
    requires 1 <= level <= 4
    decreases level
  {
    level > 1 && t in mem &&
    var e := mem[t][Idx(p, level)];
    e.present && (IsLeaf(e, level) || SplitsFrom(mem, e.frame, level - 1, p))
  }

  /** That is: it neither finds a page table nor an absent entry. */
  lemma {:induction false} SplitsExactly(mem: Mem, c: Cert, t: nat, p: Page)
    requires Forest(mem, c) && t in mem
    ensures var level := LevelOf(c.loc[t]);
            SplitsFrom(mem, t, level, p) <==> PtFrame(mem, t, level, p).None? && !AbsentAbove(mem, t, level, p)
    decreases LevelOf(c.loc[t])
  {
    var level := LevelOf(c.loc[t]);
    if level > 1 {
      var e := mem[t][Idx(p, level)];
      assert SlotOk(mem, c, t, Idx(p, level));
      if e.present && !IsLeaf(e, level) { SplitsExactly(mem, c, e.frame, p); }
    }
  }

  /** What the TLB holds after a walk from t; `live` if the walk was given the live cr3. */
  function FlushedBy(tlb: set<TlbEntry>, pge: bool, live: bool, mem: Mem, t: nat, level: nat, p: Page): set<TlbEntry>
    requires 1 <= level <= 4
  {
    if live && SplitsFrom(mem, t, level, p) then FlushAll(tlb, pge) else tlb
  }

  /** `arg`, as a caller passes it, names the live PML4. */
  predicate Names(arg: nat, u: Cpu) { FrameOf(arg) == Root(u) }

  /** get_page_entry on the live PML4: a split is followed by a full flush if the argument
      is cr3 bit for bit. */
  ghost function LiveWalk(u: Cpu, arg: nat, p: Page, create: bool, limit: nat): (Cpu, Option<nat>)
    requires Ok(u, limit) && HasRoom(u, limit)
  {
    var w := GetFrom(u.s, u.c, Root(u), p, create, limit);
    (u.(s := w.s, c := w.c, tlb := FlushedBy(u.tlb, u.pge, arg == u.cr3, u.s.mem, Root(u), 4, p)), w.pt)
  }

  lemma LiveWalkCoherent(u: Cpu, arg: nat, p: Page, create: bool, limit: nat)
    requires Ok(u, limit) && HasRoom(u, limit)
    ensures Ok(LiveWalk(u, arg, p, create, limit).0, limit)
  {
    var v := LiveWalk(u, arg, p, create, limit).0;
    var root := Root(u);
    WalkingIsInvisible(u.s, u.c, root, p, create, limit, root, p);
    forall e, q | e in v.tlb && Covers(e, q) ensures Translate(v.s.mem, root, q) == Cached(e, q) {
      WalkingIsInvisible(u.s, u.c, root, p, create, limit, root, q);
    }
  }

  /** After a walk that was given cr3 and split a huge page nothing of the old mapping, nor of
      any other, is cached; a walk that split nothing drops nothing. */
  lemma SplitFlushes(u: Cpu, arg: nat, p: Page, create: bool, limit: nat)
    requires Ok(u, limit) && HasRoom(u, limit)
    ensures var v, split := LiveWalk(u, arg, p, create, limit).0,
                            PtFrame(u.s.mem, Root(u), 4, p).None? && !AbsentAbove(u.s.mem, Root(u), 4, p);
            v.tlb == if split && arg == u.cr3 then {} else u.tlb
  {
    hide FrameOf, InStep, Coherent;
    SplitsExactly(u.s.mem, u.c, Root(u), p);
    FlushAllEmpties(u, limit);
  }

  /** Writing the page table entry of p and then invalidating p is safe, whatever the
      hardware caches before, between and after. */
  lemma WriteThenInvalidate(u: Cpu, p: Page, mem': Mem, between: seq<Page>)
    requires !u.pge ==> forall e :: e in u.tlb ==> !e.global
    requires Coherent(u.tlb, u.s.mem, Root(u))
    requires forall q :: q != p ==> Translate(mem', Root(u), q) == Translate(u.s.mem, Root(u), q)
    ensures var v := TouchAll(u.(s := u.s.(mem := mem')), between);
            && CoherentBut(v.tlb, mem', Root(u), p)
            && Coherent(Invlpg(v.tlb, p), mem', Root(u))
  {
    TouchAllKeeps(u.(s := u.s.(mem := mem')), between, p);
  }

  /** map_page on the live cr3: walk, write, invlpg. The hardware touches `before`
      between walk and write and `between` before the invlpg takes effect. */
  ghost function LiveMap(u: Cpu, arg: nat, p: Page, e: Entry, before: seq<Page>, between: seq<Page>, limit: nat): Cpu
    requires Ok(u, limit) && HasRoom(u, limit)
  {
    var w := MapPage(u.s, u.c, Root(u), p, e, limit);
    var v := TouchAll(LiveWalk(u, arg, p, true, limit).0, before);
    var v' := TouchAll(v.(s := w.s), between);
    v'.(tlb := Invlpg(v'.tlb, p))
  }

  /** What a touched CPU keeps. */
  lemma TouchAllOk(u: Cpu, ps: seq<Page>, limit: nat)
    requires Ok(u, limit)
    ensures Ok(TouchAll(u, ps), limit) && TouchAll(u, ps) == u.(tlb := TouchAll(u, ps).tlb) && u.tlb <= TouchAll(u, ps).tlb
  {
    TouchAllKeeps(u, ps, Page(0, 0, 0, 0));
  }

  lemma LiveMapCoherent(u: Cpu, arg: nat, p: Page, e: Entry, before: seq<Page>, between: seq<Page>, limit: nat)
    requires Ok(u, limit) && HasRoom(u, limit) && e.present
    ensures Ok(LiveMap(u, arg, p, e, before, between, limit), limit)
  {
    var root := Root(u);
    var w := MapPage(u.s, u.c, root, p, e, limit);
    LiveWalkCoherent(u, arg, p, true, limit);
    TouchAllOk(LiveWalk(u, arg, p, true, limit).0, before, limit);
    var v := TouchAll(LiveWalk(u, arg, p, true, limit).0, before);
    forall q | q != p ensures Translate(w.s.mem, root, q) == Translate(v.s.mem, root, q) {
      MapPageExact(u.s, u.c, root, p, e, limit, root, q);
      WalkingIsInvisible(u.s, u.c, root, p, true, limit, root, q);
    }
    MapPageExact(u.s, u.c, root, p, e, limit, root, p);
    WriteThenInvalidate(v, p, w.s.mem, between);
    TouchAllKeeps(v.(s := w.s), between, p);
  }

  /** unmap_page on the live PML4. It invalidates only if its argument equals the masked cr3. */
  ghost function LiveUnmap(u: Cpu, arg: nat, p: Page, before: seq<Page>, between: seq<Page>, limit: nat): Cpu
    requires Ok(u, limit) && HasRoom(u, limit)
  {
    var (w, addr) := UnmapPage(u.s, u.c, Root(u), p, limit);
    var v := TouchAll(LiveWalk(u, arg, p, false, limit).0, before);
    if Translate(u.s.mem, Root(u), p) == Fault then v
    else
      var v' := TouchAll(v.(s := w.s), between);
      if arg == And(u.cr3, FRAME_MASK) then v'.(tlb := Invlpg(v'.tlb, p)) else v'
  }

  lemma LiveUnmapCoherent(u: Cpu, arg: nat, p: Page, before: seq<Page>, between: seq<Page>, limit: nat)
    requires Ok(u, limit) && HasRoom(u, limit) && arg == And(u.cr3, FRAME_MASK)
    ensures Ok(LiveUnmap(u, arg, p, before, between, limit), limit)
  {
    var root := Root(u);
    var w := UnmapPage(u.s, u.c, root, p, limit).0;
    LiveWalkCoherent(u, arg, p, false, limit);
    TouchAllOk(LiveWalk(u, arg, p, false, limit).0, before, limit);
    var v := TouchAll(LiveWalk(u, arg, p, false, limit).0, before);
    forall q | q != p ensures Translate(w.s.mem, root, q) == Translate(v.s.mem, root, q) {
      UnmapPageExact(u.s, u.c, root, p, limit, root, q);
      WalkingIsInvisible(u.s, u.c, root, p, false, limit, root, q);
    }
    UnmapPageExact(u.s, u.c, root, p, limit, root, p);
    WriteThenInvalidate(v, p, w.s.mem, between);
    TouchAllKeeps(v.(s := w.s), between, p);
  }

  /** Whatever names the live PML4 is passed: after unmapping a page the TLB held, the TLB is
      coherent if and only if the argument was the masked cr3. */
  lemma UnmapCoherentIff(u: Cpu, arg: nat, p: Page, between: seq<Page>, limit: nat)
    requires Ok(u, limit) && HasRoom(u, limit) && Names(arg, u) && Translate(u.s.mem, Root(u), p).Hit?
    ensures var v := LiveUnmap(u, arg, p, [p], between, limit);
            Coherent(v.tlb, v.s.mem, Root(v)) <==> arg == And(u.cr3, FRAME_MASK)
  {
    hide Coherent, LiveUnmap, Translate, And;
    if arg == And(u.cr3, FRAME_MASK) {
      LiveUnmapCoherent(u, arg, p, [p], between, limit);
    } else {
      StaleEntrySurvives(u, arg, p, between, limit);
    }
  }

  /** With cr3 passed as it is read, as alloc_stack does, that is so if and only if the bits
      of cr3 outside its address are zero. */
  lemma UnmapReadCr3(u: Cpu, p: Page, between: seq<Page>, limit: nat)
    requires Ok(u, limit) && HasRoom(u, limit) && Translate(u.s.mem, Root(u), p).Hit?
    ensures var v := LiveUnmap(u, u.cr3, p, [p], between, limit);
            Coherent(v.tlb, v.s.mem, Root(v)) <==> Clean(u)
  {
    hide Coherent, LiveUnmap, Translate, And;
    UnmapCoherentIff(u, u.cr3, p, between, limit);
  }

  /** Without the invlpg, a translation cached just before the write is still there. */
  lemma StaleEntrySurvives(u: Cpu, arg: nat, p: Page, between: seq<Page>, limit: nat)
    requires Ok(u, limit) && HasRoom(u, limit) && Translate(u.s.mem, Root(u), p).Hit? && arg != And(u.cr3, FRAME_MASK)
    ensures var v := LiveUnmap(u, arg, p, [p], between, limit); !Coherent(v.tlb, v.s.mem, Root(v))
  {
    hide Coherent, UnmapPage, InStep, HeapFree, Translate, And, FrameOf;
    var v0 := LiveWalk(u, arg, p, false, limit).0;
    WalkHits(u, arg, p, limit);
    var x := TouchCaches(v0, p);
    TouchMonotone(v0, [p]);
    var v1 := TouchAll(v0, [p]).(s := UnmapPage(u.s, u.c, Root(u), p, limit).0.s);
    TouchMonotone(v1, between);
    UnmapFaults(u, p, limit);
    StaleIsIncoherent(TouchAll(v1, between).tlb, v1.s.mem, Root(u), x, p);
  }

  lemma UnmapFaults(u: Cpu, p: Page, limit: nat)
    requires Ok(u, limit) && HasRoom(u, limit)
    ensures Translate(UnmapPage(u.s, u.c, Root(u), p, limit).0.s.mem, Root(u), p) == Fault
  {
    UnmapPageExact(u.s, u.c, Root(u), p, limit, Root(u), p);
  }

  lemma StaleIsIncoherent(tlb: set<TlbEntry>, mem: Mem, root: nat, x: TlbEntry, p: Page)
    requires x in tlb && Covers(x, p) && Translate(mem, root, p) == Fault
    ensures !Coherent(tlb, mem, root)
  {
  }

  lemma WalkHits(u: Cpu, arg: nat, p: Page, limit: nat)
    requires Ok(u, limit) && HasRoom(u, limit) && Translate(u.s.mem, Root(u), p).Hit?
    ensures var v := LiveWalk(u, arg, p, false, limit).0; Root(v) == Root(u) && Translate(v.s.mem, Root(u), p).Hit?
  {
    WalkingIsInvisible(u.s, u.c, Root(u), p, false, limit, Root(u), p);
  }

  lemma {:induction false} TouchMonotone(u: Cpu, ps: seq<Page>)
    ensures u.tlb <= TouchAll(u, ps).tlb && TouchAll(u, ps) == u.(tlb := TouchAll(u, ps).tlb)
    decreases |ps|
  {
    if ps != [] { TouchMonotone(Touch(u, ps[0]), ps[1..]); }
  }

  lemma TouchCaches(u: Cpu, p: Page) returns (x: TlbEntry)
    requires Translate(u.s.mem, Root(u), p).Hit?
    ensures x in TouchAll(u, [p]).tlb && Covers(x, p)
  {
    LookupHits(u.s.mem, Root(u), 4, p, ALL, u.pge);
    LookupCovers(u.s.mem, Root(u), 4, p, ALL, u.pge, p);
    x := Lookup(u.s.mem, Root(u), 4, p, ALL, u.pge).value;
    assert TouchAll(u, [p]) == TouchAll(Touch(u, p), []);
  }

  lemma {:induction false} LookupHits(mem: Mem, t: nat, level: nat, p: Page, acc: Rights, pge: bool)
    requires 1 <= level <= 4
    ensures Lookup(mem, t, level, p, acc, pge).Some? <==> Walk(mem, t, level, p, acc).Hit?
    decreases level
  {
    if t in mem {
      var e := mem[t][Idx(p, level)];
      if e.present && !IsLeaf(e, level) { LookupHits(mem, e.frame, level - 1, p, Meet(acc, e), pge); }
    }
  }

  // ------------------------------------------------------------- runs

  datatype LiveOp =
    | Hardware(p: Page)
    | Walks(p: Page, create: bool)
    | Maps(p: Page, e: Entry, before: seq<Page>, between: seq<Page>)
    | Unmaps(p: Page, before: seq<Page>, between: seq<Page>)

  ghost predicate Permitted(u: Cpu, op: LiveOp, limit: nat)
  {
    match op
    case Hardware(_) => true
    case Maps(_, e, _, _) => HasRoom(u, limit) && e.present
    case Walks(_, _) => HasRoom(u, limit)
    case Unmaps(_, _, _) => HasRoom(u, limit)
  }

  ghost function LiveStep(u: Cpu, op: LiveOp, limit: nat): Cpu
    requires Ok(u, limit) && Permitted(u, op, limit)
  {
    match op
    case Hardware(p) => Touch(u, p)
    case Walks(p, create) => LiveWalk(u, u.cr3, p, create, limit).0
    case Maps(p, e, before, between) => LiveMap(u, u.cr3, p, e, before, between, limit)
    case Unmaps(p, before, between) => LiveUnmap(u, u.cr3, p, before, between, limit)
  }

  ghost predicate LiveRun(u: Cpu, ops: seq<LiveOp>, u': Cpu, limit: nat)
    decreases |ops|
  {
    if ops == [] then u == u'
    else Ok(u, limit) && Permitted(u, ops[0], limit) && LiveRun(LiveStep(u, ops[0], limit), ops[1..], u', limit)
  }

  lemma LiveStepOk(u: Cpu, op: LiveOp, limit: nat)
    requires Ok(u, limit) && Permitted(u, op, limit) && Clean(u)
    ensures Ok(LiveStep(u, op, limit), limit) && LiveStep(u, op, limit).cr3 == u.cr3
  {
    hide And, FrameOf;
    match op
    case Hardware(p) => TouchAllOk(u, [p], limit); assert TouchAll(u, [p]) == TouchAll(Touch(u, p), []);
    case Walks(p, create) => LiveWalkCoherent(u, u.cr3, p, create, limit);
    case Maps(p, e, before, between) =>
      LiveMapCoherent(u, u.cr3, p, e, before, between, limit);
      TouchMonotone(LiveWalk(u, u.cr3, p, true, limit).0, before);
      TouchMonotone(TouchAll(LiveWalk(u, u.cr3, p, true, limit).0, before).(s := MapPage(u.s, u.c, Root(u), p, e, limit).s), between);
    case Unmaps(p, before, between) =>
      LiveUnmapCoherent(u, u.cr3, p, before, between, limit);
      TouchMonotone(LiveWalk(u, u.cr3, p, false, limit).0, before);
      TouchMonotone(TouchAll(LiveWalk(u, u.cr3, p, false, limit).0, before).(s := UnmapPage(u.s, u.c, Root(u), p, limit).0.s), between);
  }

  /** TLB coherence over every run on a page-aligned cr3, whatever the hardware caches and when. */
  lemma {:induction false} RunStaysCoherent(u: Cpu, ops: seq<LiveOp>, u': Cpu, limit: nat)
    requires Ok(u, limit) && Clean(u) && LiveRun(u, ops, u', limit)
    ensures Ok(u', limit) && u'.cr3 == u.cr3
    decreases |ops|
  {
    hide And, Ok;
    if ops != [] {
      LiveStepOk(u, ops[0], limit);
      RunStaysCoherent(LiveStep(u, ops[0], limit), ops[1..], u', limit);
    }
  }
}
