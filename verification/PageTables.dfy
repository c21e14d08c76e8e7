/** The paging code itself: tables of 64-bit words updated in place, the bump
    allocator, cr3, and the TLB instructions. Each method is proved against the
    walk and its theorems over decoded entries. */
module PageTables {
  import opened Options
  import opened Words
  import opened PageEntry
  import opened PageForest
  import opened PageWalk
  import opened PageOps
  import opened PageRuns
  import opened PageRange
  import opened Tlb

  type WordTable = t: seq<nat> | |t| == 512 witness seq(512, _ => 0)

  function ViewTable(t: WordTable): Table { seq(512, i requires 0 <= i < 512 => Decode(t[i])) }

  /** What the words mean. */
  function View(mem: map<nat, WordTable>): Mem { map t | t in mem :: ViewTable(mem[t]) }

  lemma ViewWrite(mem: map<nat, WordTable>, t: nat, i: Index, w: nat)
    requires t in mem
    ensures View(mem[t := mem[t][i := w]]) == View(mem)[t := View(mem)[t][i := Decode(w)]]
  {
    var m := mem[t := mem[t][i := w]];
    assert ViewTable(m[t]) == View(mem)[t][i := Decode(w)];
  }

  lemma ViewAdd(mem: map<nat, WordTable>, x: nat, tab: WordTable)
    ensures View(mem[x := tab]) == View(mem)[x := ViewTable(tab)]
  {
  }

  /** The page a virtual address lies in. */
  function PageAt(v: nat): Page { PageOf(v / PAGE) }

  lemma Indices(v: nat)
    ensures IndexAt(v, 39) == Idx(PageAt(v), 4) && IndexAt(v, 30) == Idx(PageAt(v), 3)
    ensures IndexAt(v, 21) == Idx(PageAt(v), 2) && IndexAt(v, 12) == PageAt(v).i1
  {
    hide IndexAt;
    Pow2Values();
    IndexIs(v, 12, 27); IndexIs(v, 12, 18); IndexIs(v, 12, 9); IndexIs(v, 12, 0);
    Pow2Sum(9, 9); Pow2Sum(18, 9);
  }

  /** Pages from phys rounded down to phys + size rounded up. */
  function RangePages(phys: nat, size: nat): nat { (phys + size + 0xFFF) / PAGE - phys / PAGE }

  /** The direct map at hhdm_offset. */
  function HhdmEnv(hhdm: nat, limit: nat): Env { Env((f: nat) => PageOf(hhdm / PAGE + f), VPNS, limit) }

  lemma HhdmPage(hhdm: nat, limit: nat, k: nat)
    requires hhdm % 0x1000 == 0
    ensures PageAt(k * 0x1000 + hhdm) == HhdmEnv(hhdm, limit).dm(k) && HhdmEnv(hhdm, limit).limit == limit
  {
    hide PageOf;
    assert (k * PAGE + hhdm) / PAGE == hhdm / PAGE + k;
  }

  lemma FillRangeStep(s: State, c: Cert, root: nat, env: Env, k: nat, n: nat, iskernel: bool, writeable: bool)
    requires CanFill(s, c, root, env, n) && n > 0
    ensures var e := DirectEntry(k, iskernel, writeable);
            var p := env.dm(k);
            var w := GetFrom(s, c, root, p, false, env.limit);
            && CanWalk(s, c, root, env.limit) && FreshFrame(s.brk) + 3 <= env.limit
            && FreshFrame(w.s.brk) + 3 <= env.limit && w.c.space == c.space && CanWalk(w.s, w.c, root, env.limit)
            && (w.pt.Some? ==> w.pt.value in w.s.mem)
            && var f := if w.pt.Some? && w.s.mem[w.pt.value][p.i1].present then w
                        else PageOps.MapPage(w.s, w.c, root, p, e, env.limit);
               && CanFill(f.s, f.c, root, env, n - 1)
               && FillRange(s, c, root, env, k, n, iskernel, writeable)
                  == FillRange(f.s, f.c, root, env, k + 1, n - 1, iskernel, writeable)
  {
    FillStep(s, c, root, env, k, n, iskernel, writeable);
  }

  lemma RangeDone(s: State, c: Cert, root: nat, env: Env, k: nat, iskernel: bool, writeable: bool)
    requires CanFill(s, c, root, env, 0)
    ensures FillRange(s, c, root, env, k, 0, iskernel, writeable) == Walked(s, c, None)
  {
  }

  lemma RangeBounds(phys: nat, size: nat)
    requires phys + size + 0xFFF <= 0x10_0000_0000_0000
    ensures And(phys, PAGE_ALIGN) == phys / 0x1000 * 0x1000
    ensures And(phys + size + 0xFFF, PAGE_ALIGN) == (phys / 0x1000 + RangePages(phys, size)) * 0x1000 <= phys + size + 0xFFF
  {
    hide And;
    PageMasks(phys); PageMasks(phys + size + 0xFFF);
  }

  /** Software only ever drops TLB entries. */
  lemma FlushShrinks(tlb: set<TlbEntry>, pge: bool, live: bool, mem: Mem, t: nat, level: nat, p: Page)
    requires 1 <= level <= 4
    ensures FlushedBy(tlb, pge, live, mem, t, level, p) <= tlb
    ensures Invlpg(FlushedBy(tlb, pge, live, mem, t, level, p), p) <= tlb
  {
  }

  /** Filling a range leaves every cached translation right, in every address space. */
  lemma RangeKeepsCoherent(s: State, c: Cert, root: nat, env: Env, k: nat, n: nat, iskernel: bool, writeable: bool,
                           tlb: set<TlbEntry>, tlb': set<TlbEntry>, r: nat)
    requires CanFill(s, c, root, env, n) && r in c.space && tlb' <= tlb && Coherent(tlb, s.mem, r)
    ensures Coherent(tlb', FillRange(s, c, root, env, k, n, iskernel, writeable).s.mem, r)
  {
    var m := FillRange(s, c, root, env, k, n, iskernel, writeable).s.mem;
    forall e, q | e in tlb' && Covers(e, q) ensures Translate(m, r, q) == Cached(e, q) {
      RangeKeepsHits(s, c, root, env, k, n, iskernel, writeable, r, q);
    }
  }

  /** Reading an entry, and the zero word. */
  lemma WordFacts(w: nat)
    ensures And(w, PRESENT) == 0 <==> !Decode(w).present
    ensures And(w, FRAME_MASK) == Decode(w).frame * PAGE
    ensures Decode(0) == EMPTY
  {
    TestFlag(w, FPresent); GetAddr(w); ZeroWord();
  }

  /** unmap_page by cases, and when it finds a mapping. */
  lemma UnmapIs(s: State, c: Cert, root: nat, p: Page, limit: nat)
    requires CanWalk(s, c, root, limit) && root in c.space && InStep(s.mem, c)
    ensures var w := GetFrom(s, c, root, p, false, limit);
            var found := w.pt.Some? && w.s.mem[w.pt.value][p.i1].present;
            && (w.pt.Some? ==> w.pt.value in w.s.mem)
            && (Translate(s.mem, root, p).Hit? <==> found)
            && PageOps.UnmapPage(s, c, root, p, limit)
               == if found then (w.(s := w.s.(mem := SetPte(w.s.mem, w.pt.value, p.i1, EMPTY))),
                                 w.s.mem[w.pt.value][p.i1].frame * PAGE)
                  else (w, 0)
  {
    WalkingIsInvisible(s, c, root, p, false, limit, root, p);
    GetFromFails(s, c, root, p, false, limit);
    GetFromFinds(s, c, root, p, false, limit);
    if GetFrom(s, c, root, p, false, limit).pt.None? {
      AbsentFaults(s.mem, root, 4, p, ALL);
    } else {
      WalkThroughPt(GetFrom(s, c, root, p, false, limit).s.mem, root, 4, p, ALL);
    }
  }

  /** The entry map_page writes. */
  function PteEntry(phys: nat, iskernel: bool, writeable: bool): Entry
  {
    Decode(phys / PAGE * PAGE).(present := true, write := writeable, user := !iskernel)
  }

  /** For an address below 2^52 it is the plain mapping of that frame. */
  lemma PteEntryIsDirect(k: nat, iskernel: bool, writeable: bool)
    requires k < 0x100_0000_0000
    ensures PteEntry(k * 0x1000, iskernel, writeable) == DirectEntry(k, iskernel, writeable) && k * 0x1000 < WORD
  {
    hide Decode;
    BareFrame(k);
    assert k * 0x1000 / PAGE * PAGE == k * 0x1000;
  }

  lemma AlignedPage(v: nat)
    requires v < WORD
    ensures PageAt(And(v, PAGE_ALIGN)) == PageAt(v)
  {
    PageMasks(v);
  }

  lemma SetPteTwice(m: Mem, pt: nat, i: Index, e: Entry, e': Entry)
    requires pt in m
    ensures SetPte(SetPte(m, pt, i, e), pt, i, e') == SetPte(m, pt, i, e')
  {
    assert m[pt][i := e][i := e'] == m[pt][i := e'];
  }

  lemma AlignedPte(phys: nat, iskernel: bool, writeable: bool)
    requires phys < WORD
    ensures And(phys, PAGE_ALIGN) % PAGE == 0
    ensures PteEntry(And(phys, PAGE_ALIGN), iskernel, writeable) == PteEntry(phys, iskernel, writeable)
  {
    hide And, Decode;
    PageMasks(phys);
  }

  /** An aligned address has none of the flags map_page sets. */
  lemma AlignedFlags(pa: nat)
    requires pa % PAGE == 0
    ensures pa / PAGE * PAGE == pa
    ensures !Has(pa, FPresent) && !Has(pa, FWrite) && !Has(pa, FUser)
  {
    assert pa / 2 % 2 == 0 && pa / 2 / 2 % 2 == 0;
    assert BitAt(pa, 0) == (pa % 2 == 1) && BitAt(pa, 1) == (pa / 2 % 2 == 1);
    assert BitAt(pa, 2) == (pa / 2 / 2 % 2 == 1);
  }

  /** What map_page makes of its arguments: the page resolves to the frame of phys, writable if
      the path and `writeable` allow it, open to the user if the path was and the page is not
      the kernel's. */
  lemma MapMeans(s: State, c: Cert, root: nat, p: Page, phys: nat, iskernel: bool, writeable: bool, limit: nat)
    requires CanWalk(s, c, root, limit) && root in c.space && InStep(s.mem, c) && phys < 0x10_0000_0000_0000
    ensures MappedAs(Translate(PageOps.MapPage(s, c, root, p, PteEntry(phys, iskernel, writeable), limit).s.mem, root, p),
                     s.mem, root, p, phys / 0x1000, iskernel, writeable)
  {
    hide Translate, InStep, CanWalk, Decode, PathWrites, PathOpen, PathNx, PageOps.MapPage;
    var e := PteEntry(phys, iskernel, writeable);
    PteEntryIsDirect(phys / PAGE, iskernel, writeable);
    assert phys / PAGE * 0x1000 / PAGE * PAGE == phys / PAGE * PAGE;
    assert e == DirectEntry(phys / PAGE, iskernel, writeable);
    MappedRights(s, c, root, p, e, limit);
  }

  /** The page at which the direct map has physical byte b. */
  function BytePage(hhdm: nat, b: nat): Page { PageAt(hhdm + b) }

  lemma BytePageIs(hhdm: nat, limit: nat, b: nat)
    requires hhdm % 0x1000 == 0
    ensures BytePage(hhdm, b) == HhdmEnv(hhdm, limit).dm(b / 0x1000)
  {
    hide PageOf;
    assert (hhdm + b) / PAGE == hhdm / PAGE + b / PAGE;
  }

  lemma NearFramesApart(hhdm: nat, limit: nat, j: nat, k: nat)
    requires j < k < j + VPNS
    ensures HhdmEnv(hhdm, limit).dm(j) != HhdmEnv(hhdm, limit).dm(k)
  {
    hide PageOf;
    var h := hhdm / PAGE + j;
    PageOfInjective(h, h + (k - j));
    if h % VPNS == (h + (k - j)) % VPNS { SameWindow(h, 0, k - j); }
  }

  /** What map_physical_range makes of its arguments: every byte of the range resolves; one
      that did not before resolves to itself, with rights as map_page gives them. */
  lemma RangeMeans(s: State, c: Cert, root: nat, hhdm: nat, limit: nat, phys: nat, size: nat, iskernel: bool, writeable: bool, b: nat)
    requires CanFill(s, c, root, HhdmEnv(hhdm, limit), RangePages(phys, size)) && hhdm % 0x1000 == 0
    requires phys <= b < phys + size && size < 0x1_0000_0000
    ensures var x := Translate(FillRange(s, c, root, HhdmEnv(hhdm, limit), phys / 0x1000, RangePages(phys, size),
                                         iskernel, writeable).s.mem, root, BytePage(hhdm, b));
            var p := BytePage(hhdm, b);
            && x.Hit?
            && (Translate(s.mem, root, p) != Fault ==> x == Translate(s.mem, root, p))
            && (Translate(s.mem, root, p) == Fault ==> MappedAs(x, s.mem, root, p, b / 0x1000, iskernel, writeable))
  {
    hide FillRange, Translate, CanWalk, InStep, PathWrites, PathOpen, PathNx, BytePage, HhdmEnv;
    var env, start, n, k := HhdmEnv(hhdm, limit), phys / 0x1000, RangePages(phys, size), b / 0x1000;
    ByteInRange(phys, size, b);
    BytePageIs(hhdm, limit, b);
    if Translate(s.mem, root, env.dm(k)) == Fault {
      forall j | start <= j < k ensures env.dm(j) != env.dm(k) { NearFramesApart(hhdm, limit, j, k); }
      RangeMaps(s, c, root, env, start, n, iskernel, writeable, k);
    } else {
      RangeKeepsHits(s, c, root, env, start, n, iskernel, writeable, root, env.dm(k));
    }
  }

  /** No page of the range starts at or past its end. */
  lemma RangeIsTight(phys: nat, size: nat, k: nat)
    requires phys / 0x1000 <= k < phys / 0x1000 + RangePages(phys, size)
    ensures k * 0x1000 < phys + size
  {
  }

  /** The pages of the range are those that hold a byte of it, rounded out to whole pages. */
  lemma ByteInRange(phys: nat, size: nat, b: nat)
    requires phys <= b < phys + size
    ensures phys / 0x1000 <= b / 0x1000 < phys / 0x1000 + RangePages(phys, size) <= phys / 0x1000 + size / 0x1000 + 2
  {
  }

  lemma PtePresent(phys: nat, iskernel: bool, writeable: bool)
    ensures PteEntry(phys, iskernel, writeable).present
  {
  }

  /** If the page does not resolve, unmap_page only walks. */
  lemma UnmapMissIdle(s: State, c: Cert, root: nat, p: Page, limit: nat)
    requires CanWalk(s, c, root, limit) && root in c.space && InStep(s.mem, c)
    ensures var w := GetFrom(s, c, root, p, false, limit);
            var u := PageOps.UnmapPage(s, c, root, p, limit).0;
            u.c == w.c && (Translate(s.mem, root, p) == Fault ==> u.s == w.s)
  {
    UnmapIs(s, c, root, p, limit);
  }

  lemma MapIs(s: State, c: Cert, root: nat, p: Page, e: Entry, limit: nat)
    requires CanWalk(s, c, root, limit) && root in c.space
    ensures var w := GetFrom(s, c, root, p, true, limit);
            && w.pt.Some? && w.pt.value in w.s.mem
            && PageOps.MapPage(s, c, root, p, e, limit) == w.(s := w.s.(mem := SetPte(w.s.mem, w.pt.value, p.i1, e)))
  {
    GetFromFails(s, c, root, p, true, limit);
  }

  lemma RootFrame(root: nat)
    ensures And(root, FRAME_MASK) / 0x1000 == FrameOf(root)
  {
    GetAddr(root);
  }

  lemma AtPageTable(s: State, c: Cert, t: nat, p: Page, create: bool, limit: nat, tlb: set<TlbEntry>, pge: bool, live: bool)
    requires CanWalk(s, c, t, limit) && LevelOf(c.loc[t]) == 1
    ensures GetFrom(s, c, t, p, create, limit) == Walked(s, c, Some(t))
    ensures FlushedBy(tlb, pge, live, s.mem, t, 1, p) == tlb
  {
  }

  /** A walk is its first level followed by the walk from the next table. */
  lemma StepGetFrom(s: State, c: Cert, t: nat, p: Page, create: bool, limit: nat) returns (c1: Cert)
    requires CanWalk(s, c, t, limit) && LevelOf(c.loc[t]) > 1
    ensures var level := LevelOf(c.loc[t]);
            var (s1, u) := Descend(s, t, Idx(p, level), level, create);
            && (u.None? ==> GetFrom(s, c, t, p, create, limit) == Walked(s1, c1, None))
            && (u.Some? ==> && CanWalk(s1, c1, u.value, limit) && LevelOf(c1.loc[u.value]) == level - 1
                            && GetFrom(s, c, t, p, create, limit) == GetFrom(s1, c1, u.value, p, create, limit))
  {
    DescendKeeps(s, c, t, Idx(p, LevelOf(c.loc[t])), create, limit);
    c1 := DescendCert(c, s, t, Idx(p, LevelOf(c.loc[t])), create);
  }

  lemma StepFlushed(s: State, c: Cert, t: nat, p: Page, create: bool, limit: nat,
                    tlb: set<TlbEntry>, pge: bool, live: bool)
    requires CanWalk(s, c, t, limit) && LevelOf(c.loc[t]) > 1
    ensures var level := LevelOf(c.loc[t]);
            var (s1, u) := Descend(s, t, Idx(p, level), level, create);
            var e := s.mem[t][Idx(p, level)];
            var tlb1 := if e.present && IsLeaf(e, level) && live then FlushAll(tlb, pge) else tlb;
            FlushedBy(tlb, pge, live, s.mem, t, level, p)
            == if u.None? then tlb1 else FlushedBy(tlb1, pge, live, s1.mem, u.value, level - 1, p)
  {
    assert FreshFrame(s.brk) !in s.mem;
  }

  /** The loop of split_huge_entry: fill the new table with the pieces of the huge page. */
  method Pieces(huge: nat, step: nat) returns (table: WordTable)
    requires step == PAGE || step == 0x20_0000
    ensures ViewTable(table) == SplitTable(Decode(huge), if step == PAGE then 1 else 2)
  {
    hide Decode, And, Or;
    ghost var level := if step == PAGE then 1 else 2;
    var flags := And(huge, Not(FRAME_MASK));
    var base := And(And(huge, FRAME_MASK), Not(step * 512 - 1));
    if step == PAGE {
      flags := And(flags, Not(PS));
    }
    assert base == SplitBase(huge, level) && flags == SplitFlags(huge, level) && step == Span(level) * PAGE;
    table := seq(512, _ => 0);  // kmalloc_az zeroes the page
    var i := 0;
    while i < 512
      invariant 0 <= i <= 512
      invariant forall j :: 0 <= j < i ==> Decode(table[j]) == PieceOf(Decode(huge), level, j)
    {
      SplitWordDecodes(huge, level, i);
      table := table[i := Or(base + i * step, flags)];
      i := i + 1;
    }
    assert ViewTable(table) == SplitTable(Decode(huge), level);
  }

  class Mmu {
    var mem: map<nat, WordTable>   // table pages, by frame number
    var placement: nat             // placement_address
    var cr3: nat
    var pge: bool                  // CR4.PGE
    var tlb: set<TlbEntry>
    const hhdm: nat                // hhdm_offset
    const kernelBase: nat          // kernel_virt_base
    ghost const limit: nat         // end of the allocator's frames
    ghost var cert: Cert

    ghost predicate Layout()
      reads `placement
    {
      && hhdm % PAGE == 0 && hhdm <= placement && limit <= FRAMES
      && hhdm + limit * PAGE <= kernelBase < WORD
      && placement <= hhdm + limit * PAGE
    }

    ghost function St(): State
      reads `mem, `placement
      requires Layout()
    {
      State(View(mem), placement - hhdm)
    }

    ghost predicate Sound()
      reads `mem, `placement, `cert
    {
      Layout() && Forest(View(mem), cert) && HeapFree(St(), limit)
    }

    ghost predicate Valid()
      reads `mem, `placement, `cert
    {
      Sound() && InStep(View(mem), cert)
    }

    /** Tables, TLB and cr3 as the TLB theorems see them. */
    ghost function Live(): Cpu
      requires Layout()
      reads `mem, `placement, `cert, `cr3, `pge, `tlb
    {
      Cpu(St(), cert, cr3, pge, tlb)
    }

    /** mm.c: heap addresses lie in the direct map, below the kernel image. */
    function VirtToPhys(addr: nat, kernelPhys: nat): nat
      requires hhdm <= addr
    {
      if addr >= kernelBase then addr - kernelBase + kernelPhys else addr - hhdm
    }

    /** kheap.c: the next page-aligned address. */
    method KmallocA(sz: nat) returns (ret: nat)
      requires Layout() && (FreshFrame(placement - hhdm) * PAGE + sz) <= limit * PAGE
      modifies this`placement
      ensures ret == hhdm + FreshFrame(old(placement) - hhdm) * PAGE
      ensures placement == ret + sz && Layout()
    {
      PageMasks(placement);
      AlignUp(placement, hhdm);
      if And(placement, 0xFFF) != 0 {
        placement := And(placement, PAGE_ALIGN);
        placement := placement + 0x1000;
      }
      ret := placement;
      placement := placement + sz;
    }

    static lemma AlignUp(p: nat, h: nat)
      requires h % PAGE == 0 && h <= p
      ensures h + FreshFrame(p - h) * PAGE == if p % PAGE == 0 then p else p / PAGE * PAGE + PAGE
    {
    }

    /** split_huge_entry: allocate the table of 512 pieces. Returns its physical address. */
    method SplitHugeEntry(huge: nat, step: nat) returns (phys: nat)
      requires Sound() && FreshFrame(placement - hhdm) < limit
      requires step == PAGE || step == 0x20_0000
      modifies this`mem, this`placement
      ensures Layout() && FreshFrame(old(placement) - hhdm) !in old(mem)
      ensures phys == FreshFrame(old(placement) - hhdm) * PAGE && placement == hhdm + phys + PAGE
      ensures View(mem) == View(old(mem))[phys / PAGE := SplitTable(Decode(huge), if step == PAGE then 1 else 2)]
    {
      hide Decode, SplitTable, Forest, InStep;
      assert FreshFrame(placement - hhdm) !in View(mem);
      var table := Pieces(huge, step);
      var virt := KmallocA(PAGE);
      phys := VirtToPhys(virt, 0);
      ViewAdd(mem, phys / PAGE, table);
      mem := mem[phys / PAGE := table];
    }

    /** kmalloc_az for one table: a zeroed page. Returns its physical address. */
    method NewTable() returns (phys: nat)
      requires Sound() && FreshFrame(placement - hhdm) < limit
      modifies this`mem, this`placement
      ensures Layout() && FreshFrame(old(placement) - hhdm) !in old(mem)
      ensures phys == FreshFrame(old(placement) - hhdm) * PAGE && placement == hhdm + phys + PAGE
      ensures View(mem) == View(old(mem))[phys / PAGE := Blank()]
    {
      assert FreshFrame(placement - hhdm) !in View(mem);
      var virt := KmallocA(PAGE);
      phys := VirtToPhys(virt, 0);
      var table: WordTable := seq(512, _ => 0);
      ZeroWord();
      assert ViewTable(table) == Blank();
      ViewAdd(mem, phys / PAGE, table);
      mem := mem[phys / PAGE := table];
    }

    /** flush_tlb_all: toggle CR4.PGE if it is set, else reload cr3. */
    method FlushTlbAll()
      modifies this`tlb
      ensures tlb == FlushAll(old(tlb), pge)
    {
      if pge {
        tlb := {};
      } else {
        tlb := set e | e in tlb && e.global;
      }
    }

    method InvalidatePage(vaddr: nat)
      modifies this`tlb
      ensures tlb == Invlpg(old(tlb), PageAt(vaddr))
    {
      tlb := set e | e in tlb && !Covers(e, PageAt(vaddr));
    }

    /** The branch for an absent entry: hang a zeroed table under it. */
    method CreateChild(table: nat, idx: Index) returns (phys: nat)
      requires Sound() && table in mem && FreshFrame(placement - hhdm) < limit
      modifies this`mem, this`placement
      ensures Layout() && phys == FreshFrame(old(placement) - hhdm) * PAGE && placement == hhdm + phys + PAGE
      ensures View(mem) == Graft(old(View(mem)), table, idx, phys / PAGE, Blank(), NewEntry(phys / PAGE))
    {
      hide Decode, And, Or, Forest;
      TableWordDecodes(FreshFrame(placement - hhdm));
      phys := NewTable();
      assert table in View(mem);
      ViewWrite(mem, table, idx, Or(Or(phys, PRESENT), WRITE));
      mem := mem[table := mem[table][idx := Or(Or(phys, PRESENT), WRITE)]];
    }

    /** The branch for a huge page: replace it by a table of its pieces. */
    method SplitChild(table: nat, idx: Index, step: nat) returns (phys: nat)
      requires Sound() && table in mem && FreshFrame(placement - hhdm) < limit
      requires step == PAGE || step == 0x20_0000
      modifies this`mem, this`placement
      ensures Layout() && phys == FreshFrame(old(placement) - hhdm) * PAGE && placement == hhdm + phys + PAGE
      ensures var e := old(View(mem)[table][idx]);
              View(mem) == Graft(old(View(mem)), table, idx, phys / PAGE,
                                 SplitTable(e, if step == PAGE then 1 else 2), SplitEntry(e, phys / PAGE))
    {
      hide And, Or, Forest, Has, FrameOf, AttrsOf;
      var w := mem[table][idx];
      TableWordDecodes(FreshFrame(placement - hhdm));
      phys := SplitHugeEntry(w, step);
      InheritFlags(Or(Or(phys, PRESENT), WRITE), w);
      var e := Or(Or(Or(phys, PRESENT), WRITE), And(w, Or(USER, NX)));
      assert table in View(mem);
      ViewWrite(mem, table, idx, e);
      mem := mem[table := mem[table][idx := e]];
    }

    /** One level of get_page_entry: the same three branches at levels 4, 3 and 2, with
        no PAGE_PS test at level 4. */
    method StepDown(table: nat, idx: Index, level: nat, create: bool, root: nat) returns (next: Option<nat>)
      requires Sound() && table in mem && 2 <= level <= 4 && FreshFrame(placement - hhdm) < limit
      modifies this`mem, this`placement, this`tlb
      ensures Layout()
      ensures (St(), next) == Descend(old(St()), table, idx, level, create)
      ensures var e := old(View(mem)[table][idx]);
              tlb == if e.present && IsLeaf(e, level) && root == cr3 then FlushAll(old(tlb), pge) else old(tlb)
    {
      hide And, Or, FrameOf, AttrsOf, BitAt, Graft, SplitTable, Blank;
      var w := mem[table][idx];
      assert View(mem)[table][idx] == Decode(w);
      TestFlag(w, FPresent);
      TestFlag(w, FPs);
      GetAddr(w);
      if And(w, PRESENT) == 0 {
        if !create {
          next := None;
        } else {
          var phys := CreateChild(table, idx);
          next := Some(phys / PAGE);
        }
      } else if level < 4 && And(w, PS) != 0 {
        var phys := SplitChild(table, idx, if level == 3 then 0x20_0000 else PAGE);
        if root == cr3 {
          FlushTlbAll();
        }
        next := Some(phys / PAGE);
      } else {
        next := Some(And(w, FRAME_MASK) / PAGE);
      }
    }

    lemma CanStep(table: nat)
      requires Layout() && CanWalk(St(), cert, table, limit) && LevelOf(cert.loc[table]) > 1
      ensures Sound() && table in mem && FreshFrame(placement - hhdm) < limit && St().mem == View(mem)
    {
    }

    /** The same as the first step of the walk for page p, certificate included. */
    method NextTable(table: nat, idx: Index, level: nat, create: bool, root: nat, ghost p: Page) returns (next: Option<nat>)
      requires Layout() && CanWalk(St(), cert, table, limit) && LevelOf(cert.loc[table]) == level && 2 <= level <= 4
      requires idx == Idx(p, level)
      modifies this`mem, this`placement, this`tlb, this`cert
      ensures Layout()
      ensures next.None? ==>
                && GetFrom(old(St()), old(cert), table, p, create, limit) == Walked(St(), cert, None)
                && tlb == FlushedBy(old(tlb), pge, root == cr3, old(St().mem), table, level, p)
      ensures next.Some? ==>
                && CanWalk(St(), cert, next.value, limit) && LevelOf(cert.loc[next.value]) == level - 1
                && GetFrom(old(St()), old(cert), table, p, create, limit) == GetFrom(St(), cert, next.value, p, create, limit)
                && FlushedBy(old(tlb), pge, root == cr3, old(St().mem), table, level, p)
                   == FlushedBy(tlb, pge, root == cr3, St().mem, next.value, level - 1, p)
    {
      hide *;
      CanStep(table);
      ghost var c := StepGetFrom(St(), cert, table, p, create, limit);
      StepFlushed(St(), cert, table, p, create, limit, tlb, pge, root == cr3);
      next := StepDown(table, idx, level, create, root);
      cert := c;
    }

    lemma CanStart(root: nat, p: Page, create: bool)
      requires Valid() && root in cert.space && FreshFrame(placement - hhdm) + 3 <= limit
      ensures Layout() && CanWalk(St(), cert, root, limit) && LevelOf(cert.loc[root]) == 4
      ensures InStep(St().mem, cert) && St().mem == View(mem)
    {
    }

    lemma LiveIs()
      requires Layout()
      ensures Live() == Cpu(St(), cert, cr3, pge, tlb)
    {
    }

    lemma CanFinish(s: State, c: Cert, root: nat, p: Page, create: bool)
      requires CanWalk(s, c, root, limit) && InStep(s.mem, c)
      requires Layout() && St() == GetFrom(s, c, root, p, create, limit).s && cert == GetFrom(s, c, root, p, create, limit).c
      ensures Valid() && Live() == Cpu(St(), cert, cr3, pge, tlb)
    {
      GetFromInStep(s, c, root, p, create, limit);
    }

    /** A walk, a mapping and an unmapping are the steps of the TLB runs. */
    lemma WalkIsLive(root: nat, p: Page, create: bool)
      requires Valid() && FrameOf(root) in cert.space && FreshFrame(placement - hhdm) + 3 <= limit
      ensures Layout()
      ensures Ok(Live(), limit) && FrameOf(root) == FrameOf(cr3) ==>
                && HasRoom(Live(), limit) && Ok(LiveWalk(Live(), root, p, create, limit).0, limit)
                && var w := GetFrom(St(), cert, FrameOf(root), p, create, limit);
                   LiveWalk(Live(), root, p, create, limit).0
                   == Cpu(w.s, w.c, cr3, pge, FlushedBy(tlb, pge, root == cr3, St().mem, FrameOf(root), 4, p))
    {
      hide FrameOf, GetFrom, FlushedBy;
      if Ok(Live(), limit) && FrameOf(root) == FrameOf(cr3) { LiveWalkCoherent(Live(), root, p, create, limit); }
    }

    lemma MapIsLive(root: nat, p: Page, e: Entry)
      requires Valid() && FrameOf(root) in cert.space && FreshFrame(placement - hhdm) + 3 <= limit
      ensures Layout()
      ensures Ok(Live(), limit) && FrameOf(root) == FrameOf(cr3) ==>
                && HasRoom(Live(), limit) && (e.present ==> Ok(LiveMap(Live(), root, p, e, [], [], limit), limit))
                && var w := PageOps.MapPage(St(), cert, FrameOf(root), p, e, limit);
                   LiveMap(Live(), root, p, e, [], [], limit)
                   == Cpu(w.s, w.c, cr3, pge,
                          Invlpg(FlushedBy(tlb, pge, root == cr3, St().mem, FrameOf(root), 4, p), p))
    {
      hide FrameOf, GetFrom, FlushedBy, Invlpg;
      if Ok(Live(), limit) && FrameOf(root) == FrameOf(cr3) && e.present {
        LiveMapCoherent(Live(), root, p, e, [], [], limit);
      }
    }

    lemma UnmapIsLive(root: nat, p: Page)
      requires Valid() && FrameOf(root) in cert.space && FreshFrame(placement - hhdm) + 3 <= limit
      ensures Layout() && And(cr3, FRAME_MASK) == FrameOf(cr3) * PAGE
      ensures Ok(Live(), limit) && FrameOf(root) == FrameOf(cr3) ==>
                && HasRoom(Live(), limit)
                && (root == And(cr3, FRAME_MASK) ==> Ok(LiveUnmap(Live(), root, p, [], [], limit), limit))
                && var w := PageOps.UnmapPage(St(), cert, FrameOf(root), p, limit).0;
                   var flushed := FlushedBy(tlb, pge, root == cr3, St().mem, FrameOf(root), 4, p);
                   LiveUnmap(Live(), root, p, [], [], limit)
                   == Cpu(w.s, w.c, cr3, pge,
                          if Translate(St().mem, FrameOf(root), p).Hit? && root == FrameOf(cr3) * PAGE
                          then Invlpg(flushed, p) else flushed)
    {
      hide FrameOf, And, GetFrom, FlushedBy, Invlpg, Translate;
      GetAddr(cr3);
      if Ok(Live(), limit) && FrameOf(root) == FrameOf(cr3) {
        if root == And(cr3, FRAME_MASK) { LiveUnmapCoherent(Live(), root, p, [], [], limit); }
        UnmapMissIdle(St(), cert, FrameOf(root), p, limit);
      }
    }

    /** get_page_entry: the page table and index of the entry for vaddr under cr3 value
        `root`, or None. */
    method GetPageEntry(vaddr: nat, create: bool, root: nat) returns (pte: Option<(nat, Index)>)
      requires Valid() && FrameOf(root) in cert.space && FreshFrame(placement - hhdm) + 3 <= limit
      modifies this`mem, this`placement, this`tlb, this`cert
      ensures Valid()
      ensures var w := GetFrom(old(St()), old(cert), FrameOf(root), PageAt(vaddr), create, limit);
              && St() == w.s && cert == w.c
              && pte == (if w.pt.Some? then Some((w.pt.value, PageAt(vaddr).i1)) else None)
      ensures tlb == FlushedBy(old(tlb), pge, root == cr3, old(St().mem), FrameOf(root), 4, PageAt(vaddr))
      ensures old(Ok(Live(), limit)) && FrameOf(root) == FrameOf(cr3) ==>
                Ok(Live(), limit) && Live() == LiveWalk(old(Live()), root, PageAt(vaddr), create, limit).0
    {
      hide *;
      WalkIsLive(root, PageAt(vaddr), create);
      ghost var p := PageAt(vaddr);
      CanStart(FrameOf(root), p, create);
      Indices(vaddr);
      RootFrame(root);
      var pml4 := And(root, FRAME_MASK) / 0x1000;
      var pud := NextTable(pml4, IndexAt(vaddr, 39), 4, create, root, p);
      if pud.None? {
        CanFinish(old(St()), old(cert), FrameOf(root), p, create);
        return None;
      }
      var pd := NextTable(pud.value, IndexAt(vaddr, 30), 3, create, root, p);
      if pd.None? {
        CanFinish(old(St()), old(cert), FrameOf(root), p, create);
        return None;
      }
      var pt := NextTable(pd.value, IndexAt(vaddr, 21), 2, create, root, p);
      if pt.None? {
        CanFinish(old(St()), old(cert), FrameOf(root), p, create);
        return None;
      }
      AtPageTable(St(), cert, pt.value, p, create, limit, tlb, pge, root == cr3);
      CanFinish(old(St()), old(cert), FrameOf(root), p, create);
      return Some((pt.value, IndexAt(vaddr, 12)));
    }

    /** `*pte_ptr(pte) = word`. */
    method WriteEntry(pt: nat, i: Index, word: nat)
      requires Layout() && pt in mem
      modifies this`mem
      ensures pt in mem && mem[pt][i] == word && pt in old(St().mem)
      ensures St() == old(St()).(mem := SetPte(old(St().mem), pt, i, Decode(word)))
    {
      hide Decode;
      ViewWrite(mem, pt, i, word);
      mem := mem[pt := mem[pt][i := word]];
    }

    /** The entry is written flag by flag, in place. */
    method WritePte(pt: nat, i: Index, pa: nat, iskernel: bool, writeable: bool)
      requires Layout() && pt in mem && pa % PAGE == 0
      modifies this`mem
      ensures pt in old(St().mem) && St() == old(St()).(mem := SetPte(old(St().mem), pt, i, PteEntry(pa, iskernel, writeable)))
    {
      hide Or, FrameOf, AttrsOf, BitAt, View, St, SetPte;
      ghost var m := St().mem;
      AlignedFlags(pa);
      SetFlag(pa, FPresent);
      WriteEntry(pt, i, Or(pa, PRESENT));
      if writeable {
        SetFlag(mem[pt][i], FWrite);
        SetPteTwice(m, pt, i, Decode(mem[pt][i]), Decode(Or(mem[pt][i], WRITE)));
        WriteEntry(pt, i, Or(mem[pt][i], WRITE));
      }
      if !iskernel {
        SetFlag(mem[pt][i], FUser);
        SetPteTwice(m, pt, i, Decode(mem[pt][i]), Decode(Or(mem[pt][i], USER)));
        WriteEntry(pt, i, Or(mem[pt][i], USER));
      }
    }

    lemma CanFinishWrite(s: State, c: Cert, root: nat, p: Page, create: bool, e: Entry)
      requires CanWalk(s, c, root, limit) && root in c.space && InStep(s.mem, c)
      requires GetFrom(s, c, root, p, create, limit).pt.Some?
      requires Layout() && cert == GetFrom(s, c, root, p, create, limit).c
      requires var w := GetFrom(s, c, root, p, create, limit); St() == w.s.(mem := SetPte(w.s.mem, w.pt.value, p.i1, e))
      ensures Valid()
    {
      WriteExact(s, c, root, p, create, e, limit, root, p);
    }

    /** map_page: align both addresses, walk with create, write the entry, invlpg. */
    method MapPage(virt: nat, phys: nat, iskernel: bool, writeable: bool, root: nat)
      requires Valid() && FrameOf(root) in cert.space && FreshFrame(placement - hhdm) + 3 <= limit
      requires virt < WORD && phys < WORD
      modifies this`mem, this`placement, this`tlb, this`cert
      ensures Valid()
      ensures var w := PageOps.MapPage(old(St()), old(cert), FrameOf(root), PageAt(virt), PteEntry(phys, iskernel, writeable), limit);
              St() == w.s && cert == w.c
      ensures tlb == Invlpg(FlushedBy(old(tlb), pge, root == cr3, old(St().mem), FrameOf(root), 4, PageAt(virt)), PageAt(virt))
      ensures old(Ok(Live(), limit)) && FrameOf(root) == FrameOf(cr3) ==>
                && Ok(Live(), limit)
                && Live() == LiveMap(old(Live()), root, PageAt(virt), PteEntry(phys, iskernel, writeable), [], [], limit)
      ensures phys < 0x10_0000_0000_0000 ==>
                MappedAs(Translate(St().mem, FrameOf(root), PageAt(virt)), old(St().mem), FrameOf(root), PageAt(virt),
                         phys / 0x1000, iskernel, writeable)
    {
      hide *;
      MapIsLive(root, PageAt(virt), PteEntry(phys, iskernel, writeable));
      PtePresent(phys, iskernel, writeable);
      ghost var e := PteEntry(phys, iskernel, writeable);
      AlignedPage(virt);
      AlignedPte(phys, iskernel, writeable);
      CanStart(FrameOf(root), PageAt(virt), true);
      MapIs(St(), cert, FrameOf(root), PageAt(virt), e, limit);
      if phys < 0x10_0000_0000_0000 { MapMeans(St(), cert, FrameOf(root), PageAt(virt), phys, iskernel, writeable, limit); }
      var va := And(virt, PAGE_ALIGN);
      var pa := And(phys, PAGE_ALIGN);
      var pte := GetPageEntry(va, true, root);
      if pte.None? {
        return;
      }
      InTables(pte.value.0);
      WritePte(pte.value.0, pte.value.1, pa, iskernel, writeable);
      CanFinishWrite(old(St()), old(cert), FrameOf(root), PageAt(virt), true, e);
      InvalidatePage(va);
      LiveIs();
    }

    lemma InTables(pt: nat)
      requires Valid() && pt in St().mem
      ensures Layout() && pt in mem && St().mem == View(mem) && forall i: Index :: St().mem[pt][i] == Decode(mem[pt][i])
    {
    }

    /** unmap_page: clear the entry and return the frame it held, or 0 if there was none.
        Invalidates only if pml4 equals the masked live cr3. */
    method UnmapPage(addr: nat, pml4: nat) returns (frame: nat)
      requires Valid() && FrameOf(pml4) in cert.space && FreshFrame(placement - hhdm) + 3 <= limit
      requires addr < WORD
      modifies this`mem, this`placement, this`tlb, this`cert
      ensures Valid()
      ensures var (w, f) := PageOps.UnmapPage(old(St()), old(cert), FrameOf(pml4), PageAt(addr), limit);
              St() == w.s && cert == w.c && frame == f
      ensures var flushed := FlushedBy(old(tlb), pge, pml4 == cr3, old(St().mem), FrameOf(pml4), 4, PageAt(addr));
              tlb == if Translate(old(St().mem), FrameOf(pml4), PageAt(addr)).Hit? && pml4 == FrameOf(cr3) * PAGE
                     then Invlpg(flushed, PageAt(addr)) else flushed
      ensures old(Ok(Live(), limit)) && FrameOf(pml4) == FrameOf(cr3) ==>
                && Live() == LiveUnmap(old(Live()), pml4, PageAt(addr), [], [], limit)
                && (pml4 == And(cr3, FRAME_MASK) ==> Ok(Live(), limit))
    {
      hide *;
      UnmapIsLive(pml4, PageAt(addr));
      ghost var p, root := PageAt(addr), FrameOf(pml4);
      AlignedPage(addr);
      CanStart(root, p, false);
      UnmapIs(St(), cert, root, p, limit);
      GetAddr(cr3);
      var va := And(addr, PAGE_ALIGN);
      var pte := GetPageEntry(va, false, pml4);
      BrkIs();
      LiveIs();
      if pte.None? {
        return 0;
      }
      InTables(pte.value.0);
      var w := mem[pte.value.0][pte.value.1];
      WordFacts(w);
      if And(w, PRESENT) == 0 {
        return 0;
      }
      frame := And(w, FRAME_MASK);
      WriteEntry(pte.value.0, pte.value.1, 0);
      CanFinishWrite(old(St()), old(cert), root, p, false, EMPTY);
      if pml4 == And(cr3, FRAME_MASK) {
        InvalidatePage(va);
      }
      LiveIs();
    }

    /** map_physical_range: every frame from phys to phys + size, page by page, at its
        direct-map address. */
    method MapPhysicalRange(phys: nat, size: nat, iskernel: bool, writeable: bool, root: nat)
      requires Valid() && FrameOf(root) in cert.space
      requires phys + size + 0xFFF <= 0x10_0000_0000_0000 && hhdm + phys + size + 0xFFF <= WORD
      requires FreshFrame(placement - hhdm) + 3 * RangePages(phys, size) + 3 <= limit
      modifies this`mem, this`placement, this`tlb, this`cert
      ensures Valid() && tlb <= old(tlb)
      ensures CanFill(old(St()), old(cert), FrameOf(root), HhdmEnv(hhdm, limit), RangePages(phys, size))
      ensures var w := FillRange(old(St()), old(cert), FrameOf(root), HhdmEnv(hhdm, limit),
                                 phys / 0x1000, RangePages(phys, size), iskernel, writeable);
              St() == w.s && cert == w.c
      ensures FrameOf(cr3) in old(cert).space && old(Coherent(tlb, View(mem), FrameOf(cr3))) ==>
                Coherent(tlb, View(mem), FrameOf(cr3))
      ensures size < 0x1_0000_0000 ==>
                forall b: nat :: phys <= b < phys + size ==>
                  var x, p := Translate(St().mem, FrameOf(root), BytePage(hhdm, b)), BytePage(hhdm, b);
                  && x.Hit?
                  && (Translate(old(St().mem), FrameOf(root), p) != Fault ==> x == Translate(old(St().mem), FrameOf(root), p))
                  && (Translate(old(St().mem), FrameOf(root), p) == Fault ==>
                        MappedAs(x, old(St().mem), FrameOf(root), p, b / 0x1000, iskernel, writeable))
    {
      hide *;
      RangeBounds(phys, size);
      BrkIs();
      CanStartRange(FrameOf(root), RangePages(phys, size));
      StIs({});
      var it := And(phys, PAGE_ALIGN);
      var end := And(phys + size + 0xFFF, PAGE_ALIGN);
      ghost var k: nat, n: nat := phys / 0x1000, RangePages(phys, size);
      while it < end
        invariant it == k * 0x1000 && end == (k + n) * 0x1000
        invariant end <= 0x10_0000_0000_0000 && hhdm + end <= WORD
        invariant Valid() && Layout() && FrameOf(root) in cert.space && tlb <= old(tlb)
        invariant CanFill(St(), cert, FrameOf(root), HhdmEnv(hhdm, limit), n)
        invariant FillRange(old(St()), old(cert), FrameOf(root), HhdmEnv(hhdm, limit), phys / 0x1000, RangePages(phys, size), iskernel, writeable)
                  == FillRange(St(), cert, FrameOf(root), HhdmEnv(hhdm, limit), k, n, iskernel, writeable)
      {
        FillOne(it + hhdm, it, iskernel, writeable, root, k, n);
        it := it + 0x1000;
        k, n := k + 1, n - 1;
      }
      assert n == 0;
      RangeDone(St(), cert, FrameOf(root), HhdmEnv(hhdm, limit), k, iskernel, writeable);
      StIs({});
      if FrameOf(cr3) in old(cert).space && old(Coherent(tlb, View(mem), FrameOf(cr3))) {
        RangeKeepsCoherent(old(St()), old(cert), FrameOf(root), HhdmEnv(hhdm, limit), phys / 0x1000,
                           RangePages(phys, size), iskernel, writeable, old(tlb), tlb, FrameOf(cr3));
      }
      if size < 0x1_0000_0000 {
        forall b: nat | phys <= b < phys + size
          ensures var x, p := Translate(St().mem, FrameOf(root), BytePage(hhdm, b)), BytePage(hhdm, b);
                  && x.Hit?
                  && (Translate(old(St().mem), FrameOf(root), p) != Fault ==> x == Translate(old(St().mem), FrameOf(root), p))
                  && (Translate(old(St().mem), FrameOf(root), p) == Fault ==>
                        MappedAs(x, old(St().mem), FrameOf(root), p, b / 0x1000, iskernel, writeable))
        {
          RangeMeans(old(St()), old(cert), FrameOf(root), hhdm, limit, phys, size, iskernel, writeable, b);
        }
      }
    }

    /** kheap.c: unaligned allocation. */
    method Kmalloc(sz: nat) returns (ret: nat)
      requires Layout() && placement + sz <= hhdm + limit * PAGE
      modifies this`placement
      ensures ret == old(placement) && placement == ret + sz && Layout()
    {
      ret := placement;
      placement := placement + sz;
    }

    ghost function System(stacks: set<nat>): Sys
      reads `mem, `placement, `cert
      requires Layout()
    {
      Sys(St(), cert, stacks)
    }

    /** process.c, alloc_stack: reserve the stack and its vm_region, then unmap the guard page. */
    method AllocStack(ghost stacks: set<nat>) returns (start: nat, guard: nat)
      requires Valid() && Shape(System(stacks), HhdmEnv(hhdm, limit)) && FrameOf(cr3) in cert.space
      requires Room(St(), HhdmEnv(hhdm, limit), KSTACK_FRAMES + 4)
      modifies this`mem, this`placement, this`tlb, this`cert
      ensures Valid() && start == hhdm + FreshFrame(old(placement) - hhdm) * PAGE
      ensures var (y, f) := PageRuns.AllocStack(old(System(stacks)), HhdmEnv(hhdm, limit), FrameOf(cr3));
              guard == f && System(y.stacks) == y
      ensures var page := PageAt(start);
              var flushed := FlushedBy(old(tlb), pge, true, old(St().mem), FrameOf(cr3), 4, page);
              tlb == if Translate(old(St().mem), FrameOf(cr3), page).Hit? && cr3 == FrameOf(cr3) * PAGE
                     then Invlpg(flushed, page) else flushed
      ensures old(Ok(Live(), limit)) && And(cr3, FRAME_MASK) == cr3 ==> Ok(Live(), limit)
    {
      hide *;
      StackFacts(stacks);
      LiveIs();
      ghost var s0 := St();
      start := KmallocA(33 * 0x1000);
      var vma := Kmalloc(48);
      StIs(stacks);
      StackReady(stacks, s0);
      StackLive(s0);
      guard := UnmapPage(start, cr3);
      BrkIs();
      StIs(stacks + Frames(FreshFrame(s0.brk), KSTACK_FRAMES));
    }

    lemma StIs(stacks: set<nat>)
      requires Layout()
      ensures St() == State(View(mem), placement - hhdm) && System(stacks) == Sys(St(), cert, stacks)
    {
    }

    lemma StackFacts(stacks: set<nat>)
      requires Valid() && Shape(System(stacks), HhdmEnv(hhdm, limit)) && FrameOf(cr3) in cert.space
      requires Room(St(), HhdmEnv(hhdm, limit), KSTACK_FRAMES + 4)
      ensures Layout() && System(stacks) == Sys(St(), cert, stacks) && St() == State(View(mem), placement - hhdm)
      ensures var x := FreshFrame(placement - hhdm);
              && x * PAGE + 33 * 0x1000 <= limit * PAGE && hhdm + x * PAGE + 33 * 0x1000 + 48 <= hhdm + limit * PAGE
              && AfterStackAlloc(placement - hhdm) == x * PAGE + 33 * 0x1000 + 48
              && PageAt(hhdm + x * PAGE) == HhdmEnv(hhdm, limit).dm(x) && hhdm + x * PAGE < WORD
              && CanWalk(St().(brk := AfterStackAlloc(St().brk)), cert, FrameOf(cr3), limit)
              && var (w, f) := PageOps.UnmapPage(St().(brk := AfterStackAlloc(St().brk)), cert, FrameOf(cr3),
                                                 PageAt(hhdm + x * PAGE), limit);
                 PageRuns.AllocStack(System(stacks), HhdmEnv(hhdm, limit), FrameOf(cr3))
                 == (Sys(w.s, w.c, stacks + Frames(x, KSTACK_FRAMES)), f)
    {
      hide PageOps.UnmapPage, PageAt, HhdmEnv, Forest, InStep, Frames, View, FrameOf;
      HhdmPage(hhdm, limit, FreshFrame(placement - hhdm));
      StackRoom(System(stacks), HhdmEnv(hhdm, limit), FrameOf(cr3));
    }

    lemma StackReady(stacks: set<nat>, s0: State)
      requires Layout() && St() == s0.(brk := AfterStackAlloc(s0.brk)) && FrameOf(cr3) in cert.space
      requires Shape(Sys(s0, cert, stacks), HhdmEnv(hhdm, limit)) && Room(s0, HhdmEnv(hhdm, limit), KSTACK_FRAMES + 4)
      ensures Valid() && FreshFrame(placement - hhdm) + 3 <= limit
    {
      StackRoom(Sys(s0, cert, stacks), HhdmEnv(hhdm, limit), FrameOf(cr3));
    }

    lemma StackLive(s0: State)
      requires Layout() && St() == s0.(brk := AfterStackAlloc(s0.brk)) && Valid()
      ensures St().mem == s0.mem && (Ok(Cpu(s0, cert, cr3, pge, tlb), limit) ==> Ok(Live(), limit))
    {
      hide FrameOf;
    }

    /** process.c, init_process: give init a copy of the running PML4. Returns its address. */
    method CopyPml4() returns (pml4: nat)
      requires Valid() && FrameOf(cr3) in cert.space && FreshFrame(placement - hhdm) < limit
      modifies this`mem, this`placement, this`cert
      ensures Valid() && pml4 == FreshFrame(old(placement) - hhdm) * PAGE
      ensures cert == CopyCert(old(cert), old(View(mem)), FrameOf(cr3), pml4 / 0x1000)
      ensures View(mem) == old(View(mem))[pml4 / 0x1000 := old(View(mem))[FrameOf(cr3)]] && placement == hhdm + pml4 + 0x1000
    {
      hide *;
      CopyFacts();
      RootFrame(cr3);
      ghost var s0 := St();
      var boot := And(cr3, FRAME_MASK) / 0x1000;
      var pgtable := KmallocA(0x1000);
      pml4 := pgtable - hhdm;  // virt_to_phys of a heap address
      ViewAdd(mem, pml4 / 0x1000, mem[boot]);
      cert := CopyCert(cert, View(mem), FrameOf(cr3), pml4 / 0x1000);
      mem := mem[pml4 / 0x1000 := mem[boot]];
      StIs({});
      CopyDone(s0, old(cert), FrameOf(cr3));
    }

    lemma CopyFacts()
      requires Valid() && FrameOf(cr3) in cert.space && FreshFrame(placement - hhdm) < limit
      ensures Layout() && St() == State(View(mem), placement - hhdm) && FrameOf(cr3) in mem && mem.Keys == View(mem).Keys
      ensures View(mem)[FrameOf(cr3)] == ViewTable(mem[FrameOf(cr3)]) && |cert.space[FrameOf(cr3)]| == 512
      ensures FreshFrame(placement - hhdm) * PAGE + 0x1000 <= limit * PAGE && PAGE == 0x1000
      ensures Forest(St().mem, cert) && InStep(St().mem, cert) && HeapFree(St(), limit)
    {
    }

    lemma CopyDone(s: State, c: Cert, r: nat)
      requires Layout() && r in c.space && r in s.mem && |c.space[r]| == 512
      requires Forest(s.mem, c) && InStep(s.mem, c) && HeapFree(s, limit) && FreshFrame(s.brk) < limit
      requires St() == State(s.mem[FreshFrame(s.brk) := s.mem[r]], (FreshFrame(s.brk) + 1) * PAGE)
      requires cert == CopyCert(c, s.mem, r, FreshFrame(s.brk))
      ensures Valid()
    {
      CopyForest(s, c, r, limit);
    }

    lemma CanStartRange(root: nat, n: nat)
      requires Valid() && root in cert.space && FreshFrame(placement - hhdm) + 3 * n + 3 <= limit
      ensures Layout() && CanFill(St(), cert, root, HhdmEnv(hhdm, limit), n)
    {
    }

    lemma BrkIs()
      requires Valid()
      ensures Layout() && St().brk == placement - hhdm && hhdm % 0x1000 == 0
    {
    }

    lemma FillFacts(root: nat, virt: nat, k: nat, n: nat, iskernel: bool, writeable: bool)
      requires Valid() && root in cert.space && n > 0
      requires virt == k * 0x1000 + hhdm && k < 0x100_0000_0000
      requires CanFill(St(), cert, root, HhdmEnv(hhdm, limit), n)
      ensures FreshFrame(placement - hhdm) + 3 <= limit && k * 0x1000 < WORD && CanWalk(St(), cert, root, limit)
      ensures PteEntry(k * 0x1000, iskernel, writeable) == DirectEntry(k, iskernel, writeable)
      ensures var w := GetFrom(St(), cert, root, PageAt(virt), false, limit);
              var e := DirectEntry(k, iskernel, writeable);
              && FreshFrame(w.s.brk) + 3 <= limit && w.c.space == cert.space && CanWalk(w.s, w.c, root, limit)
              && (w.pt.Some? ==> w.pt.value in w.s.mem)
              && var f := if w.pt.Some? && w.s.mem[w.pt.value][PageAt(virt).i1].present then w
                          else PageOps.MapPage(w.s, w.c, root, PageAt(virt), e, limit);
                 && CanFill(f.s, f.c, root, HhdmEnv(hhdm, limit), n - 1)
                 && FillRange(St(), cert, root, HhdmEnv(hhdm, limit), k, n, iskernel, writeable)
                    == FillRange(f.s, f.c, root, HhdmEnv(hhdm, limit), k + 1, n - 1, iskernel, writeable)
    {
      hide *;
      BrkIs();
      PteEntryIsDirect(k, iskernel, writeable);
      HhdmPage(hhdm, limit, k);
      FillRangeStep(St(), cert, root, HhdmEnv(hhdm, limit), k, n, iskernel, writeable);
    }

    /** The body of that loop: look without creating, skip if present, else map. */
    method FillOne(virt: nat, phys: nat, iskernel: bool, writeable: bool, root: nat, ghost k: nat, ghost n: nat)
      requires Valid() && FrameOf(root) in cert.space && n > 0
      requires phys == k * 0x1000 && virt == phys + hhdm && k < 0x100_0000_0000 && virt < WORD
      requires CanFill(St(), cert, FrameOf(root), HhdmEnv(hhdm, limit), n)
      modifies this`mem, this`placement, this`tlb, this`cert
      ensures Valid() && Layout() && tlb <= old(tlb)
      ensures CanFill(St(), cert, FrameOf(root), HhdmEnv(hhdm, limit), n - 1) && FrameOf(root) in cert.space
      ensures FillRange(old(St()), old(cert), FrameOf(root), HhdmEnv(hhdm, limit), k, n, iskernel, writeable)
              == FillRange(St(), cert, FrameOf(root), HhdmEnv(hhdm, limit), k + 1, n - 1, iskernel, writeable)
    {
      hide *;
      BrkIs();
      FillFacts(FrameOf(root), virt, k, n, iskernel, writeable);
      var pte := GetPageEntry(virt, false, root);
      BrkIs();
      FlushShrinks(old(tlb), pge, root == cr3, old(St().mem), FrameOf(root), 4, PageAt(virt));
      if pte.Some? {
        InTables(pte.value.0);
        WordFacts(mem[pte.value.0][pte.value.1]);
        if And(mem[pte.value.0][pte.value.1], PRESENT) != 0 {
          return;
        }
      }
      FlushShrinks(tlb, pge, root == cr3, St().mem, FrameOf(root), 4, PageAt(virt));
      MapPage(virt, phys, iskernel, writeable, root);
      BrkIs();
    }
  }
}
