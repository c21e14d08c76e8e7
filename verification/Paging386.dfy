/** The i386 paging code over its bitmap words, page directory and bump heap. */
module Paging386 {
  import opened Options
  import opened Words
  import opened Frames

  lemma AllOnes(k: nat)
    requires k < 32
    ensures BitAt(0xFFFF_FFFF, k)
  {
    hide Ones, Pow2, BitAt;
    Pow2Values();
    Pow2Sum(30, 2);
    Pow2Small();
    ShiftIs(0, 32);
    assert Ones(32) == 0xFFFF_FFFF;
    BitOnes(32, k);
  }

  /** Writing word i changes the marks of its 32 frames only. */
  lemma UsedUpdate(ws: seq<nat>, i: nat, v: nat, f: nat)
    requires i < |ws|
    ensures f in Used(ws[i := v]) <==> if f / 32 == i then BitAt(v, f % 32) else f in Used(ws)
  {
  }

  lemma NothingUsed(ws: seq<nat>)
    requires forall i :: 0 <= i < |ws| ==> ws[i] == 0
    ensures Used(ws) == {}
  {
    forall f: nat | f < 32 * |ws| ensures !Bit(ws, f) { BitZero(f % 32); }
  }

  /** The directory slot of a page. */
  function DirOf(pg: nat): nat { pg / 1024 }

  /** A zeroed page table in slot d. */
  function ZeroTable(d: nat): map<nat, Pte> { map pg: nat | pg < 1024 * (d + 1) && DirOf(pg) == d :: ZERO }

  lemma ZeroTableAt(d: nat, pg: nat)
    ensures pg in ZeroTable(d) <==> DirOf(pg) == d
    ensures pg in ZeroTable(d) ==> ZeroTable(d)[pg] == ZERO
  {
  }

  lemma SlotOf(addr: nat)
    ensures DirOf(addr / 0x1000) == addr / 0x40_0000
  {
  }

  /** Tables needed for n pages. */
  function TableCount(n: nat): nat { (n + 1023) / 1024 }

  lemma TableCountNext(n: nat)
    ensures DirOf(n) + 1 == TableCount(n + 1)
    ensures TableCount(n) == TableCount(n + 1) || TableCount(n) == DirOf(n)
  {
  }

  /** After pages 0 .. n have been mapped, with tables for m pages: page i has frame i, and
      the tables lie one after the other from `base`. */
  ghost predicate Identity(s: State, tables: map<nat, nat>, base: nat, placement: nat, n: nat, m: nat)
  {
    && (forall f: nat :: f in s.used <==> f < n)
    && (forall p: nat :: p < n ==> p in s.ptes && s.ptes[p] == Pte(true, true, false, p))
    && (forall p: nat :: p in s.ptes && n <= p ==> s.ptes[p] == ZERO)
    && (forall d: nat :: d in tables <==> d < TableCount(m))
    && (forall d: nat :: d in tables ==> tables[d] == base + 0x1000 * d)
    && placement == base + 0x1000 * TableCount(m) && base % 0x1000 == 0
  }

  lemma NewTableIdentity(s: State, tables: map<nat, nat>, base: nat, placement: nat, n: nat)
    requires Identity(s, tables, base, placement, n, n) && DirOf(n) !in tables
    requires forall p: nat :: p < n ==> DirOf(p) in tables
    ensures Identity(State(s.used, s.ptes + ZeroTable(DirOf(n))), tables[DirOf(n) := placement], base, placement + 0x1000, n, n + 1)
  {
    hide DirOf, ZeroTable, TableCount;
    TableCountNext(n);
    forall p: nat ensures p in ZeroTable(DirOf(n)) <==> DirOf(p) == DirOf(n) { ZeroTableAt(DirOf(n), p); }
    forall p: nat | p in ZeroTable(DirOf(n)) ensures ZeroTable(DirOf(n))[p] == ZERO { ZeroTableAt(DirOf(n), p); }
  }

  lemma OldTableIdentity(s: State, tables: map<nat, nat>, base: nat, placement: nat, n: nat)
    requires Identity(s, tables, base, placement, n, n) && DirOf(n) in tables
    ensures Identity(s, tables, base, placement, n, n + 1)
  {
    TableCountNext(n);
  }

  lemma TablesBelow(s: State, tables: map<nat, nat>, base: nat, placement: nat, n: nat, p: nat)
    requires Identity(s, tables, base, placement, n, n) && p < n
    ensures DirOf(p) in tables
  {
    TableCountNext(p);
  }

  /** The lowest free frame is n. */
  lemma NextFrame(s: State, tables: map<nat, nat>, base: nat, placement: nat, n: nat, total: nat, f: nat)
    requires Identity(s, tables, base, placement, n, n + 1) && n in s.ptes
    ensures Full(s.used, total) <==> total <= n
    ensures LowestFree(s.used, total, f) ==> f == n
    ensures s.ptes[n] == ZERO
    ensures Identity(Alloc(s, n, n, true, true), tables, base, placement, n + 1, n + 1)
  {
    hide TableCount;
    assert n !in s.used;
    assert f > n && f < total ==> n in s.used || !LowestFree(s.used, total, f);
  }

  lemma IdentityAligned(s: State, tables: map<nat, nat>, base: nat, placement: nat, n: nat, m: nat)
    requires Identity(s, tables, base, placement, n, m)
    ensures placement % 0x1000 == 0
  {
  }

  lemma NothingMapped(ws: seq<nat>, base: nat)
    requires (forall i :: 0 <= i < |ws| ==> ws[i] == 0) && base % 0x1000 == 0
    ensures Identity(State(Used(ws), map[]), map[], base, base, 0, 0)
  {
    NothingUsed(ws);
  }

  lemma IdentityFits(s: State, tables: map<nat, nat>, base: nat, placement: nat, n: nat, m: nat)
    requires Identity(s, tables, base, placement, n, m) && m <= 0x10_0000
    ensures TableCount(m) <= 1024 && forall d: nat :: d in tables ==> base <= tables[d] <= base + 0x3F_F000
  {
  }

  class Mmu {
    const frames: array<nat>
    var tables: map<nat, nat>   // page directory: index to table address
    var ptes: map<nat, Pte>     // entries of the tables there are, by page number
    var placement: nat
    var panicked: bool

    constructor (nframes: nat, placement: nat)
      ensures fresh(frames) && frames.Length == nframes / 32 && (forall i :: 0 <= i < frames.Length ==> frames[i] == 0)
      ensures tables == map[] && ptes == map[] && this.placement == placement && !panicked
    {
      frames := new nat[nframes / 32](_ => 0);
      tables, ptes, panicked := map[], map[], false;
      this.placement := placement;
    }

    ghost function View(): State
      reads this, frames
    {
      State(Used(frames[..]), ptes)
    }

    /** set_frame. */
    method SetFrame(addr: nat)
      requires addr / 0x1000 < 32 * frames.Length
      modifies frames
      ensures Used(frames[..]) == old(Used(frames[..])) + {addr / 0x1000}
    {
      hide Used;
      var frame := addr / 0x1000;
      var idx, off := frame / 32, frame % 32;
      ghost var ws := frames[..];
      frames[idx] := Or(frames[idx], Shl(1, off));
      assert frames[..] == ws[idx := frames[idx]];
      forall f: nat ensures f in Used(frames[..]) <==> f in Used(ws) || f == frame {
        UsedUpdate(ws, idx, frames[idx], f);
        UsedUpdate(ws, idx, ws[idx], f);
        assert ws[idx := ws[idx]] == ws;
        SetMask(ws[idx], off, f % 32);
      }
    }

    /** clear_frame. */
    method ClearFrame(addr: nat)
      requires addr / 0x1000 < 32 * frames.Length
      modifies frames
      ensures Used(frames[..]) == old(Used(frames[..])) - {addr / 0x1000}
    {
      hide Used, ClearMask;
      var frame := addr / 0x1000;
      var idx, off := frame / 32, frame % 32;
      ghost var ws := frames[..];
      frames[idx] := And(frames[idx], ClearMask(off, 32));
      assert frames[..] == ws[idx := frames[idx]];
      forall f: nat ensures f in Used(frames[..]) <==> f in Used(ws) && f != frame {
        UsedUpdate(ws, idx, frames[idx], f);
        UsedUpdate(ws, idx, ws[idx], f);
        assert ws[idx := ws[idx]] == ws;
        Unmask(ws[idx], off, 32, f % 32);
      }
    }

    /** first_frame: the lowest frame not marked. */
    method FirstFrame() returns (r: Option<nat>)
      ensures r.Some? ==> LowestFree(Used(frames[..]), 32 * frames.Length, r.value)
      ensures r.None? ==> Full(Used(frames[..]), 32 * frames.Length)
    {
      var i := 0;
      while i < frames.Length
        invariant 0 <= i <= frames.Length
        invariant forall f: nat :: f < 32 * i ==> f in Used(frames[..])
      {
        if frames[i] == 0xFFFF_FFFF {
          forall f: nat | 32 * i <= f < 32 * (i + 1) ensures f in Used(frames[..]) { AllOnes(f % 32); }
          i := i + 1;
          continue;
        }
        var j := 0;
        while j < 32
          invariant 0 <= j <= 32
          invariant forall f: nat :: f < 32 * i + j ==> f in Used(frames[..])
        {
          MaskTest(frames[i], j);
          assert (32 * i + j) / 32 == i && (32 * i + j) % 32 == j;
          if And(frames[i], Shl(1, j)) == 0 {
            return Some(32 * i + j);
          }
          j := j + 1;
        }
        i := i + 1;
      }
      return None;
    }

    /** alloc_frame. */
    method AllocFrame(p: nat, kernel: bool, writeable: bool)
      requires p in ptes
      modifies frames, this`ptes, this`panicked
      ensures ptes.Keys == old(ptes.Keys)
      ensures panicked == (old(panicked) || (old(ptes)[p].frame == 0 && old(Full(Used(frames[..]), 32 * frames.Length))))
      ensures old(ptes)[p].frame != 0 || old(Full(Used(frames[..]), 32 * frames.Length)) ==> View() == old(View())
      ensures old(ptes)[p].frame == 0 && !old(Full(Used(frames[..]), 32 * frames.Length)) ==>
                exists f :: old(LowestFree(Used(frames[..]), 32 * frames.Length, f)) && View() == Alloc(old(View()), p, f, kernel, writeable)
    {
      hide Used;
      var pte := ptes[p];
      if pte.frame != 0 {
        return;
      }
      var idx := FirstFrame();
      if idx == None {
        panicked := true;
        return;
      }
      assert (idx.value * 0x1000) / 0x1000 == idx.value;
      SetFrame(idx.value * 0x1000);
      pte := pte.(present := true);
      if writeable {
        pte := pte.(write := true);
      }
      if !kernel {
        pte := pte.(user := true);
      }
      ptes := ptes[p := pte.(frame := idx.value)];
      assert View() == Alloc(old(View()), p, idx.value, kernel, writeable);
    }

    /** free_frame. */
    method FreeFrame(p: nat)
      requires p in ptes && ptes[p].frame < 32 * frames.Length
      modifies frames, this`ptes
      ensures View() == Release(old(View()), p)
    {
      hide Used;
      var frame := ptes[p].frame;
      if frame == 0 {
        return;
      }
      assert (frame * 0x1000) / 0x1000 == frame;
      ClearFrame(frame * 0x1000);
      ptes := ptes[p := ZERO];
    }

    /** kmalloc_a(4096). */
    method KmallocA() returns (ret: nat)
      modifies this`placement
      ensures ret % 0x1000 == 0 && old(placement) <= ret < old(placement) + 0x1000 && placement == ret + 0x1000
    {
      if placement % 0x1000 != 0 {
        placement := placement - placement % 0x1000;
        placement := placement + 0x1000;
      }
      ret := placement;
      placement := placement + 0x1000;
    }

    ghost predicate TablesThere()
      reads this
    {
      forall pg: nat :: DirOf(pg) in tables ==> pg in ptes
    }

    /** get_page: the entry's page number, making its table if there is none. */
    method GetPage(addr: nat, make: bool) returns (page: Option<nat>)
      requires TablesThere()
      modifies this`placement, this`tables, this`ptes
      ensures TablesThere()
      ensures page == if addr / 0x40_0000 in old(tables) || make then Some(addr / 0x1000) else None
      ensures page.Some? ==> addr / 0x1000 in ptes && DirOf(addr / 0x1000) in tables
      ensures addr / 0x40_0000 in old(tables) || !make ==>
                tables == old(tables) && ptes == old(ptes) && placement == old(placement)
      ensures addr / 0x40_0000 !in old(tables) && make ==>
                && placement % 0x1000 == 0 && old(placement) + 0x1000 <= placement < old(placement) + 0x2000
                && tables == old(tables)[addr / 0x40_0000 := placement - 0x1000]
                && ptes == old(ptes) + ZeroTable(addr / 0x40_0000)
    {
      hide DirOf, ZeroTable;
      var d := addr / 0x40_0000;
      SlotOf(addr);
      if d !in tables {
        if !make {
          return None;
        }
        var table := KmallocA();
        tables := tables[d := table];
        ptes := ptes + ZeroTable(d);
        forall pg: nat | DirOf(pg) in tables ensures pg in ptes { ZeroTableAt(d, pg); }
      }
      page := Some(addr / 0x1000);
    }

    /** The first half of a round of init_paging()'s loop: a table for page n. */
    method TableForNext(n: nat, ghost base: nat) returns (page: nat)
      requires TablesThere() && Identity(View(), tables, base, placement, n, n)
      modifies this`placement, this`tables, this`ptes
      ensures TablesThere() && page == n && n in ptes
      ensures Identity(View(), tables, base, placement, n, n + 1)
    {
      hide Used, Identity, DirOf, ZeroTable;
      ghost var s, tables0, placement0 := View(), tables, placement;
      SlotOf(0x1000 * n);
      assert 0x1000 * n / 0x1000 == n;
      forall p: nat | p < n ensures DirOf(p) in tables0 { TablesBelow(s, tables0, base, placement0, n, p); }
      IdentityAligned(s, tables0, base, placement0, n, n);
      var found := GetPage(0x1000 * n, true);
      if DirOf(n) in tables0 {
        OldTableIdentity(s, tables, base, placement, n);
      } else {
        NewTableIdentity(s, tables0, base, placement0, n);
      }
      return found.value;
    }

    /** One round of init_paging()'s loop: page n gets frame n, or there is no frame left. */
    method MapNext(n: nat, ghost base: nat)
      requires TablesThere() && Identity(View(), tables, base, placement, n, n) && !panicked
      modifies this, frames
      ensures TablesThere()
      ensures panicked <==> 32 * frames.Length <= n
      ensures Identity(View(), tables, base, placement, if panicked then n else n + 1, n + 1)
    {
      hide Used, Identity, LowestFree, Full, Alloc;
      var page := TableForNext(n, base);
      ghost var t := View();
      assert t.ptes == ptes;
      NextFrame(t, tables, base, placement, n, 32 * frames.Length, n);
      AllocFrame(page, true, true);
      if !panicked {
        ghost var f :| LowestFree(t.used, 32 * frames.Length, f) && View() == Alloc(t, n, f, true, true);
        NextFrame(t, tables, base, placement, n, 32 * frames.Length, f);
      }
    }

    /** init_paging() up to the end of its identity mapping loop. Every page below the end
        gets the frame of its own number, unless the machine has fewer frames than that; the
        directory and every page table lie inside the range that is mapped. */
    method InitPaging() returns (dir: nat, end: nat)
      requires (forall i :: 0 <= i < frames.Length ==> frames[i] == 0) && tables == map[] && ptes == map[] && !panicked
      requires placement + 4 * frames.Length + 0x2000 + 0x80_0000 <= 0x1_0000_0000
      modifies this, frames
      ensures old(placement) + 4 * frames.Length <= dir && dir % 0x1000 == 0 && end == dir + 0x1000 + 0x80_0000
      ensures panicked <==> 0x1000 * (32 * frames.Length) < end
      ensures !panicked ==> forall p: nat :: 0x1000 * p < end ==> p in ptes && ptes[p] == Pte(true, true, false, p)
      ensures !panicked ==> forall f: nat :: f in Used(frames[..]) <==> 0x1000 * f < end
      ensures forall d: nat :: d in tables ==> tables[d] % 0x1000 == 0 && dir + 0x1000 <= tables[d] && tables[d] + 0x1000 <= end
      ensures forall d, e :: d in tables && e in tables && d != e ==> tables[d] != tables[e]
    {
      hide Used, DirOf, TableCount;
      placement := placement + 4 * frames.Length;
      dir := KmallocA();
      end := placement + 0x80_0000;
      ghost var base := placement;
      NothingMapped(frames[..], base);
      var n := 0;
      while 0x1000 * n < end && !panicked
        invariant n <= 0x10_0000 && 0x1000 * n < end + 0x1000
        invariant base == dir + 0x1000 && end == base + 0x80_0000 <= 0x1_0000_0000
        invariant TablesThere() && Identity(View(), tables, base, placement, n, if panicked then n + 1 else n)
        invariant if panicked then 0x1000 * n < end && 32 * frames.Length <= n else n <= 32 * frames.Length
        decreases end - 0x1000 * n, !panicked
      {
        MapNext(n, base);
        if !panicked {
          n := n + 1;
        }
      }
      IdentityFits(View(), tables, base, placement, n, if panicked then n + 1 else n);
    }
  }
}
