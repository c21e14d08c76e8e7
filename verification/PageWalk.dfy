/** get_page_entry: the software walk that creates missing tables and splits
    huge pages on its way down to the page table. */
module PageWalk {
  import opened Options
  import opened Words
  import opened PageEntry
  import opened PageForest

  /** The table pages and the physical address the bump allocator will hand out next. */
  datatype State = State(mem: Mem, brk: nat)

  /** The frame kmalloc_a aligns up to. */
  function FreshFrame(brk: nat): nat { (brk + PAGE - 1) / PAGE }

  function Blank(): Table { seq(512, _ => EMPTY) }

  function SplitTable(huge: Entry, level: nat): Table
    requires 1 <= level <= 2
  {
    seq(512, i requires 0 <= i < 512 => PieceOf(huge, level, i))
  }

  /** Entry for a table created on demand: present and writable, no PAGE_USER. */
  function NewEntry(x: nat): Entry { Entry(true, true, false, false, false, x, {}) }

  /** Entry that replaces a huge page: it inherits user and no-execute. */
  function SplitEntry(huge: Entry, x: nat): Entry { Entry(true, true, huge.user, false, huge.nx, x, {}) }

  /** Put table `tab` at frame x and hang it under slot i of t. */
  function Graft(mem: Mem, t: nat, i: Index, x: nat, tab: Table, e: Entry): (m: Mem)
    requires t in mem
  {
    mem[x := tab][t := mem[t][i := e]]
  }

  /** One level of the walk: the state after it, and the table one level down. */
  function Descend(s: State, t: nat, i: Index, level: nat, create: bool): (State, Option<nat>)
    requires t in s.mem && 2 <= level <= 4
  {
    var e := s.mem[t][i];
    var x := FreshFrame(s.brk);
    if !e.present then
      if !create then (s, None)
      else (State(Graft(s.mem, t, i, x, Blank(), NewEntry(x)), (x + 1) * PAGE), Some(x))
    else if IsLeaf(e, level) then
      (State(Graft(s.mem, t, i, x, SplitTable(e, level - 1), SplitEntry(e, x)), (x + 1) * PAGE), Some(x))
    else (s, Some(e.frame))
  }

  /** Frames from the bump pointer to `limit` hold no table. */
  ghost predicate HeapFree(s: State, limit: nat)
  {
    limit <= FRAMES && forall t :: t in s.mem ==> t < FreshFrame(s.brk) || limit <= t
  }

  function DescendCert(c: Cert, s: State, t: nat, i: Index, create: bool): Cert
    requires t in s.mem && t in c.loc && LevelOf(c.loc[t]) > 1
    requires c.loc[t].L4? ==> c.loc[t].root in c.space && |c.space[c.loc[t].root]| == 512
  {
    var e := s.mem[t][i];
    if (if e.present then IsLeaf(e, LevelOf(c.loc[t])) else create)
    then c.(loc := c.loc[FreshFrame(s.brk) := Child(c, c.loc[t], i)]) else c
  }

  // --------------------------------------------------------------- one graft

  /** A table whose entries are all leaves or absent may be hung anywhere. */
  lemma GraftForest(mem: Mem, c: Cert, t: nat, i: Index, x: nat, tab: Table, e: Entry)
    requires Forest(mem, c) && t in mem && x !in mem && LevelOf(c.loc[t]) > 1
    requires e.frame == x && !IsLeaf(e, LevelOf(c.loc[t]))
    requires forall j: Index :: tab[j].present ==> IsLeaf(tab[j], LevelOf(c.loc[t]) - 1)
    ensures Forest(Graft(mem, t, i, x, tab, e), c.(loc := c.loc[x := Child(c, c.loc[t], i)]))
    ensures SameBut(mem, Graft(mem, t, i, x, tab, e), t, i)
  {
    var m := Graft(mem, t, i, x, tab, e);
    var c' := c.(loc := c.loc[x := Child(c, c.loc[t], i)]);
    assert x !in c.space;
    forall u, j: Index | u in m ensures SlotOk(m, c', u, j) {
      if u != x { assert SlotOk(mem, c, u, j); }
    }
  }

  /** The pieces of a huge page translate like the page. */
  lemma PieceHit(huge: Entry, level: nat, p: Page, acc: Rights, x: nat)
    requires 1 <= level <= 2
    ensures var piece := PieceOf(huge, level, Idx(p, level));
            LeafHit(piece, level, p, Meet(acc, SplitEntry(huge, x))) == LeafHit(huge, level + 1, p, acc)
  {
    PieceBase(huge.frame, level, Idx(p, level));
  }

  lemma PieceBase(frame: nat, level: nat, i: nat)
    requires 1 <= level <= 2
    ensures LeafBase(LeafBase(frame, level + 1) + i * Span(level), level)
            == LeafBase(frame, level + 1) + i * Span(level)
  {
    if level == 2 {
      QuotientUnique(frame / 0x4_0000 * 0x4_0000 + i * 0x200, 0x200, frame / 0x4_0000 * 0x200 + i, 0);
    }
  }

  lemma SplitInvisible(mem: Mem, c: Cert, t: nat, i: Index, x: nat, p: Page, acc: Rights)
    requires Forest(mem, c) && t in mem && x !in mem && 2 <= LevelOf(c.loc[t]) <= 3
    requires mem[t][i].present && mem[t][i].ps && Idx(p, LevelOf(c.loc[t])) == i
    ensures var level := LevelOf(c.loc[t]);
            var m := Graft(mem, t, i, x, SplitTable(mem[t][i], level - 1), SplitEntry(mem[t][i], x));
            Walk(m, t, level, p, acc) == Walk(mem, t, level, p, acc)
  {
    var level := LevelOf(c.loc[t]);
    PieceHit(mem[t][i], level - 1, p, acc, x);
  }

  /** What one level of the walk keeps. */
  lemma DescendKeeps(s: State, c: Cert, t: nat, i: Index, create: bool, limit: nat)
    requires Forest(s.mem, c) && t in s.mem && LevelOf(c.loc[t]) > 1
    requires HeapFree(s, limit) && FreshFrame(s.brk) < limit
    ensures var level := LevelOf(c.loc[t]);
            var (s', u) := Descend(s, t, i, level, create);
            var c' := DescendCert(c, s, t, i, create);
            && Forest(s'.mem, c') && HeapFree(s', limit)
            && FreshFrame(s.brk) <= FreshFrame(s'.brk) <= FreshFrame(s.brk) + 1
            && SameBut(s.mem, s'.mem, t, i) && c'.space == c.space
            && (forall x :: x in s'.mem ==> x in s.mem || FreshFrame(s.brk) <= x < FreshFrame(s'.brk))
            && (forall x :: x in c.loc ==> x in c'.loc && c'.loc[x] == c.loc[x])
            && (s.mem[t][i].present && !IsLeaf(s.mem[t][i], level) ==> s' == s)
            && (u.None? <==> !create && !s.mem[t][i].present)
            && (u.None? ==> s' == s)
            && (u.Some? ==>
                  var e := s'.mem[t][i];
                  e.present && !IsLeaf(e, level) && e.frame == u.value && u.value in s'.mem
                  && c'.loc[u.value] == Child(c', c'.loc[t], i))
  {
    var level := LevelOf(c.loc[t]);
    var e := s.mem[t][i];
    var x := FreshFrame(s.brk);
    assert x !in s.mem;
    assert SlotOk(s.mem, c, t, i);
    if !e.present && create {
      GraftForest(s.mem, c, t, i, x, Blank(), NewEntry(x));
    } else if e.present && IsLeaf(e, level) {
      GraftForest(s.mem, c, t, i, x, SplitTable(e, level - 1), SplitEntry(e, x));
    }
  }

  /** One level of the walk changes no translation. */
  lemma DescendInvisible(s: State, c: Cert, t: nat, i: Index, create: bool, limit: nat, x: nat, p: Page, acc: Rights)
    requires Forest(s.mem, c) && t in s.mem && LevelOf(c.loc[t]) > 1 && x in s.mem
    requires HeapFree(s, limit) && FreshFrame(s.brk) < limit
    ensures var s' := Descend(s, t, i, LevelOf(c.loc[t]), create).0;
            Walk(s'.mem, x, LevelOf(c.loc[x]), p, acc) == Walk(s.mem, x, LevelOf(c.loc[x]), p, acc)
  {
    var level := LevelOf(c.loc[t]);
    var s' := Descend(s, t, i, level, create).0;
    DescendKeeps(s, c, t, i, create, limit);
    var f := FreshFrame(s.brk);
    assert f !in s.mem;
    forall q: Page, a: Rights | Idx(q, level) == i
      ensures Walk(s'.mem, t, level, q, a) == Walk(s.mem, t, level, q, a)
    {
      if s.mem[t][i].present && IsLeaf(s.mem[t][i], level) { SplitInvisible(s.mem, c, t, i, f, q, a); }
    }
    LocalToGlobal(s.mem, s'.mem, c, t, i, x, p, acc);
  }

  // ---------------------------------------------------------------- the walk

  /** The page table the existing entries lead to, huge pages not followed. */
  function PtFrame(mem: Mem, t: nat, level: nat, p: Page): Option<nat>
    requires 1 <= level <= 4
    decreases level
  {
    if t !in mem then None
    else if level == 1 then Some(t)
    else
      var e := mem[t][Idx(p, level)];
      if e.present && !IsLeaf(e, level) then PtFrame(mem, e.frame, level - 1, p) else None
  }

  /** The existing entries stop at an absent one before the page table. */
  predicate AbsentAbove(mem: Mem, t: nat, level: nat, p: Page)
    requires 1 <= level <= 4
    decreases level
  {
    level > 1 && t in mem &&
    var e := mem[t][Idx(p, level)];
    !e.present || (!IsLeaf(e, level) && AbsentAbove(mem, e.frame, level - 1, p))
  }

  /** Result of the walk: state, certificate, and the page table reached. */
  datatype Walked = Walked(s: State, c: Cert, pt: Option<nat>)

  /** get_page_entry from table t down: create or split at every level as needed. */
  ghost function GetFrom(s: State, c: Cert, t: nat, p: Page, create: bool, limit: nat): (r: Walked)
    requires Forest(s.mem, c) && t in s.mem
    requires HeapFree(s, limit) && FreshFrame(s.brk) + LevelOf(c.loc[t]) - 1 <= limit
    ensures Forest(r.s.mem, r.c) && HeapFree(r.s, limit) && r.c.space == c.space
    ensures FreshFrame(s.brk) <= FreshFrame(r.s.brk) <= FreshFrame(s.brk) + LevelOf(c.loc[t]) - 1
    ensures forall x :: x in c.loc ==> x in r.c.loc && r.c.loc[x] == c.loc[x]
    ensures forall x :: x in s.mem ==> x in r.s.mem
    ensures forall x :: x in r.s.mem ==> x in s.mem || FreshFrame(s.brk) <= x < FreshFrame(r.s.brk)
    ensures r.pt.Some? ==> r.pt.value in r.s.mem && LevelOf(r.c.loc[r.pt.value]) == 1
    decreases LevelOf(c.loc[t])
  {
    var level := LevelOf(c.loc[t]);
    if level == 1 then Walked(s, c, Some(t))
    else
      DescendKeeps(s, c, t, Idx(p, level), create, limit);
      var (s1, u) := Descend(s, t, Idx(p, level), level, create);
      var c1 := DescendCert(c, s, t, Idx(p, level), create);
      if u.None? then Walked(s1, c1, None)
      else GetFrom(s1, c1, u.value, p, create, limit)
  }

  ghost predicate CanWalk(s: State, c: Cert, t: nat, limit: nat)
  {
    && Forest(s.mem, c) && t in s.mem
    && HeapFree(s, limit) && FreshFrame(s.brk) + LevelOf(c.loc[t]) - 1 <= limit
  }

  /** The walk leaves the tables above where it starts alone. */
  lemma {:induction false} GetFromKeeps(s: State, c: Cert, t: nat, p: Page, create: bool, limit: nat, x: nat)
    requires CanWalk(s, c, t, limit) && x in s.mem && LevelOf(c.loc[t]) < LevelOf(c.loc[x])
    ensures var m := GetFrom(s, c, t, p, create, limit).s.mem; x in m && m[x] == s.mem[x]
    decreases LevelOf(c.loc[t])
  {
    var level := LevelOf(c.loc[t]);
    if level > 1 {
      DescendKeeps(s, c, t, Idx(p, level), create, limit);
      var (s1, u) := Descend(s, t, Idx(p, level), level, create);
      var c1 := DescendCert(c, s, t, Idx(p, level), create);
      assert s1.mem[x] == s.mem[x];
      if u.Some? { GetFromKeeps(s1, c1, u.value, p, create, limit, x); }
    }
  }

  /** In a PML4 the walk at most fills an absent slot, and only of the PML4 it starts from. */
  lemma GetFromKeepsTop(s: State, c: Cert, t: nat, p: Page, create: bool, limit: nat, x: nat, i: Index)
    requires CanWalk(s, c, t, limit) && x in s.mem && c.loc[x].L4?
    ensures var m := GetFrom(s, c, t, p, create, limit).s.mem;
            x in m && (x != t || s.mem[x][i].present ==> m[x][i] == s.mem[x][i])
  {
    var level := LevelOf(c.loc[t]);
    if level < 4 {
      GetFromKeeps(s, c, t, p, create, limit, x);
    } else {
      DescendKeeps(s, c, t, Idx(p, level), create, limit);
      var (s1, u) := Descend(s, t, Idx(p, level), level, create);
      if u.Some? { GetFromKeeps(s1, DescendCert(c, s, t, Idx(p, level), create), u.value, p, create, limit, x); }
    }
  }

  /** The walk fails exactly when it may not create and meets an absent entry. */
  lemma {:induction false} GetFromFails(s: State, c: Cert, t: nat, p: Page, create: bool, limit: nat)
    requires CanWalk(s, c, t, limit)
    ensures GetFrom(s, c, t, p, create, limit).pt.None? <==> !create && AbsentAbove(s.mem, t, LevelOf(c.loc[t]), p)
    decreases LevelOf(c.loc[t])
  {
    var level := LevelOf(c.loc[t]);
    if level > 1 {
      var i := Idx(p, level);
      DescendKeeps(s, c, t, i, create, limit);
      var (s1, u) := Descend(s, t, i, level, create);
      if u.Some? { GetFromFails(s1, DescendCert(c, s, t, i, create), u.value, p, create, limit); }
    }
  }

  /** When it does not fail, it ends at the page table the entries now lead to. */
  lemma {:induction false} GetFromFinds(s: State, c: Cert, t: nat, p: Page, create: bool, limit: nat)
    requires CanWalk(s, c, t, limit)
    ensures var r := GetFrom(s, c, t, p, create, limit);
            r.pt.Some? ==> PtFrame(r.s.mem, t, LevelOf(c.loc[t]), p) == r.pt
    decreases LevelOf(c.loc[t])
  {
    var level := LevelOf(c.loc[t]);
    if level > 1 {
      var i := Idx(p, level);
      DescendKeeps(s, c, t, i, create, limit);
      var (s1, u) := Descend(s, t, i, level, create);
      if u.Some? {
        var c1 := DescendCert(c, s, t, i, create);
        GetFromFinds(s1, c1, u.value, p, create, limit);
        GetFromKeeps(s1, c1, u.value, p, create, limit, t);
      }
    }
  }

  /** A walk over existing tables changes nothing, not even the allocator. */
  lemma {:induction false} GetFromIdle(s: State, c: Cert, t: nat, p: Page, create: bool, limit: nat)
    requires CanWalk(s, c, t, limit)
    requires PtFrame(s.mem, t, LevelOf(c.loc[t]), p).Some?
    ensures GetFrom(s, c, t, p, create, limit).s == s
    decreases LevelOf(c.loc[t])
  {
    var level := LevelOf(c.loc[t]);
    if level > 1 {
      DescendKeeps(s, c, t, Idx(p, level), create, limit);
      var (s1, u) := Descend(s, t, Idx(p, level), level, create);
      GetFromIdle(s1, DescendCert(c, s, t, Idx(p, level), create), u.value, p, create, limit);
    }
  }

  /** Walking is invisible: from any table, every page translates as before. */
  lemma {:induction false} GetFromInvisible(s: State, c: Cert, t: nat, p: Page, create: bool, limit: nat,
                                            x: nat, q: Page, acc: Rights)
    requires CanWalk(s, c, t, limit) && x in s.mem
    ensures Walk(GetFrom(s, c, t, p, create, limit).s.mem, x, LevelOf(c.loc[x]), q, acc)
            == Walk(s.mem, x, LevelOf(c.loc[x]), q, acc)
    decreases LevelOf(c.loc[t])
  {
    var level := LevelOf(c.loc[t]);
    if level > 1 {
      DescendKeeps(s, c, t, Idx(p, level), create, limit);
      DescendInvisible(s, c, t, Idx(p, level), create, limit, x, q, acc);
      var (s1, u) := Descend(s, t, Idx(p, level), level, create);
      if u.Some? {
        GetFromInvisible(s1, DescendCert(c, s, t, Idx(p, level), create), u.value, p, create, limit, x, q, acc);
      }
    }
  }
}
