/** map_page and unmap_page on top of the walk: exactly which translations they change. */
module PageOps {
  import opened Options
  import opened Words
  import opened PageEntry
  import opened PageForest
  import opened PageWalk

  /** The place, at each level, of the table a walk for p from PML4 r would use. */
  function Place(c: Cert, r: nat, p: Page, level: nat): Loc
    requires 1 <= level <= 4 && r in c.space && |c.space[r]| == 512
  {
    var s := c.space[r][p.i4];
    if level == 4 then L4(r) else if level == 3 then L3(s, p.i4)
    else if level == 2 then L2(s, p.i4, p.i3) else L1(s, p.i4, p.i3, p.i2)
  }

  /** The table at `target` level that the existing entries lead p to. */
  function TableFor(mem: Mem, t: nat, level: nat, p: Page, target: nat): Option<nat>
    requires 1 <= target <= level <= 4
    decreases level
  {
    if t !in mem then None
    else if level == target then Some(t)
    else
      var e := mem[t][Idx(p, level)];
      if e.present && !IsLeaf(e, level) then TableFor(mem, e.frame, level - 1, p, target) else None
  }

  lemma {:induction false} TableForPt(mem: Mem, t: nat, level: nat, p: Page)
    requires 1 <= level <= 4
    ensures TableFor(mem, t, level, p, 1) == PtFrame(mem, t, level, p)
    decreases level
  {
    if t in mem && level > 1 { TableForPt(mem, mem[t][Idx(p, level)].frame, level - 1, p); }
  }

  /** Every table a walk meets is the one placed there. */
  lemma {:induction false} TableForPlace(mem: Mem, c: Cert, r: nat, t: nat, level: nat, p: Page, target: nat)
    requires Forest(mem, c) && r in c.space && 1 <= target <= level <= 4
    requires t in mem && c.loc[t] == Place(c, r, p, level)
    ensures var u := TableFor(mem, t, level, p, target);
            u.Some? ==> u.value in c.loc && c.loc[u.value] == Place(c, r, p, target)
    decreases level
  {
    if level > target {
      var e := mem[t][Idx(p, level)];
      assert SlotOk(mem, c, t, Idx(p, level));
      if e.present && !IsLeaf(e, level) { TableForPlace(mem, c, r, e.frame, level - 1, p, target); }
    }
  }

  /** Exactly one parent: whichever pages lead two walks from one PML4 to the same
      table, they do so at the same level and through the same entries. */
  lemma OneParent(mem: Mem, c: Cert, r: nat, p: Page, q: Page, a: nat, b: nat)
    requires Forest(mem, c) && r in c.space && 1 <= a <= 4 && 1 <= b <= 4
    requires TableFor(mem, r, 4, p, a).Some? && TableFor(mem, r, 4, p, a) == TableFor(mem, r, 4, q, b)
    ensures a == b && forall level :: a < level <= 4 ==> Idx(p, level) == Idx(q, level)
  {
    TableForPlace(mem, c, r, r, 4, p, a);
    TableForPlace(mem, c, r, r, 4, q, b);
  }

  lemma PtPlace(mem: Mem, c: Cert, r: nat, p: Page)
    requires Forest(mem, c) && r in c.space
    ensures var u := PtFrame(mem, r, 4, p); u.Some? ==> u.value in mem && c.loc[u.value] == Place(c, r, p, 1)
  {
    TableForPt(mem, r, 4, p);
    TableForPlace(mem, c, r, r, 4, p, 1);
  }

  /** Rights gathered from the entries above the page table. */
  function Upper(mem: Mem, t: nat, level: nat, p: Page, acc: Rights): Rights
    requires 1 <= level <= 4
    decreases level
  {
    if level == 1 || t !in mem then acc
    else
      var e := mem[t][Idx(p, level)];
      if e.present && !IsLeaf(e, level) then Upper(mem, e.frame, level - 1, p, Meet(acc, e)) else acc
  }

  /** Through a page table, translation is its entry under the rights above it. */
  lemma {:induction false} WalkThroughPt(mem: Mem, t: nat, level: nat, p: Page, acc: Rights)
    requires 1 <= level <= 4 && PtFrame(mem, t, level, p).Some?
    ensures var pt := PtFrame(mem, t, level, p).value;
            pt in mem && Walk(mem, t, level, p, acc)
              == if mem[pt][p.i1].present then Hit(mem[pt][p.i1].frame, Meet(Upper(mem, t, level, p, acc), mem[pt][p.i1]),
                                                   mem[pt][p.i1].attrs) else Fault
    decreases level
  {
    if level > 1 {
      var e := mem[t][Idx(p, level)];
      WalkThroughPt(mem, e.frame, level - 1, p, Meet(acc, e));
    }
  }

  // ------------------------------------------------------- writing one page table entry

  function SetPte(mem: Mem, pt: nat, i: Index, e: Entry): Mem
    requires pt in mem
  {
    mem[pt := mem[pt][i := e]]
  }

  lemma SetPteForest(mem: Mem, c: Cert, pt: nat, i: Index, e: Entry)
    requires Forest(mem, c) && pt in mem && LevelOf(c.loc[pt]) == 1
    ensures Forest(SetPte(mem, pt, i, e), c)
  {
    var m := SetPte(mem, pt, i, e);
    forall u, j: Index | u in m ensures SlotOk(m, c, u, j) { assert SlotOk(mem, c, u, j); }
  }

  /** A write to (pt, i) is seen by exactly the walks that end there. */
  lemma {:induction false} SetPteWalk(mem: Mem, c: Cert, pt: nat, i: Index, e: Entry,
                                      t: nat, q: Page, acc: Rights)
    requires Forest(mem, c) && pt in mem && LevelOf(c.loc[pt]) == 1 && t in mem
    ensures var level := LevelOf(c.loc[t]);
            var m := SetPte(mem, pt, i, e);
            && PtFrame(m, t, level, q) == PtFrame(mem, t, level, q)
            && Upper(m, t, level, q, acc) == Upper(mem, t, level, q, acc)
            && (q.i1 != i || PtFrame(mem, t, level, q) != Some(pt) ==>
                  Walk(m, t, level, q, acc) == Walk(mem, t, level, q, acc))
    decreases LevelOf(c.loc[t])
  {
    var level := LevelOf(c.loc[t]);
    if level > 1 {
      var f := mem[t][Idx(q, level)];
      assert SlotOk(mem, c, t, Idx(q, level));
      if f.present && !IsLeaf(f, level) { SetPteWalk(mem, c, pt, i, e, f.frame, q, Meet(acc, f)); }
    }
  }

  // ------------------------------------------------------- rights of a new mapping

  /** The rights a walk for p will leave above the page table, read off the tables
      before the walk: a huge page passes on user and no-execute, an absent entry
      is filled without PAGE_USER. */
  function PathRights(mem: Mem, t: nat, level: nat, p: Page, acc: Rights): Rights
    requires 1 <= level <= 4
    decreases level
  {
    if level == 1 || t !in mem then acc
    else
      var e := mem[t][Idx(p, level)];
      if !e.present then Rights(acc.write, false, acc.nx)
      else if IsLeaf(e, level) then Rights(acc.write, acc.user && e.user, acc.nx || e.nx)
      else PathRights(mem, e.frame, level - 1, p, Meet(acc, e))
  }

  /** One level of the walk keeps the rights the path will end up with. */
  lemma DescendRights(s: State, c: Cert, t: nat, p: Page, create: bool, limit: nat, acc: Rights)
    requires Forest(s.mem, c) && t in s.mem && LevelOf(c.loc[t]) > 1
    requires HeapFree(s, limit) && FreshFrame(s.brk) < limit
    requires Descend(s, t, Idx(p, LevelOf(c.loc[t])), LevelOf(c.loc[t]), create).1.Some?
    ensures var level := LevelOf(c.loc[t]);
            var (s', u) := Descend(s, t, Idx(p, level), level, create);
            t in s'.mem
            && PathRights(s'.mem, u.value, level - 1, p, Meet(acc, s'.mem[t][Idx(p, level)]))
               == PathRights(s.mem, t, level, p, acc)
  {
    assert FreshFrame(s.brk) !in s.mem;
  }

  lemma UpperAtPt(mem: Mem, t: nat, p: Page, acc: Rights)
    ensures Upper(mem, t, 1, p, acc) == PathRights(mem, t, 1, p, acc)
  {
  }

  /** The rights above the page table after a walk are what PathRights foretells before it. */
  lemma {:induction false} UpperAfterWalk(s: State, c: Cert, t: nat, p: Page, create: bool, limit: nat, acc: Rights)
    requires CanWalk(s, c, t, limit) && GetFrom(s, c, t, p, create, limit).pt.Some?
    ensures Upper(GetFrom(s, c, t, p, create, limit).s.mem, t, LevelOf(c.loc[t]), p, acc)
            == PathRights(s.mem, t, LevelOf(c.loc[t]), p, acc)
    decreases LevelOf(c.loc[t])
  {
    hide Descend, DescendCert, PathRights, SlotOk;
    var level := LevelOf(c.loc[t]);
    if level == 1 {
      UpperAtPt(s.mem, t, p, acc);
    } else {
      var i := Idx(p, level);
      DescendKeeps(s, c, t, i, create, limit);
      var (s1, u) := Descend(s, t, i, level, create);
      var c1 := DescendCert(c, s, t, i, create);
      GetFromKeeps(s1, c1, u.value, p, create, limit, t);
      DescendRights(s, c, t, p, create, limit, acc);
      UpperAfterWalk(s1, c1, u.value, p, create, limit, Meet(acc, s1.mem[t][i]));
    }
  }

  /** If some table is missing on the way, the path is not open to user mode. */
  lemma {:induction false} MissingTableHidesUser(mem: Mem, t: nat, level: nat, p: Page, acc: Rights)
    requires 1 <= level <= 4 && AbsentAbove(mem, t, level, p)
    ensures !PathRights(mem, t, level, p, acc).user
    decreases level
  {
    var e := mem[t][Idx(p, level)];
    if e.present { MissingTableHidesUser(mem, e.frame, level - 1, p, Meet(acc, e)); }
  }

  // ------------------------------------------------------- address spaces in step

  /** Two PML4s that share the space of a slot hold the same, present, entry there. */
  ghost predicate InStep(mem: Mem, c: Cert)
    requires Forest(mem, c)
  {
    forall r, r', i: Index :: r in c.space && r' in c.space && r != r' && c.space[r][i] == c.space[r'][i] ==>
                                mem[r][i].present && mem[r][i] == mem[r'][i]
  }

  /** Through a shared slot both address spaces translate alike. */
  lemma SharedSlotAgrees(mem: Mem, c: Cert, r: nat, r': nat, p: Page)
    requires Forest(mem, c) && InStep(mem, c) && r in c.space && r' in c.space
    requires c.space[r][p.i4] == c.space[r'][p.i4]
    ensures Translate(mem, r, p) == Translate(mem, r', p)
    ensures PtFrame(mem, r, 4, p) == PtFrame(mem, r', 4, p) && Upper(mem, r, 4, p, ALL) == Upper(mem, r', 4, p, ALL)
  {
    if r != r' { assert mem[r][p.i4] == mem[r'][p.i4]; }
  }

  lemma GetFromInStep(s: State, c: Cert, t: nat, p: Page, create: bool, limit: nat)
    requires CanWalk(s, c, t, limit) && InStep(s.mem, c)
    ensures var w := GetFrom(s, c, t, p, create, limit); InStep(w.s.mem, w.c)
  {
    var w := GetFrom(s, c, t, p, create, limit);
    forall r, r', i: Index | r in w.c.space && r' in w.c.space && r != r' && w.c.space[r][i] == w.c.space[r'][i]
      ensures w.s.mem[r][i].present && w.s.mem[r][i] == w.s.mem[r'][i]
    {
      GetFromKeepsTop(s, c, t, p, create, limit, r, i);
      GetFromKeepsTop(s, c, t, p, create, limit, r', i);
    }
  }

  // ------------------------------------------------------- map_page and unmap_page

  /** map_page: walk with create, then overwrite the page table entry. */
  ghost function MapPage(s: State, c: Cert, root: nat, p: Page, e: Entry, limit: nat): (r: Walked)
    requires CanWalk(s, c, root, limit) && root in c.space
    ensures r.pt.Some? && r.pt.value in r.s.mem
  {
    GetFromFails(s, c, root, p, true, limit);
    var w := GetFrom(s, c, root, p, true, limit);
    w.(s := w.s.(mem := SetPte(w.s.mem, w.pt.value, p.i1, e)))
  }

  lemma SetPteInStep(mem: Mem, c: Cert, pt: nat, i: Index, e: Entry)
    requires Forest(mem, c) && InStep(mem, c) && pt in mem && LevelOf(c.loc[pt]) == 1
    ensures Forest(SetPte(mem, pt, i, e), c) && InStep(SetPte(mem, pt, i, e), c)
  {
    SetPteForest(mem, c, pt, i, e);
  }

  lemma WriteKeeps(s: State, c: Cert, root: nat, p: Page, create: bool, e: Entry, limit: nat)
    requires CanWalk(s, c, root, limit) && root in c.space && InStep(s.mem, c)
    requires GetFrom(s, c, root, p, create, limit).pt.Some?
    ensures var w := GetFrom(s, c, root, p, create, limit);
            var m := SetPte(w.s.mem, w.pt.value, p.i1, e);
            Forest(m, w.c) && InStep(m, w.c) && PtFrame(m, root, 4, p) == w.pt
  {
    hide InStep;
    var w := GetFrom(s, c, root, p, create, limit);
    GetFromInStep(s, c, root, p, create, limit);
    GetFromFinds(s, c, root, p, create, limit);
    SetPteInStep(w.s.mem, w.c, w.pt.value, p.i1, e);
    SetPteWalk(w.s.mem, w.c, w.pt.value, p.i1, e, root, p, ALL);
    PtPlace(w.s.mem, w.c, root, p);
  }

  lemma WriteElsewhere(s: State, c: Cert, root: nat, p: Page, create: bool, e: Entry, limit: nat, r: nat, q: Page)
    requires CanWalk(s, c, root, limit) && root in c.space && r in c.space && InStep(s.mem, c)
    requires GetFrom(s, c, root, p, create, limit).pt.Some?
    requires !(q == p && c.space[r][p.i4] == c.space[root][p.i4])
    ensures var w := GetFrom(s, c, root, p, create, limit);
            Translate(SetPte(w.s.mem, w.pt.value, p.i1, e), r, q) == Translate(s.mem, r, q)
  {
    hide PathRights;
    var w := GetFrom(s, c, root, p, create, limit);
    GetFromInStep(s, c, root, p, create, limit);
    GetFromFinds(s, c, root, p, create, limit);
    GetFromInvisible(s, c, root, p, create, limit, r, q, ALL);
    SetPteWalk(w.s.mem, w.c, w.pt.value, p.i1, e, r, q, ALL);
    PtPlace(w.s.mem, w.c, root, p);
    PtPlace(w.s.mem, w.c, r, q);
  }

  lemma WriteHere(s: State, c: Cert, root: nat, p: Page, create: bool, e: Entry, limit: nat, r: nat)
    requires CanWalk(s, c, root, limit) && root in c.space && r in c.space && InStep(s.mem, c)
    requires GetFrom(s, c, root, p, create, limit).pt.Some? && c.space[r][p.i4] == c.space[root][p.i4]
    ensures var w := GetFrom(s, c, root, p, create, limit);
            Translate(SetPte(w.s.mem, w.pt.value, p.i1, e), r, p)
            == if e.present then Hit(e.frame, Meet(PathRights(s.mem, root, 4, p, ALL), e), e.attrs) else Fault
  {
    hide InStep;
    var w := GetFrom(s, c, root, p, create, limit);
    var m := SetPte(w.s.mem, w.pt.value, p.i1, e);
    WriteKeeps(s, c, root, p, create, e, limit);
    GetFromFinds(s, c, root, p, create, limit);
    SetPteWalk(w.s.mem, w.c, w.pt.value, p.i1, e, root, p, ALL);
    SharedSlotAgrees(m, w.c, r, root, p);
    WalkThroughPt(m, root, 4, p, ALL);
    UpperAfterWalk(s, c, root, p, create, limit, ALL);
  }

  /** The effect of writing entry e for page p after a walk that found its page table. */
  lemma WriteExact(s: State, c: Cert, root: nat, p: Page, create: bool, e: Entry, limit: nat, r: nat, q: Page)
    requires CanWalk(s, c, root, limit) && root in c.space && r in c.space && InStep(s.mem, c)
    requires GetFrom(s, c, root, p, create, limit).pt.Some?
    ensures var w := GetFrom(s, c, root, p, create, limit);
            var m := SetPte(w.s.mem, w.pt.value, p.i1, e);
            && Forest(m, w.c) && InStep(m, w.c)
            && PtFrame(m, root, 4, p) == w.pt
            && Translate(m, r, q)
               == if q == p && c.space[r][p.i4] == c.space[root][p.i4]
                  then if e.present then Hit(e.frame, Meet(PathRights(s.mem, root, 4, p, ALL), e), e.attrs) else Fault
                  else Translate(s.mem, r, q)
  {
    hide GetFrom, SetPte, Translate, PathRights, InStep, PtFrame;
    WriteKeeps(s, c, root, p, create, e, limit);
    if q == p && c.space[r][p.i4] == c.space[root][p.i4] {
      WriteHere(s, c, root, p, create, e, limit, r);
    } else {
      WriteElsewhere(s, c, root, p, create, e, limit, r, q);
    }
  }

  /** Walking is invisible: whatever the walk created or split, every page of every
      address space translates as before, and all invariants hold. */
  lemma WalkingIsInvisible(s: State, c: Cert, root: nat, p: Page, create: bool, limit: nat, r: nat, q: Page)
    requires CanWalk(s, c, root, limit) && root in c.space && r in c.space && InStep(s.mem, c)
    ensures var w := GetFrom(s, c, root, p, create, limit);
            Forest(w.s.mem, w.c) && InStep(w.s.mem, w.c) && Translate(w.s.mem, r, q) == Translate(s.mem, r, q)
  {
    GetFromInStep(s, c, root, p, create, limit);
    GetFromInvisible(s, c, root, p, create, limit, r, q, ALL);
  }

  /** map_page changes one page, in the address spaces that share its slot, and makes
      it resolve to the frame and rights of the entry under the path's rights. */
  lemma MapPageExact(s: State, c: Cert, root: nat, p: Page, e: Entry, limit: nat, r: nat, q: Page)
    requires CanWalk(s, c, root, limit) && root in c.space && r in c.space && InStep(s.mem, c) && e.present
    ensures var w := MapPage(s, c, root, p, e, limit);
            && Forest(w.s.mem, w.c) && InStep(w.s.mem, w.c)
            && Translate(w.s.mem, r, q)
               == if q == p && c.space[r][p.i4] == c.space[root][p.i4]
                  then Hit(e.frame, Meet(PathRights(s.mem, root, 4, p, ALL), e), e.attrs)
                  else Translate(s.mem, r, q)
  {
    GetFromFails(s, c, root, p, true, limit);
    WriteExact(s, c, root, p, true, e, limit, r, q);
  }

  /** Every entry above the page table, down to a huge page if there is one, is there and
      grants user access. */
  predicate PathOpen(mem: Mem, t: nat, level: nat, p: Page)
    requires 1 <= level <= 4
    decreases level
  {
    level == 1 ||
    (t in mem &&
     var e := mem[t][Idx(p, level)];
     e.present && e.user && (IsLeaf(e, level) || PathOpen(mem, e.frame, level - 1, p)))
  }

  /** No entry above the page table that is there withholds write access. A missing table will
      be made writable, and so will the table that replaces a huge page. */
  predicate PathWrites(mem: Mem, t: nat, level: nat, p: Page)
    requires 1 <= level <= 4
    decreases level
  {
    level == 1 ||
    (t in mem &&
     var e := mem[t][Idx(p, level)];
     !e.present || IsLeaf(e, level) || (e.write && PathWrites(mem, e.frame, level - 1, p)))
  }

  /** Some entry above the page table, down to a huge page if there is one, forbids execution. */
  predicate PathNx(mem: Mem, t: nat, level: nat, p: Page)
    requires 1 <= level <= 4
    decreases level
  {
    level > 1 && t in mem &&
    var e := mem[t][Idx(p, level)];
    e.present && (e.nx || (!IsLeaf(e, level) && PathNx(mem, e.frame, level - 1, p)))
  }

  /** The rights a walk will leave, read off the path as it is. */
  lemma {:induction false} PathGrants(mem: Mem, c: Cert, t: nat, p: Page, acc: Rights)
    requires Forest(mem, c) && t in mem
    ensures var level, r := LevelOf(c.loc[t]), PathRights(mem, t, LevelOf(c.loc[t]), p, acc);
            && (r.user <==> acc.user && PathOpen(mem, t, level, p))
            && (r.write <==> acc.write && PathWrites(mem, t, level, p))
            && (r.nx <==> acc.nx || PathNx(mem, t, level, p))
    decreases LevelOf(c.loc[t])
  {
    var level := LevelOf(c.loc[t]);
    if level > 1 {
      var e := mem[t][Idx(p, level)];
      assert SlotOk(mem, c, t, Idx(p, level));
      if e.present && !IsLeaf(e, level) { PathGrants(mem, c, e.frame, p, Meet(acc, e)); }
    }
  }

  /** What a mapped page may be used for, read off the tables before: writing if the path and
      the entry allow it, user access if the path was open and the entry allows it, and no
      execution if anything on the path or the entry forbids it. */
  lemma MappedRights(s: State, c: Cert, root: nat, p: Page, e: Entry, limit: nat)
    requires CanWalk(s, c, root, limit) && root in c.space && InStep(s.mem, c) && e.present
    ensures var x := Translate(MapPage(s, c, root, p, e, limit).s.mem, root, p);
            && x.Hit? && x.frame == e.frame && x.attrs == e.attrs
            && (x.rights.write <==> PathWrites(s.mem, root, 4, p) && e.write)
            && (x.rights.user <==> PathOpen(s.mem, root, 4, p) && e.user)
            && (x.rights.nx <==> PathNx(s.mem, root, 4, p) || e.nx)
  {
    MapPageExact(s, c, root, p, e, limit, root, p);
    PathGrants(s.mem, c, root, p, ALL);
  }

  /** x maps page p to `frame` as the caller's two flags ask for, as far as the tables mem above
      it let them. */
  predicate MappedAs(x: Xlat, mem: Mem, root: nat, p: Page, frame: nat, kernel: bool, writeable: bool)
  {
    && x.Hit? && x.frame == frame && x.attrs == {}
    && (x.rights.write <==> PathWrites(mem, root, 4, p) && writeable)
    && (x.rights.user <==> PathOpen(mem, root, 4, p) && !kernel)
    && (x.rights.nx <==> PathNx(mem, root, 4, p))
  }

  /** A user mapping is usable from user mode if and only if every entry on the way was
      there before and grants user access. */
  lemma UserMappingVisible(s: State, c: Cert, root: nat, p: Page, e: Entry, limit: nat)
    requires CanWalk(s, c, root, limit) && root in c.space && InStep(s.mem, c) && e.present && e.user
    ensures var x := Translate(MapPage(s, c, root, p, e, limit).s.mem, root, p);
            x.Hit? && (x.rights.user <==> PathOpen(s.mem, root, 4, p))
  {
    MappedRights(s, c, root, p, e, limit);
  }

  /** unmap_page: the state after it and the address it returns. */
  ghost function UnmapPage(s: State, c: Cert, root: nat, p: Page, limit: nat): (r: (Walked, nat))
    requires CanWalk(s, c, root, limit) && root in c.space
  {
    var w := GetFrom(s, c, root, p, false, limit);
    if w.pt.None? || !w.s.mem[w.pt.value][p.i1].present then (w, 0)
    else (w.(s := w.s.(mem := SetPte(w.s.mem, w.pt.value, p.i1, EMPTY))), w.s.mem[w.pt.value][p.i1].frame * PAGE)
  }

  /** An absent entry above the page table is a fault. */
  lemma {:induction false} AbsentFaults(mem: Mem, t: nat, level: nat, p: Page, acc: Rights)
    requires 1 <= level <= 4 && AbsentAbove(mem, t, level, p)
    ensures Walk(mem, t, level, p, acc) == Fault
    decreases level
  {
    var e := mem[t][Idx(p, level)];
    if e.present { AbsentFaults(mem, e.frame, level - 1, p, Meet(acc, e)); }
  }

  /** unmap_page returns the address the page resolved to, or 0 if it did not, and
      removes that page only, even out of the middle of a huge page. */
  lemma UnmapPageExact(s: State, c: Cert, root: nat, p: Page, limit: nat, r: nat, q: Page)
    requires CanWalk(s, c, root, limit) && root in c.space && r in c.space && InStep(s.mem, c)
    ensures var (w, addr) := UnmapPage(s, c, root, p, limit);
            var x := Translate(s.mem, root, p);
            && Forest(w.s.mem, w.c) && InStep(w.s.mem, w.c)
            && addr == (if x.Hit? then x.frame * PAGE else 0)
            && Translate(w.s.mem, r, q)
               == if q == p && c.space[r][p.i4] == c.space[root][p.i4] then Fault else Translate(s.mem, r, q)
  {
    var w := GetFrom(s, c, root, p, false, limit);
    WalkingIsInvisible(s, c, root, p, false, limit, r, q);
    WalkingIsInvisible(s, c, root, p, false, limit, root, p);
    if w.pt.None? {
      GetFromFails(s, c, root, p, false, limit);
      AbsentFaults(s.mem, root, 4, p, ALL);
      if c.space[r][p.i4] == c.space[root][p.i4] { SharedSlotAgrees(s.mem, c, r, root, p); }
    } else {
      GetFromFinds(s, c, root, p, false, limit);
      WalkThroughPt(w.s.mem, root, 4, p, ALL);
      if w.s.mem[w.pt.value][p.i1].present {
        WriteExact(s, c, root, p, false, EMPTY, limit, r, q);
      } else if c.space[r][p.i4] == c.space[root][p.i4] {
        SharedSlotAgrees(w.s.mem, w.c, r, root, p);
      }
    }
  }

  /** A return of 0 means "was not mapped" except for a page mapped to physical frame 0. */
  lemma UnmapZeroMeans(s: State, c: Cert, root: nat, p: Page, limit: nat)
    requires CanWalk(s, c, root, limit) && root in c.space && InStep(s.mem, c)
    ensures var x := Translate(s.mem, root, p);
            (UnmapPage(s, c, root, p, limit).1 == 0 <==> x == Fault) <==> !(x.Hit? && x.frame == 0)
  {
    UnmapPageExact(s, c, root, p, limit, root, p);
  }
}
