/** map_physical_range: fill in the direct-map pages of a physical range, never
    overwriting one that is already there. */
module PageRange {
  import opened Options
  import opened PageEntry
  import opened PageForest
  import opened PageWalk
  import opened PageOps
  import opened PageRuns

  /** A failed walk changes nothing. */
  lemma {:induction false} FailedWalkIdle(s: State, c: Cert, t: nat, p: Page, create: bool, limit: nat)
    requires CanWalk(s, c, t, limit) && GetFrom(s, c, t, p, create, limit).pt.None?
    ensures GetFrom(s, c, t, p, create, limit).s == s
    decreases LevelOf(c.loc[t])
  {
    var level := LevelOf(c.loc[t]);
    DescendKeeps(s, c, t, Idx(p, level), create, limit);
    GetFromFails(s, c, t, p, create, limit);
    var (s1, u) := Descend(s, t, Idx(p, level), level, create);
    if u.Some? { FailedWalkIdle(s1, DescendCert(c, s, t, Idx(p, level), create), u.value, p, create, limit); }
  }

  /** One level of somebody's walk does not take away a page table that was there. */
  lemma {:induction false} DescendKeepsPt(s: State, c: Cert, t: nat, i: Index, create: bool, limit: nat, x: nat, q: Page)
    requires Forest(s.mem, c) && t in s.mem && LevelOf(c.loc[t]) > 1 && x in s.mem
    requires HeapFree(s, limit) && FreshFrame(s.brk) < limit
    requires PtFrame(s.mem, x, LevelOf(c.loc[x]), q).Some?
    ensures PtFrame(Descend(s, t, i, LevelOf(c.loc[t]), create).0.mem, x, LevelOf(c.loc[x]), q)
            == PtFrame(s.mem, x, LevelOf(c.loc[x]), q)
    decreases LevelOf(c.loc[x])
  {
    var level := LevelOf(c.loc[x]);
    DescendKeeps(s, c, t, i, create, limit);
    if level > 1 {
      assert SlotOk(s.mem, c, x, Idx(q, level));
      DescendKeepsPt(s, c, t, i, create, limit, s.mem[x][Idx(q, level)].frame, q);
    }
  }

  lemma {:induction false} GetFromKeepsPt(s: State, c: Cert, t: nat, p: Page, create: bool, limit: nat, x: nat, q: Page)
    requires CanWalk(s, c, t, limit) && x in s.mem
    requires PtFrame(s.mem, x, LevelOf(c.loc[x]), q).Some?
    ensures PtFrame(GetFrom(s, c, t, p, create, limit).s.mem, x, LevelOf(c.loc[x]), q)
            == PtFrame(s.mem, x, LevelOf(c.loc[x]), q)
    decreases LevelOf(c.loc[t])
  {
    var level := LevelOf(c.loc[t]);
    if level > 1 {
      DescendKeeps(s, c, t, Idx(p, level), create, limit);
      DescendKeepsPt(s, c, t, Idx(p, level), create, limit, x, q);
      var (s1, u) := Descend(s, t, Idx(p, level), level, create);
      if u.Some? {
        GetFromKeepsPt(s1, DescendCert(c, s, t, Idx(p, level), create), u.value, p, create, limit, x, q);
      }
    }
  }

  // ------------------------------------------------------------- one page of the range

  /** The body of the loop: look without creating, skip if present, else map. */
  ghost function FillPage(s: State, c: Cert, root: nat, p: Page, e: Entry, limit: nat): (r: Walked)
    requires CanWalk(s, c, root, limit) && root in c.space && FreshFrame(s.brk) + 6 <= limit
  {
    var w := GetFrom(s, c, root, p, false, limit);
    if w.pt.Some? && w.s.mem[w.pt.value][p.i1].present then w
    else MapPage(w.s, w.c, root, p, e, limit)
  }

  /** The page already resolves through a page table. */
  predicate Filled(mem: Mem, root: nat, p: Page) { PtFrame(mem, root, 4, p).Some? && Translate(mem, root, p).Hit? }

  /** Filling a page allocates at most three tables. */
  lemma FillPageCost(s: State, c: Cert, root: nat, p: Page, e: Entry, limit: nat)
    requires CanWalk(s, c, root, limit) && root in c.space && FreshFrame(s.brk) + 6 <= limit
    ensures var r := FillPage(s, c, root, p, e, limit);
            FreshFrame(r.s.brk) <= FreshFrame(s.brk) + 3 && HeapFree(r.s, limit) && r.c.space == c.space
  {
    var w := GetFrom(s, c, root, p, false, limit);
    if w.pt.None? {
      FailedWalkIdle(s, c, root, p, false, limit);
    } else {
      GetFromFinds(s, c, root, p, false, limit);
      GetFromIdle(w.s, w.c, root, p, true, limit);
    }
  }

  /** Filling a page maps it if it did not resolve, and changes nothing else. */
  lemma FillPageExact(s: State, c: Cert, root: nat, p: Page, e: Entry, limit: nat, r: nat, q: Page)
    requires CanWalk(s, c, root, limit) && root in c.space && r in c.space && InStep(s.mem, c)
    requires FreshFrame(s.brk) + 6 <= limit && e.present
    ensures var f := FillPage(s, c, root, p, e, limit);
            && Forest(f.s.mem, f.c) && InStep(f.s.mem, f.c) && Filled(f.s.mem, root, p)
            && Translate(f.s.mem, r, q)
               == if Translate(s.mem, root, p) == Fault && q == p && c.space[r][p.i4] == c.space[root][p.i4]
                  then Hit(e.frame, Meet(PathRights(s.mem, root, 4, p, ALL), e), e.attrs)
                  else Translate(s.mem, r, q)
  {
    var w := GetFrom(s, c, root, p, false, limit);
    WalkingIsInvisible(s, c, root, p, false, limit, r, q);
    WalkingIsInvisible(s, c, root, p, false, limit, root, p);
    if w.pt.None? {
      FailedWalkIdle(s, c, root, p, false, limit);
      GetFromFails(s, c, root, p, false, limit);
      AbsentFaults(s.mem, root, 4, p, ALL);
      FillByMap(w, root, p, e, limit, r, q);
    } else {
      GetFromFinds(s, c, root, p, false, limit);
      WalkThroughPt(w.s.mem, root, 4, p, ALL);
      if !w.s.mem[w.pt.value][p.i1].present {
        FillByMap(w, root, p, e, limit, r, q);
        WalkKeepsPathRights(s, c, root, p, limit);
      }
    }
  }

  lemma FillPageFills(s: State, c: Cert, root: nat, p: Page, e: Entry, limit: nat)
    requires CanWalk(s, c, root, limit) && root in c.space && InStep(s.mem, c)
    requires FreshFrame(s.brk) + 6 <= limit && e.present
    ensures Filled(FillPage(s, c, root, p, e, limit).s.mem, root, p)
  {
    FillPageExact(s, c, root, p, e, limit, root, p);
  }

  lemma FillByMap(w: Walked, root: nat, p: Page, e: Entry, limit: nat, r: nat, q: Page)
    requires CanWalk(w.s, w.c, root, limit) && root in w.c.space && r in w.c.space && InStep(w.s.mem, w.c) && e.present
    ensures var f := MapPage(w.s, w.c, root, p, e, limit);
            && Forest(f.s.mem, f.c) && InStep(f.s.mem, f.c) && Filled(f.s.mem, root, p)
            && Translate(f.s.mem, r, q)
               == if q == p && w.c.space[r][p.i4] == w.c.space[root][p.i4]
                  then Hit(e.frame, Meet(PathRights(w.s.mem, root, 4, p, ALL), e), e.attrs)
                  else Translate(w.s.mem, r, q)
  {
    GetFromFails(w.s, w.c, root, p, true, limit);
    WriteExact(w.s, w.c, root, p, true, e, limit, r, q);
    WriteExact(w.s, w.c, root, p, true, e, limit, root, p);
  }

  /** A walk that reaches the page table leaves the path's rights as they will be. */
  lemma WalkKeepsPathRights(s: State, c: Cert, root: nat, p: Page, limit: nat)
    requires CanWalk(s, c, root, limit) && root in c.space && GetFrom(s, c, root, p, false, limit).pt.Some?
    ensures PathRights(GetFrom(s, c, root, p, false, limit).s.mem, root, 4, p, ALL) == PathRights(s.mem, root, 4, p, ALL)
  {
    var w := GetFrom(s, c, root, p, false, limit);
    UpperAfterWalk(s, c, root, p, false, limit, ALL);
    GetFromFinds(s, c, root, p, false, limit);
    UpperIsPathRights(w.s.mem, root, 4, p, ALL);
  }

  lemma {:induction false} UpperIsPathRights(mem: Mem, t: nat, level: nat, p: Page, acc: Rights)
    requires 1 <= level <= 4 && PtFrame(mem, t, level, p).Some?
    ensures Upper(mem, t, level, p, acc) == PathRights(mem, t, level, p, acc)
    decreases level
  {
    if level > 1 {
      var e := mem[t][Idx(p, level)];
      UpperIsPathRights(mem, e.frame, level - 1, p, Meet(acc, e));
    }
  }

  /** A filled page stays filled while other pages are filled. */
  lemma FillPageKeepsFilled(s: State, c: Cert, root: nat, p: Page, e: Entry, limit: nat, q: Page)
    requires CanWalk(s, c, root, limit) && root in c.space && InStep(s.mem, c)
    requires FreshFrame(s.brk) + 6 <= limit && e.present && Filled(s.mem, root, q)
    ensures Filled(FillPage(s, c, root, p, e, limit).s.mem, root, q)
  {
    FillPageExact(s, c, root, p, e, limit, root, q);
    var w := GetFrom(s, c, root, p, false, limit);
    GetFromKeepsPt(s, c, root, p, false, limit, root, q);
    if !(w.pt.Some? && w.s.mem[w.pt.value][p.i1].present) {
      GetFromFails(w.s, w.c, root, p, true, limit);
      GetFromKeepsPt(w.s, w.c, root, p, true, limit, root, q);
      var v := GetFrom(w.s, w.c, root, p, true, limit);
      SetPteWalk(v.s.mem, v.c, v.pt.value, p.i1, e, root, q, ALL);
    }
  }

  // ------------------------------------------------------------- the range

  /** The entry map_page writes for a direct-map page of frame f. */
  function DirectEntry(f: nat, kernel: bool, writeable: bool): Entry
  {
    Entry(true, writeable, !kernel, false, false, f, {})
  }

  ghost predicate CanFill(s: State, c: Cert, root: nat, env: Env, n: nat)
  {
    && CanWalk(s, c, root, env.limit) && root in c.space && InStep(s.mem, c)
    && FreshFrame(s.brk) + 3 * n + 3 <= env.limit
  }

  /** The loop of map_physical_range over n frames from `start`. */
  ghost function FillRange(s: State, c: Cert, root: nat, env: Env, start: nat, n: nat, kernel: bool, writeable: bool): (r: Walked)
    requires CanFill(s, c, root, env, n)
    ensures CanFill(r.s, r.c, root, env, 0) && r.c.space == c.space
    decreases n
  {
    if n == 0 then Walked(s, c, None)
    else
      var w := FillPage(s, c, root, env.dm(start), DirectEntry(start, kernel, writeable), env.limit);
      FillStep(s, c, root, env, start, n, kernel, writeable);
      FillRange(w.s, w.c, root, env, start + 1, n - 1, kernel, writeable)
  }

  lemma FillStep(s: State, c: Cert, root: nat, env: Env, start: nat, n: nat, kernel: bool, writeable: bool)
    requires CanFill(s, c, root, env, n) && n > 0
    ensures var w := FillPage(s, c, root, env.dm(start), DirectEntry(start, kernel, writeable), env.limit);
            CanFill(w.s, w.c, root, env, n - 1) && w.c.space == c.space
  {
    FillPageCost(s, c, root, env.dm(start), DirectEntry(start, kernel, writeable), env.limit);
    FillPageExact(s, c, root, env.dm(start), DirectEntry(start, kernel, writeable), env.limit, root, env.dm(start));
  }

  lemma FillKeepsHit(s: State, c: Cert, root: nat, env: Env, k: nat, kernel: bool, writeable: bool, r: nat, q: Page)
    requires CanFill(s, c, root, env, 1) && r in c.space
    requires Translate(s.mem, r, q).Hit? || q != env.dm(k)
    ensures var w := FillPage(s, c, root, env.dm(k), DirectEntry(k, kernel, writeable), env.limit);
            Translate(w.s.mem, r, q) == Translate(s.mem, r, q)
  {
    FillPageExact(s, c, root, env.dm(k), DirectEntry(k, kernel, writeable), env.limit, r, q);
    if q == env.dm(k) && c.space[r][q.i4] == c.space[root][q.i4] { SharedSlotAgrees(s.mem, c, r, root, q); }
  }

  /** Never overwrites: an address that resolved resolves as before, in every address space. */
  lemma {:induction false} RangeKeepsHits(s: State, c: Cert, root: nat, env: Env, start: nat, n: nat,
                                          kernel: bool, writeable: bool, r: nat, q: Page)
    requires CanFill(s, c, root, env, n) && r in c.space
    requires Translate(s.mem, r, q).Hit? || forall k :: start <= k < start + n ==> q != env.dm(k)
    ensures Translate(FillRange(s, c, root, env, start, n, kernel, writeable).s.mem, r, q) == Translate(s.mem, r, q)
    decreases n
  {
    hide FillPage, Translate, InStep, CanWalk, DirectEntry;
    if n > 0 {
      var w := FillPage(s, c, root, env.dm(start), DirectEntry(start, kernel, writeable), env.limit);
      FillStep(s, c, root, env, start, n, kernel, writeable);
      FillKeepsHit(s, c, root, env, start, kernel, writeable, r, q);
      RangeKeepsHits(w.s, w.c, root, env, start + 1, n - 1, kernel, writeable, r, q);
    }
  }

  lemma {:induction false} RangeKeepsFilled(s: State, c: Cert, root: nat, env: Env, start: nat, n: nat,
                                            kernel: bool, writeable: bool, q: Page)
    requires CanFill(s, c, root, env, n) && Filled(s.mem, root, q)
    ensures Filled(FillRange(s, c, root, env, start, n, kernel, writeable).s.mem, root, q)
    decreases n
  {
    hide Filled, FillPage;
    if n > 0 {
      var e := DirectEntry(start, kernel, writeable);
      var w := FillPage(s, c, root, env.dm(start), e, env.limit);
      FillStep(s, c, root, env, start, n, kernel, writeable);
      FillPageKeepsFilled(s, c, root, env.dm(start), e, env.limit, q);
      RangeKeepsFilled(w.s, w.c, root, env, start + 1, n - 1, kernel, writeable, q);
    }
  }

  /** Fills in: afterwards every page of the range resolves through a page table. */
  lemma {:induction false} RangeFills(s: State, c: Cert, root: nat, env: Env, start: nat, n: nat,
                                      kernel: bool, writeable: bool, k: nat)
    requires CanFill(s, c, root, env, n) && start <= k < start + n
    ensures Filled(FillRange(s, c, root, env, start, n, kernel, writeable).s.mem, root, env.dm(k))
    decreases n
  {
    hide Filled, FillPage;
    var e := DirectEntry(start, kernel, writeable);
    var w := FillPage(s, c, root, env.dm(start), e, env.limit);
    FillStep(s, c, root, env, start, n, kernel, writeable);
    if k == start {
      FillPageFills(s, c, root, env.dm(start), e, env.limit);
      RangeKeepsFilled(w.s, w.c, root, env, start + 1, n - 1, kernel, writeable, env.dm(k));
    } else {
      RangeFills(w.s, w.c, root, env, start + 1, n - 1, kernel, writeable, k);
    }
  }

  /** Direct-map pages that resolve at all resolve to their own frame. */
  ghost predicate DirectMapTrue(mem: Mem, root: nat, env: Env)
  {
    forall f :: 0 <= f < env.top ==>
      Translate(mem, root, env.dm(f)).Hit? ==> Translate(mem, root, env.dm(f)).frame == f
  }

  lemma FillKeepsDirectMap(s: State, c: Cert, root: nat, env: Env, f: nat, kernel: bool, writeable: bool)
    requires CanFill(s, c, root, env, 1) && DirectMap(env) && f < env.top && DirectMapTrue(s.mem, root, env)
    ensures DirectMapTrue(FillPage(s, c, root, env.dm(f), DirectEntry(f, kernel, writeable), env.limit).s.mem, root, env)
  {
    var e := DirectEntry(f, kernel, writeable);
    var m := FillPage(s, c, root, env.dm(f), e, env.limit).s.mem;
    forall g | 0 <= g < env.top && Translate(m, root, env.dm(g)).Hit?
      ensures Translate(m, root, env.dm(g)).frame == g
    {
      FillPageExact(s, c, root, env.dm(f), e, env.limit, root, env.dm(g));
    }
  }

  /** The direct map stays true. */
  lemma {:induction false} RangeKeepsDirectMap(s: State, c: Cert, root: nat, env: Env, start: nat, n: nat,
                                               kernel: bool, writeable: bool)
    requires CanFill(s, c, root, env, n) && DirectMap(env) && start + n <= env.top
    requires DirectMapTrue(s.mem, root, env)
    ensures DirectMapTrue(FillRange(s, c, root, env, start, n, kernel, writeable).s.mem, root, env)
    decreases n
  {
    hide DirectMapTrue, FillPage, DirectMap;
    if n > 0 {
      var w := FillPage(s, c, root, env.dm(start), DirectEntry(start, kernel, writeable), env.limit);
      FillStep(s, c, root, env, start, n, kernel, writeable);
      FillKeepsDirectMap(s, c, root, env, start, kernel, writeable);
      RangeKeepsDirectMap(w.s, w.c, root, env, start + 1, n - 1, kernel, writeable);
    }
  }

  /** After map_physical_range every frame of the range resolves at its direct-map page. */
  lemma RangeResolves(s: State, c: Cert, root: nat, env: Env, start: nat, n: nat, kernel: bool, writeable: bool, k: nat)
    requires CanFill(s, c, root, env, n) && DirectMap(env) && start <= k < start + n <= env.top
    requires DirectMapTrue(s.mem, root, env)
    ensures var x := Translate(FillRange(s, c, root, env, start, n, kernel, writeable).s.mem, root, env.dm(k));
            x.Hit? && x.frame == k
  {
    RangeFills(s, c, root, env, start, n, kernel, writeable, k);
    RangeKeepsDirectMap(s, c, root, env, start, n, kernel, writeable);
  }

  // ------------------------------------------------------------- rights of the filled pages

  /** Filling or splitting the slot itself leaves the rights of the path through it. */
  lemma SlotKeepsRights(s: State, c: Cert, t: nat, create: bool, limit: nat, q: Page, acc: Rights)
    requires Forest(s.mem, c) && t in s.mem && LevelOf(c.loc[t]) > 1
    requires HeapFree(s, limit) && FreshFrame(s.brk) < limit
    ensures var level := LevelOf(c.loc[t]);
            PathRights(Descend(s, t, Idx(q, level), level, create).0.mem, t, level, q, acc) == PathRights(s.mem, t, level, q, acc)
  {
    var level := LevelOf(c.loc[t]);
    assert FreshFrame(s.brk) !in s.mem;
    var m := Descend(s, t, Idx(q, level), level, create).0.mem;
    var e := m[t][Idx(q, level)];
    assert m != s.mem ==> PathRights(m, t, level, q, acc) == PathRights(m, e.frame, level - 1, q, Meet(acc, e));
  }

  /** What one level of somebody's walk does leaves the rights of every path as they were
      going to be. */
  lemma {:induction false} DescendKeepsRights(s: State, c: Cert, t: nat, i: Index, create: bool, limit: nat,
                                              x: nat, q: Page, acc: Rights)
    requires Forest(s.mem, c) && t in s.mem && LevelOf(c.loc[t]) > 1 && x in s.mem
    requires HeapFree(s, limit) && FreshFrame(s.brk) < limit
    ensures PathRights(Descend(s, t, i, LevelOf(c.loc[t]), create).0.mem, x, LevelOf(c.loc[x]), q, acc)
            == PathRights(s.mem, x, LevelOf(c.loc[x]), q, acc)
    decreases LevelOf(c.loc[x])
  {
    hide Descend;
    var level := LevelOf(c.loc[x]);
    DescendKeeps(s, c, t, i, create, limit);
    DescendSameBut(s, c, t, i, create, limit);
    if x == t && Idx(q, level) == i {
      SlotKeepsRights(s, c, t, create, limit, q, acc);
    } else if level > 1 {
      var e := s.mem[x][Idx(q, level)];
      assert SlotOk(s.mem, c, x, Idx(q, level));
      if e.present && !IsLeaf(e, level) { DescendKeepsRights(s, c, t, i, create, limit, e.frame, q, Meet(acc, e)); }
    }
  }

  lemma DescendSameBut(s: State, c: Cert, t: nat, i: Index, create: bool, limit: nat)
    requires Forest(s.mem, c) && t in s.mem && LevelOf(c.loc[t]) > 1
    requires HeapFree(s, limit) && FreshFrame(s.brk) < limit
    ensures SameBut(s.mem, Descend(s, t, i, LevelOf(c.loc[t]), create).0.mem, t, i)
  {
    assert FreshFrame(s.brk) !in s.mem;
  }

  lemma {:induction false} GetFromKeepsRights(s: State, c: Cert, t: nat, p: Page, create: bool, limit: nat,
                                              x: nat, q: Page, acc: Rights)
    requires CanWalk(s, c, t, limit) && x in s.mem
    ensures PathRights(GetFrom(s, c, t, p, create, limit).s.mem, x, LevelOf(c.loc[x]), q, acc)
            == PathRights(s.mem, x, LevelOf(c.loc[x]), q, acc)
    decreases LevelOf(c.loc[t])
  {
    hide PathRights;
    var level := LevelOf(c.loc[t]);
    if level > 1 {
      DescendKeeps(s, c, t, Idx(p, level), create, limit);
      DescendKeepsRights(s, c, t, Idx(p, level), create, limit, x, q, acc);
      var (s1, u) := Descend(s, t, Idx(p, level), level, create);
      if u.Some? {
        GetFromKeepsRights(s1, DescendCert(c, s, t, Idx(p, level), create), u.value, p, create, limit, x, q, acc);
      }
    }
  }

  lemma {:induction false} SetPteKeepsRights(mem: Mem, c: Cert, pt: nat, i: Index, e: Entry, x: nat, q: Page, acc: Rights)
    requires Forest(mem, c) && pt in mem && LevelOf(c.loc[pt]) == 1 && x in mem
    ensures PathRights(SetPte(mem, pt, i, e), x, LevelOf(c.loc[x]), q, acc) == PathRights(mem, x, LevelOf(c.loc[x]), q, acc)
    decreases LevelOf(c.loc[x])
  {
    var level := LevelOf(c.loc[x]);
    if level > 1 {
      var f := mem[x][Idx(q, level)];
      assert SlotOk(mem, c, x, Idx(q, level));
      if f.present && !IsLeaf(f, level) { SetPteKeepsRights(mem, c, pt, i, e, f.frame, q, Meet(acc, f)); }
    }
  }

  lemma FillKeepsRights(s: State, c: Cert, root: nat, p: Page, e: Entry, limit: nat, q: Page)
    requires CanWalk(s, c, root, limit) && root in c.space && FreshFrame(s.brk) + 6 <= limit
    ensures PathRights(FillPage(s, c, root, p, e, limit).s.mem, root, 4, q, ALL) == PathRights(s.mem, root, 4, q, ALL)
  {
    hide PathRights;
    GetFromKeepsRights(s, c, root, p, false, limit, root, q, ALL);
    var w := GetFrom(s, c, root, p, false, limit);
    if !(w.pt.Some? && w.s.mem[w.pt.value][p.i1].present) {
      GetFromFails(w.s, w.c, root, p, true, limit);
      GetFromKeepsRights(w.s, w.c, root, p, true, limit, root, q, ALL);
      var v := GetFrom(w.s, w.c, root, p, true, limit);
      SetPteKeepsRights(v.s.mem, v.c, v.pt.value, p.i1, e, root, q, ALL);
    }
  }

  lemma FirstRights(s: State, c: Cert, root: nat, env: Env, k: nat, n: nat, kernel: bool, writeable: bool)
    requires CanFill(s, c, root, env, n) && 0 < n && Translate(s.mem, root, env.dm(k)) == Fault
    ensures Translate(FillRange(s, c, root, env, k, n, kernel, writeable).s.mem, root, env.dm(k))
            == Hit(k, Meet(PathRights(s.mem, root, 4, env.dm(k), ALL), DirectEntry(k, kernel, writeable)), {})
  {
    hide FillPage, PathRights, Translate, InStep, CanWalk, Meet, Filled;
    var p, e := env.dm(k), DirectEntry(k, kernel, writeable);
    var w := FillPage(s, c, root, p, e, env.limit);
    FillStep(s, c, root, env, k, n, kernel, writeable);
    FillPageExact(s, c, root, p, e, env.limit, root, p);
    RangeKeepsHits(w.s, w.c, root, env, k + 1, n - 1, kernel, writeable, root, p);
  }

  lemma FillKeepsFault(s: State, c: Cert, root: nat, p: Page, e: Entry, limit: nat, q: Page)
    requires CanWalk(s, c, root, limit) && root in c.space && InStep(s.mem, c) && FreshFrame(s.brk) + 6 <= limit && e.present
    requires Translate(s.mem, root, q) == Fault && q != p
    ensures Translate(FillPage(s, c, root, p, e, limit).s.mem, root, q) == Fault
  {
    hide FillPage, Translate, InStep, CanWalk;
    FillPageExact(s, c, root, p, e, limit, root, q);
  }

  /** A page of the range that did not resolve before the call resolves to its frame, under the
      rights its path was going to have. */
  lemma {:induction false} RangeRights(s: State, c: Cert, root: nat, env: Env, start: nat, n: nat,
                                       kernel: bool, writeable: bool, k: nat)
    requires CanFill(s, c, root, env, n) && start <= k < start + n && Translate(s.mem, root, env.dm(k)) == Fault
    requires forall j :: start <= j < k ==> env.dm(j) != env.dm(k)
    ensures Translate(FillRange(s, c, root, env, start, n, kernel, writeable).s.mem, root, env.dm(k))
            == Hit(k, Meet(PathRights(s.mem, root, 4, env.dm(k), ALL), DirectEntry(k, kernel, writeable)), {})
    decreases n
  {
    hide FillPage, PathRights, Translate, InStep, CanWalk, Meet;
    if k == start {
      FirstRights(s, c, root, env, k, n, kernel, writeable);
    } else {
      var p, e := env.dm(start), DirectEntry(start, kernel, writeable);
      var w := FillPage(s, c, root, p, e, env.limit);
      FillStep(s, c, root, env, start, n, kernel, writeable);
      FillKeepsFault(s, c, root, p, e, env.limit, env.dm(k));
      FillKeepsRights(s, c, root, p, e, env.limit, env.dm(k));
      RangeRights(w.s, w.c, root, env, start + 1, n - 1, kernel, writeable, k);
    }
  }

  /** In plain terms: it is writable if the path and the caller allow it, and open to the user
      if the path was and the page is not for the kernel. */
  lemma RangeMaps(s: State, c: Cert, root: nat, env: Env, start: nat, n: nat, kernel: bool, writeable: bool, k: nat)
    requires CanFill(s, c, root, env, n) && start <= k < start + n && Translate(s.mem, root, env.dm(k)) == Fault
    requires forall j :: start <= j < k ==> env.dm(j) != env.dm(k)
    ensures MappedAs(Translate(FillRange(s, c, root, env, start, n, kernel, writeable).s.mem, root, env.dm(k)),
                     s.mem, root, env.dm(k), k, kernel, writeable)
  {
    hide FillRange, Translate, PathRights, PathWrites, PathOpen, PathNx, InStep;
    RangeRights(s, c, root, env, start, n, kernel, writeable, k);
    PathGrants(s.mem, c, root, env.dm(k), ALL);
  }

  // ------------------------------------------------------------- a second call

  /** The walk as code alone, without the certificate that shows it keeps a forest. */
  function WalkCode(s: State, t: nat, level: nat, p: Page, create: bool): (State, Option<nat>)
    requires 1 <= level <= 4
    decreases level
  {
    if level == 1 || t !in s.mem then (s, Some(t))
    else
      var (s1, u) := Descend(s, t, Idx(p, level), level, create);
      if u.None? then (s1, None) else WalkCode(s1, u.value, level - 1, p, create)
  }

  lemma {:induction false} WalkIsCode(s: State, c: Cert, t: nat, p: Page, create: bool, limit: nat)
    requires CanWalk(s, c, t, limit)
    ensures var w := GetFrom(s, c, t, p, create, limit); WalkCode(s, t, LevelOf(c.loc[t]), p, create) == (w.s, w.pt)
    decreases LevelOf(c.loc[t])
  {
    var level := LevelOf(c.loc[t]);
    if level > 1 {
      DescendKeeps(s, c, t, Idx(p, level), create, limit);
      var (s1, u) := Descend(s, t, Idx(p, level), level, create);
      if u.Some? { WalkIsCode(s1, DescendCert(c, s, t, Idx(p, level), create), u.value, p, create, limit); }
    }
  }

  lemma {:induction false} WalkCodeIdle(s: State, t: nat, level: nat, p: Page, create: bool)
    requires 1 <= level <= 4 && PtFrame(s.mem, t, level, p).Some?
    ensures WalkCode(s, t, level, p, create) == (s, PtFrame(s.mem, t, level, p))
    decreases level
  {
    if level > 1 { WalkCodeIdle(s, s.mem[t][Idx(p, level)].frame, level - 1, p, create); }
  }

  /** One round of the loop as code alone. */
  function FillCode(s: State, root: nat, p: Page, e: Entry): State
  {
    var (s1, pt) := WalkCode(s, root, 4, p, false);
    if pt.Some? && pt.value in s1.mem && s1.mem[pt.value][p.i1].present then s1
    else
      var (s2, pt2) := WalkCode(s1, root, 4, p, true);
      if pt2.Some? && pt2.value in s2.mem then s2.(mem := SetPte(s2.mem, pt2.value, p.i1, e)) else s2
  }

  lemma FillIsCode(s: State, c: Cert, root: nat, p: Page, e: Entry, limit: nat)
    requires CanWalk(s, c, root, limit) && root in c.space && FreshFrame(s.brk) + 6 <= limit
    ensures FillPage(s, c, root, p, e, limit).s == FillCode(s, root, p, e)
  {
    hide WalkCode;
    var w := GetFrom(s, c, root, p, false, limit);
    WalkIsCode(s, c, root, p, false, limit);
    WalkIsCode(w.s, w.c, root, p, true, limit);
    GetFromFails(w.s, w.c, root, p, true, limit);
  }

  function RangeCode(s: State, root: nat, env: Env, start: nat, n: nat, kernel: bool, writeable: bool): State
    decreases n
  {
    if n == 0 then s
    else RangeCode(FillCode(s, root, env.dm(start), DirectEntry(start, kernel, writeable)), root, env, start + 1, n - 1, kernel, writeable)
  }

  lemma {:induction false} RangeIsCode(s: State, c: Cert, root: nat, env: Env, start: nat, n: nat, kernel: bool, writeable: bool)
    requires CanFill(s, c, root, env, n)
    ensures FillRange(s, c, root, env, start, n, kernel, writeable).s == RangeCode(s, root, env, start, n, kernel, writeable)
    decreases n
  {
    hide FillPage, FillCode, InStep;
    if n > 0 {
      var e := DirectEntry(start, kernel, writeable);
      var w := FillPage(s, c, root, env.dm(start), e, env.limit);
      FillStep(s, c, root, env, start, n, kernel, writeable);
      FillIsCode(s, c, root, env.dm(start), e, env.limit);
      RangeIsCode(w.s, w.c, root, env, start + 1, n - 1, kernel, writeable);
    }
  }

  /** Filling a filled page does not touch memory or the allocator. */
  lemma FilledIsIdle(s: State, root: nat, p: Page, e: Entry)
    requires Filled(s.mem, root, p)
    ensures FillCode(s, root, p, e) == s
  {
    hide WalkCode;
    WalkCodeIdle(s, root, 4, p, false);
    WalkThroughPt(s.mem, root, 4, p, ALL);
  }

  lemma {:induction false} FilledRangeIdle(s: State, root: nat, env: Env, start: nat, n: nat, kernel: bool, writeable: bool)
    requires forall k :: start <= k < start + n ==> Filled(s.mem, root, env.dm(k))
    ensures RangeCode(s, root, env, start, n, kernel, writeable) == s
    decreases n
  {
    hide FillCode, Filled;
    if n > 0 {
      FilledIsIdle(s, root, env.dm(start), DirectEntry(start, kernel, writeable));
      FilledRangeIdle(s, root, env, start + 1, n - 1, kernel, writeable);
    }
  }

  /** A second call changes not one table word and allocates nothing, whatever rights it
      asks for and however little heap is left. */
  lemma RangeTwice(s: State, c: Cert, root: nat, env: Env, start: nat, n: nat,
                   kernel: bool, writeable: bool, kernel': bool, writeable': bool)
    requires CanFill(s, c, root, env, n)
    ensures var t := FillRange(s, c, root, env, start, n, kernel, writeable).s;
            t == RangeCode(s, root, env, start, n, kernel, writeable)
            && RangeCode(t, root, env, start, n, kernel', writeable') == t
  {
    hide FillRange, Filled;
    RangeIsCode(s, c, root, env, start, n, kernel, writeable);
    var t := FillRange(s, c, root, env, start, n, kernel, writeable).s;
    forall k | start <= k < start + n ensures Filled(t.mem, root, env.dm(k)) {
      RangeFills(s, c, root, env, start, n, kernel, writeable, k);
    }
    FilledRangeIdle(t, root, env, start, n, kernel', writeable');
  }
}
