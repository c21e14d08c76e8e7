/** Whole runs of the paging code: any sequence of walks, mappings, unmappings, kernel stack
    allocations and address-space copies, over any number of address spaces. */
module PageRuns {
  import opened Words
  import opened PageEntry
  import opened PageForest
  import opened PageWalk
  import opened PageOps

  const VPNS: nat := 0x10_0000_0000     // 2^36 virtual page numbers
  const KSTACK_FRAMES: nat := 33        // KSTACK_PAGES + 1: the stack and its guard page
  const VM_REGION_SIZE: nat := 48       // sizeof(struct vm_region)

  /** The table indices of a virtual page number. */
  function PageOf(vpn: nat): Page
  {
    Page(vpn / 0x800_0000 % 512, vpn / 0x4_0000 % 512, vpn / 512 % 512, vpn % 512)
  }

  /** Only the low 36 bits of a page number select tables, and they all do. */
  lemma PageOfInjective(a: nat, b: nat)
    ensures PageOf(a) == PageOf(b) <==> a % VPNS == b % VPNS
  {
    Digits(a);
    Digits(b);
    Digit(a, 0x800_0000); Digit(a, 0x4_0000); Digit(a, 512); LowDigit(a);
    Digit(b, 0x800_0000); Digit(b, 0x4_0000); Digit(b, 512); LowDigit(b);
  }

  lemma Digits(a: nat)
    ensures a % VPNS == ((a / 0x800_0000 % 512 * 512 + a / 0x4_0000 % 512) * 512 + a / 512 % 512) * 512 + a % 512
  {
    Digit(a, 0x800_0000); Digit(a, 0x4_0000); Digit(a, 512);
    LowDigit(a);
    FourDigits(a % VPNS);
  }

  lemma LowDigit(a: nat)
    ensures a % 512 == a % VPNS % 512
  {
    QuotientUnique(a, 512, 0x800_0000 * (a / VPNS) + a % VPNS / 512, a % VPNS % 512);
  }

  lemma FourDigits(d: nat)
    requires d < VPNS
    ensures d == ((d / 0x800_0000 % 512 * 512 + d / 0x4_0000 % 512) * 512 + d / 512 % 512) * 512 + d % 512
  {
    var x := d / 512;
    var y := x / 512;
    QuotientUnique(d, 0x4_0000, y, x % 512 * 512 + d % 512);
    QuotientUnique(d, 0x800_0000, y / 512, (y % 512 * 512 + x % 512) * 512 + d % 512);
  }

  lemma Digit(a: nat, p: nat)
    requires p == 0x800_0000 || p == 0x4_0000 || p == 512
    ensures a / p % 512 == a % VPNS / p % 512
  {
    var q, d := a / VPNS, a % VPNS;
    var m := if p == 512 then 0x4_0000 else if p == 0x4_0000 then 512 else 1;
    QuotientUnique(a, p, 512 * (m * q) + d / p, d % p);
    QuotientUnique(a / p, 512, m * q + d / p / 512, d / p % 512);
  }

  lemma SameWindow(h: nat, a: nat, b: nat)
    requires a < VPNS && b < VPNS && (h + a) % VPNS == (h + b) % VPNS
    ensures a == b
  {
    var x, y := (h + a) / VPNS, (h + b) / VPNS;
    assert h + a == VPNS * x + (h + a) % VPNS && h + b == VPNS * y + (h + b) % VPNS;
  }

  /** The machine: tables and allocator, the forest's certificate, and the frames
      handed out as kernel stacks, guard pages included. */
  datatype Sys = Sys(s: State, c: Cert, stacks: set<nat>)

  /** The direct map puts frame f, below `top`, at virtual page dm(f); the bump
      allocator owns the frames below limit. */
  datatype Env = Env(dm: nat -> Page, top: nat, limit: nat)

  ghost predicate DirectMap(env: Env)
  {
    forall a: nat, b: nat :: a < env.top && b < env.top && env.dm(a) == env.dm(b) ==> a == b
  }

  /** The direct map of the kernel: frame f at virtual page number hhdm + f. */
  lemma HhdmIsDirectMap(hhdm: nat, top: nat, limit: nat)
    requires top <= VPNS
    ensures DirectMap(Env((f: nat) => PageOf(hhdm + f), top, limit))
  {
    hide PageOf;
    var env := Env((f: nat) => PageOf(hhdm + f), top, limit);
    forall a: nat, b: nat | a < top && b < top && env.dm(a) == env.dm(b) ensures a == b {
      PageOfInjective(hhdm + a, hhdm + b);
      SameWindow(hhdm, a, b);
    }
  }

  /** A frame the kernel may still touch through the direct map: a table, or heap not yet handed out. */
  predicate InUse(s: State, env: Env, f: nat) { f in s.mem || FreshFrame(s.brk) <= f < env.limit }

  /** The direct-map page of frame f resolves to f, writable. */
  predicate Resolves(mem: Mem, env: Env, r: nat, f: nat)
  {
    f < env.top &&
    var x := Translate(mem, r, env.dm(f));
    x.Hit? && x.frame == f && x.rights.write
  }

  /** A forest whose address spaces are in step, fresh frames ahead of the bump
      pointer, and no table on a stack or guard page. */
  ghost predicate Shape(y: Sys, env: Env)
  {
    && Forest(y.s.mem, y.c) && InStep(y.s.mem, y.c) && HeapFree(y.s, env.limit)
    && 0 < FreshFrame(y.s.brk)
    && y.stacks !! y.s.mem.Keys
    && forall f :: f in y.stacks ==> f < FreshFrame(y.s.brk)
  }

  /** Every table is reachable through the direct map of every address space. */
  ghost predicate Reach(y: Sys, env: Env)
  {
    forall r, f :: r in y.c.space && InUse(y.s, env, f) ==> Resolves(y.s.mem, env, r, f)
  }

  ghost predicate Valid(y: Sys, env: Env)
  {
    DirectMap(env) && Shape(y, env) && Reach(y, env)
  }

  datatype Op =
    | OpWalk(r: nat, p: Page, create: bool)  // get_page_entry
    | OpMap(r: nat, p: Page, e: Entry)       // map_page
    | OpUnmap(r: nat, p: Page)               // unmap_page
    | OpStack(r: nat)                        // alloc_stack with r the running PML4
    | OpCopy(r: nat)                         // init_process: copy the PML4

  /** Room for the tables an operation may allocate. */
  predicate Room(s: State, env: Env, frames: nat) { FreshFrame(s.brk) + frames <= env.limit }

  /** What callers owe: a known PML4, heap left, and no remapping or unmapping of a
      direct-map page under the kernel's feet. */
  ghost predicate Allowed(y: Sys, env: Env, op: Op)
  {
    op.r in y.c.space &&
    match op
    case OpWalk(_, _, _) => Room(y.s, env, 3)
    case OpMap(r, p, e) =>
      Room(y.s, env, 3) && e.present
      && (Translate(y.s.mem, r, p) == Fault
          || forall f :: InUse(y.s, env, f) ==> p != env.dm(f))
    case OpUnmap(_, p) => Room(y.s, env, 3) && forall f :: InUse(y.s, env, f) ==> p != env.dm(f)
    case OpStack(_) => Room(y.s, env, KSTACK_FRAMES + 4)
    case OpCopy(_) => Room(y.s, env, 1)
  }

  /** alloc_stack's two allocations. */
  function AfterStackAlloc(brk: nat): nat { (FreshFrame(brk) + KSTACK_FRAMES) * PAGE + VM_REGION_SIZE }

  /** init_process's copy of a PML4: slots present at the copy are shared from then on. */
  function CopyCert(c: Cert, mem: Mem, r: nat, x: nat): Cert
    requires r in mem && r in c.space && |c.space[r]| == 512
  {
    Cert(c.loc[x := L4(x)],
         c.space[x := seq(512, i requires 0 <= i < 512 => if mem[r][i].present then c.space[r][i] else x)])
  }

  lemma CopyForest(s: State, c: Cert, r: nat, limit: nat)
    requires Forest(s.mem, c) && InStep(s.mem, c) && HeapFree(s, limit) && r in c.space
    requires FreshFrame(s.brk) < limit
    ensures var x := FreshFrame(s.brk);
            && x !in s.mem && Forest(s.mem[x := s.mem[r]], CopyCert(c, s.mem, r, x))
            && InStep(s.mem[x := s.mem[r]], CopyCert(c, s.mem, r, x))
  {
    hide InStep, SlotOk, CopyCert;
    var x := FreshFrame(s.brk);
    assert x !in s.mem;
    var m, c' := s.mem[x := s.mem[r]], CopyCert(c, s.mem, r, x);
    CopyRoots(s.mem, c, r, x);
    forall t, i: Index | t in m ensures SlotOk(m, c', t, i) { CopySlot(s.mem, c, r, x, t, i); }
    CopyInStep(s.mem, c, r, x);
  }

  lemma CopyRoots(mem: Mem, c: Cert, r: nat, x: nat)
    requires Forest(mem, c) && r in c.space && x !in mem
    ensures RootsOk(mem[x := mem[r]], CopyCert(c, mem, r, x))
    ensures CopyCert(c, mem, r, x).loc.Keys == mem[x := mem[r]].Keys
  {
    hide SlotOk;
  }

  lemma CopyInStep(mem: Mem, c: Cert, r: nat, x: nat)
    requires Forest(mem, c) && InStep(mem, c) && r in c.space && x !in mem
    requires Forest(mem[x := mem[r]], CopyCert(c, mem, r, x))
    ensures InStep(mem[x := mem[r]], CopyCert(c, mem, r, x))
  {
    hide SlotOk;
  }

  lemma CopySlot(mem: Mem, c: Cert, r: nat, x: nat, t: nat, i: Index)
    requires Forest(mem, c) && r in c.space && x !in mem && (t in mem || t == x)
    ensures SlotOk(mem[x := mem[r]], CopyCert(c, mem, r, x), t, i)
  {
    assert SlotOk(mem, c, if t == x then r else t, i);
  }

  /** New tables elsewhere do not change a walk. */
  lemma {:induction false} WalkFrame(mem: Mem, mem': Mem, c: Cert, t: nat, p: Page, acc: Rights)
    requires Forest(mem, c) && t in mem
    requires forall u :: u in mem ==> u in mem' && mem'[u] == mem[u]
    ensures Walk(mem', t, LevelOf(c.loc[t]), p, acc) == Walk(mem, t, LevelOf(c.loc[t]), p, acc)
    decreases LevelOf(c.loc[t])
  {
    var level := LevelOf(c.loc[t]);
    var e := mem[t][Idx(p, level)];
    assert SlotOk(mem, c, t, Idx(p, level));
    if e.present && !IsLeaf(e, level) { WalkFrame(mem, mem', c, e.frame, p, Meet(acc, e)); }
  }

  /** A copied PML4 translates every page like the original, and changes nobody else. */
  lemma CopyTranslates(s: State, c: Cert, r: nat, limit: nat, q: Page)
    requires Forest(s.mem, c) && HeapFree(s, limit) && r in c.space && FreshFrame(s.brk) < limit
    ensures var m := s.mem[FreshFrame(s.brk) := s.mem[r]];
            && Translate(m, FreshFrame(s.brk), q) == Translate(s.mem, r, q)
            && forall r' :: r' in c.space ==> Translate(m, r', q) == Translate(s.mem, r', q)
  {
    var x := FreshFrame(s.brk);
    assert x !in s.mem;
    var m := s.mem[x := s.mem[r]];
    forall r' | r' in c.space ensures Translate(m, r', q) == Translate(s.mem, r', q) {
      WalkFrame(s.mem, m, c, r', q, ALL);
    }
    assert Translate(m, x, q) == Translate(m, r, q);
  }

  // ------------------------------------------------------------- one operation

  function Frames(x: nat, n: nat): (r: set<nat>)
    ensures forall f :: f in r <==> x <= f < x + n
  {
    if n == 0 then {} else Frames(x, n - 1) + {x + n - 1}
  }

  /** alloc_stack: reserve the frames, then unmap the first one. */
  ghost function AllocStack(y: Sys, env: Env, r: nat): (Sys, nat)
    requires Shape(y, env) && r in y.c.space && Room(y.s, env, KSTACK_FRAMES + 4)
  {
    var x := FreshFrame(y.s.brk);
    StackRoom(y, env, r);
    var (w, addr) := UnmapPage(y.s.(brk := AfterStackAlloc(y.s.brk)), y.c, r, env.dm(x), env.limit);
    (Sys(w.s, w.c, y.stacks + Frames(x, KSTACK_FRAMES)), addr)
  }

  lemma StackRoom(y: Sys, env: Env, r: nat)
    requires Shape(y, env) && r in y.c.space && Room(y.s, env, KSTACK_FRAMES + 4)
    ensures CanWalk(y.s.(brk := AfterStackAlloc(y.s.brk)), y.c, r, env.limit)
    ensures FreshFrame(AfterStackAlloc(y.s.brk)) == FreshFrame(y.s.brk) + KSTACK_FRAMES + 1
  {
  }

  /** The state after an operation. */
  ghost function Apply(y: Sys, env: Env, op: Op): Sys
    requires Shape(y, env) && Allowed(y, env, op)
  {
    match op
    case OpWalk(r, p, create) =>
      var w := GetFrom(y.s, y.c, r, p, create, env.limit);
      Sys(w.s, w.c, y.stacks)
    case OpMap(r, p, e) =>
      var w := MapPage(y.s, y.c, r, p, e, env.limit);
      Sys(w.s, w.c, y.stacks)
    case OpUnmap(r, p) =>
      var w := UnmapPage(y.s, y.c, r, p, env.limit).0;
      Sys(w.s, w.c, y.stacks)
    case OpStack(r) => AllocStack(y, env, r).0
    case OpCopy(r) =>
      var x := FreshFrame(y.s.brk);
      Sys(State(y.s.mem[x := y.s.mem[r]], (x + 1) * PAGE), CopyCert(y.c, y.s.mem, r, x), y.stacks)
  }

  lemma WalkShape(y: Sys, env: Env, r: nat, p: Page, create: bool)
    requires Shape(y, env) && Allowed(y, env, OpWalk(r, p, create))
    ensures Shape(Apply(y, env, OpWalk(r, p, create)), env)
  {
    GetFromInStep(y.s, y.c, r, p, create, env.limit);
  }

  lemma MapShape(y: Sys, env: Env, r: nat, p: Page, e: Entry)
    requires Shape(y, env) && Allowed(y, env, OpMap(r, p, e))
    ensures Shape(Apply(y, env, OpMap(r, p, e)), env)
  {
    MapPageExact(y.s, y.c, r, p, e, env.limit, r, p);
  }

  lemma UnmapShape(y: Sys, env: Env, r: nat, p: Page)
    requires Shape(y, env) && r in y.c.space && Room(y.s, env, 3)
    ensures var w := UnmapPage(y.s, y.c, r, p, env.limit).0; Shape(Sys(w.s, w.c, y.stacks), env) && w.c.space == y.c.space
    ensures forall f :: InUse(UnmapPage(y.s, y.c, r, p, env.limit).0.s, env, f) ==> InUse(y.s, env, f)
  {
    UnmapPageExact(y.s, y.c, r, p, env.limit, r, p);
  }

  lemma CopyShape(y: Sys, env: Env, r: nat)
    requires Shape(y, env) && Allowed(y, env, OpCopy(r))
    ensures Shape(Apply(y, env, OpCopy(r)), env)
  {
    CopyForest(y.s, y.c, r, env.limit);
  }

  lemma StackShape(y: Sys, env: Env, r: nat)
    requires Shape(y, env) && Allowed(y, env, OpStack(r))
    ensures Shape(Apply(y, env, OpStack(r)), env)
  {
    StackRoom(y, env, r);
    var p := env.dm(FreshFrame(y.s.brk));
    UnmapPageExact(y.s.(brk := AfterStackAlloc(y.s.brk)), y.c, r, p, env.limit, r, p);
  }

  lemma StepKeepsShape(y: Sys, env: Env, op: Op)
    requires Shape(y, env) && Allowed(y, env, op)
    ensures Shape(Apply(y, env, op), env)
  {
    match op
    case OpWalk(r, p, create) => WalkShape(y, env, r, p, create);
    case OpMap(r, p, e) => MapShape(y, env, r, p, e);
    case OpUnmap(r, p) => UnmapShape(y, env, r, p);
    case OpStack(r) => StackShape(y, env, r);
    case OpCopy(r) => CopyShape(y, env, r);
  }

  /** New tables come from heap that was in use already. */
  lemma StepInUse(y: Sys, env: Env, op: Op, f: nat)
    requires Shape(y, env) && Allowed(y, env, op) && InUse(Apply(y, env, op).s, env, f)
    ensures InUse(y.s, env, f)
    ensures op.OpStack? ==> f != FreshFrame(y.s.brk)
  {
    if op.OpStack? { StackRoom(y, env, op.r); }
    if op.OpUnmap? { UnmapShape(y, env, op.r, op.p); }
  }

  /** alloc_stack never panics: its guard page was mapped, at a nonzero frame, and that
      page alone stops resolving. */
  lemma StackGuard(y: Sys, env: Env, r: nat, r': nat, q: Page)
    requires Valid(y, env) && Allowed(y, env, OpStack(r)) && r' in y.c.space
    ensures var x := FreshFrame(y.s.brk);
            var (y', addr) := AllocStack(y, env, r);
            && addr == x * PAGE != 0 && (forall f: nat :: f in y'.stacks <==> f in y.stacks || x <= f < x + 33)
            && Translate(y'.s.mem, r, env.dm(x)) == Fault
            && (q != env.dm(x) ==> Translate(y'.s.mem, r', q) == Translate(y.s.mem, r', q))
  {
    var x := FreshFrame(y.s.brk);
    assert InUse(y.s, env, x) && Resolves(y.s.mem, env, r, x);
    StackRoom(y, env, r);
    var s1 := y.s.(brk := AfterStackAlloc(y.s.brk));
    UnmapPageExact(s1, y.c, r, env.dm(x), env.limit, r', q);
    UnmapPageExact(s1, y.c, r, env.dm(x), env.limit, r, env.dm(x));
  }

  /** No operation disturbs the direct-map page of a frame still in use. */
  lemma StepResolves(y: Sys, env: Env, op: Op, r: nat, f: nat)
    requires Valid(y, env) && Allowed(y, env, op)
    requires r in Apply(y, env, op).c.space && InUse(Apply(y, env, op).s, env, f)
    ensures Resolves(Apply(y, env, op).s.mem, env, r, f)
  {
    StepInUse(y, env, op, f);
    assert Resolves(y.s.mem, env, op.r, f);
    match op
    case OpWalk(a, p, create) =>
      assert Resolves(y.s.mem, env, r, f);
      WalkingIsInvisible(y.s, y.c, a, p, create, env.limit, r, env.dm(f));
    case OpMap(a, p, e) =>
      assert Resolves(y.s.mem, env, r, f);
      MapPageExact(y.s, y.c, a, p, e, env.limit, r, env.dm(f));
    case OpUnmap(a, p) =>
      UnmapShape(y, env, a, p);
      assert Resolves(y.s.mem, env, r, f);
      UnmapPageExact(y.s, y.c, a, p, env.limit, r, env.dm(f));
    case OpStack(a) =>
      assert Resolves(y.s.mem, env, r, f);
      assert InUse(y.s, env, FreshFrame(y.s.brk)) && Resolves(y.s.mem, env, a, FreshFrame(y.s.brk));
      StackGuard(y, env, a, r, env.dm(f));
    case OpCopy(a) =>
      if r in y.c.space { assert Resolves(y.s.mem, env, r, f); }
      CopyTranslates(y.s, y.c, a, env.limit, env.dm(f));
  }

  lemma StepKeepsValid(y: Sys, env: Env, op: Op)
    requires Valid(y, env) && Allowed(y, env, op)
    ensures Valid(Apply(y, env, op), env)
  {
    StepKeepsShape(y, env, op);
    var y' := Apply(y, env, op);
    forall r, f | r in y'.c.space && InUse(y'.s, env, f) ensures Resolves(y'.s.mem, env, r, f) {
      StepResolves(y, env, op, r, f);
    }
  }

  /** After any unmapping every table can still be reached if and only if the page was not
      the direct-map page of a frame still in use. */
  lemma UnmapReachIff(y: Sys, env: Env, r: nat, p: Page)
    requires Valid(y, env) && r in y.c.space && Room(y.s, env, 3)
    ensures var w := UnmapPage(y.s, y.c, r, p, env.limit).0;
            Reach(Sys(w.s, w.c, y.stacks), env) <==> forall f :: InUse(w.s, env, f) ==> p != env.dm(f)
  {
    hide UnmapPage;
    var w := UnmapPage(y.s, y.c, r, p, env.limit).0;
    UnmapShape(y, env, r, p);
    forall r', f | r' in y.c.space && InUse(w.s, env, f)
      ensures p != env.dm(f) ==> Resolves(w.s.mem, env, r', f)
      ensures p == env.dm(f) ==> !Resolves(w.s.mem, env, r, f)
    {
      assert Resolves(y.s.mem, env, r', f);
      UnmapPageExact(y.s, y.c, r, p, env.limit, r', env.dm(f));
      UnmapPageExact(y.s, y.c, r, p, env.limit, r, env.dm(f));
    }
  }

  // ------------------------------------------------------------- whole runs

  /** y' is reached from y by ops, every one of them allowed when its turn comes. */
  ghost predicate Run(y: Sys, env: Env, ops: seq<Op>, y': Sys)
    decreases |ops|
  {
    if ops == [] then y == y'
    else Valid(y, env) && Allowed(y, env, ops[0]) && Run(Apply(y, env, ops[0]), env, ops[1..], y')
  }

  /** The invariant holds after every run: tables stay page-sized, one per place, off every
      stack and guard page, and reachable through the direct map of every address space. */
  lemma {:induction false} RunKeepsValid(y: Sys, env: Env, ops: seq<Op>, y': Sys)
    requires Valid(y, env) && Run(y, env, ops, y')
    ensures Valid(y', env) && y.stacks <= y'.stacks && y.s.mem.Keys <= y'.s.mem.Keys
    decreases |ops|
  {
    if ops != [] {
      StepKeepsValid(y, env, ops[0]);
      RunKeepsValid(Apply(y, env, ops[0]), env, ops[1..], y');
    }
  }

  /** Operations never reassign the slots of an existing PML4. */
  lemma StepKeepsSpaces(y: Sys, env: Env, op: Op)
    requires Shape(y, env) && Allowed(y, env, op)
    ensures forall r :: r in y.c.space ==> r in Apply(y, env, op).c.space && Apply(y, env, op).c.space[r] == y.c.space[r]
  {
    if op.OpCopy? { assert FreshFrame(y.s.brk) !in y.s.mem; }
    if op.OpStack? { StackRoom(y, env, op.r); }
    if op.OpUnmap? { UnmapShape(y, env, op.r, op.p); }
  }

  /** Slots shared by a copy stay in step: after any later run, whoever mapped, unmapped
      or split what, both address spaces translate every page under the slot alike. */
  lemma {:induction false} SharedSlotsStayInStep(y: Sys, env: Env, ops: seq<Op>, y': Sys, r: nat, r': nat, p: Page)
    requires Valid(y, env) && Run(y, env, ops, y')
    requires r in y.c.space && r' in y.c.space && y.c.space[r][p.i4] == y.c.space[r'][p.i4]
    ensures Translate(y'.s.mem, r, p) == Translate(y'.s.mem, r', p)
    decreases |ops|
  {
    if ops == [] {
      SharedSlotAgrees(y.s.mem, y.c, r, r', p);
    } else {
      StepKeepsValid(y, env, ops[0]);
      StepKeepsSpaces(y, env, ops[0]);
      SharedSlotsStayInStep(Apply(y, env, ops[0]), env, ops[1..], y', r, r', p);
    }
  }

  /** No other PML4 has a slot i in r's space. */
  ghost predicate Private(c: Cert, r: nat, i: Index)
    requires r in c.space && forall a :: a in c.space ==> |c.space[a]| == 512
  {
    forall a :: a in c.space && a != r ==> c.space[a][i] != c.space[r][i]
  }

  /** A slot that is absent in the original when it is copied is private in both. */
  lemma AbsentSlotsBecomePrivate(y: Sys, env: Env, r: nat, i: Index)
    requires Shape(y, env) && Allowed(y, env, OpCopy(r)) && !y.s.mem[r][i].present
    ensures var c := Apply(y, env, OpCopy(r)).c;
            && Shape(Apply(y, env, OpCopy(r)), env) && FreshFrame(y.s.brk) in c.space && r in c.space
            && Private(c, FreshFrame(y.s.brk), i) && Private(c, r, i)
  {
    CopyShape(y, env, r);
    assert FreshFrame(y.s.brk) !in y.s.mem;
  }

  lemma StepIsolated(y: Sys, env: Env, op: Op, r: nat, q: Page)
    requires Valid(y, env) && Allowed(y, env, op) && r in y.c.space && y.c.space[op.r][q.i4] != y.c.space[r][q.i4]
    ensures Translate(Apply(y, env, op).s.mem, r, q) == Translate(y.s.mem, r, q)
  {
    match op
    case OpWalk(a, p, create) => WalkingIsInvisible(y.s, y.c, a, p, create, env.limit, r, q);
    case OpMap(a, p, e) => MapPageExact(y.s, y.c, a, p, e, env.limit, r, q);
    case OpUnmap(a, p) => UnmapPageExact(y.s, y.c, a, p, env.limit, r, q);
    case OpStack(a) =>
      StackRoom(y, env, a);
      UnmapPageExact(y.s.(brk := AfterStackAlloc(y.s.brk)), y.c, a, env.dm(FreshFrame(y.s.brk)), env.limit, r, q);
    case OpCopy(a) => CopyTranslates(y.s, y.c, a, env.limit, q);
  }

  /** What other address spaces do under their own slots is never seen through a private slot. */
  lemma {:induction false} PrivateSlotsStayPrivate(y: Sys, env: Env, ops: seq<Op>, y': Sys, r: nat, q: Page)
    requires Valid(y, env) && Run(y, env, ops, y') && r in y.c.space && Private(y.c, r, q.i4)
    requires forall k :: 0 <= k < |ops| ==> ops[k].r != r
    ensures Translate(y'.s.mem, r, q) == Translate(y.s.mem, r, q)
    decreases |ops|
  {
    hide Translate, Apply, Reach;
    if ops != [] {
      var op, y1 := ops[0], Apply(y, env, ops[0]);
      StepKeepsValid(y, env, op);
      StepKeepsSpaces(y, env, op);
      StepIsolated(y, env, op, r, q);
      PrivateKept(y, env, op, r, q.i4);
      assert forall k :: 0 <= k < |ops[1..]| ==> ops[1..][k] == ops[k + 1];
      PrivateSlotsStayPrivate(y1, env, ops[1..], y', r, q);
    }
  }

  lemma PrivateKept(y: Sys, env: Env, op: Op, r: nat, i: Index)
    requires Shape(y, env) && Allowed(y, env, op) && r in y.c.space && Private(y.c, r, i) && op.r != r
    ensures Shape(Apply(y, env, op), env) && r in Apply(y, env, op).c.space && Private(Apply(y, env, op).c, r, i)
  {
    StepKeepsShape(y, env, op);
    StepKeepsSpaces(y, env, op);
    if op.OpCopy? { assert FreshFrame(y.s.brk) !in y.s.mem; }
    if op.OpStack? { StackRoom(y, env, op.r); }
  }

  // ------------------------------------------------------------- a copied PML4

  lemma {:induction false} RunKeepsSpaces(y: Sys, env: Env, ops: seq<Op>, y': Sys)
    requires Valid(y, env) && Run(y, env, ops, y')
    ensures forall r :: r in y.c.space ==> r in y'.c.space && y'.c.space[r] == y.c.space[r]
    decreases |ops|
  {
    if ops != [] {
      StepKeepsValid(y, env, ops[0]);
      StepKeepsSpaces(y, env, ops[0]);
      RunKeepsSpaces(Apply(y, env, ops[0]), env, ops[1..], y');
    }
  }

  /** After the copy a slot has the same space in both exactly if it was present. */
  lemma CopyShares(y: Sys, env: Env, r: nat, i: Index)
    requires Shape(y, env) && Allowed(y, env, OpCopy(r))
    ensures var x, c := FreshFrame(y.s.brk), Apply(y, env, OpCopy(r)).c;
            && x in c.space && r in c.space && |c.space[x]| == 512 && |c.space[r]| == 512 && x != r
            && (c.space[x][i] == c.space[r][i] <==> y.s.mem[r][i].present)
  {
    assert FreshFrame(y.s.brk) !in y.s.mem;
  }

  /** A slot that was present when init's PML4 was copied stays in step: after any run, whoever
      mapped, unmapped or split what, its pages translate alike through both roots. */
  lemma PresentSlotStaysInStep(y: Sys, env: Env, r: nat, ops: seq<Op>, y': Sys, p: Page)
    requires Valid(y, env) && Allowed(y, env, OpCopy(r)) && Run(Apply(y, env, OpCopy(r)), env, ops, y')
    requires y.s.mem[r][p.i4].present
    ensures Translate(y'.s.mem, r, p) == Translate(y'.s.mem, FreshFrame(y.s.brk), p)
  {
    hide Apply, Run, Translate, Shape;
    StepKeepsValid(y, env, OpCopy(r));
    ValidShape(y, env);
    CopyShares(y, env, r, p.i4);
    SharedSlotsStayInStep(Apply(y, env, OpCopy(r)), env, ops, y', r, FreshFrame(y.s.brk), p);
  }

  lemma ValidShape(y: Sys, env: Env)
    requires Valid(y, env)
    ensures Shape(y, env)
  {
  }

  /** A slot that was absent stays apart: after any run, no operation through either root
      changes a translation under that slot of the other, even where both have filled it. */
  lemma AbsentSlotStaysApart(y: Sys, env: Env, r: nat, ops: seq<Op>, y': Sys, op: Op, other: nat, q: Page)
    requires Valid(y, env) && Allowed(y, env, OpCopy(r)) && Run(Apply(y, env, OpCopy(r)), env, ops, y')
    requires !y.s.mem[r][q.i4].present && Valid(y', env) && Allowed(y', env, op)
    requires (op.r == r && other == FreshFrame(y.s.brk)) || (op.r == FreshFrame(y.s.brk) && other == r)
    ensures Translate(Apply(y', env, op).s.mem, other, q) == Translate(y'.s.mem, other, q)
  {
    hide Run, Translate, Reach, Forest, InStep, HeapFree;
    StepKeepsValid(y, env, OpCopy(r));
    CopyShares(y, env, r, q.i4);
    RunKeepsSpaces(Apply(y, env, OpCopy(r)), env, ops, y');
    StepIsolated(y', env, op, other, q);
  }
}
