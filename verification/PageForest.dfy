/** A forest of 4-level page tables and what it means: the translation of
    every page, following the four-level walk and access rights of the Intel
    SDM Vol. 3A sections 4.5 and 4.6. */
module PageForest {
  import opened PageEntry

  type Index = i: nat | i < 512

  /** A 4 KiB virtual page, as the four table indices of its address. */
  datatype Page = Page(i4: Index, i3: Index, i2: Index, i1: Index)

  function Idx(p: Page, level: nat): Index
    requires 1 <= level <= 4
  {
    if level == 4 then p.i4 else if level == 3 then p.i3 else if level == 2 then p.i2 else p.i1
  }

  /** Page number of p inside a leaf mapped at this level. */
  function Within(p: Page, level: nat): nat
    requires 1 <= level <= 3
  {
    if level == 1 then 0 else if level == 2 then p.i1 else p.i2 * 512 + p.i1
  }

  type Table = t: seq<Entry> | |t| == 512 witness seq(512, _ => EMPTY)

  /** The table pages, by frame number. */
  type Mem = map<nat, Table>

  datatype Rights = Rights(write: bool, user: bool, nx: bool)

  const ALL := Rights(true, true, false)

  /** Rights narrow on the way down: write and user must be granted by every
      level, and one no-execute bit is enough. */
  function Meet(r: Rights, e: Entry): Rights
  {
    Rights(r.write && e.write, r.user && e.user, r.nx || e.nx)
  }

  datatype Xlat = Fault | Hit(frame: nat, rights: Rights, attrs: set<nat>)

  /** PS makes a leaf at levels 3 and 2 only; level 1 entries are always leaves. */
  predicate IsLeaf(e: Entry, level: nat) { level == 1 || (level <= 3 && e.ps) }

  function LeafHit(e: Entry, level: nat, p: Page, acc: Rights): Xlat
    requires 1 <= level <= 3
  {
    Hit(LeafBase(e.frame, level) + Within(p, level), Meet(acc, e), e.attrs)
  }

  /** The hardware walk from a table of the given level. */
  function Walk(mem: Mem, t: nat, level: nat, p: Page, acc: Rights): Xlat
    requires 1 <= level <= 4
    decreases level
  {
    if t !in mem then Fault else
    var e := mem[t][Idx(p, level)];
    if !e.present then Fault
    else if IsLeaf(e, level) then LeafHit(e, level, p, acc)
    else Walk(mem, e.frame, level - 1, p, Meet(acc, e))
  }

  /** Translation of a page under the PML4 at frame `root`. */
  function Translate(mem: Mem, root: nat, p: Page): Xlat
  {
    Walk(mem, root, 4, p, ALL)
  }

  // ---------------------------------------------------------------- the forest

  /** Where a table sits: its level and the indices that lead to it. `space`
      tells apart tables of address spaces that do not share a PML4 slot. */
  datatype Loc =
    | L4(root: nat)
    | L3(space: nat, i4: Index)
    | L2(space: nat, i4: Index, i3: Index)
    | L1(space: nat, i4: Index, i3: Index, i2: Index)

  function LevelOf(l: Loc): (n: nat)
    ensures 1 <= n <= 4
  {
    match l case L4(_) => 4 case L3(_, _) => 3 case L2(_, _, _) => 2 case L1(_, _, _, _) => 1
  }

  /** Certificate of a forest: the place of every table, and for every PML4
      which space the tables under each of its slots belong to. */
  datatype Cert = Cert(loc: map<nat, Loc>, space: map<nat, seq<nat>>)

  ghost predicate RootsOk(mem: Mem, c: Cert)
  {
    && (forall r :: r in c.space ==> r in c.loc && c.loc[r] == L4(r) && |c.space[r]| == 512)
    && (forall r, i: Index :: r in c.space ==> c.space[r][i] in c.space)
    && (forall t :: t in c.loc && c.loc[t].L4? ==> t in c.space && c.loc[t].root == t)
  }

  /** The place of the table under slot i of a table at place l. */
  function Child(c: Cert, l: Loc, i: Index): Loc
    requires LevelOf(l) > 1
    requires l.L4? ==> l.root in c.space && |c.space[l.root]| == 512
  {
    match l
    case L4(r) => L3(c.space[r][i], i)
    case L3(s, a) => L2(s, a, i)
    case L2(s, a, b) => L1(s, a, b, i)
  }

  /** Entry i of table t, if it points at a table, points at the one placed there. */
  ghost predicate SlotOk(mem: Mem, c: Cert, t: nat, i: Index)
    requires t in mem && t in c.loc
    requires c.loc[t].L4? ==> c.loc[t].root in c.space && |c.space[c.loc[t].root]| == 512
  {
    var e := mem[t][i];
    e.present && !IsLeaf(e, LevelOf(c.loc[t])) ==>
      e.frame in mem && e.frame in c.loc && c.loc[e.frame] == Child(c, c.loc[t], i)
  }

  ghost predicate Forest(mem: Mem, c: Cert)
  {
    && c.loc.Keys == mem.Keys
    && RootsOk(mem, c)
    && forall t, i: Index :: t in mem ==> SlotOk(mem, c, t, i)
  }

  // ------------------------------------------------- invisible changes of a slot

  /** mem' has the tables of mem and maybe more, and differs on them at most in slot i of t. */
  ghost predicate SameBut(mem: Mem, mem': Mem, t: nat, i: Index)
  {
    && mem.Keys <= mem'.Keys
    && forall x, j: Index :: x in mem && (x != t || j != i) ==> mem'[x][j] == mem[x][j]
  }

  /** A change to one slot that no walk through the slot can see is seen by no walk at all. */
  lemma {:induction false} LocalToGlobal(mem: Mem, mem': Mem, c: Cert, t: nat, i: Index,
                                         x: nat, p: Page, acc: Rights)
    requires Forest(mem, c) && t in mem && x in mem && SameBut(mem, mem', t, i)
    requires forall q: Page, a: Rights :: Idx(q, LevelOf(c.loc[t])) == i ==>
               Walk(mem', t, LevelOf(c.loc[t]), q, a) == Walk(mem, t, LevelOf(c.loc[t]), q, a)
    ensures Walk(mem', x, LevelOf(c.loc[x]), p, acc) == Walk(mem, x, LevelOf(c.loc[x]), p, acc)
    decreases LevelOf(c.loc[x])
  {
    var level := LevelOf(c.loc[x]);
    var j := Idx(p, level);
    if x != t || j != i {
      var e := mem[x][j];
      assert mem'[x][j] == e;
      assert SlotOk(mem, c, x, j);
      if e.present && !IsLeaf(e, level) {
        LocalToGlobal(mem, mem', c, t, i, e.frame, p, Meet(acc, e));
      }
    }
  }
}
