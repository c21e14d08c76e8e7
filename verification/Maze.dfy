/** The shell's maze: generation by random backtracking and the depth-first solver. */
module Maze {
  import opened Options
  import opened MazeGraph

  datatype Kind = WALL | CORRIDOR | VISITED | PATH | SOURCE | SINK

  datatype Outcome = NoMarkers | Solved | NoSolution

  /** Cells the solver may still enter. */
  ghost function Free(k: map<Pos, Kind>): set<Pos> { set q | q in k && (k[q] == CORRIDOR || k[q] == SINK) }

  /** From k to k1 some corridor cells were marked visited, and that is all. */
  ghost predicate Explored(k: map<Pos, Kind>, k1: map<Pos, Kind>)
  {
    k1.Keys == k.Keys && forall q :: q in k ==> k1[q] == k[q] || (k[q] == CORRIDOR && k1[q] == VISITED)
  }

  /** From k to k1 the cells of the route ps were marked as the solution to t, and of the
      others some corridor cells visited. */
  ghost predicate Marked(k: map<Pos, Kind>, k1: map<Pos, Kind>, ps: seq<Pos>, t: Pos)
  {
    && k1.Keys == k.Keys
    && forall q :: q in k ==>
         if q == t then k1[q] == SINK
         else if q in ps then k1[q] == (if k[q] == SOURCE then SOURCE else PATH)
         else k1[q] == k[q] || (k[q] == CORRIDOR && k1[q] == VISITED)
  }

  ghost predicate Simple(ps: seq<Pos>) { forall i, j :: 0 <= i < j < |ps| ==> ps[i] != ps[j] }

  /** No opening leads from the cells entered between k and k1 to one that is still free. */
  ghost predicate Exhausted(open: set<Opening>, w: int, h: int, k: map<Pos, Kind>, k1: map<Pos, Kind>)
  {
    forall q, r :: q in Free(k) && q !in Free(k1) && CanMove(open, w, h, q, r) ==> r !in Free(k1)
  }

  /** Every direction from p below the n-th is a dead end. */
  ghost predicate Blocked(open: set<Opening>, w: int, h: int, k1: map<Pos, Kind>, p: Pos, n: nat)
  {
    forall i :: 0 <= i < n < 5 && CanMove(open, w, h, p, Toward(p, i)) ==> Toward(p, i) !in Free(k1)
  }

  /** The solver's directions: down, right, up, left. */
  function Toward(p: Pos, i: nat): Pos
  {
    if i == 0 then Pos(p.x, p.y + 1) else if i == 1 then Pos(p.x + 1, p.y)
    else if i == 2 then Pos(p.x, p.y - 1) else Pos(p.x - 1, p.y)
  }

  /** The solver at p, entered with kinds k, after i dead ends. */
  ghost predicate Searching(open: set<Opening>, w: int, h: int, k: map<Pos, Kind>, k1: map<Pos, Kind>, p: Pos, i: nat)
  {
    && Explored(k, k1) && p in k && p !in Free(k1) && (k1[p] == SOURCE <==> k[p] == SOURCE)
    && (forall q, r :: q in Free(k) && q !in Free(k1) && q != p && CanMove(open, w, h, q, r) ==> r !in Free(k1))
    && Blocked(open, w, h, k1, p, i)
  }

  ghost predicate OneSink(k: map<Pos, Kind>, t: Pos) { t in k && forall q :: q in k ==> (k[q] == SINK <==> q == t) }

  /** What a failed search says. */
  ghost predicate DeadEnd(open: set<Opening>, w: int, h: int, k: map<Pos, Kind>, k1: map<Pos, Kind>, p: Pos)
  {
    Explored(k, k1) && p !in Free(k1) && Exhausted(open, w, h, k, k1) && Blocked(open, w, h, k1, p, 4)
  }

  /** What a successful one says. */
  ghost predicate Way(open: set<Opening>, w: int, h: int, k: map<Pos, Kind>, k1: map<Pos, Kind>, ps: seq<Pos>, p: Pos, t: Pos)
  {
    && Joins(open, w, h, ps, p, t) && Simple(ps) && Marked(k, k1, ps, t)
    && forall q :: q in ps ==> q == p || q in Free(k)
  }

  lemma StartSearch(open: set<Opening>, w: int, h: int, k: map<Pos, Kind>, k1: map<Pos, Kind>, p: Pos)
    requires p in k && k1 == (if k[p] == CORRIDOR then k[p := VISITED] else k) && k1[p] != SINK
    ensures Searching(open, w, h, k, k1, p, 0)
  {
  }

  lemma AtTarget(open: set<Opening>, w: int, h: int, k: map<Pos, Kind>, t: Pos)
    requires OneSink(k, t) && InGrid(t, w, h)
    ensures Way(open, w, h, k, k[t := SINK], [t], t, t)
  {
  }

  lemma NextSmaller(k: map<Pos, Kind>, k1: map<Pos, Kind>, p: Pos, next: Pos)
    requires Explored(k, k1) && p !in Free(k1) && next in Free(k1)
    ensures Free(k1) - {next} < Free(k) - {p}
  {
    assert next in Free(k) - {p};
  }

  lemma SearchFacts(open: set<Opening>, w: int, h: int, k: map<Pos, Kind>, k1: map<Pos, Kind>, p: Pos, i: nat)
    requires Searching(open, w, h, k, k1, p, i)
    ensures Explored(k, k1) && p !in Free(k1)
  {
  }

  lemma SinkKept(open: set<Opening>, w: int, h: int, k: map<Pos, Kind>, k1: map<Pos, Kind>, p: Pos, t: Pos)
    requires DeadEnd(open, w, h, k, k1, p) && OneSink(k, t)
    ensures OneSink(k1, t)
  {
  }

  lemma MoveStays(open: set<Opening>, w: int, h: int, p: Pos, q: Pos)
    requires CanMove(open, w, h, p, q)
    ensures InGrid(q, w, h) && q in Cells(w, h)
  {
  }

  /** Skipping a direction that is walled off or already entered. */
  lemma Skip(open: set<Opening>, w: int, h: int, k: map<Pos, Kind>, k1: map<Pos, Kind>, p: Pos, i: nat)
    requires Searching(open, w, h, k, k1, p, i) && i < 4
    requires CanMove(open, w, h, p, Toward(p, i)) ==> Toward(p, i) !in Free(k1)
    ensures Searching(open, w, h, k, k1, p, i + 1)
  {
  }

  /** Coming back from a dead end. */
  lemma GiveUp(open: set<Opening>, w: int, h: int, k: map<Pos, Kind>, k1: map<Pos, Kind>, k2: map<Pos, Kind>, p: Pos, i: nat)
    requires Searching(open, w, h, k, k1, p, i) && i < 4 && DeadEnd(open, w, h, k1, k2, Toward(p, i))
    ensures Searching(open, w, h, k, k2, p, i + 1)
  {
    assert Free(k2) <= Free(k1);
  }

  /** Coming back with a route. */
  lemma Succeed(open: set<Opening>, w: int, h: int, k: map<Pos, Kind>, k1: map<Pos, Kind>, k2: map<Pos, Kind>,
                p: Pos, i: nat, ps: seq<Pos>, t: Pos)
    requires Searching(open, w, h, k, k1, p, i) && InGrid(p, w, h) && OneSink(k, t) && t != p
    requires var next := Toward(p, i);
             CanMove(open, w, h, p, next) && next in Free(k1) && Way(open, w, h, k1, k2, ps, next, t)
    ensures p in k2
    ensures Way(open, w, h, k, if k2[p] != SOURCE then k2[p := PATH] else k2, [p] + ps, p, t)
  {
    assert p !in ps;
    assert Joins(open, w, h, [p] + ps, p, t);
  }

  lemma AllBlocked(open: set<Opening>, w: int, h: int, k: map<Pos, Kind>, k1: map<Pos, Kind>, p: Pos)
    requires Searching(open, w, h, k, k1, p, 4)
    ensures DeadEnd(open, w, h, k, k1, p)
  {
    forall r | CanMove(open, w, h, p, r) ensures r !in Free(k1) {
      assert r == Toward(p, 0) || r == Toward(p, 1) || r == Toward(p, 2) || r == Toward(p, 3);
    }
  }

  // ------------------------------------------------------------- generation

  /** Midway through generation: the visited cells form a tree of openings, and every
      visited cell that is off the stack has only visited neighbours. */
  ghost predicate Growing(open: set<Opening>, w: int, h: int, vis: set<Pos>, st: seq<Pos>)
  {
    && vis <= Cells(w, h) && Pos(0, 0) in vis && |open| == |vis| - 1
    && (forall d :: d in open ==> d.p in vis && Across(d) in vis)
    && (forall p :: p in vis ==> Connected(open, w, h, Pos(0, 0), p))
    && Simple(st) && (forall p :: p in st ==> p in vis)
    && (forall p, q :: p in vis && p !in st && Adjacent(p, q) && InGrid(q, w, h) ==> q in vis)
  }

  lemma StartGrowing(w: int, h: int)
    requires 0 < w && 0 < h
    ensures Growing({}, w, h, {Pos(0, 0)}, [Pos(0, 0)])
  {
    assert Joins({}, w, h, [Pos(0, 0)], Pos(0, 0), Pos(0, 0));
  }

  lemma ExtendTree(open: set<Opening>, w: int, h: int, vis: set<Pos>, st: seq<Pos>, p: Pos, next: Pos)
    requires Growing(open, w, h, vis, st) && p in vis && Adjacent(p, next) && InGrid(next, w, h) && next !in vis
    ensures Growing(open + {Between(p, next)}, w, h, vis + {next}, st + [next])
  {
    var more := open + {Between(p, next)};
    BetweenEnds(p, next);
    assert next in {Between(p, next).p, Across(Between(p, next))};
    assert Between(p, next) !in open;
    forall q | q in vis + {next} ensures Connected(more, w, h, Pos(0, 0), q) {
      ConnectedMore(open, more, w, h, Pos(0, 0), if q == next then p else q);
      if q == next { ConnectedStep(more, w, h, Pos(0, 0), p, next); }
    }
  }

  lemma Backtrack(open: set<Opening>, w: int, h: int, vis: set<Pos>, st: seq<Pos>)
    requires Growing(open, w, h, vis, st) && st != []
    requires forall q :: Adjacent(st[|st| - 1], q) && InGrid(q, w, h) ==> q in vis
    ensures Growing(open, w, h, vis, st[..|st| - 1])
  {
    var rest := st[..|st| - 1];
    forall p | p in vis && p !in rest ensures p !in st || p == st[|st| - 1] {
      assert st == rest + [st[|st| - 1]];
    }
  }

  lemma {:induction false} SimpleSize(st: seq<Pos>, within: set<Pos>)
    requires Simple(st) && forall p :: p in st ==> p in within
    ensures |st| <= |within|
  {
    if st != [] {
      var last := st[|st| - 1];
      assert forall i :: 0 <= i < |st| - 1 ==> st[i] != last && st[i] in within;
      SimpleSize(st[..|st| - 1], within - {last});
    }
  }

  lemma StackFits(open: set<Opening>, w: int, h: int, vis: set<Pos>, st: seq<Pos>)
    requires Growing(open, w, h, vis, st) && 0 < w && 0 < h
    ensures |st| <= |vis| <= w * h && (vis != Cells(w, h) ==> |vis| < w * h)
  {
    CellCount(w, h);
    SimpleSize(st, vis);
    SubsetSize(vis, Cells(w, h));
  }

  lemma SubsetSize(a: set<Pos>, b: set<Pos>)
    requires a <= b
    ensures |a| <= |b| && (a != b ==> |a| < |b|)
  {
    assert b == a + (b - a) && a !! (b - a);
    assert a != b ==> b - a != {};
  }

  lemma OnStack(open: set<Opening>, w: int, h: int, vis: set<Pos>, st: seq<Pos>)
    requires Growing(open, w, h, vis, st) && st != []
    ensures st[|st| - 1] in vis && InGrid(st[|st| - 1], w, h)
  {
  }

  /** A perfect maze: every cell is reached from the corner, by exactly w * h - 1 openings. */
  ghost predicate SpanningTree(open: set<Opening>, w: int, h: int)
  {
    && |open| == w * h - 1
    && (forall d :: d in open ==> InGrid(d.p, w, h) && InGrid(Across(d), w, h))
    && forall p :: InGrid(p, w, h) ==> Connected(open, w, h, Pos(0, 0), p)
  }

  lemma Grown(open: set<Opening>, w: int, h: int, vis: set<Pos>)
    requires Growing(open, w, h, vis, []) && 0 < w && 0 < h
    ensures SpanningTree(open, w, h)
  {
    forall p | InGrid(p, w, h) ensures p in vis { AllReached(w, h, vis, p); }
    assert vis == Cells(w, h);
    CellCount(w, h);
  }

  /** Directions as the generator numbers them: 0 up, 1 right, 2 down, 3 left. */
  predicate Leads(p: Pos, dir: int, q: Pos)
  {
    || (dir == 0 && q == Pos(p.x, p.y - 1)) || (dir == 1 && q == Pos(p.x + 1, p.y))
    || (dir == 2 && q == Pos(p.x, p.y + 1)) || (dir == 3 && q == Pos(p.x - 1, p.y))
  }

  /** The unvisited neighbours of p, with their directions. */
  method Unvisited(w: int, h: int, p: Pos, visited: set<Pos>) returns (near: seq<Pos>, dirs: seq<int>)
    requires InGrid(p, w, h)
    ensures |near| == |dirs|
    ensures forall i :: 0 <= i < |near| ==> Leads(p, dirs[i], near[i]) && InGrid(near[i], w, h) && near[i] !in visited
    ensures forall q :: Adjacent(p, q) && InGrid(q, w, h) && q !in visited ==> q in near
  {
    near, dirs := [], [];
    var up, down, right, left := Pos(p.x, p.y - 1), Pos(p.x, p.y + 1), Pos(p.x + 1, p.y), Pos(p.x - 1, p.y);
    if p.y > 0 && up !in visited {
      near, dirs := near + [up], dirs + [0];
    }
    if p.y < h - 1 && down !in visited {
      near, dirs := near + [down], dirs + [2];
    }
    if p.x < w - 1 && right !in visited {
      near, dirs := near + [right], dirs + [1];
    }
    if p.x > 0 && left !in visited {
      near, dirs := near + [left], dirs + [3];
    }
  }

  /** The kinds generation leaves: a source, then a sink, the rest corridors. */
  function Fresh(w: int, h: int): map<Pos, Kind>
  {
    map p | p in Cells(w, h) :: if p == Pos(w - 1, h - 1) then SINK else if p == Pos(0, 0) then SOURCE else CORRIDOR
  }

  // ------------------------------------------------------------- solving a whole maze

  /** What maze states there are: none generated yet, or one source at most, one sink at
      most, and no wall cells beside them. */
  ghost predicate Playable(k: map<Pos, Kind>)
  {
    && (forall p, q :: p in k && q in k && k[p] == SOURCE && k[q] == SOURCE ==> p == q)
    && (forall p, q :: p in k && q in k && k[p] == SINK && k[q] == SINK ==> p == q)
    && (forall p, q :: p in k && q in k && k[p] == SOURCE ==> k[q] != WALL)
  }

  /** Marks of an earlier attempt taken away. */
  ghost function Reset(k: map<Pos, Kind>): map<Pos, Kind>
  {
    map q | q in k :: if k[q] == VISITED || k[q] == PATH then CORRIDOR else k[q]
  }

  /** The PATH cells, with s and t, are the simple route ps. */
  ghost predicate Shown(k: map<Pos, Kind>, ps: seq<Pos>, s: Pos, t: Pos)
  {
    && Simple(ps) && s in k && t in k && k[s] == SOURCE && k[t] == SINK
    && forall q :: q in k ==> (k[q] == PATH <==> q in ps && q != s && q != t)
  }

  /** The maze is marked with source s and sink t. */
  ghost predicate Markers(k: map<Pos, Kind>, s: Pos, t: Pos) { s in k && t in k && k[s] == SOURCE && k[t] == SINK }

  lemma ResetKinds(k: map<Pos, Kind>, k1: map<Pos, Kind>, s: Pos, t: Pos)
    requires Playable(k) && Markers(k, s, t) && k1 == Reset(k)[s := SOURCE][t := SINK]
    ensures k1.Keys == k.Keys && s != t && k1[s] == SOURCE && k1[t] == SINK
    ensures forall q :: q in k1 && q != s && q != t ==> k1[q] == CORRIDOR
  {
    forall q | q in k && q != s && q != t ensures k[q] != SOURCE && k[q] != SINK && k[q] != WALL {
      assert k[s] == SOURCE && k[t] == SINK;
    }
  }

  lemma ReadyToSolve(k: map<Pos, Kind>, k1: map<Pos, Kind>, s: Pos, t: Pos)
    requires Playable(k) && Markers(k, s, t) && k1 == Reset(k)[s := SOURCE][t := SINK]
    ensures k1.Keys == k.Keys && OneSink(k1, t) && Playable(k1) && k1[s] == SOURCE && s != t
    ensures forall q :: q in k1 ==> k1[q] == CORRIDOR || q == s || q == t
    ensures forall q :: q in k1 && q != s ==> q in Free(k1)
    ensures forall s1, t1 :: Markers(k, s1, t1) ==> s1 == s && t1 == t
  {
    hide Reset;
    ResetKinds(k, k1, s, t);
  }

  /** Cells before (x, y) in the order the loops go through them. */
  predicate Before(q: Pos, x: int, y: int) { q.y < y || (q.y == y && q.x < x) }

  /** A search that starts on the only cell that is not free, and fails, has been everywhere. */
  lemma FailureIsProof(open: set<Opening>, w: int, h: int, k: map<Pos, Kind>, k1: map<Pos, Kind>, s: Pos, t: Pos)
    requires DeadEnd(open, w, h, k, k1, s) && OneSink(k, t) && t != s && k.Keys == Cells(w, h)
    requires forall q :: q in k && q != s ==> q in Free(k)
    ensures !Connected(open, w, h, s, t)
  {
    var inside := {s} + (Free(k) - Free(k1));
    forall p, q | p in inside && CanMove(open, w, h, p, q) ensures q in inside {
      if p == s {
        assert q == Toward(p, 0) || q == Toward(p, 1) || q == Toward(p, 2) || q == Toward(p, 3);
      }
      assert q in k;
    }
    assert t !in inside;
    forall ps | Joins(open, w, h, ps, s, t) ensures false {
      Confined(open, w, h, inside, ps, |ps| - 1);
    }
  }

  lemma WayShown(open: set<Opening>, w: int, h: int, k: map<Pos, Kind>, k1: map<Pos, Kind>, ps: seq<Pos>, s: Pos, t: Pos)
    requires Way(open, w, h, k, k1, ps, s, t) && OneSink(k, t) && s in k && k[s] == SOURCE
    requires forall q :: q in k ==> k[q] == CORRIDOR || q == s || q == t
    ensures Connected(open, w, h, s, t) && Shown(k1, ps, s, t) && Playable(k1)
  {
    assert Joins(open, w, h, ps, s, t);
  }

  lemma WayJoins(open: set<Opening>, w: int, h: int, k: map<Pos, Kind>, k1: map<Pos, Kind>, ps: seq<Pos>, s: Pos, t: Pos)
    requires Way(open, w, h, k, k1, ps, s, t) && s in k && k[s] == SOURCE && s != t
    ensures Joins(open, w, h, ps, s, t) && s in k1 && k1 == k1[s := SOURCE]
  {
  }

  lemma DeadEndPlayable(open: set<Opening>, w: int, h: int, k: map<Pos, Kind>, k1: map<Pos, Kind>, p: Pos)
    requires DeadEnd(open, w, h, k, k1, p) && Playable(k)
    ensures Playable(k1)
  {
  }

  lemma FreshPlayable(w: int, h: int)
    requires 0 < w && 0 < h
    ensures Playable(Fresh(w, h))
    ensures w * h >= 2 <==> exists p :: p in Fresh(w, h) && Fresh(w, h)[p] == SOURCE
    ensures w * h >= 2 ==> Fresh(w, h)[Pos(0, 0)] == SOURCE
    ensures Fresh(w, h)[Pos(w - 1, h - 1)] == SINK
    ensures forall p :: p in Fresh(w, h) && p != Pos(0, 0) && p != Pos(w - 1, h - 1) ==> Fresh(w, h)[p] == CORRIDOR
    ensures Fresh(w, h).Keys == Cells(w, h)
  {
    assert w * h >= 2 <==> Pos(w - 1, h - 1) != Pos(0, 0) by {
      if w == 1 { assert w * h == h; } else { assert w * h >= w by { assert w * (h - 1) >= 0; } }
    }
    assert w * h >= 2 ==> Fresh(w, h)[Pos(0, 0)] == SOURCE;
  }

  class Board {
    const w: int
    const h: int
    var kinds: map<Pos, Kind>
    var open: set<Opening>

    ghost predicate Valid()
      reads this
    {
      0 < w && 0 < h && kinds.Keys == Cells(w, h)
    }

    /** As the zeroed globals start: no markers, no walls. */
    constructor (w: int, h: int)
      requires 0 < w && 0 < h
      ensures this.w == w && this.h == h && Valid() && Playable(kinds) && forall q :: q in kinds ==> kinds[q] == WALL
    {
      this.w, this.h := w, h;
      kinds := map p | p in Cells(w, h) :: WALL;
      open := (set p | p in Cells(w, h) :: Right(p)) + (set p | p in Cells(w, h) :: Bottom(p));
    }

    /** can_move_to. */
    method CanMoveTo(fromX: int, fromY: int, toX: int, toY: int) returns (b: bool)
      ensures b == CanMove(open, w, h, Pos(fromX, fromY), Pos(toX, toY))
    {
      if toX < 0 || toX >= w || toY < 0 || toY >= h {
        return false;
      }
      if toX == fromX + 1 && toY == fromY {
        return Right(Pos(fromX, fromY)) in open;
      } else if toX == fromX - 1 && toY == fromY {
        return Right(Pos(toX, toY)) in open;
      } else if toY == fromY + 1 && toX == fromX {
        return Bottom(Pos(fromX, fromY)) in open;
      } else if toY == fromY - 1 && toX == fromX {
        return Bottom(Pos(toX, toY)) in open;
      }
      return false;
    }

    /** dfs_solve from p: a simple route through free cells, marked, or every cell that can
        be entered from p has been. */
    method DfsSolve(p: Pos, t: Pos) returns (found: bool, ghost ps: seq<Pos>)
      requires Valid() && InGrid(p, w, h) && OneSink(kinds, t)
      requires p in kinds && (kinds[p] == CORRIDOR || kinds[p] == SINK || kinds[p] == SOURCE)
      modifies this`kinds
      ensures Valid()
      ensures found ==> Way(open, w, h, old(kinds), kinds, ps, p, t)
      ensures !found ==> DeadEnd(open, w, h, old(kinds), kinds, p)
      decreases Free(kinds) - {p}
    {
      hide Way, DeadEnd, Searching, Explored, Marked, Exhausted, Blocked, Joins, Simple, CanMove;
      ghost var k := kinds;
      if kinds[p] == CORRIDOR {
        kinds := kinds[p := VISITED];
      }
      if p == t {
        kinds := kinds[p := SINK];
        AtTarget(open, w, h, k, t);
        return true, [p];
      }
      StartSearch(open, w, h, k, kinds, p);
      var i := 0;
      while i < 4
        invariant 0 <= i <= 4 && Valid() && OneSink(kinds, t) && Searching(open, w, h, k, kinds, p, i)
      {
        var next := Toward(p, i);
        var ok := CanMoveTo(p.x, p.y, next.x, next.y);
        if ok { MoveStays(open, w, h, p, next); }
        if ok && (kinds[next] == CORRIDOR || kinds[next] == SINK) {
          ghost var k1 := kinds;
          SearchFacts(open, w, h, k, k1, p, i);
          NextSmaller(k, k1, p, next);
          var r;
          r, ps := DfsSolve(next, t);
          if r {
            Succeed(open, w, h, k, k1, kinds, p, i, ps, t);
            if kinds[p] != SOURCE {
              kinds := kinds[p := PATH];
            }
            return true, [p] + ps;
          }
          GiveUp(open, w, h, k, k1, kinds, p, i);
          SinkKept(open, w, h, k1, kinds, next, t);
        } else {
          Skip(open, w, h, k, kinds, p, i);
        }
        i := i + 1;
      }
      AllBlocked(open, w, h, k, kinds, p);
      return false, [];
    }

    /** Remove the wall between p and its neighbour in direction dir. */
    method RemoveWall(p: Pos, next: Pos, dir: int)
      requires Leads(p, dir, next)
      modifies this`open
      ensures Adjacent(p, next) && open == old(open) + {Between(p, next)}
    {
      if dir == 0 {
        open := open + {Bottom(next)};
      } else if dir == 1 {
        open := open + {Right(p)};
      } else if dir == 2 {
        open := open + {Bottom(p)};
      } else if dir == 3 {
        open := open + {Right(next)};
      }
    }

    /** The backtracker of generate_maze, for any run of the random number generator. The
        stack array has room for every push. */
    method Carve()
      requires 0 < w && 0 < h && open == {}
      modifies this`open
      ensures SpanningTree(open, w, h)
    {
      hide Growing, Cells, Adjacent, Between, InGrid, SpanningTree, Leads, Connected;
      assert 0 < w * h;
      var stack := new Pos[w * h];
      var visited := {Pos(0, 0)};
      stack[0] := Pos(0, 0);
      var size := 1;
      StartGrowing(w, h);
      assert stack[..1] == [Pos(0, 0)];
      while size > 0
        invariant 0 <= size <= stack.Length == w * h
        invariant Growing(open, w, h, visited, stack[..size])
        decreases w * h - |visited|, size
      {
        StackFits(open, w, h, visited, stack[..size]);
        OnStack(open, w, h, visited, stack[..size]);
        var p := stack[size - 1];
        var near, dirs := Unvisited(w, h, p, visited);
        if |near| > 0 {
          var random: nat := *;
          var chosen := random % |near|;
          var next := near[chosen];
          ghost var before := open;
          RemoveWall(p, next, dirs[chosen]);
          ExtendTree(before, w, h, visited, stack[..size], p, next);
          visited := visited + {next};
          StackFits(open, w, h, visited, stack[..size] + [next]);
          stack[size] := next;
          size := size + 1;
          assert stack[..size] == stack[..size - 1] + [next];
        } else {
          Backtrack(open, w, h, visited, stack[..size]);
          assert stack[..size][..size - 1] == stack[..size - 1];
          size := size - 1;
        }
      }
      assert stack[..0] == [];
      Grown(open, w, h, visited);
    }

    /** generate_maze. */
    method Generate()
      requires 0 < w && 0 < h
      modifies this
      ensures Valid() && kinds == Fresh(w, h) && SpanningTree(open, w, h)
    {
      hide SpanningTree;
      open := {};
      kinds := map p | p in Cells(w, h) :: CORRIDOR;
      Carve();
      kinds := kinds[Pos(0, 0) := SOURCE];
      kinds := kinds[Pos(w - 1, h - 1) := SINK];
    }

    /** The scan of solve_maze for its two markers. */
    method FindMarkers() returns (start: Option<Pos>, end: Option<Pos>)
      requires Valid() && Playable(kinds)
      ensures forall q :: q in kinds ==> (kinds[q] == SOURCE <==> start == Some(q)) && (kinds[q] == SINK <==> end == Some(q))
      ensures start.Some? ==> start.value in kinds
      ensures end.Some? ==> end.value in kinds
    {
      start, end := None, None;
      var y := 0;
      while y < h
        invariant 0 <= y <= h
        invariant forall q :: q in kinds && Before(q, 0, y) ==>
                    (kinds[q] == SOURCE ==> start == Some(q)) && (kinds[q] == SINK ==> end == Some(q))
        invariant start.Some? ==> start.value in kinds && kinds[start.value] == SOURCE
        invariant end.Some? ==> end.value in kinds && kinds[end.value] == SINK
      {
        var x := 0;
        while x < w
          invariant 0 <= x <= w
          invariant forall q :: q in kinds && Before(q, x, y) ==>
                      (kinds[q] == SOURCE ==> start == Some(q)) && (kinds[q] == SINK ==> end == Some(q))
          invariant start.Some? ==> start.value in kinds && kinds[start.value] == SOURCE
          invariant end.Some? ==> end.value in kinds && kinds[end.value] == SINK
        {
          var p := Pos(x, y);
          if kinds[p] == SOURCE {
            start := Some(p);
          } else if kinds[p] == SINK {
            end := Some(p);
          }
          x := x + 1;
        }
        y := y + 1;
      }
    }

    /** The reset of solve_maze. */
    method ResetMarks()
      requires Valid()
      modifies this`kinds
      ensures Valid() && kinds == Reset(old(kinds))
    {
      ghost var k := kinds;
      var y := 0;
      while y < h
        invariant 0 <= y <= h && Valid()
        invariant forall q :: q in kinds ==> kinds[q] == if Before(q, 0, y) then Reset(k)[q] else k[q]
      {
        var x := 0;
        while x < w
          invariant 0 <= x <= w && Valid()
          invariant forall q :: q in kinds ==> kinds[q] == if Before(q, x, y) then Reset(k)[q] else k[q]
        {
          var p := Pos(x, y);
          if kinds[p] == VISITED || kinds[p] == PATH {
            kinds := kinds[p := CORRIDOR];
          }
          x := x + 1;
        }
        y := y + 1;
      }
      assert forall q :: q in kinds ==> Before(q, 0, h);
    }

    /** solve_maze: solved exactly when an open route joins the markers, and then the route
        is what is shown. */
    method SolveMaze() returns (res: Outcome, ghost ps: seq<Pos>)
      requires Valid() && Playable(kinds)
      modifies this`kinds
      ensures Valid() && Playable(kinds)
      ensures res == NoMarkers ==> kinds == old(kinds)
      ensures res == NoMarkers <==> forall s, t :: !Markers(old(kinds), s, t)
      ensures forall s, t :: Markers(old(kinds), s, t) ==> (res == Solved <==> Connected(open, w, h, s, t))
      ensures forall s, t :: Markers(old(kinds), s, t) && res == Solved ==>
                Joins(open, w, h, ps, s, t) && Shown(kinds, ps, s, t)
    {
      hide Way, DeadEnd, Joins, Connected, Shown, Playable, Reset, Free;
      ps := [];
      var start, end := FindMarkers();
      if start == None || end == None {
        return NoMarkers, ps;
      }
      var s, t := start.value, end.value;
      ghost var k0 := kinds;
      ResetMarks();
      kinds := kinds[s := SOURCE];
      kinds := kinds[t := SINK];
      ghost var k := kinds;
      ReadyToSolve(k0, k, s, t);
      assert Markers(k0, s, t);
      var found;
      found, ps := DfsSolve(s, t);
      if found {
        WayShown(open, w, h, k, kinds, ps, s, t);
        WayJoins(open, w, h, k, kinds, ps, s, t);
        kinds := kinds[s := SOURCE];
        return Solved, ps;
      }
      FailureIsProof(open, w, h, k, kinds, s, t);
      DeadEndPlayable(open, w, h, k, kinds, s);
      return NoSolution, ps;
    }

    /** Solving a generated maze succeeds, unless its only cell is both source and sink. */
    method GenerateThenSolve() returns (res: Outcome)
      requires 0 < w && 0 < h
      modifies this
      ensures res == (if w * h >= 2 then Solved else NoMarkers)
    {
      Generate();
      FreshPlayable(w, h);
      ghost var k := kinds;
      ghost var ps;
      res, ps := SolveMaze();
      assert InGrid(Pos(w - 1, h - 1), w, h);
      assert w * h >= 2 ==> Markers(k, Pos(0, 0), Pos(w - 1, h - 1));
    }
  }
}
