/** The maze as a graph: cells of a w by h grid, joined where a wall has been removed. */
module MazeGraph {
  datatype Pos = Pos(x: int, y: int)

  /** A removed wall: the right or the bottom wall of a cell. */
  datatype Opening = Right(p: Pos) | Bottom(p: Pos)

  predicate InGrid(p: Pos, w: int, h: int) { 0 <= p.x < w && 0 <= p.y < h }

  predicate Adjacent(p: Pos, q: Pos)
  {
    (p.y == q.y && (q.x == p.x + 1 || q.x == p.x - 1)) || (p.x == q.x && (q.y == p.y + 1 || q.y == p.y - 1))
  }

  /** The wall between two adjacent cells. */
  function Between(p: Pos, q: Pos): Opening
    requires Adjacent(p, q)
  {
    if q.x == p.x + 1 then Right(p) else if q.x == p.x - 1 then Right(q)
    else if q.y == p.y + 1 then Bottom(p) else Bottom(q)
  }

  /** The cell on the other side of an opening. */
  function Across(d: Opening): Pos { if d.Right? then Pos(d.p.x + 1, d.p.y) else Pos(d.p.x, d.p.y + 1) }

  predicate CanMove(open: set<Opening>, w: int, h: int, p: Pos, q: Pos)
  {
    InGrid(q, w, h) && Adjacent(p, q) && Between(p, q) in open
  }

  ghost predicate Route(open: set<Opening>, w: int, h: int, ps: seq<Pos>)
  {
    |ps| > 0 && InGrid(ps[0], w, h) && forall i :: 0 <= i < |ps| - 1 ==> CanMove(open, w, h, ps[i], ps[i + 1])
  }

  ghost predicate Joins(open: set<Opening>, w: int, h: int, ps: seq<Pos>, a: Pos, b: Pos)
  {
    Route(open, w, h, ps) && ps[0] == a && ps[|ps| - 1] == b
  }

  ghost predicate Connected(open: set<Opening>, w: int, h: int, a: Pos, b: Pos)
  {
    exists ps :: Joins(open, w, h, ps, a, b)
  }

  function Cells(w: int, h: int): set<Pos> { set x, y | 0 <= x < w && 0 <= y < h :: Pos(x, y) }

  ghost function Row(w: int, y: int): set<Pos> { set x | 0 <= x < w :: Pos(x, y) }

  lemma {:induction false} RowSize(w: int, y: int)
    requires 0 <= w
    ensures |Row(w, y)| == w
    decreases w
  {
    if w > 0 {
      RowSize(w - 1, y);
      assert Row(w, y) == Row(w - 1, y) + {Pos(w - 1, y)};
    } else {
      assert Row(w, y) == {};
    }
  }

  lemma {:induction false} CellCount(w: int, h: int)
    requires 0 <= w && 0 <= h
    ensures |Cells(w, h)| == w * h
    decreases h
  {
    if h > 0 {
      CellCount(w, h - 1);
      RowSize(w, h - 1);
      assert Cells(w, h) == Cells(w, h - 1) + Row(w, h - 1) && Cells(w, h - 1) !! Row(w, h - 1);
      assert w * h == w * (h - 1) + w;
    } else {
      assert Cells(w, h) == {};
    }
  }

  /** A step further along an opening. */
  lemma ConnectedStep(open: set<Opening>, w: int, h: int, a: Pos, b: Pos, c: Pos)
    requires Connected(open, w, h, a, b) && CanMove(open, w, h, b, c)
    ensures Connected(open, w, h, a, c)
  {
    var ps :| Joins(open, w, h, ps, a, b);
    assert Joins(open, w, h, ps + [c], a, c);
  }

  /** Removing more walls disconnects nothing. */
  lemma ConnectedMore(open: set<Opening>, more: set<Opening>, w: int, h: int, a: Pos, b: Pos)
    requires Connected(open, w, h, a, b) && open <= more
    ensures Connected(more, w, h, a, b)
  {
    var ps :| Joins(open, w, h, ps, a, b);
    assert Joins(more, w, h, ps, a, b);
  }

  /** A set of cells that no step leaves holds everything connected to it. */
  lemma {:induction false} Confined(open: set<Opening>, w: int, h: int, inside: set<Pos>, ps: seq<Pos>, n: nat)
    requires Route(open, w, h, ps) && ps[0] in inside && n < |ps|
    requires forall p, q :: p in inside && CanMove(open, w, h, p, q) ==> q in inside
    ensures ps[n] in inside
  {
    if n > 0 {
      Confined(open, w, h, inside, ps, n - 1);
      assert CanMove(open, w, h, ps[n - 1], ps[n]);
    }
  }

  /** A set of cells closed under neighbourhood in the grid is the whole grid. */
  lemma {:induction false} AllReached(w: int, h: int, inside: set<Pos>, p: Pos)
    requires InGrid(p, w, h) && Pos(0, 0) in inside
    requires forall a, b :: a in inside && Adjacent(a, b) && InGrid(b, w, h) ==> b in inside
    ensures p in inside
    decreases p.x + p.y
  {
    if p.x > 0 {
      AllReached(w, h, inside, Pos(p.x - 1, p.y));
      assert Adjacent(Pos(p.x - 1, p.y), p);
    } else if p.y > 0 {
      AllReached(w, h, inside, Pos(p.x, p.y - 1));
      assert Adjacent(Pos(p.x, p.y - 1), p);
    }
  }

  /** An opening joins exactly its two cells. */
  lemma BetweenEnds(p: Pos, q: Pos)
    requires Adjacent(p, q)
    ensures {Between(p, q).p, Across(Between(p, q))} == {p, q} && Between(p, q) == Between(q, p)
  {
  }
}
