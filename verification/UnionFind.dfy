/** The union-find structure with path compression and union by rank. */
module UnionFind {
  /** Every parent is an index, and d decreases towards the roots. */
  ghost predicate Forest(p: seq<int>, d: seq<nat>)
  {
    |d| == |p| && forall i :: 0 <= i < |p| ==> 0 <= p[i] < |p| && (p[i] != i ==> d[p[i]] < d[i])
  }

  /** The root above i. */
  ghost function Root(p: seq<int>, d: seq<nat>, i: int): (r: int)
    requires Forest(p, d) && 0 <= i < |p|
    ensures 0 <= r < |p| && p[r] == r && d[r] <= d[i] && (r != i ==> d[r] < d[i])
    decreases d[i]
  {
    if p[i] == i then i else Root(p, d, p[i])
  }

  /** Steps from i to its root. */
  ghost function Depth(p: seq<int>, d: seq<nat>, i: int): nat
    requires Forest(p, d) && 0 <= i < |p|
    decreases d[i]
  {
    if p[i] == i then 0 else 1 + Depth(p, d, p[i])
  }

  ghost function Roots(p: seq<int>): set<int> { set i | 0 <= i < |p| && p[i] == i }

  lemma RootsAre(p: seq<int>, d: seq<nat>, i: int)
    requires Forest(p, d) && 0 <= i < |p| && p[i] == i
    ensures Root(p, d, i) == i && i in Roots(p)
  {
  }

  /** Pointing i at its root changes nobody's root, nor which elements are roots. */
  lemma CompressForest(p: seq<int>, d: seq<nat>, i: int)
    requires Forest(p, d) && 0 <= i < |p| && p[i] != i
    ensures Forest(p[i := Root(p, d, i)], d) && Roots(p[i := Root(p, d, i)]) == Roots(p)
  {
    var q := p[i := Root(p, d, i)];
    assert forall j :: 0 <= j < |p| ==> (q[j] == j <==> p[j] == j);
  }

  lemma {:induction false} CompressRoot(p: seq<int>, d: seq<nat>, i: int, j: int)
    requires Forest(p, d) && 0 <= i < |p| && p[i] != i && 0 <= j < |p|
    requires Forest(p[i := Root(p, d, i)], d)
    ensures Root(p[i := Root(p, d, i)], d, j) == Root(p, d, j)
    ensures Depth(p[i := Root(p, d, i)], d, j) <= Depth(p, d, j)
    decreases d[j]
  {
    if p[j] != j && j != i { CompressRoot(p, d, i, p[j]); }
  }

  // ------------------------------------------------------------- union on values

  /** The measure after root a has been put under root b. */
  ghost function Lifted(p: seq<int>, d: seq<nat>, a: int, b: int): (e: seq<nat>)
    requires Forest(p, d) && 0 <= a < |p| && 0 <= b < |p|
    ensures |e| == |d|
  {
    seq(|d|, k requires 0 <= k < |d| => d[k] + if Root(p, d, k) == a then d[b] + 1 else 0)
  }

  lemma LinkForest(p: seq<int>, d: seq<nat>, a: int, b: int)
    requires Forest(p, d) && 0 <= a < |p| && 0 <= b < |p| && a != b && p[a] == a && p[b] == b
    ensures Forest(p[a := b], Lifted(p, d, a, b)) && Roots(p[a := b]) == Roots(p) - {a}
  {
    var q, e := p[a := b], Lifted(p, d, a, b);
    forall i | 0 <= i < |q| ensures 0 <= q[i] < |q| && (q[i] != i ==> e[q[i]] < e[i]) {
      if i == a { assert Root(p, d, b) == b && Root(p, d, a) == a; }
      else { assert Root(p, d, i) == Root(p, d, p[i]); }
    }
    assert forall j :: 0 <= j < |p| ==> (q[j] == j <==> p[j] == j && j != a);
  }

  /** The class of a joins the class of b; no other element changes its root. */
  lemma {:induction false} LinkRoot(p: seq<int>, d: seq<nat>, a: int, b: int, k: int)
    requires Forest(p, d) && 0 <= a < |p| && 0 <= b < |p| && a != b && p[a] == a && p[b] == b && 0 <= k < |p|
    requires Forest(p[a := b], Lifted(p, d, a, b))
    ensures var r := Root(p, d, k);
            && Root(p[a := b], Lifted(p, d, a, b), k) == (if r == a then b else r)
            && Depth(p[a := b], Lifted(p, d, a, b), k) == Depth(p, d, k) + (if r == a then 1 else 0)
    decreases d[k]
  {
    var q, e := p[a := b], Lifted(p, d, a, b);
    if k == a {
      assert Root(q, e, b) == b && Depth(q, e, b) == 0;
    } else if p[k] != k {
      LinkRoot(p, d, a, b, p[k]);
    }
  }

  // ------------------------------------------------------------- rank and height

  /** Every element is at most rank[root] steps below its root. */
  ghost predicate RankBounds(p: seq<int>, d: seq<nat>, rank: seq<int>)
    requires Forest(p, d) && |rank| == |p|
  {
    forall k :: 0 <= k < |p| ==> Depth(p, d, k) <= rank[Root(p, d, k)]
  }

  /** Some element of r's class is rank[r] steps below r. */
  ghost predicate Tall(p: seq<int>, d: seq<nat>, rank: seq<int>, r: int)
    requires Forest(p, d) && |rank| == |p| && 0 <= r < |p|
  {
    exists k :: 0 <= k < |p| && Root(p, d, k) == r && Depth(p, d, k) == rank[r]
  }

  /** The root unionSet keeps and the one it puts below, for roots ri and rj. */
  function Loser(rank: seq<int>, ri: int, rj: int): int
    requires 0 <= ri < |rank| && 0 <= rj < |rank|
  {
    if rank[ri] < rank[rj] then ri else rj
  }

  function Winner(rank: seq<int>, ri: int, rj: int): int
    requires 0 <= ri < |rank| && 0 <= rj < |rank|
  {
    if rank[ri] < rank[rj] then rj else ri
  }

  /** unionSet raises the rank of the root that lost the tie. */
  function NewRank(rank: seq<int>, ri: int, rj: int): seq<int>
    requires 0 <= ri < |rank| && 0 <= rj < |rank|
  {
    if rank[ri] == rank[rj] then rank[rj := rank[rj] + 1] else rank
  }

  /** In a tie the rank of the losing root goes up by one; no other rank ever changes. */
  lemma TieRaisesLoser(rank: seq<int>, ri: int, rj: int, k: int)
    requires 0 <= ri < |rank| && 0 <= rj < |rank| && 0 <= k < |rank| && ri != rj
    ensures |NewRank(rank, ri, rj)| == |rank|
    ensures NewRank(rank, ri, rj)[k] == rank[k] + (if rank[ri] == rank[rj] && k == Loser(rank, ri, rj) then 1 else 0)
  {
  }

  /** What unionSet counts as the size of rj, win or lose: unions that did not outrank it. */
  function NewSize(size: seq<int>, rank: seq<int>, ri: int, rj: int): seq<int>
    requires 0 <= ri < |rank| && 0 <= rj < |rank| == |size|
  {
    if rank[ri] <= rank[rj] then size[rj := size[rj] + 1] else size
  }

  /** Ranks that bound heights go on doing so exactly if the union is not a tie against a
      class as tall as its rank. */
  lemma RankBoundKept(p: seq<int>, d: seq<nat>, rank: seq<int>, ri: int, rj: int)
    requires Forest(p, d) && |rank| == |p| && RankBounds(p, d, rank)
    requires 0 <= ri < |p| && 0 <= rj < |p| && ri != rj && p[ri] == ri && p[rj] == rj
    ensures var a, b := Loser(rank, ri, rj), Winner(rank, ri, rj);
            && Forest(p[a := b], Lifted(p, d, a, b))
            && (RankBounds(p[a := b], Lifted(p, d, a, b), NewRank(rank, ri, rj))
                <==> !(rank[ri] == rank[rj] && Tall(p, d, rank, rj)))
  {
    var a, b, rank' := Loser(rank, ri, rj), Winner(rank, ri, rj), NewRank(rank, ri, rj);
    LinkForest(p, d, a, b);
    var q, e := p[a := b], Lifted(p, d, a, b);
    forall k | 0 <= k < |p|
      ensures Root(q, e, k) == (if Root(p, d, k) == a then b else Root(p, d, k))
      ensures Depth(q, e, k) == Depth(p, d, k) + (if Root(p, d, k) == a then 1 else 0)
    {
      LinkRoot(p, d, a, b, k);
    }
    if rank[ri] == rank[rj] && Tall(p, d, rank, rj) {
      var k :| 0 <= k < |p| && Root(p, d, k) == rj && Depth(p, d, k) == rank[rj];
      assert Depth(q, e, k) > rank'[Root(q, e, k)];
    } else {
      forall k | 0 <= k < |p| ensures Depth(q, e, k) <= rank'[Root(q, e, k)] {
        assert Depth(p, d, k) <= rank[Root(p, d, k)];
      }
    }
  }

  /** Two fresh elements of rank 0, united: the claim that rank bounds height fails. */
  lemma RankIsNotHeight(p: seq<int>, d: seq<nat>, rank: seq<int>)
    requires |p| == 2 && p[0] == 0 && p[1] == 1 && |d| == 2 && |rank| == 2 && rank[0] == 0 && rank[1] == 0
    ensures Forest(p, d) && RankBounds(p, d, rank) && Forest(p[1 := 0], Lifted(p, d, 1, 0))
    ensures !RankBounds(p[1 := 0], Lifted(p, d, 1, 0), NewRank(rank, 0, 1))
  {
    assert Root(p, d, 1) == 1 && Depth(p, d, 1) == 0;
    assert Tall(p, d, rank, 1);
    RankBoundKept(p, d, rank, 0, 1);
  }

  // ------------------------------------------------------------- size

  /** The elements whose root is r. */
  ghost function Class(p: seq<int>, d: seq<nat>, r: int): set<int>
    requires Forest(p, d)
  {
    set k | 0 <= k < |p| && Root(p, d, k) == r
  }

  /** At every root, size is the number of elements below it and itself. */
  ghost predicate SizesRight(p: seq<int>, d: seq<nat>, size: seq<int>)
    requires Forest(p, d) && |size| == |p|
  {
    forall r :: 0 <= r < |p| && p[r] == r ==> size[r] == |Class(p, d, r)|
  }

  lemma InClass(p: seq<int>, d: seq<nat>, r: int, k: int)
    requires Forest(p, d)
    ensures k in Class(p, d, r) <==> 0 <= k < |p| && Root(p, d, k) == r
  {
  }

  /** Class r after a has been put under b. */
  lemma LinkClass(p: seq<int>, d: seq<nat>, a: int, b: int, r: int)
    requires Forest(p, d) && 0 <= a < |p| && 0 <= b < |p| && a != b && p[a] == a && p[b] == b
    requires Forest(p[a := b], Lifted(p, d, a, b)) && r != a
    ensures var c := Class(p[a := b], Lifted(p, d, a, b), r);
            if r == b then c == Class(p, d, b) + Class(p, d, a) else c == Class(p, d, r)
  {
    hide Lifted, Root, Forest, Class;
    forall k ensures k in Class(p[a := b], Lifted(p, d, a, b), r)
                     <==> if r == b then k in Class(p, d, b) || k in Class(p, d, a) else k in Class(p, d, r)
    {
      InClass(p[a := b], Lifted(p, d, a, b), r, k);
      InClass(p, d, r, k);
      InClass(p, d, a, k);
      if 0 <= k < |p| { LinkRoot(p, d, a, b, k); }
    }
  }

  lemma LinkSize(p: seq<int>, d: seq<nat>, a: int, b: int, r: int)
    requires Forest(p, d) && 0 <= a < |p| && 0 <= b < |p| && a != b && p[a] == a && p[b] == b
    requires Forest(p[a := b], Lifted(p, d, a, b)) && r != a
    ensures |Class(p[a := b], Lifted(p, d, a, b), r)|
            == |Class(p, d, r)| + (if r == b then |Class(p, d, a)| else 0)
    ensures |Class(p, d, a)| >= 1
  {
    hide Lifted, Root, Class;
    LinkClass(p, d, a, b, r);
    forall k ensures !(k in Class(p, d, b) && k in Class(p, d, a)) {
      InClass(p, d, b, k);
      InClass(p, d, a, k);
    }
    RootsAre(p, d, a);
    InClass(p, d, a, a);
    assert a in Class(p, d, a);
  }

  /** Sizes that are right go on being so exactly if a single element is put under a root of
      higher rank: a tie adds one to the losing root, and a union that goes the other way
      adds nothing. */
  lemma SizeKept(p: seq<int>, d: seq<nat>, rank: seq<int>, size: seq<int>, ri: int, rj: int)
    requires Forest(p, d) && |rank| == |p| == |size| && SizesRight(p, d, size)
    requires 0 <= ri < |p| && 0 <= rj < |p| && ri != rj && p[ri] == ri && p[rj] == rj
    ensures var a, b := Loser(rank, ri, rj), Winner(rank, ri, rj);
            && Forest(p[a := b], Lifted(p, d, a, b))
            && (SizesRight(p[a := b], Lifted(p, d, a, b), NewSize(size, rank, ri, rj))
                <==> rank[ri] < rank[rj] && |Class(p, d, ri)| == 1)
  {
    hide Lifted, Class;
    var a, b := Loser(rank, ri, rj), Winner(rank, ri, rj);
    LinkForest(p, d, a, b);
    forall r | 0 <= r < |p| && p[r] == r && r != a
      ensures |Class(p[a := b], Lifted(p, d, a, b), r)| == |Class(p, d, r)| + (if r == b then |Class(p, d, a)| else 0)
      ensures |Class(p, d, a)| >= 1
    {
      LinkSize(p, d, a, b, r);
    }
    var q, size' := p[a := b], NewSize(size, rank, ri, rj);
    assert q[b] == b && size[b] == |Class(p, d, b)|;
  }

  /** A structure of one element, its size cleared as the constructor clears it: the size is
      wrong from the start. */
  lemma SizeStartsWrong(p: seq<int>, d: seq<nat>, size: seq<int>)
    requires |p| == 1 && p[0] == 0 && |d| == 1 && |size| == 1 && size[0] == 0
    ensures Forest(p, d) && !SizesRight(p, d, size)
  {
    assert Root(p, d, 0) == 0;
    assert 0 in Class(p, d, 0);
  }

  // ------------------------------------------------------------- the structure

  class Ufds {
    const parent: array<int>
    const rank: array<int>
    const size: array<int>
    var numSets: int
    ghost var d: seq<nat>

    ghost predicate Valid()
      reads this, parent
    {
      && Forest(parent[..], d) && parent != rank && parent != size && rank != size
      && rank.Length == parent.Length && size.Length == parent.Length
    }

    ghost function Rep(i: int): int
      requires Valid() && 0 <= i < parent.Length
      reads this, parent
    {
      Root(parent[..], d, i)
    }

    /** UnionFind(n): every element its own root. Of ranks and sizes the first n bytes are
        cleared, a quarter of the elements; the count of sets is not set. */
    constructor (n: nat)
      ensures Valid() && parent.Length == n && fresh(parent) && fresh(rank) && fresh(size)
      ensures forall i :: 0 <= i < n ==> Rep(i) == i
      ensures forall i :: 0 <= i < n / 4 ==> rank[i] == 0 && size[i] == 0
    {
      parent, rank, size := new int[n](i => i), new int[n], new int[n];
      d := seq(n, _ => 0);
      new;
      var i := 0;
      while i < n / 4
        invariant 0 <= i <= n / 4
        invariant parent.Length == n && |d| == n && forall k :: 0 <= k < n ==> parent[k] == k
        invariant forall k :: 0 <= k < i ==> rank[k] == 0 && size[k] == 0
      {
        rank[i], size[i] := 0, 0;
        i := i + 1;
      }
    }

    /** findSet: the root, with everything on the way pointed at it. */
    method FindSet(i: int) returns (r: int)
      requires Valid() && 0 <= i < parent.Length
      modifies parent
      ensures Valid() && r == old(Rep(i)) && parent[r] == r
      ensures Roots(parent[..]) == old(Roots(parent[..]))
      ensures forall j :: 0 <= j < parent.Length ==> Rep(j) == old(Rep(j))
      ensures parent[i] == r
      decreases d[i]
    {
      if parent[i] != i {
        ghost var p0 := parent[..];
        assert i !in Roots(p0);
        r := FindSet(parent[i]);
        ghost var p := parent[..];
        assert i !in Roots(p) && r == Root(p0, d, i) == Rep(i);
        CompressForest(p, d, i);
        forall j | 0 <= j < parent.Length ensures Root(p[i := r], d, j) == Root(p, d, j) { CompressRoot(p, d, i, j); }
        parent[i] := r;
        assert parent[..] == p[i := r];
      } else {
        r := i;
      }
    }

    /** in_same_set. */
    method InSameSet(i: int, j: int) returns (same: bool)
      requires Valid() && 0 <= i < parent.Length && 0 <= j < parent.Length
      modifies parent
      ensures Valid() && (same <==> old(Rep(i)) == old(Rep(j)))
      ensures Roots(parent[..]) == old(Roots(parent[..]))
      ensures forall k :: 0 <= k < parent.Length ==> Rep(k) == old(Rep(k))
    {
      var a := FindSet(i);
      var b := FindSet(j);
      same := a == b;
    }

    /** The pointer, rank and size updates of unionSet. */
    method Link(ri: int, rj: int)
      requires 0 <= ri < parent.Length == rank.Length == size.Length && 0 <= rj < parent.Length && ri != rj
      requires parent != rank && parent != size && rank != size
      modifies parent, rank, size
      ensures parent[..] == old(parent[..])[Loser(old(rank[..]), ri, rj) := Winner(old(rank[..]), ri, rj)]
      ensures rank[..] == NewRank(old(rank[..]), ri, rj)
      ensures size[..] == NewSize(old(size[..]), old(rank[..]), ri, rj)
    {
      if rank[ri] < rank[rj] {
        parent[ri] := rj;
        size[rj] := size[rj] + 1;
      } else {
        parent[rj] := ri;
        if rank[ri] == rank[rj] {
          rank[rj] := rank[rj] + 1;
          size[rj] := size[rj] + 1;
        }
      }
    }

    /** unionSet: exactly the classes of i and j become one, and the count of sets drops
        exactly when the number of roots does. */
    method UnionSet(i: int, j: int)
      requires Valid() && 0 <= i < parent.Length && 0 <= j < parent.Length
      modifies this`numSets, this`d, parent, rank, size
      ensures Valid()
      ensures old(Rep(i)) == old(Rep(j)) ==>
                numSets == old(numSets) && rank[..] == old(rank[..]) && size[..] == old(size[..]) && Roots(parent[..]) == old(Roots(parent[..]))
                && forall k :: 0 <= k < parent.Length ==> Rep(k) == old(Rep(k))
      ensures old(Rep(i)) != old(Rep(j)) ==>
                && var a, b := Loser(old(rank[..]), old(Rep(i)), old(Rep(j))), Winner(old(rank[..]), old(Rep(i)), old(Rep(j)));
                && numSets == old(numSets) - 1 && Roots(parent[..]) == old(Roots(parent[..])) - {a} && a in old(Roots(parent[..]))
                && rank[..] == NewRank(old(rank[..]), old(Rep(i)), old(Rep(j)))
                && size[..] == NewSize(old(size[..]), old(rank[..]), old(Rep(i)), old(Rep(j)))
                && forall k :: 0 <= k < parent.Length ==> Rep(k) == if old(Rep(k)) == a then b else old(Rep(k))
    {
      hide Root, Lifted;
      var same := InSameSet(i, j);
      if !same {
        var ri := FindSet(i);
        var rj := FindSet(j);
        ghost var p := parent[..];
        ghost var a, b := Loser(rank[..], ri, rj), Winner(rank[..], ri, rj);
        RootsAre(p, d, a);
        LinkForest(p, d, a, b);
        forall k | 0 <= k < parent.Length
          ensures Root(p[a := b], Lifted(p, d, a, b), k) == if Root(p, d, k) == a then b else Root(p, d, k)
        {
          LinkRoot(p, d, a, b, k);
        }
        Link(ri, rj);
        d := Lifted(p, d, a, b);
        numSets := numSets - 1;
      }
    }
  }
}
