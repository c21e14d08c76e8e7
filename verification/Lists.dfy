/** The kernel's intrusive circular lists. A list is a ring of nodes, its head first; every
    operation relinks pointers in place and is stated as an operation on the sequence. What
    each `modifies` leaves out is every other list. */
module Lists {
  class Node {
    var next: Node?   // null stands for the poison values
    var prev: Node?

    /** INIT_LIST_HEAD: a list of its own. */
    constructor ()
      ensures Ring([this])
    {
      next := this;
      prev := this;
    }
  }

  function Succ(r: seq<Node>, i: nat): Node
    requires i < |r|
  {
    if i + 1 < |r| then r[i + 1] else r[0]
  }

  function Pred(r: seq<Node>, i: nat): Node
    requires i < |r|
  {
    if i > 0 then r[i - 1] else r[|r| - 1]
  }

  ghost predicate Distinct(r: seq<Node>) { forall i, j :: 0 <= i < j < |r| ==> r[i] != r[j] }

  ghost predicate Linked(r: seq<Node>, i: nat)
    requires i < |r|
    reads r[i]
  {
    r[i].next == Succ(r, i) && r[i].prev == Pred(r, i)
  }

  /** The nodes of r, linked in this order and back to the first. */
  ghost predicate Ring(r: seq<Node>)
    reads r
  {
    |r| > 0 && Distinct(r) && forall i :: 0 <= i < |r| ==> Linked(r, i)
  }

  ghost function Without(r: seq<Node>, k: nat): seq<Node>
    requires k < |r|
  {
    r[..k] + r[k + 1..]
  }

  ghost function With(r: seq<Node>, k: nat, n: Node): seq<Node>
    requires k < |r|
  {
    r[..k + 1] + [n] + r[k + 1..]
  }

  /** A ring has no first node. */
  lemma Rotate(a: seq<Node>, b: seq<Node>)
    requires Ring(a + b) && a != []
    ensures Ring(b + a)
  {
    var r, q := a + b, b + a;
    forall i | 0 <= i < |q| ensures Linked(q, i) {
      var j := if i < |b| then i + |a| else i - |b|;
      assert q[i] == r[j] && Linked(r, j);
    }
    forall i, j | 0 <= i < j < |q| ensures q[i] != q[j] {
      var x := if i < |b| then i + |a| else i - |b|;
      var y := if j < |b| then j + |a| else j - |b|;
      assert q[i] == r[x] && q[j] == r[y] && x != y;
    }
  }

  method InitListHead(n: Node)
    modifies n
    ensures Ring([n])
  {
    n.next := n;
    n.prev := n;
  }

  /** __list_add between two neighbours. */
  method LinkBetween(n: Node, prev: Node, next: Node, ghost r: seq<Node>, ghost k: nat)
    requires Ring(r) && k < |r| && n !in r && prev == r[k] && next == Succ(r, k)
    modifies n, prev, next
    ensures Ring(With(r, k, n))
  {
    next.prev := n;
    n.next := next;
    n.prev := prev;
    prev.next := n;
    ghost var q := With(r, k, n);
    forall i | 0 <= i < |q| ensures Linked(q, i) {
      if i != k + 1 { assert old(Linked(r, if i <= k then i else i - 1)); }
    }
  }

  /** list_add: right after `head`, wherever that is in its ring. */
  method ListAdd(n: Node, head: Node, ghost r: seq<Node>, ghost k: nat)
    requires Ring(r) && k < |r| && n !in r && head == r[k]
    modifies n, head, head.next
    ensures Ring(With(r, k, n))
  {
    assert Linked(r, k);
    LinkBetween(n, head, head.next, r, k);
  }

  /** list_add_tail is append. */
  method ListAddTail(n: Node, head: Node, ghost r: seq<Node>)
    requires Ring(r) && n !in r && head == r[0]
    modifies n, head, head.prev
    ensures Ring(r + [n])
  {
    assert Linked(r, 0);
    LinkBetween(n, head.prev, head, r, |r| - 1);
    assert With(r, |r| - 1, n) == r + [n];
  }

  /** __list_del_entry: the others close up; the entry's own links are left. */
  method Unlink(e: Node, ghost r: seq<Node>, ghost k: nat)
    requires Ring(r) && k < |r| && e == r[k]
    modifies e.prev, e.next
    ensures |r| > 1 ==> Ring(Without(r, k)) && e.next == old(e.next) && e.prev == old(e.prev)
  {
    assert Linked(r, k);
    var next, prev := e.next, e.prev;
    next.prev := prev;
    prev.next := next;
    ghost var q := Without(r, k);
    forall i | 0 <= i < |q| ensures Linked(q, i) { assert old(Linked(r, if i < k then i else i + 1)); }
  }

  /** list_del: remove, and poison the entry. */
  method ListDel(e: Node, ghost r: seq<Node>, ghost k: nat)
    requires Ring(r) && k < |r| && e == r[k]
    modifies e, e.prev, e.next
    ensures |r| > 1 ==> Ring(Without(r, k))
    ensures e.next == null && e.prev == null
  {
    Unlink(e, r, k);
    e.next := null;
    e.prev := null;
    assert e !in Without(r, k);
  }

  /** list_del_init_careful is remove; the entry becomes a list of its own. */
  method ListDelInitCareful(e: Node, ghost r: seq<Node>, ghost k: nat)
    requires Ring(r) && k < |r| && e == r[k]
    modifies e, e.prev, e.next
    ensures Ring([e])
    ensures |r| > 1 ==> Ring(Without(r, k))
  {
    Unlink(e, r, k);
    e.prev := e;
    e.next := e;
    assert e !in Without(r, k);
  }

  /** list_empty_careful. */
  method ListEmptyCareful(head: Node, ghost r: seq<Node>) returns (empty: bool)
    requires Ring(r) && head == r[0]
    ensures empty <==> r == [head]
  {
    assert Linked(r, 0);
    var next := head.next;
    empty := next == head && next == head.prev;
    assert |r| > 1 ==> r[0] != r[1];
  }

  /** list_replace: `new` takes the place of `old`, even alone. */
  method ListReplace(e: Node, new_: Node, ghost r: seq<Node>, ghost k: nat)
    requires Ring(r) && k < |r| && e == r[k] && new_ !in r
    modifies e, new_, e.prev, e.next
    ensures Ring(r[k := new_])
  {
    assert Linked(r, k);
    new_.next := e.next;
    new_.next.prev := new_;
    new_.prev := e.prev;
    new_.prev.next := new_;
    ghost var q := r[k := new_];
    forall i | 0 <= i < |q| ensures Linked(q, i) { assert old(Linked(r, i)); }
  }

  lemma Neighbours(r: seq<Node>, k: nat)
    requires Ring(r) && k < |r|
    ensures r[k].next == Succ(r, k) && r[k].prev == Pred(r, k) && Succ(r, k) in r && Pred(r, k) in r
  {
    assert Linked(r, k);
  }

  lemma WithoutAt(r: seq<Node>, j: nat)
    requires Distinct(r) && j < |r|
    ensures var p := Without(r, j);
            && |p| == |r| - 1 && r[j] !in p && Distinct(p) && (forall n :: n in p ==> n in r)
            && forall x {:trigger p[x]} :: 0 <= x < |p| ==> p[x] == if x < j then r[x] else r[x + 1]
  {
  }

  /** The sequence side of list_swap: take entry j out, put it in place of entry i, and put
      entry i after whatever now precedes the gap. */
  lemma SwapParts(r: seq<Node>, i: nat, j: nat, i1: nat, k: nat)
    requires Distinct(r) && i < |r| && j < |r| && i != j
    requires i1 == (if i < j then i else i - 1) && k == (if j > 0 then j - 1 else |r| - 2)
    ensures var p := Without(r, j);
            && |p| == |r| - 1 && p[i1] == r[i] && r[j] !in p && (forall n :: n in p ==> n in r)
            && var q := p[i1 := r[j]];
               && q[k] == (if Pred(r, j) == r[i] then r[j] else Pred(r, j))
               && r[i] !in q && (forall n :: n in q ==> n in r)
               && With(q, k, r[i]) == if j == 0 then q + [r[i]] else r[i := r[j]][j := r[i]]
  {
    hide Without, With;
    WithoutAt(r, j);
    var p := Without(r, j);
    var q := p[i1 := r[j]];
    assert q[k] == (if Pred(r, j) == r[i] then r[j] else Pred(r, j));
    assert r[i] !in q by { assert forall x :: 0 <= x < |q| && x != i1 ==> q[x] == p[x] && p[x] != p[i1]; }
    SwapJoin(r, i, j, p, i1, k);
  }

  lemma SwapJoin(r: seq<Node>, i: nat, j: nat, p: seq<Node>, i1: nat, k: nat)
    requires i < |r| && j < |r| && i != j
    requires i1 == (if i < j then i else i - 1) && k == (if j > 0 then j - 1 else |r| - 2)
    requires |p| == |r| - 1 && forall x {:trigger p[x]} :: 0 <= x < |p| ==> p[x] == if x < j then r[x] else r[x + 1]
    ensures With(p[i1 := r[j]], k, r[i]) == if j == 0 then p[i1 := r[j]] + [r[i]] else r[i := r[j]][j := r[i]]
  {
    var q := p[i1 := r[j]];
    var w := With(q, k, r[i]);
    if j > 0 {
      forall x | 0 <= x < |r| ensures w[x] == r[i := r[j]][j := r[i]][x] {
        if x != j { assert w[x] == q[if x < j then x else x - 1]; }
      }
    }
  }

  lemma SwapFirst(r: seq<Node>, i: nat)
    requires Distinct(r) && 0 < i < |r|
    ensures [r[i]] + Without(r, 0)[i - 1 := r[0]] == r[i := r[0]][0 := r[i]]
  {
  }

  /** list_swap: exchange two entries, adjacent in either order or not. */
  method ListSwap(e1: Node, e2: Node, ghost r: seq<Node>, ghost i: nat, ghost j: nat)
    requires Ring(r) && i < |r| && j < |r| && i != j && e1 == r[i] && e2 == r[j]
    modifies r
    ensures Ring(r[i := e2][j := e1])
  {
    hide Without, With, Linked, Distinct;
    Neighbours(r, j);
    var pos := e2.prev;
    ghost var i1, k := if i < j then i else i - 1, if j > 0 then j - 1 else |r| - 2;
    SwapParts(r, i, j, i1, k);
    ListDel(e2, r, j);
    Neighbours(Without(r, j), i1);
    ListReplace(e1, e2, Without(r, j), i1);
    ghost var q := Without(r, j)[i1 := e2];
    if pos == e1 {
      pos := e2;
    }
    Neighbours(q, k);
    ListAdd(e1, pos, q, k);
    if j == 0 {
      Rotate(q, [e1]);
      SwapFirst(r, i);
    }
  }

  lemma Reorder(a: seq<Node>, b: seq<Node>, c: seq<Node>)
    requires Distinct(a + b + c)
    ensures Distinct(a + c + b)
  {
    var r, q := a + b + c, a + c + b;
    forall i, j | 0 <= i < j < |q| ensures q[i] != q[j] {
      var x := if i < |a| then i else if i < |a + c| then i + |b| else i - |c|;
      var y := if j < |a| then j else if j < |a + c| then j + |b| else j - |c|;
      assert q[i] == r[x] && q[j] == r[y] && x != y;
    }
  }

  /** The six writes of list_bulk_move_tail, on a ring r with the range at a .. a + n. */
  method MoveRange(head: Node, first: Node, last: Node, ghost r: seq<Node>, ghost q: seq<Node>, ghost a: nat, ghost n: nat)
    requires Ring(r) && head == r[0] && 0 < a && 0 < n && a + n <= |r| && first == r[a] && last == r[a + n - 1]
    requires Distinct(q) && |q| == |r|
    requires forall i :: 0 <= i < |q| ==> q[i] == r[if i < a then i else if i < |r| - n then i + n else i - (|r| - n) + a]
    modifies r
    ensures Ring(q)
  {
    assert Linked(r, 0) && Linked(r, a) && Linked(r, a + n - 1);
    first.prev.next := last.next;
    last.next.prev := first.prev;

    head.prev.next := first;
    first.prev := head.prev;

    last.next := head;
    head.prev := last;
    forall i | 0 <= i < |q| ensures Linked(q, i) {
      assert old(Linked(r, if i < a then i else if i < |r| - n then i + n else i - (|r| - n) + a));
    }
  }

  /** list_bulk_move_tail: the range mid goes to the end, even if it is there already. */
  method ListBulkMoveTail(head: Node, first: Node, last: Node, ghost pre: seq<Node>, ghost mid: seq<Node>,
                          ghost post: seq<Node>)
    requires mid != [] && Ring([head] + pre + mid + post) && first == mid[0] && last == mid[|mid| - 1]
    modifies [head] + pre + mid + post
    ensures Ring([head] + pre + post + mid)
  {
    hide Linked;
    Reorder([head] + pre, mid, post);
    MoveRange(head, first, last, [head] + pre + mid + post, [head] + pre + post + mid, 1 + |pre|, |mid|);
  }

  /** list_cut_position: the entries up to and including `entry` go to `list`. */
  method ListCutPosition(list: Node, head: Node, entry: Node, ghost r: seq<Node>, ghost k: nat)
    requires Ring(r) && head == r[0] && k < |r| && entry == r[k] && list !in r
    modifies list, r
    ensures |r| == 1 ==> Ring(r) && unchanged(list)
    ensures |r| > 1 && k == 0 ==> Ring(r) && Ring([list])
    ensures k > 0 ==> Ring([list] + r[1..k + 1]) && Ring([head] + r[k + 1..])
  {
    assert Linked(r, 0) && Linked(r, k);
    if head.next == head {
      return;
    }
    if head.next == head.prev && entry != head && entry != head.next {
      return;
    }
    if entry == head {
      InitListHead(list);
    } else {
      var newFirst := entry.next;
      list.next := head.next;
      list.next.prev := list;
      list.prev := entry;
      entry.next := list;
      head.next := newFirst;
      newFirst.prev := head;
      ghost var p, q := [list] + r[1..k + 1], [head] + r[k + 1..];
      forall i | 0 <= i < |p| ensures Linked(p, i) {
        if i > 0 { assert old(Linked(r, i)); }
      }
      forall i | 0 <= i < |q| ensures Linked(q, i) {
        assert old(Linked(r, if i == 0 then 0 else i + k));
      }
    }
  }

  /** list_splice: the entries of `list` go in after `head`. */
  method ListSplice(list: Node, head: Node, ghost p: seq<Node>, ghost r: seq<Node>)
    requires Ring(p) && Ring(r) && list == p[0] && head == r[0] && forall i, j :: 0 <= i < |p| && 0 <= j < |r| ==> p[i] != r[j]
    modifies p[1..], r
    ensures Ring([head] + p[1..] + r[1..])
  {
    assert Linked(p, 0) && Linked(r, 0);
    if list.next != list {
      var first, last := list.next, list.prev;
      var next := head.next;
      first.prev := head;
      head.next := first;
      last.next := next;
      next.prev := last;
      ghost var q := [head] + p[1..] + r[1..];
      forall i | 0 <= i < |q| ensures Linked(q, i) {
        if 0 < i < |p| { assert old(Linked(p, i)); } else { assert old(Linked(r, if i == 0 then 0 else i - |p| + 1)); }
      }
    } else {
      assert [head] + p[1..] + r[1..] == r;
    }
  }

  lemma CutParts(list: Node, r: seq<Node>, k: nat, p: seq<Node>, q: seq<Node>)
    requires Distinct(r) && 0 < k < |r| && list !in r && p == [list] + r[1..k + 1] && q == [r[0]] + r[k + 1..]
    ensures [r[0]] + p[1..] + q[1..] == r
    ensures forall i, j :: 0 <= i < |p| && 0 <= j < |q| ==> p[i] != q[j]
    ensures (forall n :: n in p[1..] ==> n in r) && (forall n :: n in q ==> n in r)
  {
  }

  /** Cutting at any entry and splicing back restores the list. */
  method CutThenSplice(list: Node, head: Node, entry: Node, ghost r: seq<Node>, ghost k: nat)
    requires Ring(r) && head == r[0] && k < |r| && entry == r[k] && list !in r && Ring([list])
    modifies list, r
    ensures Ring(r)
  {
    hide Linked;
    ListCutPosition(list, head, entry, r, k);
    ghost var p, q := [list], r;
    if k > 0 {
      p, q := [list] + r[1..k + 1], [head] + r[k + 1..];
      CutParts(list, r, k, p, q);
    }
    ListSplice(list, head, p, q);
    assert [head] + p[1..] + q[1..] == r;
  }
}
