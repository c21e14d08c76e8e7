/** The i386 frame allocator: a bitmap of frames and the page table entries that hold them. */
module Frames {
  import opened Words

  /** A page table entry, as the PTE_ macros read and write it. */
  datatype Pte = Pte(present: bool, write: bool, user: bool, frame: nat)

  const ZERO: Pte := Pte(false, false, false, 0)

  /** Frames marked in the bitmap, and the entries. */
  datatype State = State(used: set<nat>, ptes: map<nat, Pte>)

  // ------------------------------------------------------------- the allocator on values

  /** f is the lowest of n frames not in use. */
  ghost predicate LowestFree(used: set<nat>, n: nat, f: nat) { f < n && f !in used && forall g: nat :: g < f ==> g in used }

  ghost predicate Full(used: set<nat>, n: nat) { forall g: nat :: g < n ==> g in used }

  /** alloc_frame on entry p, given the frame first_frame() finds: an entry whose frame field
      is nonzero is left alone. */
  function Alloc(s: State, p: nat, f: nat, kernel: bool, writeable: bool): State
    requires p in s.ptes
  {
    if s.ptes[p].frame != 0 then s
    else State(s.used + {f}, s.ptes[p := Pte(true, s.ptes[p].write || writeable, s.ptes[p].user || !kernel, f)])
  }

  /** free_frame on entry p: frame number zero reads as nothing to free. */
  function Release(s: State, p: nat): State
    requires p in s.ptes
  {
    if s.ptes[p].frame == 0 then s else State(s.used - {s.ptes[p].frame}, s.ptes[p := ZERO])
  }

  ghost predicate Holds(s: State, p: nat, f: nat) { p in s.ptes && s.ptes[p].present && s.ptes[p].frame == f }

  ghost predicate Held(s: State, f: nat) { exists p :: Holds(s, p, f) }

  /** No two present entries hold the same frame, every held frame is marked, every marked
      frame but frame 0 is held, and an entry that is not present is zero in its frame. */
  ghost predicate Inv(s: State, n: nat)
  {
    && (forall p, q :: p in s.ptes && q in s.ptes && s.ptes[p].present && s.ptes[q].present && s.ptes[p].frame == s.ptes[q].frame ==> p == q)
    && (forall p :: p in s.ptes && s.ptes[p].present ==> s.ptes[p].frame in s.used)
    && (forall f :: f in s.used ==> f < n && (f == 0 || Held(s, f)))
    && (forall p :: p in s.ptes && !s.ptes[p].present ==> s.ptes[p].frame == 0)
  }

  /** The bitmap marks exactly the frames that present entries hold. */
  ghost predicate Agrees(s: State) { forall f :: f in s.used <==> Held(s, f) }

  lemma AllocKeeps(s: State, n: nat, p: nat, f: nat, kernel: bool, writeable: bool)
    requires Inv(s, n) && p in s.ptes && LowestFree(s.used, n, f)
    ensures Inv(Alloc(s, p, f, kernel, writeable), n)
  {
    var t := Alloc(s, p, f, kernel, writeable);
    forall g | g in t.used ensures g < n && (g == 0 || Held(t, g)) {
      if s.ptes[p].frame == 0 {
        if g == f { assert Holds(t, p, g); }
        else if g != 0 {
          var q :| Holds(s, q, g);
          assert Holds(t, q, g);
        }
      }
    }
  }

  lemma ReleaseKeeps(s: State, n: nat, p: nat)
    requires Inv(s, n) && p in s.ptes
    ensures Inv(Release(s, p), n)
  {
    var t := Release(s, p);
    forall g | g in t.used ensures g < n && (g == 0 || Held(t, g)) {
      if s.ptes[p].frame != 0 && g != 0 {
        var q :| Holds(s, q, g);
        assert Holds(t, q, g);
      }
    }
  }

  /** Freeing keeps bitmap and entries in agreement. Allocating does exactly if the entry is
      not already present with frame 0: that frame would stay marked with no holder. */
  lemma AllocAgrees(s: State, n: nat, p: nat, f: nat, kernel: bool, writeable: bool)
    requires Inv(s, n) && Agrees(s) && p in s.ptes && LowestFree(s.used, n, f)
    ensures Agrees(Alloc(s, p, f, kernel, writeable)) <==> !Holds(s, p, 0)
    ensures Agrees(Release(s, p))
  {
    var t := Alloc(s, p, f, kernel, writeable);
    if Holds(s, p, 0) {
      assert 0 in t.used;
      assert !Held(t, 0);
    } else {
      assert s.ptes[p].frame == 0 ==> Holds(t, p, f);
      forall g ensures g in t.used <==> Held(t, g) { Transfer(s, t, p, g); }
    }
    var u := Release(s, p);
    forall g ensures g in u.used <==> Held(u, g) { Transfer(s, u, p, g); }
  }

  /** Only entry p changed hands. */
  lemma Transfer(s: State, t: State, p: nat, g: nat)
    requires forall q :: q != p ==> (q in s.ptes <==> q in t.ptes) && (q in s.ptes ==> s.ptes[q] == t.ptes[q])
    ensures Held(s, g) && !Holds(s, p, g) ==> Held(t, g)
    ensures Held(t, g) && !Holds(t, p, g) ==> Held(s, g)
  {
    if Held(s, g) && !Holds(s, p, g) {
      var q :| Holds(s, q, g);
      assert Holds(t, q, g);
    }
    if Held(t, g) && !Holds(t, p, g) {
      var q :| Holds(t, q, g);
      assert Holds(s, q, g);
    }
  }

  /** An allocated entry is present, writable exactly if asked, the user's exactly if not the
      kernel's, and holds the frame; a freed one is all zero. Other entries stay. */
  lemma EntryAfter(s: State, p: nat, f: nat, kernel: bool, writeable: bool, q: nat)
    requires p in s.ptes && q in s.ptes && s.ptes[p] == ZERO
    ensures var t := Alloc(s, p, f, kernel, writeable);
            && t.ptes.Keys == s.ptes.Keys && f in t.used
            && t.ptes[p].present && t.ptes[p].frame == f
            && (t.ptes[p].write <==> writeable) && (t.ptes[p].user <==> !kernel)
            && (q != p ==> t.ptes[q] == s.ptes[q])
            && (f != 0 ==> Release(t, p).ptes[p] == Pte(false, false, false, 0) && f !in Release(t, p).used)
  {
  }

  /** The smallest case of the leak: the first entry ever allocated, allocated again. */
  lemma FrameZeroLeaks()
    ensures var s := Alloc(State({}, map[0 := ZERO]), 0, 0, true, true);
            Agrees(s) && Holds(s, 0, 0) && LowestFree(s.used, 2, 1) && !Agrees(Alloc(s, 0, 1, true, true))
  {
    var s := Alloc(State({}, map[0 := ZERO]), 0, 0, true, true);
    assert Holds(s, 0, 0);
    var t := Alloc(s, 0, 1, true, true);
    assert 0 in t.used && !Held(t, 0);
  }

  datatype Op = OpAlloc(p: nat, kernel: bool, writeable: bool) | OpFree(p: nat)

  /** One call; an allocation with no frame left halts, which is a step that changes nothing. */
  ghost predicate Step(s: State, n: nat, op: Op, t: State)
  {
    op.p in s.ptes &&
    match op
    case OpAlloc(p, kernel, writeable) =>
      if s.ptes[p].frame != 0 || Full(s.used, n) then t == s
      else exists f :: LowestFree(s.used, n, f) && t == Alloc(s, p, f, kernel, writeable)
    case OpFree(p) => t == Release(s, p)
  }

  ghost predicate Run(states: seq<State>, n: nat, ops: seq<Op>)
  {
    |states| == |ops| + 1 && forall i :: 0 <= i < |ops| ==> Step(states[i], n, ops[i], states[i + 1])
  }

  /** Over every run of allocations and frees. */
  lemma {:induction false} RunKeeps(states: seq<State>, n: nat, ops: seq<Op>, k: nat)
    requires Run(states, n, ops) && Inv(states[0], n) && k < |states|
    ensures Inv(states[k], n)
  {
    if k > 0 {
      RunKeeps(states, n, ops, k - 1);
      var s, t, op := states[k - 1], states[k], ops[k - 1];
      assert Step(s, n, op, t);
      if op.OpFree? { ReleaseKeeps(s, n, op.p); }
      else if s.ptes[op.p].frame == 0 && !Full(s.used, n) {
        var f :| LowestFree(s.used, n, f) && t == Alloc(s, op.p, f, op.kernel, op.writeable);
        AllocKeeps(s, n, op.p, f, op.kernel, op.writeable);
      }
    }
  }

  /** What alloc gave an empty entry, free takes back, unless the frame was frame 0. */
  lemma AllocThenFree(s: State, n: nat, p: nat, f: nat, kernel: bool, writeable: bool)
    requires Inv(s, n) && p in s.ptes && s.ptes[p] == ZERO && LowestFree(s.used, n, f)
    ensures Release(Alloc(s, p, f, kernel, writeable), p) == s <==> f != 0
  {
    var t := Alloc(s, p, f, kernel, writeable);
    if f != 0 { assert Release(t, p).used == s.used; } else { assert t.used != s.used; }
  }

  // ------------------------------------------------------------- the bitmap

  /** Frame f is marked in the words ws. */
  ghost predicate Bit(ws: seq<nat>, f: nat) { f / 32 < |ws| && BitAt(ws[f / 32], f % 32) }

  ghost function Used(ws: seq<nat>): set<nat> { set f: nat | f < 32 * |ws| && Bit(ws, f) }

  lemma {:induction false} OneBit(j: nat, k: nat)
    ensures BitAt(Shl(1, j), k) <==> j == k
  {
    BitShl(1, j, k);
    if k > j { BitZero(k - j - 1); assert BitAt(1, k - j) == BitAt(0, k - j - 1); }
  }

  /** A word and-ed with a one-bit mask is nonzero just when it has the bit. */
  lemma MaskTest(w: nat, j: nat)
    ensures And(w, Shl(1, j)) != 0 <==> BitAt(w, j)
  {
    if BitAt(w, j) {
      BitAnd(w, Shl(1, j), j);
      OneBit(j, j);
      BitZero(j);
    } else {
      forall k: nat ensures BitAt(And(w, Shl(1, j)), k) == BitAt(0, k) {
        BitAnd(w, Shl(1, j), k);
        OneBit(j, k);
        BitZero(k);
      }
      SameBits(And(w, Shl(1, j)), 0);
    }
  }

  lemma SetMask(w: nat, j: nat, k: nat)
    ensures BitAt(Or(w, Shl(1, j)), k) <==> BitAt(w, k) || k == j
  {
    BitOr(w, Shl(1, j), k);
    OneBit(j, k);
  }

  /** ~(1 << j) in n bits. */
  function ClearMask(j: nat, n: nat): nat
    requires j < n
  {
    MaskFits(j, n);
    Ones(n) - Shl(1, j)
  }

  lemma {:induction false} MaskFits(j: nat, n: nat)
    requires j < n
    ensures Shl(1, j) <= Ones(n)
  {
    if j > 0 { MaskFits(j - 1, n - 1); }
  }

  lemma Unmask(w: nat, j: nat, n: nat, k: nat)
    requires j < n
    ensures BitAt(And(w, ClearMask(j, n)), k) <==> BitAt(w, k) && k < n && k != j
  {
    MaskFits(j, n);
    BitAnd(w, ClearMask(j, n), k);
    BitComplement(Shl(1, j), n, k);
    OneBit(j, k);
  }
}
