/** fork() by stack copy, and the context switch that resumes the copy. Memory is
    word-addressed: word w is the eight bytes at address 8 * w; words hold 64-bit values. */
module Fork {
  import opened Words

  const FP_SLOT: int := 5   // FORK_FRAME_FP_SLOT

  type Mem = map<int, int>

  ghost predicate Mapped(m: Mem, lo: int, hi: int) { forall w :: lo <= w < hi ==> w in m }

  /** The address v points into the words lo .. hi. */
  predicate Points(v: int, lo: int, hi: int) { 8 * lo <= v < 8 * hi }

  ghost function Range(m: Mem, lo: int, hi: int): set<int> { set w | w in m && lo <= w < hi }

  // --------------------------------------------------------------- frame pointers

  /** Following saved frame pointers from slot a, all that point into the stack are aligned. */
  ghost predicate Aligned(m: Mem, lo: int, hi: int, a: int, seen: set<int>)
    requires lo <= a < hi && Mapped(m, lo, hi)
    decreases Range(m, lo, hi) - seen
  {
    a !in seen && Points(m[a], lo, hi) ==> m[a] % 8 == 0 && Aligned(m, lo, hi, m[a] / 8, seen + {a})
  }

  /** The slots that walk visits before it leaves the stack or comes back to a visited one. */
  ghost function Chain(m: Mem, lo: int, hi: int, a: int, seen: set<int>): set<int>
    requires lo <= a < hi && Mapped(m, lo, hi) && Aligned(m, lo, hi, a, seen)
    decreases Range(m, lo, hi) - seen
  {
    if a in seen || !Points(m[a], lo, hi) then seen else Chain(m, lo, hi, m[a] / 8, seen + {a})
  }

  /** m with words lo .. hi copied `shift` words up, the slots of `chain` moved by as much. */
  ghost function Clone(m: Mem, lo: int, hi: int, shift: int, chain: set<int>): Mem
    requires Mapped(m, lo, hi)
  {
    map w | w in m ::
      if lo + shift <= w < hi + shift then m[w - shift] + (if w - shift in chain then 8 * shift else 0) else m[w]
  }

  /** The two stacks, as fork() finds them: words lo .. hi of the parent's are in use, the
      child's ends `shift` words away, has room, and is elsewhere. */
  ghost predicate Stacks(m: Mem, lo: int, hi: int, shift: int)
  {
    && 0 <= lo && lo + FP_SLOT < hi <= WORD / 8 - 1 && 0 <= lo + shift && hi + shift <= WORD / 8 - 1
    && (hi + shift <= lo || hi <= lo + shift)
    && Mapped(m, lo, hi) && Mapped(m, lo + shift, hi + shift)
  }

  /** Adding the wrapped distance moves an address by the true distance. */
  lemma WrapsBack(v: int, from: int, to: int)
    requires 0 <= v < WORD && 0 <= v + (to - from) < WORD && 0 <= from < WORD && 0 <= to < WORD
    ensures (v + (to - from) % WORD) % WORD == v + (to - from)
  {
    if to < from { assert (to - from) % WORD == to - from + WORD; }
  }

  /** Midway through the rebasing walk: the slots in `seen` are done, a is next. */
  ghost predicate Rebasing(m: Mem, lo: int, hi: int, shift: int, seen: set<int>, a: int)
    requires Mapped(m, lo, hi)
  {
    && lo <= a < hi && a in m && seen <= Range(m, lo, hi) && (forall s :: s in seen ==> Points(m[s], lo, hi))
    && Aligned(m, lo, hi, a, seen)
  }

  /** Slot a of the copy still points into the parent's stack just when the walk goes on. */
  lemma RebaseGuard(m: Mem, lo: int, hi: int, shift: int, seen: set<int>, a: int)
    requires Stacks(m, lo, hi, shift) && Rebasing(m, lo, hi, shift, seen, a)
    ensures var c := Clone(m, lo, hi, shift, seen);
            && a + shift in c && a in m
            && (Points(c[a + shift], lo, hi) <==> a !in seen && Points(m[a], lo, hi))
            && (a !in seen ==> c[a + shift] == m[a])
            && (!Points(c[a + shift], lo, hi) ==> Chain(m, lo, hi, a, seen) == seen)
  {
  }

  lemma RebaseStart(m: Mem, lo: int, hi: int, shift: int)
    requires Stacks(m, lo, hi, shift) && Aligned(m, lo, hi, lo + FP_SLOT, {})
    ensures Mapped(m, lo, hi) && Rebasing(m, lo, hi, shift, {}, lo + FP_SLOT)
  {
  }

  lemma CloneOne(m: Mem, lo: int, hi: int, shift: int, seen: set<int>, a: int)
    requires Stacks(m, lo, hi, shift) && lo <= a < hi && a !in seen
    ensures Clone(m, lo, hi, shift, seen)[a + shift := m[a] + 8 * shift] == Clone(m, lo, hi, shift, seen + {a})
  {
  }

  /** A word-aligned pointer into the parent's stack moves to the same slot of the child's. */
  lemma MovedWord(v: int, lo: int, hi: int, shift: int)
    requires 0 <= lo && hi <= WORD / 8 - 1 && 0 <= lo + shift && hi + shift <= WORD / 8 - 1
    requires Points(v, lo, hi) && v % 8 == 0
    ensures (v + 8 * shift % WORD) % WORD == v + 8 * shift && (v + 8 * shift) / 8 == v / 8 + shift
  {
    WrapsBack(v, 8 * hi, 8 * (hi + shift));
  }

  /** Rebasing one more slot of the copy. */
  lemma RebaseStep(m: Mem, lo: int, hi: int, shift: int, seen: set<int>, a: int)
    requires Stacks(m, lo, hi, shift) && Rebasing(m, lo, hi, shift, seen, a)
    requires a !in seen && Points(m[a], lo, hi)
    ensures Rebasing(m, lo, hi, shift, seen + {a}, m[a] / 8)
    ensures Chain(m, lo, hi, a, seen) == Chain(m, lo, hi, m[a] / 8, seen + {a})
    ensures Range(m, lo, hi) - (seen + {a}) < Range(m, lo, hi) - seen
    ensures (m[a] + 8 * shift % WORD) % WORD == m[a] + 8 * shift && (m[a] + 8 * shift) / 8 == m[a] / 8 + shift
  {
    assert a in Range(m, lo, hi) - seen;
    MovedWord(m[a], lo, hi, shift);
  }

  class Memory {
    var words: Mem

    /** memcpy of n words to a place elsewhere. */
    method Copy(to: int, from: int, n: int)
      requires 0 <= n && Mapped(words, from, from + n) && Mapped(words, to, to + n)
      requires to + n <= from || from + n <= to
      modifies this
      ensures words == Clone(old(words), from, from + n, to - from, {})
    {
      ghost var m := words;
      var i := 0;
      while i < n
        invariant 0 <= i <= n
        invariant words == Clone(m, from, from + i, to - from, {})
      {
        words := words[to + i := words[from + i]];
        i := i + 1;
      }
    }

    /** The walk of clone_stack_rebased along the copied frame pointers, from `first` on. */
    method RebaseChain(first: int, frame: int, parentTop: int, delta: int, ghost m: Mem, ghost shift: int)
      requires Stacks(m, frame, parentTop, shift) && Aligned(m, frame, parentTop, frame + FP_SLOT, {})
      requires words == Clone(m, frame, parentTop, shift, {}) && delta == 8 * shift % WORD && first == frame + FP_SLOT + shift
      modifies this
      ensures words == Clone(m, frame, parentTop, shift, Chain(m, frame, parentTop, frame + FP_SLOT, {}))
    {
      hide Clone, Range, Aligned, Chain, Mapped, Stacks;
      ghost var seen, a := {}, frame + FP_SLOT;
      var slot := first;
      RebaseStart(m, frame, parentTop, shift);
      RebaseGuard(m, frame, parentTop, shift, seen, a);
      while Points(words[slot], frame, parentTop)
        invariant Stacks(m, frame, parentTop, shift) && Mapped(m, frame, parentTop)
        invariant Rebasing(m, frame, parentTop, shift, seen, a) && slot == a + shift && slot in words
        invariant words == Clone(m, frame, parentTop, shift, seen)
        invariant Chain(m, frame, parentTop, a, seen) == Chain(m, frame, parentTop, frame + FP_SLOT, {})
        decreases Range(m, frame, parentTop) - seen
      {
        RebaseGuard(m, frame, parentTop, shift, seen, a);
        CloneOne(m, frame, parentTop, shift, seen, a);
        RebaseStep(m, frame, parentTop, shift, seen, a);
        words := words[slot := (words[slot] + delta) % WORD];
        seen := seen + {a};
        slot := words[slot] / 8;
        a := m[a] / 8;
        RebaseGuard(m, frame, parentTop, shift, seen, a);
      }
      RebaseGuard(m, frame, parentTop, shift, seen, a);
    }

    /** clone_stack_rebased(child, 8 * frame) with the ends of the two stacks at words
        parentTop and childTop; the result is the child's saved stack pointer. */
    method CloneStackRebased(frame: int, parentTop: int, childTop: int) returns (sp: int)
      requires Stacks(words, frame, parentTop, childTop - parentTop)
      requires Aligned(words, frame, parentTop, frame + FP_SLOT, {})
      modifies this
      ensures sp == frame + (childTop - parentTop)
      ensures words == Clone(old(words), frame, parentTop, childTop - parentTop,
                             Chain(old(words), frame, parentTop, frame + FP_SLOT, {}))
    {
      hide Clone, Range, Aligned, Chain;
      var delta := (8 * childTop - 8 * parentTop) % WORD;
      WrapsBack(8 * frame, 8 * parentTop, 8 * childTop);
      sp := (8 * frame + delta) % WORD / 8;
      ghost var m, shift := words, childTop - parentTop;
      Copy(sp, frame, parentTop - frame);
      RebaseChain(sp + FP_SLOT, frame, parentTop, delta, m, shift);
    }
  }

  // --------------------------------------------------------------- what the copy means

  /** Word by word: a word of the child's stack is the parent's, or, if that points into the
      part of the parent's stack that was copied, the same place in the child's; and no word
      outside the child's stack changes. */
  lemma {:induction false} ClonedWord(m: Mem, lo: int, hi: int, shift: int, w: int)
    requires Stacks(m, lo, hi, shift) && Aligned(m, lo, hi, lo + FP_SLOT, {}) && w in m
    ensures var c := Clone(m, lo, hi, shift, Chain(m, lo, hi, lo + FP_SLOT, {}));
            && w in c && (!(lo + shift <= w < hi + shift) ==> c[w] == m[w])
            && (lo + shift <= w < hi + shift ==>
                  c[w] == m[w - shift] || (8 * lo <= m[w - shift] < 8 * hi && c[w] == m[w - shift] + 8 * shift))
    ensures var c, fp := Clone(m, lo, hi, shift, Chain(m, lo, hi, lo + FP_SLOT, {})), lo + FP_SLOT;
            c[fp + shift] == if 8 * lo <= m[fp] < 8 * hi then m[fp] + 8 * shift else m[fp]
  {
    hide Aligned, Chain;
    ChainPoints(m, lo, hi, lo + FP_SLOT, {});
    ChainStarts(m, lo, hi, lo + FP_SLOT);
  }

  lemma {:induction false} ChainPoints(m: Mem, lo: int, hi: int, a: int, seen: set<int>)
    requires lo <= a < hi && Mapped(m, lo, hi) && Aligned(m, lo, hi, a, seen)
    requires forall s :: s in seen ==> s in m && Points(m[s], lo, hi)
    ensures forall s :: s in Chain(m, lo, hi, a, seen) ==> s in m && Points(m[s], lo, hi)
    ensures seen <= Chain(m, lo, hi, a, seen)
    decreases Range(m, lo, hi) - seen
  {
    if a !in seen && Points(m[a], lo, hi) { ChainPoints(m, lo, hi, m[a] / 8, seen + {a}); }
  }

  lemma ChainStarts(m: Mem, lo: int, hi: int, a: int)
    requires lo <= a < hi && Mapped(m, lo, hi) && Aligned(m, lo, hi, a, {})
    ensures a in Chain(m, lo, hi, a, {}) <==> Points(m[a], lo, hi)
  {
    if Points(m[a], lo, hi) { ChainPoints(m, lo, hi, m[a] / 8, {} + {a}); }
  }

  /** The frame pointers a debugger sees from frame pointer v on, up to n of them. */
  ghost function Backtrace(m: Mem, lo: int, hi: int, v: int, n: nat): (t: seq<int>)
    requires Mapped(m, lo, hi)
    ensures 1 <= |t| <= n + 1
    decreases n
  {
    if n == 0 || !Points(v, lo, hi) then [v] else [v] + Backtrace(m, lo, hi, m[v / 8], n - 1)
  }

  /** A parent's frame pointer as the child has it. */
  function Moved(v: int, lo: int, hi: int, shift: int): int { if Points(v, lo, hi) then v + 8 * shift else v }

  /** Saved frame pointers as compiled code leaves them: each points above its own slot. */
  ghost predicate Ascending(m: Mem, lo: int, hi: int, a: int)
    requires lo <= a < hi && Mapped(m, lo, hi)
    decreases hi - a
  {
    Points(m[a], lo, hi) ==> m[a] % 8 == 0 && a < m[a] / 8 && Ascending(m, lo, hi, m[a] / 8)
  }

  /** Such a chain is aligned, and visits nothing between its first two slots or below. */
  lemma {:induction false} AscendingChain(m: Mem, lo: int, hi: int, a: int, seen: set<int>)
    requires lo <= a < hi && Mapped(m, lo, hi) && Ascending(m, lo, hi, a) && forall s :: s in seen ==> s < a
    ensures Aligned(m, lo, hi, a, seen) && seen <= Chain(m, lo, hi, a, seen)
    ensures forall w :: w in Chain(m, lo, hi, a, seen) && w !in seen ==> a <= w < hi
    decreases hi - a
  {
    if Points(m[a], lo, hi) { AscendingChain(m, lo, hi, m[a] / 8, seen + {a}); }
  }

  /** Slot a of the chain is rebased exactly if it points into the stack. */
  lemma {:induction false} ChainMember(m: Mem, lo: int, hi: int, a: int, seen: set<int>)
    requires lo <= a < hi && Mapped(m, lo, hi) && Ascending(m, lo, hi, a) && forall s :: s in seen ==> s < a
    requires Aligned(m, lo, hi, a, seen)
    ensures a in Chain(m, lo, hi, a, seen) <==> Points(m[a], lo, hi)
  {
    if Points(m[a], lo, hi) { AscendingChain(m, lo, hi, m[a] / 8, seen + {a}); }
  }

  /** The child's backtrace follows the parent's, each frame moved to the child's stack, as
      far as the parent's goes. It ends there too, unless the parent's last frame pointer
      happens to point into the child's stack. */
  lemma {:induction false} BacktraceMoved(m: Mem, lo: int, hi: int, shift: int, a: int, seen: set<int>, n: nat)
    requires Stacks(m, lo, hi, shift) && lo <= a < hi && Ascending(m, lo, hi, a)
    requires (forall s :: s in seen ==> s < a) && Aligned(m, lo, hi, a, seen)
    ensures var c := Clone(m, lo, hi, shift, Chain(m, lo, hi, a, seen));
            && Mapped(c, lo + shift, hi + shift)
            && var parent, child := Backtrace(m, lo, hi, m[a], n), Backtrace(c, lo + shift, hi + shift, c[a + shift], n);
               && |parent| <= |child| && (forall i :: 0 <= i < |parent| ==> child[i] == Moved(parent[i], lo, hi, shift))
               && (|parent| == |child| <==> |parent| == n + 1 || !Points(parent[|parent| - 1], lo + shift, hi + shift))
    decreases n
  {
    ChainMember(m, lo, hi, a, seen);
    var v := m[a];
    assert Clone(m, lo, hi, shift, Chain(m, lo, hi, a, seen))[a + shift] == Moved(v, lo, hi, shift);
    if n > 0 && Points(v, lo, hi) {
      BacktraceMoved(m, lo, hi, shift, v / 8, seen + {a}, n - 1);
      assert (v + 8 * shift) / 8 == v / 8 + shift;
    }
  }
}
