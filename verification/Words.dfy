/** Unsigned machine words as natural numbers, with C's bitwise operators
    defined bit by bit, and the arithmetic meaning of every mask the paging
    code applies to a table word. */
module Words {

  const WORD: nat := 0x1_0000_0000_0000_0000  // 2^64
  const PAGE: nat := 0x1000
  const FRAMES: nat := 0x100_0000_0000        // 2^40 frame numbers, bits 51-12

  /** C's `a & b`. */
  function And(a: nat, b: nat): nat
  {
    if a == 0 || b == 0 then 0
    else 2 * And(a / 2, b / 2) + (if a % 2 == 1 && b % 2 == 1 then 1 else 0)
  }

  /** C's `a | b`. */
  function Or(a: nat, b: nat): nat
  {
    if a == 0 then b else if b == 0 then a
    else 2 * Or(a / 2, b / 2) + (if a % 2 == 1 || b % 2 == 1 then 1 else 0)
  }

  /** C's `~a` on a 64-bit word. */
  function Not(a: nat): nat
    requires a < WORD
  {
    WORD - 1 - a
  }

  /** C's `a << k`, before truncation to the word size. */
  function Shl(a: nat, k: nat): nat
    decreases k
  {
    if k == 0 then a else 2 * Shl(a, k - 1)
  }

  /** C's `a >> k`. */
  function Shr(a: nat, k: nat): nat
    decreases k
  {
    if k == 0 then a else Shr(a / 2, k - 1)
  }

  /** The low k bits. */
  function Low(a: nat, k: nat): nat
    decreases k
  {
    if k == 0 then 0 else 2 * Low(a / 2, k - 1) + a % 2
  }

  /** k ones. */
  function Ones(k: nat): nat
  {
    if k == 0 then 0 else 2 * Ones(k - 1) + 1
  }

  /** Bit k of a word. */
  predicate BitAt(w: nat, k: nat)
    decreases k
  {
    if k == 0 then w % 2 == 1 else BitAt(w / 2, k - 1)
  }

  lemma {:induction false} BitZero(k: nat)
    ensures !BitAt(0, k)
  {
    if k > 0 { BitZero(k - 1); }
  }

  lemma AndHalves(a: nat, b: nat)
    ensures And(a, b) / 2 == And(a / 2, b / 2) && (And(a, b) % 2 == 1 <==> a % 2 == 1 && b % 2 == 1)
  {
  }

  lemma OrHalves(a: nat, b: nat)
    ensures Or(a, b) / 2 == Or(a / 2, b / 2) && (Or(a, b) % 2 == 1 <==> a % 2 == 1 || b % 2 == 1)
  {
  }

  lemma {:induction false} BitAnd(a: nat, b: nat, k: nat)
    ensures BitAt(And(a, b), k) == (BitAt(a, k) && BitAt(b, k))
    decreases k
  {
    hide And;
    AndHalves(a, b);
    if k > 0 { BitAnd(a / 2, b / 2, k - 1); }
  }

  lemma {:induction false} BitOr(a: nat, b: nat, k: nat)
    ensures BitAt(Or(a, b), k) == (BitAt(a, k) || BitAt(b, k))
    decreases k
  {
    hide Or;
    OrHalves(a, b);
    if k > 0 { BitOr(a / 2, b / 2, k - 1); }
  }

  lemma {:induction false} BitComplement(a: nat, n: nat, k: nat)
    requires a <= Ones(n)
    ensures BitAt(Ones(n) - a, k) == (k < n && !BitAt(a, k))
    decreases k
  {
    if n == 0 { BitZero(k); }
    else if k > 0 { BitComplement(a / 2, n - 1, k - 1); }
  }

  lemma {:induction false} BitShl(a: nat, n: nat, k: nat)
    ensures BitAt(Shl(a, n), k) == (k >= n && BitAt(a, k - n))
    decreases k
  {
    if n > 0 && k > 0 { BitShl(a, n - 1, k - 1); }
  }

  lemma {:induction false} BitShr(a: nat, n: nat, k: nat)
    ensures BitAt(Shr(a, n), k) == BitAt(a, k + n)
    decreases n
  {
    if n > 0 { BitShr(a / 2, n - 1, k); }
  }

  lemma {:induction false} BitLow(a: nat, n: nat, k: nat)
    ensures BitAt(Low(a, n), k) == (k < n && BitAt(a, k))
    decreases k
  {
    if n == 0 { BitZero(k); }
    else if k > 0 { BitLow(a / 2, n - 1, k - 1); }
  }

  lemma {:induction false} BitOnes(n: nat, k: nat)
    ensures BitAt(Ones(n), k) == (k < n)
    decreases k
  {
    if n == 0 { BitZero(k); }
    else if k > 0 { BitOnes(n - 1, k - 1); }
  }

  lemma {:induction false} BitAbove(a: nat, n: nat, k: nat)
    requires a <= Ones(n) && n <= k
    ensures !BitAt(a, k)
    decreases n
  {
    if n == 0 { BitZero(k); } else { BitAbove(a / 2, n - 1, k - 1); }
  }

  /** Words with the same bits are equal. */
  lemma {:induction false} SameBits(a: nat, b: nat)
    requires forall k: nat :: BitAt(a, k) == BitAt(b, k)
    ensures a == b
    decreases a + b
  {
    if a + b > 0 {
      assert BitAt(a, 0) == BitAt(b, 0);
      forall k: nat ensures BitAt(a / 2, k) == BitAt(b / 2, k) {
        assert BitAt(a, k + 1) == BitAt(b, k + 1);
      }
      SameBits(a / 2, b / 2);
    }
  }

  lemma {:induction false} ShrAdd(w: nat, a: nat, b: nat)
    ensures Shr(w, a + b) == Shr(Shr(w, a), b)
    decreases a
  {
    if a > 0 { ShrAdd(w / 2, a - 1, b); }
  }

  function Pow2(k: nat): (p: nat)
    ensures p > 0
  {
    if k == 0 then 1 else 2 * Pow2(k - 1)
  }

  lemma Pow2Step(k: nat)
    ensures Pow2(k) == if k == 0 then 1 else 2 * Pow2(k - 1)
  {
  }

  lemma {:induction false} Pow2Sum(a: nat, b: nat)
    ensures Pow2(a + b) == Pow2(a) * Pow2(b)
  {
    hide Pow2;
    Pow2Step(a);
    if a > 0 {
      Pow2Step(a + b);
      assert a - 1 + b == a + b - 1;
      Pow2Sum(a - 1, b);
      TwiceTimes(Pow2(a - 1), Pow2(b));
    }
  }

  lemma TwiceTimes(x: nat, y: nat)
    ensures (2 * x) * y == 2 * (x * y)
  {
  }

  lemma Pow2Small()
    ensures Pow2(0) == 1 && Pow2(1) == 2 && Pow2(2) == 4 && Ones(1) == 1
  {
  }

  lemma Pow2Tiny()
    ensures Pow2(1) == 2 && Pow2(3) == 8 && Pow2(7) == 0x80 && Pow2(9) == 0x200 && Pow2(11) == 0x800
  {
  }

  lemma Pow2Values()
    ensures Pow2(7) == 0x80 && Pow2(9) == 0x200 && Pow2(12) == PAGE && Pow2(21) == 0x20_0000
    ensures Pow2(30) == 0x4000_0000 && Pow2(39) == 0x80_0000_0000 && Pow2(40) == FRAMES
    ensures Pow2(52) == PAGE * FRAMES && Pow2(63) == 0x8000_0000_0000_0000 && Pow2(64) == WORD
  {
    hide Pow2;
    Pow2Tiny();
    Pow2Sum(9, 3); Pow2Sum(12, 9); Pow2Sum(21, 9); Pow2Sum(30, 9); Pow2Sum(39, 1);
    Pow2Sum(40, 12); Pow2Sum(52, 11); Pow2Sum(63, 1);
  }

  lemma QuotientUnique(w: nat, d: nat, q: nat, r: nat)
    requires d > 0 && r < d && w == d * q + r
    ensures w % d == r && w / d == q
  {
    var q', r' := w / d, w % d;
    assert w == d * q' + r';
    assert q' < q ==> d * (q' + 1) <= d * q;
    assert q < q' ==> d * (q + 1) <= d * q';
  }

  lemma HalfThenDivide(w: nat, p: nat)
    requires p > 0
    ensures (w / 2) / p == w / (2 * p)
    ensures w % (2 * p) == 2 * ((w / 2) % p) + w % 2
  {
    var q, r := (w / 2) / p, (w / 2) % p;
    assert w / 2 == p * q + r;
    assert 2 * (p * q) == (2 * p) * q;
    QuotientUnique(w, 2 * p, q, 2 * r + w % 2);
  }

  lemma {:induction false} DivideIs(w: nat, k: nat)
    ensures Shr(w, k) == w / Pow2(k) && Low(w, k) == w % Pow2(k)
    decreases k
  {
    hide Pow2;
    Pow2Step(k);
    if k > 0 {
      DivideIs(w / 2, k - 1);
      HalfThenDivide(w, Pow2(k - 1));
    }
  }

  lemma {:induction false} MultiplyIs(w: nat, k: nat)
    ensures Shl(w, k) == w * Pow2(k) && Ones(k) == Pow2(k) - 1
    decreases k
  {
    hide Pow2;
    Pow2Step(k);
    if k > 0 {
      MultiplyIs(w, k - 1);
      assert w * (2 * Pow2(k - 1)) == 2 * (w * Pow2(k - 1));
    }
  }

  /** Shifts and low-bit masks as arithmetic. */
  lemma ShiftIs(w: nat, k: nat)
    ensures Shr(w, k) == w / Pow2(k) && Shl(w, k) == w * Pow2(k)
    ensures Low(w, k) == w % Pow2(k) && Ones(k) == Pow2(k) - 1
  {
    hide *;
    DivideIs(w, k);
    MultiplyIs(w, k);
  }
}
