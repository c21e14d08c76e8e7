/** The 64-bit table word of 4-level paging: which bits mean what, and what
    every word expression of the walker decodes to. */
module PageEntry {
  import opened Words

  const PRESENT: nat := 0x1
  const WRITE: nat := 0x2
  const USER: nat := 0x4
  const PS: nat := 0x80
  const NX: nat := 0x8000_0000_0000_0000
  const FRAME_MASK: nat := 0x000F_FFFF_FFFF_F000
  const PAGE_ALIGN: nat := 0xFFFF_FFFF_FFFF_F000  // ~0xFFF

  /** The named flags of a table word, by bit position. */
  datatype Flag = FPresent | FWrite | FUser | FPs | FNx

  function BitNo(f: Flag): nat
  {
    match f case FPresent => 0 case FWrite => 1 case FUser => 2 case FPs => 7 case FNx => 63
  }

  predicate Has(w: nat, f: Flag) { BitAt(w, BitNo(f)) }

  /** The remaining bits outside the frame field: PWT, PCD, A, D (6-3), G and the
      software bits (11-8), and bits 62-52. */
  predicate AttrBit(k: nat) { 3 <= k <= 6 || 8 <= k <= 11 || 52 <= k <= 62 }

  function AttrsOf(w: nat): set<nat> { set k: nat | k < 64 && AttrBit(k) && BitAt(w, k) }

  function FrameOf(w: nat): nat { Low(Shr(w, 12), 40) }

  datatype Entry = Entry(present: bool, write: bool, user: bool, ps: bool, nx: bool,
                         frame: nat, attrs: set<nat>)

  function Decode(w: nat): Entry
  {
    Entry(Has(w, FPresent), Has(w, FWrite), Has(w, FUser), Has(w, FPs), Has(w, FNx), FrameOf(w), AttrsOf(w))
  }

  const EMPTY := Entry(false, false, false, false, false, 0, {})

  /** Bits that lie outside the frame field. */
  predicate FlagBit(k: nat) { k < 12 || 52 <= k < 64 }

  lemma BitNoIsFlagBit(f: Flag)
    ensures FlagBit(BitNo(f)) && !AttrBit(BitNo(f))
  {
  }

  lemma MaskValues()
    ensures Shl(Ones(40), 12) == FRAME_MASK && Ones(64) == WORD - 1 && Ones(40) == FRAMES - 1
  {
    Pow2Values(); ShiftIs(Ones(40), 12); ShiftIs(0, 40); ShiftIs(0, 64);
  }

  lemma FieldBits(n: nat, a: nat, k: nat)
    ensures BitAt(Shl(Ones(n), a), k) == (a <= k < a + n)
  {
    BitShl(Ones(n), a, k);
    if k >= a { BitOnes(n, k - a); }
  }

  lemma MaskBits(k: nat)
    ensures BitAt(FRAME_MASK, k) == (12 <= k < 52)
    ensures BitAt(Not(FRAME_MASK), k) == FlagBit(k)
  {
    MaskValues();
    FieldBits(40, 12, k);
    BitComplement(Shl(Ones(40), 12), 64, k);
  }

  lemma FrameBits(w: nat, k: nat)
    ensures BitAt(FrameOf(w), k) == (k < 40 && BitAt(w, k + 12))
  {
    BitLow(Shr(w, 12), 40, k); BitShr(w, 12, k);
  }

  lemma FrameBound(w: nat)
    ensures FrameOf(w) < FRAMES
  {
    Pow2Values(); ShiftIs(Shr(w, 12), 40);
  }

  /** PAGE_GET_ADDR: masking an entry yields its frame's address. */
  lemma GetAddr(w: nat)
    ensures And(w, FRAME_MASK) == FrameOf(w) * PAGE
  {
    hide And, FrameOf, Shl, BitAt, Pow2;
    forall k: nat ensures BitAt(And(w, FRAME_MASK), k) == BitAt(Shl(FrameOf(w), 12), k) {
      BitAnd(w, FRAME_MASK, k); MaskBits(k); BitShl(FrameOf(w), 12, k);
      if k >= 12 { FrameBits(w, k - 12); }
    }
    SameBits(And(w, FRAME_MASK), Shl(FrameOf(w), 12));
    Pow2Values(); ShiftIs(FrameOf(w), 12);
  }

  /** Two words with the same flag bits decode to entries that differ at most in the frame. */
  lemma SameFlags(w: nat, w': nat)
    requires forall k: nat :: FlagBit(k) ==> BitAt(w, k) == BitAt(w', k)
    ensures Decode(w) == Decode(w').(frame := FrameOf(w))
  {
    forall f: Flag ensures Has(w, f) == Has(w', f) { BitNoIsFlagBit(f); }
    assert AttrsOf(w) == AttrsOf(w');
  }

  lemma FrameAddress(x: nat)
    requires x < FRAMES
    ensures Shl(x, 12) == x * PAGE && x <= Ones(40)
  {
    Pow2Values(); ShiftIs(x, 12); MaskValues();
  }

  lemma ComposeBits(x: nat, flags: nat, k: nat)
    requires x <= Ones(40)
    ensures BitAt(Or(Shl(x, 12), flags), k) == ((12 <= k < 52 && BitAt(x, k - 12)) || BitAt(flags, k))
  {
    BitOr(Shl(x, 12), flags, k); BitShl(x, 12, k);
    if k >= 52 { BitAbove(x, 40, k - 12); }
  }

  lemma ComposeFrame(x: nat, flags: nat)
    requires x <= Ones(40)
    requires forall k: nat :: BitAt(flags, k) ==> FlagBit(k)
    ensures FrameOf(Or(Shl(x, 12), flags)) == x
  {
    hide Or, Shl, FrameOf, BitAt, Ones;
    var w := Or(Shl(x, 12), flags);
    forall k: nat ensures BitAt(FrameOf(w), k) == BitAt(x, k) {
      FrameBits(w, k); ComposeBits(x, flags, k + 12);
      if k >= 40 { BitAbove(x, 40, k); }
    }
    SameBits(FrameOf(w), x);
  }

  /** `x | flags` for a frame address x and a word without frame bits: no carry, no overlap. */
  lemma Compose(x: nat, flags: nat)
    requires x < FRAMES
    requires forall k: nat :: BitAt(flags, k) ==> FlagBit(k)
    ensures Decode(Or(x * PAGE, flags)) == Decode(flags).(frame := x)
  {
    FrameAddress(x);
    ComposeFrame(x, flags);
    forall k: nat | FlagBit(k) ensures BitAt(Or(Shl(x, 12), flags), k) == BitAt(flags, k) {
      ComposeBits(x, flags, k);
    }
    SameFlags(Or(Shl(x, 12), flags), flags);
  }

  lemma {:induction false} OnesMonotone(m: nat, n: nat)
    requires m <= n
    ensures Ones(m) <= Ones(n)
  {
    if m > 0 { OnesMonotone(m - 1, n - 1); }
  }

  /** `x & ~(2^m - 1)` clears the low m bits. */
  lemma AlignBits(x: nat, m: nat, n: nat)
    requires x <= Ones(n) && m <= n && Ones(m) <= Ones(n)
    ensures And(x, Ones(n) - Ones(m)) == Shl(Shr(x, m), m)
  {
    var mask := Ones(n) - Ones(m);
    forall k: nat ensures BitAt(And(x, mask), k) == BitAt(Shl(Shr(x, m), m), k) {
      BitAnd(x, mask, k); BitComplement(Ones(m), n, k); BitOnes(m, k);
      BitShl(Shr(x, m), m, k);
      if k >= m { BitShr(x, m, k - m); }
      if k >= n { BitAbove(x, n, k); }
    }
    SameBits(And(x, mask), Shl(Shr(x, m), m));
  }

  /** `x & (2^k - 1)` keeps the low k bits. */
  lemma LowBits(x: nat, k: nat)
    ensures And(x, Ones(k)) == Low(x, k)
  {
    forall j: nat ensures BitAt(And(x, Ones(k)), j) == BitAt(Low(x, k), j) {
      BitAnd(x, Ones(k), j); BitOnes(k, j); BitLow(x, k, j);
    }
    SameBits(And(x, Ones(k)), Low(x, k));
  }

  /** The page-offset masks. */
  lemma PageMasks(x: nat)
    requires x < WORD
    ensures And(x, 0xFFF) == x % PAGE && And(x, PAGE_ALIGN) == x / PAGE * PAGE
  {
    MaskValues(); Pow2Values();
    ShiftIs(x, 12); ShiftIs(Shr(x, 12), 12);
    LowBits(x, 12); AlignBits(x, 12, 64);
  }

  /** A nine-bit table index starting at bit k: `(v >> k) & 0x1FF`. */
  function IndexAt(v: nat, k: nat): nat { And(Shr(v, k), 0x1FF) }

  lemma IndexIs(v: nat, a: nat, k: nat)
    requires Pow2(a) == PAGE
    ensures IndexAt(v, a + k) == v / PAGE / Pow2(k) % 512
  {
    hide Shr, Shl, And, Low, Ones, Pow2;
    Pow2Values();
    ShrAdd(v, a, k);
    ShiftIs(v, a); ShiftIs(Shr(v, a), k); ShiftIs(Shr(v, a + k), 9);
    LowBits(Shr(v, a + k), 9);
  }

  /** Where the hardware looks: bits 0, 1, 2, 7 and 63, and the frame in bits 51 to 12. */
  lemma EntryBits(w: nat)
    ensures var e := Decode(w);
            && (e.present <==> w % 2 == 1) && (e.write <==> w / 2 % 2 == 1) && (e.user <==> w / 4 % 2 == 1)
            && (e.ps <==> w / 0x80 % 2 == 1) && (e.nx <==> w / 0x8000_0000_0000_0000 % 2 == 1)
            && e.frame == w / 0x1000 % 0x100_0000_0000
  {
    hide BitAt, FrameOf, AttrsOf, Pow2;
    Pow2Values(); Pow2Small();
    DigitIs(w, 0, 1); DigitIs(w, 1, 2); DigitIs(w, 2, 4); DigitIs(w, 7, 0x80); DigitIs(w, 63, 0x8000_0000_0000_0000);
    FrameIs(w, 12, 40);
  }

  lemma DigitIs(w: nat, k: nat, d: nat)
    requires Pow2(k) == d
    ensures d > 0 && (BitAt(w, k) <==> w / d % 2 == 1)
  {
    hide BitAt;
    BitIs(w, k);
  }

  lemma FrameIs(w: nat, a: nat, b: nat)
    requires a == 12 && b == 40 && Pow2(a) == 0x1000 && Pow2(b) == 0x100_0000_0000
    ensures FrameOf(w) == w / 0x1000 % 0x100_0000_0000
  {
    hide Shr, Low, Pow2;
    ShiftIs(w, a);
    ShiftIs(Shr(w, a), b);
  }

  lemma {:induction false} BitIs(w: nat, k: nat)
    ensures BitAt(w, k) <==> w / Pow2(k) % 2 == 1
    decreases k
  {
    hide Pow2;
    Pow2Step(k);
    if k > 0 {
      BitIs(w / 2, k - 1);
      HalfThenDivide(w, Pow2(k - 1));
    }
  }

  /** Rounding down to the two huge-page sizes. */
  lemma AlignDown(x: nat)
    requires x < WORD
    ensures And(x, Not(0x1F_FFFF)) == x / 0x20_0000 * 0x20_0000
    ensures And(x, Not(0x3FFF_FFFF)) == x / 0x4000_0000 * 0x4000_0000
  {
    MaskValues(); Pow2Values();
    ShiftIs(x, 21); ShiftIs(Shr(x, 21), 21); AlignBits(x, 21, 64);
    ShiftIs(x, 30); ShiftIs(Shr(x, 30), 30); AlignBits(x, 30, 64);
  }

  /** Bytes mapped by one leaf at table level 1 (4 KiB), 2 (2 MiB) and 3 (1 GiB), in frames. */
  function Span(level: nat): nat
    requires 1 <= level <= 3
  {
    if level == 1 then 1 else if level == 2 then 0x200 else 0x4_0000
  }

  /** The first frame a leaf at this level maps. */
  function LeafBase(frame: nat, level: nat): nat
    requires 1 <= level <= 3
  {
    if level == 1 then frame else if level == 2 then frame / 0x200 * 0x200 else frame / 0x4_0000 * 0x4_0000
  }

  /** The flags split_huge_entry keeps for pieces of table level `level`. */
  function SplitFlags(huge: nat, level: nat): nat
  {
    var flags := And(huge, Not(FRAME_MASK));
    if level == 1 then And(flags, Not(PS)) else flags
  }

  /** The base address split_huge_entry starts from. */
  function SplitBase(huge: nat, level: nat): nat
    requires 1 <= level <= 2
  {
    And(And(huge, FRAME_MASK), if level == 1 then Not(0x1F_FFFF) else Not(0x3FFF_FFFF))
  }

  /** One 512th of a huge mapping, one level down. */
  function PieceOf(e: Entry, level: nat, i: nat): Entry
    requires 1 <= level <= 2
  {
    e.(frame := LeafBase(e.frame, level + 1) + i * Span(level), ps := level != 1 && e.ps)
  }

  /** The PAT bit of a leaf entry: bit 7 in a 4 KiB entry, bit 12 in a larger one. */
  predicate PatBit(e: Entry, level: nat) { if level == 1 then e.ps else e.frame % 2 == 1 }

  /** Splitting keeps the memory type a leaf selects exactly if its PAT bit was clear. */
  lemma PatKeptIff(e: Entry, level: nat, i: nat)
    requires 1 <= level <= 2 && e.ps
    ensures (PatBit(PieceOf(e, level, i), level) == PatBit(e, level + 1)) <==> e.frame % 2 == 0
    ensures PieceOf(e, level, i).attrs == e.attrs
  {
    if level == 2 {
      assert LeafBase(e.frame, 3) % 2 == 0 by { assert LeafBase(e.frame, 3) == 2 * (e.frame / 0x4_0000 * 0x2_0000); }
      assert i * Span(2) == 2 * (i * 256);
    }
  }

  /** For instance: a 2 MiB page at address 0 with its PAT bit set loses it. */
  lemma PatLost(i: nat)
    ensures var e := Entry(true, true, false, true, false, 1, {});
            PatBit(e, 2) && !PatBit(PieceOf(e, 1, i), 1) && LeafBase(e.frame, 2) == 0
  {
  }

  lemma SplitBaseIs(huge: nat, level: nat)
    requires 1 <= level <= 2
    ensures SplitBase(huge, level) == LeafBase(FrameOf(huge), level + 1) * PAGE
    ensures LeafBase(FrameOf(huge), level + 1) + 512 * Span(level) <= FRAMES
  {
    GetAddr(huge); FrameBound(huge);
    AlignDown(FrameOf(huge) * PAGE);
    AlignFrame(FrameOf(huge), level);
  }

  lemma AlignFrame(f: nat, level: nat)
    requires 1 <= level <= 2 && f < FRAMES
    ensures level == 1 ==> f * PAGE / 0x20_0000 == f / 0x200 && f / 0x200 * 0x200 + 0x200 <= FRAMES
    ensures level == 2 ==> f * PAGE / 0x4000_0000 == f / 0x4_0000 && f / 0x4_0000 * 0x4_0000 + 0x4_0000 <= FRAMES
  {
    if level == 1 {
      QuotientUnique(f * PAGE, 0x20_0000, f / 0x200, f % 0x200 * PAGE);
    } else {
      QuotientUnique(f * PAGE, 0x4000_0000, f / 0x4_0000, f % 0x4_0000 * PAGE);
    }
  }

  lemma SplitFlagBits(huge: nat, level: nat, k: nat)
    ensures BitAt(SplitFlags(huge, level), k)
            == (BitAt(huge, k) && FlagBit(k) && (level != 1 || k != BitNo(FPs)))
  {
    var flags := And(huge, Not(FRAME_MASK));
    BitAnd(huge, Not(FRAME_MASK), k); MaskBits(k);
    BitAnd(flags, Not(PS), k);
    PsBits(k);
  }

  lemma PsBits(k: nat)
    ensures BitAt(Not(PS), k) == (k < 64 && k != BitNo(FPs))
  {
    MaskValues();
    FlagMaskBits(FPs, k);
    BitComplement(PS, 64, k);
  }

  /** The word stored for piece i decodes to piece i of the huge entry. */
  lemma SplitWordDecodes(huge: nat, level: nat, i: nat)
    requires 1 <= level <= 2 && i < 512
    ensures Decode(Or(SplitBase(huge, level) + i * (Span(level) * PAGE), SplitFlags(huge, level)))
            == PieceOf(Decode(huge), level, i)
  {
    var flags := SplitFlags(huge, level);
    var x := LeafBase(FrameOf(huge), level + 1) + i * Span(level);
    SplitBaseIs(huge, level);
    assert x < FRAMES && x * PAGE == SplitBase(huge, level) + i * (Span(level) * PAGE);
    forall k: nat ensures BitAt(flags, k) == (BitAt(huge, k) && FlagBit(k) && (level != 1 || k != BitNo(FPs))) {
      SplitFlagBits(huge, level, k);
    }
    Compose(x, flags);
    forall f: Flag ensures Has(flags, f) == (Has(huge, f) && (level != 1 || f != FPs)) { BitNoIsFlagBit(f); }
    assert AttrsOf(flags) == AttrsOf(huge);
  }

  function FlagMask(f: Flag): nat
  {
    match f
    case FPresent => PRESENT case FWrite => WRITE case FUser => USER case FPs => PS case FNx => NX
  }

  lemma FlagMaskBits(f: Flag, k: nat)
    ensures BitAt(FlagMask(f), k) == (k == BitNo(f))
  {
    hide Pow2, Shl, Shr, Low, Ones, BitAt;
    Pow2Values(); Pow2Small(); ShiftIs(1, BitNo(f));
    FieldBits(1, BitNo(f), k);
  }

  /** `w & PAGE_x` is nonzero exactly when the flag is set. */
  lemma TestFlag(w: nat, f: Flag)
    ensures And(w, FlagMask(f)) != 0 <==> Has(w, f)
  {
    var m := FlagMask(f);
    forall k: nat ensures BitAt(And(w, m), k) == (BitAt(w, k) && k == BitNo(f)) {
      BitAnd(w, m, k); FlagMaskBits(f, k);
    }
    BitZero(BitNo(f));
    if !Has(w, f) {
      forall k: nat ensures BitAt(And(w, m), k) == BitAt(0, k) { BitZero(k); }
      SameBits(And(w, m), 0);
    }
  }

  function WithFlag(e: Entry, f: Flag): Entry
  {
    match f
    case FPresent => e.(present := true) case FWrite => e.(write := true) case FUser => e.(user := true)
    case FPs => e.(ps := true) case FNx => e.(nx := true)
  }

  /** `w | PAGE_x` sets that flag and nothing else. */
  lemma SetFlag(w: nat, f: Flag)
    ensures Decode(Or(w, FlagMask(f))) == WithFlag(Decode(w), f)
  {
    var w' := Or(w, FlagMask(f));
    OrBits(w, FlagMask(f));
    forall k: nat ensures BitAt(w', k) == (BitAt(w, k) || k == BitNo(f)) { FlagMaskBits(f, k); }
    forall g: Flag ensures Has(w', g) == (Has(w, g) || f == g) { BitNoInjective(f, g); }
    BitNoIsFlagBit(f);
    SameFrame(w', w);
    assert AttrsOf(w') == AttrsOf(w);
  }

  lemma OrBits(a: nat, b: nat)
    ensures forall k: nat :: BitAt(Or(a, b), k) == (BitAt(a, k) || BitAt(b, k))
  {
    forall k: nat ensures BitAt(Or(a, b), k) == (BitAt(a, k) || BitAt(b, k)) { BitOr(a, b, k); }
  }

  lemma BitNoInjective(f: Flag, g: Flag)
    ensures BitNo(f) == BitNo(g) ==> f == g
  {
  }

  lemma SameFrame(w: nat, w': nat)
    requires forall k: nat :: 12 <= k < 52 ==> BitAt(w, k) == BitAt(w', k)
    ensures FrameOf(w) == FrameOf(w')
  {
    forall k: nat ensures BitAt(FrameOf(w), k) == BitAt(FrameOf(w'), k) { FrameBits(w, k); FrameBits(w', k); }
    SameBits(FrameOf(w), FrameOf(w'));
  }

  /** `z | (w & (PAGE_USER | PAGE_NX))` inherits those two flags. */
  lemma InheritFlags(z: nat, w: nat)
    ensures var e := Decode(z);
            Decode(Or(z, And(w, Or(USER, NX))))
            == e.(user := e.user || Decode(w).user, nx := e.nx || Decode(w).nx)
  {
    var m := Or(USER, NX);
    var w' := Or(z, And(w, m));
    OrBits(z, And(w, m));
    OrBits(FlagMask(FUser), FlagMask(FNx));
    forall k: nat ensures BitAt(And(w, m), k) == (BitAt(w, k) && (k == BitNo(FUser) || k == BitNo(FNx))) {
      BitAnd(w, m, k); FlagMaskBits(FUser, k); FlagMaskBits(FNx, k);
    }
    forall g: Flag ensures Has(w', g) == (Has(z, g) || (Has(w, g) && (g == FUser || g == FNx))) {
      BitNoInjective(FUser, g); BitNoInjective(FNx, g);
    }
    SameFrame(w', z);
    assert AttrsOf(w') == AttrsOf(z);
  }

  /** A bare frame address decodes to an absent entry. */
  lemma BareFrame(x: nat)
    requires x < FRAMES
    ensures Decode(x * PAGE) == EMPTY.(frame := x)
  {
    ZeroWord();
    forall k: nat ensures !BitAt(0, k) { BitZero(k); }
    Compose(x, 0);
  }

  lemma ZeroWord()
    ensures Decode(0) == EMPTY
  {
    forall k: nat ensures !BitAt(0, k) { BitZero(k); }
    forall k: nat ensures BitAt(FrameOf(0), k) == BitAt(0, k) { FrameBits(0, k); }
    SameBits(FrameOf(0), 0);
  }

  /** `frame | PAGE_PRESENT | PAGE_WRITE`: the entry that points at a new table. */
  lemma TableWordDecodes(x: nat)
    requires x < FRAMES
    ensures Decode(Or(Or(x * PAGE, PRESENT), WRITE)) == Entry(true, true, false, false, false, x, {})
  {
    BareFrame(x);
    SetFlag(x * PAGE, FPresent);
    SetFlag(Or(x * PAGE, PRESENT), FWrite);
  }
}
