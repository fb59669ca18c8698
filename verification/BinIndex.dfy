/** Bin indexing of the mspace heap: the branch-free size-to-tree-bin computation, the
    discriminating bits of a size, and the bitmaps that mark non-empty bins.

    Sizes are `int`s below 2^32, with every shift, mask and wrap of the 32-bit `size_t`
    written out; bitmaps are `bv32`. */
module BinIndex {
  import opened Machine

  const NTREEBINS: int := 32
  const NSMALLBINS: int := 32

  function Pow2(k: nat): (r: int)
    ensures r >= 1
  {
    if k == 0 then 1 else 2 * Pow2(k - 1)
  }

  lemma Pow2Table()
    ensures Pow2(2) == 4 && Pow2(3) == 8 && Pow2(6) == 0x40 && Pow2(7) == 0x80 && Pow2(8) == 0x100 && Pow2(9) == 0x200
    ensures Pow2(10) == 0x400
    ensures Pow2(11) == 0x800 && Pow2(12) == 0x1000 && Pow2(13) == 0x2000 && Pow2(14) == 0x4000
    ensures Pow2(15) == 0x8000 && Pow2(16) == 0x1_0000 && Pow2(17) == 0x2_0000 && Pow2(18) == 0x4_0000
    ensures Pow2(19) == 0x8_0000 && Pow2(20) == 0x10_0000 && Pow2(21) == 0x20_0000 && Pow2(22) == 0x40_0000
    ensures Pow2(23) == 0x80_0000 && Pow2(24) == 0x100_0000 && Pow2(25) == 0x200_0000 && Pow2(31) == HALF_WORD
    ensures Pow2(32) == WORD
  {
    assert Pow2(2) == 4;
    assert Pow2(6) == 0x40;
    assert Pow2(10) == 0x400;
    assert Pow2(14) == 0x4000;
    assert Pow2(18) == 0x4_0000;
    assert Pow2(22) == 0x40_0000;
    assert Pow2(26) == 0x400_0000;
    assert Pow2(30) == 0x4000_0000;
  }

  lemma {:induction false} Pow2Mono(j: nat, k: nat)
    requires j <= k
    ensures Pow2(j) <= Pow2(k)
  {
    if j < k { Pow2Mono(j, k - 1); }
  }

  // ----- minsize_for_tree_index, leftshift_for_tree_index, compute_tree_index

  function MinSize(i: nat): int {
    Pow2(i / 2 + 8) + (if i % 2 == 1 then Pow2(i / 2 + 7) else 0)
  }

  /** `v & b` for a word `v` and a single-bit mask `b`. */
  function AndBit(v: int, b: int): int
    requires b > 0
  {
    v / b % 2 * b
  }

  /** The normalising steps of compute_tree_index: floor(log2(x)) of a 16-bit x, branch-free in
      the original. Every intermediate is a 32-bit unsigned word. */
  function TreeLog(x: int): int {
    var n0 := AndBit((x - 0x100) % WORD / 0x1_0000, 8);
    var y1 := x * (if n0 == 8 then 0x100 else 1);
    var k1 := AndBit((y1 - 0x1000) % WORD / 0x1_0000, 4);
    var y2 := y1 * (if k1 == 4 then 0x10 else 1);
    var k2 := AndBit((y2 - 0x4000) % WORD / 0x1_0000, 2);
    var y3 := y2 * (if k2 == 2 then 4 else 1);
    14 - (n0 + k1 + k2) + y3 / 0x8000
  }

  /** compute_tree_index */
  function ComputeTreeIndex(s: int): int {
    var x := s / 0x100;
    if x == 0 then 0
    else if x > 0xFFFF then NTREEBINS - 1
    else
      var k := TreeLog(x);
      if k < 0 then 0 else k * 2 + s / Pow2(k + 7) % 2
  }

  function LeftShift(i: nat): nat
    requires i < 32
  {
    if i == 31 then 0 else 31 - (i / 2 + 6)
  }

  /** Lower end and log2 of the half width of the sizes a tree bin's root distinguishes. */
  function RootLo(i: nat): int { if i == 31 then 0 else MinSize(i) }

  function RootK(i: nat): nat { if i == 31 then 31 else i / 2 + 6 }

  lemma NormaliseStep(y: int, c: int, b: int)
    requires 0 <= y < 0x1_0000 && ((c == 0x100 && b == 8) || (c == 0x1000 && b == 4) || (c == 0x4000 && b == 2))
    ensures AndBit((y - c) % WORD / 0x1_0000, b) == if y < c then b else 0
  {
    if y < c { assert (y - c) % WORD == y - c + WORD; } else { assert (y - c) % WORD == y - c; }
  }

  lemma TreeLogIsLog(x: int)
    requires 0 < x <= 0xFFFF
    ensures 0 <= TreeLog(x) <= 15 && Pow2(TreeLog(x)) <= x < Pow2(TreeLog(x) + 1)
  {
    hide AndBit, Pow2;
    NormaliseStep(x, 0x100, 8);
    var y1 := x * (if x < 0x100 then 0x100 else 1);
    NormaliseStep(y1, 0x1000, 4);
    var y2 := y1 * (if y1 < 0x1000 then 0x10 else 1);
    NormaliseStep(y2, 0x4000, 2);
    var y3 := y2 * (if y2 < 0x4000 then 4 else 1);
    var n := (if x < 0x100 then 8 else 0) + (if y1 < 0x1000 then 4 else 0) + (if y2 < 0x4000 then 2 else 0);
    assert TreeLog(x) == 14 - n + y3 / 0x8000;
    NormalisedLog(x, n, y3);
  }

  lemma NormalisedLog(x: int, n: int, y: int)
    requires 0x4000 <= y <= 0xFFFF && 0 <= n <= 14
    requires (n == 0 && y == x) || (n == 2 && y == 4 * x) || (n == 4 && y == 0x10 * x) || (n == 6 && y == 0x40 * x)
          || (n == 8 && y == 0x100 * x) || (n == 10 && y == 0x400 * x) || (n == 12 && y == 0x1000 * x)
            || (n == 14 && y == 0x4000 * x)
    ensures var k := 14 - n + y / 0x8000; 0 <= k <= 15 && Pow2(k) <= x < Pow2(k + 1)
  {
    hide Pow2;
    Pow2Table();
    SmallPow2Table();
    assert y / 0x8000 == if y < 0x8000 then 0 else 1;
  }

  lemma SmallPow2Table()
    ensures Pow2(0) == 1 && Pow2(1) == 2 && Pow2(4) == 0x10 && Pow2(5) == 0x20
  {
  }

  lemma Quotient(s: int, x: int)
    requires 0x100 <= s < WORD && x == s / 0x100
    ensures 0 < x && x * 0x100 <= s < (x + 1) * 0x100 && (x > 0xFFFF ==> s >= 0x100_0000)
  {
  }

  lemma IndexCases(s: int)
    requires 0x100 <= s < WORD
    ensures var x := s / 0x100;
            ComputeTreeIndex(s) ==
              if x > 0xFFFF then 31
              else if TreeLog(x) < 0 then 0
              else TreeLog(x) * 2 + s / Pow2(TreeLog(x) + 7) % 2
  {
    hide TreeLog, Pow2;
  }

  lemma TreeIndexBounds(s: int)
    requires 0x100 <= s < WORD
    ensures var i := ComputeTreeIndex(s); 0 <= i < 32 && MinSize(i) <= s && (i < 31 ==> s < MinSize(i + 1))
  {
    hide TreeLog, MinSize, Pow2, ComputeTreeIndex;
    var x := s / 0x100;
    Quotient(s, x);
    IndexCases(s);
    if x <= 0xFFFF {
      TreeLogIsLog(x);
      MiddleTreeIndex(s, x, TreeLog(x));
    } else {
      LastMinSize();
    }
  }

  lemma LastMinSize()
    ensures MinSize(31) <= 0x100_0000
  {
    hide Pow2;
    Pow2Table();
  }

  lemma MiddleTreeIndex(s: int, x: int, k: nat)
    requires 0 < x <= 0xFFFF && x * 0x100 <= s < (x + 1) * 0x100 && k == TreeLog(x)
    ensures var i := k * 2 + s / Pow2(k + 7) % 2; i < 32 && MinSize(i) <= s < MinSize(i + 1)
  {
    TreeLogIsLog(x);
    Pow2Shift(k);
    Pow2Shift(k + 1);
    var q := Pow2(k + 7);
    assert Pow2(k + 8) == 2 * q && Pow2(k + 9) == 4 * q;
    TreeIndexInOctave(s, k, q);
  }

  lemma TreeIndexInOctave(s: int, k: nat, q: int)
    requires k <= 15 && q == Pow2(k + 7) && 2 * q <= s < 4 * q
    ensures var i := k * 2 + s / q % 2; i < 32 && MinSize(i) <= s < MinSize(i + 1)
  {
    hide MinSize, Pow2;
    var b := s / q % 2;
    assert b == (if s < 3 * q then 0 else 1) by { HalfBit(s, q); }
    OctaveParts(k, q);
  }

  lemma OctaveParts(k: nat, q: int)
    requires q == Pow2(k + 7)
    ensures MinSize(2 * k) == 2 * q && MinSize(2 * k + 1) == 3 * q && MinSize(2 * k + 2) == 4 * q
  {
    MinSizeParts(k, 0);
    MinSizeParts(k, 1);
    MinSizeParts(k + 1, 0);
    assert Pow2(k + 8) == 2 * q;
  }

  lemma MinSizeParts(k: nat, b: nat)
    requires b <= 1
    ensures MinSize(2 * k + b) == 2 * Pow2(k + 7) + (if b == 1 then Pow2(k + 7) else 0)
  {
    HalfIndex(k, b);
    assert Pow2(k + 8) == 2 * Pow2(k + 7);
  }

  lemma HalfIndex(k: nat, b: nat)
    requires b <= 1
    ensures (2 * k + b) / 2 == k && (2 * k + b) % 2 == b
  {
  }

  lemma Pow2Shift(k: nat)
    ensures Pow2(k) * 0x100 == Pow2(k + 8)
  {
    assert Pow2(k + 2) == 4 * Pow2(k);
    assert Pow2(k + 4) == 4 * Pow2(k + 2);
    assert Pow2(k + 6) == 4 * Pow2(k + 4);
  }

  lemma HalfBit(s: int, q: int)
    requires q >= 1 && 2 * q <= s < 4 * q
    ensures s / q % 2 == (if s < 3 * q then 0 else 1)
  {
    if s < 3 * q { DivIs(s, q, 2); } else { DivIs(s, q, 3); }
  }

  lemma MulMono(a: int, b: int, c: int)
    requires a <= b && c >= 0
    ensures a * c <= b * c
  {
  }

  lemma DivIs(s: int, q: int, d: int)
    requires q >= 1 && d * q <= s < (d + 1) * q
    ensures s / q == d
  {
    var e := s / q;
    assert s == e * q + s % q;
    if e < d { MulMono(e + 1, d, q); }
    if e > d { MulMono(d + 1, e, q); }
  }

  lemma {:induction false} MinSizeMono(i: nat, j: nat)
    requires i <= j
    ensures MinSize(i) <= MinSize(j)
  {
    hide MinSize;
    if i < j {
      MinSizeMono(i, j - 1);
      if j % 2 == 1 { MinSizeHalf(j / 2); } else { MinSizeNext(j / 2); }
    }
  }

  lemma MinSizeHalf(k: nat)
    ensures MinSize(2 * k) <= MinSize(2 * k + 1)
  {
    hide MinSize;
    MinSizeParts(k, 0);
    MinSizeParts(k, 1);
  }

  lemma MinSizeNext(k: nat)
    requires k > 0
    ensures MinSize(2 * k - 1) <= MinSize(2 * k)
  {
    hide MinSize;
    MinSizeParts(k - 1, 1);
    MinSizeParts(k, 0);
    Pow2Doubles(k + 6);
  }

  lemma Pow2Doubles(k: nat)
    ensures Pow2(k + 1) == 2 * Pow2(k)
  {
  }

  /** Bins are ordered by size: a smaller bin index means a smaller size. */
  lemma TreeIndexOrders(a: int, b: int)
    requires 0x100 <= a < WORD && 0x100 <= b < WORD
    requires ComputeTreeIndex(a) < ComputeTreeIndex(b)
    ensures a < b
  {
    TreeIndexBounds(a);
    TreeIndexBounds(b);
    MinSizeMono(ComputeTreeIndex(a) + 1, ComputeTreeIndex(b));
  }

  // ----- walking the discriminating bits of a size

  /** `bits` is the size `s` shifted so that the bit of weight 2^k, the one that splits
      [lo, lo + 2^(k+1)) in half, is bit 31. */
  ghost predicate BitsAt(bits: int, s: int, lo: int, k: nat) {
    0 <= s - lo < 2 * Pow2(k) && bits * Pow2(k) == (s - lo) * HALF_WORD
  }

  function TopBit(bits: int): int { bits / HALF_WORD % 2 }

  function ShiftOut(bits: int): int { bits * 2 % WORD }

  /** leftshift_for_tree_index puts the first discriminating bit of every size of a bin at bit 31. */
  lemma RootBits(s: int)
    requires 0x100 <= s < WORD
    ensures var i := ComputeTreeIndex(s);
            0 <= i < 32 && BitsAt(s * Pow2(LeftShift(i)) % WORD, s, RootLo(i), RootK(i))
  {
    hide ComputeTreeIndex, MinSize;
    TreeIndexBounds(s);
    Pow2Table();
    if ComputeTreeIndex(s) < 31 { LowRootBits(s, ComputeTreeIndex(s)); }
  }

  lemma LowRootBits(s: int, i: nat)
    requires i < 31 && MinSize(i) <= s < MinSize(i + 1)
    ensures BitsAt(s * Pow2(LeftShift(i)) % WORD, s, RootLo(i), RootK(i))
  {
    RootSpan(i);
    Pow2Product(RootK(i), LeftShift(i));
    Pow2Table();
    ShiftedRemainder(s, RootLo(i), if i % 2 == 0 then 2 else 3, Pow2(RootK(i)), Pow2(LeftShift(i)));
  }

  lemma RootSpan(i: nat)
    requires i < 31
    ensures RootLo(i) == (if i % 2 == 0 then 2 else 3) * (2 * Pow2(RootK(i)))
    ensures MinSize(i + 1) == RootLo(i) + 2 * Pow2(RootK(i))
  {
    hide MinSize;
    var k := i / 2;
    var q := Pow2(k + 7);
    OctaveParts(k, q);
    assert q == 2 * Pow2(k + 6);
    if i % 2 == 0 { assert i == 2 * k; } else { assert i == 2 * k + 1; }
  }

  lemma {:induction false} Pow2Product(j: nat, k: nat)
    ensures Pow2(j) * Pow2(k) == Pow2(j + k)
  {
    if k > 0 {
      Pow2Product(j, k - 1);
      Twice(Pow2(j), Pow2(k - 1));
      assert j + k - 1 == j + (k - 1);
    }
  }

  lemma Twice(a: int, b: int)
    ensures a * (2 * b) == 2 * (a * b)
  {
  }

  lemma ShiftedRemainder(s: int, lo: int, m: int, h: int, f: int)
    requires h >= 1 && f >= 1 && h * f == HALF_WORD && lo == m * (2 * h) && 0 <= s - lo < 2 * h
    ensures s * f % WORD * h == (s - lo) * HALF_WORD
  {
    var d := s - lo;
    assert lo * f == m * WORD by { assert m * (2 * h) * f == 2 * m * (h * f); }
    assert s * f == d * f + m * WORD by { assert s * f == (d + lo) * f == d * f + lo * f; }
    assert 0 <= d * f < WORD by { assert d * f <= (2 * h - 1) * f; assert (2 * h - 1) * f == 2 * (h * f) - f; }
    ModIs(s * f, m, d * f);
    assert d * f * h == d * (h * f);
  }

  lemma ModIs(v: int, m: int, r: int)
    requires v == r + m * WORD && 0 <= r < WORD
    ensures v % WORD == r
  {
  }

  /** One step down: bit 31 says which half `s` lies in, and shifting it out lines up the next bit. */
  lemma BitsStep(bits: int, s: int, lo: int, k: nat)
    requires BitsAt(bits, s, lo, k) && k > 0
    ensures 0 <= bits < WORD
    ensures TopBit(bits) == (if s >= lo + Pow2(k) then 1 else 0)
    ensures BitsAt(ShiftOut(bits), s, if s >= lo + Pow2(k) then lo + Pow2(k) else lo, k - 1)
  {
    hide Pow2;
    Pow2Halves(k);
    BitsBound(bits, s - lo, Pow2(k));
    TopOf(bits);
    if s - lo >= Pow2(k) {
      HalveTop(bits, s - lo, Pow2(k - 1));
    } else {
      HalveLow(bits, s - lo, Pow2(k - 1));
    }
  }

  /** The top bit of a word, and what is left when it is shifted out. */
  lemma TopOf(bits: int)
    requires 0 <= bits < WORD
    ensures TopBit(bits) == if bits >= HALF_WORD then 1 else 0
    ensures ShiftOut(bits) == if bits >= HALF_WORD then bits * 2 - WORD else bits * 2
  {
  }

  lemma Pow2Halves(k: nat)
    requires k > 0
    ensures Pow2(k) == 2 * Pow2(k - 1)
  {
  }

  lemma BitsBound(bits: int, d: int, h: int)
    requires h >= 1 && 0 <= d < 2 * h && bits * h == d * HALF_WORD
    ensures 0 <= bits < WORD && (bits >= HALF_WORD <==> d >= h)
  {
    if bits < 0 { MulMono(bits, -1, h); }
    if bits >= WORD { MulMono(WORD, bits, h); }
    if bits >= HALF_WORD { MulMono(HALF_WORD, bits, h); } else { MulMono(bits, HALF_WORD - 1, h); }
  }

  lemma HalveTop(bits: int, d: int, g: int)
    requires bits * (2 * g) == d * HALF_WORD
    ensures (bits * 2 - WORD) * g == (d - 2 * g) * HALF_WORD
  {
  }

  lemma HalveLow(bits: int, d: int, g: int)
    requires bits * (2 * g) == d * HALF_WORD
    ensures (bits * 2) * g == d * HALF_WORD
  {
  }

  // ----- bitmaps

  function Double(x: bv32): bv32 { x << 1 }

  function Half(x: bv32): bv32 { x >> 1 }

  /** idx2bit */
  function Idx2Bit(i: nat): bv32 {
    if i == 0 then 1 else Double(Idx2Bit(i - 1))
  }

  /** The word that represents a bin index. */
  lemma IndexWord(j: nat) returns (b: bv32)
    requires j < 32
    ensures b < 32 && b as int == j && Idx2Bit(j) == (1 as bv32) << b
  {
    if j == 0 { b := 0; } else if j == 1 { b := 1; } else if j == 2 { b := 2; } else if j == 3 { b := 3; }
    else if j == 4 { b := 4; } else if j == 5 { b := 5; } else if j == 6 { b := 6; } else if j == 7 { b := 7; }
    else if j == 8 { b := 8; } else if j == 9 { b := 9; } else if j == 10 { b := 10; } else if j == 11 { b := 11; }
    else if j == 12 { b := 12; } else if j == 13 { b := 13; } else if j == 14 { b := 14; } else if j == 15 { b := 15; }
    else if j == 16 { b := 16; } else if j == 17 { b := 17; } else if j == 18 { b := 18; } else if j == 19 { b := 19; }
    else if j == 20 { b := 20; } else if j == 21 { b := 21; } else if j == 22 { b := 22; } else if j == 23 { b := 23; }
    else if j == 24 { b := 24; } else if j == 25 { b := 25; } else if j == 26 { b := 26; } else if j == 27 { b := 27; }
    else if j == 28 { b := 28; } else if j == 29 { b := 29; } else if j == 30 { b := 30; } else if j == 31 { b := 31; }
    Idx2BitShifts(b);
  }

  lemma {:induction false} Idx2BitShifts(b: bv32)
    requires b < 32
    ensures 0 <= b as int < 32 && Idx2Bit(b as int) == (1 as bv32) << b
    decreases b as int
  {
    if b != 0 {
      Predecessor(b);
      Idx2BitShifts(b - 1);
      ShiftOnce(b);
    }
  }

  lemma Predecessor(b: bv32)
    requires 0 < b < 32
    ensures (b - 1) as int == b as int - 1
  {
  }

  lemma ShiftOnce(b: bv32)
    requires 0 < b < 32
    ensures (1 as bv32) << b == ((1 as bv32) << (b - 1)) << 1
  {
  }

  lemma WordOrder(b: bv32, c: bv32)
    requires b < 32 && c < 32
    ensures b as int < c as int <==> b < c
  {
  }

  /** smallmap_is_marked, treemap_is_marked */
  predicate Marked(m: bv32, i: nat) {
    Meets(m, Idx2Bit(i))
  }

  predicate Meets(m: bv32, b: bv32) {
    m & b != 0
  }

  lemma DistinctBits(i: bv32, j: bv32)
    requires i < 32 && j < 32 && i != j
    ensures (1 as bv32 << i) & (1 << j) == 0
  {
  }

  lemma NonZeroBit(b: bv32)
    requires b < 32
    ensures (1 as bv32) << b != 0
  {
  }

  lemma OneBit(i: nat)
    requires i < 32
    ensures Idx2Bit(i) != 0
  {
    var b := IndexWord(i);
    NonZeroBit(b);
  }

  lemma DistinctMarks(i: nat, j: nat)
    requires i < 32 && j < 32 && i != j
    ensures Idx2Bit(i) & Idx2Bit(j) == 0
  {
    var b := IndexWord(i);
    var c := IndexWord(j);
    DistinctBits(b, c);
  }

  lemma OrSame(m: bv32, a: bv32)
    ensures (m | a) & a == a
    ensures (m & !a) & a == 0
  {
  }

  lemma OrOther(m: bv32, a: bv32, b: bv32)
    requires a & b == 0
    ensures (m | a) & b == m & b
  {
  }

  lemma AndOther(m: bv32, a: bv32, b: bv32)
    requires a & b == 0
    ensures (m & !a) & b == m & b
  {
  }

  lemma MarkedBit(m: bv32, j: nat, x: bv32)
    requires x == m & Idx2Bit(j)
    ensures Marked(m, j) == (x != 0)
  {
  }

  lemma SameMark(m: bv32, c: bv32, j: nat)
    requires c & Idx2Bit(j) == m & Idx2Bit(j)
    ensures Marked(c, j) <==> Marked(m, j)
  {
    var x := c & Idx2Bit(j);
    MarkedBit(m, j, x);
    MarkedBit(c, j, x);
  }

  lemma MarkOtherWord(m: bv32, i: nat, j: nat)
    requires i < 32 && j < 32 && i != j
    ensures (m | Idx2Bit(i)) & Idx2Bit(j) == m & Idx2Bit(j)
  {
    hide Idx2Bit;
    DistinctMarks(i, j);
    OrOther(m, Idx2Bit(i), Idx2Bit(j));
  }

  lemma ClearOtherWord(m: bv32, i: nat, j: nat)
    requires i < 32 && j < 32 && i != j
    ensures (m & !Idx2Bit(i)) & Idx2Bit(j) == m & Idx2Bit(j)
  {
    hide Idx2Bit;
    DistinctMarks(i, j);
    AndOther(m, Idx2Bit(i), Idx2Bit(j));
  }

  lemma MarkOther(m: bv32, c: bv32, i: nat, j: nat)
    requires i < 32 && j < 32 && i != j && c == m | Idx2Bit(i)
    ensures Marked(c, j) <==> Marked(m, j)
  {
    var x := m & Idx2Bit(j);
    assert x == c & Idx2Bit(j) by { MarkOtherWord(m, i, j); }
    SameMark(m, c, j);
  }

  lemma ClearOther(m: bv32, c: bv32, i: nat, j: nat)
    requires i < 32 && j < 32 && i != j && c == m & !Idx2Bit(i)
    ensures Marked(c, j) <==> Marked(m, j)
  {
    var x := m & Idx2Bit(j);
    assert x == c & Idx2Bit(j) by { ClearOtherWord(m, i, j); }
    SameMark(m, c, j);
  }

  lemma MarkSelf(m: bv32, c: bv32, i: nat)
    requires i < 32 && c == m | Idx2Bit(i)
    ensures Marked(c, i)
  {
    OneBit(i);
    OrSame(m, Idx2Bit(i));
  }

  lemma ClearSelf(m: bv32, c: bv32, i: nat)
    requires i < 32 && c == m & !Idx2Bit(i)
    ensures !Marked(c, i)
  {
    OrSame(m, Idx2Bit(i));
  }

  /** mark_smallmap, mark_treemap */
  lemma MarkMarks(m: bv32, c: bv32, i: nat, j: nat)
    requires i < 32 && j < 32 && c == m | Idx2Bit(i)
    ensures Marked(c, j) <==> i == j || Marked(m, j)
  {
    if i == j { MarkSelf(m, c, i); } else { MarkOther(m, c, i, j); }
  }

  /** clear_smallmap, clear_treemap */
  lemma ClearClears(m: bv32, c: bv32, i: nat, j: nat)
    requires i < 32 && j < 32 && c == m & !Idx2Bit(i)
    ensures Marked(c, j) <==> i != j && Marked(m, j)
  {
    if i == j { ClearSelf(m, c, i); } else { ClearOther(m, c, i, j); }
  }

  function LeastBit(x: bv32): bv32 { x & (0 - x) }

  function LeftBits(x: bv32): bv32 { (x << 1) | (0 - (x << 1)) }

  /** compute_bit2idx */
  function ComputeBit2Idx(x: bv32): bv32 {
    var y0 := x - 1;
    var k0 := (y0 >> 12) & 16; var y1 := y0 >> k0;
    var k1 := (y1 >> 5) & 8; var y2 := y1 >> k1;
    var k2 := (y2 >> 2) & 4; var y3 := y2 >> k2;
    var k3 := (y3 >> 1) & 2; var y4 := y3 >> k3;
    var k4 := y4 & 1; var y5 := y4 >> k4;
    k0 + k1 + k2 + k3 + k4 + y5
  }

  /** compute_bit2idx inverts a one-bit shift. */
  lemma Bit2IdxOfSingleBit(i: bv32)
    requires i < 32
    ensures ComputeBit2Idx(1 << i) == i
  {
  }

  lemma LeastBitIndexBits(x: bv32)
    requires x != 0
    ensures var r := ComputeBit2Idx(LeastBit(x)); r < 32 && x & (1 << r) != 0 && x & ((1 << r) - 1) == 0
  {
  }

  lemma BelowLeast(x: bv32, r: bv32, j: bv32)
    requires r < 32 && x & ((1 << r) - 1) == 0 && j < r
    ensures x & (1 << j) == 0
  {
  }

  /** The index the search macros compute is that of the lowest marked bin. */
  lemma LeastMarked(x: bv32)
    requires x != 0
    ensures var i := ComputeBit2Idx(LeastBit(x)) as int;
            0 <= i < 32 && Marked(x, i) && forall j: nat :: j < i ==> !Marked(x, j)
  {
    LeastBitIndexBits(x);
    var r := ComputeBit2Idx(LeastBit(x));
    Idx2BitShifts(r);
    forall j: nat | j < r as int
      ensures !Marked(x, j)
    {
      UnmarkedBelow(x, r, j);
    }
  }

  lemma UnmarkedBelow(x: bv32, r: bv32, j: nat)
    requires r < 32 && x & ((1 << r) - 1) == 0 && j < r as int < 32
    ensures !Marked(x, j)
  {
    var b := IndexWord(j);
    WordOrder(b, r);
    BelowLeast(x, r, b);
  }

  lemma NoneMarked(x: bv32)
    ensures x == 0 <==> forall j: nat :: j < 32 ==> !Marked(x, j)
  {
    if x != 0 { LeastMarked(x); }
  }

  lemma LeftBitsMask(i: bv32, j: bv32)
    requires i < 32 && j < 32
    ensures LeftBits(1 << i) & (1 << j) == if i < j then 1 << j else 0
  {
  }

  lemma AndIn(x: bv32, l: bv32, b: bv32)
    requires l & b == b
    ensures (l & x) & b == x & b
  {
  }

  lemma AndOut(x: bv32, l: bv32, b: bv32)
    requires l & b == 0
    ensures (l & x) & b == 0
  {
  }

  lemma LeftBitsWord(x: bv32, i: nat, j: nat)
    requires i < j < 32
    ensures (LeftBits(Idx2Bit(i)) & x) & Idx2Bit(j) == x & Idx2Bit(j)
  {
    var b := IndexWord(i);
    var c := IndexWord(j);
    LeftBitsMask(b, c);
    WordOrder(b, c);
    AndIn(x, LeftBits(Idx2Bit(i)), Idx2Bit(j));
  }

  lemma NotLeftBitsWord(x: bv32, i: nat, j: nat)
    requires j <= i < 32
    ensures (LeftBits(Idx2Bit(i)) & x) & Idx2Bit(j) == 0
  {
    var b := IndexWord(i);
    var c := IndexWord(j);
    LeftBitsMask(b, c);
    WordOrder(b, c);
    AndOut(x, LeftBits(Idx2Bit(i)), Idx2Bit(j));
  }

  /** left_bits(idx2bit(i)) & map keeps exactly the marks above i. */
  lemma LeftBitsMarked(x: bv32, c: bv32, i: nat, j: nat)
    requires i < 32 && j < 32 && c == LeftBits(Idx2Bit(i)) & x
    ensures Marked(c, j) <==> i < j && Marked(x, j)
  {
    if i < j {
      assert c & Idx2Bit(j) == x & Idx2Bit(j) by { LeftBitsWord(x, i, j); }
      SameMark(x, c, j);
    } else {
      assert c & Idx2Bit(j) == 0 by { NotLeftBitsWord(x, i, j); }
      MarkedBit(c, j, 0);
    }
  }

  // ----- the shifted map of small bins in mspace_malloc

  /** `x >> i` and `x << i`, one bit at a time. */
  function ShiftRight(x: bv32, i: nat): bv32 { if i == 0 then x else Half(ShiftRight(x, i - 1)) }

  function ShiftLeft(x: bv32, i: nat): bv32 { if i == 0 then x else Double(ShiftLeft(x, i - 1)) }

  lemma RightWord(x: bv32, b: bv32)
    ensures Meets(Half(x), b) <==> Meets(x, Double(b))
  {
  }

  lemma LeftWord(x: bv32, b: bv32)
    requires !Meets(b, 0x8000_0000)
    ensures Meets(Double(x), Double(b)) <==> Meets(x, b)
  {
  }

  lemma NotTopBit(i: nat)
    requires i < 31
    ensures !Meets(Idx2Bit(i), 0x8000_0000)
  {
    var b := IndexWord(i);
    WordOrder(b, 31);
    NotTopWord(b);
  }

  lemma NotTopWord(b: bv32)
    requires b < 31
    ensures (1 as bv32 << b) & 0x8000_0000 == 0
  {
  }

  lemma {:induction false} ShiftedRight(x: bv32, i: nat, j: nat)
    ensures Marked(ShiftRight(x, i), j) <==> Marked(x, i + j)
  {
    hide Meets, Half, Double;
    if i > 0 {
      RightWord(ShiftRight(x, i - 1), Idx2Bit(j));
      ShiftedRight(x, i - 1, j + 1);
    }
  }

  lemma {:induction false} ShiftedLeft(x: bv32, i: nat, j: nat)
    requires i + j < 32
    ensures Marked(ShiftLeft(x, i), i + j) <==> Marked(x, j)
  {
    hide Meets, Half, Double;
    if i > 0 {
      NotTopBit(i - 1 + j);
      LeftWord(ShiftLeft(x, i - 1), Idx2Bit(i - 1 + j));
      ShiftedLeft(x, i - 1, j);
    }
  }

  lemma LowTwo(y: bv32)
    ensures y & 3 != 0 <==> Marked(y, 0) || Marked(y, 1)
    ensures !y & 1 == if Marked(y, 0) then 0 else 1
  {
    hide Meets;
    FirstBits();
    LowTwoWord(y);
  }

  lemma FirstBits()
    ensures Idx2Bit(0) == 1 && Idx2Bit(1) == 2
  {
  }

  lemma LowTwoWord(y: bv32)
    ensures y & 3 != 0 <==> Meets(y, 1) || Meets(y, 2)
    ensures !y & 1 == if Meets(y, 1) then 0 else 1
  {
  }

  lemma {:induction false} ZeroBeyond(j: nat)
    requires j >= 32
    ensures Idx2Bit(j) == 0
  {
    if j == 32 { BeyondTop(); } else { ZeroBeyond(j - 1); }
  }

  lemma BeyondTop()
    ensures Idx2Bit(32) == 0
  {
    var b := IndexWord(31);
    WordOrder(b, 31);
    WordOrder(31, b);
    TopShift(b);
  }

  lemma TopShift(b: bv32)
    requires b == 31
    ensures (1 as bv32 << b) << 1 == 0
  {
  }

  lemma Unmarkable(x: bv32, j: nat)
    requires j >= 32
    ensures !Marked(x, j)
  {
    ZeroBeyond(j);
  }

  /** The low bits of `smallmap >> idx` are the marks of bins idx and idx + 1. */
  lemma SmallBits(x: bv32, y: bv32, i: nat)
    requires i < 32 && y == ShiftRight(x, i)
    ensures y & 3 != 0 <==> Marked(x, i) || (i < 31 && Marked(x, i + 1))
    ensures !y & 1 == if Marked(x, i) then 0 else 1
  {
    hide ShiftRight, Marked;
    LowTwo(y);
    ShiftedRight(x, i, 0);
    ShiftedRight(x, i, 1);
    if i == 31 { Unmarkable(x, 32); }
  }

  lemma SmallBitsLeft(x: bv32, y: bv32, i: nat)
    requires i < 32 && y == ShiftRight(x, i)
    ensures y != 0 <==> exists j: nat :: i <= j < 32 && Marked(x, j)
  {
    hide ShiftRight, Marked, ComputeBit2Idx, LeastBit;
    NoneMarked(y);
    forall j: nat | j < 32 && Marked(y, j)
      ensures i <= i + j < 32 && Marked(x, i + j)
    {
      ShiftedRight(x, i, j);
      if i + j >= 32 { Unmarkable(x, i + j); }
    }
    forall j: nat | i <= j < 32 && Marked(x, j)
      ensures y != 0
    {
      ShiftedRight(x, i, j - i);
    }
  }

  /** `(smallbits << idx) & left_bits(idx2bit(idx))` keeps the marks above idx. */
  lemma LeftSmallBits(x: bv32, c: bv32, i: nat, j: nat)
    requires i < 32 && j < 32 && c == ShiftLeft(ShiftRight(x, i), i) & LeftBits(Idx2Bit(i))
    ensures Marked(c, j) <==> i < j && Marked(x, j)
  {
    hide ShiftRight, ShiftLeft, Marked, Idx2Bit, LeftBits;
    var z := ShiftLeft(ShiftRight(x, i), i);
    AndCommutes(z, LeftBits(Idx2Bit(i)));
    LeftBitsMarked(z, c, i, j);
    if i < j {
      ShiftedLeft(ShiftRight(x, i), i, j - i);
      ShiftedRight(x, i, j - i);
    }
  }

  lemma AndCommutes(x: bv32, y: bv32)
    ensures x & y == y & x
  {
  }
}
