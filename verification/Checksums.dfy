/** The checksum component: sums of blocks, streamed through two scratch buffers while the next
    working set is on its way. */
module Checksums {
  import opened Machine
  import opened Qdma

  /** The sum of `n` words from `a` on. */
  ghost function Total(m: seq<byte>, a: int, n: nat): int
    requires n == 0 || (0 <= a && a + 4 * n <= |m|)
  {
    if n == 0 then 0 else Total(m, a, n - 1) + Word(m, a + 4 * (n - 1))
  }

  lemma {:induction false} TotalSame(m: seq<byte>, a: int, m': seq<byte>, a': int, n: nat)
    requires n == 0 || (0 <= a && a + 4 * n <= |m| && 0 <= a' && a' + 4 * n <= |m'|)
    requires forall b :: a <= b < a + 4 * n ==> m[b] == m'[b + (a' - a)]
    ensures Total(m, a, n) == Total(m', a', n)
    decreases n
  {
    if n > 0 {
      TotalSame(m, a, m', a', n - 1);
    }
  }

  /** The sum of `n` bytes, 4 apart, from `a` on. */
  ghost function ByteSum(m: seq<byte>, a: int, n: nat): int
    requires n == 0 || (0 <= a && a + 4 * n <= |m| + 3)
  {
    if n == 0 then 0 else ByteSum(m, a, n - 1) + m[a + 4 * (n - 1)] as int
  }

  /** The sum of words, byte by byte: the first bytes count once, the second ones 256 times, and so on. */
  lemma {:induction false} TotalBytes(m: seq<byte>, a: int, n: nat)
    requires n == 0 || (0 <= a && a + 4 * n <= |m|)
    ensures Total(m, a, n) == ByteSum(m, a, n) + 0x100 * ByteSum(m, a + 1, n) + 0x1_0000 * ByteSum(m, a + 2, n)
      + 0x100_0000 * ByteSum(m, a + 3, n)
    decreases n
  {
    if n > 0 {
      TotalBytes(m, a, n - 1);
    }
  }

  /** The four bytes at `to` are, as a number with the lowest byte first and modulo 2^32, the sum of the
      `n` words from `a` on in `m0`, added to the number that was there if `add`. */
  ghost predicate SumStored(m: seq<byte>, m0: seq<byte>, to: int, a: int, n: nat, add: bool) {
    && 0 <= to && to + 4 <= |m| == |m0| && (n == 0 || (0 <= a && a + 4 * n <= |m0|))
    && m[to] as int + 0x100 * m[to + 1] as int + 0x1_0000 * m[to + 2] as int + 0x100_0000 * m[to + 3] as int
         == ((if add then m0[to] as int + 0x100 * m0[to + 1] as int + 0x1_0000 * m0[to + 2] as int
                          + 0x100_0000 * m0[to + 3] as int
              else 0)
             + ByteSum(m0, a, n) + 0x100 * ByteSum(m0, a + 1, n) + 0x1_0000 * ByteSum(m0, a + 2, n)
             + 0x100_0000 * ByteSum(m0, a + 3, n)) % WORD
  }

  lemma OutStored(m: seq<byte>, m0: seq<byte>, g: Job, a: int, k: nat)
    requires |m| == |m0| && Areas(g, |m0|) && k < g.iters * g.blocks && (g.nb > 0 ==> 0 <= a && a + g.nb <= |m0|)
    requires Word(m, g.dst + 4 * k) == Out(m0, g, a, k)
    ensures SumStored(m, m0, g.dst + 4 * k, a, g.nb / 4, g.add)
  {
    hide Total, ByteSum;
    TotalBytes(m0, a, g.nb / 4);
  }

  /** A request: `iters` working sets of `blocks` blocks of `nb` bytes, the blocks `adv` apart; one
      word of result for each block, stored or added; two scratch buffers of `half` bytes, 12256 in
      the original. */
  datatype Job = Job(scratch: int, half: nat, src: int, adv: int, nb: nat, blocks: nat, iters: nat, dst: int, add: bool)

  function Sets(g: Job): nat {
    if g.iters == 0 then 1 else g.iters
  }

  /** A source byte: in memory, and neither scratch nor result. */
  predicate Readable(g: Job, size: int, a: int) {
    0 <= a < size && !(g.scratch <= a < g.scratch + 2 * g.half) && !(g.dst <= a < g.dst + 4 * (g.iters * g.blocks))
  }

  /** Scratch and results lie in memory, apart from each other. */
  ghost predicate Areas(g: Job, size: int) {
    && 0 <= g.scratch && g.scratch + 2 * g.half <= size && g.half < 0x8000 && g.nb % 4 == 0
    && 0 <= g.dst && g.dst + 4 * (g.iters * g.blocks) <= size
    && (g.scratch + 2 * g.half <= g.dst || g.dst + 4 * (g.iters * g.blocks) <= g.scratch)
  }

  /** Where set `i` starts. */
  function SetAt(g: Job, i: nat): int {
    g.src + i * (g.blocks * g.adv)
  }

  /** Where block `k` is fetched: within a set, the pitch is what the driver makes of the stride. */
  function BlockAt(g: Job, k: nat): int
    requires g.blocks > 0
  {
    At(SetAt(g, k / g.blocks), Pitch16(g.adv), k % g.blocks, 0)
  }

  /** The blocks asked for are readable. */
  ghost predicate Asked(g: Job, size: int) {
    forall k: nat, x: nat :: k < Sets(g) * g.blocks && x < g.nb ==> Readable(g, size, At(g.src, g.adv, k, x))
  }

  /** The blocks fetched are readable. */
  predicate Clear(g: Job, size: int) {
    g.blocks > 0 ==> forall k: nat, x: nat :: k < Sets(g) * g.blocks && x < g.nb ==> Fetchable(g, size, k, x)
  }

  predicate Fetchable(g: Job, size: int, k: nat, x: nat)
    requires g.blocks > 0
  {
    Readable(g, size, BlockAt(g, k) + x)
  }

  ghost predicate Apart(g: Job, size: int) {
    Areas(g, size) && Clear(g, size)
  }

  lemma BlockOfSet(g: Job, i: nat, y: nat)
    requires y < g.blocks
    ensures BlockAt(g, i * g.blocks + y) == At(SetAt(g, i), Pitch16(g.adv), y, 0)
  {
    hide At, SetAt, Pitch16;
    Quotient(i, y, g.blocks);
  }

  lemma Quotient(i: nat, y: nat, n: nat)
    requires y < n
    ensures (i * n + y) / n == i && (i * n + y) % n == y
  {
    var q, r := (i * n + y) / n, (i * n + y) % n;
    assert q * n + r == i * n + y;
    Monotone(q + 1, i, n);
    Monotone(i + 1, q, n);
  }

  lemma Monotone(a: int, b: int, n: nat)
    ensures a <= b ==> a * n <= b * n
    ensures (a + 1) * n == a * n + n
  {
  }

  /** The result of block `k`, for a block that lies at `a`. */
  ghost function Out(m: seq<byte>, g: Job, a: int, k: nat): int
    requires Areas(g, |m|) && k < g.iters * g.blocks && (g.nb > 0 ==> 0 <= a && a + g.nb <= |m|)
  {
    var sum := Total(m, a, g.nb / 4);
    (if g.add then Word(m, g.dst + 4 * k) + sum else sum) % WORD
  }

  /** The results over the blocks that are fetched. */
  ghost function Outs(m: seq<byte>, g: Job): (r: seq<int>)
    requires Apart(g, |m|)
    ensures |r| == g.iters * g.blocks
  {
    seq(g.iters * g.blocks, k requires 0 <= k < g.iters * g.blocks => (
      BlockInMemory(g, |m|, k);
      Out(m, g, BlockAt(g, k), k)))
  }

  /** What the flat loop over the blocks asked for computes. */
  ghost function FlatOuts(m: seq<byte>, g: Job): (r: seq<int>)
    requires Areas(g, |m|) && Asked(g, |m|)
    ensures |r| == g.iters * g.blocks
  {
    seq(g.iters * g.blocks, k requires 0 <= k < g.iters * g.blocks => (
      AskedInMemory(g, |m|, k);
      Out(m, g, At(g.src, g.adv, k, 0), k)))
  }

  lemma BlockInMemory(g: Job, size: int, k: nat)
    requires Apart(g, size) && k < Sets(g) * g.blocks
    ensures g.nb > 0 ==> 0 <= BlockAt(g, k) && BlockAt(g, k) + g.nb <= size
  {
    hide BlockAt, Areas;
    if g.nb > 0 {
      assert Fetchable(g, size, k, 0) && Fetchable(g, size, k, g.nb - 1);
    }
  }

  lemma AskedInMemory(g: Job, size: int, k: nat)
    requires Asked(g, size) && k < Sets(g) * g.blocks
    ensures g.nb > 0 ==> 0 <= At(g.src, g.adv, k, 0) && At(g.src, g.adv, k, 0) + g.nb <= size
  {
    if g.nb > 0 {
      assert Readable(g, size, At(g.src, g.adv, k, 0)) && Readable(g, size, At(g.src, g.adv, k, g.nb - 1));
    }
  }

  /** Memory `m` is `m0` with the first `k` of the results `outs` written from `dst` on; what lies
      between `lo` and `hi` may be anything. */
  ghost predicate Written(m: seq<byte>, m0: seq<byte>, lo: int, hi: int, dst: int, outs: seq<int>, k: nat) {
    && |m| == |m0| && k <= |outs| && 0 <= dst && dst + 4 * |outs| <= |m|
    && (forall j: nat :: j < k ==> Word(m, dst + 4 * j) == outs[j])
    && forall a :: 0 <= a < |m| && !(lo <= a < hi) && !(dst <= a < dst + 4 * k) ==> m[a] == m0[a]
  }

  lemma WrittenScratch(m: seq<byte>, m': seq<byte>, m0: seq<byte>, lo: int, hi: int, dst: int, outs: seq<int>, k: nat)
    requires Written(m, m0, lo, hi, dst, outs, k) && |m'| == |m| && (hi <= dst || dst + 4 * |outs| <= lo)
    requires forall a :: 0 <= a < |m| && !(lo <= a < hi) ==> m'[a] == m[a]
    ensures Written(m', m0, lo, hi, dst, outs, k)
  {
    hide Word;
    forall j: nat | j < k
      ensures Word(m', dst + 4 * j) == outs[j]
    {
      WordSame(m', m, dst + 4 * j);
    }
  }

  lemma WrittenNext(m: seq<byte>, m': seq<byte>, m0: seq<byte>, lo: int, hi: int, dst: int, outs: seq<int>, k: nat)
    requires Written(m, m0, lo, hi, dst, outs, k) && |m'| == |m| && k < |outs|
    requires forall a :: 0 <= a < |m| && !(dst + 4 * k <= a < dst + 4 * k + 4) ==> m'[a] == m[a]
    requires Word(m', dst + 4 * k) == outs[k]
    ensures Written(m', m0, lo, hi, dst, outs, k + 1)
  {
    hide Word;
    forall j: nat | j < k + 1
      ensures Word(m', dst + 4 * j) == outs[j]
    {
      if j < k {
        WordSame(m', m, dst + 4 * j);
      }
    }
  }

  /** The first `k` results are written, and nothing else but scratch has changed. */
  ghost predicate Summed(m: seq<byte>, m0: seq<byte>, g: Job, k: nat)
    requires Apart(g, |m0|)
  {
    Written(m, m0, g.scratch, g.scratch + 2 * g.half, g.dst, Outs(m0, g), k)
  }

  /** The same for the results over the blocks asked for, all of them. */
  ghost predicate FlatSummed(m: seq<byte>, m0: seq<byte>, g: Job)
    requires Areas(g, |m0|) && Asked(g, |m0|)
  {
    Written(m, m0, g.scratch, g.scratch + 2 * g.half, g.dst, FlatOuts(m0, g), g.iters * g.blocks)
  }

  lemma ScratchChanged(m: seq<byte>, m': seq<byte>, m0: seq<byte>, g: Job, k: nat)
    requires |m'| == |m| && Apart(g, |m0|) && Summed(m, m0, g, k)
    requires forall a :: 0 <= a < |m| && !(g.scratch <= a < g.scratch + 2 * g.half) ==> m'[a] == m[a]
    ensures Summed(m', m0, g, k)
  {
    hide Outs, Written, Word, Clear;
    WrittenScratch(m, m', m0, g.scratch, g.scratch + 2 * g.half, g.dst, Outs(m0, g), k);
  }

  lemma ResultStored(m: seq<byte>, m': seq<byte>, m0: seq<byte>, g: Job, k: nat)
    requires |m'| == |m| == |m0| && Apart(g, |m|) && k < g.iters * g.blocks && Summed(m, m0, g, k)
    requires 0 <= g.dst + 4 * k && g.dst + 4 * k + 4 <= |m|
    requires forall a :: 0 <= a < |m| && !(g.dst + 4 * k <= a < g.dst + 4 * k + 4) ==> m'[a] == m[a]
    requires Word(m', g.dst + 4 * k) == Outs(m0, g)[k]
    ensures Summed(m', m0, g, k + 1)
  {
    hide Outs, Written, Word, Clear, Areas;
    WrittenNext(m, m', m0, g.scratch, g.scratch + 2 * g.half, g.dst, Outs(m0, g), k);
  }

  /** Buffer `work` holds working set `i`. */
  ghost predicate Filled(m: seq<byte>, m0: seq<byte>, g: Job, i: nat, work: int)
    requires |m| == |m0|
  {
    forall y: nat, x: nat :: y < g.blocks && x < g.nb ==>
      InSet(g, |m|, i, work, y, x) && m[At(work, g.nb, y, x)] == m0[BlockAt(g, i * g.blocks + y) + x]
  }

  /** Byte `x` of block `y` of set `i`: where it lies in the buffer and in the source. */
  ghost predicate InSet(g: Job, size: int, i: nat, work: int, y: nat, x: nat)
    requires g.blocks > 0
  {
    && 0 <= At(work, g.nb, y, x) < size && work <= At(work, g.nb, y, x) < work + g.nb * g.blocks
    && Readable(g, size, BlockAt(g, i * g.blocks + y) + x)
    && At(SetAt(g, i), Pitch16(g.adv), y, x) == BlockAt(g, i * g.blocks + y) + x
  }

  lemma InSetHolds(g: Job, size: int, i: nat, work: int, y: nat, x: nat)
    requires Apart(g, size) && i < Sets(g) && y < g.blocks && x < g.nb
    requires g.scratch <= work && work + g.nb * g.blocks <= g.scratch + 2 * g.half
    ensures InSet(g, size, i, work, y, x)
  {
    hide BlockAt, Readable, SetAt, Pitch16;
    InRows(g.nb, g.blocks, y, x);
    InRows(g.blocks, Sets(g), i, y);
    BlockOfSet(g, i, y);
    Along(SetAt(g, i), Pitch16(g.adv), y, x);
    assert Fetchable(g, size, i * g.blocks + y, x);
  }

  /** loc_add, the flat loop. */
  method Add(m: array<byte>, a: int, n: nat) returns (ret: int)
    requires n == 0 || (0 <= a && a + 4 * n <= m.Length)
    ensures ret == Total(m[..], a, n) % WORD
    ensures ret == (ByteSum(m[..], a, n) + 0x100 * ByteSum(m[..], a + 1, n) + 0x1_0000 * ByteSum(m[..], a + 2, n)
                    + 0x100_0000 * ByteSum(m[..], a + 3, n)) % WORD
  {
    hide Word, ByteSum;
    TotalBytes(m[..], a, n);
    ret := 0;
    for i := 0 to n
      invariant ret == Total(m[..], a, i) % WORD
    {
      ret := (ret + Word(m[..], a + 4 * i)) % WORD;
    }
  }

  /** The inner loop: while the next transfer goes on, sum words that it does not touch. */
  method SumBlock(d: Dsp, a: int, n: nat, ghost m0: seq<byte>, ghost a0: int) returns (add: int)
    requires d.Valid() && (n == 0 || (0 <= a && a + 4 * n <= d.mem.Length && 0 <= a0 && a0 + 4 * n <= |m0|))
    requires forall b :: a <= b < a + 4 * n ==> b !in d.to && d.mem[b] == m0[b + (a0 - a)]
    modifies d.mem, d`moved, d`tick
    ensures d.Valid() && add == Total(m0, a0, n) % WORD
    ensures forall b :: 0 <= b < d.mem.Length && b !in d.to ==> d.mem[b] == old(d.mem[b])
  {
    hide Routed, Carried, Word;
    ghost var was := d.mem[..];
    add := 0;
    for x := 0 to n
      invariant d.Valid() && forall b :: 0 <= b < d.mem.Length && b !in d.to ==> d.mem[b] == was[b]
      invariant add == Total(was, a, x) % WORD
    {
      d.Tick();
      WordSame(d.mem[..], was, a + 4 * x);
      add := (add + Word(d.mem[..], a + 4 * x)) % WORD;
    }
    TotalSame(was, a, m0, a0, n);
  }

  lemma WrapTwice(w: int, sum: int)
    ensures (w + sum % WORD) % WORD == (w + sum) % WORD
  {
  }

  lemma WordSame(m: seq<byte>, m': seq<byte>, a: int)
    requires |m| == |m'| && 0 <= a && a + 4 <= |m| && forall b :: a <= b < a + 4 ==> m[b] == m'[b]
    ensures Word(m, a) == Word(m', a)
  {
  }

  /** One of the two buffers, large enough for a working set. */
  ghost predicate Buffer(g: Job, work: int) {
    (work == g.scratch || work == g.scratch + g.half) && g.nb * g.blocks <= g.half
  }

  lemma SetRouted(g: Job, size: int, i: nat, work: int)
    requires Apart(g, size) && i < Sets(g) && Buffer(g, work)
    ensures Routed(size, Rows(work, g.nb, g.nb, g.blocks), Rows(SetAt(g, i), Pitch16(g.adv), g.nb, g.blocks))
    ensures forall a :: a in Rows(work, g.nb, g.nb, g.blocks) ==> work <= a < work + g.nb * g.blocks
    ensures forall a :: a in Rows(SetAt(g, i), Pitch16(g.adv), g.nb, g.blocks) ==> Readable(g, size, a)
  {
    hide Apart, Rows, Readable, At;
    var to, from := Rows(work, g.nb, g.nb, g.blocks), Rows(SetAt(g, i), Pitch16(g.adv), g.nb, g.blocks);
    forall j | 0 <= j < |to|
      ensures to[j] == work + j && 0 <= to[j] < size && Readable(g, size, from[j])
    {
      var y, x := RowsOnly(SetAt(g, i), Pitch16(g.adv), g.nb, g.blocks, j);
      InSetHolds(g, size, i, work, y, x);
      RowsFlat(work, g.nb, g.blocks, j);
      ScratchInMemory(g, size);
    }
    ReadableMeans(g, size);
  }

  lemma ScratchInMemory(g: Job, size: int)
    requires Apart(g, size)
    ensures 0 <= g.scratch && g.scratch + 2 * g.half <= size
  {
  }

  lemma ReadableMeans(g: Job, size: int)
    ensures forall a :: Readable(g, size, a) ==> 0 <= a < size && !(g.scratch <= a < g.scratch + 2 * g.half)
  {
  }

  /** The driver's fields can hold all of a working set but a wide stride. */
  lemma SetProgrammed(g: Job, size: int, i: nat, work: int, srcPitch: int)
    requires Apart(g, size) && Buffer(g, work) && (srcPitch == g.adv || g.blocks == 1)
    ensures Programmed(work, g.nb, g.nb, g.blocks) == Rows(work, g.nb, g.nb, g.blocks)
    ensures Programmed(SetAt(g, i), srcPitch, g.nb, g.blocks) == Rows(SetAt(g, i), Pitch16(g.adv), g.nb, g.blocks)
  {
    hide Rows, Clear, Pitch16, SetAt;
    CountsFit(g);
    LimitsExactly(work, g.nb, g.nb, g.blocks);
    if g.nb == 0 || g.blocks == 0 {
      LimitsExactly(SetAt(g, i), srcPitch, g.nb, g.blocks);
      LimitsExactly(SetAt(g, i), Pitch16(g.adv), g.nb, g.blocks);
    } else if g.blocks == 1 {
      OneRow(SetAt(g, i), Pitch16(srcPitch), Pitch16(g.adv), g.nb);
    }
  }

  lemma CountsFit(g: Job)
    requires g.nb * g.blocks <= g.half
    ensures g.nb == 0 || g.blocks == 0 || (g.nb <= g.half && g.blocks <= g.half)
  {
    if g.nb > 0 && g.blocks > 0 {
      AtLeast(g.nb, g.blocks);
      AtLeast(g.blocks, g.nb);
    }
  }

  /** Working set `i` is on its way into buffer `work`. */
  ghost predicate Filling(d: Dsp, m0: seq<byte>, g: Job, i: nat, work: int)
    requires |m0| == d.mem.Length && Apart(g, |m0|) && i < Sets(g) && Buffer(g, work)
    reads d, d.mem
  {
    && d.Valid() && d.to == Rows(work, g.nb, g.nb, g.blocks)
    && d.from == Rows(SetAt(g, i), Pitch16(g.adv), g.nb, g.blocks)
    && forall j :: 0 <= j < |d.from| ==> 0 <= d.from[j] < |m0| && d.want[j] == m0[d.from[j]]
  }

  /** The next working set starts on its way. */
  method StartSet(d: Dsp, g: Job, i: nat, work: int, srcAddr: int, srcPitch: int, ghost m0: seq<byte>, ghost k: nat)
    requires d.Valid() && d.to == [] && |m0| == d.mem.Length && Apart(g, |m0|) && i < Sets(g) && Buffer(g, work)
    requires srcAddr == SetAt(g, i) && (srcPitch == g.adv || g.blocks == 1) && Summed(d.mem[..], m0, g, k)
    modifies d`to, d`from, d`moved, d`want
    ensures d.Valid() && Filling(d, m0, g, i, work)
  {
    hide Rows, Routed, Apart, Carried, Outs, Word, Programmed, SetAt, Pitch16;
    SetRouted(g, |m0|, i, work);
    SetProgrammed(g, |m0|, i, work, srcPitch);
    d.Copy2d(work, g.nb, srcAddr, srcPitch, g.nb, g.blocks);
    forall j | 0 <= j < |d.from|
      ensures 0 <= d.from[j] < |m0| && d.want[j] == m0[d.from[j]]
    {
      assert d.from[j] in d.from;
      assert Readable(g, |m0|, d.from[j]);
    }
  }

  /** The wait leaves the working set in its buffer, whenever its bytes landed. */
  method WaitSet(d: Dsp, g: Job, i: nat, work: int, ghost m0: seq<byte>)
    requires |m0| == d.mem.Length && Apart(g, |m0|) && i < Sets(g) && Buffer(g, work) && Filling(d, m0, g, i, work)
    modifies d.mem, d`moved, d`to, d`from, d`want
    ensures d.Valid() && d.to == [] && d.from == [] && Filled(d.mem[..], m0, g, i, work)
    ensures forall a :: 0 <= a < d.mem.Length && !(work <= a < work + g.nb * g.blocks) ==> d.mem[a] == old(d.mem[a])
  {
    hide Rows, Routed, Apart, Carried, Readable;
    SetRouted(g, |m0|, i, work);
    ghost var to, from := d.to, d.from;
    d.Wait();
    forall j | 0 <= j < |to|
      ensures 0 <= to[j] < |m0| && 0 <= from[j] < |m0| && d.mem[..][to[j]] == m0[from[j]]
    {
      assert to[j] in to;
      ScratchInMemory(g, |m0|);
    }
    FilledBy(d.mem[..], m0, g, i, work);
  }

  lemma FilledBy(m: seq<byte>, m0: seq<byte>, g: Job, i: nat, work: int)
    requires |m| == |m0| && Apart(g, |m0|) && i < Sets(g) && Buffer(g, work)
    requires var to, from := Rows(work, g.nb, g.nb, g.blocks), Rows(SetAt(g, i), Pitch16(g.adv), g.nb, g.blocks);
             forall j :: 0 <= j < |to| ==> 0 <= to[j] < |m| && 0 <= from[j] < |m0| && m[to[j]] == m0[from[j]]
    ensures Filled(m, m0, g, i, work)
  {
    hide Rows, Apart, At;
    forall y: nat, x: nat | y < g.blocks && x < g.nb
      ensures InSet(g, |m0|, i, work, y, x) && m[At(work, g.nb, y, x)] == m0[BlockAt(g, i * g.blocks + y) + x]
    {
      InSetHolds(g, |m0|, i, work, y, x);
      RowsAt(work, g.nb, g.nb, g.blocks, y, x);
      RowsAt(SetAt(g, i), Pitch16(g.adv), g.nb, g.blocks, y, x);
    }
  }

  lemma FilledKept(m: seq<byte>, m': seq<byte>, m0: seq<byte>, g: Job, i: nat, work: int)
    requires |m'| == |m| == |m0| && Apart(g, |m0|) && i < Sets(g) && Buffer(g, work) && Filled(m, m0, g, i, work)
    requires forall a :: 0 <= a < |m| && work <= a < work + g.nb * g.blocks ==> m'[a] == m[a]
    ensures Filled(m', m0, g, i, work)
  {
    hide Apart, At;
    forall y: nat, x: nat | y < g.blocks && x < g.nb
      ensures InSet(g, |m0|, i, work, y, x) && m'[At(work, g.nb, y, x)] == m0[BlockAt(g, i * g.blocks + y) + x]
    {
      assert InSet(g, |m0|, i, work, y, x);
    }
  }

  /** Block `y` of the set, word by word, where the inner loop finds it. */
  lemma BlockInBuffer(m: seq<byte>, m0: seq<byte>, g: Job, i: nat, work: int, y: nat)
    requires |m| == |m0| && Apart(g, |m0|) && i < g.iters && Buffer(g, work) && y < g.blocks
    requires Filled(m, m0, g, i, work)
    ensures i * g.blocks + y < g.iters * g.blocks
    ensures var a, a0 := work + y * g.nb, BlockAt(g, i * g.blocks + y);
      && (g.nb > 0 ==> work <= a && a + g.nb <= work + g.nb * g.blocks && 0 <= a && a + g.nb <= |m|)
      && (g.nb > 0 ==> 0 <= a0 && a0 + g.nb <= |m0|)
      && forall b :: a <= b < a + g.nb ==> m[b] == m0[b + (a0 - a)]
  {
    hide At, Readable, Apart, BlockAt;
    InRows(g.blocks, g.iters, i, y);
    var a, a0 := work + y * g.nb, BlockAt(g, i * g.blocks + y);
    if g.nb > 0 {
      BlockInMemory(g, |m0|, i * g.blocks + y);
      SpotInBuffer(m, m0, g, i, work, y, 0);
      SpotInBuffer(m, m0, g, i, work, y, g.nb - 1);
    }
    forall b | a <= b < a + g.nb
      ensures m[b] == m0[b + (a0 - a)]
    {
      SpotInBuffer(m, m0, g, i, work, y, b - a);
    }
  }

  lemma SpotInBuffer(m: seq<byte>, m0: seq<byte>, g: Job, i: nat, work: int, y: nat, x: nat)
    requires |m| == |m0| && Apart(g, |m0|) && i < Sets(g) && Buffer(g, work) && y < g.blocks && x < g.nb
    requires Filled(m, m0, g, i, work)
    ensures var a, b := work + y * g.nb + x, BlockAt(g, i * g.blocks + y) + x;
      0 <= a < |m| && work <= a < work + g.nb * g.blocks && 0 <= b < |m0| && m[a] == m0[b]
  {
    hide Apart, BlockAt;
    assert InSet(g, |m0|, i, work, y, x);
  }

  lemma Along(base: int, pitch: int, y: nat, x: nat)
    ensures At(base, pitch, y, x) == At(base, pitch, y, 0) + x && At(base, pitch, y, 0) == base + y * pitch
  {
  }

  /** The channel works, if at all, outside buffer `work`. */
  ghost predicate Elsewhere(to: seq<int>, from: seq<int>, size: int, g: Job, work: int) {
    && (forall a :: a in to ==> g.scratch <= a < g.scratch + 2 * g.half && !(work <= a < work + g.nb * g.blocks))
    && (forall a :: a in from ==> Readable(g, size, a))
  }

  /** One result is written while the next working set is on its way. */
  method EmitBlock(d: Dsp, g: Job, i: nat, work: int, y: nat, si: nat, dstIdx: nat, ghost m0: seq<byte>)
    requires d.Valid() && |m0| == d.mem.Length && Apart(g, |m0|) && i < g.iters && Buffer(g, work) && y < g.blocks
    requires 4 * si == y * g.nb && dstIdx == i * g.blocks + y && dstIdx < g.iters * g.blocks
    requires Filled(d.mem[..], m0, g, i, work) && Summed(d.mem[..], m0, g, dstIdx)
    requires Elsewhere(d.to, d.from, |m0|, g, work)
    modifies d.mem, d`moved, d`tick
    ensures d.Valid() && Filled(d.mem[..], m0, g, i, work) && Summed(d.mem[..], m0, g, dstIdx + 1)
  {
    hide Routed, Carried, Apart, Word, Total, Filled, Summed, Readable, At;
    ghost var a0 := BlockAt(g, i * g.blocks + y);
    BlockInBuffer(d.mem[..], m0, g, i, work, y);
    ghost var was := d.mem[..];
    var add := SumBlock(d, work + 4 * si, g.nb / 4, m0, a0);
    FilledKept(was, d.mem[..], m0, g, i, work);
    ScratchChanged(was, d.mem[..], m0, g, dstIdx);
    StoreBlock(d, g, i, work, dstIdx, add, m0);
  }

  method StoreBlock(d: Dsp, g: Job, i: nat, work: int, dstIdx: nat, sum: int, ghost m0: seq<byte>)
    requires d.Valid() && |m0| == d.mem.Length && Apart(g, |m0|) && i < g.iters && Buffer(g, work)
    requires dstIdx < g.iters * g.blocks
    requires Filled(d.mem[..], m0, g, i, work) && Summed(d.mem[..], m0, g, dstIdx)
    requires Elsewhere(d.to, d.from, |m0|, g, work)
    requires Addressed(m0, g, dstIdx) && sum == Total(m0, BlockAt(g, dstIdx), g.nb / 4) % WORD
    modifies d.mem
    ensures d.Valid() && Filled(d.mem[..], m0, g, i, work) && Summed(d.mem[..], m0, g, dstIdx + 1)
  {
    hide Routed, Carried, Apart, Word, Total, Filled, Summed, Readable, Out, At, Addressed, Outs, BytesOf;
    ghost var was := d.mem[..];
    ResultApart(g, |m0|, dstIdx);
    ResultOf(was, m0, g, dstIdx);
    var add := sum;
    if g.add {
      add := (Word(d.mem[..], g.dst + 4 * dstIdx) + add) % WORD;
    }
    d.Store(g.dst + 4 * dstIdx, add);
    ResultStored(was, d.mem[..], m0, g, dstIdx);
    FilledKept(was, d.mem[..], m0, g, i, work);
  }

  ghost predicate Addressed(m0: seq<byte>, g: Job, k: nat)
    requires g.blocks > 0
  {
    g.nb / 4 == 0 || (0 <= BlockAt(g, k) && BlockAt(g, k) + 4 * (g.nb / 4) <= |m0|)
  }

  /** A result word is in memory, outside scratch and source. */
  lemma ResultApart(g: Job, size: int, k: nat)
    requires Apart(g, size) && k < g.iters * g.blocks
    ensures 0 <= g.dst + 4 * k && g.dst + 4 * k + 4 <= size && 0 <= g.scratch && g.scratch + 2 * g.half <= size
    ensures g.dst + 4 * k + 4 <= g.scratch || g.scratch + 2 * g.half <= g.dst + 4 * k
    ensures forall b :: Readable(g, size, b) ==> !(g.dst + 4 * k <= b < g.dst + 4 * k + 4)
  {
  }

  /** The next result, in terms of the memory so far. */
  lemma ResultOf(m: seq<byte>, m0: seq<byte>, g: Job, k: nat)
    requires |m| == |m0| && Apart(g, |m|) && k < g.iters * g.blocks && Summed(m, m0, g, k)
    ensures 0 <= g.dst + 4 * k && g.dst + 4 * k + 4 <= |m| && Addressed(m0, g, k)
    ensures var sum := Total(m0, BlockAt(g, k), g.nb / 4) % WORD;
      Outs(m0, g)[k] == if g.add then (Word(m, g.dst + 4 * k) + sum) % WORD else sum
  {
    hide Total, BlockAt, Word, Clear, Outs, Areas, Out;
    ResultApart(g, |m|, k);
    BlockInMemory(g, |m|, k);
    OutsAt(m0, g, k);
    NextKept(m, m0, g, k);
    OutIs(m0, g, BlockAt(g, k), k);
    WrapTwice(Word(m, g.dst + 4 * k), Total(m0, BlockAt(g, k), g.nb / 4));
  }

  lemma OutsAt(m: seq<byte>, g: Job, k: nat)
    requires Apart(g, |m|) && k < g.iters * g.blocks
    ensures g.blocks > 0 && (g.nb > 0 ==> 0 <= BlockAt(g, k) && BlockAt(g, k) + g.nb <= |m|)
    ensures Outs(m, g)[k] == Out(m, g, BlockAt(g, k), k)
  {
    hide Areas, Clear, Out, BlockAt;
    BlockInMemory(g, |m|, k);
  }

  lemma OutIs(m: seq<byte>, g: Job, a: int, k: nat)
    requires Areas(g, |m|) && k < g.iters * g.blocks && (g.nb > 0 ==> 0 <= a && a + g.nb <= |m|)
    requires 0 <= g.dst + 4 * k && g.dst + 4 * k + 4 <= |m|
    ensures Out(m, g, a, k)
      == (if g.add then Word(m, g.dst + 4 * k) + Total(m, a, g.nb / 4) else Total(m, a, g.nb / 4)) % WORD
  {
    hide Total, Word;
  }

  /** The next result word has its first value. */
  lemma NextKept(m: seq<byte>, m0: seq<byte>, g: Job, k: nat)
    requires |m| == |m0| && Apart(g, |m|) && k < g.iters * g.blocks && Summed(m, m0, g, k)
    requires 0 <= g.dst + 4 * k && g.dst + 4 * k + 4 <= |m|
    requires g.dst + 4 * k + 4 <= g.scratch || g.scratch + 2 * g.half <= g.dst + 4 * k
    ensures Word(m, g.dst + 4 * k) == Word(m0, g.dst + 4 * k)
  {
    hide Word, Areas, Clear, Outs;
    WordSame(m, m0, g.dst + 4 * k);
  }

  /** The results of one working set. */
  method SumSet(d: Dsp, g: Job, i: nat, work: int, dstIdx: nat, ghost m0: seq<byte>) returns (dstIdx': nat)
    requires d.Valid() && |m0| == d.mem.Length && Apart(g, |m0|) && i < g.iters && Buffer(g, work)
    requires dstIdx == i * g.blocks <= g.iters * g.blocks
    requires Filled(d.mem[..], m0, g, i, work) && Summed(d.mem[..], m0, g, dstIdx)
    requires Elsewhere(d.to, d.from, |m0|, g, work)
    modifies d.mem, d`moved, d`tick
    ensures d.Valid() && dstIdx' == (i + 1) * g.blocks <= g.iters * g.blocks && Summed(d.mem[..], m0, g, dstIdx')
  {
    hide Routed, Carried, Apart, Filled, Summed, Elsewhere, Readable;
    dstIdx' := dstIdx;
    var si: nat := 0;
    for y := 0 to g.blocks
      invariant d.Valid() && dstIdx' == i * g.blocks + y <= g.iters * g.blocks && 4 * si == y * g.nb
      invariant Filled(d.mem[..], m0, g, i, work) && Summed(d.mem[..], m0, g, dstIdx')
    {
      InRows(g.blocks, g.iters, i, y);
      EmitBlock(d, g, i, work, y, si, dstIdx', m0);
      NextBlock(g, |m0|, y, si);
      si := si + g.nb / 4;
      dstIdx' := dstIdx' + 1;
    }
  }

  lemma NextBlock(g: Job, size: int, y: nat, si: nat)
    requires Apart(g, size) && 4 * si == y * g.nb
    ensures 4 * (si + g.nb / 4) == (y + 1) * g.nb
  {
  }

  /** The next set on its way keeps clear of the buffer being summed. */
  lemma OtherBuffer(g: Job, size: int, i: nat, work: int, other: int)
    requires Apart(g, size) && i < Sets(g) && Buffers(g, work, other)
    ensures Elsewhere(Rows(other, g.nb, g.nb, g.blocks), Rows(SetAt(g, i), Pitch16(g.adv), g.nb, g.blocks), size, g,
      work)
  {
    hide Apart, Rows, Readable;
    SetRouted(g, size, i, other);
  }

  /** The two buffers, either way round. */
  ghost predicate Buffers(g: Job, work: int, other: int) {
    Buffer(g, work) && Buffer(g, other) && work + other == 2 * g.scratch + g.half
  }

  /** The set that the channel is on. */
  ghost predicate Streaming(d: Dsp, m0: seq<byte>, g: Job, i: nat, work: int)
    requires |m0| == d.mem.Length && Apart(g, |m0|) && Buffer(g, work)
    reads d, d.mem
  {
    d.Valid() && if i < Sets(g) then Filling(d, m0, g, i, work) else d.to == [] && d.from == []
  }

  /** One turn of the outer loop: wait, start the next set, sum this one. */
  method Turn(d: Dsp, g: Job, iter: nat, workSrc: int, workSrcNext: int, srcAddr: int, srcPitch: int, dstIdx: nat,
      ghost m0: seq<byte>)
    returns (dstIdx': nat)
    requires |m0| == d.mem.Length && Apart(g, |m0|) && iter < g.iters && Buffers(g, workSrc, workSrcNext)
    requires Streaming(d, m0, g, iter, workSrc) && Summed(d.mem[..], m0, g, dstIdx)
    requires srcAddr == SetAt(g, iter) && (srcPitch == g.adv || g.blocks == 1)
    requires dstIdx == iter * g.blocks <= g.iters * g.blocks
    modifies d, d.mem
    ensures Streaming(d, m0, g, iter + 1, workSrcNext)
    ensures dstIdx' == (iter + 1) * g.blocks <= g.iters * g.blocks && Summed(d.mem[..], m0, g, dstIdx')
  {
    hide Routed, Carried, Apart, Filled, Summed, Readable, Rows, SetAt;
    ghost var was := d.mem[..];
    WaitSet(d, g, iter, workSrc, m0);
    BufferChanged(was, d.mem[..], m0, g, dstIdx, workSrc);
    if iter != g.iters - 1 {
      NextSet(g, iter);
      StartSet(d, g, iter + 1, workSrcNext, srcAddr + g.blocks * g.adv, srcPitch, m0, dstIdx);
      OtherBuffer(g, |m0|, iter + 1, workSrc, workSrcNext);
    }
    dstIdx' := SumSet(d, g, iter, workSrc, dstIdx, m0);
  }

  lemma NextSet(g: Job, i: nat)
    ensures SetAt(g, 0) == g.src && SetAt(g, i + 1) == SetAt(g, i) + g.blocks * g.adv
  {
  }

  /** The results, byte by byte: block `k` is fetched from where the stride leads, cut down to a signed
      16-bit pitch within a working set. */
  ghost predicate FetchedStored(m: seq<byte>, m0: seq<byte>, g: Job) {
    forall k: nat, p :: g.blocks > 0 && k < g.iters * g.blocks && Cut16(g.adv, p) ==> BlockStored(m, m0, g, k, p)
  }

  ghost predicate BlockStored(m: seq<byte>, m0: seq<byte>, g: Job, k: nat, p: int)
    requires g.blocks > 0
  {
    SumStored(m, m0, g.dst + 4 * k, g.src + k / g.blocks * (g.blocks * g.adv) + k % g.blocks * p, g.nb / 4, g.add)
  }

  ghost predicate Cut16(adv: int, p: int) { -0x8000 <= p < 0x8000 && (adv - p) % 0x1_0000 == 0 }

  /** The results, byte by byte, where block `k` is `k` strides behind the first. */
  ghost predicate AskedStored(m: seq<byte>, m0: seq<byte>, g: Job) {
    forall k: nat :: k < g.iters * g.blocks ==> StrideStored(m, m0, g, k)
  }

  ghost predicate StrideStored(m: seq<byte>, m0: seq<byte>, g: Job, k: nat) {
    SumStored(m, m0, g.dst + 4 * k, g.src + k * g.adv, g.nb / 4, g.add)
  }

  lemma FetchedBytes(m: seq<byte>, m0: seq<byte>, g: Job)
    requires Apart(g, |m0|) && Summed(m, m0, g, g.iters * g.blocks)
    ensures FetchedStored(m, m0, g)
  {
    hide Outs, Clear, Out, SumStored, BlockAt, Areas, Written;
    forall k: nat, p | g.blocks > 0 && k < g.iters * g.blocks && Cut16(g.adv, p)
      ensures BlockStored(m, m0, g, k, p)
    {
      OutsAt(m0, g, k);
      ResultAt(m, m0, g, Outs(m0, g), k);
      OutStored(m, m0, g, BlockAt(g, k), k);
      OnePitch(g.adv, p);
      FetchedAt(g, k);
    }
  }

  lemma FetchedAt(g: Job, k: nat)
    requires g.blocks > 0
    ensures BlockAt(g, k) == g.src + k / g.blocks * (g.blocks * g.adv) + k % g.blocks * Pitch16(g.adv)
  {
    hide Pitch16;
  }

  lemma ResultAt(m: seq<byte>, m0: seq<byte>, g: Job, outs: seq<int>, k: nat)
    requires Written(m, m0, g.scratch, g.scratch + 2 * g.half, g.dst, outs, g.iters * g.blocks)
    requires k < g.iters * g.blocks
    ensures |m| == |m0| && k < |outs| && 0 <= g.dst + 4 * k && g.dst + 4 * k + 4 <= |m|
    ensures Word(m, g.dst + 4 * k) == outs[k]
  {
    hide Word;
  }

  lemma OnePitch(adv: int, p: int)
    requires Cut16(adv, p)
    ensures p == Pitch16(adv)
  {
  }

  lemma AskedBytes(m: seq<byte>, m0: seq<byte>, g: Job)
    requires Areas(g, |m0|) && Asked(g, |m0|) && FlatSummed(m, m0, g)
    ensures AskedStored(m, m0, g)
  {
    hide Asked, Out, SumStored, Areas, Written, At, FlatOuts;
    forall k: nat | k < g.iters * g.blocks
      ensures StrideStored(m, m0, g, k)
    {
      assert g.iters != 0;
      AskedInMemory(g, |m0|, k);
      ResultAt(m, m0, g, FlatOuts(m0, g), k);
      FlatOutsAt(m0, g, k);
      OutStored(m, m0, g, At(g.src, g.adv, k, 0), k);
      Along(g.src, g.adv, k, 0);
    }
  }

  lemma FlatOutsAt(m: seq<byte>, g: Job, k: nat)
    requires Areas(g, |m|) && Asked(g, |m|) && k < g.iters * g.blocks
    requires g.nb > 0 ==> 0 <= At(g.src, g.adv, k, 0) && At(g.src, g.adv, k, 0) + g.nb <= |m|
    ensures FlatOuts(m, g)[k] == Out(m, g, At(g.src, g.adv, k, 0), k)
  {
    hide Areas, Asked, Out, At;
  }

  lemma NarrowBytes(m: seq<byte>, m0: seq<byte>, g: Job)
    requires Areas(g, |m0|)
    ensures Asked(g, |m0|) && FlatSummed(m, m0, g) ==> AskedStored(m, m0, g)
  {
    hide Areas, Asked, FlatSummed, AskedStored;
    if Asked(g, |m0|) && FlatSummed(m, m0, g) { AskedBytes(m, m0, g); }
  }

  /** What becomes of a request: the size test refuses it; its first transfer writes outside its
      buffer, or some transfer reads what is not a source byte; the product has wrapped around and yet
      the first transfer stays, but the sums would run past the buffer; or the results are written. */
  datatype Outcome = Refused | Strays | Overruns | Served

  /** loc_addskip32_dma. Whenever the bytes of the transfers land, the results are the sums of the
      blocks fetched, those of the flat loop where the stride fits its field, and only results and
      scratch are written. The original goes on with requests that stray or overrun; this method
      leaves them. */
  method AddSkip(d: Dsp, g: Job) returns (r: Outcome)
    requires d.Valid() && d.to == [] && Areas(g, d.mem.Length)
    modifies d, d.mem
    ensures d.Valid()
    ensures r == Refused <==> g.nb * g.blocks % 0x1_0000_0000 > g.half
    ensures r == Strays <==> Passes(g) && (!Stays(g) || (!Wrapped(g) && !Clear(g, d.mem.Length)))
    ensures r == Overruns <==> Passes(g) && Stays(g) && Wrapped(g)
    ensures r == Served ==> Clear(g, d.mem.Length) && Summed(d.mem[..], old(d.mem[..]), g, g.iters * g.blocks)
    ensures r != Served ==> d.mem[..] == old(d.mem[..])
    ensures Fits(g) && Asked(g, d.mem.Length) && Narrow(g) ==>
      FlatSummed(d.mem[..], old(d.mem[..]), g)
    ensures r == Served ==> FetchedStored(d.mem[..], old(d.mem[..]), g)
    ensures Fits(g) && Asked(g, d.mem.Length) && Narrow(g) ==> AskedStored(d.mem[..], old(d.mem[..]), g)
  {
    hide Routed, Carried, Filled, Filling, Readable, Rows, Asked, Clear, Summed, FlatSummed, SetAt, Narrow, Stays,
      Wrapped, Fits, FetchedStored, AskedStored;
    ghost var m0 := d.mem[..];
    StaysExactly(g);
    NarrowUnserved(m0, g);
    NarrowBytes(m0, m0, g);
    FitStays(g);
    if !Passes(g) { return Refused; }
    if FieldCounts(g) > g.half { return Strays; }
    if !Fits(g) { return Overruns; }
    if !Clear(g, d.mem.Length) { return Strays; }
    AddSets(d, g);
    NarrowServed(d.mem[..], m0, g);
    FetchedBytes(d.mem[..], m0, g);
    r := Served;
    NarrowBytes(d.mem[..], m0, g);
  }

  /** The loop over the working sets. */
  method AddSets(d: Dsp, g: Job)
    requires d.Valid() && d.to == [] && Apart(g, d.mem.Length) && Fits(g)
    modifies d, d.mem
    ensures d.Valid() && Summed(d.mem[..], old(d.mem[..]), g, g.iters * g.blocks)
  {
    hide Routed, Carried, Apart, Filled, Summed, Filling, Readable, Rows, SetAt;
    ghost var m0 := d.mem[..];
    var workSrc, workSrcNext, srcAddr, dstIdx := g.scratch, g.scratch + g.half, g.src, 0;
    NothingSummed(m0, g);
    NextSet(g, 0);
    StartSet(d, g, 0, workSrc, srcAddr, g.adv, m0, 0);
    for iter := 0 to g.iters
      invariant Buffers(g, workSrc, workSrcNext) && Streaming(d, m0, g, iter, workSrc) && srcAddr == SetAt(g, iter)
      invariant dstIdx == iter * g.blocks <= g.iters * g.blocks && Summed(d.mem[..], m0, g, dstIdx)
    {
      dstIdx := Turn(d, g, iter, workSrc, workSrcNext, srcAddr, g.adv, dstIdx, m0);
      NextSet(g, iter);
      workSrc, workSrcNext := workSrcNext, workSrc;
      srcAddr := srcAddr + g.blocks * g.adv;
    }
  }

  /** The size test, in 32-bit words. */
  predicate Passes(g: Job) {
    g.nb * g.blocks % WORD <= g.half
  }

  /** A working set fits its buffer. */
  predicate Fits(g: Job) {
    g.nb * g.blocks <= g.half
  }

  /** How many bytes the driver moves for a working set. */
  function FieldCounts(g: Job): int {
    g.nb % 0x1_0000 * (g.blocks % 0x1_0000)
  }

  /** The product of the size test has wrapped around. */
  ghost predicate Wrapped(g: Job) {
    g.nb * g.blocks >= WORD
  }

  /** Where the first transfer writes. */
  ghost function Targets(g: Job): seq<int> {
    Programmed(g.scratch, g.nb, g.nb, g.blocks)
  }

  ghost predicate Stays(g: Job) {
    forall a :: a in Targets(g) ==> g.scratch <= a < g.scratch + g.half
  }

  /** The first transfer stays within its scratch buffer iff the product of its 16-bit counts fits. */
  lemma StaysExactly(g: Job)
    requires g.half < 0x8000
    ensures Stays(g) <==> FieldCounts(g) <= g.half
  {
    hide Rows, Programmed;
    var a, b := g.nb % 0x1_0000, g.blocks % 0x1_0000;
    var to := Targets(g);
    if a < 0x8000 {
      TargetsFlat(g);
      assert a * b > g.half ==> to[g.half] in to;
    } else if b == 0 {
      TargetsCount(g);
    } else {
      AtLeast(a, b);
      LongRow(g);
    }
  }

  lemma AtLeast(a: nat, b: nat)
    requires b > 0
    ensures a <= a * b
  {
  }

  lemma TargetsCount(g: Job)
    ensures |Targets(g)| == FieldCounts(g)
  {
    hide Rows;
  }

  /** A row of 32 kB and more leaves the buffer by itself. */
  lemma LongRow(g: Job)
    requires g.half < 0x8000 <= g.nb % 0x1_0000 && g.blocks % 0x1_0000 > 0
    ensures !Stays(g)
  {
    hide Rows;
    RowsAt(g.scratch, Pitch16(g.nb), g.nb % 0x1_0000, g.blocks % 0x1_0000, 0, g.half);
    assert Targets(g)[g.half] in Targets(g);
  }

  /** A working set that fits passes the size test and stays; whatever else passes has a product
      that wrapped around. */
  lemma FitStays(g: Job)
    requires g.half < 0x8000
    ensures Fits(g) ==> Passes(g) && Stays(g) && !Wrapped(g)
    ensures Passes(g) && !Fits(g) ==> Wrapped(g)
  {
    hide Stays;
    StaysExactly(g);
    Remainder(g.nb * g.blocks, g.half);
    if Fits(g) {
      CountsFit(g);
      FieldProduct(g.nb, g.blocks);
    }
  }

  lemma Remainder(n: nat, half: nat)
    requires half < 0x8000
    ensures n <= half ==> n % WORD <= half && n < WORD
    ensures n % WORD <= half < n ==> n >= WORD
  {
  }

  lemma FieldProduct(a: nat, b: nat)
    requires a == 0 || b == 0 || (a < 0x1_0000 && b < 0x1_0000)
    ensures a % 0x1_0000 * (b % 0x1_0000) == a * b
  {
    if a == 0 || b == 0 {
      assert a % 0x1_0000 == 0 || b % 0x1_0000 == 0;
    }
  }

  /** Short rows follow each other. */
  lemma TargetsFlat(g: Job)
    requires g.nb % 0x1_0000 < 0x8000
    ensures |Targets(g)| == FieldCounts(g)
    ensures forall j :: 0 <= j < |Targets(g)| ==> Targets(g)[j] == g.scratch + j
  {
    hide Rows;
    TargetsCount(g);
    forall j | 0 <= j < |Targets(g)|
      ensures Targets(g)[j] == g.scratch + j
    {
      RowsFlat(g.scratch, g.nb % 0x1_0000, g.blocks % 0x1_0000, j);
    }
  }

  /** A request that strays: the 32-bit product is 4, and the driver moves 49153 rows of 4 bytes. */
  lemma EscapingJob() returns (g: Job)
    ensures g == Job(0, 0x3000, 0x5_0000, 0, 0x1_0004, 0xFFF_C001, 0, 0x8000, false)
    ensures Areas(g, 0x100_0000) && Asked(g, 0x100_0000) && Passes(g) && !Stays(g)
    ensures |Targets(g)| == 196612 && forall j :: 0 <= j < 196612 ==> Targets(g)[j] == g.scratch + j
  {
    hide Targets, Stays, Readable;
    g := Job(0, 0x3000, 0x5_0000, 0, 0x1_0004, 0xFFF_C001, 0, 0x8000, false);
    TargetsFlat(g);
    StaysExactly(g);
    forall k: nat, x: nat | k < Sets(g) * g.blocks && x < g.nb
      ensures Readable(g, 0x100_0000, At(g.src, g.adv, k, x))
    {
      OneAddress(g, k, x);
    }
  }

  lemma OneAddress(g: Job, k: nat, x: nat)
    requires g.src == 0x5_0000 && g.scratch == 0 && g.half == 0x3000 && g.adv == 0 && g.iters == 0 && x < 0x1_0004
    ensures Readable(g, 0x100_0000, At(g.src, g.adv, k, x))
  {
    assert k * 0 == 0 && 0 * g.blocks == 0;
  }

  /** The stride fits its field, as far as it matters. */
  predicate Narrow(g: Job) {
    g.blocks <= 1 || g.nb == 0 || g.iters == 0 || -0x8000 <= g.adv < 0x8000
  }

  /** The results are right whatever memory holds, and no transfer reads anything but source bytes. */
  ghost predicate Right(g: Job, size: int)
    requires Areas(g, size) && Asked(g, size)
  {
    g.iters == 0 || (Clear(g, size) && forall m: seq<byte> :: |m| == size ==> Outs(m, g) == FlatOuts(m, g))
  }

  /** A narrow stride leads to the blocks asked for. */
  lemma NarrowBlock(g: Job, k: nat)
    requires Narrow(g) && g.iters > 0 && g.nb > 0 && k < g.iters * g.blocks
    ensures BlockAt(g, k) == At(g.src, g.adv, k, 0)
  {
    var i, y := k / g.blocks, k % g.blocks;
    assert k == i * g.blocks + y;
    assert i * (g.blocks * g.adv) == i * g.blocks * g.adv;
    assert k * g.adv == i * g.blocks * g.adv + y * g.adv;
    assert y == 0 || Pitch16(g.adv) == g.adv;
  }

  lemma NarrowClear(g: Job, size: int)
    requires Asked(g, size) && Narrow(g) && g.iters > 0
    ensures Clear(g, size)
  {
    hide Narrow, Readable, BlockAt;
    if g.blocks > 0 {
      forall k: nat, x: nat | k < Sets(g) * g.blocks && x < g.nb
        ensures Fetchable(g, size, k, x)
      {
        NarrowBlock(g, k);
        Along(g.src, g.adv, k, x);
        assert Readable(g, size, At(g.src, g.adv, k, x));
      }
    }
  }

  lemma NarrowOuts(m: seq<byte>, g: Job)
    requires Areas(g, |m|) && Asked(g, |m|) && Narrow(g) && Clear(g, |m|)
    ensures Outs(m, g) == FlatOuts(m, g)
  {
    hide Areas, Narrow, Asked, Clear, BlockAt, Word, At;
    forall k: nat | k < g.iters * g.blocks
      ensures Outs(m, g)[k] == FlatOuts(m, g)[k]
    {
      BlockInMemory(g, |m|, k);
      AskedInMemory(g, |m|, k);
      if g.nb > 0 {
        NarrowBlock(g, k);
      }
    }
  }

  lemma NarrowServed(m: seq<byte>, m0: seq<byte>, g: Job)
    requires Apart(g, |m0|) && Summed(m, m0, g, g.iters * g.blocks)
    ensures Asked(g, |m0|) && Narrow(g) ==> FlatSummed(m, m0, g)
  {
    hide Areas, Narrow, Asked, Clear, Outs, FlatOuts, Written;
    if Asked(g, |m0|) && Narrow(g) {
      NarrowOuts(m0, g);
    }
  }

  lemma NarrowUnserved(m0: seq<byte>, g: Job)
    requires Areas(g, |m0|)
    ensures Asked(g, |m0|) && Narrow(g) && !Clear(g, |m0|) ==> FlatSummed(m0, m0, g)
  {
    hide Narrow, Asked, Clear, FlatOuts;
    if Asked(g, |m0|) && Narrow(g) && g.iters > 0 {
      NarrowClear(g, |m0|);
    }
  }

  /** Of the requests whose product fits, the results are right for every memory iff the stride fits. */
  lemma RightExactly(g: Job, size: nat)
    requires Areas(g, size) && Asked(g, size) && Fits(g)
    ensures Right(g, size) <==> Narrow(g)
  {
    hide Outs, FlatOuts, Clear, Asked, Areas;
    if Narrow(g) && g.iters > 0 {
      hide Narrow;
      NarrowClear(g, size);
      forall m: seq<byte> | |m| == size
        ensures Outs(m, g) == FlatOuts(m, g)
      {
        NarrowOuts(m, g);
      }
    } else if !Narrow(g) && Clear(g, size) {
      var m := WrongMemory(g, size);
    }
  }

  /** All bytes are 0 but the first of the second block asked for. */
  lemma WrongMemory(g: Job, size: nat) returns (m: seq<byte>)
    requires Apart(g, size) && Asked(g, size) && Fits(g) && !Narrow(g)
    ensures |m| == size && Outs(m, g) != FlatOuts(m, g)
  {
    hide Apart, Areas, Clear, Asked, Total, Word, BlockAt, At, Out, Outs, FlatOuts;
    var a, b := At(g.src, g.adv, 1, 0), BlockAt(g, 1);
    m := seq(size, j => if j == a then 1 else 0);
    SecondBlock(g);
    SecondResult(g);
    CountsFit(g);
    HalfBound(g, size);
    SecondSums(m, g, size, a, b);
    SecondOuts(m, g);
  }

  lemma HalfBound(g: Job, size: int)
    requires Apart(g, size)
    ensures g.half < 0x8000
  {
    hide Clear;
  }

  lemma SecondResult(g: Job)
    requires !Narrow(g)
    ensures 1 < g.iters * g.blocks <= Sets(g) * g.blocks && Sets(g) == g.iters
  {
    assert 1 < 1 * g.blocks <= g.iters * g.blocks;
  }

  lemma SecondOuts(m: seq<byte>, g: Job)
    requires Apart(g, |m|) && Asked(g, |m|) && 1 < g.iters * g.blocks
    ensures g.blocks > 0 && (g.nb > 0 ==> 0 <= BlockAt(g, 1) && BlockAt(g, 1) + g.nb <= |m|)
    ensures Outs(m, g)[1] == Out(m, g, BlockAt(g, 1), 1)
    ensures g.nb > 0 ==> 0 <= At(g.src, g.adv, 1, 0) && At(g.src, g.adv, 1, 0) + g.nb <= |m|
    ensures FlatOuts(m, g)[1] == Out(m, g, At(g.src, g.adv, 1, 0), 1)
  {
    hide Areas, Clear, Asked, Out, At, BlockAt;
    BlockInMemory(g, |m|, 1);
    AskedInMemory(g, |m|, 1);
  }

  lemma SecondSums(m: seq<byte>, g: Job, size: nat, a: int, b: int)
    requires |m| == size && Apart(g, size) && Asked(g, size) && g.blocks >= 2 && 1 < g.iters * g.blocks
    requires 0 < g.nb < 0x1_0000 && a == At(g.src, g.adv, 1, 0) && b == BlockAt(g, 1)
    requires b <= a - 0x1_0000 || b >= a + 0x1_0000
    requires forall j :: 0 <= j < size ==> m[j] == if j == a then 1 else 0
    ensures 0 <= a && a + g.nb <= size && 0 <= b && b + g.nb <= size
    ensures Out(m, g, a, 1) == 1 && Out(m, g, b, 1) == 0
  {
    hide Clear, Total, Word, BlockAt, At;
    AskedInMemory(g, size, 1);
    BlockInMemory(g, size, 1);
    assert Readable(g, size, At(g.src, g.adv, 1, 0));
    ZeroWord(m, g.dst + 4);
    ZeroTotal(m, b, g.nb / 4);
    OneTotal(m, a, g.nb / 4);
  }

  lemma ZeroWord(m: seq<byte>, a: int)
    requires 0 <= a && a + 4 <= |m| && forall b :: a <= b < a + 4 ==> m[b] == 0
    ensures Word(m, a) == 0
  {
  }

  /** The second block is fetched a multiple of 64 kB off. */
  lemma SecondBlock(g: Job)
    requires g.blocks >= 2
    ensures BlockAt(g, 1) - At(g.src, g.adv, 1, 0) == Pitch16(g.adv) - g.adv
    ensures !(-0x8000 <= g.adv < 0x8000) ==>
      BlockAt(g, 1) <= At(g.src, g.adv, 1, 0) - 0x1_0000 || BlockAt(g, 1) >= At(g.src, g.adv, 1, 0) + 0x1_0000
  {
    FirstSet(g, 1);
  }

  /** Such a request: the second block is asked for 64 kB behind the first, the driver programs pitch
      0, and the second result is the word of the first block. */
  lemma WideStride(m: seq<byte>) returns (g: Job)
    requires |m| == 0x100_0000
    ensures g == Wide() && Apart(g, |m|) && Asked(g, |m|)
    ensures Outs(m, g) == [Word(m, 0x5_0000), Word(m, 0x5_0000)]
    ensures FlatOuts(m, g) == [Word(m, 0x5_0000), Word(m, 0x6_0000)]
  {
    hide Word, Total, BlockAt, At, Readable;
    g := Wide();
    WideBlocks();
    WideClear(|m|);
    OneWord(m, 0x5_0000);
    OneWord(m, 0x6_0000);
  }

  function Wide(): Job {
    Job(0, 0x3000, 0x5_0000, 0x1_0000, 4, 2, 1, 0x8000, false)
  }

  lemma WideBlocks()
    ensures BlockAt(Wide(), 0) == BlockAt(Wide(), 1) == 0x5_0000
    ensures At(0x5_0000, 0x1_0000, 0, 0) == 0x5_0000 && At(0x5_0000, 0x1_0000, 1, 0) == 0x6_0000
  {
    hide BlockAt;
    FirstSet(Wide(), 0);
    FirstSet(Wide(), 1);
  }

  lemma FirstSet(g: Job, y: nat)
    requires y < g.blocks
    ensures BlockAt(g, y) == g.src + y * Pitch16(g.adv)
  {
    hide BlockAt, Pitch16;
    BlockOfSet(g, 0, y);
    assert 0 * g.blocks + y == y && 0 * (g.blocks * g.adv) == 0;
  }

  lemma WideClear(size: int)
    requires size == 0x100_0000
    ensures Apart(Wide(), size) && Asked(Wide(), size)
  {
    hide BlockAt, At;
    WideBlocks();
    forall k: nat, x: nat | k < 2 && x < 4
      ensures Fetchable(Wide(), size, k, x) && Readable(Wide(), size, At(0x5_0000, 0x1_0000, k, x))
    {
      Along(0x5_0000, 0x1_0000, k, x);
      assert k == 0 || k == 1;
    }
  }

  lemma OneWord(m: seq<byte>, a: int)
    requires 0 <= a && a + 4 <= |m|
    ensures Total(m, a, 1) == Word(m, a)
  {
    assert Total(m, a, 0) == 0;
  }

  /** Bytes that are all 0 sum up to 0. */
  lemma {:induction false} ZeroTotal(m: seq<byte>, a: int, n: nat)
    requires n == 0 || (0 <= a && a + 4 * n <= |m|)
    requires forall b :: a <= b < a + 4 * n ==> m[b] == 0
    ensures Total(m, a, n) == 0
    decreases n
  {
    if n > 0 {
      ZeroTotal(m, a, n - 1);
    }
  }

  lemma {:induction false} OneTotal(m: seq<byte>, a: int, n: nat)
    requires n > 0 && 0 <= a && a + 4 * n <= |m|
    requires m[a] == 1 && forall b :: a < b < a + 4 * n ==> m[b] == 0
    ensures Total(m, a, n) == 1
    decreases n
  {
    if n > 1 {
      OneTotal(m, a, n - 1);
    } else {
      assert Total(m, a, 0) == 0;
    }
  }

  /** loc_add32_dma: working sets of `n` words, one after the other, one result each. */
  method Add32(d: Dsp, scratch: int, half: nat, src: int, n: nat, iters: nat, dst: int) returns (served: bool)
    requires d.Valid() && d.to == []
    requires var g := Job(scratch, half, src, 4 * n, 4 * n, 1, iters, dst, false);
      Areas(g, d.mem.Length) && Asked(g, d.mem.Length)
    modifies d, d.mem
    ensures d.Valid()
    ensures served <==> n <= half / 4
    ensures served ==>
      FlatSummed(d.mem[..], old(d.mem[..]), Job(scratch, half, src, 4 * n, 4 * n, 1, iters, dst, false))
    ensures served ==>
      AskedStored(d.mem[..], old(d.mem[..]), Job(scratch, half, src, 4 * n, 4 * n, 1, iters, dst, false))
    ensures !served ==> d.mem[..] == old(d.mem[..])
  {
    hide Routed, Carried, Areas, Filled, Summed, Filling, Readable, Rows, Asked, Clear, SetAt, FlatSummed, AskedStored;
    served := n <= half / 4;
    if served {
      ghost var m0 := d.mem[..];
      var w4 := 4 * n;
      var g := Job(scratch, half, src, w4, w4, 1, iters, dst, false);
      OneBlockClear(g, d.mem.Length);
      var workSrc, workSrcNext, srcAddr, dstIdx := scratch, scratch + half, src, 0;
      NothingSummed(m0, g);
      NextSet(g, 0);
      StartSet(d, g, 0, workSrc, srcAddr, 0, m0, 0);
      for iter := 0 to iters
        invariant Buffers(g, workSrc, workSrcNext) && Streaming(d, m0, g, iter, workSrc)
        invariant srcAddr == SetAt(g, iter) && dstIdx == iter && Summed(d.mem[..], m0, g, dstIdx)
      {
        dstIdx := Turn(d, g, iter, workSrc, workSrcNext, srcAddr, 0, dstIdx, m0);
        NextSet(g, iter);
        workSrc, workSrcNext := workSrcNext, workSrc;
        srcAddr := srcAddr + w4;
      }
      NarrowServed(d.mem[..], m0, g);
      NarrowBytes(d.mem[..], m0, g);
    }
  }

  /** The pitch does not matter to sets of one block. */
  lemma OneBlockClear(g: Job, size: int)
    requires Asked(g, size) && g.blocks == 1
    ensures Clear(g, size)
  {
    hide Readable;
    forall k: nat, x: nat | k < Sets(g) * g.blocks && x < g.nb
      ensures Fetchable(g, size, k, x)
    {
      assert k / 1 == k && k % 1 == 0;
      Along(g.src, g.adv, k, x);
      assert Readable(g, size, At(g.src, g.adv, k, x));
    }
  }

  lemma NothingSummed(m: seq<byte>, g: Job)
    requires Apart(g, |m|)
    ensures Summed(m, m, g, 0)
  {
    hide Clear;
  }

  /** A buffer lies in the scratch area. */
  lemma BufferChanged(m: seq<byte>, m': seq<byte>, m0: seq<byte>, g: Job, k: nat, work: int)
    requires |m'| == |m| == |m0| && Apart(g, |m|) && Summed(m, m0, g, k) && Buffer(g, work)
    requires forall a :: 0 <= a < |m| && !(work <= a < work + g.nb * g.blocks) ==> m'[a] == m[a]
    ensures Summed(m', m0, g, k)
  {
    hide Summed, Apart;
    ScratchChanged(m, m', m0, g, k);
  }
}
