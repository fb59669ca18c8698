/** The dsp_mspace_* layer: each block carries its requested size in its first word, callers get
    the address behind it, and running totals are kept. */
module DspHeap {
  import opened Machine
  import opened BinIndex
  import opened Words
  import opened Bins
  import opened Chunks
  import opened HeapState
  import opened HeapLive
  import opened Outcomes
  import opened Mspace

  ghost function Sum(m: map<int, int>): int {
    if exists k :: k in m then var k :| k in m; m[k] + Sum(m - {k}) else 0
  }

  /** Any key may be counted first. */
  lemma {:induction false} SumWithout(m: map<int, int>, k: int)
    requires k in m
    ensures Sum(m) == m[k] + Sum(m - {k})
    decreases |m|
  {
    var j :| j in m && Sum(m) == m[j] + Sum(m - {j});
    if j != k {
      SumWithout(m - {j}, k);
      SumWithout(m - {k}, j);
      assert m - {j} - {k} == m - {k} - {j};
    }
  }

  lemma SumAdd(m: map<int, int>, k: int, v: int)
    requires k !in m
    ensures Sum(m[k := v]) == Sum(m) + v
  {
    SumWithout(m[k := v], k);
    assert m[k := v] - {k} == m;
  }

  /** Every live block is held and starts with its size. */
  ghost predicate Labelled(m: Mem, live: map<int, int>, held: map<int, int>) {
    && (forall u :: u in held ==> u - 12 in live && Rd(m, u - 4) == held[u])
    && (forall p :: p in live ==> p + 12 in held)
  }

  ghost predicate SizesOK(live: map<int, int>) {
    forall q :: q in live ==> live[q] >= 16 && q > 0 && q % 8 == 0
  }

  lemma LiveSizes(s: State, g: Segment)
    requires Good(s, g, {})
    ensures SizesOK(Live(s.h, g.first))
  {
    hide BinsOK;
    forall q | q in Live(s.h, g.first)
      ensures Live(s.h, g.first)[q] >= 16 && q > 0 && q % 8 == 0
    {
      ChunkBounds(s.h, g.first, s.top, q);
    }
  }

  lemma StartOf(live: map<int, int>, q: int)
    requires SizesOK(live) && q in live
    ensures InBlock(live, q, q + 8) && q > 0 && (q + 12) % 8 == 4
  {
  }

  lemma LabelledAt(m: Mem, live: map<int, int>, held: map<int, int>, u: int)
    requires Labelled(m, live, held) && u in held
    ensures u - 12 in live && Rd(m, u - 4) == held[u]
  {
  }

  lemma LabelKept(m0: Mem, m1: Mem, l0: map<int, int>, live: map<int, int>, held: map<int, int>, p: int, n: int)
    requires Labelled(m0, l0, held) && BlocksKept(m0, m1, l0) && SizesOK(l0) && SizesOK(live) && p - 8 !in l0
    requires p - 8 in live
    requires live == l0[p - 8 := live[p - 8]]
    requires forall q, a :: InBlock(live, q, a) && InBlock(live, p - 8, a) ==> q == p - 8
    ensures Labelled(m1[p := n], live, held[p + 4 := n]) && BlocksKept(m0, m1[p := n], l0) && p + 4 !in held
  {
    hide SizesOK;
    var m2 := m1[p := n];
    StartOf(live, p - 8);
    forall q, a | InBlock(l0, q, a)
      ensures Rd(m2, a) == Rd(m0, a)
    {
      assert InBlock(live, q, a);
    }
    forall u | u in held
      ensures Rd(m2, u - 4) == held[u]
    {
      StartOf(l0, u - 12);
    }
  }

  lemma UnlabelKept(m0: Mem, m1: Mem, l0: map<int, int>, live: map<int, int>, held: map<int, int>, ptr: int)
    requires Labelled(m0, l0, held) && SizesOK(l0) && Removed(m0, l0, m1, live, ptr - 12)
    ensures Labelled(m1, live, held - {ptr})
  {
    hide SizesOK, Rd;
    forall u | u in held - {ptr}
      ensures u - 12 in live && Rd(m1, u - 4) == held[u]
    {
      StartOf(l0, u - 12);
      assert InBlock(live, u - 12, u - 4);
    }
  }

  lemma SameBlocks(m: Mem, live: map<int, int>)
    ensures BlocksKept(m, m, live)
  {
  }

  lemma FewerKeys(m: map<int, int>, k: int)
    requires k in m
    ensures |m - {k}| == |m| - 1
  {
    assert (m - {k}).Keys == m.Keys - {k};
    assert |m - {k}| == |(m - {k}).Keys| && |m| == |m.Keys|;
  }

  lemma TotalLess(total: int, sum: int, rest: int, n: int)
    requires total == sum % WORD && sum == n + rest
    ensures (total - n) % WORD == rest % WORD
  {
  }

  lemma TotalMore(total: int, n: int)
    ensures (total % WORD + n) % WORD == (total + n) % WORD
  {
  }

  /** 4 beyond a multiple of `a` is 4 off every power of two up to `a`. */
  /** Pointer `p` is 4 off every multiple of `a`, and of the alignment where that is a power of two. */
  ghost predicate FourBehind(p: int, a: int, alignment: int)
    requires a > 0
  {
    p % a == 4 && (PowerOfTwo(alignment) ==> p % alignment == 4 % alignment)
  }

  lemma FourOff(p: int, a: int, alignment: int)
    requires a >= 8 && p % a == 0 && p % 8 == 0 && (a == 8 || PowerOfTwo(a)) && alignment <= a
    ensures FourBehind(p + 4, a, alignment)
  {
    hide PowerOfTwo;
    EightIsPower();
    FourBeyond(p, a);
    AlignedTo(p, a, alignment);
    if PowerOfTwo(alignment) {
      if alignment > 4 {
        FourBeyond(p, alignment);
        FourMod(alignment);
      } else {
        SmallPower(alignment);
        FourOfEight(p);
      }
    }
  }

  lemma FourMod(a: int)
    requires a > 4
    ensures 4 % a == 4
  {
  }

  lemma FourOfEight(p: int)
    requires p % 8 == 0
    ensures (p + 4) % 1 == 4 % 1 && (p + 4) % 2 == 4 % 2 && (p + 4) % 4 == 4 % 4
  {
    var q := p / 8;
    assert p + 4 == 4 * (2 * q + 1) + 0;
    FourBits(2 * q + 1, 0);
  }

  lemma SmallPower(a: int)
    requires PowerOfTwo(a) && a <= 4
    ensures a == 1 || a == 2 || a == 4
  {
    assert a == 1 || a % 2 == 0;
  }

  lemma FourBeyond(p: int, a: int)
    requires a > 4 && p % a == 0
    ensures (p + 4) % a == 4
  {
    var q := p / a;
    assert p == q * a;
    RemainderIs(p + 4, a, q, 4);
  }

  lemma RemainderIs(x: int, a: int, q: int, r: int)
    requires a > 0 && x == q * a + r && 0 <= r < a
    ensures x % a == r
  {
    DivIs(x, a, q);
  }

  lemma Placed(p: int, alignment: int)
    requires p % 8 == 0 && 0 <= alignment <= HALF_WORD && (alignment > 8 ==> p % Rounded(alignment) == 0)
    ensures FourBehind(p + 4, Rounded(alignment), alignment)
  {
    hide PowerOfTwo, FourBehind, PowerFrom;
    if alignment > 8 { RoundedIs(alignment); }
    FourOff(p, Rounded(alignment), alignment);
  }

  class DspMspace {
    const msp: Mspace
    var totalNumBytes: int
    var totalAllocs: int
    var totalFrees: int
    /** The pointers callers hold, with the sizes they asked for. */
    ghost var held: map<int, int>

    /** The live blocks are those held; each starts with its size; the totals add up. */
    ghost predicate Valid()
      reads this, msp
    {
      msp.Valid() && Labelled(msp.mem, Live(msp.h, msp.base), held) && totalAllocs - totalFrees == |held|
        && totalNumBytes == Sum(held) % WORD
    }

    /** Bytes of the block behind the returned pointer that are the caller's. */
    ghost function Room(u: int): int
      reads msp
      requires u - 12 in Live(msp.h, msp.base)
    {
      Live(msp.h, msp.base)[u - 12] - 8
    }

    /** The running totals. */
    ghost function Totals(): (int, int, int)
      reads this
    {
      (totalNumBytes, totalAllocs, totalFrees)
    }

    constructor (space: Mspace)
      requires space.Valid() && Live(space.h, space.base) == map[]
      ensures msp == space && Valid() && held == map[] && Totals() == (0, 0, 0)
    {
      hide Good, Live;
      msp := space;
      totalNumBytes, totalAllocs, totalFrees := 0, 0, 0;
      held := map[];
    }

    /** dsp_mspace_malloc. The size is stored, and the pointer behind it is returned: it is never
        a multiple of 8. The block is large enough unless adding the size word wraps around. */
    method Malloc(numBytes: int) returns (ret: int)
      requires Valid() && 0 <= numBytes < WORD
      modifies this, msp
      ensures Valid()
      ensures ret == 0 <==> old(Refused(msp.h, msp.topsize, (numBytes + 4) % WORD))
      ensures ret == 0 ==> held == old(held) && msp.St() == old(msp.St())
      ensures Totals() == if ret == 0 then old(Totals())
        else (old(totalNumBytes + numBytes) % WORD, old(totalAllocs) + 1, old(totalFrees))
      ensures ret != 0 ==> ret !in old(held) && held == old(held)[ret := numBytes] && ret % 8 == 4
      ensures ret != 0 ==> ret - 12 in Live(msp.h, msp.base) && (numBytes <= Room(ret) <==> numBytes + 4 < WORD)
      ensures ret != 0 ==> BlocksKept(old(msp.mem), msp.mem, old(Live(msp.h, msp.base)))
      ensures ret != 0 ==>
        Allocated(old(View(msp.St())), View(msp.St()), RequestSize((numBytes + 4) % WORD), ret - 12)
    {
      hide Good, Live, BlocksKept, Refused, Choice, RequestSize, Sum, Labelled, View, Allocated, SizesOK;
      ghost var m0, l0 := msp.mem, Live(msp.h, msp.base);
      LiveSizes(msp.St(), msp.Seg());
      var request := (numBytes + 4) % WORD;
      var p := msp.Malloc(request);
      if p == 0 {
        ret := 0;
      } else {
        ret := HandOut(p, numBytes, m0, l0);
      }
    }

    /** The block's size is stored; the block has room for what was asked for unless adding 4 has wrapped. */
    method HandOut(p: int, numBytes: int, ghost m0: Mem, ghost l0: map<int, int>) returns (ret: int)
      requires msp.Valid() && p - 8 !in l0 && p - 8 in Live(msp.h, msp.base) && 0 <= numBytes < WORD
      requires Live(msp.h, msp.base) == l0[p - 8 := Live(msp.h, msp.base)[p - 8]]
      requires BlocksKept(m0, msp.mem, l0) && Labelled(m0, l0, held) && SizesOK(l0)
      requires totalAllocs - totalFrees == |held| && totalNumBytes == Sum(held) % WORD
      requires (numBytes + 4) % WORD < MAX_REQUEST
      requires var nb := RequestSize((numBytes + 4) % WORD); nb <= Live(msp.h, msp.base)[p - 8] <= nb + 16
      modifies this, msp
      ensures Valid() && ret == p + 4 && ret !in old(held) && held == old(held)[ret := numBytes] && ret % 8 == 4
      ensures ret != 0 && Totals() == (old(totalNumBytes + numBytes) % WORD, old(totalAllocs) + 1, old(totalFrees))
      ensures p % 8 == 0
      ensures View(msp.St()) == old(View(msp.St())) && BlocksKept(m0, msp.mem, l0)
      ensures ret - 12 in Live(msp.h, msp.base) && (numBytes <= Room(ret) <==> numBytes + 4 < WORD)
    {
      hide Good, Live, BlocksKept, RequestSize, Sum, Labelled, View, SizesOK;
      RoomExact(numBytes, Live(msp.h, msp.base)[p - 8]);
      ret := Label(p, numBytes, m0, l0);
    }

    /** p[0] = numBytes; return p + 1 */
    method Label(p: int, numBytes: int, ghost m0: Mem, ghost l0: map<int, int>) returns (ret: int)
      requires msp.Valid() && p - 8 !in l0 && p - 8 in Live(msp.h, msp.base)
      requires Live(msp.h, msp.base) == l0[p - 8 := Live(msp.h, msp.base)[p - 8]]
      requires BlocksKept(m0, msp.mem, l0) && Labelled(m0, l0, held) && SizesOK(l0)
      requires totalAllocs - totalFrees == |held| && totalNumBytes == Sum(held) % WORD
      modifies this, msp
      ensures Valid() && ret == p + 4 && ret !in old(held) && held == old(held)[ret := numBytes] && ret % 8 == 4
      ensures ret != 0 && Totals() == (old(totalNumBytes + numBytes) % WORD, old(totalAllocs) + 1, old(totalFrees))
      ensures msp.h == old(msp.h) && View(msp.St()) == old(View(msp.St())) && BlocksKept(m0, msp.mem, l0)
    {
      hide Good, Live, Sum, BlocksKept, Labelled, SizesOK;
      ghost var m1, live := msp.mem, Live(msp.h, msp.base);
      LiveSizes(msp.St(), msp.Seg());
      BlockWord(msp.St(), msp.Seg(), p - 8);
      StartOf(live, p - 8);
      msp.Store(p - 8, p, numBytes);
      LabelKept(m0, m1, l0, live, held, p, numBytes);
      ret := p + 4;
      totalAllocs := totalAllocs + 1;
      totalNumBytes := (totalNumBytes + numBytes) % WORD;
      SumAdd(held, ret, numBytes);
      TotalMore(Sum(held), numBytes);
      held := held[ret := numBytes];
    }

    /** dsp_mspace_free: hands the block back and takes its stored size off the total. */
    method Free(ptr: int)
      requires Valid() && (ptr == 0 || ptr in held)
      modifies this, msp
      ensures Valid() && held == old(held) - {ptr}
      ensures BlocksKept(old(msp.mem), msp.mem, Live(msp.h, msp.base))
      ensures Totals() == if ptr == 0 then old(Totals())
        else (old(totalNumBytes - held[ptr]) % WORD, old(totalAllocs), old(totalFrees) + 1)
      ensures if ptr == 0 then msp.St() == old(msp.St()) else Freed(old(View(msp.St())), View(msp.St()), ptr - 12)
    {
      hide Good, Live, Sum, BlocksKept, Labelled, SizesOK, View, Freed;
      ghost var m0, l0 := msp.mem, Live(msp.h, msp.base);
      if ptr != 0 {
        LabelledAt(m0, l0, held, ptr);
        LiveSizes(msp.St(), msp.Seg());
        StartOf(l0, ptr - 12);
        Unlabel(ptr);
      } else {
        NoNull(msp.St(), msp.Seg(), held);
        SameBlocks(m0, l0);
      }
    }

    method Unlabel(ptr: int)
      requires Valid() && ptr in held && ptr > 4 && SizesOK(Live(msp.h, msp.base)) && ptr - 12 in Live(msp.h, msp.base)
      requires Rd(msp.mem, ptr - 4) == held[ptr]
      modifies this, msp
      ensures Valid() && held == old(held) - {ptr}
      ensures BlocksKept(old(msp.mem), msp.mem, Live(msp.h, msp.base))
      ensures Totals() == (old(totalNumBytes - held[ptr]) % WORD, old(totalAllocs), old(totalFrees) + 1)
      ensures Freed(old(View(msp.St())), View(msp.St()), ptr - 12)
    {
      hide Good, Live, Sum, BlocksKept, Labelled, SizesOK, View, Freed;
      ghost var m0, l0, held0 := msp.mem, Live(msp.h, msp.base), held;
      var numBytes := Rd(msp.mem, ptr - 4);
      msp.Free(ptr - 4);
      UnlabelKept(m0, msp.mem, l0, Live(msp.h, msp.base), held0, ptr);
      Discount(ptr, numBytes);
    }

    /** A block that was handed back leaves the totals. */
    method Discount(ptr: int, numBytes: int)
      requires msp.Valid() && ptr in held && numBytes == held[ptr]
      requires Labelled(msp.mem, Live(msp.h, msp.base), held - {ptr})
      requires totalAllocs - totalFrees == |held| && totalNumBytes == Sum(held) % WORD
      modifies this
      ensures Valid() && held == old(held) - {ptr}
      ensures Totals() == (old(totalNumBytes - held[ptr]) % WORD, old(totalAllocs), old(totalFrees) + 1)
    {
      hide Good, Live, Sum, Labelled;
      ghost var rest := held - {ptr};
      SumWithout(held, ptr);
      FewerKeys(held, ptr);
      TotalLess(totalNumBytes, Sum(held), Sum(rest), numBytes);
      var left := (totalNumBytes - numBytes) % WORD;
      assert left == Sum(rest) % WORD;
      totalFrees, totalNumBytes := totalFrees + 1, left;
      held := rest;
    }

    /** dsp_mspace_memalign: the pointer returned is 4 off every multiple of the alignment. */
    method Memalign(alignment: int, numBytes: int) returns (ret: int, ended: bool)
      requires Valid() && 0 <= alignment < WORD && 0 <= numBytes < WORD
      modifies this, msp
      ensures Valid()
      ensures ended <==> alignment <= HALF_WORD
      ensures ret == 0 ==> held == old(held) && msp.St() == old(msp.St())
      ensures Totals() == if ret == 0 then old(Totals())
        else (old(totalNumBytes + numBytes) % WORD, old(totalAllocs) + 1, old(totalFrees))
      ensures alignment <= 8 ==> (ret == 0 <==> old(Refused(msp.h, msp.topsize, (numBytes + 4) % WORD)))
      ensures 8 < alignment <= HALF_WORD ==>
                (ret == 0 <==> (numBytes + 4) % WORD >= MAX_REQUEST - Rounded(alignment)
                               || old(Refused(msp.h, msp.topsize,
                                 RequestSize((numBytes + 4) % WORD) + Rounded(alignment) + 12)))
      ensures ret != 0 ==> ret !in old(held) && held == old(held)[ret := numBytes]
      ensures ret != 0 ==> FourBehind(ret, Rounded(alignment), alignment)
      ensures ret != 0 ==> ret - 12 in Live(msp.h, msp.base) && (numBytes <= Room(ret) <==> numBytes + 4 < WORD)
      ensures ret != 0 ==> BlocksKept(old(msp.mem), msp.mem, old(Live(msp.h, msp.base)))
      ensures ret != 0 ==>
        var nb := RequestSize((numBytes + 4) % WORD);
        if alignment <= 8 then Allocated(old(View(msp.St())), View(msp.St()), nb, ret - 12)
        else AlignedAllocated(old(View(msp.St())), View(msp.St()), Rounded(alignment), nb, ret - 4)
    {
      hide Good, Live, BlocksKept, Refused, Choice, RequestSize, Sum, Labelled, PowerOfTwo, PowerFrom, View, Allocated,
        AlignedAllocated, FourBehind, SizesOK, Rounded;
      ghost var m0, l0 := msp.mem, Live(msp.h, msp.base);
      LiveSizes(msp.St(), msp.Seg());
      var request := (numBytes + 4) % WORD;
      var p;
      p, ended := msp.Memalign(alignment, request);
      if p == 0 {
        ret := 0;
      } else {
        ret := HandOut(p, numBytes, m0, l0);
        Placed(p, alignment);
      }
    }

    lemma BlockWord(s: State, g: Segment, q: int)
      requires Good(s, g, {}) && q in Live(s.h, g.first)
      ensures q + 8 in s.m && q > 0
      ensures forall p, a :: InBlock(Live(s.h, g.first), p, a) && InBlock(Live(s.h, g.first), q, a) ==> p == q
    {
      hide BinsOK;
      ChunkInSegment(s, g, q);
      ChunkBounds(s.h, g.first, s.top, q);
      forall p, a | InBlock(Live(s.h, g.first), p, a) && InBlock(Live(s.h, g.first), q, a)
        ensures p == q
      {
        LiveDisjoint(s, g, p, q, a);
      }
    }
  }

  lemma NoNull(s: State, g: Segment, held: map<int, int>)
    requires Good(s, g, {}) && Labelled(s.m, Live(s.h, g.first), held)
    ensures 0 !in held && held - {0} == held
  {
    hide Good;
    LiveSizes(s, g);
    if 0 in held { LabelledAt(s.m, Live(s.h, g.first), held, 0); }
  }

  /** The wrapped request of 0 to 3 bytes gets a block of at most 32, far less than was asked for. */
  lemma RoomExact(numBytes: int, size: int)
    requires 0 <= numBytes < WORD && (numBytes + 4) % WORD < MAX_REQUEST
    requires var nb := RequestSize((numBytes + 4) % WORD); nb <= size <= nb + 16
    ensures numBytes <= size - 8 <==> numBytes + 4 < WORD
  {
    RequestSizeFits((numBytes + 4) % WORD);
    if numBytes + 4 < WORD {
      assert (numBytes + 4) % WORD == numBytes + 4;
    } else {
      assert (numBytes + 4) % WORD == numBytes + 4 - WORD;
    }
  }

  /** In any fresh mspace with room for one chunk, requests of 2^32 - 4 bytes and more are granted,
      and the block is too small for them. */
  method TinyGrant(m0: Mem, tbase: int, capacity: int, numBytes: int) returns (d: DspMspace, ret: int)
    requires tbase > 0 && tbase % 8 == 0 && capacity % 8 == 0 && MSIZE + TOP_FOOT_SIZE + MIN_CHUNK_SIZE < capacity
    requires tbase + capacity <= WORD
    requires WholeSegment(m0, Segment(tbase, tbase + capacity)) && WORD - 4 <= numBytes < WORD
    ensures ret != 0 && ret - 12 in Live(d.msp.h, d.msp.base) && d.Room(ret) < numBytes
  {
    hide Good, Live, BlocksKept, Labelled, Sum;
    var space := new Mspace(m0, tbase, capacity);
    d := new DspMspace(space);
    assert (numBytes + 4) % WORD == numBytes + 4 - WORD;
    assert RequestSize((numBytes + 4) % WORD) == MIN_CHUNK_SIZE;
    ret := d.Malloc(numBytes);
  }
}
