/** The whole state of an mspace as one value, its invariant, and the effect of re-tagging chunks. */
module HeapState {
  import opened Machine
  import opened BinIndex
  import opened Words
  import opened TreeWords
  import Rings
  import opened Tries
  import opened Bins
  import opened Chunks

  datatype State = State(m: Mem, h: Heap, b: BinSet, smallmap: bv32, treemap: bv32, dv: int, dvsize: int, top: int,
    topsize: int)

  /** Where the segment lies: its base, which holds the first chunk, and its end. */
  datatype Segment = Segment(first: int, limit: int)

  ghost predicate DvOK(h: Heap, dv: int, dvsize: int) {
    if dvsize == 0 then dv == 0 else dv in h && !h[dv].used && h[dv].size == dvsize
  }

  /** The memory is the segment, word by word: nothing else can be stored to. */
  ghost predicate WholeSegment(m: Mem, g: Segment) {
    forall a :: a in m <==> g.first <= a < g.limit && a % 4 == 0
  }

  /** The chunk layer: tiles, tags, designated victim, top. */
  ghost predicate HeapOK(s: State, g: Segment) {
    && Tiled(s.h, g.first, s.top) && Aligned8(s.h, s.top)
    && s.topsize > 0 && s.top + s.topsize + TOP_FOOT_SIZE == g.limit <= WORD && s.topsize % 8 == 0
    && WholeSegment(s.m, g)
    && Tagged(s.m, s.h, s.top, s.topsize)
    && DvOK(s.h, s.dv, s.dvsize)
  }

  /** The bins hold all free chunks but the designated victim and those in `loose`. */
  ghost predicate BinsOK(s: State, g: Segment, loose: set<int>) {
    && (forall p :: p in loose ==> p in s.h && !s.h[p].used && p != s.dv)
    && BinsRep(s.m, g.first + 8, Binned(s.h, s.dv, loose), s.b, s.smallmap, s.treemap)
  }

  /** The invariant between the steps of an operation. */
  ghost predicate Good(s: State, g: Segment, loose: set<int>) {
    HeapOK(s, g) && BinsOK(s, g, loose)
  }

  /** Only the words in `c` differ. */
  ghost predicate Stores(m: Mem, m': Mem, c: set<int>) {
    m'.Keys == m.Keys && forall a :: a !in c ==> Rd(m', a) == Rd(m, a)
  }

  lemma WordIn(m: Mem, g: Segment, p: int, k: int)
    requires WholeSegment(m, g) && g.first <= p + k < g.limit && p % 8 == 0 && k % 4 == 0
    ensures p + k in m
  {
    assert (p + k) % 4 == 0;
  }

  lemma EightSum(p: int, q: int) returns (s: int)
    requires p % 8 == 0 && q % 8 == 0
    ensures s == p + q && s % 8 == 0
  {
    s := p + q;
  }

  /** The header words of chunk `p` and of what follows it are part of the segment. */
  lemma ChunkInSegment(s: State, g: Segment, p: int)
    requires HeapOK(s, g) && p in s.h
    ensures p in s.m && p + HEAD in s.m && p + FD in s.m && p + BK in s.m
    ensures Next(s.h, p) in s.m && Next(s.h, p) + HEAD in s.m
  {
    ChunkBounds(s.h, g.first, s.top, p);
    assert Next(s.h, p) % 8 == 0;
    assert Next(s.h, p) + 8 <= g.limit;
    ChunkWords(s.m, g, p, Next(s.h, p));
  }

  lemma ChunkWords(m: Mem, g: Segment, p: int, n: int)
    requires WholeSegment(m, g) && g.first <= p && p + 16 <= n && n + 8 <= g.limit && p % 8 == 0 && n % 8 == 0
    ensures p in m && p + HEAD in m && p + FD in m && p + BK in m && n in m && n + HEAD in m
  {
    WordIn(m, g, p, FOOT);
    WordIn(m, g, p, HEAD);
    WordIn(m, g, p, FD);
    WordIn(m, g, p, BK);
    WordIn(m, g, n, FOOT);
    WordIn(m, g, n, HEAD);
  }

  lemma FreeMapped(s: State, g: Segment, loose: set<int>)
    requires HeapOK(s, g)
    ensures Mapped(s.m, g.first + 8, Binned(s.h, s.dv, loose))
  {
    var inv := Binned(s.h, s.dv, loose);
    assert ChunkOK(s.h, g.first, g.first, s.top);
    forall q, a | q in inv && q <= a < q + inv[q] && a % 4 == 0
      ensures a in s.m
    {
      assert ChunkOK(s.h, q, g.first, s.top);
    }
  }

  lemma MappedInSegment(s: State, g: Segment, loose: set<int>)
    requires Good(s, g, loose)
    ensures Mapped(s.m, g.first + 8, Binned(s.h, s.dv, loose))
  {
    FreeMapped(s, g, loose);
  }

  // ----- updates confined to bins leave the tags alone

  lemma TagsKept(m: Mem, m': Mem, h: Heap, first: int, top: int, topsize: int, inv: Inventory, c: set<int>, w0: int,
        w1: int)
    requires Tiled(h, first, top) && Tagged(m, h, top, topsize) && topsize > 0
    requires (forall q :: q in inv ==> q in h && inv[q] == h[q].size) && Confined(m, m', inv, c, w0, w1)
    requires first + 8 <= w0 && w1 < first + MSIZE
    ensures Tagged(m', h, top, topsize)
  {
    forall p | p in h
      ensures Head(m', p) == Head(m, p)
      ensures !h[p].used ==> Foot(m', p + h[p].size) == Foot(m, p + h[p].size)
    {
      TagWords(m, m', h, first, top, inv, c, w0, w1, p);
    }
    TopWords(m, m', h, first, top, topsize, inv, c, w0, w1);
  }

  lemma TagWords(m: Mem, m': Mem, h: Heap, first: int, top: int, inv: Inventory, c: set<int>, w0: int, w1: int, p: int)
    requires Tiled(h, first, top) && p in h && Confined(m, m', inv, c, w0, w1)
    requires forall q :: q in inv ==> q in h && inv[q] == h[q].size
    requires first + 8 <= w0 && w1 < first + MSIZE
    ensures Head(m', p) == Head(m, p)
    ensures Foot(m', p + h[p].size) == Foot(m, p + h[p].size)
  {
    assert ChunkOK(h, p, first, top);
    var n := Next(h, p);
    assert first != p ==> first + MSIZE <= p;
    forall q | q in inv
      ensures !(q + FD <= p + HEAD < q + inv[q]) && !(q + FD <= n < q + inv[q])
    {
      assert ChunkOK(h, q, first, top);
    }
  }

  lemma TopWords(m: Mem, m': Mem, h: Heap, first: int, top: int, topsize: int, inv: Inventory, c: set<int>, w0: int,
        w1: int)
    requires Tiled(h, first, top) && Confined(m, m', inv, c, w0, w1) && topsize > 0
    requires forall q :: q in inv ==> q in h && inv[q] == h[q].size
    requires first + 8 <= w0 && w1 < first + MSIZE
    ensures Head(m', top) == Head(m, top) && Head(m', top + topsize) == Head(m, top + topsize)
  {
    assert ChunkOK(h, first, first, top);
    forall q | q in inv
      ensures q + inv[q] <= top
    {
      assert ChunkOK(h, q, first, top);
    }
  }

  // ----- re-tagging leaves the bins alone

  /** None of the words in `c` is a link word of the record or lies in a binned chunk behind its foot word. */
  ghost predicate OutsideBins(ms: int, inv: Inventory, c: set<int>) {
    forall a :: a in c ==> ms + MSIZE - 8 <= a && forall q :: q in inv ==> !(q + HEAD <= a < q + inv[q])
  }

  lemma BinsKept(m: Mem, m': Mem, ms: int, inv: Inventory, b: BinSet, smallmap: bv32, treemap: bv32, c: set<int>)
    requires BinsRep(m, ms, inv, b, smallmap, treemap) && Stores(m, m', c) && OutsideBins(ms, inv, c)
    ensures BinsRep(m', ms, inv, b, smallmap, treemap)
  {
    forall i: nat {:trigger b.small[i]} | i < 32
      ensures SmallRep(m', ms, inv, i, b.small[i])
    {
      SmallBinKept(m, m', ms, inv, b, smallmap, i, c);
    }
    forall i: nat {:trigger b.tree[i]} | i < 32
      ensures TreeBinRep(m', ms, inv, i, b.tree[i])
    {
      TreeBinKept(m, m', ms, inv, b, treemap, i, c);
    }
  }

  lemma SmallBinKept(m: Mem, m': Mem, ms: int, inv: Inventory, b: BinSet, smallmap: bv32, i: nat, c: set<int>)
    requires InventoryOK(ms, inv) && SmallBinsRep(m, ms, inv, b.small, smallmap) && i < 32
    requires Stores(m, m', c) && OutsideBins(ms, inv, c)
    ensures SmallRep(m', ms, inv, i, b.small[i])
  {
    var ring := b.small[i];
    assert SmallRep(m, ms, inv, i, ring);
    if ring != [] { Rings.RingFrame(m, m', SmallBin(ms, i), ring); }
  }

  lemma TreeBinKept(m: Mem, m': Mem, ms: int, inv: Inventory, b: BinSet, treemap: bv32, i: nat, c: set<int>)
    requires InventoryOK(ms, inv) && TreeBinsRep(m, ms, inv, b.tree, treemap) && i < 32
    requires Stores(m, m', c) && OutsideBins(ms, inv, c)
    ensures TreeBinRep(m', ms, inv, i, b.tree[i])
  {
    var t := b.tree[i];
    assert TreeBinRep(m, ms, inv, i, t);
    forall q | q in Elems(t) ensures SameNode(m, m', q) { NodeOutside(m, m', ms, inv, c, q); }
    TreeFrame(m, m', t, TreeBin(ms, i), i);
  }

  lemma NodeOutside(m: Mem, m': Mem, ms: int, inv: Inventory, c: set<int>, q: int)
    requires Stores(m, m', c) && OutsideBins(ms, inv, c) && q in inv && inv[q] >= 256
    ensures SameNode(m, m', q)
  {
  }

  // ----- the state after init_user_mstate

  /** memset to zero of `n` bytes from `p`. */
  function Zeroed(m: Mem, p: int, n: int): (r: Mem)
    ensures r.Keys == m.Keys
  {
    map a | a in m :: if p <= a < p + n then 0 else m[a]
  }

  function EmptyBins(): BinSet { BinSet(seq(32, i => []), seq(32, i => Nil)) }

  lemma FreshHeap(m: Mem, g: Segment, s: State)
    requires g.first > 0 && g.first % 8 == 0 && g.limit % 8 == 0 && g.first + MSIZE + TOP_FOOT_SIZE < g.limit <= WORD
    requires WholeSegment(m, g)
    requires Head(m, g.first) == HeadWord(MSIZE, true, true)
    requires s.top == g.first + MSIZE && s.topsize == g.limit - TOP_FOOT_SIZE - s.top
    requires Head(m, s.top) == HeadWord(s.topsize, true, false) && Head(m, s.top + s.topsize) == TOP_FOOT_SIZE
    requires s == State(m, map[g.first := Chunk(MSIZE, true, true)], EmptyBins(), 0, 0, 0, 0, s.top, s.topsize)
    ensures HeapOK(s, g)
  {
    assert ChunkOK(s.h, g.first, g.first, s.top);
  }

  lemma FreshBins(m: Mem, g: Segment, s: State)
    requires g.first > 0 && g.first % 8 == 0
    requires forall a :: g.first + 8 + TREEBINS <= a < g.first + MSIZE ==> Rd(m, a) == 0
    requires s == State(m, map[g.first := Chunk(MSIZE, true, true)], EmptyBins(), 0, 0, 0, 0, s.top, s.topsize)
    ensures BinsOK(s, g, {})
  {
    var inv, ms := Binned(s.h, 0, {}), g.first + 8;
    assert inv == map[];
    NoMarks();
    forall i: nat {:trigger s.b.tree[i]} | i < 32
      ensures TreeBinRep(m, ms, inv, i, s.b.tree[i])
    {
      assert Elems(s.b.tree[i]) == {};
    }
  }

  lemma NoMarks()
    ensures forall i: nat :: i < 32 ==> !Marked(0, i)
  {
    forall i: nat | i < 32
      ensures !Marked(0, i)
    {
      ZeroMeets(Idx2Bit(i));
    }
  }

  lemma ZeroMeets(b: bv32)
    ensures !Meets(0, b)
  {
  }

  /** A chunk is in a bin exactly if it is free and not the designated victim; it is in the one bin
      for its size; and the bitmaps mark the bins that hold anything. */
  lemma OneBinEach(s: State, g: Segment, q: int, i: nat)
    requires Good(s, g, {}) && i < 32
    ensures q in s.b.small[i] <==> q in s.h && !s.h[q].used && q != s.dv && s.h[q].size == 8 * i
    ensures q in Elems(s.b.tree[i]) <==>
      q in s.h && !s.h[q].used && q != s.dv && s.h[q].size >= 256 && ComputeTreeIndex(s.h[q].size) == i
    ensures Marked(s.smallmap, i) <==> s.b.small[i] != []
    ensures Marked(s.treemap, i) <==> Elems(s.b.tree[i]) != {}
  {
    hide Marked, HeapOK, ComputeTreeIndex, InventoryOK;
    var inv := Binned(s.h, s.dv, {});
    assert SmallRep(s.m, g.first + 8, inv, i, s.b.small[i]) && TreeBinRep(s.m, g.first + 8, inv, i, s.b.tree[i]);
    if s.b.tree[i].Node? { assert s.b.tree[i].p in Elems(s.b.tree[i]); }
    if q in inv {
      assert inv[q] == s.h[q].size && (inv[q] == 8 * i ==> inv[q] / 8 == i);
    }
  }
}
