/** The steps between which the invariant of an mspace holds: taking, splitting and merging
    chunks that are in no bin. */
module HeapSteps {
  import opened Words
  import opened Bins
  import opened Chunks
  import opened HeapState

  // ----- what belongs to the callers

  /** Word `a` is payload of the used chunk `q`: it may lie in the foot word of the next chunk. */
  predicate InPayload(h: Heap, first: int, q: int, a: int) {
    q in h && h[q].used && q != first && q + FD <= a < q + h[q].size + HEAD
  }

  ghost predicate PayloadKept(m: Mem, m': Mem, h: Heap, first: int) {
    forall q, a :: InPayload(h, first, q, a) ==> Rd(m', a) == Rd(m, a)
  }

  /** No used chunk's payload contains `a`. */
  ghost predicate Private(h: Heap, first: int, a: int) {
    forall q :: !InPayload(h, first, q, a)
  }

  lemma FreeIsPrivate(h: Heap, first: int, top: int, p: int, a: int)
    requires Tiled(h, first, top) && p in h && (!h[p].used || p == first) && p + HEAD <= a < p + h[p].size + HEAD
    ensures Private(h, first, a)
  {
    forall q
      ensures !InPayload(h, first, q, a)
    {
      if q in h { ChunkBounds(h, first, top, q); }
    }
  }

  lemma HeadIsPrivate(h: Heap, first: int, top: int, p: int)
    requires Tiled(h, first, top) && p in h
    ensures Private(h, first, p + HEAD)
  {
    var a := p + HEAD;
    forall q
      ensures !InPayload(h, first, q, a)
    {
      if q in h { ChunkBounds(h, first, top, q); }
    }
  }

  lemma TopIsPrivate(h: Heap, first: int, top: int, a: int)
    requires Tiled(h, first, top) && top + HEAD <= a
    ensures Private(h, first, a)
  {
    forall q
      ensures !InPayload(h, first, q, a)
    {
      if q in h { ChunkBounds(h, first, top, q); }
    }
  }

  lemma StoresPrivate(m: Mem, m': Mem, h: Heap, first: int, c: set<int>)
    requires Stores(m, m', c) && forall a :: a in c ==> Private(h, first, a)
    ensures PayloadKept(m, m', h, first)
  {
  }

  // ----- words outside the bins

  ghost predicate OfHeap(inv: Inventory, h: Heap) {
    forall q :: q in inv ==> q in h && inv[q] == h[q].size
  }

  lemma BinnedOfHeap(h: Heap, dv: int, loose: set<int>)
    ensures OfHeap(Binned(h, dv, loose), h)
    ensures forall q :: q in h && (h[q].used || q == dv || q in loose) ==> q !in Binned(h, dv, loose)
  {
  }

  /** The head word of a chunk that is in no bin, and the foot word behind any chunk. */
  lemma HeadOutside(h: Heap, first: int, top: int, inv: Inventory, p: int)
    requires Tiled(h, first, top) && p in h && p !in inv && p != first && OfHeap(inv, h)
    ensures OutsideBins(first + 8, inv, {p + HEAD})
  {
    ChunkBounds(h, first, top, p);
    forall q | q in inv
      ensures !(q + HEAD <= p + HEAD < q + inv[q])
    {
      ChunkBounds(h, first, top, q);
    }
  }

  lemma InsideOutside(h: Heap, first: int, top: int, inv: Inventory, p: int, a: int)
    requires Tiled(h, first, top) && p in h && p !in inv && p != first && OfHeap(inv, h)
    requires p + HEAD <= a < p + h[p].size + HEAD
    ensures OutsideBins(first + 8, inv, {a})
  {
    ChunkBounds(h, first, top, p);
    forall q | q in inv
      ensures !(q + HEAD <= a < q + inv[q])
    {
      ChunkBounds(h, first, top, q);
    }
  }

  lemma TopOutside(h: Heap, first: int, top: int, inv: Inventory, a: int)
    requires Tiled(h, first, top) && top <= a && OfHeap(inv, h)
    ensures OutsideBins(first + 8, inv, {a})
  {
    ChunkBounds(h, first, top, first);
    forall q | q in inv
      ensures !(q + HEAD <= a < q + inv[q])
    {
      ChunkBounds(h, first, top, q);
    }
  }

  // ----- a whole free chunk is taken

  /** Chunk `p`, free, out of the bins, becomes used; what was the designated victim is none any more. */
  lemma TakeWhole(s: State, s': State, g: Segment, loose: set<int>, p: int)
    requires Good(s, g, loose) && p in s.h && !s.h[p].used && (p in loose || p == s.dv)
    requires Next(s.h, p) in s.h && s' == s.(m := s'.m, h := Used(s.h, p), dv := s'.dv, dvsize := s'.dvsize)
    requires if p == s.dv then s'.dv == 0 && s'.dvsize == 0 else s'.dv == s.dv && s'.dvsize == s.dvsize
    requires var n := Next(s.h, p);
             && Stores(s.m, s'.m, {p + HEAD, n + HEAD})
             && Head(s'.m, p) == HeadWord(s.h[p].size, true, true) && Head(s'.m, n) == HeadWord(s.h[n].size, true, true)
    ensures Good(s', g, loose - {p}) && PayloadKept(s.m, s'.m, s.h, g.first)
  {
    TakeWholeHeap(s, s', g, p);
    TakeWholeBins(s, s', g, loose, p);
    UsedLoose(s, s', g, loose, p);
  }

  lemma TakeWholeHeap(s: State, s': State, g: Segment, p: int)
    requires HeapOK(s, g) && p in s.h && !s.h[p].used
    requires Next(s.h, p) in s.h && s' == s.(m := s'.m, h := Used(s.h, p), dv := s'.dv, dvsize := s'.dvsize)
    requires if p == s.dv then s'.dv == 0 && s'.dvsize == 0 else s'.dv == s.dv && s'.dvsize == s.dvsize
    requires var n := Next(s.h, p);
             && Stores(s.m, s'.m, {p + HEAD, n + HEAD})
             && Head(s'.m, p) == HeadWord(s.h[p].size, true, true) && Head(s'.m, n) == HeadWord(s.h[n].size, true, true)
    ensures HeapOK(s', g)
  {
    UsedTiled(s.h, g.first, s.top, p);
    TakenTagged(s, s', g, p);
    UsedRest(s, s', g, p);
  }

  lemma TakeWholeBins(s: State, s': State, g: Segment, loose: set<int>, p: int)
    requires Good(s, g, loose) && p in s.h && !s.h[p].used && (p in loose || p == s.dv) && Next(s.h, p) in s.h
    requires s' == s.(m := s'.m, h := Used(s.h, p), dv := s'.dv, dvsize := s'.dvsize)
    requires s'.dv == if p == s.dv then 0 else s.dv
    requires Stores(s.m, s'.m, {p + HEAD, Next(s.h, p) + HEAD})
    ensures BinsRep(s'.m, g.first + 8, Binned(s'.h, s'.dv, loose - {p}), s'.b, s'.smallmap, s'.treemap)
    ensures PayloadKept(s.m, s'.m, s.h, g.first)
  {
    hide BinsRep, Tagged, WholeSegment, Aligned8, DvOK;
    assert s.h[Next(s.h, p)].used && Binned(s'.h, s'.dv, loose - {p}) == Binned(s.h, s.dv, loose) by {
      UsedTiled(s.h, g.first, s.top, p);
      ZeroIsNoChunk(s.h, g.first, s.top);
      UsedBinned(s.h, s.dv, s'.dv, loose, p);
    }
    assert p != g.first && Next(s.h, p) != g.first by { ChunkBounds(s.h, g.first, s.top, p); }
    HeadsKeepBins(s, s'.m, g, loose, p, Next(s.h, p));
    HeadsKeepPayload(s.m, s'.m, s.h, g.first, s.top, p, Next(s.h, p));
  }

  lemma ZeroIsNoChunk(h: Heap, first: int, top: int)
    requires Tiled(h, first, top)
    ensures 0 !in h
  {
    if 0 in h { ChunkBounds(h, first, top, 0); }
  }

  lemma UsedBinned(h: Heap, dv: int, dv': int, loose: set<int>, p: int)
    requires p in h && !h[p].used && Next(h, p) in h && h[Next(h, p)].used && (p in loose || p == dv)
    requires if p == dv then dv' == 0 && 0 !in h else dv' == dv
    ensures Binned(Used(h, p), dv', loose - {p}) == Binned(h, dv, loose)
  {
  }

  lemma UsedRest(s: State, s': State, g: Segment, p: int)
    requires HeapOK(s, g) && p in s.h && !s.h[p].used && Next(s.h, p) in s.h && s.h[Next(s.h, p)].used
    requires s' == s.(m := s'.m, h := Used(s.h, p), dv := s'.dv, dvsize := s'.dvsize) && s'.m.Keys == s.m.Keys
    requires if p == s.dv then s'.dv == 0 && s'.dvsize == 0 else s'.dv == s.dv && s'.dvsize == s.dvsize
    ensures DvOK(s'.h, s'.dv, s'.dvsize) && WholeSegment(s'.m, g) && Aligned8(s'.h, s'.top)
  {
  }

  lemma UsedLoose(s: State, s': State, g: Segment, loose: set<int>, p: int)
    requires HeapOK(s, g) && p in s.h && !s.h[p].used && Next(s.h, p) in s.h && s'.h == Used(s.h, p)
    requires forall q :: q in loose ==> q in s.h && !s.h[q].used && q != s.dv
    requires s'.dv == if p == s.dv then 0 else s.dv
    ensures forall q :: q in loose - {p} ==> q in s'.h && !s'.h[q].used && q != s'.dv
  {
    UsedTiled(s.h, g.first, s.top, p);
    ZeroIsNoChunk(s.h, g.first, s.top);
  }

  lemma HeadsKeepBins(s: State, m': Mem, g: Segment, loose: set<int>, p: int, n: int)
    requires Good(s, g, loose) && p in s.h && n in s.h && (s.h[p].used || p == s.dv || p in loose)
    requires s.h[n].used || n == s.dv || n in loose
    requires Stores(s.m, m', {p + HEAD, n + HEAD}) && p != g.first && n != g.first
    ensures BinsRep(m', g.first + 8, Binned(s.h, s.dv, loose), s.b, s.smallmap, s.treemap)
  {
    var inv, c := Binned(s.h, s.dv, loose), {p + HEAD, n + HEAD};
    assert OutsideBins(g.first + 8, inv, c) by {
      BinnedOfHeap(s.h, s.dv, loose);
      HeadOutside(s.h, g.first, s.top, inv, p);
      HeadOutside(s.h, g.first, s.top, inv, n);
    }
    BinsKept(s.m, m', g.first + 8, inv, s.b, s.smallmap, s.treemap, c);
  }

  lemma HeadsKeepPayload(m: Mem, m': Mem, h: Heap, first: int, top: int, p: int, n: int)
    requires Tiled(h, first, top) && p in h && n in h && Stores(m, m', {p + HEAD, n + HEAD})
    ensures PayloadKept(m, m', h, first)
  {
    HeadIsPrivate(h, first, top, p);
    HeadIsPrivate(h, first, top, n);
    StoresPrivate(m, m', h, first, {p + HEAD, n + HEAD});
  }

  lemma TakenTagged(s: State, s': State, g: Segment, p: int)
    requires HeapOK(s, g) && p in s.h && !s.h[p].used && Next(s.h, p) in s.h && s'.h == Used(s.h, p)
    requires var n := Next(s.h, p);
             && Stores(s.m, s'.m, {p + HEAD, n + HEAD})
             && Head(s'.m, p) == HeadWord(s.h[p].size, true, true) && Head(s'.m, n) == HeadWord(s.h[n].size, true, true)
    ensures Tagged(s'.m, s'.h, s.top, s.topsize)
  {
    hide Tiled, WholeSegment, Aligned8, DvOK;
    forall q | q in s'.h
      ensures TagsOf(s'.m, s'.h, q)
    {
      TakenTags(s.m, s'.m, s.h, g.first, s.top, p, q);
    }
    TagsTogether(s'.m, s'.h);
    TopElsewhere(s.m, s'.m, s.h, g.first, s.top, s.topsize, p);
    TopElsewhere(s.m, s'.m, s.h, g.first, s.top, s.topsize, Next(s.h, p));
  }

  lemma TakenTags(m: Mem, m': Mem, h: Heap, first: int, top: int, p: int, q: int)
    requires Tiled(h, first, top) && p in h && !h[p].used && Next(h, p) in h && q in h && TagsOf(m, h, q)
    requires var n := Next(h, p);
             && Stores(m, m', {p + HEAD, n + HEAD})
             && Head(m', p) == HeadWord(h[p].size, true, true) && Head(m', n) == HeadWord(h[n].size, true, true)
    ensures TagsOf(m', Used(h, p), q)
  {
    UsedTiled(h, first, top, p);
    if q != p && q != Next(h, p) { TwoHeadsElsewhere(m, m', h, first, top, p, Next(h, p), q); }
  }

  /** The boundary tags of one chunk. */
  ghost predicate TagsOf(m: Mem, h: Heap, q: int)
    requires q in h
  {
    && Head(m, q) == HeadWord(h[q].size, h[q].pin, h[q].used)
    && (!h[q].used ==> Foot(m, q + h[q].size) == h[q].size)
  }

  lemma TagsTogether(m: Mem, h: Heap)
    requires forall q :: q in h ==> TagsOf(m, h, q)
    ensures forall p :: p in h ==> Head(m, p) == HeadWord(h[p].size, h[p].pin, h[p].used)
    ensures forall p :: p in h && !h[p].used ==> Foot(m, p + h[p].size) == h[p].size
  {
  }

  lemma TwoHeadsElsewhere(m: Mem, m': Mem, h: Heap, first: int, top: int, p: int, n: int, q: int)
    requires Tiled(h, first, top) && p in h && n in h && q in h && q != p && q != n
    requires Stores(m, m', {p + HEAD, n + HEAD})
    ensures Head(m', q) == Head(m, q) && Foot(m', q + h[q].size) == Foot(m, q + h[q].size)
  {
    FootApart(h, first, top, q, p);
    FootApart(h, first, top, q, n);
  }

  lemma TopElsewhere(m: Mem, m': Mem, h: Heap, first: int, top: int, topsize: int, p: int)
    requires Tiled(h, first, top) && p in h && topsize > 0
    ensures p + HEAD != top + HEAD && p + HEAD != top + topsize + HEAD
  {
    ChunkBounds(h, first, top, p);
  }

  /** The foot word behind a chunk is no head word of a chunk. */
  lemma FootApart(h: Heap, first: int, top: int, q: int, p: int)
    requires Tiled(h, first, top) && q in h && p in h
    ensures q + h[q].size != p + HEAD
  {
    ChunkBounds(h, first, top, q);
    ChunkBounds(h, first, top, p);
  }

  // ----- the first part of a free chunk is taken

  /** Chunk `p`, free, out of the bins, gives its first `nb` bytes away. The rest is the
      designated victim if `p` was, and otherwise in no bin either. */
  lemma TakeFirst(s: State, s': State, g: Segment, loose: set<int>, p: int, nb: int)
    requires Good(s, g, loose) && p in s.h && !s.h[p].used && (p in loose || p == s.dv)
    requires nb >= MIN_CHUNK_SIZE && nb % 8 == 0 && s.h[p].size - nb >= MIN_CHUNK_SIZE
    requires s' == s.(m := s'.m, h := Split(s.h, p, nb), dv := s'.dv, dvsize := s'.dvsize)
    requires if p == s.dv then s'.dv == p + nb && s'.dvsize == s.h[p].size - nb
      else s'.dv == s.dv && s'.dvsize == s.dvsize
    requires SplitStores(s.m, s'.m, p, nb, s.h[p].size)
    ensures Good(s', g, if p == s.dv then loose else loose - {p} + {p + nb}) && PayloadKept(s.m, s'.m, s.h, g.first)
  {
    hide SplitStores, Split, HeadWord, Rd, Head;
    TakeFirstHeap(s, s', g, p, nb);
    TakeFirstBins(s, s', g, loose, p, nb);
    TakeFirstLoose(s, s', g, loose, p, nb);
  }

  lemma TakeFirstHeap(s: State, s': State, g: Segment, p: int, nb: int)
    requires HeapOK(s, g) && p in s.h && !s.h[p].used
    requires nb >= MIN_CHUNK_SIZE && nb % 8 == 0 && s.h[p].size - nb >= MIN_CHUNK_SIZE
    requires s' == s.(m := s'.m, h := Split(s.h, p, nb), dv := s'.dv, dvsize := s'.dvsize)
    requires if p == s.dv then s'.dv == p + nb && s'.dvsize == s.h[p].size - nb
      else s'.dv == s.dv && s'.dvsize == s.dvsize
    requires SplitStores(s.m, s'.m, p, nb, s.h[p].size)
    ensures HeapOK(s', g)
  {
    SplitTiled(s.h, g.first, s.top, p, nb);
    SplitTagged(s, s', g, p, nb);
    SplitRest(s, s', g, p, nb);
  }

  lemma TakeFirstBins(s: State, s': State, g: Segment, loose: set<int>, p: int, nb: int)
    requires Good(s, g, loose) && p in s.h && !s.h[p].used && (p in loose || p == s.dv)
    requires nb >= MIN_CHUNK_SIZE && s.h[p].size - nb >= MIN_CHUNK_SIZE
    requires s' == s.(m := s'.m, h := Split(s.h, p, nb), dv := s'.dv, dvsize := s'.dvsize)
    requires s'.dv == if p == s.dv then p + nb else s.dv
    requires SplitStores(s.m, s'.m, p, nb, s.h[p].size)
    ensures BinsRep(s'.m, g.first + 8, Binned(s'.h, s'.dv, if p == s.dv then loose else loose - {p} + {p + nb}), s'.b,
      s'.smallmap, s'.treemap)
    ensures PayloadKept(s.m, s'.m, s.h, g.first)
  {
    hide BinsRep, Tagged, WholeSegment, Aligned8, DvOK, Tiled;
    assert Binned(s'.h, s'.dv, if p == s.dv then loose else loose - {p} + {p + nb}) == Binned(s.h, s.dv, loose) by {
      SplitTiled(s.h, g.first, s.top, p, nb);
      VictimPlace(s, g, p, nb);
      SplitBinned(s.h, s.dv, s'.dv, loose, p, nb);
    }
    InsideKeeps(s, s'.m, g, loose, p, p + HEAD, p + nb + HEAD, p + s.h[p].size);
  }

  lemma TakeFirstLoose(s: State, s': State, g: Segment, loose: set<int>, p: int, nb: int)
    requires HeapOK(s, g) && p in s.h && nb >= MIN_CHUNK_SIZE && s.h[p].size - nb >= MIN_CHUNK_SIZE && !s.h[p].used
    requires forall q :: q in loose ==> q in s.h && !s.h[q].used && q != s.dv
    requires s'.h == Split(s.h, p, nb) && s'.dv == if p == s.dv then p + nb else s.dv
    ensures forall q :: q in (if p == s.dv then loose else loose - {p} + {p + nb}) ==>
      q in s'.h && !s'.h[q].used && q != s'.dv
  {
    SplitTiled(s.h, g.first, s.top, p, nb);
    VictimPlace(s, g, p, nb);
  }

  ghost predicate SplitStores(m: Mem, m': Mem, p: int, nb: int, size: int) {
    && Stores(m, m', {p + HEAD, p + nb + HEAD, p + size})
    && Head(m', p) == HeadWord(nb, true, true) && Head(m', p + nb) == HeadWord(size - nb, true, false)
    && Foot(m', p + size) == size - nb
  }

  lemma SplitBinned(h: Heap, dv: int, dv': int, loose: set<int>, p: int, nb: int)
    requires p in h && !h[p].used && (p in loose || p == dv) && p + nb !in h && nb > 0
    requires dv' == if p == dv then p + nb else dv
    requires (forall q :: q in loose ==> q in h && q != dv) && (dv == 0 || dv in h) && 0 !in h && p + nb != 0
    ensures Binned(Split(h, p, nb), dv', if p == dv then loose else loose - {p} + {p + nb}) == Binned(h, dv, loose)
  {
  }

  lemma SplitTagged(s: State, s': State, g: Segment, p: int, nb: int)
    requires HeapOK(s, g) && p in s.h && !s.h[p].used && 16 <= nb && s.h[p].size - nb >= 16
    requires s'.h == Split(s.h, p, nb) && SplitStores(s.m, s'.m, p, nb, s.h[p].size)
    ensures Tagged(s'.m, s'.h, s.top, s.topsize)
  {
    hide Foot, Tiled, WholeSegment;
    forall q | q in s'.h
      ensures TagsOf(s'.m, s'.h, q)
    {
      if q != p + nb { assert q in s.h && TagsOf(s.m, s.h, q); }
      SplitTags(s.m, s'.m, s.h, g.first, s.top, p, nb, q);
    }
    TagsTogether(s'.m, s'.h);
    assert TopTags(s'.m, s.top, s.topsize) by { ChunkBounds(s.h, g.first, s.top, p); }
  }

  lemma SplitTags(m: Mem, m': Mem, h: Heap, first: int, top: int, p: int, nb: int, q: int)
    requires Tiled(h, first, top) && p in h && !h[p].used && 16 <= nb < h[p].size && q in Split(h, p, nb)
    requires q != p + nb ==> q in h && TagsOf(m, h, q)
    requires SplitStores(m, m', p, nb, h[p].size)
    ensures TagsOf(m', Split(h, p, nb), q)
  {
    assert h[p].pin by { assert ChunkOK(h, p, first, top); }
    if q != p && q != p + nb {
      InsideElsewhere(m, m', h, first, top, p, {p + HEAD, p + nb + HEAD, p + h[p].size}, q);
    }
  }

  /** Stores inside free chunk `p` and its foot word keep the tags of the other chunks. */
  lemma InsideElsewhere(m: Mem, m': Mem, h: Heap, first: int, top: int, p: int, c: set<int>, q: int)
    requires Tiled(h, first, top) && p in h && q in h && q != p && Stores(m, m', c)
    requires forall a :: a in c ==> p + HEAD <= a < p + h[p].size + HEAD
    ensures Head(m', q) == Head(m, q) && Foot(m', q + h[q].size) == Foot(m, q + h[q].size)
  {
    ChunkBounds(h, first, top, p);
    ChunkBounds(h, first, top, q);
  }

  lemma InsideKeeps(s: State, m': Mem, g: Segment, loose: set<int>, p: int, a1: int, a2: int, a3: int)
    requires Good(s, g, loose) && p in s.h && !s.h[p].used && (p in loose || p == s.dv)
    requires p + HEAD <= a1 <= p + s.h[p].size && p + HEAD <= a2 <= p + s.h[p].size && p + HEAD <= a3 <= p + s.h[p].size
    requires Stores(s.m, m', {a1, a2, a3})
    ensures BinsRep(m', g.first + 8, Binned(s.h, s.dv, loose), s.b, s.smallmap, s.treemap)
    ensures PayloadKept(s.m, m', s.h, g.first)
  {
    hide BinsRep, Tagged, WholeSegment, Aligned8, DvOK, Private, Binned, Stores;
    var c, inv := {a1, a2, a3}, Binned(s.h, s.dv, loose);
    assert OutsideBins(g.first + 8, inv, c) by {
      BinnedOfHeap(s.h, s.dv, loose);
      InsideOutside(s.h, g.first, s.top, inv, p, a1);
      InsideOutside(s.h, g.first, s.top, inv, p, a2);
      InsideOutside(s.h, g.first, s.top, inv, p, a3);
    }
    BinsKept(s.m, m', g.first + 8, inv, s.b, s.smallmap, s.treemap, c);
    assert PayloadKept(s.m, m', s.h, g.first) by {
      FreeIsPrivate(s.h, g.first, s.top, p, a1);
      FreeIsPrivate(s.h, g.first, s.top, p, a2);
      FreeIsPrivate(s.h, g.first, s.top, p, a3);
      StoresPrivate(s.m, m', s.h, g.first, c);
    }
  }

  lemma SplitRest(s: State, s': State, g: Segment, p: int, nb: int)
    requires HeapOK(s, g) && p in s.h && !s.h[p].used && nb % 8 == 0 && p + nb !in s.h && nb > 0 && s.h[p].size > nb
    requires s' == s.(m := s'.m, h := Split(s.h, p, nb), dv := s'.dv, dvsize := s'.dvsize) && s'.m.Keys == s.m.Keys
    requires if p == s.dv then s'.dv == p + nb && s'.dvsize == s.h[p].size - nb
      else s'.dv == s.dv && s'.dvsize == s.dvsize
    ensures DvOK(s'.h, s'.dv, s'.dvsize) && WholeSegment(s'.m, g) && Aligned8(s'.h, s'.top)
  {
    ZeroIsNoChunk(s.h, g.first, s.top);
    AlignedAfter(s.h, s.top, p, nb);
  }

  lemma AlignedAfter(h: Heap, top: int, p: int, nb: int)
    requires Aligned8(h, top) && p in h && nb % 8 == 0
    ensures (p + nb) % 8 == 0 && (h[p].size - nb) % 8 == 0
  {
  }

  lemma VictimPlace(s: State, g: Segment, p: int, nb: int)
    requires HeapOK(s, g) && p in s.h && nb >= 0
    ensures 0 !in s.h && p + nb != 0 && (s.dv == 0 || s.dv in s.h)
  {
    ZeroIsNoChunk(s.h, g.first, s.top);
    ChunkBounds(s.h, g.first, s.top, p);
  }

  // ----- a chunk is cut from top

  lemma TakeTop(s: State, s': State, g: Segment, nb: int)
    requires Good(s, g, {}) && nb >= MIN_CHUNK_SIZE && nb % 8 == 0 && nb < s.topsize
    requires s' == s.(m := s'.m, h := s.h[s.top := Chunk(nb, true, true)], top := s.top + nb, topsize := s.topsize - nb)
    requires Stores(s.m, s'.m, {s.top + HEAD, s.top + nb + HEAD})
    requires Head(s'.m, s.top) == HeadWord(nb, true, true)
    requires Head(s'.m, s.top + nb) == HeadWord(s.topsize - nb, true, false)
    ensures Good(s', g, {}) && s.top !in s.h && PayloadKept(s.m, s'.m, s.h, g.first)
  {
    CutTopTiled(s.h, g.first, s.top, nb);
    TakeTopHeap(s, s', g, nb);
    TakeTopBins(s, s', g, nb);
    TakeTopPayload(s, s'.m, g, nb);
  }

  lemma TakeTopHeap(s: State, s': State, g: Segment, nb: int)
    requires HeapOK(s, g) && nb >= MIN_CHUNK_SIZE && nb % 8 == 0 && nb < s.topsize && s.top !in s.h
    requires s' == s.(m := s'.m, h := s.h[s.top := Chunk(nb, true, true)], top := s.top + nb, topsize := s.topsize - nb)
    requires Stores(s.m, s'.m, {s.top + HEAD, s.top + nb + HEAD})
    requires Head(s'.m, s.top) == HeadWord(nb, true, true)
    requires Head(s'.m, s.top + nb) == HeadWord(s.topsize - nb, true, false)
    ensures HeapOK(s', g)
  {
    hide HeadWord, Rd, Tiled;
    CutTopTiled(s.h, g.first, s.top, nb);
    forall q | q in s'.h
      ensures TagsOf(s'.m, s'.h, q)
    {
      if q != s.top { ChunkBounds(s.h, g.first, s.top, q); }
    }
    TagsTogether(s'.m, s'.h);
    TopAligned(s.top, s.topsize, nb);
  }

  lemma TopAligned(top: int, topsize: int, nb: int)
    requires top % 8 == 0 && topsize % 8 == 0 && nb % 8 == 0
    ensures (top + nb) % 8 == 0 && (topsize - nb) % 8 == 0
  {
  }

  lemma TakeTopBins(s: State, s': State, g: Segment, nb: int)
    requires Good(s, g, {}) && nb >= MIN_CHUNK_SIZE && s.top !in s.h
    requires s' == s.(m := s'.m, h := s.h[s.top := Chunk(nb, true, true)], top := s.top + nb, topsize := s.topsize - nb)
    requires Stores(s.m, s'.m, {s.top + HEAD, s.top + nb + HEAD})
    ensures BinsRep(s'.m, g.first + 8, Binned(s'.h, s'.dv, {}), s'.b, s'.smallmap, s'.treemap)
  {
    hide BinsRep, Tagged, WholeSegment, Aligned8, DvOK;
    assert Binned(s'.h, s'.dv, {}) == Binned(s.h, s.dv, {});
    TopOutsideBoth(s, g, s.top + HEAD, s.top + nb + HEAD);
    BinsKept(s.m, s'.m, g.first + 8, Binned(s.h, s.dv, {}), s.b, s.smallmap, s.treemap,
      {s.top + HEAD, s.top + nb + HEAD});
  }

  lemma TopOutsideBoth(s: State, g: Segment, a1: int, a2: int)
    requires HeapOK(s, g) && s.top <= a1 && s.top <= a2
    ensures OutsideBins(g.first + 8, Binned(s.h, s.dv, {}), {a1, a2})
  {
    var inv := Binned(s.h, s.dv, {});
    BinnedOfHeap(s.h, s.dv, {});
    TopOutside(s.h, g.first, s.top, inv, a1);
    TopOutside(s.h, g.first, s.top, inv, a2);
  }

  lemma TakeTopPayload(s: State, m': Mem, g: Segment, nb: int)
    requires HeapOK(s, g) && nb >= MIN_CHUNK_SIZE && Stores(s.m, m', {s.top + HEAD, s.top + nb + HEAD})
    ensures PayloadKept(s.m, m', s.h, g.first)
  {
    TopIsPrivate(s.h, g.first, s.top, s.top + HEAD);
    TopIsPrivate(s.h, g.first, s.top, s.top + nb + HEAD);
    StoresPrivate(s.m, m', s.h, g.first, {s.top + HEAD, s.top + nb + HEAD});
  }

  // ----- chunks are merged into one free chunk

  /** `c` without the addresses in [lo, hi). */
  function Outside(c: set<int>, lo: int, hi: int): set<int> { set q | q in c && !(lo <= q < hi) }

  predicate Within(dv: int, lo: int, hi: int) { dv != 0 && lo <= dv < hi }

  /** The chunks of [lo, hi), none of them binned, become one free chunk: the designated victim
      if that was among them, and otherwise in no bin. */
  lemma Coalesce(s: State, s': State, g: Segment, loose: set<int>, lo: int, hi: int)
    requires Good(s, g, loose) && lo in s.h && hi in s.h && lo < hi && lo != g.first && s.h[lo].pin && s.h[hi].used
    requires forall q :: q in s.h && lo <= q < hi && !s.h[q].used ==> q in loose || q == s.dv
    requires s' == s.(m := s'.m, h := Coalesced(s.h, lo, hi), dv := s'.dv, dvsize := s'.dvsize)
    requires if Within(s.dv, lo, hi) then s'.dv == lo && s'.dvsize == hi - lo
      else s'.dv == s.dv && s'.dvsize == s.dvsize
    requires CoalesceStores(s.m, s'.m, s.h, lo, hi)
    ensures Good(s', g, Outside(loose, lo, hi) + if Within(s.dv, lo, hi) then {} else {lo})
    ensures PayloadKept(s.m, s'.m, s'.h, g.first)
  {
    hide Outside, Coalesced, HeadWord, Rd;
    CoalesceHeap(s, s', g, lo, hi);
    CoalesceBins(s, s', g, loose, lo, hi);
    CoalescePayload(s, s', g, lo, hi);
    CoalesceLoose(s, s', g, loose, lo, hi);
  }

  ghost predicate CoalesceStores(m: Mem, m': Mem, h: Heap, lo: int, hi: int)
    requires hi in h
  {
    && Stores(m, m', {lo + HEAD, hi, hi + HEAD})
    && Head(m', lo) == HeadWord(hi - lo, true, false) && Foot(m', hi) == hi - lo
    && Head(m', hi) == HeadWord(h[hi].size, false, h[hi].used)
  }

  lemma CoalesceHeap(s: State, s': State, g: Segment, lo: int, hi: int)
    requires HeapOK(s, g) && lo in s.h && hi in s.h && lo < hi && lo != g.first && s.h[lo].pin && s.h[hi].used
    requires s' == s.(m := s'.m, h := Coalesced(s.h, lo, hi), dv := s'.dv, dvsize := s'.dvsize)
    requires if Within(s.dv, lo, hi) then s'.dv == lo && s'.dvsize == hi - lo
      else s'.dv == s.dv && s'.dvsize == s.dvsize
    requires CoalesceStores(s.m, s'.m, s.h, lo, hi)
    ensures HeapOK(s', g)
  {
    CoalescedTiled(s.h, g.first, s.top, lo, hi);
    CoalesceTagged(s, s', g, lo, hi);
    CoalesceVictim(s, s', g, lo, hi);
  }

  lemma CoalesceVictim(s: State, s': State, g: Segment, lo: int, hi: int)
    requires HeapOK(s, g) && lo in s.h && hi in s.h && lo < hi && s.h[hi].used && s'.m.Keys == s.m.Keys
    requires s' == s.(m := s'.m, h := Coalesced(s.h, lo, hi), dv := s'.dv, dvsize := s'.dvsize)
    requires if Within(s.dv, lo, hi) then s'.dv == lo && s'.dvsize == hi - lo
      else s'.dv == s.dv && s'.dvsize == s.dvsize
    ensures DvOK(s'.h, s'.dv, s'.dvsize) && WholeSegment(s'.m, g) && Aligned8(s'.h, s'.top)
  {
    hide Tagged, Tiled;
    ZeroIsNoChunk(s.h, g.first, s.top);
    DifferenceAligned(lo, hi);
  }

  lemma DifferenceAligned(lo: int, hi: int)
    ensures lo % 8 == 0 && hi % 8 == 0 ==> (hi - lo) % 8 == 0
  {
  }

  lemma CoalesceTagged(s: State, s': State, g: Segment, lo: int, hi: int)
    requires HeapOK(s, g) && lo in s.h && hi in s.h && lo < hi
    requires s'.h == Coalesced(s.h, lo, hi) && CoalesceStores(s.m, s'.m, s.h, lo, hi)
    ensures Tagged(s'.m, s'.h, s.top, s.topsize)
  {
    hide HeadWord, Foot, Aligned8, Rd, Tiled;
    forall q | q in s'.h
      ensures TagsOf(s'.m, s'.h, q)
    {
      CoalescedTags(s.m, s'.m, s.h, g.first, s.top, lo, hi, q);
    }
    TagsTogether(s'.m, s'.h);
    assert TopTags(s'.m, s.top, s.topsize) by {
      ChunkBounds(s.h, g.first, s.top, lo);
      ChunkBounds(s.h, g.first, s.top, hi);
    }
  }

  ghost predicate TopTags(m: Mem, top: int, topsize: int) {
    Head(m, top) == HeadWord(topsize, true, false) && Head(m, top + topsize) == TOP_FOOT_SIZE
  }

  lemma CoalescedTags(m: Mem, m': Mem, h: Heap, first: int, top: int, lo: int, hi: int, q: int)
    requires Tiled(h, first, top) && lo in h && hi in h && lo < hi && q in h && !(lo < q < hi) && TagsOf(m, h, q)
    requires CoalesceStores(m, m', h, lo, hi)
    ensures TagsOf(m', Coalesced(h, lo, hi), q)
  {
    if q == hi {
      ChunkBounds(h, first, top, hi);
    } else if q != lo {
      MergeElsewhere(m, m', h, first, top, lo, hi, q);
    }
  }

  lemma MergeElsewhere(m: Mem, m': Mem, h: Heap, first: int, top: int, lo: int, hi: int, q: int)
    requires Tiled(h, first, top) && lo in h && hi in h && lo < hi && q in h && q != lo && q != hi && !(lo < q < hi)
    requires Stores(m, m', {lo + HEAD, hi, hi + HEAD})
    ensures Head(m', q) == Head(m, q) && Foot(m', q + h[q].size) == Foot(m, q + h[q].size)
  {
    ChunkBounds(h, first, top, q);
    ChunkBounds(h, first, top, lo);
    ChunkBounds(h, first, top, hi);
  }

  lemma CoalesceBins(s: State, s': State, g: Segment, loose: set<int>, lo: int, hi: int)
    requires Good(s, g, loose) && lo in s.h && hi in s.h && lo < hi && lo != g.first && s.h[lo].pin && s.h[hi].used
    requires forall q :: q in s.h && lo <= q < hi && !s.h[q].used ==> q in loose || q == s.dv
    requires s' == s.(m := s'.m, h := Coalesced(s.h, lo, hi), dv := s'.dv, dvsize := s'.dvsize)
    requires s'.dv == if Within(s.dv, lo, hi) then lo else s.dv
    requires CoalesceStores(s.m, s'.m, s.h, lo, hi)
    ensures BinsRep(s'.m, g.first + 8,
      Binned(s'.h, s'.dv, Outside(loose, lo, hi) + if Within(s.dv, lo, hi) then {} else {lo}), s'.b, s'.smallmap,
      s'.treemap)
  {
    hide BinsRep, Tagged, WholeSegment, Aligned8, DvOK, Tiled;
    var inv, c := Binned(s.h, s.dv, loose), {lo + HEAD, hi, hi + HEAD};
    assert Binned(s'.h, s'.dv, Outside(loose, lo, hi) + if Within(s.dv, lo, hi) then {} else {lo}) == inv by {
      ZeroIsNoChunk(s.h, g.first, s.top);
      CoalescedBinned(s.h, s.dv, s'.dv, loose, lo, hi);
    }
    CoalesceOutside(s, g, loose, lo, hi);
    BinsKept(s.m, s'.m, g.first + 8, inv, s.b, s.smallmap, s.treemap, c);
  }

  lemma CoalesceOutside(s: State, g: Segment, loose: set<int>, lo: int, hi: int)
    requires HeapOK(s, g) && lo in s.h && hi in s.h && lo < hi && lo != g.first && s.h[hi].used
    requires !s.h[lo].used ==> lo in loose || lo == s.dv
    ensures OutsideBins(g.first + 8, Binned(s.h, s.dv, loose), {lo + HEAD, hi, hi + HEAD})
  {
    var inv := Binned(s.h, s.dv, loose);
    BinnedOfHeap(s.h, s.dv, loose);
    ChunkBounds(s.h, g.first, s.top, lo);
    HeadOutside(s.h, g.first, s.top, inv, lo);
    MergeOutside(s.h, g.first, s.top, inv, lo, hi);
  }

  lemma CoalescePayload(s: State, s': State, g: Segment, lo: int, hi: int)
    requires HeapOK(s, g) && lo in s.h && hi in s.h && lo < hi && lo != g.first && s.h[lo].pin && s.h[hi].used
    requires s'.h == Coalesced(s.h, lo, hi) && Stores(s.m, s'.m, {lo + HEAD, hi, hi + HEAD})
    ensures PayloadKept(s.m, s'.m, s'.h, g.first)
  {
    CoalescedTiled(s.h, g.first, s.top, lo, hi);
    ChunkBounds(s.h, g.first, s.top, lo);
    MergedPrivate(s'.h, g.first, s.top, lo, hi);
    StoresPrivate(s.m, s'.m, s'.h, g.first, {lo + HEAD, hi, hi + HEAD});
  }

  lemma MergedPrivate(h: Heap, first: int, top: int, lo: int, hi: int)
    requires Tiled(h, first, top) && lo in h && hi in h && !h[lo].used && hi == lo + h[lo].size && lo != hi
    ensures Private(h, first, lo + HEAD) && Private(h, first, hi) && Private(h, first, hi + HEAD)
  {
    ChunkBounds(h, first, top, lo);
    FreeIsPrivate(h, first, top, lo, lo + HEAD);
    FreeIsPrivate(h, first, top, lo, hi);
    HeadIsPrivate(h, first, top, hi);
  }

  lemma MergeOutside(h: Heap, first: int, top: int, inv: Inventory, lo: int, hi: int)
    requires Tiled(h, first, top) && lo in h && hi in h && first < lo < hi && OfHeap(inv, h) && hi !in inv
    ensures OutsideBins(first + 8, inv, {hi, hi + HEAD})
  {
    ChunkBounds(h, first, top, lo);
    ChunkBounds(h, first, top, hi);
    forall q | q in inv
      ensures !(q + HEAD <= hi < q + inv[q]) && !(q + HEAD <= hi + HEAD < q + inv[q])
    {
      ChunkBounds(h, first, top, q);
    }
  }

  lemma CoalescedBinned(h: Heap, dv: int, dv': int, loose: set<int>, lo: int, hi: int)
    requires lo in h && hi in h && lo < hi && h[hi].used && 0 !in h
    requires forall q :: q in h && lo <= q < hi && !h[q].used ==> q in loose || q == dv
    requires dv' == if Within(dv, lo, hi) then lo else dv
    ensures Binned(Coalesced(h, lo, hi), dv', Outside(loose, lo, hi) + if Within(dv, lo, hi) then {} else {lo})
      == Binned(h, dv, loose)
  {
  }

  lemma CoalesceLoose(s: State, s': State, g: Segment, loose: set<int>, lo: int, hi: int)
    requires HeapOK(s, g) && lo in s.h && hi in s.h && lo < hi && s.h[hi].used
    requires forall q :: q in loose ==> q in s.h && !s.h[q].used && q != s.dv
    requires s'.h == Coalesced(s.h, lo, hi) && s'.dv == if Within(s.dv, lo, hi) then lo else s.dv
    ensures forall q :: q in Outside(loose, lo, hi) + (if Within(s.dv, lo, hi) then {} else {lo}) ==>
      q in s'.h && !s'.h[q].used && q != s'.dv
  {
    ZeroIsNoChunk(s.h, g.first, s.top);
  }

  // ----- chunks are absorbed by top

  /** The chunks from `lo` upward, none of them binned, join top. */
  lemma Absorb(s: State, s': State, g: Segment, loose: set<int>, lo: int)
    requires Good(s, g, loose) && lo in s.h && lo != g.first && s.h[lo].pin
    requires forall q :: q in s.h && lo <= q && !s.h[q].used ==> q in loose || q == s.dv
    requires s'
      == s.(m := s'.m, h := Absorbed(s.h, lo), dv := s'.dv, dvsize := s'.dvsize, top := lo,
      topsize := s.topsize + (s.top - lo))
    requires if Within(s.dv, lo, s.top) then s'.dv == 0 && s'.dvsize == 0 else s'.dv == s.dv && s'.dvsize == s.dvsize
    requires Stores(s.m, s'.m, {lo + HEAD}) && Head(s'.m, lo) == HeadWord(s'.topsize, true, false)
    ensures Good(s', g, Outside(loose, lo, s.top)) && PayloadKept(s.m, s'.m, s'.h, g.first)
  {
    AbsorbHeap(s, s', g, lo);
    AbsorbBins(s, s', g, loose, lo);
    AbsorbPayload(s, s', g, lo);
    AbsorbLoose(s, s', g, loose, lo);
  }

  lemma AbsorbPayload(s: State, s': State, g: Segment, lo: int)
    requires HeapOK(s, g) && lo in s.h && lo != g.first && s.h[lo].pin && s'.h == Absorbed(s.h, lo)
    requires Stores(s.m, s'.m, {lo + HEAD})
    ensures PayloadKept(s.m, s'.m, s'.h, g.first)
  {
    AbsorbedTiled(s.h, g.first, s.top, lo);
    TopIsPrivate(s'.h, g.first, lo, lo + HEAD);
    StoresPrivate(s.m, s'.m, s'.h, g.first, {lo + HEAD});
  }

  lemma AbsorbLoose(s: State, s': State, g: Segment, loose: set<int>, lo: int)
    requires HeapOK(s, g) && lo in s.h && s'.h == Absorbed(s.h, lo)
    requires forall q :: q in loose ==> q in s.h && !s.h[q].used && q != s.dv
    requires s'.dv == if Within(s.dv, lo, s.top) then 0 else s.dv
    ensures forall q :: q in Outside(loose, lo, s.top) ==> q in s'.h && !s'.h[q].used && q != s'.dv
  {
    BelowTop(s.h, g.first, s.top);
    ZeroIsNoChunk(s.h, g.first, s.top);
  }

  lemma BelowTop(h: Heap, first: int, top: int)
    requires Tiled(h, first, top)
    ensures forall q :: q in h ==> q < top
  {
    forall q | q in h ensures q < top { ChunkBounds(h, first, top, q); }
  }

  lemma AbsorbHeap(s: State, s': State, g: Segment, lo: int)
    requires HeapOK(s, g) && lo in s.h && lo != g.first && s.h[lo].pin
    requires s'
      == s.(m := s'.m, h := Absorbed(s.h, lo), dv := s'.dv, dvsize := s'.dvsize, top := lo,
      topsize := s.topsize + (s.top - lo))
    requires if Within(s.dv, lo, s.top) then s'.dv == 0 && s'.dvsize == 0 else s'.dv == s.dv && s'.dvsize == s.dvsize
    requires Stores(s.m, s'.m, {lo + HEAD}) && Head(s'.m, lo) == HeadWord(s'.topsize, true, false)
    ensures HeapOK(s', g)
  {
    AbsorbedTiled(s.h, g.first, s.top, lo);
    AbsorbTagged(s, s', g, lo);
    AbsorbVictim(s, s', g, lo);
  }

  lemma AbsorbTagged(s: State, s': State, g: Segment, lo: int)
    requires HeapOK(s, g) && lo in s.h && s'.h == Absorbed(s.h, lo)
    requires Stores(s.m, s'.m, {lo + HEAD}) && Head(s'.m, lo) == HeadWord(s'.topsize, true, false)
    requires s'.topsize == s.topsize + (s.top - lo)
    ensures Tagged(s'.m, s'.h, lo, s'.topsize)
  {
    hide WholeSegment, Aligned8, DvOK, Tiled;
    forall q | q in s'.h
      ensures TagsOf(s'.m, s'.h, q)
    {
      FootApart(s.h, g.first, s.top, q, lo);
    }
    TagsTogether(s'.m, s'.h);
    ChunkBounds(s.h, g.first, s.top, lo);
  }

  lemma AbsorbVictim(s: State, s': State, g: Segment, lo: int)
    requires HeapOK(s, g) && lo in s.h && s'.m.Keys == s.m.Keys
    requires s'
      == s.(m := s'.m, h := Absorbed(s.h, lo), dv := s'.dv, dvsize := s'.dvsize, top := lo,
      topsize := s.topsize + (s.top - lo))
    requires if Within(s.dv, lo, s.top) then s'.dv == 0 && s'.dvsize == 0 else s'.dv == s.dv && s'.dvsize == s.dvsize
    ensures DvOK(s'.h, s'.dv, s'.dvsize) && WholeSegment(s'.m, g) && Aligned8(s'.h, s'.top)
    ensures s'.topsize > 0 && s'.topsize % 8 == 0
  {
    BelowTop(s.h, g.first, s.top);
    ZeroIsNoChunk(s.h, g.first, s.top);
    GrownAligned(lo, s.top, s.topsize);
  }

  lemma GrownAligned(lo: int, top: int, size: int)
    requires lo % 8 == 0 && top % 8 == 0 && size % 8 == 0
    ensures (size + (top - lo)) % 8 == 0
  {
  }

  lemma AbsorbBins(s: State, s': State, g: Segment, loose: set<int>, lo: int)
    requires Good(s, g, loose) && lo in s.h && lo != g.first
    requires forall q :: q in s.h && lo <= q && !s.h[q].used ==> q in loose || q == s.dv
    requires s'
      == s.(m := s'.m, h := Absorbed(s.h, lo), dv := s'.dv, dvsize := s'.dvsize, top := lo,
      topsize := s.topsize + (s.top - lo))
    requires s'.dv == if Within(s.dv, lo, s.top) then 0 else s.dv
    requires Stores(s.m, s'.m, {lo + HEAD})
    ensures BinsRep(s'.m, g.first + 8, Binned(s'.h, s'.dv, Outside(loose, lo, s.top)), s'.b, s'.smallmap, s'.treemap)
  {
    hide BinsRep, Tagged, WholeSegment, Aligned8, DvOK, Tiled;
    var inv := Binned(s.h, s.dv, loose);
    assert Binned(s'.h, s'.dv, Outside(loose, lo, s.top)) == inv by {
      BelowTop(s.h, g.first, s.top);
      ZeroIsNoChunk(s.h, g.first, s.top);
    }
    assert OutsideBins(g.first + 8, inv, {lo + HEAD}) by {
      BinnedOfHeap(s.h, s.dv, loose);
      HeadOutside(s.h, g.first, s.top, inv, lo);
    }
    BinsKept(s.m, s'.m, g.first + 8, inv, s.b, s.smallmap, s.treemap, {lo + HEAD});
  }
}
