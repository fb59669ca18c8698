/** Steps on chunks in use: callers storing into their payload, and memalign cutting a used chunk in two. */
module HeapCuts {
  import opened Words
  import opened Bins
  import opened Chunks
  import opened HeapState
  import opened HeapSteps

  // ----- a caller stores a word of its payload

  lemma PayloadStore(s: State, s': State, g: Segment, loose: set<int>, q: int, a: int)
    requires Good(s, g, loose) && InPayload(s.h, g.first, q, a)
    requires s' == s.(m := s'.m) && Stores(s.m, s'.m, {a})
    ensures Good(s', g, loose)
  {
    hide BinsRep, Binned;
    PayloadTags(s, s'.m, g, q, a);
    PayloadBins(s, s'.m, g, loose, q, a);
  }

  lemma PayloadTags(s: State, m': Mem, g: Segment, q: int, a: int)
    requires HeapOK(s, g) && InPayload(s.h, g.first, q, a) && Stores(s.m, m', {a})
    ensures Tagged(m', s.h, s.top, s.topsize)
  {
    hide InPayload, WholeSegment, Aligned8, DvOK;
    forall p | p in s.h
      ensures TagsOf(m', s.h, p)
    {
      PayloadApart(s.h, g.first, s.top, q, a, p);
    }
    TagsTogether(m', s.h);
    assert !Private(s.h, g.first, a);
    TopIsPrivate(s.h, g.first, s.top, s.top + HEAD);
    TopIsPrivate(s.h, g.first, s.top, s.top + s.topsize + HEAD);
  }

  lemma PayloadApart(h: Heap, first: int, top: int, q: int, a: int, p: int)
    requires Tiled(h, first, top) && InPayload(h, first, q, a) && p in h
    ensures a != p + HEAD && (!h[p].used ==> a != p + h[p].size)
  {
    hide Tiled;
    assert !Private(h, first, a);
    HeadIsPrivate(h, first, top, p);
    if !h[p].used {
      assert p + 16 <= p + h[p].size by { ChunkBounds(h, first, top, p); }
      FreeIsPrivate(h, first, top, p, p + h[p].size);
    }
  }

  lemma PayloadBins(s: State, m': Mem, g: Segment, loose: set<int>, q: int, a: int)
    requires Good(s, g, loose) && InPayload(s.h, g.first, q, a) && Stores(s.m, m', {a})
    ensures BinsRep(m', g.first + 8, Binned(s.h, s.dv, loose), s.b, s.smallmap, s.treemap)
  {
    hide BinsRep, Aligned8, Tagged, WholeSegment, DvOK;
    var inv := Binned(s.h, s.dv, loose);
    PayloadOutside(s.h, g.first, s.top, s.dv, loose, q, a);
    BinsKept(s.m, m', g.first + 8, inv, s.b, s.smallmap, s.treemap, {a});
  }

  lemma PayloadOutside(h: Heap, first: int, top: int, dv: int, loose: set<int>, q: int, a: int)
    requires Tiled(h, first, top) && InPayload(h, first, q, a)
    ensures OutsideBins(first + 8, Binned(h, dv, loose), {a})
  {
    var inv := Binned(h, dv, loose);
    ChunkBounds(h, first, top, q);
    forall p | p in inv
      ensures !(p + HEAD <= a < p + inv[p])
    {
      ChunkBounds(h, first, top, p);
    }
  }

  // ----- a used chunk is cut in two used chunks

  lemma CutUsed(s: State, s': State, g: Segment, p: int, lead: int)
    requires Good(s, g, {}) && p in s.h && s.h[p].used && p != g.first
    requires lead >= MIN_CHUNK_SIZE && lead % 8 == 0 && s.h[p].size - lead >= MIN_CHUNK_SIZE
    requires s' == s.(m := s'.m, h := Cut(s.h, p, lead)) && Stores(s.m, s'.m, {p + HEAD, p + lead + HEAD})
    requires Head(s'.m, p) == HeadWord(lead, s.h[p].pin, true)
    requires Head(s'.m, p + lead) == HeadWord(s.h[p].size - lead, true, true)
    ensures Good(s', g, {}) && PayloadKept(s.m, s'.m, s.h - {p}, g.first) && p + lead !in s.h
  {
    hide BinsRep, Tiled, Tagged, WholeSegment;
    assert Tiled(s'.h, g.first, s.top) && p + lead !in s.h by { CutTiled(s.h, g.first, s.top, p, lead); }
    CutTagged(s, s', g, p, lead);
    CutBins(s, s', g, p, lead);
    CutRest(s, s', g, p, lead);
    CutPayload(s.m, s'.m, s.h, g.first, s.top, p, lead);
  }

  lemma CutRest(s: State, s': State, g: Segment, p: int, lead: int)
    requires HeapOK(s, g) && p in s.h && s.h[p].used && p + lead !in s.h && lead % 8 == 0 && s'.m.Keys == s.m.Keys
    requires s' == s.(m := s'.m, h := Cut(s.h, p, lead))
    ensures DvOK(s'.h, s'.dv, s'.dvsize) && WholeSegment(s'.m, g) && Aligned8(s'.h, s'.top)
  {
    hide Tiled, Tagged;
    AlignedAfter(s.h, s.top, p, lead);
  }

  lemma CutTagged(s: State, s': State, g: Segment, p: int, lead: int)
    requires HeapOK(s, g) && p in s.h && s.h[p].used && 16 <= lead && s.h[p].size - lead >= 16
    requires s'.h == Cut(s.h, p, lead) && Stores(s.m, s'.m, {p + HEAD, p + lead + HEAD})
    requires Head(s'.m, p) == HeadWord(lead, s.h[p].pin, true)
    requires Head(s'.m, p + lead) == HeadWord(s.h[p].size - lead, true, true)
    ensures Tagged(s'.m, s'.h, s.top, s.topsize)
  {
    hide Tiled, WholeSegment, Aligned8, DvOK;
    forall q | q in s'.h
      ensures TagsOf(s'.m, s'.h, q)
    {
      if q != p && q != p + lead { CutElsewhere(s.m, s'.m, s.h, g.first, s.top, p, lead, q); }
    }
    TagsTogether(s'.m, s'.h);
    assert TopTags(s'.m, s.top, s.topsize) by { ChunkBounds(s.h, g.first, s.top, p); }
  }

  lemma CutElsewhere(m: Mem, m': Mem, h: Heap, first: int, top: int, p: int, lead: int, q: int)
    requires Tiled(h, first, top) && p in h && q in h && q != p && 16 <= lead < h[p].size - 8
    requires Stores(m, m', {p + HEAD, p + lead + HEAD})
    ensures Head(m', q) == Head(m, q) && Foot(m', q + h[q].size) == Foot(m, q + h[q].size)
  {
    ChunkBounds(h, first, top, p);
    ChunkBounds(h, first, top, q);
  }

  lemma CutBins(s: State, s': State, g: Segment, p: int, lead: int)
    requires Good(s, g, {}) && p in s.h && s.h[p].used && p != g.first && 16 <= lead < s.h[p].size && p + lead !in s.h
    requires s'.h == Cut(s.h, p, lead) && Stores(s.m, s'.m, {p + HEAD, p + lead + HEAD})
    ensures BinsRep(s'.m, g.first + 8, Binned(s'.h, s.dv, {}), s.b, s.smallmap, s.treemap)
  {
    hide BinsRep, Aligned8, Tagged, WholeSegment, DvOK, Tiled;
    var inv, c := Binned(s.h, s.dv, {}), {p + HEAD, p + lead + HEAD};
    assert Binned(s'.h, s.dv, {}) == inv;
    assert OutsideBins(g.first + 8, inv, c) by {
      hide Binned;
      BinnedOfHeap(s.h, s.dv, {});
      ChunkBounds(s.h, g.first, s.top, p);
      InsideOutside(s.h, g.first, s.top, inv, p, p + HEAD);
      InsideOutside(s.h, g.first, s.top, inv, p, p + lead + HEAD);
    }
    BinsKept(s.m, s'.m, g.first + 8, inv, s.b, s.smallmap, s.treemap, c);
  }

  lemma CutPayload(m: Mem, m': Mem, h: Heap, first: int, top: int, p: int, lead: int)
    requires Tiled(h, first, top) && p in h && p != first && 16 <= lead < h[p].size
    requires Stores(m, m', {p + HEAD, p + lead + HEAD})
    ensures PayloadKept(m, m', h - {p}, first)
  {
    forall q, a | InPayload(h - {p}, first, q, a)
      ensures Rd(m', a) == Rd(m, a)
    {
      ChunkBounds(h, first, top, q);
      ChunkBounds(h, first, top, p);
    }
  }
}
