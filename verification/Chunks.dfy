/** The chunk layer of an mspace: how chunks tile the segment and what their boundary tags say. */
module Chunks {
  import opened Machine
  import opened Words
  import opened Bins

  const MIN_CHUNK_SIZE: int := 16
  const TOP_FOOT_SIZE: int := 40

  /** Size, CINUSE bit, PINUSE bit. */
  datatype Chunk = Chunk(size: int, used: bool, pin: bool)

  /** The chunks below top, by address. */
  type Heap = map<int, Chunk>

  ghost predicate ChunkOK(h: Heap, p: int, first: int, top: int)
    requires p in h
  {
    var c, n := h[p], p + h[p].size;
    && first <= p && c.size >= MIN_CHUNK_SIZE && n <= top
    && (n == top ==> c.used)
    && (n != top ==> n in h && h[n].pin == c.used && (c.used || h[n].used))
    && (!c.used ==> c.pin)
  }

  /** No two chunks overlap. */
  ghost predicate Ordered(h: Heap) {
    forall p, q :: p in h && q in h && p < q ==> p + h[p].size <= q
  }

  /** Chunks tile [first, top): each ends where the next begins, none overlap, neighbours agree
      on each other's state, no two free chunks touch, and top is preceded by a used one. */
  ghost predicate Tiled(h: Heap, first: int, top: int) {
    && first > 0 && first in h && h[first] == Chunk(MSIZE, true, true)
    && (forall p {:trigger ChunkOK(h, p, first, top)} :: p in h ==> ChunkOK(h, p, first, top))
    && Ordered(h)
  }

  /** Chunk addresses and sizes are multiples of 8. */
  ghost predicate Aligned8(h: Heap, top: int) {
    top % 8 == 0 && forall p :: p in h ==> p % 8 == 0 && h[p].size % 8 == 0
  }

  /** Boundary tags: head words everywhere, foot words behind free chunks, top and its foot. */
  ghost predicate Tagged(m: Mem, h: Heap, top: int, topsize: int) {
    && (forall p :: p in h ==> Head(m, p) == HeadWord(h[p].size, h[p].pin, h[p].used))
    && (forall p :: p in h && !h[p].used ==> Foot(m, p + h[p].size) == h[p].size)
    && Head(m, top) == HeadWord(topsize, true, false)
    && Head(m, top + topsize) == TOP_FOOT_SIZE
  }

  // ----- walking the tiles

  function Next(h: Heap, p: int): int
    requires p in h
  {
    p + h[p].size
  }

  lemma ChunkBounds(h: Heap, first: int, top: int, p: int)
    requires Tiled(h, first, top) && p in h
    ensures first <= p && p + 16 <= Next(h, p) <= top
    ensures Next(h, p) == top || Next(h, p) in h
    ensures p != first ==> first + MSIZE <= p
  {
    assert ChunkOK(h, p, first, top);
  }

  lemma ChunkIs(h: Heap, first: int, top: int, p: int)
    requires Tiled(h, first, top) && p in h
    ensures ChunkOK(h, p, first, top) && first in h && h[first] == Chunk(MSIZE, true, true) && first > 0 && Ordered(h)
  {
  }

  lemma TiledBy(h: Heap, first: int, top: int)
    requires first > 0 && first in h && h[first] == Chunk(MSIZE, true, true) && Ordered(h)
    requires forall p {:trigger ChunkOK(h, p, first, top)} :: p in h ==> ChunkOK(h, p, first, top)
    ensures Tiled(h, first, top)
  {
  }

  /** Every address of the tiled range lies in exactly one chunk. */
  lemma {:induction false} Covered(h: Heap, first: int, top: int, a: int, from: int) returns (p: int)
    requires Tiled(h, first, top) && from in h && from <= a < top
    ensures p in h && p <= a < p + h[p].size
    decreases top - from
  {
    assert ChunkOK(h, from, first, top);
    if a < Next(h, from) {
      p := from;
    } else {
      p := Covered(h, first, top, a, Next(h, from));
    }
  }

  /** Each chunk but the first, and top, starts where another ends. */
  lemma Previous(h: Heap, first: int, top: int, n: int) returns (p: int)
    requires Tiled(h, first, top) && (n == top || n in h) && n != first
    ensures p in h && Next(h, p) == n
    ensures forall q :: q in h && Next(h, q) == n ==> q == p
  {
    assert ChunkOK(h, first, first, top);
    if n in h { assert ChunkOK(h, n, first, top); }
    p := Covered(h, first, top, n - 1, first);
    ChunkBounds(h, first, top, p);
    forall q | q in h && Next(h, q) == n
      ensures q == p
    {
      ChunkBounds(h, first, top, q);
    }
  }

  /** Sum of the chunk sizes from `p` up to top, as traverse_and_check adds them. */
  ghost function SumFrom(h: Heap, first: int, top: int, p: int): int
    requires Tiled(h, first, top) && (p == top || p in h)
    decreases top - p
  {
    if p == top then 0 else assert ChunkOK(h, p, first, top); h[p].size + SumFrom(h, first, top, Next(h, p))
  }

  /** The chunks fill the segment up to top without a gap. */
  lemma {:induction false} TilesExactly(h: Heap, first: int, top: int, p: int)
    requires Tiled(h, first, top) && (p == top || p in h)
    ensures SumFrom(h, first, top, p) == top - p
    decreases top - p
  {
    if p != top {
      assert ChunkOK(h, p, first, top);
      TilesExactly(h, first, top, Next(h, p));
    }
  }

  // ----- inventory of free chunks

  /** The free chunks other than the designated victim and those in `loose`. */
  ghost function Binned(h: Heap, dv: int, loose: set<int>): Inventory {
    map p | p in h && !h[p].used && p != dv && p !in loose :: h[p].size
  }

  lemma BinnedOK(h: Heap, first: int, top: int, dv: int, loose: set<int>)
    requires Tiled(h, first, top) && Aligned8(h, top) && top < WORD
    ensures InventoryOK(first + 8, Binned(h, dv, loose))
  {
    var inv := Binned(h, dv, loose);
    forall q | q in inv
      ensures q % 8 == 0 && inv[q] % 8 == 0 && inv[q] >= 16 && first + MSIZE <= q && q + inv[q] < WORD
    {
      ChunkBounds(h, first, top, q);
    }
    assert (first + 8) % 8 == 0;
  }

  // ----- re-tagging

  /** Free chunk `p` becomes used. */
  function Used(h: Heap, p: int): Heap
    requires p in h && Next(h, p) in h
  {
    var n := Next(h, p);
    h[p := h[p].(used := true)][n := h[n].(pin := true)]
  }

  lemma UsedTiled(h: Heap, first: int, top: int, p: int)
    requires Tiled(h, first, top) && p in h && !h[p].used
    ensures Next(h, p) in h && Next(h, p) != p && h[Next(h, p)].used && h[p].pin
    ensures Tiled(Used(h, p), first, top)
  {
    hide Tiled, Ordered;
    ChunkIs(h, first, top, p);
    var h', n := Used(h, p), Next(h, p);
    forall q | q in h'
      ensures ChunkOK(h', q, first, top)
    {
      ChunkIs(h, first, top, q);
    }
    UsedOrdered(h, p);
    TiledBy(h', first, top);
  }

  lemma UsedOrdered(h: Heap, p: int)
    requires Ordered(h) && p in h && Next(h, p) in h
    ensures Ordered(Used(h, p))
  {
  }

  /** Free chunk `p` gives its first `nb` bytes away; the rest is a free chunk. */
  function Split(h: Heap, p: int, nb: int): Heap
    requires p in h
  {
    h[p := Chunk(nb, true, h[p].pin)][p + nb := Chunk(h[p].size - nb, false, true)]
  }

  lemma SplitTiled(h: Heap, first: int, top: int, p: int, nb: int)
    requires Tiled(h, first, top) && p in h && !h[p].used
    requires nb >= MIN_CHUNK_SIZE && h[p].size - nb >= MIN_CHUNK_SIZE
    ensures Tiled(Split(h, p, nb), first, top) && p + nb !in h
  {
    hide Tiled, Ordered;
    var h' := Split(h, p, nb);
    ChunkIs(h, first, top, p);
    NotInside(h, first, top, p, p + nb);
    SplitOrdered(h, first, top, p, nb);
    forall q | q in h'
      ensures ChunkOK(h', q, first, top)
    {
      if q != p + nb {
        ChunkIs(h, first, top, q);
        if q != p { NextNotInside(h, first, top, p, q, p + nb); }
      }
    }
    TiledBy(h', first, top);
  }

  lemma NotInside(h: Heap, first: int, top: int, p: int, a: int)
    requires Tiled(h, first, top) && p in h && p < a < Next(h, p)
    ensures a !in h
  {
  }

  lemma NextNotInside(h: Heap, first: int, top: int, p: int, q: int, a: int)
    requires Tiled(h, first, top) && p in h && q in h && q != p && p < a < Next(h, p)
    ensures Next(h, q) != a
  {
    ChunkBounds(h, first, top, q);
  }

  lemma SplitOrdered(h: Heap, first: int, top: int, p: int, nb: int)
    requires Tiled(h, first, top) && p in h && 0 < nb < h[p].size
    ensures Ordered(Split(h, p, nb))
  {
  }

  /** A chunk of `nb` bytes is cut from the bottom of top. */
  lemma CutTopTiled(h: Heap, first: int, top: int, nb: int)
    requires Tiled(h, first, top) && nb >= MIN_CHUNK_SIZE
    ensures top !in h && Tiled(h[top := Chunk(nb, true, true)], first, top + nb)
  {
    var h' := h[top := Chunk(nb, true, true)];
    forall q | q in h
      ensures q + h[q].size <= top && q != top
    {
      ChunkBounds(h, first, top, q);
    }
    forall q | q in h'
      ensures ChunkOK(h', q, first, top + nb)
    {
      if q != top { assert ChunkOK(h, q, first, top); } else { ChunkBounds(h, first, top, first); }
    }
  }

  /** The chunks from `lo` up to `hi` become one free chunk. */
  function Coalesced(h: Heap, lo: int, hi: int): Heap
    requires hi in h
  {
    (map q | q in h && !(lo < q < hi) :: h[q])[lo := Chunk(hi - lo, false, true)][hi := h[hi].(pin := false)]
  }

  lemma CoalescedTiled(h: Heap, first: int, top: int, lo: int, hi: int)
    requires Tiled(h, first, top) && lo in h && hi in h && lo < hi && lo != first && h[lo].pin && h[hi].used
    ensures Tiled(Coalesced(h, lo, hi), first, top)
  {
    hide Tiled, Ordered, Coalesced;
    var h' := Coalesced(h, lo, hi);
    ChunkIs(h, first, top, lo);
    ChunkBounds(h, first, top, lo);
    ChunkBounds(h, first, top, hi);
    CoalescedOrdered(h, first, top, lo, hi);
    CoalescedReads(h, lo, hi);
    forall q | q in h'
      ensures ChunkOK(h', q, first, top)
    {
      ChunkIs(h, first, top, q);
      if q != lo { NextOutside(h, first, top, lo, hi, q); }
    }
    TiledBy(h', first, top);
  }

  lemma CoalescedReads(h: Heap, lo: int, hi: int)
    requires lo in h && hi in h && lo < hi
    ensures forall q :: q in Coalesced(h, lo, hi) <==> q in h && !(lo < q < hi)
    ensures var h' := Coalesced(h, lo, hi);
            && h'[lo] == Chunk(hi - lo, false, true) && h'[hi] == h[hi].(pin := false)
            && forall q :: q in h' && q != lo && q != hi ==> h'[q] == h[q]
  {
  }

  lemma CoalescedOrdered(h: Heap, first: int, top: int, lo: int, hi: int)
    requires Tiled(h, first, top) && lo in h && hi in h && lo < hi
    ensures Ordered(Coalesced(h, lo, hi))
  {
  }

  lemma NextOutside(h: Heap, first: int, top: int, lo: int, hi: int, q: int)
    requires Tiled(h, first, top) && lo in h && hi in h && lo < hi && q in h && (q < lo || hi <= q)
    ensures Next(h, q) <= lo || hi < Next(h, q)
    ensures Next(h, q) == lo ==> h[q].used == h[lo].pin
  {
    ChunkBounds(h, first, top, q);
    ChunkBounds(h, first, top, lo);
    assert ChunkOK(h, q, first, top);
  }

  /** The chunks from `lo` upward join top. */
  function Absorbed(h: Heap, lo: int): Heap {
    map q | q in h && q < lo :: h[q]
  }

  lemma AbsorbedTiled(h: Heap, first: int, top: int, lo: int)
    requires Tiled(h, first, top) && lo in h && lo != first && h[lo].pin
    ensures Tiled(Absorbed(h, lo), first, lo)
  {
    var h' := Absorbed(h, lo);
    ChunkBounds(h, first, top, lo);
    forall q | q in h'
      ensures ChunkOK(h', q, first, lo)
    {
      assert ChunkOK(h, q, first, top);
    }
  }

  /** Used chunk `p` is cut in two used chunks, the first of `lead` bytes. */
  function Cut(h: Heap, p: int, lead: int): Heap
    requires p in h
  {
    h[p := h[p].(size := lead)][p + lead := Chunk(h[p].size - lead, true, true)]
  }

  lemma CutTiled(h: Heap, first: int, top: int, p: int, lead: int)
    requires Tiled(h, first, top) && p in h && h[p].used && p != first
    requires lead >= MIN_CHUNK_SIZE && h[p].size - lead >= MIN_CHUNK_SIZE
    ensures Tiled(Cut(h, p, lead), first, top) && p + lead !in h
  {
    hide Tiled, Ordered;
    var h' := Cut(h, p, lead);
    ChunkIs(h, first, top, p);
    NotInside(h, first, top, p, p + lead);
    CutOrdered(h, first, top, p, lead);
    forall q | q in h'
      ensures ChunkOK(h', q, first, top)
    {
      if q != p + lead {
        ChunkIs(h, first, top, q);
        if q != p { NextNotInside(h, first, top, p, q, p + lead); }
      }
    }
    TiledBy(h', first, top);
  }

  lemma CutOrdered(h: Heap, first: int, top: int, p: int, lead: int)
    requires Tiled(h, first, top) && p in h && 0 < lead < h[p].size
    ensures Ordered(Cut(h, p, lead))
  {
  }
}
