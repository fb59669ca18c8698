/** Moving a free chunk into and out of its bin, as steps of the whole state. */
module HeapBins {
  import opened Machine
  import opened BinIndex
  import opened Words
  import opened Rings
  import opened Tries
  import opened TreeUnlink
  import opened Bins
  import opened Chunks
  import opened HeapState
  import opened HeapSteps

  /** A change confined to one bin, after which the bins are right for another set of loose chunks. */
  lemma BinStep(s: State, s': State, g: Segment, loose: set<int>, loose': set<int>, all: Inventory, c: set<int>,
        w0: int, w1: int)
    requires Good(s, g, loose) && s' == s.(m := s'.m, b := s'.b, smallmap := s'.smallmap, treemap := s'.treemap)
    requires Confined(s.m, s'.m, all, c, w0, w1) && g.first + 8 <= w0 && w1 < g.first + MSIZE
    requires OfHeap(all, s.h) && (forall q :: q in all ==> !s.h[q].used)
    requires forall p :: p in loose' ==> p in s.h && !s.h[p].used && p != s.dv
    requires BinsRep(s'.m, g.first + 8, Binned(s.h, s.dv, loose'), s'.b, s'.smallmap, s'.treemap)
    ensures Good(s', g, loose') && PayloadKept(s.m, s'.m, s.h, g.first)
  {
    TagsKept(s.m, s'.m, s.h, g.first, s.top, s.topsize, all, c, w0, w1);
    BinPayload(s.m, s'.m, s.h, g.first, s.top, all, c, w0, w1);
  }

  lemma BinPayload(m: Mem, m': Mem, h: Heap, first: int, top: int, all: Inventory, c: set<int>, w0: int, w1: int)
    requires Tiled(h, first, top) && OfHeap(all, h) && (forall q :: q in all ==> !h[q].used)
    requires Confined(m, m', all, c, w0, w1) && first + 8 <= w0 && w1 < first + MSIZE
    ensures PayloadKept(m, m', h, first)
  {
    forall q, a | InPayload(h, first, q, a)
      ensures Rd(m', a) == Rd(m, a)
    {
      ChunkBounds(h, first, top, q);
      forall p | p in all
        ensures !(p + FD <= a < p + all[p])
      {
        ChunkBounds(h, first, top, p);
      }
    }
  }

  lemma BinCounts(s: State, g: Segment, loose: set<int>)
    requires BinsOK(s, g, loose)
    ensures |s.b.small| == 32 && |s.b.tree| == 32
  {
  }

  lemma LooseBinned(h: Heap, dv: int, loose: set<int>, x: int)
    requires x in Binned(h, dv, loose)
    ensures Binned(h, dv, loose + {x}) == Binned(h, dv, loose) - {x}
    ensures x in h && !h[x].used && x != dv
  {
  }

  lemma TightBinned(h: Heap, dv: int, loose: set<int>, x: int)
    requires x in loose && x in h && !h[x].used && x != dv
    ensures Binned(h, dv, loose - {x}) == Binned(h, dv, loose)[x := h[x].size]
    ensures x !in Binned(h, dv, loose)
  {
  }

  lemma BinnedFree(h: Heap, dv: int, loose: set<int>)
    ensures OfHeap(Binned(h, dv, loose), h) && (forall q :: q in Binned(h, dv, loose) ==> !h[q].used)
  {
  }

  // ----- small bins

  /** Unlinking the k-th chunk of a small bin makes it a loose chunk. */
  lemma UnlinkSmallStep(s: State, s': State, g: Segment, loose: set<int>, i: nat, k: nat)
    requires Good(s, g, loose) && i < 32 && k < |s.b.small[i]|
    requires s' == s.(m := s'.m, smallmap := s'.smallmap, b := s.b.(small := s.b.small[i := Without(s.b.small[i], k)]))
    requires var x := s.b.small[i][k];
             if |s.b.small[i]| == 1 then s'.m == s.m else s'.m == RingStores(s.m, x) && RingMapped(s.m, x)
    requires MapSet(s.smallmap, s'.smallmap, i, |s.b.small[i]| > 1)
    ensures Good(s', g, loose + {s.b.small[i][k]}) && PayloadKept(s.m, s'.m, s.h, g.first)
    ensures s.b.small[i][k] in Binned(s.h, s.dv, loose)
  {
    hide HeapOK, BinsRep, Confined, MapSet, Binned, RingStores, PushStores, UnlinkStores, InsertStores, Reached,
      Replaced, Drop, NewNode;
    BinCounts(s, g, loose);
    var x := UnlinkSmallBins(s, s', g, loose, i, k);
    BinnedFree(s.h, s.dv, loose);
    LooseBinned(s.h, s.dv, loose, x);
    BinStep(s, s', g, loose, loose + {x}, Binned(s.h, s.dv, loose), Members(s.b.small[i]),
      SmallBin(g.first + 8, i) + FD, SmallBin(g.first + 8, i) + BK);
  }

  lemma UnlinkSmallBins(s: State, s': State, g: Segment, loose: set<int>, i: nat, k: nat) returns (x: int)
    requires BinsOK(s, g, loose) && i < 32 && k < |s.b.small[i]|
    requires s' == s.(m := s'.m, smallmap := s'.smallmap, b := s.b.(small := s.b.small[i := Without(s.b.small[i], k)]))
    requires var x := s.b.small[i][k];
             if |s.b.small[i]| == 1 then s'.m == s.m else s'.m == RingStores(s.m, x) && RingMapped(s.m, x)
    requires MapSet(s.smallmap, s'.smallmap, i, |s.b.small[i]| > 1)
    ensures x == s.b.small[i][k] && x in Binned(s.h, s.dv, loose)
    ensures BinsRep(s'.m, g.first + 8, Binned(s.h, s.dv, loose + {x}), s'.b, s'.smallmap, s'.treemap)
    ensures Confined(s.m, s'.m, Binned(s.h, s.dv, loose), Members(s.b.small[i]), SmallBin(g.first + 8, i) + FD,
      SmallBin(g.first + 8, i) + BK)
  {
    hide TreeBinsRep, Confined, MapSet, RingStores, RingMapped;
    x := s.b.small[i][k];
    var inv := Binned(s.h, s.dv, loose);
    assert x in inv by { assert SmallRep(s.m, g.first + 8, inv, i, s.b.small[i]); }
    assert Binned(s.h, s.dv, loose + {x}) == inv - {x} by { LooseBinned(s.h, s.dv, loose, x); }
    UnlinkSmall(s.m, s'.m, g.first + 8, inv, s.b, s.smallmap, s'.smallmap, s.treemap, i, k);
  }

  /** A loose small chunk goes to the front of its bin. */
  lemma InsertSmallStep(s: State, s': State, g: Segment, loose: set<int>, i: nat, x: int)
    requires Good(s, g, loose) && x in loose && s.h[x].size == 8 * i && i < 32
    requires s' == s.(m := s'.m, smallmap := s'.smallmap, b := s.b.(small := s.b.small[i := [x] + s.b.small[i]]))
    requires var h, f := SmallBin(g.first + 8, i), At(SmallBin(g.first + 8, i), s.b.small[i], 1);
             s'.m == PushStores(s.m, h, f, x) && PushMapped(s.m, h, f, x)
    requires MapSet(s.smallmap, s'.smallmap, i, true)
    ensures Good(s', g, loose - {x}) && PayloadKept(s.m, s'.m, s.h, g.first)
  {
    hide HeapOK, BinsRep, Confined, MapSet, Binned, RingStores, PushStores, UnlinkStores, InsertStores, Reached,
      Replaced, Drop, NewNode;
    BinCounts(s, g, loose);
    InsertSmallBins(s, s', g, loose, i, x);
    BinnedFree(s.h, s.dv, loose - {x});
    BinStep(s, s', g, loose, loose - {x}, Binned(s.h, s.dv, loose - {x}), Members([x] + s.b.small[i]),
            SmallBin(g.first + 8, i) + FD, SmallBin(g.first + 8, i) + BK);
  }

  lemma InsertSmallBins(s: State, s': State, g: Segment, loose: set<int>, i: nat, x: int)
    requires Good(s, g, loose) && x in loose && s.h[x].size == 8 * i && i < 32
    requires s' == s.(m := s'.m, smallmap := s'.smallmap, b := s.b.(small := s.b.small[i := [x] + s.b.small[i]]))
    requires var h, f := SmallBin(g.first + 8, i), At(SmallBin(g.first + 8, i), s.b.small[i], 1);
             s'.m == PushStores(s.m, h, f, x) && PushMapped(s.m, h, f, x)
    requires MapSet(s.smallmap, s'.smallmap, i, true)
    ensures BinsRep(s'.m, g.first + 8, Binned(s.h, s.dv, loose - {x}), s'.b, s'.smallmap, s'.treemap)
    ensures Confined(s.m, s'.m, Binned(s.h, s.dv, loose - {x}), Members([x] + s.b.small[i]),
            SmallBin(g.first + 8, i) + FD, SmallBin(g.first + 8, i) + BK)
  {
    hide SmallBinsRep, TreeBinsRep, Confined, MapSet, PushStores, PushMapped, Tiled, Aligned8, Tagged, WholeSegment,
      InventoryOK;
    var inv := Binned(s.h, s.dv, loose);
    assert Binned(s.h, s.dv, loose - {x}) == inv[x := 8 * i] && x !in inv by { TightBinned(s.h, s.dv, loose, x); }
    assert InventoryOK(g.first + 8, inv[x := 8 * i]) by { BinnedOK(s.h, g.first, s.top, s.dv, loose - {x}); }
    InsertSmall(s.m, s'.m, g.first + 8, inv, s.b, s.smallmap, s'.smallmap, s.treemap, i, x);
  }

  // ----- tree bins

  lemma UnlinkLargeStep(s: State, s': State, g: Segment, loose: set<int>, i: nat, x: int)
    requires Good(s, g, loose) && i < 32 && x in Elems(s.b.tree[i]) && x in s.h
    requires Reached(s.b.tree[i], i, s.h[x].size).Node? && x in Here(Reached(s.b.tree[i], i, s.h[x].size))
    requires var t, sz := s.b.tree[i], s.h[x].size;
             && s'.m == UnlinkStores(s.m, t, i, sz, TreeBin(g.first + 8, i), x)
             && s'.b == s.b.(tree := s.b.tree[i := Replaced(t, i, sz, Drop(Reached(t, i, sz), x))])
             && MapSet(s.treemap, s'.treemap, i, Replaced(t, i, sz, Drop(Reached(t, i, sz), x)).Node?)
    requires s' == s.(m := s'.m, treemap := s'.treemap, b := s'.b)
    ensures Good(s', g, loose + {x}) && PayloadKept(s.m, s'.m, s.h, g.first)
  {
    hide HeapOK, BinsRep, Confined, MapSet, Binned, RingStores, PushStores, UnlinkStores, InsertStores, Reached,
      Replaced, Drop, NewNode;
    BinCounts(s, g, loose);
    UnlinkLargeBins(s, s', g, loose, i, x);
    BinnedFree(s.h, s.dv, loose);
    LooseBinned(s.h, s.dv, loose, x);
    BinStep(s, s', g, loose, loose + {x}, Binned(s.h, s.dv, loose), Elems(s.b.tree[i]), TreeBin(g.first + 8, i),
      TreeBin(g.first + 8, i));
  }

  lemma UnlinkLargeBins(s: State, s': State, g: Segment, loose: set<int>, i: nat, x: int)
    requires Good(s, g, loose) && i < 32 && x in Elems(s.b.tree[i]) && x in s.h
    requires Reached(s.b.tree[i], i, s.h[x].size).Node? && x in Here(Reached(s.b.tree[i], i, s.h[x].size))
    requires var t, sz := s.b.tree[i], s.h[x].size;
             && s'.m == UnlinkStores(s.m, t, i, sz, TreeBin(g.first + 8, i), x)
             && s'.b == s.b.(tree := s.b.tree[i := Replaced(t, i, sz, Drop(Reached(t, i, sz), x))])
             && MapSet(s.treemap, s'.treemap, i, Replaced(t, i, sz, Drop(Reached(t, i, sz), x)).Node?)
    requires s' == s.(m := s'.m, treemap := s'.treemap, b := s'.b)
    ensures x in Binned(s.h, s.dv, loose)
    ensures BinsRep(s'.m, g.first + 8, Binned(s.h, s.dv, loose + {x}), s'.b, s'.smallmap, s'.treemap)
    ensures Confined(s.m, s'.m, Binned(s.h, s.dv, loose), Elems(s.b.tree[i]), TreeBin(g.first + 8, i),
      TreeBin(g.first + 8, i))
  {
    var inv := Binned(s.h, s.dv, loose);
    assert x in inv && inv[x] >= 256 && ComputeTreeIndex(inv[x]) == i by {
      assert TreeBinRep(s.m, g.first + 8, inv, i, s.b.tree[i]);
    }
    assert Binned(s.h, s.dv, loose + {x}) == inv - {x} by { LooseBinned(s.h, s.dv, loose, x); }
    assert Mapped(s.m, g.first + 8, inv) by { MappedInSegment(s, g, loose); }
    UnlinkLarge(s.m, g.first + 8, inv, s.b, s.smallmap, s.treemap, s'.treemap, i, x);
  }

  lemma InsertLargeStep(s: State, s': State, g: Segment, loose: set<int>, i: nat, x: int)
    requires Good(s, g, loose) && x in loose && i < 32 && 256 <= s.h[x].size < WORD
    requires i == ComputeTreeIndex(s.h[x].size)
    requires var t, sz := s.b.tree[i], s.h[x].size;
             && s'.m == InsertStores(s.m, t, i, sz, TreeBin(g.first + 8, i), x)
             && s'.b == s.b.(tree := s.b.tree[i := Replaced(t, i, sz, NewNode(Reached(t, i, sz), sz, x))])
    requires MapSet(s.treemap, s'.treemap, i, true) && s' == s.(m := s'.m, treemap := s'.treemap, b := s'.b)
    ensures Good(s', g, loose - {x}) && PayloadKept(s.m, s'.m, s.h, g.first)
  {
    hide HeapOK, BinsRep, Confined, MapSet, Binned, RingStores, PushStores, UnlinkStores, InsertStores, Reached,
      Replaced, Drop, NewNode;
    BinCounts(s, g, loose);
    InsertLargeBins(s, s', g, loose, i, x);
    BinnedFree(s.h, s.dv, loose - {x});
    BinStep(s, s', g, loose, loose - {x}, Binned(s.h, s.dv, loose - {x}), Elems(s.b.tree[i]) + {x},
      TreeBin(g.first + 8, i), TreeBin(g.first + 8, i));
  }

  lemma InsertLargeBins(s: State, s': State, g: Segment, loose: set<int>, i: nat, x: int)
    requires Good(s, g, loose) && x in loose && i < 32 && 256 <= s.h[x].size < WORD
    requires i == ComputeTreeIndex(s.h[x].size)
    requires var t, sz := s.b.tree[i], s.h[x].size;
             && s'.m == InsertStores(s.m, t, i, sz, TreeBin(g.first + 8, i), x)
             && s'.b == s.b.(tree := s.b.tree[i := Replaced(t, i, sz, NewNode(Reached(t, i, sz), sz, x))])
    requires MapSet(s.treemap, s'.treemap, i, true) && s' == s.(m := s'.m, treemap := s'.treemap, b := s'.b)
    ensures BinsRep(s'.m, g.first + 8, Binned(s.h, s.dv, loose - {x}), s'.b, s'.smallmap, s'.treemap)
    ensures Confined(s.m, s'.m, Binned(s.h, s.dv, loose - {x}), Elems(s.b.tree[i]) + {x}, TreeBin(g.first + 8, i),
      TreeBin(g.first + 8, i))
  {
    hide Head, Confined, Binned, BinsRep;
    var inv, sz := Binned(s.h, s.dv, loose), s.h[x].size;
    assert Binned(s.h, s.dv, loose - {x}) == inv[x := sz] && x !in inv by { TightBinned(s.h, s.dv, loose, x); }
    assert InventoryOK(g.first + 8, inv[x := sz]) by { BinnedOK(s.h, g.first, s.top, s.dv, loose - {x}); }
    assert Mapped(s.m, g.first + 8, inv[x := sz]) by { FreeMapped(s, g, loose - {x}); }
    assert sz % 8 == 0 && SizeOf(Head(s.m, x)) == sz by { HeadWordFields(sz, s.h[x].pin, s.h[x].used); }
    InsertLarge(s.m, g.first + 8, inv, s.b, s.smallmap, s.treemap, s'.treemap, i, sz, x);
  }
}
