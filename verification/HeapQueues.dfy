/** The bins of a whole state as queues: what they hold, and which chunk the searches end at. */
module HeapQueues {
  import opened BinIndex
  import opened Words
  import opened Rings
  import opened Tries
  import opened TreeUnlink
  import opened Bins
  import opened BinQueues
  import opened Chunks
  import opened HeapState
  import opened HeapBins
  import opened HeapReads
  import opened BestFits
  import opened BestBins

  /** The queue of a size in a trie holds the trie's chunks of that size. */
  lemma {:induction false} StoredElems(t: Tree, lo: int, k: nat, inv: Inventory, z: int, x: int)
    requires Trie(t, lo, k) && Sized(t, inv)
    ensures x in Stored(t, z) <==> x in Elems(t) && x in inv && inv[x] == z
    decreases t
  {
    if t.Node? {
      NodeTries(t, lo, k);
      if t.l.Node? || t.r.Node? {
        StoredElems(t.l, lo, k - 1, inv, z, x);
        StoredElems(t.r, lo + Pow2(k), k - 1, inv, z, x);
      }
      StoredOneSide(t, lo, k, z);
      StoredSizes(t.l, z);
      StoredSizes(t.r, z);
      if x in Elems(t.l) { ElemSize(t.l, inv, x); }
      if x in Elems(t.r) { ElemSize(t.r, inv, x); }
    }
  }

  /** A chunk in the tree is the first of its queue. */
  lemma {:induction false} TopFirst(t: Tree, lo: int, k: nat, inv: Inventory, x: int)
    requires Trie(t, lo, k) && Sized(t, inv) && x in Tops(t)
    ensures x in inv && Stored(t, inv[x]) != [] && Stored(t, inv[x])[0] == x && x in Elems(t)
    decreases t
  {
    NodeTries(t, lo, k);
    if x == t.p {
      assert x in Here(t);
    } else if x in Tops(t.l) {
      TopFirst(t.l, lo, k - 1, inv, x);
      StoredSizes(t.l, inv[x]);
      StoredOneSide(t, lo, k, inv[x]);
    } else {
      TopFirst(t.r, lo + Pow2(k), k - 1, inv, x);
      StoredSizes(t.r, inv[x]);
      StoredOneSide(t, lo, k, inv[x]);
    }
  }

  /** The queue of a size holds exactly the binned chunks of that size. */
  lemma QueueHolds(s: State, g: Segment, loose: set<int>, z: int, x: int)
    requires Good(s, g, loose) && ChunkSize(z)
    ensures x in Queue(s.b, z) <==> x in Binned(s.h, s.dv, loose) && s.h[x].size == z
  {
    hide HeapOK, BinsOK, Binned, Marked, Ring, Distinct, TreeAt, Walking, Stored, Elems, ComputeTreeIndex;
    BinCounts(s, g, loose);
    if x in Binned(s.h, s.dv, loose) { BinnedSizes(s.h, s.dv, loose, x); }
    if z < 256 {
      ReadSmallBin(s, g, loose, z / 8);
      assert z == 8 * (z / 8);
      if x in Binned(s.h, s.dv, loose) && s.h[x].size == z { var i, k := SmallMember(s, g, loose, x); }
    } else {
      RootFits(z);
      var i := ComputeTreeIndex(z);
      ReadTreeBin(s, g, loose, i);
      TreeParts(s.m, s.b.tree[i], RootLo(i), RootK(i), TreeBin(g.first + 8, i), i, Binned(s.h, s.dv, loose));
      StoredElems(s.b.tree[i], RootLo(i), RootK(i), Binned(s.h, s.dv, loose), z, x);
      if x in Binned(s.h, s.dv, loose) && s.h[x].size == z { var j, d := LargeNode(s, g, loose, x); }
    }
  }

  lemma BinnedSizes(h: Heap, dv: int, loose: set<int>, x: int)
    requires x in Binned(h, dv, loose)
    ensures x in h && Binned(h, dv, loose)[x] == h[x].size && !h[x].used && x != dv
  {
  }

  lemma TreeParts(m: Mem, t: Tree, lo: int, k: nat, h: int, bin: int, inv: Inventory)
    requires TreeAt(m, t, lo, k, h, bin, inv)
    ensures Trie(t, lo, k) && Sized(t, inv)
  {
  }

  lemma TreeOrder(s: State, g: Segment, loose: set<int>, i: nat)
    requires Good(s, g, loose) && i < 32
    ensures |s.b.tree| == 32 && Trie(s.b.tree[i], RootLo(i), RootK(i))
    ensures Sized(s.b.tree[i], Binned(s.h, s.dv, loose))
  {
    hide HeapOK, BinsOK, Binned, TreeAt, Walking, Marked;
    ReadTreeBin(s, g, loose, i);
    TreeParts(s.m, s.b.tree[i], RootLo(i), RootK(i), TreeBin(g.first + 8, i), i, Binned(s.h, s.dv, loose));
  }

  /** A small bin is marked iff there is a queue of its size. */
  lemma SmallMarks(s: State, g: Segment, i: nat)
    requires Good(s, g, {}) && 0 < i < 32
    ensures Marked(s.smallmap, i) <==> 8 * i in QueuesOf(s.b)
    ensures |s.b.small| == 32 && Waiting(QueuesOf(s.b), 8 * i) == s.b.small[i]
    ensures Marked(s.smallmap, i) ==> Fd(s.m, SmallBin(g.first + 8, i)) == s.b.small[i][0]
  {
    hide HeapOK, BinsOK, Marked, Ring, Distinct;
    ReadSmallBin(s, g, {}, i);
    QueueAt(s.b, 8 * i);
  }

  /** Every queue has a first chunk, binned and of its size. */
  lemma QueueFirst(s: State, g: Segment, z: int)
    requires Good(s, g, {}) && z in QueuesOf(s.b)
    ensures ChunkSize(z) && QueuesOf(s.b)[z] != []
    ensures var p := QueuesOf(s.b)[z][0]; p in Binned(s.h, s.dv, {}) && p in s.h && s.h[p].size == z
  {
    hide HeapOK, BinsOK, Binned, Queue;
    QueueHolds(s, g, {}, z, QueuesOf(s.b)[z][0]);
    BinnedSizes(s.h, s.dv, {}, QueuesOf(s.b)[z][0]);
  }

  lemma ChunkSized(s: State, g: Segment, x: int)
    requires HeapOK(s, g) && x in s.h
    ensures ChunkSize(s.h[x].size) && s.h[x].size >= 16
  {
    ReadChunk(s, g, x);
  }

  /** A chunk at which a search of the trees ends is the first of its queue. */
  lemma HeadFirst(s: State, g: Segment, v: int)
    requires Good(s, g, {}) && v in Heads(s.b)
    ensures v in Binned(s.h, s.dv, {}) && v in s.h && First(QueuesOf(s.b), s.h[v].size, v)
  {
    hide HeapOK, BinsOK, Binned, Queue, TreeAt, Walking, Marked, Stored, ComputeTreeIndex, Elems;
    BinCounts(s, g, {});
    var i := TopFrom(s.b.tree, v);
    ReadTreeBin(s, g, {}, i);
    TreeParts(s.m, s.b.tree[i], RootLo(i), RootK(i), TreeBin(g.first + 8, i), i, Binned(s.h, s.dv, {}));
    TopFirst(s.b.tree[i], RootLo(i), RootK(i), Binned(s.h, s.dv, {}), v);
    BinnedSizes(s.h, s.dv, {}, v);
    ChunkSized(s, g, v);
    LargeQueue(s.b, s.h[v].size, i);
    QueueAt(s.b, s.h[v].size);
  }

  lemma LargeQueue(b: BinSet, z: int, i: nat)
    requires i < |b.tree| && z >= 256 && i == ComputeTreeIndex(z)
    ensures Queue(b, z) == Stored(b.tree[i], z)
  {
  }

  // ----- what moving a chunk does to the queues

  lemma SmallPushed(s: State, g: Segment, loose: set<int>, b: BinSet, i: nat, x: int)
    requires Good(s, g, loose) && x in s.h && s.h[x].size == 8 * i && i < 32
    requires |s.b.small| == 32 && b == s.b.(small := s.b.small[i := [x] + s.b.small[i]])
    ensures QueuesOf(b) == Pushed(QueuesOf(s.b), s.h[x].size, x)
  {
    hide HeapOK, BinsOK, QueuesOf, Pushed;
    ChunkSized(s, g, x);
    InsertSmallQueue(s.b, b, i, x);
  }

  lemma SmallPulled(s: State, g: Segment, loose: set<int>, b: BinSet, i: nat, k: nat)
    requires Good(s, g, loose) && i < 32 && |s.b.small| == 32 && k < |s.b.small[i]|
    requires b == s.b.(small := s.b.small[i := Without(s.b.small[i], k)])
    ensures QueuesOf(b) == Pulled(QueuesOf(s.b), 8 * i, s.b.small[i][k])
  {
    hide HeapOK, BinsOK, QueuesOf, Pulled, Ring, Binned, Marked;
    ReadSmallBin(s, g, loose, i);
    ChunkSized(s, g, s.b.small[i][k]);
    UnlinkSmallQueue(s.b, b, i, k);
  }

  lemma LargePushed(s: State, g: Segment, loose: set<int>, b: BinSet, i: nat, x: int)
    requires Good(s, g, loose) && i < 32 && x in s.h && s.h[x].size >= 256 && i == ComputeTreeIndex(s.h[x].size)
    requires |s.b.tree| == 32
    requires var t, z := s.b.tree[i], s.h[x].size;
      b == s.b.(tree := s.b.tree[i := Replaced(t, i, z, NewNode(Reached(t, i, z), z, x))])
    ensures QueuesOf(b) == Pushed(QueuesOf(s.b), s.h[x].size, x)
  {
    hide HeapOK, BinsOK, QueuesOf, Pushed, Trie, Sized, ComputeTreeIndex, Replaced, Reached, NewNode;
    ChunkSized(s, g, x);
    TreeOrder(s, g, loose, i);
    InsertLargeQueue(s.b, b, i, x, s.h[x].size);
  }

  lemma LargePulled(s: State, g: Segment, loose: set<int>, b: BinSet, i: nat, x: int)
    requires Good(s, g, loose) && i < 32 && x in s.h && s.h[x].size >= 256 && i == ComputeTreeIndex(s.h[x].size)
    requires |s.b.tree| == 32 && Reached(s.b.tree[i], i, s.h[x].size).Node?
    requires x in Here(Reached(s.b.tree[i], i, s.h[x].size))
    requires var t, z := s.b.tree[i], s.h[x].size;
      b == s.b.(tree := s.b.tree[i := Replaced(t, i, z, Drop(Reached(t, i, z), x))])
    ensures QueuesOf(b) == Pulled(QueuesOf(s.b), s.h[x].size, x)
  {
    hide HeapOK, BinsOK, QueuesOf, Pulled, Trie, Sized, ComputeTreeIndex, Replaced, Reached, Drop, Here;
    ChunkSized(s, g, x);
    TreeOrder(s, g, loose, i);
    UnlinkLargeQueue(s.b, b, i, x, s.h[x].size, Binned(s.h, s.dv, loose));
  }

  /** Chunk `p` is the next of size `z` to be given out. */
  predicate First(q: Queues, z: int, p: int) { z in q && q[z] != [] && q[z][0] == p }
}
