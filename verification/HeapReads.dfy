/** What the code reads from a heap in order: head words, foot words, bin headers and links. */
module HeapReads {
  import opened Machine
  import opened BinIndex
  import opened Words
  import opened Rings
  import opened Tries
  import opened TreeWords
  import opened TreeUnlink
  import opened Bins
  import opened Chunks
  import opened HeapState
  import opened BestFits

  // ----- chunks

  lemma ReadChunk(s: State, g: Segment, p: int)
    requires HeapOK(s, g) && p in s.h
    ensures Head(s.m, p) == HeadWord(s.h[p].size, s.h[p].pin, s.h[p].used)
    ensures SizeOf(Head(s.m, p)) == s.h[p].size && PInUse(Head(s.m, p)) == s.h[p].pin
    ensures CInUse(Head(s.m, p)) == s.h[p].used
    ensures 0 < g.first <= p && p % 8 == 0 && s.h[p].size % 8 == 0 && s.h[p].size >= 16
    ensures Next(s.h, p) <= s.top < g.limit <= WORD && (p != g.first ==> g.first + MSIZE <= p)
    ensures p + HEAD in s.m && p + FD in s.m && Next(s.h, p) in s.m && Next(s.h, p) + HEAD in s.m
    ensures !s.h[p].used ==>
      s.h[p].pin && Next(s.h, p) in s.h && s.h[Next(s.h, p)].used && !s.h[Next(s.h, p)].pin && p != g.first
    ensures Next(s.h, p) == s.top ==> s.h[p].used
    ensures Next(s.h, p) != s.top ==> Next(s.h, p) in s.h && s.h[Next(s.h, p)].pin == s.h[p].used
  {
    hide WholeSegment, DvOK;
    ChunkInSegment(s, g, p);
    ChunkBounds(s.h, g.first, s.top, p);
    HeadWordFields(s.h[p].size, s.h[p].pin, s.h[p].used);
    assert ChunkOK(s.h, p, g.first, s.top);
  }

  lemma ReadFoot(s: State, g: Segment, p: int)
    requires HeapOK(s, g) && p in s.h && !s.h[p].used
    ensures Foot(s.m, Next(s.h, p)) == s.h[p].size
  {
  }

  lemma FourPast(k: int)
    requires k % 8 == 0
    ensures (k + HEAD) % 4 == 0
  {
    var q := k / 8;
    assert k + HEAD == 4 * (2 * q + 1) + 0;
    ModFour(2 * q + 1, 0);
  }

  lemma ReadTop(s: State, g: Segment)
    requires HeapOK(s, g)
    ensures Head(s.m, s.top) == HeadWord(s.topsize, true, false) && !CInUse(Head(s.m, s.top))
    ensures PInUse(Head(s.m, s.top))
    ensures s.top + HEAD in s.m && s.top !in s.h && s.top >= g.first + MSIZE && s.top % 8 == 0 && s.topsize % 8 == 0
    ensures forall k :: 0 <= k <= s.topsize && k % 8 == 0 ==> s.top + k + HEAD in s.m
  {
    hide HeapOK, HeadWord;
    TopTags(s, g);
    HeadWordFields(s.topsize, true, false);
    TopPlace(s, g);
    forall k | 0 <= k <= s.topsize && k % 8 == 0
      ensures s.top + k + HEAD in s.m
    {
      TopWordIn(s, g, k);
    }
    assert s.top + 0 + HEAD in s.m;
  }

  lemma TopTags(s: State, g: Segment)
    requires HeapOK(s, g)
    ensures Head(s.m, s.top) == HeadWord(s.topsize, true, false) && s.topsize >= 0 && s.top % 8 == 0
    ensures s.topsize % 8 == 0
  {
    hide DvOK, Tiled, WholeSegment, HeadWord;
  }

  lemma TopPlace(s: State, g: Segment)
    requires HeapOK(s, g)
    ensures s.top !in s.h && s.top >= g.first + MSIZE
  {
    hide DvOK, WholeSegment, Tagged, Aligned8;
    ChunkBounds(s.h, g.first, s.top, g.first);
    TopNoChunk(s.h, g.first, s.top);
  }

  lemma TopWordIn(s: State, g: Segment, k: int)
    requires HeapOK(s, g) && 0 <= k <= s.topsize && k % 8 == 0
    ensures s.top + k + HEAD in s.m
  {
    hide DvOK, Tagged, WholeSegment, Tiled;
    TopPlace(s, g);
    FourPast(k);
    WordIn(s.m, g, s.top, k + HEAD);
  }

  lemma TopNoChunk(h: Heap, first: int, top: int)
    requires Tiled(h, first, top)
    ensures top !in h
  {
    if top in h { ChunkBounds(h, first, top, top); }
  }

  /** The chunk whose successor is `n` is free exactly if n's PINUSE bit says so, and then the
      foot word in front of `n` leads to it. */
  lemma ReadPrevious(s: State, g: Segment, n: int) returns (p: int)
    requires HeapOK(s, g) && n in s.h && n != g.first && !s.h[n].pin
    ensures p in s.h && !s.h[p].used && Next(s.h, p) == n && p == n - Foot(s.m, n)
    ensures forall q :: q in s.h && q < n ==> q <= p
  {
    hide WholeSegment, DvOK, Aligned8;
    p := Previous(s.h, g.first, s.top, n);
    assert ChunkOK(s.h, p, g.first, s.top);
    ChunkBounds(s.h, g.first, s.top, n);
    forall q | q in s.h && q < n
      ensures q <= p
    {
      assert ChunkOK(s.h, q, g.first, s.top);
    }
  }

  // ----- small bins

  lemma ReadSmallBin(s: State, g: Segment, loose: set<int>, i: nat)
    requires Good(s, g, loose) && i < 32
    ensures |s.b.small| == 32 && (Marked(s.smallmap, i) <==> s.b.small[i] != [])
    ensures var b, ring := SmallBin(g.first + 8, i), s.b.small[i];
            && (forall q :: q in ring ==> q in Binned(s.h, s.dv, loose) && q in s.h && s.h[q].size == 8 * i)
            && Distinct(b, ring) && (ring != [] ==> Ring(s.m, b, ring) && Fd(s.m, b) == ring[0])
  {
    hide HeapOK, TreeBinsRep, InventoryOK, Ring;
    var ring := s.b.small[i];
    assert SmallRep(s.m, g.first + 8, Binned(s.h, s.dv, loose), i, ring);
    if ring != [] { RingEnds(s.m, SmallBin(g.first + 8, i), ring); }
  }

  lemma SmallMember(s: State, g: Segment, loose: set<int>, x: int) returns (i: nat, k: nat)
    requires Good(s, g, loose) && x in Binned(s.h, s.dv, loose) && s.h[x].size < 256
    ensures i == s.h[x].size / 8 && i < 32 && s.h[x].size == 8 * i && |s.b.small| == 32 && k < |s.b.small[i]|
    ensures s.b.small[i][k] == x
  {
    hide Tagged, WholeSegment, DvOK, TreeBinsRep;
    assert s.h[x].size % 8 == 0 && s.h[x].size >= 16 by { ReadChunk(s, g, x); }
    i := s.h[x].size / 8;
    var ring := s.b.small[i];
    assert x in ring;
    k := IndexOf(ring, x);
  }

  lemma MappedMember(s: State, g: Segment, loose: set<int>, i: nat, q: int)
    requires Good(s, g, loose) && i < 32 && (q == SmallBin(g.first + 8, i) || q in s.h)
    ensures q + FD in s.m && q + BK in s.m && q >= g.first && q != 0
  {
    hide BinsRep, Tagged, DvOK;
    if q in s.h {
      ChunkInSegment(s, g, q);
      ChunkBounds(s.h, g.first, s.top, q);
    } else {
      FirstBound(s, g);
      WordIn(s.m, g, g.first, 8 + SMALLBINS + 8 * i + FD);
      WordIn(s.m, g, g.first, 8 + SMALLBINS + 8 * i + BK);
    }
  }

  lemma FirstBound(s: State, g: Segment)
    requires HeapOK(s, g)
    ensures 0 < g.first && g.first % 8 == 0 && g.first + MSIZE + TOP_FOOT_SIZE < g.limit
  {
    ChunkBounds(s.h, g.first, s.top, g.first);
  }

  /** Where a chunk goes in when it is put into its small bin. */
  lemma ReadSmallInsert(s: State, g: Segment, loose: set<int>, p: int)
    requires Good(s, g, loose) && p in s.h && s.h[p].size < 256
    ensures var i := s.h[p].size / 8;
            && 2 <= i < 32 && s.h[p].size == 8 * i && |s.b.small| == 32
            && var bin := SmallBin(g.first + 8, i);
               var f := if Marked(s.smallmap, i) then Fd(s.m, bin) else bin;
               f == At(bin, s.b.small[i], 1) && f >= g.first && PushMapped(s.m, bin, f, p)
  {
    hide HeapOK, BinsRep, Binned, Ring, Distinct, Marked;
    ReadChunk(s, g, p);
    var i := s.h[p].size / 8;
    assert s.h[p].size == 8 * i;
    ReadSmallBin(s, g, loose, i);
    var bin := SmallBin(g.first + 8, i);
    MappedMember(s, g, loose, i, bin);
    MappedMember(s, g, loose, i, At(bin, s.b.small[i], 1));
    MappedMember(s, g, loose, i, p);
  }

  /** What the header of a small bin and the links of its k-th chunk say. */
  lemma ReadSmallLinks(s: State, g: Segment, loose: set<int>, i: nat, k: nat)
    requires Good(s, g, loose) && i < 32 && |s.b.small| == 32 && k < |s.b.small[i]|
    ensures var x := s.b.small[i][k];
            && (Fd(s.m, x) == Bk(s.m, x) <==> |s.b.small[i]| == 1)
            && Fd(s.m, x) != x && Bk(s.m, x) != x && RingMapped(s.m, x)
            && g.first <= Fd(s.m, x) && g.first <= Bk(s.m, x)
            && (k == 0 ==> Bk(s.m, x) == SmallBin(g.first + 8, i))
            && (|s.b.small[i]| > 1 ==> Gap(Fd(s.m, x), Bk(s.m, x)))
  {
    hide HeapOK, BinsOK, Ring;
    ReadSmallBin(s, g, loose, i);
    var b, ring := SmallBin(g.first + 8, i), s.b.small[i];
    RingNeighbours(s.m, b, ring, k);
    RingNodesDiffer(b, ring, k, k + 1);
    RingNodesDiffer(b, ring, k + 1, k + 2);
    RingNodesDiffer(b, ring, k, k + 2);
    LinkPlace(s, g, loose, i, ring, At(b, ring, k));
    LinkPlace(s, g, loose, i, ring, At(b, ring, k + 2));
    if |ring| > 1 { LinksGap(s, g, loose, i, At(b, ring, k), At(b, ring, k + 2)); }
  }

  lemma LinkPlace(s: State, g: Segment, loose: set<int>, i: nat, ring: seq<int>, q: int)
    requires Good(s, g, loose) && i < 32 && (q == SmallBin(g.first + 8, i) || q in ring)
    requires forall e :: e in ring ==> e in Binned(s.h, s.dv, loose)
    ensures q + FD in s.m && q + BK in s.m && q >= g.first
  {
    MappedMember(s, g, loose, i, q);
  }

  lemma LinksGap(s: State, g: Segment, loose: set<int>, i: nat, p: int, q: int)
    requires BinsOK(s, g, loose) && i < 32 && p != q
    requires p == SmallBin(g.first + 8, i) || p in s.b.small[i]
    requires q == SmallBin(g.first + 8, i) || q in s.b.small[i]
    ensures Gap(p, q)
  {
    assert SmallRep(s.m, g.first + 8, Binned(s.h, s.dv, loose), i, s.b.small[i]);
    SmallNodeGap(g.first + 8, Binned(s.h, s.dv, loose), i, s.b.small[i], p, q);
  }

  // ----- tree bins

  lemma RootInWord(i: nat)
    requires i < 32
    ensures RootLo(i) >= 0 && RootLo(i) + 2 * Pow2(RootK(i)) <= WORD
  {
    hide MinSize, Pow2;
    if i < 31 {
      RootSpan(i);
      MinSizeMono(i + 1, 31);
      LastMinSize();
      MinSizePositive(i);
    } else {
      Pow2Table();
    }
  }

  lemma MinSizePositive(i: nat)
    ensures MinSize(i) >= 0
  {
  }

  function RootPlace(t: Tree, i: nat): Place { Place(t, RootLo(i), RootK(i)) }

  lemma ReadTreeBin(s: State, g: Segment, loose: set<int>, i: nat)
    requires Good(s, g, loose) && i < 32
    ensures |s.b.tree| == 32 && (Marked(s.treemap, i) <==> s.b.tree[i].Node?)
    ensures var t, inv := s.b.tree[i], Binned(s.h, s.dv, loose);
            && Walking(s.m, inv, Tops(t), Rd(s.m, TreeBin(g.first + 8, i)), RootPlace(t, i))
            && TreeAt(s.m, t, RootLo(i), RootK(i), TreeBin(g.first + 8, i), i, inv)
            && (forall q :: q in Elems(t) ==>
               q in inv && q in s.h && inv[q] == s.h[q].size && inv[q] >= 256 && ComputeTreeIndex(inv[q]) == i)
            && (Rd(s.m, TreeBin(g.first + 8, i)) == 0 <==> t.Nil?)
    ensures TreeBin(g.first + 8, i) in s.m
  {
    hide HeapOK, SmallBinsRep, InventoryOK, Sized, Trie, TreeRep, Spaced, Pow2;
    var t, h := s.b.tree[i], TreeBin(g.first + 8, i);
    assert TreeBinRep(s.m, g.first + 8, Binned(s.h, s.dv, loose), i, t);
    RootInWord(i);
    RepHolds(s.m, t, h, i);
    PositivePtr(s.m, t, h, i);
    TreeBinMapped(s, g, i);
  }

  lemma TreeBinMapped(s: State, g: Segment, i: nat)
    requires HeapOK(s, g) && i < 32
    ensures TreeBin(g.first + 8, i) in s.m
  {
    FirstBound(s, g);
    WordIn(s.m, g, g.first, 8 + TREEBINS + 4 * i);
  }

  lemma LargeMapped(s: State, g: Segment, loose: set<int>, q: int)
    requires Good(s, g, loose) && q in s.h && s.h[q].size >= 256
    ensures NodeMapped(s.m, q) && g.first < q + FD
  {
    hide BinsRep, Tagged, DvOK;
    ChunkBounds(s.h, g.first, s.top, q);
    WordIn(s.m, g, q, FD);
    WordIn(s.m, g, q, BK);
    WordIn(s.m, g, q, LEFT);
    WordIn(s.m, g, q, RIGHT);
    WordIn(s.m, g, q, PARENT);
    WordIn(s.m, g, q, INDEX);
  }

  /** The bin and the tree node of a large binned chunk. */
  lemma LargeNode(s: State, g: Segment, loose: set<int>, x: int) returns (i: nat, d: Tree)
    requires Good(s, g, loose) && x in Binned(s.h, s.dv, loose) && s.h[x].size >= 256
    ensures i < 32 && i == ComputeTreeIndex(s.h[x].size) && |s.b.tree| == 32 && x in Elems(s.b.tree[i])
    ensures d == Reached(s.b.tree[i], i, s.h[x].size) && d.Node? && x in Here(d)
    ensures Fits(s.h[x].size, RootLo(i), RootK(i))
  {
    hide SmallBinsRep, TreeRep, Pow2, DvOK, Tagged, WholeSegment;
    i := ComputeTreeIndex(s.h[x].size);
    assert x in Elems(s.b.tree[i]);
    ReadTreeBin(s, g, loose, i);
    LocateIn(s.b.tree[i], i, Binned(s.h, s.dv, loose), x);
    d := Reached(s.b.tree[i], i, s.h[x].size);
    ReadChunk(s, g, x);
    RootFits(s.h[x].size);
  }

  /** Link words of a large chunk: its bin's index; a ring of its own exactly if it is the only
      chunk of its size; a parent exactly if it is in the tree itself; and the word that points to it. */
  lemma ReadLargeLinks(m: Mem, t: Tree, i: nat, h: int, inv: map<int, int>, s: int, x: int)
    requires TreeAt(m, t, RootLo(i), RootK(i), h, i, inv) && Fits(s, RootLo(i), RootK(i)) && h != 0
    requires Reached(t, i, s).Node? && x in Here(Reached(t, i, s)) && forall q :: q in Elems(t) ==> q != 0
    ensures var d, a, y := Reached(t, i, s), ReachedSlot(t, i, s, h), ReachedParent(t, i, s, h);
            && Index(m, x) == i && Elems(d) <= Elems(t) && (Bk(m, x) == x <==> x == d.p && d.rest == [])
            && (x != d.p ==> Parent(m, x) == 0)
            && (x == d.p ==> Parent(m, x) == y && y != 0)
            && (d.rest != [] && x == d.p ==> Bk(m, x) == Drop(d, x).p)
            && Fd(m, x) in Here(d) && Bk(m, x) in Here(d)
            && (x == d.p ==>
                 if Rd(m, h) == x then a == h && y == h && d == t
                 else a != h && y in Elems(t) && y !in Elems(d) && a == y + if Left(m, y) == x then LEFT else RIGHT)
  {
    hide Trie, Sized, Fits, Pow2;
    var d, a, y := Reached(t, i, s), ReachedSlot(t, i, s, h), ReachedParent(t, i, s, h);
    NodeContext(m, t, RootLo(i), RootK(i), h, i, inv, s);
    NodeLinks(m, d, y, i, x, inv);
    SlotPlace(t, RootLo(i), RootK(i), s, h, h);
    if x == d.p {
      SlotFromWords(m, t, RootLo(i), RootK(i), s, h, h, i);
      if x != t.p { ParentAbove(t, RootLo(i), RootK(i), s, h); }
    }
  }

  lemma NodeLinks(m: Mem, d: Tree, y: int, bin: int, x: int, inv: map<int, int>)
    requires d.Node? && x in Here(d) && NodeWords(m, d, y, bin) && Sized(d, inv)
    ensures Index(m, x) == bin && (Bk(m, x) == x <==> x == d.p && d.rest == []) && Fd(m, x) in Here(d)
    ensures Bk(m, x) in Here(d)
    ensures if x == d.p then Parent(m, x) == y && (d.rest != [] ==> Bk(m, x) == Drop(d, x).p) else Parent(m, x) == 0
  {
    RestHere(d);
    assert Distinct(d.p, d.rest);
    if x == d.p {
      if d.rest != [] { RingEnds(m, d.p, d.rest); } else { assert Link(m, d.p, d.rest, 0); }
    } else {
      var k := IndexOf(d.rest, x);
      RingNeighbours(m, d.p, d.rest, k);
      RingNodesDiffer(d.p, d.rest, k, k + 1);
    }
  }

  /** Only the root's own chunks are reached from the root's slot. */
  lemma {:induction false} ParentAbove(t: Tree, lo: int, k: nat, s: int, h: int)
    requires Apart(t) && Down(t, lo, k, s).Node? && Down(t, lo, k, s).p != t.p
    ensures DownParent(t, lo, k, s, h) in Elems(t) && DownParent(t, lo, k, s, h) !in Elems(Down(t, lo, k, s))
    decreases t
  {
    RestHere(t);
    var right := s >= lo + Pow2(k);
    var side, lo' := if right then t.r else t.l, if right then lo + Pow2(k) else lo;
    assert Down(t, lo, k, s) == Down(side, lo', k - 1, s)
      && DownParent(t, lo, k, s, h) == DownParent(side, lo', k - 1, s, t.p);
    DownSubset(side, lo', k - 1, s);
    if side.Node? && Down(side, lo', k - 1, s).p != side.p {
      ParentAbove(side, lo', k - 1, s, t.p);
    } else {
      RestHere(side);
      RootParent(side, lo', k - 1, s, t.p);
    }
  }

  lemma RootParent(t: Tree, lo: int, k: nat, s: int, h: int)
    requires Apart(t) && Down(t, lo, k, s).Node? && Down(t, lo, k, s).p == t.p
    ensures DownParent(t, lo, k, s, h) == h
  {
    if !(t.Nil? || t.sz == s || k == 0) {
      if s < lo + Pow2(k) {
        DownSubset(t.l, lo, k - 1, s);
        RestHere(Down(t.l, lo, k - 1, s));
      } else {
        DownSubset(t.r, lo + Pow2(k), k - 1, s);
        RestHere(Down(t.r, lo + Pow2(k), k - 1, s));
      }
      RestHere(t);
    }
  }

  // ----- the words insert_large_chunk reads and stores to

  lemma ReadLargeInsert(s: State, g: Segment, loose: set<int>, x: int)
    requires Good(s, g, loose) && x in loose && s.h[x].size >= 256
    ensures var i, sz := ComputeTreeIndex(s.h[x].size), s.h[x].size;
            && sz < WORD && 0 <= i < 32 && |s.b.tree| == 32 && Fits(sz, RootLo(i), RootK(i))
            && BitsAt(sz * Pow2(LeftShift(i)) % WORD, sz, RootLo(i), RootK(i))
            && var t, bin, m1 := s.b.tree[i], TreeBin(g.first + 8, i), Cleared(s.m, x, i);
               && Walking(m1, Binned(s.h, s.dv, loose), Tops(t), Rd(m1, bin), RootPlace(t, i))
               && (Marked(s.treemap, i) <==> t.Node?) && bin in s.m && bin >= g.first
               && InsertMapped(m1, t, i, sz, bin, g.first)
    ensures NodeMapped(s.m, x)
  {
    hide BinsRep, Tagged, WholeSegment, DvOK, Cleared, Walking, BitsAt, Pow2, LeftShift, InsertMapped, TreeAt, Tiled;
    ReadChunk(s, g, x);
    RootBits(s.h[x].size);
    RootFits(s.h[x].size);
    var i := ComputeTreeIndex(s.h[x].size);
    ReadTreeBin(s, g, loose, i);
    LargeMapped(s, g, loose, x);
    ClearedTree(s, g, loose, x, i, s.b.tree[i]);
    InsertWords(s, g, loose, x, i, s.b.tree[i], s.h[x].size);
  }

  /** Where an insertion of size `sz` stores besides the new chunk: the slot it hangs from, or
      the chunk it is chained to and that one's neighbour. */
  ghost predicate InsertMapped(m: Mem, t: Tree, i: nat, sz: int, bin: int, first: int) {
    var d := Reached(t, i, sz);
    if d.Nil? then var a := ReachedSlot(t, i, sz, bin); a in m && a >= first
    else d.p + FD in m && Fd(m, d.p) + BK in m && d.p >= first && Fd(m, d.p) >= first
  }

  lemma ClearedTree(s: State, g: Segment, loose: set<int>, x: int, i: nat, t: Tree)
    requires Good(s, g, loose) && x in loose && s.h[x].size >= 256 && i < 32 && |s.b.tree| == 32 && t == s.b.tree[i]
    ensures var bin, m1 := TreeBin(g.first + 8, i), Cleared(s.m, x, i);
            Walking(m1, Binned(s.h, s.dv, loose), Tops(t), Rd(m1, bin), RootPlace(t, i)) && Rd(m1, bin) == Rd(s.m, bin)
    ensures TreeRep(Cleared(s.m, x, i), t, TreeBin(g.first + 8, i), i)
  {
    hide BinsRep, Tagged, WholeSegment, DvOK, Pow2, Trie, Sized, Elems, Spaced, Tiled;
    ReadTreeBin(s, g, loose, i);
    ReadChunk(s, g, x);
    ClearedReads(s.m, x, i);
    var m1 := Cleared(s.m, x, i);
    forall q | q in Elems(t)
      ensures SameNode(s.m, m1, q)
    {
      ChunksSep(s, g, loose, q, x);
    }
    TreeFrame(s.m, m1, t, TreeBin(g.first + 8, i), i);
    RepHolds(m1, t, TreeBin(g.first + 8, i), i);
  }

  lemma ChunksSep(s: State, g: Segment, loose: set<int>, q: int, x: int)
    requires HeapOK(s, g) && q in Binned(s.h, s.dv, loose) && x in loose && x in s.h && s.h[q].size >= 256
    requires s.h[x].size >= 256
    ensures Sep(q, x)
  {
    hide Tagged, WholeSegment, DvOK;
    assert q != x;
    if q < x { assert q + s.h[q].size <= x; } else { assert x + s.h[x].size <= q; }
  }

  lemma InsertWords(s: State, g: Segment, loose: set<int>, x: int, i: nat, t: Tree, sz: int)
    requires Good(s, g, loose) && x in loose && x in s.h && s.h[x].size >= 256 && i < 32 && |s.b.tree| == 32
    requires t == s.b.tree[i]
    requires Fits(sz, RootLo(i), RootK(i))
    ensures InsertMapped(Cleared(s.m, x, i), t, i, sz, TreeBin(g.first + 8, i), g.first)
  {
    hide Good, Pow2, Down, DownSlot, DownParent, Fits, Cleared, TreeBin;
    if Reached(t, i, sz).Nil? {
      LeafWordMapped(s, g, loose, i, t, sz, TreeBin(g.first + 8, i));
      ClearedKeys(s.m, x, i);
    } else {
      ChainWordsMapped(s, g, loose, x, i, t, sz);
    }
  }

  lemma ClearedKeys(m: Mem, x: int, i: int)
    ensures forall a :: a in m ==> a in Cleared(m, x, i)
  {
  }

  lemma LeafWordMapped(s: State, g: Segment, loose: set<int>, i: nat, t: Tree, sz: int, bin: int)
    requires Good(s, g, loose) && i < 32 && |s.b.tree| == 32 && t == s.b.tree[i] && bin == TreeBin(g.first + 8, i)
    ensures ReachedSlot(t, i, sz, bin) in s.m && ReachedSlot(t, i, sz, bin) >= g.first
  {
    hide BinsRep, Tagged, WholeSegment, DvOK, Pow2, DownSlot, DownParent, TreeAt, Walking, Tiled, Aligned8, BinsOK,
      Elems, RootK, HeapOK;
    ReadTreeBin(s, g, loose, i);
    FirstBound(s, g);
    var a, y := ReachedPlace(t, i, sz, bin);
    if a != bin { LargeMapped(s, g, loose, y); }
  }

  lemma ChainWordsMapped(s: State, g: Segment, loose: set<int>, x: int, i: nat, t: Tree, sz: int)
    requires Good(s, g, loose) && x in loose && x in s.h && s.h[x].size >= 256 && i < 32 && |s.b.tree| == 32
    requires t == s.b.tree[i]
    requires Reached(t, i, sz).Node?
    ensures var d, m1 := Reached(t, i, sz), Cleared(s.m, x, i);
            d.p + FD in m1 && Fd(m1, d.p) + BK in m1 && d.p >= g.first && Fd(m1, d.p) >= g.first
  {
    hide BinsRep, Tagged, WholeSegment, DvOK, Pow2, Trie, Sized, Elems, Spaced, Tiled, Down, TreeRep, Binned, Aligned8,
      Cleared;
    var m1, d := Cleared(s.m, x, i), Reached(t, i, sz);
    ReadTreeBin(s, g, loose, i);
    ClearedTree(s, g, loose, x, i, t);
    ReachedNeighbour(m1, t, RootLo(i), RootK(i), TreeBin(g.first + 8, i), i, Binned(s.h, s.dv, loose), sz);
    ClearedKeys(s.m, x, i);
    LargeMapped(s, g, loose, d.p);
    LargeMapped(s, g, loose, Fd(m1, d.p));
    ReadChunk(s, g, d.p);
    ReadChunk(s, g, Fd(m1, d.p));
  }

  lemma ReachedNeighbour(m: Mem, t: Tree, lo: int, k: nat, bin: int, i: int, inv: Inventory, sz: int)
    requires TreeRep(m, t, bin, i) && Rd(m, bin) == Ptr(t) && Trie(t, lo, k) && Sized(t, inv)
    requires Down(t, lo, k, sz).Node?
    ensures var d := Down(t, lo, k, sz); d.p in Elems(t) && Fd(m, d.p) in Elems(t)
  {
    hide Trie;
    var d := Down(t, lo, k, sz);
    DownSubset(t, lo, k, sz);
    DownRep(m, t, lo, k, sz, bin, bin, i);
    DownSized(t, lo, k, sz, inv);
    RestHere(d);
    NodeLinks(m, d, DownParent(t, lo, k, sz, bin), i, d.p, inv);
  }
}
