/** The DEBUG checkers of the heap: every assertion in them holds in every valid state, and
    traversing the segment accounts for each of its bytes. */
module HeapChecks {
  import opened Machine
  import opened BinIndex
  import opened Words
  import opened Rings
  import opened Tries
  import opened TreeWords
  import opened TreeUnlink
  import opened Bins
  import opened Chunks
  import opened HeapState
  import opened HeapReads
  import opened BestFits
  import opened TreeWalks
  import opened Requests
  import opened Mspace

  // ----- bin_find

  /** The ring walks of bin_find: from `b`, along fd words, back to `b`. */
  method InRing(m: Mem, b: int, x: int, ghost s: seq<int>) returns (found: bool)
    requires Ring(m, b, s) && Distinct(b, s)
    ensures found <==> x == b || x in s
  {
    var p := b;
    ghost var k := 0;
    while true
      invariant 0 <= k <= |s| && p == At(b, s, k) && forall j :: 0 <= j < k ==> At(b, s, j) != x
      decreases |s| - k
    {
      if p == x {
        assert k > 0 ==> s[k - 1] == x;
        return true;
      }
      assert Link(m, b, s, k);
      p := Fd(m, p);
      k := k + 1;
      if p == b {
        forall j | 0 <= j < |s|
          ensures s[j] != x
        {
          assert At(b, s, j + 1) != x;
        }
        return false;
      }
    }
  }

  /** The descent of bin_find to the node of size `s`. */
  method FindNode(m: Mem, root: int, s: int, bits: int, ghost c0: Place, ghost inv: map<int, int>, ghost all: set<int>)
    returns (t: int)
    requires Walking(m, inv, all, root, c0) && Fits(s, c0.lo, c0.k) && BitsAt(bits, s, c0.lo, c0.k)
    ensures t == Ptr(Down(c0.t, c0.lo, c0.k, s)) && (t == 0 <==> Down(c0.t, c0.lo, c0.k, s).Nil?)
  {
    hide Walking, Holds, Trie, Sized, Elems, BitsAt, Pow2, OnPath, Down, DownSlot, DownParent, Fits, LeftPlace,
      RightPlace;
    t := root;
    var sizebits := bits;
    ghost var c, slot, parent := c0, 0, 0;
    assert OnPath(c0, s, 0, c, slot, parent) by { PathStart(c0, s, 0); }
    PtrOf2(m, inv, all, t, c);
    while t != 0 && SizeOf(Head(m, t)) != s
      invariant Walking(m, inv, all, t, c) && Fits(s, c.lo, c.k) && BitsAt(sizebits, s, c.lo, c.k)
      invariant OnPath(c0, s, 0, c, slot, parent)
      invariant t == Ptr(c.t) && (t == 0 <==> c.t.Nil?)
      decreases c.t
    {
      WalkOn(m, inv, all, t, c);
      PathStep(m, inv, all, c0, s, 0, t, c, slot, parent, sizebits);
      Smaller(c);
      slot, parent := t + if TopBit(sizebits) == 0 then LEFT else RIGHT, t;
      c := if TopBit(sizebits) == 0 then LeftPlace(c) else RightPlace(c);
      t := if TopBit(sizebits) == 0 then Left(m, t) else Right(m, t);
      sizebits := ShiftOut(sizebits);
      PtrOf2(m, inv, all, t, c);
    }
    if t != 0 { WalkOn(m, inv, all, t, c); }
    PathEnd(c0, s, 0, c, slot, parent);
  }

  lemma PtrOf2(m: Mem, inv: map<int, int>, all: set<int>, p: int, c: Place)
    requires Walking(m, inv, all, p, c)
    ensures p == Ptr(c.t) && (p == 0 <==> c.t.Nil?)
  {
  }

  /** bin_find finds exactly the chunks that are in a bin. */
  method BinFind(msp: Mspace, x: int) returns (found: bool)
    requires msp.Valid() && 0 < SizeOf(Head(msp.mem, x)) < WORD && SizeOf(Head(msp.mem, x)) % 8 == 0
    requires x <= msp.base || x >= msp.base + MSIZE
    ensures found <==> x in Binned(msp.h, msp.dv, {})
  {
    hide HeapOK, BinsOK, Marked, Binned, Ring, Distinct, Walking, Fits, BitsAt, Down, Pow2, LeftShift, ComputeTreeIndex,
      TreeAt, Here, Elems;
    var size := SizeOf(Head(msp.mem, x));
    if x in Binned(msp.h, msp.dv, {}) { msp.ReadMember(msp.St(), msp.Seg(), {}, x); }
    if size < 256 {
      var i := size / 8;
      var b := SmallBin(msp.Ms(), i);
      ReadSmallBin(msp.St(), msp.Seg(), {}, i);
      if x in Binned(msp.h, msp.dv, {}) { var i0, k := SmallMember(msp.St(), msp.Seg(), {}, x); }
      if Marked(msp.smallmap, i) {
        found := InRing(msp.mem, b, x, msp.b.small[i]);
      } else {
        found := false;
      }
    } else {
      var i := ComputeTreeIndex(size);
      TreeIndexBounds(size);
      RootBits(size);
      RootFits(size);
      ReadTreeBin(msp.St(), msp.Seg(), {}, i);
      if x in Binned(msp.h, msp.dv, {}) { var i0, d := LargeNode(msp.St(), msp.Seg(), {}, x); }
      ghost var t := msp.b.tree[i];
      NodeRing(msp.St(), msp.Seg(), i, size);
      found := false;
      if Marked(msp.treemap, i) {
        var u := FindNode(msp.mem, Rd(msp.mem, TreeBin(msp.Ms(), i)), size, size * Pow2(LeftShift(i)) % WORD,
          RootPlace(t, i),
                          Binned(msp.h, msp.dv, {}), Tops(t));
        if u != 0 {
          found := InRing(msp.mem, u, x, Reached(t, i, size).rest);
        }
      } else {
        NilReached(t, i, size);
      }
    }
  }

  lemma NilReached(t: Tree, i: nat, s: int)
    ensures t.Nil? ==> Reached(t, i, s).Nil?
  {
  }

  /** The chunks of the node a search reaches form a ring and are binned. */
  lemma NodeRing(s: State, g: Segment, i: nat, size: int)
    requires Good(s, g, {}) && i < 32 && Fits(size, RootLo(i), RootK(i)) && |s.b.tree| == 32
    ensures var d := Reached(s.b.tree[i], i, size);
            d.Node? ==> && Ring(s.m, d.p, d.rest) && Distinct(d.p, d.rest)
                        && (forall q :: q == d.p || q in d.rest <==> q in Here(d))
                        && (forall q :: q in Here(d) ==> q in Binned(s.h, s.dv, {}))
  {
    hide HeapOK, BinsOK, Walking, Trie, Fits, Pow2, Down, Spaced;
    var t := s.b.tree[i];
    ReadTreeBin(s, g, {}, i);
    NodeContext(s.m, t, RootLo(i), RootK(i), TreeBin(g.first + 8, i), i, Binned(s.h, s.dv, {}), size);
    var d := Reached(t, i, size);
    if d.Node? { RestHere(d); }
  }

  // ----- chunks

  const FENCEPOST_HEAD: int := 7

  /** is_mmapped */
  predicate IsMmapped(m: Mem, p: int) { !PInUse(Head(m, p)) && Foot(m, p) % 2 == 1 }

  /** do_check_any_chunk */
  method CheckAnyChunk(msp: Mspace, p: int)
    requires msp.Valid() && p in msp.h
  {
    hide BinsOK;
    ReadChunk(msp.St(), msp.Seg(), p);
    assert (p + 8) % 8 == 0;
    assert msp.OkAddress(p);
  }

  /** do_check_inuse_chunk */
  method CheckInuseChunk(msp: Mspace, p: int)
    requires msp.Valid() && p in msp.h && msp.h[p].used
  {
    hide BinsOK, Tiled, Tagged, WholeSegment;
    var m := msp.mem;
    CheckAnyChunk(msp, p);
    ReadChunk(msp.St(), msp.Seg(), p);
    ReadTop(msp.St(), msp.Seg());
    var next := p + SizeOf(Head(m, p));
    if next != msp.top { ReadChunk(msp.St(), msp.Seg(), next); }
    assert CInUse(Head(m, p));
    assert PInUse(Head(m, next));
    if !PInUse(Head(m, p)) {
      FirstHasPin(msp.St(), msp.Seg());
      var prev := ReadPreviousOf(msp.St(), msp.Seg(), p);
      assert !IsMmapped(m, p) && p - Foot(m, p) + SizeOf(Head(m, p - Foot(m, p))) == p;
    }
  }

  lemma FirstHasPin(s: State, g: Segment)
    requires HeapOK(s, g)
    ensures g.first in s.h && s.h[g.first] == Chunk(MSIZE, true, true)
  {
  }

  lemma ReadPreviousOf(s: State, g: Segment, n: int) returns (p: int)
    requires HeapOK(s, g) && n in s.h && n != g.first && !s.h[n].pin
    ensures p == n - Foot(s.m, n) && p + SizeOf(Head(s.m, p)) == n && Foot(s.m, n) % 8 == 0
  {
    hide Tiled, Tagged, WholeSegment;
    p := ReadPrevious(s, g, n);
    ReadChunk(s, g, p);
  }

  /** do_check_free_chunk */
  method CheckFreeChunk(msp: Mspace, p: int)
    requires msp.Valid() && p in msp.h && !msp.h[p].used
  {
    hide HeapOK, BinsOK, Binned;
    var m := msp.mem;
    var sz := SizeOf(Head(m, p));
    var next := p + sz;
    CheckAnyChunk(msp, p);
    ReadChunk(msp.St(), msp.Seg(), p);
    ReadFoot(msp.St(), msp.Seg(), p);
    ReadChunk(msp.St(), msp.Seg(), next);
    assert !CInUse(Head(m, p));
    assert !PInUse(Head(m, next));
    assert !IsMmapped(m, p);
    if p != msp.dv && p != msp.top {
      FreeCases(msp.St(), msp.Seg(), p);
      BinLinks(msp.St(), msp.Seg(), p);
      assert sz >= MIN_CHUNK_SIZE && sz % 8 == 0;
      assert Foot(m, next) == sz;
      assert PInUse(Head(m, p));
      assert next == msp.top || CInUse(Head(m, next));
      assert Bk(m, Fd(m, p)) == p;
      assert Fd(m, Bk(m, p)) == p;
    }
  }

  /** The neighbours of a binned chunk point back to it. */
  lemma BinLinks(s: State, g: Segment, p: int)
    requires Good(s, g, {}) && p in Binned(s.h, s.dv, {})
    ensures Bk(s.m, Fd(s.m, p)) == p && Fd(s.m, Bk(s.m, p)) == p
  {
    hide HeapOK, BinsOK, Fits, Pow2, TreeAt, Walking, Down, Here, Ring;
    BinnedFacts(s, g, p);
    if s.h[p].size < 256 {
      var i, k := SmallMember(s, g, {}, p);
      ReadSmallBin(s, g, {}, i);
      RingBack(s.m, SmallBin(g.first + 8, i), s.b.small[i], k + 1);
    } else {
      var i, d := LargeNode(s, g, {}, p);
      NodeRing(s, g, i, s.h[p].size);
      if p == d.p { RingBack(s.m, d.p, d.rest, 0); } else { RingBack(s.m, d.p, d.rest, IndexOf(d.rest, p) + 1); }
    }
  }

  lemma BinnedFacts(s: State, g: Segment, p: int)
    requires Good(s, g, {}) && p in Binned(s.h, s.dv, {})
    ensures p in s.h && !s.h[p].used
  {
  }

  lemma RingBack(m: Mem, b: int, s: seq<int>, k: nat)
    requires Ring(m, b, s) && k <= |s|
    ensures var p := At(b, s, k); Bk(m, Fd(m, p)) == p && Fd(m, Bk(m, p)) == p
  {
    assert Link(m, b, s, k);
    assert Link(m, b, s, if k == 0 then |s| else k - 1);
  }

  /** segment_holds, with the 32-bit end address of the segment. */
  predicate SegmentHolds(msp: Mspace, q: int)
    reads msp
  {
    msp.base <= q < msp.limit % WORD
  }

  /** do_check_top_chunk. The result is its first assertion, that a segment holds top: it fails
      exactly for a segment that ends at 2^32. */
  method CheckTopChunk(msp: Mspace) returns (held: bool)
    requires msp.Valid()
    ensures held <==> msp.limit < WORD
  {
    hide HeapOK, BinsOK, Head, PInUse, SizeOf;
    TopWord(msp.St(), msp.Seg());
    msp.AboveFirst(msp.St(), msp.Seg());
    if msp.limit < WORD { BelowWord(msp.limit); }
    held := SegmentHolds(msp, msp.top);
    var m, p := msp.mem, msp.top;
    var sz := SizeOf(Head(m, p));
    ghost var mem0 := EightSum(p, 8);
    assert mem0 % 8 == 0 && msp.OkAddress(p);
    assert sz == msp.topsize && sz > 0;
    assert sz == msp.limit - p - TOP_FOOT_SIZE;
    assert PInUse(Head(m, p)) && !PInUse(Head(m, p + sz));
  }

  lemma BelowWord(x: int)
    requires 0 <= x < WORD
    ensures x % WORD == x
  {
  }

  /** A new mspace at the very end of the addresses: its own top chunk fails the check. */
  method LastSegment() returns (held: bool)
    ensures !held
  {
    hide BinsOK, Tiled;
    var m0 := map a | WORD - 0x1000 <= a < WORD && a % 4 == 0 :: 0;
    var msp := new Mspace(m0, WORD - 0x1000, 0x1000);
    held := CheckTopChunk(msp);
  }

  // ----- traversing the segment

  /** traverse_and_check: all of its assertions hold, and the total is the whole segment. Of a segment
      that ends at 2^32 it sees nothing but top. */
  method TraverseAndCheck(msp: Mspace) returns (sum: int)
    requires msp.Valid()
    ensures sum == if msp.limit < WORD then msp.limit - msp.base else msp.topsize + TOP_FOOT_SIZE
  {
    hide BinsOK, Binned, Tiled, Tagged, WholeSegment, Head, CInUse, PInUse, SizeOf;
    var m := msp.mem;
    sum := msp.topsize + TOP_FOOT_SIZE;
    var q, lastq := msp.base, 0;
    FirstHasPin(msp.St(), msp.Seg());
    ReadChunk(msp.St(), msp.Seg(), q);
    ReadTop(msp.St(), msp.Seg());
    assert PInUse(Head(m, q));
    TopWord(msp.St(), msp.Seg());
    while SegmentHolds(msp, q) && q != msp.top && Head(m, q) != FENCEPOST_HEAD
      invariant q == msp.top || q in msp.h
      invariant sum == msp.topsize + TOP_FOOT_SIZE + (q - msp.base) && msp.base <= q <= msp.top
      invariant msp.limit == WORD ==> q == msp.base
      invariant lastq == 0 || (lastq in msp.h && Next(msp.h, lastq) == q)
      decreases msp.top - q
    {
      ReadChunk(msp.St(), msp.Seg(), q);
      sum := sum + SizeOf(Head(m, q));
      if CInUse(Head(m, q)) {
        var found := BinFind(msp, q);
        UsedNotBinned(msp.h, msp.dv, q);
        assert !found;
        CheckInuseChunk(msp, q);
      } else {
        var found := BinFind(msp, q);
        FreeCases(msp.St(), msp.Seg(), q);
        assert q == msp.dv || found;
        if lastq != 0 {
          ReadChunk(msp.St(), msp.Seg(), lastq);
          assert CInUse(Head(m, lastq));
        }
        CheckFreeChunk(msp, q);
      }
      lastq := q;
      q := q + SizeOf(Head(m, q));
    }
    if q != msp.top && msp.limit < WORD { NotFencepost(msp.St(), msp.Seg(), q); }
  }

  lemma UsedNotBinned(h: Heap, dv: int, q: int)
    requires q in h && h[q].used
    ensures q !in Binned(h, dv, {})
  {
  }

  lemma NotFencepost(s: State, g: Segment, q: int)
    requires HeapOK(s, g) && q in s.h
    ensures Head(s.m, q) != FENCEPOST_HEAD && g.first <= q < g.limit
  {
    hide Tiled, Tagged, WholeSegment;
    ReadChunk(s, g, q);
    HeadWordFields(s.h[q].size, s.h[q].pin, s.h[q].used);
  }

  // ----- bins

  /** do_check_smallbin */
  method CheckSmallBin(msp: Mspace, i: nat)
    requires msp.Valid() && i < 32
  {
    hide HeapOK, BinsOK, Binned, Marked;
    var m, b := msp.mem, SmallBin(msp.Ms(), i);
    var p := Bk(m, b);
    var empty := !Marked(msp.smallmap, i);
    ReadSmallBin(msp.St(), msp.Seg(), {}, i);
    ghost var ring := msp.b.small[i];
    if ring != [] { RingEnds(m, b, ring); }
    if p == b { assert empty; }
    if !empty {
      ghost var k := |ring|;
      while p != b
        invariant 0 <= k <= |ring| && p == At(b, ring, k) && (p == b <==> k == 0)
        decreases k
      {
        var size := SizeOf(Head(m, p));
        BinnedFacts(msp.St(), msp.Seg(), p);
        ReadChunk(msp.St(), msp.Seg(), p);
        CheckFreeChunk(msp, p);
        RingNeighbours(m, b, ring, k - 1);
        RingNodesDiffer(b, ring, k - 1, k);
        assert size / 8 == i;
        if Bk(m, p) != b {
          BinnedFacts(msp.St(), msp.Seg(), Bk(m, p));
          ReadChunk(msp.St(), msp.Seg(), Bk(m, p));
          assert SizeOf(Head(m, Bk(m, p))) == size;
        }
        var q := p + size;
        if Head(m, q) != FENCEPOST_HEAD { CheckInuseChunk(msp, q); }
        p, k := Bk(m, p), k - 1;
      }
    }
  }

  /** do_check_tree: `parent` is the word that X->parent of the root chunk must hold. */
  method CheckTree(msp: Mspace, t: int, ghost tree: Tree, ghost lo: int, ghost k: nat, ghost parent: int, ghost i: nat)
    requires msp.Valid() && tree.Node? && t == tree.p && TreePart(msp.St(), tree, lo, k, parent, i)
    requires parent != tree.p && (Left(msp.mem, parent) == t || Right(msp.mem, parent) == t || Rd(msp.mem, parent) == t)
    decreases tree
  {
    hide HeapOK, BinsOK, Binned, Trie, Sized, TreeRep, ComputeTreeIndex, MinSize, TreePart;
    var m := msp.mem;
    TreeReads(msp.St(), msp.Seg(), tree, lo, k, parent, i);
    var tindex, tsize := Index(m, t), SizeOf(Head(m, t));
    var idx := ComputeTreeIndex(tsize);
    TreeIndexBounds(tsize);
    assert tindex == idx && tsize >= 256 && tsize >= MinSize(idx) && (idx == NTREEBINS - 1 || tsize < MinSize(idx + 1));
    var u, head := t, 0;
    ghost var j := 0;
    while true
      invariant 0 <= j <= |tree.rest| && u == At(tree.p, tree.rest, j) && (head == if j == 0 then 0 else t)
      decreases |tree.rest| - j
    {
      NodeChunk(msp.St(), msp.Seg(), tree, lo, k, parent, i, u, j);
      ReadChunk(msp.St(), msp.Seg(), u);
      CheckAnyChunk(msp, u);
      ReadChunk(msp.St(), msp.Seg(), u + SizeOf(Head(m, u)));
      assert Index(m, u) == tindex && SizeOf(Head(m, u)) == tsize && !CInUse(Head(m, u))
        && !PInUse(Head(m, u + SizeOf(Head(m, u))));
      BinLinks(msp.St(), msp.Seg(), u);
      assert Bk(m, Fd(m, u)) == u && Fd(m, Bk(m, u)) == u;
      if Parent(m, u) == 0 {
        assert Left(m, u) == 0 && Right(m, u) == 0;
      } else {
        assert head == 0;
        head := u;
        assert Parent(m, u) != u;
        assert Left(m, Parent(m, u)) == u || Right(m, Parent(m, u)) == u || Rd(m, Parent(m, u)) == u;
        if Left(m, u) != 0 {
          LeftPart(msp.St(), msp.Seg(), tree, lo, k, parent, i);
          assert Parent(m, Left(m, u)) == u && Left(m, u) != u;
          CheckTree(msp, Left(m, u), tree.l, lo, k - 1, u, i);
        }
        if Right(m, u) != 0 {
          RightPart(msp.St(), msp.Seg(), tree, lo, k, parent, i);
          assert Parent(m, Right(m, u)) == u && Right(m, u) != u;
          CheckTree(msp, Right(m, u), tree.r, lo + Pow2(k), k - 1, u, i);
        }
        if Left(m, u) != 0 && Right(m, u) != 0 {
          SidesOrdered(msp.St(), msp.Seg(), tree, lo, k, parent, i);
          assert SizeOf(Head(m, Left(m, u))) < SizeOf(Head(m, Right(m, u)));
        }
      }
      NextInRing(msp.St(), tree, lo, k, parent, i, j);
      u, j := Fd(m, u), j + 1;
      if u == t { break; }
    }
    assert head != 0;
  }

  /** A subtree of tree bin `i` as a part of state `s`. */
  ghost predicate TreePart(s: State, t: Tree, lo: int, k: nat, parent: int, i: nat) {
    && i < 32 && parent != 0 && Trie(t, lo, k) && Sized(t, Binned(s.h, s.dv, {})) && TreeRep(s.m, t, parent, i)
    && forall q :: q in Elems(t) ==>
       q in Binned(s.h, s.dv, {}) && q in s.h && s.h[q].size >= 256 && ComputeTreeIndex(s.h[q].size) == i && q > 0
  }

  lemma TreeReads(s: State, g: Segment, t: Tree, lo: int, k: nat, parent: int, i: nat)
    requires Good(s, g, {}) && t.Node? && TreePart(s, t, lo, k, parent, i)
    ensures Index(s.m, t.p) == i && SizeOf(Head(s.m, t.p)) == t.sz && ComputeTreeIndex(t.sz) == i && 256 <= t.sz < WORD
    ensures t.p > 0 && parent != 0
  {
    hide HeapOK, BinsOK, Trie, ComputeTreeIndex;
    RestHere(t);
    assert t.p in Elems(t);
    ReadChunk(s, g, t.p);
  }

  lemma NodeChunk(s: State, g: Segment, t: Tree, lo: int, k: nat, parent: int, i: nat, u: int, j: nat)
    requires Good(s, g, {}) && t.Node? && TreePart(s, t, lo, k, parent, i) && j <= |t.rest| && u == At(t.p, t.rest, j)
    ensures u in s.h && !s.h[u].used && s.h[u].size == t.sz && u in Binned(s.h, s.dv, {}) && Index(s.m, u) == i
    ensures if j == 0 then u == t.p && Parent(s.m, u) == parent && Left(s.m, u) == Ptr(t.l) && Right(s.m, u) == Ptr(t.r)
            else u != t.p && Parent(s.m, u) == 0 && Left(s.m, u) == 0 && Right(s.m, u) == 0
  {
    hide HeapOK, BinsOK, Trie, ComputeTreeIndex;
    RestHere(t);
    assert Distinct(t.p, t.rest);
    if j > 0 { assert u in t.rest; }
    assert u in Here(t) && u in Elems(t);
  }

  lemma NextInRing(s: State, t: Tree, lo: int, k: nat, parent: int, i: nat, j: nat)
    requires t.Node? && TreePart(s, t, lo, k, parent, i) && j <= |t.rest|
    ensures Fd(s.m, At(t.p, t.rest, j)) == At(t.p, t.rest, j + 1) && (At(t.p, t.rest, j + 1) == t.p <==> j == |t.rest|)
  {
    hide Trie, ComputeTreeIndex;
    assert Link(s.m, t.p, t.rest, j);
    assert Distinct(t.p, t.rest);
  }

  lemma ChildWords(m: Mem, t: Tree, parent: int, bin: int)
    requires TreeRep(m, t, parent, bin) && t.Node?
    ensures Parent(m, t.p) == parent && SizeOf(Head(m, t.p)) == t.sz
  {
    RestHere(t);
  }

  lemma LeftPart(s: State, g: Segment, t: Tree, lo: int, k: nat, parent: int, i: nat)
    requires Good(s, g, {}) && t.Node? && TreePart(s, t, lo, k, parent, i) && Left(s.m, t.p) != 0
    ensures k > 0 && t.l.Node? && Left(s.m, t.p) == t.l.p && Parent(s.m, t.l.p) == t.p && t.l.p != t.p
    ensures TreePart(s, t.l, lo, k - 1, t.p, i)
  {
    hide HeapOK, BinsOK, ComputeTreeIndex, Elems, Here, Sizes;
    ChildPlaces(t, lo, k);
    SubPart(s, t, lo, k, parent, i, t.l, lo, k - 1);
  }

  lemma RightPart(s: State, g: Segment, t: Tree, lo: int, k: nat, parent: int, i: nat)
    requires Good(s, g, {}) && t.Node? && TreePart(s, t, lo, k, parent, i) && Right(s.m, t.p) != 0
    ensures k > 0 && t.r.Node? && Right(s.m, t.p) == t.r.p && Parent(s.m, t.r.p) == t.p && t.r.p != t.p
    ensures TreePart(s, t.r, lo + Pow2(k), k - 1, t.p, i)
  {
    hide HeapOK, BinsOK, ComputeTreeIndex, Elems, Here, Sizes;
    ChildPlaces(t, lo, k);
    SubPart(s, t, lo, k, parent, i, t.r, lo + Pow2(k), k - 1);
  }

  lemma SubPart(s: State, t: Tree, lo: int, k: nat, parent: int, i: nat, side: Tree, lo': int, k': nat)
    requires t.Node? && TreePart(s, t, lo, k, parent, i) && side.Node? && (side == t.l || side == t.r)
    requires Trie(side, lo', k') && Sized(side, Binned(s.h, s.dv, {})) && TreeRep(s.m, side, t.p, i)
    ensures TreePart(s, side, lo', k', t.p, i) && Parent(s.m, side.p) == t.p && side.p != t.p
  {
    hide ComputeTreeIndex, Trie, Sized, TreeRep, Binned, Sizes;
    assert side.p != t.p && Elems(side) <= Elems(t) && t.p in Elems(t) by {
      SidesDisjoint(t, lo, k, Binned(s.h, s.dv, {}));
      RestHere(t);
      RestHere(side);
    }
    ChildWords(s.m, side, t.p, i);
  }

  /** The left child is smaller than the right one. */
  lemma SidesOrdered(s: State, g: Segment, t: Tree, lo: int, k: nat, parent: int, i: nat)
    requires Good(s, g, {}) && t.Node? && TreePart(s, t, lo, k, parent, i) && t.l.Node? && t.r.Node?
    ensures SizeOf(Head(s.m, t.l.p)) < SizeOf(Head(s.m, t.r.p))
  {
    hide HeapOK, BinsOK, ComputeTreeIndex;
    ChildWords(s.m, t.l, t.p, i);
    ChildWords(s.m, t.r, t.p, i);
    SizesInRange(t.l, lo, k - 1, t.l.sz);
    SizesInRange(t.r, lo + Pow2(k), k - 1, t.r.sz);
  }

  /** do_check_treebin */
  method CheckTreeBin(msp: Mspace, i: nat)
    requires msp.Valid() && i < 32
  {
    hide HeapOK, BinsOK, Marked, Walking;
    var tb := TreeBin(msp.Ms(), i);
    var t := Rd(msp.mem, tb);
    var empty := !Marked(msp.treemap, i);
    ReadTreeBin(msp.St(), msp.Seg(), {}, i);
    if t == 0 { assert empty; }
    if !empty {
      RootPart(msp.St(), msp.Seg(), i);
      CheckTree(msp, t, msp.b.tree[i], RootLo(i), RootK(i), tb, i);
    }
  }

  lemma RootPart(s: State, g: Segment, i: nat)
    requires Good(s, g, {}) && i < 32 && |s.b.tree| == 32 && s.b.tree[i].Node?
    ensures var t, tb := s.b.tree[i], TreeBin(g.first + 8, i);
            && TreePart(s, t, RootLo(i), RootK(i), tb, i) && Rd(s.m, tb) == t.p && tb != t.p
  {
    hide HeapOK, BinsOK, Walking, Trie, Sized, TreeRep, Spaced, Pow2, Rd, ComputeTreeIndex, Here;
    ReadTreeBin(s, g, {}, i);
    FirstBound(s, g);
    var t := s.b.tree[i];
    RestHere(t);
    assert t.p in Elems(t);
    forall q | q in Elems(t)
      ensures q > 0
    {
      ReadChunk(s, g, q);
    }
    ReadChunk(s, g, t.p);
  }

  /** do_check_malloc_state: none of its assertions, nor of the functions it calls, can fail, and
      the traversal accounts for the whole footprint, unless the segment ends at 2^32. */
  method CheckMallocState(msp: Mspace) returns (total: int, held: bool)
    requires msp.Valid()
    ensures held <==> msp.limit < WORD
    ensures total == if msp.limit < WORD then msp.limit - msp.base else msp.topsize + TOP_FOOT_SIZE
  {
    hide HeapOK, BinsOK, Binned;
    held := true;
    msp.AboveFirst(msp.St(), msp.Seg());
    for i := 0 to NSMALLBINS { CheckSmallBin(msp, i); }
    for i := 0 to NTREEBINS { CheckTreeBin(msp, i); }
    VictimSize(msp.St(), msp.Seg());
    ReadTop(msp.St(), msp.Seg());
    TopWord(msp.St(), msp.Seg());
    if msp.dvsize != 0 {
      CheckAnyChunk(msp, msp.dv);
      ReadChunk(msp.St(), msp.Seg(), msp.dv);
      assert msp.dvsize == SizeOf(Head(msp.mem, msp.dv)) && msp.dvsize >= MIN_CHUNK_SIZE;
      var found := BinFind(msp, msp.dv);
      VictimNotBinned(msp.h, msp.dv);
      assert !found;
    }
    if msp.top != 0 {
      held := CheckTopChunk(msp);
      assert msp.topsize == SizeOf(Head(msp.mem, msp.top)) && msp.topsize > 0;
      var found := BinFind(msp, msp.top);
      assert !found;
    }
    total := TraverseAndCheck(msp);
  }

  lemma VictimNotBinned(h: Heap, dv: int)
    ensures dv !in Binned(h, dv, {})
  {
  }

  lemma TopWord(s: State, g: Segment)
    requires HeapOK(s, g)
    ensures SizeOf(Head(s.m, s.top)) == s.topsize && 0 < s.topsize < WORD && s.topsize % 8 == 0
    ensures s.top !in Binned(s.h, s.dv, {}) && s.top >= g.first + MSIZE && s.top % 8 == 0
    ensures g.first > 0 && s.top + s.topsize + TOP_FOOT_SIZE == g.limit <= WORD
    ensures PInUse(Head(s.m, s.top)) && !PInUse(Head(s.m, s.top + s.topsize))
  {
    ReadTop(s, g);
    HeadWordFields(s.topsize, true, false);
    assert Head(s.m, s.top + s.topsize) == TOP_FOOT_SIZE;
  }
}
