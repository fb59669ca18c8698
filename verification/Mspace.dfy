/** The mspace itself: the bin macros, mspace_malloc, mspace_free and memalign over one segment. */
module Mspace {
  import opened Machine
  import opened BinIndex
  import opened Words
  import opened Rings
  import opened Tries
  import opened TreeWords
  import opened TreeUnlink
  import opened Bins
  import opened BinQueues
  import opened Chunks
  import opened HeapState
  import opened HeapSteps
  import opened HeapBins
  import opened HeapCuts
  import opened HeapReads
  import opened BestFits
  import opened TreeWalks
  import opened UnlinkReads
  import opened BestBins
  import opened HeapLive
  import opened Requests
  import opened HeapQueues
  import opened Outcomes

  // ----- bitmaps

  lemma MarkSets(m: bv32, c: bv32, i: nat)
    requires i < 32 && c == m | Idx2Bit(i)
    ensures MapSet(m, c, i, true)
  {
    forall j: nat | j < 32 ensures Marked(c, j) <==> if j == i then true else Marked(m, j) { MarkMarks(m, c, i, j); }
  }

  lemma ClearSets(m: bv32, c: bv32, i: nat)
    requires i < 32 && c == m & !Idx2Bit(i)
    ensures MapSet(m, c, i, false)
  {
    forall j: nat | j < 32 ensures Marked(c, j) <==> if j == i then false else Marked(m, j) { ClearClears(m, c, i, j); }
  }

  lemma KeepSets(m: bv32, i: nat, v: bool)
    requires Marked(m, i) == v
    ensures MapSet(m, m, i, v)
  {
  }

  method Mark(m: bv32, i: nat) returns (c: bv32)
    requires i < 32
    ensures MapSet(m, c, i, true)
  {
    c := m | Idx2Bit(i);
    MarkSets(m, c, i);
  }

  method Clear(m: bv32, i: nat) returns (c: bv32)
    requires i < 32
    ensures MapSet(m, c, i, false)
  {
    c := m & !Idx2Bit(i);
    ClearSets(m, c, i);
  }

  /** The lowest marked bin above bin `i`. */
  method NextMark(x: bv32, i: nat) returns (found: bool, j: nat)
    requires i < 32
    ensures found ==> i < j < 32 && Marked(x, j) && forall k: nat :: i < k < j ==> !Marked(x, k)
    ensures !found ==> forall k: nat :: i < k < 32 ==> !Marked(x, k)
  {
    hide LeftBits, Idx2Bit, Marked, ComputeBit2Idx, LeastBit;
    var leftbits := LeftBits(Idx2Bit(i)) & x;
    found, j := leftbits != 0, i;
    if found {
      LeastMarked(leftbits);
      j := ComputeBit2Idx(LeastBit(leftbits)) as int;
    } else {
      NoneMarked(leftbits);
    }
    forall k: nat | k < 32
      ensures Marked(leftbits, k) <==> i < k && Marked(x, k)
    {
      LeftBitsMarked(x, leftbits, i, k);
    }
  }

  /** The first test of mspace_malloc: bin `j` is bin `i`, or the next one if that is empty. */
  method SmallFit(x: bv32, i: nat) returns (smallbits: bv32, fits: bool, j: nat)
    requires i < 32
    ensures smallbits == ShiftRight(x, i) && (!fits ==> NoneMarkedUpTo(x, i, if i == 31 then 32 else i + 2))
    ensures fits ==> i <= j <= i + 1 && j < 32 && Marked(x, j) && NoneMarkedUpTo(x, i, j)
  {
    hide Marked, ShiftRight;
    smallbits := ShiftRight(x, i);
    SmallBits(x, smallbits, i);
    fits, j := smallbits & 3 != 0, i;
    if fits { j := i + BitOf(!smallbits & 1); }
  }

  function BitOf(b: bv32): nat { if b == 0 then 0 else 1 }

  /** The next non-empty small bin, from the shifted map. */
  method NextSmall(x: bv32, smallbits: bv32, i: nat) returns (j: nat)
    requires i < 32 && smallbits == ShiftRight(x, i) && smallbits != 0 && !Marked(x, i)
    ensures i <= j < 32 && Marked(x, j) && NoneMarkedUpTo(x, i, j)
  {
    hide Marked, ShiftRight, ShiftLeft, LeftBits, Idx2Bit, ComputeBit2Idx, LeastBit;
    var leftbits := ShiftLeft(smallbits, i) & LeftBits(Idx2Bit(i));
    SmallBitsLeft(x, smallbits, i);
    forall k: nat | k < 32
      ensures Marked(leftbits, k) <==> i < k && Marked(x, k)
    {
      LeftSmallBits(x, leftbits, i, k);
    }
    NoneMarked(leftbits);
    LeastMarked(leftbits);
    j := ComputeBit2Idx(LeastBit(leftbits)) as int;
  }

  /** The lowest marked bin. */
  method FirstMark(x: bv32) returns (i: nat)
    requires x != 0
    ensures i < 32 && Marked(x, i) && forall k: nat :: k < i ==> !Marked(x, k)
  {
    hide Marked, ComputeBit2Idx, LeastBit;
    LeastMarked(x);
    i := ComputeBit2Idx(LeastBit(x)) as int;
  }

  lemma NilFits(t: Tree, nb: int)
    ensures t.Nil? ==> BestFit(t, nb) == WORD && Above(t, nb)
  {
  }

  lemma StoresCommute(m: Mem, f: int, b: int)
    requires Gap(f, b)
    ensures m[b + FD := f][f + BK := b] == m[f + BK := b][b + FD := f]
  {
  }

  class Mspace {
    /** The words of the segment; the malloc_state record's own fields follow. */
    var mem: Mem
    var smallmap: bv32
    var treemap: bv32
    var dv: int
    var dvsize: int
    var top: int
    var topsize: int
    const base: int
    const limit: int
    /** The chunks and the bins' contents that the words represent. */
    ghost var h: Heap
    ghost var b: BinSet

    ghost function St(): State
      reads this
    {
      State(mem, h, b, smallmap, treemap, dv, dvsize, top, topsize)
    }

    ghost function Seg(): Segment { Segment(base, limit) }

    /** Address of the malloc_state record. */
    function Ms(): int { base + 8 }

    predicate OkAddress(a: int) { a >= base }

    // ----- small bins

    /** insert_small_chunk */
    method InsertSmallChunk(p: int, s: int, ghost loose: set<int>)
      requires Good(St(), Seg(), loose) && p in loose && p in h && h[p].size == s && s < 256
      modifies `mem, `smallmap, `b
      ensures Good(St(), Seg(), loose - {p}) && PayloadKept(old(mem), mem, h, base)
      ensures QueuesOf(b) == Pushed(old(QueuesOf(b)), s, p)
    {
      hide HeapOK, BinsRep, Binned, MapSet, PayloadKept, Marked, At, QueuesOf, Pushed;
      ghost var s0 := St();
      ReadSmallInsert(s0, Seg(), loose, p);
      var i := s / 8;
      var bin := SmallBin(Ms(), i);
      var f := bin;
      assert s >= MIN_CHUNK_SIZE;
      if !Marked(smallmap, i) {
        smallmap := Mark(smallmap, i);
      } else {
        f := Fd(mem, bin);
        assert OkAddress(f);
        KeepSets(smallmap, i, true);
      }
      var m := Wr(mem, bin + FD, p);
      m := Wr(m, f + BK, p);
      m := Wr(m, p + FD, f);
      mem := Wr(m, p + BK, bin);
      b := b.(small := b.small[i := [p] + b.small[i]]);
      SmallPushed(s0, Seg(), loose, b, i, p);
      InsertSmallStep(s0, St(), Seg(), loose, i, p);
    }

    /** unlink_small_chunk */
    method UnlinkSmallChunk(p: int, s: int, ghost loose: set<int>)
      requires Good(St(), Seg(), loose) && p in Binned(h, dv, loose) && h[p].size == s && s < 256
      modifies `mem, `smallmap, `b
      ensures Good(St(), Seg(), loose + {p}) && PayloadKept(old(mem), mem, h, base)
      ensures QueuesOf(b) == Pulled(old(QueuesOf(b)), s, p)
    {
      hide HeapOK, BinsRep, Binned, MapSet, PayloadKept, Ring, Distinct, Marked, QueuesOf, Pulled;
      ghost var s0 := St();
      ghost var i0, k := SmallMember(s0, Seg(), loose, p);
      ReadSmallBin(s0, Seg(), loose, i0);
      ReadSmallLinks(s0, Seg(), loose, i0, k);
      ReadMember(s0, Seg(), loose, p);
      var f := Fd(mem, p);
      var back := Bk(mem, p);
      var i := s / 8;
      assert p != back && p != f && SizeOf(Head(mem, p)) == 8 * i;
      if f == back {
        smallmap := Clear(smallmap, i);
      } else {
        assert OkAddress(f) && OkAddress(back);
        KeepSets(smallmap, i, true);
        mem := Wr(Wr(mem, f + BK, back), back + FD, f);
      }
      b := b.(small := b.small[i := Without(b.small[i], k)]);
      SmallPulled(s0, Seg(), loose, b, i, k);
      UnlinkSmallStep(s0, St(), Seg(), loose, i, k);
    }

    lemma ReadMember(s: State, g: Segment, loose: set<int>, p: int)
      requires Good(s, g, loose) && p in Binned(s.h, s.dv, loose)
      ensures p in s.h && SizeOf(Head(s.m, p)) == s.h[p].size && !s.h[p].used && p != s.dv
    {
      hide BinsRep;
      ReadChunk(s, g, p);
    }

    /** unlink_first_small_chunk; `p` is the bin's first chunk. */
    method UnlinkFirstSmallChunk(bin: int, p: int, i: nat, ghost loose: set<int>)
      requires Good(St(), Seg(), loose) && i < 32 && Marked(smallmap, i) && bin == SmallBin(Ms(), i)
      requires p == Fd(mem, bin)
      modifies `mem, `smallmap, `b
      ensures p in old(Binned(h, dv, loose)) && p in h && h[p].size == 8 * i && !h[p].used && p != dv
      ensures Good(St(), Seg(), loose + {p}) && PayloadKept(old(mem), mem, h, base)
      ensures i < |old(b.small)| && old(b.small)[i] != [] && p == old(b.small)[i][0]
      ensures QueuesOf(b) == Pulled(old(QueuesOf(b)), 8 * i, p)
    {
      hide HeapOK, BinsRep, Binned, MapSet, PayloadKept, Ring, Distinct, Marked, QueuesOf, Pulled;
      ghost var s0 := St();
      ReadSmallBin(s0, Seg(), loose, i);
      ReadSmallLinks(s0, Seg(), loose, i, 0);
      ReadMember(s0, Seg(), loose, p);
      var f := Fd(mem, p);
      assert p != bin && p != f && SizeOf(Head(mem, p)) == 8 * i;
      if bin == f {
        smallmap := Clear(smallmap, i);
      } else {
        assert OkAddress(f);
        KeepSets(smallmap, i, true);
        StoresCommute(mem, f, bin);
        mem := Wr(Wr(mem, bin + FD, f), f + BK, bin);
      }
      b := b.(small := b.small[i := Without(b.small[i], 0)]);
      SmallPulled(s0, Seg(), loose, b, i, 0);
      UnlinkSmallStep(s0, St(), Seg(), loose, i, 0);
    }

    // ----- tree bins

    /** insert_large_chunk */
    method InsertLargeChunk(x: int, s: int, ghost loose: set<int>)
      requires Good(St(), Seg(), loose) && x in loose && x in h && h[x].size == s && s >= 256
      modifies `mem, `treemap, `b
      ensures Good(St(), Seg(), loose - {x}) && PayloadKept(old(mem), mem, h, base)
      ensures QueuesOf(b) == Pushed(old(QueuesOf(b)), s, x)
    {
      hide QueuesOf, Pushed, HeapOK, BinsOK, BinsRep, Binned, MapSet, PayloadKept, Marked, Walking, BitsAt, Fits, Pow2,
        LeftShift, Down, DownSlot, DownParent, Elems, Replaced, NewNode, Put, ComputeTreeIndex, TreeBin, HangLeaf,
        Chain, InsertMapped;
      ghost var s0 := St();
      LooseSize(s0, Seg(), loose, x);
      ReadLargeInsert(s0, Seg(), loose, x);
      var i := ComputeTreeIndex(s);
      ghost var t := s0.b.tree[i];
      var bin := TreeBin(Ms(), i);
      var m := Wr(Wr(Wr(mem, x + INDEX, i), x + LEFT, 0), x + RIGHT, 0);
      assert m == Cleared(mem, x, i);
      mem := LinkLarge(m, Marked(treemap, i), i, s, bin, x, t, Binned(h, dv, loose));
      if !Marked(treemap, i) {
        treemap := Mark(treemap, i);
      } else {
        KeepSets(treemap, i, true);
      }
      b := b.(tree := b.tree[i := Replaced(t, i, s, NewNode(Reached(t, i, s), s, x))]);
      LargePushed(s0, Seg(), loose, b, i, x);
      InsertLargeStep(s0, St(), Seg(), loose, i, x);
    }

    /** Links `x`, whose index and child words are set, into tree bin `i`. */
    method LinkLarge(m0: Mem, marked: bool, i: nat, s: int, bin: int, x: int, ghost t: Tree, ghost inv: Inventory)
      returns (m: Mem)
      requires i < 32 && 0 <= s < WORD && Fits(s, RootLo(i), RootK(i))
      requires BitsAt(s * Pow2(LeftShift(i)) % WORD, s, RootLo(i), RootK(i))
      requires Walking(m0, inv, Tops(t), Rd(m0, bin), RootPlace(t, i)) && marked == t.Node?
      requires bin in m0 && bin >= base && NodeMapped(m0, x) && InsertMapped(m0, t, i, s, bin, base)
      ensures var d := Reached(t, i, s);
              m == if d.Nil? then HangLeaf(m0, x, ReachedSlot(t, i, s, bin), ReachedParent(t, i, s, bin))
                else Chain(m0, x, d.p)
    {
      hide Walking, BitsAt, Fits, Pow2, LeftShift, Down, DownSlot, DownParent, Elems;
      m := m0;
      if !marked {
        ReachedNil(t, i, s, bin);
        m := Wr(m, bin, x);
        m := Wr(m, x + PARENT, bin);
        m := Wr(m, x + BK, x);
        m := Wr(m, x + FD, x);
      } else {
        var bits := s * Pow2(LeftShift(i)) % WORD;
        var found, p, slot := Descend(m, Rd(m, bin), s, bits, bin, RootPlace(t, i), inv, Tops(t));
        if !found {
          assert OkAddress(slot);
          m := Wr(m, slot, x);
          m := Wr(m, x + PARENT, p);
          m := Wr(m, x + BK, x);
          m := Wr(m, x + FD, x);
        } else {
          var f := Fd(m, p);
          assert OkAddress(p) && OkAddress(f);
          m := Wr(m, f + BK, x);
          m := Wr(m, p + FD, x);
          m := Wr(m, x + FD, f);
          m := Wr(m, x + BK, p);
          m := Wr(m, x + PARENT, 0);
        }
      }
    }

    lemma ReachedNil(t: Tree, i: nat, s: int, bin: int)
      requires t.Nil?
      ensures Reached(t, i, s).Nil? && ReachedSlot(t, i, s, bin) == bin && ReachedParent(t, i, s, bin) == bin
    {
    }

    lemma LooseSize(s: State, g: Segment, loose: set<int>, x: int)
      requires Good(s, g, loose) && x in loose
      ensures x in s.h && !s.h[x].used && s.h[x].size < WORD
    {
      hide BinsRep;
      ReadChunk(s, g, x);
    }

    /** unlink_large_chunk */
    method UnlinkLargeChunk(x: int, ghost loose: set<int>)
      requires Good(St(), Seg(), loose) && x in Binned(h, dv, loose) && h[x].size >= 256
      modifies `mem, `treemap, `b
      ensures Good(St(), Seg(), loose + {x}) && PayloadKept(old(mem), mem, h, base)
      ensures QueuesOf(b) == Pulled(old(QueuesOf(b)), h[x].size, x)
    {
      hide QueuesOf, Pulled, HeapOK, BinsOK, BinsRep, Binned, MapSet, PayloadKept, Marked, Pow2, Down, Elems, Replaced,
        Drop, Put, ComputeTreeIndex, TreeBin, UnlinkStores, TreeAt, Here;
      ghost var s0 := St();
      ReadMember(s0, Seg(), loose, x);
      ghost var i, d := LargeNode(s0, Seg(), loose, x);
      ghost var t, s := s0.b.tree[i], h[x].size;
      ReadTreeBin(s0, Seg(), loose, i);
      TreeInReach(s0, Seg(), loose, i);
      ReadIndex(s0, Seg(), loose, x, i, s);
      var index, emptied := Index(mem, x), false;
      mem, emptied := UnlinkTree(mem, x, t, i, s, Binned(h, dv, loose));
      if emptied {
        treemap := Clear(treemap, index);
      } else {
        KeepSets(treemap, i, true);
      }
      b := b.(tree := b.tree[i := Replaced(t, i, s, Drop(Reached(t, i, s), x))]);
      LargePulled(s0, Seg(), loose, b, i, x);
      UnlinkLargeStep(s0, St(), Seg(), loose, i, x);
    }

    lemma TreeInReach(s: State, g: Segment, loose: set<int>, i: nat)
      requires Good(s, g, loose) && i < 32 && |s.b.tree| == 32
      ensures InReach(s.m, Elems(s.b.tree[i]), g.first) && TreeBin(g.first + 8, i) > 0
    {
      hide HeapOK, BinsOK, Walking, TreeAt, NodeMapped, Elems, Binned;
      ReadTreeBin(s, g, loose, i);
      FirstBound(s, g);
      forall q | q in Elems(s.b.tree[i])
        ensures NodeMapped(s.m, q) && q >= g.first && q != 0
      {
        LargeMapped(s, g, loose, q);
        ReadChunk(s, g, q);
      }
    }

    lemma ReadIndex(s: State, g: Segment, loose: set<int>, x: int, i: nat, sz: int)
      requires Good(s, g, loose) && i < 32 && |s.b.tree| == 32 && x in Elems(s.b.tree[i])
      requires Fits(sz, RootLo(i), RootK(i))
      requires Reached(s.b.tree[i], i, sz).Node? && x in Here(Reached(s.b.tree[i], i, sz))
      ensures Index(s.m, x) == i && s.b.tree[i].Node? && Marked(s.treemap, i)
    {
      hide HeapOK, BinsOK, Walking, TreeAt, NodeMapped, Binned, Marked;
      ReadTreeBin(s, g, loose, i);
      TreeInReach(s, g, loose, i);
      ReadLargeLinks(s.m, s.b.tree[i], i, TreeBin(g.first + 8, i), Binned(s.h, s.dv, loose), sz, x);
    }

    /** The pointer work of unlink_large_chunk; `emptied` says that the bin's word became null. */
    method UnlinkTree(m0: Mem, x: int, ghost t: Tree, ghost i: nat, ghost s: int, ghost inv: Inventory)
      returns (m: Mem, emptied: bool)
      requires i < 32 && TreeAt(m0, t, RootLo(i), RootK(i), TreeBin(Ms(), i), i, inv) && Fits(s, RootLo(i), RootK(i))
      requires Reached(t, i, s).Node? && x in Here(Reached(t, i, s)) && InReach(m0, Elems(t), base)
      requires TreeBin(Ms(), i) in m0 && TreeBin(Ms(), i) > 0
      ensures m == UnlinkStores(m0, t, i, s, TreeBin(Ms(), i), x)
      ensures emptied <==> Replaced(t, i, s, Drop(Reached(t, i, s), x)).Nil?
    {
      hide TreeAt, Fits, Elems, Here, Down, DownSlot, DownParent, Put, Drop, AdoptMapped, Pow2, AdoptLeft, AdoptRight,
        CutSlot, RingStores, NodeMapped, InReach, Untouched;
      ghost var d, bin := Reached(t, i, s), TreeBin(Ms(), i);
      ghost var a, y := ReachedSlot(t, i, s, bin), ReachedParent(t, i, s, bin);
      DropCases(m0, t, i, s, bin, inv, x);
      emptied := false;
      var xp := Parent(m0, x);
      var r;
      m, r := Detach(m0, x, d, Drop(d, x));
      if xp != 0 {
        SlotRead(m0, m, t, i, s, bin, inv, x);
        m, emptied := SetSlot(m, x, r, xp, a, i);
        if r != 0 {
          m := Adopt(m, x, r, xp);
        }
      }
    }

    /** Unlinks `x` from its ring, or cuts the leaf that will replace it. */
    method Detach(m0: Mem, x: int, ghost d: Tree, ghost u: Tree) returns (m: Mem, r: int)
      requires d.Node? && (Bk(m0, x) == x <==> x == d.p && d.rest == [])
      requires x != d.p || d.rest != [] ==> RingMapped(m0, x) && Fd(m0, x) >= base
      requires x == d.p && d.rest != [] ==> u.Node? && u.p == Bk(m0, x)
      requires x == d.p && d.rest == [] ==> LeafReady(m0, x, d, u)
      ensures x != d.p || d.rest != [] ==> m == RingStores(m0, x)
      ensures x == d.p && d.rest == [] ==> m == if u.Node? then m0[CutSlot(d, d.r.Node?) := 0] else m0
      ensures x == d.p ==> r == Ptr(u)
    {
      hide Holds, Leaf, LeafSlot;
      m := m0;
      if Bk(m, x) != x {
        var f := Fd(m, x);
        r := Bk(m, x);
        assert OkAddress(f);
        m := Wr(m, f + BK, r);
        m := Wr(m, r + FD, f);
      } else {
        var rp := x + RIGHT;
        r := Rd(m, rp);
        if r == 0 {
          rp := x + LEFT;
          r := Rd(m, rp);
        }
        if r != 0 {
          r, rp := FindLeaf(m, r, rp, CutTree(d, d.r.Node?));
          assert OkAddress(rp);
          m := Wr(m, rp, 0);
        }
      }
    }

    /** Stores `r` to the word that points to `x`: the bin's word or a child word of `xp`. */
    method SetSlot(m0: Mem, x: int, r: int, xp: int, ghost a: int, ghost i: int) returns (m: Mem, emptied: bool)
      requires SlotKnown(m0, x, xp, a, i)
      ensures m == m0[a := r] && (emptied <==> a == TreeBin(Ms(), i) && r == 0)
    {
      emptied := false;
      var bin := TreeBin(Ms(), Index(m0, x));
      if x == Rd(m0, bin) {
        m := Wr(m0, bin, r);
        emptied := r == 0;
      } else {
        assert OkAddress(xp);
        if Rd(m0, xp + LEFT) == x {
          m := Wr(m0, xp + LEFT, r);
        } else {
          m := Wr(m0, xp + RIGHT, r);
        }
      }
    }

    ghost predicate SlotKnown(m: Mem, x: int, xp: int, a: int, i: int) {
      var bin := TreeBin(Ms(), i);
      && Index(m, x) == i && a in m
      && if x == Rd(m, bin) then a == bin
         else xp >= base && a != bin && a == xp + if Left(m, xp) == x then LEFT else RIGHT
    }

    /** A chunk alone in its node: its children, the leaf that will replace it and its word. */
    ghost predicate LeafReady(m: Mem, x: int, d: Tree, u: Tree)
      requires d.Node?
    {
      && Right(m, x) == Ptr(d.r) && Left(m, x) == Ptr(d.l) && (d.r.Node? ==> d.r.p != 0) && (d.l.Node? ==> d.l.p != 0)
      && Holds(m, d.r) && Holds(m, d.l) && (u.Node? <==> d.r.Node? || d.l.Node?) && x == d.p
      && (u.Node? ==>
           u.p == Leaf(CutTree(d, d.r.Node?)).p && CutSlot(d, d.r.Node?) in m && CutSlot(d, d.r.Node?) >= base)
    }

    /** After the detaching, the bin's word and the parent still tell where `x` hangs. */
    lemma SlotRead(m: Mem, m1: Mem, t: Tree, i: nat, s: int, bin: int, inv: Inventory, x: int)
      requires i < 32 && bin == TreeBin(Ms(), i) && TreeAt(m, t, RootLo(i), RootK(i), bin, i, inv)
      requires Fits(s, RootLo(i), RootK(i))
      requires Reached(t, i, s).Node? && x in Here(Reached(t, i, s)) && InReach(m, Elems(t), base) && bin in m
      requires bin > 0
      requires x == Reached(t, i, s).p ==> Untouched(m, m1, t, Reached(t, i, s), bin, ReachedParent(t, i, s, bin))
      requires x == Reached(t, i, s).p ==> ReachedSlot(t, i, s, bin) in m
      requires Parent(m, x) != 0
      ensures x == Reached(t, i, s).p && ReachedParent(t, i, s, bin) == Parent(m, x)
      ensures SlotKnown(m1, x, Parent(m, x), ReachedSlot(t, i, s, bin), i)
      ensures ReachedSlot(t, i, s, bin) == bin <==> Reached(t, i, s).p == t.p
    {
      hide Trie, Sized, TreeRep, Fits, Elems, Here, DownSlot, DownParent, Pow2;
      ReadLargeLinks(m, t, i, bin, inv, s, x);
    }

    /** The replacement `r` takes over the parent `xp` and the children of `x`. */
    method Adopt(m0: Mem, x: int, r: int, xp: int) returns (m: Mem)
      requires AdoptMapped(m0, x, r, xp, base)
      ensures m == AdoptRight(AdoptLeft(m0[r + PARENT := xp], x, r), x, r)
    {
      assert OkAddress(r);
      m := Wr(m0, r + PARENT, xp);
      var c0 := Left(m, x);
      if c0 != 0 {
        assert OkAddress(c0);
        m := Wr(m, r + LEFT, c0);
        m := Wr(m, c0 + PARENT, r);
      }
      var c1 := Right(m, x);
      if c1 != 0 {
        assert OkAddress(c1);
        m := Wr(m, r + RIGHT, c1);
        m := Wr(m, c1 + PARENT, r);
      }
    }

    /** Everything UnlinkTree needs to know about the node `d` of `x`, case by case. */
    lemma DropCases(m: Mem, t: Tree, i: nat, s: int, bin: int, inv: Inventory, x: int)
      requires i < 32 && bin == TreeBin(Ms(), i) && TreeAt(m, t, RootLo(i), RootK(i), bin, i, inv)
      requires Fits(s, RootLo(i), RootK(i))
      requires Reached(t, i, s).Node? && x in Here(Reached(t, i, s)) && InReach(m, Elems(t), base) && bin in m
      requires bin > 0
      ensures var d, a, y := Reached(t, i, s), ReachedSlot(t, i, s, bin), ReachedParent(t, i, s, bin);
              var u := Drop(d, x);
              && (Bk(m, x) == x <==> x == d.p && d.rest == []) && (x == d.p <==> Parent(m, x) != 0)
              && (x != d.p || d.rest != [] ==> RingMapped(m, x) && Fd(m, x) >= base)
              && (x == d.p && d.rest != [] ==>
                   && u.Node? && u.p == Bk(m, x) && Untouched(m, RingStores(m, x), t, d, bin, y)
                   && AdoptMapped(RingStores(m, x)[a := u.p], x, u.p, y, base))
              && (x == d.p && d.rest == [] ==>
                   && LeafReady(m, x, d, u)
                   && Untouched(m, if u.Node? then m[CutSlot(d, d.r.Node?) := 0] else m, t, d, bin, y)
                   && (u.Node? ==> AdoptMapped(m[CutSlot(d, d.r.Node?) := 0][a := u.p], x, u.p, y, base)))
              && (x == d.p ==> a in m && (u.Node? ==> u.p != 0))
              && (x != d.p ==> Replaced(t, i, s, u).Node?)
              && (x == d.p ==> if d.p == t.p then Replaced(t, i, s, u) == u else Replaced(t, i, s, u).Node?)
    {
      hide Trie, Sized, Fits, Down, DownSlot, DownParent, Pow2;
      var d, lo, k := Reached(t, i, s), RootLo(i), RootK(i);
      var y := ReachedParent(t, i, s, bin);
      NodeContext(m, t, lo, k, bin, i, inv, s);
      ReadLargeLinks(m, t, i, bin, inv, s, x);
      PutAtRoot(t, lo, k, s, Drop(d, x));
      SlotMapped(m, t, lo, k, s, bin, base);
      HereWithin(d, Elems(t));
      if x != d.p || d.rest != [] {
        RingKeys(m, x, Elems(t), base);
        if x == d.p { HeadCase(m, t, lo, k, bin, i, inv, s, base); }
      } else {
        RepHolds(m, d, y, i);
        if Drop(d, x).Node? { LeafCase(m, t, lo, k, bin, i, inv, s, base); }
      }
    }

    // ----- relays

    /** insert_chunk */
    method InsertChunk(p: int, s: int, ghost loose: set<int>)
      requires Good(St(), Seg(), loose) && p in loose && p in h && h[p].size == s
      modifies `mem, `smallmap, `treemap, `b
      ensures Good(St(), Seg(), loose - {p}) && PayloadKept(old(mem), mem, h, base)
      ensures QueuesOf(b) == Pushed(old(QueuesOf(b)), s, p)
    {
      hide QueuesOf, Pushed;
      if s < 256 { InsertSmallChunk(p, s, loose); } else { InsertLargeChunk(p, s, loose); }
    }

    /** unlink_chunk */
    method UnlinkChunk(p: int, s: int, ghost loose: set<int>)
      requires Good(St(), Seg(), loose) && p in Binned(h, dv, loose) && h[p].size == s
      modifies `mem, `smallmap, `treemap, `b
      ensures Good(St(), Seg(), loose + {p}) && PayloadKept(old(mem), mem, h, base)
      ensures QueuesOf(b) == Pulled(old(QueuesOf(b)), s, p)
    {
      hide QueuesOf, Pulled;
      if s < 256 { UnlinkSmallChunk(p, s, loose); } else { UnlinkLargeChunk(p, loose); }
    }

    /** replace_dv */
    method ReplaceDv(p: int, s: int, ghost loose: set<int>)
      requires Good(St(), Seg(), loose) && p in loose && p in h && h[p].size == s && dvsize < 256
      modifies `mem, `smallmap, `b, `dv, `dvsize
      ensures Good(St(), Seg(), loose - {p}) && dv == p && dvsize == s && PayloadKept(old(mem), mem, h, base)
      ensures QueuesOf(b) ==
        if old(dvsize) == 0 then old(QueuesOf(b)) else Pushed(old(QueuesOf(b)), old(dvsize), old(dv))
    {
      hide HeapOK, BinsRep, Binned, PayloadKept, QueuesOf, Pushed;
      ghost var s0 := St();
      var dvs, victim := dvsize, dv;
      dvsize := s;
      dv := p;
      NewVictim(s0, St(), Seg(), loose, p);
      VictimApart(s0, Seg(), loose);
      if dvs != 0 {
        InsertSmallChunk(victim, dvs, loose - {p} + {victim});
        assert loose - {p} + {victim} - {victim} == loose - {p};
      } else {
        assert loose - {p} + {} == loose - {p};
        NothingKept(mem, h, base);
      }
    }

    lemma NothingKept(m: Mem, h: Heap, first: int)
      ensures PayloadKept(m, m, h, first)
    {
    }

    lemma VictimApart(s: State, g: Segment, loose: set<int>)
      requires Good(s, g, loose)
      ensures s.dv !in loose && (s.dvsize != 0 ==> s.dv in s.h && s.h[s.dv].size == s.dvsize && !s.h[s.dv].used)
      ensures s.dvsize == 0 ==> s.dv == 0
    {
      hide BinsRep;
    }

    // ----- giving away a chunk that is in no bin

    /** set_inuse_and_pinuse on the free chunk `p`. */
    method GiveWhole(p: int, s: int, ghost loose: set<int>)
      requires Good(St(), Seg(), loose) && p in loose && p in h && h[p].size == s
      modifies `mem, `h
      ensures Next(old(h), p) in old(h) && h == Used(old(h), p)
      ensures Good(St(), Seg(), loose - {p}) && PayloadKept(old(mem), mem, old(h), base)
    {
      hide HeapOK, BinsRep, Binned, PayloadKept;
      ghost var s0 := St();
      LooseSize(s0, Seg(), loose, p);
      ReadChunk(s0, Seg(), p);
      ReadChunk(s0, Seg(), p + s);
      HeadWordFields(h[p + s].size, false, true);
      var m := Wr(mem, p + HEAD, HeadWord(s, true, true));
      mem := Wr(m, p + s + HEAD, SetPInUse(Head(m, p + s)));
      h := Used(h, p);
      TakeWhole(s0, St(), Seg(), loose, p);
    }

    /** set_size_and_pinuse_of_inuse_chunk(p, nb), set_size_and_pinuse_of_free_chunk(p + nb, rsize) */
    method GiveFirst(p: int, nb: int, rsize: int, ghost loose: set<int>)
      requires Good(St(), Seg(), loose) && p in loose && p in h && h[p].size == nb + rsize
      requires nb >= MIN_CHUNK_SIZE && nb % 8 == 0 && rsize >= MIN_CHUNK_SIZE
      modifies `mem, `h
      ensures h == Split(old(h), p, nb) && p + nb in h && h[p + nb].size == rsize
      ensures Good(St(), Seg(), loose - {p} + {p + nb}) && PayloadKept(old(mem), mem, old(h), base)
    {
      hide HeapOK, BinsRep, Binned, PayloadKept;
      ghost var s0 := St();
      LooseSize(s0, Seg(), loose, p);
      VictimApart(s0, Seg(), loose);
      SplitMapped(s0, Seg(), p, nb);
      var m := Wr(mem, p + HEAD, HeadWord(nb, true, true));
      mem := TagFree(m, p + nb, rsize);
      h := Split(h, p, nb);
      TakeFirst(s0, St(), Seg(), loose, p, nb);
    }

    lemma SplitMapped(s: State, g: Segment, p: int, nb: int)
      requires HeapOK(s, g) && p in s.h && MIN_CHUNK_SIZE <= nb < s.h[p].size && nb % 8 == 0
      ensures p + HEAD in s.m && p + nb + HEAD in s.m && p + s.h[p].size in s.m
    {
      ReadChunk(s, g, p);
      WordIn(s.m, g, p, nb + HEAD);
    }

    /** set_size_and_pinuse_of_free_chunk */
    static method TagFree(m0: Mem, p: int, s: int) returns (m: Mem)
      requires p + HEAD in m0 && p + s in m0 && s >= MIN_CHUNK_SIZE
      ensures Stores(m0, m, {p + HEAD, p + s}) && Head(m, p) == HeadWord(s, true, false) && Foot(m, p + s) == s
    {
      m := Wr(m0, p + HEAD, HeadWord(s, true, false));
      m := Wr(m, p + s + FOOT, s);
    }

    // ----- tmalloc_large, tmalloc_small

    /** The first loop of tmalloc_large, on the bin of the request's own size. */
    method SearchOwnBin(nb: int, idx: nat) returns (v: int, rsize: int, t: int, ghost place: Place)
      requires Good(St(), Seg(), {}) && 256 <= nb < WORD && nb % 8 == 0 && idx == ComputeTreeIndex(nb) && idx < 32
      ensures var inv, heads := Binned(h, dv, {}), Heads(b);
              && Found(inv, heads, v, rsize, nb) && Walking(mem, inv, heads, t, place)
              && (rsize == 0 || Above(place.t, nb))
              && |b.tree| == 32 && Min(nb + rsize, BestFit(place.t, nb)) == BestFit(b.tree[idx], nb)
    {
      hide HeapOK, BinsOK, Binned, Marked, Walking, BitsAt, Fits, Pow2, LeftShift, Above, Below, BestFit,
        ComputeTreeIndex, TreeBin, Found;
      ghost var inv, heads := Binned(h, dv, {}), Heads(b);
      WalkBin(St(), Seg(), {}, idx);
      RootBits(nb);
      RootFits(nb);
      v, rsize := 0, WORD - nb;
      NothingFound(inv, heads, nb);
      t := Rd(mem, TreeBin(Ms(), idx));
      place := RootPlace(b.tree[idx], idx);
      NilFits(place.t, nb);
      if t != 0 {
        var sizebits := nb * Pow2(LeftShift(idx)) % WORD;
        v, rsize, t, place := SearchBin(mem, t, nb, sizebits, place, inv, heads);
      }
    }

    lemma NothingFound(inv: Inventory, all: set<int>, nb: int)
      ensures Found(inv, all, 0, WORD - nb, nb)
    {
    }

    /** Root of the next non-empty tree bin, null if there is none. */
    method NextBin(nb: int, idx: nat) returns (t: int, ghost at: nat)
      requires Good(St(), Seg(), {}) && 256 <= nb < WORD && idx == ComputeTreeIndex(nb) && idx < 32
      requires |b.tree| == 32 && BestFit(b.tree[idx], nb) == WORD
      ensures if t == 0 then NoLarge(Binned(h, dv, {}), nb)
              else idx < at < 32 && NoneUpTo(b, nb, idx, at) && b.tree[at].Node? && Above(b.tree[at], nb)
                   && Walking(mem, Binned(h, dv, {}), Heads(b), t, RootPlace(b.tree[at], at))
    {
      hide HeapOK, BinsOK, Binned, Marked, Walking, Above, BestFit, ComputeTreeIndex, TreeBin, NoneUpTo, SmallBelow,
        NoLarge;
      ghost var s := St();
      IndexSmallBelow(nb);
      NoneOne(b, nb, idx);
      var found, i := NextMark(treemap, idx);
      if found {
        WalkBin(s, Seg(), {}, i);
        t, at := Rd(mem, TreeBin(Ms(), i)), i;
        UnmarkedNone(s, Seg(), {}, nb, idx + 1, i);
        NoneExtends(b, nb, idx, idx + 1, i);
        AboveRequest(s, Seg(), {}, nb, i);
      } else {
        t, at := 0, idx;
        UnmarkedNone(s, Seg(), {}, nb, idx + 1, 32);
        NoneExtends(b, nb, idx, idx + 1, 32);
        NoFitAnywhere(s, Seg(), {}, nb, idx);
      }
    }

    /** The searching part of tmalloc_large. */
    method FindBest(nb: int) returns (v: int, rsize: int)
      requires Good(St(), Seg(), {}) && 256 <= nb < WORD && nb % 8 == 0
      ensures if v == 0 then rsize == WORD - nb && NoLarge(Binned(h, dv, {}), nb)
              else BestLarge(Binned(h, dv, {}), nb, v) && v in Heads(b) && rsize == Binned(h, dv, {})[v] - nb
    {
      hide HeapOK, BinsOK, Binned, Walking, Above, Below, BestFit, NoneUpTo, SmallBelow, ComputeTreeIndex, BestLarge,
        NoLarge;
      ghost var inv, heads := Binned(h, dv, {}), Heads(b);
      var idx := ComputeTreeIndex(nb);
      IndexSmallBelow(nb);
      ghost var at: nat := idx;
      var t;
      ghost var place;
      v, rsize, t, place := SearchOwnBin(nb, idx);
      NoneYet(b, nb, idx);
      NilPlace(mem, inv, heads, t, place);
      NilFits(place.t, nb);
      if t == 0 && v == 0 {
        t, at := NextBin(nb, idx);
        if t == 0 { return; }
        place := RootPlace(b.tree[at], at);
      }
      FoundOrAbove(mem, inv, heads, v, rsize, nb, t, place);
      v, rsize := SearchLeftmost(mem, t, nb, v, rsize, place, inv, heads);
      FirstFitIsBest(St(), Seg(), {}, nb, idx, at, v);
    }

    lemma NoneYet(b: BinSet, nb: int, i: nat)
      requires |b.tree| == 32
      ensures NoneUpTo(b, nb, i, i)
    {
    }

    /** The second loop always ends with a chunk: one was found already or all it looks at fit. */
    lemma FoundOrAbove(m: Mem, inv: Inventory, heads: set<int>, v: int, rsize: int, nb: int, t: int, c: Place)
      requires Found(inv, heads, v, rsize, nb) && Walking(m, inv, heads, t, c) && (v != 0 || t != 0)
      requires 0 < nb < WORD
      requires rsize == 0 || Above(c.t, nb)
      ensures Min(nb + rsize, BestFit(c.t, nb)) < WORD
    {
      BestFitTop(c.t, c.lo, c.k, nb);
      if v == 0 {
        NilPlace(m, inv, heads, t, c);
        FitBelow(c.t, nb, WORD);
      }
    }

    // ----- serving a request from a chunk just unlinked

    ghost predicate Valid()
      reads this
    {
      Good(St(), Seg(), {})
    }

    /** The end of tmalloc_large: `v` goes out, a remainder that is a chunk is binned. */
    method ServeLarge(v: int, nb: int, rsize: int, ghost m0: Mem)
      requires Good(St(), Seg(), {v}) && v in h && h[v].size == rsize + nb && rsize >= 0 && nb >= MIN_CHUNK_SIZE
      requires nb % 8 == 0
      requires PayloadKept(m0, mem, h, base)
      modifies `mem, `h, `b, `smallmap, `treemap
      ensures Valid() && Served(m0, old(h), mem, h, base, v, nb)
      ensures Next(old(h), v) in old(h) && h == Taken(old(h), v, nb)
      ensures QueuesOf(b) ==
        if rsize < MIN_CHUNK_SIZE then old(QueuesOf(b)) else Pushed(old(QueuesOf(b)), rsize, v + nb)
    {
      hide HeapOK, BinsOK, PayloadKept, Served, Used, Split, QueuesOf, Pushed;
      ghost var h0, m1 := h, mem;
      LooseSize(St(), Seg(), {v}, v);
      FreeNext(St(), Seg(), v);
      assert {v} - {v} == {};
      if rsize < MIN_CHUNK_SIZE {
        GiveWhole(v, rsize + nb, {v});
        ServedWhole(m0, m1, mem, h0, base, v, nb);
      } else {
        GiveFirst(v, nb, rsize, {v});
        ghost var m2 := mem;
        assert {v} - {v} + {v + nb} == {v + nb} && {v + nb} - {v + nb} == {};
        InsertChunk(v + nb, rsize, {v + nb});
        ServedFirst(m0, m1, m2, mem, h0, base, top, v, nb);
      }
    }

    lemma FreeNext(s: State, g: Segment, v: int)
      requires HeapOK(s, g) && v in s.h && !s.h[v].used
      ensures Next(s.h, v) in s.h && Tiled(s.h, g.first, s.top) && v >= g.first && v % 8 == 0
      ensures SizeOf(Head(s.m, v)) == s.h[v].size
    {
      ReadChunk(s, g, v);
    }

    /** The first `nb` bytes of the loose chunk `v` go out, the rest becomes the designated victim. */
    method SplitSmall(v: int, nb: int, rsize: int, ghost m0: Mem)
      requires Good(St(), Seg(), {v}) && v in h && h[v].size == rsize + nb && rsize >= MIN_CHUNK_SIZE
      requires nb >= MIN_CHUNK_SIZE && nb % 8 == 0 && dvsize < 256
      requires PayloadKept(m0, mem, h, base)
      modifies `mem, `h, `b, `smallmap, `dv, `dvsize
      ensures Valid() && h == Split(old(h), v, nb) && dv == v + nb && dvsize == rsize
      ensures Served(m0, old(h), mem, h, base, v, nb)
      ensures QueuesOf(b) ==
        if old(dvsize) == 0 then old(QueuesOf(b)) else Pushed(old(QueuesOf(b)), old(dvsize), old(dv))
    {
      hide HeapOK, BinsOK, PayloadKept, Served, Used, Split, QueuesOf, Pushed;
      ghost var h0, m1 := h, mem;
      LooseSize(St(), Seg(), {v}, v);
      FreeNext(St(), Seg(), v);
      GiveFirst(v, nb, rsize, {v});
      ghost var m2 := mem;
      assert {v} - {v} + {v + nb} == {v + nb} && {v + nb} - {v + nb} == {};
      ReplaceDv(v + nb, rsize, {v + nb});
      ServedFirst(m0, m1, m2, mem, h0, base, top, v, nb);
    }

    /** The end of tmalloc_small: a remainder that is a chunk becomes the designated victim. */
    method ServeSmall(v: int, nb: int, rsize: int, ghost m0: Mem)
      requires Good(St(), Seg(), {v}) && v in h && h[v].size == rsize + nb && rsize >= 0 && nb >= MIN_CHUNK_SIZE
      requires nb % 8 == 0 && dvsize < 256
      requires PayloadKept(m0, mem, h, base)
      modifies `mem, `h, `b, `smallmap, `dv, `dvsize
      ensures Valid() && Served(m0, old(h), mem, h, base, v, nb)
      ensures if rsize < MIN_CHUNK_SIZE then dv == old(dv) && dvsize == old(dvsize) else dv == v + nb && dvsize == rsize
      ensures Next(old(h), v) in old(h) && h == Taken(old(h), v, nb)
      ensures QueuesOf(b) ==
        if rsize < MIN_CHUNK_SIZE || old(dvsize) == 0 then old(QueuesOf(b))
        else Pushed(old(QueuesOf(b)), old(dvsize), old(dv))
    {
      hide HeapOK, BinsOK, PayloadKept, Served, Used, Split, QueuesOf, Pushed;
      ghost var h0, m1 := h, mem;
      LooseSize(St(), Seg(), {v}, v);
      FreeNext(St(), Seg(), v);
      if rsize < MIN_CHUNK_SIZE {
        assert {v} - {v} == {};
        GiveWhole(v, rsize + nb, {v});
        ServedWhole(m0, m1, mem, h0, base, v, nb);
      } else {
        SplitSmall(v, nb, rsize, m0);
      }
    }

    /** tmalloc_large: a smallest sufficient tree chunk, unless the designated victim fits as well. */
    method TmallocLarge(nb: int) returns (mem0: int)
      requires Valid() && 256 <= nb < WORD && nb % 8 == 0
      modifies `mem, `h, `b, `smallmap, `treemap
      ensures Valid()
      ensures mem0 == 0 ==> St() == old(St()) && !VictimBeaten(h, dv, dvsize, nb)
      ensures mem0 != 0 ==> var v := mem0 - 8;
                            && old(VictimBeaten(h, dv, dvsize, nb) && BestLarge(Binned(h, dv, {}), nb, v))
                            && Served(old(mem), old(h), mem, h, base, v, nb)
      ensures mem0 != 0 ==> Allocated(old(View(St())), View(St()), nb, mem0 - 8)
    {
      hide HeapOK, BinsOK, BestLarge, NoLarge, VictimBeaten, Served, Binned, PayloadKept, QueuesOf, Pushed, Pulled,
        Taken, Chosen, Heads;
      ghost var s0 := St();
      ghost var m0 := mem;
      var v, rsize := FindBest(nb);
      LargeBounds(St(), Seg(), nb, v);
      if v != 0 && rsize < (dvsize - nb) % WORD {
        ReadMember(St(), Seg(), {}, v);
        FreeNext(St(), Seg(), v);
        assert OkAddress(v) && v < v + nb && SizeOf(Head(mem, v)) == rsize + nb;
        NotTop(St(), Seg(), v);
        BeatsVictim(St(), Seg(), nb, v);
        LargeChosen(St(), Seg(), nb, v);
        UnlinkLargeChunk(v, {});
        assert {} + {v} == {v};
        ServeLarge(v, nb, rsize, m0);
        assert Given(View(s0), View(St()), nb, v);
        mem0 := v + 8;
      } else {
        mem0 := 0;
      }
    }

    lemma NotTop(s: State, g: Segment, v: int)
      requires HeapOK(s, g) && v in s.h
      ensures v != s.top
    {
      ChunkBounds(s.h, g.first, s.top, v);
    }

    lemma BeatsVictim(s: State, g: Segment, nb: int, v: int)
      requires Good(s, g, {}) && nb >= 256 && BestLarge(Binned(s.h, s.dv, {}), nb, v)
      requires VictimBeaten(s.h, s.dv, s.dvsize, nb)
      ensures v in s.h && v != s.dv && (s.dvsize < nb || s.h[v].size < s.dvsize)
    {
      hide HeapOK, BinsOK;
      BeatenBy(s, g, nb, v);
    }

    /** Some tree chunk holds `nb` bytes and fits better than the designated victim. */
    static ghost predicate VictimBeaten(h: Heap, dv: int, dvsize: int, nb: int) {
      exists q :: q in h && !h[q].used && q != dv && h[q].size >= 256 && h[q].size >= nb
        && (dvsize < nb || h[q].size < dvsize)
    }

    /** The unsigned comparison with the designated victim. */
    lemma LargeBounds(s: State, g: Segment, nb: int, v: int)
      requires Good(s, g, {}) && 256 <= nb < WORD
      requires if v == 0 then NoLarge(Binned(s.h, s.dv, {}), nb) else BestLarge(Binned(s.h, s.dv, {}), nb, v)
      ensures v == 0 ==> !VictimBeaten(s.h, s.dv, s.dvsize, nb)
      ensures v != 0 ==>
        v in Binned(s.h, s.dv, {}) && v in s.h && s.h[v].size >= 256 && Binned(s.h, s.dv, {})[v] == s.h[v].size >= nb
                         && (VictimBeaten(s.h, s.dv, s.dvsize, nb) <==> s.h[v].size - nb < (s.dvsize - nb) % WORD)
                         && v + 8 != 0
    {
      hide HeapOK, BinsOK;
      SizesInWord(s, g);
      Remainder(s.dvsize, nb);
      if v == 0 {
        forall q | q in s.h && !s.h[q].used && q != s.dv && s.h[q].size >= 256
          ensures s.h[q].size < nb
        {
          FreeCases(s, g, q);
        }
      } else {
        BinnedMember(s, g, v);
        if VictimBeaten(s.h, s.dv, s.dvsize, nb) { BeatenBy(s, g, nb, v); }
      }
    }

    lemma BinnedMember(s: State, g: Segment, v: int)
      requires HeapOK(s, g) && v in Binned(s.h, s.dv, {})
      ensures v in s.h && !s.h[v].used && v != s.dv && Binned(s.h, s.dv, {})[v] == s.h[v].size < WORD && v > 0
    {
      ReadChunk(s, g, v);
    }

    /** The searching part of tmalloc_small. */
    method FindSmallest(nb: int) returns (v: int, rsize: int)
      requires Good(St(), Seg(), {}) && 0 < nb < 256 && treemap != 0
      ensures BestLarge(Binned(h, dv, {}), nb, v) && rsize == Binned(h, dv, {})[v] - nb && v != 0 && v in Heads(b)
    {
      hide HeapOK, BinsOK, Binned, Walking, Above, Below, BestFit, NoneUpTo, SmallBelow, BestLarge, Marked,
        LeftmostChild, LeftPlace, RightPlace, TreeBin, Fit, Leftmost;
      ghost var s, inv, heads := St(), Binned(h, dv, {}), Heads(b);
      var i := FirstMark(treemap);
      WalkBin(s, Seg(), {}, i);
      ZeroSmallBelow(nb);
      UnmarkedNone(s, Seg(), {}, nb, 0, i);
      AboveRequest(s, Seg(), {}, nb, i);
      var t := Rd(mem, TreeBin(Ms(), i));
      ghost var c := RootPlace(b.tree[i], i);
      LeftmostRoot(mem, inv, heads, nb, t, c);
      v, rsize := t, SizeOf(Head(mem, t)) - nb;
      t := LeftmostChild(mem, t);
      v, rsize :=
        SearchLeftmost(mem, t, nb, v, rsize, if c.t.l.Node? then LeftPlace(c) else RightPlace(c), inv, heads);
      FirstFitIsBest(s, Seg(), {}, nb, 0, i, v);
    }

    lemma LeftmostRoot(m: Mem, inv: Inventory, heads: set<int>, nb: int, t: int, c: Place)
      requires Walking(m, inv, heads, t, c) && c.t.Node? && Above(c.t, nb) && 0 < nb < WORD
      ensures c.k > 0 && t != 0
      ensures var sz, c' := SizeOf(Head(m, t)), if c.t.l.Node? then LeftPlace(c) else RightPlace(c);
              && Walking(m, inv, heads, LeftmostChild(m, t), c') && Found(inv, heads, t, sz - nb, nb)
              && Above(c'.t, nb)
              && Min(sz, BestFit(c'.t, nb)) == BestFit(c.t, nb) && BestFit(c.t, nb) < WORD
    {
      WalkOn(m, inv, heads, t, c);
      BestFitTop(c.t, c.lo, c.k, nb);
      FitBelow(c.t, nb, WORD);
      LeftmostVisited(m, inv, heads, nb, BestFit(c.t, nb), t, c, WORD, Min(WORD, Fit(c.t.sz, nb)));
      ChildAbove(c.t, nb);
      FoundHere(inv, heads, c.t, nb);
    }

    /** tmalloc_small: a smallest tree chunk. */
    method TmallocSmall(nb: int) returns (mem0: int)
      requires Valid() && MIN_CHUNK_SIZE <= nb < 256 && nb % 8 == 0 && treemap != 0 && dvsize < nb
      modifies `mem, `h, `b, `smallmap, `treemap, `dv, `dvsize
      ensures Valid() && mem0 != 0
      ensures old(BestLarge(Binned(h, dv, {}), nb, mem0 - 8)) && Served(old(mem), old(h), mem, h, base, mem0 - 8, nb)
      ensures var p := mem0 - 8;
              && p in old(h)
              && if old(h)[p].size - nb < MIN_CHUNK_SIZE then dv == old(dv) && dvsize == old(dvsize)
                 else dv == p + nb && dvsize == old(h)[p].size - nb
      ensures mem0 - 8 in old(Heads(b)) && Given(old(View(St())), View(St()), nb, mem0 - 8)
    {
      hide HeapOK, BinsOK, BestLarge, NoLarge, Served, Binned, PayloadKept, QueuesOf, Pushed, Pulled, Taken, Heads;
      ghost var s0 := St();
      ghost var m0 := mem;
      var v, rsize := FindSmallest(nb);
      BestIsLarge(Binned(h, dv, {}), nb, v);
      ReadMember(St(), Seg(), {}, v);
      BinnedSize(h, dv, v);
      FreeNext(St(), Seg(), v);
      assert OkAddress(v) && v < v + nb && SizeOf(Head(mem, v)) == rsize + nb;
      NotTop(St(), Seg(), v);
      UnlinkLargeChunk(v, {});
      assert {} + {v} == {v};
      ServeSmall(v, nb, rsize, m0);
      mem0 := v + 8;
    }

    lemma BestIsLarge(inv: Inventory, nb: int, v: int)
      requires BestLarge(inv, nb, v)
      ensures v in inv && inv[v] >= 256 && inv[v] >= nb
    {
    }

    lemma BinnedSize(heap: Heap, victim: int, v: int)
      requires v in Binned(heap, victim, {})
      ensures v in heap && Binned(heap, victim, {})[v] == heap[v].size
    {
    }

    // ----- mspace_malloc

    /** The remainderless case: the first chunk of small bin `i`, of nb or nb + 8 bytes. */
    method ServeFit(i: nat, nb: int) returns (mem0: int)
      requires Valid() && i < 32 && Marked(smallmap, i) && MIN_CHUNK_SIZE <= nb <= 8 * i <= nb + 8
      modifies `mem, `h, `b, `smallmap
      ensures Valid() && mem0 > 8
      ensures var p := mem0 - 8;
        p in old(Binned(h, dv, {})) && old(h[p].size) == 8 * i && Served(old(mem), old(h), mem, h, base, p, nb)
      ensures i < |old(b.small)| && old(b.small)[i] != [] && mem0 - 8 == old(b.small)[i][0]
      ensures Given(old(View(St())), View(St()), nb, mem0 - 8)
    {
      hide HeapOK, BinsOK, Marked, Served, Binned, PayloadKept, Used, QueuesOf, Pushed, Pulled;
      ghost var m0, h0 := mem, h;
      var bin := SmallBin(Ms(), i);
      var p := Fd(mem, bin);
      UnlinkFirstSmallChunk(bin, p, i, {});
      NotTop(St(), Seg(), p);
      assert {} + {p} == {p} && {p} - {p} == {};
      FreeNext(St(), Seg(), p);
      ghost var m1 := mem;
      GiveWhole(p, 8 * i, {p});
      ServedWhole(m0, m1, mem, h0, base, p, nb);
      AboveFirst(St(), Seg());
      mem0 := p + 8;
    }

    lemma AboveFirst(s: State, g: Segment)
      requires HeapOK(s, g)
      ensures g.first > 0
    {
    }

    /** A chunk of the next non-empty small bin is split; on 4-byte sizes there is no other case. */
    method ServeNextBin(i: nat, nb: int) returns (mem0: int)
      requires Valid() && i < 32 && Marked(smallmap, i) && MIN_CHUNK_SIZE <= nb && 8 * i - nb >= MIN_CHUNK_SIZE
      requires nb % 8 == 0 && dvsize < 256
      modifies `mem, `h, `b, `smallmap, `dv, `dvsize
      ensures Valid() && mem0 > 8
      ensures var p := mem0 - 8;
        p in old(Binned(h, dv, {})) && old(h[p].size) == 8 * i && Served(old(mem), old(h), mem, h, base, p, nb)
      ensures var p := mem0 - 8; p in old(h) && h == Split(old(h), p, nb) && dv == p + nb && dvsize == 8 * i - nb
      ensures i < |old(b.small)| && old(b.small)[i] != [] && mem0 - 8 == old(b.small)[i][0]
      ensures Given(old(View(St())), View(St()), nb, mem0 - 8)
    {
      hide HeapOK, BinsOK, Marked, Served, Binned, PayloadKept, Used, QueuesOf, Pushed, Pulled;
      ghost var m0, h0 := mem, h;
      var bin := SmallBin(Ms(), i);
      var p := Fd(mem, bin);
      UnlinkFirstSmallChunk(bin, p, i, {});
      NotTop(St(), Seg(), p);
      assert {} + {p} == {p};
      FreeNext(St(), Seg(), p);
      AboveFirst(St(), Seg());
      SplitSmall(p, nb, 8 * i - nb, m0);
      mem0 := p + 8;
    }

    /** The designated victim is split, or given away whole. */
    method ServeVictim(nb: int) returns (mem0: int)
      requires Valid() && MIN_CHUNK_SIZE <= nb <= dvsize && nb % 8 == 0
      modifies `mem, `h, `dv, `dvsize
      ensures Valid() && mem0 > 8 && mem0 - 8 == old(dv) && Served(old(mem), old(h), mem, h, base, mem0 - 8, nb)
      ensures Given(old(View(St())), View(St()), nb, mem0 - 8)
    {
      hide HeapOK, BinsOK, Served, PayloadKept, Used, Split, BinsRep, Tiled, QueuesOf, Pushed, Pulled, Tagged;
      ghost var s0, m0, h0 := St(), mem, h;
      VictimIsFree(s0, Seg());
      FreeNext(s0, Seg(), dv);
      AboveFirst(s0, Seg());
      var rsize, p := dvsize - nb, dv;
      NotTop(s0, Seg(), p);
      NothingKept(m0, h0, base);
      if rsize >= MIN_CHUNK_SIZE {
        SplitMapped(s0, Seg(), p, nb);
        dv := p + nb;
        dvsize := rsize;
        var m := TagFree(mem, p + nb, rsize);
        mem := Wr(m, p + HEAD, HeadWord(nb, true, true));
        h := Split(h, p, nb);
        TakeFirst(s0, St(), Seg(), {}, p, nb);
        NothingKept(mem, h, base);
        ServedFirst(m0, m0, mem, mem, h0, base, top, p, nb);
      } else {
        var dvs := dvsize;
        dvsize := 0;
        dv := 0;
        NoVictim(s0, St(), Seg(), {});
        assert {} + {p} == {p} && {p} - {p} == {};
        GiveWhole(p, dvs, {p});
        ServedWhole(m0, m0, mem, h0, base, p, nb);
      }
      mem0 := p + 8;
    }

    /** A chunk is cut from top. */
    method ServeTop(nb: int) returns (mem0: int)
      requires Valid() && MIN_CHUNK_SIZE <= nb < topsize && nb % 8 == 0
      modifies `mem, `h, `top, `topsize
      ensures Valid() && mem0 > 8 && mem0 - 8 == old(top)
      ensures h == old(h)[old(top) := Chunk(nb, true, true)] && PayloadKept(old(mem), mem, old(h), base)
      ensures Given(old(View(St())), View(St()), nb, mem0 - 8)
    {
      hide HeapOK, BinsOK, PayloadKept, HeadWord, Binned, QueuesOf;
      ghost var s0 := St();
      ReadTop(s0, Seg());
      AboveFirst(s0, Seg());
      assert top + nb + HEAD in mem && top + HEAD in mem;
      topsize := topsize - nb;
      var rsize, p := topsize, top;
      top := p + nb;
      var m := Wr(mem, p + nb + HEAD, HeadWord(rsize, true, false));
      mem := Wr(m, p + HEAD, HeadWord(nb, true, true));
      h := h[p := Chunk(nb, true, true)];
      TakeTop(s0, St(), Seg(), nb);
      mem0 := p + 8;
    }

    /** What is left when no bin serves the request: the designated victim if that is large
        enough, and otherwise no free chunk at all. */
    static ghost predicate BinsFail(s: State, nb: int) {
      if nb > s.dvsize then NoneFree(s.h, nb) else if nb < 256 then SmallChoice(s.h, s.dv, nb, s.dv)
        else BestFree(s.h, nb, s.dv)
    }

    lemma LargeBinsFail(s: State, g: Segment, nb: int)
      requires Good(s, g, {}) && nb >= 256 && !VictimBeaten(s.h, s.dv, s.dvsize, nb)
      ensures BinsFail(s, nb)
    {
      hide HeapOK, BinsOK;
      if s.dvsize != 0 { VictimIsFree(s, g); }
      forall q | q in s.h && !s.h[q].used
        ensures if nb > s.dvsize then s.h[q].size < nb else s.h[q].size >= nb ==> s.dvsize <= s.h[q].size
      {
        FreeCases(s, g, q);
      }
    }

    lemma NoTreesUnbeaten(s: State, g: Segment, nb: int)
      requires Good(s, g, {}) && s.treemap == 0
      ensures NoLarge(Binned(s.h, s.dv, {}), nb) && !VictimBeaten(s.h, s.dv, s.dvsize, nb)
    {
      hide HeapOK, BinsOK, Marked;
      NoneMarked(s.treemap);
      NoTrees(s, g, nb);
      forall q | q in s.h && !s.h[q].used && q != s.dv && s.h[q].size >= 256
        ensures s.h[q].size < nb
      {
        FreeCases(s, g, q);
      }
    }

    lemma GrantServed(s: State, s': State, g: Segment, bytes: int, mem0: int)
      requires HeapOK(s, g) && 0 <= bytes < MAX_REQUEST && mem0 != 0
      requires Served(s.m, s.h, s'.m, s'.h, g.first, mem0 - 8, RequestSize(bytes))
      requires var nb := RequestSize(bytes);
        if nb < 256 then SmallChoice(s.h, s.dv, nb, mem0 - 8) else BestFree(s.h, nb, mem0 - 8)
      ensures Granted(s, s', g.first, bytes, mem0) && !Refused(s.h, s.topsize, bytes)
    {
      hide HeapOK, Added, Served, Refused;
      RequestSizeFits(bytes);
      ServedAdded(s, s', g, RequestSize(bytes), mem0 - 8);
      ChoiceMeansNotRefused(s.h, s.dv, s.top, s.topsize, bytes, mem0 - 8);
    }

    /** The end of mspace_malloc: designated victim, top, or nothing. */
    method ServeRest(nb: int, ghost bytes: int) returns (mem0: int)
      requires Valid() && 0 <= bytes
      requires if bytes >= MAX_REQUEST then nb == WORD - 1 else nb == RequestSize(bytes) && BinsFail(St(), nb)
      requires bytes < MAX_REQUEST ==> OnlyRest(View(St()), nb)
      modifies `mem, `h, `dv, `dvsize, `top, `topsize
      ensures Valid() && Granted(old(St()), St(), base, bytes, mem0) && (mem0 == 0 <==> old(Refused(h, topsize, bytes)))
      ensures mem0 != 0 ==> Allocated(old(View(St())), View(St()), RequestSize(bytes), mem0 - 8)
    {
      hide HeapOK, BinsOK, Added, Served, PayloadKept, SmallChoice, BestFree, NoneFree, Given, Chosen, QueuesOf;
      ghost var s0 := St();
      SizesInWord(s0, Seg());
      if bytes < MAX_REQUEST { RequestSizeFits(bytes); }
      if nb <= dvsize {
        mem0 := ServeVictim(nb);
        GrantServed(s0, St(), Seg(), bytes, mem0);
      } else if nb < topsize {
        mem0 := ServeTop(nb);
        TopAdded(s0, St(), Seg(), nb);
        ChoiceMeansNotRefused(s0.h, s0.dv, s0.top, s0.topsize, bytes, mem0 - 8);
      } else {
        mem0 := 0;
      }
    }

    lemma SizesInWord(s: State, g: Segment)
      requires HeapOK(s, g)
      ensures 0 <= s.dvsize < WORD - 1 && 0 < s.topsize < WORD - 1
    {
      FirstBound(s, g);
      ChunkBounds(s.h, g.first, s.top, g.first);
      if s.dvsize != 0 { ReadChunk(s, g, s.dv); }
    }

    /** The small-request part of mspace_malloc. If it serves nothing it has changed nothing, and the
        designated victim and top are what is left. */
    method ServeSmallRequest(nb: int, ghost bytes: int) returns (mem0: int, served: bool)
      requires Valid() && 0 <= bytes <= MAX_SMALL_REQUEST
      requires nb == if bytes < MIN_REQUEST then MIN_CHUNK_SIZE else PadRequest(bytes)
      modifies this
      ensures Valid()
      ensures served ==> mem0 != 0 && Granted(old(St()), St(), base, bytes, mem0) && !old(Refused(h, topsize, bytes))
      ensures served ==> Allocated(old(View(St())), View(St()), nb, mem0 - 8)
      ensures !served ==> St() == old(St()) && BinsFail(St(), nb) && OnlyRest(View(St()), nb)
    {
      hide HeapOK, BinsOK, Added, Served, BinsFail, Binned, BestLarge, SmallChoice, BestFree, Refused, Choice,
        VictimBeaten, NoneMarkedUpTo, Marked, ShiftRight, RequestSize, PadRequest, NoLarge, Granted, Given, Chosen,
        OnlyRest, QueuesOf, Heads, First;
      ghost var s0 := St();
      mem0, served := 0, false;
      SmallRequestSize(bytes, nb);
      var idx := nb / 8;
      var smallbits, fits, j := SmallFit(smallmap, idx);
      if fits {
        mem0 := ServeFit(j, nb);
        NearChosen(s0, Seg(), idx, j);
        SmallBinChoice(s0, Seg(), nb, idx, j, mem0 - 8);
        GrantServed(s0, St(), Seg(), bytes, mem0);
        return mem0, true;
      } else if nb > dvsize {
        NotMarkedHere(smallmap, idx);
        if smallbits != 0 {
          var i := NextSmall(smallmap, smallbits, idx);
          TwoAbove(smallmap, idx, i);
          mem0 := ServeNextBin(i, nb);
          NextChosen(s0, Seg(), idx, i);
          SmallBinChoice(s0, Seg(), nb, idx, i, mem0 - 8);
          GrantServed(s0, St(), Seg(), bytes, mem0);
          return mem0, true;
        }
        NoSmallBits(smallmap, smallbits, idx);
        if treemap != 0 {
          mem0 := TmallocSmall(nb);
          TreeChosen(s0, Seg(), idx, mem0 - 8);
          TreeChoice(s0, Seg(), nb, idx, mem0 - 8);
          GrantServed(s0, St(), Seg(), bytes, mem0);
          return mem0, true;
        }
        NoTreesUnbeaten(s0, Seg(), nb);
        SmallNoneFree(s0, Seg(), nb, idx);
      } else {
        VictimChoice(s0, Seg(), nb, idx);
      }
      SmallBinsFail(s0, nb);
      SmallRest(s0, Seg(), idx);
    }

    /** mspace_malloc. Null exactly for the requests that are refused, and then nothing has
        changed; otherwise a block as Granted describes it. */
    method Malloc(bytes: int) returns (mem0: int)
      requires Valid() && 0 <= bytes < WORD
      modifies this
      ensures Valid()
      ensures Granted(old(St()), St(), base, bytes, mem0)
      ensures mem0 == 0 <==> old(Refused(h, topsize, bytes))
      ensures mem0 != 0 ==> Allocated(old(View(St())), View(St()), RequestSize(bytes), mem0 - 8)
    {
      hide HeapOK, BinsOK, Added, Served, BinsFail, Binned, BestLarge, SmallChoice, BestFree, Refused, Choice,
        VictimBeaten, RequestSize, PadRequest, NoLarge, Granted, Given, Chosen, OnlyRest, QueuesOf, First;
      ghost var s0 := St();
      var nb;
      if bytes <= MAX_SMALL_REQUEST {
        nb := if bytes < MIN_REQUEST then MIN_CHUNK_SIZE else PadRequest(bytes);
        SmallRequestSize(bytes, nb);
        var served;
        mem0, served := ServeSmallRequest(nb, bytes);
        if served { return; }
      } else if bytes >= MAX_REQUEST {
        nb := WORD - 1;
      } else {
        nb := PadRequest(bytes);
        LargeRequestSize(bytes, nb);
        if treemap != 0 {
          mem0 := TmallocLarge(nb);
          if mem0 != 0 {
            LargeChoice(s0, Seg(), nb, mem0 - 8);
            GrantServed(s0, St(), Seg(), bytes, mem0);
            return;
          }
        } else {
          NoTreesUnbeaten(s0, Seg(), nb);
        }
        LargeBinsFail(s0, Seg(), nb);
        LargeOnlyRest(s0, Seg(), nb);
      }
      mem0 := ServeRest(nb, bytes);
    }

    lemma LargeOnlyRest(s: State, g: Segment, nb: int)
      requires Good(s, g, {}) && nb >= 256 && BinsFail(s, nb)
      ensures OnlyRest(View(s), nb)
    {
      hide HeapOK, BinsOK, QueuesOf;
      LargeRest(s, g, nb);
    }

    lemma SmallBinsFail(s: State, nb: int)
      requires nb < 256 && if nb > s.dvsize then NoneFree(s.h, nb) else SmallChoice(s.h, s.dv, nb, s.dv)
      ensures BinsFail(s, nb)
    {
    }

    lemma SmallRequestSize(bytes: int, nb: int)
      requires 0 <= bytes <= MAX_SMALL_REQUEST
      requires nb == if bytes < MIN_REQUEST then MIN_CHUNK_SIZE else PadRequest(bytes)
      ensures nb == RequestSize(bytes) && MIN_CHUNK_SIZE <= nb < 256 && nb % 8 == 0 && nb == 8 * (nb / 8)
      ensures 0 < nb / 8 < 32
    {
      RequestSizeFits(bytes);
    }

    lemma LargeRequestSize(bytes: int, nb: int)
      requires MAX_SMALL_REQUEST < bytes < MAX_REQUEST && nb == PadRequest(bytes)
      ensures nb == RequestSize(bytes) && 256 <= nb < WORD && nb % 8 == 0
    {
      RequestSizeFits(bytes);
    }

    lemma NotMarkedHere(x: bv32, i: nat)
      requires i < 32 && NoneMarkedUpTo(x, i, if i == 31 then 32 else i + 2)
      ensures !Marked(x, i)
    {
    }

    /** Neither the request's bin nor the next is marked: a bin that is lies two above or more. */
    lemma TwoAbove(x: bv32, i: nat, j: nat)
      requires i <= j < 32 && NoneMarkedUpTo(x, i, if i == 31 then 32 else i + 2) && Marked(x, j)
      ensures j >= i + 2
    {
      hide Marked;
    }

    lemma NoSmallBits(x: bv32, smallbits: bv32, i: nat)
      requires i < 32 && smallbits == ShiftRight(x, i) && smallbits == 0
      ensures NoneMarkedUpTo(x, i, 32)
    {
      SmallBitsLeft(x, smallbits, i);
    }

    lemma LargeChoice(s: State, g: Segment, nb: int, v: int)
      requires Good(s, g, {}) && nb >= 256 && VictimBeaten(s.h, s.dv, s.dvsize, nb)
      requires BestLarge(Binned(s.h, s.dv, {}), nb, v)
      ensures BestFree(s.h, nb, v)
    {
      hide HeapOK, BinsOK;
      assert v in s.h && !s.h[v].used && s.h[v].size == Binned(s.h, s.dv, {})[v];
      forall q | q in s.h && !s.h[q].used && s.h[q].size >= nb
        ensures s.h[v].size <= s.h[q].size
      {
        FreeCases(s, g, q);
        BeatenBy(s, g, nb, v);
      }
    }

    lemma BeatenBy(s: State, g: Segment, nb: int, v: int)
      requires Good(s, g, {}) && nb >= 256 && VictimBeaten(s.h, s.dv, s.dvsize, nb)
      requires BestLarge(Binned(s.h, s.dv, {}), nb, v)
      ensures s.dvsize < nb || Binned(s.h, s.dv, {})[v] < s.dvsize
    {
      hide HeapOK, BinsOK;
      var q :| q in s.h && !s.h[q].used && q != s.dv && s.h[q].size >= 256 && s.h[q].size >= nb
        && (s.dvsize < nb || s.h[q].size < s.dvsize);
      FreeCases(s, g, q);
    }

    // ----- mspace_free

    /** set_free_with_pinuse */
    static method TagFreeWithPinuse(m0: Mem, p: int, s: int, n: int) returns (m: Mem)
      requires p + HEAD in m0 && p + s in m0 && n + HEAD in m0 && s >= MIN_CHUNK_SIZE && n == p + s
      ensures Stores(m0, m, {p + HEAD, n, n + HEAD}) && Head(m, p) == HeadWord(s, true, false) && Foot(m, n) == s
      ensures Head(m, n) == ClearPInUse(Head(m0, n))
    {
      m := Wr(m0, n + HEAD, ClearPInUse(Head(m0, n)));
      m := TagFree(m, p, s);
    }

    /** The chunks from `lo` to `hi` become one free chunk; `newdv` and `newdvsize` say whether it
        is the designated victim. The used chunk among them is `p`. */
    method MergeFree(lo: int, size: int, hi: int, nextUsed: bool, newdv: int, newdvsize: int, ghost loose: set<int>,
          ghost p: int)
      requires Good(St(), Seg(), loose) && FreeSpan(h, base, p, lo) && hi in h && h[hi].used && hi == lo + size
      requires hi == Next(h, p) || (Next(h, p) in h && !h[Next(h, p)].used && hi == Next(h, Next(h, p)))
      requires nextUsed <==> hi == Next(h, p)
      requires forall q :: q in h && lo <= q < hi && !h[q].used ==> q in loose || q == dv
      requires if Within(dv, lo, hi) then newdv == lo && newdvsize == size else newdv == dv && newdvsize == dvsize
      modifies `mem, `h, `dv, `dvsize
      ensures Good(St(), Seg(), Outside(loose, lo, hi) + if Within(old(dv), lo, hi) then {} else {lo})
      ensures Live(h, base) == Live(old(h), base) - {p} && PayloadKept(old(mem), mem, h, base)
      ensures dv == newdv && dvsize == newdvsize && lo in h && h[lo].size == size
      ensures h == Coalesced(old(h), lo, hi)
    {
      hide HeapOK, BinsOK, PayloadKept, Live, FreeSpan, Binned, Stores, Coalesced, Next, Rd;
      ghost var s0 := St();
      SpanStart(s0, Seg(), p, lo);
      ReadChunk(s0, Seg(), p);
      ReadChunk(s0, Seg(), hi);
      SpanTail(s0, Seg(), p, hi);
      SpanFree(s0, Seg(), p, lo, hi);
      ReadTop(s0, Seg());
      if !nextUsed { ReadChunk(s0, Seg(), Next(h, p)); }
      HeadWordFields(h[hi].size, h[hi].pin, true);
      dv := newdv;
      dvsize := newdvsize;
      mem := MergeTags(mem, lo, size, hi, nextUsed);
      h := Coalesced(h, lo, hi);
      Coalesce(s0, St(), Seg(), loose, lo, hi);
      TiledOf(s0, Seg());
      CoalescedLive(s0.h, base, s0.top, lo, hi, p);
      CoalescedAt(s0.h, lo, hi);
    }

    lemma CoalescedAt(heap: Heap, lo: int, hi: int)
      requires hi in heap && lo != hi
      ensures lo in Coalesced(heap, lo, hi) && Coalesced(heap, lo, hi)[lo].size == hi - lo
    {
    }

    lemma SpanFree(s: State, g: Segment, p: int, lo: int, hi: int)
      requires HeapOK(s, g) && FreeSpan(s.h, g.first, p, lo)
      requires hi == Next(s.h, p) || (Next(s.h, p) in s.h && !s.h[Next(s.h, p)].used && hi == Next(s.h, Next(s.h, p)))
      ensures forall q :: q in s.h && lo <= q < hi && q != p ==> !s.h[q].used
    {
      hide Tagged, DvOK, WholeSegment;
      SpanStart(s, g, p, lo);
      SpanTail(s, g, p, hi);
    }

    /** set_free_with_pinuse if the chunk behind the freed one is in use, and otherwise
        set_size_and_pinuse_of_free_chunk. */
    static method MergeTags(m0: Mem, lo: int, size: int, hi: int, nextUsed: bool) returns (m: Mem)
      requires nextUsed == PInUse(Head(m0, hi))
      requires lo + HEAD in m0 && hi in m0 && hi + HEAD in m0 && size >= MIN_CHUNK_SIZE && hi == lo + size
      ensures Stores(m0, m, {lo + HEAD, hi, hi + HEAD}) && Head(m, lo) == HeadWord(size, true, false)
      ensures Foot(m, hi) == size
      ensures Head(m, hi) == ClearPInUse(Head(m0, hi))
    {
      if nextUsed {
        m := TagFreeWithPinuse(m0, lo, size, hi);
      } else {
        m := TagFree(m0, lo, size);
      }
    }

    lemma TiledOf(s: State, g: Segment)
      requires HeapOK(s, g)
      ensures Tiled(s.h, g.first, s.top)
    {
    }

    /** Behind the used chunk lies at most one free chunk before `hi`. */
    lemma SpanTail(s: State, g: Segment, p: int, hi: int)
      requires HeapOK(s, g) && p in s.h
      requires hi == Next(s.h, p) || (Next(s.h, p) in s.h && !s.h[Next(s.h, p)].used && hi == Next(s.h, Next(s.h, p)))
      ensures p < hi && hi in s.m
      ensures forall q :: q in s.h && p < q < hi ==> q == Next(s.h, p) && !s.h[q].used
    {
      hide Tagged, DvOK;
      ReadChunk(s, g, p);
      if hi != Next(s.h, p) { ReadChunk(s, g, Next(s.h, p)); }
      TailOnly(s.h, p, hi);
    }

    lemma TailOnly(heap: Heap, p: int, hi: int)
      requires Ordered(heap) && p in heap && heap[p].size > 0
      requires hi == Next(heap, p)
        || (Next(heap, p) in heap && !heap[Next(heap, p)].used && hi == Next(heap, Next(heap, p)))
      ensures forall q :: q in heap && p < q < hi ==> q == Next(heap, p) && !heap[q].used
    {
    }

    /** The chunks from `lo` on join top. */
    method MergeTop(lo: int, size: int, ghost loose: set<int>, ghost p: int)
      requires Good(St(), Seg(), loose) && FreeSpan(h, base, p, lo) && top == Next(h, p) && size == top - lo
      requires forall q :: q in h && lo <= q && !h[q].used ==> q in loose || q == dv
      modifies `mem, `h, `dv, `dvsize, `top, `topsize
      ensures Good(St(), Seg(), Outside(loose, lo, old(top)))
      ensures Live(h, base) == Live(old(h), base) - {p} && PayloadKept(old(mem), mem, h, base)
      ensures h == Absorbed(old(h), lo) && top == lo && topsize == old(topsize) + size
      ensures if old(dv) == lo then dv == 0 && dvsize == 0 else dv == old(dv) && dvsize == old(dvsize)
    {
      hide HeapOK, BinsOK, PayloadKept, Live, FreeSpan, Binned, Absorbed;
      ghost var s0 := St();
      SpanStart(s0, Seg(), p, lo);
      VictimSize(s0, Seg());
      TopSpan(s0, Seg(), p, lo);
      var tsize := topsize + size;
      topsize := tsize;
      top := lo;
      mem := Wr(mem, lo + HEAD, HeadWord(tsize, true, false));
      if lo == dv {
        dv := 0;
        dvsize := 0;
      }
      h := Absorbed(h, lo);
      Absorb(s0, St(), Seg(), loose, lo);
      TiledOf(s0, Seg());
      AbsorbedLive(s0.h, base, s0.top, lo, p);
    }

    /** In front of top, only the freed chunk and the free chunk before it can be meant. */
    lemma TopSpan(s: State, g: Segment, p: int, lo: int)
      requires HeapOK(s, g) && FreeSpan(s.h, g.first, p, lo) && s.top == Next(s.h, p)
      ensures forall q :: q in s.h && lo <= q && q != p ==> q == lo && !s.h[q].used
      ensures lo > 0 && forall q :: q in s.h ==> q < s.top
    {
      hide Tagged, DvOK, WholeSegment;
      SpanStart(s, g, p, lo);
      BelowTop(s.h, g.first, s.top);
    }

    /** The loose chunks while a block is being freed: at most the free chunk found in front of it. */
    ghost predicate Freeing(s: State, block: int, p: int, next: int, loose: set<int>) {
      && Good(s, Seg(), loose) && FreeSpan(s.h, base, block, p) && block in s.h && next == Next(s.h, block)
      && (loose == {} || loose == {p})
      && (p == block ==> loose == {}) && (p != block ==> p == s.dv || loose == {p})
    }

    /** The free chunk behind the block, which waits in a queue, is unlinked and merged. */
    method MergeNext(p: int, psize0: int, next: int, ghost loose: set<int>, ghost block: int, ghost m0: Mem)
      returns (psize: int, wasDv: bool, ghost hi: int, ghost m1: Mem)
      requires Freeing(St(), block, p, next, loose) && psize0 == next - p && PayloadKept(m0, mem, h, base)
      requires next in h && !h[next].used && next != dv
      modifies `mem, `h, `b, `smallmap, `treemap, `dv, `dvsize
      ensures hi == next + old(h)[next].size && psize == hi - p && p in h && h[p].size == psize
      ensures wasDv == (old(dv) == p) && dv == old(dv) && dvsize == if wasDv then psize else old(dvsize)
      ensures QueuesOf(b) == Pulled(old(QueuesOf(b)), hi - next, next)
      ensures PayloadKept(m0, m1, old(h), base) && PayloadKept(m1, mem, h, base)
      ensures hi in old(h) && h == Coalesced(old(h), p, hi)
      ensures Live(h, base) == Live(old(h), base) - {block}
      ensures Good(St(), Seg(), if wasDv then {} else {p})
    {
      hide HeapOK, BinsOK, PayloadKept, Live, FreeSpan, Binned, PInUse, CInUse, QueuesOf, Pulled, Coalesced;
      ghost var s0, m := St(), mem;
      ForwardReads(s0, Seg(), block, p, next, loose);
      var nsize := SizeOf(Head(mem, next));
      psize := psize0 + nsize;
      hi := next + nsize;
      UnlinkChunk(next, nsize, loose);
      PayloadKeptTwice(m0, m, mem, h, base);
      m1 := mem;
      wasDv := p == dv;
      AfterUnlink(s0, block, p, next, loose);
      MergeFree(p, psize, next + nsize, false, dv, if wasDv then psize else dvsize, loose + {next}, block);
      assert Outside(loose + {next}, p, next + nsize) + {} == {}
        && Outside(loose + {next}, p, next + nsize) + {p} == {p};
    }

    /** The second half of mspace_free: merge with what follows and put the result in its place. */
    method FreeForward(p: int, psize0: int, next: int, ghost loose: set<int>, ghost block: int, ghost m0: Mem)
      requires Freeing(St(), block, p, next, loose) && psize0 == next - p && PayloadKept(m0, mem, h, base)
      requires p == dv ==> next == top || (next in h && !h[next].used)
      modifies this
      ensures Valid() && Removed(m0, Live(old(h), base), mem, Live(h, base), block)
      ensures Merged(old(View(St())), View(St()), block, p)
    {
      hide HeapOK, BinsOK, PayloadKept, Live, FreeSpan, Binned, Removed, PInUse, CInUse, QueuesOf, Pushed, Pulled,
        Coalesced, Absorbed, Merged;
      ghost var h0, s0 := h, St();
      var psize := psize0;
      ForwardReads(s0, Seg(), block, p, next, loose);
      assert p < next && PInUse(Head(mem, next));
      ghost var m1 := mem;
      if !CInUse(Head(mem, next)) {
        if next == top {
          MergeTop(p, psize, loose, block);
          assert Outside(loose, p, next) == {};
          RemovedAfter(m0, m1, mem, h0, h, base, block);
          TopMerged(View(s0), View(St()), block, p);
          return;
        } else if next == dv {
          var dsize := dvsize + psize;
          MergeFree(p, dsize, next + dvsize, false, p, dsize, loose, block);
          assert Outside(loose, p, next + s0.dvsize) + {} == {};
          RemovedAfter(m0, m1, mem, h0, h, base, block);
          VictimMerged(View(s0), View(St()), block, p);
          return;
        } else {
          var wasDv;
          ghost var hi;
          psize, wasDv, hi, m1 := MergeNext(p, psize, next, loose, block, m0);
          if wasDv {
            RemovedAfter(m0, m1, mem, h0, h, base, block);
            VictimMerged(View(s0), View(St()), block, p);
            return;
          }
        }
      } else {
        MergeFree(p, psize, next, true, dv, dvsize, loose, block);
        assert Outside(loose, p, next) + {p} == {p};
      }
      ghost var m2 := mem;
      assert {p} - {p} == {};
      InsertChunk(p, psize, {p});
      PayloadKeptTwice(m1, m2, mem, h, base);
      RemovedAfter(m0, m1, mem, h0, h, base, block);
      QueueMerged(View(s0), View(St()), block, p);
    }

    lemma AfterUnlink(s: State, block: int, p: int, next: int, loose: set<int>)
      requires Freeing(s, block, p, next, loose) && next in s.h && !s.h[next].used && next != s.dv
      ensures !Within(s.dv, p, next + s.h[next].size) || s.dv == p
    {
      hide BinsOK;
      SpanOfDv(s, Seg(), block, p, next);
    }

    lemma SpanOfDv(s: State, g: Segment, block: int, p: int, next: int)
      requires HeapOK(s, g) && FreeSpan(s.h, g.first, block, p) && block in s.h && next == Next(s.h, block)
      requires next in s.h && !s.h[next].used
      ensures Within(s.dv, p, next + s.h[next].size) ==> s.dv == p || s.dv == next
    {
      hide Tagged, WholeSegment;
      SpanStart(s, g, block, p);
      SpanTail(s, g, block, next + s.h[next].size);
    }

    /** What mspace_free reads from the chunk behind the block. */
    lemma ForwardReads(s: State, g: Segment, block: int, p: int, next: int, loose: set<int>)
      requires g == Seg() && Freeing(s, block, p, next, loose)
      ensures p in s.h && p < next && p > 0 && PInUse(Head(s.m, next)) && block in Live(s.h, base)
      ensures next == s.top || next in s.h
      ensures next == s.top ==>
        !CInUse(Head(s.m, next)) && forall q :: q in s.h && p <= q && !s.h[q].used ==> q in loose || q == s.dv
      ensures next != s.top ==>
                && CInUse(Head(s.m, next)) == s.h[next].used && SizeOf(Head(s.m, next)) == s.h[next].size > 0
                && (next == s.dv ==> !s.h[next].used && s.h[next].size == s.dvsize)
                && (!s.h[next].used ==> Next(s.h, next) in s.h && s.h[Next(s.h, next)].used)
                && (!s.h[next].used ==> next !in loose && (next != s.dv ==> next in Binned(s.h, s.dv, loose)))
                && (forall q :: q in s.h && p <= q < next && !s.h[q].used ==> q in loose || q == s.dv)
                && (!s.h[next].used ==> forall q :: q in s.h && p <= q < Next(s.h, next) && !s.h[q].used ==>
                   q in loose || q == next || q == s.dv)
      ensures next != s.top && s.h[next].used ==> !Within(s.dv, p, next) || s.dv == p
      ensures next == s.dv ==> Within(s.dv, p, next + s.dvsize)
    {
      hide BinsRep, Tagged, WholeSegment, Tiled;
      SpanStart(s, g, block, p);
      ReadChunk(s, g, block);
      ReadTop(s, g);
      VictimSize(s, g);
      if next == s.top {
        TopSpan(s, g, block, p);
      } else {
        ReadChunk(s, g, next);
        if !s.h[next].used { SpanTail(s, g, block, Next(s.h, next)); }
      }
    }

    lemma LiveChunk(s: State, g: Segment, p: int)
      requires HeapOK(s, g) && p in Live(s.h, g.first)
      ensures p in s.h && s.h[p].used && p >= g.first && p != s.dv && p > 0
      ensures CInUse(Head(s.m, p)) && PInUse(Head(s.m, p)) == s.h[p].pin && SizeOf(Head(s.m, p)) == s.h[p].size
      ensures s.h[p].pin ==> FreeSpan(s.h, g.first, p, p)
    {
      hide Tiled, Tagged, WholeSegment;
      ReadChunk(s, g, p);
      VictimSize(s, g);
    }

    /** The foot word in front of the block leads to the free chunk there. */
    lemma PreviousReads(s: State, g: Segment, p: int)
      requires Good(s, g, {}) && p in Live(s.h, g.first) && p in s.h && !s.h[p].pin
      ensures var prevsize := Foot(s.m, p);
              var prev := p - prevsize;
              && prevsize % 2 == 0 && prev >= g.first && prev in s.h && s.h[prev].size == prevsize
              && FreeSpan(s.h, g.first, p, prev) && prev != p
              && (prev != s.dv ==> prev in Binned(s.h, s.dv, {}))
    {
      hide BinsOK, Tiled, Tagged, WholeSegment;
      var prev := ReadPrevious(s, g, p);
      ReadChunk(s, g, prev);
    }

    lemma VictimBefore(s: State, g: Segment, block: int, p: int, next: int)
      requires HeapOK(s, g) && FreeSpan(s.h, g.first, block, p) && block in s.h && next == Next(s.h, block) && p == s.dv
      requires PInUse(Head(s.m, next)) && CInUse(Head(s.m, next))
      ensures next in s.h && next != s.top && s.h[next].used && Within(s.dv, p, next)
      ensures forall q :: q in s.h && p <= q < next && !s.h[q].used ==> q == s.dv
    {
      hide Tiled, Tagged, WholeSegment;
      SpanStart(s, g, block, p);
      ReadChunk(s, g, block);
      ReadTop(s, g);
      if next != s.top { ReadChunk(s, g, next); }
    }

    lemma VictimFollowed(s: State, g: Segment, block: int, p: int, next: int)
      requires HeapOK(s, g) && block in s.h && s.h[block].used && next == Next(s.h, block)
      requires !(PInUse(Head(s.m, next)) && CInUse(Head(s.m, next)))
      ensures next == s.top || (next in s.h && !s.h[next].used)
    {
      hide Tiled, Tagged, WholeSegment;
      ReadChunk(s, g, block);
      if next != s.top { ReadChunk(s, g, next); }
    }

    /** mspace_free of a null pointer or a live block. */
    method Free(mem0: int)
      requires Valid() && (mem0 == 0 || mem0 - 8 in Live(h, base))
      modifies this
      ensures Valid()
      ensures mem0 == 0 ==> St() == old(St())
      ensures mem0 != 0 ==> Removed(old(mem), old(Live(h, base)), mem, Live(h, base), mem0 - 8)
      ensures mem0 != 0 ==> Freed(old(View(St())), View(St()), mem0 - 8)
    {
      hide HeapOK, BinsOK, PayloadKept, Live, FreeSpan, Binned, Removed, QueuesOf, Pushed, Pulled, Coalesced, Absorbed,
        Merged, Released, Freed;
      if mem0 == 0 { return; }
      ghost var s0, m0, block := St(), mem, mem0 - 8;
      var p := mem0 - 8;
      LiveChunk(s0, Seg(), p);
      assert OkAddress(p) && CInUse(Head(mem, p));
      var psize := SizeOf(Head(mem, p));
      var next := p + psize;
      ghost var loose := {};
      NothingKept(mem, h, base);
      if !PInUse(Head(mem, p)) {
        PreviousReads(s0, Seg(), p);
        var prevsize := Foot(mem, p);
        assert prevsize % 2 == 0;
        var prev := p - prevsize;
        psize := psize + prevsize;
        p := prev;
        assert OkAddress(prev);
        if p != dv {
          UnlinkChunk(p, prevsize, {});
          assert {} + {p} == {p};
          loose := {p};
        } else if PInUse(Head(mem, next)) && CInUse(Head(mem, next)) {
          VictimBefore(s0, Seg(), block, p, next);
          MergeFree(p, psize, next, true, dv, psize, {}, block);
          assert Outside({}, p, next) + {} == {};
          RemovedAfter(m0, m0, mem, s0.h, h, base, block);
          SpanStarts(s0, Seg(), block, p);
          VictimMerged(View(s0), View(St()), block, p);
          FreedBy(View(s0), View(s0), View(St()), block, p);
          return;
        } else {
          VictimFollowed(s0, Seg(), block, p, next);
        }
      }
      SpanStarts(s0, Seg(), block, p);
      ghost var l1 := View(St());
      assert l1 == View(s0).(q := WithoutFront(View(s0), block, p));
      FreeForward(p, psize, next, loose, block, m0);
      FreedBy(View(s0), l1, View(St()), block, p);
    }

    // ----- callers

    /** A caller stores a word of its block; the allocator's state stays in order. */
    method Store(q: int, a: int, v: int)
      requires Valid() && InBlock(Live(h, base), q, a) && a in mem
      modifies `mem
      ensures Valid() && mem == old(mem)[a := v]
    {
      hide HeapOK, BinsOK;
      ghost var s0 := St();
      mem := Wr(mem, a, v);
      assert InPayload(h, base, q, a);
      PayloadStore(s0, St(), Seg(), {}, q, a);
    }

    // ----- memalign

    /** set_inuse */
    static method SetInuse(m0: Mem, p: int, s: int) returns (m: Mem)
      requires p + HEAD in m0 && p + s + HEAD in m0
      ensures var m1 := m0[p + HEAD := Head(m0, p) % 2 + s + 2];
        m == m1[p + s + HEAD := SetPInUse(Head(m1, p + s))]
    {
      m := Wr(m0, p + HEAD, Head(m0, p) % 2 + s + 2);
      m := Wr(m, p + s + HEAD, SetPInUse(Head(m, p + s)));
    }

    /** Cuts the live chunk `p` after `lead` bytes into two live chunks; set_inuse goes to the
        second part first, or to the first part first. */
    method CutBlock(p: int, lead: int, size: int, secondFirst: bool)
      requires Valid() && p in Live(h, base) && Live(h, base)[p] == size
      requires lead >= MIN_CHUNK_SIZE && lead % 8 == 0 && size - lead >= MIN_CHUNK_SIZE
      modifies `mem, `h
      ensures Valid() && p + lead !in old(Live(h, base))
      ensures Live(h, base) == old(Live(h, base))[p := lead][p + lead := size - lead]
      ensures BlocksKept(old(mem), mem, old(Live(h, base)) - {p}) && mem.Keys == old(mem.Keys)
      ensures p in old(h) && h == Cut(old(h), p, lead)
    {
      hide HeapOK, BinsOK, PayloadKept, Live, BlocksKept, Cut, Rd;
      ghost var s0 := St();
      LiveSize(h, base, p);
      CutReads(s0, Seg(), p, lead);
      if secondFirst {
        var m := SetInuse(mem, p + lead, size - lead);
        mem := SetInuse(m, p, lead);
      } else {
        var m := SetInuse(mem, p, lead);
        mem := SetInuse(m, p + lead, size - lead);
      }
      CutTags(s0.m, mem, p, lead, size, h[p].pin, secondFirst);
      h := Cut(h, p, lead);
      CutUsed(s0, St(), Seg(), p, lead);
      TiledOf(s0, Seg());
      CutLive(s0.h, base, s0.top, p, lead);
      CutKept(s0.m, mem, s0.h, base, p);
    }

    lemma LiveSize(heap: Heap, first: int, p: int)
      requires p in Live(heap, first)
      ensures p in heap && heap[p].used && p != first && Live(heap, first)[p] == heap[p].size
    {
    }

    lemma CutKept(m: Mem, m1: Mem, heap: Heap, first: int, p: int)
      requires PayloadKept(m, m1, heap - {p}, first)
      ensures BlocksKept(m, m1, Live(heap, first) - {p})
    {
      KeptBlocks(m, m1, heap - {p}, first);
      assert Live(heap - {p}, first) == Live(heap, first) - {p};
    }

    lemma CutReads(s: State, g: Segment, p: int, lead: int)
      requires HeapOK(s, g) && p in s.h && s.h[p].used && lead % 8 == 0 && MIN_CHUNK_SIZE <= lead < s.h[p].size
      ensures Head(s.m, p) == HeadWord(s.h[p].size, s.h[p].pin, true) && s.h[p].size % 8 == 0
      ensures p + HEAD in s.m && p + lead + HEAD in s.m && Next(s.h, p) + HEAD in s.m && PInUse(Head(s.m, Next(s.h, p)))
    {
      hide HeapOK, HeadWord, Head;
      ReadChunk(s, g, p);
      ReadTop(s, g);
      InnerHead(s, g, p, lead);
      if Next(s.h, p) != s.top { ReadChunk(s, g, Next(s.h, p)); }
    }

    lemma InnerHead(s: State, g: Segment, p: int, lead: int)
      requires HeapOK(s, g) && p in s.h && lead % 8 == 0 && 0 <= lead < s.h[p].size
      ensures p + lead + HEAD in s.m
    {
      hide HeapOK, WholeSegment;
      ReadChunk(s, g, p);
      InSegment(s, g, p);
      var q := EightSum(p, lead);
      WordIn(s.m, g, q, HEAD);
    }

    lemma InSegment(s: State, g: Segment, p: int)
      requires HeapOK(s, g) && p in s.h
      ensures WholeSegment(s.m, g) && g.first <= p && p + s.h[p].size + HEAD < g.limit
    {
      hide Tagged, DvOK, WholeSegment, Aligned8;
      assert ChunkOK(s.h, p, g.first, s.top);
    }

    lemma CutTags(m: Mem, m': Mem, p: int, lead: int, size: int, pin: bool, secondFirst: bool)
      requires Head(m, p) == HeadWord(size, pin, true) && PInUse(Head(m, p + size)) && size % 8 == 0 && lead % 8 == 0
      requires 16 <= lead && size - lead >= 16
      requires p + HEAD in m && p + lead + HEAD in m && p + size + HEAD in m
      requires var r := p + lead;
               if secondFirst then var m1 := m[r + HEAD := Head(m, r) % 2 + (size - lead) + 2];
                                   var m2 := m1[p + size + HEAD := SetPInUse(Head(m1, p + size))];
                                   var m3 := m2[p + HEAD := Head(m2, p) % 2 + lead + 2];
                                   m' == m3[r + HEAD := SetPInUse(Head(m3, r))]
               else var m1 := m[p + HEAD := Head(m, p) % 2 + lead + 2];
                    var m2 := m1[r + HEAD := SetPInUse(Head(m1, r))];
                    var m3 := m2[r + HEAD := Head(m2, r) % 2 + (size - lead) + 2];
                    m' == m3[p + size + HEAD := SetPInUse(Head(m3, p + size))]
      ensures Stores(m, m', {p + HEAD, p + lead + HEAD}) && m'.Keys == m.Keys
      ensures Head(m', p) == HeadWord(lead, pin, true) && Head(m', p + lead) == HeadWord(size - lead, true, true)
    {
      CutBits(size, lead, pin, Head(m, p + lead));
      assert SetPInUse(Head(m, p + size)) == Head(m, p + size);
    }

    lemma CutBits(size: int, lead: int, pin: bool, w: int)
      requires size % 8 == 0 && lead % 8 == 0
      ensures HeadWord(size, pin, true) % 2 + lead + 2 == HeadWord(lead, pin, true)
      ensures SetPInUse(w % 2 + (size - lead) + 2) == HeadWord(size - lead, true, true)
      ensures SetPInUse(w) % 2 + (size - lead) + 2 == HeadWord(size - lead, true, true)
    {
    }

    /** An aligned spot in the live chunk `p`; what lies before it becomes a live chunk of its own. */
    method AlignBlock(p: int, size: int, nb: int, a: int) returns (newp: int, leader: int)
      requires Valid() && p in Live(h, base) && Live(h, base)[p] == size && PowerOfTwo(a) && a >= 16 && nb % 8 == 0
      requires nb >= 16 && size >= nb + a + 16
      modifies `mem, `h
      ensures Valid() && (newp + 8) % a == 0 && BlocksKept(old(mem), mem, old(Live(h, base)) - {p}) && newp > 0
      ensures leader == 0 ==> newp == p && Live(h, base) == old(Live(h, base))
      ensures leader != 0 ==> leader == p + 8 && newp != p && newp !in old(Live(h, base))
                              && size - (newp - p) >= nb
                              && Live(h, base) == old(Live(h, base))[p := newp - p][newp := size - (newp - p)]
      ensures AlignedSlot(a, p + 8, newp + 8)
      ensures p in old(h) && h == if newp == p then old(h) else Cut(old(h), p, newp - p)
    {
      hide HeapOK, BinsOK, Live, BlocksKept, PowerOfTwo, RoundUp, Cut, AlignedSlot;
      PlacedHere(a, p + 8);
      newp, leader := p, 0;
      LiveChunk(St(), Seg(), p);
      ChunkAligned(St(), Seg(), p);
      assert BlocksKept(mem, mem, Live(h, base) - {p}) by { SameKept(mem, Live(h, base) - {p}); }
      if (p + 8) % a != 0 {
        var br := RoundUp(p + 8, a) - 8;
        newp := if br - p >= MIN_CHUNK_SIZE then br else br + a;
        AlignedSpot(p, size, nb, a, newp);
        FirstAligned(p, a, newp);
        CutBlock(p, newp - p, SizeOf(Head(mem, p)), true);
        leader := p + 8;
      }
    }

    lemma PlacedHere(a: int, q: int)
      requires a > 0
      ensures q % a == 0 ==> AlignedSlot(a, q, q)
    {
    }

    lemma SameKept(m: Mem, live: map<int, int>)
      ensures BlocksKept(m, m, live)
    {
    }

    lemma ChunkAligned(s: State, g: Segment, p: int)
      requires HeapOK(s, g) && p in Live(s.h, g.first)
      ensures p % 8 == 0 && Live(s.h, g.first)[p] % 8 == 0 && SizeOf(Head(s.m, p)) == Live(s.h, g.first)[p] && p > 0
    {
      ReadChunk(s, g, p);
    }

    /** Spare room behind `nb` bytes of the live chunk `p` becomes a live chunk of its own. */
    method TrimBlock(p: int, nb: int) returns (trailer: int)
      requires Valid() && p in Live(h, base) && nb % 8 == 0 && MIN_CHUNK_SIZE <= nb <= Live(h, base)[p]
      modifies `mem, `h
      ensures Valid() && BlocksKept(old(mem), mem, old(Live(h, base)) - {p})
      ensures trailer == 0 ==> Live(h, base) == old(Live(h, base)) && Live(h, base)[p] <= nb + MIN_CHUNK_SIZE
      ensures trailer != 0 ==> trailer == p + nb + 8 && p + nb !in old(Live(h, base)) && p + nb != p
                               && Live(h, base) == old(Live(h, base))[p := nb][p + nb := old(Live(h, base))[p] - nb]
      ensures trailer != 0 <==> old(Live(h, base))[p] > nb + MIN_CHUNK_SIZE
      ensures p in old(h) && h == if trailer == 0 then old(h) else Cut(old(h), p, nb)
    {
      hide HeapOK, BinsOK, Live, BlocksKept, Cut;
      LiveChunk(St(), Seg(), p);
      trailer := 0;
      ChunkAligned(St(), Seg(), p);
      SameKept(mem, Live(h, base) - {p});
      var size := SizeOf(Head(mem, p));
      if size > nb + MIN_CHUNK_SIZE {
        CutBlock(p, nb, size, false);
        trailer := p + nb + 8;
      }
    }

    /** Block `p` of `nb` up to nb + 16 bytes is live in addition. */
    ghost predicate BlockAdded(m: Mem, live: map<int, int>, m': Mem, live': map<int, int>, p: int, nb: int) {
      p !in live && p in live' && nb <= live'[p] <= nb + MIN_CHUNK_SIZE && live' == live[p := live'[p]]
        && BlocksKept(m, m', live)
    }

    /** internal_memalign. For small alignments this is mspace_malloc. Otherwise the block starts
        at a multiple of the alignment, rounded up to a power of two, and leader and trailer are
        given back; null comes exactly if the larger request is refused. The second result says
        whether the rounding loop ends. */
    method Memalign(alignment: int, bytes: int) returns (mem0: int, ended: bool)
      requires Valid() && 0 <= alignment < WORD && 0 <= bytes < WORD
      modifies this
      ensures Valid()
      ensures ended <==> alignment <= HALF_WORD
      ensures mem0 == 0 ==> St() == old(St())
      ensures alignment <= 8 ==>
        Granted(old(St()), St(), base, bytes, mem0) && (mem0 == 0 <==> old(Refused(h, topsize, bytes)))
      ensures 8 < alignment <= HALF_WORD ==>
        (mem0 == 0 <==>
          bytes >= MAX_REQUEST - Rounded(alignment)
          || old(Refused(h, topsize, RequestSize(bytes) + Rounded(alignment) + 12)))
      ensures alignment > HALF_WORD ==> mem0 == 0
      ensures alignment > 8 && mem0 != 0 ==>
                && bytes < MAX_REQUEST && mem0 % Rounded(alignment) == 0
                && BlockAdded(old(mem), old(Live(h, base)), mem, Live(h, base), mem0 - 8, RequestSize(bytes))
      ensures alignment <= 8 && mem0 != 0 ==> Allocated(old(View(St())), View(St()), RequestSize(bytes), mem0 - 8)
      ensures alignment > 8 && mem0 != 0 ==>
        AlignedAllocated(old(View(St())), View(St()), Rounded(alignment), RequestSize(bytes), mem0)
    {
      hide HeapOK, BinsOK, Live, BlocksKept, PowerOfTwo, Refused, Choice, RequestSize, Extra, PowerFrom, Allocated,
        AlignedSlot, Carved, BlockLeft, QueuesOf;
      ghost var v0 := View(St());
      if alignment <= 8 {
        mem0 := Malloc(bytes);
        return mem0, true;
      }
      var al;
      al, ended := RoundAlignment(alignment);
      if !ended { return 0, false; }
      RoundedIs(alignment);
      if bytes >= MAX_REQUEST - al { return 0, true; }
      EightDividesPower(al);
      var nb := RequestSize(bytes);
      var req := nb + al + MIN_CHUNK_SIZE - 4;
      AlignedRequest(bytes, al);
      ghost var m0, l0 := mem, Live(h, base);
      mem0 := Malloc(req);
      if mem0 == 0 { return; }
      var p := mem0 - 8;
      ChunkAligned(St(), Seg(), p);
      assert Extra(l0, Live(h, base), {p}) by { FirstExtra(l0, Live(h, base), p); }
      ghost var v1 := View(St());
      mem0 := CarveBlock(p, nb, al, m0, l0);
      assert AlignedFrom(v0, v1, View(St()), al, nb, p + 8, mem0);
    }

    lemma FirstExtra(l0: map<int, int>, l: map<int, int>, p: int)
      requires p !in l0 && p in l && l == l0[p := l[p]]
      ensures Extra(l0, l, {p})
    {
      ExtraAdd(l0, l0, {}, p, l[p]);
    }

    /** One of the additional blocks is freed. */
    method GiveBack(part: int, ghost m0: Mem, ghost l0: map<int, int>, ghost e: set<int>)
      requires Valid() && Extra(l0, Live(h, base), e) && BlocksKept(m0, mem, l0) && part != 0 && part - 8 in e
      modifies this
      ensures Valid() && Extra(l0, Live(h, base), e - {part - 8}) && BlocksKept(m0, mem, l0)
      ensures Live(h, base) == old(Live(h, base)) - {part - 8}
      ensures Freed(old(View(St())), View(St()), part - 8)
    {
      hide HeapOK, BinsOK, Live, BlocksKept, Freed, QueuesOf;
      ghost var m3, l3 := mem, Live(h, base);
      assert part - 8 in l3.Keys;
      hide Extra;
      Free(part);
      ExtraRemove(l0, l3, e, part - 8);
      FreeKept(m0, m3, mem, l0, Live(h, base), e - {part - 8});
    }

    /** The carving part of internal_memalign. */
    method CarveBlock(p0: int, nb: int, al: int, ghost m0: Mem, ghost l0: map<int, int>) returns (mem0: int)
      requires Valid() && Extra(l0, Live(h, base), {p0}) && p0 in Live(h, base) && BlocksKept(m0, mem, l0)
      requires PowerOfTwo(al) && al >= 16 && nb % 8 == 0 && nb >= 16 && Live(h, base)[p0] >= nb + al + 16
      modifies this
      ensures Valid() && mem0 % al == 0 && mem0 != 0 && BlockAdded(m0, l0, mem, Live(h, base), mem0 - 8, nb)
      ensures AlignedSlot(al, p0 + 8, mem0) && Carved(old(View(St())), View(St()), p0, mem0 - 8, nb)
      ensures BlockLeft(old(View(St())), View(St()), p0, mem0 - 8, nb)
    {
      hide HeapOK, BinsOK, Live, BlocksKept, PowerOfTwo, Extra, AlignedSlot, Freed, CutOut, QueuesOf, Spare, BlockLeft;
      ghost var v0 := View(St());
      var p, leader, trailer := CutParts(p0, nb, al, m0, l0);
      ghost var v1 := View(St());
      if leader != 0 {
        GiveBack(leader, m0, l0, Parts(p, leader, trailer));
        assert Parts(p, leader, trailer) - {leader - 8} == Parts(p, 0, trailer);
      }
      ghost var v2 := View(St());
      if trailer != 0 {
        GiveBack(trailer, m0, l0, Parts(p, 0, trailer));
        assert Parts(p, 0, trailer) - {trailer - 8} == Parts(p, 0, 0);
      }
      assert Parts(p, 0, 0) == {p};
      ExtraOne(l0, Live(h, base), p);
      mem0 := p + 8;
      assert BlockLeft(v0, View(St()), p0, p, nb) by {
        BlockIsLeft(v0, View(St()), base, p0, p, nb);
      }
      assert CarvedBy(v0, v2, View(St()), p0, p, nb) by { CarvedParts(v0, v1, v2, View(St()), p0, p, nb); }
    }

    lemma BlockIsLeft(l: Layout, l': Layout, first: int, p0: int, p: int, nb: int)
      requires p0 in l.h && p in Live(l'.h, first)
      requires Live(l'.h, first)[p] == if Spare(l.h, p0, p, nb) then nb else l.h[p0].size - (p - p0)
      ensures BlockLeft(l, l', p0, p, nb)
    {
      LiveSize(l'.h, first, p);
    }

    static lemma CarvedParts(l: Layout, l1: Layout, l2: Layout, l': Layout, p0: int, p: int, nb: int)
      requires p0 in l.h && l1 == l.(h := CutOut(l.h, p0, p, nb))
      requires if p != p0 then Freed(l1, l2, p0) else l2 == l1
      requires if Spare(l.h, p0, p, nb) then Freed(l2, l', p + nb) else l' == l2
      ensures CarvedBy(l, l2, l', p0, p, nb)
    {
      hide Freed, CutOut, Spare;
    }

    /** The blocks that are live in addition while memalign carves. */
    function Parts(p: int, leader: int, trailer: int): set<int> {
      {p} + (if leader != 0 then {leader - 8} else {}) + if trailer != 0 then {trailer - 8} else {}
    }

    method CutParts(p0: int, nb: int, al: int, ghost m0: Mem, ghost l0: map<int, int>)
      returns (p: int, leader: int, trailer: int)
      requires Valid() && Extra(l0, Live(h, base), {p0}) && p0 in Live(h, base) && BlocksKept(m0, mem, l0)
      requires PowerOfTwo(al) && al >= 16 && nb % 8 == 0 && nb >= 16 && Live(h, base)[p0] >= nb + al + 16
      modifies `mem, `h
      ensures Valid() && Extra(l0, Live(h, base), Parts(p, leader, trailer)) && BlocksKept(m0, mem, l0)
      ensures p in Live(h, base) && nb <= Live(h, base)[p] <= nb + MIN_CHUNK_SIZE && (p + 8) % al == 0 && p > 0
      ensures (leader != 0 ==> leader - 8 != p) && (trailer != 0 ==> trailer - 8 != p)
      ensures leader != 0 && trailer != 0 ==> leader != trailer
      ensures AlignedSlot(al, p0 + 8, p + 8) && p0 in old(h) && h == CutOut(old(h), p0, p, nb)
      ensures leader == (if p == p0 then 0 else p0 + 8) && p0 > 0
      ensures trailer == if Spare(old(h), p0, p, nb) then p + nb + 8 else 0
      ensures Live(h, base)[p] == if Spare(old(h), p0, p, nb) then nb else old(h)[p0].size - (p - p0)
    {
      hide HeapOK, BinsOK, Live, BlocksKept, PowerOfTwo, Extra, Cut, AlignedSlot;
      LiveSize(h, base, p0);
      ghost var m1, l1 := mem, Live(h, base);
      ChunkAligned(St(), Seg(), p0);
      p, leader := AlignBlock(p0, SizeOf(Head(mem, p0)), nb, al);
      ghost var m2, l2, e2 := mem, Live(h, base), if leader != 0 then {p0, p} else {p0};
      CarveKept(m0, m1, m2, l0, l1, {p0}, p0);
      AlignExtra(l0, l1, l2, p0, p, leader != 0);
      trailer := TrimBlock(p, nb);
      CarveKept(m0, m2, mem, l0, l2, e2, p);
      if trailer != 0 { TrimExtra(l0, l2, Live(h, base), e2, p, nb); }
      assert Parts(p, leader, trailer) == if trailer != 0 then e2 + {p, p + nb} else e2;
    }

    lemma AlignExtra(l0: map<int, int>, l1: map<int, int>, l2: map<int, int>, p0: int, p: int, lead: bool)
      requires Extra(l0, l1, {p0})
      requires if lead then p !in l1 && p != p0 && p in l2 && p0 in l2 && l2 == l1[p0 := l2[p0]][p := l2[p]]
        else l2 == l1 && p == p0
      ensures Extra(l0, l2, if lead then {p0, p} else {p0})
    {
      if lead {
        ExtraAdd(l0, l1, {p0}, p0, l2[p0]);
        ExtraAdd(l0, l1[p0 := l2[p0]], {p0} + {p0}, p, l2[p]);
        assert {p0} + {p0} + {p} == {p0, p};
      }
    }

    lemma TrimExtra(l0: map<int, int>, l2: map<int, int>, l3: map<int, int>, e: set<int>, p: int, nb: int)
      requires Extra(l0, l2, e) && p in e && p in l2 && p + nb !in l2 && nb != 0
      requires l3 == l2[p := nb][p + nb := l2[p] - nb]
      ensures Extra(l0, l3, e + {p, p + nb})
    {
      ExtraAdd(l0, l2, e, p, nb);
      ExtraAdd(l0, l2[p := nb], e + {p}, p + nb, l2[p] - nb);
      assert e + {p} + {p + nb} == e + {p, p + nb};
    }

    // ----- create_mspace_with_base

    /** init_user_mstate: one chunk for the malloc_state record, everything else is top. */
    constructor (m0: Mem, tbase: int, tsize: int)
      requires tbase > 0 && tbase % 8 == 0 && tsize % 8 == 0 && MSIZE + TOP_FOOT_SIZE < tsize && tbase + tsize <= WORD
      requires WholeSegment(m0, Segment(tbase, tbase + tsize))
      ensures Valid() && base == tbase && limit == tbase + tsize
      ensures Live(h, base) == map[] && NoneFree(h, 0) && topsize == tsize - MSIZE - TOP_FOOT_SIZE
      ensures mem.Keys == m0.Keys
    {
      var m, mn, psize := InitWords(m0, tbase, tsize);
      mem := m;
      smallmap := 0;
      treemap := 0;
      dv := 0;
      dvsize := 0;
      top := mn;
      topsize := psize;
      base := tbase;
      limit := tbase + tsize;
      h := map[tbase := Chunk(MSIZE, true, true)];
      b := EmptyBins();
      new;
      FreshHeap(mem, Seg(), St());
      FreshBins(mem, Seg(), St());
    }

    /** The bin's header is an empty ring. */
    static ghost predicate SelfLinked(m: Mem, ms: int, i: nat) {
      Fd(m, SmallBin(ms, i)) == SmallBin(ms, i) && Bk(m, SmallBin(ms, i)) == SmallBin(ms, i)
    }

    /** The stores of init_user_mstate: the zeroed record, its chunk, the empty bins, top and its foot. */
    static method InitWords(m0: Mem, tbase: int, tsize: int) returns (m: Mem, mn: int, psize: int)
      requires tbase > 0 && tbase % 8 == 0 && tsize % 8 == 0 && MSIZE + TOP_FOOT_SIZE < tsize && tbase + tsize <= WORD
      requires WholeSegment(m0, Segment(tbase, tbase + tsize))
      ensures mn == tbase + MSIZE && psize == tsize - MSIZE - TOP_FOOT_SIZE && m.Keys == m0.Keys
      ensures Head(m, tbase) == HeadWord(MSIZE, true, true) && Head(m, mn) == HeadWord(psize, true, false)
      ensures Head(m, mn + psize) == TOP_FOOT_SIZE
      ensures forall a :: tbase + 8 + TREEBINS <= a < tbase + MSIZE ==> Rd(m, a) == 0
    {
      hide SizeOf;
      var ms := tbase + 8;
      FirstWords(m0, tbase, tsize);
      var m1 := Zeroed(m0, ms, MSIZE);
      ZeroedReads(m0, ms, MSIZE);
      var m2 := Wr(m1, tbase + HEAD, HeadWord(MSIZE, true, true));
      var m3 := InitBins(m2, ms, Segment(tbase, tbase + tsize));
      HeadWordFields(MSIZE, true, true);
      mn := tbase + SizeOf(Head(m3, tbase));
      assert mn == tbase + MSIZE && forall a :: ms + TREEBINS <= a < tbase + MSIZE ==> Rd(m3, a) == 0;
      psize := tbase + tsize - mn - TOP_FOOT_SIZE;
      var m4 := Wr(m3, mn + HEAD, HeadWord(psize, true, false));
      m := Wr(m4, mn + psize + HEAD, TOP_FOOT_SIZE);
      StoreReads(m1, tbase + HEAD, HeadWord(MSIZE, true, true));
      StoreReads(m3, mn + HEAD, HeadWord(psize, true, false));
      StoreReads(m4, mn + psize + HEAD, TOP_FOOT_SIZE);
      forall a | tbase + 8 + TREEBINS <= a < tbase + MSIZE
        ensures Rd(m, a) == 0
      {
        assert Rd(m3, a) == 0;
      }
    }

    static lemma StoreReads(m: Mem, p: int, v: int)
      ensures forall a :: Rd(m[p := v], a) == if a == p then v else Rd(m, a)
    {
      forall a
        ensures Rd(m[p := v], a) == if a == p then v else Rd(m, a)
      {
      }
    }

    static lemma ZeroedReads(m: Mem, p: int, n: int)
      ensures forall a :: Rd(Zeroed(m, p, n), a) == if p <= a < p + n then 0 else Rd(m, a)
    {
    }

    static lemma FirstWords(m: Mem, tbase: int, tsize: int)
      requires tbase % 8 == 0 && tsize % 8 == 0 && MSIZE + TOP_FOOT_SIZE < tsize
      requires WholeSegment(m, Segment(tbase, tbase + tsize))
      ensures tbase + HEAD in m && tbase + MSIZE + HEAD in m && tbase + tsize - TOP_FOOT_SIZE + HEAD in m
    {
      var g := Segment(tbase, tbase + tsize);
      WordIn(m, g, tbase, HEAD);
      WordIn(m, g, tbase, MSIZE + HEAD);
      var end := EightSum(tbase, tsize);
      WordIn(m, g, end, HEAD - TOP_FOOT_SIZE);
    }

    static lemma BinLinked(m: Mem, m1: Mem, bin: int)
      requires m1 == m[bin + BK := bin][bin + FD := bin]
      ensures Fd(m1, bin) == bin && Bk(m1, bin) == bin
      ensures forall a :: a != bin + FD && a != bin + BK ==> Rd(m1, a) == Rd(m, a)
    {
    }

    /** init_bins */
    static method InitBins(m0: Mem, ms: int, ghost g: Segment) returns (m: Mem)
      requires WholeSegment(m0, g) && g.first % 8 == 0 && ms == g.first + 8 && g.first + MSIZE <= g.limit
      ensures m.Keys == m0.Keys
      ensures forall a :: a < SmallBin(ms, 0) + FD || SmallBin(ms, 31) + BK < a ==> Rd(m, a) == Rd(m0, a)
      ensures forall i: nat :: i < 32 ==> SelfLinked(m, ms, i)
    {
      m := m0;
      for i := 0 to NSMALLBINS
        invariant m.Keys == m0.Keys
        invariant forall a :: a < SmallBin(ms, 0) + FD || SmallBin(ms, 31) + BK < a ==> Rd(m, a) == Rd(m0, a)
        invariant forall j: nat :: j < i ==> SelfLinked(m, ms, j)
      {
        WordIn(m0, g, g.first, 8 + SMALLBINS + 8 * i + FD);
        WordIn(m0, g, g.first, 8 + SMALLBINS + 8 * i + BK);
        var bin := SmallBin(ms, i);
        ghost var before := m;
        m := Wr(m, bin + BK, bin);
        m := Wr(m, bin + FD, bin);
        BinLinked(before, m, bin);
        forall j: nat | j <= i
          ensures SelfLinked(m, ms, j)
        {
          if j < i { assert SelfLinked(before, ms, j); }
        }
      }
    }
  }
}
