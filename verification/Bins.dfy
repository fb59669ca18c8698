/** All the bins of an mspace in memory, and how one bin's update leaves the others alone. */
module Bins {
  import opened Machine
  import opened BinIndex
  import opened Words
  import opened Rings
  import opened Tries
  import opened TreeWords
  import opened TreeUnlink

  /** Offsets in the malloc_state record: the bin arrays and its padded size. */
  const SMALLBINS: int := 36
  const TREEBINS: int := 300
  const MSIZE: int := 464

  function SmallBin(ms: int, i: int): int { ms + SMALLBINS + 8 * i }
  function TreeBin(ms: int, i: int): int { ms + TREEBINS + 4 * i }

  /** Chunks in bins, with their sizes. */
  type Inventory = map<int, int>

  /** Binned chunks are aligned, do not overlap, and lie behind the malloc_state record. */
  ghost predicate InventoryOK(ms: int, inv: Inventory) {
    && ms >= 8 && ms % 8 == 0
    && (forall q :: q in inv ==>
       q % 8 == 0 && inv[q] % 8 == 0 && inv[q] >= 16 && ms + MSIZE - 8 <= q && q + inv[q] < WORD)
    && (forall p, q :: p in inv && q in inv && p != q ==> p + inv[p] <= q || q + inv[q] <= p)
  }

  datatype BinSet = BinSet(small: seq<seq<int>>, tree: seq<Tree>)

  ghost predicate SmallRep(m: Mem, ms: int, inv: Inventory, i: nat, ring: seq<int>) {
    && Distinct(SmallBin(ms, i), ring)
    && (ring != [] ==> Ring(m, SmallBin(ms, i), ring))
    && (forall q :: q in ring ==> q in inv && inv[q] == 8 * i)
  }

  ghost predicate TreeBinRep(m: Mem, ms: int, inv: Inventory, i: nat, t: Tree) {
    && TreeAt(m, t, RootLo(i), RootK(i), TreeBin(ms, i), i, inv)
    && (forall q :: q in Elems(t) ==> q in inv && inv[q] >= 256 && ComputeTreeIndex(inv[q]) == i)
  }

  ghost predicate SmallBinsRep(m: Mem, ms: int, inv: Inventory, small: seq<seq<int>>, smallmap: bv32) {
    && |small| == 32
    && (forall i: nat {:trigger small[i]} :: i < 32 ==>
       SmallRep(m, ms, inv, i, small[i]) && (Marked(smallmap, i) <==> small[i] != []))
    && (forall q :: q in inv && 0 <= inv[q] < 256 ==> q in small[inv[q] / 8])
  }

  ghost predicate TreeBinsRep(m: Mem, ms: int, inv: Inventory, tree: seq<Tree>, treemap: bv32) {
    && |tree| == 32
    && (forall i: nat {:trigger tree[i]} :: i < 32 ==>
       TreeBinRep(m, ms, inv, i, tree[i]) && (Marked(treemap, i) <==> tree[i].Node?))
    && (forall q :: q in inv && inv[q] >= 256 ==>
          0 <= ComputeTreeIndex(inv[q]) < 32 && q in Elems(tree[ComputeTreeIndex(inv[q])]))
  }

  /** Every binned chunk is in the one bin of its size, no other chunk is in a bin, and a bitmap
      bit is set exactly for the bins that hold something. */
  ghost predicate BinsRep(m: Mem, ms: int, inv: Inventory, b: BinSet, smallmap: bv32, treemap: bv32) {
    && InventoryOK(ms, inv)
    && SmallBinsRep(m, ms, inv, b.small, smallmap)
    && TreeBinsRep(m, ms, inv, b.tree, treemap)
  }

  /** Words changed only in [w0, w1] and in the bodies of the chunks in `c`. */
  ghost predicate Confined(m: Mem, m': Mem, inv: Inventory, c: set<int>, w0: int, w1: int) {
    && m'.Keys == m.Keys
    && forall a :: Rd(m', a) != Rd(m, a) ==> w0 <= a <= w1 || exists q :: q in c && q in inv && q + FD <= a < q + inv[q]
  }

  lemma ConfinedStore(m: Mem, m1: Mem, inv: Inventory, c: set<int>, w0: int, w1: int, a: int, v: int, q: int)
    requires Confined(m, m1, inv, c, w0, w1) && a in m
    requires w0 <= a <= w1 || (q in c && q in inv && q + FD <= a < q + inv[q])
    ensures Confined(m, m1[a := v], inv, c, w0, w1)
  {
  }

  lemma ConfinedNode(m: Mem, m': Mem, ms: int, inv: Inventory, c: set<int>, w0: int, w1: int, q: int)
    requires InventoryOK(ms, inv) && Confined(m, m', inv, c, w0, w1) && w1 < ms + MSIZE - 8
    requires q in inv && q !in c
    ensures forall a :: q + HEAD <= a < q + inv[q] ==> Rd(m', a) == Rd(m, a)
  {
  }

  lemma ConfinedWord(m: Mem, m': Mem, ms: int, inv: Inventory, c: set<int>, w0: int, w1: int, a: int)
    requires InventoryOK(ms, inv) && Confined(m, m', inv, c, w0, w1)
    requires a < ms + MSIZE && (a < w0 || w1 < a)
    ensures Rd(m', a) == Rd(m, a)
  {
  }

  lemma OtherSmallKept(m: Mem, m': Mem, ms: int, inv: Inventory, c: set<int>, w0: int, w1: int, i: nat, ring: seq<int>)
    requires InventoryOK(ms, inv) && Confined(m, m', inv, c, w0, w1) && w1 < ms + MSIZE - 8
    requires SmallRep(m, ms, inv, i, ring) && i < 32 && (forall q :: q in ring ==> q !in c)
    requires SmallBin(ms, i) + BK < w0 || w1 < SmallBin(ms, i) + FD
    ensures SmallRep(m', ms, inv, i, ring)
  {
    ConfinedWord(m, m', ms, inv, c, w0, w1, SmallBin(ms, i) + FD);
    ConfinedWord(m, m', ms, inv, c, w0, w1, SmallBin(ms, i) + BK);
    forall q | q in ring
      ensures Fd(m', q) == Fd(m, q) && Bk(m', q) == Bk(m, q)
    {
      ConfinedNode(m, m', ms, inv, c, w0, w1, q);
    }
    if ring != [] { RingFrame(m, m', SmallBin(ms, i), ring); }
  }

  lemma OtherTreeKept(m: Mem, m': Mem, ms: int, inv: Inventory, c: set<int>, w0: int, w1: int, i: nat, t: Tree)
    requires InventoryOK(ms, inv) && Confined(m, m', inv, c, w0, w1) && w1 < ms + MSIZE - 8
    requires TreeBinRep(m, ms, inv, i, t) && i < 32 && (forall q :: q in Elems(t) ==> q !in c)
    requires TreeBin(ms, i) < w0 || w1 < TreeBin(ms, i)
    ensures TreeBinRep(m', ms, inv, i, t)
  {
    ConfinedWord(m, m', ms, inv, c, w0, w1, TreeBin(ms, i));
    forall q | q in Elems(t)
      ensures SameNode(m, m', q)
    {
      ConfinedNode(m, m', ms, inv, c, w0, w1, q);
    }
    TreeFrame(m, m', t, TreeBin(ms, i), i);
  }

  // ----- changes of the inventory

  lemma SmallRepInventory(m: Mem, ms: int, inv: Inventory, inv': Inventory, i: nat, ring: seq<int>)
    requires SmallRep(m, ms, inv, i, ring) && (forall q :: q in ring ==> q in inv' && inv'[q] == inv[q])
    ensures SmallRep(m, ms, inv', i, ring)
  {
  }

  lemma TreeRepInventory(m: Mem, ms: int, inv: Inventory, inv': Inventory, i: nat, t: Tree)
    requires TreeBinRep(m, ms, inv, i, t) && (forall q :: q in Elems(t) ==> q in inv' && inv'[q] == inv[q])
    ensures TreeBinRep(m, ms, inv', i, t)
  {
    SizedKept(t, inv, inv');
  }

  /** Bit `i` of the map becomes `v`, the others stay. */
  ghost predicate MapSet(map0: bv32, map1: bv32, i: nat, v: bool) {
    forall j: nat :: j < 32 ==> (Marked(map1, j) <==> if j == i then v else Marked(map0, j))
  }

  /** The small bins after bin `i` was changed to `ring`, given that the memory change was
      confined to that bin's chunks and header. */
  lemma SmallBinsUpdated(m: Mem, m': Mem, ms: int, inv: Inventory, inv': Inventory, all: Inventory,
        small: seq<seq<int>>, map0: bv32, map1: bv32,
                         i: nat, ring: seq<int>, c: set<int>)
    requires InventoryOK(ms, all) && SmallBinsRep(m, ms, inv, small, map0) && i < 32
    requires forall q :: q in inv ==> q in all && all[q] == inv[q]
    requires forall q :: q in inv' ==> q in all && all[q] == inv'[q]
    requires Confined(m, m', all, c, SmallBin(ms, i) + FD, SmallBin(ms, i) + BK)
    requires forall q :: q in c ==> q in all && all[q] == 8 * i
    requires forall q :: q in all && all[q] != 8 * i ==> (q in inv <==> q in inv')
    requires SmallRep(m', ms, inv', i, ring) && MapSet(map0, map1, i, ring != [])
    requires forall q :: q in inv' && inv'[q] == 8 * i ==> q in ring
    requires 8 * i < 256
    ensures SmallBinsRep(m', ms, inv', small[i := ring], map1)
  {
    var small' := small[i := ring];
    forall j: nat {:trigger small'[j]} | j < 32
      ensures SmallRep(m', ms, inv', j, small'[j]) && (Marked(map1, j) <==> small'[j] != [])
    {
      if j != i {
        assert SmallRep(m, ms, inv, j, small[j]);
        SmallRepInventory(m, ms, inv, all, j, small[j]);
        OtherSmallKept(m, m', ms, all, c, SmallBin(ms, i) + FD, SmallBin(ms, i) + BK, j, small[j]);
        SmallRepInventory(m', ms, all, inv', j, small[j]);
      }
    }
  }

  lemma TreeBinsKept(m: Mem, m': Mem, ms: int, inv: Inventory, inv': Inventory, all: Inventory, tree: seq<Tree>,
        treemap: bv32, c: set<int>, w0: int, w1: int)
    requires InventoryOK(ms, all) && TreeBinsRep(m, ms, inv, tree, treemap)
    requires forall q :: q in inv ==> q in all && all[q] == inv[q]
    requires forall q :: q in inv' ==> q in all && all[q] == inv'[q]
    requires Confined(m, m', all, c, w0, w1) && w1 < ms + TREEBINS
    requires forall q :: q in c ==> q in all && all[q] < 256
    requires forall q :: q in all && all[q] >= 256 ==> (q in inv <==> q in inv')
    ensures TreeBinsRep(m', ms, inv', tree, treemap)
  {
    forall j: nat {:trigger tree[j]} | j < 32
      ensures TreeBinRep(m', ms, inv', j, tree[j])
    {
      assert TreeBinRep(m, ms, inv, j, tree[j]);
      TreeRepInventory(m, ms, inv, all, j, tree[j]);
      OtherTreeKept(m, m', ms, all, c, w0, w1, j, tree[j]);
      TreeRepInventory(m', ms, all, inv', j, tree[j]);
    }
  }

  // ----- insert_small_chunk

  function PushStores(m: Mem, b: int, f: int, x: int): Mem {
    m[b + FD := x][f + BK := x][x + FD := f][x + BK := b]
  }

  /** The words that linking `x` in behind `b` stores to are part of the segment. */
  ghost predicate PushMapped(m: Mem, b: int, f: int, x: int) {
    b + FD in m && f + BK in m && x + FD in m && x + BK in m
  }

  ghost predicate RingMapped(m: Mem, x: int) {
    Fd(m, x) + BK in m && Bk(m, x) + FD in m
  }

  lemma PushReads(m: Mem, b: int, f: int, x: int)
    requires Gap(b, x) && Gap(f, x) && (f == b || Gap(f, b))
    ensures var m' := PushStores(m, b, f, x);
            && Fd(m', b) == x && Bk(m', f) == x && Fd(m', x) == f && Bk(m', x) == b
            && (forall a :: a != b + FD && a != f + BK && a != x + FD && a != x + BK ==> Rd(m', a) == Rd(m, a))
  {
  }

  /** The fd and bk words of `p` and `q` are different words. */
  predicate Gap(p: int, q: int) { p + 8 <= q || q + 8 <= p }

  lemma SmallGaps(ms: int, inv: Inventory, i: nat, x: int, y: int)
    requires InventoryOK(ms, inv) && i < 32 && x in inv && y in inv
    ensures Gap(SmallBin(ms, i), x) && (x != y ==> Gap(x, y))
  {
  }

  lemma PushConfined(m: Mem, m': Mem, ms: int, inv: Inventory, i: nat, b: int, f: int, x: int, c: set<int>)
    requires InventoryOK(ms, inv) && i < 32 && b == SmallBin(ms, i) && x in c && (f == b || f in c)
    requires forall q :: q in c ==> q in inv
    requires m' == PushStores(m, b, f, x) && PushMapped(m, b, f, x)
    ensures Confined(m, m', inv, c, SmallBin(ms, i) + FD, SmallBin(ms, i) + BK)
  {
  }

  lemma InsertSmallRing(m: Mem, ms: int, inv: Inventory, i: nat, ring: seq<int>, x: int)
    requires SmallRep(m, ms, inv, i, ring) && i < 32 && x !in inv && InventoryOK(ms, inv[x := 8 * i])
    ensures var b := SmallBin(ms, i); SmallRep(PushStores(m, b, At(b, ring, 1), x), ms, inv[x := 8 * i], i, [x] + ring)
  {
    var b, all := SmallBin(ms, i), inv[x := 8 * i];
    var f := At(b, ring, 1);
    if ring != [] {
      assert f in ring;
      SmallGaps(ms, all, i, x, f);
      SmallGaps(ms, all, i, f, x);
    } else {
      SmallGaps(ms, all, i, x, x);
    }
    PushReads(m, b, f, x);
    var m' := PushStores(m, b, f, x);
    forall q | q in ring
      ensures Fd(m', q) == Fd(m, q) && (q != f ==> Bk(m', q) == Bk(m, q))
    {
      SmallGaps(ms, all, i, q, x);
      if q != f && f != b { SmallGaps(ms, all, i, q, f); }
    }
    RingPush(m, m', b, ring, x);
  }

  function Members(ring: seq<int>): set<int> { set q | q in ring }

  lemma InsertSmall(m: Mem, m': Mem, ms: int, inv: Inventory, b: BinSet, smallmap: bv32, smallmap': bv32,
        treemap: bv32, i: nat, x: int)
    requires BinsRep(m, ms, inv, b, smallmap, treemap) && i < 32 && x !in inv && InventoryOK(ms, inv[x := 8 * i])
    requires var h, f := SmallBin(ms, i), At(SmallBin(ms, i), b.small[i], 1);
             m' == PushStores(m, h, f, x) && PushMapped(m, h, f, x)
    requires MapSet(smallmap, smallmap', i, true)
    ensures BinsRep(m', ms, inv[x := 8 * i], b.(small := b.small[i := [x] + b.small[i]]), smallmap', treemap)
    ensures Confined(m, m', inv[x := 8 * i], Members([x] + b.small[i]), SmallBin(ms, i) + FD, SmallBin(ms, i) + BK)
  {
    hide Confined, PushStores, InventoryOK;
    var inv', ring := inv[x := 8 * i], b.small[i];
    var h, f, c := SmallBin(ms, i), At(SmallBin(ms, i), b.small[i], 1), Members([x] + ring);
    assert SmallRep(m, ms, inv, i, ring);
    InsertSmallRing(m, ms, inv, i, ring, x);
    assert f == h || f in ring;
    assert forall q :: q in c <==> q == x || q in ring;
    PushConfined(m, m', ms, inv', i, h, f, x, c);
    SmallBinsUpdated(m, m', ms, inv, inv', inv', b.small, smallmap, smallmap', i, [x] + ring, c);
    TreeBinsKept(m, m', ms, inv, inv', inv', b.tree, treemap, c, h + FD, h + BK);
  }

  // ----- unlink_small_chunk, unlink_first_small_chunk

  lemma RingStoresConfined(m: Mem, inv: Inventory, x: int, c: set<int>, h: int)
    requires (Fd(m, x) == h || (Fd(m, x) in c && Fd(m, x) in inv && inv[Fd(m, x)] >= 16))
    requires (Bk(m, x) == h || (Bk(m, x) in c && Bk(m, x) in inv && inv[Bk(m, x)] >= 16))
    requires RingMapped(m, x)
    ensures Confined(m, RingStores(m, x), inv, c, h + FD, h + BK)
  {
  }

  lemma UnlinkSmallRing(m: Mem, ms: int, inv: Inventory, i: nat, ring: seq<int>, k: nat)
    requires SmallRep(m, ms, inv, i, ring) && i < 32 && k < |ring| && |ring| > 1 && InventoryOK(ms, inv)
    ensures SmallRep(RingStores(m, ring[k]), ms, inv - {ring[k]}, i, Without(ring, k))
    ensures var h := SmallBin(ms, i);
            (Fd(m, ring[k]) == h || Fd(m, ring[k]) in ring) && (Bk(m, ring[k]) == h || Bk(m, ring[k]) in ring)
    ensures Fd(m, ring[k]) != Bk(m, ring[k])
  {
    hide Without, InventoryOK;
    var h, x := SmallBin(ms, i), ring[k];
    var m' := RingStores(m, x);
    RingNeighbours(m, h, ring, k);
    RingNodesDiffer(h, ring, k, k + 2);
    var f, p := Fd(m, x), Bk(m, x);
    SmallNodeGap(ms, inv, i, ring, f, p);
    forall q | q in ring || q == h
      ensures q != p ==> Fd(m', q) == Fd(m, q)
      ensures q != f ==> Bk(m', q) == Bk(m, q)
    {
      if q != f { SmallNodeGap(ms, inv, i, ring, f, q); }
      if q != p { SmallNodeGap(ms, inv, i, ring, p, q); }
    }
    RingDrop(m, m', h, ring, k);
    DistinctWithout(h, ring, k);
  }

  lemma SmallNodeGap(ms: int, inv: Inventory, i: nat, ring: seq<int>, p: int, q: int)
    requires InventoryOK(ms, inv) && i < 32 && (forall e :: e in ring ==> e in inv) && p != q
    requires (p == SmallBin(ms, i) || p in ring) && (q == SmallBin(ms, i) || q in ring)
    ensures Gap(p, q)
  {
  }

  /** Unlinking the only chunk of a bin just clears the bin's mark; otherwise the ring closes. */
  lemma UnlinkSmall(m: Mem, m': Mem, ms: int, inv: Inventory, b: BinSet, smallmap: bv32, smallmap': bv32,
        treemap: bv32, i: nat, k: nat)
    requires BinsRep(m, ms, inv, b, smallmap, treemap) && i < 32 && k < |b.small[i]|
    requires var x := b.small[i][k];
             if |b.small[i]| == 1 then m' == m else m' == RingStores(m, x) && RingMapped(m, x)
    requires MapSet(smallmap, smallmap', i, |b.small[i]| > 1)
    ensures BinsRep(m', ms, inv - {b.small[i][k]}, b.(small := b.small[i := Without(b.small[i], k)]), smallmap',
      treemap)
    ensures Confined(m, m', inv, Members(b.small[i]), SmallBin(ms, i) + FD, SmallBin(ms, i) + BK)
  {
    hide RingMapped, Rd, Fd, MapSet, TreeBinsRep, Marked, Bk, TreeBinRep;
    var ring, x, h, c := b.small[i], b.small[i][k], SmallBin(ms, i), Members(b.small[i]);
    assert SmallRep(m, ms, inv, i, ring);
    var inv' := inv - {x};
    DistinctWithout(h, ring, k);
    if |ring| > 1 {
      UnlinkSmallRing(m, ms, inv, i, ring, k);
      RingStoresConfined(m, inv, x, c, h);
    } else {
      assert Without(ring, k) == [];
    }
    SmallBinsUpdated(m, m', ms, inv, inv', inv, b.small, smallmap, smallmap', i, Without(ring, k), c);
    TreeBinsKept(m, m', ms, inv, inv', inv, b.tree, treemap, c, h + FD, h + BK);
  }

  // ----- tree bins

  lemma RootFits(s: int)
    requires 256 <= s < WORD && s % 8 == 0
    ensures var i := ComputeTreeIndex(s); 0 <= i < 32 && Fits(s, RootLo(i), RootK(i))
  {
    TreeIndexBounds(s);
    var i := ComputeTreeIndex(s);
    if i < 31 {
      RootSpan(i);
      EightDivides(RootK(i));
      RootAligned(RootLo(i), if i % 2 == 0 then 2 else 3, Pow2(RootK(i)));
    } else {
      Pow2Table();
    }
  }

  lemma RootAligned(lo: int, n: int, h: int)
    requires h % 8 == 0 && (n == 2 || n == 3) && lo == n * (2 * h)
    ensures lo % 8 == 0
  {
    if n == 2 { assert lo == 4 * h; } else { assert lo == 6 * h; }
  }

  lemma TreeBinsUpdated(m: Mem, m': Mem, ms: int, inv: Inventory, inv': Inventory, all: Inventory, tree: seq<Tree>,
        map0: bv32, map1: bv32,
                        i: nat, t: Tree, c: set<int>)
    requires InventoryOK(ms, all) && TreeBinsRep(m, ms, inv, tree, map0) && i < 32
    requires forall q :: q in inv ==> q in all && all[q] == inv[q]
    requires forall q :: q in inv' ==> q in all && all[q] == inv'[q]
    requires Confined(m, m', all, c, TreeBin(ms, i), TreeBin(ms, i))
    requires forall q :: q in c ==> q in all && all[q] >= 256 && ComputeTreeIndex(all[q]) == i
    requires forall q :: q in all && all[q] >= 256 && ComputeTreeIndex(all[q]) != i ==> (q in inv <==> q in inv')
    requires TreeBinRep(m', ms, inv', i, t) && MapSet(map0, map1, i, t.Node?)
    requires forall q :: q in inv' && inv'[q] >= 256 && ComputeTreeIndex(inv'[q]) == i ==> q in Elems(t)
    ensures TreeBinsRep(m', ms, inv', tree[i := t], map1)
  {
    var tree' := tree[i := t];
    forall j: nat {:trigger tree'[j]} | j < 32
      ensures TreeBinRep(m', ms, inv', j, tree'[j]) && (Marked(map1, j) <==> tree'[j].Node?)
    {
      if j != i {
        assert TreeBinRep(m, ms, inv, j, tree[j]);
        TreeRepInventory(m, ms, inv, all, j, tree[j]);
        OtherTreeKept(m, m', ms, all, c, TreeBin(ms, i), TreeBin(ms, i), j, tree[j]);
        TreeRepInventory(m', ms, all, inv', j, tree[j]);
      }
    }
    forall q | q in inv' && inv'[q] >= 256
      ensures 0 <= ComputeTreeIndex(inv'[q]) < 32 && q in Elems(tree'[ComputeTreeIndex(inv'[q])])
    {
      TreeIndexBounds(inv'[q]);
    }
  }

  lemma SmallBinsKept(m: Mem, m': Mem, ms: int, inv: Inventory, inv': Inventory, all: Inventory, small: seq<seq<int>>,
        smallmap: bv32, c: set<int>, i: nat)
    requires InventoryOK(ms, all) && SmallBinsRep(m, ms, inv, small, smallmap) && i < 32
    requires forall q :: q in inv ==> q in all && all[q] == inv[q]
    requires forall q :: q in inv' ==> q in all && all[q] == inv'[q]
    requires Confined(m, m', all, c, TreeBin(ms, i), TreeBin(ms, i))
    requires forall q :: q in c ==> q in all && all[q] >= 256
    requires forall q :: q in all && all[q] < 256 ==> (q in inv <==> q in inv')
    ensures SmallBinsRep(m', ms, inv', small, smallmap)
  {
    forall j: nat {:trigger small[j]} | j < 32
      ensures SmallRep(m', ms, inv', j, small[j])
    {
      assert SmallRep(m, ms, inv, j, small[j]);
      SmallRepInventory(m, ms, inv, all, j, small[j]);
      OtherSmallKept(m, m', ms, all, c, TreeBin(ms, i), TreeBin(ms, i), j, small[j]);
      SmallRepInventory(m', ms, all, inv', j, small[j]);
    }
  }

  lemma LargeSpaced(ms: int, inv: Inventory, c: set<int>, i: nat)
    requires InventoryOK(ms, inv) && i < 32 && (forall q :: q in c ==> q in inv && inv[q] >= 256)
    ensures Spaced(c) && (forall q :: q in c ==> OutsideNode(TreeBin(ms, i), q))
  {
  }

  /** A trie in which the subtree reached by `s` was replaced is again a tree bin. */
  lemma ReplacedTreeBin(m: Mem, m': Mem, ms: int, inv: Inventory, inv': Inventory, i: nat, t: Tree, s: int, u: Tree)
    requires TreeBinRep(m, ms, inv, i, t) && InventoryOK(ms, inv') && i < 32 && Fits(s, RootLo(i), RootK(i))
    requires 256 <= s < WORD && ComputeTreeIndex(s) == i
    requires var lo, k := RootLo(i), RootK(i);
             && Trie(u, DownLo(t, lo, k, s), DownK(t, lo, k, s)) && Sizes(u) <= Sizes(Down(t, lo, k, s)) + {s}
             && Sized(u, inv') && Agree(Elems(t) - Elems(Down(t, lo, k, s)), inv, inv')
             && (forall q :: q in Elems(u) ==> q in inv' && inv'[q] >= 256 && ComputeTreeIndex(inv'[q]) == i)
             && TreeRep(m', Put(t, lo, k, s, u), TreeBin(ms, i), i)
             && Rd(m', TreeBin(ms, i)) == Ptr(Put(t, lo, k, s, u))
    ensures TreeBinRep(m', ms, inv', i, Put(t, RootLo(i), RootK(i), s, u))
    ensures Elems(Put(t, RootLo(i), RootK(i), s, u)) == Elems(t) - Elems(Down(t, RootLo(i), RootK(i), s)) + Elems(u)
  {
    var lo, k := RootLo(i), RootK(i);
    var t' := Put(t, lo, k, s, u);
    PutTrie(t, lo, k, s, u);
    PutElems(t, lo, k, s, u, inv);
    PutSized(t, lo, k, s, u, inv, inv');
    LargeSpaced(ms, inv', Elems(t'), i);
  }

  // ----- insert_large_chunk

  /** The subtree a search in bin `i` reaches, the word pointing to it, and its parent word. */
  function Reached(t: Tree, i: nat, s: int): Tree { Down(t, RootLo(i), RootK(i), s) }
  function ReachedSlot(t: Tree, i: nat, s: int, h: int): int { DownSlot(t, RootLo(i), RootK(i), s, h) }
  function ReachedParent(t: Tree, i: nat, s: int, h: int): int { DownParent(t, RootLo(i), RootK(i), s, h) }
  function Replaced(t: Tree, i: nat, s: int, u: Tree): Tree { Put(t, RootLo(i), RootK(i), s, u) }

  function NewNode(d: Tree, s: int, x: int): Tree {
    if d.Nil? then Node(x, s, [], Nil, Nil) else d.(rest := [x] + d.rest)
  }

  function InsertStores(m: Mem, t: Tree, i: nat, s: int, h: int, x: int): Mem {
    var d := Reached(t, i, s);
    if d.Nil? then HangLeaf(Cleared(m, x, i), x, ReachedSlot(t, i, s, h), ReachedParent(t, i, s, h))
    else Chain(Cleared(m, x, i), x, d.p)
  }

  lemma NewNodeOK(d: Tree, lo: int, k: nat, inv: Inventory, s: int, x: int)
    requires Trie(d, lo, k) && Fits(s, lo, k) && Sized(d, inv) && x !in inv && (d.Node? ==> d.sz == s)
    ensures var u := NewNode(d, s, x);
            && Trie(u, lo, k) && Sizes(u) <= Sizes(d) + {s} && Sized(u, inv[x := s]) && Elems(u) == Elems(d) + {x}
  {
    hide Trie, Sized, NewNode, Fits;
    NewNodeTrie(d, lo, k, s, x);
    NewNodeSized(d, inv, s, x);
  }

  lemma NewNodeTrie(d: Tree, lo: int, k: nat, s: int, x: int)
    requires Trie(d, lo, k) && Fits(s, lo, k) && (d.Node? ==> d.sz == s)
    ensures Trie(NewNode(d, s, x), lo, k) && Sizes(NewNode(d, s, x)) <= Sizes(d) + {s}
  {
  }

  lemma NewNodeSized(d: Tree, inv: Inventory, s: int, x: int)
    requires Sized(d, inv) && x !in inv && (d.Node? ==> d.sz == s)
    ensures Sized(NewNode(d, s, x), inv[x := s]) && Elems(NewNode(d, s, x)) == Elems(d) + {x}
  {
    var u := NewNode(d, s, x);
    RestHere(u);
    if d.Node? {
      RestHere(d);
      SizedKept(d.l, inv, inv[x := s]) by { ElemsIn(d, inv); }
      SizedKept(d.r, inv, inv[x := s]) by { ElemsIn(d, inv); }
      assert Here(u) == Here(d) + {x};
      assert Elems(u) == Elems(d) + {x};
    } else {
      assert Here(u) == {x} && Elems(u) == {x};
      LeafSized(x, s, inv);
    }
  }

  lemma LeafSized(x: int, s: int, inv: Inventory)
    ensures Sized(Node(x, s, [], Nil, Nil), inv[x := s])
  {
    var u, inv' := Node(x, s, [], Nil, Nil), inv[x := s];
    RestHere(u);
    assert Sized(u.l, inv') && Sized(u.r, inv');
    assert forall q :: q in Here(u) ==> q in inv' && inv'[q] == u.sz;
  }

  lemma ElemsIn(t: Tree, inv: Inventory)
    requires Sized(t, inv)
    ensures forall q :: q in Elems(t) ==> q in inv
  {
    forall q | q in Elems(t) ensures q in inv { ElemSize(t, inv, q); }
  }

  lemma InsertLargeTree(m: Mem, ms: int, inv: Inventory, i: nat, t: Tree, s: int, x: int)
    requires TreeBinRep(m, ms, inv, i, t) && 256 <= s < WORD && s % 8 == 0 && i == ComputeTreeIndex(s) && i < 32
    requires x !in inv && InventoryOK(ms, inv[x := s]) && SizeOf(Head(m, x)) == s
    ensures TreeBinRep(InsertStores(m, t, i, s, TreeBin(ms, i), x), ms, inv[x := s], i,
      Replaced(t, i, s, NewNode(Reached(t, i, s), s, x)))
    ensures Elems(Replaced(t, i, s, NewNode(Reached(t, i, s), s, x))) == Elems(t) + {x}
  {
    hide Trie, Sized, TreeRep, InsertStores, Down, Put, NewNode, Spaced, Elems, InventoryOK, Sizes, TreeLog;
    var u := NewNode(Reached(t, i, s), s, x);
    RootFits(s);
    NewNodeApart(ms, inv, i, t, s, x);
    InsertedRep(m, ms, inv, i, t, s, x, RootLo(i), RootK(i));
    InsertedNode(t, RootLo(i), RootK(i), inv, s, x);
    InsertedElems(t, i, inv, s, x);
    ReplacedTreeBin(m, InsertStores(m, t, i, s, TreeBin(ms, i), x), ms, inv, inv[x := s], i, t, s, u);
  }

  lemma InsertedElems(t: Tree, i: nat, inv: Inventory, s: int, x: int)
    requires s >= 256 && ComputeTreeIndex(s) == i && x !in inv
    requires forall q :: q in Elems(t) ==> q in inv && inv[q] >= 256 && ComputeTreeIndex(inv[q]) == i
    requires var d := Reached(t, i, s); Elems(NewNode(d, s, x)) == Elems(d) + {x} && Elems(d) <= Elems(t)
    ensures forall q :: q in Elems(NewNode(Reached(t, i, s), s, x)) ==>
              q in inv[x := s] && inv[x := s][q] >= 256 && ComputeTreeIndex(inv[x := s][q]) == i
    ensures Agree(Elems(t) - Elems(Reached(t, i, s)), inv, inv[x := s])
  {
  }

  lemma InsertedNode(t: Tree, lo: int, k: nat, inv: Inventory, s: int, x: int)
    requires Trie(t, lo, k) && Sized(t, inv) && Fits(s, lo, k) && x !in inv
    ensures var d := Down(t, lo, k, s);
            var u := NewNode(d, s, x);
            && Trie(u, DownLo(t, lo, k, s), DownK(t, lo, k, s)) && Sizes(u) <= Sizes(d) + {s}
            && Sized(u, inv[x := s]) && Elems(u) == Elems(d) + {x} && Elems(d) <= Elems(t)
  {
    DownFits(t, lo, k, s);
    DownSized(t, lo, k, s, inv);
    DownSubset(t, lo, k, s);
    NewNodeOK(Down(t, lo, k, s), DownLo(t, lo, k, s), DownK(t, lo, k, s), inv, s, x);
  }

  lemma InsertedRep(m: Mem, ms: int, inv: Inventory, i: nat, t: Tree, s: int, x: int, lo: int, k: nat)
    requires lo == RootLo(i) && k == RootK(i) && TreeAt(m, t, lo, k, TreeBin(ms, i), i, inv) && Fits(s, lo, k)
    requires x > 0 && x % 8 == 0 && SizeOf(Head(m, x)) == s && OutsideNode(TreeBin(ms, i), x)
    requires forall q :: q in Elems(t) ==> Sep(q, x)
    ensures var m', t' := InsertStores(m, t, i, s, TreeBin(ms, i), x),
      Replaced(t, i, s, NewNode(Reached(t, i, s), s, x));
            TreeRep(m', t', TreeBin(ms, i), i) && Rd(m', TreeBin(ms, i)) == Ptr(t')
  {
    if Down(t, lo, k, s).Nil? {
      HangLeafRep(m, t, lo, k, TreeBin(ms, i), i, inv, s, x);
    } else {
      ChainRep(m, t, lo, k, TreeBin(ms, i), i, inv, s, x);
    }
  }

  lemma NewNodeApart(ms: int, inv: Inventory, i: nat, t: Tree, s: int, x: int)
    requires i < 32 && x !in inv && s >= 256 && InventoryOK(ms, inv[x := s])
    requires forall q :: q in Elems(t) ==> q in inv && inv[q] >= 256
    ensures x > 0 && x % 8 == 0 && OutsideNode(TreeBin(ms, i), x) && (forall q :: q in Elems(t) ==> Sep(q, x))
  {
    var all := inv[x := s];
    assert x in all && all[x] == s;
    forall q | q in Elems(t)
      ensures Sep(q, x)
    {
      assert q in all && all[q] == inv[q] && q != x;
    }
  }

  /** The words of the malloc_state record and of all binned chunks are part of the segment. */
  ghost predicate Mapped(m: Mem, ms: int, inv: Inventory) {
    && (forall a :: ms <= a < ms + MSIZE - 8 && a % 4 == 0 ==> a in m)
    && (forall q, a :: q in inv && q <= a < q + inv[q] && a % 4 == 0 ==> a in m)
  }

  /** All link words of a tree chunk are part of the segment. */
  ghost predicate NodeMapped(m: Mem, q: int) {
    q + FD in m && q + BK in m && q + LEFT in m && q + RIGHT in m && q + PARENT in m && q + INDEX in m
  }

  lemma MappedNode(m: Mem, ms: int, inv: Inventory, q: int)
    requires InventoryOK(ms, inv) && Mapped(m, ms, inv) && q in inv && inv[q] >= 256
    ensures NodeMapped(m, q) && q + HEAD in m
  {
    MappedWord(m, ms, inv, q, HEAD);
    MappedWord(m, ms, inv, q, FD);
    MappedWord(m, ms, inv, q, BK);
    MappedWord(m, ms, inv, q, LEFT);
    MappedWord(m, ms, inv, q, RIGHT);
    MappedWord(m, ms, inv, q, PARENT);
    MappedWord(m, ms, inv, q, INDEX);
  }

  lemma MappedWord(m: Mem, ms: int, inv: Inventory, q: int, k: int)
    requires Mapped(m, ms, inv) && q in inv && q % 8 == 0 && 0 <= k < inv[q] && k % 4 == 0
    ensures q + k in m
  {
    assert (q + k) % 4 == 0;
  }

  lemma InsertConfined(m: Mem, m': Mem, ms: int, inv: Inventory, all: Inventory, i: nat, t: Tree, s: int, x: int)
    requires TreeBinRep(m, ms, inv, i, t) && 256 <= s < WORD && s % 8 == 0 && i == ComputeTreeIndex(s) && i < 32
    requires x !in inv && all == inv[x := s] && InventoryOK(ms, all) && Mapped(m, ms, all)
    requires m' == InsertStores(m, t, i, s, TreeBin(ms, i), x)
    ensures Confined(m, m', all, Elems(t) + {x}, TreeBin(ms, i), TreeBin(ms, i))
  {
    hide Trie, Sized, TreeRep, Down, Put, NodeMapped, Confined, Cleared, HangLeaf, ComputeTreeIndex, Pow2, Chain,
      Reached, RootLo;
    assert TreeBin(ms, i) in m;
    TreeMapped(m, ms, all, Elems(t) + {x});
    if Reached(t, i, s).Nil? {
      LeafConfined(m, m', all, i, t, s, x, TreeBin(ms, i), Elems(t) + {x});
    } else {
      var f := ChainNeighbour(m, ms, inv, i, t, s, x);
      NewNodeApart(ms, inv, i, t, s, x);
      ChainConfined(m, all, x, Reached(t, i, s).p, f, i, Elems(t) + {x}, TreeBin(ms, i));
    }
  }

  lemma TreeMapped(m: Mem, ms: int, inv: Inventory, c: set<int>)
    requires InventoryOK(ms, inv) && Mapped(m, ms, inv) && (forall q :: q in c ==> q in inv && inv[q] >= 256)
    ensures forall q :: q in c ==> NodeMapped(m, q)
  {
    forall q | q in c ensures NodeMapped(m, q) { MappedNode(m, ms, inv, q); }
  }

  lemma LeafConfined(m: Mem, m': Mem, all: Inventory, i: nat, t: Tree, s: int, x: int, h: int, c: set<int>)
    requires Reached(t, i, s).Nil? && h in m && c == Elems(t) + {x} && m' == InsertStores(m, t, i, s, h, x)
    requires forall q :: q in c ==> q in all && all[q] >= 256 && NodeMapped(m, q)
    ensures Confined(m, m', all, c, h, h)
  {
    var a, y := ReachedPlace(t, i, s, h);
    assert m' == HangLeaf(Cleared(m, x, i), x, a, y);
    assert a in m;
    HangConfined(m, all, x, a, y, i, c, h);
  }

  lemma ChainNeighbour(m: Mem, ms: int, inv: Inventory, i: nat, t: Tree, s: int, x: int) returns (f: int)
    requires TreeBinRep(m, ms, inv, i, t) && 256 <= s < WORD && s % 8 == 0 && i == ComputeTreeIndex(s) && i < 32
    requires Reached(t, i, s).Node?
    ensures Reached(t, i, s).p in Elems(t)
    ensures f == Fd(m, Reached(t, i, s).p) && f in Elems(t)
  {
    var d := Reached(t, i, s);
    RootFits(s);
    DownSubset(t, RootLo(i), RootK(i), s);
    NodeContext(m, t, RootLo(i), RootK(i), TreeBin(ms, i), i, inv, s);
    RestHere(d);
    f := Fd(m, d.p);
    assert Link(m, d.p, d.rest, 0);
  }

  lemma ReachedPlace(t: Tree, i: nat, s: int, h: int) returns (a: int, y: int)
    ensures a == ReachedSlot(t, i, s, h) && y == ReachedParent(t, i, s, h)
    ensures a == h || (y in Elems(t) && (a == y + LEFT || a == y + RIGHT))
  {
    a, y := ReachedSlot(t, i, s, h), ReachedParent(t, i, s, h);
    SlotPlace(t, RootLo(i), RootK(i), s, h, h);
  }

  lemma ClearedConfined(m: Mem, all: Inventory, x: int, i: int, c: set<int>, h: int)
    requires x in c && x in all && all[x] >= 256 && NodeMapped(m, x)
    ensures Confined(m, Cleared(m, x, i), all, c, h, h)
  {
    var m1 := m[x + INDEX := i];
    var m2 := m1[x + LEFT := 0];
    ConfinedStore(m, m, all, c, h, h, x + INDEX, i, x);
    ConfinedStore(m, m1, all, c, h, h, x + LEFT, 0, x);
    ConfinedStore(m, m2, all, c, h, h, x + RIGHT, 0, x);
  }

  lemma HangConfined(m: Mem, all: Inventory, x: int, a: int, y: int, i: int, c: set<int>, h: int)
    requires x in c && x in all && all[x] >= 256
    requires a == h || (y in c && y in all && all[y] >= 256 && (a == y + LEFT || a == y + RIGHT))
    requires a in m && NodeMapped(m, x)
    ensures Confined(m, HangLeaf(Cleared(m, x, i), x, a, y), all, c, h, h)
  {
    var m0 := Cleared(m, x, i);
    var m1 := m0[a := x];
    var m2 := m1[x + PARENT := y];
    var m3 := m2[x + BK := x];
    ClearedConfined(m, all, x, i, c, h);
    ConfinedStore(m, m0, all, c, h, h, a, x, y);
    ConfinedStore(m, m1, all, c, h, h, x + PARENT, y, x);
    ConfinedStore(m, m2, all, c, h, h, x + BK, x, x);
    ConfinedStore(m, m3, all, c, h, h, x + FD, x, x);
  }

  lemma ChainConfined(m: Mem, all: Inventory, x: int, t: int, f: int, i: int, c: set<int>, h: int)
    requires x in c && x in all && all[x] >= 256 && t in c && t in all && all[t] >= 256 && Sep(t, x)
    requires f == Fd(m, t) && f in c && f in all && all[f] >= 256
    requires NodeMapped(m, x) && NodeMapped(m, t) && NodeMapped(m, f)
    ensures Confined(m, Chain(Cleared(m, x, i), x, t), all, c, h, h)
  {
    ClearedReads(m, x, i);
    ClearedConfined(m, all, x, i, c, h);
    ChainStoresConfined(m, Cleared(m, x, i), all, x, t, f, c, h);
  }

  lemma ChainStoresConfined(m: Mem, m0: Mem, all: Inventory, x: int, t: int, f: int, c: set<int>, h: int)
    requires x in c && x in all && all[x] >= 256 && t in c && t in all && all[t] >= 256
    requires f == Fd(m0, t) && f in c && f in all && all[f] >= 256
    requires NodeMapped(m, x) && NodeMapped(m, t) && NodeMapped(m, f) && Confined(m, m0, all, c, h, h)
    ensures Confined(m, Chain(m0, x, t), all, c, h, h)
  {
    hide Confined;
    var m1 := m0[f + BK := x];
    var m2 := m1[t + FD := x];
    var m3 := m2[x + FD := f];
    var m4 := m3[x + BK := t];
    ConfinedStore(m, m0, all, c, h, h, f + BK, x, f);
    ConfinedStore(m, m1, all, c, h, h, t + FD, x, t);
    ConfinedStore(m, m2, all, c, h, h, x + FD, f, x);
    ConfinedStore(m, m3, all, c, h, h, x + BK, t, x);
    ConfinedStore(m, m4, all, c, h, h, x + PARENT, 0, x);
  }

  lemma InsertLarge(m: Mem, ms: int, inv: Inventory, b: BinSet, smallmap: bv32, treemap: bv32, treemap': bv32, i: nat,
        s: int, x: int)
    requires BinsRep(m, ms, inv, b, smallmap, treemap)
    requires 256 <= s < WORD && s % 8 == 0 && i == ComputeTreeIndex(s) && i < 32
    requires x !in inv && InventoryOK(ms, inv[x := s]) && Mapped(m, ms, inv[x := s]) && SizeOf(Head(m, x)) == s
    requires MapSet(treemap, treemap', i, true)
    ensures var t := b.tree[i];
            var m' := InsertStores(m, t, i, s, TreeBin(ms, i), x);
            && BinsRep(m', ms, inv[x := s], b.(tree := b.tree[i := Replaced(t, i, s, NewNode(Reached(t, i, s), s, x))]),
               smallmap, treemap')
            && Confined(m, m', inv[x := s], Elems(t) + {x}, TreeBin(ms, i), TreeBin(ms, i))
  {
    hide Confined, InsertStores, MapSet, Pow2, TreeAt, Marked, TreeLog;
    var t, h, all := b.tree[i], TreeBin(ms, i), inv[x := s];
    assert TreeBinRep(m, ms, inv, i, t);
    var m' := InsertStores(m, t, i, s, h, x);
    var t' := Replaced(t, i, s, NewNode(Reached(t, i, s), s, x));
    InsertConfined(m, m', ms, inv, all, i, t, s, x);
    InsertLargeTree(m, ms, inv, i, t, s, x);
    assert x in Elems(t');
    TreeBinsUpdated(m, m', ms, inv, all, all, b.tree, treemap, treemap', i, t', Elems(t) + {x});
    SmallBinsKept(m, m', ms, inv, all, all, b.small, smallmap, Elems(t) + {x}, i);
  }

  // ----- unlink_large_chunk

  function UnlinkStores(m: Mem, t: Tree, i: nat, s: int, h: int, x: int): Mem
    requires Reached(t, i, s).Node? && x in Here(Reached(t, i, s))
  {
    var d, a, y := Reached(t, i, s), ReachedSlot(t, i, s, h), ReachedParent(t, i, s, h);
    var u := Drop(d, x);
    if x != d.p then RingStores(m, x)
    else if d.rest != [] then PlaceStores(RingStores(m, x), x, u.p, a, y)
    else if u.Node? then PlaceStores(m[CutSlot(d, d.r.Node?) := 0], x, u.p, a, y)
    else m[a := 0]
  }

  /** Replacement `r` takes the place of `x`: slot, parent and children. */
  function PlaceStores(m: Mem, x: int, r: int, a: int, y: int): Mem {
    AdoptRight(AdoptLeft(m[a := r][r + PARENT := y], x, r), x, r)
  }

  lemma UnlinkHeadRep(m: Mem, t: Tree, lo: int, k: nat, h: int, bin: int, inv: Inventory, s: int)
    requires TreeAt(m, t, lo, k, h, bin, inv) && Fits(s, lo, k) && Down(t, lo, k, s).Node?
    requires Down(t, lo, k, s).rest != []
    ensures var d := Down(t, lo, k, s);
            var m' := PlaceStores(RingStores(m, d.p), d.p, Drop(d, d.p).p, DownSlot(t, lo, k, s, h),
              DownParent(t, lo, k, s, h));
            var t' := Put(t, lo, k, s, Drop(d, d.p));
            TreeRep(m', t', h, bin) && Rd(m', h) == Ptr(t')
  {
    hide DownLo, DownParent, Down, Trie, NodeWords;
    var d, y := Down(t, lo, k, s), DownParent(t, lo, k, s, h);
    var u, m1 := Drop(d, d.p), RingStores(m, d.p);
    NodeContext(m, t, lo, k, h, bin, inv, s);
    DropHeadDetached(m, d, y, bin, Elems(t));
    DropApart(d, DownLo(t, lo, k, s), DownK(t, lo, k, s), inv);
    HeadChildren(m, d, y, bin, Elems(t));
    RestHere(d);
    RingStoresElsewhere(m, d.p, Here(d), h);
    UnlinkReplaced(m, m1, t, lo, k, h, bin, inv, s, u);
  }

  lemma HeadChildren(m: Mem, d: Tree, y: int, bin: int, c: set<int>)
    requires d.Node? && TreeRep(m, d, y, bin) && Apart(d) && Elems(d) <= c && d.rest != []
    requires forall q :: q in c && q !in Here(d) ==> SameNode(m, RingStores(m, d.p), q)
    requires LinksOnly(m, RingStores(m, d.p), d.p)
    ensures var m1, u := RingStores(m, d.p), Drop(d, d.p);
            && u.l == d.l && u.r == d.r && TreeRep(m1, d.l, d.p, bin) && TreeRep(m1, d.r, d.p, bin)
            && Left(m1, d.p) == Ptr(d.l) && Right(m1, d.p) == Ptr(d.r) && SameNodes(m, m1, c - Elems(d))
  {
    TreeFrame(m, RingStores(m, d.p), d.l, d.p, bin);
    TreeFrame(m, RingStores(m, d.p), d.r, d.p, bin);
  }

  lemma DropApart(d: Tree, lo: int, k: nat, inv: Inventory)
    requires d.Node? && Trie(d, lo, k) && Sized(d, inv)
    ensures Apart(Drop(d, d.p)) && Elems(Drop(d, d.p)) == Elems(d) - {d.p}
  {
    RestHere(d);
    ElemsIn(d, inv);
    DropTrie(d, lo, k, d.p);
    DropElems(d, lo, k, d.p, inv, inv);
    TrieApart(Drop(d, d.p), lo, k, inv);
  }

  lemma UnlinkLeafRep(m: Mem, t: Tree, lo: int, k: nat, h: int, bin: int, inv: Inventory, s: int)
    requires TreeAt(m, t, lo, k, h, bin, inv) && Fits(s, lo, k) && Down(t, lo, k, s).Node?
    requires Down(t, lo, k, s).rest == []
    requires Drop(Down(t, lo, k, s), Down(t, lo, k, s).p).Node?
    ensures var d := Down(t, lo, k, s);
            var m' := PlaceStores(m[CutSlot(d, d.r.Node?) := 0], d.p, Drop(d, d.p).p, DownSlot(t, lo, k, s, h),
              DownParent(t, lo, k, s, h));
            var t' := Put(t, lo, k, s, Drop(d, d.p));
            TreeRep(m', t', h, bin) && Rd(m', h) == Ptr(t')
  {
    var d, y := Down(t, lo, k, s), DownParent(t, lo, k, s, h);
    var lo', k' := DownLo(t, lo, k, s), DownK(t, lo, k, s);
    NodeContext(m, t, lo, k, h, bin, inv, s);
    DropLeafDetached(m, d, lo', k', y, bin, d.r.Node?);
    DropApart(d, lo', k', inv);
    CutElsewhere(m, t, d, h);
    UnlinkReplaced(m, m[CutSlot(d, d.r.Node?) := 0], t, lo, k, h, bin, inv, s, Drop(d, d.p));
  }

  lemma CutElsewhere(m: Mem, t: Tree, d: Tree, h: int)
    requires d.Node? && Spaced(Elems(t)) && Elems(d) <= Elems(t) && (forall q :: q in Elems(t) ==> OutsideNode(h, q))
    ensures var m1 := m[CutSlot(d, d.r.Node?) := 0]; SameNodes(m, m1, Elems(t) - Elems(d)) && Rd(m1, h) == Rd(m, h)
  {
    RestHere(d);
    var a := CutSlot(d, d.r.Node?);
    var x := CutSlotPlace(d, d.r.Node?);
    assert x in Elems(d);
    forall q | q in Elems(t) - Elems(d)
      ensures SameNode(m, m[a := 0], q)
    {
      ApartFromSlot(a, x, q);
      StoreOutside(m, m[a := 0], a, 0, q);
    }
  }

  lemma UnlinkRep(m: Mem, t: Tree, i: nat, h: int, inv: Inventory, s: int, x: int)
    requires TreeAt(m, t, RootLo(i), RootK(i), h, i, inv) && Fits(s, RootLo(i), RootK(i))
    requires Reached(t, i, s).Node? && x in Here(Reached(t, i, s))
    ensures var m', t' := UnlinkStores(m, t, i, s, h, x), Replaced(t, i, s, Drop(Reached(t, i, s), x));
            TreeRep(m', t', h, i) && Rd(m', h) == Ptr(t')
  {
    var lo, k, d := RootLo(i), RootK(i), Reached(t, i, s);
    if x != d.p {
      RestHere(d);
      UnlinkMember(m, t, lo, k, h, i, inv, s, x);
    } else if d.rest != [] {
      UnlinkHeadRep(m, t, lo, k, h, i, inv, s);
    } else if Drop(d, x).Node? {
      UnlinkLeafRep(m, t, lo, k, h, i, inv, s);
    } else {
      UnlinkLast(m, t, lo, k, h, i, inv, s);
    }
  }

  lemma DroppedNode(t: Tree, lo: int, k: nat, inv: Inventory, s: int, x: int)
    requires Trie(t, lo, k) && Sized(t, inv) && Fits(s, lo, k) && Down(t, lo, k, s).Node?
    requires x in Here(Down(t, lo, k, s))
    ensures var d := Down(t, lo, k, s);
            var u := Drop(d, x);
            && Trie(u, DownLo(t, lo, k, s), DownK(t, lo, k, s)) && Sizes(u) <= Sizes(d) + {s}
            && Sized(u, inv - {x}) && Elems(u) == Elems(d) - {x} && Elems(d) <= Elems(t)
            && Agree(Elems(t) - Elems(d), inv, inv - {x})
  {
    hide Here, Trie, Sizes, Sized;
    var d, lo', k' := Down(t, lo, k, s), DownLo(t, lo, k, s), DownK(t, lo, k, s);
    DownFits(t, lo, k, s);
    DownSized(t, lo, k, s, inv);
    DownSubset(t, lo, k, s);
    ElemsIn(t, inv);
    DropTrie(d, lo', k', x);
    DropElems(d, lo', k', x, inv, inv - {x});
  }

  lemma UnlinkLargeTree(m: Mem, ms: int, inv: Inventory, i: nat, t: Tree, x: int)
    requires TreeBinRep(m, ms, inv, i, t) && InventoryOK(ms, inv) && x in Elems(t) && i < 32
    ensures var s := inv[x];
            && Reached(t, i, s).Node? && x in Here(Reached(t, i, s))
            && TreeBinRep(UnlinkStores(m, t, i, s, TreeBin(ms, i), x), ms, inv - {x}, i,
               Replaced(t, i, s, Drop(Reached(t, i, s), x)))
            && Elems(Replaced(t, i, s, Drop(Reached(t, i, s), x))) == Elems(t) - {x}
  {
    hide Trie, Sized, TreeRep, UnlinkStores, Down, Put, Drop, Spaced, Here, RootK;
    var s := inv[x];
    RootFits(s);
    LocateIn(t, i, inv, x);
    UnlinkRep(m, t, i, TreeBin(ms, i), inv, s, x);
    DroppedNode(t, RootLo(i), RootK(i), inv, s, x);
    ReplacedTreeBin(m, UnlinkStores(m, t, i, s, TreeBin(ms, i), x), ms, inv, inv - {x}, i, t, s,
      Drop(Reached(t, i, s), x));
  }

  lemma LocateIn(t: Tree, i: nat, inv: Inventory, x: int)
    requires Trie(t, RootLo(i), RootK(i)) && Sized(t, inv) && x in Elems(t)
    ensures x in inv && Reached(t, i, inv[x]).Node? && x in Here(Reached(t, i, inv[x]))
  {
    Locate(t, RootLo(i), RootK(i), inv, x);
  }

  ghost predicate LargeMember(m: Mem, all: Inventory, c: set<int>, q: int) {
    q in c && q in all && all[q] >= 256 && NodeMapped(m, q)
  }

  lemma RingConfined(m: Mem, all: Inventory, c: set<int>, h: int, x: int)
    requires LargeMember(m, all, c, Fd(m, x)) && LargeMember(m, all, c, Bk(m, x))
    ensures Confined(m, RingStores(m, x), all, c, h, h)
  {
    var f, b := Fd(m, x), Bk(m, x);
    ConfinedStore(m, m, all, c, h, h, f + BK, b, f);
    ConfinedStore(m, m[f + BK := b], all, c, h, h, b + FD, f, b);
  }

  lemma SlotConfined(m: Mem, m1: Mem, all: Inventory, c: set<int>, h: int, a: int, y: int, v: int)
    requires Confined(m, m1, all, c, h, h) && h in m
    requires a == h || (LargeMember(m, all, c, y) && (a == y + LEFT || a == y + RIGHT))
    ensures Confined(m, m1[a := v], all, c, h, h)
  {
    ConfinedStore(m, m1, all, c, h, h, a, v, y);
  }

  lemma AdoptConfined(m: Mem, m1: Mem, all: Inventory, c: set<int>, h: int, x: int, r: int, l: int, rr: int)
    requires Confined(m, m1, all, c, h, h) && LargeMember(m, all, c, r)
    requires Left(m1, x) == l && (l != 0 ==> LargeMember(m, all, c, l))
    requires Right(AdoptLeft(m1, x, r), x) == rr && (rr != 0 ==> LargeMember(m, all, c, rr))
    ensures Confined(m, AdoptRight(AdoptLeft(m1, x, r), x, r), all, c, h, h)
  {
    if l != 0 {
      ConfinedStore(m, m1, all, c, h, h, r + LEFT, l, r);
      ConfinedStore(m, m1[r + LEFT := l], all, c, h, h, l + PARENT, r, l);
    }
    var m2 := AdoptLeft(m1, x, r);
    assert Confined(m, m2, all, c, h, h);
    if rr != 0 {
      ConfinedStore(m, m2, all, c, h, h, r + RIGHT, rr, r);
      ConfinedStore(m, m2[r + RIGHT := rr], all, c, h, h, rr + PARENT, r, rr);
    }
  }

  lemma PlaceConfined(m: Mem, m1: Mem, all: Inventory, c: set<int>, h: int, x: int, r: int, l: int, rr: int, a: int,
        y: int)
    requires Confined(m, m1, all, c, h, h) && h in m && LargeMember(m, all, c, r)
    requires (l != 0 ==> LargeMember(m, all, c, l)) && (rr != 0 ==> LargeMember(m, all, c, rr))
    requires a == h || (LargeMember(m, all, c, y) && (a == y + LEFT || a == y + RIGHT))
    requires OutsideNode(a, x) && OutsideNode(a, r) && Sep(x, r) && (l != 0 ==> Sep(l, x) && Sep(l, r))
    requires Left(m1, x) == l && Right(m1, x) == rr && Left(m1, r) == 0
    ensures Confined(m, PlaceStores(m1, x, r, a, y), all, c, h, h)
  {
    var m2 := m1[a := r];
    var m3 := m2[r + PARENT := y];
    SlotConfined(m, m1, all, c, h, a, y, r);
    ConfinedStore(m, m2, all, c, h, h, r + PARENT, y, r);
    StoreOutside(m1, m2, a, r, x);
    StoreOutside(m1, m2, a, r, r);
    SetParentReads(m2, r, y);
    AdoptLeftReads(m3, x, r, l);
    AdoptConfined(m, m3, all, c, h, x, r, l, rr);
  }

  lemma PlaceTreeConfined(m: Mem, m1: Mem, all: Inventory, c: set<int>, h: int, d: Tree, u: Tree, a: int, y: int)
    requires Confined(m, m1, all, c, h, h) && h in m && Spaced(c) && d.Node? && u.Node? && d.p in c
    requires Elems(u) <= c - {d.p} && Apart(u)
    requires forall q :: q in c ==> LargeMember(m, all, c, q)
    requires a == h || (y in c && (a == y + LEFT || a == y + RIGHT))
    requires OutsideNode(a, d.p) && Left(m1, d.p) == Ptr(u.l) && Right(m1, d.p) == Ptr(u.r) && Left(m1, u.p) == 0
    requires OutsideNode(a, u.p)
    ensures Confined(m, PlaceStores(m1, d.p, u.p, a, y), all, c, h, h)
  {
    ElemsPtr(u);
    AdoptSeparate(c, d.p, u);
    PlaceConfined(m, m1, all, c, h, d.p, u.p, Ptr(u.l), Ptr(u.r), a, y);
  }

  lemma AdoptSeparate(c: set<int>, x: int, u: Tree)
    requires Spaced(c) && x in c && u.Node? && Elems(u) <= c - {x} && Apart(u)
    ensures Sep(x, u.p) && (u.l.Node? ==> Sep(u.l.p, x) && Sep(u.l.p, u.p))
  {
    ElemsPtr(u);
    RestHere(u);
    if u.l.Node? { RestHere(u.l); assert u.l.p in Elems(u.l); }
  }

  /** All stores of an unlinking stay within the tree's chunks and the bin's word. */
  lemma UnlinkConfined(m: Mem, m': Mem, ms: int, inv: Inventory, i: nat, t: Tree, s: int, x: int)
    requires TreeBinRep(m, ms, inv, i, t) && InventoryOK(ms, inv) && Mapped(m, ms, inv) && i < 32
    requires Fits(s, RootLo(i), RootK(i)) && Reached(t, i, s).Node? && x in Here(Reached(t, i, s))
    requires m' == UnlinkStores(m, t, i, s, TreeBin(ms, i), x)
    ensures Confined(m, m', inv, Elems(t), TreeBin(ms, i), TreeBin(ms, i))
  {
    var d, h, c := Reached(t, i, s), TreeBin(ms, i), Elems(t);
    assert h in m;
    TreeMapped(m, ms, inv, c);
    assert forall q :: q in c ==> LargeMember(m, inv, c, q);
    NodeContext(m, t, RootLo(i), RootK(i), h, i, inv, s);
    RestHere(d);
    if x != d.p {
      UnlinkMember(m, t, RootLo(i), RootK(i), h, i, inv, s, x);
      RingConfined(m, inv, c, h, x);
    } else if d.rest != [] {
      UnlinkHeadConfined(m, m', t, RootLo(i), RootK(i), h, i, inv, s);
    } else if Drop(d, x).Node? {
      UnlinkLeafConfined(m, m', t, RootLo(i), RootK(i), h, i, inv, s);
    } else {
      var a, y := ReachedPlace(t, i, s, h);
      SlotConfined(m, m, inv, c, h, a, y, 0);
    }
  }

  lemma UnlinkHeadConfined(m: Mem, m': Mem, t: Tree, lo: int, k: nat, h: int, bin: int, inv: Inventory, s: int)
    requires TreeAt(m, t, lo, k, h, bin, inv) && Fits(s, lo, k) && h in m && Down(t, lo, k, s).Node?
    requires Down(t, lo, k, s).rest != []
    requires forall q :: q in Elems(t) ==> LargeMember(m, inv, Elems(t), q)
    requires var d := Down(t, lo, k, s);
             m' == PlaceStores(RingStores(m, d.p), d.p, Drop(d, d.p).p, DownSlot(t, lo, k, s, h),
               DownParent(t, lo, k, s, h))
    ensures Confined(m, m', inv, Elems(t), h, h)
  {
    var d, y, a, c := Down(t, lo, k, s), DownParent(t, lo, k, s, h), DownSlot(t, lo, k, s, h), Elems(t);
    NodeContext(m, t, lo, k, h, bin, inv, s);
    SlotPlace(t, lo, k, s, h, h);
    RestHere(d);
    DropHeadDetached(m, d, y, bin, c);
    HeadChildren(m, d, y, bin, c);
    DropApart(d, DownLo(t, lo, k, s), DownK(t, lo, k, s), inv);
    ElemsPtr(Drop(d, d.p));
    RingConfined(m, inv, c, h, d.p);
    PlaceTreeConfined(m, RingStores(m, d.p), inv, c, h, d, Drop(d, d.p), a, y);
  }

  lemma UnlinkLeafConfined(m: Mem, m': Mem, t: Tree, lo: int, k: nat, h: int, bin: int, inv: Inventory, s: int)
    requires TreeAt(m, t, lo, k, h, bin, inv) && Fits(s, lo, k) && h in m && Down(t, lo, k, s).Node?
    requires Down(t, lo, k, s).rest == []
    requires Drop(Down(t, lo, k, s), Down(t, lo, k, s).p).Node?
    requires forall q :: q in Elems(t) ==> LargeMember(m, inv, Elems(t), q)
    requires var d := Down(t, lo, k, s);
             m' == PlaceStores(m[CutSlot(d, d.r.Node?) := 0], d.p, Drop(d, d.p).p, DownSlot(t, lo, k, s, h),
               DownParent(t, lo, k, s, h))
    ensures Confined(m, m', inv, Elems(t), h, h)
  {
    var d, y, a, c := Down(t, lo, k, s), DownParent(t, lo, k, s, h), DownSlot(t, lo, k, s, h), Elems(t);
    NodeContext(m, t, lo, k, h, bin, inv, s);
    SlotPlace(t, lo, k, s, h, h);
    RestHere(d);
    DropLeafDetached(m, d, DownLo(t, lo, k, s), DownK(t, lo, k, s), y, bin, d.r.Node?);
    DropApart(d, DownLo(t, lo, k, s), DownK(t, lo, k, s), inv);
    ElemsPtr(Drop(d, d.p));
    var x := CutSlotPlace(d, d.r.Node?);
    SlotConfined(m, m, inv, c, h, CutSlot(d, d.r.Node?), x, 0);
    PlaceTreeConfined(m, m[CutSlot(d, d.r.Node?) := 0], inv, c, h, d, Drop(d, d.p), a, y);
  }

  lemma UnlinkLarge(m: Mem, ms: int, inv: Inventory, b: BinSet, smallmap: bv32, treemap: bv32, treemap': bv32, i: nat,
        x: int)
    requires BinsRep(m, ms, inv, b, smallmap, treemap) && Mapped(m, ms, inv) && i < 32
    requires x in inv && inv[x] >= 256 && i == ComputeTreeIndex(inv[x])
    requires var t, s := b.tree[i], inv[x];
             Reached(t, i, s).Node? && x in Here(Reached(t, i, s))
               && MapSet(treemap, treemap', i, Replaced(t, i, s, Drop(Reached(t, i, s), x)).Node?)
    ensures var t, s := b.tree[i], inv[x];
            var m' := UnlinkStores(m, t, i, s, TreeBin(ms, i), x);
            && BinsRep(m', ms, inv - {x}, b.(tree := b.tree[i := Replaced(t, i, s, Drop(Reached(t, i, s), x))]),
               smallmap, treemap')
            && Confined(m, m', inv, Elems(t), TreeBin(ms, i), TreeBin(ms, i))
  {
    var t, s, h, inv' := b.tree[i], inv[x], TreeBin(ms, i), inv - {x};
    assert TreeBinRep(m, ms, inv, i, t);
    var m' := UnlinkStores(m, t, i, s, h, x);
    var t' := Replaced(t, i, s, Drop(Reached(t, i, s), x));
    RootFits(s);
    UnlinkConfined(m, m', ms, inv, i, t, s, x);
    UnlinkLargeTree(m, ms, inv, i, t, x);
    TreeBinsUpdated(m, m', ms, inv, inv', inv, b.tree, treemap, treemap', i, t', Elems(t));
    SmallBinsKept(m, m', ms, inv, inv', inv, b.small, smallmap, Elems(t), i);
  }
}
