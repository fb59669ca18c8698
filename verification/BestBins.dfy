/** Best fit over all 32 tree bins: what the search within one bin says about all of them. */
module BestBins {
  import opened Machine
  import opened BinIndex
  import opened Words
  import opened Tries
  import opened TreeWords
  import opened TreeUnlink
  import opened Bins
  import opened Chunks
  import opened HeapState
  import opened HeapReads
  import opened BestFits

  /** `v` is a smallest chunk of the tree bins among those that can hold `nb` bytes. */
  ghost predicate BestLarge(inv: Inventory, nb: int, v: int) {
    v in inv && inv[v] >= 256 && inv[v] >= nb && forall q :: q in inv && inv[q] >= 256 && inv[q] >= nb ==>
      inv[v] <= inv[q]
  }

  ghost predicate NoLarge(inv: Inventory, nb: int) {
    forall q :: q in inv && inv[q] >= 256 ==> inv[q] < nb
  }

  /** Bins below `from` hold only chunks too small for `nb`. */
  ghost predicate SmallBelow(nb: int, from: nat) {
    forall sz :: 256 <= sz < WORD && ComputeTreeIndex(sz) < from ==> sz < nb
  }

  lemma IndexSmallBelow(nb: int)
    requires 256 <= nb < WORD
    ensures 0 <= ComputeTreeIndex(nb) < 32 && SmallBelow(nb, ComputeTreeIndex(nb))
  {
    TreeIndexBounds(nb);
    forall sz | 256 <= sz < WORD && ComputeTreeIndex(sz) < ComputeTreeIndex(nb)
      ensures sz < nb
    {
      TreeIndexOrders(sz, nb);
    }
  }

  lemma ZeroSmallBelow(nb: int)
    ensures SmallBelow(nb, 0)
  {
    forall sz | 256 <= sz < WORD
      ensures ComputeTreeIndex(sz) >= 0
    {
      TreeIndexBounds(sz);
    }
  }

  /** The bins from `from` up to `i` hold nothing that fits. */
  ghost predicate NoneUpTo(b: BinSet, nb: int, from: nat, i: nat) {
    |b.tree| == 32 && forall j: nat :: from <= j < i && j < 32 ==> BestFit(b.tree[j], nb) == WORD
  }

  lemma InLargeBin(s: State, g: Segment, loose: set<int>, q: int)
    requires Good(s, g, loose) && q in Binned(s.h, s.dv, loose) && s.h[q].size >= 256
    ensures var j := ComputeTreeIndex(s.h[q].size);
            && 0 <= j < 32 && |s.b.tree| == 32 && s.h[q].size in Sizes(s.b.tree[j]) && s.b.tree[j].Node?
            && Marked(s.treemap, j)
    ensures s.h[q].size < WORD
  {
    hide HeapOK, BinsOK, Walking, Trie, TreeRep, Spaced, Pow2, Marked;
    var i, d := LargeNode(s, g, loose, q);
    ReadTreeBin(s, g, loose, i);
    ElemSize(s.b.tree[i], Binned(s.h, s.dv, loose), q);
    ReadChunk(s, g, q);
  }

  lemma BinBelowWord(s: State, g: Segment, loose: set<int>, i: nat)
    requires Good(s, g, loose) && i < 32 && |s.b.tree| == 32
    ensures Below(s.b.tree[i], WORD)
    ensures forall sz :: sz in Sizes(s.b.tree[i]) ==> 256 <= sz < WORD && ComputeTreeIndex(sz) == i
  {
    hide HeapOK, BinsOK, Walking, Trie, TreeRep, Spaced, Pow2, Marked;
    ReadTreeBin(s, g, loose, i);
    forall sz | sz in Sizes(s.b.tree[i])
      ensures 256 <= sz < WORD && ComputeTreeIndex(sz) == i
    {
      var q := SizeElem(s.b.tree[i], Binned(s.h, s.dv, loose), sz);
      ReadChunk(s, g, q);
    }
  }

  /** A fit in bin `i`, with none in the bins before it, is a best fit. */
  lemma FirstFitIsBest(s: State, g: Segment, loose: set<int>, nb: int, from: nat, i: nat, v: int)
    requires Good(s, g, loose) && 0 < nb < WORD && from <= i < 32 && SmallBelow(nb, from) && NoneUpTo(s.b, nb, from, i)
    requires var inv := Binned(s.h, s.dv, loose); v in inv && inv[v] == BestFit(s.b.tree[i], nb) && inv[v] < WORD
    ensures BestLarge(Binned(s.h, s.dv, loose), nb, v)
  {
    hide HeapOK, BinsOK, Sizes;
    var inv, best := Binned(s.h, s.dv, loose), BestFit(s.b.tree[i], nb);
    BinBelowWord(s, g, loose, i);
    BestFitIsLeast(s.b.tree[i], nb);
    forall q | q in inv && inv[q] >= 256 && inv[q] >= nb
      ensures best <= inv[q]
    {
      InLargeBin(s, g, loose, q);
      var j := ComputeTreeIndex(inv[q]);
      if i < j {
        TreeIndexOrders(best, inv[q]);
      } else if j < i && from <= j {
        BinBelowWord(s, g, loose, j);
        BestFitIsLeast(s.b.tree[j], nb);
      }
    }
  }

  lemma NoFitAnywhere(s: State, g: Segment, loose: set<int>, nb: int, from: nat)
    requires Good(s, g, loose) && 0 < nb < WORD && SmallBelow(nb, from) && NoneUpTo(s.b, nb, from, 32)
    ensures NoLarge(Binned(s.h, s.dv, loose), nb)
  {
    hide HeapOK, BinsOK, Sizes;
    var inv := Binned(s.h, s.dv, loose);
    forall q | q in inv && inv[q] >= 256
      ensures inv[q] < nb
    {
      InLargeBin(s, g, loose, q);
      var j := ComputeTreeIndex(inv[q]);
      if from <= j {
        BinBelowWord(s, g, loose, j);
        BestFitIsLeast(s.b.tree[j], nb);
      }
    }
  }

  /** Unmarked bins hold nothing. */
  lemma UnmarkedNone(s: State, g: Segment, loose: set<int>, nb: int, from: nat, i: nat)
    requires Good(s, g, loose) && forall j: nat :: from <= j < i && j < 32 ==> !Marked(s.treemap, j)
    ensures NoneUpTo(s.b, nb, from, i)
  {
    hide HeapOK, BinsOK, Marked, Walking, TreeAt;
    ReadTreeBin(s, g, loose, 0);
    forall j: nat | from <= j < i && j < 32
      ensures BestFit(s.b.tree[j], nb) == WORD
    {
      ReadTreeBin(s, g, loose, j);
    }
  }

  lemma NoneExtends(b: BinSet, nb: int, from: nat, i: nat, k: nat)
    requires NoneUpTo(b, nb, from, i) && NoneUpTo(b, nb, i, k)
    ensures NoneUpTo(b, nb, from, k)
  {
  }

  lemma NoneOne(b: BinSet, nb: int, i: nat)
    requires |b.tree| == 32 && i < 32 && BestFit(b.tree[i], nb) == WORD
    ensures NoneUpTo(b, nb, i, i + 1)
  {
  }

  lemma AboveRequest(s: State, g: Segment, loose: set<int>, nb: int, i: nat)
    requires Good(s, g, loose) && i < 32 && |s.b.tree| == 32 && (nb < 256 || (nb < WORD && ComputeTreeIndex(nb) < i))
    ensures Above(s.b.tree[i], nb)
  {
    hide HeapOK, BinsOK, Sizes;
    BinBelowWord(s, g, loose, i);
    forall sz | sz in Sizes(s.b.tree[i])
      ensures sz >= nb
    {
      if nb >= 256 { TreeIndexOrders(nb, sz); }
    }
  }

  /** The chunks in all trees, without those chained to them. */
  ghost function Heads(b: BinSet): set<int> { TopsOf(b.tree) }

  ghost function TopsOf(ts: seq<Tree>): set<int> {
    if ts == [] then {} else Tops(ts[0]) + TopsOf(ts[1..])
  }

  lemma {:induction false} TopsAmong(ts: seq<Tree>, i: nat)
    requires i < |ts|
    ensures Tops(ts[i]) <= TopsOf(ts)
    decreases i
  {
    if i > 0 { TopsAmong(ts[1..], i - 1); }
  }

  lemma {:induction false} TopFrom(ts: seq<Tree>, q: int) returns (i: nat)
    requires q in TopsOf(ts)
    ensures i < |ts| && q in Tops(ts[i])
  {
    if q in Tops(ts[0]) {
      i := 0;
    } else {
      i := TopFrom(ts[1..], q);
      i := i + 1;
    }
  }

  lemma WalkBin(s: State, g: Segment, loose: set<int>, i: nat)
    requires Good(s, g, loose) && i < 32
    ensures |s.b.tree| == 32 && (Marked(s.treemap, i) <==> s.b.tree[i].Node?)
    ensures Walking(s.m, Binned(s.h, s.dv, loose), Heads(s.b), Rd(s.m, TreeBin(g.first + 8, i)),
      RootPlace(s.b.tree[i], i))
    ensures Rd(s.m, TreeBin(g.first + 8, i)) == 0 <==> s.b.tree[i].Nil?
    ensures Below(s.b.tree[i], WORD)
  {
    hide HeapOK, BinsOK, Marked, TreeAt, Walking, Pow2, Tops, Binned;
    ReadTreeBin(s, g, loose, i);
    BinBelowWord(s, g, loose, i);
    TopsAmong(s.b.tree, i);
    Widen(s.m, Binned(s.h, s.dv, loose), Tops(s.b.tree[i]), Heads(s.b), Rd(s.m, TreeBin(g.first + 8, i)),
      RootPlace(s.b.tree[i], i));
  }

  lemma Widen(m: Mem, inv: Inventory, all: set<int>, all': set<int>, p: int, c: Place)
    requires Walking(m, inv, all, p, c) && all <= all'
    ensures Walking(m, inv, all', p, c)
  {
  }

  lemma NilPlace(m: Mem, inv: Inventory, all: set<int>, t: int, c: Place)
    requires Walking(m, inv, all, t, c)
    ensures t == 0 <==> c.t.Nil?
  {
  }
}
