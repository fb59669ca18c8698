/** From the marks and searches of mspace_malloc to which free chunk a request gets. */
module Requests {
  import opened BinIndex
  import opened Bins
  import opened Chunks
  import opened HeapState
  import opened HeapSteps
  import opened HeapReads
  import opened BestBins
  import opened HeapLive

  lemma SmallMarked(s: State, g: Segment, q: int)
    requires Good(s, g, {}) && q in Binned(s.h, s.dv, {}) && s.h[q].size < 256
    ensures var j := s.h[q].size / 8; 2 <= j < 32 && s.h[q].size == 8 * j && Marked(s.smallmap, j)
  {
    hide HeapOK, BinsOK, Marked, Binned;
    var i, k := SmallMember(s, g, {}, q);
    ReadSmallBin(s, g, {}, i);
    ReadFree(s, g, q);
  }

  lemma ReadFree(s: State, g: Segment, q: int)
    requires HeapOK(s, g) && q in Binned(s.h, s.dv, {})
    ensures q in s.h && s.h[q].size >= 16 && s.h[q].size % 8 == 0 && q != s.dv
  {
    ReadChunk(s, g, q);
  }

  lemma NoTrees(s: State, g: Segment, nb: int)
    requires Good(s, g, {}) && forall j: nat :: j < 32 ==> !Marked(s.treemap, j)
    ensures NoLarge(Binned(s.h, s.dv, {}), nb)
  {
    hide HeapOK, BinsOK, Marked;
    forall q | q in Binned(s.h, s.dv, {}) && s.h[q].size >= 256
      ensures false
    {
      InLargeBin(s, g, {}, q);
    }
  }

  /** Every free chunk is the designated victim or binned. */
  lemma FreeCases(s: State, g: Segment, q: int)
    requires Good(s, g, {}) && q in s.h && !s.h[q].used
    ensures if q == s.dv then s.h[q].size == s.dvsize && s.dvsize != 0
      else q in Binned(s.h, s.dv, {}) && Binned(s.h, s.dv, {})[q] == s.h[q].size
  {
    hide BinsRep, Tiled;
    ZeroIsNoChunk(s.h, g.first, s.top);
  }

  lemma VictimIsFree(s: State, g: Segment)
    requires Good(s, g, {}) && s.dvsize != 0
    ensures s.dv in s.h && !s.h[s.dv].used && s.h[s.dv].size == s.dvsize
  {
    hide BinsRep, Tiled;
  }

  /** None of the small bins from `i` up to `j` is marked. */
  ghost predicate NoneMarkedUpTo(x: bv32, i: nat, j: nat) { forall k: nat :: i <= k < j && k < 32 ==> !Marked(x, k) }

  lemma BinnedFloor(s: State, g: Segment, i: nat, j: nat, q: int)
    requires Good(s, g, {}) && NoneMarkedUpTo(s.smallmap, i, j) && j <= 32 && q in Binned(s.h, s.dv, {})
    requires s.h[q].size >= 8 * i
    ensures s.h[q].size >= 8 * j
  {
    hide HeapOK, BinsOK, Marked;
    if s.h[q].size < 256 { SmallMarked(s, g, q); }
  }

  /** A chunk of the lowest marked bin that fits. */
  lemma SmallBinChoice(s: State, g: Segment, nb: int, i: nat, j: nat, p: int)
    requires Good(s, g, {}) && nb == 8 * i && i <= j < 32 && NoneMarkedUpTo(s.smallmap, i, j)
    requires p in Binned(s.h, s.dv, {}) && s.h[p].size == 8 * j && (j <= i + 1 || s.dvsize < nb)
    ensures SmallChoice(s.h, s.dv, nb, p)
  {
    hide HeapOK, BinsOK, NoneMarkedUpTo, Marked;
    if s.dvsize != 0 { VictimIsFree(s, g); }
    VictimSize(s, g);
    forall q | q in s.h && !s.h[q].used && q != s.dv && s.h[q].size >= nb
      ensures s.h[p].size <= s.h[q].size
    {
      FreeCases(s, g, q);
      BinnedFloor(s, g, i, j, q);
    }
  }

  lemma VictimSize(s: State, g: Segment)
    requires HeapOK(s, g)
    ensures s.dv in s.h ==> !s.h[s.dv].used && s.h[s.dv].size == s.dvsize
    ensures s.dv !in s.h ==> s.dvsize == 0 && s.dv == 0
  {
    hide BinsRep;
    ZeroIsNoChunk(s.h, g.first, s.top);
  }

  /** No small bin fits: a smallest tree chunk. */
  lemma TreeChoice(s: State, g: Segment, nb: int, i: nat, p: int)
    requires Good(s, g, {}) && nb == 8 * i && i < 32 && NoneMarkedUpTo(s.smallmap, i, 32) && s.dvsize < nb
    requires BestLarge(Binned(s.h, s.dv, {}), nb, p)
    ensures SmallChoice(s.h, s.dv, nb, p)
  {
    hide HeapOK, BinsOK, NoneMarkedUpTo, Marked;
    VictimSize(s, g);
    assert p in s.h && p != s.dv && !s.h[p].used && s.h[p].size == Binned(s.h, s.dv, {})[p];
    forall q | q in s.h && !s.h[q].used && q != s.dv && s.h[q].size >= nb
      ensures s.h[p].size <= s.h[q].size
    {
      FreeCases(s, g, q);
      BinnedFloor(s, g, i, 32, q);
    }
  }

  /** The designated victim serves a small request when no binned chunk is a near fit. */
  lemma VictimChoice(s: State, g: Segment, nb: int, i: nat)
    requires Good(s, g, {}) && nb == 8 * i && 0 < i < 32 && NoneMarkedUpTo(s.smallmap, i, if i == 31 then 32 else i + 2)
    requires s.dvsize >= nb
    ensures SmallChoice(s.h, s.dv, nb, s.dv)
  {
    hide HeapOK, BinsOK, NoneMarkedUpTo, Marked;
    VictimSize(s, g);
    forall q | q in s.h && !s.h[q].used && q != s.dv
      ensures !NearFit(s.h[q].size, nb)
    {
      FreeCases(s, g, q);
      if s.h[q].size >= nb { NotNear(s, g, i, q); }
    }
  }

  lemma NotNear(s: State, g: Segment, i: nat, q: int)
    requires Good(s, g, {}) && 0 < i < 32 && NoneMarkedUpTo(s.smallmap, i, if i == 31 then 32 else i + 2)
    requires q in Binned(s.h, s.dv, {}) && s.h[q].size >= 8 * i
    ensures s.h[q].size >= 8 * i + 16 || (i == 31 && s.h[q].size >= 256)
  {
    BinnedFloor(s, g, i, if i == 31 then 32 else i + 2, q);
  }

  lemma SmallNoneFree(s: State, g: Segment, nb: int, i: nat)
    requires Good(s, g, {}) && nb == 8 * i && i < 32 && NoneMarkedUpTo(s.smallmap, i, 32)
    requires NoLarge(Binned(s.h, s.dv, {}), nb) && s.dvsize < nb
    ensures NoneFree(s.h, nb)
  {
    hide HeapOK, BinsOK, NoneMarkedUpTo, Marked;
    forall q | q in s.h && !s.h[q].used
      ensures s.h[q].size < nb
    {
      FreeCases(s, g, q);
      if q != s.dv && s.h[q].size >= nb { BinnedFloor(s, g, i, 32, q); }
    }
  }
}
