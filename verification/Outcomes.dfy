/** What a call does, exactly: which chunk a request gets, what becomes of the rest of it, and what a
    freed block is merged with. Nothing is left open: the state before determines the state after. */
module Outcomes {
  import opened Machine
  import opened BinIndex
  import opened BinQueues
  import opened Chunks
  import opened HeapState
  import opened BestBins
  import opened HeapLive
  import opened Requests
  import opened HeapQueues

  /** A heap without its words: chunks, queues, designated victim and top. */
  datatype Layout = Layout(h: Heap, q: Queues, dv: int, dvsize: int, top: int, topsize: int)

  ghost function View(s: State): Layout { Layout(s.h, QueuesOf(s.b), s.dv, s.dvsize, s.top, s.topsize) }

  // ----- which chunk

  /** The smallest size that waits and can hold `nb` bytes. */
  ghost predicate Least(q: Queues, nb: int, z: int) {
    z in q && nb <= z && forall y :: y in q && nb <= y ==> z <= y
  }

  /** A waiting chunk can hold `nb` bytes, and fits better than the designated victim. */
  ghost predicate Beaten(l: Layout, nb: int) {
    exists z :: z in l.q && nb <= z && (l.dvsize < nb || z < l.dvsize)
  }

  /** The chunk for `nb` bytes. A small request first takes a chunk of its size, or of the next; then
      the victim, if that is large enough. Otherwise it is the first chunk of the smallest size that
      will do, unless the victim fits as well; then the victim; then top. */
  ghost predicate Chosen(l: Layout, nb: int, p: int) {
    if nb < 256 && nb in l.q then First(l.q, nb, p)
    else if nb < 248 && nb + 8 in l.q then First(l.q, nb + 8, p)
    else if nb < 256 && nb <= l.dvsize then p == l.dv
    else if Beaten(l, nb) then exists z :: Least(l.q, nb, z) && First(l.q, z, p)
    else if nb <= l.dvsize then p == l.dv
    else nb < l.topsize && p == l.top
  }

  // ----- the searches find it

  /** What the marks of the small bins say about the sizes that wait. */
  lemma NoneWaits(s: State, g: Segment, i: nat, j: nat, z: int)
    requires Good(s, g, {}) && NoneMarkedUpTo(s.smallmap, i, j) && j <= 32 && z in QueuesOf(s.b) && z >= 8 * i
    ensures z >= 8 * j
  {
    hide HeapOK, BinsOK, QueuesOf, Binned;
    QueueFirst(s, g, z);
    BinnedFloor(s, g, i, j, QueuesOf(s.b)[z][0]);
  }

  /** A chunk of the request's size or of the next. */
  lemma NearChosen(s: State, g: Segment, i: nat, j: nat)
    requires Good(s, g, {}) && 2 <= i <= j <= i + 1 && j < 32 && NoneMarkedUpTo(s.smallmap, i, j)
    requires Marked(s.smallmap, j)
    ensures |s.b.small| == 32 && s.b.small[j] != []
    ensures First(QueuesOf(s.b), 8 * j, s.b.small[j][0]) && Chosen(View(s), 8 * i, s.b.small[j][0])
  {
    hide HeapOK, BinsOK, QueuesOf, Marked, Beaten, Least;
    SmallMarks(s, g, j);
    SmallMarks(s, g, i);
    QueueFirst(s, g, 8 * j);
  }

  /** A chunk of the lowest marked bin above. */
  lemma NextChosen(s: State, g: Segment, i: nat, j: nat)
    requires Good(s, g, {}) && 2 <= i && i + 2 <= j < 32 && NoneMarkedUpTo(s.smallmap, i, j) && Marked(s.smallmap, j)
    requires s.dvsize < 8 * i
    ensures |s.b.small| == 32 && s.b.small[j] != []
    ensures First(QueuesOf(s.b), 8 * j, s.b.small[j][0]) && Chosen(View(s), 8 * i, s.b.small[j][0])
  {
    hide HeapOK, BinsOK, QueuesOf, Marked, NoneMarkedUpTo;
    SmallMarks(s, g, j);
    QueueFirst(s, g, 8 * j);
    forall y | y in QueuesOf(s.b) && y >= 8 * i
      ensures y >= 8 * j
    {
      NoneWaits(s, g, i, j, y);
    }
    assert Least(QueuesOf(s.b), 8 * i, 8 * j);
  }

  /** A smallest tree chunk, found in the tree itself. */
  lemma TreeLeast(s: State, g: Segment, nb: int, p: int)
    requires Good(s, g, {}) && BestLarge(Binned(s.h, s.dv, {}), nb, p) && p in Heads(s.b)
    requires forall y :: y in QueuesOf(s.b) && y >= nb ==> y >= 256
    ensures p in s.h && s.h[p].size >= nb && s.h[p].size >= 256
    ensures First(QueuesOf(s.b), s.h[p].size, p) && Least(QueuesOf(s.b), nb, s.h[p].size)
  {
    hide HeapOK, BinsOK, QueuesOf, Heads;
    HeadFirst(s, g, p);
    forall y | y in QueuesOf(s.b) && y >= nb
      ensures s.h[p].size <= y
    {
      QueueFirst(s, g, y);
    }
  }

  lemma TreeChosen(s: State, g: Segment, i: nat, p: int)
    requires Good(s, g, {}) && 2 <= i < 32 && NoneMarkedUpTo(s.smallmap, i, 32) && s.dvsize < 8 * i
    requires BestLarge(Binned(s.h, s.dv, {}), 8 * i, p) && p in Heads(s.b)
    ensures p in s.h && First(QueuesOf(s.b), s.h[p].size, p) && Chosen(View(s), 8 * i, p)
  {
    hide HeapOK, BinsOK, QueuesOf, Heads, NoneMarkedUpTo, BestLarge;
    forall y | y in QueuesOf(s.b) && y >= 8 * i
      ensures y >= 256
    {
      NoneWaits(s, g, i, 32, y);
    }
    TreeLeast(s, g, 8 * i, p);
  }

  lemma LargeChosen(s: State, g: Segment, nb: int, p: int)
    requires Good(s, g, {}) && nb >= 256 && BestLarge(Binned(s.h, s.dv, {}), nb, p) && p in Heads(s.b)
    requires p in s.h && (s.dvsize < nb || s.h[p].size < s.dvsize)
    ensures First(QueuesOf(s.b), s.h[p].size, p) && Chosen(View(s), nb, p)
  {
    hide HeapOK, BinsOK, QueuesOf, Heads, BestLarge;
    TreeLeast(s, g, nb, p);
    var z := s.h[p].size;
    if nb in QueuesOf(s.b) { assert z == nb; }
  }

  /** No waiting chunk serves: the victim, or else top. */
  ghost predicate OnlyRest(l: Layout, nb: int) {
    && (nb <= l.dvsize ==> Chosen(l, nb, l.dv))
    && (l.dvsize < nb < l.topsize ==> Chosen(l, nb, l.top))
  }

  lemma SmallRest(s: State, g: Segment, i: nat)
    requires Good(s, g, {}) && 2 <= i < 32
    requires NoneMarkedUpTo(s.smallmap, i, if i == 31 then 32 else i + 2)
    requires s.dvsize < 8 * i ==> NoneFree(s.h, 8 * i)
    ensures OnlyRest(View(s), 8 * i)
  {
    hide HeapOK, BinsOK, QueuesOf, Marked;
    SmallMarks(s, g, i);
    if i < 31 { SmallMarks(s, g, i + 1); }
    if s.dvsize < 8 * i { NoneBeats(s, g, 8 * i); }
  }

  lemma NoneBeats(s: State, g: Segment, nb: int)
    requires Good(s, g, {}) && NoneFree(s.h, nb)
    ensures forall z :: z in QueuesOf(s.b) ==> z < nb
  {
    hide HeapOK, BinsOK, QueuesOf;
    forall z | z in QueuesOf(s.b)
      ensures z < nb
    {
      QueueFirst(s, g, z);
    }
  }

  lemma LargeRest(s: State, g: Segment, nb: int)
    requires Good(s, g, {}) && nb >= 256
    requires if nb > s.dvsize then NoneFree(s.h, nb) else BestFree(s.h, nb, s.dv)
    ensures OnlyRest(View(s), nb)
  {
    hide HeapOK, BinsOK, QueuesOf;
    if nb > s.dvsize {
      NoneBeats(s, g, nb);
    } else {
      VictimIsFree(s, g);
      forall z | z in QueuesOf(s.b) && z >= nb
        ensures z >= s.dvsize
      {
        QueueFirst(s, g, z);
      }
    }
  }

  // ----- what becomes of the rest

  /** `nb` bytes of the chosen chunk are given out. What is left of it, if that is a chunk, becomes the
      designated victim when the chunk was the victim or the request is small, and otherwise waits in
      the queue of its size. A victim given whole is gone; a victim that is replaced waits. */
  ghost predicate Given(l: Layout, l': Layout, nb: int, p: int) {
    if p == l.top then
      l' == l.(h := l.h[p := Chunk(nb, true, true)], top := p + nb, topsize := l.topsize - nb)
    else
      && p in l.h && Next(l.h, p) in l.h
      && var rest, h', q := l.h[p].size - nb, Taken(l.h, p, nb), Pulled(l.q, l.h[p].size, p);
         if p == l.dv then
           if rest < MIN_CHUNK_SIZE then l' == l.(h := h', dv := 0, dvsize := 0)
           else l' == l.(h := h', dv := p + nb, dvsize := rest)
         else if rest < MIN_CHUNK_SIZE then l' == l.(h := h', q := q)
         else if nb < 256 then
           l' == l.(h := h', dv := p + nb, dvsize := rest, q := if l.dvsize == 0 then q else Pushed(q, l.dvsize, l.dv))
         else l' == l.(h := h', q := Pushed(q, rest, p + nb))
  }

  ghost predicate Allocated(l: Layout, l': Layout, nb: int, p: int) {
    Chosen(l, nb, p) && Given(l, l', nb, p)
  }

  lemma LeastOnce(q: Queues, nb: int, y: int, z: int)
    requires Least(q, nb, y) && Least(q, nb, z)
    ensures y == z
  {
  }

  /** One address and one outcome. */
  lemma AllocatedOnce(l: Layout, l1: Layout, l2: Layout, nb: int, p1: int, p2: int)
    requires Allocated(l, l1, nb, p1) && Allocated(l, l2, nb, p2)
    ensures p1 == p2 && l1 == l2
  {
    hide Given;
    ChosenOnce(l, nb, p1, p2);
    GivenOnce(l, l1, l2, nb, p1);
  }

  lemma ChosenOnce(l: Layout, nb: int, p1: int, p2: int)
    requires Chosen(l, nb, p1) && Chosen(l, nb, p2)
    ensures p1 == p2
  {
    hide Beaten, Least;
    if !(nb < 256 && nb in l.q) && !(nb < 248 && nb + 8 in l.q) && !(nb < 256 && nb <= l.dvsize) && Beaten(l, nb) {
      var y :| Least(l.q, nb, y) && First(l.q, y, p1);
      var z :| Least(l.q, nb, z) && First(l.q, z, p2);
      LeastOnce(l.q, nb, y, z);
    }
  }

  lemma GivenOnce(l: Layout, l1: Layout, l2: Layout, nb: int, p: int)
    requires Given(l, l1, nb, p) && Given(l, l2, nb, p)
    ensures l1 == l2
  {
    hide Taken, Pulled, Pushed, Next;
  }

  /** No chunk of the request's size, nor of the next, waits. */
  predicate NoneNear(q: Queues, nb: int) { nb !in q && (nb < 248 ==> nb + 8 !in q) }

  /** Small requests in a row lie side by side: what a small request, or any request served from the
      victim, leaves of its chunk is where the next small request is served, unless a near fit waits. */
  lemma RestServesNext(l: Layout, l1: Layout, l2: Layout, nb: int, p: int, nb2: int, p2: int)
    requires Allocated(l, l1, nb, p) && p != l.top && p in l.h && (nb < 256 || p == l.dv)
    requires Allocated(l1, l2, nb2, p2) && 16 <= nb2 < 256 && NoneNear(l1.q, nb2) && l.h[p].size - nb >= nb2
    ensures p2 == p + nb
  {
    hide Taken, Pulled, Pushed, Beaten, Least;
  }

  // ----- freeing

  /** Where the free space before block `p` starts; at `p` itself if a block is in front of it. */
  ghost predicate Starts(h: Heap, p: int, lo: int) {
    && p in h
    && if h[p].pin then lo == p
       else lo in h && !h[lo].used && Next(h, lo) == p && forall q :: q in h && Next(h, q) == p ==> q == lo
  }

  /** The chunk behind the block is free. */
  predicate FreeBehind(l: Layout, p: int)
    requires p in l.h
  {
    Next(l.h, p) in l.h && !l.h[Next(l.h, p)].used
  }

  function Ends(l: Layout, p: int): int
    requires p in l.h
  {
    if FreeBehind(l, p) then Next(l.h, Next(l.h, p)) else Next(l.h, p)
  }

  /** The queues without the free chunk in front of the block; the victim waits in none. */
  function WithoutFront(l: Layout, p: int, lo: int): Queues {
    if lo != p && lo != l.dv then Pulled(l.q, p - lo, lo) else l.q
  }

  function WithoutBehind(l: Layout, p: int): Queues
    requires p in l.h
  {
    var n := Next(l.h, p);
    if FreeBehind(l, p) && n != l.dv then Pulled(l.q, Ends(l, p) - n, n) else l.q
  }

  /** Block `p`, with the free space before it that starts at `lo`, joins what is behind it: top, and
      then a victim in front is gone; or a free chunk. If the victim touches the block, it grows to all
      of the merged chunk. Otherwise that waits in the queue of its size. */
  ghost predicate Merged(l: Layout, l': Layout, p: int, lo: int) {
    && p in l.h
    && if Next(l.h, p) == l.top then
         && l'.h == Absorbed(l.h, lo) && l'.q == l.q && l'.top == lo && l'.topsize == l.topsize + (l.top - lo)
         && l'.dv == (if l.dv == lo then 0 else l.dv) && l'.dvsize == if l.dv == lo then 0 else l.dvsize
       else
         var hi, q := Ends(l, p), WithoutBehind(l, p);
         && hi in l.h && l'.h == Coalesced(l.h, lo, hi) && l'.top == l.top && l'.topsize == l.topsize
         && if l.dv == lo || l.dv == Next(l.h, p) then l'.dv == lo && l'.dvsize == hi - lo && l'.q == q
            else l'.dv == l.dv && l'.dvsize == l.dvsize && l'.q == Pushed(q, hi - lo, lo)
  }

  /** Block `p` is freed: it is one with its free neighbours, which leave their queues. */
  ghost predicate Released(l: Layout, l': Layout, p: int, lo: int) {
    Starts(l.h, p, lo) && Merged(l.(q := WithoutFront(l, p, lo)), l', p, lo)
  }

  ghost predicate Freed(l: Layout, l': Layout, p: int) { exists lo :: Released(l, l', p, lo) }

  lemma SpanStarts(s: State, g: Segment, p: int, lo: int)
    requires HeapOK(s, g) && FreeSpan(s.h, g.first, p, lo)
    ensures Starts(s.h, p, lo)
  {
    hide Tagged, WholeSegment, DvOK;
    SpanStart(s, g, p, lo);
    if lo != p {
      assert ChunkOK(s.h, lo, g.first, s.top);
      forall q | q in s.h && Next(s.h, q) == p
        ensures q == lo
      {
        ChunkBounds(s.h, g.first, s.top, q);
      }
    }
  }

  lemma FreedBy(l: Layout, l1: Layout, l': Layout, p: int, lo: int)
    requires Starts(l.h, p, lo) && l1 == l.(q := WithoutFront(l, p, lo)) && Merged(l1, l', p, lo)
    ensures Freed(l, l', p)
  {
    assert Released(l, l', p, lo);
  }

  lemma TopMerged(l: Layout, l': Layout, p: int, lo: int)
    requires p in l.h && Next(l.h, p) == l.top
    requires l'.h == Absorbed(l.h, lo) && l'.q == l.q && l'.top == lo && l'.topsize == l.topsize + (l.top - lo)
    requires if l.dv == lo then l'.dv == 0 && l'.dvsize == 0 else l'.dv == l.dv && l'.dvsize == l.dvsize
    ensures Merged(l, l', p, lo)
  {
  }

  lemma VictimMerged(l: Layout, l': Layout, p: int, lo: int)
    requires p in l.h && Next(l.h, p) != l.top && Ends(l, p) in l.h && (l.dv == lo || l.dv == Next(l.h, p))
    requires l'
      == l.(h := Coalesced(l.h, lo, Ends(l, p)), dv := lo, dvsize := Ends(l, p) - lo, q := WithoutBehind(l, p))
    ensures Merged(l, l', p, lo)
  {
  }

  lemma QueueMerged(l: Layout, l': Layout, p: int, lo: int)
    requires p in l.h && Next(l.h, p) != l.top && Ends(l, p) in l.h && l.dv != lo && l.dv != Next(l.h, p)
    requires l' == l.(h := Coalesced(l.h, lo, Ends(l, p)), q := Pushed(WithoutBehind(l, p), Ends(l, p) - lo, lo))
    ensures Merged(l, l', p, lo)
  {
  }

  lemma FreedOnce(l: Layout, l1: Layout, l2: Layout, p: int)
    requires Freed(l, l1, p) && Freed(l, l2, p)
    ensures l1 == l2
  {
    hide WithoutFront, Merged;
    var lo1 :| Released(l, l1, p, lo1);
    var lo2 :| Released(l, l2, p, lo2);
    assert lo1 == lo2;
    MergedOnce(l.(q := WithoutFront(l, p, lo1)), l1, l2, p, lo1);
  }

  lemma MergedOnce(l: Layout, l1: Layout, l2: Layout, p: int, lo: int)
    requires Merged(l, l1, p, lo) && Merged(l, l2, p, lo)
    ensures l1 == l2
  {
    hide WithoutBehind, Ends, Coalesced, Absorbed, Pushed, Next;
  }

  /** A block freed beside the victim makes it grow, and the next small request is served from the
      start of the grown victim, unless a near fit waits. */
  lemma GrownServesNext(l: Layout, l1: Layout, l2: Layout, p: int, lo: int, nb: int, p2: int)
    requires Released(l, l1, p, lo) && Next(l.h, p) != l.top && (l.dv == lo || l.dv == Next(l.h, p))
    requires Allocated(l1, l2, nb, p2) && 16 <= nb < 256 && NoneNear(l1.q, nb) && Ends(l, p) - lo >= nb
    ensures p2 == lo
  {
    hide Pulled, Pushed, Beaten, Least, Coalesced, WithoutFront, WithoutBehind;
  }

  // ----- memalign

  /** From block address `q`, the block for alignment `a`: `q` itself if it is aligned, and otherwise the
      first aligned address that leaves a chunk in front. */
  ghost predicate AlignedSlot(a: int, q: int, mem: int)
    requires a > 0
  {
    if q % a == 0 then mem == q
    else
      mem % a == 0 && mem - q >= 16 && forall x :: x % a == 0 && x - q >= 16 ==> mem <= x
  }

  /** The chunks after block `p` of `nb` bytes was cut out of chunk `p0`; spare room of 16 bytes and
      less stays with it. */
  function CutOut(h: Heap, p0: int, p: int, nb: int): Heap
    requires p0 in h
  {
    var h1 := if p == p0 then h else Cut(h, p0, p - p0);
    if Spare(h, p0, p, nb) then Cut(h1, p, nb) else h1
  }

  predicate Spare(h: Heap, p0: int, p: int, nb: int)
    requires p0 in h
  {
    h[p0].size - (p - p0) > nb + MIN_CHUNK_SIZE
  }

  /** Block `p` is cut out of chunk `p0`; what was in front of it and then what is behind is freed. */
  ghost predicate Carved(l: Layout, l': Layout, p0: int, p: int, nb: int) {
    p0 in l.h && exists l1 :: CarvedBy(l, l1, l', p0, p, nb)
  }

  ghost predicate CarvedBy(l: Layout, l1: Layout, l': Layout, p0: int, p: int, nb: int)
    requires p0 in l.h
  {
    && (if p != p0 then Freed(l.(h := CutOut(l.h, p0, p, nb)), l1, p0) else l1 == l.(h := CutOut(l.h, p0, p, nb)))
    && if Spare(l.h, p0, p, nb) then Freed(l1, l', p + nb) else l' == l1
  }

  /** The block at `p` after the carving: `nb` bytes, or all of the room behind if that is 16 bytes more
      or less. */
  ghost predicate BlockLeft(l: Layout, l': Layout, p0: int, p: int, nb: int) {
    && p0 in l.h && p in l'.h
    && var room := l.h[p0].size - (p - p0);
       l'.h[p] == Chunk(if room > nb + 16 then nb else room, true, l'.h[p].pin)
  }

  /** A block for `nb` bytes at a multiple of `a`: a larger one is allocated at `q`, and the block carved
      out of it. */
  ghost predicate AlignedFrom(l: Layout, l1: Layout, l': Layout, a: int, nb: int, q: int, mem: int)
    requires a > 0
  {
    && Allocated(l, l1, nb + a + 16, q - 8) && AlignedSlot(a, q, mem) && Carved(l1, l', q - 8, mem - 8, nb)
    && BlockLeft(l1, l', q - 8, mem - 8, nb)
  }

  ghost predicate AlignedAllocated(l: Layout, l': Layout, a: int, nb: int, mem: int)
    requires a > 0
  {
    exists l1, q :: AlignedFrom(l, l1, l', a, nb, q, mem)
  }

  lemma PlacedOnce(a: int, q: int, m1: int, m2: int)
    requires a > 0 && AlignedSlot(a, q, m1) && AlignedSlot(a, q, m2)
    ensures m1 == m2
  {
  }

  lemma CarvedOnce(l: Layout, l1: Layout, l2: Layout, p0: int, p: int, nb: int)
    requires Carved(l, l1, p0, p, nb) && Carved(l, l2, p0, p, nb)
    ensures l1 == l2
  {
    hide Freed, CutOut;
    var x :| CarvedBy(l, x, l1, p0, p, nb);
    var y :| CarvedBy(l, y, l2, p0, p, nb);
    if p != p0 { FreedOnce(l.(h := CutOut(l.h, p0, p, nb)), x, y, p0); }
    if Spare(l.h, p0, p, nb) { FreedOnce(x, l1, l2, p + nb); }
  }

  /** One address and one outcome. */
  lemma AlignedAllocatedOnce(l: Layout, l1: Layout, l2: Layout, a: int, nb: int, m1: int, m2: int)
    requires a > 0 && AlignedAllocated(l, l1, a, nb, m1) && AlignedAllocated(l, l2, a, nb, m2)
    ensures m1 == m2 && l1 == l2
  {
    hide Allocated, AlignedSlot, Carved, BlockLeft;
    var x1, q1 :| AlignedFrom(l, x1, l1, a, nb, q1, m1);
    var x2, q2 :| AlignedFrom(l, x2, l2, a, nb, q2, m2);
    AllocatedOnce(l, x1, x2, nb + a + 16, q1 - 8, q2 - 8);
    PlacedOnce(a, q1, m1, m2);
    CarvedOnce(x1, l1, l2, q1 - 8, m1 - 8, nb);
  }

  /** The address that internal_memalign computes is the first one. */
  lemma FirstAligned(p: int, a: int, pos: int)
    requires a >= MIN_CHUNK_SIZE && (p + 8) % a != 0
    requires var br := RoundUp(p + 8, a) - 8; pos == if br - p >= MIN_CHUNK_SIZE then br else br + a
    requires (pos + 8) % a == 0 && pos - p >= MIN_CHUNK_SIZE
    ensures AlignedSlot(a, p + 8, pos + 8)
  {
    hide RoundUp, AlignedSlot;
    var r := RoundUp(p + 8, a);
    RoundUpBounds(p + 8, a);
    if r - 8 - p >= MIN_CHUNK_SIZE { NearestSpot(p + 8, r, a); } else { NextSpot(p + 8, r, a); }
  }

  lemma NearestSpot(q: int, r: int, a: int)
    requires a > 0 && q % a != 0 && r % a == 0 && q + MIN_CHUNK_SIZE <= r < q + a
    ensures AlignedSlot(a, q, r)
  {
    PreviousMultiple(r - a, a, r);
    forall x | x % a == 0 && x - q >= MIN_CHUNK_SIZE
      ensures r <= x
    {
      MultiplesApart(x, r - a, a);
    }
  }

  lemma NextSpot(q: int, r: int, a: int)
    requires a > 0 && q % a != 0 && r % a == 0 && q < r < q + MIN_CHUNK_SIZE && (r + a) % a == 0
    requires r + a - q >= MIN_CHUNK_SIZE
    ensures AlignedSlot(a, q, r + a)
  {
    forall x | x % a == 0 && x - q >= MIN_CHUNK_SIZE
      ensures r + a <= x
    {
      MultiplesApart(x, r, a);
    }
  }

  lemma PreviousMultiple(x: int, a: int, y: int)
    requires a > 0 && y == x + a && y % a == 0
    ensures x % a == 0
  {
    assert y == (y / a) * a;
    MultipleMod(y / a - 1, a);
    assert x == (y / a - 1) * a;
  }

  lemma MultiplesApart(x: int, y: int, a: int)
    requires a > 0 && x % a == 0 && y % a == 0 && x > y
    ensures x >= y + a
  {
    var i, j := x / a, y / a;
    assert x == i * a && y == j * a;
    Scaled(i, j, a);
    Scaled(j + 1, i, a);
  }

  lemma Scaled(i: int, j: int, a: int)
    requires a > 0
    ensures i <= j ==> i * a <= j * a
    ensures i * a == (i - 1) * a + a
  {
  }
}
