/** The callers' view of an mspace: which blocks are live, which words are theirs, which free
    chunk a request may be given. */
module HeapLive {
  import opened Machine
  import opened BinIndex
  import opened Words
  import opened Bins
  import opened Chunks
  import opened HeapState
  import opened HeapSteps

  // ----- live blocks

  /** The chunks handed out, with their sizes; the first chunk holds the malloc_state record. */
  function Live(h: Heap, first: int): map<int, int> {
    map p | p in h && h[p].used && p != first :: h[p].size
  }

  /** Word `a` is payload of live chunk `q`, which may use the foot word of the next chunk. */
  predicate InBlock(live: map<int, int>, q: int, a: int) {
    q in live && q + FD <= a < q + live[q] + HEAD
  }

  ghost predicate BlocksKept(m: Mem, m': Mem, live: map<int, int>) {
    forall q, a :: InBlock(live, q, a) ==> Rd(m', a) == Rd(m, a)
  }

  lemma KeptBlocks(m: Mem, m': Mem, h: Heap, first: int)
    requires PayloadKept(m, m', h, first)
    ensures BlocksKept(m, m', Live(h, first))
  {
    forall q, a | InBlock(Live(h, first), q, a)
      ensures Rd(m', a) == Rd(m, a)
    {
      assert InPayload(h, first, q, a);
    }
  }

  ghost predicate SubLive(live: map<int, int>, live': map<int, int>) {
    forall q :: q in live ==> q in live' && live'[q] == live[q]
  }

  lemma BlocksKeptTwice(m: Mem, m1: Mem, m2: Mem, l1: map<int, int>, l2: map<int, int>, live: map<int, int>)
    requires BlocksKept(m, m1, l1) && BlocksKept(m1, m2, l2) && SubLive(live, l1) && SubLive(live, l2)
    ensures BlocksKept(m, m2, live)
  {
    forall q, a | InBlock(live, q, a)
      ensures Rd(m2, a) == Rd(m, a)
    {
      assert InBlock(l1, q, a) && InBlock(l2, q, a);
    }
  }

  /** Different live blocks have no payload word in common. */
  lemma LiveDisjoint(s: State, g: Segment, p: int, q: int, a: int)
    requires HeapOK(s, g) && InBlock(Live(s.h, g.first), p, a) && InBlock(Live(s.h, g.first), q, a)
    ensures p == q
    ensures p % 8 == 0 && g.first + MSIZE <= p && a < s.top + HEAD < g.limit
  {
    ChunkBounds(s.h, g.first, s.top, p);
    ChunkBounds(s.h, g.first, s.top, q);
  }

  // ----- what the steps do to the live blocks

  lemma UsedLive(h: Heap, first: int, top: int, p: int)
    requires Tiled(h, first, top) && p in h && !h[p].used && Next(h, p) in h
    ensures Live(Used(h, p), first) == Live(h, first)[p := h[p].size] && p !in Live(h, first)
  {
    UsedTiled(h, first, top, p);
    ChunkBounds(h, first, top, p);
  }

  lemma SplitLive(h: Heap, first: int, top: int, p: int, nb: int)
    requires Tiled(h, first, top) && p in h && !h[p].used && nb >= MIN_CHUNK_SIZE && h[p].size - nb >= MIN_CHUNK_SIZE
    ensures Live(Split(h, p, nb), first) == Live(h, first)[p := nb] && p !in Live(h, first)
  {
    SplitTiled(h, first, top, p, nb);
  }

  lemma CutTopLive(h: Heap, first: int, top: int, nb: int)
    requires Tiled(h, first, top)
    ensures top !in Live(h, first) && Live(h[top := Chunk(nb, true, true)], first) == Live(h, first)[top := nb]
  {
    if top in h { ChunkBounds(h, first, top, top); }
    ChunkBounds(h, first, top, first);
  }

  lemma CoalescedLive(h: Heap, first: int, top: int, lo: int, hi: int, p: int)
    requires Tiled(h, first, top) && lo in h && hi in h && lo < hi && h[hi].used && lo != first && p in h
    requires lo <= p < hi
    requires forall q :: q in h && lo <= q < hi && q != p ==> !h[q].used
    ensures Live(Coalesced(h, lo, hi), first) == Live(h, first) - {p}
  {
    ChunkBounds(h, first, top, lo);
  }

  lemma AbsorbedLive(h: Heap, first: int, top: int, lo: int, p: int)
    requires Tiled(h, first, top) && lo in h && lo != first && p in h && lo <= p
    requires forall q :: q in h && lo <= q && q != p ==> !h[q].used
    ensures Live(Absorbed(h, lo), first) == Live(h, first) - {p}
  {
    ChunkBounds(h, first, top, lo);
  }

  lemma CutLive(h: Heap, first: int, top: int, p: int, lead: int)
    requires Tiled(h, first, top) && p in h && h[p].used && p != first && lead >= MIN_CHUNK_SIZE
    requires h[p].size - lead >= MIN_CHUNK_SIZE
    ensures Live(Cut(h, p, lead), first) == Live(h, first)[p := lead][p + lead := h[p].size - lead]
    ensures p + lead !in Live(h, first)
  {
    CutTiled(h, first, top, p, lead);
    ChunkBounds(h, first, top, p);
  }

  // ----- the designated victim

  /** Loose chunk `p` becomes the designated victim; the old one is then in no bin. */
  lemma NewVictim(s: State, s': State, g: Segment, loose: set<int>, p: int)
    requires Good(s, g, loose) && p in loose && s' == s.(dv := p, dvsize := s.h[p].size)
    ensures Good(s', g, loose - {p} + if s.dvsize != 0 then {s.dv} else {})
  {
    hide BinsRep;
    ZeroIsNoChunk(s.h, g.first, s.top);
    ChunkBounds(s.h, g.first, s.top, p);
    assert Binned(s.h, p, loose - {p} + if s.dvsize != 0 then {s.dv} else {}) == Binned(s.h, s.dv, loose);
  }

  lemma NoVictim(s: State, s': State, g: Segment, loose: set<int>)
    requires Good(s, g, loose) && s.dvsize != 0 && s' == s.(dv := 0, dvsize := 0)
    ensures Good(s', g, loose + {s.dv})
  {
    hide BinsRep;
    ZeroIsNoChunk(s.h, g.first, s.top);
    assert Binned(s.h, 0, loose + {s.dv}) == Binned(s.h, s.dv, loose);
  }

  // ----- requests

  const MIN_REQUEST: int := 11
  const MAX_SMALL_REQUEST: int := 244
  const MAX_REQUEST: int := 0xFFFF_FFC0

  /** pad_request, for requests below MAX_REQUEST. */
  function PadRequest(bytes: int): int { (bytes + 4 + 7) / 8 * 8 }

  /** request2size */
  function RequestSize(bytes: int): int { if bytes < MIN_REQUEST then MIN_CHUNK_SIZE else PadRequest(bytes) }

  /** A chunk of that size has room for the request and is as small as the format allows. */
  lemma RequestSizeFits(bytes: int)
    requires 0 <= bytes < MAX_REQUEST
    ensures var nb := RequestSize(bytes);
            && nb % 8 == 0 && MIN_CHUNK_SIZE <= nb < WORD && bytes + 4 <= nb
            && (nb > MIN_CHUNK_SIZE ==> nb < bytes + 12)
            && (bytes <= MAX_SMALL_REQUEST <==> nb < 256)
  {
  }

  /** No free chunk has `nb` bytes. */
  ghost predicate NoneFree(h: Heap, nb: int) {
    forall q :: q in h && !h[q].used ==> h[q].size < nb
  }

  /** `p` is a smallest free chunk of at least `nb` bytes. */
  ghost predicate BestFree(h: Heap, nb: int, p: int) {
    p in h && !h[p].used && h[p].size >= nb && forall q :: q in h && !h[q].used && h[q].size >= nb ==>
      h[p].size <= h[q].size
  }

  /** A chunk of one of the two small bins that are tried first. */
  predicate NearFit(size: int, nb: int) { nb <= size <= nb + 8 && size < 256 }

  /** What a small request gets: a binned chunk of exactly nb or else nb + 8 bytes; or else the
      designated victim if it is large enough; or else a smallest binned chunk that is. */
  ghost predicate SmallChoice(h: Heap, dv: int, nb: int, p: int) {
    && p in h && !h[p].used && h[p].size >= nb
    && (p == dv ==> forall q :: q in h && !h[q].used && q != dv ==> !NearFit(h[q].size, nb))
    && (p != dv ==>
         && (forall q :: q in h && !h[q].used && q != dv && h[q].size >= nb ==> h[p].size <= h[q].size)
         && (NearFit(h[p].size, nb) || !(dv in h && h[dv].size >= nb)))
  }

  /** The chunk a request of `nb` bytes is served from. */
  ghost predicate Choice(h: Heap, dv: int, top: int, topsize: int, nb: int, p: int) {
    if p == top then NoneFree(h, nb) && nb < topsize
    else if nb < 256 then SmallChoice(h, dv, nb, p)
    else BestFree(h, nb, p)
  }

  /** Requests that are refused. */
  ghost predicate Refused(h: Heap, topsize: int, bytes: int) {
    bytes >= MAX_REQUEST || (NoneFree(h, RequestSize(bytes)) && topsize <= RequestSize(bytes))
  }

  // ----- serving a request from a free chunk

  /** Free chunk `p` after `nb` bytes were taken: a remainder too small for a chunk stays with it. */
  function Taken(h: Heap, p: int, nb: int): Heap
    requires p in h && Next(h, p) in h
  {
    if h[p].size - nb < MIN_CHUNK_SIZE then Used(h, p) else Split(h, p, nb)
  }

  function TakenSize(h: Heap, p: int, nb: int): int
    requires p in h
  {
    if h[p].size - nb < MIN_CHUNK_SIZE then h[p].size else nb
  }

  lemma TakenLive(h: Heap, first: int, top: int, p: int, nb: int)
    requires Tiled(h, first, top) && p in h && !h[p].used && Next(h, p) in h && MIN_CHUNK_SIZE <= nb <= h[p].size
    ensures Live(Taken(h, p, nb), first) == Live(h, first)[p := TakenSize(h, p, nb)] && p !in Live(h, first)
    ensures nb <= TakenSize(h, p, nb) < nb + 16
  {
    hide Tiled, Live;
    if h[p].size - nb < MIN_CHUNK_SIZE { UsedLive(h, first, top, p); } else { SplitLive(h, first, top, p, nb); }
  }

  /** `nb` bytes were taken from free chunk `p`, and no word of a live block changed. */
  ghost predicate Served(m: Mem, h: Heap, m': Mem, h': Heap, first: int, p: int, nb: int) {
    p in h && !h[p].used && Next(h, p) in h && h' == Taken(h, p, nb) && BlocksKept(m, m', Live(h, first))
  }

  lemma ServedWhole(m: Mem, m1: Mem, m2: Mem, h: Heap, first: int, p: int, nb: int)
    requires p in h && !h[p].used && Next(h, p) in h && h[p].size - nb < MIN_CHUNK_SIZE
    requires PayloadKept(m, m1, h, first) && PayloadKept(m1, m2, h, first)
    ensures Served(m, h, m2, Used(h, p), first, p, nb)
  {
    KeptBlocks(m, m1, h, first);
    KeptBlocks(m1, m2, h, first);
    BlocksKeptTwice(m, m1, m2, Live(h, first), Live(h, first), Live(h, first));
  }

  lemma ServedFirst(m: Mem, m1: Mem, m2: Mem, m3: Mem, h: Heap, first: int, top: int, p: int, nb: int)
    requires Tiled(h, first, top) && p in h && !h[p].used && Next(h, p) in h && h[p].size - nb >= MIN_CHUNK_SIZE
    requires nb >= MIN_CHUNK_SIZE
    requires PayloadKept(m, m1, h, first) && PayloadKept(m1, m2, h, first)
    requires PayloadKept(m2, m3, Split(h, p, nb), first)
    ensures Served(m, h, m3, Split(h, p, nb), first, p, nb)
  {
    hide Tiled, PayloadKept, BlocksKept;
    var live := Live(h, first);
    KeptBlocks(m, m1, h, first);
    KeptBlocks(m1, m2, h, first);
    KeptBlocks(m2, m3, Split(h, p, nb), first);
    SplitLive(h, first, top, p, nb);
    BlocksKeptTwice(m, m1, m2, live, live, live);
    BlocksKeptTwice(m, m2, m3, live, Live(Split(h, p, nb), first), live);
  }

  // ----- the outcome of mspace_malloc

  /** Block `p` of at least `nb` and fewer than `nb` + 16 bytes is live in addition, and no word
      of the blocks that were live has changed. */
  ghost predicate Added(m: Mem, live: map<int, int>, m': Mem, live': map<int, int>, p: int, nb: int) {
    && p !in live && p in live' && nb <= live'[p] < nb + 16 && live' == live[p := live'[p]] && p % 8 == 0
    && BlocksKept(m, m', live)
  }

  /** Address 0 and no change at all if the request is refused, and otherwise a new live block
      taken from the chunk of choice. */
  ghost predicate Granted(s: State, s': State, first: int, bytes: int, mem: int) {
    if mem == 0 then s' == s && Refused(s.h, s.topsize, bytes)
    else
      && bytes < MAX_REQUEST
      && Choice(s.h, s.dv, s.top, s.topsize, RequestSize(bytes), mem - 8)
      && Added(s.m, Live(s.h, first), s'.m, Live(s'.h, first), mem - 8, RequestSize(bytes))
  }

  /** The chunk of choice exists only if the request is not refused. */
  lemma ChoiceMeansNotRefused(h: Heap, dv: int, top: int, topsize: int, bytes: int, p: int)
    requires bytes < MAX_REQUEST && Choice(h, dv, top, topsize, RequestSize(bytes), p)
    ensures !Refused(h, topsize, bytes)
  {
  }

  lemma ServedAdded(s: State, s': State, g: Segment, nb: int, p: int)
    requires HeapOK(s, g) && Served(s.m, s.h, s'.m, s'.h, g.first, p, nb) && MIN_CHUNK_SIZE <= nb <= s.h[p].size
    ensures Added(s.m, Live(s.h, g.first), s'.m, Live(s'.h, g.first), p, nb) && p != s.top
  {
    hide Tagged, WholeSegment, DvOK, BlocksKept, Live, Taken;
    TakenLive(s.h, g.first, s.top, p, nb);
    ChunkBounds(s.h, g.first, s.top, p);
  }

  lemma TopAdded(s: State, s': State, g: Segment, nb: int)
    requires HeapOK(s, g) && s'.h == s.h[s.top := Chunk(nb, true, true)] && PayloadKept(s.m, s'.m, s.h, g.first)
    ensures Added(s.m, Live(s.h, g.first), s'.m, Live(s'.h, g.first), s.top, nb)
  {
    hide Tagged, WholeSegment, DvOK, PayloadKept, BlocksKept;
    CutTopLive(s.h, g.first, s.top, nb);
    KeptBlocks(s.m, s'.m, s.h, g.first);
  }

  // ----- the outcome of mspace_free

  /** Block `p` is no longer live, and no word of the remaining blocks has changed. */
  ghost predicate Removed(m: Mem, live: map<int, int>, m': Mem, live': map<int, int>, p: int) {
    p in live && live' == live - {p} && BlocksKept(m, m', live')
  }

  lemma RemovedAfter(m: Mem, m1: Mem, m2: Mem, h: Heap, h': Heap, first: int, p: int)
    requires p in Live(h, first) && Live(h', first) == Live(h, first) - {p}
    requires PayloadKept(m, m1, h, first) && PayloadKept(m1, m2, h', first)
    ensures Removed(m, Live(h, first), m2, Live(h', first), p)
  {
    KeptBlocks(m, m1, h, first);
    KeptBlocks(m1, m2, h', first);
    BlocksKeptTwice(m, m1, m2, Live(h, first), Live(h', first), Live(h', first));
  }

  lemma PayloadKeptTwice(m: Mem, m1: Mem, m2: Mem, h: Heap, first: int)
    requires PayloadKept(m, m1, h, first) && PayloadKept(m1, m2, h, first)
    ensures PayloadKept(m, m2, h, first)
  {
  }

  /** Used chunk `p` together with the free chunk in front of it, if there is one. */
  ghost predicate FreeSpan(h: Heap, first: int, p: int, lo: int) {
    && p in Live(h, first)
    && if lo == p then h[p].pin else lo in h && !h[lo].used && Next(h, lo) == p
  }

  lemma SpanStart(s: State, g: Segment, p: int, lo: int)
    requires HeapOK(s, g) && FreeSpan(s.h, g.first, p, lo)
    ensures lo in s.h && lo != g.first && s.h[lo].pin && g.first <= lo <= p < Next(s.h, p) && lo + HEAD in s.m
    ensures lo % 8 == 0 && Next(s.h, p) - lo >= MIN_CHUNK_SIZE && p in s.h && s.h[p].used && lo > 0
    ensures forall q :: q in s.h && lo <= q < Next(s.h, p) ==> q == lo || q == p
  {
    hide Tagged, WholeSegment, DvOK;
    ChunkInSegment(s, g, lo);
    ChunkBounds(s.h, g.first, s.top, p);
    ChunkBounds(s.h, g.first, s.top, lo);
    assert ChunkOK(s.h, lo, g.first, s.top);
    SpanOnly(s.h, g.first, s.top, p, lo);
  }

  lemma SpanOnly(h: Heap, first: int, top: int, p: int, lo: int)
    requires Tiled(h, first, top) && FreeSpan(h, first, p, lo)
    ensures forall q :: q in h && lo <= q < Next(h, p) ==> q == lo || q == p
  {
  }

  // ----- memalign

  /** A power of two, by repeated halving. */
  predicate PowerOfTwo(a: int)
    decreases a
  {
    a == 1 || (a > 1 && a % 2 == 0 && PowerOfTwo(a / 2))
  }

  lemma {:induction false} EightDividesPower(a: int)
    requires PowerOfTwo(a) && a >= 8
    ensures a % 8 == 0
    decreases a
  {
    if a >= 16 { EightDividesPower(a / 2); } else { assert a / 2 == 4 || PowerOfTwo(a / 2); SmallPowers(a); }
  }

  lemma SmallPowers(a: int)
    requires PowerOfTwo(a) && 8 <= a < 16
    ensures a == 8
  {
    assert PowerOfTwo(a / 2);
    assert PowerOfTwo(a / 2 / 2);
    assert PowerOfTwo(a / 2 / 2 / 2);
  }

  lemma RoundUpBounds(x: int, a: int)
    requires a > 0
    ensures x <= RoundUp(x, a) < x + a && RoundUp(x, a) % a == 0
    ensures x % a != 0 ==> RoundUp(x, a) > x
  {
    var q := (x + a - 1) / a;
    assert x + a - 1 == q * a + (x + a - 1) % a;
    MultipleMod(q, a);
    if q * a == x { MultipleMod(q, a); }
  }

  lemma MultipleMod(q: int, a: int)
    requires a > 0
    ensures q * a % a == 0
  {
    var r := q * a % a;
    assert q * a == (q * a / a) * a + r;
    DivIsExact(q, a);
  }

  lemma DivIsExact(q: int, a: int)
    requires a > 0
    ensures q * a / a == q
  {
    DivIs(q * a, a, q);
  }

  /** A multiple of `a` moved on by `a`. */
  lemma NextMultiple(x: int, a: int)
    requires a > 0 && x % a == 0
    ensures (x + a) % a == 0
  {
    assert x == (x / a) * a;
    MultipleMod(x / a + 1, a);
    assert x + a == (x / a + 1) * a;
  }

  lemma EightDividesMultiple(x: int, a: int)
    requires a > 0 && a % 8 == 0 && x % a == 0
    ensures x % 8 == 0
  {
    var q, e := x / a, a / 8;
    assert x == q * a && a == 8 * e;
    assert x == 8 * (q * e);
  }

  /** The chunk of the aligned spot: at least 16 bytes into chunk `p`, with room for `nb` bytes. */
  lemma AlignedSpot(p: int, size: int, nb: int, a: int, pos: int)
    requires p % 8 == 0 && size % 8 == 0 && nb % 8 == 0 && nb >= 16 && PowerOfTwo(a) && a >= 16 && (p + 8) % a != 0
    requires size >= nb + a + 16
    requires var br := RoundUp(p + 8, a) - 8; pos == if br - p >= MIN_CHUNK_SIZE then br else br + a
    ensures (pos + 8) % a == 0 && (pos - p) % 8 == 0
    ensures MIN_CHUNK_SIZE <= pos - p && size - (pos - p) >= nb && size - (pos - p) >= MIN_CHUNK_SIZE
  {
    hide PowerOfTwo, RoundUp;
    var r := RoundUp(p + 8, a);
    RoundUpBounds(p + 8, a);
    NextMultiple(r, a);
    assert r % 8 == 0 && a % 8 == 0 by {
      EightDividesPower(a);
      EightDividesMultiple(r, a);
    }
    SpotArithmetic(p, r, a, p / 8, r / 8, a / 8);
    EightDifference(p, pos);
  }

  lemma SpotArithmetic(p: int, r: int, a: int, p': int, r': int, a': int)
    requires p == 8 * p' && r == 8 * r' && a == 8 * a' && p + 8 < r < p + 8 + a && a >= 16
    ensures var d := r - 8 - p; 8 <= d <= a - 8 && (d < 16 ==> d == 8)
    ensures (r - 8) % 8 == 0 && (r - 8 + a) % 8 == 0
  {
    assert r - 8 == 8 * (r' - 1) && r - 8 + a == 8 * (r' - 1 + a');
  }

  lemma EightDifference(p: int, q: int)
    ensures p % 8 == 0 && q % 8 == 0 ==> (q - p) % 8 == 0
  {
  }

  lemma {:induction false} Pow2IsPower(k: nat)
    ensures PowerOfTwo(Pow2(k))
  {
    if k > 0 { Pow2IsPower(k - 1); }
  }

  /** Of two powers of two, the smaller divides the larger. */
  lemma {:induction false} PowersDivide(a: int, b: int)
    requires PowerOfTwo(a) && PowerOfTwo(b) && a <= b
    ensures a > 0 && b % a == 0
    decreases a
  {
    if a > 1 {
      PowersDivide(a / 2, b / 2);
      var q := b / 2 / (a / 2);
      assert b / 2 == q * (a / 2);
      assert b == q * a;
      MultipleMod(q, a);
    }
  }

  lemma DividesThrough(x: int, a: int, b: int)
    requires a > 0 && b > 0 && x % a == 0 && a % b == 0
    ensures x % b == 0
  {
    var q, e := x / a, a / b;
    assert x == q * a && a == e * b;
    assert x == (q * e) * b;
    MultipleMod(q * e, b);
  }

  /** A block aligned to `a` is aligned to every power of two up to `a`. */
  lemma AlignedTo(mem: int, a: int, alignment: int)
    requires PowerOfTwo(a) && a >= 8 && mem % a == 0 && alignment <= a
    ensures mem % 8 == 0 && (PowerOfTwo(alignment) ==> mem % alignment == 0)
  {
    hide PowerOfTwo;
    EightIsPower();
    PowersDivide(8, a);
    DividesThrough(mem, a, 8);
    if PowerOfTwo(alignment) {
      PowersDivide(alignment, a);
      DividesThrough(mem, a, alignment);
    }
  }

  lemma EightIsPower()
    ensures PowerOfTwo(8)
  {
    assert PowerOfTwo(1) && PowerOfTwo(2) && PowerOfTwo(4);
  }

  /** `a` doubled until it reaches `size`. */
  function PowerFrom(a: int, size: int): (r: int)
    requires 0 < a <= HALF_WORD
    ensures r >= a
    decreases HALF_WORD - a
  {
    if a >= size || a * 2 > HALF_WORD then a else PowerFrom(a * 2, size)
  }

  /** The alignment internal_memalign works with. */
  function Rounded(alignment: int): (r: int)
    ensures r >= 8
  {
    if alignment <= 8 then 8 else PowerFrom(16, alignment)
  }

  lemma {:induction false} PowerFromIs(k: nat, size: int)
    requires 4 <= k <= 31 && size <= HALF_WORD && (k == 4 || Pow2(k) < 2 * size)
    ensures 0 < Pow2(k) <= HALF_WORD
    ensures var r := PowerFrom(Pow2(k), size);
      PowerOfTwo(r) && 16 <= r <= HALF_WORD && size <= r && (r == 16 || r < 2 * size)
    decreases 31 - k
  {
    hide Pow2, PowerOfTwo;
    PowerEnds();
    Pow2IsPower(k);
    Pow2Mono(k, 31);
    Pow2Mono(4, k);
    if Pow2(k) < size {
      Pow2Doubles(k);
      if k < 31 {
        Pow2Mono(k + 1, 31);
        PowerFromIs(k + 1, size);
      }
    }
  }

  /** It is the least power of two from 16 on that is large enough. */
  lemma RoundedIs(alignment: int)
    requires 8 < alignment <= HALF_WORD
    ensures var r := Rounded(alignment);
      PowerOfTwo(r) && 16 <= r <= HALF_WORD && alignment <= r && (r == 16 || r < 2 * alignment)
    ensures PowerOfTwo(alignment) && alignment >= 16 ==> Rounded(alignment) == alignment
  {
    hide PowerOfTwo, Pow2;
    PowerEnds();
    PowerFromIs(4, alignment);
    if PowerOfTwo(alignment) && alignment >= 16 {
      OnePower(alignment, Rounded(alignment));
    }
  }

  /** Between a power of two and its double there is no other. */
  lemma OnePower(a: int, b: int)
    requires PowerOfTwo(a) && PowerOfTwo(b) && a <= b < 2 * a
    ensures a == b
  {
    hide PowerOfTwo;
    PowersDivide(a, b);
    var q := b / a;
    assert b == q * a;
    assert q >= 2 ==> q * a >= 2 * a;
  }

  /** The value of the rounding loop after `n` shifts of a 32-bit word. */
  function Shifted(n: nat): int {
    if n == 0 then 16 else Shifted(n - 1) * 2 % WORD
  }

  lemma Unwrapped(p: int)
    requires 0 <= p < HALF_WORD
    ensures p * 2 % WORD == p * 2
  {
  }

  lemma ShiftedStep(n: nat)
    requires n > 0
    ensures Shifted(n) == Shifted(n - 1) * 2 % WORD
  {
  }

  lemma {:induction false} ShiftedIs(n: nat)
    ensures Shifted(n) == if n <= 27 then Pow2(n + 4) else 0
    decreases n
  {
    hide Pow2, Shifted;
    PowerEnds();
    if n == 0 {
      assert Shifted(0) == 16 by { ShiftedStart(); }
    } else {
      ShiftedIs(n - 1);
      ShiftedStep(n);
      if n <= 27 {
        Pow2Doubles(n + 3);
        Pow2Mono(n + 4, 31);
        Unwrapped(Pow2(n + 3));
      }
    }
  }

  lemma ShiftedStart()
    ensures Shifted(0) == 16
  {
  }

  /** The rounding loop ends iff the alignment is at most 2^31: for a larger one the word becomes 0
      and stays 0. */
  lemma LoopEnds(alignment: int)
    ensures (exists n: nat :: Shifted(n) >= alignment) <==> alignment <= HALF_WORD
    ensures forall n: nat :: n >= 28 ==> Shifted(n) == 0
  {
    hide Pow2, Shifted;
    PowerEnds();
    forall n: nat
      ensures Shifted(n) <= HALF_WORD && (n >= 28 ==> Shifted(n) == 0)
    {
      ShiftedIs(n);
      if n <= 27 { Pow2Mono(n + 4, 31); }
    }
    ShiftedIs(27);
    assert Shifted(27) == HALF_WORD;
  }

  lemma PowerBound(a: int)
    requires PowerOfTwo(a) && a < WORD
    ensures a <= HALF_WORD
  {
    hide PowerOfTwo, Pow2;
    PowerEnds();
    Pow2IsPower(31);
    if a > HALF_WORD { OnePower(HALF_WORD, a); }
  }

  lemma PowerFromStep(a: int, size: int)
    requires 0 < a <= HALF_WORD
    ensures a >= size ==> PowerFrom(a, size) == a
    ensures a < size && a * 2 <= HALF_WORD ==> PowerFrom(a, size) == PowerFrom(a * 2, size)
  {
  }

  /** The rounding of the alignment. The second result says whether its loop ends: where the
      original's word has become 0 it stays 0 for ever, and this method stops at that point. */
  method RoundAlignment(alignment: int) returns (a: int, ended: bool)
    requires 8 < alignment < WORD
    ensures ended <==> alignment <= HALF_WORD
    ensures if ended then a == Rounded(alignment) else a == 0
  {
    hide PowerOfTwo, Pow2, PowerFrom;
    a, ended := if alignment < MIN_CHUNK_SIZE then MIN_CHUNK_SIZE else alignment, true;
    PowerEnds();
    if alignment <= HALF_WORD { RoundedIs(alignment); }
    if PowerOfTwo(a) {
      PowerBound(a);
      if alignment < MIN_CHUNK_SIZE { OnePower(16, Rounded(alignment)); }
    } else {
      var size := a;
      a := 16;
      ghost var k: nat := 4;
      while a < size
        invariant a == Pow2(k) && 4 <= k <= 31 && 16 <= a <= HALF_WORD && size == alignment && (a == 16 || a < 2 * size)
        invariant alignment <= HALF_WORD ==> PowerFrom(16, size) == PowerFrom(a, size)
        decreases 31 - k
      {
        Pow2Doubles(k);
        Pow2Mono(4, k);
        if k < 31 { Pow2Mono(k + 1, 31); }
        PowerFromStep(a, size);
        a, k := a * 2 % WORD, k + 1;
        if a == 0 { return a, false; }
      }
      PowerFromStep(a, size);
    }
  }

  lemma PowerEnds()
    ensures Pow2(4) == 16 && Pow2(31) == HALF_WORD && PowerOfTwo(MIN_CHUNK_SIZE)
  {
    hide PowerOfTwo;
    Pow2Table();
    SmallPow2Table();
    Pow2IsPower(4);
  }

  /** `l` has, besides the blocks of `l0`, exactly the blocks at the addresses in `e`. */
  ghost predicate Extra(l0: map<int, int>, l: map<int, int>, e: set<int>) {
    SubLive(l0, l) && l.Keys == l0.Keys + e && e !! l0.Keys
  }

  lemma ExtraAdd(l0: map<int, int>, l: map<int, int>, e: set<int>, p: int, n: int)
    requires Extra(l0, l, e) && (p in e || p !in l)
    ensures Extra(l0, l[p := n], e + {p})
  {
  }

  lemma ExtraRemove(l0: map<int, int>, l: map<int, int>, e: set<int>, p: int)
    requires Extra(l0, l, e) && p in e
    ensures Extra(l0, l - {p}, e - {p})
  {
  }

  lemma ExtraOne(l0: map<int, int>, l: map<int, int>, p: int)
    requires Extra(l0, l, {p})
    ensures p !in l0 && p in l && l == l0[p := l[p]]
  {
    assert p in {p} && p in l.Keys;
    forall q | q in l || q in l0
      ensures q == p || (q in l && q in l0 && l[q] == l0[q])
    {
      assert q in l.Keys <==> q in l0.Keys || q in {p};
    }
  }

  lemma CarveKept(m0: Mem, m1: Mem, m2: Mem, l0: map<int, int>, l1: map<int, int>, e: set<int>, x: int)
    requires BlocksKept(m0, m1, l0) && BlocksKept(m1, m2, l1 - {x}) && Extra(l0, l1, e) && x in e
    ensures BlocksKept(m0, m2, l0)
  {
    BlocksKeptTwice(m0, m1, m2, l0, l1 - {x}, l0);
  }

  lemma FreeKept(m0: Mem, m1: Mem, m2: Mem, l0: map<int, int>, l2: map<int, int>, e: set<int>)
    requires BlocksKept(m0, m1, l0) && BlocksKept(m1, m2, l2) && Extra(l0, l2, e)
    ensures BlocksKept(m0, m2, l0)
  {
    BlocksKeptTwice(m0, m1, m2, l0, l2, l0);
  }

  /** The oversized request of internal_memalign leaves room for alignment and leader. */
  lemma AlignedRequest(bytes: int, a: int)
    requires 0 <= bytes < MAX_REQUEST - a && 16 <= a <= HALF_WORD
    ensures var nb := RequestSize(bytes);
            && nb % 8 == 0 && nb >= 16 && 0 <= nb + a + 12 < WORD
            && (nb + a + 12 < MAX_REQUEST && a % 8 == 0 ==> RequestSize(nb + a + 12) == nb + a + 16)
  {
    RequestSizeFits(bytes);
    var req := RequestSize(bytes) + a + 12;
    if req < MAX_REQUEST { RequestSizeFits(req); }
  }
}
