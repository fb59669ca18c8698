/** Whole runs of an mspace: creating it, then any sequence of requests, frees and stores by callers. */
module MspaceRuns {
  import opened Machine
  import opened Words
  import opened Bins
  import opened BinQueues
  import opened Chunks
  import opened HeapState
  import opened HeapLive
  import opened HeapQueues
  import opened Outcomes
  import opened Mspace

  /** create_mspace_with_base on a region of 8-byte multiples. */
  method CreateMspaceWithBase(m0: Mem, tbase: int, capacity: int, pageSize: nat) returns (r: Mspace?)
    requires tbase > 0 && tbase % 8 == 0 && capacity >= 0 && capacity % 8 == 0 && tbase + capacity <= WORD
    requires WholeSegment(m0, Segment(tbase, tbase + capacity))
    ensures r != null <==> MSIZE + TOP_FOOT_SIZE < capacity < (-(MSIZE + TOP_FOOT_SIZE + pageSize)) % WORD
    ensures r != null ==> fresh(r) && r.Valid() && r.base == tbase && r.limit == tbase + capacity
    ensures r != null ==>
      Live(r.h, r.base) == map[] && NoneFree(r.h, 0) && r.topsize == capacity - MSIZE - TOP_FOOT_SIZE
    ensures r != null ==> r.mem.Keys == m0.Keys
  {
    r := null;
    if MSIZE + TOP_FOOT_SIZE < capacity && capacity < (-(MSIZE + TOP_FOOT_SIZE + pageSize)) % WORD {
      r := new Mspace(m0, tbase, capacity);
    }
  }

  /** What callers ask for. A free names a block by address; a store names a block, a word in it and a value. */
  datatype Op =
    Allocate(bytes: int) | Align(alignment: int, bytes: int) | Release(mem: int) | Store(mem: int, a: int, v: int)

  /** What happened. */
  datatype Event = Refusal | Got(mem: int, bytes: int) | Gave(mem: int) | Put(mem: int, a: int, v: int) | Ignored

  /** The blocks callers hold after a history, with the bytes they asked for. */
  function Held(t: seq<Event>): map<int, int> {
    if t == [] then map[]
    else
      var e, before := t[|t| - 1], Held(t[..|t| - 1]);
      if e.Got? then before[e.mem := e.bytes] else if e.Gave? then before - {e.mem} else before
  }

  /** `stored` without the words of the block at `k` of `n` bytes. */
  function WithoutBlock(stored: map<int, int>, k: int, n: int): map<int, int> {
    map a | a in stored && !(k <= a < k + n) :: stored[a]
  }

  /** The words of blocks still held that callers have stored to, with the last value stored. */
  function Stored(t: seq<Event>): map<int, int> {
    if t == [] then map[]
    else
      var e, before := t[|t| - 1], Stored(t[..|t| - 1]);
      if e.Put? then before[e.a := e.v]
      else if e.Gave? && e.mem in Held(t[..|t| - 1]) then
        WithoutBlock(before, e.mem, Held(t[..|t| - 1])[e.mem])
      else before
  }

  /** The allocator agrees with the callers: the live blocks are those held, each with room for
      what was asked, and every word stored to a held block is still there. */
  ghost predicate InStep(m: Mem, live: map<int, int>, held: map<int, int>, stored: map<int, int>) {
    && (forall k :: k in held ==> k - 8 in live && held[k] + 4 <= live[k - 8])
    && (forall p :: p in live ==> p + 8 in held)
    && (forall a :: a in stored ==> Rd(m, a) == stored[a] && exists k :: k in held && InUse(held, k, a))
  }

  /** The word at `a` lies wholly within the bytes asked for with block `k`. */
  predicate InUse(held: map<int, int>, k: int, a: int)
    requires k in held
  {
    k <= a && a + 4 <= k + held[k]
  }

  lemma StoredKept(m: Mem, m': Mem, live: map<int, int>, held: map<int, int>, stored: map<int, int>)
    requires InStep(m, live, held, stored) && BlocksKept(m, m', live)
    ensures forall a :: a in stored ==> Rd(m', a) == stored[a]
  {
    forall a | a in stored
      ensures Rd(m', a) == stored[a]
    {
      var k :| k in held && InUse(held, k, a);
      assert InBlock(live, k - 8, a);
    }
  }

  lemma AddedInStep(m: Mem, m': Mem, live: map<int, int>, live': map<int, int>, held: map<int, int>,
        stored: map<int, int>, p: int, bytes: int)
    requires InStep(m, live, held, stored) && BlocksKept(m, m', live)
    requires p !in live && p in live' && live' == live[p := live'[p]] && bytes + 4 <= live'[p]
    ensures InStep(m', live', held[p + 8 := bytes], stored)
  {
    hide BlocksKept;
    StoredKept(m, m', live, held, stored);
    var held' := held[p + 8 := bytes];
    assert p + 8 !in held;
    forall a | a in stored
      ensures exists k :: k in held' && InUse(held', k, a)
    {
      var k :| k in held && InUse(held, k, a);
      assert k in held' && InUse(held', k, a);
    }
  }

  lemma RemovedInStep(m: Mem, m': Mem, live: map<int, int>, live': map<int, int>, held: map<int, int>,
        stored: map<int, int>, k: int)
    requires InStep(m, live, held, stored) && k in held && Removed(m, live, m', live', k - 8)
    ensures InStep(m', live', held - {k}, WithoutBlock(stored, k, held[k]))
  {
    hide Rd;
    var held', stored' := held - {k}, WithoutBlock(stored, k, held[k]);
    forall a | a in stored'
      ensures Rd(m', a) == stored'[a] && exists j :: j in held' && InUse(held', j, a)
    {
      var j :| j in held && InUse(held, j, a);
      assert j != k;
      assert j in held' && InUse(held', j, a);
      assert InBlock(live', j - 8, a);
    }
  }

  lemma StoreInStep(m: Mem, live: map<int, int>, held: map<int, int>, stored: map<int, int>, k: int, a: int, v: int)
    requires InStep(m, live, held, stored) && k in held && InUse(held, k, a)
    ensures InStep(m[a := v], live, held, stored[a := v]) && InBlock(live, k - 8, a)
  {
    var stored' := stored[a := v];
    forall x | x in stored'
      ensures Rd(m[a := v], x) == stored'[x] && exists j :: j in held && InUse(held, j, x)
    {
      if x != a { assert x in stored; }
    }
  }

  /** The requests that are refused, exactly. */
  ghost predicate Denied(op: Op, l: Layout) {
    match op
    case Allocate(bytes) => Refused(l.h, l.topsize, bytes)
    case Align(alignment, bytes) =>
      if alignment <= 8 then Refused(l.h, l.topsize, bytes)
      else bytes >= MAX_REQUEST - Rounded(alignment)
           || Refused(l.h, l.topsize, RequestSize(bytes) + Rounded(alignment) + 12)
    case Release(_) => false
    case Store(_, _, _) => false
  }

  /** What an operation leads to: the event with its address, and the layout `l'` after it. */
  ghost predicate Leads(op: Op, held: map<int, int>, e: Event, l: Layout, l': Layout) {
    && (e == Refusal <==> Denied(op, l))
    && match op
       case Allocate(bytes) =>
         if e == Refusal then l' == l
         else Fresh(e, held, bytes) && Allocated(l, l', RequestSize(bytes), e.mem - 8)
       case Align(alignment, bytes) =>
         if e == Refusal then l' == l
         else
           && Fresh(e, held, bytes) && (PowerOfTwo(alignment) ==> e.mem % alignment == 0)
           && if alignment <= 8 then Allocated(l, l', RequestSize(bytes), e.mem - 8)
              else AlignedAllocated(l, l', Rounded(alignment), RequestSize(bytes), e.mem)
       case Release(mem) =>
         if mem in held then e == Gave(mem) && Freed(l, l', mem - 8) else e == Ignored && l' == l
       case Store(mem, a, v) =>
         && e == (if mem in held && a % 4 == 0 && InUse(held, mem, a) then Put(mem, a, v) else Ignored)
         && l' == l
  }

  /** A block that nobody holds. */
  predicate Fresh(e: Event, held: map<int, int>, bytes: int) {
    e.Got? && e.bytes == bytes && e.mem !in held && e.mem % 8 == 0
  }

  /** Requests in range; for larger alignments the rounding loop does not return. */
  predicate Sensible(op: Op) {
    match op
    case Allocate(bytes) => 0 <= bytes < WORD
    case Align(alignment, bytes) => 0 <= bytes < WORD && 0 <= alignment <= HALF_WORD
    case Release(_) => true
    case Store(_, _, _) => true
  }

  /** The layout of a new mspace: the record and one top. */
  function NewLayout(g: Segment): Layout {
    var h := map[g.first := Chunk(MSIZE, true, true)];
    Layout(h, map[], 0, 0, g.first + MSIZE, g.limit - TOP_FOOT_SIZE - g.first - MSIZE)
  }

  /** The layouts before each operation and at the end: each event and each layout follow from the
      layout before, and whenever nothing is held, everything has come back together. */
  ghost predicate History(ops: seq<Op>, t: seq<Event>, ls: seq<Layout>, g: Segment) {
    && |t| == |ops| && |ls| == |ops| + 1
    && (forall i :: 0 <= i < |t| ==> Leads(ops[i], Held(t[..i]), t[i], ls[i], ls[i + 1]))
    && forall i :: 0 <= i <= |t| && Held(t[..i]) == map[] ==> ls[i] == NewLayout(g)
  }

  /** With no live block left, freeing has merged everything into top. */
  lemma NothingLive(s: State, g: Segment)
    requires Good(s, g, {}) && Live(s.h, g.first) == map[]
    ensures View(s) == NewLayout(g)
  {
    hide HeapOK, BinsOK, QueuesOf, Binned;
    OneRecord(s, g);
    forall z
      ensures z !in QueuesOf(s.b)
    {
      if z in QueuesOf(s.b) {
        QueueFirst(s, g, z);
        BinnedSizes(s.h, s.dv, {}, QueuesOf(s.b)[z][0]);
        assert false;
      }
    }
  }

  lemma OneRecord(s: State, g: Segment)
    requires HeapOK(s, g) && Live(s.h, g.first) == map[]
    ensures s.h == map[g.first := Chunk(MSIZE, true, true)] && s.top == g.first + MSIZE && s.dv == 0 && s.dvsize == 0
    ensures s.topsize == g.limit - TOP_FOOT_SIZE - g.first - MSIZE
  {
    hide Tagged, WholeSegment, Aligned8;
    assert ChunkOK(s.h, g.first, g.first, s.top);
    forall p | p in s.h
      ensures p == g.first
    {
      assert ChunkOK(s.h, p, g.first, s.top);
      var n, live := Next(s.h, p), Live(s.h, g.first);
      assert p in live <==> s.h[p].used && p != g.first;
      assert n in live <==> n in s.h && s.h[n].used && n != g.first;
    }
  }

  /** A request that finds nothing held is refused iff it would not fit into all of top. */
  lemma AloneServed(ops: seq<Op>, t: seq<Event>, ls: seq<Layout>, g: Segment, i: nat)
    requires History(ops, t, ls, g) && i < |t| && Held(t[..i]) == map[] && ops[i].Allocate?
    ensures t[i] == Refusal <==>
      ops[i].bytes >= MAX_REQUEST || RequestSize(ops[i].bytes) >= g.limit - TOP_FOOT_SIZE - g.first - MSIZE
  {
    hide RequestSize, Allocated;
    assert Leads(ops[i], Held(t[..i]), t[i], ls[i], ls[i + 1]);
  }

  /** One outcome of an operation. */
  lemma LeadsOnce(op: Op, held: map<int, int>, e1: Event, e2: Event, l: Layout, l1: Layout, l2: Layout)
    requires Leads(op, held, e1, l, l1) && Leads(op, held, e2, l, l2)
    ensures e1 == e2 && l1 == l2
  {
    hide RequestSize, Rounded, Allocated, AlignedAllocated, Freed, Refused, PowerOfTwo, InUse;
    match op
    case Allocate(bytes) =>
      if e1 != Refusal { AllocatedOnce(l, l1, l2, RequestSize(bytes), e1.mem - 8, e2.mem - 8); }
    case Align(alignment, bytes) =>
      if e1 != Refusal {
        if alignment <= 8 {
          AllocatedOnce(l, l1, l2, RequestSize(bytes), e1.mem - 8, e2.mem - 8);
        } else {
          AlignedAllocatedOnce(l, l1, l2, Rounded(alignment), RequestSize(bytes), e1.mem, e2.mem);
        }
      }
    case Release(mem) =>
      if mem in held { FreedOnce(l, l1, l2, mem - 8); }
    case Store(_, _, _) =>
  }

  /** The operations determine every address ever returned and every layout. */
  lemma {:induction false} HistoryOnce(ops: seq<Op>, t1: seq<Event>, t2: seq<Event>, ls1: seq<Layout>, ls2: seq<Layout>,
        g: Segment)
    requires History(ops, t1, ls1, g) && History(ops, t2, ls2, g)
    ensures t1 == t2 && ls1 == ls2
  {
    hide Leads, NewLayout;
    for i := 0 to |ops|
      invariant t1[..i] == t2[..i] && ls1[..i + 1] == ls2[..i + 1]
    {
      assert ls1[..i + 1][i] == ls1[i] && ls2[..i + 1][i] == ls2[i];
      LeadsOnce(ops[i], Held(t1[..i]), t1[i], t2[i], ls1[i], ls1[i + 1], ls2[i + 1]);
      assert t1[..i + 1] == t1[..i] + [t1[i]] && t2[..i + 1] == t2[..i] + [t2[i]];
      assert ls1[..i + 2] == ls1[..i + 1] + [ls1[i + 1]] && ls2[..i + 2] == ls2[..i + 1] + [ls2[i + 1]];
    }
  }

  method Step(msp: Mspace, op: Op, held: map<int, int>, ghost stored: map<int, int>) returns (e: Event)
    requires msp.Valid() && InStep(msp.mem, Live(msp.h, msp.base), held, stored) && Sensible(op)
    modifies msp
    ensures msp.Valid() && Leads(op, held, e, old(View(msp.St())), View(msp.St()))
    ensures match e
            case Got(mem, bytes) => InStep(msp.mem, Live(msp.h, msp.base), held[mem := bytes], stored)
            case Gave(mem) => mem in held
              && InStep(msp.mem, Live(msp.h, msp.base), held - {mem}, WithoutBlock(stored, mem, held[mem]))
            case Put(mem, a, v) => InStep(msp.mem, Live(msp.h, msp.base), held, stored[a := v])
            case _ => InStep(msp.mem, Live(msp.h, msp.base), held, stored)
  {
    hide Good, Live, InStep, Choice, Refused, BlocksKept, PowerOfTwo, PowerFrom, RequestSize, Allocated, Freed,
      AlignedAllocated, QueuesOf;
    ghost var m, live := msp.mem, Live(msp.h, msp.base);
    match op
    case Allocate(bytes) =>
      var mem := msp.Malloc(bytes);
      if mem == 0 { return Refusal; }
      RequestSizeFits(bytes);
      AddedInStep(m, msp.mem, live, Live(msp.h, msp.base), held, stored, mem - 8, bytes);
      NotHeld(m, live, held, stored, mem);
      LiveAligned(msp.St(), msp.Seg(), mem - 8);
      return Got(mem, bytes);
    case Align(alignment, bytes) =>
      var mem, ended := msp.Memalign(alignment, bytes);
      if mem == 0 { return Refusal; }
      RequestSizeFits(bytes);
      AddedInStep(m, msp.mem, live, Live(msp.h, msp.base), held, stored, mem - 8, bytes);
      NotHeld(m, live, held, stored, mem);
      LiveAligned(msp.St(), msp.Seg(), mem - 8);
      EightIsPower();
      if alignment > 8 { RoundedIs(alignment); }
      AlignedTo(mem, Rounded(alignment), alignment);
      return Got(mem, bytes);
    case Release(mem) =>
      if mem !in held { return Ignored; }
      HeldIsLive(m, live, held, stored, mem);
      BlockPositive(msp.St(), msp.Seg(), mem - 8);
      msp.Free(mem);
      RemovedInStep(m, msp.mem, live, Live(msp.h, msp.base), held, stored, mem);
      return Gave(mem);
    case Store(mem, a, v) =>
      if !(mem in held && a % 4 == 0 && InUse(held, mem, a)) { return Ignored; }
      StoreInStep(m, live, held, stored, mem, a, v);
      BlockMapped(msp.St(), msp.Seg(), mem - 8, a);
      msp.Store(mem - 8, a, v);
      return Put(mem, a, v);
  }

  lemma NotHeld(m: Mem, live: map<int, int>, held: map<int, int>, stored: map<int, int>, mem: int)
    requires InStep(m, live, held, stored) && mem - 8 !in live
    ensures mem !in held
  {
  }

  lemma HeldIsLive(m: Mem, live: map<int, int>, held: map<int, int>, stored: map<int, int>, mem: int)
    requires InStep(m, live, held, stored) && mem in held
    ensures mem - 8 in live
  {
  }

  lemma LiveAligned(s: State, g: Segment, q: int)
    requires Good(s, g, {}) && q in Live(s.h, g.first)
    ensures (q + 8) % 8 == 0
  {
    hide BinsOK, HeapOK;
    ChunkMultiple(s, g, q);
    EightMore(q);
  }

  lemma ChunkMultiple(s: State, g: Segment, q: int)
    requires HeapOK(s, g) && q in s.h
    ensures q % 8 == 0
  {
    hide Tiled, Tagged, WholeSegment, DvOK;
  }

  lemma EightMore(q: int)
    requires q % 8 == 0
    ensures (q + 8) % 8 == 0
  {
  }

  lemma BlockPositive(s: State, g: Segment, q: int)
    requires Good(s, g, {}) && q in Live(s.h, g.first)
    ensures q > 0
  {
    hide BinsOK;
    ChunkBounds(s.h, g.first, s.top, q);
  }

  lemma BlockMapped(s: State, g: Segment, q: int, a: int)
    requires Good(s, g, {}) && InBlock(Live(s.h, g.first), q, a) && a % 4 == 0
    ensures a in s.m
  {
    hide BinsOK;
    LiveDisjoint(s, g, q, q, a);
  }

  /** Safety of every run: whatever callers ask for, in whatever order, the heap stays in order, no
      block is handed out while it is held, a request is refused exactly if the layout has no room for
      it, a held block keeps every word its holder stored, and when nothing is held any more the heap
      is as new. */
  method Run(msp: Mspace, ops: seq<Op>) returns (t: seq<Event>, ghost ls: seq<Layout>)
    requires msp.Valid() && Live(msp.h, msp.base) == map[] && forall i :: 0 <= i < |ops| ==> Sensible(ops[i])
    modifies msp
    ensures msp.Valid() && History(ops, t, ls, msp.Seg()) && ls[|ops|] == View(msp.St())
    ensures InStep(msp.mem, Live(msp.h, msp.base), Held(t), Stored(t))
  {
    hide Good, Live, InStep, Leads, View, Sensible;
    t, ls := [], [View(msp.St())];
    var held := map[];
    NothingHeld(msp.mem);
    NewAgain(msp.St(), msp.Seg(), held, Stored(t));
    for i := 0 to |ops|
      invariant msp.Valid() && |t| == i && held == Held(t) && InStep(msp.mem, Live(msp.h, msp.base), held, Stored(t))
      invariant |ls| == i + 1 && ls[i] == View(msp.St())
      invariant forall j :: 0 <= j < i ==> Leads(ops[j], Held(t[..j]), t[j], ls[j], ls[j + 1])
      invariant forall j :: 0 <= j <= i && Held(t[..j]) == map[] ==> ls[j] == NewLayout(msp.Seg())
    {
      var e := Step(msp, ops[i], held, Stored(t));
      Extended(t, e);
      held := if e.Got? then held[e.mem := e.bytes] else if e.Gave? then held - {e.mem} else held;
      t := t + [e];
      ls := ls + [View(msp.St())];
      NewAgain(msp.St(), msp.Seg(), held, Stored(t));
      assert t[..i + 1] == t;
    }
  }

  lemma NewAgain(s: State, g: Segment, held: map<int, int>, stored: map<int, int>)
    requires Good(s, g, {}) && InStep(s.m, Live(s.h, g.first), held, stored)
    ensures held == map[] ==> View(s) == NewLayout(g)
  {
    hide HeapOK, BinsOK, Live, View;
    if held == map[] {
      assert forall p :: p in Live(s.h, g.first) ==> p + 8 in held;
      assert Live(s.h, g.first) == map[];
      NothingLive(s, g);
    }
  }

  /** An alignment of 2^31 + 1: the rounding loop does not end. */
  method EndlessRounding() returns (ended: bool)
    ensures !ended
  {
    hide Good, BlocksKept, Refused;
    var m0 := map a | 0x1000 <= a < 0x2000 && a % 4 == 0 :: 0;
    var msp := CreateMspaceWithBase(m0, 0x1000, 0x1000, 0x1000);
    var mem;
    mem, ended := msp.Memalign(HALF_WORD + 1, 16);
  }

  lemma NothingHeld(m: Mem)
    ensures InStep(m, map[], map[], map[])
  {
  }

  lemma Extended(t: seq<Event>, e: Event)
    ensures var t' := t + [e];
            && Held(t') == (if e.Got? then Held(t)[e.mem := e.bytes]
                            else if e.Gave? then Held(t) - {e.mem}
                            else Held(t))
            && Stored(t') == (if e.Put? then Stored(t)[e.a := e.v]
                              else if e.Gave? && e.mem in Held(t) then
                                WithoutBlock(Stored(t), e.mem, Held(t)[e.mem])
                              else Stored(t))
            && forall j :: 0 <= j <= |t| ==> t'[..j] == t[..j]
  {
    var t' := t + [e];
    assert t'[..|t|] == t && t'[|t|] == e;
  }
}
