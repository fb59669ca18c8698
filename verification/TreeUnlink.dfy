/** What the pointer updates of unlink_large_chunk and insert_large_chunk do to a trie in memory. */
module TreeUnlink {
  import opened BinIndex
  import opened Words
  import opened Rings
  import opened Tries
  import opened TreeWords

  // ----- cutting the rightmost leaf

  /** Address of the word that points to Leaf(t). */
  function LeafSlot(t: Tree, slot: int): int {
    if t.Nil? then slot
    else if t.r.Node? then LeafSlot(t.r, t.p + RIGHT)
    else if t.l.Node? then LeafSlot(t.l, t.p + LEFT)
    else slot
  }

  /** The leaf is where the search for its own size ends. */
  lemma {:induction false} LeafIsDown(t: Tree, lo: int, k: nat, slot: int)
    requires t.Node? && Trie(t, lo, k)
    ensures var s := Leaf(t).sz;
            && Fits(s, lo, k)
            && Down(t, lo, k, s) == Leaf(t) && DownSlot(t, lo, k, s, slot) == LeafSlot(t, slot)
            && Put(t, lo, k, s, Nil) == CutLeaf(t)
    decreases t
  {
    var s := Leaf(t).sz;
    if t.r.Node? {
      LeafIsDown(t.r, lo + Pow2(k), k - 1, t.p + RIGHT);
      LeafCut(t.r, lo + Pow2(k), k - 1);
      LeafFits(t.r, t, lo, k);
    } else if t.l.Node? {
      LeafIsDown(t.l, lo, k - 1, t.p + LEFT);
      LeafCut(t.l, lo, k - 1);
      LeafFits(t.l, t, lo, k);
    }
  }

  /** A store to a child word of `x`, or outside the node, keeps all other words of `q`. */
  lemma SlotWriteKept(m: Mem, a: int, v: int, q: int, x: int)
    requires OutsideNode(a, q) || (x == q && (a == x + LEFT || a == x + RIGHT))
    ensures KeptButSlot(m, m[a := v], q, a)
  {
  }

  lemma ApartFromSlot(a: int, x: int, q: int)
    requires x + 32 <= q || q + 32 <= x
    requires a == x + LEFT || a == x + RIGHT
    ensures OutsideNode(a, q)
  {
  }

  lemma SlotWritesKept(m: Mem, a: int, v: int, c: set<int>, x: int)
    requires Spaced(c)
    requires (forall q :: q in c ==> OutsideNode(a, q)) || (x in c && (a == x + LEFT || a == x + RIGHT))
    ensures AllKept(m, m[a := v], c, a)
  {
    forall q | q in c
      ensures KeptButSlot(m, m[a := v], q, a)
    {
      if !OutsideNode(a, q) && x != q { ApartFromSlot(a, x, q); }
      SlotWriteKept(m, a, v, q, x);
    }
  }

  lemma CutLeafRep(m: Mem, m': Mem, t: Tree, lo: int, k: nat, slot: int, parent: int, bin: int)
    requires t.Node? && Trie(t, lo, k) && Apart(t) && Spaced(Elems(t))
    requires TreeRep(m, t, parent, bin) && Rd(m, slot) == t.p
    requires m' == m[LeafSlot(t, slot) := 0]
    requires forall q :: q in Elems(t) ==> OutsideNode(slot, q)
    ensures TreeRep(m', CutLeaf(t), parent, bin) && Rd(m', slot) == Ptr(CutLeaf(t))
    ensures LeafSlot(t, slot) == slot ||
      exists q :: q in Elems(t) && (LeafSlot(t, slot) == q + LEFT || LeafSlot(t, slot) == q + RIGHT)
  {
    hide CutLeaf, Trie, Elems;
    var s := Leaf(t).sz;
    LeafIsDown(t, lo, k, slot);
    SlotPlace(t, lo, k, s, slot, parent);
    var a, x := LeafSlot(t, slot), DownParent(t, lo, k, s, parent);
    SlotWritesKept(m, a, 0, Elems(t), x);
    OutsideMeansNoChildWord(slot, Elems(t));
    PutRep(m, m', t, lo, k, s, Nil, slot, parent, bin, Leaf(t), a, x);
  }

  lemma OutsideMeansNoChildWord(slot: int, c: set<int>)
    requires forall q :: q in c ==> OutsideNode(slot, q)
    ensures NoChildWord(slot, c)
  {
  }

  /** The leaf's own words, before the cut. */
  lemma {:induction false} LeafRep(m: Mem, t: Tree, parent: int, bin: int) returns (x: int)
    requires t.Node? && TreeRep(m, t, parent, bin)
    ensures NodeWords(m, Leaf(t), x, bin)
    decreases t
  {
    if t.r.Node? {
      x := LeafRep(m, t.r, t.p, bin);
    } else if t.l.Node? {
      x := LeafRep(m, t.l, t.p, bin);
    } else {
      x := parent;
    }
  }

  // ----- putting a replacement in the place of a node

  /** The last part of unlink_large_chunk: `r` takes over the children of `x`. */
  function AdoptLeft(m: Mem, x: int, r: int): Mem {
    var c := Left(m, x);
    if c != 0 then m[r + LEFT := c][c + PARENT := r] else m
  }

  function AdoptRight(m: Mem, x: int, r: int): Mem {
    var c := Right(m, x);
    if c != 0 then m[r + RIGHT := c][c + PARENT := r] else m
  }

  predicate Sep(p: int, q: int) { p + 32 <= q || q + 32 <= p }

  /** `r` keeps its ring and size words; its links are these. */
  ghost predicate Placed(m: Mem, m': Mem, r: int, parent: int, l: int, rr: int) {
    && Head(m', r) == Head(m, r) && Fd(m', r) == Fd(m, r) && Bk(m', r) == Bk(m, r) && Index(m', r) == Index(m, r)
    && Parent(m', r) == parent && Left(m', r) == l && Right(m', r) == rr
  }

  lemma AdoptLeftReads(m: Mem, x: int, r: int, l: int)
    requires Left(m, x) == l && Left(m, r) == 0
    requires Sep(x, r) && (l != 0 ==> Sep(l, x) && Sep(l, r))
    ensures var m' := AdoptLeft(m, x, r);
            && SameNode(m, m', x) && Placed(m, m', r, Parent(m, r), l, Right(m, r)) && (l != 0 ==> Moved(m, m', l, r))
            && (forall q :: Sep(q, r) && (l != 0 ==> Sep(q, l)) ==> SameNode(m, m', q))
  {
  }

  lemma AdoptRightReads(m: Mem, x: int, r: int, rr: int)
    requires Right(m, x) == rr && Right(m, r) == 0
    requires Sep(x, r) && (rr != 0 ==> Sep(rr, x) && Sep(rr, r))
    ensures var m' := AdoptRight(m, x, r);
            && SameNode(m, m', x) && Placed(m, m', r, Parent(m, r), Left(m, r), rr) && (rr != 0 ==> Moved(m, m', rr, r))
            && (forall q :: Sep(q, r) && (rr != 0 ==> Sep(q, rr)) ==> SameNode(m, m', q))
  {
  }

  lemma SetParentReads(m: Mem, r: int, parent: int)
    ensures Moved(m, m[r + PARENT := parent], r, parent)
    ensures forall q :: Sep(q, r) ==> SameNode(m, m[r + PARENT := parent], q)
  {
  }

  /** What relinking leaves in the words of the nodes around `x`. */
  ghost predicate Relinked(m: Mem, m': Mem, r: int, parent: int, l: int, rr: int) {
    && Placed(m, m', r, parent, l, rr)
    && (l != 0 ==> Moved(m, m', l, r))
    && (rr != 0 ==> Moved(m, m', rr, r))
    && (forall q :: Sep(q, r) && (l != 0 ==> Sep(q, l)) && (rr != 0 ==> Sep(q, rr)) ==> SameNode(m, m', q))
  }

  lemma AdoptReads(m: Mem, x: int, r: int, parent: int, l: int, rr: int)
    requires Left(m, x) == l && Right(m, x) == rr && Left(m, r) == 0 && Right(m, r) == 0
    requires Sep(x, r) && (l != 0 ==> Sep(l, x) && Sep(l, r)) && (rr != 0 ==> Sep(rr, x) && Sep(rr, r))
    requires l != 0 && rr != 0 ==> Sep(l, rr)
    ensures Relinked(m, AdoptRight(AdoptLeft(m[r + PARENT := parent], x, r), x, r), r, parent, l, rr)
  {
    var m1 := m[r + PARENT := parent];
    SetParentReads(m, r, parent);
    AdoptLeftReads(m1, x, r, l);
    var m2 := AdoptLeft(m1, x, r);
    AdoptRightReads(m2, x, r, rr);
    RelinkedBySteps(m, m1, m2, AdoptRight(m2, x, r), r, parent, l, rr);
  }

  lemma RelinkedBySteps(m: Mem, m1: Mem, m2: Mem, m3: Mem, r: int, parent: int, l: int, rr: int)
    requires Moved(m, m1, r, parent) && Left(m, r) == 0 && Right(m, r) == 0
    requires l != 0 ==> Sep(l, r)
    requires rr != 0 ==> Sep(rr, r)
    requires l != 0 && rr != 0 ==> Sep(l, rr)
    requires forall q :: Sep(q, r) ==> SameNode(m, m1, q)
    requires Placed(m1, m2, r, parent, l, 0) && (l != 0 ==> Moved(m1, m2, l, r))
    requires forall q :: Sep(q, r) && (l != 0 ==> Sep(q, l)) ==> SameNode(m1, m2, q)
    requires Placed(m2, m3, r, parent, l, rr) && (rr != 0 ==> Moved(m2, m3, rr, r))
    requires forall q :: Sep(q, r) && (rr != 0 ==> Sep(q, rr)) ==> SameNode(m2, m3, q)
    ensures Relinked(m, m3, r, parent, l, rr)
  {
    if l != 0 { assert SameNode(m, m1, l) && SameNode(m2, m3, l); }
    if rr != 0 { assert SameNode(m, m1, rr) && SameNode(m1, m2, rr); }
    forall q | Sep(q, r) && (l != 0 ==> Sep(q, l)) && (rr != 0 ==> Sep(q, rr))
      ensures SameNode(m, m3, q)
    {
      assert SameNode(m, m1, q) && SameNode(m1, m2, q) && SameNode(m2, m3, q);
    }
  }

  lemma AdoptSlot(m: Mem, x: int, r: int, parent: int, l: int, rr: int, slot: int)
    requires Left(m, x) == l && Right(m, x) == rr && Sep(x, r) && (l != 0 ==> Sep(l, x))
    requires OutsideNode(slot, r) && (l != 0 ==> OutsideNode(slot, l)) && (rr != 0 ==> OutsideNode(slot, rr))
    ensures Rd(AdoptRight(AdoptLeft(m[r + PARENT := parent], x, r), x, r), slot) == Rd(m, slot)
  {
    var m1 := m[r + PARENT := parent];
    assert Left(m1, x) == l;
    assert Right(AdoptLeft(m1, x, r), x) == rr;
  }

  /** A node that can be put in a tree: ring and sizes in order, no children yet. */
  ghost predicate Detached(m: Mem, u: Tree, bin: int)
    requires u.Node?
  {
    && Left(m, u.p) == 0 && Right(m, u.p) == 0
    && Ring(m, u.p, u.rest)
    && (forall q :: q in Here(u) ==> q > 0 && Index(m, q) == bin && SizeOf(Head(m, q)) == u.sz)
    && (forall q :: q in u.rest ==> Parent(m, q) == 0 && Left(m, q) == 0 && Right(m, q) == 0)
  }

  lemma DetachedFrame(m: Mem, m': Mem, u: Tree, bin: int)
    requires u.Node? && Detached(m, u, bin) && SameNodes(m, m', Here(u))
    ensures Detached(m', u, bin)
  {
    RestHere(u);
    RingFrame(m, m', u.p, u.rest);
  }

  lemma PlaceDetached(m: Mem, m': Mem, u: Tree, parent: int, bin: int)
    requires u.Node? && Detached(m, u, bin) && Placed(m, m', u.p, parent, Ptr(u.l), Ptr(u.r))
    requires u.p !in u.rest && forall q :: q in u.rest ==> SameNode(m, m', q)
    ensures NodeWords(m', u, parent, bin)
  {
    RestHere(u);
    RingFrame(m, m', u.p, u.rest);
  }

  /** A subtree of `u`, hanging below `x`, ends up below `u.p`. */
  lemma AdoptedSide(m: Mem, m': Mem, u: Tree, side: Tree, other: Tree, x: int, bin: int)
    requires u.Node? && Apart(u) && Spaced(Elems(u)) && ((side == u.l && other == u.r) || (side == u.r && other == u.l))
    requires TreeRep(m, side, x, bin)
    requires side.Node? ==> Moved(m, m', side.p, u.p)
    requires forall q :: Sep(q, u.p) && (u.l.Node? ==> Sep(q, u.l.p)) && (u.r.Node? ==> Sep(q, u.r.p)) ==>
      SameNode(m, m', q)
    ensures TreeRep(m', side, u.p, bin)
  {
    if side.Node? {
      RestHere(side);
      RestHere(u);
      if other.Node? { RestHere(other); }
      assert side.p in Elems(u);
      forall q | q in Elems(side) - {side.p}
        ensures SameNode(m, m', q)
      {
        assert q in Elems(u) && Sep(q, u.p) && Sep(q, side.p);
        if other.Node? { assert other.p in Elems(u) && Sep(q, other.p); }
      }
      assert Apart(side);
      Reparent(m, m', side, x, u.p, bin);
    }
  }

  /** `u.p`, its children and `x` are pairwise apart. */
  ghost predicate Separate(x: int, r: int, l: int, rr: int) {
    && Sep(x, r) && (l != 0 ==> Sep(l, x) && Sep(l, r)) && (rr != 0 ==> Sep(rr, x) && Sep(rr, r))
    && (l != 0 && rr != 0 ==> Sep(l, rr))
  }

  lemma ChildrenSeparate(u: Tree, x: int)
    requires u.Node? && Apart(u) && Spaced(Elems(u)) && (forall q :: q in Elems(u) ==> Sep(x, q))
    ensures Separate(x, u.p, Ptr(u.l), Ptr(u.r))
  {
    RestHere(u);
    if u.l.Node? { RestHere(u.l); assert u.l.p in Elems(u); }
    if u.r.Node? { RestHere(u.r); assert u.r.p in Elems(u); }
  }

  lemma RelinkRep(m: Mem, m': Mem, u: Tree, x: int, parent: int, bin: int)
    requires u.Node? && Apart(u) && Spaced(Elems(u)) && (forall q :: q in Elems(u) ==> Sep(x, q))
    requires TreeRep(m, u.l, x, bin) && TreeRep(m, u.r, x, bin) && Left(m, x) == Ptr(u.l) && Right(m, x) == Ptr(u.r)
    requires Detached(m, u, bin)
    requires m' == AdoptRight(AdoptLeft(m[u.p + PARENT := parent], x, u.p), x, u.p)
    ensures TreeRep(m', u, parent, bin)
    ensures Relinked(m, m', u.p, parent, Ptr(u.l), Ptr(u.r))
  {
    ChildrenSeparate(u, x);
    AdoptReads(m, x, u.p, parent, Ptr(u.l), Ptr(u.r));
    PositivePtr(m, u.l, x, bin);
    PositivePtr(m, u.r, x, bin);
    RelinkedRep(m, m', u, x, parent, bin);
  }

  lemma PositivePtr(m: Mem, t: Tree, parent: int, bin: int)
    requires TreeRep(m, t, parent, bin)
    ensures t.Node? ==> t.p > 0
  {
    if t.Node? { RestHere(t); }
  }

  lemma RelinkedRep(m: Mem, m': Mem, u: Tree, x: int, parent: int, bin: int)
    requires u.Node? && Apart(u) && Spaced(Elems(u))
    requires TreeRep(m, u.l, x, bin) && TreeRep(m, u.r, x, bin) && Detached(m, u, bin)
    requires (u.l.Node? ==> u.l.p != 0) && (u.r.Node? ==> u.r.p != 0)
    requires Relinked(m, m', u.p, parent, Ptr(u.l), Ptr(u.r))
    ensures TreeRep(m', u, parent, bin)
  {
    AdoptedSide(m, m', u, u.l, u.r, x, bin);
    AdoptedSide(m, m', u, u.r, u.l, x, bin);
    RestHere(u);
    forall q | q in u.rest
      ensures SameNode(m, m', q)
    {
      assert q in Elems(u) && u.p in Elems(u) && Sep(q, u.p);
      if u.l.Node? { RestHere(u.l); assert u.l.p in Elems(u) && Sep(q, u.l.p); }
      if u.r.Node? { RestHere(u.r); assert u.r.p in Elems(u) && Sep(q, u.r.p); }
    }
    PlaceDetached(m, m', u, parent, bin);
  }

  // ----- whole tries

  /** The word at `slot`, outside all its chunks, points to trie `t` whose words are in place. */
  ghost predicate TreeAt(m: Mem, t: Tree, lo: int, k: nat, slot: int, bin: int, inv: map<int, int>) {
    && Trie(t, lo, k) && Sized(t, inv) && Spaced(Elems(t))
    && TreeRep(m, t, slot, bin) && Rd(m, slot) == Ptr(t)
    && (forall q :: q in Elems(t) ==> OutsideNode(slot, q))
  }

  /** A chunk of the trie is in the node that the search for its size reaches. */
  lemma Locate(t: Tree, lo: int, k: nat, inv: map<int, int>, x: int)
    requires Trie(t, lo, k) && Sized(t, inv) && x in Elems(t)
    ensures x in inv && Fits(inv[x], lo, k)
    ensures var d := Down(t, lo, k, inv[x]); d.Node? && x in Here(d)
  {
    ElemSize(t, inv, x);
    SizesInRange(t, lo, k, inv[x]);
    AlignedSizes(t, lo, k, inv[x]);
    LocateSize(t, lo, k, inv, x, inv[x]);
  }

  lemma {:induction false} LocateSize(t: Tree, lo: int, k: nat, inv: map<int, int>, x: int, s: int)
    requires Trie(t, lo, k) && Sized(t, inv) && x in Elems(t) && x in inv && inv[x] == s && Fits(s, lo, k)
    ensures var d := Down(t, lo, k, s); d.Node? && x in Here(d)
    decreases t
  {
    if t.sz == s {
      if x in Elems(t.l) { ElemSize(t.l, inv, x); }
      if x in Elems(t.r) { ElemSize(t.r, inv, x); }
    } else {
      FitsBelow(t, lo, k, s);
      SizeSide(t, lo, k, inv, x, s);
      if s < lo + Pow2(k) {
        LocateSize(t.l, lo, k - 1, inv, x, s);
      } else {
        LocateSize(t.r, lo + Pow2(k), k - 1, inv, x, s);
      }
    }
  }

  lemma SizeSide(t: Tree, lo: int, k: nat, inv: map<int, int>, x: int, s: int)
    requires Trie(t, lo, k) && Sized(t, inv) && x in Elems(t) && x in inv && inv[x] == s && t.sz != s
    ensures if s < lo + Pow2(k) then x in Elems(t.l) else x in Elems(t.r)
  {
    if x in Elems(t.l) {
      ElemSize(t.l, inv, x);
      SizesInRange(t.l, lo, k - 1, s);
    } else {
      assert x !in Here(t);
      ElemSize(t.r, inv, x);
      SizesInRange(t.r, lo + Pow2(k), k - 1, s);
    }
  }

  lemma {:induction false} SlotOutside(t: Tree, lo: int, k: nat, s: int, slot: int, q: int)
    requires Apart(t) && Spaced(Elems(t)) && (forall e :: e in Elems(t) ==> OutsideNode(slot, e))
    requires q in Elems(Down(t, lo, k, s))
    ensures OutsideNode(DownSlot(t, lo, k, s, slot), q)
    decreases t
  {
    if t.Nil? || t.sz == s || k == 0 {
    } else if s < lo + Pow2(k) {
      ChildSlotsOutside(t, t.l);
      SlotOutside(t.l, lo, k - 1, s, t.p + LEFT, q);
    } else {
      ChildSlotsOutside(t, t.r);
      SlotOutside(t.r, lo + Pow2(k), k - 1, s, t.p + RIGHT, q);
    }
  }

  lemma ChildSlotsOutside(t: Tree, side: Tree)
    requires t.Node? && Apart(t) && Spaced(Elems(t)) && (side == t.l || side == t.r)
    ensures Spaced(Elems(side))
    ensures forall e :: e in Elems(side) ==> OutsideNode(t.p + LEFT, e) && OutsideNode(t.p + RIGHT, e)
  {
    RestHere(t);
    forall e | e in Elems(side)
      ensures OutsideNode(t.p + LEFT, e) && OutsideNode(t.p + RIGHT, e)
    {
      assert e in Elems(t) && t.p in Elems(t) && Sep(e, t.p);
    }
  }

  /** Facts about the node `d` of size `s` in its trie, used by every unlinking. */
  lemma NodeContext(m: Mem, t: Tree, lo: int, k: nat, slot: int, bin: int, inv: map<int, int>, s: int)
    requires TreeAt(m, t, lo, k, slot, bin, inv) && Fits(s, lo, k)
    ensures var d := Down(t, lo, k, s);
            && Apart(t) && Apart(d) && Elems(d) <= Elems(t) && Spaced(Elems(d)) && Sized(d, inv)
            && Trie(d, DownLo(t, lo, k, s), DownK(t, lo, k, s)) && Fits(s, DownLo(t, lo, k, s), DownK(t, lo, k, s))
            && TreeRep(m, d, DownParent(t, lo, k, s, slot), bin)
            && Rd(m, DownSlot(t, lo, k, s, slot)) == Ptr(d)
            && (forall q :: q in Elems(d) ==> OutsideNode(DownSlot(t, lo, k, s, slot), q))
  {
    TrieApart(t, lo, k, inv);
    DownSubset(t, lo, k, s);
    DownRep(m, t, lo, k, s, slot, slot, bin);
    DownFits(t, lo, k, s);
    DownSized(t, lo, k, s, inv);
    TrieApart(Down(t, lo, k, s), DownLo(t, lo, k, s), DownK(t, lo, k, s), inv);
    forall q | q in Elems(Down(t, lo, k, s))
      ensures OutsideNode(DownSlot(t, lo, k, s, slot), q)
    {
      SlotOutside(t, lo, k, s, slot, q);
    }
  }

  lemma {:induction false} DownSized(t: Tree, lo: int, k: nat, s: int, inv: map<int, int>)
    requires Sized(t, inv)
    ensures Sized(Down(t, lo, k, s), inv)
    decreases t
  {
    if t.Nil? || t.sz == s || k == 0 {
    } else if s < lo + Pow2(k) {
      DownSized(t.l, lo, k - 1, s, inv);
    } else {
      DownSized(t.r, lo + Pow2(k), k - 1, s, inv);
    }
  }

  /** A change confined to the nodes of the reached subtree and the slot pointing to it. */
  lemma ReplaceRep(m: Mem, m': Mem, t: Tree, lo: int, k: nat, slot: int, bin: int, inv: map<int, int>, s: int, u: Tree)
    requires TreeAt(m, t, lo, k, slot, bin, inv) && Fits(s, lo, k)
    requires TreeRep(m', u, DownParent(t, lo, k, s, slot), bin) && Rd(m', DownSlot(t, lo, k, s, slot)) == Ptr(u)
    requires AllKept(m, m', Elems(t) - Elems(Down(t, lo, k, s)), DownSlot(t, lo, k, s, slot))
    requires slot != DownSlot(t, lo, k, s, slot) ==> Rd(m', slot) == Rd(m, slot)
    ensures TreeRep(m', Put(t, lo, k, s, u), slot, bin) && Rd(m', slot) == Ptr(Put(t, lo, k, s, u))
  {
    TrieApart(t, lo, k, inv);
    OutsideMeansNoChildWord(slot, Elems(t));
    PutRep(m, m', t, lo, k, s, u, slot, slot, bin, Down(t, lo, k, s), DownSlot(t, lo, k, s, slot),
      DownParent(t, lo, k, s, slot));
  }

  // ----- a chunk chained to a tree node

  /** The two ring stores of unlink_large_chunk. */
  function RingStores(m: Mem, x: int): Mem {
    var f, b := Fd(m, x), Bk(m, x);
    m[f + BK := b][b + FD := f]
  }

  /** Ring stores touch only the fd and bk words of the neighbours. */
  lemma RingStoresReads(m: Mem, x: int)
    requires var f, b := Fd(m, x), Bk(m, x); f == b || Sep(f, b)
    ensures var f, b, m' := Fd(m, x), Bk(m, x), RingStores(m, x);
            && Bk(m', f) == b && Fd(m', b) == f
            && (forall q :: q == f || q == b || (Sep(q, f) && Sep(q, b)) ==>
                 && Head(m', q) == Head(m, q) && Left(m', q) == Left(m, q) && Right(m', q) == Right(m, q)
                 && Parent(m', q) == Parent(m, q) && Index(m', q) == Index(m, q)
                 && (q != b ==> Fd(m', q) == Fd(m, q)) && (q != f ==> Bk(m', q) == Bk(m, q)))
  {
  }

  /** All but the fd and bk words of `q` are kept. */
  ghost predicate LinksOnly(m: Mem, m': Mem, q: int) {
    && Head(m', q) == Head(m, q) && Left(m', q) == Left(m, q) && Right(m', q) == Right(m, q)
    && Parent(m', q) == Parent(m, q) && Index(m', q) == Index(m, q)
  }

  /** Unlinking `x` from the ring of node `d`, whose chunks are `c`. */
  lemma RingStoresKeep(m: Mem, x: int, b: int, s: seq<int>, c: set<int>)
    requires Spaced(c) && b in c && (forall q :: q in s ==> q in c)
    requires (Fd(m, x) == b || Fd(m, x) in s) && (Bk(m, x) == b || Bk(m, x) in s)
    ensures var f, r, m' := Fd(m, x), Bk(m, x), RingStores(m, x);
            Bk(m', f) == r && Fd(m', r) == f && LinksKept(m, m', b, s, r, f)
    ensures forall q :: q in c ==> LinksOnly(m, RingStores(m, x), q)
    ensures forall q :: q in c && q != Fd(m, x) && q != Bk(m, x) ==> SameNode(m, RingStores(m, x), q)
  {
    RingStoresReads(m, x);
  }

  lemma DropMemberRep(m: Mem, d: Tree, parent: int, bin: int, x: int, c: set<int>)
    requires d.Node? && x in d.rest && NodeWords(m, d, parent, bin) && Distinct(d.p, d.rest)
    requires Spaced(c) && Here(d) <= c
    ensures (Fd(m, x) in Here(d)) && (Bk(m, x) in Here(d))
    ensures NodeWords(RingStores(m, x), Drop(d, x), parent, bin)
    ensures forall q :: q in c && q !in Here(d) ==> SameNode(m, RingStores(m, x), q)
  {
    RestHere(d);
    var k := IndexOf(d.rest, x);
    RingNeighbours(m, d.p, d.rest, k);
    RingStoresKeep(m, x, d.p, d.rest, c);
    RingDrop(m, RingStores(m, x), d.p, d.rest, k);
    DistinctWithout(d.p, d.rest, k);
    RestHere(Drop(d, x));
    DropMemberWords(m, RingStores(m, x), d, Drop(d, x), parent, bin);
  }

  lemma DropMemberWords(m: Mem, m': Mem, d: Tree, d': Tree, parent: int, bin: int)
    requires d.Node? && NodeWords(m, d, parent, bin) && d'.Node? && d' == d.(rest := d'.rest)
    requires Ring(m', d'.p, d'.rest)
    requires forall q :: q in d'.rest ==> q in d.rest
    requires forall q :: q in Here(d) ==> LinksOnly(m, m', q)
    ensures NodeWords(m', d', parent, bin)
  {
    RestHere(d);
    RestHere(d');
  }

  lemma DropHeadDetached(m: Mem, d: Tree, parent: int, bin: int, c: set<int>)
    requires d.Node? && d.rest != [] && NodeWords(m, d, parent, bin) && Distinct(d.p, d.rest)
    requires Spaced(c) && Here(d) <= c
    ensures (Fd(m, d.p) in Here(d)) && (Bk(m, d.p) in Here(d)) && Bk(m, d.p) == Drop(d, d.p).p
    ensures Detached(RingStores(m, d.p), Drop(d, d.p), bin)
    ensures LinksOnly(m, RingStores(m, d.p), d.p)
    ensures forall q :: q in c && q !in Here(d) ==> SameNode(m, RingStores(m, d.p), q)
  {
    RestHere(d);
    RingEnds(m, d.p, d.rest);
    RingStoresKeep(m, d.p, d.p, d.rest, c);
    var m', u := RingStores(m, d.p), Drop(d, d.p);
    RingDropHead(m, m', d.p, d.rest);
    RestHere(u);
    assert forall q :: q in u.rest ==> q in d.rest;
  }

  /** Cutting the leaf that will replace `d`, whose chunk has no others of its size. */
  lemma DropLeafDetached(m: Mem, d: Tree, lo: int, k: nat, parent: int, bin: int, right: bool)
    requires d.Node? && Trie(d, lo, k) && Apart(d) && Spaced(Elems(d)) && TreeRep(m, d, parent, bin)
    requires d.rest == [] && (if right then d.r.Node? else d.r.Nil? && d.l.Node?)
    ensures var m1, u := m[CutSlot(d, right) := 0], Drop(d, d.p);
            && u.Node? && Detached(m1, u, bin) && TreeRep(m1, u.l, d.p, bin) && TreeRep(m1, u.r, d.p, bin)
            && Left(m1, d.p) == Ptr(u.l) && Right(m1, d.p) == Ptr(u.r) && Parent(m1, d.p) == Parent(m, d.p)
  {
    CutSide(m, d, lo, k, parent, bin, right);
    CutDetaches(m, d, parent, bin, right);
    CutBeside(m, d, parent, bin, right);
    SameDetached(m[CutSlot(d, right) := 0], Leaf(CutTree(d, right)), Drop(d, d.p), bin);
  }

  lemma SameDetached(m: Mem, u: Tree, v: Tree, bin: int)
    requires u.Node? && v.Node? && v.p == u.p && v.sz == u.sz && v.rest == u.rest && Detached(m, u, bin)
    ensures Detached(m, v, bin)
  {
    assert Here(v) == Here(u);
  }

  /** The child of `d` whose leaf is cut, and the word that points to that leaf. */
  function CutTree(d: Tree, right: bool): Tree
    requires d.Node?
  {
    if right then d.r else d.l
  }

  function CutSlot(d: Tree, right: bool): int
    requires d.Node?
  {
    LeafSlot(CutTree(d, right), d.p + if right then RIGHT else LEFT)
  }

  lemma CutSide(m: Mem, d: Tree, lo: int, k: nat, parent: int, bin: int, right: bool)
    requires d.Node? && Trie(d, lo, k) && Apart(d) && Spaced(Elems(d)) && TreeRep(m, d, parent, bin)
    requires CutTree(d, right).Node?
    ensures var m1 := m[CutSlot(d, right) := 0];
            && TreeRep(m1, CutLeaf(CutTree(d, right)), d.p, bin)
            && Rd(m1, d.p + if right then RIGHT else LEFT) == Ptr(CutLeaf(CutTree(d, right)))
  {
    ChildSlotsOutside(d, CutTree(d, right));
    var k', lo' := TrieSide(d, lo, k, right);
    CutLeafOf(m, CutTree(d, right), lo', k', d.p + if right then RIGHT else LEFT, d.p, bin);
  }

  lemma TrieSide(d: Tree, lo: int, k: nat, right: bool) returns (k': nat, lo': int)
    requires d.Node? && Trie(d, lo, k) && CutTree(d, right).Node?
    ensures Trie(CutTree(d, right), lo', k')
  {
    k', lo' := k - 1, if right then lo + Pow2(k) else lo;
  }

  lemma CutLeafOf(m: Mem, t: Tree, lo: int, k: nat, slot: int, parent: int, bin: int)
    requires t.Node? && Trie(t, lo, k) && Apart(t) && Spaced(Elems(t))
    requires TreeRep(m, t, parent, bin) && Rd(m, slot) == t.p
    requires forall q :: q in Elems(t) ==> OutsideNode(slot, q)
    ensures var m' := m[LeafSlot(t, slot) := 0]; TreeRep(m', CutLeaf(t), parent, bin) && Rd(m', slot) == Ptr(CutLeaf(t))
  {
    CutLeafRep(m, m[LeafSlot(t, slot) := 0], t, lo, k, slot, parent, bin);
  }

  lemma CutDetaches(m: Mem, d: Tree, parent: int, bin: int, right: bool)
    requires d.Node? && Spaced(Elems(d)) && TreeRep(m, d, parent, bin) && CutTree(d, right).Node?
    ensures Detached(m[CutSlot(d, right) := 0], Leaf(CutTree(d, right)), bin)
  {
    var side := CutTree(d, right);
    RestHere(d);
    LeafSubset(side);
    var x := CutSlotPlace(d, right);
    var y := LeafRep(m, side, d.p, bin);
    CutKeepsLeaf(m, m[CutSlot(d, right) := 0], CutSlot(d, right), x, Leaf(side), Elems(d), y, bin);
  }

  /** The cut leaves the other child and, but for a child word, `d` itself alone. */
  lemma CutBeside(m: Mem, d: Tree, parent: int, bin: int, right: bool)
    requires d.Node? && Apart(d) && Spaced(Elems(d)) && TreeRep(m, d, parent, bin) && CutTree(d, right).Node?
    ensures var m1 := m[CutSlot(d, right) := 0];
            && TreeRep(m1, CutTree(d, !right), d.p, bin) && Parent(m1, d.p) == Parent(m, d.p)
            && Rd(m1, d.p + if right then LEFT else RIGHT) == Ptr(CutTree(d, !right))
  {
    RestHere(d);
    var x := CutSlotPlace(d, right);
    KeptBeside(m, d, CutTree(d, !right), bin, CutSlot(d, right), x, if right then LEFT else RIGHT);
  }

  lemma KeptBeside(m: Mem, d: Tree, other: Tree, bin: int, a: int, x: int, side: int)
    requires d.Node? && Spaced(Elems(d)) && d.p in Elems(d) && TreeRep(m, other, d.p, bin)
    requires Elems(other) <= Elems(d) && x in Elems(d) && x !in Elems(other)
    requires a == x + LEFT || a == x + RIGHT
    requires (side == LEFT || side == RIGHT) && Rd(m, d.p + side) == Ptr(other) && (x == d.p ==> a != d.p + side)
    ensures var m1 := m[a := 0];
            TreeRep(m1, other, d.p, bin) && Parent(m1, d.p) == Parent(m, d.p) && Rd(m1, d.p + side) == Ptr(other)
  {
    SlotWritesKept(m, a, 0, Elems(d), x);
    SideKept(m, m[a := 0], other, d.p, bin, a, x);
    assert KeptButSlot(m, m[a := 0], d.p, a);
    if x != d.p { assert Sep(x, d.p); }
  }

  lemma CutSlotPlace(d: Tree, right: bool) returns (x: int)
    requires d.Node?
    ensures CutSlot(d, right) == x + LEFT || CutSlot(d, right) == x + RIGHT
    ensures x in Elems(CutTree(d, right)) || (x == d.p && CutSlot(d, right) == d.p + if right then RIGHT else LEFT)
  {
    x := LeafSlotWithin(CutTree(d, right), d.p + if right then RIGHT else LEFT, d.p);
  }

  lemma {:induction false} LeafSubset(t: Tree)
    requires t.Node?
    ensures Elems(Leaf(t)) <= Elems(t)
    decreases t
  {
    if t.r.Node? { LeafSubset(t.r); } else if t.l.Node? { LeafSubset(t.l); }
  }

  lemma {:induction false} LeafSlotWithin(t: Tree, slot: int, p: int) returns (x: int)
    requires slot == p + LEFT || slot == p + RIGHT
    ensures (x == p && LeafSlot(t, slot) == slot)
      || (x in Elems(t) && (LeafSlot(t, slot) == x + LEFT || LeafSlot(t, slot) == x + RIGHT))
    decreases t
  {
    if t.Node? && t.r.Node? {
      x := LeafSlotWithin(t.r, t.p + RIGHT, t.p);
    } else if t.Node? && t.l.Node? {
      x := LeafSlotWithin(t.l, t.p + LEFT, t.p);
    } else {
      x := p;
    }
  }

  /** A child word that is cleared is not one of the leaf's: those are clear already. */
  lemma CutKeepsLeaf(m: Mem, m1: Mem, a: int, x: int, leaf: Tree, c: set<int>, y: int, bin: int)
    requires leaf.Node? && leaf.l.Nil? && leaf.r.Nil? && Spaced(c) && x in c && Here(leaf) <= c
    requires NodeWords(m, leaf, y, bin)
    requires m1 == m[a := 0] && (a == x + LEFT || a == x + RIGHT)
    ensures Detached(m1, leaf, bin)
  {
    SlotWritesKept(m, a, 0, c, x);
    RestHere(leaf);
    forall q | q in Here(leaf)
      ensures Left(m1, q) == 0 && Right(m1, q) == 0
    {
      assert KeptButSlot(m, m1, q, a);
    }
    assert forall q :: q in Here(leaf) ==> KeptButSlot(m, m1, q, a);
    RingFrame(m, m1, leaf.p, leaf.rest);
  }

  // ----- unlink_large_chunk on the whole trie

  /** `x` is chained to the node of its size: only the ring changes. */
  lemma UnlinkMember(m: Mem, t: Tree, lo: int, k: nat, slot: int, bin: int, inv: map<int, int>, s: int, x: int)
    requires TreeAt(m, t, lo, k, slot, bin, inv) && Fits(s, lo, k)
    requires var d := Down(t, lo, k, s); d.Node? && x in d.rest
    ensures var m' := RingStores(m, x);
            && TreeRep(m', Put(t, lo, k, s, Drop(Down(t, lo, k, s), x)), slot, bin)
            && Rd(m', slot) == Ptr(Put(t, lo, k, s, Drop(Down(t, lo, k, s), x)))
    ensures Fd(m, x) in Here(Down(t, lo, k, s)) && Bk(m, x) in Here(Down(t, lo, k, s))
  {
    var d, a, y := Down(t, lo, k, s), DownSlot(t, lo, k, s, slot), DownParent(t, lo, k, s, slot);
    var m' := RingStores(m, x);
    NodeContext(m, t, lo, k, slot, bin, inv, s);
    RestHere(d);
    assert Here(d) <= Elems(d) <= Elems(t);
    DropMemberRep(m, d, y, bin, x, Elems(t));
    MemberChildren(m, d, y, bin, x);
    RingStoresElsewhere(m, x, Here(d), a);
    RingStoresElsewhere(m, x, Here(d), slot);
    KeptOutside(m, m', Elems(t), Elems(d), Here(d), a);
    ReplaceRep(m, m', t, lo, k, slot, bin, inv, s, Drop(d, x));
  }

  lemma MemberChildren(m: Mem, d: Tree, parent: int, bin: int, x: int)
    requires d.Node? && x in d.rest && TreeRep(m, d, parent, bin) && Apart(d)
    requires forall q :: q in Elems(d) && q !in Here(d) ==> SameNode(m, RingStores(m, x), q)
    requires NodeWords(RingStores(m, x), Drop(d, x), parent, bin)
    ensures TreeRep(RingStores(m, x), Drop(d, x), parent, bin)
  {
    TreeFrame(m, RingStores(m, x), d.l, d.p, bin);
    TreeFrame(m, RingStores(m, x), d.r, d.p, bin);
  }

  lemma RingStoresElsewhere(m: Mem, x: int, c: set<int>, a: int)
    requires Fd(m, x) in c && Bk(m, x) in c && forall q :: q in c ==> OutsideNode(a, q)
    ensures Rd(RingStores(m, x), a) == Rd(m, a)
  {
  }

  lemma KeptOutside(m: Mem, m': Mem, c: set<int>, cut: set<int>, here: set<int>, a: int)
    requires here <= cut && forall q :: q in c && q !in here ==> SameNode(m, m', q)
    ensures AllKept(m, m', c - cut, a)
  {
  }

  /** `x` is the tree chunk of node `d`, and `m1` is `m` after its replacement, `u` without
      children, has been taken off its ring or its leaf: relinking completes the unlinking. */
  lemma UnlinkReplaced(m: Mem, m1: Mem, t: Tree, lo: int, k: nat, slot: int, bin: int, inv: map<int, int>, s: int,
        u: Tree)
    requires TreeAt(m, t, lo, k, slot, bin, inv) && Fits(s, lo, k) && Down(t, lo, k, s).Node?
    requires var d := Down(t, lo, k, s);
             && u.Node? && Elems(u) <= Elems(d) - {d.p} && Apart(u) && Detached(m1, u, bin)
             && TreeRep(m1, u.l, d.p, bin) && TreeRep(m1, u.r, d.p, bin)
             && Left(m1, d.p) == Ptr(u.l) && Right(m1, d.p) == Ptr(u.r)
             && SameNodes(m, m1, Elems(t) - Elems(d)) && Rd(m1, slot) == Rd(m, slot)
    ensures var d, a, y := Down(t, lo, k, s), DownSlot(t, lo, k, s, slot), DownParent(t, lo, k, s, slot);
            var m' := AdoptRight(AdoptLeft(m1[a := u.p][u.p + PARENT := y], d.p, u.p), d.p, u.p);
            TreeRep(m', Put(t, lo, k, s, u), slot, bin) && Rd(m', slot) == Ptr(Put(t, lo, k, s, u))
  {
    hide Trie, Sized, TreeRep, Down, Put, Fits, AdoptLeft, AdoptRight, Apart, Detached, SameNodes, AllKept, DownSlot,
      DownParent, Ring, Here;
    var d, a, y := Down(t, lo, k, s), DownSlot(t, lo, k, s, slot), DownParent(t, lo, k, s, slot);
    NodeContext(m, t, lo, k, slot, bin, inv, s);
    RestHere(d);
    var m2 := m1[a := u.p];
    var m' := AdoptRight(AdoptLeft(m2[u.p + PARENT := y], d.p, u.p), d.p, u.p);
    RelinkNode(m1, m', d, u, a, y, bin);
    UnlinkedElsewhere(m, m1, m', t, d, u, a, y, lo, k, s, slot);
    ReplaceRep(m, m', t, lo, k, slot, bin, inv, s, u);
  }

  lemma RelinkNode(m1: Mem, m': Mem, d: Tree, u: Tree, a: int, y: int, bin: int)
    requires d.Node? && u.Node? && d.p in Elems(d) && Spaced(Elems(d)) && Elems(u) <= Elems(d) - {d.p} && Apart(u)
    requires Detached(m1, u, bin) && TreeRep(m1, u.l, d.p, bin) && TreeRep(m1, u.r, d.p, bin)
    requires Left(m1, d.p) == Ptr(u.l) && Right(m1, d.p) == Ptr(u.r)
    requires forall q :: q in Elems(d) ==> OutsideNode(a, q)
    requires m' == AdoptRight(AdoptLeft(m1[a := u.p][u.p + PARENT := y], d.p, u.p), d.p, u.p)
    ensures TreeRep(m', u, y, bin) && Relinked(m1[a := u.p], m', u.p, y, Ptr(u.l), Ptr(u.r)) && Rd(m', a) == u.p
  {
    var m2 := m1[a := u.p];
    SlotWriteElsewhere(m1, a, u.p, Elems(d));
    DetachedFrame(m1, m2, u, bin);
    TreeFrame(m1, m2, u.l, d.p, bin);
    TreeFrame(m1, m2, u.r, d.p, bin);
    assert Left(m2, d.p) == Ptr(u.l) && Right(m2, d.p) == Ptr(u.r);
    RelinkRep(m2, m', u, d.p, y, bin);
    RelinkKeepsSlot(m2, d, u, a, y);
  }

  lemma SlotWriteElsewhere(m: Mem, a: int, v: int, c: set<int>)
    requires forall q :: q in c ==> OutsideNode(a, q)
    ensures SameNodes(m, m[a := v], c)
  {
  }

  lemma RelinkKeepsSlot(m2: Mem, d: Tree, u: Tree, a: int, y: int)
    requires d.Node? && u.Node? && d.p in Elems(d) && Spaced(Elems(d)) && Elems(u) <= Elems(d) - {d.p}
    requires Left(m2, d.p) == Ptr(u.l) && Right(m2, d.p) == Ptr(u.r)
    requires forall q :: q in Elems(d) ==> OutsideNode(a, q)
    ensures Rd(AdoptRight(AdoptLeft(m2[u.p + PARENT := y], d.p, u.p), d.p, u.p), a) == Rd(m2, a)
  {
    hide Spaced, AdoptLeft, AdoptRight, OutsideNode, Left, Right, Sep;
    ElemsPtr(u);
    SlotOutsideOf(d.p, u.p, Ptr(u.l), Ptr(u.r), Elems(d), a);
    AdoptSlot(m2, d.p, u.p, y, Ptr(u.l), Ptr(u.r), a);
  }

  lemma SlotOutsideOf(x: int, r: int, l: int, rr: int, c: set<int>, a: int)
    requires Spaced(c) && x in c && r in c && r != x && (l != 0 ==> l in c && l != x) && (rr != 0 ==> rr in c)
    requires forall q :: q in c ==> OutsideNode(a, q)
    ensures Sep(x, r) && (l != 0 ==> Sep(l, x)) && OutsideNode(a, r)
    ensures (l != 0 ==> OutsideNode(a, l)) && (rr != 0 ==> OutsideNode(a, rr))
  {
  }

  lemma ElemsPtr(u: Tree)
    requires u.Node?
    ensures u.p in Elems(u) && (u.l.Node? ==> u.l.p in Elems(u)) && (u.r.Node? ==> u.r.p in Elems(u))
  {
    RestHere(u);
    if u.l.Node? { RestHere(u.l); }
    if u.r.Node? { RestHere(u.r); }
  }

  lemma UnlinkedElsewhere(m: Mem, m1: Mem, m': Mem, t: Tree, d: Tree, u: Tree, a: int, y: int, lo: int, k: nat, s: int,
        slot: int)
    requires Spaced(Elems(t)) && Elems(d) <= Elems(t) && d.Node? && u.Node? && d.p in Elems(d)
    requires Elems(u) <= Elems(d) - {d.p}
    requires d == Down(t, lo, k, s) && a == DownSlot(t, lo, k, s, slot) && y == DownParent(t, lo, k, s, slot)
    requires forall q :: q in Elems(t) ==> OutsideNode(slot, q)
    requires SameNodes(m, m1, Elems(t) - Elems(d)) && Rd(m1, slot) == Rd(m, slot)
    requires Left(m1[a := u.p], d.p) == Ptr(u.l) && Right(m1[a := u.p], d.p) == Ptr(u.r)
    requires m' == AdoptRight(AdoptLeft(m1[a := u.p][u.p + PARENT := y], d.p, u.p), d.p, u.p)
    requires Relinked(m1[a := u.p], m', u.p, y, Ptr(u.l), Ptr(u.r))
    ensures AllKept(m, m', Elems(t) - Elems(d), a)
    ensures slot != a ==> Rd(m', slot) == Rd(m, slot)
  {
    hide AdoptLeft, AdoptRight, OutsideNode, Left, Right, Relinked, KeptButSlot, SameNode, Spaced, Down, DownSlot,
      DownParent;
    var m2 := m1[a := u.p];
    SlotPlace(t, lo, k, s, slot, slot);
    SlotWritesKept(m1, a, u.p, Elems(t), y);
    RelinkedElsewhere(m2, m', t, d, u, y);
    KeptBySteps(m, m1, m2, m', Elems(t) - Elems(d), a);
    SpacedWithin(Elems(t), Elems(d));
    RelinkKeepsSlot(m2, d, u, slot, y);
  }

  lemma SpacedWithin(c: set<int>, c': set<int>)
    requires Spaced(c) && c' <= c
    ensures Spaced(c')
  {
  }

  lemma RelinkedElsewhere(m2: Mem, m': Mem, t: Tree, d: Tree, u: Tree, y: int)
    requires Spaced(Elems(t)) && Elems(d) <= Elems(t) && u.Node? && Elems(u) <= Elems(d)
    requires Relinked(m2, m', u.p, y, Ptr(u.l), Ptr(u.r))
    ensures SameNodes(m2, m', Elems(t) - Elems(d))
  {
    ElemsPtr(u);
  }

  lemma KeptBySteps(m: Mem, m1: Mem, m2: Mem, m3: Mem, c: set<int>, a: int)
    requires SameNodes(m, m1, c) && (forall q :: q in c ==> KeptButSlot(m1, m2, q, a)) && SameNodes(m2, m3, c)
    ensures AllKept(m, m3, c, a)
  {
    forall q | q in c
      ensures KeptButSlot(m, m3, q, a)
    {
      assert SameNode(m, m1, q) && KeptButSlot(m1, m2, q, a) && SameNode(m2, m3, q);
    }
  }

  /** The last chunk of a node without children: its slot is cleared. */
  lemma UnlinkLast(m: Mem, t: Tree, lo: int, k: nat, slot: int, bin: int, inv: map<int, int>, s: int)
    requires TreeAt(m, t, lo, k, slot, bin, inv) && Fits(s, lo, k)
    ensures var m' := m[DownSlot(t, lo, k, s, slot) := 0];
            TreeRep(m', Put(t, lo, k, s, Nil), slot, bin) && Rd(m', slot) == Ptr(Put(t, lo, k, s, Nil))
  {
    var a, y := DownSlot(t, lo, k, s, slot), DownParent(t, lo, k, s, slot);
    SlotPlace(t, lo, k, s, slot, slot);
    SlotWritesKept(m, a, 0, Elems(t), y);
    ReplaceRep(m, m[a := 0], t, lo, k, slot, bin, inv, s, Nil);
  }

  // ----- insert_large_chunk on the whole trie

  /** The words of `x` that insert_large_chunk clears first. */
  function Cleared(m: Mem, x: int, bin: int): Mem {
    m[x + INDEX := bin][x + LEFT := 0][x + RIGHT := 0]
  }

  /** `x` becomes a leaf at slot `a` below parent word `y`. */
  function HangLeaf(m: Mem, x: int, a: int, y: int): Mem {
    m[a := x][x + PARENT := y][x + BK := x][x + FD := x]
  }

  /** `x` is chained in after the tree chunk `t`. */
  function Chain(m: Mem, x: int, t: int): Mem {
    var f := Fd(m, t);
    m[f + BK := x][t + FD := x][x + FD := f][x + BK := t][x + PARENT := 0]
  }

  lemma HangLeafRep(m: Mem, t: Tree, lo: int, k: nat, slot: int, bin: int, inv: map<int, int>, s: int, x: int)
    requires TreeAt(m, t, lo, k, slot, bin, inv) && Fits(s, lo, k) && Down(t, lo, k, s).Nil?
    requires x > 0 && x % 8 == 0 && SizeOf(Head(m, x)) == s && OutsideNode(slot, x)
    requires forall q :: q in Elems(t) ==> Sep(q, x)
    ensures var m' := HangLeaf(Cleared(m, x, bin), x, DownSlot(t, lo, k, s, slot), DownParent(t, lo, k, s, slot));
            var t' := Put(t, lo, k, s, Node(x, s, [], Nil, Nil));
            TreeRep(m', t', slot, bin) && Rd(m', slot) == Ptr(t')
  {
    var a, y := DownSlot(t, lo, k, s, slot), DownParent(t, lo, k, s, slot);
    var m' := HangLeaf(Cleared(m, x, bin), x, a, y);
    var u := Node(x, s, [], Nil, Nil);
    SlotPlace(t, lo, k, s, slot, slot);
    if a != slot { ApartFromSlot(a, y, x); }
    LeafWords(m, m', x, a, y, s, bin);
    forall q | q in Elems(t)
      ensures KeptButSlot(m, m', q, a)
    {
      if q != y && a != slot { ApartFromSlot(a, y, q); }
      HangKeeps(m, x, a, y, bin, q);
    }
    if slot != a { HangKeepsWord(m, x, a, y, bin, slot); }
    ReplaceRep(m, m', t, lo, k, slot, bin, inv, s, u);
  }

  lemma LeafWords(m: Mem, m': Mem, x: int, a: int, y: int, s: int, bin: int)
    requires OutsideNode(a, x) && x > 0 && SizeOf(Head(m, x)) == s && m' == HangLeaf(Cleared(m, x, bin), x, a, y)
    ensures NodeWords(m', Node(x, s, [], Nil, Nil), y, bin) && Rd(m', a) == x
  {
    hide SizeOf;
    var u := Node(x, s, [], Nil, Nil);
    RestHere(u);
    assert Link(m', x, [], 0);
  }

  /** One more store: outside `q`, or to the child word `a` that may differ. */
  lemma KeptStore(m: Mem, m1: Mem, m2: Mem, b: int, v: int, q: int, a: int)
    requires KeptButSlot(m, m1, q, a) && m2 == m1[b := v]
    requires OutsideNode(b, q) || (b == a && (b == q + LEFT || b == q + RIGHT))
    ensures KeptButSlot(m, m2, q, a)
  {
  }

  lemma KeptSame(m: Mem, q: int, a: int)
    ensures KeptButSlot(m, m, q, a)
  {
  }

  lemma AllOutside(x: int, q: int)
    requires Sep(q, x)
    ensures OutsideNode(x + FD, q) && OutsideNode(x + BK, q) && OutsideNode(x + LEFT, q) && OutsideNode(x + RIGHT, q)
    ensures OutsideNode(x + PARENT, q) && OutsideNode(x + INDEX, q)
  {
  }

  lemma HangKeeps(m: Mem, x: int, a: int, y: int, bin: int, q: int)
    requires Sep(q, x) && (OutsideNode(a, q) || (y == q && (a == y + LEFT || a == y + RIGHT)))
    ensures KeptButSlot(m, HangLeaf(Cleared(m, x, bin), x, a, y), q, a)
  {
    hide KeptButSlot, OutsideNode, Sep;
    var m1 := m[x + INDEX := bin];
    var m2 := m1[x + LEFT := 0];
    var m3 := m2[x + RIGHT := 0];
    var m4 := m3[a := x];
    var m5 := m4[x + PARENT := y];
    var m6 := m5[x + BK := x];
    AllOutside(x, q);
    KeptSame(m, q, a);
    KeptStore(m, m, m1, x + INDEX, bin, q, a);
    KeptStore(m, m1, m2, x + LEFT, 0, q, a);
    KeptStore(m, m2, m3, x + RIGHT, 0, q, a);
    KeptStore(m, m3, m4, a, x, q, a);
    KeptStore(m, m4, m5, x + PARENT, y, q, a);
    KeptStore(m, m5, m6, x + BK, x, q, a);
    KeptStore(m, m6, m6[x + FD := x], x + FD, x, q, a);
  }

  lemma HangKeepsWord(m: Mem, x: int, a: int, y: int, bin: int, b: int)
    requires OutsideNode(b, x) && b != a
    ensures Rd(HangLeaf(Cleared(m, x, bin), x, a, y), b) == Rd(m, b)
  {
  }

  lemma ChainRep(m: Mem, t: Tree, lo: int, k: nat, slot: int, bin: int, inv: map<int, int>, s: int, x: int)
    requires TreeAt(m, t, lo, k, slot, bin, inv) && Fits(s, lo, k) && Down(t, lo, k, s).Node?
    requires x > 0 && x % 8 == 0 && SizeOf(Head(m, x)) == s && OutsideNode(slot, x)
    requires forall q :: q in Elems(t) ==> Sep(q, x)
    ensures var d := Down(t, lo, k, s);
            var m' := Chain(Cleared(m, x, bin), x, d.p);
            var t' := Put(t, lo, k, s, d.(rest := [x] + d.rest));
            TreeRep(m', t', slot, bin) && Rd(m', slot) == Ptr(t')
    ensures Fd(m, Down(t, lo, k, s).p) in Here(Down(t, lo, k, s))
  {
    hide Trie, Sized, TreeRep, Down, Put, Fits;
    var d, a, y := Down(t, lo, k, s), DownSlot(t, lo, k, s, slot), DownParent(t, lo, k, s, slot);
    var u := d.(rest := [x] + d.rest);
    var m' := Chain(Cleared(m, x, bin), x, d.p);
    NodeContext(m, t, lo, k, slot, bin, inv, s);
    DownFits(t, lo, k, s);
    RestHere(d);
    ChainNode(m, m', d, x, y, bin, Elems(t));
    KeptOutside(m, m', Elems(t), Elems(d), Here(d), a);
    TreeFrame(m, m', d.l, d.p, bin);
    TreeFrame(m, m', d.r, d.p, bin);
    SlotPlace(t, lo, k, s, slot, slot);
    if a != slot { ApartFromSlot(a, y, x); }
    ChainWord(m, x, d.p, bin, a);
    ChainWord(m, x, d.p, bin, slot);
    ReplaceRep(m, m', t, lo, k, slot, bin, inv, s, u);
  }

  lemma ClearedReads(m: Mem, x: int, bin: int)
    ensures var m1 := Cleared(m, x, bin);
            && Head(m1, x) == Head(m, x) && Left(m1, x) == 0 && Right(m1, x) == 0 && Index(m1, x) == bin
            && (forall q :: Sep(q, x) ==> SameNode(m, m1, q))
  {
  }

  lemma ChainNode(m: Mem, m': Mem, d: Tree, x: int, y: int, bin: int, c: set<int>)
    requires d.Node? && NodeWords(m, d, y, bin) && Distinct(d.p, d.rest) && Here(d) <= c && Spaced(c)
    requires x > 0 && SizeOf(Head(m, x)) == d.sz && forall q :: q in c ==> Sep(q, x)
    requires m' == Chain(Cleared(m, x, bin), x, d.p)
    ensures NodeWords(m', d.(rest := [x] + d.rest), y, bin)
    ensures forall q :: q in c && q !in Here(d) ==> SameNode(m, m', q)
    ensures Fd(m, d.p) in Here(d)
  {
    RestHere(d);
    var m1 := Cleared(m, x, bin);
    ClearedReads(m, x, bin);
    NodeFrame(m, m1, d, y, bin);
    ChainCleared(m1, m', d, x, y, bin, c);
    SameNodesTrans(m, m1, m', c - Here(d));
  }

  lemma SameNodesTrans(m: Mem, m1: Mem, m2: Mem, c: set<int>)
    requires SameNodes(m, m1, c) && SameNodes(m1, m2, c)
    ensures SameNodes(m, m2, c)
  {
  }

  lemma ChainWord(m: Mem, x: int, t: int, bin: int, b: int)
    requires OutsideNode(b, x) && OutsideNode(b, t) && OutsideNode(b, Fd(m, t)) && Sep(t, x)
    ensures Rd(Chain(Cleared(m, x, bin), x, t), b) == Rd(m, b)
  {
    ClearedReads(m, x, bin);
  }

  lemma ChainCleared(m: Mem, m': Mem, d: Tree, x: int, y: int, bin: int, c: set<int>)
    requires d.Node? && NodeWords(m, d, y, bin) && Distinct(d.p, d.rest) && Here(d) <= c && Spaced(c)
    requires x > 0 && SizeOf(Head(m, x)) == d.sz && forall q :: q in c ==> Sep(q, x)
    requires Left(m, x) == 0 && Right(m, x) == 0 && Index(m, x) == bin
    requires m' == Chain(m, x, d.p)
    ensures NodeWords(m', d.(rest := [x] + d.rest), y, bin)
    ensures forall q :: q in c && q !in Here(d) ==> SameNode(m, m', q)
    ensures Fd(m, d.p) in Here(d)
  {
    RestHere(d);
    var f, u := Fd(m, d.p), d.(rest := [x] + d.rest);
    assert Link(m, d.p, d.rest, 0);
    assert f == At(d.p, d.rest, 1) && f in Here(d) && Sep(f, x) && Sep(d.p, x) && (f == d.p || Sep(f, d.p));
    forall q | q in c
      ensures q != d.p && q != f ==> SameNode(m, m', q)
      ensures LinksOnly(m, m', q) && (q != d.p ==> Fd(m', q) == Fd(m, q)) && (q != f ==> Bk(m', q) == Bk(m, q))
    {
      ChainReads(m, x, d.p, f, q);
    }
    ChainNew(m, x, d.p, f);
    ChainedWords(m, m', d, u, x, f, y, bin);
  }

  lemma ChainedWords(m: Mem, m': Mem, d: Tree, u: Tree, x: int, f: int, y: int, bin: int)
    requires d.Node? && NodeWords(m, d, y, bin) && Distinct(d.p, [x] + d.rest) && u == d.(rest := [x] + d.rest)
    requires f == At(d.p, d.rest, 1) && x > 0 && SizeOf(Head(m, x)) == d.sz
    requires Fd(m', d.p) == x && Bk(m', f) == x && Fd(m', x) == f && Bk(m', x) == d.p
    requires Parent(m', x) == 0 && Left(m', x) == 0 && Right(m', x) == 0 && Index(m', x) == bin
    requires Head(m', x) == Head(m, x)
    requires forall q :: q in Here(d) ==>
      LinksOnly(m, m', q) && (q != d.p ==> Fd(m', q) == Fd(m, q)) && (q != f ==> Bk(m', q) == Bk(m, q))
    ensures NodeWords(m', u, y, bin)
  {
    RestHere(d);
    RestHere(u);
    RingPush(m, m', d.p, d.rest, x);
    assert forall q :: q in u.rest ==> q == x || q in d.rest;
  }

  lemma StoreOutside(m: Mem, m': Mem, a: int, v: int, q: int)
    requires m' == m[a := v] && OutsideNode(a, q)
    ensures SameNode(m, m', q)
  {
  }

  /** One more store: it is outside `q`, or writes the fd or the bk word of `q`. */
  lemma LinkStore(m: Mem, m1: Mem, m2: Mem, a: int, v: int, q: int)
    requires LinksOnly(m, m1, q) && m2 == m1[a := v] && (OutsideNode(a, q) || a == q + FD || a == q + BK)
    ensures LinksOnly(m, m2, q) && (a != q + FD ==> Fd(m2, q) == Fd(m1, q)) && (a != q + BK ==> Bk(m2, q) == Bk(m1, q))
  {
  }

  lemma LinksSame(m: Mem, q: int)
    ensures LinksOnly(m, m, q)
  {
  }

  lemma LinkWords(q: int, p: int)
    requires q == p || Sep(q, p)
    ensures OutsideNode(p + FD, q) || p == q
    ensures OutsideNode(p + BK, q) || p == q
    ensures q != p ==> p + FD != q + BK && p + BK != q + FD && p + FD != q + FD && p + BK != q + BK
  {
  }

  lemma ChainReads(m: Mem, x: int, t: int, f: int, q: int)
    requires f == Fd(m, t) && Sep(q, x) && (q == t || Sep(q, t)) && (q == f || Sep(q, f))
    ensures var m' := Chain(m, x, t);
            LinksOnly(m, m', q) && (q != t ==> Fd(m', q) == Fd(m, q)) && (q != f ==> Bk(m', q) == Bk(m, q))
  {
    hide LinksOnly, Sep, OutsideNode, Fd, Bk;
    var m1 := m[f + BK := x];
    var m2 := m1[t + FD := x];
    var m3 := m2[x + FD := f];
    var m4 := m3[x + BK := t];
    LinksSame(m, q);
    LinkWords(q, f);
    LinkWords(q, t);
    OutsideOf(x, q);
    LinkStore(m, m, m1, f + BK, x, q);
    LinkStore(m, m1, m2, t + FD, x, q);
    LinkStore(m, m2, m3, x + FD, f, q);
    LinkStore(m, m3, m4, x + BK, t, q);
    LinkStore(m, m4, m4[x + PARENT := 0], x + PARENT, 0, q);
  }

  lemma OutsideOf(x: int, q: int)
    requires Sep(q, x)
    ensures OutsideNode(x + FD, q) && OutsideNode(x + BK, q) && OutsideNode(x + PARENT, q)
    ensures x + FD != q + FD && x + FD != q + BK && x + BK != q + FD && x + BK != q + BK && x + PARENT != q + FD
    ensures x + PARENT != q + BK
  {
  }

  lemma ChainNew(m: Mem, x: int, t: int, f: int)
    requires f == Fd(m, t) && Sep(t, x) && Sep(f, x) && (t == f || Sep(t, f))
    ensures var m' := Chain(m, x, t);
            && Fd(m', t) == x && Bk(m', f) == x && Fd(m', x) == f && Bk(m', x) == t
            && Parent(m', x) == 0 && Left(m', x) == Left(m, x) && Right(m', x) == Right(m, x)
            && Index(m', x) == Index(m, x) && Head(m', x) == Head(m, x)
  {
  }
}
