/** What unlink_large_chunk reads and where it stores, case by case. */
module UnlinkReads {
  import opened BinIndex
  import opened Words
  import opened Rings
  import opened Tries
  import opened TreeWords
  import opened TreeUnlink
  import opened Bins

  /** All link words of the chunks in `c` lie in the segment, at or above `first`. */
  ghost predicate InReach(m: Mem, c: set<int>, first: int) {
    forall q :: q in c ==> NodeMapped(m, q) && q >= first && q != 0
  }

  /** Detaching the replacement of `d` has not touched what is read next: the bin's word, x's
      index and the child word of x's parent. */
  ghost predicate Untouched(m: Mem, m1: Mem, t: Tree, d: Tree, h: int, y: int)
    requires d.Node?
  {
    && m1.Keys == m.Keys && Rd(m1, h) == Rd(m, h) && Index(m1, d.p) == Index(m, d.p)
    && (y in Elems(t) && y !in Elems(d) ==> Left(m1, y) == Left(m, y))
  }

  /** The stores that give `x`'s parent and children to `r` stay in the segment. */
  ghost predicate AdoptMapped(m: Mem, x: int, r: int, y: int, first: int) {
    var m1 := m[r + PARENT := y];
    var m2 := AdoptLeft(m1, x, r);
    && r != 0 && r >= first && NodeMapped(m, r)
    && (Left(m1, x) != 0 ==> Left(m1, x) >= first && NodeMapped(m, Left(m1, x)))
    && (Right(m2, x) != 0 ==> Right(m2, x) >= first && NodeMapped(m, Right(m2, x)))
  }

  lemma AdoptWords(m1: Mem, c: set<int>, d: Tree, u: Tree, a: int, y: int, first: int)
    requires Spaced(c) && d.Node? && u.Node? && d.p in c && Elems(u) <= c - {d.p} && Apart(u) && InReach(m1, c, first)
    requires OutsideNode(a, d.p) && OutsideNode(a, u.p) && a in m1
    requires Left(m1, d.p) == Ptr(u.l) && Right(m1, d.p) == Ptr(u.r) && Left(m1, u.p) == 0
    ensures AdoptMapped(m1[a := u.p], d.p, u.p, y, first)
  {
    hide NodeMapped, Apart, Elems;
    ElemsPtr(u);
    assert Sep(d.p, u.p) && (u.l.Node? ==> Sep(u.l.p, d.p) && Sep(u.l.p, u.p)) by { AdoptSeparate(c, d.p, u); }
    PlaceReads(m1, d.p, u.p, Ptr(u.l), Ptr(u.r), a, y);
    SameKeys(m1, a, u.p, u.p);
    if u.l.Node? { SameKeys(m1, a, u.p, u.l.p); }
    if u.r.Node? { SameKeys(m1, a, u.p, u.r.p); }
  }

  lemma SameKeys(m: Mem, a: int, v: int, q: int)
    requires NodeMapped(m, q) && a in m
    ensures NodeMapped(m[a := v], q)
  {
  }

  lemma PlaceReads(m1: Mem, x: int, r: int, l: int, rr: int, a: int, y: int)
    requires OutsideNode(a, x) && OutsideNode(a, r) && Sep(x, r) && (l != 0 ==> Sep(l, x) && Sep(l, r))
    requires Left(m1, x) == l && Right(m1, x) == rr && Left(m1, r) == 0
    ensures var m3 := m1[a := r][r + PARENT := y]; Left(m3, x) == l && Right(AdoptLeft(m3, x, r), x) == rr
  {
    hide AdoptLeft;
    var m2 := m1[a := r];
    StoreOutside(m1, m2, a, r, x);
    StoreOutside(m1, m2, a, r, r);
    SetParentReads(m2, r, y);
    AdoptLeftReads(m2[r + PARENT := y], x, r, l);
  }

  lemma HeadCase(m: Mem, t: Tree, lo: int, k: nat, h: int, bin: int, inv: Inventory, s: int, first: int)
    requires TreeAt(m, t, lo, k, h, bin, inv) && Fits(s, lo, k) && Down(t, lo, k, s).Node?
    requires Down(t, lo, k, s).rest != []
    requires InReach(m, Elems(t), first) && h in m
    ensures var d, a, y := Down(t, lo, k, s), DownSlot(t, lo, k, s, h), DownParent(t, lo, k, s, h);
            var m1, u := RingStores(m, d.p), Drop(d, d.p);
            && RingMapped(m, d.p) && Fd(m, d.p) >= first && Untouched(m, m1, t, d, h, y) && a in m
            && AdoptMapped(m1[a := u.p], d.p, u.p, y, first)
  {
    hide Trie, Sized, TreeRep, Down, DownSlot, DownParent, Fits, Pow2, Elems, Drop, AdoptMapped, NodeMapped, Ring;
    var d, a, y, c := Down(t, lo, k, s), DownSlot(t, lo, k, s, h), DownParent(t, lo, k, s, h), Elems(t);
    var m1, u := RingStores(m, d.p), Drop(d, d.p);
    NodeContext(m, t, lo, k, h, bin, inv, s);
    SlotMapped(m, t, lo, k, s, h, first);
    HereWithin(d, c);
    HeadRep(m, d, y, bin, c, inv);
    HeadChildren(m, d, y, bin, c);
    DropApart(d, DownLo(t, lo, k, s), DownK(t, lo, k, s), inv);
    HereWithin(u, Elems(u));
    RingKeys(m, d.p, c, first);
    RingStoresElsewhere(m, d.p, Here(d), h);
    AdoptWords(m1, c, d, u, a, y, first);
  }

  lemma HereWithin(d: Tree, c: set<int>)
    requires d.Node? && Elems(d) <= c
    ensures d.p in Here(d) && d.p in Elems(d) && Here(d) <= c && forall q :: q in Here(d) ==> q in c
  {
    RestHere(d);
  }

  lemma HeadRep(m: Mem, d: Tree, y: int, bin: int, c: set<int>, inv: Inventory)
    requires d.Node? && d.rest != [] && TreeRep(m, d, y, bin) && Sized(d, inv) && Spaced(c) && Elems(d) <= c
    ensures var m1, u := RingStores(m, d.p), Drop(d, d.p);
            && Fd(m, d.p) in Here(d) && Bk(m, d.p) in Here(d) && LinksOnly(m, m1, d.p) && u.Node? && Left(m1, u.p) == 0
            && (forall q :: q in c && q !in Here(d) ==> SameNode(m, m1, q))
  {
    HereWithin(d, c);
    DropHeadDetached(m, d, y, bin, c);
  }

  lemma RingKeys(m: Mem, x: int, c: set<int>, first: int)
    requires Fd(m, x) in c && Bk(m, x) in c && InReach(m, c, first)
    ensures RingMapped(m, x) && Fd(m, x) >= first && RingStores(m, x).Keys == m.Keys
    ensures InReach(RingStores(m, x), c, first)
  {
    var f, b := Fd(m, x), Bk(m, x);
    assert NodeMapped(m, f) && NodeMapped(m, b);
    var m1 := RingStores(m, x);
    assert m1.Keys == m.Keys;
    KeysReach(m, m1, c, first);
  }

  lemma KeysReach(m: Mem, m1: Mem, c: set<int>, first: int)
    requires InReach(m, c, first) && m1.Keys == m.Keys
    ensures InReach(m1, c, first)
  {
    forall q | q in c
      ensures NodeMapped(m1, q) && q >= first && q != 0
    {
      assert NodeMapped(m, q);
      KeysNode(m, m1, q);
    }
  }

  lemma KeysNode(m: Mem, m1: Mem, q: int)
    requires NodeMapped(m, q) && m1.Keys == m.Keys
    ensures NodeMapped(m1, q)
  {
  }

  lemma SlotMapped(m: Mem, t: Tree, lo: int, k: nat, s: int, h: int, first: int)
    requires InReach(m, Elems(t), first) && h in m
    ensures DownSlot(t, lo, k, s, h) in m
  {
    hide Elems;
    SlotPlace(t, lo, k, s, h, h);
  }

  lemma LeafCase(m: Mem, t: Tree, lo: int, k: nat, h: int, bin: int, inv: Inventory, s: int, first: int)
    requires TreeAt(m, t, lo, k, h, bin, inv) && Fits(s, lo, k) && Down(t, lo, k, s).Node?
    requires Down(t, lo, k, s).rest == []
    requires Drop(Down(t, lo, k, s), Down(t, lo, k, s).p).Node?
    requires InReach(m, Elems(t), first) && h in m
    ensures var d, a, y := Down(t, lo, k, s), DownSlot(t, lo, k, s, h), DownParent(t, lo, k, s, h);
            var cut := CutSlot(d, d.r.Node?);
            var m1, u := m[cut := 0], Drop(d, d.p);
            && cut in m && cut >= first && Untouched(m, m1, t, d, h, y) && a in m
            && AdoptMapped(m1[a := u.p], d.p, u.p, y, first)
  {
    hide Trie, Sized, TreeRep, Down, DownSlot, DownParent, Fits, Pow2, Elems, Drop, AdoptMapped, NodeMapped, Ring,
      CutSlot;
    var d, a, y, c := Down(t, lo, k, s), DownSlot(t, lo, k, s, h), DownParent(t, lo, k, s, h), Elems(t);
    var cut := CutSlot(d, d.r.Node?);
    var m1, u := m[cut := 0], Drop(d, d.p);
    NodeContext(m, t, lo, k, h, bin, inv, s);
    SlotMapped(m, t, lo, k, s, h, first);
    HereWithin(d, c);
    LeafRepFacts(m, d, DownLo(t, lo, k, s), DownK(t, lo, k, s), y, bin);
    DropApart(d, DownLo(t, lo, k, s), DownK(t, lo, k, s), inv);
    HereWithin(u, Elems(u));
    CutMapped(m, d, d.r.Node?, c, first);
    CutKeys(m, cut);
    KeysReach(m, m1, c, first);
    CutElsewhere(m, t, d, h);
    assert y in Elems(t) && y !in Elems(d) ==> y in Elems(t) - Elems(d);
    AdoptWords(m1, c, d, u, a, y, first);
  }

  lemma CutKeys(m: Mem, a: int)
    requires a in m
    ensures m[a := 0].Keys == m.Keys
  {
  }

  lemma LeafRepFacts(m: Mem, d: Tree, lo: int, k: nat, y: int, bin: int)
    requires d.Node? && d.rest == [] && Trie(d, lo, k) && Apart(d) && Spaced(Elems(d)) && TreeRep(m, d, y, bin)
    requires Drop(d, d.p).Node?
    ensures var m1, u := m[CutSlot(d, d.r.Node?) := 0], Drop(d, d.p);
            Left(m1, d.p) == Ptr(u.l) && Right(m1, d.p) == Ptr(u.r) && Left(m1, u.p) == 0
              && Index(m1, d.p) == Index(m, d.p)
    ensures d.r.Node? || d.l.Node?
  {
    hide Trie, Apart, TreeRep, CutSlot, Elems;
    DropLeafDetached(m, d, lo, k, y, bin, d.r.Node?);
    CutIndex(m, d, d.r.Node?);
  }

  lemma CutIndex(m: Mem, d: Tree, right: bool)
    requires d.Node? && Spaced(Elems(d)) && (if right then d.r.Node? else d.l.Node?)
    ensures Index(m[CutSlot(d, right) := 0], d.p) == Index(m, d.p)
  {
    var x := CutSlotPlace(d, right);
    RestHere(d);
    assert d.p in Elems(d) && x in Elems(d);
    if x != d.p { assert Sep(x, d.p); }
  }

  lemma CutMapped(m: Mem, d: Tree, right: bool, c: set<int>, first: int)
    requires d.Node? && (if right then d.r.Node? else d.l.Node?) && Elems(d) <= c && InReach(m, c, first)
    ensures CutSlot(d, right) in m && CutSlot(d, right) >= first
  {
    var x := CutSlotPlace(d, right);
    RestHere(d);
    assert x in Elems(d);
    assert NodeMapped(m, x);
  }

  /** Replacing at the root replaces the whole trie; elsewhere the trie keeps its root. */
  lemma PutAtRoot(t: Tree, lo: int, k: nat, s: int, u: Tree)
    requires Apart(t) && Down(t, lo, k, s).Node?
    ensures if Down(t, lo, k, s).p == t.p then Put(t, lo, k, s, u) == u else Put(t, lo, k, s, u).Node?
  {
    if !(t.Nil? || t.sz == s || k == 0) {
      RestHere(t);
      if s < lo + Pow2(k) {
        DownSubset(t.l, lo, k - 1, s);
        RestHere(Down(t.l, lo, k - 1, s));
      } else {
        DownSubset(t.r, lo + Pow2(k), k - 1, s);
        RestHere(Down(t.r, lo + Pow2(k), k - 1, s));
      }
    }
  }
}
