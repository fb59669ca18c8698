/** Tries as the words of a tree bin hold them. */
module TreeWords {
  import opened BinIndex
  import opened Words
  import opened Rings
  import opened Tries

  /** The fields of one tree node and of the chunks chained to it. */
  ghost predicate NodeWords(m: Mem, t: Tree, parent: int, bin: int)
    requires t.Node?
  {
    && Parent(m, t.p) == parent && Left(m, t.p) == Ptr(t.l) && Right(m, t.p) == Ptr(t.r)
    && Ring(m, t.p, t.rest)
    && (forall q :: q in Here(t) ==> q > 0 && Index(m, q) == bin && SizeOf(Head(m, q)) == t.sz)
    && (forall q :: q in t.rest ==> Parent(m, q) == 0 && Left(m, q) == 0 && Right(m, q) == 0)
  }

  /** Memory `m` holds trie `t` below parent word `parent`. */
  ghost predicate TreeRep(m: Mem, t: Tree, parent: int, bin: int) {
    t.Node? ==> NodeWords(m, t, parent, bin) && TreeRep(m, t.l, t.p, bin) && TreeRep(m, t.r, t.p, bin)
  }

  /** The words of chunk `q` that a trie or ring reads. */
  ghost predicate SameNode(m: Mem, m': Mem, q: int) {
    && Head(m', q) == Head(m, q) && Fd(m', q) == Fd(m, q) && Bk(m', q) == Bk(m, q)
    && Left(m', q) == Left(m, q) && Right(m', q) == Right(m, q)
    && Parent(m', q) == Parent(m, q) && Index(m', q) == Index(m, q)
  }

  ghost predicate SameNodes(m: Mem, m': Mem, c: set<int>) {
    forall q :: q in c ==> SameNode(m, m', q)
  }

  lemma {:induction false} TreeFrame(m: Mem, m': Mem, t: Tree, parent: int, bin: int)
    requires TreeRep(m, t, parent, bin) && SameNodes(m, m', Elems(t))
    ensures TreeRep(m', t, parent, bin)
  {
    if t.Node? {
      NodeFrame(m, m', t, parent, bin);
      TreeFrame(m, m', t.l, t.p, bin);
      TreeFrame(m, m', t.r, t.p, bin);
    }
  }

  lemma NodeFrame(m: Mem, m': Mem, t: Tree, parent: int, bin: int)
    requires t.Node? && NodeWords(m, t, parent, bin) && SameNodes(m, m', Here(t))
    ensures NodeWords(m', t, parent, bin)
  {
    RestHere(t);
    RingFrame(m, m', t.p, t.rest);
  }

  lemma RestHere(t: Tree)
    requires t.Node?
    ensures t.p in Here(t) && forall q :: q in t.rest ==> q in Here(t)
    ensures forall q :: q in Here(t) ==> q == t.p || q in t.rest
  {
  }

  /** Of the words of `q` only the parent differs: it is `parent`. */
  ghost predicate Moved(m: Mem, m': Mem, q: int, parent: int) {
    && Head(m', q) == Head(m, q) && Fd(m', q) == Fd(m, q) && Bk(m', q) == Bk(m, q)
    && Left(m', q) == Left(m, q) && Right(m', q) == Right(m, q)
    && Parent(m', q) == parent && Index(m', q) == Index(m, q)
  }

  /** A subtree moves to a new parent. */
  lemma Reparent(m: Mem, m': Mem, t: Tree, parent: int, parent': int, bin: int)
    requires t.Node? && TreeRep(m, t, parent, bin)
    requires SameNodes(m, m', Elems(t) - {t.p})
    requires Moved(m, m', t.p, parent')
    requires t.p !in Elems(t.l) && t.p !in Elems(t.r) && t.p !in t.rest
    ensures TreeRep(m', t, parent', bin)
  {
    RestHere(t);
    assert SameNodes(m, m', Elems(t.l)) && SameNodes(m, m', Elems(t.r));
    TreeFrame(m, m', t.l, t.p, bin);
    TreeFrame(m, m', t.r, t.p, bin);
    assert forall q :: q in t.rest ==> SameNode(m, m', q);
    NodeReparent(m, m', t, parent, parent', bin);
  }

  lemma NodeReparent(m: Mem, m': Mem, t: Tree, parent: int, parent': int, bin: int)
    requires t.Node? && NodeWords(m, t, parent, bin)
    requires forall q :: q in t.rest ==> SameNode(m, m', q)
    requires Moved(m, m', t.p, parent')
    ensures NodeWords(m', t, parent', bin)
  {
    RestHere(t);
    RingFrame(m, m', t.p, t.rest);
  }

  /** Chunks of tree bins are aligned and far enough apart for their fields not to overlap. */
  ghost predicate Spaced(c: set<int>) {
    && (forall q :: q in c ==> q % 8 == 0)
    && (forall p, q :: p in c && q in c && p != q ==> p + 32 <= q || q + 32 <= p)
  }

  predicate OutsideNode(a: int, q: int) { !(q + HEAD <= a <= q + INDEX) }

  // ----- the slot that holds a subtree

  /** Address of the word that points to the subtree the search for `s` reaches. */
  function DownSlot(t: Tree, lo: int, k: nat, s: int, slot: int): int
  {
    if t.Nil? || t.sz == s || k == 0 then slot
    else if s < lo + Pow2(k) then DownSlot(t.l, lo, k - 1, s, t.p + LEFT)
    else DownSlot(t.r, lo + Pow2(k), k - 1, s, t.p + RIGHT)
  }

  function DownParent(t: Tree, lo: int, k: nat, s: int, parent: int): int
  {
    if t.Nil? || t.sz == s || k == 0 then parent
    else if s < lo + Pow2(k) then DownParent(t.l, lo, k - 1, s, t.p)
    else DownParent(t.r, lo + Pow2(k), k - 1, s, t.p)
  }

  lemma {:induction false} DownRep(m: Mem, t: Tree, lo: int, k: nat, s: int, slot: int, parent: int, bin: int)
    requires TreeRep(m, t, parent, bin) && Rd(m, slot) == Ptr(t)
    ensures TreeRep(m, Down(t, lo, k, s), DownParent(t, lo, k, s, parent), bin)
    ensures Rd(m, DownSlot(t, lo, k, s, slot)) == Ptr(Down(t, lo, k, s))
    decreases t
  {
    if t.Nil? || t.sz == s || k == 0 {
    } else if s < lo + Pow2(k) {
      DownRep(m, t.l, lo, k - 1, s, t.p + LEFT, t.p, bin);
    } else {
      DownRep(m, t.r, lo + Pow2(k), k - 1, s, t.p + RIGHT, t.p, bin);
    }
  }

  /** The slot of a subtree is the tree's own or a child word of a chunk of the tree. */
  lemma {:induction false} SlotPlace(t: Tree, lo: int, k: nat, s: int, slot: int, parent: int)
    ensures var a, x := DownSlot(t, lo, k, s, slot), DownParent(t, lo, k, s, parent);
            (a == slot && x == parent && Down(t, lo, k, s) == t) || (x in Elems(t) && (a == x + LEFT || a == x + RIGHT))
    decreases t
  {
    if t.Nil? || t.sz == s || k == 0 {
    } else if s < lo + Pow2(k) {
      SlotPlace(t.l, lo, k - 1, s, t.p + LEFT, t.p);
    } else {
      SlotPlace(t.r, lo + Pow2(k), k - 1, s, t.p + RIGHT, t.p);
    }
  }

  /** The chunks of a node and of its two subtrees are different chunks, all the way down. */
  ghost predicate Apart(t: Tree) {
    t.Node? ==>
      && Elems(t.l) !! Elems(t.r) && Elems(t.l) !! Here(t) && Elems(t.r) !! Here(t) && t.p !in t.rest
      && Apart(t.l) && Apart(t.r)
  }

  lemma {:induction false} TrieApart(t: Tree, lo: int, k: nat, inv: map<int, int>)
    requires Trie(t, lo, k) && Sized(t, inv)
    ensures Apart(t)
    decreases t
  {
    if t.Node? {
      SidesDisjoint(t, lo, k, inv);
      if k > 2 {
        TrieApart(t.l, lo, k - 1, inv);
        TrieApart(t.r, lo + Pow2(k), k - 1, inv);
      }
    }
  }

  /** From the words alone: unless it is the root, the slot of a reached node is the child word
      of its parent that points to it. */
  lemma {:induction false} SlotFromWords(m: Mem, t: Tree, lo: int, k: nat, s: int, slot: int, parent: int, bin: int)
    requires Apart(t) && Down(t, lo, k, s).Node?
    requires TreeRep(m, t, parent, bin)
    ensures var x, a := Down(t, lo, k, s).p, DownSlot(t, lo, k, s, slot);
            if x == t.p then a == slot && Parent(m, x) == parent && Down(t, lo, k, s) == t
            else Parent(m, x) in Elems(t) && a == Parent(m, x) + if Left(m, Parent(m, x)) == x then LEFT else RIGHT
    decreases t
  {
    hide Pow2, Here;
    if t.Nil? || t.sz == s || k == 0 {
    } else if s < lo + Pow2(k) {
      SlotFromWords(m, t.l, lo, k - 1, s, t.p + LEFT, t.p, bin);
      SlotBelow(m, t, t.l, Down(t.l, lo, k - 1, s), parent, bin) by { DownSubset(t.l, lo, k - 1, s); }
    } else {
      SlotFromWords(m, t.r, lo + Pow2(k), k - 1, s, t.p + RIGHT, t.p, bin);
      SlotBelow(m, t, t.r, Down(t.r, lo + Pow2(k), k - 1, s), parent,
        bin) by { DownSubset(t.r, lo + Pow2(k), k - 1, s); }
    }
  }

  /** A node `d` under one child of `t`: it is not t's own, and t's child words tell the sides apart. */
  lemma SlotBelow(m: Mem, t: Tree, side: Tree, d: Tree, parent: int, bin: int)
    requires t.Node? && Apart(t) && TreeRep(m, t, parent, bin) && (side == t.l || side == t.r)
    requires d.Node? && Elems(d) <= Elems(side)
    ensures d.p != t.p && t.p in Elems(t) && Elems(side) <= Elems(t)
    ensures side.Node? && Left(m, t.p) == Ptr(t.l) && (d.p == side.p && side == t.r ==> Left(m, t.p) != d.p)
  {
    RestHere(d);
    assert d.p in Elems(side);
    if t.l.Node? { RestHere(t.l); }
  }

  /** The words of `q` are kept, except that `slot` may be one of its child words. */
  ghost predicate KeptButSlot(m: Mem, m': Mem, q: int, slot: int) {
    && Head(m', q) == Head(m, q) && Fd(m', q) == Fd(m, q) && Bk(m', q) == Bk(m, q)
    && (slot != q + LEFT ==> Left(m', q) == Left(m, q)) && (slot != q + RIGHT ==> Right(m', q) == Right(m, q))
    && Parent(m', q) == Parent(m, q) && Index(m', q) == Index(m, q)
  }

  ghost predicate AllKept(m: Mem, m': Mem, c: set<int>, slot: int) {
    forall q :: q in c ==> KeptButSlot(m, m', q, slot)
  }

  ghost predicate Aligned(c: set<int>) {
    forall q :: q in c ==> q % 8 == 0
  }

  ghost predicate NoChildWord(a: int, c: set<int>) {
    forall q :: q in c ==> a != q + LEFT && a != q + RIGHT
  }

  lemma ChildWordsOutside(p: int, c: set<int>)
    requires p % 8 == 0 && p !in c && Aligned(c)
    ensures NoChildWord(p + LEFT, c) && NoChildWord(p + RIGHT, c)
  {
  }

  /** Where the search for `s` in `t` stops: the subtree there, the word that points to it, its parent. */
  ghost predicate Reaches(t: Tree, lo: int, k: nat, s: int, slot: int, parent: int, cut: Tree, a: int, x: int) {
    cut == Down(t, lo, k, s) && a == DownSlot(t, lo, k, s, slot) && x == DownParent(t, lo, k, s, parent)
  }

  /** Replacing the subtree at a slot replaces it in the whole trie. */
  lemma {:induction false} PutRep(m: Mem, m': Mem, t: Tree, lo: int, k: nat, s: int, u: Tree, slot: int, parent: int,
        bin: int, cut: Tree, a: int, x: int)
    requires Reaches(t, lo, k, s, slot, parent, cut, a, x)
    requires Apart(t) && Aligned(Elems(t)) && TreeRep(m, t, parent, bin) && Rd(m, slot) == Ptr(t)
    requires TreeRep(m', u, x, bin) && Rd(m', a) == Ptr(u)
    requires AllKept(m, m', Elems(t) - Elems(cut), a)
    requires NoChildWord(slot, Elems(t)) && (slot != a ==> Rd(m', slot) == Rd(m, slot))
    ensures TreeRep(m', Put(t, lo, k, s, u), parent, bin) && Rd(m', slot) == Ptr(Put(t, lo, k, s, u))
    decreases t
  {
    hide TreeRep, Rd, Apart;
    if t.Nil? || t.sz == s || k == 0 {
    } else if s < lo + Pow2(k) {
      PutRepLeft(m, m', t, lo, k - 1, s, u, parent, bin, cut, a, x);
    } else {
      PutRepRight(m, m', t, lo + Pow2(k), k - 1, s, u, parent, bin, cut, a, x);
    }
  }

  lemma {:induction false} PutRepLeft(m: Mem, m': Mem, t: Tree, lo: int, k: nat, s: int, u: Tree, parent: int,
        bin: int, cut: Tree, a: int, x: int)
    requires t.Node? && Reaches(t.l, lo, k, s, t.p + LEFT, t.p, cut, a, x)
    requires Apart(t) && Aligned(Elems(t)) && TreeRep(m, t, parent, bin)
    requires TreeRep(m', u, x, bin) && Rd(m', a) == Ptr(u)
    requires AllKept(m, m', Elems(t) - Elems(cut), a)
    ensures TreeRep(m', t.(l := Put(t.l, lo, k, s, u)), parent, bin)
    ensures exists q :: q in Elems(t) && (a == q + LEFT || a == q + RIGHT)
    decreases t, 0
  {
    hide TreeRep, Apart, NodeWords, Rd, Ptr, Elems, Here, AllKept, NoChildWord, Down, DownSlot, DownParent, Put;
    NodeParts(m, t, parent, bin);
    assert Elems(cut) <= Elems(t.l) by { DownSubset(t.l, lo, k, s); }
    SlotPlace(t.l, lo, k, s, t.p + LEFT, t.p);
    assert t.p in Here(t) && x in Elems(t);
    KeptParts(m, m', t, Elems(t.l), Elems(t.r), Elems(cut), a);
    ChildWordsOutside(t.p, Elems(t.l));
    ChildKept(m, m', Here(t), a, t.p);
    PutRep(m, m', t.l, lo, k, s, u, t.p + LEFT, t.p, bin, cut, a, x);
    WithLeft(m, m', t, Put(t.l, lo, k, s, u), parent, bin, a, x);
  }

  lemma {:induction false} PutRepRight(m: Mem, m': Mem, t: Tree, lo: int, k: nat, s: int, u: Tree, parent: int,
        bin: int, cut: Tree, a: int, x: int)
    requires t.Node? && Reaches(t.r, lo, k, s, t.p + RIGHT, t.p, cut, a, x)
    requires Apart(t) && Aligned(Elems(t)) && TreeRep(m, t, parent, bin)
    requires TreeRep(m', u, x, bin) && Rd(m', a) == Ptr(u)
    requires AllKept(m, m', Elems(t) - Elems(cut), a)
    ensures TreeRep(m', t.(r := Put(t.r, lo, k, s, u)), parent, bin)
    ensures exists q :: q in Elems(t) && (a == q + LEFT || a == q + RIGHT)
    decreases t, 0
  {
    hide TreeRep, Apart, NodeWords, Rd, Ptr, Elems, Here, AllKept, NoChildWord, Down, DownSlot, DownParent, Put;
    NodeParts(m, t, parent, bin);
    assert Elems(cut) <= Elems(t.r) by { DownSubset(t.r, lo, k, s); }
    SlotPlace(t.r, lo, k, s, t.p + RIGHT, t.p);
    assert t.p in Here(t) && x in Elems(t);
    KeptParts(m, m', t, Elems(t.r), Elems(t.l), Elems(cut), a);
    ChildWordsOutside(t.p, Elems(t.r));
    ChildKept(m, m', Here(t), a, t.p);
    PutRep(m, m', t.r, lo, k, s, u, t.p + RIGHT, t.p, bin, cut, a, x);
    WithRight(m, m', t, Put(t.r, lo, k, s, u), parent, bin, a, x);
  }

  /** What the words of a node and of its two subtrees give. */
  lemma NodeParts(m: Mem, t: Tree, parent: int, bin: int)
    requires t.Node? && Apart(t) && TreeRep(m, t, parent, bin)
    ensures NodeWords(m, t, parent, bin) && TreeRep(m, t.l, t.p, bin) && TreeRep(m, t.r, t.p, bin)
    ensures Rd(m, t.p + LEFT) == Ptr(t.l) && Rd(m, t.p + RIGHT) == Ptr(t.r)
    ensures Elems(t.l) !! Elems(t.r) && Elems(t.l) !! Here(t) && Elems(t.r) !! Here(t) && t.p !in t.rest && Apart(t.l)
    ensures Apart(t.r)
    ensures Elems(t) == Here(t) + Elems(t.l) + Elems(t.r) && t.p in Here(t)
  {
  }

  lemma ChildKept(m: Mem, m': Mem, c: set<int>, a: int, p: int)
    requires AllKept(m, m', c, a) && p in c
    ensures a != p + LEFT ==> Rd(m', p + LEFT) == Rd(m, p + LEFT)
    ensures a != p + RIGHT ==> Rd(m', p + RIGHT) == Rd(m, p + RIGHT)
  {
    assert KeptButSlot(m, m', p, a);
  }

  lemma KeptParts(m: Mem, m': Mem, t: Tree, side: set<int>, other: set<int>, cut: set<int>, a: int)
    requires t.Node? && Elems(t) == Here(t) + side + other && cut <= side && side !! other && side !! Here(t)
    requires AllKept(m, m', Elems(t) - cut, a) && Aligned(Elems(t))
    ensures AllKept(m, m', side - cut, a) && AllKept(m, m', other, a) && AllKept(m, m', Here(t), a)
    ensures Aligned(side) && Aligned(other) && Aligned(Here(t))
  {
  }

  lemma WithLeft(m: Mem, m': Mem, t: Tree, l': Tree, parent: int, bin: int, a: int, x: int)
    requires t.Node? && NodeWords(m, t, parent, bin) && TreeRep(m, t.r, t.p, bin)
    requires TreeRep(m', l', t.p, bin) && Rd(m', t.p + LEFT) == Ptr(l')
    requires AllKept(m, m', Here(t), a) && AllKept(m, m', Elems(t.r), a)
    requires Aligned(Elems(t.r)) && Aligned(Here(t)) && x % 8 == 0 && t.p !in t.rest
    requires (a == t.p + LEFT && x == t.p) || ((a == x + LEFT || a == x + RIGHT) && x !in Here(t))
    requires x !in Elems(t.r)
    ensures TreeRep(m', t.(l := l'), parent, bin)
  {
    RestHere(t);
    assert KeptButSlot(m, m', t.p, a);
    SideKept(m, m', t.r, t.p, bin, a, x);
    NodeBesideSlot(m, m', t, t.(l := l'), parent, bin, a);
  }

  lemma WithRight(m: Mem, m': Mem, t: Tree, r': Tree, parent: int, bin: int, a: int, x: int)
    requires t.Node? && NodeWords(m, t, parent, bin) && TreeRep(m, t.l, t.p, bin)
    requires TreeRep(m', r', t.p, bin) && Rd(m', t.p + RIGHT) == Ptr(r')
    requires AllKept(m, m', Here(t), a) && AllKept(m, m', Elems(t.l), a)
    requires Aligned(Elems(t.l)) && Aligned(Here(t)) && x % 8 == 0 && t.p !in t.rest
    requires (a == t.p + RIGHT && x == t.p) || ((a == x + LEFT || a == x + RIGHT) && x !in Here(t))
    requires x !in Elems(t.l)
    ensures TreeRep(m', t.(r := r'), parent, bin)
  {
    RestHere(t);
    assert KeptButSlot(m, m', t.p, a);
    SideKept(m, m', t.l, t.p, bin, a, x);
    NodeBesideSlot(m, m', t, t.(r := r'), parent, bin, a);
  }

  /** A child slot of a chunk that is not in a subtree leaves the subtree alone. */
  lemma SideKept(m: Mem, m': Mem, t: Tree, parent: int, bin: int, a: int, x: int)
    requires TreeRep(m, t, parent, bin) && x !in Elems(t) && Aligned(Elems(t)) && x % 8 == 0
    requires a == x + LEFT || a == x + RIGHT
    requires AllKept(m, m', Elems(t), a)
    ensures TreeRep(m', t, parent, bin)
  {
    forall q | q in Elems(t)
      ensures SameNode(m, m', q)
    {
      assert KeptButSlot(m, m', q, a);
    }
    TreeFrame(m, m', t, parent, bin);
  }

  /** A node whose chunks keep everything but one child word. */
  lemma NodeBesideSlot(m: Mem, m': Mem, t: Tree, t': Tree, parent: int, bin: int, a: int)
    requires t.Node? && t'.Node? && NodeWords(m, t, parent, bin)
    requires t'.p == t.p && t'.sz == t.sz && t'.rest == t.rest
    requires AllKept(m, m', Here(t), a)
    requires forall q :: q in t.rest ==> a != q + LEFT && a != q + RIGHT
    requires Left(m', t.p) == Ptr(t'.l) && Right(m', t.p) == Ptr(t'.r)
    ensures NodeWords(m', t', parent, bin)
  {
    RestHere(t);
    RingFrame(m, m', t.p, t.rest);
  }
}
