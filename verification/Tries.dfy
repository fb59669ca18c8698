/** The bitwise tries of a tree bin: as values, what searching, inserting and unlinking do to them. */
module Tries {
  import opened Machine
  import opened BinIndex
  import opened Rings

  /** A tree of chunks. `p` is the chunk in the tree, `rest` the other chunks of its size in
      ring order, `sz` that size. */
  datatype Tree = Nil | Node(p: int, sz: int, rest: seq<int>, l: Tree, r: Tree)

  function Ptr(t: Tree): int { if t.Node? then t.p else 0 }

  /** The chunks of one tree node. */
  function Here(t: Tree): set<int> {
    if t.Node? then {t.p} + (set q | q in t.rest) else {}
  }

  function Elems(t: Tree): set<int> {
    if t.Nil? then {} else Here(t) + Elems(t.l) + Elems(t.r)
  }

  function Sizes(t: Tree): set<int> {
    if t.Nil? then {} else {t.sz} + Sizes(t.l) + Sizes(t.r)
  }

  /** `t` is a trie over the sizes in [lo, lo + 2^(k+1)): the bit of weight 2^k sends a size
      left or right, no size occurs twice. */
  ghost predicate Trie(t: Tree, lo: int, k: nat) {
    t.Node? ==>
      && k >= 2 && (k == 2 ==> t.l.Nil? && t.r.Nil?)
      && lo % 8 == 0 && t.sz % 8 == 0 && lo <= t.sz < lo + 2 * Pow2(k)
      && t.sz !in Sizes(t.l) && t.sz !in Sizes(t.r)
      && (k > 2 ==> Trie(t.l, lo, k - 1) && Trie(t.r, lo + Pow2(k), k - 1))
  }

  /** Every chunk of `t` has, in the inventory of binned chunks, the size of its node. */
  ghost predicate Sized(t: Tree, inv: map<int, int>) {
    t.Node? ==>
      && (forall q :: q in Here(t) ==> q in inv && inv[q] == t.sz)
      && Distinct(t.p, t.rest)
      && Sized(t.l, inv) && Sized(t.r, inv)
  }

  lemma {:induction false} SizesInRange(t: Tree, lo: int, k: nat, s: int)
    requires Trie(t, lo, k) && s in Sizes(t)
    ensures lo <= s < lo + 2 * Pow2(k)
  {
    if s == t.sz {
    } else if s in Sizes(t.l) {
      SizesInRange(t.l, lo, k - 1, s);
    } else {
      SizesInRange(t.r, lo + Pow2(k), k - 1, s);
    }
  }

  lemma {:induction false} ElemSize(t: Tree, inv: map<int, int>, q: int)
    requires Sized(t, inv) && q in Elems(t)
    ensures q in inv && inv[q] in Sizes(t)
  {
    if q in Here(t) {
    } else if q in Elems(t.l) {
      ElemSize(t.l, inv, q);
    } else {
      ElemSize(t.r, inv, q);
    }
  }

  lemma {:induction false} SizeElem(t: Tree, inv: map<int, int>, s: int) returns (q: int)
    requires Sized(t, inv) && s in Sizes(t)
    ensures q in Elems(t) && q in inv && inv[q] == s
  {
    if s == t.sz {
      q := t.p;
    } else if s in Sizes(t.l) {
      q := SizeElem(t.l, inv, s);
    } else {
      q := SizeElem(t.r, inv, s);
    }
  }

  // ----- following the bits of a size

  /** Where the search for size `s` stops: at the node of that size, or where it would hang. */
  function Down(t: Tree, lo: int, k: nat, s: int): Tree
  {
    if t.Nil? || t.sz == s || k == 0 then t
    else if s < lo + Pow2(k) then Down(t.l, lo, k - 1, s)
    else Down(t.r, lo + Pow2(k), k - 1, s)
  }

  function DownLo(t: Tree, lo: int, k: nat, s: int): int
  {
    if t.Nil? || t.sz == s || k == 0 then lo
    else if s < lo + Pow2(k) then DownLo(t.l, lo, k - 1, s)
    else DownLo(t.r, lo + Pow2(k), k - 1, s)
  }

  function DownK(t: Tree, lo: int, k: nat, s: int): nat
  {
    if t.Nil? || t.sz == s || k == 0 then k
    else if s < lo + Pow2(k) then DownK(t.l, lo, k - 1, s)
    else DownK(t.r, lo + Pow2(k), k - 1, s)
  }

  /** `t` with the subtree that the search for `s` reaches replaced by `u`. */
  function Put(t: Tree, lo: int, k: nat, s: int, u: Tree): Tree
  {
    if t.Nil? || t.sz == s || k == 0 then u
    else if s < lo + Pow2(k) then t.(l := Put(t.l, lo, k - 1, s, u))
    else t.(r := Put(t.r, lo + Pow2(k), k - 1, s, u))
  }

  /** A size that an aligned trie position can hold. */
  predicate Fits(s: int, lo: int, k: nat) {
    k >= 2 && lo % 8 == 0 && s % 8 == 0 && lo <= s < lo + 2 * Pow2(k)
  }

  /** Below the position of width 8 there is room for one size only. */
  lemma FitsBelow(t: Tree, lo: int, k: nat, s: int)
    requires Trie(t, lo, k) && Fits(s, lo, k) && t.Node? && t.sz != s
    ensures k > 2
    ensures s < lo + Pow2(k) ==> Fits(s, lo, k - 1)
    ensures s >= lo + Pow2(k) ==> Fits(s, lo + Pow2(k), k - 1)
  {
    hide Sizes;
    assert Pow2(2) == 4 by { Pow2Table(); }
    if k > 2 { EightDivides(k); }
  }

  lemma EightDivides(k: nat)
    requires k > 2
    ensures Pow2(k) % 8 == 0
  {
    var e := Pow2(k - 3);
    assert Pow2(k - 2) == 2 * e;
    assert Pow2(k - 1) == 4 * e;
    assert Pow2(k) == 8 * e;
  }

  lemma {:induction false} DownFits(t: Tree, lo: int, k: nat, s: int)
    requires Trie(t, lo, k) && Fits(s, lo, k)
    ensures var u := Down(t, lo, k, s); u.Node? ==> u.sz == s
    ensures Trie(Down(t, lo, k, s), DownLo(t, lo, k, s), DownK(t, lo, k, s))
    ensures Fits(s, DownLo(t, lo, k, s), DownK(t, lo, k, s))
    decreases t
  {
    if t.Node? && t.sz != s {
      FitsBelow(t, lo, k, s);
      if s < lo + Pow2(k) { DownFits(t.l, lo, k - 1, s); } else { DownFits(t.r, lo + Pow2(k), k - 1, s); }
    }
  }

  /** The search reaches a node exactly when the size is in the trie. */
  lemma {:induction false} DownFinds(t: Tree, lo: int, k: nat, s: int)
    requires Trie(t, lo, k) && Fits(s, lo, k)
    ensures Down(t, lo, k, s).Node? <==> s in Sizes(t)
    decreases t
  {
    if t.Node? && t.sz != s {
      FitsBelow(t, lo, k, s);
      if s < lo + Pow2(k) {
        DownFinds(t.l, lo, k - 1, s);
        if s in Sizes(t.r) { SizesInRange(t.r, lo + Pow2(k), k - 1, s); }
      } else {
        DownFinds(t.r, lo + Pow2(k), k - 1, s);
        if s in Sizes(t.l) { SizesInRange(t.l, lo, k - 1, s); }
      }
    }
  }

  lemma {:induction false} DownSubset(t: Tree, lo: int, k: nat, s: int)
    ensures Elems(Down(t, lo, k, s)) <= Elems(t)
    ensures Sizes(Down(t, lo, k, s)) <= Sizes(t)
    decreases t
  {
    hide Here;
    if t.Nil? || t.sz == s || k == 0 {
    } else if s < lo + Pow2(k) {
      DownSubset(t.l, lo, k - 1, s);
    } else {
      DownSubset(t.r, lo + Pow2(k), k - 1, s);
    }
  }

  lemma TrieWithSide(t: Tree, lo: int, k: nat, l: Tree, r: Tree)
    requires Trie(t, lo, k) && t.Node? && k > 2
    requires Trie(l, lo, k - 1) && Trie(r, lo + Pow2(k), k - 1) && t.sz !in Sizes(l) && t.sz !in Sizes(r)
    ensures Trie(t.(l := l, r := r), lo, k)
  {
  }

  lemma {:induction false} PutTrie(t: Tree, lo: int, k: nat, s: int, u: Tree)
    requires Trie(t, lo, k) && Fits(s, lo, k)
    requires Trie(u, DownLo(t, lo, k, s), DownK(t, lo, k, s))
    requires Sizes(u) <= Sizes(Down(t, lo, k, s)) + {s}
    ensures Trie(Put(t, lo, k, s, u), lo, k)
    ensures Sizes(Put(t, lo, k, s, u)) <= Sizes(t) + {s}
    decreases t
  {
    hide Pow2;
    if t.Node? && t.sz != s {
      FitsBelow(t, lo, k, s);
      if s < lo + Pow2(k) {
        PutTrie(t.l, lo, k - 1, s, u);
        TrieWithSide(t, lo, k, Put(t.l, lo, k - 1, s, u), t.r);
      } else {
        PutTrie(t.r, lo + Pow2(k), k - 1, s, u);
        TrieWithSide(t, lo, k, t.l, Put(t.r, lo + Pow2(k), k - 1, s, u));
      }
    }
  }

  /** A chunk reached under one child is not under the other, nor in the node itself. */
  lemma SidesApart(t: Tree, lo: int, k: nat, inv: map<int, int>, q: int)
    requires Trie(t, lo, k) && Sized(t, inv) && t.Node?
    ensures q in Elems(t.l) ==> q !in Elems(t.r) && q !in Here(t)
    ensures q in Elems(t.r) ==> q !in Elems(t.l) && q !in Here(t)
  {
    if q in Elems(t.l) {
      ElemSize(t.l, inv, q);
      SizesInRange(t.l, lo, k - 1, inv[q]);
      if q in Elems(t.r) {
        ElemSize(t.r, inv, q);
        SizesInRange(t.r, lo + Pow2(k), k - 1, inv[q]);
      }
    } else if q in Elems(t.r) {
      ElemSize(t.r, inv, q);
    }
  }

  lemma SidesDisjoint(t: Tree, lo: int, k: nat, inv: map<int, int>)
    requires Trie(t, lo, k) && Sized(t, inv) && t.Node?
    ensures Elems(t.l) !! Elems(t.r) && Elems(t.l) !! Here(t) && Elems(t.r) !! Here(t)
  {
    forall q | q in Elems(t.l)
      ensures q !in Elems(t.r) && q !in Here(t)
    {
      SidesApart(t, lo, k, inv, q);
    }
    forall q | q in Elems(t.r)
      ensures q !in Here(t)
    {
      SidesApart(t, lo, k, inv, q);
    }
  }

  lemma {:induction false} PutElems(t: Tree, lo: int, k: nat, s: int, u: Tree, inv: map<int, int>)
    requires Trie(t, lo, k) && Fits(s, lo, k) && Sized(t, inv)
    ensures Elems(Put(t, lo, k, s, u)) == (Elems(t) - Elems(Down(t, lo, k, s))) + Elems(u)
    decreases t
  {
    hide Pow2, Elems, Fits, Here, Sizes;
    if t.Node? && t.sz != s {
      FitsBelow(t, lo, k, s);
      SidesDisjoint(t, lo, k, inv);
      if s < lo + Pow2(k) {
        PutElemsLeft(t, lo, k - 1, s, u, inv);
      } else {
        PutElemsRight(t, lo + Pow2(k), k - 1, s, u, inv);
      }
    }
  }

  lemma {:induction false} PutElemsLeft(t: Tree, lo: int, k: nat, s: int, u: Tree, inv: map<int, int>)
    requires t.Node? && Trie(t.l, lo, k) && Sized(t.l, inv) && Fits(s, lo, k)
    requires Elems(t.l) !! Elems(t.r) && Elems(t.l) !! Here(t)
    ensures Elems(t.(l := Put(t.l, lo, k, s, u))) == (Elems(t) - Elems(Down(t.l, lo, k, s))) + Elems(u)
    decreases t, 0
  {
    var cut, l' := Down(t.l, lo, k, s), Put(t.l, lo, k, s, u);
    PutElems(t.l, lo, k, s, u, inv);
    DownSubset(t.l, lo, k, s);
    PutElemsOneSide(t, t.(l := l'), Elems(t.l), Elems(t.r), Elems(cut), Elems(u));
  }

  lemma {:induction false} PutElemsRight(t: Tree, lo: int, k: nat, s: int, u: Tree, inv: map<int, int>)
    requires t.Node? && Trie(t.r, lo, k) && Sized(t.r, inv) && Fits(s, lo, k)
    requires Elems(t.l) !! Elems(t.r) && Elems(t.r) !! Here(t)
    ensures Elems(t.(r := Put(t.r, lo, k, s, u))) == (Elems(t) - Elems(Down(t.r, lo, k, s))) + Elems(u)
    decreases t, 0
  {
    var cut, r' := Down(t.r, lo, k, s), Put(t.r, lo, k, s, u);
    PutElems(t.r, lo, k, s, u, inv);
    DownSubset(t.r, lo, k, s);
    PutElemsOneSide(t, t.(r := r'), Elems(t.r), Elems(t.l), Elems(cut), Elems(u));
  }

  lemma PutElemsOneSide(t: Tree, t': Tree, side: set<int>, other: set<int>, cut: set<int>, put: set<int>)
    requires t.Node? && t'.Node? && Here(t') == Here(t)
    requires Elems(t) == Here(t) + side + other && Elems(t') == Here(t) + (side - cut + put) + other
    requires cut <= side && side !! other && side !! Here(t)
    ensures Elems(t') == Elems(t) - cut + put
  {
  }

  /** The inventories give the chunks in `c` the same sizes. */
  ghost predicate Agree(c: set<int>, inv: map<int, int>, inv': map<int, int>) {
    forall q :: q in c ==> q in inv && q in inv' && inv'[q] == inv[q]
  }

  lemma {:induction false} PutSized(t: Tree, lo: int, k: nat, s: int, u: Tree, inv: map<int, int>, inv': map<int, int>)
    requires Trie(t, lo, k) && Fits(s, lo, k) && Sized(t, inv) && Sized(u, inv')
    requires Agree(Elems(t) - Elems(Down(t, lo, k, s)), inv, inv')
    ensures Sized(Put(t, lo, k, s, u), inv')
    decreases t
  {
    hide Pow2, Agree, Elems, Sized;
    if t.Node? && t.sz != s {
      FitsBelow(t, lo, k, s);
      SidesDisjoint(t, lo, k, inv);
      if s < lo + Pow2(k) {
        PutSizedLeft(t, lo, k - 1, s, u, inv, inv');
      } else {
        PutSizedRight(t, lo + Pow2(k), k - 1, s, u, inv, inv');
      }
    }
  }

  lemma {:induction false} PutSizedLeft(t: Tree, lo: int, k: nat, s: int, u: Tree, inv: map<int, int>,
        inv': map<int, int>)
    requires t.Node? && Trie(t.l, lo, k) && Fits(s, lo, k) && Sized(t, inv) && Sized(u, inv')
    requires Elems(t.l) !! Elems(t.r) && Elems(t.l) !! Here(t)
    requires Agree(Elems(t) - Elems(Down(t.l, lo, k, s)), inv, inv')
    ensures Sized(t.(l := Put(t.l, lo, k, s, u)), inv')
    decreases t, 0
  {
    DownSubset(t.l, lo, k, s);
    AgreeOneSide(t, inv, inv', Elems(t.l), Elems(t.r), Elems(Down(t.l, lo, k, s)));
    PutSized(t.l, lo, k, s, u, inv, inv');
    SizedKept(t.r, inv, inv');
  }

  lemma {:induction false} PutSizedRight(t: Tree, lo: int, k: nat, s: int, u: Tree, inv: map<int, int>,
        inv': map<int, int>)
    requires t.Node? && Trie(t.r, lo, k) && Fits(s, lo, k) && Sized(t, inv) && Sized(u, inv')
    requires Elems(t.l) !! Elems(t.r) && Elems(t.r) !! Here(t)
    requires Agree(Elems(t) - Elems(Down(t.r, lo, k, s)), inv, inv')
    ensures Sized(t.(r := Put(t.r, lo, k, s, u)), inv')
    decreases t, 0
  {
    DownSubset(t.r, lo, k, s);
    AgreeOneSide(t, inv, inv', Elems(t.r), Elems(t.l), Elems(Down(t.r, lo, k, s)));
    PutSized(t.r, lo, k, s, u, inv, inv');
    SizedKept(t.l, inv, inv');
  }

  lemma AgreeOneSide(t: Tree, inv: map<int, int>, inv': map<int, int>, side: set<int>, other: set<int>, cut: set<int>)
    requires t.Node? && Elems(t) == Here(t) + side + other && cut <= side && side !! other && side !! Here(t)
    requires Agree(Elems(t) - cut, inv, inv')
    ensures Agree(side - cut, inv, inv') && Agree(other, inv, inv') && Agree(Here(t), inv, inv')
  {
  }

  lemma {:induction false} SizedKept(t: Tree, inv: map<int, int>, inv': map<int, int>)
    requires Sized(t, inv) && Agree(Elems(t), inv, inv')
    ensures Sized(t, inv')
  {
    if t.Node? {
      SizedKept(t.l, inv, inv');
      SizedKept(t.r, inv, inv');
    }
  }

  // ----- unlinking

  /** The leaf reached by going right where possible, else left. */
  function Leaf(t: Tree): (r: Tree)
    requires t.Node?
    ensures r.Node? && r.l.Nil? && r.r.Nil?
  {
    if t.r.Node? then Leaf(t.r) else if t.l.Node? then Leaf(t.l) else t
  }

  function CutLeaf(t: Tree): Tree
    requires t.Node?
  {
    if t.r.Node? then t.(r := CutLeaf(t.r)) else if t.l.Node? then t.(l := CutLeaf(t.l)) else Nil
  }

  lemma {:induction false} LeafCut(t: Tree, lo: int, k: nat)
    requires Trie(t, lo, k) && t.Node?
    ensures Trie(CutLeaf(t), lo, k)
    ensures Leaf(t).sz in Sizes(t) && Leaf(t).sz !in Sizes(CutLeaf(t))
    ensures Sizes(CutLeaf(t)) <= Sizes(t)
    decreases t
  {
    if t.r.Node? {
      LeafCut(t.r, lo + Pow2(k), k - 1);
      TrieWithSide(t, lo, k, t.l, CutLeaf(t.r));
      if Leaf(t.r).sz in Sizes(t.l) {
        SizesInRange(t.r, lo + Pow2(k), k - 1, Leaf(t.r).sz);
        SizesInRange(t.l, lo, k - 1, Leaf(t.r).sz);
      }
    } else if t.l.Node? {
      LeafCut(t.l, lo, k - 1);
      TrieWithSide(t, lo, k, CutLeaf(t.l), t.r);
    }
  }

  lemma {:induction false} LeafElems(t: Tree, inv: map<int, int>)
    requires t.Node? && Sized(t, inv)
    ensures Elems(t) == Elems(CutLeaf(t)) + Here(Leaf(t))
    ensures Sized(CutLeaf(t), inv) && Sized(Leaf(t), inv)
    decreases t
  {
    if t.r.Node? {
      LeafElems(t.r, inv);
    } else if t.l.Node? {
      LeafElems(t.l, inv);
    }
  }

  function IndexOf(s: seq<int>, x: int): (k: nat)
    requires x in s
    ensures k < |s| && s[k] == x
  {
    if s[0] == x then 0 else 1 + IndexOf(s[1..], x)
  }

  /** What takes the place of node `t` when its chunk `x` is unlinked. */
  function Drop(t: Tree, x: int): Tree
    requires t.Node? && x in Here(t)
  {
    if x != t.p then t.(rest := Without(t.rest, IndexOf(t.rest, x)))
    else if t.rest != [] then t.(p := t.rest[|t.rest| - 1], rest := t.rest[..|t.rest| - 1])
    else if t.r.Node? then Node(Leaf(t.r).p, Leaf(t.r).sz, Leaf(t.r).rest, t.l, CutLeaf(t.r))
    else if t.l.Node? then Node(Leaf(t.l).p, Leaf(t.l).sz, Leaf(t.l).rest, CutLeaf(t.l), Nil)
    else Nil
  }

  /** Any leaf below a node may replace it: the trie order survives. */
  lemma DropTrie(t: Tree, lo: int, k: nat, x: int)
    requires Trie(t, lo, k) && x in Here(t)
    ensures Trie(Drop(t, x), lo, k)
    ensures Sizes(Drop(t, x)) <= Sizes(t)
  {
    if x == t.p && t.rest == [] {
      if t.r.Node? {
        LeafCut(t.r, lo + Pow2(k), k - 1);
        LeafFits(t.r, t, lo, k);
      } else if t.l.Node? {
        LeafCut(t.l, lo, k - 1);
        LeafFits(t.l, t, lo, k);
      }
    }
  }

  lemma LeafFits(side: Tree, t: Tree, lo: int, k: nat)
    requires Trie(t, lo, k) && t.Node? && side.Node? && (side == t.l || side == t.r)
    requires Leaf(side).sz in Sizes(side)
    ensures lo <= Leaf(side).sz < lo + 2 * Pow2(k)
    ensures side == t.r ==> Leaf(side).sz !in Sizes(t.l)
    ensures Leaf(side).sz % 8 == 0
  {
    var s := Leaf(side).sz;
    SizesInRange(t, lo, k, s);
    AlignedSizes(t, lo, k, s);
    if side == t.r { SidesSizes(t, lo, k, s); }
  }

  /** A size occurs on one side only. */
  lemma SidesSizes(t: Tree, lo: int, k: nat, s: int)
    requires Trie(t, lo, k) && t.Node? && s in Sizes(t.r)
    ensures s !in Sizes(t.l)
  {
    SizesInRange(t.r, lo + Pow2(k), k - 1, s);
    if s in Sizes(t.l) { SizesInRange(t.l, lo, k - 1, s); }
  }

  lemma {:induction false} AlignedSizes(t: Tree, lo: int, k: nat, s: int)
    requires Trie(t, lo, k) && s in Sizes(t)
    ensures s % 8 == 0
  {
    if s == t.sz {
    } else if s in Sizes(t.l) {
      AlignedSizes(t.l, lo, k - 1, s);
    } else {
      AlignedSizes(t.r, lo + Pow2(k), k - 1, s);
    }
  }

  lemma DropElems(t: Tree, lo: int, k: nat, x: int, inv: map<int, int>, inv': map<int, int>)
    requires Trie(t, lo, k) && Sized(t, inv) && x in Here(t)
    requires Agree(Elems(t) - {x}, inv, inv')
    ensures Elems(Drop(t, x)) == Elems(t) - {x}
    ensures Sized(Drop(t, x), inv')
  {
    hide Trie, Leaf;
    SidesDisjoint(t, lo, k, inv);
    if x != t.p {
      DropMember(t, x, inv, inv');
    } else if t.rest != [] {
      DropHead(t, inv, inv');
    } else if t.r.Node? {
      DropInterior(t, t.r, t.l, inv, inv');
    } else if t.l.Node? {
      DropInterior(t, t.l, t.r, inv, inv');
    }
  }

  lemma DropInterior(t: Tree, side: Tree, other: Tree, inv: map<int, int>, inv': map<int, int>)
    requires t.Node? && side.Node? && t.rest == [] && Sized(side, inv) && Sized(other, inv)
    requires Elems(t) == {t.p} + Elems(side) + Elems(other) && t.p !in Elems(side) && t.p !in Elems(other)
    requires Agree(Elems(t) - {t.p}, inv, inv')
    ensures Here(Leaf(side)) + Elems(CutLeaf(side)) + Elems(other) == Elems(t) - {t.p}
    ensures Sized(CutLeaf(side), inv') && Sized(other, inv') && Sized(Leaf(side), inv')
  {
    hide Sized, Here;
    LeafElems(side, inv);
    SizedKept(CutLeaf(side), inv, inv');
    SizedKept(other, inv, inv');
    SizedKept(Leaf(side), inv, inv');
  }

  lemma DropMember(t: Tree, x: int, inv: map<int, int>, inv': map<int, int>)
    requires Sized(t, inv) && x in Here(t) && x != t.p
    requires Elems(t.l) !! Here(t) && Elems(t.r) !! Here(t)
    requires Agree(Elems(t) - {x}, inv, inv')
    ensures Elems(Drop(t, x)) == Elems(t) - {x} && Sized(Drop(t, x), inv')
  {
    DistinctWithout(t.p, t.rest, IndexOf(t.rest, x));
    assert Here(Drop(t, x)) == Here(t) - {x};
    SizedKept(t.l, inv, inv');
    SizedKept(t.r, inv, inv');
  }

  lemma DropHead(t: Tree, inv: map<int, int>, inv': map<int, int>)
    requires t.Node? && Sized(t, inv) && t.rest != []
    requires Elems(t.l) !! Here(t) && Elems(t.r) !! Here(t)
    requires Agree(Elems(t) - {t.p}, inv, inv')
    ensures Elems(Drop(t, t.p)) == Elems(t) - {t.p} && Sized(Drop(t, t.p), inv')
  {
    var s := t.rest;
    var last, init := s[|s| - 1], s[..|s| - 1];
    assert s == init + [last];
    assert Here(Drop(t, t.p)) == Here(t) - {t.p};
    SizedKept(t.l, inv, inv');
    SizedKept(t.r, inv, inv');
  }

  // ----- best fit

  function Min(a: int, b: int): int { if a < b then a else b }

  /** The smallest size of `t` that is at least `nb`; 2^32 if there is none. */
  function BestFit(t: Tree, nb: int): int {
    if t.Nil? then WORD
    else Min(if t.sz >= nb then t.sz else WORD, Min(BestFit(t.l, nb), BestFit(t.r, nb)))
  }

  lemma {:induction false} BestFitIsLeast(t: Tree, nb: int)
    requires forall s :: s in Sizes(t) ==> s < WORD
    ensures BestFit(t, nb) == WORD || (BestFit(t, nb) in Sizes(t) && BestFit(t, nb) >= nb)
    ensures forall s :: s in Sizes(t) && s >= nb ==> BestFit(t, nb) <= s
    ensures BestFit(t, nb) <= WORD
  {
    if t.Node? {
      assert Sizes(t.l) <= Sizes(t) && Sizes(t.r) <= Sizes(t);
      BestFitIsLeast(t.l, nb);
      BestFitIsLeast(t.r, nb);
    }
  }
}
