/** The pointer-chasing loops of insert_large_chunk and unlink_large_chunk. */
module TreeWalks {
  import opened BinIndex
  import opened Words
  import opened Tries
  import opened TreeWords
  import opened TreeUnlink
  import opened BestFits

  /** Searching for `s` from place `c`, reached through the word at `slot` of `parent`, ends
      where the search from the root of the bin ends. */
  ghost predicate OnPath(t: Place, s: int, h: int, c: Place, slot: int, parent: int) {
    && Down(t.t, t.lo, t.k, s) == Down(c.t, c.lo, c.k, s)
    && DownSlot(t.t, t.lo, t.k, s, h) == DownSlot(c.t, c.lo, c.k, s, slot)
    && DownParent(t.t, t.lo, t.k, s, h) == DownParent(c.t, c.lo, c.k, s, parent)
  }

  lemma PathStep(m: Mem, inv: map<int, int>, all: set<int>, t: Place, s: int, h: int, p: int, c: Place, slot: int,
        parent: int, bits: int)
    requires Walking(m, inv, all, p, c) && c.t.Node? && c.t.sz != s && Fits(s, c.lo, c.k) && BitsAt(bits, s, c.lo, c.k)
    requires OnPath(t, s, h, c, slot, parent)
    ensures c.k > 0
    ensures var c' := if TopBit(bits) == 0 then LeftPlace(c) else RightPlace(c);
            var slot' := p + if TopBit(bits) == 0 then LEFT else RIGHT;
            && Walking(m, inv, all, Rd(m, slot'), c') && OnPath(t, s, h, c', slot', p)
            && Fits(s, c'.lo, c'.k) && BitsAt(ShiftOut(bits), s, c'.lo, c'.k) && (Rd(m, slot') == 0 <==> c'.t.Nil?)
  {
    hide Holds, Trie, Sized, Elems;
    WalkOn(m, inv, all, p, c);
    FitsBelow(c.t, c.lo, c.k, s);
    BitsStep(bits, s, c.lo, c.k);
  }

  lemma PathEnd(t: Place, s: int, h: int, c: Place, slot: int, parent: int)
    requires OnPath(t, s, h, c, slot, parent) && (c.t.Nil? || c.t.sz == s)
    ensures Down(t.t, t.lo, t.k, s) == c.t && DownSlot(t.t, t.lo, t.k, s, h) == slot
    ensures DownParent(t.t, t.lo, t.k, s, h) == parent
  {
  }

  /** The loop of insert_large_chunk: from the root `root`, whose address is in the word at `h`,
      to the chunk of size `s` or to the empty child word where one would hang. */
  method Descend(m: Mem, root: int, s: int, bits: int, h: int, ghost c0: Place, ghost inv: map<int, int>,
        ghost all: set<int>)
    returns (found: bool, p: int, slot: int)
    requires Walking(m, inv, all, root, c0) && c0.t.Node? && Fits(s, c0.lo, c0.k) && BitsAt(bits, s, c0.lo, c0.k)
    ensures found == Down(c0.t, c0.lo, c0.k, s).Node?
    ensures found ==> p == Down(c0.t, c0.lo, c0.k, s).p
    ensures !found ==> slot == DownSlot(c0.t, c0.lo, c0.k, s, h) && p == DownParent(c0.t, c0.lo, c0.k, s, h)
  {
    hide Walking, Holds, Trie, Sized, Elems, BitsAt, Pow2, OnPath, Down, DownSlot, DownParent, Fits, LeftPlace,
      RightPlace;
    p, slot := root, h;
    var k := bits;
    ghost var c, parent := c0, h;
    assert OnPath(c0, s, h, c, slot, parent) by { PathStart(c0, s, h); }
    while true
      invariant Walking(m, inv, all, p, c) && c.t.Node? && Fits(s, c.lo, c.k) && BitsAt(k, s, c.lo, c.k)
      invariant OnPath(c0, s, h, c, slot, parent)
      decreases c.t
    {
      WalkOn(m, inv, all, p, c);
      if SizeOf(Head(m, p)) != s {
        PathStep(m, inv, all, c0, s, h, p, c, slot, parent, k);
        slot, parent := p + if TopBit(k) == 0 then LEFT else RIGHT, p;
        Smaller(c);
        c := if TopBit(k) == 0 then LeftPlace(c) else RightPlace(c);
        k := ShiftOut(k);
        if Rd(m, slot) != 0 {
          p := Rd(m, slot);
        } else {
          found := false;
          PathEnd(c0, s, h, c, slot, parent);
          break;
        }
      } else {
        found := true;
        assert p == c.t.p by { PtrOf(m, inv, all, p, c); }
        PathEnd(c0, s, h, c, slot, parent);
        break;
      }
    }
  }

  lemma PathStart(c: Place, s: int, h: int)
    ensures OnPath(c, s, h, c, h, h)
  {
  }

  lemma Smaller(c: Place)
    requires c.t.Node? && c.k > 0
    ensures LeftPlace(c).t == c.t.l && RightPlace(c).t == c.t.r
  {
  }

  lemma PtrOf(m: Mem, inv: map<int, int>, all: set<int>, p: int, c: Place)
    requires Walking(m, inv, all, p, c) && c.t.Node?
    ensures p == c.t.p
  {
  }

  // ----- the rightmost leaf

  lemma LeafStep(m: Mem, t: Tree, slot: int)
    requires t.Node? && Holds(m, t)
    ensures Right(m, t.p) != 0 <==> t.r.Node?
    ensures Right(m, t.p) == 0 ==> (Left(m, t.p) != 0 <==> t.l.Node?)
    ensures t.r.Node? ==>
      Right(m, t.p) == t.r.p && Leaf(t) == Leaf(t.r) && LeafSlot(t, slot) == LeafSlot(t.r, t.p + RIGHT)
    ensures t.r.Nil? && t.l.Node? ==>
      Left(m, t.p) == t.l.p && Leaf(t) == Leaf(t.l) && LeafSlot(t, slot) == LeafSlot(t.l, t.p + LEFT)
    ensures t.r.Nil? && t.l.Nil? ==> Leaf(t) == t && LeafSlot(t, slot) == slot
    ensures Holds(m, t.l) && Holds(m, t.r)
  {
  }

  /** The loop of unlink_large_chunk: from the chunk `r0` that the word at `rp0` points to, right
      where possible and else left, to a leaf. */
  method FindLeaf(m: Mem, r0: int, rp0: int, ghost t: Tree) returns (r: int, rp: int)
    requires t.Node? && r0 == t.p && Holds(m, t)
    ensures r == Leaf(t).p && rp == LeafSlot(t, rp0)
  {
    hide Holds, Leaf, LeafSlot;
    r, rp := r0, rp0;
    ghost var cur := t;
    while true
      invariant cur.Node? && r == cur.p && Holds(m, cur) && Leaf(cur) == Leaf(t)
      invariant LeafSlot(cur, rp) == LeafSlot(t, rp0)
      decreases cur
    {
      LeafStep(m, cur, rp);
      var cp := r + RIGHT;
      if Rd(m, cp) != 0 {
        cur := cur.r;
      } else {
        cp := r + LEFT;
        if Rd(m, cp) == 0 { break; }
        cur := cur.l;
      }
      r, rp := Rd(m, cp), cp;
    }
  }
}
