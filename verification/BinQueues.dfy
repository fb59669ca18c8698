/** The bins of an mspace as queues, one for each chunk size: which chunk of a size is given out
    next, and where one that comes back is put. */
module BinQueues {
  import opened Machine
  import opened BinIndex
  import opened Rings
  import opened Tries
  import opened TreeUnlink
  import opened Bins

  /** The chunks of size `z` in a trie: the tree node's own chunk, then the rest of its ring. */
  function Stored(t: Tree, z: int): seq<int> {
    if t.Nil? then []
    else if t.sz == z then [t.p] + t.rest
    else if Stored(t.l, z) != [] then Stored(t.l, z)
    else Stored(t.r, z)
  }

  lemma {:induction false} StoredSizes(t: Tree, z: int)
    ensures Stored(t, z) != [] <==> z in Sizes(t)
  {
    if t.Node? && t.sz != z {
      StoredSizes(t.l, z);
      StoredSizes(t.r, z);
    }
  }

  lemma StoredOneSide(t: Tree, lo: int, k: nat, z: int)
    requires Trie(t, lo, k) && t.Node?
    ensures z in Sizes(t.l) ==> z != t.sz && Stored(t.r, z) == []
    ensures z in Sizes(t.r) ==> z != t.sz && Stored(t.l, z) == []
  {
    hide Stored;
    StoredSizes(t.l, z);
    StoredSizes(t.r, z);
    if z in Sizes(t.r) { SidesSizes(t, lo, k, z); }
  }

  /** A size on the left of a trie is not on its right, and the other way round. */
  lemma HalvesApart(t: Tree, lo: int, k: nat, z: int)
    requires Trie(t, lo, k) && t.Node?
    ensures z < lo + Pow2(k) ==> Stored(t.r, z) == []
    ensures z >= lo + Pow2(k) ==> Stored(t.l, z) == []
  {
    hide Stored;
    StoredSizes(t.l, z);
    StoredSizes(t.r, z);
    if z in Sizes(t.l) { SizesInRange(t.l, lo, k - 1, z); }
    if z in Sizes(t.r) { SizesInRange(t.r, lo + Pow2(k), k - 1, z); }
  }

  /** Where the search for `s` stops, all sizes are on the same side of the node as `s`. */
  lemma DownSide(t: Tree, lo: int, k: nat, s: int, z: int)
    requires Trie(t, lo, k) && t.Node? && t.sz != s && k > 2
    requires z == s
      || z in Sizes(Down(if s < lo + Pow2(k) then t.l else t.r, if s < lo + Pow2(k) then lo else lo + Pow2(k), k - 1,
      s))
    ensures z != t.sz && (z < lo + Pow2(k) <==> s < lo + Pow2(k))
  {
    hide Down, Trie, Sizes, Pow2;
    if s < lo + Pow2(k) {
      DownSubset(t.l, lo, k - 1, s);
      if z != s { InLeft(t, lo, k, z); }
    } else {
      DownSubset(t.r, lo + Pow2(k), k - 1, s);
      if z != s { InRight(t, lo, k, z); }
    }
  }

  lemma InLeft(t: Tree, lo: int, k: nat, z: int)
    requires Trie(t, lo, k) && t.Node? && k > 2 && z in Sizes(t.l)
    ensures z != t.sz && lo <= z < lo + Pow2(k)
  {
    SizesInRange(t.l, lo, k - 1, z);
  }

  lemma InRight(t: Tree, lo: int, k: nat, z: int)
    requires Trie(t, lo, k) && t.Node? && k > 2 && z in Sizes(t.r)
    ensures z != t.sz && lo + Pow2(k) <= z
  {
    SizesInRange(t.r, lo + Pow2(k), k - 1, z);
  }

  /** Replacing the subtree that a search for `s` reaches changes the sizes in it, and no others. */
  lemma {:induction false} PutStored(t: Tree, lo: int, k: nat, s: int, u: Tree, z: int)
    requires Trie(t, lo, k) && Fits(s, lo, k) && Trie(u, DownLo(t, lo, k, s), DownK(t, lo, k, s))
    requires Sizes(u) <= Sizes(Down(t, lo, k, s)) + {s}
    ensures var d, t' := Down(t, lo, k, s), Put(t, lo, k, s, u);
      && (z in Sizes(d) || z == s ==> Stored(t, z) == Stored(d, z) && Stored(t', z) == Stored(u, z))
      && (z !in Sizes(d) && z != s ==> Stored(t', z) == Stored(t, z))
    decreases t
  {
    hide Fits, Trie, Sizes;
    var d := Down(t, lo, k, s);
    if t.Node? && t.sz != s {
      FitsBelow(t, lo, k, s);
      HalvesApart(t, lo, k, z);
      if z == s || z in Sizes(d) { DownSide(t, lo, k, s, z); }
      if s < lo + Pow2(k) {
        assert Trie(t.l, lo, k - 1) by { ChildTries(t, lo, k); }
        PutStored(t.l, lo, k - 1, s, u, z);
      } else {
        assert Trie(t.r, lo + Pow2(k), k - 1) by { ChildTries(t, lo, k); }
        PutStored(t.r, lo + Pow2(k), k - 1, s, u, z);
      }
    } else {
      StoredSizes(d, z);
      StoredSizes(u, z);
    }
  }

  lemma ChildTries(t: Tree, lo: int, k: nat)
    requires Trie(t, lo, k) && t.Node? && k > 2
    ensures Trie(t.l, lo, k - 1) && Trie(t.r, lo + Pow2(k), k - 1)
  {
  }

  /** Where the search for `s` stops, the chunks of size `s` are. */
  lemma StoredDown(t: Tree, lo: int, k: nat, s: int)
    requires Trie(t, lo, k) && Fits(s, lo, k)
    ensures Stored(t, s) == Stored(Down(t, lo, k, s), s)
    ensures Down(t, lo, k, s).Node? ==> Stored(t, s) == [Down(t, lo, k, s).p] + Down(t, lo, k, s).rest
    ensures Down(t, lo, k, s).Nil? ==> Stored(t, s) == []
  {
    var d := Down(t, lo, k, s);
    DownFits(t, lo, k, s);
    PutStored(t, lo, k, s, d, s);
  }

  // ----- a chunk comes to its queue

  /** Behind the chunk of the tree node, in front of all others; at the very front of a small bin. */
  function Joined(s: seq<int>, x: int, large: bool): seq<int> {
    if large && s != [] then [s[0], x] + s[1..] else [x] + s
  }

  /** A chunk put in its tree is in the queue of its size, and all other queues stay. */
  lemma InsertStored(t: Tree, lo: int, k: nat, s: int, x: int, z: int)
    requires Trie(t, lo, k) && Fits(s, lo, k)
    ensures var t' := Put(t, lo, k, s, NewNode(Down(t, lo, k, s), s, x));
      Stored(t', z) == if z == s then Joined(Stored(t, s), x, true) else Stored(t, z)
  {
    hide Fits, Trie, Put, Down;
    var d := Down(t, lo, k, s);
    DownFits(t, lo, k, s);
    NewNodeTrie(d, DownLo(t, lo, k, s), DownK(t, lo, k, s), s, x);
    PutStored(t, lo, k, s, NewNode(d, s, x), z);
    StoredDown(t, lo, k, s);
    NewStored(d, s, x, z);
  }

  lemma NewStored(d: Tree, s: int, x: int, z: int)
    requires d.Node? ==> d.sz == s
    ensures Stored(NewNode(d, s, x), z) == if z == s then Joined(Stored(d, s), x, true) else Stored(d, z)
  {
    if d.Node? && z == s {
      assert [d.p] + ([x] + d.rest) == [d.p, x] + d.rest;
    }
  }

  // ----- a chunk leaves its queue

  /** `s` without the first occurrence of `x`. */
  function Less(s: seq<int>, x: int): seq<int> {
    if s == [] then [] else if s[0] == x then s[1..] else [s[0]] + Less(s[1..], x)
  }

  /** When the chunk of a tree node goes, the last of its ring takes its place. */
  function Gone(s: seq<int>, x: int, large: bool): seq<int> {
    if large && |s| > 1 && s[0] == x then [s[|s| - 1]] + s[1..|s| - 1] else Less(s, x)
  }

  lemma {:induction false} LessAt(s: seq<int>, x: int, k: nat)
    requires k < |s| && s[k] == x && forall j :: 0 <= j < k ==> s[j] != x
    ensures Less(s, x) == Without(s, k)
    decreases k
  {
    if k > 0 {
      LessAt(s[1..], x, k - 1);
      assert Without(s, k) == [s[0]] + Without(s[1..], k - 1);
    } else {
      assert Without(s, 0) == s[1..];
    }
  }

  /** Cutting the rightmost leaf takes its size out, and no other. */
  lemma {:induction false} LeafStored(t: Tree, lo: int, k: nat, z: int)
    requires Trie(t, lo, k) && t.Node?
    ensures Stored(t, Leaf(t).sz) == [Leaf(t).p] + Leaf(t).rest
    ensures Stored(CutLeaf(t), z) == if z == Leaf(t).sz then [] else Stored(t, z)
    decreases t
  {
    hide Trie, Sizes;
    LeafCut(t, lo, k);
    StoredSizes(CutLeaf(t), Leaf(t).sz);
    if t.r.Node? {
      assert Trie(t.r, lo + Pow2(k), k - 1) && t.sz !in Sizes(t.r) by { NodeTries(t, lo, k); }
      LeafCut(t.r, lo + Pow2(k), k - 1);
      LeafStored(t.r, lo + Pow2(k), k - 1, z);
      StoredOneSide(t, lo, k, Leaf(t.r).sz);
    } else if t.l.Node? {
      assert Trie(t.l, lo, k - 1) && t.sz !in Sizes(t.l) by { NodeTries(t, lo, k); }
      LeafCut(t.l, lo, k - 1);
      LeafStored(t.l, lo, k - 1, z);
    }
  }

  lemma NodeTries(t: Tree, lo: int, k: nat)
    requires Trie(t, lo, k) && t.Node?
    ensures t.l.Node? || t.r.Node? ==> k > 2
    ensures k > 2 ==> Trie(t.l, lo, k - 1) && Trie(t.r, lo + Pow2(k), k - 1)
    ensures t.sz !in Sizes(t.l) && t.sz !in Sizes(t.r)
  {
  }

  /** Unlinking a chunk from its node takes it from the queue of its size, and all other queues stay. */
  lemma DropStored(d: Tree, lo: int, k: nat, x: int, inv: map<int, int>, z: int)
    requires Trie(d, lo, k) && Sized(d, inv) && d.Node? && x in Here(d)
    ensures Stored(Drop(d, x), z) == if z == d.sz then Gone(Stored(d, d.sz), x, true) else Stored(d, z)
  {
    hide Trie, Leaf, CutLeaf, Sized;
    assert Distinct(d.p, d.rest) by { NodeDistinct(d, inv); }
    if x != d.p {
      DropLater(d, x, z);
    } else if d.rest != [] {
      var q := Stored(d, d.sz);
      assert q == [d.p] + d.rest && q[1..|q| - 1] == d.rest[..|d.rest| - 1];
    } else {
      DropAlone(d, lo, k, z);
    }
  }

  lemma NodeDistinct(d: Tree, inv: map<int, int>)
    requires Sized(d, inv) && d.Node?
    ensures Distinct(d.p, d.rest)
  {
  }

  lemma DropLater(d: Tree, x: int, z: int)
    requires d.Node? && x in Here(d) && x != d.p && Distinct(d.p, d.rest)
    ensures Stored(Drop(d, x), z) == if z == d.sz then Gone(Stored(d, d.sz), x, true) else Stored(d, z)
  {
    if z == d.sz {
      var k := IndexOf(d.rest, x);
      LessAt(d.rest, x, k);
      assert Stored(d, z)[1..] == d.rest;
    }
  }

  lemma DropAlone(d: Tree, lo: int, k: nat, z: int)
    requires Trie(d, lo, k) && d.Node? && d.rest == []
    ensures Stored(Drop(d, d.p), z) == if z == d.sz then [] else Stored(d, z)
  {
    hide Trie, Leaf, CutLeaf, Sizes;
    NodeTries(d, lo, k);
    StoredSizes(d.l, d.sz);
    StoredSizes(d.r, d.sz);
    if d.r.Node? {
      LeafCut(d.r, lo + Pow2(k), k - 1);
      LeafStored(d.r, lo + Pow2(k), k - 1, z);
      LeafStored(d.r, lo + Pow2(k), k - 1, d.sz);
      StoredOneSide(d, lo, k, Leaf(d.r).sz);
    } else if d.l.Node? {
      LeafCut(d.l, lo, k - 1);
      LeafStored(d.l, lo, k - 1, z);
      LeafStored(d.l, lo, k - 1, d.sz);
    }
  }

  lemma UnlinkStored(t: Tree, lo: int, k: nat, s: int, x: int, inv: map<int, int>, z: int)
    requires Trie(t, lo, k) && Fits(s, lo, k) && Sized(t, inv)
    requires Down(t, lo, k, s).Node? && x in Here(Down(t, lo, k, s))
    ensures var t' := Put(t, lo, k, s, Drop(Down(t, lo, k, s), x));
      Stored(t', z) == if z == s then Gone(Stored(t, s), x, true) else Stored(t, z)
  {
    hide Fits, Trie, Put, Down, Drop;
    var d := Down(t, lo, k, s);
    DownFits(t, lo, k, s);
    DownSized(t, lo, k, s, inv);
    DropTrie(d, DownLo(t, lo, k, s), DownK(t, lo, k, s), x);
    PutStored(t, lo, k, s, Drop(d, x), z);
    StoredDown(t, lo, k, s);
    DropStored(d, DownLo(t, lo, k, s), DownK(t, lo, k, s), x, inv, z);
  }

  // ----- all queues

  /** The chunks of size `z` in the bins. */
  ghost function Queue(b: BinSet, z: int): seq<int> {
    if z < 256 then if 0 <= z / 8 < |b.small| then b.small[z / 8] else []
    else
      var i := ComputeTreeIndex(z);
      if 0 <= i < |b.tree| then Stored(b.tree[i], z) else []
  }

  predicate ChunkSize(z: int) { 0 < z < WORD && z % 8 == 0 }

  /** The non-empty queues, by size. */
  type Queues = map<int, seq<int>>

  ghost function QueuesOf(b: BinSet): Queues {
    map z | 0 < z < WORD && ChunkSize(z) && Queue(b, z) != [] :: Queue(b, z)
  }

  function Waiting(q: Queues, z: int): seq<int> { if z in q then q[z] else [] }

  function Queued(q: Queues, z: int, s: seq<int>): Queues { if s == [] then q - {z} else q[z := s] }

  /** Chunk `x` of size `z` comes to its queue. */
  function Pushed(q: Queues, z: int, x: int): Queues { Queued(q, z, Joined(Waiting(q, z), x, z >= 256)) }

  /** It leaves its queue. */
  function Pulled(q: Queues, z: int, x: int): Queues { Queued(q, z, Gone(Waiting(q, z), x, z >= 256)) }

  lemma OneQueue(b: BinSet, b': BinSet, z: int, s: seq<int>)
    requires ChunkSize(z) && forall y :: ChunkSize(y) ==> Queue(b', y) == if y == z then s else Queue(b, y)
    ensures QueuesOf(b') == Queued(QueuesOf(b), z, s)
  {
    hide Queue;
    assert ChunkSize(z);
  }

  lemma QueueAt(b: BinSet, z: int)
    requires ChunkSize(z)
    ensures Waiting(QueuesOf(b), z) == Queue(b, z)
  {
    hide Queue;
  }

  lemma SmallQueue(b: BinSet, b': BinSet, i: nat, s: seq<int>)
    requires |b.small| == 32 && 0 < i < 32 && b' == b.(small := b.small[i := s])
    ensures QueuesOf(b') == Queued(QueuesOf(b), 8 * i, s) && Waiting(QueuesOf(b), 8 * i) == b.small[i]
  {
    hide ComputeTreeIndex, Stored;
    forall y | ChunkSize(y)
      ensures Queue(b', y) == if y == 8 * i then s else Queue(b, y)
    {
      assert y == 8 * (y / 8);
    }
    OneQueue(b, b', 8 * i, s);
    QueueAt(b, 8 * i);
  }

  lemma TreeQueue(b: BinSet, b': BinSet, i: nat, t: Tree, z: int, s: seq<int>)
    requires |b.tree| == 32 && i < 32 && b' == b.(tree := b.tree[i := t]) && ChunkSize(z) && z >= 256
    requires i == ComputeTreeIndex(z)
    requires forall y :: Stored(t, y) == if y == z then s else Stored(b.tree[i], y)
    ensures QueuesOf(b') == Queued(QueuesOf(b), z, s) && Waiting(QueuesOf(b), z) == Stored(b.tree[i], z)
  {
    hide ComputeTreeIndex, Stored;
    OneQueue(b, b', z, s);
    QueueAt(b, z);
  }

  lemma InsertSmallQueue(b: BinSet, b': BinSet, i: nat, x: int)
    requires |b.small| == 32 && 0 < i < 32 && b' == b.(small := b.small[i := [x] + b.small[i]])
    ensures QueuesOf(b') == Pushed(QueuesOf(b), 8 * i, x)
  {
    hide QueuesOf;
    SmallQueue(b, b', i, [x] + b.small[i]);
  }

  lemma UnlinkSmallQueue(b: BinSet, b': BinSet, i: nat, k: nat)
    requires |b.small| == 32 && 0 < i < 32 && k < |b.small[i]|
    requires b' == b.(small := b.small[i := Without(b.small[i], k)])
    requires forall j :: 0 <= j < k ==> b.small[i][j] != b.small[i][k]
    ensures QueuesOf(b') == Pulled(QueuesOf(b), 8 * i, b.small[i][k])
  {
    hide QueuesOf;
    SmallQueue(b, b', i, Without(b.small[i], k));
    LessAt(b.small[i], b.small[i][k], k);
  }

  lemma InsertLargeQueue(b: BinSet, b': BinSet, i: nat, x: int, z: int)
    requires |b.tree| == 32 && i < 32 && ChunkSize(z) && z >= 256 && i == ComputeTreeIndex(z)
    requires Trie(b.tree[i], RootLo(i), RootK(i))
    requires var t := b.tree[i];
      b' == b.(tree := b.tree[i := Replaced(t, i, z, NewNode(Reached(t, i, z), z, x))])
    ensures QueuesOf(b') == Pushed(QueuesOf(b), z, x)
  {
    hide QueuesOf, Trie, ComputeTreeIndex, Fits, Stored, NewNode, Put, Down;
    var t := b.tree[i];
    var t' := Replaced(t, i, z, NewNode(Reached(t, i, z), z, x));
    RootFits(z);
    forall y
      ensures Stored(t', y) == if y == z then Joined(Stored(t, z), x, true) else Stored(t, y)
    {
      InsertStored(t, RootLo(i), RootK(i), z, x, y);
    }
    TreeQueue(b, b', i, t', z, Joined(Stored(t, z), x, true));
  }

  lemma UnlinkLargeQueue(b: BinSet, b': BinSet, i: nat, x: int, z: int, inv: Inventory)
    requires |b.tree| == 32 && i < 32 && ChunkSize(z) && z >= 256 && i == ComputeTreeIndex(z)
    requires Trie(b.tree[i], RootLo(i), RootK(i)) && Sized(b.tree[i], inv)
    requires Reached(b.tree[i], i, z).Node? && x in Here(Reached(b.tree[i], i, z))
    requires var t := b.tree[i]; b' == b.(tree := b.tree[i := Replaced(t, i, z, Drop(Reached(t, i, z), x))])
    ensures QueuesOf(b') == Pulled(QueuesOf(b), z, x)
  {
    hide QueuesOf, Trie, ComputeTreeIndex, Fits, Stored, Drop, Put, Down, Sized, Here;
    var t := b.tree[i];
    var t' := Replaced(t, i, z, Drop(Reached(t, i, z), x));
    RootFits(z);
    forall y
      ensures Stored(t', y) == if y == z then Gone(Stored(t, z), x, true) else Stored(t, y)
    {
      UnlinkStored(t, RootLo(i), RootK(i), z, x, inv, y);
    }
    TreeQueue(b, b', i, t', z, Gone(Stored(t, z), x, true));
  }
}
