/** Circular doubly linked lists threaded through the fd and bk words of chunks. */
module Rings {
  import opened Words

  /** The k-th node of the ring that starts and ends at `b` and passes through `s`. */
  function At(b: int, s: seq<int>, k: int): int {
    if 1 <= k <= |s| then s[k - 1] else b
  }

  ghost predicate Link(m: Mem, b: int, s: seq<int>, k: int) {
    Fd(m, At(b, s, k)) == At(b, s, k + 1) && Bk(m, At(b, s, k + 1)) == At(b, s, k)
  }

  ghost predicate Ring(m: Mem, b: int, s: seq<int>) {
    forall k {:trigger Link(m, b, s, k)} :: 0 <= k <= |s| ==> Link(m, b, s, k)
  }

  ghost predicate Distinct(b: int, s: seq<int>) {
    b !in s && forall i, j :: 0 <= i < j < |s| ==> s[i] != s[j]
  }

  function Without(s: seq<int>, k: nat): seq<int>
    requires k < |s|
  {
    s[..k] + s[k + 1..]
  }

  /** Only the fd word of `u` and the bk word of `v` differ among the ring's nodes. */
  ghost predicate LinksKept(m: Mem, m': Mem, b: int, s: seq<int>, u: int, v: int) {
    && (b != u ==> Fd(m', b) == Fd(m, b))
    && (b != v ==> Bk(m', b) == Bk(m, b))
    && (forall q :: q in s ==> (q != u ==> Fd(m', q) == Fd(m, q)) && (q != v ==> Bk(m', q) == Bk(m, q)))
  }

  lemma RingFrame(m: Mem, m': Mem, b: int, s: seq<int>)
    requires Ring(m, b, s)
    requires Fd(m', b) == Fd(m, b) && Bk(m', b) == Bk(m, b)
    requires forall q :: q in s ==> Fd(m', q) == Fd(m, q) && Bk(m', q) == Bk(m, q)
    ensures Ring(m', b, s)
  {
    forall k | 0 <= k <= |s|
      ensures Link(m', b, s, k)
    {
      assert Link(m, b, s, k);
    }
  }

  /** Linking `x` in directly after `b`. An empty ring need not be closed beforehand. */
  lemma RingPush(m: Mem, m': Mem, b: int, s: seq<int>, x: int)
    requires Distinct(b, [x] + s)
    requires s != [] ==> Ring(m, b, s)
    requires LinksKept(m, m', b, s, b, At(b, s, 1))
    requires Fd(m', b) == x && Bk(m', At(b, s, 1)) == x && Fd(m', x) == At(b, s, 1) && Bk(m', x) == b
    ensures Ring(m', b, [x] + s)
  {
    var t := [x] + s;
    assert x in t && b != x;
    assert forall q :: q in s ==> q in t;
    forall k | 0 <= k <= |t|
      ensures Link(m', b, t, k)
    {
      if k >= 2 {
        assert Link(m, b, s, k - 1);
        assert At(b, t, k) == At(b, s, k - 1) && At(b, t, k + 1) == At(b, s, k);
        assert k < |t| ==> t[k] != t[1];
      }
    }
  }

  lemma RingNeighbours(m: Mem, b: int, s: seq<int>, k: nat)
    requires k < |s| && Ring(m, b, s)
    ensures Fd(m, s[k]) == At(b, s, k + 2) && Bk(m, s[k]) == At(b, s, k)
    ensures At(b, s, k + 2) == b || At(b, s, k + 2) in s
    ensures At(b, s, k) == b || At(b, s, k) in s
  {
    assert Link(m, b, s, k);
    assert Link(m, b, s, k + 1);
  }

  lemma RingEnds(m: Mem, b: int, s: seq<int>)
    requires s != [] && Ring(m, b, s)
    ensures Fd(m, b) == s[0] && Bk(m, b) == s[|s| - 1]
  {
    assert Link(m, b, s, 0);
    assert Link(m, b, s, |s|);
  }

  /** Unlinking the k-th member of a ring that has others. */
  lemma RingDrop(m: Mem, m': Mem, b: int, s: seq<int>, k: nat)
    requires k < |s| && Distinct(b, s) && Ring(m, b, s)
    requires LinksKept(m, m', b, s, At(b, s, k), At(b, s, k + 2))
    requires Fd(m', At(b, s, k)) == At(b, s, k + 2) && Bk(m', At(b, s, k + 2)) == At(b, s, k)
    ensures Ring(m', b, Without(s, k))
  {
    RingNeighbours(m, b, s, k);
    var t := Without(s, k);
    forall j | 0 <= j <= |t|
      ensures Link(m', b, t, j)
    {
      if j < k {
        assert Link(m, b, s, j);
        assert At(b, t, j) == At(b, s, j) && At(b, t, j + 1) == At(b, s, j + 1);
        RingNodesDiffer(b, s, j, k);
        RingNodesDiffer(b, s, j + 1, k + 2);
      } else if j > k {
        assert Link(m, b, s, j + 1);
        assert At(b, t, j) == At(b, s, j + 1) && At(b, t, j + 1) == At(b, s, j + 2);
        RingNodesDiffer(b, s, k, j + 1);
        RingNodesDiffer(b, s, k + 2, j + 2);
      } else {
        assert At(b, t, k) == At(b, s, k) && At(b, t, k + 1) == At(b, s, k + 2);
      }
    }
  }

  /** Two positions hold the same node only if both are the ring's start. */
  lemma RingNodesDiffer(b: int, s: seq<int>, i: nat, j: nat)
    requires Distinct(b, s) && i < j <= |s| + 1
    ensures At(b, s, i) == At(b, s, j) ==> i == 0 && j == |s| + 1
    ensures 0 < i ==> At(b, s, i) in s
    ensures j <= |s| ==> At(b, s, j) in s
  {
  }

  /** Unlinking the start of a ring: its last member takes over. */
  lemma RingDropHead(m: Mem, m': Mem, b: int, s: seq<int>)
    requires s != [] && Distinct(b, s) && Ring(m, b, s)
    requires var r := s[|s| - 1]; LinksKept(m, m', b, s, r, s[0]) && Bk(m', s[0]) == r && Fd(m', r) == s[0]
    ensures Ring(m', s[|s| - 1], s[..|s| - 1])
    ensures Distinct(s[|s| - 1], s[..|s| - 1])
  {
    RingEnds(m, b, s);
    var r, t := s[|s| - 1], s[..|s| - 1];
    forall k | 0 <= k <= |t|
      ensures Link(m', r, t, k)
    {
      if k > 0 {
        assert Link(m, b, s, k);
        assert At(r, t, k) == At(b, s, k);
        assert At(r, t, k + 1) == At(b, s, k + 1);
        assert s[k - 1] != r && s[k] != s[0];
      } else {
        assert At(r, t, 1) == s[0];
      }
    }
  }

  lemma DistinctWithout(b: int, s: seq<int>, k: nat)
    requires k < |s| && Distinct(b, s)
    ensures Distinct(b, Without(s, k))
    ensures s[k] !in Without(s, k)
    ensures forall q :: q in Without(s, k) <==> q in s && q != s[k]
  {
    var t := Without(s, k);
    assert forall j :: 0 <= j < |t| ==> t[j] == if j < k then s[j] else s[j + 1];
    forall q
      ensures q in t <==> q in s && q != s[k]
    {
      if q in s && q != s[k] {
        var j :| 0 <= j < |s| && s[j] == q;
        assert t[if j < k then j else j - 1] == q;
      }
    }
  }
}
