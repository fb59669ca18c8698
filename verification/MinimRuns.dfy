/** The block array of the minim allocator as a sequence of runs: what allocating and freeing do
    to the runs, and why the live regions determine every word of the array. */
module MinimRuns {

  /** minim_block_t; owner 0 is the null pointer. */
  datatype Block = Block(allocCount: int, freeCount: int, owner: int)

  datatype Run = Free(n: nat) | Used(n: nat, owner: int)

  const ZERO: Block := Block(0, 0, 0)

  function Head(r: Run): Block { if r.Free? then Block(0, r.n, 0) else Block(r.n, 0, r.owner) }

  function Total(runs: seq<Run>): nat {
    if runs == [] then 0 else runs[0].n + Total(runs[1..])
  }

  /** The array that a sequence of runs is stored as: heads carry the counts, other blocks are zero. */
  function Render(runs: seq<Run>): (r: seq<Block>)
    requires Positive(runs)
    ensures |r| == Total(runs)
  {
    if runs == [] then [] else [Head(runs[0])] + seq(runs[0].n - 1, i => ZERO) + Render(runs[1..])
  }

  predicate Positive(runs: seq<Run>) { forall r :: r in runs ==> r.n > 0 }

  /** No run is empty and no two free runs touch. */
  predicate Normal(runs: seq<Run>) {
    Positive(runs) && forall i :: 0 <= i < |runs| - 1 ==> !(runs[i].Free? && runs[i + 1].Free?)
  }

  /** Index of the first block of run `k`. */
  function Start(runs: seq<Run>, k: nat): nat
    requires k <= |runs|
  {
    Total(runs[..k])
  }

  lemma {:induction false} TotalConcat(a: seq<Run>, b: seq<Run>)
    ensures Total(a + b) == Total(a) + Total(b)
  {
    if a == [] {
      assert a + b == b;
    } else {
      assert (a + b)[1..] == a[1..] + b;
      TotalConcat(a[1..], b);
    }
  }

  lemma Associative(a: seq<Block>, b: seq<Block>, c: seq<Block>)
    ensures a + (b + c) == a + b + c
  {
  }

  lemma {:induction false} RenderConcat(a: seq<Run>, b: seq<Run>)
    requires Positive(a) && Positive(b)
    ensures Positive(a + b) && Render(a + b) == Render(a) + Render(b)
  {
    if a == [] {
      assert a + b == b;
    } else {
      var h := [Head(a[0])] + seq(a[0].n - 1, i => ZERO);
      assert (a + b)[0] == a[0] && (a + b)[1..] == a[1..] + b;
      RenderConcat(a[1..], b);
      Associative(h, Render(a[1..]), Render(b));
    }
  }

  lemma StartNext(runs: seq<Run>, k: nat)
    requires k < |runs|
    ensures Start(runs, k + 1) == Start(runs, k) + runs[k].n && Start(runs, k + 1) <= Total(runs)
  {
    assert runs[..k + 1] == runs[..k] + [runs[k]];
    TotalConcat(runs[..k], [runs[k]]);
    assert runs == runs[..k + 1] + runs[k + 1..];
    TotalConcat(runs[..k + 1], runs[k + 1..]);
    assert Total([runs[k]]) == runs[k].n + Total([]);
  }

  lemma {:induction false} StartOrder(runs: seq<Run>, j: nat, k: nat)
    requires j <= k <= |runs|
    ensures Start(runs, j) <= Start(runs, k) <= Total(runs)
    decreases k - j
  {
    if j < k {
      StartNext(runs, j);
      StartOrder(runs, j + 1, k);
    } else {
      assert runs == runs[..k] + runs[k..];
      TotalConcat(runs[..k], runs[k..]);
    }
  }

  /** A run shows in the array as its head followed by zero blocks. */
  lemma RenderAt(runs: seq<Run>, k: nat)
    requires Positive(runs) && k < |runs|
    ensures var s := Start(runs, k);
            && s + runs[k].n <= |Render(runs)| && Render(runs)[s] == Head(runs[k])
            && forall i :: s < i < s + runs[k].n ==> Render(runs)[i] == ZERO
  {
    var pre, post := runs[..k], runs[k + 1..];
    assert runs == pre + ([runs[k]] + post);
    RenderConcat(pre, [runs[k]] + post);
    RenderConcat([runs[k]], post);
    RenderOne(runs[k]);
    TotalConcat(pre, [runs[k]] + post);
  }

  lemma RenderOne(r: Run)
    requires r.n > 0
    ensures Render([r]) == [Head(r)] + seq(r.n - 1, i => ZERO) && Total([r]) == r.n
  {
    assert [r][1..] == [];
  }

  /** Replacing a stretch of runs by one of the same length changes the array only there. */
  lemma RenderReplace(pre: seq<Run>, mid: seq<Run>, post: seq<Run>)
    requires Positive(pre) && Positive(mid) && Positive(post)
    ensures Positive(pre + mid + post) && Render(pre + mid + post) == Render(pre) + Render(mid) + Render(post)
    ensures Total(pre + mid + post) == Total(pre) + Total(mid) + Total(post)
  {
    RenderConcat(pre + mid, post);
    RenderConcat(pre, mid);
    TotalConcat(pre + mid, post);
    TotalConcat(pre, mid);
  }

  // ----- allocating

  function Cut(r: Run, n: nat, owner: int): seq<Run>
    requires 0 < n <= r.n
  {
    [Used(n, owner)] + if n < r.n then [Free(r.n - n)] else []
  }

  function Allocated(runs: seq<Run>, k: nat, n: nat, owner: int): seq<Run>
    requires k < |runs| && 0 < n <= runs[k].n
  {
    runs[..k] + Cut(runs[k], n, owner) + runs[k + 1..]
  }

  lemma AllocatedNormal(runs: seq<Run>, k: nat, n: nat, owner: int)
    requires Normal(runs) && k < |runs| && runs[k].Free? && 0 < n <= runs[k].n
    ensures Normal(Allocated(runs, k, n, owner)) && Total(Allocated(runs, k, n, owner)) == Total(runs)
  {
    hide Total, Render;
    var a := Allocated(runs, k, n, owner);
    AllocatedParts(runs, k, n, owner);
    TotalThree(runs[..k], [runs[k]], runs[k + 1..]);
    TotalThree(runs[..k], Cut(runs[k], n, owner), runs[k + 1..]);
    forall i | 0 <= i < |a|
      ensures a[i] == (if i < k then runs[i] else if i == k then Used(n, owner)
                       else if n < runs[k].n then (if i == k + 1 then Free(runs[k].n - n) else runs[i - 1])
                         else runs[i])
    {
    }
  }

  lemma AllocatedParts(runs: seq<Run>, k: nat, n: nat, owner: int)
    requires Positive(runs) && k < |runs| && 0 < n <= runs[k].n
    ensures runs == runs[..k] + [runs[k]] + runs[k + 1..] && Positive(runs[..k]) && Positive([runs[k]])
    ensures Positive(runs[k + 1..])
    ensures Positive(Cut(runs[k], n, owner)) && Total(Cut(runs[k], n, owner)) == runs[k].n == Total([runs[k]])
  {
    hide Total, Render;
    CutTotal(runs[k], n, owner);
  }

  lemma CutTotal(r: Run, n: nat, owner: int)
    requires 0 < n <= r.n
    ensures Total(Cut(r, n, owner)) == r.n && Total([r]) == r.n
  {
    RenderOne(r);
    RenderOne(Used(n, owner));
    if n < r.n {
      RenderOne(Free(r.n - n));
      TotalConcat([Used(n, owner)], [Free(r.n - n)]);
    }
  }

  lemma TotalThree(a: seq<Run>, b: seq<Run>, c: seq<Run>)
    ensures Total(a + b + c) == Total(a) + Total(b) + Total(c)
  {
    TotalConcat(a + b, c);
    TotalConcat(a, b);
  }

  /** The stores of minim_alloc. */
  lemma AllocatedRender(runs: seq<Run>, k: nat, n: nat, owner: int)
    requires Normal(runs) && k < |runs| && runs[k].Free? && 0 < n <= runs[k].n
    ensures Positive(Allocated(runs, k, n, owner)) && Start(runs, k) + runs[k].n <= |Render(runs)|
    ensures var s, f, a := Start(runs, k), runs[k].n, Render(runs)[Start(runs, k) := Block(n, 0, owner)];
            Render(Allocated(runs, k, n, owner)) == if n < f then a[s + n := Block(0, f - n, 0)] else a
  {
    hide Total, Render, Cut, Allocated, Start;
    var pre, post := runs[..k], runs[k + 1..];
    AllocatedParts(runs, k, n, owner);
    RenderReplace(pre, [runs[k]], post);
    RenderReplace(pre, Cut(runs[k], n, owner), post);
    RenderOne(runs[k]);
    CutRender(runs[k], n, owner);
    AllocatedIs(runs, k, n, owner);
    SpliceCut(Render(pre), Render([runs[k]]), Render(Cut(runs[k], n, owner)), Render(post), runs[k].n, n, Head(runs[k]),
      Block(n, 0, owner), Render(runs));
  }

  lemma AllocatedIs(runs: seq<Run>, k: nat, n: nat, owner: int)
    requires k < |runs| && 0 < n <= runs[k].n
    ensures Allocated(runs, k, n, owner) == runs[..k] + Cut(runs[k], n, owner) + runs[k + 1..]
    ensures Start(runs, k) == Total(runs[..k])
  {
  }

  lemma SpliceCut(p: seq<Block>, m1: seq<Block>, m2: seq<Block>, q: seq<Block>, f: nat, n: nat, y: Block, x: Block,
        a: seq<Block>)
    requires 0 < n <= f && m1 == [y] + seq(f - 1, i => ZERO) && a == p + m1 + q
    requires m2 == [x] + seq(n - 1, i => ZERO)
      + (if n < f then [Block(0, f - n, 0)] + seq(f - n - 1, i => ZERO) else [])
    ensures |p| + f <= |a| && p + m2 + q == if n < f then a[|p| := x][|p| + n := Block(0, f - n, 0)] else a[|p| := x]
  {
  }

  lemma CutRender(r: Run, n: nat, owner: int)
    requires 0 < n <= r.n
    ensures Positive(Cut(r, n, owner))
    ensures Render(Cut(r, n, owner)) == [Block(n, 0, owner)] + seq(n - 1, i => ZERO)
              + (if n < r.n then [Block(0, r.n - n, 0)] + seq(r.n - n - 1, i => ZERO) else [])
  {
    hide Total, Render;
    RenderOne(Used(n, owner));
    if n == r.n {
      assert [Used(n, owner)] + [] == [Used(n, owner)];
    } else {
      RenderOne(Free(r.n - n));
      RenderConcat([Used(n, owner)], [Free(r.n - n)]);
    }
  }

  // ----- freeing

  /** Is there a free run directly to the right, to the left? */
  predicate FreeRight(runs: seq<Run>, k: nat) { k + 1 < |runs| && runs[k + 1].Free? }
  predicate FreeLeft(runs: seq<Run>, k: nat) { 0 < k <= |runs| && runs[k - 1].Free? }

  function First(runs: seq<Run>, k: nat): nat { if FreeLeft(runs, k) then k - 1 else k }
  function Behind(runs: seq<Run>, k: nat): nat { if FreeRight(runs, k) then k + 2 else k + 1 }

  function MergedLength(runs: seq<Run>, k: nat): nat
    requires k < |runs|
  {
    (if FreeLeft(runs, k) then runs[k - 1].n else 0) + runs[k].n + if FreeRight(runs, k) then runs[k + 1].n else 0
  }

  /** Run `k` and its free neighbours become one free run. */
  function Freed(runs: seq<Run>, k: nat): seq<Run>
    requires k < |runs|
  {
    runs[..First(runs, k)] + [Free(MergedLength(runs, k))] + runs[Behind(runs, k)..]
  }

  function Mid(runs: seq<Run>, k: nat): seq<Run>
    requires k < |runs|
  {
    (if FreeLeft(runs, k) then [runs[k - 1]] else []) + [runs[k]] + if FreeRight(runs, k) then [runs[k + 1]] else []
  }

  function Pre(runs: seq<Run>, k: nat): seq<Run>
    requires k < |runs|
  {
    runs[..First(runs, k)]
  }

  function Post(runs: seq<Run>, k: nat): seq<Run>
    requires k < |runs|
  {
    runs[Behind(runs, k)..]
  }

  /** The stretch of runs that freeing run `k` merges. */
  lemma FreedParts(runs: seq<Run>, k: nat)
    requires k < |runs| && Positive(runs)
    ensures runs == Pre(runs, k) + Mid(runs, k) + Post(runs, k)
    ensures Freed(runs, k) == Pre(runs, k) + [Free(MergedLength(runs, k))] + Post(runs, k)
    ensures Positive(Pre(runs, k)) && Positive(Mid(runs, k)) && Positive(Post(runs, k))
    ensures Positive([Free(MergedLength(runs, k))])
    ensures Total(Mid(runs, k)) == MergedLength(runs, k) > 0 && Total(Pre(runs, k)) == Start(runs, First(runs, k))
  {
    hide Total, Render;
    var l := if FreeLeft(runs, k) then [runs[k - 1]] else [];
    var r := if FreeRight(runs, k) then [runs[k + 1]] else [];
    TotalThree(l, [runs[k]], r);
    RenderOne(runs[k]);
    EmptyTotal([]);
    if l != [] { RenderOne(runs[k - 1]); }
    if r != [] { RenderOne(runs[k + 1]); }
  }

  lemma FreedNormal(runs: seq<Run>, k: nat)
    requires Normal(runs) && k < |runs| && runs[k].Used?
    ensures Normal(Freed(runs, k)) && Total(Freed(runs, k)) == Total(runs)
  {
    FreedTotal(runs, k);
    hide Total, Render, MergedLength;
    assert MergedLength(runs, k) > 0 by { FreedParts(runs, k); }
    NormalJoin(Pre(runs, k), MergedLength(runs, k), Post(runs, k));
  }

  lemma NormalJoin(pre: seq<Run>, n: nat, post: seq<Run>)
    requires Normal(pre) && Normal(post) && n > 0
    requires pre == [] || pre[|pre| - 1].Used?
    requires post == [] || post[0].Used?
    ensures Normal(pre + [Free(n)] + post)
  {
    var a := pre + [Free(n)] + post;
    forall i | 0 <= i < |a| - 1
      ensures !(a[i].Free? && a[i + 1].Free?)
    {
      if i > |pre| { assert !(post[i - |pre| - 1].Free? && post[i - |pre|].Free?); }
    }
  }

  lemma FreedTotal(runs: seq<Run>, k: nat)
    requires Positive(runs) && k < |runs|
    ensures Total(Freed(runs, k)) == Total(runs)
  {
    hide Total, Render, Freed, Pre, Mid, Post, MergedLength;
    FreedParts(runs, k);
    TotalThree(Pre(runs, k), Mid(runs, k), Post(runs, k));
    TotalThree(Pre(runs, k), [Free(MergedLength(runs, k))], Post(runs, k));
    RenderOne(Free(MergedLength(runs, k)));
  }

  /** What the array looks like after the stores of loc_minim_free_by_idx. */
  lemma FreedRender(runs: seq<Run>, k: nat)
    requires Normal(runs) && k < |runs| && runs[k].Used?
    ensures Positive(Freed(runs, k)) && |Render(Freed(runs, k))| == |Render(runs)|
    ensures var a, b, s, n := Render(runs), Render(Freed(runs, k)), Start(runs, First(runs, k)), MergedLength(runs, k);
            && n > 0 && s + n <= |a| && b[s] == Block(0, n, 0)
            && (forall i :: s < i < s + n ==> b[i] == ZERO)
            && (forall i :: 0 <= i < s || s + n <= i < |a| ==> b[i] == a[i])
  {
    hide Total, Render, Freed, Pre, Mid, Post, MergedLength, First;
    var f := Free(MergedLength(runs, k));
    FreedParts(runs, k);
    RenderReplace(Pre(runs, k), Mid(runs, k), Post(runs, k));
    RenderReplace(Pre(runs, k), [f], Post(runs, k));
    RenderOne(f);
  }

  // ----- live regions

  /** Start, length and owner of every used run; `s` is where the first run starts. */
  function Regions(runs: seq<Run>, s: int): map<int, (nat, int)> {
    if runs == [] then map[]
    else
      var rest := Regions(runs[1..], s + runs[0].n);
      if runs[0].Used? then rest[s := (runs[0].n, runs[0].owner)] else rest
  }

  lemma {:induction false} RegionsFrom(runs: seq<Run>, s: int, q: int)
    requires Positive(runs) && q in Regions(runs, s)
    ensures s <= q < s + Total(runs) && q + Regions(runs, s)[q].0 <= s + Total(runs)
    ensures runs[0].Free? ==> s + runs[0].n <= q
  {
    if q != s || runs[0].Free? { RegionsFrom(runs[1..], s + runs[0].n, q); }
  }

  /** The live regions determine the runs, and with them every block of the array. */
  lemma {:induction false} RegionsDetermine(a: seq<Run>, b: seq<Run>, s: int)
    requires Normal(a) && Normal(b) && Total(a) == Total(b) && Regions(a, s) == Regions(b, s)
    ensures a == b
    decreases |a|
  {
    EmptyTotal(a);
    EmptyTotal(b);
    if a != [] {
      SameFirst(a, b, s);
      var ra, rb := Regions(a[1..], s + a[0].n), Regions(b[1..], s + b[0].n);
      forall q | q in ra
        ensures q != s
      {
        RegionsFrom(a[1..], s + a[0].n, q);
      }
      forall q | q in rb
        ensures q != s
      {
        RegionsFrom(b[1..], s + b[0].n, q);
      }
      forall q
        ensures (q in ra <==> q in rb) && (q in ra ==> ra[q] == rb[q])
      {
        assert q in Regions(a, s) <==> q in Regions(b, s);
      }
      assert ra == rb;
      RegionsDetermine(a[1..], b[1..], s + a[0].n);
      assert a == [a[0]] + a[1..] && b == [b[0]] + b[1..];
    }
  }

  lemma EmptyTotal(runs: seq<Run>)
    requires Positive(runs)
    ensures Total(runs) == 0 <==> runs == []
  {
    if runs != [] { assert runs[0] in runs; }
  }

  lemma SameFirst(a: seq<Run>, b: seq<Run>, s: int)
    requires Normal(a) && Normal(b) && Total(a) == Total(b) && Regions(a, s) == Regions(b, s) && a != [] && b != []
    ensures a[0] == b[0]
  {
    if a[0].Used? {
      assert s in Regions(b, s);
      RegionsFrom(b, s, s);
    } else if b[0].Used? {
      assert s in Regions(a, s);
      RegionsFrom(a, s, s);
    } else {
      FirstFree(a, b, s);
      FirstFree(b, a, s);
    }
  }

  lemma FirstFree(a: seq<Run>, b: seq<Run>, s: int)
    requires Normal(a) && Normal(b) && Total(a) == Total(b) && Regions(a, s) == Regions(b, s) && a != [] && b != []
    requires a[0].Free? && b[0].Free?
    ensures a[0].n >= b[0].n
  {
    if |a| == 1 {
      assert a[1..] == [];
    } else {
      assert a[1].Used? && a[1..][0] == a[1];
      assert s + a[0].n in Regions(a[1..], s + a[0].n);
      RegionsFrom(b, s, s + a[0].n);
    }
  }

  lemma NotBefore(b: seq<Run>, s: int, q: int)
    requires Positive(b) && q < s
    ensures q !in Regions(b, s)
  {
    if q in Regions(b, s) {
      RegionsFrom(b, s, q);
    }
  }

  lemma {:induction false} RegionsConcat(a: seq<Run>, b: seq<Run>, s: int)
    requires Positive(a) && Positive(b)
    ensures Regions(a + b, s) == Regions(a, s) + Regions(b, s + Total(a))
    ensures Regions(a, s).Keys !! Regions(b, s + Total(a)).Keys
    decreases |a|
  {
    if a == [] {
      assert a + b == b;
    } else {
      assert (a + b)[1..] == a[1..] + b;
      RegionsConcat(a[1..], b, s + a[0].n);
      NotBefore(b, s + Total(a), s);
    }
  }

  lemma RegionsOne(r: Run, s: int)
    ensures Regions([r], s) == if r.Used? then map[s := (r.n, r.owner)] else map[]
  {
    assert [r][1..] == [];
  }

  lemma RegionsThree(a: seq<Run>, b: seq<Run>, c: seq<Run>, s: int)
    requires Positive(a) && Positive(b) && Positive(c)
    ensures Regions(a + b + c, s) == Regions(a, s) + Regions(b, s + Total(a)) + Regions(c, s + Total(a) + Total(b))
    ensures Regions(a, s).Keys !! Regions(b, s + Total(a)).Keys
    ensures Regions(a, s).Keys !! Regions(c, s + Total(a) + Total(b)).Keys
    ensures Regions(b, s + Total(a)).Keys !! Regions(c, s + Total(a) + Total(b)).Keys
  {
    RegionsConcat(a, b, s);
    RegionsConcat(a + b, c, s);
    TotalConcat(a, b);
  }

  /** Allocating adds one region; freeing removes exactly that of the freed run. */
  lemma AllocatedRegions(runs: seq<Run>, k: nat, n: nat, owner: int)
    requires Normal(runs) && k < |runs| && runs[k].Free? && 0 < n <= runs[k].n
    ensures Start(runs, k) !in Regions(runs, 0)
    ensures Regions(Allocated(runs, k, n, owner), 0) == Regions(runs, 0)[Start(runs, k) := (n, owner)]
  {
    hide Total, Regions, Render, Cut;
    var pre, post, s := runs[..k], runs[k + 1..], Start(runs, k);
    AllocatedParts(runs, k, n, owner);
    RegionsThree(pre, [runs[k]], post, 0);
    RegionsThree(pre, Cut(runs[k], n, owner), post, 0);
    RegionsOne(runs[k], s);
    CutRegions(runs[k], n, owner, s);
    NotAmongOthers(pre, post, Cut(runs[k], n, owner), s, s);
  }

  lemma CutRegions(r: Run, n: nat, owner: int, s: int)
    requires 0 < n <= r.n
    ensures Regions(Cut(r, n, owner), s) == map[s := (n, owner)]
  {
    RegionsOne(Used(n, owner), s);
    if n < r.n {
      RegionsOne(Free(r.n - n), s + n);
      RenderOne(Used(n, owner));
      RegionsConcat([Used(n, owner)], [Free(r.n - n)], s);
    }
  }

  lemma FreedRegions(runs: seq<Run>, k: nat)
    requires Normal(runs) && k < |runs| && runs[k].Used?
    ensures Start(runs, k) in Regions(runs, 0) && Regions(runs, 0)[Start(runs, k)] == (runs[k].n, runs[k].owner)
    ensures Regions(Freed(runs, k), 0) == Regions(runs, 0) - {Start(runs, k)}
  {
    hide Total, Regions, Render, Freed, Pre, Mid, Post, MergedLength, First, Start;
    var pre, mid, post, f := Pre(runs, k), Mid(runs, k), Post(runs, k), Free(MergedLength(runs, k));
    FreedParts(runs, k);
    RegionsThree(pre, mid, post, 0);
    RenderOne(f);
    RegionsThree(pre, [f], post, 0);
    RegionsOne(f, Total(pre));
    MidRegions(runs, k);
    NotAmongOthers(pre, post, mid, Total(pre), Start(runs, k));
  }

  lemma NotAmongOthers(pre: seq<Run>, post: seq<Run>, mid: seq<Run>, s: int, q: int)
    requires Positive(pre) && Positive(post) && Positive(mid) && s == Total(pre) && q in Regions(mid, s)
    ensures q !in Regions(pre, 0) && q !in Regions(post, s + Total(mid))
  {
    RegionsThree(pre, mid, post, 0);
    assert q in Regions(mid, s).Keys;
  }

  lemma MidRegions(runs: seq<Run>, k: nat)
    requires Normal(runs) && k < |runs| && runs[k].Used?
    ensures Regions(Mid(runs, k), Total(Pre(runs, k))) == map[Start(runs, k) := (runs[k].n, runs[k].owner)]
  {
    hide Total, Regions, Render;
    var l := if FreeLeft(runs, k) then [runs[k - 1]] else [];
    var r := if FreeRight(runs, k) then [runs[k + 1]] else [];
    var s := Total(Pre(runs, k));
    EmptyTotal([]);
    assert Regions([], s) == map[] by { NoRegions(s); }
    if l != [] {
      StartNext(runs, k - 1);
      RenderOne(runs[k - 1]);
      RegionsOne(runs[k - 1], s);
    }
    assert s + Total(l) == Start(runs, k);
    assert Positive(l) && Positive([runs[k]]) && Positive(r);
    RegionsThree(l, [runs[k]], r, s);
    RegionsOne(runs[k], Start(runs, k));
    var e := s + Total(l) + Total([runs[k]]);
    if r != [] { RegionsOne(runs[k + 1], e); } else { NoRegions(e); }
  }

  lemma NoRegions(s: int)
    ensures Regions([], s) == map[]
  {
  }
}
