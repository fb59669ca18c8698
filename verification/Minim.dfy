/** The minim block allocator: best fit over an array of blocks, coalescing frees. */
module Minim {
  import opened Machine
  import opened BinIndex
  import opened MinimRuns

  datatype Region = Unset | Failed | Region(physAddr: int, size: int)

  datatype Status = Success | EACCES | EFAULT

  /** Run `k` is the first among the shortest free runs of at least `n` blocks. */
  ghost predicate BestRun(runs: seq<Run>, n: int, k: nat) {
    && k < |runs| && runs[k].Free? && runs[k].n >= n
    && forall j :: 0 <= j < |runs| && runs[j].Free? && runs[j].n >= n ==>
       runs[k].n <= runs[j].n && (j < k ==> runs[k].n < runs[j].n)
  }

  ghost predicate NoRun(runs: seq<Run>, n: int) {
    forall j :: 0 <= j < |runs| && runs[j].Free? ==> runs[j].n < n
  }

  /** Every block belongs to exactly one run. */
  lemma RunAt(runs: seq<Run>, i: nat) returns (k: nat)
    requires i < Total(runs)
    ensures k < |runs| && Start(runs, k) <= i < Start(runs, k) + runs[k].n
  {
    k := RunFrom(runs, i, 0);
  }

  lemma {:induction false} RunFrom(runs: seq<Run>, i: nat, from: nat) returns (k: nat)
    requires i < Total(runs) && from <= |runs| && Start(runs, from) <= i
    ensures k < |runs| && Start(runs, k) <= i < Start(runs, k) + runs[k].n
    decreases |runs| - from
  {
    if from < |runs| {
      StartNext(runs, from);
      if i < Start(runs, from + 1) { k := from; } else { k := RunFrom(runs, i, from + 1); }
    } else {
      StartEnd(runs);
      assert false;
    }
  }

  lemma StartEnd(runs: seq<Run>)
    ensures Start(runs, |runs|) == Total(runs)
  {
    assert runs[..|runs|] == runs;
  }

  lemma OneRun(n: nat)
    requires n > 0
    ensures var r := [Free(n)];
      Normal(r) && Total(r) == n && Render(r) == [Block(0, n, 0)] + seq(n - 1, i => ZERO) && Regions(r, 0) == map[]
  {
    RenderOne(Free(n));
    RegionsOne(Free(n), 0);
  }

  lemma StartMonotone(runs: seq<Run>, j: nat, k: nat)
    requires Positive(runs) && j < k <= |runs|
    ensures Start(runs, j) + runs[j].n <= Start(runs, k) <= Total(runs)
  {
    StartNext(runs, j);
    StartOrder(runs, j + 1, k);
  }

  /** The blocks at which live regions start are the heads of used runs. */
  lemma RegionAt(runs: seq<Run>, i: int) returns (k: nat)
    requires Normal(runs) && i in Regions(runs, 0)
    ensures k < |runs| && runs[k].Used? && i == Start(runs, k) && Regions(runs, 0)[i] == (runs[k].n, runs[k].owner)
  {
    RegionsFrom(runs, 0, i);
    k := RunAt(runs, i);
    RegionHere(runs, k, i);
  }

  lemma RegionHere(runs: seq<Run>, k: nat, i: int)
    requires Normal(runs) && k < |runs| && Start(runs, k) <= i < Start(runs, k) + runs[k].n
    ensures i in Regions(runs, 0) <==> runs[k].Used? && i == Start(runs, k)
    ensures i in Regions(runs, 0) ==> Regions(runs, 0)[i] == (runs[k].n, runs[k].owner)
  {
    hide Total, Regions, Render;
    var pre, post, s := runs[..k], runs[k + 1..], Start(runs, k);
    assert runs == pre + [runs[k]] + post;
    RegionsThree(pre, [runs[k]], post, 0);
    RenderOne(runs[k]);
    RegionsOne(runs[k], s);
    if i in Regions(pre, 0) { RegionsFrom(pre, 0, i); }
    if i in Regions(post, s + runs[k].n) { RegionsFrom(post, s + runs[k].n, i); }
  }

  // ----- the stores of a free, as a function of the array

  /** The freed run `k` has taken over a free run to its right. */
  function JoinedRight(a: seq<Block>, runs: seq<Run>, k: nat): seq<Block>
    requires k < |runs| && Positive(runs) && Start(runs, k) + runs[k].n <= |a|
    requires FreeRight(runs, k) ==> Start(runs, k) + runs[k].n < |a|
  {
    var s, n := Start(runs, k), runs[k].n;
    if FreeRight(runs, k) then a[s := Block(n, n + runs[k + 1].n, 0)][s + n := ZERO] else a[s := Block(n, n, 0)]
  }

  /** It joins a free run to its left, and stops being allocated. */
  function JoinedLeft(a: seq<Block>, runs: seq<Run>, k: nat): seq<Block>
    requires k < |runs| && Start(runs, k) < |a| && (FreeLeft(runs, k) ==> Start(runs, k - 1) < |a|)
  {
    var s := Start(runs, k);
    if FreeLeft(runs, k) then a[Start(runs, k - 1) := Block(0, MergedLength(runs, k), 0)][s := ZERO]
    else a[s := Block(0, MergedLength(runs, k), 0)]
  }

  lemma NextReads(a: seq<Block>, runs: seq<Run>, k: nat)
    requires Positive(runs) && a == Render(runs) && k < |runs|
    ensures var e := Start(runs, k) + runs[k].n;
      e <= |a| && (e == |a| <==> k + 1 == |runs|) && (e < |a| ==> a[e] == Head(runs[k + 1]))
  {
    hide Total, Render;
    RenderAt(runs, k);
    StartNext(runs, k);
    if k + 1 < |runs| { RenderAt(runs, k + 1); } else { assert runs[..k + 1] == runs; }
  }

  lemma PreviousReads(a: seq<Block>, runs: seq<Run>, k: nat)
    requires Positive(runs) && a == Render(runs) && k < |runs| && Start(runs, k) > 0
    ensures k > 0 && Start(runs, k) < |a|
    ensures var l := Start(runs, k - 1);
      && l + runs[k - 1].n == Start(runs, k) && a[l] == Head(runs[k - 1])
      && forall i :: l < i < Start(runs, k) ==> a[i] == ZERO
  {
    hide Render;
    if k > 0 {
      RenderAt(runs, k - 1);
      StartNext(runs, k - 1);
    }
    RenderAt(runs, k);
  }

  lemma FirstRun(runs: seq<Run>, k: nat)
    requires Positive(runs) && k < |runs| && Start(runs, k) == 0
    ensures k == 0
  {
    hide Total;
    if k > 0 { StartMonotone(runs, 0, k); }
  }

  lemma FreedBlocks(a: seq<Block>, runs: seq<Run>, k: nat)
    requires Normal(runs) && a == Render(runs) && k < |runs| && runs[k].Used?
    ensures Positive(Freed(runs, k)) && Start(runs, k) + runs[k].n <= |a|
    ensures FreeRight(runs, k) ==> Start(runs, k) + runs[k].n < |a|
    ensures Start(runs, k) < |a| && (FreeLeft(runs, k) ==> Start(runs, k - 1) < |a|)
    ensures JoinedLeft(JoinedRight(a, runs, k), runs, k) == Render(Freed(runs, k))
  {
    hide Total, Render, Freed, MergedLength, Start, First, LeftLength, RightLength, JoinedRight, JoinedLeft, FreeRight,
      Positive;
    var ln, rn := LeftLength(runs, k), RightLength(runs, k);
    StretchReads(a, runs, k);
    FreedReads(a, runs, k);
    MergedIs(runs, k);
    var b, s, n := Render(Freed(runs, k)), Start(runs, k), runs[k].n;
    JoinedRightIs(a, runs, k);
    var r := JoinedRight(a, runs, k);
    assert |r| == |a|;
    JoinedLeftIs(r, runs, k);
    var c := JoinedLeft(r, runs, k);
    JoinedWords(a, b, r, c, s, n, FreeLeft(runs, k), ln, FreeRight(runs, k), rn);
  }

  lemma JoinedRightIs(a: seq<Block>, runs: seq<Run>, k: nat)
    requires k < |runs| && Positive(runs) && Start(runs, k) + runs[k].n <= |a|
    requires FreeRight(runs, k) ==> Start(runs, k) + runs[k].n < |a|
    ensures var s, n, rn := Start(runs, k), runs[k].n, RightLength(runs, k);
            && s < |a|
            && JoinedRight(a, runs, k) == if FreeRight(runs, k) then a[s := Block(n, n + rn, 0)][s + n := ZERO]
               else a[s := Block(n, n, 0)]
  {
    hide Total, Start;
    RunStarts(runs, k);
  }

  lemma JoinedLeftIs(a: seq<Block>, runs: seq<Run>, k: nat)
    requires k < |runs| && Start(runs, k) < |a| && 0 <= Start(runs, k) - LeftLength(runs, k)
    requires FreeLeft(runs, k) ==> Start(runs, k - 1) == Start(runs, k) - LeftLength(runs, k)
    ensures var s, n, ln := Start(runs, k), MergedLength(runs, k), LeftLength(runs, k);
            JoinedLeft(a, runs, k) == if FreeLeft(runs, k) then a[s - ln := Block(0, n, 0)][s := ZERO]
              else a[s := Block(0, n, 0)]
  {
    hide Total, Start;
  }

  /** Lengths of the free runs beside run `k`. */
  function LeftLength(runs: seq<Run>, k: nat): nat { if FreeLeft(runs, k) then runs[k - 1].n else 0 }
  function RightLength(runs: seq<Run>, k: nat): nat { if FreeRight(runs, k) then runs[k + 1].n else 0 }

  lemma MergedIs(runs: seq<Run>, k: nat)
    requires k < |runs|
    ensures MergedLength(runs, k) == LeftLength(runs, k) + runs[k].n + RightLength(runs, k)
  {
  }

  lemma StretchReads(a: seq<Block>, runs: seq<Run>, k: nat)
    requires Positive(runs) && a == Render(runs) && k < |runs|
    ensures var s, n, ln, rn := Start(runs, k), runs[k].n, LeftLength(runs, k), RightLength(runs, k);
            && ln <= s && n > 0 && s + n + rn <= |a| && (FreeLeft(runs, k) <==> ln > 0)
            && (FreeRight(runs, k) <==> rn > 0)
            && (FreeLeft(runs, k) ==> Start(runs, k - 1) == s - ln) && Start(runs, First(runs, k)) == s - ln
            && (forall i :: s < i < s + n ==> a[i] == ZERO) && (forall i :: s - ln < i < s ==> a[i] == ZERO)
            && (forall i :: s + n < i < s + n + rn ==> a[i] == ZERO)
  {
    hide Total, Render, Start;
    RunStarts(runs, k);
    RenderAt(runs, k);
    if FreeLeft(runs, k) {
      RunStarts(runs, k - 1);
      StartNext(runs, k - 1);
      RenderAt(runs, k - 1);
    }
    if FreeRight(runs, k) {
      RunStarts(runs, k + 1);
      StartNext(runs, k);
      RenderAt(runs, k + 1);
    }
    StartNext(runs, k);
    StartOrder(runs, 0, k);
  }

  lemma FreedReads(a: seq<Block>, runs: seq<Run>, k: nat)
    requires Normal(runs) && a == Render(runs) && k < |runs| && runs[k].Used?
    requires Start(runs, First(runs, k)) == Start(runs, k) - LeftLength(runs, k)
    ensures Positive(Freed(runs, k)) && |Render(Freed(runs, k))| == |a|
    ensures var b, s, e := Render(Freed(runs, k)), Start(runs, k) - LeftLength(runs, k),
      Start(runs, k) + runs[k].n + RightLength(runs, k);
            && 0 <= s < e <= |a| && b[s] == Block(0, e - s, 0)
            && (forall i :: s < i < e ==> b[i] == ZERO) && (forall i :: 0 <= i < s || e <= i < |a| ==> b[i] == a[i])
  {
    hide Total, Render, Freed, MergedLength, Start, First, LeftLength, RightLength;
    FreedRender(runs, k);
    MergedIs(runs, k);
  }

  lemma JoinedWords(a: seq<Block>, b: seq<Block>, r: seq<Block>, c: seq<Block>, s: nat, n: nat, left: bool, ln: nat,
        right: bool, rn: nat)
    requires |a| == |b| && ln <= s && n > 0 && s + n + rn <= |a| && (left <==> ln > 0) && (right <==> rn > 0)
    requires b[s - ln] == Block(0, ln + n + rn, 0) && forall i :: s - ln < i < s + n + rn ==> b[i] == ZERO
    requires forall i :: 0 <= i < s - ln || s + n + rn <= i < |a| ==> b[i] == a[i]
    requires (forall i :: s < i < s + n ==> a[i] == ZERO) && (forall i :: s - ln < i < s ==> a[i] == ZERO)
    requires (forall i :: s + n < i < s + n + rn ==> a[i] == ZERO)
    requires r == if right then a[s := Block(n, n + rn, 0)][s + n := ZERO] else a[s := Block(n, n, 0)]
    requires c == if left then r[s - ln := Block(0, ln + n + rn, 0)][s := ZERO] else r[s := Block(0, ln + n + rn, 0)]
    ensures c == b
  {
  }

  // ----- scanning for the runs of a client

  predicate Owned(r: Run, cl: int) { r.Used? && r.owner == cl }

  /** From run `from` on there is a run of the client with a free run, or another run of the
      client, directly to its left. */
  ghost predicate Blocked(runs: seq<Run>, cl: int, from: nat) {
    exists i: nat :: from <= i < |runs| && BlockedAt(runs, cl, i)
  }

  predicate BlockedAt(runs: seq<Run>, cl: int, i: nat)
    requires i < |runs|
  {
    Owned(runs[i], cl) && i > 0 && (runs[i - 1].Free? || Owned(runs[i - 1], cl))
  }

  /** The live regions of everybody else. */
  function Others(live: map<int, (nat, int)>, cl: int): map<int, (nat, int)> {
    map q | q in live && live[q].1 != cl :: live[q]
  }

  /** What is left of the runs when the client's runs from `k` on are freed from left to right, up to
      and including the first that has a free run to its left by then. */
  ghost function Swept(runs: seq<Run>, cl: int, k: nat): seq<Run>
    requires k <= |runs|
    decreases |runs| - k
  {
    if k == |runs| then runs
    else if !Owned(runs[k], cl) then Swept(runs, cl, k + 1)
    else if FreeLeft(runs, k) then Freed(runs, k)
    else
      FreedLonger(runs, k);
      Swept(Freed(runs, k), cl, k + 1)
  }

  /** The block at which that one starts; -1 if there is none. */
  ghost function SweptTo(runs: seq<Run>, cl: int, k: nat): int
    requires k <= |runs|
    decreases |runs| - k
  {
    if k == |runs| then -1
    else if !Owned(runs[k], cl) then SweptTo(runs, cl, k + 1)
    else if FreeLeft(runs, k) then Start(runs, k)
    else
      FreedLonger(runs, k);
      SweptTo(Freed(runs, k), cl, k + 1)
  }

  lemma FreedLonger(runs: seq<Run>, k: nat)
    requires k < |runs|
    ensures k < |Freed(runs, k)| + (if FreeLeft(runs, k) then 1 else 0) && |Freed(runs, k)| <= |runs|
    ensures !FreeLeft(runs, k) ==> Freed(runs, k)[k].Free?
  {
  }

  /** The runs before `k` hold nothing of the client, others' regions are as they were in `r0`, and
      whether the scan will get stuck, and where, is still open in the same way. */
  ghost predicate Scanned(r0: seq<Run>, runs: seq<Run>, cl: int, k: nat) {
    && k <= |runs| && (forall j :: 0 <= j < k ==> !Owned(runs[j], cl))
    && Others(Regions(runs, 0), cl) == Others(Regions(r0, 0), cl)
    && (Blocked(r0, cl, 0) <==> Blocked(runs, cl, k))
    && Swept(r0, cl, 0) == Swept(runs, cl, k) && SweptTo(r0, cl, 0) == SweptTo(runs, cl, k)
  }

  /** The scan rests at block `fr` for ever. */
  ghost predicate Rests(r0: seq<Run>, runs: seq<Run>, cl: int, fr: int) {
    Blocked(r0, cl, 0) && runs == Swept(r0, cl, 0) && fr == SweptTo(r0, cl, 0)
  }

  lemma SameOthers(r0: seq<Run>, runs: seq<Run>, cl: int, k: nat)
    requires Scanned(r0, runs, cl, k)
    ensures Others(Regions(runs, 0), cl) == Others(Regions(r0, 0), cl)
  {
  }

  lemma WithoutOwn(live: map<int, (nat, int)>, cl: int, q: int)
    requires q in live && live[q].1 == cl
    ensures Others(live - {q}, cl) == Others(live, cl)
  {
  }

  lemma ScanStart(runs: seq<Run>, cl: int)
    ensures Scanned(runs, runs, cl, 0)
  {
  }

  lemma ScanSkip(r0: seq<Run>, runs: seq<Run>, cl: int, k: nat)
    requires Scanned(r0, runs, cl, k) && k < |runs| && !Owned(runs[k], cl)
    ensures Scanned(r0, runs, cl, k + 1)
  {
  }

  lemma ScanBlocked(r0: seq<Run>, runs: seq<Run>, cl: int, k: nat)
    requires Scanned(r0, runs, cl, k) && k < |runs| && Owned(runs[k], cl) && FreeLeft(runs, k)
    ensures Blocked(r0, cl, 0) && Swept(r0, cl, 0) == Freed(runs, k) && SweptTo(r0, cl, 0) == Start(runs, k)
  {
    assert BlockedAt(runs, cl, k);
  }

  lemma ScanFree(r0: seq<Run>, runs: seq<Run>, cl: int, k: nat)
    requires Normal(runs) && Scanned(r0, runs, cl, k) && k < |runs| && Owned(runs[k], cl) && !FreeLeft(runs, k)
    ensures Scanned(r0, Freed(runs, k), cl, k) && Start(Freed(runs, k), k) == Start(runs, k)
  {
    hide Total, Regions;
    var r := Freed(runs, k);
    FreedLonger(runs, k);
    assert r[..k] == runs[..k];
    FreedRegions(runs, k);
    assert Others(Regions(r, 0), cl) == Others(Regions(runs, 0), cl);
    forall j | 0 <= j < k
      ensures !Owned(r[j], cl)
    {
      assert r[j] == runs[j];
    }
    BlockedKept(runs, cl, k);
  }

  /** Freeing run `k` does not change which later runs are blocked. */
  lemma BlockedKept(runs: seq<Run>, cl: int, k: nat)
    requires Normal(runs) && k < |runs| && Owned(runs[k], cl) && !FreeLeft(runs, k)
    requires forall j :: 0 <= j < k ==> !Owned(runs[j], cl)
    ensures Blocked(Freed(runs, k), cl, k) <==> Blocked(runs, cl, k)
  {
    hide Total, Regions, MergedLength;
    var r, shift := Freed(runs, k), if FreeRight(runs, k) then 1 else 0;
    assert !BlockedAt(runs, cl, k);
    forall i: nat | k < i < |r|
      ensures BlockedAt(r, cl, i) <==> BlockedAt(runs, cl, i + shift)
    {
      assert r[i] == runs[i + shift];
    }
    if Blocked(runs, cl, k) {
      var i: nat :| k <= i < |runs| && BlockedAt(runs, cl, i);
      assert BlockedAt(r, cl, i - shift);
    }
    if Blocked(r, cl, k) {
      var i: nat :| k <= i < |r| && BlockedAt(r, cl, i);
      assert BlockedAt(runs, cl, i + shift);
    }
  }

  lemma ScanEnd(r0: seq<Run>, runs: seq<Run>, cl: int)
    requires Normal(runs) && Scanned(r0, runs, cl, |runs|)
    ensures !Blocked(r0, cl, 0) && Regions(runs, 0) == Others(Regions(r0, 0), cl)
    ensures runs == Swept(r0, cl, 0) && SweptTo(r0, cl, 0) == -1
  {
    hide Total, Regions;
    forall q | q in Regions(runs, 0)
      ensures Regions(runs, 0)[q].1 != cl
    {
      var k := RegionAt(runs, q);
    }
    assert Others(Regions(runs, 0), cl) == Regions(runs, 0);
  }

  lemma RunStarts(runs: seq<Run>, k: nat)
    requires Positive(runs) && k < |runs|
    ensures Start(runs, k) <= Start(runs, k) < Start(runs, k) + runs[k].n
  {
    assert runs[k] in runs;
  }

  /** Only one run starts at a block. */
  lemma SameRun(runs: seq<Run>, freed: seq<Run>, k: nat, s: nat)
    requires Positive(runs) && k < |runs| && s == Start(runs, k)
    requires exists j: nat :: j < |runs| && runs[j].Used? && Start(runs, j) == s && freed == Freed(runs, j)
    ensures freed == Freed(runs, k)
  {
    hide Total, Freed, Start;
    var j: nat :| j < |runs| && runs[j].Used? && Start(runs, j) == s && freed == Freed(runs, j);
    RunStarts(runs, k);
    RunStarts(runs, j);
    if j < k { StartMonotone(runs, j, k); }
    if k < j { StartMonotone(runs, k, j); }
  }

  lemma FewerRegions(live: map<int, (nat, int)>, q: int)
    requires q in live
    ensures |live - {q}| < |live|
  {
    assert (live - {q}).Keys == live.Keys - {q};
    assert |live - {q}| == |(live - {q}).Keys| && |live| == |live.Keys|;
  }

  /** The head of a freed run with a free run to its left is a zero block afterwards. */
  lemma InsideMerged(runs: seq<Run>, k: nat)
    requires Normal(runs) && k < |runs| && runs[k].Used? && FreeLeft(runs, k)
    ensures Positive(Freed(runs, k)) && Start(runs, k) < |Render(Freed(runs, k))|
    ensures Render(Freed(runs, k))[Start(runs, k)] == ZERO
  {
    hide Total, Render, Freed;
    FreedRender(runs, k);
    StartNext(runs, k - 1);
    RunStarts(runs, k);
    RunStarts(runs, k - 1);
  }

  /** A block behind the pool starts no live region. */
  lemma BeyondEnd(runs: seq<Run>, i: int)
    requires Positive(runs) && i >= Total(runs)
    ensures i !in Regions(runs, 0)
  {
    if i in Regions(runs, 0) { RegionsFrom(runs, 0, i); }
  }

  // ----- what the runs and their array promise

  /** In the array alone: walking from `i` along the positive count of each head lands exactly on
      the end, each head has exactly one positive count, the blocks between heads are zero, and no
      two free runs touch. */
  predicate Walks(a: seq<Block>, i: nat, afterFree: bool)
    decreases |a| - i
  {
    i == |a| ||
    (i < |a| &&
     var n := a[i].allocCount + a[i].freeCount;
     && n > 0 && (a[i].allocCount == 0 || a[i].freeCount == 0) && a[i].allocCount >= 0 && a[i].freeCount >= 0
     && !(afterFree && a[i].freeCount > 0) && i + n <= |a| && (forall j :: i < j < i + n ==> a[j] == ZERO)
     && Walks(a, i + n, a[i].freeCount > 0))
  }

  lemma {:induction false} RunsWalk(runs: seq<Run>, k: nat, a: seq<Block>)
    requires Normal(runs) && k <= |runs| && a == Render(runs)
    ensures Walks(a, Start(runs, k), k > 0 && runs[k - 1].Free?)
    decreases |runs| - k
  {
    hide Total, Render;
    if k == |runs| {
      StartEnd(runs);
    } else {
      RunStarts(runs, k);
      RenderAt(runs, k);
      StartNext(runs, k);
      RunsWalk(runs, k + 1, a);
    }
  }

  /** Blocks in live regions. */
  ghost function UsedBlocks(runs: seq<Run>): nat {
    if runs == [] then 0 else (if runs[0].Used? then runs[0].n else 0) + UsedBlocks(runs[1..])
  }

  ghost function FreeBlocks(runs: seq<Run>): nat {
    if runs == [] then 0 else (if runs[0].Free? then runs[0].n else 0) + FreeBlocks(runs[1..])
  }

  lemma {:induction false} BlocksAddUp(runs: seq<Run>)
    ensures UsedBlocks(runs) + FreeBlocks(runs) == Total(runs)
  {
    if runs != [] { BlocksAddUp(runs[1..]); }
  }

  /** Live regions lie in the pool and have no block in common. */
  lemma RegionsDisjoint(runs: seq<Run>, p: int, q: int)
    requires Normal(runs) && p in Regions(runs, 0) && q in Regions(runs, 0) && p < q
    ensures 0 <= p && 0 < Regions(runs, 0)[p].0 && p + Regions(runs, 0)[p].0 <= q
    ensures q + Regions(runs, 0)[q].0 <= Total(runs)
  {
    hide Total, Regions;
    var j := RegionAt(runs, p);
    var k := RegionAt(runs, q);
    RunStarts(runs, j);
    RunStarts(runs, k);
    if k < j { StartMonotone(runs, k, j); } else { StartMonotone(runs, j, k); }
    RegionsFrom(runs, 0, p);
    RegionsFrom(runs, 0, q);
  }

  /** Freeing what was just allocated restores the runs, and so every block of the array. */
  lemma AllocThenFree(runs: seq<Run>, k: nat, n: nat, owner: int, j: nat)
    requires Normal(runs) && k < |runs| && runs[k].Free? && 0 < n <= runs[k].n
    requires var a := Allocated(runs, k, n, owner); j < |a| && a[j].Used? && Start(a, j) == Start(runs, k)
    ensures Freed(Allocated(runs, k, n, owner), j) == runs
  {
    hide Total, Regions, Freed, Allocated, Start, Normal;
    var a := Allocated(runs, k, n, owner);
    AllocatedNormal(runs, k, n, owner);
    AllocatedRegions(runs, k, n, owner);
    FreedNormal(a, j);
    FreedRegions(a, j);
    assert Regions(runs, 0)[Start(runs, k) := (n, owner)] - {Start(runs, k)} == Regions(runs, 0);
    RegionsDetermine(Freed(a, j), runs, 0);
  }

  /** The order in which two regions are freed does not matter. */
  lemma FreesCommute(runs: seq<Run>, i: nat, j: nat, i': nat, j': nat)
    requires Normal(runs) && i < |runs| && j < |runs| && i != j && runs[i].Used? && runs[j].Used?
    requires var a := Freed(runs, i); j' < |a| && a[j'].Used? && Start(a, j') == Start(runs, j)
    requires var b := Freed(runs, j); i' < |b| && b[i'].Used? && Start(b, i') == Start(runs, i)
    ensures Freed(Freed(runs, i), j') == Freed(Freed(runs, j), i')
  {
    hide Total, Regions, Freed, Start, Normal;
    var a, b := Freed(runs, i), Freed(runs, j);
    FreedNormal(runs, i);
    FreedRegions(runs, i);
    FreedNormal(runs, j);
    FreedRegions(runs, j);
    FreedNormal(a, j');
    FreedRegions(a, j');
    FreedNormal(b, i');
    FreedRegions(b, i');
    assert Regions(runs, 0) - {Start(runs, i)} - {Start(runs, j)}
      == Regions(runs, 0) - {Start(runs, j)} - {Start(runs, i)};
    RegionsDetermine(Freed(a, j'), Freed(b, i'), 0);
  }

  /** Pointer of the scan of minim_free_by_client after `n` more steps over blocks not to be freed. */
  function ScanFrom(a: seq<Block>, fr: nat, n: nat): int
    decreases n
  {
    if n == 0 || fr >= |a| then fr
    else
      var step := if a[fr].allocCount > 0 then a[fr].allocCount else a[fr].freeCount;
      if step < 0 then fr else ScanFrom(a, fr + step, n - 1)
  }

  /** On a zero block the scan stays where it is for ever. */
  lemma {:induction false} ZeroBlockTraps(a: seq<Block>, fr: nat, n: nat)
    requires fr < |a| && a[fr] == ZERO
    ensures ScanFrom(a, fr, n) == fr < |a|
  {
    if n > 0 { ZeroBlockTraps(a, fr, n - 1); }
  }

  lemma DivNonNegative(x: int, d: int)
    requires x >= 0 && d >= 1
    ensures x / d >= 0
  {
    var e := x / d;
    assert x == e * d + x % d;
    if e < 0 { MulMono(e, -1, d); }
  }

  class Minim {
    const blocks: array<Block>
    const numBlocks: nat
    const blockSizeShift: nat
    const physAddrBase: int
    ghost var runs: seq<Run>

    function BlockSize(): (r: int)
      ensures r >= 1
    {
      Pow2(blockSizeShift)
    }

    /** The array is what its runs are stored as, and the runs fill it. */
    ghost predicate Valid()
      reads this, blocks
    {
      && numBlocks > 0 && blocks.Length == numBlocks && 0 <= physAddrBase < WORD && numBlocks * BlockSize() <= WORD
      && Normal(runs) && Total(runs) == numBlocks && blocks[..] == Render(runs)
    }

    /** The live regions: first block to length and owner. */
    ghost function Live(): map<int, (nat, int)>
      reads this
    {
      Regions(runs, 0)
    }

    /** minim_init */
    constructor (a: array<Block>, shift: nat, base: int)
      requires a.Length > 0 && 0 <= base < WORD && a.Length * Pow2(shift) <= WORD
      modifies a
      ensures Valid() && Live() == map[] && runs == [Run.Free(a.Length)]
      ensures blocks == a && numBlocks == a.Length && blockSizeShift == shift && physAddrBase == base
    {
      blocks := a;
      numBlocks := a.Length;
      blockSizeShift := shift;
      physAddrBase := base;
      runs := [Run.Free(a.Length)];
      hide Total, Render, Regions, Pow2;
      new;
      for i := 0 to a.Length
        invariant runs == [Run.Free(a.Length)] && forall j :: 0 <= j < i ==> a[j] == ZERO
      {
        a[i] := ZERO;
      }
      a[0] := a[0].(freeCount := a.Length);
      OneRun(a.Length);
      assert a[..] == [Block(0, a.Length, 0)] + seq(a.Length - 1, i => ZERO);
    }

    lemma Reads(k: nat)
      requires Valid() && k < |runs|
      ensures Start(runs, k) < numBlocks && blocks[Start(runs, k)] == Head(runs[k]) && runs[k].n > 0
      ensures Start(runs, k + 1) == Start(runs, k) + runs[k].n <= numBlocks
      ensures forall i :: Start(runs, k) < i < Start(runs, k) + runs[k].n ==> blocks[i] == ZERO
    {
      hide Total, Render;
      RenderAt(runs, k);
      StartNext(runs, k);
    }

    lemma Ends(k: nat)
      requires Valid() && k <= |runs|
      ensures Start(runs, k) == numBlocks <==> k == |runs|
      ensures Start(runs, k) <= numBlocks
    {
      hide Total, Render;
      if k == |runs| { assert runs[..k] == runs; } else { Reads(k); }
    }

    /** Block count of a request, with the 32-bit wrap of the rounding. */
    function BlocksFor(numBytes: int): int { (numBytes + (BlockSize() - 1)) % WORD / BlockSize() }

    /** The search of minim_alloc; -1 stands for the null pointer. */
    method FindBest(n: int) returns (best: int, ghost kb: nat)
      requires Valid() && n > 0
      ensures best == -1 ==> NoRun(runs, n)
      ensures best != -1 ==> BestRun(runs, n, kb) && best == Start(runs, kb)
    {
      hide Total, Render;
      best, kb := -1, 0;
      var fr := 0;
      ghost var k: nat := 0;
      assert Start(runs, 0) == 0 by { StartZero(runs); }
      while fr < numBlocks
        invariant k <= |runs| && fr == Start(runs, k) && fr <= numBlocks
        invariant best == -1 ==> forall j :: 0 <= j < k && runs[j].Free? ==> runs[j].n < n
        invariant best != -1 ==>
                    && kb < k && runs[kb].Free? && runs[kb].n >= n && best == Start(runs, kb) && 0 <= best < numBlocks
                    && blocks[best] == Head(runs[kb])
                    && forall j :: 0 <= j < k && runs[j].Free? && runs[j].n >= n ==>
                       runs[kb].n <= runs[j].n && (j < kb ==> runs[kb].n < runs[j].n)
        decreases numBlocks - fr
      {
        Ends(k);
        Reads(k);
        if blocks[fr].freeCount > 0 {
          if blocks[fr].freeCount >= n {
            if best != -1 {
              if blocks[fr].freeCount < blocks[best].freeCount { best, kb := fr, k; }
            } else {
              best, kb := fr, k;
            }
          }
          fr := fr + blocks[fr].freeCount;
        } else {
          fr := fr + blocks[fr].allocCount;
        }
        k := k + 1;
      }
      Ends(k);
    }

    lemma StartZero(rs: seq<Run>)
      ensures Start(rs, 0) == 0
    {
    }

    lemma BlocksForIs(numBytes: int)
      ensures BlocksFor(numBytes) == (numBytes + (BlockSize() - 1)) % WORD / BlockSize()
    {
    }

    /** The blocks are enough and not too many, unless the rounding wraps around: then there are none. */
    lemma BlocksEnough(numBytes: int)
      requires Valid() && 0 <= numBytes < WORD
      ensures BlocksFor(numBytes) == 0 <==> numBytes == 0 || numBytes + BlockSize() > WORD
      ensures BlocksFor(numBytes) > 0 ==> numBytes <= BlocksFor(numBytes) * BlockSize() < numBytes + BlockSize()
    {
      hide Total, Render, Pow2, Normal;
      var bs := BlockSize();
      OneBlockFits(numBlocks, bs);
      var r := (numBytes + (bs - 1)) % WORD;
      var n := r / bs;
      assert r == n * bs + r % bs;
      if numBytes + bs > WORD {
        assert r == numBytes + (bs - 1) - WORD;
        NoMultiple(n, bs, r);
      } else {
        assert r == numBytes + (bs - 1);
        if n == 0 { assert n * bs == 0; }
        NoMultiple(n, bs, r);
      }
    }

    static lemma OneBlockFits(n: int, bs: int)
      requires n >= 1 && bs >= 1 && n * bs <= WORD
      ensures bs <= WORD
    {
      MulMono(1, n, bs);
    }

    static lemma NoMultiple(n: int, bs: int, r: int)
      requires bs >= 1 && n * bs <= r < n * bs + bs && r >= 0
      ensures n >= 0 && (n == 0 <==> r < bs)
    {
      if n >= 1 { MulMono(1, n, bs); } else if n <= -1 { MulMono(n, -1, bs); }
    }

    /** minim_alloc. Unset stands for the uninitialised result of a request of no blocks. */
    method Alloc(cl: int, numBytes: int) returns (ret: Region, ghost k: nat)
      requires Valid() && 0 <= numBytes < WORD
      modifies this`runs, blocks
      ensures Valid()
      ensures ret == Unset <==> numBytes == 0 || numBytes + Pow2(blockSizeShift) > WORD
      ensures ret == Failed <==> BlocksFor(numBytes) > 0 && old(NoRun(runs, BlocksFor(numBytes)))
      ensures ret.Unset? || ret.Failed? ==> runs == old(runs)
      ensures ret.Region? ==>
                var n := BlocksFor(numBytes);
                && n > 0 && BestRun(old(runs), n, k) && runs == Allocated(old(runs), k, n, cl)
                && ret == Region((physAddrBase + Start(old(runs), k) * Pow2(blockSizeShift)) % WORD,
                                 n * Pow2(blockSizeShift))
                && numBytes <= ret.size < numBytes + Pow2(blockSizeShift)
    {
      hide Total, Render, Allocated, Pow2, BlocksFor, Start;
      var n := BlocksFor(numBytes);
      k := 0;
      BlocksEnough(numBytes);
      assert n >= 0 by { DivNonNegative((numBytes + (BlockSize() - 1)) % WORD, BlockSize()); BlocksForIs(numBytes); }
      if n > 0 {
        var best, kb := FindBest(n);
        k := kb;
        if best != -1 {
          TakeBest(cl, n, best, kb);
          ret := Region.Region((physAddrBase + best * BlockSize()) % WORD, n * BlockSize());
        } else {
          ret := Failed;
        }
      } else {
        ret := Unset;
      }
    }

    /** The stores of minim_alloc on the chosen run. */
    method TakeBest(cl: int, n: nat, fr: nat, ghost k: nat)
      requires Valid() && n > 0 && k < |runs| && runs[k].Free? && n <= runs[k].n && fr == Start(runs, k)
      modifies this`runs, blocks
      ensures Valid() && runs == Allocated(old(runs), k, n, cl)
    {
      hide Total, Render, Allocated, Pow2, Start;
      Reads(k);
      ghost var before := blocks[..];
      var f := blocks[fr].freeCount;
      blocks[fr] := blocks[fr].(allocCount := n);
      for i := 1 to n
        invariant runs == old(runs) && blocks[..] == before[fr := Block(n, f, 0)]
      {
        blocks[fr + i] := blocks[fr + i].(freeCount := 0);
      }
      if blocks[fr].allocCount < blocks[fr].freeCount {
        blocks[fr + n] := blocks[fr + n].(freeCount := f - n);
      }
      blocks[fr] := blocks[fr].(freeCount := 0, owner := cl);
      AllocatedRender(runs, k, n, cl);
      AllocatedNormal(runs, k, n, cl);
      runs := Allocated(runs, k, n, cl);
      assert blocks[..] == Render(runs);
    }

    // ----- freeing

    /** loc_minim_free_by_idx */
    method FreeByIdx(cl: int, blockIdx: nat) returns (ret: Status)
      requires Valid() && blockIdx < numBlocks
      modifies this`runs, blocks
      ensures Valid()
      ensures blockIdx !in old(Live()) ==> ret == EFAULT
      ensures blockIdx in old(Live()) && old(Live())[blockIdx].1 != cl ==> ret == EACCES
      ensures blockIdx in old(Live()) && old(Live())[blockIdx].1 == cl ==>
        ret == Success && Live() == old(Live()) - {blockIdx}
      ensures ret != Success ==> runs == old(runs) && blocks[..] == old(blocks[..])
      ensures ret == Success ==>
        exists k: nat ::
          k < |old(runs)| && old(runs)[k].Used? && Start(old(runs), k) == blockIdx && runs == Freed(old(runs), k)
    {
      hide Total, Render, Freed, Regions, Pow2, Start;
      ghost var k := RunAt(runs, blockIdx);
      Reads(k);
      RegionHere(runs, k, blockIdx);
      if blocks[blockIdx].allocCount > 0 {
        HeadOnly(k, blockIdx);
        if blocks[blockIdx].owner == cl {
          FreedRegions(runs, k);
          FreeRun(blockIdx, k);
          ret := Success;
        } else {
          ret := EACCES;
        }
      } else {
        ret := EFAULT;
      }
    }

    /** A block with an allocation count is the head of a used run. */
    lemma HeadOnly(k: nat, i: nat)
      requires Valid() && k < |runs| && Start(runs, k) <= i < Start(runs, k) + runs[k].n && i < numBlocks
      requires blocks[i].allocCount > 0
      ensures i == Start(runs, k) && runs[k].Used?
    {
      hide Total, Render;
      Reads(k);
    }

    /** The stores of loc_minim_free_by_idx on the head `s` of used run `k`. */
    method FreeRun(s: nat, ghost k: nat)
      requires Valid() && k < |runs| && runs[k].Used? && s == Start(runs, k)
      modifies this`runs, blocks
      ensures Valid() && runs == Freed(old(runs), k)
    {
      hide Total, Render, Freed, Pow2, Start, JoinedRight, JoinedLeft;
      ghost var before := blocks[..];
      Reads(k);
      FreedNormal(runs, k);
      FreedBlocks(before, runs, k);
      JoinRight(s, k);
      JoinLeft(s, k, before);
      runs := Freed(runs, k);
    }

    /** The freed run's head counts as free; a free run to its right is joined. */
    method JoinRight(s: nat, ghost k: nat)
      requires Valid() && k < |runs| && runs[k].Used? && s == Start(runs, k)
      modifies blocks
      ensures s + runs[k].n <= numBlocks && (FreeRight(runs, k) ==> s + runs[k].n < numBlocks)
      ensures blocks[..] == JoinedRight(old(blocks[..]), runs, k)
    {
      hide Total, Render, Pow2, Start;
      Reads(k);
      NextReads(blocks[..], runs, k);
      blocks[s] := blocks[s].(owner := 0, freeCount := blocks[s].allocCount);
      var n := blocks[s].allocCount;
      if s + n < numBlocks {
        var r := s + n;
        if blocks[r].allocCount == 0 {
          blocks[s] := blocks[s].(freeCount := blocks[s].freeCount + blocks[r].freeCount);
          blocks[r] := blocks[r].(freeCount := 0);
        }
      }
    }

    /** A free run to the left is found by walking over zero blocks, and joined. */
    method JoinLeft(s: nat, ghost k: nat, ghost before: seq<Block>)
      requires blocks.Length == numBlocks && Normal(runs) && before == Render(runs) && |before| == numBlocks
      requires k < |runs| && runs[k].Used? && s == Start(runs, k) && s + runs[k].n <= numBlocks
      requires FreeRight(runs, k) ==> s + runs[k].n < numBlocks
      requires blocks[..] == JoinedRight(before, runs, k)
      modifies blocks
      ensures s < numBlocks && (FreeLeft(runs, k) ==> Start(runs, k - 1) < numBlocks)
      ensures blocks[..] == JoinedLeft(JoinedRight(before, runs, k), runs, k)
    {
      hide Total, Render, Pow2, Start;
      ghost var joined := blocks[..];
      assert s < numBlocks by { assert runs[k] in runs; }
      if s > 0 {
        PreviousReads(before, runs, k);
        var l := s - 1;
        while blocks[l].freeCount <= 0 && blocks[l].allocCount <= 0
          invariant Start(runs, k - 1) <= l < s && blocks[..] == joined
          decreases l
        {
          l := l - 1;
        }
        assert l == Start(runs, k - 1);
        if blocks[l].freeCount > 0 {
          blocks[l] := blocks[l].(freeCount := blocks[l].freeCount + blocks[s].freeCount);
          blocks[s] := blocks[s].(freeCount := 0);
        }
      } else {
        FirstRun(runs, k);
      }
      blocks[s] := blocks[s].(allocCount := 0);
    }

    /** minim_free: any address within the first block of a live region names it. */
    method Free(cl: int, physAddr: int) returns (ret: Status)
      requires Valid() && 0 <= physAddr < WORD
      modifies this`runs, blocks
      ensures Valid()
      ensures var i := (physAddr - physAddrBase) % WORD / Pow2(blockSizeShift);
              && (i !in old(Live()) ==> ret == EFAULT)
              && (i in old(Live()) && old(Live())[i].1 != cl ==> ret == EACCES)
              && (i in old(Live()) && old(Live())[i].1 == cl ==> ret == Success && Live() == old(Live()) - {i})
      ensures ret != Success ==> runs == old(runs) && blocks[..] == old(blocks[..])
    {
      hide Total, Render, Regions, Pow2;
      var blockIdx := (physAddr - physAddrBase) % WORD / BlockSize();
      if blockIdx < numBlocks {
        ret := FreeByIdx(cl, blockIdx);
      } else {
        BeyondEnd(runs, blockIdx);
        ret := EFAULT;
      }
    }

    // ----- minim_free_by_client

    /** minim_free_by_client. The result says whether the scan ends: where the original's pointer
        rests on a zero block, at `at`, it never moves on, and this method returns false there. */
    method FreeByClient(cl: int) returns (ended: bool, ghost at: nat)
      requires Valid()
      modifies this`runs, blocks
      ensures Valid()
      ensures ended <==> old(!Blocked(runs, cl, 0))
      ensures Others(Live(), cl) == Others(old(Live()), cl) && (ended ==> Live() == Others(old(Live()), cl))
      ensures !ended ==> at < numBlocks && blocks[at] == ZERO && forall n :: ScanFrom(blocks[..], at, n) == at
      ensures runs == Swept(old(runs), cl, 0) && SweptTo(old(runs), cl, 0) == if ended then -1 else at
    {
      hide Total, Render, Regions, Pow2, Start, Freed, Scanned, Blocked, FreeLeft, Others, Swept, SweptTo;
      var freed := true;
      var fr: nat := 0;
      ghost var k: nat, stuck, r0 := 0, false, runs;
      at := 0;
      StartZero(runs);
      ScanStart(runs, cl);
      SameOthers(r0, runs, cl, 0);
      while freed
        invariant Valid() && k <= |runs| && fr <= numBlocks
        invariant Others(Live(), cl) == Others(Regions(r0, 0), cl)
        invariant if stuck then fr < numBlocks && blocks[fr] == ZERO && Rests(r0, runs, cl, fr) && freed
          else fr == Start(runs, k) && Scanned(r0, runs, cl, k)
        invariant !freed ==> k == |runs|
        decreases |Live()|, freed
      {
        freed := false;
        ghost var r1 := runs;
        while fr < numBlocks
          invariant Valid() && k <= |runs| && runs == r1 && !freed
          invariant if stuck then fr < numBlocks && blocks[fr] == ZERO && Rests(r0, runs, cl, fr)
                    else fr == Start(runs, k) && fr <= numBlocks && Scanned(r0, runs, cl, k)
          decreases numBlocks - fr
        {
          if !stuck {
            Ends(k);
            Reads(k);
          }
          if blocks[fr].allocCount > 0 {
            if blocks[fr].owner == cl {
              stuck := FreeOwned(cl, fr, k, r0);
              freed := true;
              break;
            }
            ScanSkip(r0, runs, cl, k);
            fr := fr + blocks[fr].allocCount;
          } else {
            if blocks[fr].freeCount == 0 {
              forall n: nat
                ensures ScanFrom(blocks[..], fr, n) == fr
              {
                ZeroBlockTraps(blocks[..], fr, n);
              }
              return false, fr;
            }
            ScanSkip(r0, runs, cl, k);
            fr := fr + blocks[fr].freeCount;
          }
          k := k + 1;
        }
        if !freed { Ends(k); }
      }
      ended := true;
      ScanEnd(r0, runs, cl);
    }

    /** The scan frees the run it has reached. If a free run lies directly to the left, the scan's
        pointer is left on a zero block. */
    method FreeOwned(cl: int, fr: nat, ghost k: nat, ghost r0: seq<Run>) returns (ghost stuck: bool)
      requires Valid() && k < |runs| && fr == Start(runs, k) && fr < numBlocks && runs[k].Used? && runs[k].owner == cl
      requires Scanned(r0, runs, cl, k)
      modifies this`runs, blocks
      ensures Valid() && k <= |runs| && |Live()| < old(|Live()|) && Others(Live(), cl) == Others(Regions(r0, 0), cl)
      ensures if stuck then blocks[fr] == ZERO && Rests(r0, runs, cl, fr)
        else fr == Start(runs, k) && Scanned(r0, runs, cl, k)
    {
      hide Total, Render, Regions, Pow2, Start, Freed, Scanned, Blocked, Swept, SweptTo;
      ghost var r1, live := runs, Live();
      RegionHere(runs, k, fr) by { RunStarts(runs, k); }
      var status := FreeByIdx(cl, fr);
      SameRun(r1, runs, k, fr);
      FewerRegions(live, fr);
      SameOthers(r0, r1, cl, k);
      WithoutOwn(live, cl, fr);
      FreedLonger(r1, k);
      stuck := FreeLeft(r1, k);
      if stuck {
        ScanBlocked(r0, r1, cl, k);
        InsideMerged(r1, k);
      } else {
        ScanFree(r0, r1, cl, k);
      }
    }
  }

  /** A client that allocates twice from a fresh pool has two regions side by side, and the scan that
      should free them gets stuck. */
  method StuckScan(a: array<Block>, base: int, cl: int) returns (ended: bool)
    requires a.Length >= 2 && 0 <= base < WORD && a.Length <= WORD
    modifies a
    ensures !ended
  {
    var pool := new Minim(a, 0, base);
    assert pool.BlockSize() == 1 && pool.BlocksFor(1) == 1;
    ghost var k;
    var region;
    region, k := pool.Alloc(cl, 1);
    assert pool.runs == [Used(1, cl), Run.Free(a.Length - 1)];
    region, k := pool.Alloc(cl, 1);
    assert k == 1 && BlockedAt(pool.runs, cl, 1);
    ended, k := pool.FreeByClient(cl);
  }
}
