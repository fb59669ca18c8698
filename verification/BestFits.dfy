/** The best-fit searches of tmalloc_large and tmalloc_small over tries in memory. */
module BestFits {
  import opened Machine
  import opened BinIndex
  import opened Words
  import opened Tries
  import opened TreeWords

  /** Memory `m` holds trie `t` as far as a search reads it: sizes and children. */
  ghost predicate Holds(m: Mem, t: Tree) {
    t.Node? ==>
      && t.p != 0 && SizeOf(Head(m, t.p)) == t.sz && Left(m, t.p) == Ptr(t.l) && Right(m, t.p) == Ptr(t.r)
      && Holds(m, t.l) && Holds(m, t.r)
  }

  lemma {:induction false} RepHolds(m: Mem, t: Tree, parent: int, bin: int)
    requires TreeRep(m, t, parent, bin)
    ensures Holds(m, t)
  {
    if t.Node? {
      RestHere(t);
      RepHolds(m, t.l, t.p, bin);
      RepHolds(m, t.r, t.p, bin);
    }
  }

  ghost predicate Above(t: Tree, lo: int) { forall s :: s in Sizes(t) ==> s >= lo }

  ghost predicate Below(t: Tree, hi: int) { forall s :: s in Sizes(t) ==> s < hi }

  lemma TrieBelow(t: Tree, lo: int, k: nat)
    requires Trie(t, lo, k)
    ensures Below(t, lo + 2 * Pow2(k)) && Above(t, lo)
  {
    forall s | s in Sizes(t) ensures lo <= s < lo + 2 * Pow2(k) { SizesInRange(t, lo, k, s); }
  }

  function Fit(sz: int, nb: int): int { if sz >= nb then sz else WORD }

  lemma FitAbove(t: Tree, nb: int, lo: int)
    requires Below(t, WORD) && Above(t, lo) && lo <= WORD
    ensures BestFit(t, nb) >= lo
  {
    BestFitIsLeast(t, nb);
  }

  lemma FitBelow(t: Tree, nb: int, hi: int)
    requires Below(t, hi) && Above(t, nb) && t.Node? && hi <= WORD
    ensures BestFit(t, nb) < hi
  {
    assert t.sz in Sizes(t);
    BestFitIsLeast(t, nb);
  }

  lemma NoFit(t: Tree, nb: int)
    requires Below(t, nb) && nb <= WORD
    ensures BestFit(t, nb) == WORD
  {
    BestFitIsLeast(t, nb);
  }

  lemma ChildBelow(t: Tree, hi: int)
    requires t.Node? && Below(t, hi)
    ensures Below(t.l, hi) && Below(t.r, hi) && t.sz < hi
  {
    assert Sizes(t.l) <= Sizes(t) && Sizes(t.r) <= Sizes(t) && t.sz in Sizes(t);
  }

  lemma ChildAbove(t: Tree, lo: int)
    requires t.Node? && Above(t, lo)
    ensures Above(t.l, lo) && Above(t.r, lo) && t.sz >= lo
  {
    assert Sizes(t.l) <= Sizes(t) && Sizes(t.r) <= Sizes(t) && t.sz in Sizes(t);
  }

  // ----- going down along the bits of the request

  /** The request's bit is 0: whatever the right subtree holds fits better than an older,
      shallower right subtree. */
  lemma SearchLeft(t: Tree, lo: int, k: nat, nb: int, rst: Tree)
    requires Trie(t, lo, k) && t.Node? && t.sz != nb && Fits(nb, lo, k) && nb < lo + Pow2(k) && lo + 2 * Pow2(k) <= WORD
    requires Below(rst, WORD) && Above(rst, lo + 2 * Pow2(k))
    ensures var rst' := if t.r.Node? then t.r else rst;
            && Min(BestFit(t, nb), BestFit(rst, nb)) == Min(Fit(t.sz, nb), Min(BestFit(t.l, nb), BestFit(rst', nb)))
            && Below(rst', WORD) && Above(rst', lo + Pow2(k))
  {
    FitsBelow(t, lo, k, nb);
    TrieBelow(t.r, lo + Pow2(k), k - 1);
    if t.r.Node? {
      FitBelow(t.r, nb, lo + 2 * Pow2(k));
      FitAbove(rst, nb, lo + 2 * Pow2(k));
    }
  }

  /** The request's bit is 1: nothing in the left subtree is large enough. */
  lemma SearchRight(t: Tree, lo: int, k: nat, nb: int, rst: Tree)
    requires Trie(t, lo, k) && t.Node? && t.sz != nb && Fits(nb, lo, k) && nb >= lo + Pow2(k) && nb < WORD
    ensures Min(BestFit(t, nb), BestFit(rst, nb)) == Min(Fit(t.sz, nb), Min(BestFit(t.r, nb), BestFit(rst, nb)))
  {
    hide Fits, Sizes;
    FitsBelow(t, lo, k, nb);
    TrieBelow(t.l, lo, k - 1);
    NoFit(t.l, nb);
  }

  /** The smallest chunk of a trie all of whose chunks fit is found by keeping left. */
  lemma LeftmostStep(t: Tree, lo: int, k: nat, nb: int)
    requires Trie(t, lo, k) && t.Node? && Above(t, nb) && Below(t, WORD) && lo + 2 * Pow2(k) <= WORD
    ensures var c := if t.l.Node? then t.l else t.r;
            BestFit(t, nb) == Min(t.sz, BestFit(c, nb)) && Above(c, nb) && Below(c, WORD)
  {
    ChildBelow(t, WORD);
    ChildAbove(t, nb);
    if t.l.Node? {
      TrieBelow(t.l, lo, k - 1);
      TrieBelow(t.r, lo + Pow2(k), k - 1);
      FitBelow(t.l, nb, lo + Pow2(k));
      FitAbove(t.r, nb, lo + Pow2(k));
    }
  }

  lemma Remainder(sz: int, nb: int)
    requires 0 <= sz < WORD && 0 < nb < WORD
    ensures (sz - nb) % WORD == if sz >= nb then sz - nb else sz - nb + WORD
  {
  }

  /** What a search has found so far: nothing, or chunk `v` whose size exceeds the request by `rsize`. */
  ghost predicate Found(inv: map<int, int>, c: set<int>, v: int, rsize: int, nb: int) {
    if v == 0 then rsize == WORD - nb else v in c && v in inv && inv[v] == rsize + nb && 0 <= rsize < WORD - nb
  }

  /** The chunks in the tree, without those chained to them. */
  function Tops(t: Tree): set<int> {
    if t.Nil? then {} else {t.p} + Tops(t.l) + Tops(t.r)
  }

  lemma FoundHere(inv: map<int, int>, c: set<int>, t: Tree, nb: int)
    requires t.Node? && t.p != 0 && Sized(t, inv) && Tops(t) <= c && nb <= t.sz < WORD
    ensures Found(inv, c, t.p, t.sz - nb, nb)
  {
    RestHere(t);
  }

  /** A subtree together with its place in the trie. */
  datatype Place = Place(t: Tree, lo: int, k: nat)

  /** Word `p` points to the subtree at place `c` of a trie held by `m`, all of whose tree chunks are in `all`. */
  ghost predicate Walking(m: Mem, inv: map<int, int>, all: set<int>, p: int, c: Place) {
    && p == Ptr(c.t) && Holds(m, c.t) && Trie(c.t, c.lo, c.k) && Sized(c.t, inv) && Tops(c.t) <= all
    && c.lo >= 0 && c.lo + 2 * Pow2(c.k) <= WORD
  }

  function LeftPlace(c: Place): Place
    requires c.t.Node? && c.k > 0
  {
    Place(c.t.l, c.lo, c.k - 1)
  }

  function RightPlace(c: Place): Place
    requires c.t.Node? && c.k > 0
  {
    Place(c.t.r, c.lo + Pow2(c.k), c.k - 1)
  }

  lemma WalkOn(m: Mem, inv: map<int, int>, all: set<int>, p: int, c: Place)
    requires Walking(m, inv, all, p, c) && c.t.Node?
    ensures c.k > 0 && p != 0 && SizeOf(Head(m, p)) == c.t.sz && 0 <= c.t.sz < WORD
    ensures Walking(m, inv, all, Left(m, p), LeftPlace(c)) && Walking(m, inv, all, Right(m, p), RightPlace(c))
    ensures Left(m, p) == 0 <==> c.t.l.Nil?
    ensures Right(m, p) == 0 <==> c.t.r.Nil?
    ensures c.t.l.Node? && c.t.r.Node? ==> Left(m, p) != Right(m, p)
  {
    hide Tops, Sizes;
    ChildPlaces(c.t, c.lo, c.k);
    SizeBounds(c.t, c.lo, c.k);
    TopsWithin(c.t, all);
    ChildrenDiffer(c.t, c.lo, c.k, inv);
  }

  lemma SizeBounds(t: Tree, lo: int, k: nat)
    requires Trie(t, lo, k) && t.Node? && lo >= 0 && lo + 2 * Pow2(k) <= WORD
    ensures 0 <= t.sz < WORD
  {
    TrieBelow(t, lo, k);
    assert t.sz in Sizes(t);
  }

  lemma TopsWithin(t: Tree, all: set<int>)
    requires t.Node? && Tops(t) <= all
    ensures Tops(t.l) <= all && Tops(t.r) <= all
  {
  }

  /** Where the first loop stands: at place `c`, with place `d` the deepest right subtree not
      taken, the best size so far being `best`. Nothing else can hold the best fit `total`. */
  ghost predicate Searching(m: Mem, inv: map<int, int>, all: set<int>, nb: int, total: int, t: int, c: Place,
        bits: int, rst: int, d: Place, best: int) {
    && Walking(m, inv, all, t, c) && c.t.Node? && Fits(nb, c.lo, c.k) && BitsAt(bits, nb, c.lo, c.k)
    && Walking(m, inv, all, rst, d) && Below(d.t, WORD) && Above(d.t, c.lo + 2 * Pow2(c.k))
    && Min(best, Min(BestFit(c.t, nb), BestFit(d.t, nb))) == total
  }

  /** Looking at a node: the unsigned comparison picks it exactly if it fits and fits better. */
  lemma Visit(m: Mem, inv: map<int, int>, all: set<int>, t: int, c: Place, nb: int, rsize: int)
    requires Walking(m, inv, all, t, c) && c.t.Node? && 0 < nb < WORD && 0 <= rsize <= WORD - nb
    ensures var trem := (SizeOf(Head(m, t)) - nb) % WORD;
            if trem < rsize then Found(inv, all, t, trem, nb) && nb + trem == Min(nb + rsize, Fit(c.t.sz, nb))
            else nb + rsize == Min(nb + rsize, Fit(c.t.sz, nb))
  {
    WalkOn(m, inv, all, t, c);
    Remainder(c.t.sz, nb);
    if c.t.sz >= nb { FoundHere(inv, all, c.t, nb); }
  }

  lemma GoLeft(m: Mem, inv: map<int, int>, all: set<int>, nb: int, total: int, t: int, c: Place, bits: int, rst: int,
        d: Place, best: int)
    requires Searching(m, inv, all, nb, total, t, c, bits, rst, d, best) && c.t.sz != nb
    requires best == Min(best, Fit(c.t.sz, nb))
    requires c.k > 0 && nb < c.lo + Pow2(c.k)
    ensures var d' := if c.t.r.Node? then RightPlace(c) else d;
            var rst' := if c.t.r.Node? then Right(m, t) else rst;
            && Walking(m, inv, all, rst', d') && Below(d'.t, WORD) && Above(d'.t, c.lo + Pow2(c.k))
            && Min(best, Min(BestFit(c.t.l, nb), BestFit(d'.t, nb))) == total
            && (c.t.l.Node? ==>
               Searching(m, inv, all, nb, total, Left(m, t), LeftPlace(c), ShiftOut(bits), rst', d', best))
    ensures TopBit(bits) == 0 && Walking(m, inv, all, Left(m, t), LeftPlace(c))
  {
    hide Rd, Trie, Fits, Sizes, Tops;
    WalkOn(m, inv, all, t, c);
    FitsBelow(c.t, c.lo, c.k, nb);
    BitsStep(bits, nb, c.lo, c.k);
    SearchLeft(c.t, c.lo, c.k, nb, d.t);
  }

  lemma GoRight(m: Mem, inv: map<int, int>, all: set<int>, nb: int, total: int, t: int, c: Place, bits: int, rst: int,
        d: Place, best: int)
    requires Searching(m, inv, all, nb, total, t, c, bits, rst, d, best) && c.t.sz != nb
    requires best == Min(best, Fit(c.t.sz, nb))
    requires c.k > 0 && nb >= c.lo + Pow2(c.k)
    ensures Above(d.t, c.lo + 2 * Pow2(c.k)) && Min(best, Min(BestFit(c.t.r, nb), BestFit(d.t, nb))) == total
    ensures c.t.r.Node? ==> Searching(m, inv, all, nb, total, Right(m, t), RightPlace(c), ShiftOut(bits), rst, d, best)
    ensures TopBit(bits) == 1 && Walking(m, inv, all, Right(m, t), RightPlace(c))
  {
    hide BestFit, TopBit, Fit, Holds, Sizes, Trie, BitsAt, Tops;
    WalkOn(m, inv, all, t, c);
    FitsBelow(c.t, c.lo, c.k, nb);
    BitsStep(bits, nb, c.lo, c.k);
    TrieBelow(c.t, c.lo, c.k);
    SearchRight(c.t, c.lo, c.k, nb, d.t);
  }

  lemma SearchStart(m: Mem, inv: map<int, int>, all: set<int>, nb: int, t: int, c: Place, bits: int)
    requires Walking(m, inv, all, t, c) && c.t.Node? && Fits(nb, c.lo, c.k) && BitsAt(bits, nb, c.lo, c.k)
    ensures Searching(m, inv, all, nb, BestFit(c.t, nb), t, c, bits, 0, Place(Nil, c.lo, c.k), WORD)
    ensures Fits(nb, c.lo, c.k) ==> nb < WORD
  {
    BestFitTop(c.t, c.lo, c.k, nb);
  }

  lemma SearchBetter(m: Mem, inv: map<int, int>, all: set<int>, nb: int, total: int, t: int, c: Place, bits: int,
        rst: int, d: Place, best: int, best': int)
    requires Searching(m, inv, all, nb, total, t, c, bits, rst, d, best) && best' == Min(best, Fit(c.t.sz, nb))
    requires nb <= best <= WORD
    ensures Searching(m, inv, all, nb, total, t, c, bits, rst, d, best')
    ensures best' != nb ==> c.t.sz != nb
    ensures best' == nb ==> Min(nb, BestFit(c.t, nb)) == total
  {
    BestFitTop(c.t, c.lo, c.k, nb);
    AtLeast(c.t, d.t, nb);
  }

  /** One step down. */
  lemma SearchStep(m: Mem, inv: map<int, int>, all: set<int>, nb: int, total: int, t: int, c: Place, bits: int,
        rst: int, d: Place, best: int)
    requires Searching(m, inv, all, nb, total, t, c, bits, rst, d, best) && c.t.sz != nb
    requires best == Min(best, Fit(c.t.sz, nb)) && best <= WORD
    ensures c.k > 0 && 0 <= TopBit(bits) <= 1
    ensures var rt, t' := Right(m, t), if TopBit(bits) == 0 then Left(m, t) else Right(m, t);
            var rst', d' := if rt != 0 && rt != t' then rt else rst, if rt != 0 && rt != t' then RightPlace(c) else d;
            var c' := if TopBit(bits) == 0 then LeftPlace(c) else RightPlace(c);
            if t' != 0 then Searching(m, inv, all, nb, total, t', c', ShiftOut(bits), rst', d', best)
            else Walking(m, inv, all, rst', d') && Above(d'.t, nb) && Min(best, BestFit(d'.t, nb)) == total
  {
    hide Holds, Trie, Sized, Tops, BitsAt;
    WalkOn(m, inv, all, t, c);
    if nb < c.lo + Pow2(c.k) {
      GoLeft(m, inv, all, nb, total, t, c, bits, rst, d, best);
      SearchOver(nb, c.t.l, if c.t.r.Node? then c.t.r else d.t, best);
    } else {
      GoRight(m, inv, all, nb, total, t, c, bits, rst, d, best);
      SearchOver(nb, c.t.r, d.t, best);
    }
  }

  lemma SearchOver(nb: int, l: Tree, d: Tree, best: int)
    requires Below(d, WORD) && best <= WORD
    ensures l.Nil? ==> Min(best, Min(BestFit(l, nb), BestFit(d, nb))) == Min(best, BestFit(d, nb))
  {
    BestFitIsLeast(d, nb);
  }

  /** The first loop of tmalloc_large: follow the bits of `nb` down from `root`. All it has not
      looked at that may matter is the deepest right subtree it did not take. */
  method SearchBin(m: Mem, root: int, nb: int, bits: int, ghost c0: Place, ghost inv: map<int, int>,
        ghost all: set<int>)
    returns (v: int, rsize: int, t: int, ghost left: Place)
    requires Walking(m, inv, all, root, c0) && c0.t.Node? && Fits(nb, c0.lo, c0.k) && BitsAt(bits, nb, c0.lo, c0.k)
    requires 0 < nb < WORD
    ensures Found(inv, all, v, rsize, nb) && Walking(m, inv, all, t, left)
    ensures Min(nb + rsize, BestFit(left.t, nb)) == BestFit(c0.t, nb)
    ensures rsize == 0 || Above(left.t, nb)
  {
    hide Walking, Searching, Holds, Trie, Sized, Tops, BestFit, BitsAt, Pow2, Above, Below, Fits, Fit, Left, Right;
    v, rsize, t := 0, WORD - nb, root;
    var sizebits, rst := bits, 0;
    ghost var c, d := c0, Place(Nil, c0.lo, c0.k);
    ghost var total := BestFit(c0.t, nb);
    SearchStart(m, inv, all, nb, t, c, bits);
    while true
      invariant Searching(m, inv, all, nb, total, t, c, sizebits, rst, d, nb + rsize) && c.t.Node?
      invariant Found(inv, all, v, rsize, nb) && 0 < rsize <= WORD - nb
      decreases c.t
    {
      Unfold(m, inv, all, nb, total, t, c, sizebits, rst, d, nb + rsize);
      Visit(m, inv, all, t, c, nb, rsize);
      var trem := (SizeOf(Head(m, t)) - nb) % WORD;
      SearchBetter(m, inv, all, nb, total, t, c, sizebits, rst, d, nb + rsize, Min(nb + rsize, Fit(c.t.sz, nb)));
      if trem < rsize {
        v, rsize := t, trem;
        if rsize == 0 {
          left := c;
          break;
        }
      }
      SearchStep(m, inv, all, nb, total, t, c, sizebits, rst, d, nb + rsize);
      var rt := Right(m, t);
      t := if TopBit(sizebits) == 0 then Left(m, t) else Right(m, t);
      if rt != 0 && rt != t {
        rst := rt;
        d := RightPlace(c);
      }
      if t == 0 {
        t := rst;
        left := d;
        break;
      }
      c := if TopBit(sizebits) == 0 then LeftPlace(c) else RightPlace(c);
      sizebits := ShiftOut(sizebits);
      Unfold(m, inv, all, nb, total, t, c, sizebits, rst, d, nb + rsize);
    }
  }

  lemma Unfold(m: Mem, inv: map<int, int>, all: set<int>, nb: int, total: int, t: int, c: Place, bits: int, rst: int,
        d: Place, best: int)
    requires Searching(m, inv, all, nb, total, t, c, bits, rst, d, best)
    ensures Walking(m, inv, all, t, c) && c.t.Node? && t != 0
  {
    WalkOn(m, inv, all, t, c);
  }

  lemma BestFitTop(t: Tree, lo: int, k: nat, nb: int)
    requires Trie(t, lo, k) && lo + 2 * Pow2(k) <= WORD
    ensures BestFit(t, nb) <= WORD && Below(t, WORD)
  {
    TrieBelow(t, lo, k);
    BestFitIsLeast(t, nb);
  }

  lemma AtLeast(t: Tree, u: Tree, nb: int)
    requires Below(t, WORD) && Below(u, WORD) && nb <= WORD
    ensures BestFit(t, nb) >= nb && BestFit(u, nb) >= nb
  {
    BestFitIsLeast(t, nb);
    BestFitIsLeast(u, nb);
  }

  lemma ChildrenDiffer(t: Tree, lo: int, k: nat, inv: map<int, int>)
    requires t.Node? && Trie(t, lo, k) && Sized(t, inv)
    ensures t.l.Node? && t.r.Node? ==> t.l.p != t.r.p
  {
    SidesDisjoint(t, lo, k, inv);
    RestHere(t);
    if t.l.Node? { RestHere(t.l); assert t.l.p in Elems(t.l); }
    if t.r.Node? { RestHere(t.r); assert t.r.p in Elems(t.r); }
  }

  lemma ChildPlaces(t: Tree, lo: int, k: nat)
    requires Trie(t, lo, k) && t.Node?
    ensures k >= 2 && Trie(t.l, lo, k - 1) && Trie(t.r, lo + Pow2(k), k - 1) && Pow2(k) == 2 * Pow2(k - 1)
  {
  }

  /** leftmost_child */
  function LeftmostChild(m: Mem, t: int): int { if Left(m, t) != 0 then Left(m, t) else Right(m, t) }

  ghost predicate Leftmost(m: Mem, inv: map<int, int>, all: set<int>, nb: int, total: int, t: int, c: Place,
        best: int) {
    Walking(m, inv, all, t, c) && Above(c.t, nb) && Min(best, BestFit(c.t, nb)) == total
  }

  lemma LeftmostVisited(m: Mem, inv: map<int, int>, all: set<int>, nb: int, total: int, t: int, c: Place, best: int,
        best': int)
    requires Leftmost(m, inv, all, nb, total, t, c, best) && c.t.Node? && 0 < nb < WORD
    requires best' == Min(best, Fit(c.t.sz, nb))
    ensures c.k > 0
    ensures Leftmost(m, inv, all, nb, total, LeftmostChild(m, t), if c.t.l.Node? then LeftPlace(c) else RightPlace(c),
      best')
  {
    WalkOn(m, inv, all, t, c);
    TrieBelow(c.t, c.lo, c.k);
    LeftmostStep(c.t, c.lo, c.k, nb);
    ChildAbove(c.t, nb);
  }

  /** The second loop of tmalloc_large, and the loop of tmalloc_small: keep left from `t0`.
      After an exact fit it changes nothing. */
  method SearchLeftmost(m: Mem, t0: int, nb: int, v0: int, rsize0: int, ghost c0: Place, ghost inv: map<int, int>,
        ghost all: set<int>)
    returns (v: int, rsize: int)
    requires Walking(m, inv, all, t0, c0) && 0 < nb < WORD
    requires Found(inv, all, v0, rsize0, nb) && (rsize0 == 0 || Above(c0.t, nb))
    ensures Found(inv, all, v, rsize, nb)
    ensures nb + rsize == Min(nb + rsize0, BestFit(c0.t, nb))
  {
    hide Walking, Leftmost, Holds, Trie, Sized, Tops, BestFit, Pow2, Above, Below, Left, Right, LeftmostChild;
    var t := t0;
    v, rsize := v0, rsize0;
    ghost var c, total := c0, Min(nb + rsize0, BestFit(c0.t, nb));
    LeftmostStart(m, inv, all, nb, t, c, nb + rsize);
    while t != 0
      invariant Walking(m, inv, all, t, c)
      invariant Found(inv, all, v, rsize, nb) && 0 <= rsize <= WORD - nb
      invariant if rsize0 == 0 then rsize == 0 else Leftmost(m, inv, all, nb, total, t, c, nb + rsize)
      decreases c.t
    {
      NotNil(m, inv, all, t, c);
      Visit(m, inv, all, t, c, nb, rsize);
      if rsize0 != 0 { LeftmostVisited(m, inv, all, nb, total, t, c, nb + rsize, Min(nb + rsize, Fit(c.t.sz, nb))); }
      var trem := (SizeOf(Head(m, t)) - nb) % WORD;
      if trem < rsize {
        v, rsize := t, trem;
      }
      t := LeftmostChild(m, t);
      c := if c.t.l.Node? then LeftPlace(c) else RightPlace(c);
    }
    LeftmostOver(m, inv, all, nb, total, t, c, nb + rsize, rsize0 == 0);
  }

  lemma LeftmostStart(m: Mem, inv: map<int, int>, all: set<int>, nb: int, t: int, c: Place, best: int)
    requires Walking(m, inv, all, t, c) && nb < WORD
    ensures BestFit(c.t, nb) >= nb
    ensures Above(c.t, nb) ==> Leftmost(m, inv, all, nb, Min(best, BestFit(c.t, nb)), t, c, best)
  {
    BestFitTop(c.t, c.lo, c.k, nb);
    AtLeast(c.t, c.t, nb);
  }

  lemma NotNil(m: Mem, inv: map<int, int>, all: set<int>, t: int, c: Place)
    requires Walking(m, inv, all, t, c) && t != 0
    ensures c.t.Node? && c.k > 0
    ensures Walking(m, inv, all, LeftmostChild(m, t), if c.t.l.Node? then LeftPlace(c) else RightPlace(c))
  {
    WalkOn(m, inv, all, t, c);
  }

  lemma LeftmostOver(m: Mem, inv: map<int, int>, all: set<int>, nb: int, total: int, t: int, c: Place, best: int,
        exact: bool)
    requires Walking(m, inv, all, t, c) && t == 0 && best <= WORD
    requires exact || Leftmost(m, inv, all, nb, total, t, c, best)
    ensures exact || best == total
  {
    if c.t.Node? { WalkOn(m, inv, all, t, c); }
  }
}
