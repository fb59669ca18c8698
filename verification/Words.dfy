/** The heap segment as a word memory, and the chunk fields overlaid on it. */
module Words {

  /** Address of a 32-bit word to its contents. */
  type Mem = map<int, int>

  function Rd(m: Mem, a: int): int { if a in m then m[a] else 0 }

  /** A store that cannot leave the segment. */
  function Wr(m: Mem, a: int, v: int): (r: Mem)
    requires a in m
    ensures r.Keys == m.Keys
  {
    m[a := v]
  }

  const FOOT: int := 0
  const HEAD: int := 4
  const FD: int := 8
  const BK: int := 12
  const LEFT: int := 16
  const RIGHT: int := 20
  const PARENT: int := 24
  const INDEX: int := 28

  function Foot(m: Mem, p: int): int { Rd(m, p + FOOT) }
  function Head(m: Mem, p: int): int { Rd(m, p + HEAD) }
  function Fd(m: Mem, p: int): int { Rd(m, p + FD) }
  function Bk(m: Mem, p: int): int { Rd(m, p + BK) }
  function Left(m: Mem, p: int): int { Rd(m, p + LEFT) }
  function Right(m: Mem, p: int): int { Rd(m, p + RIGHT) }
  function Parent(m: Mem, p: int): int { Rd(m, p + PARENT) }
  function Index(m: Mem, p: int): int { Rd(m, p + INDEX) }

  // ----- head words: size, PINUSE_BIT, CINUSE_BIT

  function SizeOf(head: int): int { head - head % 4 }
  predicate PInUse(head: int) { head % 2 == 1 }
  predicate CInUse(head: int) { head / 2 % 2 == 1 }
  function ClearPInUse(head: int): int { head - head % 2 }
  function SetPInUse(head: int): int { head - head % 2 + 1 }

  function HeadWord(size: int, pinuse: bool, cinuse: bool): int {
    size + (if pinuse then 1 else 0) + (if cinuse then 2 else 0)
  }

  lemma ModFour(k: int, r: int)
    requires 0 <= r < 4
    ensures (4 * k + r) % 4 == r
  {
  }

  lemma Halves(k: int, r: int)
    requires 0 <= r < 2
    ensures (2 * k + r) % 2 == r && (2 * k + r) / 2 == k
  {
  }

  /** Quotients and remainders of a multiple of 4 with flag bits. */
  lemma FourBits(q: int, r: int)
    requires 0 <= r < 4
    ensures (4 * q + r) % 4 == r && (4 * q + r) % 2 == r % 2 && (4 * q + r) / 2 % 2 == r / 2
  {
    ModFour(q, r);
    assert 4 * q + r == 2 * (2 * q + r / 2) + r % 2;
    Halves(2 * q + r / 2, r % 2);
    Halves(q, r / 2);
  }

  lemma HeadWordFields(size: int, pinuse: bool, cinuse: bool)
    requires size >= 0 && size % 8 == 0
    ensures var h := HeadWord(size, pinuse, cinuse);
            SizeOf(h) == size && PInUse(h) == pinuse && CInUse(h) == cinuse
            && ClearPInUse(h) == HeadWord(size, false, cinuse) && SetPInUse(h) == HeadWord(size, true, cinuse)
  {
    var r := (if pinuse then 1 else 0) + if cinuse then 2 else 0;
    var q := size / 8;
    assert size == 4 * (2 * q);
    FourBits(2 * q, r);
    assert HeadWord(size, pinuse, cinuse) == 4 * (2 * q) + r;
  }

  /** init_top stores `psize | PINUSE_BIT` as the head of top. It reads back as a free chunk of that
      size iff the size is a multiple of 4; other sizes put stray bits in the word. */
  lemma TopHeadExactly(psize: int)
    requires psize >= 0
    ensures var head := if psize % 2 == 0 then psize + 1 else psize;
            SizeOf(head) == psize && PInUse(head) && !CInUse(head) <==> psize % 4 == 0
  {
    var q := psize / 4;
    assert psize == 4 * q + psize % 4;
    FourBits(q, psize % 4);
    FourBits(q, if psize % 2 == 0 then psize % 4 + 1 else psize % 4);
  }
}
