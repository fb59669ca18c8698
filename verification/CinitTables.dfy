/** The overlay loader's .cinit pass: the table of initialised variables, and the loop that copies
    each record's bytes to its destination. */
module CinitTables {
  import opened Machine
  import opened Qdma

  /** One record: where its bytes go (a physical address), and the bytes. */
  datatype Rec = Rec(dst: int, bytes: seq<byte>)

  /** The macro P2V with its two bases: as far from the virtual one as `a` is from the physical one,
      modulo 2^32. */
  function ToVirt(a: int, physAddr: int, virtAddr: int): (r: int)
    ensures 0 <= r < WORD
    ensures 0 <= virtAddr + (a - physAddr) < WORD ==> r == virtAddr + (a - physAddr)
  {
    (a - physAddr + virtAddr) % WORD
  }

  lemma SameDistance(a: int, physAddr: int, virtAddr: int)
    ensures (ToVirt(a, physAddr, virtAddr) - virtAddr - (a - physAddr)) % WORD == 0
  {
    var x := a - physAddr + virtAddr;
    assert x == x / WORD * WORD + x % WORD;
  }

  /** The next multiple of 8. */
  function Pad(off: int): (r: int)
    ensures off <= r < off + 8 && r % 8 == 0
  {
    RoundUp(off, 8)
  }

  /** The size of a record with its header and padding. */
  ghost function Padded(r: Rec): (n: int)
    ensures n >= 8 + |r.bytes| && n % 8 == 0
  {
    Pad(8 + |r.bytes|)
  }

  /** `table` holds the records: each a length word, a destination word, the bytes, and padding with
      any contents to a multiple of 8, which the last record may lack. */
  ghost predicate Encodes(table: seq<byte>, recs: seq<Rec>) {
    if recs == [] then table == []
    else
      var r := recs[0];
      && 8 + |r.bytes| <= |table| && Word(table, 0) == |r.bytes| && Word(table, 4) == r.dst
      && table[8..8 + |r.bytes|] == r.bytes
      && if Padded(r) < |table| then Encodes(table[Padded(r)..], recs[1..]) else |recs| == 1
  }

  /** One write of the bytes `s` at `a`. */
  ghost function Put(m: seq<byte>, a: int, s: seq<byte>): (r: seq<byte>)
    requires 0 <= a && a + |s| <= |m|
    ensures |r| == |m|
  {
    m[..a] + s + m[a + |s|..]
  }

  /** Every destination lies in memory and clear of the table. */
  ghost predicate Targets(recs: seq<Rec>, size: int, lo: int, hi: int, physAddr: int, virtAddr: int) {
    forall r :: r in recs ==>
      var a := ToVirt(r.dst, physAddr, virtAddr);
      a + |r.bytes| <= size && (a + |r.bytes| <= lo || hi <= a)
  }

  /** The writes of all records, in order. */
  ghost function Apply(m: seq<byte>, recs: seq<Rec>, lo: int, hi: int, physAddr: int, virtAddr: int): (r: seq<byte>)
    requires Targets(recs, |m|, lo, hi, physAddr, virtAddr)
    ensures |r| == |m|
    decreases |recs|
  {
    if recs == [] then m
    else
      assert recs[0] in recs;
      Apply(Put(m, ToVirt(recs[0].dst, physAddr, virtAddr), recs[0].bytes), recs[1..], lo, hi, physAddr, virtAddr)
  }

  /** Record `r` writes address `a`. */
  ghost predicate Covers(r: Rec, a: int, physAddr: int, virtAddr: int) {
    ToVirt(r.dst, physAddr, virtAddr) <= a < ToVirt(r.dst, physAddr, virtAddr) + |r.bytes|
  }

  // ----- the same without the macro, where nothing wraps around

  /** Address `a` lies in the window, at its distance from the start. */
  predicate InWindow(a: int, physAddr: int, virtAddr: int) {
    physAddr <= a && 0 <= virtAddr && virtAddr + (a - physAddr) < 0x1_0000_0000
  }

  /** Record `r` has a byte for address `a`. */
  ghost predicate Holds(r: Rec, a: int, physAddr: int, virtAddr: int) {
    0 <= a - (virtAddr + (r.dst - physAddr)) < |r.bytes|
  }

  /** Memory `m` is `m0`, but each address that records hold a byte for has that of the last of them. */
  ghost predicate Loaded(m: seq<byte>, m0: seq<byte>, recs: seq<Rec>, physAddr: int, virtAddr: int) {
    && |m| == |m0|
    && (forall k, a :: 0 <= k < |recs| && Holds(recs[k], a, physAddr, virtAddr) && Last(recs, k, a, physAddr, virtAddr)
          ==> 0 <= a < |m| && m[a] == recs[k].bytes[a - (virtAddr + (recs[k].dst - physAddr))])
    && forall a :: 0 <= a < |m| && (forall r :: r in recs ==> !Holds(r, a, physAddr, virtAddr)) ==> m[a] == m0[a]
  }

  ghost predicate Last(recs: seq<Rec>, k: int, a: int, physAddr: int, virtAddr: int)
    requires 0 <= k < |recs|
  {
    forall j :: k < j < |recs| ==> !Holds(recs[j], a, physAddr, virtAddr)
  }

  lemma LoadedBytes(m: seq<byte>, recs: seq<Rec>, lo: int, hi: int, physAddr: int, virtAddr: int)
    requires Targets(recs, |m|, lo, hi, physAddr, virtAddr)
    requires forall r :: r in recs ==> InWindow(r.dst, physAddr, virtAddr)
    ensures Loaded(Apply(m, recs, lo, hi, physAddr, virtAddr), m, recs, physAddr, virtAddr)
  {
    hide Apply, Targets;
    var m' := Apply(m, recs, lo, hi, physAddr, virtAddr);
    forall r, a | r in recs
      ensures Covers(r, a, physAddr, virtAddr) <==> Holds(r, a, physAddr, virtAddr)
    {
    }
    hide ToVirt, Covers, Holds;
    forall k, a | 0 <= k < |recs| && Holds(recs[k], a, physAddr, virtAddr) && Last(recs, k, a, physAddr, virtAddr)
      ensures 0 <= a < |m| && m'[a] == recs[k].bytes[a - (virtAddr + (recs[k].dst - physAddr))]
    {
      assert recs[k] in recs && InWindow(recs[k].dst, physAddr, virtAddr);
      LastWins(m, recs, lo, hi, physAddr, virtAddr, k, a);
    }
    forall a | 0 <= a < |m| && forall r :: r in recs ==> !Holds(r, a, physAddr, virtAddr)
      ensures m'[a] == m[a]
    {
      Untouched(m, recs, lo, hi, physAddr, virtAddr, a);
    }
  }

  /** A byte that no record covers keeps its value. */
  lemma {:induction false} Untouched(m: seq<byte>, recs: seq<Rec>, lo: int, hi: int, physAddr: int, virtAddr: int,
        a: int)
    requires Targets(recs, |m|, lo, hi, physAddr, virtAddr) && 0 <= a < |m|
    requires forall r :: r in recs ==> !Covers(r, a, physAddr, virtAddr)
    ensures Apply(m, recs, lo, hi, physAddr, virtAddr)[a] == m[a]
    decreases |recs|
  {
    hide ToVirt;
    if recs != [] {
      assert recs[0] in recs;
      Untouched(Put(m, ToVirt(recs[0].dst, physAddr, virtAddr), recs[0].bytes), recs[1..], lo, hi, physAddr, virtAddr,
        a);
    }
  }

  /** Any other byte is what the last record to cover it says. */
  lemma {:induction false} LastWins(m: seq<byte>, recs: seq<Rec>, lo: int, hi: int, physAddr: int, virtAddr: int,
        k: nat, a: int)
    requires Targets(recs, |m|, lo, hi, physAddr, virtAddr) && k < |recs| && Covers(recs[k], a, physAddr, virtAddr)
    requires forall i :: k < i < |recs| ==> !Covers(recs[i], a, physAddr, virtAddr)
    ensures 0 <= a < |m|
    ensures Apply(m, recs, lo, hi, physAddr, virtAddr)[a] == recs[k].bytes[a - ToVirt(recs[k].dst, physAddr, virtAddr)]
    decreases |recs|
  {
    hide ToVirt;
    assert recs[0] in recs;
    var m' := Put(m, ToVirt(recs[0].dst, physAddr, virtAddr), recs[0].bytes);
    if k == 0 {
      Untouched(m', recs[1..], lo, hi, physAddr, virtAddr, a);
    } else {
      LastWins(m', recs[1..], lo, hi, physAddr, virtAddr, k - 1, a);
    }
  }

  /** Encoding: any padding will do. */
  ghost function Encode(recs: seq<Rec>): (t: seq<byte>)
    requires forall r :: r in recs ==> |r.bytes| < WORD && 0 <= r.dst < WORD
    ensures t == [] ==> recs == []
  {
    if recs == [] then []
    else
      var r := recs[0];
      assert r in recs;
      Bytes(|r.bytes|) + Bytes(r.dst) + r.bytes + seq(Padded(r) - 8 - |r.bytes|, _ => 0 as byte) + Encode(recs[1..])
  }

  /** A word, little-endian. */
  ghost function Bytes(w: int): (s: seq<byte>)
    requires 0 <= w < WORD
    ensures |s| == 4 && Word(s, 0) == w
  {
    assert w / 0x1_0000 == w / 0x100 / 0x100 && w / 0x100_0000 == w / 0x1_0000 / 0x100;
    [(w % 0x100) as byte, (w / 0x100 % 0x100) as byte, (w / 0x1_0000 % 0x100) as byte, (w / 0x100_0000) as byte]
  }

  lemma {:induction false} EncodeEncodes(recs: seq<Rec>)
    requires forall r :: r in recs ==> |r.bytes| < WORD && 0 <= r.dst < WORD
    ensures Encodes(Encode(recs), recs)
  {
    hide Word, Pad, Bytes;
    if recs != [] {
      var r, t := recs[0], Encode(recs);
      assert r in recs;
      EncodeEncodes(recs[1..]);
      Front(Bytes(|r.bytes|), Bytes(r.dst), r.bytes, seq(Padded(r) - 8 - |r.bytes|, _ => 0 as byte), Encode(recs[1..]),
        t);
      WordOf(t, 0, Bytes(|r.bytes|));
      WordOf(t, 4, Bytes(r.dst));
    }
  }

  lemma Front(a: seq<byte>, b: seq<byte>, c: seq<byte>, d: seq<byte>, e: seq<byte>, t: seq<byte>)
    requires |a| == 4 && |b| == 4 && t == a + b + c + d + e
    ensures t[0..4] == a && t[4..8] == b && t[8..8 + |c|] == c && t[8 + |c| + |d|..] == e
  {
  }

  lemma WordOf(t: seq<byte>, a: nat, s: seq<byte>)
    requires |s| == 4 && a + 4 <= |t| && t[a..a + 4] == s
    ensures Word(t, a) == Word(s, 0)
  {
    assert t[a] == s[0] && t[a + 1] == s[1] && t[a + 2] == s[2] && t[a + 3] == s[3];
  }

  /** A table holds one list of records only. */
  lemma {:induction false} EncodesOne(table: seq<byte>, recs: seq<Rec>, recs': seq<Rec>)
    requires Encodes(table, recs) && Encodes(table, recs')
    ensures recs == recs'
    decreases |table|
  {
    if recs != [] && recs' != [] {
      assert recs[0] == recs'[0];
      if Padded(recs[0]) < |table| {
        EncodesOne(table[Padded(recs[0])..], recs[1..], recs'[1..]);
      }
      assert recs == [recs[0]] + recs[1..] && recs' == [recs'[0]] + recs'[1..];
    }
  }

  /** Where record `k` starts in a table: each record before it takes 8 bytes and its own, padded to a
      multiple of 8. */
  ghost function Offset(recs: seq<Rec>, k: nat): nat
    requires k <= |recs|
  {
    if k == 0 then 0 else Offset(recs, k - 1) + (|recs[k - 1].bytes| + 15) / 8 * 8
  }

  lemma {:induction false} OffsetFront(recs: seq<Rec>, k: nat)
    requires 0 < k <= |recs|
    ensures Offset(recs, k) == Padded(recs[0]) + Offset(recs[1..], k - 1)
  {
    if k > 1 {
      OffsetFront(recs, k - 1);
      assert recs[1..][k - 2] == recs[k - 1];
    }
  }

  /** The record at `o`, byte by byte: length and destination, both with the lowest byte first, and the
      bytes. */
  ghost predicate RecordIs(t: seq<byte>, o: int, r: Rec) {
    && 0 <= o && o + 8 + |r.bytes| <= |t|
    && t[o] as int + 0x100 * t[o + 1] as int + 0x1_0000 * t[o + 2] as int + 0x100_0000 * t[o + 3] as int == |r.bytes|
    && t[o + 4] as int + 0x100 * t[o + 5] as int + 0x1_0000 * t[o + 6] as int + 0x100_0000 * t[o + 7] as int == r.dst
    && forall i :: 0 <= i < |r.bytes| ==> t[o + 8 + i] == r.bytes[i]
  }

  lemma RecordShift(t: seq<byte>, n: nat, o: int, r: Rec)
    requires n <= |t| && RecordIs(t[n..], o, r)
    ensures RecordIs(t, n + o, r)
  {
    var u := t[n..];
    forall i | 0 <= i < |r.bytes|
      ensures t[n + o + 8 + i] == r.bytes[i]
    {
      assert u[o + 8 + i] == r.bytes[i];
    }
  }

  lemma FirstBytes(t: seq<byte>, r: Rec)
    requires 8 + |r.bytes| <= |t| && Word(t, 0) == |r.bytes| && Word(t, 4) == r.dst && t[8..8 + |r.bytes|] == r.bytes
    ensures RecordIs(t, 0, r)
  {
  }

  lemma SomeBytes(table: seq<byte>, recs: seq<Rec>)
    requires Encodes(table, recs) && recs != []
    ensures table != []
  {
  }

  lemma {:induction false} RecordBytes(table: seq<byte>, recs: seq<Rec>, k: nat)
    requires Encodes(table, recs) && k < |recs|
    ensures RecordIs(table, Offset(recs, k), recs[k])
    decreases k
  {
    hide RecordIs, Word, Encodes, Pad;
    assert table != [] by { SomeBytes(table, recs); }
    FirstRecord(table, recs);
    if k == 0 {
      FirstBytes(table, recs[0]);
    } else {
      var n := Padded(recs[0]);
      OffsetFront(recs, k);
      RecordBytes(table[n..], recs[1..], k - 1);
      RecordShift(table, n, Offset(recs[1..], k - 1), recs[k]);
    }
  }

  /** The loop over the records of a table that lies in the same memory, at the virtual address of
      `cinit`: it ends, and memory is as if each record were written in order. */
  method LoadRecords(mem: array<byte>, cinit: int, size: int, physAddr: int, virtAddr: int, ghost recs: seq<Rec>)
    requires var base := ToVirt(cinit, physAddr, virtAddr);
             && 0 <= size && base + size <= mem.Length && Encodes(mem[base..base + size], recs)
             && Targets(recs, mem.Length, base, base + size, physAddr, virtAddr)
    modifies mem
    ensures var base := ToVirt(cinit, physAddr, virtAddr);
      mem[..] == Apply(old(mem[..]), recs, base, base + size, physAddr, virtAddr)
  {
    hide ToVirt, Word, Pad, Encodes, Put, Padded;
    var base := ToVirt(cinit, physAddr, virtAddr);
    ghost var rest := recs;
    ghost var table := mem[base..base + size];
    var off := 0;
    assert table[0..] == table;
    NoRecords(table, recs);
    while off < size
      invariant 0 <= off && off % 8 == 0 && (off < size ==> Encodes(table[off..], rest)) && (off >= size ==> rest == [])
      invariant mem[base..base + size] == table && Targets(rest, mem.Length, base, base + size, physAddr, virtAddr)
      invariant Apply(mem[..], rest, base, base + size, physAddr, virtAddr)
        == Apply(old(mem[..]), recs, base, base + size, physAddr, virtAddr)
      decreases size - off
    {
      ghost var was := mem[..];
      RecordAt(was, base, size, off, rest);
      ghost var r := rest[0];
      assert r in rest;
      var numBytes := Word(mem[..], base + off);
      var dst := ToVirt(Word(mem[..], base + off + 4), physAddr, virtAddr);
      off := off + 8;
      CopyBytes(mem, base + off, dst, numBytes);
      TableKept(was, mem[..], base, size, dst, r.bytes);
      off := Pad(off + numBytes);
      rest := rest[1..];
    }
  }

  /** The .cinit pass of coff_load_overlay: at address 0 there is no table. */
  method Load(mem: array<byte>, cinit: int, size: int, physAddr: int, virtAddr: int, ghost recs: seq<Rec>)
    requires cinit != 0 ==> var base := ToVirt(cinit, physAddr, virtAddr);
      && 0 <= size && base + size <= mem.Length && Encodes(mem[base..base + size], recs)
      && Targets(recs, mem.Length, base, base + size, physAddr, virtAddr)
    modifies mem
    ensures cinit == 0 ==> mem[..] == old(mem[..])
    ensures cinit != 0 ==> var base := ToVirt(cinit, physAddr, virtAddr);
      mem[..] == Apply(old(mem[..]), recs, base, base + size, physAddr, virtAddr)
    ensures cinit != 0 && InWindow(cinit, physAddr, virtAddr) ==>
      var base := virtAddr + (cinit - physAddr);
      base + size <= mem.Length && Encodes(old(mem[..])[base..base + size], recs)
    ensures cinit != 0 && (forall r :: r in recs ==> InWindow(r.dst, physAddr, virtAddr)) ==>
      Loaded(mem[..], old(mem[..]), recs, physAddr, virtAddr)
  {
    hide Encodes, Apply, Loaded, Targets;
    if cinit != 0 {
      ghost var base, m0 := ToVirt(cinit, physAddr, virtAddr), mem[..];
      assert m0[base..base + size] == mem[base..base + size];
      LoadRecords(mem, cinit, size, physAddr, virtAddr, recs);
      if forall r :: r in recs ==> InWindow(r.dst, physAddr, virtAddr) {
        LoadedBytes(m0, recs, base, base + size, physAddr, virtAddr);
      }
    }
  }

  /** The first record of a table. */
  lemma FirstRecord(t: seq<byte>, recs: seq<Rec>)
    requires Encodes(t, recs) && t != []
    ensures recs != [] && 8 + |recs[0].bytes| <= |t| && Word(t, 0) == |recs[0].bytes| && Word(t, 4) == recs[0].dst
    ensures t[8..8 + |recs[0].bytes|] == recs[0].bytes
    ensures if Padded(recs[0]) < |t| then Encodes(t[Padded(recs[0])..], recs[1..]) else recs[1..] == []
  {
  }

  /** What the loop reads at `off`. */
  lemma RecordAt(m: seq<byte>, base: int, size: int, off: int, rest: seq<Rec>)
    requires 0 <= base && 0 <= off < size && base + size <= |m| && off % 8 == 0
    requires Encodes(m[base..base + size][off..], rest)
    ensures rest != [] && off + 8 + |rest[0].bytes| <= size
    ensures Word(m, base + off) == |rest[0].bytes| && Word(m, base + off + 4) == rest[0].dst
    ensures m[base + off + 8..base + off + 8 + |rest[0].bytes|] == rest[0].bytes
    ensures var next := Pad(off + 8 + |rest[0].bytes|);
            if next < size then Encodes(m[base..base + size][next..], rest[1..]) else rest[1..] == []
  {
    hide Word, Pad, Encodes;
    var t := m[base..base + size][off..];
    FirstRecord(t, rest);
    var r := rest[0];
    SliceOf(m, base, size, off, t, 0, 4);
    SliceOf(m, base, size, off, t, 4, 8);
    SliceOf(m, base, size, off, t, 8, 8 + |r.bytes|);
    WordOf(t, 0, t[0..4]);
    WordOf(t, 4, t[4..8]);
    WordOf(m, base + off, t[0..4]);
    WordOf(m, base + off + 4, t[4..8]);
    RoundFrom(off, 8 + |r.bytes|);
    if Padded(r) < |t| {
      assert t[Padded(r)..] == m[base..base + size][off + Padded(r)..];
    }
  }

  lemma SliceOf(m: seq<byte>, base: int, size: int, off: int, t: seq<byte>, i: int, j: int)
    requires 0 <= base && 0 <= off <= size && base + size <= |m| && t == m[base..base + size][off..]
    requires 0 <= i <= j <= |t|
    ensures m[base + off + i..base + off + j] == t[i..j]
  {
    var p, q := m[base + off + i..base + off + j], t[i..j];
    assert forall k :: 0 <= k < j - i ==> p[k] == q[k];
  }

  lemma RoundFrom(off: int, n: int)
    requires off % 8 == 0
    ensures Pad(off + n) == off + Pad(n)
  {
  }

  lemma TableKept(m: seq<byte>, m': seq<byte>, base: int, size: int, dst: int, s: seq<byte>)
    requires 0 <= dst && dst + |s| <= |m| && m' == Put(m, dst, s) && 0 <= base && 0 <= size && base + size <= |m|
    requires dst + |s| <= base || base + size <= dst
    ensures m'[base..base + size] == m[base..base + size]
  {
    assert forall a :: base <= a < base + size ==> m'[a] == m[a];
  }

  lemma NoRecords(table: seq<byte>, recs: seq<Rec>)
    requires Encodes(table, recs)
    ensures |table| == 0 ==> recs == []
  {
  }

  /** Memory byte by byte after a put. */
  lemma PutAt(m': seq<byte>, m: seq<byte>, dst: int, s: seq<byte>)
    requires |m'| == |m| && 0 <= dst && dst + |s| <= |m|
    requires forall a :: 0 <= a < |m| ==> m'[a] == if dst <= a < dst + |s| then s[a - dst] else m[a]
    ensures m' == Put(m, dst, s)
  {
  }

  /** The inner loop. */
  method CopyBytes(mem: array<byte>, src: int, dst: int, n: nat)
    requires 0 <= src && src + n <= mem.Length && 0 <= dst && dst + n <= mem.Length
    requires dst + n <= src || src + n <= dst
    modifies mem
    ensures mem[..] == Put(old(mem[..]), dst, old(mem[src..src + n]))
  {
    ghost var was := mem[..];
    var d, off, numBytes := dst, src, n;
    while numBytes > 0
      invariant 0 <= numBytes <= n && d == dst + n - numBytes && off == src + n - numBytes
      invariant forall a :: 0 <= a < mem.Length ==>
        mem[a] == if dst <= a < d then old(mem[a - dst + src]) else old(mem[a])
    {
      mem[d] := mem[off];
      numBytes, d, off := numBytes - 1, d + 1, off + 1;
    }
    PutAt(mem[..], was, dst, was[src..src + n]);
  }
}
