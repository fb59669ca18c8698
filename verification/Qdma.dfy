/** The DSP's memory and one QDMA channel. A transfer runs beside the processor: between its start
    and the wait for it, any of its bytes may have landed, in any order. */
module Qdma {
  import opened Machine

  newtype byte = x: int | 0 <= x < 256

  /** The little-endian word at `a`. */
  function Word(m: seq<byte>, a: int): (r: int)
    requires 0 <= a && a + 4 <= |m|
    ensures 0 <= r < WORD
  {
    m[a] as int + 0x100 * m[a + 1] as int + 0x1_0000 * m[a + 2] as int + 0x100_0000 * m[a + 3] as int
  }

  /** The four bytes at `a` are those of `w`, the lowest first. */
  ghost predicate BytesOf(m: seq<byte>, a: int, w: int) {
    && 0 <= a && a + 4 <= |m|
    && m[a] as int == w % 0x100 && m[a + 1] as int == w / 0x100 % 0x100
    && m[a + 2] as int == w / 0x1_0000 % 0x100 && m[a + 3] as int == w / 0x100_0000 % 0x100
  }

  /** The byte addresses of `ny` rows of `nx` bytes, the rows `pitch` apart. */
  function Rows(base: int, pitch: int, nx: nat, ny: nat): (r: seq<int>)
    ensures |r| == nx * ny
  {
    if ny == 0 then [] else Rows(base, pitch, nx, ny - 1) + seq(nx, i => base + (ny - 1) * pitch + i)
  }

  /** The bytes at the addresses `as`. */
  ghost function Gather(m: seq<byte>, from: seq<int>): (r: seq<byte>)
    requires forall j :: 0 <= j < |from| ==> 0 <= from[j] < |m|
    ensures |r| == |from| && forall j :: 0 <= j < |from| ==> r[j] == m[from[j]]
  {
    if from == [] then [] else [m[from[0]]] + Gather(m, from[1..])
  }

  /** The four bytes of a word. */
  method Split(w: int) returns (b0: byte, b1: byte, b2: byte, b3: byte)
    requires 0 <= w < WORD
    ensures b0 as int + 0x100 * b1 as int + 0x1_0000 * b2 as int + 0x100_0000 * b3 as int == w
    ensures b0 as int == w % 0x100 && b1 as int == w / 0x100 % 0x100
    ensures b2 as int == w / 0x1_0000 % 0x100 && b3 as int == w / 0x100_0000 % 0x100
  {
    b0 := (w % 0x100) as byte;
    b1 := (w / 0x100 % 0x100) as byte;
    b2 := (w / 0x1_0000 % 0x100) as byte;
    b3 := (w / 0x100_0000) as byte;
    assert w / 0x1_0000 == w / 0x100 / 0x100 && w / 0x100_0000 == w / 0x1_0000 / 0x100;
  }

  /** The address of byte `x` of row `y`. */
  function At(base: int, pitch: int, y: nat, x: nat): int {
    base + y * pitch + x
  }

  lemma InRows(nx: nat, ny: nat, y: nat, x: nat)
    requires y < ny && x < nx
    ensures 0 <= y * nx + x < nx * ny
  {
    assert (y + 1) * nx <= ny * nx;
  }

  lemma {:induction false} RowsAt(base: int, pitch: int, nx: nat, ny: nat, y: nat, x: nat)
    requires y < ny && x < nx
    ensures 0 <= y * nx + x < |Rows(base, pitch, nx, ny)|
    ensures Rows(base, pitch, nx, ny)[y * nx + x] == At(base, pitch, y, x)
    decreases ny
  {
    var rest := Rows(base, pitch, nx, ny - 1);
    Distribute(nx, ny);
    InRows(nx, ny, y, x);
    if y < ny - 1 {
      RowsAt(base, pitch, nx, ny - 1, y, x);
      assert Rows(base, pitch, nx, ny)[y * nx + x] == rest[y * nx + x];
    } else {
      assert y * nx + x == |rest| + x;
    }
  }

  lemma Distribute(nx: nat, ny: nat)
    requires ny > 0
    ensures nx * ny == nx * (ny - 1) + nx && (ny - 1) * nx == nx * (ny - 1)
  {
  }

  lemma {:induction false} RowsOnly(base: int, pitch: int, nx: nat, ny: nat, j: nat) returns (y: nat, x: nat)
    requires j < |Rows(base, pitch, nx, ny)|
    ensures y < ny && x < nx && Rows(base, pitch, nx, ny)[j] == At(base, pitch, y, x) && j == y * nx + x
    decreases ny
  {
    assert ny > 0;
    var rest := Rows(base, pitch, nx, ny - 1);
    Distribute(nx, ny);
    if j < |rest| {
      y, x := RowsOnly(base, pitch, nx, ny - 1, j);
    } else {
      y, x := ny - 1, j - nx * (ny - 1);
    }
  }

  /** Rows that follow each other are one stretch of memory. */
  lemma {:induction false} RowsFlat(base: int, nx: nat, ny: nat, j: nat)
    requires j < nx * ny
    ensures Rows(base, nx, nx, ny)[j] == base + j
  {
    var y, x := RowsOnly(base, nx, nx, ny, j);
  }

  /** What the 16-bit pitch fields of a transfer make of a pitch: they are read as signed. */
  function Pitch16(pitch: int): int {
    var u := pitch % 0x1_0000;
    if u < 0x8000 then u else u - 0x1_0000
  }

  /** The rows of a transfer as the driver programs it: counts and pitches have 16 bits each. */
  function Programmed(base: int, pitch: int, nx: nat, ny: nat): seq<int> {
    Rows(base, Pitch16(pitch), nx % 0x1_0000, ny % 0x1_0000)
  }

  /** The rows asked for are the rows programmed iff the limits of the interface are kept, as far as
      they matter: nothing is to be moved, or the counts fit and so does the pitch of more than one row. */
  lemma LimitsExactly(base: int, pitch: int, nx: nat, ny: nat)
    ensures Programmed(base, pitch, nx, ny) == Rows(base, pitch, nx, ny) <==>
      nx == 0 || ny == 0 || (nx < 0x1_0000 && ny < 0x1_0000 && (ny == 1 || -0x8000 <= pitch < 0x8000))
  {
    hide Rows, Programmed;
    if nx == 0 || ny == 0 {
      NothingMoved(base, pitch, nx, ny);
    } else if nx >= 0x1_0000 || ny >= 0x1_0000 {
      WideCounts(base, pitch, nx, ny);
    } else {
      NarrowCounts(base, pitch, nx, ny);
      if ny == 1 {
        OneRow(base, pitch, Pitch16(pitch), nx);
      } else if Pitch16(pitch) != pitch {
        WidePitch(base, pitch, nx, ny);
      }
    }
  }

  lemma NothingMoved(base: int, pitch: int, nx: nat, ny: nat)
    requires nx == 0 || ny == 0
    ensures Programmed(base, pitch, nx, ny) == [] && Rows(base, pitch, nx, ny) == []
  {
    hide Rows;
    assert nx % 0x1_0000 * (ny % 0x1_0000) == 0;
  }

  lemma WideCounts(base: int, pitch: int, nx: nat, ny: nat)
    requires 0 < nx && 0 < ny && (nx >= 0x1_0000 || ny >= 0x1_0000)
    ensures Programmed(base, pitch, nx, ny) != Rows(base, pitch, nx, ny)
  {
    hide Rows;
    SmallerProduct(nx % 0x1_0000, ny % 0x1_0000, nx, ny);
    assert |Programmed(base, pitch, nx, ny)| < |Rows(base, pitch, nx, ny)|;
  }

  lemma NarrowCounts(base: int, pitch: int, nx: nat, ny: nat)
    requires nx < 0x1_0000 && ny < 0x1_0000
    ensures Programmed(base, pitch, nx, ny) == Rows(base, Pitch16(pitch), nx, ny)
  {
    hide Rows, Pitch16;
    Small(nx);
    Small(ny);
  }

  lemma Small(n: nat)
    requires n < 0x1_0000
    ensures n % 0x1_0000 == n
  {
  }

  lemma WidePitch(base: int, pitch: int, nx: nat, ny: nat)
    requires 0 < nx && 2 <= ny && Pitch16(pitch) != pitch
    ensures Rows(base, Pitch16(pitch), nx, ny) != Rows(base, pitch, nx, ny)
  {
    hide Rows, Pitch16;
    RowsAt(base, pitch, nx, ny, 1, 0);
    RowsAt(base, Pitch16(pitch), nx, ny, 1, 0);
  }

  lemma SmallerProduct(a: nat, b: nat, nx: nat, ny: nat)
    requires a <= nx && b <= ny && 0 < nx && 0 < ny && (a < nx || b < ny)
    ensures a * b < nx * ny
  {
    assert a * b <= nx * b <= nx * ny;
    if a < nx && b == ny {
      assert a * ny < nx * ny;
    } else if b < ny {
      assert nx * b < nx * ny;
    }
  }

  /** The pitch of a single row does not matter. */
  lemma OneRow(base: int, pitch: int, pitch': int, nx: nat)
    ensures Rows(base, pitch, nx, 1) == Rows(base, pitch', nx, 1)
  {
    assert Rows(base, pitch, nx, 1) == Rows(base, pitch, nx, 0) + seq(nx, i => base + 0 * pitch + i);
    assert Rows(base, pitch', nx, 1) == Rows(base, pitch', nx, 0) + seq(nx, i => base + 0 * pitch' + i);
  }

  /** A transfer stays in memory, writes each byte once and reads none that it writes. */
  ghost predicate Routed(size: int, to: seq<int>, from: seq<int>) {
    && |from| == |to|
    && (forall j :: 0 <= j < |to| ==> 0 <= to[j] < size && 0 <= from[j] < size)
    && (forall i, j :: 0 <= i < j < |to| ==> to[i] != to[j])
    && (forall i, j :: 0 <= i < |to| && 0 <= j < |to| ==> to[i] != from[j])
  }

  /** The sources still hold what is carried, and so do the targets that were reached. */
  ghost predicate Carried(m: seq<byte>, to: seq<int>, from: seq<int>, moved: seq<bool>, want: seq<byte>)
    requires Routed(|m|, to, from) && |moved| == |to| && |want| == |to|
  {
    forall j :: 0 <= j < |to| ==> m[from[j]] == want[j] && (moved[j] ==> m[to[j]] == want[j])
  }

  lemma CarriedSame(m: seq<byte>, m': seq<byte>, to: seq<int>, from: seq<int>, moved: seq<bool>, want: seq<byte>)
    requires |m'| == |m| && Routed(|m|, to, from) && |moved| == |to| && |want| == |to|
    requires Carried(m, to, from, moved, want)
    requires forall a :: 0 <= a < |m| && (a in to || a in from) ==> m'[a] == m[a]
    ensures Carried(m', to, from, moved, want)
  {
    forall j | 0 <= j < |to|
      ensures m'[from[j]] == want[j] && (moved[j] ==> m'[to[j]] == want[j])
    {
      assert to[j] in to && from[j] in from;
    }
  }

  class Dsp {
    const mem: array<byte>
    /** When which byte of a transfer lands: at which tick, in any order. */
    const lands: (nat, nat) -> bool
    var tick: nat
    /** The running transfer; no addresses when the channel is idle. */
    var to: seq<int>
    var from: seq<int>
    var moved: seq<bool>
    /** The bytes it carries. */
    ghost var want: seq<byte>

    ghost predicate Valid()
      reads this, mem
    {
      Routed(mem.Length, to, from) && |moved| == |to| && |want| == |to| && Carried(mem[..], to, from, moved, want)
    }

    constructor (size: nat, lands: (nat, nat) -> bool)
      ensures Valid() && to == [] && fresh(mem) && mem.Length == size && this.lands == lands
    {
      mem := new byte[size](_ => 0);
      this.lands := lands;
      tick := 0;
      to, from, moved, want := [], [], [], [];
    }

    /** One byte of the transfer lands. */
    method Move(j: nat)
      requires Valid() && j < |to|
      modifies mem, this`moved
      ensures Valid() && moved == old(moved)[j := true]
      ensures forall a :: 0 <= a < mem.Length && a !in to ==> mem[a] == old(mem[a])
    {
      mem[to[j]] := mem[from[j]];
      moved := moved[j := true];
    }

    /** Time passes for the channel. */
    method Tick()
      requires Valid()
      modifies mem, this`moved, this`tick
      ensures Valid()
      ensures forall a :: 0 <= a < mem.Length && a !in to ==> mem[a] == old(mem[a])
    {
      for j := 0 to |to|
        invariant Valid() && forall a :: 0 <= a < mem.Length && a !in to ==> mem[a] == old(mem[a])
      {
        if !moved[j] && lands(tick, j) { Move(j); }
      }
      tick := tick + 1;
    }

    /** qdma_copy2d: a transfer starts on the idle channel. */
    method Copy2d(dst: int, dstPitch: int, src: int, srcPitch: int, nx: nat, ny: nat)
      requires Valid() && to == []
      requires Routed(mem.Length, Programmed(dst, dstPitch, nx, ny), Programmed(src, srcPitch, nx, ny))
      modifies this`to, this`from, this`moved, this`want
      ensures Valid() && to == Programmed(dst, dstPitch, nx, ny) && from == Programmed(src, srcPitch, nx, ny)
      ensures forall j :: 0 <= j < |to| ==> want[j] == mem[from[j]]
    {
      var aCnt, bCnt := nx % 0x1_0000, ny % 0x1_0000;
      to := Rows(dst, Pitch16(dstPitch), aCnt, bCnt);
      from := Rows(src, Pitch16(srcPitch), aCnt, bCnt);
      moved := seq(|to|, _ => false);
      want := Gather(mem[..], from);
    }

    /** qdma_wait: returns when the transfer is complete. */
    method Wait()
      requires Valid()
      modifies mem, this`moved, this`to, this`from, this`want
      ensures Valid() && to == [] && from == []
      ensures forall a :: 0 <= a < mem.Length && a !in old(to) ==> mem[a] == old(mem[a])
      ensures forall j :: 0 <= j < |old(to)| ==> mem[old(to)[j]] == old(want)[j]
    {
      for j := 0 to |to|
        invariant Valid() && to == old(to) && from == old(from) && want == old(want)
        invariant forall i :: 0 <= i < j ==> moved[i]
        invariant forall a :: 0 <= a < mem.Length && a !in to ==> mem[a] == old(mem[a])
      {
        if !moved[j] { Move(j); }
      }
      to, from, moved, want := [], [], [], [];
    }

    /** The processor stores a word where no transfer reads or writes. */
    method Store(a: int, w: int)
      requires Valid() && 0 <= a && a + 4 <= mem.Length && 0 <= w < WORD
      requires forall b :: a <= b < a + 4 ==> b !in to && b !in from
      modifies mem
      ensures Valid() && Word(mem[..], a) == w
      ensures BytesOf(mem[..], a, w)
      ensures forall b :: 0 <= b < mem.Length && !(a <= b < a + 4) ==> mem[b] == old(mem[b])
    {
      hide Carried, Routed;
      var b0, b1, b2, b3 := Split(w);
      mem[a], mem[a + 1], mem[a + 2], mem[a + 3] := b0, b1, b2, b3;
      CarriedSame(old(mem[..]), mem[..], to, from, moved, want);
    }
  }
}
