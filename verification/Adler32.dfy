/**
 lzo_adler32: the checksum with the modulo deferred over chunks of 5552 bytes, in 32-bit
 arithmetic, against the per-byte definition of section 2.2 of RFC 1950.
 */
module Adler32 {
  import opened Basics
  import opened LzoFormat

  const BASE := 65521
  const NMAX := 5552

  datatype Sums = Sums(s1: nat, s2: nat)

  ghost function Mod(x: nat): (r: nat)
    ensures r < BASE
  {
    x % BASE
  }

  /** RFC 1950: both sums are reduced after every byte. */
  ghost function PerByte(s: Sums, buf: seq<byte>): Sums
    decreases |buf|
  {
    if buf == [] then s
    else
      var r := PerByte(s, buf[..|buf| - 1]);
      var s1 := Mod(r.s1 + buf[|buf| - 1]);
      Sums(s1, Mod(r.s2 + s1))
  }

  ghost function Unpack(adler: uint32): Sums {
    Sums(adler % 0x10000, adler / 0x10000 % 0x10000)
  }

  /** The same additions without any reduction. */
  ghost function Plain(s: Sums, buf: seq<byte>): Sums
    decreases |buf|
  {
    if buf == [] then s
    else
      var r := Plain(s, buf[..|buf| - 1]);
      var s1 := r.s1 + buf[|buf| - 1];
      Sums(s1, r.s2 + s1)
  }

  ghost function Reduce(s: Sums): Sums {
    Sums(Mod(s.s1), Mod(s.s2))
  }

  /** Reducing at the end of a nonempty chunk is the same as reducing after every byte. */
  lemma {:induction false} DeferredModulo(s: Sums, buf: seq<byte>)
    requires buf != []
    ensures Reduce(Plain(s, buf)) == PerByte(s, buf)
    decreases |buf|
  {
    hide Mod;
    var init, b := buf[..|buf| - 1], buf[|buf| - 1];
    var p, r := Plain(s, init), PerByte(s, init);
    if init != [] {
      DeferredModulo(s, init);
      ModIdempotent(p.s1);
      ModIdempotent(p.s2);
    }
    ReducedStep(p.s1, r.s1, p.s2, r.s2, b);
  }

  lemma ModIdempotent(x: nat)
    ensures Mod(Mod(x)) == Mod(x)
  {
  }

  lemma ReducedStep(x: nat, x': nat, y: nat, y': nat, b: nat)
    requires Mod(x) == Mod(x') && Mod(y) == Mod(y')
    ensures Mod(x + b) == Mod(x' + b)
    ensures Mod(y + (x + b)) == Mod(y' + Mod(x' + b))
  {
    SameMod(x, x', b);
    ModIdempotent(x' + b);
    SameMod(x + b, Mod(x' + b), y);
    SameMod(y, y', Mod(x' + b));
  }

  lemma SameMod(x: nat, x': nat, b: nat)
    requires Mod(x) == Mod(x')
    ensures Mod(x + b) == Mod(x' + b)
  {
    assert x == x / BASE * BASE + x % BASE && x' == x' / BASE * BASE + x' % BASE;
    var k := x / BASE - x' / BASE;
    assert x + b == (x' + b) + k * BASE;
  }

  lemma {:induction false} PerByteSplit(s: Sums, a: seq<byte>, b: seq<byte>)
    ensures PerByte(s, a + b) == PerByte(PerByte(s, a), b)
    decreases |b|
  {
    hide Mod;
    if b == [] {
      assert a + b == a;
    } else {
      assert (a + b)[..|a + b| - 1] == a + b[..|b| - 1];
      PerByteSplit(s, a, b[..|b| - 1]);
    }
  }

  ghost function Triangle(n: nat): nat {
    if n == 0 then 0 else Triangle(n - 1) + n
  }

  lemma {:induction false} TriangleForm(n: nat)
    ensures 2 * Triangle(n) == n * (n + 1)
  {
    if n > 0 {
      TriangleForm(n - 1);
    }
  }

  /** Largest sums a chunk of `n` bytes can reach from 16-bit starting values. */
  lemma {:induction false} PlainBound(s: Sums, buf: seq<byte>)
    requires s.s1 < 0x10000 && s.s2 < 0x10000
    ensures Plain(s, buf).s1 <= 0xffff + 255 * |buf|
    ensures Plain(s, buf).s2 <= 0xffff + 0xffff * |buf| + 255 * Triangle(|buf|)
    decreases |buf|
  {
    if buf != [] {
      PlainBound(s, buf[..|buf| - 1]);
    }
  }

  lemma {:induction false} TriangleMonotone(m: nat, n: nat)
    requires m <= n
    ensures Triangle(m) <= Triangle(n)
    decreases n - m
  {
    if m < n {
      TriangleMonotone(m + 1, n);
    }
  }

  /** 5552 is short enough: no sum of a chunk needs more than 32 bits. */
  lemma NoOverflow(s: Sums, buf: seq<byte>)
    requires s.s1 < 0x10000 && s.s2 < 0x10000 && |buf| <= NMAX
    ensures Plain(s, buf).s1 < TWO32 && Plain(s, buf).s2 < TWO32
  {
    PlainBound(s, buf);
    TriangleForm(NMAX);
    TriangleMonotone(|buf|, NMAX);
  }

  /** And it is the longest length for which that is so. */
  lemma LongerOverflows()
    ensures exists s: Sums, buf: seq<byte> ::
              s.s1 < 0x10000 && s.s2 < 0x10000 && |buf| == NMAX + 1 && Plain(s, buf).s2 >= TWO32
  {
    var s := Sums(0xffff, 0xffff);
    var buf := seq(NMAX + 1, i => 255 as byte);
    AllOnes(s, NMAX + 1);
    TriangleForm(NMAX + 1);
  }

  lemma {:induction false} AllOnes(s: Sums, n: nat)
    ensures var p := Plain(s, seq(n, i => 255 as byte));
            p.s1 == s.s1 + 255 * n && p.s2 == s.s2 + s.s1 * n + 255 * Triangle(n)
  {
    var buf := seq(n, i => 255 as byte);
    if n > 0 {
      AllOnes(s, n - 1);
      assert buf[..n - 1] == seq(n - 1, i => 255 as byte);
    }
  }

  /** Bytes `from` up to `to` of a chunk, added one by one without reduction. */
  method AddRun(chunk: seq<byte>, from: nat, to: nat, ghost start: Sums, a1: uint32, a2: uint32)
    returns (s1: uint32, s2: uint32)
    requires from <= to <= |chunk| <= NMAX && start.s1 < 0x10000 && start.s2 < 0x10000
    requires Sums(a1, a2) == Plain(start, chunk[..from])
    ensures Sums(s1, s2) == Plain(start, chunk[..to])
  {
    s1, s2 := a1, a2;
    for i := from to to
      invariant Sums(s1, s2) == Plain(start, chunk[..i])
    {
      NoOverflow(start, chunk[..i + 1]);
      assert chunk[..i + 1][..i] == chunk[..i];
      s1 := s1 + chunk[i];
      s2 := s2 + s1;
    }
  }

  /** One chunk, sixteen bytes at a time and then the rest; no sum ever leaves 32 bits. */
  method AddChunk(chunk: seq<byte>, s1: uint32, s2: uint32) returns (r1: uint32, r2: uint32)
    requires |chunk| <= NMAX && s1 < 0x10000 && s2 < 0x10000
    ensures Sums(r1, r2) == Plain(Sums(s1, s2), chunk)
  {
    r1, r2 := s1, s2;
    var i := 0;
    assert chunk[..0] == [];
    while i + 16 <= |chunk|
      invariant i <= |chunk| && Sums(r1, r2) == Plain(Sums(s1, s2), chunk[..i])
    {
      r1, r2 := AddRun(chunk, i, i + 16, Sums(s1, s2), r1, r2);
      i := i + 16;
    }
    r1, r2 := AddRun(chunk, i, |chunk|, Sums(s1, s2), r1, r2);
    assert chunk[..|chunk|] == chunk;
  }

  /** A chunk and its reduction continue the per-byte checksum of what came before. */
  method NextChunk(ghost start: Sums, data: seq<byte>, pos: nat, s1: uint32, s2: uint32)
    returns (next: nat, r1: uint32, r2: uint32)
    requires pos < |data| && s1 < 0x10000 && s2 < 0x10000
    requires Sums(s1, s2) == PerByte(start, data[..pos])
    ensures pos < next <= |data| && r1 < BASE && r2 < BASE
    ensures Sums(r1, r2) == PerByte(start, data[..next])
  {
    var k := if |data| - pos < NMAX then |data| - pos else NMAX;
    var chunk := data[pos..pos + k];
    DeferredModulo(Sums(s1, s2), chunk);
    PerByteSplit(start, data[..pos], chunk);
    assert data[..pos] + chunk == data[..pos + k];
    hide PerByte, Plain;
    r1, r2 := AddChunk(chunk, s1, s2);
    next, r1, r2 := pos + k, r1 % BASE, r2 % BASE;
  }

  lemma PackUnpack(s1: nat, s2: nat)
    requires s1 < 0x10000 && s2 < 0x10000
    ensures s2 * 0x10000 + s1 < TWO32 && Unpack(s2 * 0x10000 + s1) == Sums(s1, s2)
  {
  }

  datatype Buffer = NoBuffer | Bytes(data: seq<byte>)

  /** lzo_adler32: for every starting value, the per-byte checksum; 1 without a buffer. */
  method LzoAdler32(adler: uint32, buf: Buffer) returns (r: uint32)
    ensures buf.NoBuffer? ==> r == 1
    ensures buf.Bytes? ==> Unpack(r) == PerByte(Unpack(adler), buf.data)
    ensures buf.Bytes? && buf.data == [] ==> r == adler
  {
    if buf.NoBuffer? {
      return 1;
    }
    var s1: uint32, s2: uint32 := adler % 0x10000, adler / 0x10000 % 0x10000;
    PackUnpack(s1, s2);
    assert s2 * 0x10000 + s1 == adler;
    var pos := 0;
    assert buf.data[..0] == [];
    assert PerByte(Unpack(adler), []) == Unpack(adler);
    hide PerByte, Unpack;
    while pos < |buf.data|
      invariant pos <= |buf.data| && s1 < 0x10000 && s2 < 0x10000
      invariant Sums(s1, s2) == PerByte(Unpack(adler), buf.data[..pos])
      invariant pos == 0 ==> s2 * 0x10000 + s1 == adler
    {
      pos, s1, s2 := NextChunk(Unpack(adler), buf.data, pos, s1, s2);
    }
    assert buf.data[..pos] == buf.data;
    PackUnpack(s1, s2);
    r := s2 * 0x10000 + s1;
  }

  /** Checksums of pieces chain: checking a file in parts gives the checksum of the whole. */
  lemma Chaining(adler: uint32, mid: uint32, whole: uint32, a: seq<byte>, b: seq<byte>)
    requires Unpack(mid) == PerByte(Unpack(adler), a)
    requires Unpack(whole) == PerByte(Unpack(mid), b)
    ensures Unpack(whole) == PerByte(Unpack(adler), a + b)
  {
    PerByteSplit(Unpack(adler), a, b);
  }

  /** The sums of these 257 bytes, 65536 and 8454272, are reduced to 15 and 2063. */
  method KnownChecksum() returns (r: uint32)
    ensures r == 0x080f000f
  {
    hide PerByte, Plain, Triangle;
    var buf := seq(257, _ => 255 as byte);
    r := LzoAdler32(1, Bytes(buf));
    assert Unpack(1) == Sums(1, 0);
    assert buf == seq(257, i => 255 as byte);
    AllOnes(Sums(1, 0), 257);
    TriangleForm(257);
    DeferredModulo(Sums(1, 0), buf);
    assert Unpack(r) == Sums(15, 2063);
  }
}
