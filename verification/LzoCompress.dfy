/**
 lzo1x_1_compress: the chunk loop, the hash-dictionary match finder, the back-patched
 literal runs and the match codes, writing into a fixed output buffer.
 */
module LzoCompress {
  import opened LzoFormat
  import opened LzoBuffer

  const D_SIZE := 16384
  const CHUNK := 49152

  /** Matches of the compressor are at least four bytes long. */
  ghost predicate LongItems(items: seq<Item>) {
    forall k :: 0 <= k < |items| ==> ValidItem(items[k]) && 4 <= items[k].len
  }

  /** `pre` is the code of `s` without an end marker, and `s` stands for the first `p` input bytes. */
  ghost predicate Closed(inp: seq<byte>, pre: seq<byte>, s: Stream, p: nat) {
    && p <= |inp| && Valid(s) && 4 <= |s.first| && LongItems(s.items)
    && Expand(s) == inp[..p]
    && pre == RunHeader(|s.first|) + s.first + EncodeItems(s.items)
  }

  /** Between matches: nothing written yet, or a match was written last and input is pending from `p` on. */
  ghost predicate Pending(inp: seq<byte>, pre: seq<byte>, s: Stream, p: nat) {
    if s.items == [] then pre == [] && p == 0 && s.first == []
    else Closed(inp, pre, s, p) && s.items[|s.items| - 1].lits == []
  }

  // ------------------------------------------------------------- size bound

  lemma RunHeaderCost(t: nat)
    requires 4 <= t
    ensures |RunHeader(t)| <= 1 + t / 16
  {
  }

  lemma MatchCost(off: nat, len: nat, state: nat)
    requires 1 <= off <= M4_MAX_OFFSET && 4 <= len && state <= 3
    ensures |MatchCode(off, len, state)| <= len - 1
  {
  }

  /** A match of four or more pays for one header byte; longer headers are paid by the run. */
  lemma ItemCost(i: Item)
    requires ValidItem(i) && 4 <= i.len
    ensures |EncodeItem(i)| <= i.len + |i.lits| + |i.lits| / 16
  {
    hide MatchCode, RunHeader;
    MatchCost(i.off, i.len, LitState(|i.lits|));
    if |i.lits| > 3 {
      RunHeaderCost(|i.lits|);
    }
  }

  lemma {:induction false} ItemsCost(out: seq<byte>, items: seq<Item>, n: nat)
    requires ValidItems(|out|, items) && LongItems(items) && n <= |out| + |out| / 16 + 1
    ensures n + |EncodeItems(items)| <= |ExpandItems(out, items)| + |ExpandItems(out, items)| / 16 + 1
    decreases |items|
  {
    hide EncodeItem, CopyMatch;
    if items != [] {
      var i := items[0];
      var out' := CopyMatch(out, i.off, i.len) + i.lits;
      ItemCost(i);
      ItemsCost(out', items[1..], n + |EncodeItem(i)|);
    }
  }

  /** Code that stands for `p` input bytes is at most `p + p/16 + 1` bytes long. */
  lemma ClosedCost(inp: seq<byte>, pre: seq<byte>, s: Stream, p: nat)
    requires Closed(inp, pre, s, p)
    ensures |pre| <= p + p / 16 + 1
  {
    hide RunHeader, EncodeItems, ExpandItems;
    RunHeaderCost(|s.first|);
    ItemsCost(s.first, s.items, |RunHeader(|s.first|) + s.first|);
  }

  // -------------------------------------------------- steps on the token view

  /** The first literal run is written. */
  lemma CloseFirst(inp: seq<byte>, p: nat)
    requires 4 <= p <= |inp|
    ensures Closed(inp, RunHeader(p) + inp[..p], Stream(inp[..p], []), p)
  {
    hide RunHeader;
    assert RunHeader(p) + inp[..p] + [] == RunHeader(p) + inp[..p];
  }

  /** `s` with the literal run `lits` given to its last match. */
  ghost function WithLits(s: Stream, lits: seq<byte>): Stream
    requires s.items != []
  {
    var k := |s.items| - 1;
    Stream(s.first, s.items[..k] + [s.items[k].(lits := lits)])
  }

  lemma {:induction false} ExpandLastLits(out: seq<byte>, items: seq<Item>, i: Item, lits: seq<byte>)
    requires ValidItems(|out|, items + [i]) && i.lits == []
    ensures ValidItems(|out|, items + [i.(lits := lits)])
    ensures ExpandItems(out, items + [i.(lits := lits)]) == ExpandItems(out, items + [i]) + lits
    decreases |items|
  {
    hide CopyMatch;
    var j := i.(lits := lits);
    if items == [] {
      assert (items + [i])[1..] == [] && (items + [j])[1..] == [];
      assert (items + [i])[0] == i && (items + [j])[0] == j;
      assert CopyMatch(out, i.off, i.len) + i.lits == CopyMatch(out, i.off, i.len);
    } else {
      var out' := CopyMatch(out, items[0].off, items[0].len) + items[0].lits;
      assert (items + [i])[1..] == items[1..] + [i] && (items + [j])[1..] == items[1..] + [j];
      assert (items + [i])[0] == items[0] && (items + [j])[0] == items[0];
      ExpandLastLits(out', items[1..], i, lits);
    }
  }

  /** The bytes before the last match, and the match itself with state 0. */
  ghost function Head(s: Stream): seq<byte>
    requires s.items != [] && 4 <= |s.first| && LongItems(s.items)
  {
    RunHeader(|s.first|) + s.first + EncodeItems(s.items[..|s.items| - 1])
  }

  lemma PendingSplit(inp: seq<byte>, pre: seq<byte>, s: Stream, p: nat)
    requires Pending(inp, pre, s, p) && s.items != []
    ensures var i := s.items[|s.items| - 1];
            pre == Head(s) + MatchCode(i.off, i.len, 0)
  {
    hide RunHeader, MatchCode;
    var k := |s.items| - 1;
    var i := s.items[k];
    assert s.items == s.items[..k] + [i];
    EncodeItemsSnoc(s.items[..k], i);
    assert MatchCode(i.off, i.len, 0) + [] == MatchCode(i.off, i.len, 0);
  }

  /** Giving the pending bytes to the last match as its literals closes the stream. */
  lemma CloseLits(inp: seq<byte>, pre: seq<byte>, s: Stream, p: nat, q: nat)
    requires Pending(inp, pre, s, p) && s.items != [] && p <= q <= |inp|
    ensures var i := s.items[|s.items| - 1]; var lits := inp[p..q];
            && Closed(inp, Head(s) + (MatchCode(i.off, i.len, LitState(q - p)) + LitCode(lits)), WithLits(s, lits), q)
  {
    hide RunHeader, MatchCode, LitCode, ExpandItems, CopyMatch;
    var k := |s.items| - 1;
    var i := s.items[k];
    var lits := inp[p..q];
    var j := i.(lits := lits);
    var s' := WithLits(s, lits);
    assert s.items == s.items[..k] + [i];
    ExpandLastLits(s.first, s.items[..k], i, lits);
    EncodeItemsSnoc(s.items[..k], j);
    assert inp[..p] + lits == inp[..q];
    assert LongItems(s'.items);
  }

  /** The stream after the pending bytes `inp[p..q]` have been written. */
  ghost function Attach(s: Stream, inp: seq<byte>, p: nat, q: nat): Stream
    requires p <= q <= |inp|
  {
    if s.items == [] then Stream(inp[..q], []) else WithLits(s, inp[p..q])
  }

  /** And after the match of `len` bytes that was found at `q`, `off` bytes back. */
  ghost function Extend(s: Stream, inp: seq<byte>, p: nat, q: nat, off: nat, len: nat): Stream
    requires p <= q <= |inp|
  {
    var a := Attach(s, inp, p, q);
    Stream(a.first, a.items + [Item(off, len, [])])
  }

  lemma PendingFacts(inp: seq<byte>, pre: seq<byte>, s: Stream, p: nat)
    requires Pending(inp, pre, s, p)
    ensures p <= |inp| && (s.items == [] ==> p == 0 && pre == [])
    ensures s.items != [] ==>
              Closed(inp, pre, s, p) && 4 <= |s.first| && LongItems(s.items) &&
              ValidItem(s.items[|s.items| - 1])
  {
  }

  lemma CloseByRun(inp: seq<byte>, pre: seq<byte>, s: Stream, p: nat, q: nat)
    requires Pending(inp, pre, s, p) && p + 4 <= q <= |inp|
    ensures Closed(inp, pre + (RunHeader(q - p) + inp[p..q]), Attach(s, inp, p, q), q)
  {
    hide Closed, RunHeader, MatchCode, Pending, Head;
    PendingFacts(inp, pre, s, p);
    if s.items == [] {
      CloseFirst(inp, q);
      assert [] + (RunHeader(q) + inp[0..q]) == RunHeader(q) + inp[..q];
    } else {
      var i := s.items[|s.items| - 1];
      PendingSplit(inp, pre, s, p);
      CloseLits(inp, pre, s, p, q);
      assert Head(s) + MatchCode(i.off, i.len, 0) + (RunHeader(q - p) + inp[p..q])
          == Head(s) + (MatchCode(i.off, i.len, 0) + (RunHeader(q - p) + inp[p..q]));
    }
  }

  lemma CloseByPatch(inp: seq<byte>, pre: seq<byte>, s: Stream, p: nat, q: nat)
    requires Pending(inp, pre, s, p) && s.items != [] && p <= q <= p + 3 && q <= |inp|
    ensures var i := s.items[|s.items| - 1];
            && pre == Head(s) + MatchCode(i.off, i.len, 0)
            && Closed(inp, Head(s) + MatchCode(i.off, i.len, q - p) + inp[p..q], Attach(s, inp, p, q), q)
  {
    hide Closed, RunHeader, MatchCode, Pending, Head;
    PendingFacts(inp, pre, s, p);
    var i := s.items[|s.items| - 1];
    PendingSplit(inp, pre, s, p);
    CloseLits(inp, pre, s, p, q);
    assert Head(s) + MatchCode(i.off, i.len, q - p) + inp[p..q] == Head(s) +
           (MatchCode(i.off, i.len, q - p) + inp[p..q]);
  }

  /** Pending code is short enough. */
  lemma PendingCost(inp: seq<byte>, pre: seq<byte>, s: Stream, p: nat)
    requires Pending(inp, pre, s, p)
    ensures |pre| <= p + p / 16 + 1 && p <= |inp|
  {
    hide Closed, Pending;
    PendingFacts(inp, pre, s, p);
    if s.items != [] {
      ClosedCost(inp, pre, s, p);
    }
  }

  /** A found match extends a closed stream. */
  lemma CloseMatch(inp: seq<byte>, pre: seq<byte>, s: Stream, p: nat, off: nat, len: nat)
    requires Closed(inp, pre, s, p) && 4 <= len && p + len <= |inp| && 1 <= off <= p && off <= M4_MAX_OFFSET
    requires forall j :: p <= j < p + len ==> inp[j] == inp[j - off]
    ensures Pending(inp, pre + MatchCode(off, len, 0), Stream(s.first, s.items + [Item(off, len, [])]), p + len)
  {
    hide RunHeader, MatchCode, ExpandItems, CopyMatch, EncodeItems, EncodeItem, ValidItems;
    var i := Item(off, len, []);
    var s' := Stream(s.first, s.items + [i]);
    ExpandItemsSnoc(s.first, s.items, i);
    EncodeItemsSnoc(s.items, i);
    CopyMatchIsRepeat(inp, p, off, len);
    assert CopyMatch(inp[..p], off, len) + [] == inp[..p + len];
    MatchAlone(off, len);
    assert LongItems(s'.items);
    assert s'.items[|s'.items| - 1] == i;
  }

  lemma MatchAlone(off: nat, len: nat)
    requires 1 <= off <= M4_MAX_OFFSET && 3 <= len
    ensures EncodeItem(Item(off, len, [])) == MatchCode(off, len, 0)
  {
    hide MatchCode;
    assert MatchCode(off, len, 0) + [] == MatchCode(off, len, 0);
  }

  // ------------------------------------------------------------ back-patching

  /** `b | t` for a two-bit value `t`. */
  function OrState(b: byte, t: nat): (r: byte)
    requires t <= 3
    ensures r / 4 == b / 4 && (b % 4 == 0 ==> r % 4 == t)
  {
    var low := b % 4;
    b - low + (if low == 0 then t else if t == 0 || t == low then low else 3)
  }

  /** Patching the second last byte of a match gives the code with the new state. */
  lemma PatchedMatch(off: nat, len: nat, t: nat)
    requires 1 <= off <= M4_MAX_OFFSET && 3 <= len && t <= 3
    ensures var c := MatchCode(off, len, 0);
            c[|c| - 2 := OrState(c[|c| - 2], t)] == MatchCode(off, len, t)
  {
    hide LongCode;
    var c := MatchCode(off, len, 0);
    var d := MatchCode(off, len, t);
    assert |c| == |d| && c[|c| - 1] == d[|d| - 1] && c[..|c| - 2] == d[..|d| - 2];
    assert d == d[..|d| - 2] + [d[|d| - 2], d[|d| - 1]];
  }

  /** `op[-2] |= t`. */
  method PatchState(out: array<byte>, op: nat, t: nat, ghost head: seq<byte>, ghost off: nat, ghost len: nat)
    requires 2 <= op <= out.Length && t <= 3
    requires 1 <= off <= M4_MAX_OFFSET && 3 <= len
    requires out[..op] == head + MatchCode(off, len, 0)
    modifies out
    ensures out[..op] == head + MatchCode(off, len, t)
  {
    ghost var c := MatchCode(off, len, 0);
    assert out[op - 2] == c[|c| - 2] by {
      assert out[op - 2] == out[..op][op - 2];
    }
    PatchedMatch(off, len, t);
    hide MatchCode;
    ghost var pre := out[..op];
    out[op - 2] := OrState(out[op - 2], t);
    assert out[..op] == pre[op - 2 := out[op - 2]];
    assert out[..op] == head + c[|c| - 2 := out[op - 2]];
  }

  // ---------------------------------------------------------------- emission

  /** A base-255 number. */
  method EmitCount(out: array<byte>, start: nat, n: nat) returns (op: nat)
    requires 1 <= n && start + |Count(n)| <= out.Length
    modifies out
    ensures op == start + |Count(n)| && out[..op] == old(out[..start]) + Count(n)
  {
    ghost var pre := out[..start];
    var tt := n;
    op := start;
    while tt > 255
      invariant 1 <= tt && start <= op && op + |Count(tt)| == start + |Count(n)|
      invariant out[..op] + Count(tt) == pre + Count(n)
    {
      ghost var before := out[..op];
      out[op] := 0;
      assert out[..op + 1] + Count(tt - 255) == before + ([0] + Count(tt - 255));
      tt := tt - 255;
      op := op + 1;
    }
    ghost var before := out[..op];
    out[op] := tt;
    op := op + 1;
    assert out[..op] == before + [tt];
  }

  /** One byte, then a base-255 number. */
  method EmitMarked(out: array<byte>, start: nat, marker: byte, n: nat) returns (op: nat)
    requires 1 <= n && start + 1 + |Count(n)| <= out.Length
    modifies out
    ensures op == start + 1 + |Count(n)| && out[..op] == old(out[..start]) + ([marker] + Count(n))
  {
    hide Count;
    ghost var pre := out[..start];
    out[start] := marker;
    assert out[..start + 1] == pre + [marker];
    op := EmitCount(out, start + 1, n);
    assert pre + [marker] + Count(n) == pre + ([marker] + Count(n));
  }

  method EmitRunHeader(out: array<byte>, start: nat, t: nat) returns (op: nat)
    requires 4 <= t && start + |RunHeader(t)| <= out.Length
    modifies out
    ensures op == start + |RunHeader(t)| && out[..op] == old(out[..start]) + RunHeader(t)
  {
    hide Count;
    if t <= 18 {
      out[start] := t - 3;
      op := start + 1;
    } else {
      op := EmitMarked(out, start, 0, t - 18);
    }
  }

  /** The literals of a run: one 16-byte store if at most 16, else 16 at a time and a byte loop. */
  method EmitRun(inp: seq<byte>, p: nat, t: nat, out: array<byte>, op: nat)
    requires 4 <= t && p + t + 16 <= |inp| && op + t + 16 <= out.Length
    modifies out
    ensures out[..op + t] == old(out[..op]) + inp[p..p + t]
  {
    ghost var pre := out[..op];
    if t <= 16 {
      StoreBlock(inp, p, out, op, 16);
      assert out[..op + t] == out[..op + 16][..op + t];
      assert (pre + inp[p..p + 16])[..op + t] == pre + inp[p..p + t];
    } else {
      var k := 0;
      while k < t
        invariant k <= t && out[..op + k] == pre + inp[p..p + k]
      {
        var c := if t - k >= 16 then 16 else 1;
        AppendSlice(pre, inp, p, k, c);
        StoreBlock(inp, p + k, out, op + k, c);
        k := k + c;
      }
    }
  }

  /** Up to three literals by one 4-byte store that runs past them. */
  method EmitFew(inp: seq<byte>, p: nat, t: nat, out: array<byte>, op: nat)
    requires t <= 3 && p + 4 <= |inp| && op + 4 <= out.Length
    modifies out
    ensures out[..op + t] == old(out[..op]) + inp[p..p + t]
  {
    ghost var pre := out[..op];
    StoreBlock(inp, p, out, op, 4);
    assert out[..op + t] == out[..op + 4][..op + t];
    assert (pre + inp[p..p + 4])[..op + t] == pre + inp[p..p + t];
  }

  /** A run of four or more. */
  method EmitLongRun(inp: seq<byte>, p: nat, t: nat, out: array<byte>, start: nat) returns (op: nat)
    requires 4 <= t && p + t + 16 <= |inp| && start + |RunHeader(t)| + t + 16 <= out.Length
    modifies out
    ensures op == start + |RunHeader(t)| + t && out[..op] == old(out[..start]) + (RunHeader(t) + inp[p..p + t])
  {
    hide RunHeader;
    ghost var pre := out[..start];
    op := EmitRunHeader(out, start, t);
    EmitRun(inp, p, t, out, op);
    op := op + t;
    assert pre + RunHeader(t) + inp[p..p + t] == pre + (RunHeader(t) + inp[p..p + t]);
  }

  method EmitMatch(out: array<byte>, start: nat, off: nat, len: nat) returns (op: nat)
    requires 1 <= off <= M4_MAX_OFFSET && 4 <= len && start + |MatchCode(off, len, 0)| <= out.Length
    modifies out
    ensures op == start + |MatchCode(off, len, 0)| && out[..op] == old(out[..start]) + MatchCode(off, len, 0)
  {
    hide Count;
    ghost var pre := out[..start];
    op := start;
    if len <= M2_MAX_LEN && off <= M2_MAX_OFFSET {
      var o := off - 1;
      out[op] := (len - 1) * 32 + (o % 8) * 4;
      out[op + 1] := o / 8;
      op := op + 2;
      assert out[..op] == pre + [out[start], out[start + 1]];
    } else {
      var m3 := off <= M3_MAX_OFFSET;
      var o := if m3 then off - 1 else off - 0x4000;
      op := EmitLength(out, op, m3, o / 0x4000, len);
      hide LongCode;
      ghost var mid := out[..op];
      out[op] := (o % 64) * 4;
      out[op + 1] := o / 64 % 256;
      op := op + 2;
      assert out[..op] == mid + [(o % 64) * 4, o / 64 % 256];
      assert mid + [(o % 64) * 4, o / 64 % 256] == pre + (LongCode(m3, o / 0x4000, len) + [(o % 64) * 4, o / 64 % 256]);
    }
  }

  /** The marker byte and the length of an M3 or M4 match. */
  method EmitLength(out: array<byte>, start: nat, m3: bool, h: nat, len: nat) returns (op: nat)
    requires 3 <= len && h < 2 && start + |LongCode(m3, h, len)| <= out.Length
    modifies out
    ensures op == start + |LongCode(m3, h, len)| && out[..op] == old(out[..start]) + LongCode(m3, h, len)
  {
    hide Count;
    var marker := if m3 then M3_MARKER else M4_MARKER + 8 * h;
    var max := if m3 then M3_MAX_LEN else M4_MAX_LEN;
    if len <= max {
      out[start] := marker + (len - 2);
      op := start + 1;
    } else {
      op := EmitMarked(out, start, marker, len - max);
    }
  }

  /** Room for any code of the input and for the stores that run past it. */
  ghost predicate Fits(inp: seq<byte>, out: array<byte>) {
    |inp| + |inp| / 16 + 67 <= out.Length
  }

  /** Writes the pending bytes `inp[p..q]`: patched into the last match, or as a run. */
  method EmitLiterals(inp: seq<byte>, p: nat, q: nat, out: array<byte>, start: nat, ghost s: Stream)
    returns (op: nat, ghost s': Stream)
    requires start <= out.Length && Pending(inp, out[..start], s, p)
    requires p <= q && q + 20 < |inp| && (s.items == [] ==> 4 <= q) && Fits(inp, out)
    modifies out
    ensures op <= out.Length && Closed(inp, out[..op], s', q)
    ensures s' == Attach(s, inp, p, q) && op == start + |LitCode(inp[p..q])|
  {
    hide MatchCode, Closed, Head, Pending, RunHeader, Attach;
    var t := q - p;
    op := start;
    s' := Attach(s, inp, p, q);
    PendingCost(inp, out[..start], s, p);
    PendingFacts(inp, out[..start], s, p);
    if t <= 3 {
      ghost var i := s.items[|s.items| - 1];
      CloseByPatch(inp, out[..start], s, p, q);
      if t != 0 {
        PatchState(out, op, t, Head(s), i.off, i.len);
        EmitFew(inp, p, t, out, op);
        op := op + t;
      } else {
        assert out[..start] + inp[p..q] == out[..start];
      }
    } else {
      RunHeaderCost(t);
      CloseByRun(inp, out[..start], s, p, q);
      op := EmitLongRun(inp, p, t, out, op);
    }
  }

  // ------------------------------------------------------------ match finding

  /** The little-endian 32-bit word at `i`. */
  function Get32(inp: seq<byte>, i: nat): nat
    requires i + 4 <= |inp|
  {
    inp[i] + 0x100 * (inp[i + 1] as int) + 0x10000 * (inp[i + 2] as int) + 0x1000000 * (inp[i + 3] as int)
  }

  /** Each byte of `inp[a..b]` equals the byte `d` before it. */
  ghost predicate Repeats(inp: seq<byte>, d: nat, a: nat, b: nat)
    requires d <= a && b <= |inp|
  {
    forall k :: a <= k < b ==> inp[k] == inp[k - d]
  }

  lemma RepeatsMore(inp: seq<byte>, d: nat, a: nat, b: nat, c: nat)
    requires d <= a <= b <= c <= |inp| && Repeats(inp, d, a, b) && Repeats(inp, d, b, c)
    ensures Repeats(inp, d, a, c)
  {
  }

  lemma DigitsEqual(a: byte, x: int, b: byte, y: int)
    requires a + 0x100 * x == b + 0x100 * y
    ensures a == b && x == y
  {
  }

  lemma Get32Repeats(inp: seq<byte>, m: nat, ip: nat)
    requires m <= ip && ip + 4 <= |inp| && Get32(inp, m) == Get32(inp, ip)
    ensures Repeats(inp, ip - m, ip, ip + 4)
  {
    var x3, y3 := inp[m + 3] as int, inp[ip + 3] as int;
    var x2, y2 := inp[m + 2] + 0x100 * x3, inp[ip + 2] + 0x100 * y3;
    var x1, y1 := inp[m + 1] + 0x100 * x2, inp[ip + 1] + 0x100 * y2;
    DigitsEqual(inp[m], x1, inp[ip], y1);
    DigitsEqual(inp[m + 1], x2, inp[ip + 1], y2);
    DigitsEqual(inp[m + 2], x3, inp[ip + 2], y3);
  }

  lemma SameWord(inp: seq<byte>, m: nat, ip: nat)
    requires m <= ip && ip + 4 <= |inp|
    ensures Get32(inp, m) == Get32(inp, ip) <==> inp[m..m + 4] == inp[ip..ip + 4]
  {
    var a, b := inp[m..m + 4], inp[ip..ip + 4];
    assert a[0] == inp[m] && a[1] == inp[m + 1] && a[2] == inp[m + 2] && a[3] == inp[m + 3];
    assert b[0] == inp[ip] && b[1] == inp[ip + 1] && b[2] == inp[ip + 2] && b[3] == inp[ip + 3];
    if Get32(inp, m) == Get32(inp, ip) {
      Get32Repeats(inp, m, ip);
    }
  }

  /** The multiplicative hash of a 32-bit word: its top 14 bits modulo 2^32. */
  function DIndex(dv: nat): (d: nat)
    ensures d < D_SIZE
  {
    (0x1824429d * dv) % 0x1_0000_0000 / 0x4_0000 % D_SIZE
  }

  /** How many of the next `n` bytes agree with those `d` before: the trailing zero bytes of the difference. */
  function EqualBytes(inp: seq<byte>, i: nat, d: nat, n: nat): (r: nat)
    requires d <= i && i + n <= |inp|
    ensures r <= n && Repeats(inp, d, i, i + r)
    ensures r < n ==> inp[i + r] != inp[i + r - d]
    decreases n
  {
    if n == 0 || inp[i] != inp[i - d] then 0 else 1 + EqualBytes(inp, i + 1, d, n - 1)
  }

  /**
   The repeat `inp[a..b]` cannot be made longer, or the search was given up: at the first multiple
   of eight bytes after the first four that is not before the limit.
   */
  ghost predicate Longest(inp: seq<byte>, d: nat, a: nat, b: nat, limit: int)
    requires d <= a <= b < |inp|
  {
    || inp[b] != inp[b - d]
    || (b >= limit && b - a >= 12 && (b - a) % 8 == 4 && (b - a == 12 || b - 8 < limit))
  }

  lemma Differs(inp: seq<byte>, d: nat, a: nat, b: nat, limit: int)
    requires d <= a <= b < |inp| && inp[b] != inp[b - d]
    ensures Longest(inp, d, a, b, limit)
  {
  }

  lemma {:induction false} FourMore(n: nat)
    ensures (4 + 8 * n) % 8 == 4
  {
  }

  lemma {:induction false} GivenUp(inp: seq<byte>, d: nat, a: nat, b: nat, limit: int, eights: nat)
    requires d <= a <= b < |inp| && b >= limit && b - a == 4 + 8 * eights && eights > 0
    requires eights == 1 || b - 8 < limit
    ensures Longest(inp, d, a, b, limit)
  {
    FourMore(eights);
  }

  /** The length of the match at `ip` with the bytes `d` before, eight bytes at a time. */
  method MatchLength(inp: seq<byte>, d: nat, ip: nat, ipEnd: nat) returns (len: nat)
    requires d <= ip < ipEnd && ipEnd + 20 <= |inp| && Repeats(inp, d, ip, ip + 4)
    ensures 4 <= len && ip + len < ipEnd + 12
    ensures Repeats(inp, d, ip, ip + len)
    ensures Longest(inp, d, ip, ip + len, ipEnd)
  {
    hide EqualBytes, Repeats, Longest;
    len := 4;
    ghost var eights := 0;
    var v := EqualBytes(inp, ip + len, d, 8);
    var done := false;
    while v == 8 && !done
      invariant 4 <= len && ip + len < ipEnd + 12 && (!done ==> ip + len < ipEnd + 4)
      invariant v == EqualBytes(inp, ip + len, d, 8)
      invariant len == 4 + 8 * eights && (!done ==> len == 4 || ip + len < ipEnd)
      invariant done ==> ip + len >= ipEnd && len >= 12 && (len == 12 || ip + len - 8 < ipEnd)
      invariant Repeats(inp, d, ip, ip + len)
      decreases !done, ipEnd + 4 - len
    {
      eights := eights + 1;
      RepeatsMore(inp, d, ip, ip + len, ip + len + 8);
      len := len + 8;
      v := EqualBytes(inp, ip + len, d, 8);
      done := ip + len >= ipEnd;
    }
    if !done {
      RepeatsMore(inp, d, ip, ip + len, ip + len + v);
      len := len + v;
      Differs(inp, d, ip, ip + len, ipEnd);
    } else {
      GivenUp(inp, d, ip, ip + len, ipEnd, eights);
    }
  }

  /** Writes the literals before a match, then the match. */
  method EmitItem(inp: seq<byte>, p: nat, ip: nat, off: nat, len: nat, out: array<byte>, start: nat, ghost s: Stream)
    returns (op: nat, ghost s': Stream)
    requires start <= out.Length && Pending(inp, out[..start], s, p) && Fits(inp, out)
    requires p <= ip && ip + 20 < |inp| && (s.items == [] ==> 4 <= ip)
    requires 4 <= len && ip + len <= |inp| && 1 <= off <= ip && off <= M4_MAX_OFFSET && Repeats(inp, off, ip, ip + len)
    modifies out
    ensures op <= out.Length && Pending(inp, out[..op], s', ip + len) && s'.items != []
    ensures s' == Extend(s, inp, p, ip, off, len)
    ensures op == start + |LitCode(inp[p..ip])| + |MatchCode(off, len, 0)|
  {
    hide MatchCode, Closed, Pending, Attach, LitCode;
    op, s' := EmitLiterals(inp, p, ip, out, start, s);
    ClosedCost(inp, out[..op], s', ip);
    MatchCost(off, len, 0);
    CloseMatch(inp, out[..op], s', ip, off, len);
    op := EmitMatch(out, op, off, len);
    s' := Stream(s'.first, s'.items + [Item(off, len, [])]);
  }

  type uint16 = x: int | 0 <= x < 0x10000

  /** Every dictionary entry is a chunk offset before `n`. */
  ghost predicate DictBelow(dict: array<uint16>, n: nat)
    reads dict
  {
    dict.Length == D_SIZE && forall k :: 0 <= k < D_SIZE ==> dict[k] < n
  }

  lemma DictBelowMore(dict: array<uint16>, n: nat, m: nat)
    requires DictBelow(dict, n) && n <= m
    ensures DictBelow(dict, m)
  {
  }

  /** What the dictionary says about the four bytes at `ip`. */
  ghost function Suggested(inp: seq<byte>, ip: nat, dict: array<uint16>): nat
    requires ip + 4 <= |inp| && dict.Length == D_SIZE
    reads dict
  {
    dict[DIndex(Get32(inp, ip))]
  }

  /** Looks up the four bytes at `ip`, and enters `ip` in the dictionary; a hit repeats four bytes. */
  method Probe(inp: seq<byte>, base: nat, ip: nat, dict: array<uint16>) returns (hit: bool, m: nat)
    requires base < ip && ip + 4 <= |inp| && ip - base < CHUNK && DictBelow(dict, ip - base)
    modifies dict
    ensures DictBelow(dict, ip - base + 1) && base <= m < ip
    ensures m == base + old(Suggested(inp, ip, dict))
    ensures forall k :: 0 <= k < D_SIZE ==> dict[k] == if k == DIndex(Get32(inp, ip)) then ip - base else old(dict[k])
    ensures hit <==> inp[m..m + 4] == inp[ip..ip + 4]
    ensures hit ==> Repeats(inp, ip - m, ip, ip + 4)
  {
    hide DIndex, Get32;
    var dv := Get32(inp, ip);
    var dindex := DIndex(dv);
    m := base + dict[dindex];
    dict[dindex] := (ip - base) % 0x10000;
    hit := dv == Get32(inp, m);
    SameWord(inp, m, ip);
    if hit {
      Get32Repeats(inp, m, ip);
    }
  }

  /** The dictionary is the right size for a look-up. */
  lemma DictSize(dict: array<uint16>, n: nat)
    requires DictBelow(dict, n)
    ensures dict.Length == D_SIZE
  {
  }

  /** What holds at the label `next` of do_compress: the run `inp[p..ip]` is pending. */
  ghost predicate AtNext(inp: seq<byte>, base: nat, end: nat, p: nat, ip: nat, out: array<byte>, op: nat, s: Stream)
    reads out
  {
    && p <= ip && base < ip && p <= end <= |inp| && op <= out.Length
    && (s.items == [] ==> 5 <= ip)
    && Pending(inp, out[..op], s, p)
  }

  /**
   What one turn at `ip` does when the dictionary suggests the position `m`: if the four bytes
   there are the same, the pending bytes and the longest match are written, otherwise nothing.
   */
  ghost predicate Turned(inp: seq<byte>, end: nat, ii: nat, ti: nat, ip: nat, op: nat, s: Stream, m: nat,
                         ii': nat, ti': nat, ip': nat, op': nat, s': Stream)
    requires ti <= ii <= ip && m < ip && ip + 4 <= |inp|
  {
    if inp[m..m + 4] == inp[ip..ip + 4] then
      && ii' == ip' && ti' == 0 && ip + 4 <= ip' < |inp| && ip - m <= M4_MAX_OFFSET
      && Repeats(inp, ip - m, ip, ip') && Longest(inp, ip - m, ip, ip', end - 20)
      && s' == Extend(s, inp, ii - ti, ip, ip - m, ip' - ip)
      && op' == op + |LitCode(inp[ii - ti..ip])| + |MatchCode(ip - m, ip' - ip, 0)|
    else ii' == ii && ti' == ti && ip' == ip + 1 + (ip - ii) / 32 && op' == op && s' == s
  }

  /** The variables of do_compress at the label `next`, and the stream written so far. */
  datatype Look = Look(ii: nat, ti: nat, ip: nat, op: nat, s: Stream, dict: seq<uint16>)

  /** From one look to the next: the suggested match or a step forward, and the dictionary learns the position. */
  ghost predicate NextLook(inp: seq<byte>, base: nat, end: nat, a: Look, b: Look) {
    && a.ti <= a.ii <= a.ip && base < a.ip && a.ip + 20 < end <= |inp| && |a.dict| == D_SIZE
    && var h := DIndex(Get32(inp, a.ip));
       && a.dict[h] < a.ip - base < 0x10000 && b.dict == a.dict[h := (a.ip - base) as uint16]
       && Turned(inp, end, a.ii, a.ti, a.ip, a.op, a.s, base + a.dict[h], b.ii, b.ti, b.ip, b.op, b.s)
  }

  /** All looks at a chunk that ends at `end`, until one is too close to the end. */
  ghost predicate AllLooks(inp: seq<byte>, base: nat, end: nat, looks: seq<Look>) {
    && looks != [] && looks[|looks| - 1].ip + 20 >= end
    && SomeLooks(inp, base, end, looks)
  }

  ghost predicate SomeLooks(inp: seq<byte>, base: nat, end: nat, looks: seq<Look>) {
    forall k :: 0 <= k < |looks| - 1 ==> NextLook(inp, base, end, looks[k], looks[k + 1])
  }

  lemma OneLook(inp: seq<byte>, base: nat, end: nat, looks: seq<Look>)
    requires |looks| == 1
    ensures SomeLooks(inp, base, end, looks)
  {
  }

  lemma MoreLooks(inp: seq<byte>, base: nat, end: nat, looks: seq<Look>, b: Look)
    requires looks != [] && SomeLooks(inp, base, end, looks) && NextLook(inp, base, end, looks[|looks| - 1], b)
    ensures SomeLooks(inp, base, end, looks + [b])
  {
    hide NextLook;
    var more := looks + [b];
    forall k | 0 <= k < |more| - 1
      ensures NextLook(inp, base, end, more[k], more[k + 1])
    {
      assert k < |looks| - 1 ==> more[k] == looks[k] && more[k + 1] == looks[k + 1];
    }
  }

  /** One turn: a literal step if the four bytes are new, otherwise the whole match. */
  method ChunkTurn(inp: seq<byte>, base: nat, end: nat, ii: nat, ti: nat, ip: nat, out: array<byte>, op: nat,
                   dict: array<uint16>, ghost s: Stream)
    returns (ii': nat, ti': nat, ip': nat, op': nat, ghost s': Stream)
    requires ti <= ii <= ip && ip + 20 < end <= base + CHUNK && Fits(inp, out)
    requires AtNext(inp, base, end, ii - ti, ip, out, op, s) && DictBelow(dict, ip - base)
    modifies out, dict
    ensures ti' <= ii' <= ip' && ip < ip'
    ensures AtNext(inp, base, end, ii' - ti', ip', out, op', s') && DictBelow(dict, ip' - base)
    ensures var d := old(Suggested(inp, ip, dict));
            d < ip - base && Turned(inp, end, ii, ti, ip, op, s, base + d, ii', ti', ip', op', s')
    ensures NextLook(inp, base, end, old(Look(ii, ti, ip, op, s, dict[..])), Look(ii', ti', ip', op', s', dict[..]))
    ensures op' == op ==> out[..op] == old(out[..op])
  {
    hide Pending, Repeats, DIndex, Get32, LitCode, MatchCode, Extend, Longest;
    ghost var pre := out[..op];
    ghost var was := dict[..];
    var hit, m := Probe(inp, base, ip, dict);
    assert out[..op] == pre;
    assert dict[..] == was[DIndex(Get32(inp, ip)) := (ip - base) as uint16];
    hide DictBelow;
    ii', ti', op', s' := ii, ti, op, s;
    if !hit {
      ip' := ip + 1 + (ip - ii) / 32;
    } else {
      var len := MatchLength(inp, ip - m, ip, end - 20);
      op', s' := EmitItem(inp, ii - ti, ip, ip - m, len, out, op, s);
      ip' := ip + len;
      ii', ti' := ip', 0;
    }
    DictBelowMore(dict, ip - base + 1, ip' - base);
  }

  // ------------------------------------------------ the same byte all over

  ghost predicate AllEqual(inp: seq<byte>) { forall k :: 0 <= k < |inp| ==> inp[k] == inp[0] }

  /** How far into a chunk the search starts. */
  ghost function FirstLook(ti0: nat): nat { (if ti0 < 4 then 4 - ti0 else 0) + 1 }

  /** Not more than a run of `n` literals takes. */
  ghost function RunCost(n: nat): nat { n + 2 + n / 255 }

  lemma LitCost(lits: seq<byte>)
    ensures |lits| <= |LitCode(lits)| <= RunCost(|lits|)
  {
  }

  lemma MatchCostLong(off: nat, len: nat)
    requires 1 <= off <= M4_MAX_OFFSET && 4 <= len
    ensures |MatchCode(off, len, 0)| <= 4 + len / 255
  {
  }

  /** One match of `len` bytes from the first place looked at to the end of the chunk, `t` bytes short of it. */
  ghost predicate OneMatch(ll: nat, ti0: nat, start: nat, t: int, op: nat) {
    var d := FirstLook(ti0);
    var len := ll - t - d;
    && d + 20 < ll && t <= 20 && 12 <= len && len % 8 == 4 && (len == 12 || d + len - 8 < ll - 20)
    && op <= start + RunCost(ti0 + d) + 4 + len / 255
  }

  /** Equal bytes are found to repeat at the first look. */
  lemma EqualTurn(inp: seq<byte>, base: nat, ll: nat, ti0: nat, op: nat, s: Stream, m: nat, ii': nat, ti': nat,
                  ip': nat,
                  op': nat, s': Stream)
    requires AllEqual(inp) && ti0 <= base && base + ll <= |inp| && FirstLook(ti0) + 20 < ll
    requires m < base + FirstLook(ti0)
    requires Turned(inp, base + ll, base, ti0, base + FirstLook(ti0), op, s, m, ii', ti', ip', op', s')
    ensures ii' == ip' && ti' == 0 && ip' >= base + ll - 20 && s'.items != []
    ensures OneMatch(ll, ti0, op, base + ll - ip', op')
  {
    hide LitCode, MatchCode, RunCost, Attach;
    var ip := base + FirstLook(ti0);
    assert inp[m..m + 4] == inp[ip..ip + 4];
    assert inp[ip'] == inp[0] == inp[ip' - (ip - m)];
    LitCost(inp[base - ti0..ip]);
    MatchCostLong(ip - m, ip' - ip);
  }

  /** Before the first look nothing has happened; of equal bytes it finds the one match there is. */
  ghost predicate Looked(inp: seq<byte>, base: nat, ll: nat, ti0: nat, start: nat, s: Stream, ii: nat, ti: nat, ip: nat,
                         op: nat, s': Stream)
  {
    var first := base + FirstLook(ti0);
    && (ip == first ==> ii == base && ti == ti0 && op == start && s' == s)
    && ip >= first && (FirstLook(ti0) + 20 >= ll ==> ip == first)
    && (AllEqual(inp) && ip > first ==>
        && ii == ip && ti == 0 && ip >= base + ll - 20 && s'.items != []
        && OneMatch(ll, ti0, start, base + ll - ip, op))
  }

  lemma StartLooking(inp: seq<byte>, base: nat, ll: nat, ti0: nat, start: nat, s: Stream)
    ensures Looked(inp, base, ll, ti0, start, s, base, ti0, base + FirstLook(ti0), start, s)
  {
  }

  lemma TurnLooks(inp: seq<byte>, base: nat, ll: nat, ti0: nat, start: nat, s: Stream, ii: nat, ti: nat, ip: nat,
                  op: nat, si: Stream, m: nat, ii': nat, ti': nat, ip': nat, op': nat, s': Stream)
    requires Looked(inp, base, ll, ti0, start, s, ii, ti, ip, op, si) && ip < base + ll - 20
    requires ti0 <= base && base + ll <= |inp| && ti <= ii <= ip < ip' && m < ip
    requires Turned(inp, base + ll, ii, ti, ip, op, si, m, ii', ti', ip', op', s')
    ensures Looked(inp, base, ll, ti0, start, s, ii', ti', ip', op', s')
  {
    hide Turned, AllEqual, OneMatch;
    if AllEqual(inp) {
      EqualTurn(inp, base, ll, ti0, start, s, m, ii', ti', ip', op', s');
    }
  }

  lemma AllLooked(inp: seq<byte>, base: nat, ll: nat, ti0: nat, start: nat, s: Stream, ii: nat, ti: nat, ip: nat,
                  op: nat,
                  s': Stream)
    requires Looked(inp, base, ll, ti0, start, s, ii, ti, ip, op, s') && ip >= base + ll - 20
    ensures AllEqual(inp) && FirstLook(ti0) + 20 < ll ==>
              OneMatch(ll, ti0, start, base + ll - (ii - ti), op) && s'.items != []
    ensures FirstLook(ti0) + 20 >= ll ==> ii == base && ti == ti0 && op == start && s' == s
  {
    hide AllEqual, OneMatch;
  }

  /**
   do_compress on the chunk `inp[base..base + ll]`, with `ti0` bytes pending from before it;
   returns how many bytes are pending after it.
   */
  method CompressChunk(inp: seq<byte>, base: nat, ll: nat, ti0: nat, out: array<byte>, start: nat, dict: array<uint16>,
                       ghost s: Stream)
    returns (op: nat, t: nat, ghost s': Stream, ghost looks: seq<Look>)
    requires base + ll <= |inp| && 20 < ll <= CHUNK && ti0 <= base && start <= out.Length && Fits(inp, out)
    requires Pending(inp, out[..start], s, base - ti0) && DictBelow(dict, 1)
    modifies out, dict
    ensures op <= out.Length && t <= base + ll && Pending(inp, out[..op], s', base + ll - t)
    ensures AllEqual(inp) && FirstLook(ti0) + 20 < ll ==> OneMatch(ll, ti0, start, t, op) && s'.items != []
    ensures FirstLook(ti0) + 20 >= ll ==> t == ti0 + ll && op == start && s' == s
    // every look at the chunk, from the first place to its end
    ensures AllLooks(inp, base, base + ll, looks)
    ensures looks[0] == old(Look(base, ti0, base + FirstLook(ti0), start, s, dict[..]))
    ensures var b := looks[|looks| - 1]; b.ti <= b.ii && t == base + ll - (b.ii - b.ti) && b.op == op && b.s == s'
  {
    hide Pending, DictBelow, Turned, AllEqual, OneMatch, Looked, Suggested, AllLooks;
    PendingFacts(inp, out[..start], s, base - ti0);
    op, s' := start, s;
    var ti: nat, ii: nat, ip: nat := ti0, base, base;
    ip := ip + if ti < 4 then 4 - ti else 0;
    ip := ip + 1 + (ip - ii) / 32;
    DictBelowMore(dict, 1, ip - base);
    StartLooking(inp, base, ll, ti0, start, s);
    assert ip == base + FirstLook(ti0);
    ii, ti, op, s', looks := SearchChunk(inp, base, ll, ti, ip, out, op, dict, s);
    t := base + ll - (ii - ti);
  }

  /** The loop of do_compress, from the first look on. */
  method SearchChunk(inp: seq<byte>, base: nat, ll: nat, ti0: nat, first: nat, out: array<byte>, start: nat,
                     dict: array<uint16>, ghost s: Stream)
    returns (ii: nat, ti: nat, op: nat, ghost s': Stream, ghost looks: seq<Look>)
    requires ti0 <= base <= first && base + ll <= |inp| && ll <= CHUNK && Fits(inp, out)
    requires AtNext(inp, base, base + ll, base - ti0, first, out, start, s) && DictBelow(dict, first - base)
    requires Looked(inp, base, ll, ti0, start, s, base, ti0, first, start, s)
    modifies out, dict
    ensures op <= out.Length && ti <= ii && ii - ti <= base + ll && Pending(inp, out[..op], s', ii - ti)
    ensures AllEqual(inp) && FirstLook(ti0) + 20 < ll ==>
              OneMatch(ll, ti0, start, base + ll - (ii - ti), op) && s'.items != []
    ensures FirstLook(ti0) + 20 >= ll ==> ii == base && ti == ti0 && op == start && s' == s
    ensures AllLooks(inp, base, base + ll, looks) && looks[0] == old(Look(base, ti0, first, start, s, dict[..]))
    ensures var b := looks[|looks| - 1]; b.ii == ii && b.ti == ti && b.op == op && b.s == s'
  {
    hide Pending, DictBelow, Turned, AllEqual, OneMatch, DIndex, Get32, Looked, Suggested, FirstLook,
         NextLook, SomeLooks;
    var ip := first;
    ii, ti, op, s' := base, ti0, start, s;
    looks := [Look(ii, ti, ip, op, s', dict[..])];
    OneLook(inp, base, base + ll, looks);
    while ip < base + ll - 20
      invariant ti <= ii <= ip
      invariant Looked(inp, base, ll, ti0, start, s, ii, ti, ip, op, s')
      invariant AtNext(inp, base, base + ll, ii - ti, ip, out, op, s') && DictBelow(dict, ip - base)
      invariant looks != [] && SomeLooks(inp, base, base + ll, looks)
      invariant looks[0] == old(Look(base, ti0, first, start, s, dict[..]))
      invariant looks[|looks| - 1] == Look(ii, ti, ip, op, s', dict[..])
      decreases base + ll - 20 - ip
    {
      ghost var ii0, ti0', ip0, op0, s0 := ii, ti, ip, op, s';
      DictSize(dict, ip - base);
      ghost var m := Suggested(inp, ip, dict);
      ii, ti, ip, op, s' := ChunkTurn(inp, base, base + ll, ii, ti, ip, out, op, dict, s');
      TurnLooks(inp, base, ll, ti0, start, s, ii0, ti0', ip0, op0, s0, base + m, ii, ti, ip, op, s');
      MoreLooks(inp, base, base + ll, looks, Look(ii, ti, ip, op, s', dict[..]));
      looks := looks + [Look(ii, ti, ip, op, s', dict[..])];
    }
    AllLooked(inp, base, ll, ti0, start, s, ii, ti, ip, op, s');
  }

  lemma FinishItems(inp: seq<byte>, pre: seq<byte>, s: Stream)
    requires Closed(inp, pre, s, |inp|) && s.items != []
    ensures Valid(s) && LongItems(s.items) && Expand(s) == inp && Encode(s) == pre + EOF_CODE
  {
    hide RunHeader, EncodeItems, ExpandItems;
    assert inp[..|inp|] == inp;
  }

  lemma FinishAlone(inp: seq<byte>)
    ensures var s := Stream(inp, []);
            Valid(s) && LongItems(s.items) && Expand(s) == inp && Encode(s) == FirstCode(inp, true) + EOF_CODE
  {
    hide FirstCode;
    assert FirstCode(inp, true) + [] + EOF_CODE == FirstCode(inp, true) + EOF_CODE;
  }

  /** The last literal run when no match was found: it has a header of its own. */
  method EmitAlone(inp: seq<byte>, out: array<byte>) returns (op: nat)
    requires Fits(inp, out)
    modifies out
    ensures op <= |inp| + |inp| / 16 + 1 && out[..op] == FirstCode(inp, true)
  {
    hide RunHeader;
    op := 0;
    var t := |inp|;
    if 0 < t <= 238 {
      out[0] := 17 + t;
      assert out[..1] == [17 + t];
      op := CopyAll(inp, 0, out, 1);
    } else if t > 0 {
      RunHeaderCost(t);
      op := EmitRunHeader(out, 0, t);
      op := CopyAll(inp, 0, out, op);
      assert [] + RunHeader(t) + inp == RunHeader(t) + inp;
    }
  }

  /** The last literal run after some match. */
  method EmitRest(inp: seq<byte>, t: nat, out: array<byte>, start: nat, ghost s: Stream)
    returns (op: nat)
    requires t <= |inp| && start <= out.Length && Pending(inp, out[..start], s, |inp| - t) && Fits(inp, out)
    requires s.items != []
    modifies out
    ensures op <= out.Length && Closed(inp, out[..op], Attach(s, inp, |inp| - t, |inp|), |inp|)
    ensures op == start + |LitCode(inp[|inp| - t..])|
  {
    hide MatchCode, Closed, Head, Pending, RunHeader, Attach;
    var p := |inp| - t;
    assert inp[p..] == inp[p..|inp|];
    PendingCost(inp, out[..start], s, p);
    PendingFacts(inp, out[..start], s, p);
    if t <= 3 {
      ghost var i := s.items[|s.items| - 1];
      StartsEmpty(inp, out[..start], s, p);
      CloseByPatch(inp, out[..start], s, p, |inp|);
      if t > 0 {
        PatchState(out, start, t, Head(s), i.off, i.len);
      }
      op := CopyAll(inp, p, out, start);
    } else {
      RunHeaderCost(t);
      ghost var pre := out[..start];
      CloseByRun(inp, pre, s, p, |inp|);
      op := EmitRunHeader(out, start, t);
      op := CopyAll(inp, p, out, op);
      assert pre + RunHeader(t) + inp[p..] == pre + (RunHeader(t) + inp[p..]);
    }
  }

  /** The last literal run. */
  method EmitLast(inp: seq<byte>, t: nat, out: array<byte>, start: nat, ghost s: Stream)
    returns (op: nat, ghost s': Stream)
    requires t <= |inp| && start <= out.Length && Pending(inp, out[..start], s, |inp| - t) && Fits(inp, out)
    modifies out
    ensures op + 3 <= out.Length && Valid(s') && LongItems(s'.items) && Expand(s') == inp
    ensures Encode(s') == out[..op] + EOF_CODE
    ensures s.items == [] ==> op == |FirstCode(inp, true)|
    ensures s.items != [] ==> op == start + |LitCode(inp[|inp| - t..])|
  {
    hide Closed, Pending, Attach, Encode, Expand, Valid, FirstCode;
    PendingFacts(inp, out[..start], s, |inp| - t);
    StartsEmpty(inp, out[..start], s, |inp| - t);
    if start == 0 {
      FinishAlone(inp);
      s' := Stream(inp, []);
      op := EmitAlone(inp, out);
    } else {
      op := EmitRest(inp, t, out, start, s);
      s' := Attach(s, inp, |inp| - t, |inp|);
      AttachItems(s, inp, |inp| - t);
      ClosedCost(inp, out[..op], s', |inp|);
      FinishItems(inp, out[..op], s');
    }
  }

  lemma StartsEmpty(inp: seq<byte>, pre: seq<byte>, s: Stream, p: nat)
    requires Pending(inp, pre, s, p)
    ensures pre == [] <==> s.items == []
    ensures s.items != [] ==> 2 <= |pre|
  {
    if s.items != [] {
      PendingSplit(inp, pre, s, p);
    }
  }

  lemma AttachItems(s: Stream, inp: seq<byte>, p: nat)
    requires p <= |inp| && s.items != []
    ensures Attach(s, inp, p, |inp|).items != []
  {
  }

  /** Byte-by-byte copy of the rest of the input. */
  method CopyAll(inp: seq<byte>, p: nat, out: array<byte>, start: nat) returns (op: nat)
    requires p <= |inp| && start + (|inp| - p) <= out.Length
    modifies out
    ensures op == start + (|inp| - p) && out[..op] == old(out[..start]) + inp[p..]
  {
    ghost var pre := out[..start];
    var k := p;
    op := start;
    while k < |inp|
      invariant p <= k <= |inp| && op == start + (k - p)
      invariant out[..op] == pre + inp[p..k]
    {
      AppendSlice(pre, inp, p, k - p, 1);
      StoreBlock(inp, k, out, op, 1);
      k, op := k + 1, op + 1;
    }
  }

  const TWO64 := 0x1_0000_0000_0000_0000

  /** How many bytes are pending when chunk `k` of equal bytes begins. */
  ghost function Carry(k: nat): nat { if k == 0 then 0 else if k == 1 then 15 else 19 }

  /**
   How many of `n` equal bytes at `addr` are not searched for matches, from chunk `k` on: all that
   follow as soon as a chunk ends so close to the end of the address space that its bound wraps around.
   */
  ghost function Unsearched(n: nat, addr: nat, k: nat): nat
    decreases n - k * CHUNK
  {
    var l := n - k * CHUNK;
    if l <= 20 then 0
    else
      var ll := if l < CHUNK then l else CHUNK;
      if addr + k * CHUNK + ll + (Carry(k) + ll) / 32 >= TWO64 then l else Unsearched(n, addr, k + 1)
  }

  /** All of them are searched unless the input is in the last 1600 bytes of the address space. */
  lemma {:induction false} AllSearched(n: nat, addr: nat, k: nat)
    requires addr + n + 1600 <= TWO64
    ensures Unsearched(n, addr, k) == 0
    decreases n - k * CHUNK
  {
    if n > k * CHUNK + 20 {
      AllSearched(n, addr, k + 1);
    }
  }

  /** After `k` chunks of equal bytes: what was written is one short run and one long match for each. */
  ghost predicate Shrunk(n: nat, k: nat, pos: nat, t: nat, op: nat, found: bool) {
    && pos <= n && pos <= k * CHUNK && (pos < k * CHUNK ==> pos == n) && (k > 0 ==> (k - 1) * CHUNK + 20 < pos) &&
       t <= pos && t <= 41
    && (n - pos > 20 ==> pos == k * CHUNK && t == Carry(k))
    && (n > pos ==> t <= 20)
    && (if found then k > 0 && op <= (pos - t) / 255 + 27 * k - 16 else op == 0 && t == pos <= 25)
  }

  lemma ShrunkNext(n: nat, k: nat, pos: nat, t: nat, op: nat, found: bool, ll: nat, t': nat, op': nat, found': bool)
    requires Shrunk(n, k, pos, t, op, found) && n - pos > 20
    requires ll == if n - pos < CHUNK then n - pos else CHUNK
    requires FirstLook(t) + 20 < ll ==> OneMatch(ll, t, op, t', op') && found'
    requires FirstLook(t) + 20 >= ll ==> t' == t + ll && op' == op && found' == found
    ensures Shrunk(n, k + 1, pos + ll, t', op', found')
  {
    if FirstLook(t) + 20 < ll {
      var len := ll - t' - FirstLook(t);
      SumOfQuotients(pos - t, len);
      assert pos + ll - t' == pos - t + len + (t + FirstLook(t));
    }
  }

  lemma ShrunkStart(n: nat)
    ensures Shrunk(n, 0, 0, 0, 0, false)
  {
  }

  /** The bound of the chunk of `ll` bytes at `pos` is empty or wraps around. */
  predicate NotSearched(addr: nat, pos: nat, t: nat, ll: nat) {
    var llEnd := addr + pos + ll;
    (llEnd + (t + ll) / 32) % TWO64 <= llEnd
  }

  /** `rest` bytes were not searched: all from `pos` on or none, and then not many are left for the last run. */
  ghost predicate Rest(n: nat, pos: nat, t: nat, found: bool, rest: nat) {
    (rest == 0 || rest == n - pos) && (rest == 0 ==> t <= 41 && (!found ==> n < 32))
  }

  lemma NoneLeft(n: nat, addr: nat, k: nat)
    ensures n <= k * CHUNK + 20 ==> Unsearched(n, addr, k) == 0
  {
  }

  lemma EmptyOrWraps(addr: nat, pos: nat, t: nat, ll: nat)
    requires addr + pos + ll < TWO64 && t + ll < 0x10000
    ensures NotSearched(addr, pos, t, ll) <==> t + ll < 32 || addr + pos + ll + (t + ll) / 32 >= TWO64
  {
    var end, q := addr + pos + ll, (t + ll) / 32;
    assert (end + q) % TWO64 == if end + q < TWO64 then end + q else end + q - TWO64;
  }

  /** When the loop over the chunks stops, what is left was not searched, or there is not much of it. */
  lemma Stopped(n: nat, addr: nat, k: nat, pos: nat, t: nat, op: nat, found: bool)
    requires Shrunk(n, k, pos, t, op, found) && addr + n < TWO64
    requires n - pos <= 20 || NotSearched(addr, pos, t, if n - pos < CHUNK then n - pos else CHUNK)
    ensures Rest(n, pos, t + (n - pos), found, Unsearched(n, addr, k))
  {
    hide NotSearched;
    EmptyOrWraps(addr, pos, t, if n - pos < CHUNK then n - pos else CHUNK);
  }

  /** A chunk that is searched is not one of those left out. */
  lemma Searched(n: nat, addr: nat, k: nat, pos: nat, t: nat, op: nat, found: bool)
    requires Shrunk(n, k, pos, t, op, found) && addr + n < TWO64 && n - pos > 20
    requires !NotSearched(addr, pos, t, if n - pos < CHUNK then n - pos else CHUNK)
    ensures Unsearched(n, addr, k) == Unsearched(n, addr, k + 1)
  {
    hide NotSearched;
    EmptyOrWraps(addr, pos, t, if n - pos < CHUNK then n - pos else CHUNK);
  }

  lemma SumOfQuotients(a: nat, b: nat)
    ensures a / 255 + b / 255 <= (a + b) / 255
  {
  }

  /** The length of the code when the last `rest` bytes are not searched. */
  lemma ShrunkLength(inp: seq<byte>, k: nat, pos: nat, t: nat, op: nat, found: bool, rest: nat, last: nat)
    requires Shrunk(|inp|, k, pos, t, op, found)
    requires Rest(|inp|, pos, t + (|inp| - pos), found, rest)
    requires last == if found then op + |LitCode(inp[pos - t..])| else |FirstCode(inp, true)|
    ensures rest <= last + 3 <= |inp| / 255 + 64 * (|inp| / CHUNK + 1) + rest
  {
    hide LitCode, RunHeader;
    var n := |inp|;
    if found {
      LitCost(inp[pos - t..]);
      SumOfQuotients(pos - t, n - (pos - t));
      assert k <= n / CHUNK + 1;
    } else if n > 238 {
      assert |RunHeader(n)| <= 2 + n / 255 by {
        RunHeaderShort(n);
      }
    }
  }

  lemma RunHeaderShort(n: nat)
    requires n >= 4
    ensures |RunHeader(n)| <= 2 + n / 255
  {
  }

  /** The loop over the chunks; `t` bytes are left for the last run. */
  method CompressChunks(inp: seq<byte>, out: array<byte>, dict: array<uint16>, addr: nat)
    returns (t: nat, op: nat, ghost s: Stream, ghost k: nat, ghost pos: nat)
    requires Fits(inp, out) && dict.Length == D_SIZE && addr + |inp| < TWO64
    modifies out, dict
    ensures op <= out.Length && pos <= |inp| && |inp| - pos <= t <= |inp| && Pending(inp, out[..op], s, |inp| - t)
    ensures AllEqual(inp) ==>
              && Shrunk(|inp|, k, pos, t - (|inp| - pos), op, s.items != [])
              && Rest(|inp|, pos, t, s.items != [], Unsearched(|inp|, addr, 0))
  {
    hide Pending, AllEqual, OneMatch, Shrunk, Unsearched, Rest, NotSearched;
    var l: nat, p: nat := |inp|, 0;
    t, op, s, k := 0, 0, Stream([], []), 0;
    PendingStart(inp, out[..0]);
    ShrunkStart(|inp|);
    NoneLeft(|inp|, addr, 0);
    while l > 20
      invariant l + p == |inp| && t <= p && op <= out.Length
      invariant Pending(inp, out[..op], s, p - t)
      invariant AllEqual(inp) ==> Shrunk(|inp|, k, p, t, op, s.items != [])
      invariant AllEqual(inp) ==> Unsearched(|inp|, addr, 0) == Unsearched(|inp|, addr, k)
    {
      var ll := if l < CHUNK then l else CHUNK;
      if NotSearched(addr, p, t, ll) {
        break;
      }
      ghost var pre := out[..op];
      ClearDict(dict);
      assert out[..op] == pre;
      ghost var t0, op0, s0 := t, op, s;
      ghost var looks;
      op, t, s, looks := CompressChunk(inp, p, ll, t, out, op, dict, s);
      if AllEqual(inp) {
        Searched(|inp|, addr, k, p, t0, op0, s0.items != []);
        ShrunkNext(|inp|, k, p, t0, op0, s0.items != [], ll, t, op, s.items != []);
      }
      p, l, k := p + ll, l - ll, k + 1;
    }
    if AllEqual(inp) {
      Stopped(|inp|, addr, k, p, t, op, s.items != []);
    }
    t, pos := t + l, p;
  }

  /**
   lzo1x_1_compress.  `addr` is the address of the input in a 64-bit address space: a chunk is
   not searched for matches if its look-ahead bound would be empty or wrap around.
   */
  method Compress(inp: seq<byte>, out: array<byte>, dict: array<uint16>, addr: nat)
    returns (outLen: nat, ghost s: Stream)
    requires Fits(inp, out) && dict.Length == D_SIZE && addr + |inp| < TWO64
    modifies out, dict
    ensures outLen <= |inp| + |inp| / 16 + 4 && outLen <= out.Length
    ensures Valid(s) && AllValid(s.items) && Expand(s) == inp && out[..outLen] == Encode(s)
    // equal bytes almost disappear, unless they are so close to the end of memory that they are not searched
    ensures AllEqual(inp) ==>
              var rest := Unsearched(|inp|, addr, 0);
              rest <= outLen <= |inp| / 255 + 64 * (|inp| / CHUNK + 1) + rest
  {
    hide Pending, Encode, Expand, Valid, AllEqual, Shrunk, LitCode, FirstCode, Unsearched, Rest;
    var t, op, s0, k, pos := CompressChunks(inp, out, dict, addr);
    ghost var op0 := op;
    op, s := EmitLast(inp, t, out, op, s0);
    if AllEqual(inp) {
      ShrunkLength(inp, k, pos, t - (|inp| - pos), op0, s0.items != [], Unsearched(|inp|, addr, 0), op);
    }
    ghost var pre := out[..op];
    out[op], out[op + 1], out[op + 2] := M4_MARKER + 1, 0, 0;
    outLen := op + 3;
    assert out[..outLen] == pre + EOF_CODE;
    EncodeCost(s);
  }

  /** A thousand zero bytes: a few bytes of code anywhere but at the end of memory, where nothing is compressed. */
  method ZerosAt(addr: nat) returns (outLen: nat)
    requires addr + 1000 < TWO64
    ensures addr + 1031 < TWO64 ==> outLen <= 67
    ensures addr + 1031 >= TWO64 ==> outLen >= 1000
  {
    var inp: seq<byte> := seq(1000, _ => 0);
    var out: array<byte> := new byte[1200](_ => 0);
    var dict: array<uint16> := new uint16[D_SIZE](_ => 0);
    ghost var s;
    outLen, s := Compress(inp, out, dict, addr);
    assert AllEqual(inp);
    assert Unsearched(1000, addr, 1) == 0;
  }

  method ClearDict(dict: array<uint16>)
    requires dict.Length == D_SIZE
    modifies dict
    ensures DictBelow(dict, 1)
  {
    forall k | 0 <= k < D_SIZE {
      dict[k] := 0;
    }
  }

  lemma PendingStart(inp: seq<byte>, pre: seq<byte>)
    requires pre == []
    ensures Pending(inp, pre, Stream([], []), 0)
  {
  }

  lemma FirstCost(first: seq<byte>)
    ensures |FirstCode(first, true)| <= |first| + |first| / 16 + 1
  {
    if |first| > 238 {
      RunHeaderCost(|first|);
    }
  }

  /** The documented worst case is n + n/16 + 67; the code is never longer than n + n/16 + 4. */
  lemma EncodeCost(s: Stream)
    requires Valid(s) && LongItems(s.items)
    ensures |Encode(s)| <= |Expand(s)| + |Expand(s)| / 16 + 4
  {
    hide ExpandItems, EncodeItems, RunHeader;
    FirstCost(s.first);
    if s.items != [] {
      RunHeaderCost(|s.first|);
    }
    ItemsCost(s.first, s.items, |FirstCode(s.first, s.items == [])|);
  }
}
