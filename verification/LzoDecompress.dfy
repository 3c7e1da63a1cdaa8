/**
 lzo1x_decompress_safe in place: the moving pointers `ip` and `op`, the output buffer, the
 4- and 8-byte copies.  It is proved to compute `LzoDecoder.Decompress` for every input.
 */
module LzoDecompress {
  import opened LzoFormat
  import opened LzoDecoder
  import opened LzoBuffer

  lemma {:induction false} CopyMatchAdd(out: seq<byte>, off: nat, a: nat, b: nat)
    requires 1 <= off <= |out|
    ensures CopyMatch(out, off, a + b) == CopyMatch(CopyMatch(out, off, a), off, b)
    decreases a
  {
    if a > 0 {
      CopyMatchAdd(out + [out[|out| - off]], off, a - 1, b);
    }
  }

  /** A block no longer than the distance is a plain copy: this is what makes the 8-byte copy right. */
  lemma {:induction false} CopyMatchBlock(out: seq<byte>, off: nat, c: nat)
    requires 1 <= off <= |out| && c <= off
    ensures CopyMatch(out, off, c) == out + out[|out| - off..|out| - off + c]
    decreases c
  {
    if c > 0 {
      CopyMatchAdd(out, off, c - 1, 1);
      CopyMatchBlock(out, off, c - 1);
      var part := CopyMatch(out, off, c - 1);
      assert CopyMatch(part, off, 1) == part + [part[|part| - off]];
      assert part[|part| - off] == out[|out| - off + c - 1];
    }
  }

  /** The size of the next copy: 8 bytes while 8 remain, then 4, then single bytes. */
  function BlockSize(left: nat): (n: nat)
    ensures left >= 1 ==> 1 <= n <= left && n <= 8
  {
    if left >= 8 then 8 else if left >= 4 then 4 else 1
  }

  /** One wide store: `n` bytes are read before any is written. */
  method CopyBlock(out: array<byte>, op: nat, off: nat, n: nat)
    requires 1 <= n <= off <= op && op + n <= out.Length
    modifies out
    ensures out[..op + n] == old(out[..op]) + old(out[..op])[op - off..op - off + n]
  {
    ghost var pre := out[..op];
    forall j | 0 <= j < n {
      out[op + j] := out[op - off + j];
    }
    ghost var block := pre[op - off..op - off + n];
    assert forall j :: 0 <= j < n ==> out[op + j] == block[j];
    assert out[..op] == pre && out[op..op + n] == block;
    assert out[..op + n] == out[..op] + out[op..op + n];
  }

  /** The match copy: blocks of 8, 4 and single bytes when the distance is at least 8, else byte by byte. */
  method CopyMatchInPlace(out: array<byte>, op: nat, off: nat, len: nat, wide: bool)
    requires 1 <= off <= op && op + len <= out.Length
    modifies out
    ensures out[..op + len] == CopyMatch(old(out[..op]), off, len)
  {
    ghost var pre := out[..op];
    assert CopyMatch(pre, off, 0) == pre;
    hide CopyMatch;
    var k := 0;
    while k < len
      invariant k <= len && out[..op + k] == CopyMatch(pre, off, k)
    {
      var n := if wide && off >= 8 then BlockSize(len - k) else 1;
      CopyMatchExtend(pre, off, k, n, out[..op + k]);
      CopyBlock(out, op + k, off, n);
      k := k + n;
    }
  }

  /** A partial copy grows by a block read back from its own end. */
  lemma CopyMatchExtend(pre: seq<byte>, off: nat, k: nat, n: nat, cur: seq<byte>)
    requires 1 <= off <= |pre| && n <= off && cur == CopyMatch(pre, off, k)
    ensures CopyMatch(pre, off, k + n) == cur + cur[|cur| - off..|cur| - off + n]
  {
    hide CopyMatch;
    CopyMatchAdd(pre, off, k, n);
    CopyMatchBlock(cur, off, n);
  }

  /** The literal copy, in blocks of 8, then 4, then up to three single bytes. */
  method CopyLiterals(inp: seq<byte>, ip: nat, out: array<byte>, op: nat, n: nat)
    requires ip + n <= |inp| && op + n <= out.Length
    modifies out
    ensures out[..op + n] == old(out[..op]) + inp[ip..ip + n]
  {
    ghost var pre := out[..op];
    var k := 0;
    while k < n
      invariant k <= n && out[..op + k] == pre + inp[ip..ip + k]
    {
      var c := BlockSize(n - k);
      AppendSlice(pre, inp, ip, k, c);
      StoreBlock(inp, ip + k, out, op + k, c);
      k := k + c;
    }
  }

  /** Reads a base-255 number. */
  method ReadNumber(inp: seq<byte>, start: nat) returns (r: CountResult)
    ensures r == ReadCount(inp, start)
  {
    var ip: nat, t: nat := start, 0;
    while ip < |inp| && inp[ip] == 0
      invariant ip <= |inp| || ip == start
      invariant var q := ReadCount(inp, ip);
                ReadCount(inp, start) == if q.NoCount? then NoCount else CountAt(q.value + t, q.next)
      decreases |inp| - ip
    {
      t := t + 255;
      ip := ip + 1;
    }
    if ip >= |inp| {
      return NoCount;
    }
    r := CountAt(t + inp[ip], ip + 1);
  }

  /** A match with its tests: `halted` carries the error, otherwise control is at match_done. */
  method DoMatch(inp: seq<byte>, ip: nat, out: array<byte>, op: nat, off: nat, len: nat, wide: bool)
    returns (halted: bool, status: Status, at: Label, op': nat)
    requires 2 <= ip <= |inp| && 1 <= off && op <= out.Length
    modifies out
    ensures op' <= out.Length && !at.Match?
    ensures TakeMatch(inp, out.Length, ip, old(out[..op]), off, len)
         == if halted then Halt(Decoded(status, out[..op'])) else Go(State(at, ip, out[..op']))
  {
    halted, status, at, op' := true, Ok, Top, op;
    if off > op {
      status := LookbehindOverrun;
    } else if out.Length - op < len {
      status := OutputOverrun;
    } else {
      CopyMatchInPlace(out, op, off, len, wide);
      halted, op' := false, op + len;
      var t := inp[ip - 2] % 4;
      at := if t == 0 then Top else MatchNext(t);
    }
  }

  method DoLiteralRun(inp: seq<byte>, ip: nat, out: array<byte>, op: nat, t: nat)
    returns (halted: bool, status: Status, ip': nat, op': nat)
    requires ip <= |inp| && op <= out.Length
    modifies out
    ensures op' <= out.Length
    ensures LiteralRun(inp, out.Length, ip, old(out[..op]), t)
         == if halted then Halt(Decoded(status, out[..op'])) else Go(State(FirstLiteralRun, ip', out[..op']))
  {
    halted, status, ip', op' := true, Ok, ip, op;
    if out.Length - op < t + 3 {
      status := OutputOverrun;
    } else if |inp| - ip < t + 4 {
      status := InputOverrun;
    } else {
      CopyLiterals(inp, ip, out, op, t + 3);
      halted, ip', op' := false, ip + t + 3, op + t + 3;
    }
  }

  method DoTop(inp: seq<byte>, ip: nat, out: array<byte>, op: nat)
    returns (halted: bool, status: Status, at: Label, ip': nat, op': nat)
    requires ip <= |inp| && op <= out.Length
    modifies out
    ensures op' <= out.Length
    ensures StepTop(inp, out.Length, ip, old(out[..op]))
         == if halted then Halt(Decoded(status, out[..op'])) else Go(State(at, ip', out[..op']))
  {
    hide LiteralRun;
    halted, status, at, ip', op' := true, Ok, FirstLiteralRun, ip, op;
    if ip == |inp| {
      status := EofNotFound;
    } else if inp[ip] >= 16 {
      halted, at, ip' := false, Match(inp[ip]), ip + 1;
    } else if inp[ip] == 0 {
      var r := ReadNumber(inp, ip + 1);
      if r.NoCount? {
        status := InputOverrun;
      } else {
        halted, status, ip', op' := DoLiteralRun(inp, r.next, out, op, r.value + 15);
      }
    } else {
      halted, status, ip', op' := DoLiteralRun(inp, ip + 1, out, op, inp[ip]);
    }
  }

  method DoFirstLiteralRun(inp: seq<byte>, ip: nat, out: array<byte>, op: nat)
    returns (halted: bool, status: Status, at: Label, ip': nat, op': nat)
    requires ip <= |inp| && op <= out.Length
    modifies out
    ensures op' <= out.Length
    ensures StepFirstLiteralRun(inp, out.Length, ip, old(out[..op]))
         == if halted then Halt(Decoded(status, out[..op'])) else Go(State(at, ip', out[..op']))
  {
    hide TakeMatch;
    halted, status, at, ip', op' := true, OverRead, Top, ip, op;
    if ip == |inp| {
    } else if inp[ip] >= 16 {
      halted, at, ip' := false, Match(inp[ip]), ip + 1;
    } else if ip + 1 < |inp| {
      ip' := ip + 2;
      halted, status, at, op' := DoMatch(inp, ip', out, op, 1 + M2_MAX_OFFSET + inp[ip] / 4 + (inp[ip + 1] as int) * 4,
                                         3, false);
    }
  }

  method DoFar(inp: seq<byte>, ip: nat, out: array<byte>, op: nat, m3: bool, head: nat, n: nat, low: nat)
    returns (halted: bool, status: Status, at: Label, ip': nat, op': nat)
    requires ip <= |inp| && op <= out.Length
    modifies out
    ensures op' <= out.Length
    ensures StepFar(inp, out.Length, ip, old(out[..op]), m3, head, n, low)
         == if halted then Halt(Decoded(status, out[..op'])) else Go(State(at, ip', out[..op']))
  {
    hide TakeMatch;
    halted, status, at, ip', op' := true, OverRead, Top, ip, op;
    var t := n;
    if n == 0 {
      var r := ReadNumber(inp, ip);
      if r.NoCount? {
        status := InputOverrun;
        return;
      }
      t, ip' := r.value + low, r.next;
    }
    if |inp| < ip' + 2 {
      return;
    }
    var o := head + inp[ip'] / 4 + (inp[ip' + 1] as int) * 64;
    ip' := ip' + 2;
    if m3 {
      halted, status, at, op' := DoMatch(inp, ip', out, op, o + 1, t + 2, true);
    } else if o == 0 {
      status := if ip' == |inp| then Ok else InputNotConsumed;
    } else {
      halted, status, at, op' := DoMatch(inp, ip', out, op, o + 0x4000, t + 2, true);
    }
  }

  method DoMatchByte(inp: seq<byte>, ip: nat, out: array<byte>, op: nat, b: byte)
    returns (halted: bool, status: Status, at: Label, ip': nat, op': nat)
    requires 1 <= ip <= |inp| && op <= out.Length
    modifies out
    ensures op' <= out.Length
    ensures StepMatch(inp, out.Length, ip, old(out[..op]), b)
         == if halted then Halt(Decoded(status, out[..op'])) else Go(State(at, ip', out[..op']))
  {
    hide TakeMatch, StepFar;
    halted, status, at, ip', op' := true, OverRead, Top, ip, op;
    if b >= 64 {
      if ip < |inp| {
        ip' := ip + 1;
        halted, status, at, op' :=
        DoMatch(inp, ip', out, op, 1 + b / 4 % 8 + (inp[ip] as int) * 8, b / 32 - 1 + 2, false);
      }
    } else if b >= 32 {
      halted, status, at, ip', op' := DoFar(inp, ip, out, op, true, 0, b % 32, 31);
    } else if b >= 16 {
      halted, status, at, ip', op' := DoFar(inp, ip, out, op, false, (b / 8 % 2) * 0x4000, b % 8, 7);
    } else if ip < |inp| {
      ip' := ip + 1;
      halted, status, at, op' := DoMatch(inp, ip', out, op, 1 + b / 4 + (inp[ip] as int) * 4, 2, false);
    }
  }

  method DoMatchNext(inp: seq<byte>, ip: nat, out: array<byte>, op: nat, t: nat)
    returns (halted: bool, status: Status, at: Label, ip': nat, op': nat)
    requires ip <= |inp| && op <= out.Length
    modifies out
    ensures op' <= out.Length
    ensures StepMatchNext(inp, out.Length, ip, old(out[..op]), t)
         == if halted then Halt(Decoded(status, out[..op'])) else Go(State(at, ip', out[..op']))
  {
    halted, status, at, ip', op' := true, EofNotFound, Top, ip, op;
    if out.Length - op < t {
      status := OutputOverrun;
    } else if |inp| - ip < t + 1 {
      status := InputOverrun;
    } else {
      CopyLiterals(inp, ip, out, op, t);
      halted, at, ip', op' := ip + t + 1 >= |inp|, Match(inp[ip + t]), ip + t + 1, op + t;
    }
  }

  /** One turn of the goto-linked loops. */
  method DoStep(inp: seq<byte>, out: array<byte>, at: Label, ip: nat, op: nat)
    returns (halted: bool, status: Status, at': Label, ip': nat, op': nat)
    requires ip <= |inp| && (at.Match? ==> 1 <= ip) && op <= out.Length
    modifies out
    ensures op' <= out.Length
    ensures Step(inp, out.Length, State(at, ip, old(out[..op])))
         == if halted then Halt(Decoded(status, out[..op'])) else Go(State(at', ip', out[..op']))
  {
    hide StepTop, StepFirstLiteralRun, StepMatch, StepMatchNext;
    match at {
      case Top => halted, status, at', ip', op' := DoTop(inp, ip, out, op);
      case FirstLiteralRun => halted, status, at', ip', op' := DoFirstLiteralRun(inp, ip, out, op);
      case Match(b) => halted, status, at', ip', op' := DoMatchByte(inp, ip, out, op, b);
      case MatchNext(t) => halted, status, at', ip', op' := DoMatchNext(inp, ip, out, op, t);
    }
  }

  /** The code before the main loop: a first byte above 17 announces a literal run. */
  method DoStart(inp: seq<byte>, out: array<byte>)
    returns (halted: bool, status: Status, at: Label, ip: nat, op: nat)
    modifies out
    ensures op <= out.Length && ip <= |inp| && !at.Match?
    ensures Start(inp, out.Length)
         == if halted then Halt(Decoded(status, out[..op])) else Go(State(at, ip, out[..op]))
  {
    halted, status, at, ip, op := true, OverRead, Top, 0, 0;
    if |inp| == 0 {
    } else if inp[0] > 17 {
      var t := inp[0] - 17;
      if t < 4 {
        halted, at, ip := false, MatchNext(t), 1;
      } else if out.Length < t {
        status := OutputOverrun;
      } else if |inp| - 1 < t + 1 {
        status := InputOverrun;
      } else {
        CopyLiterals(inp, 1, out, 0, t);
        halted, at, ip, op := false, FirstLiteralRun, 1 + t, t;
      }
    } else {
      halted := false;
    }
  }

  /** lzo1x_decompress_safe: status, and the output bytes before `outLen`. */
  method DecompressSafe(inp: seq<byte>, out: array<byte>) returns (status: Status, outLen: nat)
    modifies out
    ensures outLen <= out.Length
    ensures Decoded(status, out[..outLen]) == Decompress(inp, out.Length)
  {
    hide Start, Step;
    var halted, at;
    var ip: nat, op: nat;
    halted, status, at, ip, op := DoStart(inp, out);
    while !halted
      invariant op <= out.Length
      invariant !halted ==> ip <= |inp| && (at.Match? ==> 1 <= ip)
      invariant Decompress(inp, out.Length)
             == if halted then Decoded(status, out[..op]) else Run(inp, out.Length, State(at, ip, out[..op]))
      decreases !halted, |inp| - ip
    {
      halted, status, at, ip, op := DoStep(inp, out, at, ip, op);
    }
    outLen := op;
  }
}
