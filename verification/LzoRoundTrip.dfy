/** The codec as its callers use it: compress, then decompress with enough room. */
module LzoRoundTrip {
  import opened LzoFormat
  import opened LzoDecoder
  import LzoDecompress
  import LzoCompress

  /**
   For every byte string: the compressed form is at most n + n/16 + 4 bytes long, and decompressing
   it into any buffer of at least n bytes returns Ok and exactly the byte string.
   */
  method CompressThenDecompress(data: seq<byte>, capacity: nat, addr: nat)
    returns (compressed: seq<byte>, status: Status, restored: seq<byte>)
    requires |data| <= capacity && addr + |data| < 0x1_0000_0000_0000_0000
    ensures |compressed| <= |data| + |data| / 16 + 4
    ensures status == Ok && restored == data
    ensures forall cap: nat :: |data| <= cap ==> Decompress(compressed, cap) == Decoded(Ok, data)
    ensures forall cap: nat :: cap < |data| ==> Decompress(compressed, cap).status != Ok
  {
    var out := new byte[|data| + |data| / 16 + 67];
    var dict := new LzoCompress.uint16[LzoCompress.D_SIZE];
    var n;
    ghost var s;
    n, s := LzoCompress.Compress(data, out, dict, addr);
    compressed := out[..n];
    hide *;
    forall cap: nat | |data| <= cap
      ensures Decompress(compressed, cap) == Decoded(Ok, data)
    {
      DecompressEncode(s, cap);
    }
    forall cap: nat | cap < |data|
      ensures Decompress(compressed, cap).status != Ok
    {
      AcceptedIffRoom(s, cap);
    }
    var back := new byte[capacity];
    var m;
    status, m := LzoDecompress.DecompressSafe(compressed, back);
    restored := back[..m];
  }

  /** What a smaller buffer can change: only that a step halts with an output overrun. */
  ghost predicate SameWithMoreRoom(cap: nat, small: Outcome, large: Outcome) {
    match small {
      case Go(t) => large == small && |t.out| <= cap
      case Halt(r) => r.status == Ok ==> large == small && |r.out| <= cap
    }
  }

  lemma TakeMatchMoreRoom(inp: seq<byte>, cap: nat, cap': nat, ip: nat, out: seq<byte>, off: nat, len: nat)
    requires cap <= cap' && |out| <= cap && 2 <= ip <= |inp| && 1 <= off
    ensures SameWithMoreRoom(cap, TakeMatch(inp, cap, ip, out, off, len), TakeMatch(inp, cap', ip, out, off, len))
  {
  }

  lemma FarMatchMoreRoom(inp: seq<byte>, cap: nat, cap': nat, ip: nat, out: seq<byte>, m3: bool, head: nat, n: nat)
    requires cap <= cap' && |out| <= cap && ip <= |inp|
    ensures SameWithMoreRoom(cap, FarMatch(inp, cap, ip, out, m3, head, n), FarMatch(inp, cap', ip, out, m3, head, n))
  {
    hide TakeMatch;
    if ip + 2 <= |inp| {
      var o := head + inp[ip] / 4 + (inp[ip + 1] as int) * 64;
      TakeMatchMoreRoom(inp, cap, cap', ip + 2, out, o + 1, n + 2);
      TakeMatchMoreRoom(inp, cap, cap', ip + 2, out, o + 0x4000, n + 2);
    }
  }

  lemma StepFarMoreRoom(inp: seq<byte>, cap: nat, cap': nat, ip: nat, out: seq<byte>, m3: bool, head: nat, n: nat,
                        low: nat)
    requires cap <= cap' && |out| <= cap && ip <= |inp|
    ensures SameWithMoreRoom(cap, StepFar(inp, cap, ip, out, m3, head, n, low),
                             StepFar(inp, cap', ip, out, m3, head, n, low))
  {
    hide FarMatch;
    if n == 0 {
      var r := ReadCount(inp, ip);
      if r.CountAt? {
        FarMatchMoreRoom(inp, cap, cap', r.next, out, m3, head, r.value + low);
      }
    } else {
      FarMatchMoreRoom(inp, cap, cap', ip, out, m3, head, n);
    }
  }

  lemma StepMatchMoreRoom(inp: seq<byte>, cap: nat, cap': nat, ip: nat, out: seq<byte>, b: byte)
    requires cap <= cap' && |out| <= cap && 1 <= ip <= |inp|
    ensures SameWithMoreRoom(cap, StepMatch(inp, cap, ip, out, b), StepMatch(inp, cap', ip, out, b))
  {
    hide TakeMatch, StepFar;
    StepFarMoreRoom(inp, cap, cap', ip, out, true, 0, b % 32, 31);
    StepFarMoreRoom(inp, cap, cap', ip, out, false, (b / 8 % 2) * 0x4000, b % 8, 7);
    if ip < |inp| {
      TakeMatchMoreRoom(inp, cap, cap', ip + 1, out, 1 + b / 4 + (inp[ip] as int) * 4, 2);
      if b >= 64 {
        TakeMatchMoreRoom(inp, cap, cap', ip + 1, out, 1 + b / 4 % 8 + (inp[ip] as int) * 8, b / 32 - 1 + 2);
      }
    }
  }

  lemma StepMoreRoom(inp: seq<byte>, cap: nat, cap': nat, s: State)
    requires cap <= cap' && |s.out| <= cap && s.ip <= |inp| && (s.at.Match? ==> 1 <= s.ip)
    ensures SameWithMoreRoom(cap, Step(inp, cap, s), Step(inp, cap', s))
  {
    match s.at {
      case Top =>
      case FirstLiteralRun =>
        hide TakeMatch;
        if s.ip + 1 < |inp| {
          TakeMatchMoreRoom(inp, cap, cap', s.ip + 2, s.out,
                            1 + M2_MAX_OFFSET + inp[s.ip] / 4 + (inp[s.ip + 1] as int) * 4, 3);
        }
      case Match(b) =>
        hide StepMatch;
        StepMatchMoreRoom(inp, cap, cap', s.ip, s.out, b);
      case MatchNext(t) =>
    }
  }

  lemma {:induction false} RunMoreRoom(inp: seq<byte>, cap: nat, cap': nat, s: State)
    requires cap <= cap' && |s.out| <= cap && s.ip <= |inp| && (s.at.Match? ==> 1 <= s.ip)
    requires Run(inp, cap, s).status == Ok
    ensures Run(inp, cap', s) == Run(inp, cap, s) && |Run(inp, cap, s).out| <= cap
    decreases |inp| - s.ip
  {
    hide Step;
    StepMoreRoom(inp, cap, cap', s);
    if Step(inp, cap, s).Go? {
      RunMoreRoom(inp, cap, cap', Step(inp, cap, s).next);
    }
  }

  /** A stream is accepted exactly when the buffer holds all of its text: nothing is ever cut off silently. */
  lemma AcceptedIffRoom(s: Stream, cap: nat)
    requires Valid(s) && AllValid(s.items)
    ensures Decompress(Encode(s), cap).status == Ok <==> |Expand(s)| <= cap
  {
    hide Run, Encode, Expand;
    var inp := Encode(s);
    if |Expand(s)| <= cap {
      DecompressEncode(s, cap);
    } else {
      DecompressEncode(s, |Expand(s)|);
      if Start(inp, cap).Go? {
        if Run(inp, cap, Start(inp, cap).next).status == Ok {
          RunMoreRoom(inp, cap, |Expand(s)|, Start(inp, cap).next);
        }
      }
    }
  }
}
