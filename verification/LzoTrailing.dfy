/** What the decoder makes of input that goes on after the end marker, or stops before it. */
module LzoTrailing {
  import opened LzoFormat
  import opened LzoDecoder
  import opened LzoRoundTrip

  /** What more input can change of a step that got through: only that the end is not the end. */
  ghost predicate SameWithMore(short: Outcome, long: Outcome) {
    match short {
      case Go(_) => long == short
      case Halt(r) => r.status == Ok ==> long == Halt(Decoded(InputNotConsumed, r.out))
    }
  }

  /** `long` goes on where `inp` ends. */
  ghost predicate GoesOn(inp: seq<byte>, long: seq<byte>) { |inp| < |long| && inp == long[..|inp|] }

  lemma {:induction false} SameBytes(inp: seq<byte>, long: seq<byte>, i: nat, j: nat)
    requires GoesOn(inp, long) && i <= j <= |inp|
    ensures long[i..j] == inp[i..j]
  {
    assert long[..|inp|][i..j] == long[i..j];
  }

  lemma {:induction false} SameCount(inp: seq<byte>, long: seq<byte>, ip: nat)
    requires GoesOn(inp, long) && ReadCount(inp, ip).CountAt?
    ensures ReadCount(long, ip) == ReadCount(inp, ip)
    decreases |inp| - ip
  {
    if inp[ip] == 0 {
      SameCount(inp, long, ip + 1);
    }
  }

  lemma {:induction false} MatchGoesOn(inp: seq<byte>, long: seq<byte>, cap: nat, ip: nat, out: seq<byte>, off: nat,
                                       len: nat)
    requires GoesOn(inp, long) && 2 <= ip <= |inp| && 1 <= off
    ensures TakeMatch(long, cap, ip, out, off, len) == TakeMatch(inp, cap, ip, out, off, len)
    ensures TakeMatch(inp, cap, ip, out, off, len).Halt? ==> TakeMatch(inp, cap, ip, out, off, len).result.status != Ok
  {
    hide CopyMatch;
  }

  lemma {:induction false} FarGoesOn(inp: seq<byte>, long: seq<byte>, cap: nat, ip: nat, out: seq<byte>, m3: bool,
                                     head: nat, n: nat)
    requires GoesOn(inp, long) && ip <= |inp|
    ensures SameWithMore(FarMatch(inp, cap, ip, out, m3, head, n), FarMatch(long, cap, ip, out, m3, head, n))
  {
    hide TakeMatch;
    if ip + 2 <= |inp| {
      var o := head + inp[ip] / 4 + (inp[ip + 1] as int) * 64;
      MatchGoesOn(inp, long, cap, ip + 2, out, o + 1, n + 2);
      MatchGoesOn(inp, long, cap, ip + 2, out, o + 0x4000, n + 2);
    }
  }

  lemma {:induction false} StepFarGoesOn(inp: seq<byte>, long: seq<byte>, cap: nat, ip: nat, out: seq<byte>, m3: bool,
                                         head: nat, n: nat, low: nat)
    requires GoesOn(inp, long) && ip <= |inp|
    ensures SameWithMore(StepFar(inp, cap, ip, out, m3, head, n, low), StepFar(long, cap, ip, out, m3, head, n, low))
  {
    hide FarMatch;
    if n == 0 {
      var r := ReadCount(inp, ip);
      if r.CountAt? {
        SameCount(inp, long, ip);
        FarGoesOn(inp, long, cap, r.next, out, m3, head, r.value + low);
      }
    } else {
      FarGoesOn(inp, long, cap, ip, out, m3, head, n);
    }
  }

  lemma {:induction false} StepMatchGoesOn(inp: seq<byte>, long: seq<byte>, cap: nat, ip: nat, out: seq<byte>, b: byte)
    requires GoesOn(inp, long) && 1 <= ip <= |inp|
    ensures SameWithMore(StepMatch(inp, cap, ip, out, b), StepMatch(long, cap, ip, out, b))
  {
    hide TakeMatch, StepFar;
    StepFarGoesOn(inp, long, cap, ip, out, true, 0, b % 32, 31);
    StepFarGoesOn(inp, long, cap, ip, out, false, (b / 8 % 2) * 0x4000, b % 8, 7);
    if ip < |inp| {
      MatchGoesOn(inp, long, cap, ip + 1, out, 1 + b / 4 + (inp[ip] as int) * 4, 2);
      if b >= 64 {
        MatchGoesOn(inp, long, cap, ip + 1, out, 1 + b / 4 % 8 + (inp[ip] as int) * 8, b / 32 - 1 + 2);
      }
    }
  }

  lemma {:induction false} RunGoesOn(inp: seq<byte>, long: seq<byte>, cap: nat, ip: nat, out: seq<byte>, t: nat)
    requires GoesOn(inp, long) && ip <= |inp|
    ensures SameWithMore(LiteralRun(inp, cap, ip, out, t), LiteralRun(long, cap, ip, out, t))
  {
    if ip + t + 3 <= |inp| {
      SameBytes(inp, long, ip, ip + t + 3);
    }
  }

  lemma {:induction false} TopGoesOn(inp: seq<byte>, long: seq<byte>, cap: nat, ip: nat, out: seq<byte>)
    requires GoesOn(inp, long) && ip <= |inp|
    ensures SameWithMore(StepTop(inp, cap, ip, out), StepTop(long, cap, ip, out))
  {
    hide LiteralRun;
    if ip < |inp| {
      assert long[ip] == inp[ip];
      if inp[ip] == 0 {
        var r := ReadCount(inp, ip + 1);
        if r.CountAt? {
          SameCount(inp, long, ip + 1);
          RunGoesOn(inp, long, cap, r.next, out, r.value + 15);
        }
      } else {
        RunGoesOn(inp, long, cap, ip + 1, out, inp[ip]);
      }
    }
  }

  lemma {:induction false} StepGoesOn(inp: seq<byte>, long: seq<byte>, cap: nat, s: State)
    requires GoesOn(inp, long) && s.ip <= |inp| && (s.at.Match? ==> 1 <= s.ip)
    ensures SameWithMore(Step(inp, cap, s), Step(long, cap, s))
  {
    hide TakeMatch, StepMatch, StepTop;
    var ip := s.ip;
    match s.at {
      case Top => TopGoesOn(inp, long, cap, ip, s.out);
      case FirstLiteralRun =>
        if ip + 1 < |inp| {
          assert long[ip] == inp[ip] && long[ip + 1] == inp[ip + 1];
          MatchGoesOn(inp, long, cap, ip + 2, s.out, 1 + M2_MAX_OFFSET + inp[ip] / 4 + (inp[ip + 1] as int) * 4, 3);
        } else if ip < |inp| {
          assert long[ip] == inp[ip];
        }
      case Match(b) => StepMatchGoesOn(inp, long, cap, ip, s.out, b);
      case MatchNext(t) =>
        if ip + t <= |inp| {
          SameBytes(inp, long, ip, ip + t);
        }
    }
  }

  lemma {:induction false} AllGoesOn(inp: seq<byte>, long: seq<byte>, cap: nat, s: State)
    requires GoesOn(inp, long) && s.ip <= |inp| && (s.at.Match? ==> 1 <= s.ip) && Run(inp, cap, s).status == Ok
    ensures Run(long, cap, s) == Decoded(InputNotConsumed, Run(inp, cap, s).out)
    decreases |inp| - s.ip
  {
    hide Step;
    StepGoesOn(inp, long, cap, s);
    if Step(inp, cap, s).Go? {
      AllGoesOn(inp, long, cap, Step(inp, cap, s).next);
    }
  }

  /** What is accepted is not accepted with anything after it, for all inputs: the text is there, the status says so. */
  lemma {:induction false} TrailingBytes(inp: seq<byte>, tail: seq<byte>, cap: nat)
    requires tail != [] && Decompress(inp, cap).status == Ok
    ensures Decompress(inp + tail, cap) == Decoded(InputNotConsumed, Decompress(inp, cap).out)
  {
    hide Run;
    var long := inp + tail;
    assert GoesOn(inp, long);
    var a := Start(inp, cap);
    if a.Go? {
      if inp[0] > 17 && inp[0] - 17 >= 4 {
        SameBytes(inp, long, 1, 1 + (inp[0] - 17));
      }
      assert Start(long, cap) == a;
      AllGoesOn(inp, long, cap, a.next);
    }
  }

  lemma {:induction false} MoreRoom(inp: seq<byte>, cap: nat, cap': nat)
    requires cap <= cap' && Decompress(inp, cap).status == Ok
    ensures Decompress(inp, cap').status == Ok
  {
    hide Run;
    var a := Start(inp, cap);
    if a.Go? {
      RunMoreRoom(inp, cap, cap', a.next);
    }
  }

  /** So nothing that was cut off is ever taken for the whole, with any buffer. */
  lemma {:induction false} NoPartAccepted(s: Stream, part: seq<byte>, cap: nat)
    requires Valid(s) && AllValid(s.items) && part < Encode(s)
    ensures Decompress(part, cap).status != Ok
  {
    hide Decompress, Encode, Expand;
    if Decompress(part, cap).status == Ok {
      var enough := if cap < |Expand(s)| then |Expand(s)| else cap;
      var tail := Encode(s)[|part|..];
      assert part + tail == Encode(s);
      MoreRoom(part, cap, enough);
      TrailingBytes(part, tail, enough);
      DecompressEncode(s, enough);
    }
  }
}
