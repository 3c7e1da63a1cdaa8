/**
 lzo1x_decompress_safe as a step function between the labels of its control flow, its run,
 and the theorem that a run on an encoded stream gives back the stream's meaning.
 */
module LzoDecoder {
  import opened LzoFormat

  /** The return codes; `OverRead` stands for a read past the input, which the C code does not guard. */
  datatype Status = Ok | EofNotFound | InputNotConsumed | InputOverrun | OutputOverrun | LookbehindOverrun | OverRead

  datatype Decoded = Decoded(status: Status, out: seq<byte>)

  /** The labels: outer loop, first_literal_run, match (with the byte just read), match_next. */
  datatype Label = Top | FirstLiteralRun | Match(b: byte) | MatchNext(t: nat)

  datatype State = State(at: Label, ip: nat, out: seq<byte>)

  datatype Outcome = Go(next: State) | Halt(result: Decoded)

  datatype CountResult = NoCount | CountAt(value: nat, next: nat)

  /** Reads a base-255 number; `NoCount` if the input ends first. */
  ghost function ReadCount(inp: seq<byte>, ip: nat): (r: CountResult)
    ensures r.CountAt? ==> ip < r.next <= |inp| && 1 <= r.value
    decreases |inp| - ip
  {
    if ip >= |inp| then NoCount
    else if inp[ip] == 0 then
      var r := ReadCount(inp, ip + 1);
      if r.NoCount? then NoCount else CountAt(r.value + 255, r.next)
    else CountAt(inp[ip], ip + 1)
  }

  ghost function Start(inp: seq<byte>, cap: nat): (r: Outcome)
    ensures r.Go? ==> r.next.ip <= |inp|
  {
    if |inp| == 0 then Halt(Decoded(OverRead, []))
    else if inp[0] > 17 then
      var t := inp[0] - 17;
      if t < 4 then Go(State(MatchNext(t), 1, []))
      else if cap < t then Halt(Decoded(OutputOverrun, []))
      else if |inp| - 1 < t + 1 then Halt(Decoded(InputOverrun, []))
      else Go(State(FirstLiteralRun, 1 + t, inp[1..1 + t]))
    else Go(State(Top, 0, []))
  }

  ghost function LiteralRun(inp: seq<byte>, cap: nat, ip: nat, out: seq<byte>, t: nat): (r: Outcome)
    requires ip <= |inp|
    ensures r.Go? ==> ip < r.next.ip <= |inp|
  {
    if cap - |out| < t + 3 then Halt(Decoded(OutputOverrun, out))
    else if |inp| - ip < t + 4 then Halt(Decoded(InputOverrun, out))
    else Go(State(FirstLiteralRun, ip + t + 3, out + inp[ip..ip + t + 3]))
  }

  /** Look-behind and capacity tests, the copy, and the state bits two bytes back. */
  ghost function TakeMatch(inp: seq<byte>, cap: nat, ip: nat, out: seq<byte>, off: nat, len: nat): (r: Outcome)
    requires 2 <= ip <= |inp| && 1 <= off
    ensures r.Go? ==> r.next.ip == ip
  {
    if off > |out| then Halt(Decoded(LookbehindOverrun, out))
    else if cap - |out| < len then Halt(Decoded(OutputOverrun, out))
    else
      var t := inp[ip - 2] % 4;
      Go(State(if t == 0 then Top else MatchNext(t), ip, CopyMatch(out, off, len)))
  }

  /** The two offset bytes of an M3 or M4 match; offset zero of M4 is the end marker. */
  ghost function FarMatch(inp: seq<byte>, cap: nat, ip: nat, out: seq<byte>, m3: bool, head: nat, n: nat): (r: Outcome)
    requires ip <= |inp|
    ensures r.Go? ==> ip < r.next.ip <= |inp|
  {
    if |inp| < ip + 2 then Halt(Decoded(OverRead, out))
    else
      var o := head + inp[ip] / 4 + (inp[ip + 1] as int) * 64;
      if m3 then TakeMatch(inp, cap, ip + 2, out, o + 1, n + 2)
      else if o == 0 then Halt(Decoded(if ip + 2 == |inp| then Ok else InputNotConsumed, out))
      else TakeMatch(inp, cap, ip + 2, out, o + 0x4000, n + 2)
  }

  ghost function StepTop(inp: seq<byte>, cap: nat, ip: nat, out: seq<byte>): Outcome
    requires ip <= |inp|
  {
    if ip == |inp| then Halt(Decoded(EofNotFound, out))
    else if inp[ip] >= 16 then Go(State(Match(inp[ip]), ip + 1, out))
    else if inp[ip] == 0 then
      match ReadCount(inp, ip + 1) {
        case NoCount => Halt(Decoded(InputOverrun, out))
        case CountAt(v, next) => LiteralRun(inp, cap, next, out, v + 15)
      }
    else LiteralRun(inp, cap, ip + 1, out, inp[ip])
  }

  /** After a literal run: a match, or a three-byte match at a distance over 2048. */
  ghost function StepFirstLiteralRun(inp: seq<byte>, cap: nat, ip: nat, out: seq<byte>): Outcome
    requires ip <= |inp|
  {
    if ip == |inp| then Halt(Decoded(OverRead, out))
    else if inp[ip] >= 16 then Go(State(Match(inp[ip]), ip + 1, out))
    else if ip + 1 == |inp| then Halt(Decoded(OverRead, out))
    else TakeMatch(inp, cap, ip + 2, out, 1 + M2_MAX_OFFSET + inp[ip] / 4 + (inp[ip + 1] as int) * 4, 3)
  }

  ghost function StepFar(inp: seq<byte>, cap: nat, ip: nat, out: seq<byte>, m3: bool, head: nat, n: nat,
                         low: nat): Outcome
    requires ip <= |inp|
  {
    if n == 0 then
      match ReadCount(inp, ip) {
        case NoCount => Halt(Decoded(InputOverrun, out))
        case CountAt(v, next) => FarMatch(inp, cap, next, out, m3, head, v + low)
      }
    else FarMatch(inp, cap, ip, out, m3, head, n)
  }

  ghost function StepMatch(inp: seq<byte>, cap: nat, ip: nat, out: seq<byte>, b: byte): Outcome
    requires 1 <= ip <= |inp|
  {
    if b >= 64 then
      if ip == |inp| then Halt(Decoded(OverRead, out))
      else TakeMatch(inp, cap, ip + 1, out, 1 + b / 4 % 8 + (inp[ip] as int) * 8, b / 32 - 1 + 2)
    else if b >= 32 then StepFar(inp, cap, ip, out, true, 0, b % 32, 31)
    else if b >= 16 then StepFar(inp, cap, ip, out, false, (b / 8 % 2) * 0x4000, b % 8, 7)
    else if ip == |inp| then Halt(Decoded(OverRead, out))
    else TakeMatch(inp, cap, ip + 1, out, 1 + b / 4 + (inp[ip] as int) * 4, 2)
  }

  /** Up to three literals announced by the state bits, then the next match byte. */
  ghost function StepMatchNext(inp: seq<byte>, cap: nat, ip: nat, out: seq<byte>, t: nat): Outcome
    requires ip <= |inp|
  {
    if cap - |out| < t then Halt(Decoded(OutputOverrun, out))
    else if |inp| - ip < t + 1 then Halt(Decoded(InputOverrun, out))
    else if ip + t + 1 < |inp| then Go(State(Match(inp[ip + t]), ip + t + 1, out + inp[ip..ip + t]))
    else Halt(Decoded(EofNotFound, out + inp[ip..ip + t]))
  }

  /** One step; every step reads at least one more byte. */
  ghost function Step(inp: seq<byte>, cap: nat, s: State): (r: Outcome)
    requires s.ip <= |inp| && (s.at.Match? ==> 1 <= s.ip)
    ensures r.Go? ==> s.ip < r.next.ip <= |inp|
  {
    match s.at {
      case Top => StepTop(inp, cap, s.ip, s.out)
      case FirstLiteralRun => StepFirstLiteralRun(inp, cap, s.ip, s.out)
      case Match(b) => StepMatch(inp, cap, s.ip, s.out, b)
      case MatchNext(t) => StepMatchNext(inp, cap, s.ip, s.out, t)
    }
  }

  ghost function Run(inp: seq<byte>, cap: nat, s: State): Decoded
    requires s.ip <= |inp| && (s.at.Match? ==> 1 <= s.ip)
    decreases |inp| - s.ip
  {
    match Step(inp, cap, s) {
      case Go(next) => Run(inp, cap, next)
      case Halt(result) => result
    }
  }

  /** The whole decoder; `cap` is the capacity of the output buffer. */
  ghost function Decompress(inp: seq<byte>, cap: nat): Decoded {
    match Start(inp, cap) {
      case Go(next) => Run(inp, cap, next)
      case Halt(result) => result
    }
  }

  // ------------------------------------------------- decoding undoes encoding

  /** `code` stands at position `ip` of `inp`. */
  ghost predicate At(inp: seq<byte>, ip: nat, code: seq<byte>) {
    ip + |code| <= |inp| && inp[ip..ip + |code|] == code
  }

  lemma AtSplit(inp: seq<byte>, ip: nat, a: seq<byte>, b: seq<byte>)
    requires At(inp, ip, a + b)
    ensures At(inp, ip, a) && At(inp, ip + |a|, b)
  {
    assert inp[ip..ip + |a|] == inp[ip..ip + |a + b|][..|a|];
    assert inp[ip + |a|..ip + |a| + |b|] == inp[ip..ip + |a + b|][|a|..];
  }

  lemma AtByte(inp: seq<byte>, ip: nat, code: seq<byte>, k: nat)
    requires At(inp, ip, code) && k < |code|
    ensures inp[ip + k] == code[k]
  {
    assert inp[ip + k] == inp[ip..ip + |code|][k];
  }

  lemma {:induction false} ReadCountCount(inp: seq<byte>, ip: nat, n: nat)
    requires 1 <= n && At(inp, ip, Count(n))
    ensures ReadCount(inp, ip) == CountAt(n, ip + |Count(n)|)
    decreases n
  {
    AtByte(inp, ip, Count(n), 0);
    if n > 255 {
      AtSplit(inp, ip, [0], Count(n - 255));
      ReadCountCount(inp, ip + 1, n - 255);
    }
  }

  lemma NearArithmetic(o: nat, len: nat, state: nat)
    requires o < 0x800 && 3 <= len <= 8 && state <= 3
    ensures var t := (len - 1) * 32 + (o % 8) * 4 + state;
            && 64 <= t < 256 && t / 32 == len - 1 && t % 4 == state
            && 1 + t / 4 % 8 + o / 8 * 8 == o + 1
  {
    var t := (len - 1) * 32 + (o % 8) * 4 + state;
    assert t / 4 == (len - 1) * 8 + o % 8;
  }

  lemma FarArithmetic(o: nat, state: nat)
    requires o < 0x8000 && state <= 3
    ensures var b := (o % 64) * 4 + state;
            && b / 4 == o % 64 && b % 4 == state
            && (o / 0x4000) * 0x4000 + o % 64 + (o / 64 % 256) * 64 == o
  {
  }

  /** What the marker byte of an M3 (`m3`) or M4 match selects. */
  lemma MarkerStep(inp: seq<byte>, cap: nat, ip: nat, out: seq<byte>, m3: bool, h: nat, n: nat)
    requires ip < |inp|
    requires if m3 then n < 32 && h == 0 && inp[ip] == M3_MARKER + n
             else n < 8 && h < 2 &&
                  inp[ip] == M4_MARKER + 8 * h + n
    ensures StepMatch(inp, cap, ip + 1, out, inp[ip])
         == StepFar(inp, cap, ip + 1, out, m3, h * 0x4000, n, if m3 then 31 else 7)
  {
    if m3 {
      assert inp[ip] % 32 == n;
    } else {
      assert inp[ip] % 8 == n;
      assert inp[ip] / 8 % 2 == h;
    }
  }

  /** The length part of an M3 or M4 code leads to its two offset bytes with the right length. */
  lemma LongDecodes(inp: seq<byte>, cap: nat, ip: nat, out: seq<byte>, m3: bool, h: nat, len: nat)
    requires 3 <= len && h < 2 && (m3 ==> h == 0)
    requires At(inp, ip, LongCode(m3, h, len))
    ensures 16 <= inp[ip]
    ensures StepMatch(inp, cap, ip + 1, out, inp[ip])
         == FarMatch(inp, cap, ip + |LongCode(m3, h, len)|, out, m3, h * 0x4000, len - 2)
  {
    hide StepMatch, FarMatch;
    var marker := if m3 then M3_MARKER else M4_MARKER + 8 * h;
    var max := if m3 then M3_MAX_LEN else M4_MAX_LEN;
    AtByte(inp, ip, LongCode(m3, h, len), 0);
    MarkerStep(inp, cap, ip, out, m3, h, if len > max then 0 else len - 2);
    if len > max {
      AtSplit(inp, ip, [marker], Count(len - max));
      ReadCountCount(inp, ip + 1, len - max);
    }
  }

  lemma NearDecodes(inp: seq<byte>, cap: nat, ip: nat, out: seq<byte>, o: nat, len: nat, state: nat)
    requires o < 0x800 && 3 <= len <= 8 && state <= 3
    requires At(inp, ip, [(len - 1) * 32 + (o % 8) * 4 + state, o / 8])
    ensures 16 <= inp[ip] && inp[ip] % 4 == state
    ensures StepMatch(inp, cap, ip + 1, out, inp[ip]) == TakeMatch(inp, cap, ip + 2, out, o + 1, len)
  {
    var code := [(len - 1) * 32 + (o % 8) * 4 + state, o / 8];
    AtByte(inp, ip, code, 0);
    AtByte(inp, ip, code, 1);
    NearArithmetic(o, len, state);
  }

  lemma FarDecodes(inp: seq<byte>, cap: nat, ip: nat, out: seq<byte>, m3: bool, o: nat, len: nat, state: nat)
    requires (if m3 then o < 0x4000 else 1 <= o < 0x8000) && 3 <= len && state <= 3
    requires At(inp, ip, LongCode(m3, o / 0x4000, len) + [(o % 64) * 4 + state, o / 64 % 256])
    ensures var end := ip + |LongCode(m3, o / 0x4000, len)| + 2;
            && 16 <= inp[ip] && inp[end - 2] % 4 == state
            && StepMatch(inp, cap, ip + 1, out, inp[ip])
            == TakeMatch(inp, cap, end, out, if m3 then o + 1 else o + 0x4000, len)
  {
    hide StepMatch, TakeMatch;
    var code := LongCode(m3, o / 0x4000, len);
    var tail := [(o % 64) * 4 + state, o / 64 % 256];
    AtSplit(inp, ip, code, tail);
    AtByte(inp, ip + |code|, tail, 0);
    AtByte(inp, ip + |code|, tail, 1);
    FarArithmetic(o, state);
    LongDecodes(inp, cap, ip, out, m3, o / 0x4000, len);
  }

  /** A match code is decoded to its offset and length, and leaves its state bits behind. */
  lemma MatchDecodes(inp: seq<byte>, cap: nat, ip: nat, out: seq<byte>, off: nat, len: nat, state: nat)
    requires 1 <= off <= M4_MAX_OFFSET && 3 <= len && state <= 3
    requires At(inp, ip, MatchCode(off, len, state))
    ensures 16 <= inp[ip]
    ensures StepMatch(inp, cap, ip + 1, out, inp[ip])
         == TakeMatch(inp, cap, ip + |MatchCode(off, len, state)|, out, off, len)
    ensures inp[ip + |MatchCode(off, len, state)| - 2] % 4 == state
  {
    hide StepMatch, TakeMatch;
    if len <= M2_MAX_LEN && off <= M2_MAX_OFFSET {
      NearDecodes(inp, cap, ip, out, off - 1, len, state);
    } else if off <= M3_MAX_OFFSET {
      FarDecodes(inp, cap, ip, out, true, off - 1, len, state);
    } else {
      FarDecodes(inp, cap, ip, out, false, off - 0x4000, len, state);
    }
  }

  /** A literal run of four or more at the top of the loop is copied whole. */
  lemma RunDecodes(inp: seq<byte>, cap: nat, ip: nat, out: seq<byte>, lits: seq<byte>)
    requires 4 <= |lits| && At(inp, ip, RunHeader(|lits|) + lits)
    requires ip + |RunHeader(|lits|) + lits| < |inp| && |out| + |lits| <= cap
    ensures StepTop(inp, cap, ip, out)
         == Go(State(FirstLiteralRun, ip + |RunHeader(|lits|) + lits|, out + lits))
  {
    var h := RunHeader(|lits|);
    AtSplit(inp, ip, h, lits);
    AtByte(inp, ip, h, 0);
    if |lits| > 18 {
      AtSplit(inp, ip, [0], Count(|lits| - 18));
      ReadCountCount(inp, ip + 1, |lits| - 18);
    }
  }

  /** One step of a run. */
  lemma RunStep(inp: seq<byte>, cap: nat, s: State, t: State)
    requires s.ip <= |inp| && (s.at.Match? ==> 1 <= s.ip)
    requires Step(inp, cap, s) == Go(t)
    ensures t.ip <= |inp| && Run(inp, cap, s) == Run(inp, cap, t)
  {
    hide Step;
  }

  /** After a match, its literals lead to the byte that starts the next match. */
  lemma LiteralsDecode(inp: seq<byte>, cap: nat, mid: nat, out: seq<byte>, lits: seq<byte>)
    requires At(inp, mid, LitCode(lits)) && |out| + |lits| <= cap
    requires mid + |LitCode(lits)| + 1 < |inp| && 16 <= inp[mid + |LitCode(lits)|]
    ensures Run(inp, cap, State(if LitState(|lits|) == 0 then Top else MatchNext(|lits|), mid, out))
         == Run(inp, cap, State(Match(inp[mid + |LitCode(lits)|]), mid + |LitCode(lits)| + 1, out + lits))
  {
    hide StepMatch, LiteralRun, ReadCount;
    var n := |lits|;
    var next := mid + |LitCode(lits)|;
    var s1 := State(if LitState(n) == 0 then Top else MatchNext(n), mid, out);
    var s3 := State(Match(inp[next]), next + 1, out + lits);
    if n == 0 {
      assert out + lits == out;
      RunStep(inp, cap, s1, s3);
    } else if n <= 3 {
      RunStep(inp, cap, s1, s3);
    } else {
      RunDecodes(inp, cap, mid, out, lits);
      var s2 := State(FirstLiteralRun, next, out + lits);
      RunStep(inp, cap, s1, s2);
      RunStep(inp, cap, s2, s3);
    }
  }

  /** From one match to the byte that starts the next one, through its literals. */
  lemma ItemDecodes(inp: seq<byte>, cap: nat, ip: nat, out: seq<byte>, i: Item)
    requires ValidItem(i) && i.off <= |out| && At(inp, ip, EncodeItem(i))
    requires |out| + i.len + |i.lits| <= cap
    requires ip + |EncodeItem(i)| + 1 < |inp| && 16 <= inp[ip + |EncodeItem(i)|]
    ensures 16 <= inp[ip]
    ensures Run(inp, cap, State(Match(inp[ip]), ip + 1, out))
         == Run(inp, cap, State(Match(inp[ip + |EncodeItem(i)|]), ip + |EncodeItem(i)| + 1,
                                CopyMatch(out, i.off, i.len) + i.lits))
  {
    hide StepMatch, CopyMatch, MatchCode, LitCode, Run;
    var n := |i.lits|;
    var code := MatchCode(i.off, i.len, LitState(n));
    var out' := CopyMatch(out, i.off, i.len);
    AtSplit(inp, ip, code, LitCode(i.lits));
    MatchDecodes(inp, cap, ip, out, i.off, i.len, LitState(n));
    RunStep(inp, cap, State(Match(inp[ip]), ip + 1, out),
            State(if LitState(n) == 0 then Top else MatchNext(n), ip + |code|, out'));
    LiteralsDecode(inp, cap, ip + |code|, out', i.lits);
  }

  /** The end marker is taken for the end, never for a match. */
  lemma EofDecodes(inp: seq<byte>, cap: nat, ip: nat, out: seq<byte>)
    requires At(inp, ip, EOF_CODE) && ip + 3 == |inp|
    ensures inp[ip] == M4_MARKER + 1
    ensures Run(inp, cap, State(Match(inp[ip]), ip + 1, out)) == Decoded(Ok, out)
  {
    AtByte(inp, ip, EOF_CODE, 0);
    AtByte(inp, ip, EOF_CODE, 1);
    AtByte(inp, ip, EOF_CODE, 2);
    MarkerStep(inp, cap, ip, out, false, 0, 1);
    assert StepFar(inp, cap, ip + 1, out, false, 0, 1, 7) == Halt(Decoded(Ok, out));
    hide StepMatch;
  }

  lemma {:induction false} ItemsDecode(inp: seq<byte>, cap: nat, ip: nat, out: seq<byte>, items: seq<Item>)
    requires ValidItems(|out|, items) && AllValid(items)
    requires At(inp, ip, EncodeItems(items) + EOF_CODE) && ip + |EncodeItems(items) + EOF_CODE| == |inp|
    requires |ExpandItems(out, items)| <= cap
    ensures 16 <= inp[ip]
    ensures Run(inp, cap, State(Match(inp[ip]), ip + 1, out)) == Decoded(Ok, ExpandItems(out, items))
    decreases |items|
  {
    hide Run, CopyMatch, EncodeItem;
    if items == [] {
      assert EncodeItems(items) + EOF_CODE == EOF_CODE;
      EofDecodes(inp, cap, ip, out);
    } else {
      var i := items[0];
      var out' := CopyMatch(out, i.off, i.len) + i.lits;
      var rest := EncodeItems(items[1..]) + EOF_CODE;
      assert EncodeItems(items) + EOF_CODE == EncodeItem(i) + rest;
      AtSplit(inp, ip, EncodeItem(i), rest);
      ItemsDecode(inp, cap, ip + |EncodeItem(i)|, out', items[1..]);
      ItemDecodes(inp, cap, ip, out, i);
    }
  }

  /** The first literal run, whichever way it is coded, leads to the first match byte. */
  lemma FirstDecodes(inp: seq<byte>, cap: nat, first: seq<byte>, alone: bool)
    requires !alone ==> 4 <= |first|
    requires At(inp, 0, FirstCode(first, alone)) && |first| <= cap
    requires |FirstCode(first, alone)| + 1 < |inp| && inp[|FirstCode(first, alone)|] >= 16
    requires first == [] ==> inp[0] <= 17
    ensures var n := |FirstCode(first, alone)|;
            Decompress(inp, cap) == Run(inp, cap, State(Match(inp[n]), n + 1, first))
  {
    hide StepMatch, LiteralRun, ReadCount, Run;
    var n := |FirstCode(first, alone)|;
    var s1 := State(FirstLiteralRun, n, first);
    var s2 := State(Match(inp[n]), n + 1, first);
    assert [] + first == first;
    if first == [] {
      RunStep(inp, cap, State(Top, 0, []), s2);
    } else if alone && |first| <= 238 {
      AtByte(inp, 0, FirstCode(first, alone), 0);
      AtSplit(inp, 0, [17 + |first|], first);
      RunStep(inp, cap, s1, s2);
      if |first| < 4 {
        RunStep(inp, cap, State(MatchNext(|first|), 1, []), s2);
      }
    } else {
      AtSplit(inp, 0, RunHeader(|first|), first);
      AtByte(inp, 0, RunHeader(|first|), 0);
      RunDecodes(inp, cap, 0, [], first);
      RunStep(inp, cap, State(Top, 0, []), s1);
      RunStep(inp, cap, s1, s2);
    }
  }

  /** Decoding an encoded stream gives back exactly its meaning, with status Ok. */
  lemma DecompressEncode(s: Stream, cap: nat)
    requires Valid(s) && AllValid(s.items) && |Expand(s)| <= cap
    ensures Decompress(Encode(s), cap) == Decoded(Ok, Expand(s))
  {
    hide Decompress, Run, FirstCode;
    var inp := Encode(s);
    var f := FirstCode(s.first, s.items == []);
    var rest := EncodeItems(s.items) + EOF_CODE;
    assert inp == f + rest;
    assert At(inp, 0, f + rest);
    AtSplit(inp, 0, f, rest);
    ItemsDecode(inp, cap, |f|, s.first, s.items);
    assert s.first == [] ==> inp[0] == 17 by {
      if s.first == [] {
        FirstEmpty(s);
      }
    }
    FirstDecodes(inp, cap, s.first, s.items == []);
  }

  lemma FirstEmpty(s: Stream)
    requires Valid(s) && AllValid(s.items) && s.first == []
    ensures Encode(s) == EOF_CODE
  {
  }
}
