/**
 The LZO1X stream format as minilzo.c writes and reads it, between two views:
 a token view (a first literal run, then matches each followed by a literal run)
 and the byte view.  `Expand` gives a token stream its meaning, `Encode` its bytes.
 */
module LzoFormat {

  type byte = x: int | 0 <= x < 256

  const M2_MAX_OFFSET := 0x0800
  const M3_MAX_OFFSET := 0x4000
  const M4_MAX_OFFSET := 0xbfff
  const M2_MAX_LEN := 8
  const M3_MAX_LEN := 33
  const M4_MAX_LEN := 9
  const M3_MARKER := 32
  const M4_MARKER := 16

  /** A match `len` bytes long, `off` bytes back, and the literal run after it. */
  datatype Item = Item(off: nat, len: nat, lits: seq<byte>)

  /** A whole compressed stream. */
  datatype Stream = Stream(first: seq<byte>, items: seq<Item>)

  // ---------------------------------------------------------------- meaning

  /** The overlapping byte-by-byte copy that a match stands for. */
  ghost function CopyMatch(out: seq<byte>, off: nat, len: nat): (r: seq<byte>)
    requires 1 <= off <= |out|
    ensures |r| == |out| + len && r[..|out|] == out
    decreases len
  {
    if len == 0 then out else CopyMatch(out + [out[|out| - off]], off, len - 1)
  }

  ghost predicate ValidItem(i: Item) {
    1 <= i.off <= M4_MAX_OFFSET && 3 <= i.len
  }

  /** Every match refers to output that exists when it is expanded. */
  ghost predicate ValidItems(n: nat, items: seq<Item>)
    decreases |items|
  {
    items == [] ||
    (ValidItem(items[0]) && items[0].off <= n &&
     ValidItems(n + items[0].len + |items[0].lits|, items[1..]))
  }

  ghost function ExpandItems(out: seq<byte>, items: seq<Item>): (r: seq<byte>)
    requires ValidItems(|out|, items)
    ensures |out| <= |r|
    decreases |items|
  {
    if items == [] then out
    else ExpandItems(CopyMatch(out, items[0].off, items[0].len) + items[0].lits, items[1..])
  }

  ghost predicate Valid(s: Stream) {
    ValidItems(|s.first|, s.items) && (s.items != [] ==> 4 <= |s.first|)
  }

  ghost function Expand(s: Stream): seq<byte>
    requires Valid(s)
  {
    ExpandItems(s.first, s.items)
  }

  // ------------------------------------------------------------------ bytes

  /** A positive number in base 255: one zero byte for each 255, then the rest. */
  ghost function Count(n: nat): (r: seq<byte>)
    requires 1 <= n
    ensures 1 <= |r| && |r| == 1 + (n - 1) / 255
  {
    if n > 255 then [0] + Count(n - 255) else [n]
  }

  /** The header of a literal run that does not fit the state bits of a match. */
  ghost function RunHeader(t: nat): (r: seq<byte>)
    requires 4 <= t
    ensures 1 <= |r|
  {
    if t <= 18 then [t - 3] else [0] + Count(t - 18)
  }

  /** The marker and length of an M3 match (`m3`) or of an M4 match with top offset bit `h`. */
  ghost function LongCode(m3: bool, h: nat, len: nat): (r: seq<byte>)
    requires 3 <= len && h < 2
    ensures 1 <= |r|
  {
    var marker := if m3 then M3_MARKER else M4_MARKER + 8 * h;
    var max := if m3 then M3_MAX_LEN else M4_MAX_LEN;
    if len <= max then [marker + (len - 2)] else [marker] + Count(len - max)
  }

  /** The code of a match; `state` is the length of a following run of at most three literals. */
  ghost function MatchCode(off: nat, len: nat, state: nat): (r: seq<byte>)
    requires 1 <= off <= M4_MAX_OFFSET && 3 <= len && state <= 3
    ensures 2 <= |r|
  {
    if len <= M2_MAX_LEN && off <= M2_MAX_OFFSET then
      var o := off - 1;
      [(len - 1) * 32 + (o % 8) * 4 + state, o / 8]
    else
      var m3 := off <= M3_MAX_OFFSET;
      var o := if m3 then off - 1 else off - 0x4000;
      LongCode(m3, o / 0x4000, len) + [(o % 64) * 4 + state, o / 64 % 256]
  }

  ghost function LitState(n: nat): (s: nat)
    ensures s <= 3
  {
    if n <= 3 then n else 0
  }

  /** The bytes a literal run adds after a match (its length sits in the match if it is short). */
  ghost function LitCode(lits: seq<byte>): seq<byte> {
    if |lits| <= 3 then lits else RunHeader(|lits|) + lits
  }

  ghost function EncodeItem(i: Item): (r: seq<byte>)
    requires ValidItem(i)
    ensures 2 <= |r|
  {
    MatchCode(i.off, i.len, LitState(|i.lits|)) + LitCode(i.lits)
  }

  ghost predicate AllValid(items: seq<Item>) {
    forall k :: 0 <= k < |items| ==> ValidItem(items[k])
  }

  ghost function EncodeItems(items: seq<Item>): seq<byte>
    requires AllValid(items)
  {
    if items == [] then [] else EncodeItem(items[0]) + EncodeItems(items[1..])
  }

  /** A run that is the whole stream has its own one-byte header up to 238 literals. */
  ghost function FirstCode(first: seq<byte>, alone: bool): seq<byte>
    requires !alone ==> 4 <= |first|
  {
    if alone && |first| <= 238 then (if first == [] then [] else [17 + |first|] + first)
    else RunHeader(|first|) + first
  }

  const EOF_CODE: seq<byte> := [M4_MARKER + 1, 0, 0]

  ghost function Encode(s: Stream): seq<byte>
    requires AllValid(s.items) && (s.items != [] ==> 4 <= |s.first|)
  {
    FirstCode(s.first, s.items == []) + EncodeItems(s.items) + EOF_CODE
  }

  /** The bytes of a few literal runs, at the borders between the forms. */
  lemma KnownRuns()
    ensures RunHeader(4) == [1] && RunHeader(18) == [15] && RunHeader(19) == [0, 1] && RunHeader(300) == [0, 0, 27]
  {
    assert Count(282) == [0] + Count(27) == [0, 27];
  }

  /** And of a few matches with two bytes or with the M3 marker. */
  lemma KnownNear()
    ensures MatchCode(1, 3, 0) == [64, 0] && MatchCode(0x800, 8, 2) == [254, 255]
    ensures MatchCode(1, 9, 0) == [39, 0, 0] && MatchCode(0x801, 4, 3) == [34, 3, 32]
    ensures MatchCode(0x4000, 33, 0) == [63, 252, 255] && MatchCode(5, 34, 0) == [32, 1, 16, 0]
  {
  }

  /** And with the M4 marker. */
  lemma KnownFar()
    ensures MatchCode(0x4001, 9, 1) == [23, 5, 0] && MatchCode(0x8000, 10, 0) == [24, 1, 0, 0]
    ensures MatchCode(0xbfff, 4, 0) == [26, 252, 255]
  {
  }

  // -------------------------------------------------------- facts about both

  lemma {:induction false} ValidItemsAll(n: nat, items: seq<Item>)
    requires ValidItems(n, items)
    ensures AllValid(items)
    decreases |items|
  {
    if items != [] {
      ValidItemsAll(n + items[0].len + |items[0].lits|, items[1..]);
      assert forall k :: 1 <= k < |items| ==> items[k] == items[1..][k - 1];
    }
  }

  lemma {:induction false} EncodeItemsSnoc(items: seq<Item>, i: Item)
    requires AllValid(items) && ValidItem(i)
    ensures AllValid(items + [i])
    ensures EncodeItems(items + [i]) == EncodeItems(items) + EncodeItem(i)
    decreases |items|
  {
    hide EncodeItem;
    if items == [] {
      assert items + [i] == [i] && [i][1..] == [];
    } else {
      EncodeItemsSnoc(items[1..], i);
      assert (items + [i])[1..] == items[1..] + [i];
      assert (items + [i])[0] == items[0];
    }
  }

  lemma {:induction false} ExpandItemsSnoc(out: seq<byte>, items: seq<Item>, i: Item)
    requires ValidItems(|out|, items)
    requires ValidItem(i) && i.off <= |ExpandItems(out, items)|
    ensures ValidItems(|out|, items + [i])
    ensures ExpandItems(out, items + [i]) == CopyMatch(ExpandItems(out, items), i.off, i.len) + i.lits
    decreases |items|
  {
    hide CopyMatch;
    if items == [] {
      assert items + [i] == [i] && [i][1..] == [];
    } else {
      var out' := CopyMatch(out, items[0].off, items[0].len) + items[0].lits;
      ExpandItemsSnoc(out', items[1..], i);
      assert (items + [i])[1..] == items[1..] + [i];
      assert (items + [i])[0] == items[0];
    }
  }

  /** A repeat at distance `off` inside `data` is exactly what the overlapping copy produces. */
  lemma {:induction false} CopyMatchIsRepeat(data: seq<byte>, p: nat, off: nat, len: nat)
    requires 1 <= off <= p && p + len <= |data|
    requires forall j :: p <= j < p + len ==> data[j] == data[j - off]
    ensures CopyMatch(data[..p], off, len) == data[..p + len]
    decreases len
  {
    if len > 0 {
      assert data[..p] + [data[p - off]] == data[..p + 1];
      CopyMatchIsRepeat(data, p + 1, off, len - 1);
    }
  }

  /** Byte `k` of the copy is the byte `off` before it. */
  lemma {:induction false} CopyMatchAt(out: seq<byte>, off: nat, len: nat, k: nat)
    requires 1 <= off <= |out| && |out| <= k < |out| + len
    ensures CopyMatch(out, off, len)[k] == CopyMatch(out, off, len)[k - off]
    decreases len
  {
    var next := out + [out[|out| - off]];
    var r := CopyMatch(next, off, len - 1);
    if k == |out| {
      assert r[..|next|] == next;
      assert r[k] == next[k] && r[k - off] == next[k - off];
    } else {
      CopyMatchAt(next, off, len - 1, k);
    }
  }
}
