/**
 The last pass over the instrumented code: destinations of inner jumps are resolved to
 actual nodes, near jumps are shortened until no offset changes, displacements are set
 and the jump tables are filled.  A node of the list is named by its position.
 */
module JumpRelax {
  import opened Basics

  datatype Kind = JmpNear | JccNear | JmpShort | JccShort | Other

  /**
   One instruction.  `prefix` is the length of its prefixes, `dest` the destination node and
   `imm` its stored displacement.
   */
  datatype Node = Node(kind: Kind, prefix: nat, length: nat, dest: Option<nat>, span: Span, offset: int, imm: nat)

  /** The nodes that replaced an instruction, and whether its jump skips those of its destination. */
  datatype Span = Span(first: nat, last: nat, pastLast: bool)

  ghost predicate WellEncoded(n: Node) {
    match n.kind
    case JmpNear => n.length == n.prefix + 5
    case JccNear => n.length == n.prefix + 6
    case JmpShort => n.length == n.prefix + 2
    case JccShort => n.length == n.prefix + 2
    case Other => n.dest.Some? ==> n.prefix + 2 <= n.length
  }

  ghost predicate IR(s: seq<Node>) {
    forall i :: 0 <= i < |s| ==>
      WellEncoded(s[i]) && (s[i].dest.Some? ==> s[i].dest.value < |s|)
  }

  predicate IsShort(k: Kind) { k.JmpShort? || k.JccShort? }

  predicate IsNear(k: Kind) { k.JmpNear? || k.JccNear? }

  // ------------------------------------------------------------- layout

  /** Where node `k` starts when the nodes are placed one after another. */
  ghost function Start(s: seq<Node>, k: nat): nat
    requires k <= |s|
  {
    if k == 0 then 0 else Start(s, k - 1) + s[k - 1].length
  }

  ghost predicate LaidOut(s: seq<Node>) {
    forall i :: 0 <= i < |s| ==> InPlace(s, i)
  }

  ghost predicate InPlace(s: seq<Node>, i: nat)
    requires i < |s|
  {
    s[i].offset == Start(s, i)
  }

  lemma NextStart(s: seq<Node>, k: nat)
    ensures Start(s, 0) == 0
    ensures k < |s| ==> Start(s, k + 1) == Start(s, k) + s[k].length
  {
  }

  /** Displacement of the jump at `i` if it had a one-byte displacement. */
  ghost function Reach(s: seq<Node>, i: nat): int
    requires i < |s| && s[i].dest.Some? && s[i].dest.value < |s|
  {
    Start(s, s[i].dest.value) - (Start(s, i) + s[i].prefix + 2)
  }

  ghost predicate Fits(s: seq<Node>, i: nat)
    requires i < |s| && s[i].dest.Some? && s[i].dest.value < |s|
  {
    -128 <= Reach(s, i) <= 127
  }

  /** `t` is `s` with some near jumps made short (and other offsets). */
  ghost predicate Shortening(s: seq<Node>, t: seq<Node>) {
    |s| == |t| && forall i :: 0 <= i < |s| ==> ShorterNode(s[i], t[i])
  }

  ghost predicate ShorterNode(a: Node, b: Node) {
    && b.prefix == a.prefix && b.dest == a.dest && b.span == a.span
    && (b.kind == a.kind || (IsNear(a.kind) && b.kind == ShortOf(a.kind)))
    && (b.kind == a.kind ==> b.length == a.length)
    && b.length <= a.length
  }

  function ShortOf(k: Kind): (r: Kind) {
    match k
    case JmpNear => JmpShort
    case JccNear => JccShort
    case _ => k
  }

  /** Every stretch of code can only get shorter. */
  lemma {:induction false} DistancesShrink(s: seq<Node>, t: seq<Node>, i: nat, j: nat)
    requires Shortening(s, t) && i <= j <= |s|
    ensures 0 <= Start(t, j) - Start(t, i) <= Start(s, j) - Start(s, i)
    decreases j
  {
    if i < j {
      DistancesShrink(s, t, i, j - 1);
    }
  }

  /** A jump that is in reach stays in reach however the others are shortened. */
  lemma FitsForGood(s: seq<Node>, t: seq<Node>, i: nat)
    requires IR(s) && IR(t) && Shortening(s, t) && i < |s| && s[i].dest.Some? && Fits(s, i)
    ensures Fits(t, i)
  {
    var d := s[i].dest.value;
    if i < d {
      DistancesShrink(s, t, i, d);
      DistancesShrink(t, t, i + 1, d);
      assert Start(t, i + 1) == Start(t, i) + t[i].length;
    } else {
      DistancesShrink(s, t, d, i);
    }
  }

  // ----------------------------------------------------- resolving destinations

  /** ir_resolve_dest_inner; `ok` is the absence of a BUG_ON. */
  method ResolveDest(ir: array<Node>) returns (ok: bool)
    requires forall i :: 0 <= i < ir.Length && ir[i].dest.Some? ==> ir[i].dest.value < ir.Length
    modifies ir
    ensures ok <==> forall i :: 0 <= i < ir.Length && old(ir[i]).dest.Some? && old(ir[i]).span.pastLast ==>
                                  old(ir[..])[old(ir[i]).dest.value].span.last != ir.Length - 1
    ensures ok ==> forall i :: 0 <= i < ir.Length ==> ir[i] == Resolved(old(ir[..]), i)
  {
    ghost var s := ir[..];
    ok := true;
    var i := 0;
    while i < ir.Length
      invariant i <= ir.Length && ok
      invariant forall k :: 0 <= k < i ==> ir[k] == Resolved(s, k)
      invariant forall k :: i <= k < ir.Length ==> ir[k] == s[k]
      invariant forall k :: 0 <= k < ir.Length ==> ir[k].span == s[k].span
      invariant forall k :: 0 <= k < i && s[k].dest.Some? && s[k].span.pastLast ==>
                s[s[k].dest.value].span.last != ir.Length - 1
    {
      if ir[i].dest.Some? {
        var d := ir[ir[i].dest.value];
        if ir[i].span.pastLast {
          if d.span.last == ir.Length - 1 {
            return false;
          }
          ir[i] := ir[i].(dest := Some(d.span.last + 1));
        } else {
          ir[i] := ir[i].(dest := Some(d.span.first));
        }
      }
      i := i + 1;
    }
  }

  /** A jump goes to the first node of its destination, or to the one after its last node. */
  ghost function Resolved(s: seq<Node>, i: nat): Node
    requires i < |s| && (s[i].dest.Some? ==> s[i].dest.value < |s|)
  {
    if s[i].dest.None? then s[i]
    else
      var d := s[s[i].dest.value];
      s[i].(dest := Some(if s[i].span.pastLast then d.span.last + 1 else d.span.first))
  }

  // ---------------------------------------------------------------- the passes

  /** ir_update_offsets */
  method UpdateOffsets(ir: array<Node>) returns (changed: bool)
    modifies ir
    ensures LaidOut(ir[..])
    ensures forall i :: 0 <= i < ir.Length ==> ir[i] == old(ir[i]).(offset := ir[i].offset)
    ensures changed <==> exists i :: 0 <= i < ir.Length && ir[i].offset != old(ir[i].offset)
  {
    hide Start, LaidOut;
    ghost var s := ir[..];
    NextStart(s, 0);
    changed := false;
    ghost var w: nat := 0;
    var offset := 0;
    var i := 0;
    while i < ir.Length
      invariant i <= ir.Length && offset == Start(s, i)
      invariant forall k :: 0 <= k < i ==> ir[k] == s[k].(offset := Start(s, k))
      invariant forall k :: i <= k < ir.Length ==> ir[k] == s[k]
      invariant changed ==> w < i && Start(s, w) != s[w].offset
      invariant !changed ==> forall k :: 0 <= k < i ==> Start(s, k) == s[k].offset
    {
      NextStart(s, i);
      if ir[i].offset != offset {
        changed, w := true, i;
      }
      ir[i] := ir[i].(offset := offset);
      offset := offset + ir[i].length;
      i := i + 1;
    }
    assert changed ==> ir[w].offset != s[w].offset;
    PlacedIsLaidOut(s, ir[..]);
  }

  lemma PlacedIsLaidOut(s: seq<Node>, t: seq<Node>)
    requires |s| == |t| && forall k :: 0 <= k < |s| ==> t[k] == s[k].(offset := Start(s, k))
    ensures LaidOut(t)
  {
    hide Start;
    forall k | 0 <= k < |t|
      ensures InPlace(t, k)
    {
      SameLengths(t, s, k);
    }
  }

  lemma {:induction false} SameLengths(s: seq<Node>, t: seq<Node>, k: nat)
    requires |s| == |t| && k <= |s| && forall i :: 0 <= i < |s| ==> s[i].length == t[i].length
    ensures Start(s, k) == Start(t, k)
    decreases k
  {
    if k > 0 {
      SameLengths(s, t, k - 1);
    }
  }

  /** The displacement as the pass sees it: from offsets computed before the pass began. */
  function StaleReach(s: seq<Node>, i: nat): int
    requires i < |s| && s[i].dest.Some? && s[i].dest.value < |s|
  {
    s[s[i].dest.value].offset - (s[i].offset + s[i].prefix + 2)
  }

  ghost function Shortened(s: seq<Node>, i: nat): Node
    requires i < |s| && (s[i].dest.Some? ==> s[i].dest.value < |s|)
  {
    if s[i].dest.Some? && -128 <= StaleReach(s, i) <= 127 && IsNear(s[i].kind) then
      s[i].(kind := ShortOf(s[i].kind), length := s[i].prefix + 2)
    else s[i]
  }

  /** ir_set_inner_jump_length */
  method SetInnerJumpLength(ir: array<Node>)
    requires IR(ir[..])
    modifies ir
    ensures forall i :: 0 <= i < ir.Length ==> ir[i] == Shortened(old(ir[..]), i)
  {
    ghost var s := ir[..];
    var i := 0;
    while i < ir.Length
      invariant i <= ir.Length
      invariant forall k :: 0 <= k < i ==> ir[k] == Shortened(s, k)
      invariant forall k :: i <= k < ir.Length ==> ir[k] == s[k]
      invariant forall k :: 0 <= k < ir.Length ==> ir[k].offset == s[k].offset
    {
      var n := ir[i];
      assert n == s[i];
      if n.dest.Some? {
        var disp := ir[n.dest.value].offset - (n.offset + n.prefix + 2);
        if -128 <= disp <= 127 {
          if n.kind.JmpNear? {
            ir[i] := n.(kind := JmpShort, length := n.prefix + 2);
          } else if n.kind.JccNear? {
            ir[i] := n.(kind := JccShort, length := n.prefix + 2);
          }
        }
      }
      i := i + 1;
    }
  }

  // ------------------------------------------------------------- the fixpoint

  /** No near jump that is left could be short. */
  ghost predicate Maximal(s: seq<Node>)
    requires IR(s)
  {
    forall i :: 0 <= i < |s| && s[i].dest.Some? && IsNear(s[i].kind) ==> !Fits(s, i)
  }

  /** Every jump made short on the way from `s` to `t` is in reach in `t`. */
  ghost predicate ShortenedFit(s: seq<Node>, t: seq<Node>)
    requires IR(t) && |s| == |t|
  {
    forall i :: 0 <= i < |t| && t[i].kind != s[i].kind ==> t[i].dest.Some? && Fits(t, i)
  }

  /** One turn of the loop, from laid-out nodes `s` through the pass to laid-out nodes `u`. */
  lemma TurnKeeps(s: seq<Node>, u: seq<Node>)
    requires IR(s) && LaidOut(s) && |u| == |s| && LaidOut(u)
    requires forall i :: 0 <= i < |s| ==> u[i] == Shortened(s, i).(offset := u[i].offset)
    ensures IR(u) && Shortening(s, u) && ShortenedFit(s, u)
  {
    forall i | 0 <= i < |s| && u[i].kind != s[i].kind
      ensures u[i].dest.Some? && Fits(u, i)
    {
      OffsetsAreStarts(s, i);
      FitsForGood(s, u, i);
    }
  }

  lemma OffsetsAreStarts(s: seq<Node>, i: nat)
    requires IR(s) && LaidOut(s) && i < |s|
    ensures s[i].offset == Start(s, i)
    ensures s[i].dest.Some? ==>
            StaleReach(s, i) == Reach(s, i) && s[s[i].dest.value].offset == Start(s, s[i].dest.value)
  {
    hide Start;
    assert InPlace(s, i);
    assert s[i].dest.Some? ==> InPlace(s, s[i].dest.value);
  }

  lemma TurnShrinks(s: seq<Node>, u: seq<Node>, k: nat)
    requires Shortening(s, u) && LaidOut(s) && LaidOut(u) && k < |s| && s[k].offset != u[k].offset
    ensures Start(u, |u|) < Start(s, |s|)
  {
    assert InPlace(s, k) && InPlace(u, k);
    DistancesShrink(s, u, 0, k);
    DistancesShrink(s, u, k, |s|);
  }

  lemma StableIsMaximal(s: seq<Node>, u: seq<Node>)
    requires IR(s) && LaidOut(s) && |u| == |s| && IR(u) && LaidOut(u)
    requires forall i :: 0 <= i < |s| ==> u[i] == Shortened(s, i).(offset := u[i].offset)
    requires forall i :: 0 <= i < |s| ==> u[i].offset == s[i].offset
    ensures Maximal(u)
  {
    forall i | 0 <= i < |u| && u[i].dest.Some? && IsNear(u[i].kind)
      ensures !Fits(u, i)
    {
      var d := u[i].dest.value;
      assert u[d].offset == s[d].offset && u[i].offset == s[i].offset;
      OffsetsAreStarts(u, i);
    }
  }

  lemma ShorteningTrans(s: seq<Node>, t: seq<Node>, u: seq<Node>)
    requires IR(t) && IR(u) && Shortening(s, t) && Shortening(t, u)
    requires ShortenedFit(s, t) && ShortenedFit(t, u)
    ensures Shortening(s, u) && ShortenedFit(s, u)
  {
    hide Fits;
    forall i | 0 <= i < |s|
      ensures ShorterNode(s[i], u[i])
    {
      assert ShorterNode(s[i], t[i]) && ShorterNode(t[i], u[i]);
    }
    forall i | 0 <= i < |u| && u[i].kind != s[i].kind
      ensures u[i].dest.Some? && Fits(u, i)
    {
      assert ShorterNode(t[i], u[i]);
      if t[i].kind == u[i].kind {
        FitsForGood(t, u, i);
      }
    }
  }

  /** One turn of the loop. */
  method Turn(ir: array<Node>) returns (changed: bool)
    requires IR(ir[..]) && LaidOut(ir[..])
    modifies ir
    ensures IR(ir[..]) && LaidOut(ir[..])
    ensures Shortening(old(ir[..]), ir[..]) && ShortenedFit(old(ir[..]), ir[..])
    ensures changed ==> Start(ir[..], ir.Length) < Start(old(ir[..]), ir.Length)
    ensures !changed ==> Maximal(ir[..]) && Start(ir[..], ir.Length) <= Start(old(ir[..]), ir.Length)
    ensures forall i :: 0 <= i < ir.Length ==> ir[i].imm == old(ir[i].imm)
  {
    hide Start, LaidOut, Maximal, Shortening, ShortenedFit, Fits;
    ghost var t := ir[..];
    SetInnerJumpLength(ir);
    ghost var m := ir[..];
    changed := UpdateOffsets(ir);
    ghost var u := ir[..];
    assert forall i :: 0 <= i < |t| ==> m[i] == Shortened(t, i) && u[i] == m[i].(offset := u[i].offset);
    TurnKeeps(t, u);
    WholeShrinks(t, u);
    if changed {
      ghost var k :| 0 <= k < |u| && u[k].offset != m[k].offset;
      assert m[k] == Shortened(t, k);
      TurnShrinks(t, u, k);
    } else {
      assert forall i :: 0 <= i < |t| ==> u[i].offset == m[i].offset;
      StableIsMaximal(t, u);
    }
  }

  lemma OnlyOffsets(s: seq<Node>, t: seq<Node>)
    requires IR(s) && |s| == |t| && forall i :: 0 <= i < |s| ==> t[i] == s[i].(offset := t[i].offset)
    ensures IR(t) && Shortening(s, t) && ShortenedFit(s, t)
  {
  }

  /**
   The loop of kedr_ir_generate_code.  It ends; the offsets are the positions of the nodes;
   what was shortened is in reach, what was not is out of reach.
   */
  method RelaxJumps(ir: array<Node>)
    requires IR(ir[..])
    modifies ir
    ensures IR(ir[..]) && LaidOut(ir[..])
    ensures Shortening(old(ir[..]), ir[..])
    ensures ShortenedFit(old(ir[..]), ir[..]) && Maximal(ir[..])
    ensures forall i :: 0 <= i < ir.Length ==> ir[i].imm == old(ir[i].imm)
  {
    hide Start, LaidOut, Maximal, Shortening, ShortenedFit, IR;
    ghost var s := ir[..];
    var changed := UpdateOffsets(ir);
    OnlyOffsets(s, ir[..]);
    changed := true;
    while changed
      invariant IR(ir[..]) && LaidOut(ir[..]) && Shortening(s, ir[..]) && ShortenedFit(s, ir[..])
      invariant !changed ==> Maximal(ir[..])
      invariant forall i :: 0 <= i < ir.Length ==> ir[i].imm == s[i].imm
      decreases Start(ir[..], ir.Length), changed
    {
      ghost var t := ir[..];
      changed := Turn(ir);
      ShorteningTrans(s, t, ir[..]);
    }
  }

  // -------------------------------------------------- no order does better

  /** `u` is `t` with the near jump at `i` made short while it is in reach. */
  ghost predicate OneStep(t: seq<Node>, u: seq<Node>, i: nat) {
    && IR(t) && IR(u) && |t| == |u| && i < |t| && Shortening(t, u)
    && t[i].dest.Some? && IsNear(t[i].kind) && Fits(t, i)
    && u[i].kind == ShortOf(t[i].kind)
    && forall k :: 0 <= k < |t| && k != i ==> u[k].kind == t[k].kind
  }

  /** Some way to shorten the jumps of `s` one at a time, in any order, ending with `t`. */
  ghost predicate Schedule(s: seq<Node>, run: seq<seq<Node>>, t: seq<Node>)
    decreases |run|
  {
    if run == [] then s == t
    else
      var prev := run[|run| - 1];
      Schedule(s, run[..|run| - 1], prev) && exists i :: OneStep(prev, t, i)
  }

  lemma StepStaysAbove(t: seq<Node>, u: seq<Node>, i: nat, best: seq<Node>)
    requires OneStep(t, u, i) && IR(best) && Maximal(best) && Shortening(t, best)
    ensures Shortening(u, best)
  {
    FitsForGood(t, best, i);
    assert ShorterNode(t[i], best[i]) && !IsNear(best[i].kind);
    forall k | 0 <= k < |t|
      ensures ShorterNode(u[k], best[k])
    {
      assert ShorterNode(t[k], best[k]) && ShorterNode(t[k], u[k]);
      assert WellEncoded(u[k]) && WellEncoded(best[k]);
    }
  }

  /** The stale-offset passes lose nothing: no schedule of single steps ends with shorter code. */
  lemma {:induction false} NoScheduleIsShorter(s: seq<Node>, run: seq<seq<Node>>, t: seq<Node>, best: seq<Node>)
    requires Schedule(s, run, t) && IR(best) && Maximal(best) && Shortening(s, best)
    ensures Shortening(t, best) && Start(best, |best|) <= Start(t, |t|)
    decreases |run|
  {
    hide IR, Maximal, OneStep, Shortening;
    if run != [] {
      var prev := run[|run| - 1];
      NoScheduleIsShorter(s, run[..|run| - 1], prev, best);
      var i :| OneStep(prev, t, i);
      StepStaysAbove(prev, t, i, best);
    }
    WholeShrinks(t, best);
  }

  lemma WholeShrinks(t: seq<Node>, u: seq<Node>)
    requires Shortening(t, u)
    ensures Start(u, |u|) <= Start(t, |t|)
  {
    DistancesShrink(t, u, 0, |t|);
  }

  // ------------------------------------------------------------ displacements

  /** The two's-complement byte or double word that stores a displacement. */
  function Wrap(disp: int, short: bool): (r: nat) {
    if short then disp % 0x100 else Truncate(disp)
  }

  /** What the processor adds: the stored value, sign-extended. */
  function Extended(imm: nat, short: bool): int {
    if !short then SignExtend(imm) else if imm < 0x80 then imm else imm - 0x100
  }

  /** In reach means that one signed byte can hold the displacement. */
  lemma FitsIffByteHolds(s: seq<Node>, i: nat)
    requires i < |s| && s[i].dest.Some? && s[i].dest.value < |s|
    ensures Fits(s, i) <==> Extended(Wrap(Reach(s, i), true), true) == Reach(s, i)
  {
    hide Reach;
  }

  /** Where control goes after the inner transfer at `i`. */
  ghost function Lands(s: seq<Node>, i: nat): int
    requires i < |s|
  {
    s[i].offset + s[i].length + Extended(s[i].imm, IsShort(s[i].kind))
  }

  /** ir_set_inner_jump_disp; `ok` is the absence of a BUG_ON. */
  method SetInnerJumpDisp(ir: array<Node>) returns (ok: bool)
    requires IR(ir[..]) && LaidOut(ir[..])
    modifies ir
    ensures ok <==> forall i :: 0 <= i < ir.Length && old(ir[i]).dest.Some? && IsShort(old(ir[i]).kind) ==>
                                  Fits(old(ir[..]), i)
    ensures ok ==> forall i :: 0 <= i < ir.Length ==> ir[i] == WithDisp(old(ir[..]), i)
  {
    hide Start, Wrap;
    ghost var s := ir[..];
    ok := true;
    var i := 0;
    while i < ir.Length
      invariant i <= ir.Length && ok
      invariant forall k :: 0 <= k < i ==> ir[k] == WithDisp(s, k)
      invariant forall k :: i <= k < ir.Length ==> ir[k] == s[k]
      invariant forall k :: 0 <= k < ir.Length ==> ir[k].offset == s[k].offset
      invariant forall k :: 0 <= k < i && s[k].dest.Some? && IsShort(s[k].kind) ==> Fits(s, k)
    {
      var n := ir[i];
      assert n == s[i];
      if n.dest.Some? {
        var disp := ir[n.dest.value].offset - (n.offset + n.length);
        if IsShort(n.kind) {
          OffsetsAreStarts(s, i);
          if disp < -128 || disp > 127 {
            return false;
          }
          ir[i] := n.(imm := Wrap(disp, true));
        } else {
          ir[i] := n.(imm := Wrap(disp, false));
        }
      }
      i := i + 1;
    }
  }

  ghost function WithDisp(s: seq<Node>, i: nat): Node
    requires i < |s| && (s[i].dest.Some? ==> s[i].dest.value < |s|)
  {
    if s[i].dest.None? then s[i]
    else
      s[i].(imm := Wrap(s[s[i].dest.value].offset - (s[i].offset + s[i].length), IsShort(s[i].kind)))
  }

  lemma WrapRoundTrip(disp: int, short: bool)
    requires short ==> -0x80 <= disp < 0x80
    requires -0x8000_0000 <= disp < 0x8000_0000
    ensures Extended(Wrap(disp, short), short) == disp
  {
  }

  /** Jumps that were short from the start, if in reach then, are in reach with the rest. */
  lemma ShortOnesFit(s: seq<Node>, t: seq<Node>)
    requires IR(s) && IR(t) && Shortening(s, t) && ShortenedFit(s, t)
    requires forall i :: 0 <= i < |s| && s[i].dest.Some? && IsShort(s[i].kind) ==> Fits(s, i)
    ensures forall i :: 0 <= i < |t| && t[i].dest.Some? && IsShort(t[i].kind) ==> Fits(t, i)
  {
    hide Fits;
    forall i | 0 <= i < |t| && t[i].dest.Some? && IsShort(t[i].kind)
      ensures Fits(t, i)
    {
      assert ShorterNode(s[i], t[i]);
      if t[i].kind == s[i].kind {
        FitsForGood(s, t, i);
      }
    }
  }

  /** Storing displacements moves nothing. */
  lemma DispKeepsLayout(t: seq<Node>, u: seq<Node>)
    requires IR(t) && LaidOut(t) && Maximal(t) && |u| == |t|
    requires forall i :: 0 <= i < |t| ==> u[i] == WithDisp(t, i)
    ensures IR(u) && LaidOut(u) && Maximal(u)
    ensures forall s :: Shortening(s, t) ==> Shortening(s, u)
  {
    hide Start;
    forall k | 0 <= k <= |t|
      ensures Start(u, k) == Start(t, k)
    {
      SameLengths(u, t, k);
    }
    forall k | 0 <= k < |u|
      ensures InPlace(u, k)
    {
      assert InPlace(t, k);
    }
    forall i | 0 <= i < |u| && u[i].dest.Some? && IsNear(u[i].kind)
      ensures !Fits(u, i)
    {
      assert !Fits(t, i) && Reach(u, i) == Reach(t, i);
    }
    forall s: seq<Node> | Shortening(s, t)
      ensures Shortening(s, u)
    {
      assert forall i :: 0 <= i < |s| ==> ShorterNode(s[i], t[i]);
    }
  }

  /** With the stored displacements every inner transfer reaches its destination. */
  lemma TransferLands(t: seq<Node>, u: seq<Node>, i: nat)
    requires IR(t) && LaidOut(t) && IR(u) && LaidOut(u) && |u| == |t| && i < |t| && t[i].dest.Some?
    requires forall k :: 0 <= k < |t| ==> u[k] == WithDisp(t, k)
    requires IsShort(t[i].kind) ==> Fits(t, i)
    requires Start(u, |u|) < 0x8000_0000
    ensures u[i].dest == t[i].dest && Lands(u, i) == u[u[i].dest.value].offset
  {
    hide Start, Wrap, Extended;
    var d := t[i].dest.value;
    OffsetsAreStarts(t, i);
    OffsetsAreStarts(u, i);
    WithinCode(u, d);
    WithinCode(u, i);
    assert u[d].offset == t[d].offset && u[i] == WithDisp(t, i);
    WrapRoundTrip(u[d].offset - (u[i].offset + u[i].length), IsShort(u[i].kind));
  }

  lemma WithinCode(s: seq<Node>, i: nat)
    requires i < |s|
    ensures 0 <= Start(s, i) && Start(s, i) + s[i].length <= Start(s, |s|)
  {
    DistancesShrink(s, s, i + 1, |s|);
  }

  /**
   Relaxation and displacements together.  If the jumps that were short from the start are in
   reach from the start, no BUG_ON is met; and then, for code shorter than 2 GB, every inner
   transfer lands exactly on its destination node.
   */
  method FinishCode(ir: array<Node>) returns (ok: bool)
    requires IR(ir[..])
    modifies ir
    ensures (forall i :: 0 <= i < ir.Length && old(ir[i]).dest.Some? && IsShort(old(ir[i]).kind) ==>
             Fits(old(ir[..]), i))
              ==> ok
    ensures ok ==> IR(ir[..]) && Shortening(old(ir[..]), ir[..]) && LaidOut(ir[..]) && Maximal(ir[..])
    ensures ok && Start(ir[..], ir.Length) < 0x8000_0000 ==>
              forall i :: 0 <= i < ir.Length && ir[i].dest.Some? ==> Lands(ir[..], i) == ir[ir[i].dest.value].offset
  {
    hide Fits, Lands, Start, WithDisp;
    ghost var s := ir[..];
    RelaxJumps(ir);
    ghost var t := ir[..];
    if forall i :: 0 <= i < |s| && s[i].dest.Some? && IsShort(s[i].kind) ==> Fits(s, i) {
      ShortOnesFit(s, t);
    }
    ok := SetInnerJumpDisp(ir);
    if ok {
      ghost var u := ir[..];
      DispKeepsLayout(t, u);
      if Start(u, |u|) < 0x8000_0000 {
        forall i | 0 <= i < |u| && u[i].dest.Some?
          ensures Lands(u, i) == u[u[i].dest.value].offset
        {
          assert u[i] == WithDisp(t, i);
          DestKept(t, i);
          TransferLands(t, u, i);
        }
      }
    }
  }

  lemma DestKept(t: seq<Node>, i: nat)
    requires IR(t) && i < |t|
    ensures WithDisp(t, i) == t[i].(imm := WithDisp(t, i).imm)
  {
  }

  /** fill_jump_tables, one table: each entry becomes the offset of its node's first replacement. */
  method FillJumpTable(table: array<int>, ir: array<Node>)
    requires forall k :: 0 <= k < table.Length ==> 0 <= table[k] < ir.Length && ir[table[k]].span.first < ir.Length
    requires LaidOut(ir[..])
    modifies table
    ensures forall k :: 0 <= k < table.Length ==> table[k] == Start(ir[..], ir[old(table[k])].span.first)
  {
    hide Start;
    var i := 0;
    while i < table.Length
      invariant i <= table.Length
      invariant forall k :: 0 <= k < i ==> table[k] == Start(ir[..], ir[old(table[k])].span.first)
      invariant forall k :: i <= k < table.Length ==> table[k] == old(table[k])
    {
      var node := ir[table[i]];
      assert InPlace(ir[..], node.span.first);
      table[i] := ir[node.span.first].offset;
      i := i + 1;
    }
  }
}
