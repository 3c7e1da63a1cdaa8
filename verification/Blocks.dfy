/**
 Splitting a function into code blocks: ir_create_blocks and what it calls.  `code` is what the
 decoder and the linking of jumps have established, `marks` the fields of the nodes that the
 three passes set.  A node of the list is named by its position; expansions of J*CXZ and LOOP*
 are not part of this model, so each node is its own first replacement.
 */
module Blocks {
  import opened Basics
  import opened BlockRecord

  datatype Kind =
    | Plain | Locked | IoMem | Barrier
    | JumpIndirect(inner: bool) | CallIndirect | JumpRel | CallRel | OtherTransfer

  /** `outside`: the transfer may leave the function; `dest`: the node it leads to inside. */
  datatype Insn = Insn(kind: Kind, op: Op, addr: nat, outside: bool, dest: Option<nat>)

  datatype BlockType =
    | Unset | Common | CommonNoMem | LockedUpdate | IoMemOp | BarrierOther
    | IndirectInner | IndirectOut | IndirectCall | CallOut | JumpOut | Backwards | ControlOutOther

  datatype Mark = Mark(starts: bool, type_: BlockType, info: Option<nat>,
                       pastLast: bool, hasJumpsOut: bool, end: nat)

  /** What holds of every decoded and linked function. */
  ghost predicate Linked(code: seq<Insn>) {
    && Decodes(code)
    && (forall i, j :: 0 <= i < j < |code| ==> code[i].addr < code[j].addr)
  }

  ghost predicate Decodes(code: seq<Insn>) {
    forall i :: 0 <= i < |code| ==> DecodedInsn(code[i], |code|)
  }

  ghost predicate DecodedInsn(c: Insn, n: nat) {
    && Decoded(c.op)
    && (c.dest.Some? ==> c.dest.value < n && (c.kind.JumpRel? || c.kind.CallRel?))
    && (c.kind.JumpRel? || c.kind.CallRel? ==> (c.outside <==> c.dest.None?))
    // only locked updates and INS/OUTS, one event each, are both tracked and blocks of their own
    && (c.kind.Locked? || c.kind.IoMem? ==> EventCount(c.op) == 1)
    && (!c.kind.Locked? && !c.kind.IoMem? && !c.kind.Plain? ==> !c.op.tracked)
  }

  predicate JumpsBack(code: seq<Insn>, i: nat)
    requires i < |code|
  {
    code[i].dest.Some? && code[i].dest.value < |code| && code[code[i].dest.value].addr <= code[i].addr
  }

  /** The instructions that must be blocks of their own. */
  predicate Separate(code: seq<Insn>, i: nat)
    requires i < |code|
  {
    match code[i].kind
    case Plain => false
    case JumpRel => code[i].outside || JumpsBack(code, i)
    case CallRel => code[i].outside || JumpsBack(code, i)
    case _ => true
  }

  ghost function TypeOf(code: seq<Insn>, i: nat): (t: BlockType)
    requires i < |code|
    ensures t.Unset? <==> !Separate(code, i)
    ensures !t.Common? && !t.CommonNoMem?
  {
    match code[i].kind
    case Plain => Unset
    case Locked => LockedUpdate
    case IoMem => IoMemOp
    case Barrier => BarrierOther
    case JumpIndirect(inner) => if inner then IndirectInner else IndirectOut
    case CallIndirect => IndirectCall
    case JumpRel => if code[i].outside then JumpOut else if JumpsBack(code, i) then Backwards else Unset
    case CallRel => if code[i].outside then CallOut else if JumpsBack(code, i) then Backwards else Unset
    case OtherTransfer => ControlOutOther
  }

  /** Node `j` makes node `k` the start of a block. */
  ghost predicate Marks(code: seq<Insn>, j: nat, k: nat)
    requires j < |code|
  {
    Separate(code, j) && (k == j || k == j + 1 || (JumpsBack(code, j) && !code[j].outside && code[j].dest == Some(k)))
  }

  ghost predicate MarkedBy(code: seq<Insn>, i: nat, k: nat)
    requires i <= |code|
  {
    exists j :: 0 <= j < i && Marks(code, j, k)
  }

  // ------------------------------------------------------------- sums over blocks

  ghost function Ops(code: seq<Insn>): seq<Op> { seq(|code|, i requires 0 <= i < |code| => code[i].op) }

  ghost function EventsIn(code: seq<Insn>, a: nat, b: nat): nat
    requires a <= b <= |code|
  {
    EventSum(Ops(code)[a..b])
  }

  ghost function SlotsIn(code: seq<Insn>, a: nat, b: nat): nat
    requires a <= b <= |code|
  {
    SlotSum(Ops(code)[a..b])
  }

  lemma NextIn(code: seq<Insn>, a: nat, b: nat)
    requires a <= b < |code|
    ensures EventsIn(code, a, a) == 0 && SlotsIn(code, a, a) == 0
    ensures EventsIn(code, a, b + 1) == EventsIn(code, a, b) + EventCount(code[b].op)
    ensures SlotsIn(code, a, b + 1) == SlotsIn(code, a, b) + SlotCount(code[b].op)
  {
    var ops := Ops(code);
    assert ops[a..b + 1][..b - a] == ops[a..b];
  }

  // ---------------------------------------------------------------- blocks

  ghost predicate IsBlock(m: seq<Mark>, s: nat, e: nat) {
    && s < e <= |m| && m[s].starts && (e == |m| || m[e].starts)
    && forall k :: s < k < e ==> !m[k].starts
  }

  predicate IsCommon(t: BlockType) { t.Common? || t.CommonNoMem? }

  /** The marks of the finished block from `s` to `e`. */
  ghost predicate GoodBlock(code: seq<Insn>, m: seq<Mark>, s: nat, e: nat)
    requires |m| == |code| && s < e <= |m|
  {
    var n := EventsIn(code, s, e);
    && SlotsIn(code, s, e) <= MAX_VALUES
    && m[s].info == (if n == 0 then None else Some(n))
    && m[s].type_ == if !TypeOf(code, s).Unset? then TypeOf(code, s) else if n == 0 then CommonNoMem else Common
  }

  // -------------------------------------------------------------- pass 1

  class Function {
    const code: seq<Insn>
    const marks: array<Mark>

    ghost predicate Valid()
      reads this
    {
      Linked(code) && marks.Length == |code| && |code| > 0
    }

    /** `targets` are the nodes that jump tables refer to. */
    constructor (code: seq<Insn>, targets: set<nat>)
      requires Linked(code) && |code| > 0
      ensures Valid() && this.code == code && fresh(marks)
      ensures forall k :: 0 <= k < |code| ==> marks[k] == Mark(k in targets, Unset, None, false, false, 0)
    {
      this.code := code;
      marks := new Mark[|code|](k => Mark(k in targets, Unset, None, false, false, 0));
    }

    /** ir_mark_node_separate_block */
    method MarkSeparate(i: nat)
      requires Valid() && i < |code|
      modifies marks
      ensures forall k :: 0 <= k < |code| ==>
              marks[k] == old(marks[k]).(starts := old(marks[k]).starts || k == i || k == i + 1)
    {
      marks[i] := marks[i].(starts := true);
      if i + 1 < |code| {
        marks[i + 1] := marks[i + 1].(starts := true);
      }
    }

    /** ir_node_set_block_starts */
    method SetBlockStarts(i: nat)
      requires Valid() && i < |code|
      modifies marks
      ensures forall k :: 0 <= k < |code| ==>
                marks[k] == old(marks[k]).(starts := old(marks[k]).starts || Marks(code, i, k),
                                           type_ := if k == i && Separate(code, i) then TypeOf(code, i)
                                           else old(marks[k]).type_)
    {
      var c := code[i];
      assert DecodedInsn(c, |code|);
      match c.kind
      case Plain =>
      case Locked =>
        MarkSeparate(i);
        marks[i] := marks[i].(type_ := LockedUpdate);
      case IoMem =>
        MarkSeparate(i);
        marks[i] := marks[i].(type_ := IoMemOp);
      case Barrier =>
        MarkSeparate(i);
        marks[i] := marks[i].(type_ := BarrierOther);
      case JumpIndirect(inner) =>
        MarkSeparate(i);
        marks[i] := marks[i].(type_ := if inner then IndirectInner else IndirectOut);
      case CallIndirect =>
        MarkSeparate(i);
        marks[i] := marks[i].(type_ := IndirectCall);
      case JumpRel =>
        if c.outside {
          MarkSeparate(i);
          marks[i] := marks[i].(type_ := JumpOut);
        } else if code[c.dest.value].addr <= c.addr {
          MarkSeparate(i);
          marks[c.dest.value] := marks[c.dest.value].(starts := true);
          marks[i] := marks[i].(type_ := Backwards);
        }
      case CallRel =>
        if c.outside {
          MarkSeparate(i);
          marks[i] := marks[i].(type_ := CallOut);
        } else if code[c.dest.value].addr <= c.addr {
          MarkSeparate(i);
          marks[c.dest.value] := marks[c.dest.value].(starts := true);
          marks[i] := marks[i].(type_ := Backwards);
        }
      case OtherTransfer =>
        MarkSeparate(i);
        marks[i] := marks[i].(type_ := ControlOutOther);
    }

    /** The first pass. */
    method FirstPass(ghost targets: set<nat>)
      requires Valid()
      requires forall k :: 0 <= k < |code| ==> marks[k] == Mark(k in targets, Unset, None, false, false, 0)
      modifies marks
      ensures forall k :: 0 <= k < |code| ==> marks[k] == AfterFirst(code, targets, |code|, k)
    {
      hide Marks, TypeOf, Separate, MarkedBy;
      marks[0] := marks[0].(starts := true);
      FirstPassStart(code, targets);
      var i := 0;
      while i < |code|
        invariant i <= |code|
        invariant forall k :: 0 <= k < |code| ==> marks[k] == AfterFirst(code, targets, i, k)
      {
        SetBlockStarts(i);
        forall k | 0 <= k < |code|
          ensures marks[k] == AfterFirst(code, targets, i + 1, k)
        {
          FirstPassNext(code, targets, i, k);
        }
        i := i + 1;
      }
    }

    /** ir_create_block_info; it meets no BUG_ON. */
    method CreateBlockInfo(start: nat, maxEvents: nat)
      requires Valid() && start < |code| && marks[start].starts && marks[start].info.None?
      requires marks[start].type_ == if Separate(code, start) then TypeOf(code, start) else CommonNoMem
      requires maxEvents > 0 && Separate(code, start) ==>
               maxEvents == 1 && (code[start].kind.Locked? || code[start].kind.IoMem?)
      modifies marks
      ensures forall k :: 0 <= k < |code| && k != start ==> marks[k] == old(marks[k])
      ensures marks[start] == old(marks[start]).(
                info := if maxEvents == 0 then None else Some(maxEvents),
                type_ := if maxEvents > 0 && !Separate(code, start) then Common else old(marks[start].type_))
    {
      if maxEvents == 0 {
        return;
      }
      var t := marks[start].type_;
      if t.LockedUpdate? || t.IoMemOp? {
        assert maxEvents == 1;
        marks[start] := marks[start].(info := Some(1));
      } else {
        assert t.CommonNoMem?;
        marks[start] := marks[start].(type_ := Common, info := Some(maxEvents));
      }
    }

    /** The second pass. */
    method SecondPass()
      requires Valid() && FirstDone(code, marks[..])
      modifies marks
      ensures SecondDone(code, old(marks[..]), marks[..])
    {
      hide FirstDone, Decodes, EventsIn, SlotsIn, TypeOf, Separate, Progress, SecondDone;
      ghost var m1 := marks[..];
      var start: nat, i: nat, maxEvents: nat, maxValues: nat := 0, 0, 0, 0;
      ProgressStart(code, m1);
      while i < |code|
        invariant i <= |code| && Progress(code, m1, marks[..], i, start, maxEvents, maxValues)
      {
        ghost var m := marks[..];
        var values := SlotCount(code[i].op);
        Enter(code, m1, m, i, start, maxEvents, maxValues);
        if !marks[i].starts && maxValues + values > MAX_VALUES {
          marks[i] := marks[i].(starts := true);
        }
        if marks[i].starts {
          if i > 0 {
            CreateBlockInfo(start, maxEvents);
          }
          if marks[i].type_.Unset? {
            marks[i] := marks[i].(type_ := CommonNoMem);
          }
          NewBlock(code, m1, m, marks[..], i, start, maxEvents, maxValues);
          start, maxEvents, maxValues := i, 0, 0;
        } else {
          assert marks[..] == m;
          SameBlock(code, m1, m, i, start, maxEvents, maxValues);
        }
        maxEvents := maxEvents + EventCount(code[i].op);
        maxValues := maxValues + values;
        i := i + 1;
      }
      Finish(code, m1, marks[..], start, maxEvents, maxValues);
    }

    /** The last node of the block that starts at `s`. */
    method FindEnd(s: nat) returns (end: nat)
      requires Valid() && s < |code| && marks[s].starts
      ensures IsBlock(marks[..], s, end + 1)
    {
      hide Linked;
      end := s;
      var pos := s + 1;
      while pos < |code| && !marks[pos].starts
        invariant s < pos <= |code| && end == pos - 1
        invariant forall k :: s < k < pos ==> !marks[k].starts
      {
        end := pos;
        pos := pos + 1;
      }
    }

    /** mark_jumps_out for the common block that starts at `s`. */
    method MarkJumpsOut(s: nat) returns (ghost e: nat)
      requires Valid() && s < |code| && marks[s].starts && marks[s].type_.Common?
      requires !marks[s].hasJumpsOut && forall k :: s <= k < |code| ==> !marks[k].pastLast
      modifies marks
      ensures IsBlock(old(marks[..]), s, e)
      ensures forall k :: 0 <= k < |code| && !(s <= k < e) ==> marks[k] == old(marks[k])
      ensures forall k :: s <= k < e ==> marks[k] == JumpMarked(code, old(marks[..]), s, e, k)
    {
      hide Linked, Leaves, AnyLeaves;
      ghost var m := marks[..];
      var end := FindEnd(s);
      e := end + 1;
      marks[s] := marks[s].(end := end);
      var pos := s;
      NoneLeaves(code, s, e);
      while pos <= end
        invariant s <= pos <= e
        invariant forall k :: 0 <= k < |code| && !(s <= k < pos) && k != s ==> marks[k] == m[k]
        invariant forall k :: s < k < pos ==> marks[k] == m[k].(pastLast := Leaves(code, k, e))
        invariant marks[s] == m[s].(end := end, pastLast := pos > s && Leaves(code, s, e),
                                    hasJumpsOut := AnyLeaves(code, s, pos, e))
      {
        LeavesNext(code, s, pos, e);
        if code[pos].dest.Some? && code[code[pos].dest.value].addr > code[end].addr {
          marks[pos] := marks[pos].(pastLast := true);
          marks[s] := marks[s].(hasJumpsOut := true);
        }
        pos := pos + 1;
      }
    }

    /** The third pass. */
    method ThirdPass(ghost m1: seq<Mark>)
      requires Valid() && SecondDone(code, m1, marks[..]) && marks[0].starts
      modifies marks
      ensures ThirdDone(code, old(marks[..]), marks[..])
    {
      hide Linked, SecondDone, IsBlock, BlockDone, JumpMarked;
      ghost var m := marks[..];
      FlagsClear(code, m1, m);
      var i := 0;
      ghost var upto: nat := 0;
      NoBlocks(m);
      while i < |code|
        invariant i <= upto <= |code| && (upto < |code| ==> m[upto].starts)
        invariant forall k :: i <= k < upto ==> !m[k].starts
        invariant forall k :: upto <= k < |code| ==> marks[k] == m[k]
        invariant forall k :: 0 <= k < |code| ==> marks[k].starts == m[k].starts
        invariant forall s: nat, e: nat :: IsBlock(m, s, e) && e <= upto ==> BlockDone(code, m, marks[..], s, e)
      {
        if marks[i].starts {
          assert i == upto;
          ghost var m', e := marks[..], BlockEndOf(m, i);
          if marks[i].type_.Common? {
            ghost var e' := MarkJumpsOut(i);
            SameEnd(m, m', i, e, e');
          }
          NextDone(code, m, m', marks[..], i, e);
          upto := e;
        }
        i := i + 1;
      }
    }

    /** ir_create_blocks */
    method CreateBlocks(ghost targets: set<nat>)
      requires Valid()
      requires forall k :: 0 <= k < |code| ==> marks[k] == Mark(k in targets, Unset, None, false, false, 0)
      modifies marks
      ensures Split(code, targets, marks[..])
    {
      hide Linked, FirstDone, SecondDone, ThirdDone, AfterFirst, Split;
      FirstPass(targets);
      ghost var m1 := marks[..];
      FirstPassDone(code, targets, m1);
      SecondPass();
      ghost var m2 := marks[..];
      StillStarts(code, m1, m2, 0);
      ThirdPass(m1);
      SplitDone(code, targets, m1, m2, marks[..]);
    }
  }

  /** The mark of node `k` when the first pass has seen the nodes before `i`. */
  ghost function AfterFirst(code: seq<Insn>, targets: set<nat>, i: nat, k: nat): Mark
    requires i <= |code| && k < |code|
  {
    Mark(k == 0 || k in targets || MarkedBy(code, i, k), if k < i then TypeOf(code, k) else Unset, None, false, false,
         0)
  }

  lemma FirstPassStart(code: seq<Insn>, targets: set<nat>)
    ensures forall k :: 0 <= k < |code| ==>
            AfterFirst(code, targets, 0, k) == Mark(k == 0 || k in targets, Unset, None, false, false, 0)
  {
  }

  lemma FirstPassNext(code: seq<Insn>, targets: set<nat>, i: nat, k: nat)
    requires i < |code| && k < |code|
    ensures var a, b := AfterFirst(code, targets, i, k), AfterFirst(code, targets, i + 1, k);
            b == a.(starts := a.starts || Marks(code, i, k),
                    type_ := if k == i && Separate(code, i) then TypeOf(code, i) else a.type_)
  {
    hide Marks, TypeOf, Separate;
    if MarkedBy(code, i, k) || Marks(code, i, k) {
      assert MarkedBy(code, i + 1, k) by {
        if MarkedBy(code, i, k) {
          var j :| 0 <= j < i && Marks(code, j, k);
        }
      }
    }
  }

  // --------------------------------------------------------------- pass 2

  /** What the first pass leaves for the second. */
  ghost predicate FirstDone(code: seq<Insn>, m: seq<Mark>) {
    && |m| == |code| > 0 && m[0].starts
    && forall k :: 0 <= k < |m| ==> FirstMark(code, m, k)
  }

  ghost predicate FirstMark(code: seq<Insn>, m: seq<Mark>, k: nat)
    requires |m| == |code| && k < |m|
  {
    && m[k].info.None? && m[k].type_ == TypeOf(code, k) && !m[k].pastLast && !m[k].hasJumpsOut
    && (Separate(code, k) ==> m[k].starts && (k + 1 < |m| ==> m[k + 1].starts))
  }

  /** The type of a block start before its events are known. */
  ghost function StartType(code: seq<Insn>, k: nat): BlockType
    requires k < |code|
  {
    if Separate(code, k) then TypeOf(code, k) else CommonNoMem
  }

  /** The block was cut before `k` because `k` would not have fitted in. */
  ghost predicate CutBefore(code: seq<Insn>, m: seq<Mark>, k: nat)
    requires |m| == |code| && k < |code|
  {
    exists s :: 0 <= s < k && m[s].starts && (forall j :: s < j < k ==> !m[j].starts) &&
                SlotsIn(code, s, k + 1) > MAX_VALUES
  }

  /** Nodes before `i` seen, the current block starts at `start`. */
  ghost predicate Progress(code: seq<Insn>, m1: seq<Mark>, m: seq<Mark>, i: nat, start: nat, events: nat, values: nat) {
    && |m| == |m1| == |code| && i <= |m| && (i == 0 ==> start == events == values == 0)
    && (i > 0 ==>
      && start < i && m[start].starts && m[start].info.None? && m[start].type_ == StartType(code, start)
      && (forall k :: start < k < i ==> !m[k].starts)
      && events == EventsIn(code, start, i) && values == SlotsIn(code, start, i) <= MAX_VALUES)
    && (forall k :: i <= k < |m| ==> m[k] == m1[k])
    && (forall k :: 0 <= k < i && m1[k].starts ==> m[k].starts)
    && (forall k :: 0 <= k < i && !m[k].starts ==> m[k] == m1[k])
    && (forall k :: 0 <= k < i && m[k].starts && !m1[k].starts ==> CutBefore(code, m, k))
    && (forall k :: 0 <= k < |m| ==> !m[k].pastLast && !m[k].hasJumpsOut)
    && (forall s, e :: 0 <= s < e <= start && IsBlock(m[..start], s, e) ==> GoodBlock(code, m, s, e))
  }

  lemma ProgressStart(code: seq<Insn>, m1: seq<Mark>)
    requires FirstDone(code, m1)
    ensures Progress(code, m1, m1, 0, 0, 0, 0)
  {
    forall k | 0 <= k < |m1|
      ensures !m1[k].pastLast && !m1[k].hasJumpsOut
    {
      assert FirstMark(code, m1, k);
    }
  }

  lemma Enter(code: seq<Insn>, m1: seq<Mark>, m: seq<Mark>, i: nat, start: nat, events: nat, values: nat)
    requires Decodes(code) && FirstDone(code, m1) && Progress(code, m1, m, i, start, events, values) && i < |code|
    ensures |m| == |code| && m[i] == m1[i] && m[i].type_ == TypeOf(code, i) && (i == 0 ==> m[i].starts)
    ensures i > 0 ==> start < i && m[start].starts && m[start].info.None? && m[start].type_ == StartType(code, start)
    ensures m[i].starts && i > 0 && events > 0 && Separate(code, start) ==>
            events == 1 && (code[start].kind.Locked? || code[start].kind.IoMem?)
    ensures i > 0 && Separate(code, start) ==> m[i].starts
  {
    hide EventsIn, SlotsIn, IsBlock, GoodBlock, CutBefore;
    assert FirstMark(code, m1, i);
    if i > 0 && Separate(code, start) {
      assert FirstMark(code, m1, start);
      assert start + 1 < |m1| && m1[start + 1].starts;
      assert i == start + 1;
      NextIn(code, start, start);
      assert DecodedInsn(code[start], |code|);
    }
  }

  /** What happens to the marks when a block starts at `i`. */
  ghost predicate Closed(code: seq<Insn>, m: seq<Mark>, m': seq<Mark>, i: nat, start: nat, events: nat)
    requires |m| == |code| && i < |m| && start <= i
  {
    && |m'| == |m| && (forall k :: 0 <= k < |m| && k != i && k != start ==> m'[k] == m[k])
    && (start < i ==> m'[start] == m[start].(info := if events == 0 then None else Some(events),
                                             type_ := if events > 0 && !Separate(code, start) then Common
                                             else m[start].type_))
    && m'[i] == m[i].(starts := true, type_ := StartType(code, i))
  }

  lemma NewBlock(code: seq<Insn>, m1: seq<Mark>, m: seq<Mark>, m': seq<Mark>, i: nat, start: nat, events: nat,
                 values: nat)
    requires Decodes(code) && FirstDone(code, m1) && Progress(code, m1, m, i, start, events, values) && i < |code|
    requires Closed(code, m, m', i, start, events) && (m[i].starts || values + SlotCount(code[i].op) > MAX_VALUES)
    ensures Progress(code, m1, m', i + 1, i, EventCount(code[i].op), SlotCount(code[i].op))
  {
    hide EventsIn, SlotsIn, IsBlock, GoodBlock, CutBefore, TypeOf, Separate;
    NextIn(code, i, i);
    assert FirstMark(code, m1, i);
    forall k | 0 <= k < i + 1 && m'[k].starts && !m1[k].starts
      ensures CutBefore(code, m', k)
    {
      if k < i {
        CutKept(code, m, m', k);
      } else {
        NextIn(code, start, i);
        CutHere(code, m', start, i);
      }
    }
    forall s, e | 0 <= s < e <= i && IsBlock(m'[..i], s, e)
      ensures GoodBlock(code, m', s, e)
    {
      ClosedBlocks(code, m, m', i, start, s, e);
      if e <= start {
        assert GoodBlock(code, m, s, e);
        SameStart(code, m, m', s, e);
      } else {
        JustClosed(code, m, m', i, start);
      }
    }
  }

  lemma CutKept(code: seq<Insn>, m: seq<Mark>, m': seq<Mark>, k: nat)
    requires |m| == |m'| == |code| && k < |m| && CutBefore(code, m, k)
    requires forall j :: 0 <= j < k ==> m'[j].starts == m[j].starts
    ensures CutBefore(code, m', k)
  {
    hide SlotsIn;
    var s :| 0 <= s < k && m[s].starts && (forall j :: s < j < k ==> !m[j].starts) &&
        SlotsIn(code, s, k + 1) > MAX_VALUES;
    assert m'[s].starts;
  }

  lemma CutHere(code: seq<Insn>, m: seq<Mark>, s: nat, k: nat)
    requires |m| == |code| && s < k < |m| && m[s].starts && (forall j :: s < j < k ==> !m[j].starts)
    requires SlotsIn(code, s, k + 1) > MAX_VALUES
    ensures CutBefore(code, m, k)
  {
  }

  /** The blocks before `i`: those before `start`, and the one that has just been closed. */
  lemma ClosedBlocks(code: seq<Insn>, m: seq<Mark>, m': seq<Mark>, i: nat, start: nat, s: nat, e: nat)
    requires |m| == |m'| == |code| && start < i < |m| && m[start].starts
    requires forall k :: start < k < i ==> !m[k].starts
    requires forall k :: 0 <= k < i ==> m'[k].starts == m[k].starts
    requires s < e <= i && IsBlock(m'[..i], s, e)
    ensures e <= start ==> IsBlock(m[..start], s, e)
    ensures start < e ==> s == start && e == i
  {
    if start < e {
      assert m'[..i][start].starts;
      assert m'[..i][s].starts;
    } else {
      assert forall k :: 0 <= k < start ==> m[..start][k].starts == m'[..i][k].starts;
      assert e < start ==> m'[..i][e].starts;
    }
  }

  lemma SameStart(code: seq<Insn>, m: seq<Mark>, m': seq<Mark>, s: nat, e: nat)
    requires |m| == |m'| == |code| && s < e <= |m| && m[s] == m'[s] && GoodBlock(code, m, s, e)
    ensures GoodBlock(code, m', s, e)
  {
  }

  lemma JustClosed(code: seq<Insn>, m: seq<Mark>, m': seq<Mark>, i: nat, start: nat)
    requires |m| == |code| && start < i < |m| && m[start].info.None? && m[start].type_ == StartType(code, start)
    requires SlotsIn(code, start, i) <= MAX_VALUES && Closed(code, m, m', i, start, EventsIn(code, start, i))
    ensures GoodBlock(code, m', start, i)
  {
  }

  lemma SameBlock(code: seq<Insn>, m1: seq<Mark>, m: seq<Mark>, i: nat, start: nat, events: nat, values: nat)
    requires FirstDone(code, m1) && Progress(code, m1, m, i, start, events, values) && i < |code|
    requires !m[i].starts && values + SlotCount(code[i].op) <= MAX_VALUES
    ensures Progress(code, m1, m, i + 1, start, events + EventCount(code[i].op), values + SlotCount(code[i].op))
  {
    hide EventsIn, SlotsIn, IsBlock, GoodBlock, CutBefore, TypeOf, Separate;
    NextIn(code, start, i);
  }

  /** The last block has its type and its size checked, but no information of its own. */
  ghost predicate LastBlock(code: seq<Insn>, m: seq<Mark>, s: nat)
    requires |m| == |code| && s < |m|
  {
    SlotsIn(code, s, |m|) <= MAX_VALUES && m[s].info.None? && m[s].type_ == StartType(code, s)
  }

  ghost predicate SecondDone(code: seq<Insn>, m1: seq<Mark>, m: seq<Mark>) {
    && |m| == |m1| == |code|
    && (forall k :: 0 <= k < |m| && m1[k].starts ==> m[k].starts)
    && (forall k :: 0 <= k < |m| && !m[k].starts ==> m[k] == m1[k])
    && (forall k :: 0 <= k < |m| && m[k].starts && !m1[k].starts ==> CutBefore(code, m, k))
    && (forall k :: 0 <= k < |m| ==> !m[k].pastLast && !m[k].hasJumpsOut)
    && (forall s: nat, e: nat :: IsBlock(m, s, e) ==>
        if e < |m| then GoodBlock(code, m, s, e) else LastBlock(code, m, s))
  }

  lemma Finish(code: seq<Insn>, m1: seq<Mark>, m: seq<Mark>, start: nat, events: nat, values: nat)
    requires |code| > 0 && Progress(code, m1, m, |code|, start, events, values)
    ensures SecondDone(code, m1, m)
  {
    hide EventsIn, SlotsIn, GoodBlock, CutBefore, TypeOf, Separate;
    forall s: nat, e: nat | IsBlock(m, s, e)
      ensures if e < |m| then GoodBlock(code, m, s, e) else LastBlock(code, m, s)
    {
      if e <= start {
        assert IsBlock(m[..start], s, e);
      } else {
        assert s == start && e == |m|;
      }
    }
  }

  // --------------------------------------------------------------- pass 3

  /** The transfer at `k` leads past the block that ends before `e`. */
  ghost predicate Leaves(code: seq<Insn>, k: nat, e: nat)
    requires k < |code| && 0 < e <= |code|
  {
    code[k].dest.Some? && code[k].dest.value < |code| && code[code[k].dest.value].addr > code[e - 1].addr
  }

  ghost predicate AnyLeaves(code: seq<Insn>, s: nat, p: nat, e: nat)
    requires p <= |code| && 0 < e <= |code|
  {
    exists k :: s <= k < p && Leaves(code, k, e)
  }

  ghost function JumpMarked(code: seq<Insn>, m: seq<Mark>, s: nat, e: nat, k: nat): (r: Mark)
    requires s <= k < e <= |code| == |m|
    ensures r.starts == m[k].starts
  {
    if k != s then m[k].(pastLast := Leaves(code, k, e))
    else m[s].(pastLast := Leaves(code, s, e), end := e - 1, hasJumpsOut := AnyLeaves(code, s, e, e))
  }

  lemma NoneLeaves(code: seq<Insn>, s: nat, e: nat)
    requires s <= |code| && 0 < e <= |code|
    ensures !AnyLeaves(code, s, s, e)
  {
  }

  lemma LeavesNext(code: seq<Insn>, s: nat, p: nat, e: nat)
    requires Linked(code) && s <= p < e <= |code|
    ensures code[p].dest.Some? ==> code[p].dest.value < |code|
    ensures Leaves(code, p, e) <==> code[p].dest.Some? && code[code[p].dest.value].addr > code[e - 1].addr
    ensures AnyLeaves(code, s, p + 1, e) <==> AnyLeaves(code, s, p, e) || Leaves(code, p, e)
  {
    hide Leaves;
    assert DecodedInsn(code[p], |code|);
    LeavesIs(code, p, e);
    if AnyLeaves(code, s, p, e) {
      var k :| s <= k < p && Leaves(code, k, e);
    }
  }

  lemma LeavesIs(code: seq<Insn>, p: nat, e: nat)
    requires p < |code| && 0 < e <= |code| && (code[p].dest.Some? ==> code[p].dest.value < |code|)
    ensures Leaves(code, p, e) <==> code[p].dest.Some? && code[code[p].dest.value].addr > code[e - 1].addr
  {
  }

  /** Block [s, e) has its jumps out marked if it is a common block with events. */
  ghost predicate BlockDone(code: seq<Insn>, m: seq<Mark>, m': seq<Mark>, s: nat, e: nat)
    requires |m| == |m'| == |code|
  {
    s < e <= |m| && forall k :: s <= k < e ==>
    m'[k] == if m[s].type_.Common? then JumpMarked(code, m, s, e, k) else m[k]
  }

  lemma FlagsClear(code: seq<Insn>, m1: seq<Mark>, m: seq<Mark>)
    requires SecondDone(code, m1, m)
    ensures |m| == |code| && forall k :: 0 <= k < |m| ==> !m[k].pastLast && !m[k].hasJumpsOut
  {
  }

  lemma NoBlocks(m: seq<Mark>)
    ensures forall s: nat, e: nat :: IsBlock(m, s, e) ==> 0 < e <= |m|
  {
  }

  ghost function BlockEndOf(m: seq<Mark>, s: nat): (e: nat)
    requires s < |m| && m[s].starts
    ensures IsBlock(m, s, e) && s < e <= |m| && (e == |m| || m[e].starts) && forall k :: s < k < e ==> !m[k].starts
  {
    NextStart(m, s, s + 1)
  }

  ghost function NextStart(m: seq<Mark>, s: nat, p: nat): (e: nat)
    requires s < p <= |m| && m[s].starts && forall k :: s < k < p ==> !m[k].starts
    ensures IsBlock(m, s, e)
    decreases |m| - p
  {
    if p == |m| || m[p].starts then p else NextStart(m, s, p + 1)
  }

  lemma SameEnd(m: seq<Mark>, m': seq<Mark>, s: nat, e: nat, e': nat)
    requires |m| == |m'| && forall k :: 0 <= k < |m| ==> m[k].starts == m'[k].starts
    requires IsBlock(m, s, e) && IsBlock(m', s, e')
    ensures e == e'
  {
  }

  /** Blocks do not overlap, so the blocks up to `e` are those up to `i` and the one from `i` to `e`. */
  lemma BlocksInOrder(m: seq<Mark>, i: nat, e: nat, s: nat, e': nat)
    requires IsBlock(m, i, e) && IsBlock(m, s, e') && e' <= e
    ensures e' <= i || (s == i && e' == e)
  {
  }

  lemma NextDone(code: seq<Insn>, m: seq<Mark>, m': seq<Mark>, m'': seq<Mark>, i: nat, e: nat)
    requires |m| == |m'| == |m''| == |code| && IsBlock(m, i, e)
    requires forall s: nat, e': nat :: IsBlock(m, s, e') && e' <= i ==> BlockDone(code, m, m', s, e')
    requires forall k :: 0 <= k < |m| && !(i <= k < e) ==> m''[k] == m'[k]
    requires forall k :: i <= k < |m| ==> m'[k] == m[k]
    requires i < e <= |m| && forall k :: i <= k < e ==>
             m''[k] == if m[i].type_.Common? then JumpMarked(code, m', i, e, k) else m'[k]
    ensures forall s: nat, e': nat :: IsBlock(m, s, e') && e' <= e ==> BlockDone(code, m, m'', s, e')
  {
    hide IsBlock;
    forall s: nat, e': nat | IsBlock(m, s, e') && e' <= e
      ensures BlockDone(code, m, m'', s, e')
    {
      BlocksInOrder(m, i, e, s, e');
      if e' <= i {
        assert BlockDone(code, m, m', s, e');
      }
    }
  }

  ghost predicate ThirdDone(code: seq<Insn>, m: seq<Mark>, m': seq<Mark>) {
    && |m| == |m'| == |code|
    && (forall k :: 0 <= k < |m| ==> m'[k].starts == m[k].starts)
    && (forall s: nat, e: nat :: IsBlock(m, s, e) ==> BlockDone(code, m, m', s, e))
  }

  // ------------------------------------------------------------ the result

  /** What every block looks like when all passes are done. */
  ghost predicate BlockIsGood(code: seq<Insn>, m: seq<Mark>, s: nat, e: nat)
    requires |m| == |code| && s < e <= |m|
  {
    && SlotsIn(code, s, e) <= MAX_VALUES
    // the information of a block that is not the last one counts exactly its events
    && (e < |m| ==> m[s].info == if EventsIn(code, s, e) == 0 then None else Some(EventsIn(code, s, e)))
    && (e < |m| ==> (m[s].type_.Common? <==> !Separate(code, s) && EventsIn(code, s, e) > 0))
    && (e == |m| ==> m[s].info.None? && !m[s].type_.Common?)
    // a common block has nothing in it that must be alone, and its jumps go forward
    && (IsCommon(m[s].type_) ==> forall k :: s <= k < e ==>
        !Separate(code, k) && (code[k].dest.Some? ==> code[k].dest.value > k))
    && (!IsCommon(m[s].type_) ==> e == s + 1 && m[s].type_ == TypeOf(code, s))
    // the jumps out of a common block with events are known, and its last node
    && (m[s].type_.Common? ==>
      && m[s].end == e - 1
      && (forall k :: s <= k < e ==> (m[k].pastLast <==> code[k].dest.Some? && code[k].dest.value >= e))
      && (m[s].hasJumpsOut <==> exists k :: s <= k < e && m[k].pastLast))
  }

  /** The type of each node by its instruction alone; nodes inside a block have none. */
  ghost predicate Typed(code: seq<Insn>, m: seq<Mark>, k: nat)
    requires |m| == |code| && k < |m|
  {
    var c, t := code[k], m[k].type_;
    && (t.LockedUpdate? <==> c.kind.Locked?)
    && (t.IoMemOp? <==> c.kind.IoMem?)
    && (t.BarrierOther? <==> c.kind.Barrier?)
    && (t.IndirectInner? <==> c.kind == JumpIndirect(true))
    && (t.IndirectOut? <==> c.kind == JumpIndirect(false))
    && (t.IndirectCall? <==> c.kind.CallIndirect?)
    && (t.JumpOut? <==> c.kind.JumpRel? && c.outside)
    && (t.CallOut? <==> c.kind.CallRel? && c.outside)
    && (t.Backwards? <==> (c.kind.JumpRel? || c.kind.CallRel?) && !c.outside &&
                          c.dest.Some? && c.dest.value < |code| && code[c.dest.value].addr <= c.addr)
    && (t.ControlOutOther? <==> c.kind.OtherTransfer?)
    && (t.Unset? <==> !m[k].starts)
    // what has a type of its own is alone in its block, and a jump back leads to the start of a block
    && (!t.Unset? && !IsCommon(t) ==> k + 1 < |m| ==> m[k + 1].starts)
    && (t.Backwards? ==> m[c.dest.value].starts)
  }

  ghost predicate Split(code: seq<Insn>, targets: set<nat>, m: seq<Mark>) {
    && |m| == |code| > 0 && m[0].starts
    && (forall k :: 0 <= k < |m| && k in targets ==> m[k].starts)
    && (forall k :: 0 <= k < |m| && Separate(code, k) ==> m[k].starts && (k + 1 < |m| ==> m[k + 1].starts))
    && (forall k :: 0 <= k < |m| && JumpsBack(code, k) && !code[k].outside ==> m[code[k].dest.value].starts)
    && (forall k :: 0 <= k < |m| ==> Typed(code, m, k))
    && (forall s: nat, e: nat :: s < e <= |m| && IsBlock(m, s, e) ==> BlockIsGood(code, m, s, e))
    // no block was cut without need
    && (forall k :: 0 <= k < |m| && m[k].starts && k != 0 && k !in targets && !MarkedBy(code, |code|, k) ==>
        CutBefore(code, m, k))
  }

  lemma FirstPassDone(code: seq<Insn>, targets: set<nat>, m: seq<Mark>)
    requires Linked(code) && |m| == |code| > 0
    requires forall k :: 0 <= k < |m| ==> m[k] == AfterFirst(code, targets, |code|, k)
    ensures FirstDone(code, m)
    ensures forall k :: 0 <= k < |m| && JumpsBack(code, k) && !code[k].outside ==> m[code[k].dest.value].starts
  {
    hide Linked, TypeOf;
    forall k | 0 <= k < |m|
      ensures FirstMark(code, m, k)
      ensures JumpsBack(code, k) && !code[k].outside ==> m[code[k].dest.value].starts
    {
      if Separate(code, k) {
        assert Marks(code, k, k) && Marks(code, k, k + 1);
      }
      if JumpsBack(code, k) && !code[k].outside {
        BackIsSeparate(code, k);
        assert Marks(code, k, code[k].dest.value);
      }
    }
  }

  lemma BackIsSeparate(code: seq<Insn>, k: nat)
    requires Linked(code) && k < |code| && JumpsBack(code, k)
    ensures Separate(code, k)
  {
    assert DecodedInsn(code[k], |code|);
  }

  lemma StillStarts(code: seq<Insn>, m1: seq<Mark>, m: seq<Mark>, k: nat)
    requires FirstDone(code, m1) && SecondDone(code, m1, m) && k < |m1|
    ensures |m| == |m1| && (m1[k].starts ==> m[k].starts) && m[0].starts
  {
  }

  lemma SplitDone(code: seq<Insn>, targets: set<nat>, m1: seq<Mark>, m2: seq<Mark>, m: seq<Mark>)
    requires Linked(code) && |m1| == |code| > 0
    requires forall k :: 0 <= k < |m1| ==> m1[k] == AfterFirst(code, targets, |code|, k)
    requires FirstDone(code, m1) && SecondDone(code, m1, m2) && ThirdDone(code, m2, m)
    requires forall k :: 0 <= k < |m1| && JumpsBack(code, k) && !code[k].outside ==> m1[code[k].dest.value].starts
    ensures Split(code, targets, m)
  {
    hide Linked, IsBlock, BlockDone, GoodBlock, LastBlock, CutBefore, TypeOf, Separate, MarkedBy, BlockIsGood, Typed;
    forall s: nat, e: nat | s < e <= |m| && IsBlock(m, s, e)
      ensures BlockIsGood(code, m, s, e)
    {
      SameBlocks(m, m2, s, e);
      GoodOverall(code, m1, m2, m, s, e);
    }
    forall k | 0 <= k < |m|
      ensures Separate(code, k) ==> m[k].starts && (k + 1 < |m| ==> m[k + 1].starts)
    {
      assert FirstMark(code, m1, k);
    }
    forall k | 0 <= k < |m|
      ensures Typed(code, m, k)
    {
      TypeKept(code, m1, m2, m, k);
      assert FirstMark(code, m1, k);
      TypeIs(code, m, k);
    }
    forall k | 0 <= k < |m| && m[k].starts && k != 0 && k !in targets && !MarkedBy(code, |code|, k)
      ensures CutBefore(code, m, k)
    {
      assert m2[k].starts && !m1[k].starts;
      CutKept(code, m2, m, k);
    }
  }

  /** The block that node `k` belongs to. */
  ghost function BlockStartOf(m: seq<Mark>, k: nat): (s: nat)
    requires k < |m| && m[0].starts
    ensures s <= k && m[s].starts && forall j :: s < j <= k ==> !m[j].starts
  {
    if m[k].starts then k else BlockStartOf(m, k - 1)
  }

  /** The later passes give types to the starts of blocks only. */
  lemma TypeKept(code: seq<Insn>, m1: seq<Mark>, m2: seq<Mark>, m: seq<Mark>, k: nat)
    requires FirstDone(code, m1) && SecondDone(code, m1, m2) && ThirdDone(code, m2, m) && k < |m|
    ensures |m| == |code| && (Separate(code, k) ==> m[k].starts && m[k].type_ == TypeOf(code, k))
    ensures !Separate(code, k) ==> if m[k].starts then IsCommon(m[k].type_) else m[k].type_.Unset?
  {
    hide EventsIn, SlotsIn, CutBefore, Leaves, AnyLeaves, TypeOf, Separate;
    var s := BlockStartOf(m2, k);
    var e := BlockEndOf(m2, s);
    assert BlockDone(code, m2, m, s, e);
    assert FirstMark(code, m1, k);
    assert if e < |m2| then GoodBlock(code, m2, s, e) else LastBlock(code, m2, s);
  }

  lemma TypeIs(code: seq<Insn>, m: seq<Mark>, k: nat)
    requires Linked(code) && |m| == |code| && k < |m|
    requires Separate(code, k) ==> m[k].starts && m[k].type_ == TypeOf(code, k) && (k + 1 < |m| ==> m[k + 1].starts)
    requires !Separate(code, k) ==> if m[k].starts then IsCommon(m[k].type_) else m[k].type_.Unset?
    requires JumpsBack(code, k) && !code[k].outside ==> m[code[k].dest.value].starts
    ensures Typed(code, m, k)
  {
    assert DecodedInsn(code[k], |code|);
  }

  lemma SameBlocks(m: seq<Mark>, m': seq<Mark>, s: nat, e: nat)
    requires |m| == |m'| && (forall k :: 0 <= k < |m| ==> m[k].starts == m'[k].starts) && IsBlock(m, s, e)
    ensures IsBlock(m', s, e)
  {
  }

  lemma GoodOverall(code: seq<Insn>, m1: seq<Mark>, m2: seq<Mark>, m: seq<Mark>, s: nat, e: nat)
    requires Linked(code) && FirstDone(code, m1) && SecondDone(code, m1, m2) && ThirdDone(code, m2, m)
    requires s < e <= |m| && IsBlock(m2, s, e)
    ensures BlockIsGood(code, m, s, e)
  {
    hide Linked, EventsIn, SlotsIn, CutBefore, Leaves;
    assert BlockDone(code, m2, m, s, e);
    assert if e < |m| then GoodBlock(code, m2, s, e) else LastBlock(code, m2, s);
    InsideCommon(code, m1, m2, s, e);
    if m2[s].type_.Common? {
      forall k | s <= k < e
        ensures Leaves(code, k, e) <==> code[k].dest.Some? && code[k].dest.value >= e
      {
        LeavesByPosition(code, k, e);
      }
    }
  }

  lemma InsideCommon(code: seq<Insn>, m1: seq<Mark>, m2: seq<Mark>, s: nat, e: nat)
    requires Linked(code) && FirstDone(code, m1) && SecondDone(code, m1, m2)
    requires s < e <= |m2| && IsBlock(m2, s, e)
    ensures Separate(code, s) ==> e == s + 1
    ensures !Separate(code, s) ==> forall k :: s <= k < e ==>
            !Separate(code, k) && (code[k].dest.Some? ==> code[k].dest.value > k)
  {
    hide Linked, TypeOf, Separate, CutBefore, GoodBlock, LastBlock;
    if Separate(code, s) {
      assert FirstMark(code, m1, s);
    } else {
      forall k | s <= k < e
        ensures !Separate(code, k) && (code[k].dest.Some? ==> code[k].dest.value > k)
      {
        assert FirstMark(code, m1, k);
        if code[k].dest.Some? {
          ForwardJump(code, k);
        }
      }
    }
  }

  lemma ForwardJump(code: seq<Insn>, k: nat)
    requires Linked(code) && k < |code| && !Separate(code, k) && code[k].dest.Some?
    ensures code[k].dest.value > k
  {
    assert DecodedInsn(code[k], |code|);
    var d := code[k].dest.value;
    assert code[d].addr > code[k].addr;
  }

  lemma LeavesByPosition(code: seq<Insn>, k: nat, e: nat)
    requires Linked(code) && k < e <= |code|
    ensures Leaves(code, k, e) <==> code[k].dest.Some? && code[k].dest.value >= e
  {
    assert DecodedInsn(code[k], |code|);
    if code[k].dest.Some? {
      var d := code[k].dest.value;
      assert d < e - 1 ==> code[d].addr < code[e - 1].addr;
      assert d > e - 1 ==> code[e - 1].addr < code[d].addr;
    }
  }

  /** The block information counts the events of the block. */
  ghost predicate Counted(code: seq<Insn>, m: seq<Mark>, s: nat, e: nat)
    requires |m| == |code| && s < e <= |m|
  {
    m[s].info == if EventsIn(code, s, e) == 0 then None else Some(EventsIn(code, s, e))
  }

  /** Node `k` starts a block whatever the slots: the first node, a table entry, or one that the first pass marks. */
  ghost predicate Fixed(code: seq<Insn>, targets: set<nat>, k: nat) {
    k == 0 || k in targets || MarkedBy(code, |code|, k)
  }

  /** The last node up to `k` that starts a block whatever the slots. */
  ghost function LastFixed(code: seq<Insn>, targets: set<nat>, k: nat): (p: nat)
    ensures p <= k && Fixed(code, targets, p) && forall j :: p < j <= k ==> !Fixed(code, targets, j)
  {
    if k == 0 || Fixed(code, targets, k) then k else LastFixed(code, targets, k - 1)
  }

  lemma FixedStarts(code: seq<Insn>, targets: set<nat>, m: seq<Mark>, k: nat)
    requires Split(code, targets, m) && k < |m| && Fixed(code, targets, k)
    ensures m[k].starts
  {
    hide BlockIsGood, CutBefore, Separate;
    if k != 0 && k !in targets {
      var j :| 0 <= j < |code| && Marks(code, j, k);
    }
  }

  lemma {:induction false} EventsSplit(code: seq<Insn>, a: nat, b: nat, c: nat)
    requires a <= b <= c <= |code|
    ensures EventsIn(code, a, c) == EventsIn(code, a, b) + EventsIn(code, b, c)
    decreases c
  {
    hide EventsIn, SlotsIn;
    if b < c {
      EventsSplit(code, a, b, c - 1);
      NextIn(code, a, c - 1);
      NextIn(code, b, c - 1);
    } else if b < |code| {
      NextIn(code, b, b);
    } else {
      NoEvents(code);
    }
  }

  lemma NoEvents(code: seq<Insn>)
    ensures EventsIn(code, |code|, |code|) == 0
  {
  }

  /** A block that was started because the one before it was full starts with a tracked operation. */
  lemma CutIsTracked(code: seq<Insn>, targets: set<nat>, m: seq<Mark>, k: nat)
    requires Split(code, targets, m) && k < |m| && m[k].starts && !Fixed(code, targets, k)
    ensures EventsIn(code, k, k + 1) > 0
  {
    hide EventsIn, SlotsIn, MarkedBy, Separate, TypeOf;
    assert CutBefore(code, m, k);
    var s :| 0 <= s < k && m[s].starts && (forall j :: s < j < k ==> !m[j].starts) &&
        SlotsIn(code, s, k + 1) > MAX_VALUES;
    assert IsBlock(m, s, k) && BlockIsGood(code, m, s, k);
    NextIn(code, s, k);
    NextIn(code, k, k);
  }

  /** The last block starts at the last fixed start, or there are events in it. */
  lemma LastBlockEvents(code: seq<Insn>, targets: set<nat>, m: seq<Mark>, last: nat)
    requires Split(code, targets, m) && last < |m| && IsBlock(m, last, |m|)
    ensures EventsIn(code, last, |m|) == 0 <==> EventsIn(code, LastFixed(code, targets, |code| - 1), |code|) == 0
  {
    hide EventsIn, SlotsIn, MarkedBy, Separate, TypeOf, BlockIsGood, CutBefore, LastFixed, Fixed;
    var p := LastFixed(code, targets, |code| - 1);
    FixedStarts(code, targets, m, p);
    EventsSplit(code, p, last, |code|);
    if last != p {
      CutIsTracked(code, targets, m, last);
      EventsSplit(code, last, last + 1, |code|);
    }
  }

  /**
   Every event is counted if and only if there are none from the last node on that starts a
   block whatever the slots.
   */
  lemma AllCountedIff(code: seq<Insn>, targets: set<nat>, m: seq<Mark>)
    requires Split(code, targets, m)
    ensures (forall s: nat, e: nat :: s < e <= |m| && IsBlock(m, s, e) ==> Counted(code, m, s, e)) <==>
            EventsIn(code, LastFixed(code, targets, |code| - 1), |code|) == 0
  {
    hide EventsIn, SlotsIn, IsBlock, CutBefore, MarkedBy, Separate, TypeOf, LastFixed, Fixed;
    var last := LastStart(m, |m| - 1);
    assert BlockIsGood(code, m, last, |m|);
    LastBlockEvents(code, targets, m, last);
    if EventsIn(code, last, |m|) == 0 {
      forall s: nat, e: nat | s < e <= |m| && IsBlock(m, s, e)
        ensures Counted(code, m, s, e)
      {
        assert BlockIsGood(code, m, s, e);
        if e == |m| {
          OneLast(m, last, s);
        }
      }
    }
  }

  ghost function LastStart(m: seq<Mark>, k: nat): (s: nat)
    requires k < |m| && m[0].starts && forall j :: k < j < |m| ==> !m[j].starts
    ensures s < |m| && IsBlock(m, s, |m|)
  {
    if m[k].starts then k else LastStart(m, k - 1)
  }

  /** The block information that the instrumentation of these blocks insists on (BUG_ON). */
  predicate NeedsInfo(t: BlockType) { t.Common? || t.LockedUpdate? || t.IoMemOp? }

  /** The instrumentation meets a block without its information iff the function ends in a locked or I/O operation. */
  lemma InfoMissingIff(code: seq<Insn>, targets: set<nat>, m: seq<Mark>)
    requires Linked(code) && Split(code, targets, m)
    ensures (exists s: nat, e: nat :: s < e <= |m| && IsBlock(m, s, e) && NeedsInfo(m[s].type_) && m[s].info.None?) <==>
            var kind := code[|code| - 1].kind; kind.Locked? || kind.IoMem?
  {
    hide EventsIn, SlotsIn, IsBlock, CutBefore, MarkedBy, Linked;
    var n := |m| - 1;
    if code[n].kind.Locked? || code[n].kind.IoMem? {
      assert IsBlock(m, n, |m|) by {
        assert Separate(code, n);
        AloneAtEnd(m);
      }
      assert BlockIsGood(code, m, n, |m|);
    }
    forall s: nat, e: nat | s < e <= |m| && IsBlock(m, s, e) && NeedsInfo(m[s].type_) && m[s].info.None?
      ensures code[n].kind.Locked? || code[n].kind.IoMem?
    {
      assert BlockIsGood(code, m, s, e);
      OneEvent(code, s);
    }
  }

  lemma AloneAtEnd(m: seq<Mark>)
    requires |m| > 0 && m[|m| - 1].starts
    ensures IsBlock(m, |m| - 1, |m|)
  {
  }

  lemma OneEvent(code: seq<Insn>, s: nat)
    requires Linked(code) && s < |code|
    ensures code[s].kind.Locked? || code[s].kind.IoMem? ==> EventsIn(code, s, s + 1) == 1
  {
    assert DecodedInsn(code[s], |code|);
    NextIn(code, s, s);
  }

  /** One tracked access of four bytes and nothing after it. */
  function Lone(kind: Kind): seq<Insn> { [Insn(kind, Op(PlainE, true, 0, 4, true, false), 0, false, None)] }

  /** A function that consists of one read: its event is not counted. */
  method LoneAccessIsLost() returns (info: Option<nat>)
    ensures info.None? && EventsIn(Lone(Plain), 0, 1) == 1
  {
    var f := new Function(Lone(Plain), {});
    f.CreateBlocks({});
    LoneIs(Plain, f.marks[..]);
    return f.marks[0].info;
  }

  /** A function that consists of one locked update: instrumenting its block is a BUG_ON. */
  method LoneLockedFails() returns (type_: BlockType, info: Option<nat>)
    ensures NeedsInfo(type_) && info.None?
  {
    var f := new Function(Lone(Locked), {});
    f.CreateBlocks({});
    LoneIs(Locked, f.marks[..]);
    return f.marks[0].type_, f.marks[0].info;
  }

  lemma LoneIs(kind: Kind, m: seq<Mark>)
    requires (kind.Plain? || kind.Locked?) && Split(Lone(kind), {}, m)
    ensures |m| == 1 && m[0].info.None? && (kind.Locked? ==> m[0].type_.LockedUpdate?) &&
            EventsIn(Lone(kind), 0, 1) == 1
  {
    hide CutBefore, MarkedBy;
    assert IsBlock(m, 0, 1) && BlockIsGood(Lone(kind), m, 0, 1);
    NextIn(Lone(kind), 0, 0);
  }

  lemma OneLast(m: seq<Mark>, s: nat, s': nat)
    requires IsBlock(m, s, |m|) && IsBlock(m, s', |m|)
    ensures s == s'
  {
  }

  /** A function that ends in a control transfer has no events in its last block. */
  lemma EndsInTransfer(code: seq<Insn>, targets: set<nat>, m: seq<Mark>)
    requires Linked(code) && Split(code, targets, m)
    requires var n := |m| - 1; Separate(code, n) && !code[n].kind.Locked? && !code[n].kind.IoMem?
    ensures IsBlock(m, |m| - 1, |m|) && EventsIn(code, |m| - 1, |m|) == 0
  {
    hide EventsIn, SlotsIn, CutBefore, MarkedBy, TypeOf, BlockIsGood;
    var n := |m| - 1;
    assert m[n].starts && DecodedInsn(code[n], |code|);
    NextIn(code, n, n);
  }
}
