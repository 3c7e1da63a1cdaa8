/**
 From block creation to the laid-out blocks: a common block of a split function, with its
 instructions recorded and its jumps redirected as the marks say, is what BlockPaths is about.
 */
module SplitBlocks {
  import opened Basics
  import opened Machine
  import opened ReleaseBase
  import opened FlatCode
  import opened BlockLayout
  import opened BlockPaths
  import B = Blocks
  import BlockEnd
  import JumpRelax
  import R = BlockRecord

  /** The instruction `p` stands for node `c`: direct jumps inside the function stay jumps. */
  ghost predicate BuiltInsn<W>(p: Place<W>, c: B.Insn) {
    && p.op == c.op
    && (p.source.Jump? <==> c.kind.JumpRel? && c.dest.Some?)
    && (p.source.Jump? ==> Some(p.source.dest) == c.dest)
  }

  /** instrument_common_block: jumps out and the code after the last node, by the marks of the block. */
  ghost predicate BuiltBlock<W>(m: seq<B.Mark>, f: seq<Place<W>>, s: nat, e: nat)
    requires |f| == |m| && s < e <= |m|
  {
    && (forall k :: s <= k < e ==> f[k].end == if m[k].pastLast then Some(m[s].end) else None)
    && (forall k :: s <= k < e ==> (f[k].tail.NoTail? <==> k != m[s].end))
    && (forall k :: s <= k < e ==> (f[k].tail.Dispatch? <==> k == m[s].end && m[s].hasJumpsOut))
  }

  ghost predicate Built<W>(code: seq<B.Insn>, m: seq<B.Mark>, f: seq<Place<W>>) {
    && |f| == |code| == |m| && Inside(f)
    && (forall k :: 0 <= k < |f| ==> BuiltInsn(f[k], code[k]))
    && (forall s: nat, e: nat :: s < e <= |m| && B.IsBlock(m, s, e) && m[s].type_.Common? ==> BuiltBlock(m, f, s, e))
  }

  lemma {:induction false} SameOps<W>(code: seq<B.Insn>, m: seq<B.Mark>, f: seq<Place<W>>, s: nat, k: nat)
    requires Built(code, m, f) && s <= k <= |f|
    ensures Ops(f, s, k) == B.Ops(code)[s..k]
  {
    forall i | 0 <= i < k - s
      ensures Ops(f, s, k)[i] == B.Ops(code)[s..k][i]
    {
      assert BuiltInsn(f[s + i], code[s + i]);
    }
  }

  /** Every common block with events, once its instructions are recorded (a call of the next block aside). */
  lemma {:induction false} SplitIsGood<W(!new)>(x: Env, code: seq<B.Insn>, targets: set<nat>, m: seq<B.Mark>,
                                                f: seq<Place<W>>, s: nat, e: nat)
    requires B.Linked(code) && B.Split(code, targets, m) && Built(code, m, f) && x.base in NON_SCRATCH
    requires s < e <= |m| && B.IsBlock(m, s, e) && m[s].type_.Common?
    requires forall k :: s <= k < e ==> !code[k].kind.CallRel?
    requires forall k :: s <= k < e && f[k].source.Plain? ==>
             GoodPlain(x, f[k], B.EventsIn(code, s, k), B.SlotsIn(code, s, k))
    ensures GoodBlock(x, f, s, e)
    ensures m[s].info == Some(R.EventSum(Ops(f, s, e)))
  {
    hide B.IsBlock, B.CutBefore, B.MarkedBy, B.Separate, B.TypeOf, GoodPlain, B.Linked, Inside, BuiltInsn, BuiltBlock,
         GoodPlace,
         R.SlotSum, R.EventSum;
    assert B.BlockIsGood(code, m, s, e);
    assert BuiltBlock(m, f, s, e);
    SameOps(code, m, f, s, e);
    forall k | s <= k < e
      ensures GoodPlace(x, f, s, k, e)
    {
      PlaceIsGood(x, code, m, f, s, k, e);
    }
  }

  lemma {:induction false} PlaceIsGood<W(!new)>(x: Env, code: seq<B.Insn>, m: seq<B.Mark>, f: seq<Place<W>>, s: nat,
                                                k: nat, e: nat)
    requires B.Linked(code) && Built(code, m, f) && s <= k < e <= |m|
    requires B.BlockIsGood(code, m, s, e) && BuiltBlock(m, f, s, e) && m[s].type_.Common? && !code[k].kind.CallRel?
    requires f[k].source.Plain? ==> GoodPlain(x, f[k], B.EventsIn(code, s, k), B.SlotsIn(code, s, k))
    ensures GoodPlace(x, f, s, k, e)
  {
    hide B.IsBlock, B.Separate, B.TypeOf, GoodPlain, B.Linked, Inside, R.SlotSum, R.EventSum;
    assert BuiltInsn(f[k], code[k]);
    SameOps(code, m, f, s, k);
    InsnDecoded(code, k);
    assert m[k].pastLast <==> code[k].dest.Some? && code[k].dest.value >= e;
    assert m[k].pastLast ==> m[s].hasJumpsOut;
  }

  lemma {:induction false} InsnDecoded(code: seq<B.Insn>, k: nat)
    requires B.Linked(code) && k < |code|
    ensures R.Decoded(code[k].op)
    ensures code[k].kind.JumpRel? ==> !code[k].op.tracked
    ensures code[k].dest.Some? ==> code[k].dest.value < |code|
  {
    assert B.DecodedInsn(code[k], |code|);
  }

  /**
   From block creation to the report: a handler called while control passes through a common
   block of a split function reports the events of what the original accesses on its way.
   */
  method SplitBlockReports<W(!new)>(ghost x: Env, ghost code: seq<B.Insn>, ghost targets: set<nat>,
                                    ghost m: seq<B.Mark>, ghost f: seq<Place<W>>, ghost s: nat, ghost e: nat,
                                    ghost o: Orig<W>, ghost c: Cpu<W>, info: R.BlockInfo, st: Storage)
    returns (r: seq<R.Event>)
    requires B.Linked(code) && B.Split(code, targets, m) && Built(code, m, f) && x.base in NON_SCRATCH
    requires s < e <= |m| && B.IsBlock(m, s, e) && m[s].type_.Common?
    requires forall k :: s <= k < e ==> !code[k].kind.CallRel?
    requires forall k :: s <= k < e && f[k].source.Plain? ==>
               GoodPlain(x, f[k], B.EventsIn(code, s, k), B.SlotsIn(code, s, k))
    requires Addressed(x, f) && FitsRun(f, s, e, o) && Rel(o, c, x.base, x.ls) && BlockEnd.Clear(c.ls)
    requires var p := RunFrom(x, Layout(x, f), Pos(f, s), Pos(f, e), c); p.Some? && st in p.value.handled
    requires R.Block(Ops(f, s, e)) && info.Describes(R.AllStatics(Ops(f, s, e))) && Some(info.maxEvents) == m[s].info
    ensures var run := OrigRun(f, s, e, o).trace;
            R.BlockRun(B.Ops(code)[s..e], run) && r == R.Expected(B.Ops(code)[s..e], run)
  {
    hide B.Linked, B.Split, B.IsBlock, Built, GoodPlain, GoodBlock, Addressed, FitsRun, Rel, RunFrom, Layout, Pos,
         OrigRun, R.Expected, R.EventSum;
    SplitIsGood(x, code, targets, m, f, s, e);
    BlockBounds(x, f, s, e);
    SameOps(code, m, f, s, e);
    r := HandlerReports(x, f, s, e, o, c, info, st);
  }

  // ------------------------------------------- the address in a jump out

  lemma {:induction false} StartGrows(t: seq<JumpRelax.Node>, i: nat, j: nat)
    requires i < j <= |t| && forall n :: 0 <= n < |t| ==> t[n].length > 0
    ensures JumpRelax.Start(t, i) < JumpRelax.Start(t, j)
    decreases j
  {
    if i < j - 1 {
      StartGrows(t, i, j - 1);
    }
  }

  /**
   The MOV of a jump out refers to a place strictly after the next instruction, however the nodes
   are encoded: there is at least the jump to the end of the block in between.
   */
  lemma {:induction false} MovRefersAhead<W>(x: Env, f: seq<Place<W>>, k: nat, t: seq<JumpRelax.Node>)
    requires Inside(f) && k < |f| && f[k].source.Jump? && f[k].end.Some? && k < f[k].source.dest
    requires |t| == Pos(f, |f|) && forall n :: 0 <= n < |t| ==> t[n].length > 0
    ensures var mov: int := Ref(f, k) - 1; var list := Layout(x, f);
            && 0 <= mov < |list| && list[mov].op.StoreDest? && Linked(list, mov) && Dest(list, mov) <= |t|
            && var d := JumpRelax.Start(t, Dest(list, mov)) - (JumpRelax.Start(t, mov) + t[mov].length);
               d > 0 && (JumpRelax.Start(t, |t|) < TWO32 ==> Truncate(d) != 0)
  {
    hide Pos, Layout, Inside, JumpRelax.Start, Dest, Linked, PreLen;
    var dest, mov := f[k].source.dest, Ref(f, k) - 1;
    JumpOutNodes(x, f, k);
    DestInside(f, k);
    PosGrows(f, k, dest);
    PosGrows(f, dest, |f|);
    StartGrows(t, Ref(f, k), Pos(f, dest));
    JumpRelax.NextStart(t, mov);
    if Pos(f, dest) < |t| {
      StartGrows(t, Pos(f, dest), |t|);
    }
  }

  /** Nodes placed from `start` on have addresses of their own. */
  lemma {:induction false} AddressesDiffer(t: seq<JumpRelax.Node>, start: nat, p: nat, q: nat)
    requires p < q <= |t| && start > 0 && forall n :: 0 <= n < |t| ==> t[n].length > 0
    ensures 0 < start + JumpRelax.Start(t, p) < start + JumpRelax.Start(t, q)
  {
    StartGrows(t, p, q);
  }

  lemma {:induction false} DestInside<W>(f: seq<Place<W>>, k: nat)
    requires Inside(f) && k < |f| && f[k].source.Jump?
    ensures f[k].source.dest < |f|
  {
  }
}
