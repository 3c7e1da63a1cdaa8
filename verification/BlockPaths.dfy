/**
 All ways through a common block, from what block creation guarantees to the events that the
 handler reports.
 */
module BlockPaths {
  import opened Basics
  import opened Machine
  import opened ReleaseBase
  import opened BlockEnd
  import opened FlatCode
  import opened BlockLayout
  import R = BlockRecord

  // ------------------------------------------------------ what is recorded

  ghost function Ops<W>(f: seq<Place<W>>, s: nat, e: nat): (r: seq<R.Op>)
    requires s <= e <= |f|
    ensures |r| == e - s && forall i :: 0 <= i < e - s ==> r[i] == f[s + i].op
  {
    seq(e - s, i requires 0 <= i < e - s => f[s + i].op)
  }

  /** The storage holds the accesses `run` of the operations. */
  ghost predicate Recorded(ops: seq<R.Op>, run: seq<R.Access>, st: Storage) {
    && R.BlockRun(ops, run)
    && R.HoldsIn(st.values, st.writeMask, R.Slots(R.AllStatics(ops), R.AllDynamics(ops, run)), R.AllDynamics(ops, run))
  }

  lemma {:induction false} RecordedStart(st: Storage)
    requires Clear(st)
    ensures Recorded([], [], st)
  {
  }

  /** The code around an operation has left its access in the slots from `nval` on. */
  ghost predicate Notes(op: R.Op, a: R.Access, num: nat, nval: nat, st: Storage, st': Storage) {
    if !op.tracked then st'.values == st.values && st'.writeMask == st.writeMask && a.Skipped?
    else
      && R.Possible(op, a) && nval + R.Width(a) <= MAX_VALUES
      && st'.values == R.RecordedValues(st.values, nval, a) && st'.writeMask == R.RecordedMask(st.writeMask, num, a)
  }

  lemma {:induction false} RecordedOne(ops: seq<R.Op>, run: seq<R.Access>, op: R.Op, a: R.Access, st: Storage,
                                       st': Storage)
    requires Recorded(ops, run, st) && R.Decoded(op) && R.SlotSum(ops) + R.SlotCount(op) <= MAX_VALUES
    requires Notes(op, a, R.EventSum(ops), R.SlotSum(ops), st, st')
    ensures Recorded(ops + [op], run + [a], st')
  {
    hide R.HoldsIn, R.Slots, R.AllStatics, R.AllDynamics, R.EventSum, R.SlotSum, R.Statics, R.Dynamics,
         R.RecordedValues,
         R.RecordedMask;
    var n := |ops|;
    var ops', run' := ops + [op], run + [a];
    assert ops'[..n] == ops && run'[..n] == run && ops'[..n + 1] == ops' && run'[..n + 1] == run';
    R.NextRun(ops', run', n);
    var s, d := R.AllStatics(ops), R.AllDynamics(ops, run);
    if op.tracked {
      R.RecordedHolds(op, R.Probe(|d|, |R.Slots(s, d)|), a, st.values, st.writeMask, s, d);
    }
  }

  function Skips(n: nat): seq<R.Access> { seq(n, _ => R.Skipped) }

  lemma {:induction false} SumGrows(ops: seq<R.Op>, more: seq<R.Op>)
    ensures R.SlotSum(ops) <= R.SlotSum(ops + more)
    decreases |more|
  {
    if more == [] {
      assert ops + more == ops;
    } else {
      var n := |more| - 1;
      assert (ops + more)[..|ops| + n] == ops + more[..n];
      SumGrows(ops, more[..n]);
    }
  }

  /** Operations that are not executed have zero slots already. */
  lemma {:induction false} RecordedSkip(ops: seq<R.Op>, run: seq<R.Access>, more: seq<R.Op>, st: Storage)
    requires Recorded(ops, run, st) && R.Block(more) && R.SlotSum(ops + more) <= MAX_VALUES
    ensures Recorded(ops + more, run + Skips(|more|), st)
    decreases |more|
  {
    hide Recorded, R.SlotSum;
    if more == [] {
      assert ops + more == ops && run + Skips(0) == run;
    } else {
      var n := |more| - 1;
      assert more == more[..n] + [more[n]] && ops + more == ops + more[..n] + [more[n]];
      assert Skips(|more|) == Skips(n) + [R.Skipped];
      assert run + Skips(|more|) == run + Skips(n) + [R.Skipped];
      SumGrows(ops + more[..n], [more[n]]);
      RecordedSkip(ops, run, more[..n], st);
      LastSum(ops + more[..n], more[n]);
      SkipNotes(more[n], R.EventSum(ops + more[..n]), R.SlotSum(ops + more[..n]), st);
      RecordedOne(ops + more[..n], run + Skips(n), more[n], R.Skipped, st, st);
    }
  }

  lemma {:induction false} LastSum(ops: seq<R.Op>, op: R.Op)
    ensures R.SlotSum(ops + [op]) == R.SlotSum(ops) + R.SlotCount(op)
    ensures R.EventSum(ops + [op]) == R.EventSum(ops) + R.EventCount(op)
  {
    assert (ops + [op])[..|ops|] == ops;
  }

  lemma {:induction false} SkipNotes(op: R.Op, num: nat, nval: nat, st: Storage)
    requires nval <= MAX_VALUES
    ensures Notes(op, R.Skipped, num, nval, st, st)
  {
  }

  // ------------------------------------------------------------- good blocks

  function AccessOf<W>(p: Place<W>, o: Orig<W>): R.Access
    requires p.source.Plain?
  {
    if p.op.tracked then p.source.access(o) else R.Skipped
  }

  /** The instrumented instruction does what the original does, records its access and leaves `dest_addr` alone. */
  ghost predicate GoodStep<W>(x: Env, p: Place<W>, num: nat, nval: nat, o: Orig<W>, c: Cpu<W>)
    requires p.source.Plain?
  {
    var r := RunPlain(p.source, c, x.ls);
    && r.Some? && Rel(p.source.effect(o), r.value, x.base, x.ls)
    && r.value.ls.destAddr == c.ls.destAddr && Notes(p.op, AccessOf(p, o), num, nval, c.ls, r.value.ls)
  }

  ghost predicate GoodPlain<W(!new)>(x: Env, p: Place<W>, num: nat, nval: nat) {
    && p.source.Plain? && NoCalls(p.source.pre) && NoCalls(p.source.post)
    && forall o: Orig<W>, c: Cpu<W> :: p.source.fits(o) && Rel(o, c, x.base, x.ls) ==> GoodStep(x, p, num, nval, o, c)
  }

  /**
   A jump goes forward; if it leaves the block, its nodes go to the end of the block, where its
   destination is dispatched.
   */
  ghost predicate GoodJump<W>(f: seq<Place<W>>, k: nat, e: nat)
    requires k < e <= |f|
  {
    && f[k].source.Jump? && !f[k].op.tracked && k < f[k].source.dest < |f|
    && f[k].end == (if f[k].source.dest >= e then Some(e - 1) else None)
    && (f[k].end.Some? ==> f[e - 1].tail.Dispatch?)
  }

  ghost predicate GoodPlace<W(!new)>(x: Env, f: seq<Place<W>>, s: nat, k: nat, e: nat)
    requires s <= k < e <= |f|
  {
    && R.Decoded(f[k].op) && (f[k].tail.NoTail? <==> k != e - 1)
    && if f[k].source.Plain? then GoodPlain(x, f[k], R.EventSum(Ops(f, s, k)), R.SlotSum(Ops(f, s, k)))
       else GoodJump(f, k, e)
  }

  /** The block from `s` to `e`. */
  ghost predicate GoodBlock<W(!new)>(x: Env, f: seq<Place<W>>, s: nat, e: nat) {
    && Inside(f) && s < e <= |f| && x.base in NON_SCRATCH && R.SlotSum(Ops(f, s, e)) <= MAX_VALUES
    && forall k :: s <= k < e ==> GoodPlace(x, f, s, k, e)
  }

  /** The nodes have addresses of their own, none of them 0. */
  ghost predicate Addressed<W>(x: Env, f: seq<Place<W>>) {
    forall d: nat :: d <= |f| ==> x.address(Pos(f, d)) != 0 && x.labels(x.address(Pos(f, d))) == Pos(f, d)
  }

  // ------------------------------------------------------------ the original

  /** Where the original leaves the block, and what each instruction from there on has accessed. */
  datatype Outcome<W> = Outcome(o: Orig<W>, next: nat, trace: seq<R.Access>)

  ghost function OrigRun<W>(f: seq<Place<W>>, k: nat, e: nat, o: Orig<W>): (r: Outcome<W>)
    requires e <= |f|
    ensures k <= e ==> |r.trace| == e - k
    decreases e - k
  {
    if k >= e then Outcome(o, k, [])
    else
      var s := f[k].source;
      if s.Plain? then
        var r := OrigRun(f, k + 1, e, s.effect(o));
        r.(trace := [AccessOf(f[k], o)] + r.trace)
      else if !Taken(s.cond, o.flags) then
        var r := OrigRun(f, k + 1, e, o);
        r.(trace := Skips(1) + r.trace)
      else if s.dest <= k || s.dest >= e then Outcome(o, s.dest, Skips(e - k))
      else
        var r := OrigRun(f, s.dest, e, o);
        r.(trace := Skips(s.dest - k) + r.trace)
  }

  /** Every executed instruction finds a state that it fits. */
  ghost predicate FitsRun<W>(f: seq<Place<W>>, k: nat, e: nat, o: Orig<W>)
    requires e <= |f|
    decreases e - k
  {
    k >= e ||
    var s := f[k].source;
    if s.Plain? then s.fits(o) && FitsRun(f, k + 1, e, s.effect(o))
    else if !Taken(s.cond, o.flags) then FitsRun(f, k + 1, e, o)
    else s.dest <= k || FitsRun(f, s.dest, e, o)
  }

  // ------------------------------------------------------------ the theorem

  /** Where the nodes from instruction `k` on start; after the last one, the code of the block end. */
  ghost function Entry<W>(f: seq<Place<W>>, k: nat, e: nat): nat
    requires k <= e <= |f| && e > 0
  {
    if k < e then Pos(f, k) else Last(f, e - 1) + 1
  }

  lemma {:induction false} EntryNext<W(!new)>(x: Env, f: seq<Place<W>>, s: nat, k: nat, e: nat)
    requires GoodBlock(x, f, s, e) && s <= k < e
    ensures Last(f, k) + 1 == Entry(f, k + 1, e) && Last(f, k) < Pos(f, e) <= Pos(f, |f|)
  {
    hide GoodPlain, GoodJump, MainLen, PreLen, TailLen;
    assert GoodPlace(x, f, s, k, e);
    TailIsNone(f[k].tail);
    PosGrows(f, k, e);
    PosGrows(f, e, |f|);
  }

  lemma {:induction false} TailIsNone(t: Tail)
    ensures t.NoTail? ==> TailLen(t) == 0
  {
  }

  lemma {:induction false} NextOps<W>(f: seq<Place<W>>, s: nat, k: nat, d: nat)
    requires s <= k <= d <= |f|
    ensures Ops(f, s, d) == Ops(f, s, k) + Ops(f, k, d)
    ensures k < d ==> Ops(f, k, k + 1) == [f[k].op]
  {
  }

  lemma {:induction false} SlotsFit<W(!new)>(x: Env, f: seq<Place<W>>, s: nat, d: nat, e: nat)
    requires GoodBlock(x, f, s, e) && s <= d <= e
    ensures R.SlotSum(Ops(f, s, d)) <= MAX_VALUES
  {
    hide GoodPlace;
    NextOps(f, s, d, e);
    SumGrows(Ops(f, s, d), Ops(f, d, e));
  }

  lemma {:induction false} OpsDecoded<W(!new)>(x: Env, f: seq<Place<W>>, s: nat, k: nat, d: nat, e: nat)
    requires GoodBlock(x, f, s, e) && s <= k <= d <= e
    ensures R.Block(Ops(f, k, d))
  {
    hide GoodPlain, GoodJump;
    forall i | 0 <= i < d - k
      ensures R.Decoded(Ops(f, k, d)[i])
    {
      assert GoodPlace(x, f, s, k + i, e);
    }
  }

  /** From instruction `k` to instruction `d` nothing is executed. */
  lemma {:induction false} SkipTo<W(!new)>(x: Env, f: seq<Place<W>>, s: nat, k: nat, d: nat, e: nat,
                                           run: seq<R.Access>, st: Storage)
    requires GoodBlock(x, f, s, e) && s <= k <= d <= e && Recorded(Ops(f, s, k), run, st)
    ensures Recorded(Ops(f, s, d), run + Skips(d - k), st)
  {
    hide GoodBlock, Recorded;
    BlockBounds(x, f, s, e);
    NextOps(f, s, k, d);
    OpsDecoded(x, f, s, k, d, e);
    SlotsFit(x, f, s, d, e);
    RecordedSkip(Ops(f, s, k), run, Ops(f, k, d), st);
  }

  /** One instruction executed. */
  lemma {:induction false} PlainStep<W(!new)>(x: Env, f: seq<Place<W>>, s: nat, k: nat, e: nat, o: Orig<W>, c: Cpu<W>,
                                              run: seq<R.Access>)
    requires GoodBlock(x, f, s, e) && s <= k < e && f[k].source.Plain? && f[k].source.fits(o)
    requires Rel(o, c, x.base, x.ls) && Recorded(Ops(f, s, k), run, c.ls)
    ensures var r := RunPlain(f[k].source, c, x.ls);
            && r.Some? && Rel(f[k].source.effect(o), r.value, x.base, x.ls) && r.value.ls.destAddr == c.ls.destAddr
            && Recorded(Ops(f, s, k + 1), run + [AccessOf(f[k], o)], r.value.ls)
    ensures NoCalls(f[k].source.pre) && NoCalls(f[k].source.post)
  {
    hide RunPlain, Rel, Recorded, Notes, GoodJump, NoCalls, R.SlotSum, R.EventSum;
    assert GoodPlace(x, f, s, k, e);
    assert GoodStep(x, f[k], R.EventSum(Ops(f, s, k)), R.SlotSum(Ops(f, s, k)), o, c);
    NextOps(f, s, k, k + 1);
    LastSum(Ops(f, s, k), f[k].op);
    SlotsFit(x, f, s, k + 1, e);
    RecordedOne(Ops(f, s, k), run, f[k].op, AccessOf(f[k], o), c.ls, RunPlain(f[k].source, c, x.ls).value.ls);
  }

  /** At the end of the block, with the destination stored by a jump to instruction `d`, or none. */
  lemma {:induction false} AtEnd<W(!new)>(x: Env, f: seq<Place<W>>, s: nat, e: nat, d: nat, o: Orig<W>, c: Cpu<W>)
    returns (st: Storage)
    requires GoodBlock(x, f, s, e) && Addressed(x, f) && Rel(o, c, x.base, x.ls) && e <= d <= |f|
    requires (d == e && c.ls.destAddr == 0) || (f[e - 1].tail.Dispatch? && c.ls.destAddr == x.address(Pos(f, d)))
    ensures Left(x, RunFrom(x, Layout(x, f), Entry(f, e, e), Pos(f, e), c), o, Pos(f, d), st)
    ensures !f[e - 1].tail.NoTail? && Passes(st, c.ls, f[e - 1].tail.info)
  {
    hide RunFrom, Rel, Left, Passes, GoodPlain, GoodJump, Pos, Layout, Inside, MainLen, TailLen;
    assert GoodPlace(x, f, s, e - 1, e);
    PosGrows(f, e, |f|);
    if f[e - 1].tail.Dispatch? {
      st := RunTail(x, f, e - 1, d, o, c);
    } else {
      st := RunHandler(x, f, e - 1, o, c);
    }
  }

  lemma {:induction false} SameRecord(ops: seq<R.Op>, run: seq<R.Access>, a: Storage, b: Storage, info: Word)
    requires Recorded(ops, run, a) && Passes(b, a, info)
    ensures Recorded(ops, run, b) && b.info == info
  {
  }

  /** The nodes from instruction `k` on do what the original does, `run` having been accessed before. */
  ghost predicate Does<W>(x: Env, f: seq<Place<W>>, s: nat, k: nat, e: nat, o: Orig<W>, c: Cpu<W>, run: seq<R.Access>,
                          st: Storage)
    requires Inside(f) && s <= k <= e <= |f| && s < e
  {
    var r := OrigRun(f, k, e, o);
    && e <= r.next <= |f|
    && Left(x, RunFrom(x, Layout(x, f), Entry(f, k, e), Pos(f, e), c), r.o, Pos(f, r.next), st)
    && !f[e - 1].tail.NoTail? && st.info == f[e - 1].tail.info
    && Recorded(Ops(f, s, e), run + r.trace, st)
  }

  /** What holds from instruction `d` on holds from `k` on if the one leads to the other. */
  lemma {:induction false} StepsBack<W>(x: Env, f: seq<Place<W>>, s: nat, k: nat, d: nat, e: nat, o: Orig<W>,
                                        c: Cpu<W>, o': Orig<W>, c': Cpu<W>,
                     run: seq<R.Access>, more: seq<R.Access>, st: Storage)
    requires Inside(f) && s <= k <= d <= e <= |f| && s < e && Does(x, f, s, d, e, o', c', run + more, st)
    requires var r, r' := OrigRun(f, k, e, o), OrigRun(f, d, e, o'); r == r'.(trace := more + r'.trace)
    requires var list := Layout(x, f);
                 RunFrom(x, list, Entry(f, k, e), Pos(f, e), c) == RunFrom(x, list, Entry(f, d, e), Pos(f, e), c')
    ensures Does(x, f, s, k, e, o, c, run, st)
  {
    hide RunFrom, Layout, Pos, Inside, Recorded, OrigRun, Entry, Left;
    assert run + more + OrigRun(f, d, e, o').trace == run + OrigRun(f, k, e, o).trace;
  }

  /**
   Every way through the nodes of a block, from any instruction of it: the handler is called
   once, with the information of the block and with exactly the accesses of the original's run
   in the storage; control leaves for the node of the instruction that the original continues
   with, in the original's state and with a clear storage.
   */
  lemma {:induction false} BlockRuns<W(!new)>(x: Env, f: seq<Place<W>>, s: nat, k: nat, e: nat, o: Orig<W>, c: Cpu<W>,
                                              run: seq<R.Access>) returns (st: Storage)
    requires GoodBlock(x, f, s, e) && Addressed(x, f) && s <= k <= e
    requires Rel(o, c, x.base, x.ls) && c.ls.destAddr == 0 && FitsRun(f, k, e, o)
    requires |run| == k - s && Recorded(Ops(f, s, k), run, c.ls)
    ensures Does(x, f, s, k, e, o, c, run, st)
    decreases e - k
  {
    hide RunFrom, Rel, Does, GoodBlock, Addressed, Pos, Layout, Inside, Recorded, RunPlain, MainLen, Entry;
    BlockBounds(x, f, s, e);
    if k == e {
      st := LeavesAt(x, f, s, e, e, e, o, c, c, run);
      return;
    }
    var src := f[k].source;
    if src.Plain? {
      PlainStep(x, f, s, k, e, o, c, run);
      PlainMoves(x, f, s, k, e, c);
      var c' := RunPlain(src, c, x.ls).value;
      st := BlockRuns(x, f, s, k + 1, e, src.effect(o), c', run + [AccessOf(f[k], o)]);
      StepsBack(x, f, s, k, k + 1, e, o, c, src.effect(o), c', run, [AccessOf(f[k], o)], st);
      return;
    }
    SameFlags(o, c, x.base, x.ls);
    JumpIsGood(x, f, s, k, e);
    JumpMoves(x, f, s, k, e, o, c);
    var d := if Taken(src.cond, c.flags) then src.dest else k + 1;
    if !Taken(src.cond, c.flags) || d < e {
      SkipTo(x, f, s, k, d, e, run, c.ls);
      st := BlockRuns(x, f, s, d, e, o, c, run + Skips(d - k));
      StepsBack(x, f, s, k, d, e, o, c, o, c, run, Skips(d - k), st);
    } else {
      st := LeavesAt(x, f, s, k, e, d, o, c, c.(ls := c.ls.(destAddr := x.address(Pos(f, d)))), run);
    }
  }

  lemma {:induction false} PlainMoves<W(!new)>(x: Env, f: seq<Place<W>>, s: nat, k: nat, e: nat, c: Cpu<W>)
    requires GoodBlock(x, f, s, e) && s <= k < e && f[k].source.Plain? && RunPlain(f[k].source, c, x.ls).Some?
    ensures var list := Layout(x, f); var c' := RunPlain(f[k].source, c, x.ls).value;
            RunFrom(x, list, Entry(f, k, e), Pos(f, e), c) == RunFrom(x, list, Entry(f, k + 1, e), Pos(f, e), c')
  {
    hide RunFrom, GoodBlock, Pos, Layout, Inside, RunPlain, NoCalls, MainLen;
    BlockBounds(x, f, s, e);
    EntryNext(x, f, s, k, e);
    NoCallsAround(x, f, s, k, e);
    RunInsn(x, f, k, Pos(f, e), c);
  }

  lemma {:induction false} NoCallsAround<W(!new)>(x: Env, f: seq<Place<W>>, s: nat, k: nat, e: nat)
    requires GoodBlock(x, f, s, e) && s <= k < e && f[k].source.Plain?
    ensures NoCalls(f[k].source.pre) && NoCalls(f[k].source.post)
  {
    hide NoCalls, GoodStep;
    assert GoodPlace(x, f, s, k, e);
  }

  lemma {:induction false} JumpMoves<W(!new)>(x: Env, f: seq<Place<W>>, s: nat, k: nat, e: nat, o: Orig<W>, c: Cpu<W>)
    requires GoodBlock(x, f, s, e) && s <= k < e && GoodJump(f, k, e) && Rel(o, c, x.base, x.ls)
    ensures var list := Layout(x, f); var src := f[k].source;
            RunFrom(x, list, Entry(f, k, e), Pos(f, e), c) ==
            if !Taken(src.cond, c.flags) then RunFrom(x, list, Entry(f, k + 1, e), Pos(f, e), c)
            else if src.dest < e then RunFrom(x, list, Entry(f, src.dest, e), Pos(f, e), c)
            else RunFrom(x, list, Entry(f, e, e), Pos(f, e), c.(ls := c.ls.(destAddr := x.address(Pos(f, src.dest)))))
  {
    hide RunFrom, GoodBlock, Pos, Layout, Inside, MainLen, Rel;
    BlockBounds(x, f, s, e);
    EntryNext(x, f, s, k, e);
    Alive(o, c, x.base, x.ls);
    if f[k].source.dest >= e {
      RunJumpOut(x, f, k, Pos(f, e), c);
    } else {
      RunInnerJump(x, f, k, Pos(f, e), c);
    }
  }

  /** From instruction `k` control has come to the end of the block, on its way to instruction `d`. */
  lemma {:induction false} LeavesAt<W(!new)>(x: Env, f: seq<Place<W>>, s: nat, k: nat, e: nat, d: nat, o: Orig<W>,
                                             c: Cpu<W>, c': Cpu<W>,
                          run: seq<R.Access>) returns (st: Storage)
    requires GoodBlock(x, f, s, e) && Addressed(x, f) && s <= k <= e <= d <= |f|
    requires Rel(o, c, x.base, x.ls) && Recorded(Ops(f, s, k), run, c.ls)
    requires c' == c.(ls := c.ls.(destAddr := c'.ls.destAddr))
    requires (d == e && c'.ls.destAddr == 0) || (f[e - 1].tail.Dispatch? && c'.ls.destAddr == x.address(Pos(f, d)))
    requires OrigRun(f, k, e, o) == Outcome(o, d, Skips(e - k))
    requires var list := Layout(x, f);
                 RunFrom(x, list, Entry(f, k, e), Pos(f, e), c) == RunFrom(x, list, Entry(f, e, e), Pos(f, e), c')
    ensures Does(x, f, s, k, e, o, c, run, st)
  {
    hide RunFrom, Rel, Left, Passes, GoodBlock, Addressed, Pos, Layout, Inside, Recorded, Entry, OrigRun;
    BlockBounds(x, f, s, e);
    StoredRel(o, c, c', x.base, x.ls);
    st := AtEnd(x, f, s, e, d, o, c');
    SkipTo(x, f, s, k, e, e, run, c.ls);
    PassesFrom(st, c.ls, c'.ls, f[e - 1].tail.info);
    SameRecord(Ops(f, s, e), run + Skips(e - k), c.ls, st, f[e - 1].tail.info);
  }

  lemma {:induction false} BlockBounds<W(!new)>(x: Env, f: seq<Place<W>>, s: nat, e: nat)
    requires GoodBlock(x, f, s, e)
    ensures s < e <= |f| && Inside(f)
  {
  }

  lemma {:induction false} JumpIsGood<W(!new)>(x: Env, f: seq<Place<W>>, s: nat, k: nat, e: nat)
    requires GoodBlock(x, f, s, e) && s <= k < e && f[k].source.Jump?
    ensures GoodJump(f, k, e)
  {
    hide GoodPlain, GoodJump;
    assert GoodPlace(x, f, s, k, e);
  }

  lemma {:induction false} StoredRel<W>(o: Orig<W>, c: Cpu<W>, c': Cpu<W>, base: Reg, ls: Word)
    requires Rel(o, c, base, ls) && c' == c.(ls := c.ls.(destAddr := c'.ls.destAddr))
    ensures Rel(o, c', base, ls)
  {
  }

  lemma {:induction false} PassesFrom(st: Storage, a: Storage, b: Storage, info: Word)
    requires Passes(st, b, info) && a.values == b.values && a.writeMask == b.writeMask
    ensures Passes(st, a, info)
  {
  }

  // ------------------------------------------------------- and its events

  /** A run of the nodes from the first instruction of the block. */
  ghost predicate Enters<W(!new)>(x: Env, f: seq<Place<W>>, s: nat, e: nat, o: Orig<W>, c: Cpu<W>) {
    && GoodBlock(x, f, s, e) && Addressed(x, f) && FitsRun(f, s, e, o)
    && Rel(o, c, x.base, x.ls) && Clear(c.ls)
  }

  /** The block from its first instruction on. */
  lemma {:induction false} WholeBlock<W(!new)>(x: Env, f: seq<Place<W>>, s: nat, e: nat, o: Orig<W>, c: Cpu<W>)
    returns (st: Storage)
    requires Enters(x, f, s, e, o, c)
    ensures var r := OrigRun(f, s, e, o);
            && e <= r.next <= |f|
            && Left(x, RunFrom(x, Layout(x, f), Pos(f, s), Pos(f, e), c), r.o, Pos(f, r.next), st)
            && !f[e - 1].tail.NoTail? && st.info == f[e - 1].tail.info && Recorded(Ops(f, s, e), r.trace, st)
  {
    hide RunFrom, Rel, Left, GoodBlock, Addressed, Pos, Layout, Inside, Recorded, FitsRun, OrigRun, Clear;
    BlockBounds(x, f, s, e);
    RecordedStart(c.ls);
    ClearDest(c.ls);
    assert Ops(f, s, s) == [];
    st := BlockRuns(x, f, s, s, e, o, c, []);
    assert [] + OrigRun(f, s, e, o).trace == OrigRun(f, s, e, o).trace;
  }

  lemma {:induction false} ClearDest(st: Storage)
    requires Clear(st)
    ensures st.destAddr == 0
  {
  }

  /** A handler that was called during the block, with `st`, reports the events of the original's accesses in order. */
  method HandlerReports<W(!new)>(ghost x: Env, ghost f: seq<Place<W>>, ghost s: nat, ghost e: nat, ghost o: Orig<W>,
                                 ghost c: Cpu<W>, info: R.BlockInfo, st: Storage) returns (r: seq<R.Event>)
    requires Enters(x, f, s, e, o, c)
    requires var p := RunFrom(x, Layout(x, f), Pos(f, s), Pos(f, e), c); p.Some? && st in p.value.handled
    requires R.Block(Ops(f, s, e))
    requires info.Describes(R.AllStatics(Ops(f, s, e))) && info.maxEvents == R.EventSum(Ops(f, s, e))
    ensures var run := OrigRun(f, s, e, o).trace; R.BlockRun(Ops(f, s, e), run) && r == R.Expected(Ops(f, s, e), run)
  {
    hide RunFrom, Rel, GoodBlock, Addressed, Pos, Layout, Inside, FitsRun, OrigRun, Clear;
    ghost var st' := WholeBlock(x, f, s, e, o, c);
    assert st == st';
    r := Report(Ops(f, s, e), OrigRun(f, s, e, o).trace, info, st);
  }

  method Report(ghost ops: seq<R.Op>, ghost run: seq<R.Access>, info: R.BlockInfo, st: Storage)
    returns (r: seq<R.Event>)
    requires Recorded(ops, run, st) && info.Describes(R.AllStatics(ops)) && info.maxEvents == R.EventSum(ops)
    ensures r == R.Expected(ops, run)
  {
    hide R.HoldsIn, R.Slots, R.AllStatics, R.AllDynamics, R.EventSum;
    r := R.ReportSlots(info, st.values, st.writeMask, R.AllStatics(ops), R.AllDynamics(ops, run));
    assert r == R.Expected(ops, run);
  }
}
