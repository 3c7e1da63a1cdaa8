/**
 Whole runs of a split function: the blocks that block creation has made are the stretches of
 BlockWalks, so from the marks alone the reports follow, block after block.
 */
module SplitWalks {
  import opened Basics
  import opened Machine
  import opened ReleaseBase
  import opened FlatCode
  import opened BlockLayout
  import opened BlockPaths
  import opened BlockWalks
  import opened SplitBlocks
  import B = Blocks
  import BlockEnd
  import R = BlockRecord

  /** A call of an instruction of the same function is not a step inside a block. */
  ghost predicate NoCallsIn(code: seq<B.Insn>, s: nat, e: nat)
    requires s <= e <= |code|
  {
    forall k :: s <= k < e ==> !code[k].kind.CallRel?
  }

  /** The stretch that instruction `k` belongs to, by the type of its block. */
  ghost function PartOf(code: seq<B.Insn>, m: seq<B.Mark>, k: nat): (p: Part)
    requires |m| == |code| > 0 && m[0].starts
    ensures p.InBlock? ==> k < |m| && p.s <= k < p.e <= |m| && B.IsBlock(m, p.s, p.e) && m[p.s].type_.Common? &&
                           NoCallsIn(code, p.s, p.e)
  {
    if k >= |m| then Elsewhere
    else
      var s := B.BlockStartOf(m, k);
      var e := B.BlockEndOf(m, s);
      if m[s].type_.Common? && NoCallsIn(code, s, e) then InBlock(s, e)
      else if (m[s].type_.CommonNoMem? || m[s].type_.Backwards?) && !code[k].kind.CallRel? then Free
      else Elsewhere
  }

  ghost function Parts(code: seq<B.Insn>, m: seq<B.Mark>): nat -> Part
    requires |m| == |code| > 0 && m[0].starts
  {
    (k: nat) => PartOf(code, m, k)
  }

  /** Nothing is added for the instruction where its block has no events. */
  ghost predicate BuiltFree<W>(code: seq<B.Insn>, m: seq<B.Mark>, f: seq<Place<W>>)
    requires |f| == |m| == |code| > 0 && m[0].starts
  {
    forall k: nat :: k < |f| && PartOf(code, m, k).Free? ==> f[k].tail.NoTail? && f[k].end.None?
  }

  /** Every instruction was replaced by code that does the same, and records it where its block has events. */
  ghost predicate AllGood<W(!new)>(x: Env, code: seq<B.Insn>, m: seq<B.Mark>, f: seq<Place<W>>)
    requires |f| == |m| == |code| > 0 && m[0].starts
  {
    forall k: nat :: k < |f| && f[k].source.Plain? ==> GoodOne(x, code, m, f, k)
  }

  ghost predicate GoodOne<W(!new)>(x: Env, code: seq<B.Insn>, m: seq<B.Mark>, f: seq<Place<W>>, k: nat)
    requires |f| == |m| == |code| > 0 && m[0].starts && k < |f|
  {
    match PartOf(code, m, k)
    case InBlock(s, e) => GoodPlain(x, f[k], B.EventsIn(code, s, k), B.SlotsIn(code, s, k))
    case Free => GoodPlain(x, Plainly(f[k]), 0, 0)
    case Elsewhere => true
  }

  /** A function that was split, and instrumented as its marks say. */
  ghost predicate Instrumented<W(!new)>(x: Env, code: seq<B.Insn>, targets: set<nat>, m: seq<B.Mark>,
                                        f: seq<Place<W>>)
  {
    && B.Linked(code) && B.Split(code, targets, m) && Built(code, m, f) && BuiltFree(code, m, f)
    && x.base in NON_SCRATCH && Addressed(x, f) && AllGood(x, code, m, f)
  }

  lemma {:induction false} SameBlock(code: seq<B.Insn>, m: seq<B.Mark>, s: nat, k: nat, e: nat)
    requires |m| == |code| > 0 && m[0].starts && s <= k < e && B.IsBlock(m, s, e)
    requires m[s].type_.Common? && NoCallsIn(code, s, e)
    ensures PartOf(code, m, k) == InBlock(s, e)
  {
    assert B.BlockStartOf(m, k) == s;
    assert B.BlockEndOf(m, s) == e;
  }

  /** The blocks of a split function are what BlockWalks is about. */
  lemma {:induction false} PartsAreGood<W(!new)>(x: Env, code: seq<B.Insn>, targets: set<nat>, m: seq<B.Mark>,
                                                 f: seq<Place<W>>)
    requires Instrumented(x, code, targets, m, f)
    ensures |m| == |code| > 0 && m[0].starts
    ensures GoodParts(x, f, Parts(code, m))
  {
    hide B.Linked, B.BlockIsGood, B.IsBlock, GoodPlain, GoodBlock, Addressed, PartOf, Inside, NoCallsIn;
    forall k | 0 <= k < |f|
      ensures GoodPart(x, f, Parts(code, m), k)
    {
      PartIsGood(x, code, targets, m, f, k);
    }
  }

  lemma {:induction false} PartIsGood<W(!new)>(x: Env, code: seq<B.Insn>, targets: set<nat>, m: seq<B.Mark>,
                                               f: seq<Place<W>>, k: nat)
    requires Instrumented(x, code, targets, m, f) && k < |f|
    ensures |m| == |code| > 0 && m[0].starts
    ensures GoodPart(x, f, Parts(code, m), k)
  {
    hide B.Linked, B.BlockIsGood, B.IsBlock, GoodPlain, GoodBlock, Addressed, PartOf, Inside, NoCallsIn;
    var p := PartOf(code, m, k);
    if p.InBlock? {
      BlockIsGood(x, code, targets, m, f, p.s, p.e);
    } else if p.Free? && f[k].source.Plain? {
      assert GoodOne(x, code, m, f, k);
    }
  }

  lemma {:induction false} BlockIsGood<W(!new)>(x: Env, code: seq<B.Insn>, targets: set<nat>, m: seq<B.Mark>,
                                                f: seq<Place<W>>, s: nat, e: nat)
    requires Instrumented(x, code, targets, m, f) && B.IsBlock(m, s, e) && m[s].type_.Common? && e <= |code|
    requires NoCallsIn(code, s, e)
    ensures GoodBlock(x, f, s, e) && m[s].info == Some(R.EventSum(Ops(f, s, e)))
  {
    hide B.Linked, B.BlockIsGood, GoodPlain, GoodBlock, Addressed, PartOf, Inside, R.EventSum;
    forall k | s <= k < e && f[k].source.Plain?
      ensures GoodPlain(x, f[k], B.EventsIn(code, s, k), B.SlotsIn(code, s, k))
    {
      SameBlock(code, m, s, k, e);
      assert GoodOne(x, code, m, f, k);
    }
    SplitIsGood(x, code, targets, m, f, s, e);
  }

  /**
   After any number of blocks of a split function, entered at any instruction, control is at the
   node of the instruction that the original is at.
   */
  lemma {:induction false} SplitFollows<W(!new)>(x: Env, code: seq<B.Insn>, targets: set<nat>, m: seq<B.Mark>,
                                                 f: seq<Place<W>>, k: nat, o: Orig<W>, c: Cpu<W>, n: nat)
    requires Instrumented(x, code, targets, m, f) && k <= |f|
    requires Rel(o, c, x.base, x.ls) && BlockEnd.Clear(c.ls) && FitsWalk(f, Parts(code, m), k, o, n)
    ensures var part := Parts(code, m);
            Follows(x, f, Walk(f, part, k, o, n), March(x, Layout(x, f), Ends(f, part), Pos(f, k), c, n))
  {
    hide Instrumented, Rel, FitsWalk, Follows, Walk, March, Layout, Pos, Parts, GoodParts, EndsAt, Ends, BlockEnd.Clear;
    PartsAreGood(x, code, targets, m, f);
    EndsAreRight(f, Parts(code, m));
    MarchFollows(x, f, Parts(code, m), Ends(f, Parts(code, m)), k, o, c, n);
  }

  // -------------------------------------------------------------- the reports

  /** The information of every common block, where the handler finds it. */
  ghost predicate AllInfos<W>(m: seq<B.Mark>, f: seq<Place<W>>, infos: map<Word, R.BlockInfo>)
    requires |f| == |m|
    reads infos.Values, set i | i in infos.Values :: i.events
  {
    forall s: nat, e: nat :: B.IsBlock(m, s, e) && m[s].type_.Common? ==> HasInfo(f, s, e, m[s].info, infos)
  }

  ghost predicate HasInfo<W>(f: seq<Place<W>>, s: nat, e: nat, events: Option<nat>, infos: map<Word, R.BlockInfo>)
    requires s < e <= |f|
    reads infos.Values, set i | i in infos.Values :: i.events
  {
    var tail, ops := f[e - 1].tail, Ops(f, s, e);
    !tail.NoTail? && R.Block(ops) ==>
      && tail.info in infos
      && infos[tail.info].Describes(R.AllStatics(ops)) && Some(infos[tail.info].maxEvents) == events
  }

  /** Every visit is to a common block. */
  lemma {:induction false} VisitsAreBlocks<W>(f: seq<Place<W>>, part: nat -> Part, k: nat, o: Orig<W>, n: nat, j: nat)
    returns (i: nat)
    requires j < |Walk(f, part, k, o, n).visits|
    ensures i < |f| && var v := Walk(f, part, k, o, n).visits[j]; part(i) == InBlock(v.s, v.e)
    decreases n
  {
    hide OrigRun;
    if part(k).Free? {
      i := VisitsAreBlocks(f, part, FreeNext(f[k], k, o), FreeEffect(f[k], o), n - 1, j);
    } else if j == 0 {
      i := k;
    } else {
      var r := OrigRun(f, k, part(k).e, o);
      i := VisitsAreBlocks(f, part, r.next, r.o, n - 1, j - 1);
    }
  }

  lemma {:induction false} BlockInformed<W(!new)>(x: Env, f: seq<Place<W>>, v: Visit, infos: map<Word, R.BlockInfo>)
    requires GoodBlock(x, f, v.s, v.e) && HasInfo(f, v.s, v.e, Some(R.EventSum(Ops(f, v.s, v.e))), infos)
    ensures Informed(f, v, infos)
  {
    hide GoodPlain, GoodJump, Inside, R.EventSum, R.AllStatics;
    assert GoodPlace(x, f, v.s, v.e - 1, v.e);
    OpsDecoded(x, f, v.s, v.s, v.e, v.e);
  }

  lemma {:induction false} VisitInformed<W(!new)>(x: Env, code: seq<B.Insn>, targets: set<nat>, m: seq<B.Mark>,
                                                  f: seq<Place<W>>, k: nat, o: Orig<W>, n: nat, j: nat,
                                                  infos: map<Word, R.BlockInfo>)
    requires Instrumented(x, code, targets, m, f) && AllInfos(m, f, infos)
    requires j < |Walk(f, Parts(code, m), k, o, n).visits|
    ensures Informed(f, Walk(f, Parts(code, m), k, o, n).visits[j], infos)
  {
    hide Instrumented, GoodBlock, HasInfo, Informed, PartOf, R.EventSum, Walk, NoCallsIn;
    PartsAreGood(x, code, targets, m, f);
    var i := VisitsAreBlocks(f, Parts(code, m), k, o, n, j);
    var v := Walk(f, Parts(code, m), k, o, n).visits[j];
    assert PartOf(code, m, i) == InBlock(v.s, v.e);
    BlockIsGood(x, code, targets, m, f, v.s, v.e);
    BlockBounds(x, f, v.s, v.e);
    assert HasInfo(f, v.s, v.e, m[v.s].info, infos);
    BlockInformed(x, f, v, infos);
  }

  /**
   From block creation to the reports of a whole run: over any number of blocks the handlers
   report the events of the original's accesses, in the order of the blocks it passes through.
   */
  method SplitFunctionReports<W(!new)>(ghost x: Env, ghost code: seq<B.Insn>, ghost targets: set<nat>,
                                       ghost m: seq<B.Mark>, ghost f: seq<Place<W>>, ghost k: nat, ghost o: Orig<W>,
                                       ghost c: Cpu<W>, ghost n: nat, infos: map<Word, R.BlockInfo>,
                                       handled: seq<Storage>)
    returns (r: seq<R.Event>)
    requires Instrumented(x, code, targets, m, f) && k <= |f| && AllInfos(m, f, infos)
    requires Rel(o, c, x.base, x.ls) && BlockEnd.Clear(c.ls) && FitsWalk(f, Parts(code, m), k, o, n)
    requires var p := March(x, Layout(x, f), Ends(f, Parts(code, m)), Pos(f, k), c, n);
             p.Some? && handled == p.value.handled
    ensures var visits := Walk(f, Parts(code, m), k, o, n).visits;
            (forall j :: 0 <= j < |visits| ==> Readable(f, visits[j])) && r == AllExpected(f, visits)
  {
    hide Instrumented, AllInfos, Rel, FitsWalk, Walk, March, Layout, Pos, Parts, Ends, BlockEnd.Clear, Informed,
         AllExpected, Readable, AllTold;
    PartsAreGood(x, code, targets, m, f);
    SplitFollows(x, code, targets, m, f, k, o, c, n);
    ghost var visits := Walk(f, Parts(code, m), k, o, n).visits;
    forall j | 0 <= j < |visits|
      ensures Informed(f, visits[j], infos)
    {
      VisitInformed(x, code, targets, m, f, k, o, n, j, infos);
    }
    r := ReportWalk(f, visits, handled, infos);
  }
}
