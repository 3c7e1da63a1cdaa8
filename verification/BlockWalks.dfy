/**
 Whole runs of an instrumented function through its common blocks, the blocks that are not
 instrumented and the jumps backwards: block by block the machine is where the original is, and
 the handlers report what the original accesses, in order.
 */
module BlockWalks {
  import opened Basics
  import opened Machine
  import opened ReleaseBase
  import opened BlockEnd
  import opened FlatCode
  import opened BlockLayout
  import opened BlockPaths
  import R = BlockRecord

  /** Where an instruction is: in a common block with events, where nothing is added, or elsewhere. */
  datatype Part = InBlock(s: nat, e: nat) | Free | Elsewhere

  /** An instruction as if it were not tracked. */
  ghost function Plainly<W>(p: Place<W>): Place<W> { p.(op := p.op.(tracked := false)) }

  /** An instruction with nothing added for its block: it records nothing, and jumps go where they went. */
  ghost predicate GoodFree<W(!new)>(x: Env, f: seq<Place<W>>, k: nat)
    requires k < |f|
  {
    && f[k].tail.NoTail? && f[k].end.None?
    && (f[k].source.Plain? ==> GoodPlain(x, Plainly(f[k]), 0, 0))
  }

  ghost predicate GoodPart<W(!new)>(x: Env, f: seq<Place<W>>, part: nat -> Part, k: nat)
    requires k < |f|
  {
    match part(k)
    case InBlock(s, e) => s <= k < e && GoodBlock(x, f, s, e)
    case Free => GoodFree(x, f, k)
    case Elsewhere => true
  }

  ghost predicate GoodParts<W(!new)>(x: Env, f: seq<Place<W>>, part: nat -> Part) {
    && Inside(f) && x.base in NON_SCRATCH && Addressed(x, f)
    && forall k :: 0 <= k < |f| ==> GoodPart(x, f, part, k)
  }

  // ------------------------------------------------------------ the original

  /** One passage through a common block: what each of its instructions accessed. */
  datatype Visit = Visit(s: nat, e: nat, trace: seq<R.Access>)

  datatype Trip<W> = Trip(o: Orig<W>, k: nat, visits: seq<Visit>)

  /** The original through `n` blocks or free instructions, or up to what is elsewhere. */
  ghost function Walk<W>(f: seq<Place<W>>, part: nat -> Part, k: nat, o: Orig<W>, n: nat): Trip<W>
    decreases n
  {
    if n == 0 || k >= |f| then Trip(o, k, [])
    else match part(k)
      case Elsewhere => Trip(o, k, [])
      case Free => Walk(f, part, FreeNext(f[k], k, o), FreeEffect(f[k], o), n - 1)
      case InBlock(s, e) =>
        if !(s <= k < e <= |f|) then Trip(o, k, [])
        else
          var r := OrigRun(f, k, e, o);
          var rest := Walk(f, part, r.next, r.o, n - 1);
          rest.(visits := [Visit(s, e, Skips(k - s) + r.trace)] + rest.visits)
  }

  function FreeNext<W>(p: Place<W>, k: nat, o: Orig<W>): nat {
    if p.source.Jump? && Taken(p.source.cond, o.flags) then p.source.dest else k + 1
  }

  function FreeEffect<W>(p: Place<W>, o: Orig<W>): Orig<W> { if p.source.Plain? then p.source.effect(o) else o }

  /** Every executed instruction finds a state that it fits. */
  ghost predicate FitsWalk<W>(f: seq<Place<W>>, part: nat -> Part, k: nat, o: Orig<W>, n: nat)
    decreases n
  {
    n == 0 || k >= |f| ||
    match part(k)
    case Elsewhere => true
    case Free =>
      && (f[k].source.Plain? ==> f[k].source.fits(o))
      && FitsWalk(f, part, FreeNext(f[k], k, o), FreeEffect(f[k], o), n - 1)
    case InBlock(s, e) =>
      e <= |f| ==>
        && FitsRun(f, k, e, o)
        && var r := OrigRun(f, k, e, o); FitsWalk(f, part, r.next, r.o, n - 1)
  }

  // ------------------------------------------------------------- the machine

  /** The end of the nodes of the block or free instruction that starts at a position, if there is one. */
  ghost predicate EndsAt<W>(f: seq<Place<W>>, part: nat -> Part, hi: nat -> Option<nat>) {
    forall k: nat :: k <= |f| ==> EndsRight(f, part, hi, k)
  }

  ghost predicate EndsRight<W>(f: seq<Place<W>>, part: nat -> Part, hi: nat -> Option<nat>, k: nat)
    requires k <= |f|
  {
    hi(Pos(f, k)) ==
    if k == |f| then None
    else match part(k)
      case InBlock(s, e) => if e <= |f| then Some(Pos(f, e)) else None
      case Free => Some(Pos(f, k + 1))
      case Elsewhere => None
  }

  /** The ends for any function: instructions have positions of their own. */
  ghost function Ends<W>(f: seq<Place<W>>, part: nat -> Part): nat -> Option<nat> { (pc: nat) => EndFrom(f, part, pc) }

  ghost function EndFrom<W>(f: seq<Place<W>>, part: nat -> Part, pc: nat): Option<nat> {
    if exists k: nat :: k < |f| && Pos(f, k) == pc then
      var k: nat :| k < |f| && Pos(f, k) == pc;
      match part(k)
      case InBlock(s, e) => if e <= |f| then Some(Pos(f, e)) else None
      case Free => Some(Pos(f, k + 1))
      case Elsewhere => None
    else None
  }

  lemma {:induction false} EndsAreRight<W>(f: seq<Place<W>>, part: nat -> Part)
    ensures EndsAt(f, part, Ends(f, part))
  {
    hide Pos;
    forall k: nat | k <= |f|
      ensures EndsRight(f, part, Ends(f, part), k)
    {
      forall j: nat | j < |f| && Pos(f, j) == Pos(f, k)
        ensures j == k
      {
        OwnPosition(f, j, k);
      }
    }
  }

  lemma {:induction false} OwnPosition<W>(f: seq<Place<W>>, j: nat, k: nat)
    requires j <= |f| && k <= |f| && Pos(f, j) == Pos(f, k)
    ensures j == k
  {
    if j < k {
      PosGrows(f, j, k);
    } else {
      PosGrows(f, k, j);
    }
  }

  /** The nodes, stretch by stretch. */
  ghost function March<W>(x: Env, list: seq<Item<W>>, hi: nat -> Option<nat>, pc: nat, c: Cpu<W>,
                          n: nat): Option<Passed<W>>
    decreases n
  {
    if n == 0 || hi(pc).None? then Some(Passed(c, pc, []))
    else
      var p := RunFrom(x, list, pc, hi(pc).value, c);
      if p.None? then None else After(p.value.handled, March(x, list, hi, p.value.next, p.value.c, n - 1))
  }

  // ------------------------------------------------------------ one stretch

  lemma {:induction false} FreeRuns<W(!new)>(x: Env, f: seq<Place<W>>, k: nat, o: Orig<W>, c: Cpu<W>)
    requires Inside(f) && k < |f| && GoodFree(x, f, k) && Rel(o, c, x.base, x.ls) && Clear(c.ls)
    requires f[k].source.Plain? ==> f[k].source.fits(o)
    ensures FreeNext(f[k], k, o) <= |f|
    ensures var p := RunFrom(x, Layout(x, f), Pos(f, k), Pos(f, k + 1), c);
            && p.Some? && p.value.handled == [] && p.value.next == Pos(f, FreeNext(f[k], k, o))
            && Rel(FreeEffect(f[k], o), p.value.c, x.base, x.ls) && Clear(p.value.c.ls)
  {
    hide Rel, Layout, RunPlain, NoCalls, RunFrom, Step;
    PosGrows(f, k + 1, |f|);
    if f[k].source.Plain? {
      assert GoodStep(x, Plainly(f[k]), 0, 0, o, c);
      RunInsn(x, f, k, Pos(f, k + 1), c);
      PastEnd(x, Layout(x, f), Pos(f, k + 1), Pos(f, k + 1), RunPlain(f[k].source, c, x.ls).value);
    } else {
      SameFlags(o, c, x.base, x.ls);
      FreeJump(x, f, k, c);
    }
  }

  lemma {:induction false} PastEnd<W>(x: Env, list: seq<Item<W>>, pc: nat, hi: nat, c: Cpu<W>)
    requires pc >= hi
    ensures RunFrom(x, list, pc, hi, c) == Some(Passed(c, pc, []))
  {
  }

  /** A jump for which nothing was added, in either direction. */
  lemma {:induction false} FreeJump<W>(x: Env, f: seq<Place<W>>, k: nat, c: Cpu<W>)
    requires Inside(f) && k < |f| && f[k].source.Jump? && f[k].end.None? && f[k].tail.NoTail?
    ensures var s := f[k].source;
            RunFrom(x, Layout(x, f), Pos(f, k), Pos(f, k + 1), c) ==
            Some(Passed(c, if Taken(s.cond, c.flags) then Pos(f, s.dest) else Pos(f, k + 1), []))
  {
    hide Layout, Dest, Linked, RunFrom, TailItems;
    var list, s, p := Layout(x, f), f[k].source, Pos(f, k);
    PosGrows(f, k + 1, |f|);
    InnerNode(x, f, k);
    if k < s.dest {
      PosGrows(f, k + 1, s.dest);
      JumpStep(x, list, p, p + 1, c, CondOf(s.cond), Pos(f, s.dest));
      PastEnd(x, list, if Taken(s.cond, c.flags) then Pos(f, s.dest) else p + 1, p + 1, c);
    } else {
      PosGrows(f, s.dest, k);
      BackStep(x, list, p, p + 1, c, CondOf(s.cond), Pos(f, s.dest));
      PastEnd(x, list, p + 1, p + 1, c);
    }
  }

  lemma {:induction false} InnerNode<W>(x: Env, f: seq<Place<W>>, k: nat)
    requires Inside(f) && k < |f| && f[k].source.Jump? && f[k].end.None?
    ensures var list, s, p := Layout(x, f), f[k].source, Pos(f, k);
            Leads(list, p, JumpIf(CondOf(s.cond)), Pos(f, s.dest))
  {
    hide Pos, TailItems, LayoutTo, TailLen, Dest, Linked;
    var list, s, p := Layout(x, f), f[k].source, Pos(f, k);
    Laid(x, f, k, |f|);
    assert list[p + 0] == MainItems(x, f, k)[0];
    RefFound(x, f, s.dest);
    Resolves(list, p, Ref(f, s.dest));
  }

  lemma {:induction false} BackStep<W>(x: Env, list: seq<Item<W>>, p: nat, hi: nat, c: Cpu<W>, cond: Flags -> bool,
                                       dest: nat)
    requires p < hi <= |list| && list[p].op == JumpIf(cond) && Linked(list, p) && Dest(list, p) == dest <= p
    ensures RunFrom(x, list, p, hi, c) ==
            if cond(c.flags) then Some(Passed(c, dest, [])) else RunFrom(x, list, p + 1, hi, c)
  {
    hide Dest, Linked;
  }

  /** A common block entered at instruction `k` with a clear storage. */
  lemma {:induction false} BlockFrom<W(!new)>(x: Env, f: seq<Place<W>>, s: nat, k: nat, e: nat, o: Orig<W>, c: Cpu<W>)
    returns (st: Storage)
    requires GoodBlock(x, f, s, e) && Addressed(x, f) && s <= k < e
    requires Rel(o, c, x.base, x.ls) && Clear(c.ls) && FitsRun(f, k, e, o)
    ensures var r := OrigRun(f, k, e, o);
            && e <= r.next <= |f|
            && Left(x, RunFrom(x, Layout(x, f), Pos(f, k), Pos(f, e), c), r.o, Pos(f, r.next), st)
            && !f[e - 1].tail.NoTail? && st.info == f[e - 1].tail.info
            && Recorded(Ops(f, s, e), Skips(k - s) + r.trace, st)
  {
    hide RunFrom, Rel, Left, GoodBlock, Addressed, Pos, Layout, Inside, Recorded, FitsRun, OrigRun, Clear;
    BlockBounds(x, f, s, e);
    RecordedStart(c.ls);
    ClearDest(c.ls);
    assert Ops(f, s, s) == [];
    SkipTo(x, f, s, s, k, e, [], c.ls);
    assert [] + Skips(k - s) == Skips(k - s);
    st := BlockRuns(x, f, s, k, e, o, c, Skips(k - s));
  }

  // ------------------------------------------------------------- whole runs

  /** The handler was called once for each visit, with what was accessed during it. */
  ghost predicate Told<W>(f: seq<Place<W>>, v: Visit, st: Storage) {
    && v.s < v.e <= |f| && !f[v.e - 1].tail.NoTail? && st.info == f[v.e - 1].tail.info
    && Recorded(Ops(f, v.s, v.e), v.trace, st)
  }

  ghost predicate AllTold<W>(f: seq<Place<W>>, visits: seq<Visit>, handled: seq<Storage>) {
    |visits| == |handled| && forall j :: 0 <= j < |visits| ==> Told(f, visits[j], handled[j])
  }

  /** The machine is where the original is, in a state that corresponds, and has told all visits. */
  ghost predicate Follows<W>(x: Env, f: seq<Place<W>>, t: Trip<W>, p: Option<Passed<W>>) {
    && p.Some? && t.k <= |f| && p.value.next == Pos(f, t.k)
    && Rel(t.o, p.value.c, x.base, x.ls) && Clear(p.value.c.ls) && AllTold(f, t.visits, p.value.handled)
  }

  lemma {:induction false} MoreTold<W>(x: Env, f: seq<Place<W>>, v: Visit, st: Storage, t: Trip<W>,
                                       p: Option<Passed<W>>)
    requires Follows(x, f, t, p) && Told(f, v, st)
    ensures Follows(x, f, t.(visits := [v] + t.visits), After([st], p))
  {
    hide Told, Rel, Clear, Pos;
  }

  lemma {:induction false} NoneTold<W>(x: Env, f: seq<Place<W>>, k: nat, o: Orig<W>, c: Cpu<W>)
    requires k <= |f| && Rel(o, c, x.base, x.ls) && Clear(c.ls)
    ensures Follows(x, f, Trip(o, k, []), Some(Passed(c, Pos(f, k), [])))
  {
  }

  /**
   After any number of blocks and free instructions the machine is at the node of the instruction
   that the original is at, in a state that corresponds and with a clear storage; the handler was
   called once for each passage through a common block, with exactly its accesses.
   */
  lemma {:induction false} MarchFollows<W(!new)>(x: Env, f: seq<Place<W>>, part: nat -> Part, hi: nat -> Option<nat>,
                                                 k: nat,
                                                o: Orig<W>, c: Cpu<W>, n: nat)
    requires GoodParts(x, f, part) && EndsAt(f, part, hi) && k <= |f|
    requires Rel(o, c, x.base, x.ls) && Clear(c.ls) && FitsWalk(f, part, k, o, n)
    ensures Follows(x, f, Walk(f, part, k, o, n), March(x, Layout(x, f), hi, Pos(f, k), c, n))
    decreases n
  {
    hide RunFrom, Rel, GoodBlock, GoodFree, Addressed, Pos, Layout, Inside, Clear, Follows, Told, OrigRun, FitsRun,
         Recorded;
    assert EndsRight(f, part, hi, k);
    NoneTold(x, f, k, o, c);
    if n == 0 || k == |f| {
      return;
    }
    assert GoodPart(x, f, part, k);
    match part(k) {
    case Elsewhere =>
    case Free =>
      FreeRuns(x, f, k, o, c);
      var p := RunFrom(x, Layout(x, f), Pos(f, k), Pos(f, k + 1), c).value;
      MarchFollows(x, f, part, hi, FreeNext(f[k], k, o), FreeEffect(f[k], o), p.c, n - 1);
      AfterAfter([], [], March(x, Layout(x, f), hi, p.next, p.c, n - 1));
    case InBlock(s, e) =>
      BlockBounds(x, f, s, e);
      var st := BlockFrom(x, f, s, k, e, o, c);
      var r := OrigRun(f, k, e, o);
      var p := RunFrom(x, Layout(x, f), Pos(f, k), Pos(f, e), c).value;
      MarchFollows(x, f, part, hi, r.next, r.o, p.c, n - 1);
      VisitTold(f, s, e, Skips(k - s) + r.trace, st);
      MoreTold(x, f, Visit(s, e, Skips(k - s) + r.trace), st, Walk(f, part, r.next, r.o, n - 1),
               March(x, Layout(x, f), hi, p.next, p.c, n - 1));
    }
  }

  lemma {:induction false} VisitTold<W>(f: seq<Place<W>>, s: nat, e: nat, trace: seq<R.Access>, st: Storage)
    requires s < e <= |f| && !f[e - 1].tail.NoTail? && st.info == f[e - 1].tail.info &&
             Recorded(Ops(f, s, e), trace, st)
    ensures Told(f, Visit(s, e, trace), st)
  {
  }

  // -------------------------------------------------------------- the reports

  /** The events of all visits, in order. */
  ghost function AllExpected<W>(f: seq<Place<W>>, visits: seq<Visit>): seq<R.Event>
    requires forall j :: 0 <= j < |visits| ==> Readable(f, visits[j])
  {
    if visits == [] then []
    else
      var n := |visits| - 1;
      var v := visits[n];
      assert Readable(f, v);
      AllExpected(f, visits[..n]) + R.Expected(Ops(f, v.s, v.e), v.trace)
  }

  ghost predicate Readable<W>(f: seq<Place<W>>, v: Visit) {
    v.s <= v.e <= |f| && R.BlockRun(Ops(f, v.s, v.e), v.trace)
  }

  /** What block creation has left for the handler of the block that was visited. */
  ghost predicate Informed<W>(f: seq<Place<W>>, v: Visit, infos: map<Word, R.BlockInfo>)
    reads infos.Values, set i | i in infos.Values :: i.events
  {
    && v.s < v.e <= |f| && R.Block(Ops(f, v.s, v.e)) && !f[v.e - 1].tail.NoTail? && f[v.e - 1].tail.info in infos
    && var info := infos[f[v.e - 1].tail.info];
       info.Describes(R.AllStatics(Ops(f, v.s, v.e))) && info.maxEvents == R.EventSum(Ops(f, v.s, v.e))
  }

  /** The handlers called on the way report the events of the original's accesses, visit by visit. */
  method ReportWalk<W>(ghost f: seq<Place<W>>, ghost visits: seq<Visit>, handled: seq<Storage>, infos: map<Word,
                       R.BlockInfo>)
    returns (r: seq<R.Event>)
    requires AllTold(f, visits, handled) && forall j :: 0 <= j < |visits| ==> Informed(f, visits[j], infos)
    ensures forall j :: 0 <= j < |visits| ==> Readable(f, visits[j])
    ensures r == AllExpected(f, visits)
  {
    hide R.Expected, Recorded, R.AllStatics, R.EventSum;
    AllReadable(f, visits, handled);
    r := [];
    var k := 0;
    while k < |handled|
      invariant k <= |handled| && r == AllExpected(f, visits[..k])
    {
      ghost var v := visits[k];
      assert Told(f, v, handled[k]) && Informed(f, v, infos);
      var more := Report(Ops(f, v.s, v.e), v.trace, infos[handled[k].info], handled[k]);
      assert visits[..k + 1][..k] == visits[..k];
      r := r + more;
      k := k + 1;
    }
    assert visits[..k] == visits;
  }

  lemma {:induction false} AllReadable<W>(f: seq<Place<W>>, visits: seq<Visit>, handled: seq<Storage>)
    requires AllTold(f, visits, handled)
    ensures forall j :: 0 <= j < |visits| ==> Readable(f, visits[j])
  {
    forall j | 0 <= j < |visits|
      ensures Readable(f, visits[j])
    {
      assert Told(f, visits[j], handled[j]);
    }
  }
}
