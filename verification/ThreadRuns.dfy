/**
 All interleavings of threads entering the targets, threads being created and ending, task
 structures being reused, and garbage collections whose traversal sees tasks come and go.
 Memory does not run out here; ThreadFailure says what happens when it does.  That a bucket which
 a thread has dereferenced stays as it was found is ThreadMemory.SnapshotIsTable.
 */
module ThreadRuns {
  import opened Basics
  import opened ThreadSpec

  /** A collection in progress: the tasks that existed when it began, those visited so far. */
  datatype Collection = Collection(begun: set<Thread>, seen: set<Thread>)

  /**
   `live` are the existing tasks, `used` all that ever existed, `looking` the threads searching a
   bucket that they dereferenced, which may be stale by now, `adding` those between their look-up
   and their update, `entered` those that have been through both.
   */
  datatype State = State(table: Table, events: seq<Event>, live: set<Thread>, used: set<Thread>,
                         looking: map<Thread, Bucket>, adding: set<Thread>, entered: set<Thread>,
                         gc: Option<Collection>)

  datatype Step =
    | Spawn(t: Thread)
    | Exit(t: Thread)
    | Dereference(t: Thread)
    | Decide(t: Thread)
    | Add(t: Thread)
    | GcBegin
    | GcVisit(t: Thread)
    | GcEnd

  ghost predicate Init(s: State) {
    && (forall i: Index :: s.table[i] == []) && s.events == []
    && s.live == {} && s.used == {} && s.looking == map[] && s.adding == {} && s.entered == {} && s.gc.None?
  }

  ghost predicate Enabled(s: State, hash: Tid -> Index, step: Step) {
    match step
    case Spawn(t) =>
      // addresses of task structures are reused, but never with the same start time
      t !in s.used && HasTop(t.tid) && forall u :: u in s.live ==> u.tid != t.tid
    case Exit(t) => t in s.live && t !in s.adding && t !in s.looking
    case Dereference(t) => t in s.live && t !in s.adding && t !in s.looking
    case Decide(t) => t in s.looking
    case Add(t) => t in s.adding && s.gc.None?
    case GcBegin => s.gc.None?
    case GcVisit(t) => t in s.live && s.gc.Some?
    // tasks that exist throughout the traversal are visited
    case GcEnd => s.gc.Some? && forall t :: t in s.gc.value.begun && t in s.live ==> t in s.gc.value.seen
  }

  ghost function Apply(s: State, hash: Tid -> Index, step: Step): State
    requires Enabled(s, hash, step)
  {
    match step
    case Spawn(t) => s.(live := s.live + {t}, used := s.used + {t})
    case Exit(t) => s.(live := s.live - {t})
    case Dereference(t) => s.(looking := s.looking[t := s.table[hash(t.tid)]])
    case Decide(t) =>
      var rest := s.looking - {t};
      if t in s.looking[t] then s.(looking := rest, entered := s.entered + {t})
      else s.(looking := rest, adding := s.adding + {t})
    case Add(t) =>
      var i := hash(t.tid);
      s.(table := s.table[i := Added(s.table[i], t)], events := s.events + AddEvents(s.table[i], t),
         adding := s.adding - {t}, entered := s.entered + {t})
    case GcBegin => s.(gc := Some(Collection(s.live, {})))
    case GcVisit(t) => s.(gc := Some(s.gc.value.(seen := s.gc.value.seen + {t})))
    case GcEnd =>
      var seen := s.gc.value.seen;
      s.(table := Swept(s.table, seen, SIZE), events := s.events + SweepEvents(s.table, seen, SIZE), gc := None)
  }

  ghost predicate InTable(t: Table, e: Thread) { exists i: Index :: e in t[i] }

  ghost predicate Inv(s: State, hash: Tid -> Index) {
    && Consistent(s.table, hash, s.events)
    && s.live <= s.used && s.adding <= s.live && s.entered <= s.used
    && s.looking.Keys <= s.live && s.looking.Keys !! s.adding
    && (forall t :: t in s.used ==> HasTop(t.tid))
    // a stale bucket is as good as the current one for the thread that looks for itself
    && (forall t :: t in s.looking ==> (t in s.looking[t] <==> InTable(s.table, t)))
    && (forall t, u :: t in s.live && u in s.live && t.tid == u.tid ==> t == u)
    && (forall e :: InTable(s.table, e) ==> e in s.used && e !in s.adding)
    // a collection knows every task of the table that still exists
    && (s.gc.Some? ==> forall e :: InTable(s.table, e) && e in s.live ==> e in s.gc.value.begun)
    // whoever has been through the handler is in the table for as long as it lives
    && (forall e :: e in s.entered && e in s.live ==> InTable(s.table, e))
  }

  /** The thread that the table has for this ID exists no more. */
  ghost predicate HasEnded(s: State, tid: Tid) {
    exists e :: InTable(s.table, e) && e.tid == tid && e !in s.live
  }

  lemma InTableAt(t: Table, hash: Tid -> Index, e: Thread)
    requires WellPlaced(t, hash)
    ensures InTable(t, e) <==> e in t[hash(e.tid)]
  {
    if InTable(t, e) {
      var i: Index :| e in t[i];
      assert BucketPlaced(t[i], hash, i);
    }
  }

  lemma AddedTable(t: Table, hash: Tid -> Index, x: Thread, e: Thread)
    requires WellPlaced(t, hash)
    ensures var i := hash(x.tid);
            InTable(t[i := Added(t[i], x)], e) <==> e == x || (InTable(t, e) && e.tid != x.tid)
  {
    hide Without;
    var i := hash(x.tid);
    var t' := t[i := Added(t[i], x)];
    assert forall y :: y in t'[i] <==> y == x || (y in t[i] && y.tid != x.tid);
    if InTable(t', e) {
      var j: Index :| e in t'[j];
      if j != i {
        assert e in t[j] && BucketPlaced(t[j], hash, j);
      }
    }
    if InTable(t, e) && e.tid != x.tid {
      var j: Index :| e in t[j];
      assert e in t'[j];
    }
    assert x in t'[i];
  }

  lemma SweptTable(t: Table, seen: set<Thread>, e: Thread)
    ensures InTable(Swept(t, seen, SIZE), e) <==> InTable(t, e) && e in seen
  {
    hide Survivors;
    var t' := Swept(t, seen, SIZE);
    assert forall i: Index :: e in t'[i] <==> e in t[i] && e in seen;
    if InTable(t', e) {
      var i: Index :| e in t'[i];
      assert e in t[i];
    }
    if InTable(t, e) && e in seen {
      var i: Index :| e in t[i];
      assert e in t'[i];
    }
  }

  // --------------------------------------------------------------- one step

  lemma InitInv(s: State, hash: Tid -> Index)
    requires Init(s)
    ensures Inv(s, hash)
  {
    forall i: Index
      ensures BucketPlaced(s.table[i], hash, i)
    {
    }
  }

  lemma TaskStep(s: State, hash: Tid -> Index, step: Step)
    requires Inv(s, hash) && Enabled(s, hash, step) && (step.Spawn? || step.Exit?)
    ensures Inv(Apply(s, hash, step), hash)
  {
    hide Consistent, InTable;
  }

  lemma LookStep(s: State, hash: Tid -> Index, t: Thread)
    requires Inv(s, hash) && Enabled(s, hash, Dereference(t))
    ensures Inv(Apply(s, hash, Dereference(t)), hash)
  {
    hide Consistent, InTable, WellPlaced;
    PlacedTable(s, hash);
    InTableAt(s.table, hash, t);
  }

  lemma PlacedTable(s: State, hash: Tid -> Index)
    requires Consistent(s.table, hash, s.events)
    ensures WellPlaced(s.table, hash)
  {
  }

  lemma DecideStep(s: State, hash: Tid -> Index, t: Thread)
    requires Inv(s, hash) && Enabled(s, hash, Decide(t))
    ensures Inv(Apply(s, hash, Decide(t)), hash)
  {
    hide Consistent, InTable;
  }

  lemma AddStep(s: State, hash: Tid -> Index, t: Thread)
    requires Inv(s, hash) && Enabled(s, hash, Add(t))
    ensures Inv(Apply(s, hash, Add(t)), hash)
  {
    hide Open, Alternating, Unique, InTable;
    AddConsistent(s.table, hash, s.events, t);
    forall e {
      AddedTable(s.table, hash, t, e);
    }
  }

  lemma VisitStep(s: State, hash: Tid -> Index, step: Step)
    requires Inv(s, hash) && Enabled(s, hash, step) && (step.GcBegin? || step.GcVisit?)
    ensures Inv(Apply(s, hash, step), hash)
  {
    hide Consistent, InTable;
  }

  lemma SweepStep(s: State, hash: Tid -> Index)
    requires Inv(s, hash) && Enabled(s, hash, GcEnd)
    ensures Inv(Apply(s, hash, GcEnd), hash)
  {
    hide Consistent, InTable, Swept, SweepEvents;
    SweepConsistent(s.table, hash, s.events, s.gc.value.seen, SIZE);
    forall e {
      SweptTable(s.table, s.gc.value.seen, e);
    }
  }

  lemma StepKeepsInv(s: State, hash: Tid -> Index, step: Step)
    requires Inv(s, hash) && Enabled(s, hash, step)
    ensures Inv(Apply(s, hash, step), hash)
  {
    hide Inv, Apply;
    match step
    case Spawn(_) => TaskStep(s, hash, step);
    case Exit(_) => TaskStep(s, hash, step);
    case Dereference(t) => LookStep(s, hash, t);
    case Decide(t) => DecideStep(s, hash, t);
    case Add(t) => AddStep(s, hash, t);
    case GcBegin => VisitStep(s, hash, step);
    case GcVisit(_) => VisitStep(s, hash, step);
    case GcEnd => SweepStep(s, hash);
  }

  // ------------------------------------------------------------- truthfulness

  /** A "thread end" is only reported of a thread that has ended, a start of one that exists. */
  ghost predicate Truthful(s: State, s': State) {
    && s.events <= s'.events
    && forall k :: |s.events| <= k < |s'.events| ==>
         if s'.events[k].End? then HasEnded(s, s'.events[k].tid)
         else exists t :: t in s.live && t.tid == s'.events[k].tid
  }

  lemma AddTruthful(s: State, hash: Tid -> Index, t: Thread)
    requires Inv(s, hash) && Enabled(s, hash, Add(t))
    ensures Truthful(s, Apply(s, hash, Add(t)))
  {
    hide Open, Alternating, Without, EndsOf;
    var b := s.table[hash(t.tid)];
    assert BucketPlaced(b, hash, hash(t.tid));
    OneEnd(b, t.tid);
    if HasTid(b, t.tid) {
      var e :| e in b && e.tid == t.tid;
      assert InTable(s.table, e);
      assert e != t;
      assert HasEnded(s, t.tid);
    }
  }

  lemma {:induction false} DeadEndsEnded(b: Bucket, seen: set<Thread>, k: nat)
    requires k < |DeadEnds(b, seen)|
    ensures DeadEnds(b, seen)[k].End?
    ensures exists e :: e in b && e !in seen && e.tid == DeadEnds(b, seen)[k].tid
    decreases |b|
  {
    var n := |b| - 1;
    var r := DeadEnds(b[..n], seen);
    if k < |r| {
      DeadEndsEnded(b[..n], seen, k);
      var e :| e in b[..n] && e !in seen && e.tid == r[k].tid;
      assert e in b;
    } else {
      assert b[n] in b;
    }
  }

  lemma {:induction false} SweepEventsEnded(s: State, seen: set<Thread>, n: nat, k: nat)
    requires n <= SIZE && k < |SweepEvents(s.table, seen, n)|
    requires forall e :: InTable(s.table, e) && e in s.live ==> e in seen
    ensures SweepEvents(s.table, seen, n)[k].End?
    ensures HasEnded(s, SweepEvents(s.table, seen, n)[k].tid)
    decreases n
  {
    var r := SweepEvents(s.table, seen, n - 1);
    if k < |r| {
      SweepEventsEnded(s, seen, n - 1, k);
    } else {
      var b := s.table[n - 1];
      DeadEndsEnded(b, seen, k - |r|);
      var e :| e in b && e !in seen && e.tid == DeadEnds(b, seen)[k - |r|].tid;
      assert InTable(s.table, e);
    }
  }

  lemma SweepTruthful(s: State, hash: Tid -> Index)
    requires Inv(s, hash) && Enabled(s, hash, GcEnd)
    ensures Truthful(s, Apply(s, hash, GcEnd))
  {
    hide Consistent, SweepEvents, Swept, InTable, HasEnded;
    var seen := s.gc.value.seen;
    var more := SweepEvents(s.table, seen, SIZE);
    forall k | 0 <= k < |more|
      ensures more[k].End? && HasEnded(s, more[k].tid)
    {
      SweepEventsEnded(s, seen, SIZE, k);
    }
    var all := s.events + more;
    assert forall k :: |s.events| <= k < |all| ==> all[k] == more[k - |s.events|];
  }

  lemma StepTruthful(s: State, hash: Tid -> Index, step: Step)
    requires Inv(s, hash) && Enabled(s, hash, step)
    ensures Truthful(s, Apply(s, hash, step))
  {
    match step
    case Add(t) => AddTruthful(s, hash, t);
    case GcEnd => SweepTruthful(s, hash);
    case _ =>
  }

  // ---------------------------------------------------------------- all runs

  /** `run` follows the steps `steps` from an initial state. */
  ghost predicate Run(run: seq<State>, hash: Tid -> Index, steps: seq<Step>)
    decreases |steps|
  {
    if steps == [] then |run| == 1 && Init(run[0])
    else
      var n := |steps| - 1;
      && |run| == n + 2 && Run(run[..n + 1], hash, steps[..n])
      && Enabled(run[n], hash, steps[n]) && run[n + 1] == Apply(run[n], hash, steps[n])
  }

  /**
   In every run: the events of each thread ID alternate; the table has at most one item per ID,
   exactly for those whose last event is a start; every thread that has entered is known for as
   long as it lives; and the last step reported ends only of ended threads.
   */
  lemma {:induction false} AllRuns(run: seq<State>, hash: Tid -> Index, steps: seq<Step>)
    requires Run(run, hash, steps)
    ensures forall k :: 0 <= k < |run| ==> Inv(run[k], hash)
    ensures forall k :: 0 <= k < |steps| ==> Truthful(run[k], run[k + 1])
    decreases |steps|
  {
    hide Inv, Truthful, Enabled, Apply, Init;
    if steps == [] {
      InitInv(run[0], hash);
    } else {
      var n := |steps| - 1;
      var before := run[..n + 1];
      AllRuns(before, hash, steps[..n]);
      assert before[n] == run[n];
      StepKeepsInv(run[n], hash, steps[n]);
      StepTruthful(run[n], hash, steps[n]);
      forall k | 0 <= k < |run|
        ensures Inv(run[k], hash)
      {
        assert k < n + 1 ==> run[k] == before[k];
      }
      forall k | 0 <= k < |steps|
        ensures Truthful(run[k], run[k + 1])
      {
        assert k < n ==> run[k] == before[k] && run[k + 1] == before[k + 1];
      }
    }
  }

  /** What the invariant means, spelled out for one state of a run. */
  lemma EveryState(run: seq<State>, hash: Tid -> Index, steps: seq<Step>, k: nat)
    requires Run(run, hash, steps) && k < |run|
    ensures Alternating(run[k].events)
    ensures forall tid: Tid :: (exists e :: InTable(run[k].table, e) && e.tid == tid) <==> Open(run[k].events, tid)
    ensures forall e, e' :: InTable(run[k].table, e) && InTable(run[k].table, e') && e.tid == e'.tid ==> e == e'
    ensures forall e :: e in run[k].entered && e in run[k].live ==>
            InTable(run[k].table, e) && Open(run[k].events, e.tid)
  {
    AllRuns(run, hash, steps);
    var s := run[k];
    assert Inv(s, hash);
    hide Alternating, Open, Run, InTable;
    forall e
      ensures InTable(s.table, e) <==> e in s.table[hash(e.tid)]
    {
      InTableAt(s.table, hash, e);
    }
    forall tid: Tid
      ensures (exists e :: InTable(s.table, e) && e.tid == tid) <==> Open(s.events, tid)
    {
      assert HasTid(s.table[hash(tid)], tid) <==> Open(s.events, tid);
    }
    forall e, e' | InTable(s.table, e) && InTable(s.table, e') && e.tid == e'.tid
      ensures e == e'
    {
      OneItem(s.table, hash, e, e');
    }
  }

  lemma OneItem(t: Table, hash: Tid -> Index, e: Thread, e': Thread)
    requires WellPlaced(t, hash) && e.tid == e'.tid && e in t[hash(e.tid)] && e' in t[hash(e.tid)]
    ensures e == e'
  {
    var b := t[hash(e.tid)];
    assert BucketPlaced(b, hash, hash(e.tid));
    var i :| 0 <= i < |b| && b[i] == e;
    var j :| 0 <= j < |b| && b[j] == e';
    SameTidSameItem(b, i, j);
  }

  lemma SameTidSameItem(b: Bucket, i: nat, j: nat)
    requires Unique(b) && i < |b| && j < |b| && b[i].tid == b[j].tid
    ensures i == j
  {
  }
}
