/**
 Updates of the thread table when memory runs out after `m` more allocations: how far they
 get, and exactly when they leave the table in disagreement with the events reported.
 */
module ThreadFailure {
  import opened ThreadSpec

  // --------------------------------------------------------- adding a thread

  /** How many old items create_new_bucket goes through with `m` allocations for copies. */
  function Passed(b: Bucket, tid: Tid, m: nat): (p: nat)
    ensures p <= |b|
    ensures p == |b| <==> |Without(b, tid)| <= m
    ensures p < |b| ==> |Without(b[..p], tid)| == m
  {
    if b == [] then 0
    else
      var n := |b| - 1;
      var p := Passed(b[..n], tid, m);
      if p < n then
        assert b[..n][..p] == b[..p];
        p
      else
        assert b[..n][..n] == b[..n];
        if b[n].tid == tid || |Without(b[..n], tid)| < m then n + 1 else n
  }

  /** The RCU record for a non-empty old bucket and the item of the new thread. */
  function Overhead(b: Bucket): nat { if b == [] then 1 else 2 }

  function AddNeed(b: Bucket, tid: Tid): nat { Overhead(b) + |Without(b, tid)| }

  datatype Outcome = Outcome(table: Table, events: seq<Event>)

  function AddOutcome(t: Table, hash: Tid -> Index, events: seq<Event>, e: Thread, m: nat): Outcome {
    var i := hash(e.tid);
    var b := t[i];
    if AddNeed(b, e.tid) <= m then Outcome(t[i := Added(b, e)], events + AddEvents(b, e))
    else if m < Overhead(b) then Outcome(t, events)
    else Outcome(t, events + EndsOf(b[..Passed(b, e.tid, m - Overhead(b))], e.tid))
  }

  /** Memory lasts past the old item of the same ID but not to the end of the bucket. */
  ghost predicate AddBreaks(b: Bucket, tid: Tid, m: nat) {
    exists k :: 0 <= k < |b| && b[k].tid == tid && k + 2 <= m <= |b|
  }

  lemma {:induction false} WithoutAbsent(b: Bucket, tid: Tid)
    requires !HasTid(b, tid)
    ensures Without(b, tid) == b
    decreases |b|
  {
    if b != [] {
      assert forall e :: e in b[..|b| - 1] ==> e in b;
      WithoutAbsent(b[..|b| - 1], tid);
    }
  }

  /** Where memory runs out relative to the old item at `k`. */
  lemma PassedItem(b: Bucket, tid: Tid, m: nat, k: nat)
    requires Unique(b) && k < |b| && b[k].tid == tid && m < |b| - 1
    ensures Passed(b, tid, m) > k <==> k <= m
  {
    var p := Passed(b, tid, m);
    OneEnd(b, tid);
    assert b[k] in b && HasTid(b, tid);
    assert p < |b|;
    if p <= k {
      PrefixAbsent(b, tid, k, p);
      WithoutAbsent(b[..p], tid);
      if p == k {
        NotStuckAt(b, tid, m, k);
      }
    } else {
      UniqueTake(b, p);
      OneEnd(b[..p], tid);
      assert b[..p][k] in b[..p] && HasTid(b[..p], tid);
    }
  }

  lemma PrefixAbsent(b: Bucket, tid: Tid, k: nat, p: nat)
    requires Unique(b) && k < |b| && b[k].tid == tid && p <= k
    ensures !HasTid(b[..p], tid)
  {
    forall e | e in b[..p]
      ensures e.tid != tid
    {
      var j :| 0 <= j < p && b[..p][j] == e;
    }
  }

  lemma UniqueTake(b: Bucket, p: nat)
    requires Unique(b) && p <= |b|
    ensures Unique(b[..p])
  {
  }

  /** The item of the same ID needs no allocation, so memory cannot run out at it. */
  lemma {:induction false} NotStuckAt(b: Bucket, tid: Tid, m: nat, k: nat)
    requires k < |b| && b[k].tid == tid
    ensures Passed(b, tid, m) != k
    decreases |b|
  {
    hide Without, HasTid;
    var n := |b| - 1;
    if k < n {
      NotStuckAt(b[..n], tid, m, k);
    }
  }

  /** Adding a thread keeps table and events in agreement if and only if memory does not run out midway. */
  lemma AddFailureExact(t: Table, hash: Tid -> Index, events: seq<Event>, e: Thread, m: nat)
    requires Consistent(t, hash, events) && HasTop(e.tid)
    ensures var o := AddOutcome(t, hash, events, e, m);
            Consistent(o.table, hash, o.events) <==> !AddBreaks(t[hash(e.tid)], e.tid, m)
  {
    hide Open, Alternating, Without, EndsOf, Passed, Unique;
    var i := hash(e.tid);
    var b := t[i];
    assert BucketPlaced(b, hash, i);
    OneEnd(b, e.tid);
    if AddNeed(b, e.tid) <= m {
      AddConsistent(t, hash, events, e);
      NoBreakWithMemory(b, e.tid, m);
    } else if m < Overhead(b) {
    } else {
      StoppedAdd(t, hash, events, e, m);
    }
  }

  lemma NoBreakWithMemory(b: Bucket, tid: Tid, m: nat)
    requires Unique(b) && AddNeed(b, tid) <= m
    ensures !AddBreaks(b, tid, m)
  {
    OneEnd(b, tid);
    assert forall k :: 0 <= k < |b| ==> b[k] in b;
  }

  lemma StoppedAdd(t: Table, hash: Tid -> Index, events: seq<Event>, e: Thread, m: nat)
    requires Consistent(t, hash, events) && Overhead(t[hash(e.tid)]) <= m < AddNeed(t[hash(e.tid)], e.tid)
    ensures var b := t[hash(e.tid)];
            Consistent(t, hash, events + EndsOf(b[..Passed(b, e.tid, m - Overhead(b))], e.tid)) <==>
            !AddBreaks(b, e.tid, m)
  {
    hide Open, Alternating, Without, EndsOf, Passed;
    var i := hash(e.tid);
    var b := t[i];
    assert BucketPlaced(b, hash, i);
    var p := Passed(b, e.tid, m - Overhead(b));
    var ends := EndsOf(b[..p], e.tid);
    OneEnd(b, e.tid);
    UniqueTake(b, p);
    OneEnd(b[..p], e.tid);
    assert b != [];
    if HasTid(b, e.tid) {
      var k :| 0 <= k < |b| && b[k].tid == e.tid;
      PassedItem(b, e.tid, m - 2, k);
      TakeHas(b, e.tid, k, p);
      assert AddBreaks(b, e.tid, m) <==> k + 2 <= m;
      if p > k {
        OpenSnoc(events, End(e.tid), e.tid);
        assert HasTid(t[hash(e.tid)], e.tid);
      } else {
        assert events + ends == events;
      }
    } else {
      assert !AddBreaks(b, e.tid, m) by {
        assert forall k :: 0 <= k < |b| ==> b[k] in b;
      }
      assert !HasTid(b[..p], e.tid) by {
        assert forall x :: x in b[..p] ==> x in b;
      }
      assert events + ends == events;
    }
  }

  lemma TakeHas(b: Bucket, tid: Tid, k: nat, p: nat)
    requires Unique(b) && k < |b| && b[k].tid == tid && p <= |b|
    ensures HasTid(b[..p], tid) <==> k < p
  {
    if k < p {
      assert b[..p][k] in b[..p];
    } else {
      PrefixAbsent(b, tid, k, p);
    }
  }

  // ------------------------------------------------------ a garbage collection

  /** Items in the first `n` buckets: the copies the collector makes. */
  function Copies(t: Table, n: nat): nat
    requires n <= SIZE
  {
    if n == 0 then 0 else Copies(t, n - 1) + |t[n - 1]|
  }

  /** Buckets among the first `n` with something to remove: the RCU records it needs. */
  function Records(t: Table, seen: set<Thread>, n: nat): (r: nat)
    requires n <= SIZE
  {
    if n == 0 then 0 else Records(t, seen, n - 1) + if DeadEnds(t[n - 1], seen) == [] then 0 else 1
  }

  /** How many buckets the sweep publishes (or finds unchanged) with `m` records. */
  function Reached(t: Table, seen: set<Thread>, m: nat, n: nat): (q: nat)
    requires n <= SIZE
    ensures q <= n && (q == n <==> Records(t, seen, n) <= m)
    ensures q < n ==> DeadEnds(t[q], seen) != [] && Records(t, seen, q) == m
  {
    if n == 0 then 0
    else
      var q := Reached(t, seen, m, n - 1);
      if q < n - 1 then q
      else if DeadEnds(t[n - 1], seen) == [] || Records(t, seen, n - 1) < m then n else n - 1
  }

  function GcOutcome(t: Table, events: seq<Event>, seen: set<Thread>, m: nat): Outcome {
    var copies := Copies(t, SIZE);
    if m < copies then Outcome(t, events)
    else
      var q := Reached(t, seen, m - copies, SIZE);
      if q == SIZE then Outcome(Swept(t, seen, SIZE), events + SweepEvents(t, seen, SIZE))
      else Outcome(Swept(t, seen, q), events + SweepEvents(t, seen, q + 1))
  }

  /** A collection keeps table and events in agreement unless memory runs out in the sweep. */
  lemma GcFailureExact(t: Table, hash: Tid -> Index, events: seq<Event>, seen: set<Thread>, m: nat)
    requires Consistent(t, hash, events)
    ensures var o := GcOutcome(t, events, seen, m);
            Consistent(o.table, hash, o.events) <==>
            !(Copies(t, SIZE) <= m < Copies(t, SIZE) + Records(t, seen, SIZE))
  {
    hide Open, Alternating, Survivors, DeadEnds, Unique, Reached, Swept, SweepEvents;
    var copies := Copies(t, SIZE);
    if copies <= m {
      var q := Reached(t, seen, m - copies, SIZE);
      SweepConsistent(t, hash, events, seen, q);
      if q < SIZE {
        StoppedSweep(t, hash, events, seen, q);
      }
    }
  }

  /** Ends reported for a bucket that was not replaced. */
  lemma StoppedSweep(t: Table, hash: Tid -> Index, events: seq<Event>, seen: set<Thread>, q: Index)
    requires Consistent(Swept(t, seen, q), hash, events + SweepEvents(t, seen, q)) && DeadEnds(t[q], seen) != []
    ensures !Consistent(Swept(t, seen, q), hash, events + SweepEvents(t, seen, q + 1))
  {
    hide Open, Alternating, Unique, Survivors, DeadEnds;
    var t' := Swept(t, seen, q);
    var mid := events + SweepEvents(t, seen, q);
    var b := t'[q];
    assert BucketPlaced(b, hash, q);
    assert events + SweepEvents(t, seen, q + 1) == mid + DeadEnds(b, seen);
    assert forall x :: x in b ==> HasTid(t'[hash(x.tid)], x.tid);
    BucketSweep(b, seen, mid);
    var e := DeadItem(b, seen);
    assert HasTid(t'[hash(e.tid)], e.tid);
  }

  lemma DeadItem(b: Bucket, seen: set<Thread>) returns (e: Thread)
    requires Unique(b) && DeadEnds(b, seen) != []
    ensures e in b && HasTid(b, e.tid) && !HasTid(Survivors(b, seen), e.tid)
  {
    hide DeadEnds, Unique, Survivors;
    if forall x :: x in b ==> x in seen {
      AllSurvive(b, seen);
    }
    var k :| 0 <= k < |b| && b[k] !in seen;
    e := b[k];
    forall x | x in Survivors(b, seen)
      ensures x.tid != e.tid
    {
      var j :| 0 <= j < |b| && b[j] == x;
      DistinctTids(b, j, k);
    }
  }

  lemma {:induction false} AllSurvive(b: Bucket, seen: set<Thread>)
    requires forall x :: x in b ==> x in seen
    ensures Survivors(b, seen) == b
    decreases |b|
  {
    if b != [] {
      AllSurvive(b[..|b| - 1], seen);
    }
  }

  lemma DistinctTids(b: Bucket, j: nat, k: nat)
    requires Unique(b) && j < |b| && k < |b| && b[j] != b[k]
    ensures b[j].tid != b[k].tid
  {
  }

  /** One collection short of one record, then another one: "thread end" twice for one thread. */
  lemma EndReportedTwice(t: Table, hash: Tid -> Index, events: seq<Event>, i: Index, e: Thread)
    requires Consistent(t, hash, events) && t[i] == [e] && forall j: Index :: j != i ==> t[j] == []
    ensures var o := GcOutcome(t, events, {}, 1);
            GcOutcome(o.table, o.events, {}, 2).events == events + [End(e.tid), End(e.tid)]
  {
    hide Copies, Reached, Records, SweepEvents, Survivors, DeadEnds, Consistent;
    OnlyBucket(t, i, e, SIZE);
    OnlyBucket(t, i, e, i + 1);
    assert Swept(t, {}, i) == t by {
      EmptySurvivors();
    }
    var o := GcOutcome(t, events, {}, 1);
    assert o == Outcome(t, events + [End(e.tid)]);
    assert GcOutcome(t, o.events, {}, 2).events == events + [End(e.tid)] + [End(e.tid)];
  }

  lemma EmptySurvivors()
    ensures Survivors([], {}) == []
  {
  }

  lemma {:induction false} OnlyBucket(t: Table, i: Index, e: Thread, n: nat)
    requires n <= SIZE && t[i] == [e] && forall j: Index :: j != i ==> t[j] == []
    ensures Copies(t, n) == if i < n then 1 else 0
    ensures Records(t, {}, n) == if i < n then 1 else 0
    ensures SweepEvents(t, {}, n) == if i < n then [End(e.tid)] else []
    ensures Reached(t, {}, 0, n) == if i < n then i else n
    decreases n
  {
    assert DeadEnds([e], {}) == [End(e.tid)] by {
      assert [e][..0] == [];
    }
    if n > 0 {
      OnlyBucket(t, i, e, n - 1);
    }
  }

  /** Even when memory runs out, items stay in their buckets, once each, with the top bit set. */
  lemma OutcomesWellPlaced(t: Table, hash: Tid -> Index, events: seq<Event>, e: Thread, seen: set<Thread>, m: nat)
    requires WellPlaced(t, hash) && HasTop(e.tid)
    ensures WellPlaced(AddOutcome(t, hash, events, e, m).table, hash)
    ensures WellPlaced(GcOutcome(t, events, seen, m).table, hash)
  {
    hide Without, EndsOf, Passed, Survivors, Unique, Copies, Reached, SweepEvents;
    forall i: Index, q: nat | q <= SIZE
      ensures BucketPlaced(Swept(t, seen, q)[i], hash, i)
      ensures i == hash(e.tid) ==> BucketPlaced(Added(t[i], e), hash, i)
    {
      assert BucketPlaced(t[i], hash, i);
      SurvivorsUnique(t[i], seen);
      WithoutUnique(t[i], e.tid);
      UniqueFront(Without(t[i], e.tid), e);
    }
    forall i: Index
      ensures BucketPlaced(AddOutcome(t, hash, events, e, m).table[i], hash, i)
    {
      assert BucketPlaced(t[i], hash, i);
      assert BucketPlaced(Swept(t, seen, 0)[i], hash, i);
    }
  }
}
