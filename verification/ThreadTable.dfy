/**
 Looking a thread up, the marks of a garbage collection, and how the loops over buckets and the
 table unfold.
 */
module ThreadTable {
  import opened ThreadSpec
  import opened ThreadFailure

  /** Shadow items after the tasks in `seen` were visited. */
  ghost function Marked(b: Bucket, seen: set<Thread>): (r: Bucket)
    ensures |r| == |b|
    ensures forall k :: 0 <= k < |b| ==> r[k] == if b[k] in seen then b[k] else MarkDead(b[k])
  {
    seq(|b|, k requires 0 <= k < |b| => if b[k] in seen then b[k] else MarkDead(b[k]))
  }

  ghost function Members(tasks: seq<Thread>): set<Thread> { set t | t in tasks }

  ghost predicate AllTop(b: Bucket) { forall e :: e in b ==> HasTop(e.tid) }

  predicate SameThread(task: Thread, item: Thread) {
    task.tid == SetTop(item.tid) && task.start == item.start
  }

  /** A marked item is recognised by its own task and by no other. */
  lemma SameThreadExact(b: Bucket, seen: set<Thread>, task: Thread, k: nat)
    requires AllTop(b) && k < |b|
    ensures SameThread(task, Marked(b, seen)[k]) <==> task == b[k]
  {
    assert b[k] in b;
  }

  lemma MarkOne(b: Bucket, seen: set<Thread>, task: Thread, k: nat)
    requires AllTop(b) && Unique(b) && k < |b| && b[k] == task
    ensures Marked(b, seen)[k := MarkLive(Marked(b, seen)[k])] == Marked(b, seen + {task})
  {
    assert b[k] in b;
    assert forall j :: 0 <= j < |b| && j != k ==> b[j] != task;
  }

  lemma MarkNone(b: Bucket, seen: set<Thread>, task: Thread)
    requires task !in b
    ensures Marked(b, seen) == Marked(b, seen + {task})
  {
    assert forall j :: 0 <= j < |b| ==> b[j] in b;
  }

  /** No item has the thread ID 0 that stands for "no task". */
  lemma CopyWhole(b: Bucket, p: nat)
    requires AllTop(b) && p <= |b|
    ensures Without(b, 0) == b && EndsOf(b[..p], 0) == []
  {
    assert forall e :: e in b[..p] ==> e in b;
    WithoutAbsent(b, 0);
  }

  /** The lock-free look-up of kedr_thread_handle_changes in the bucket `b` of its ID: is `task` new? */
  method IsNew(b: Bucket, task: Thread, ghost t: Table, ghost hash: Tid -> Index) returns (fresh_: bool)
    requires WellPlaced(t, hash) && b == t[hash(task.tid)]
    ensures fresh_ <==> forall i: Index :: task !in t[i]
  {
    PlacedAt(t, hash, hash(task.tid));
    forall j: Index | j != hash(task.tid)
      ensures task !in t[j]
    {
      PlacedAt(t, hash, j);
    }
    hide WellPlaced;
    var k := 0;
    while k < |b|
      invariant k <= |b| && forall j :: 0 <= j < k ==> b[j].tid != task.tid
    {
      if b[k].tid == task.tid {
        assert forall j :: 0 <= j < |b| && j != k ==> b[j].tid != task.tid;
        return b[k].start != task.start;
      }
      k := k + 1;
    }
    return true;
  }

  lemma EmptyConsistent(t: Table, hash: Tid -> Index)
    requires forall i: Index :: t[i] == []
    ensures Consistent(t, hash, [])
  {
    forall i: Index
      ensures BucketPlaced(t[i], hash, i)
    {
    }
  }

  lemma PlacedAt(t: Table, hash: Tid -> Index, i: Index)
    requires WellPlaced(t, hash)
    ensures BucketPlaced(t[i], hash, i)
  {
  }

  lemma TopBits(t: Table, hash: Tid -> Index, i: Index)
    requires WellPlaced(t, hash)
    ensures AllTop(t[i])
  {
    assert BucketPlaced(t[i], hash, i);
  }

  // ------------------------------------------------ unfoldings the loops need

  lemma CopyStart(b: Bucket, tid: Tid, m: nat)
    ensures Without(b[..0], tid) == [] && EndsOf(b[..0], tid) == [] && Passed(b[..0], tid, m) == 0
  {
  }

  lemma CopyNext(b: Bucket, tid: Tid, m: nat, k: nat)
    requires k < |b| && Passed(b[..k], tid, m) == k
    ensures b[k].tid == tid ==>
              Without(b[..k + 1], tid) == Without(b[..k], tid) &&
              EndsOf(b[..k + 1], tid) == EndsOf(b[..k], tid) + [End(tid)]
    ensures b[k].tid != tid ==>
              Without(b[..k + 1], tid) == Without(b[..k], tid) + [b[k]] &&
              EndsOf(b[..k + 1], tid) == EndsOf(b[..k], tid)
    ensures Passed(b[..k + 1], tid, m) == if b[k].tid == tid || |Without(b[..k], tid)| < m then k + 1 else k
  {
    assert b[..k + 1][..k] == b[..k];
  }

  lemma {:induction false} CopyStops(b: Bucket, tid: Tid, m: nat, k: nat)
    requires k < |b| && Passed(b[..k + 1], tid, m) == k
    ensures Passed(b, tid, m) == k
    decreases |b|
  {
    hide Without, HasTid;
    var n := |b| - 1;
    if k < n {
      assert b[..n][..k + 1] == b[..k + 1];
      CopyStops(b[..n], tid, m, k);
    } else {
      assert b[..k + 1] == b;
    }
  }

  lemma RemoveStart(b: Bucket, seen: set<Thread>)
    ensures Survivors(b[..0], seen) == [] && DeadEnds(b[..0], seen) == [] && |Marked(b, seen)| == |b|
  {
  }

  lemma RemoveNext(b: Bucket, seen: set<Thread>, k: nat)
    requires AllTop(b) && k < |b|
    ensures var item := Marked(b, seen)[k];
            if HasTop(item.tid)
            then Survivors(b[..k + 1], seen) == Survivors(b[..k], seen) + [item] &&
                 DeadEnds(b[..k + 1], seen) == DeadEnds(b[..k], seen)
            else Survivors(b[..k + 1], seen) == Survivors(b[..k], seen) &&
                 DeadEnds(b[..k + 1], seen) == DeadEnds(b[..k], seen) + [End(SetTop(item.tid))]
  {
    assert b[k] in b && b[..k + 1][..k] == b[..k];
  }

  lemma NextCopies(t: Table, n: nat)
    ensures Copies(t, 0) == 0
    ensures n < SIZE ==> Copies(t, n + 1) == Copies(t, n) + |t[n]|
  {
  }

  lemma {:induction false} CopiesGrow(t: Table, n: nat, n': nat)
    requires n <= n' <= SIZE
    ensures Copies(t, n) <= Copies(t, n')
    decreases n' - n
  {
    if n < n' {
      NextCopies(t, n);
      CopiesGrow(t, n + 1, n');
    }
  }

  lemma SweepStart(t: Table, seen: set<Thread>, m: nat)
    ensures Swept(t, seen, 0) == t && Records(t, seen, 0) == 0 && SweepEvents(t, seen, 0) == []
  {
  }

  lemma SweepTurn(t: Table, seen: set<Thread>, m: nat, i: Index)
    ensures Records(t, seen, i + 1) == Records(t, seen, i) + if DeadEnds(t[i], seen) == [] then 0 else 1
    ensures SweepEvents(t, seen, i + 1) == SweepEvents(t, seen, i) + DeadEnds(t[i], seen)
    ensures Swept(t, seen, i + 1) == Swept(t, seen, i)[i := Survivors(t[i], seen)]
  {
  }

  lemma {:induction false} SweepStops(t: Table, seen: set<Thread>, m: nat, i: Index)
    requires DeadEnds(t[i], seen) != [] && Records(t, seen, i) == m
    ensures Reached(t, seen, m, SIZE) == i
  {
    hide DeadEnds, Reached;
    var q := Reached(t, seen, m, SIZE);
    RecordsGrow(t, seen, i + 1, SIZE);
    if q < i {
      RecordsGrow(t, seen, q + 1, i);
    } else if i < q {
      RecordsGrow(t, seen, i + 1, q);
    }
  }

  lemma {:induction false} RecordsGrow(t: Table, seen: set<Thread>, n: nat, n': nat)
    requires n <= n' <= SIZE
    ensures Records(t, seen, n) <= Records(t, seen, n')
    decreases n' - n
  {
    hide DeadEnds;
    if n < n' {
      RecordsGrow(t, seen, n + 1, n');
    }
  }

  lemma EmptyBucket(b: Bucket, seen: set<Thread>)
    requires Marked(b, seen) == []
    ensures b == [] && Survivors(b, seen) == [] && DeadEnds(b, seen) == []
  {
    assert |b| == 0;
  }
}
