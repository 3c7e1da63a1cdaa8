/**
 The thread table of tid.c as values: buckets, the live/dead flag in the top bit of the
 thread ID, the events reported, and what an update does to all of them.
 */
module ThreadSpec {

  const TOP := 0x8000_0000_0000_0000
  const SIZE := 1024

  type Tid = x: int | 0 <= x < 0x1_0000_0000_0000_0000
  type Index = x: int | 0 <= x < SIZE

  /** A task structure, or an item of the table: thread ID and start time. */
  datatype Thread = Thread(tid: Tid, start: int)

  datatype Event = Start(tid: Tid) | End(tid: Tid)

  type Bucket = seq<Thread>
  type Table = t: seq<Bucket> | |t| == SIZE witness seq(SIZE, _ => [])

  // ------------------------------------------------------------ the mark bit

  function SetTop(t: Tid): Tid { if t < TOP then t + TOP else t }

  function ClearTop(t: Tid): Tid { if t < TOP then t else t - TOP }

  predicate HasTop(t: Tid) { t >= TOP }

  function MarkLive(e: Thread): Thread { e.(tid := SetTop(e.tid)) }

  function MarkDead(e: Thread): Thread { e.(tid := ClearTop(e.tid)) }

  /** Marking an item dead and then live gives it back exactly when its top bit was set. */
  lemma MarkRoundTrip(e: Thread)
    ensures MarkLive(MarkDead(e)) == e <==> HasTop(e.tid)
    ensures MarkLive(MarkLive(MarkDead(e))) == MarkLive(MarkDead(e)) && !HasTop(MarkDead(e).tid)
  {
  }

  // ------------------------------------------------------------- buckets

  predicate HasTid(b: Bucket, tid: Tid) { exists e :: e in b && e.tid == tid }

  ghost predicate Unique(b: Bucket) {
    forall i, j :: 0 <= i < j < |b| ==> b[i].tid != b[j].tid
  }

  /** The items of other threads, in order. */
  function Without(b: Bucket, tid: Tid): (r: Bucket)
    ensures forall e :: e in r <==> e in b && e.tid != tid
    ensures |r| <= |b| && (|r| < |b| <==> HasTid(b, tid))
  {
    if b == [] then []
    else
      var n := |b| - 1;
      var r := Without(b[..n], tid);
      assert b == b[..n] + [b[n]];
      if b[n].tid == tid then r else r + [b[n]]
  }

  /** One "thread end" for each item of `tid`. */
  function EndsOf(b: Bucket, tid: Tid): (r: seq<Event>)
    ensures r == [] <==> !HasTid(b, tid)
  {
    if b == [] then []
    else
      var n := |b| - 1;
      var r := EndsOf(b[..n], tid);
      assert b == b[..n] + [b[n]];
      if b[n].tid == tid then r + [End(tid)] else r
  }

  lemma {:induction false} WithoutUnique(b: Bucket, tid: Tid)
    requires Unique(b)
    ensures Unique(Without(b, tid))
    decreases |b|
  {
    if b != [] {
      var n := |b| - 1;
      UniquePrefix(b);
      WithoutUnique(b[..n], tid);
      var r := Without(b[..n], tid);
      assert forall k :: 0 <= k < |r| ==> r[k] in r;
    }
  }

  lemma UniquePrefix(b: Bucket)
    requires Unique(b) && b != []
    ensures Unique(b[..|b| - 1]) && !HasTid(b[..|b| - 1], b[|b| - 1].tid)
  {
    var n := |b| - 1;
    forall e | e in b[..n]
      ensures e.tid != b[n].tid
    {
      var k :| 0 <= k < n && b[..n][k] == e;
    }
  }

  lemma UniqueFront(r: Bucket, e: Thread)
    requires Unique(r) && !HasTid(r, e.tid)
    ensures Unique([e] + r)
  {
    var c := [e] + r;
    assert forall k :: 1 <= k < |c| ==> c[k] == r[k - 1] && r[k - 1] in r;
  }

  /** At most one item of a thread ID, so at most one "thread end". */
  lemma {:induction false} OneEnd(b: Bucket, tid: Tid)
    requires Unique(b)
    ensures EndsOf(b, tid) == if HasTid(b, tid) then [End(tid)] else []
    ensures |Without(b, tid)| + |EndsOf(b, tid)| == |b|
    decreases |b|
  {
    if b != [] {
      var n := |b| - 1;
      UniquePrefix(b);
      OneEnd(b[..n], tid);
      assert b == b[..n] + [b[n]];
      assert HasTid(b, tid) <==> HasTid(b[..n], tid) || b[n].tid == tid;
    }
  }

  /** Which items a garbage collection keeps: those with a live task of the same ID and start time. */
  function Survivors(b: Bucket, seen: set<Thread>): (r: Bucket)
    ensures forall e :: e in r <==> e in b && e in seen
    ensures |r| <= |b| && (|r| == |b| ==> r == b)
  {
    if b == [] then []
    else
      var n := |b| - 1;
      var r := Survivors(b[..n], seen);
      assert b == b[..n] + [b[n]];
      if b[n] in seen then r + [b[n]] else r
  }

  function DeadEnds(b: Bucket, seen: set<Thread>): (r: seq<Event>)
    ensures r == [] <==> Survivors(b, seen) == b
  {
    if b == [] then []
    else
      var n := |b| - 1;
      var r := DeadEnds(b[..n], seen);
      assert b == b[..n] + [b[n]];
      if b[n] in seen then r else r + [End(b[n].tid)]
  }

  lemma {:induction false} SurvivorsUnique(b: Bucket, seen: set<Thread>)
    requires Unique(b)
    ensures Unique(Survivors(b, seen))
    decreases |b|
  {
    if b != [] {
      var n := |b| - 1;
      assert b == b[..n] + [b[n]];
      SurvivorsUnique(b[..n], seen);
      var r := Survivors(b[..n], seen);
      forall e | e in r
        ensures e.tid != b[n].tid
      {
        var k :| 0 <= k < n && b[..n][k] == e;
        assert b[k].tid != b[n].tid;
      }
    }
  }

  // --------------------------------------------------------------- events

  /** The last event of this thread ID is a "thread start". */
  ghost predicate Open(events: seq<Event>, tid: Tid)
    decreases |events|
  {
    if events == [] then false
    else
      var last := events[|events| - 1];
      if last.tid == tid then last.Start? else Open(events[..|events| - 1], tid)
  }

  /** For every thread ID: start, end, start, end, ... */
  ghost predicate Alternating(events: seq<Event>) {
    forall k :: 0 <= k < |events| ==> (events[k].Start? <==> !Open(events[..k], events[k].tid))
  }

  lemma OpenSnoc(events: seq<Event>, e: Event, tid: Tid)
    ensures Open(events + [e], tid) <==> if e.tid == tid then e.Start? else Open(events, tid)
  {
    assert (events + [e])[..|events|] == events;
  }

  lemma AlternatingSnoc(events: seq<Event>, e: Event)
    requires Alternating(events) && (e.Start? <==> !Open(events, e.tid))
    ensures Alternating(events + [e])
  {
    var all := events + [e];
    forall k | 0 <= k < |all|
      ensures all[k].Start? <==> !Open(all[..k], all[k].tid)
    {
      assert all[..k] == if k < |events| then events[..k] else events;
      assert k < |events| ==> all[k] == events[k];
    }
  }

  // ---------------------------------------------------- table against events

  /** Every item sits in its bucket, once, and has the top bit of its ID set. */
  ghost predicate WellPlaced(t: Table, hash: Tid -> Index) {
    forall i: Index :: BucketPlaced(t[i], hash, i)
  }

  ghost predicate BucketPlaced(b: Bucket, hash: Tid -> Index, i: Index) {
    Unique(b) && forall e :: e in b ==> hash(e.tid) == i && HasTop(e.tid)
  }

  /** The table holds exactly the threads whose last event is a start. */
  ghost predicate Agrees(t: Table, hash: Tid -> Index, events: seq<Event>) {
    forall tid: Tid :: HasTid(t[hash(tid)], tid) <==> Open(events, tid)
  }

  ghost predicate Consistent(t: Table, hash: Tid -> Index, events: seq<Event>) {
    WellPlaced(t, hash) && Alternating(events) && Agrees(t, hash, events)
  }

  /** The bucket and the events after thread `e` is added. */
  function Added(b: Bucket, e: Thread): Bucket { [e] + Without(b, e.tid) }

  function AddEvents(b: Bucket, e: Thread): seq<Event> { EndsOf(b, e.tid) + [Start(e.tid)] }

  lemma AddConsistent(t: Table, hash: Tid -> Index, events: seq<Event>, e: Thread)
    requires Consistent(t, hash, events) && HasTop(e.tid)
    ensures var i := hash(e.tid);
            Consistent(t[i := Added(t[i], e)], hash, events + AddEvents(t[i], e))
  {
    hide Without, EndsOf, Open, Alternating, Unique;
    var i := hash(e.tid);
    var b := t[i];
    assert BucketPlaced(b, hash, i);
    WithoutUnique(b, e.tid);
    OneEnd(b, e.tid);
    UniqueFront(Without(b, e.tid), e);
    var mid := events + EndsOf(b, e.tid);
    if HasTid(b, e.tid) {
      assert Open(events, e.tid);
      AlternatingSnoc(events, End(e.tid));
    } else {
      assert mid == events;
    }
    forall tid: Tid
      ensures Open(mid, tid) <==> Open(events, tid) && tid != e.tid
      ensures Open(mid + [Start(e.tid)], tid) <==> Open(events, tid) || tid == e.tid
    {
      OpenSnoc(events, End(e.tid), tid);
      OpenSnoc(mid, Start(e.tid), tid);
    }
    AlternatingSnoc(mid, Start(e.tid));
    assert mid + [Start(e.tid)] == events + AddEvents(b, e);
    var t' := t[i := Added(b, e)];
    forall tid: Tid
      ensures HasTid(t'[hash(tid)], tid) <==> HasTid(t[hash(tid)], tid) || tid == e.tid
    {
      if hash(tid) == i {
        AddedTids(b, e, tid);
      }
    }
    forall j: Index
      ensures BucketPlaced(t'[j], hash, j)
    {
      assert BucketPlaced(t[j], hash, j);
    }
  }

  lemma AddedTids(b: Bucket, e: Thread, tid: Tid)
    ensures HasTid(Added(b, e), tid) <==> HasTid(b, tid) || tid == e.tid
  {
    hide Without;
    assert e in Added(b, e);
    assert forall x :: x in Added(b, e) <==> x == e || x in Without(b, e.tid);
    if HasTid(b, tid) && tid != e.tid {
      var x :| x in b && x.tid == tid;
      assert x in Added(b, e);
    }
  }

  // --------------------------------------------------------- a collection

  /** Buckets up to `n` swept. */
  function Swept(t: Table, seen: set<Thread>, n: nat): (r: Table)
    requires n <= SIZE
    ensures forall i: Index :: r[i] == if i < n then Survivors(t[i], seen) else t[i]
  {
    seq(SIZE, i requires 0 <= i < SIZE => if i < n then Survivors(t[i], seen) else t[i])
  }

  function SweepEvents(t: Table, seen: set<Thread>, n: nat): seq<Event>
    requires n <= SIZE
  {
    if n == 0 then [] else SweepEvents(t, seen, n - 1) + DeadEnds(t[n - 1], seen)
  }

  /** The "thread end" events of one bucket close exactly its dead items. */
  lemma {:induction false} BucketSweep(b: Bucket, seen: set<Thread>, events: seq<Event>)
    requires Unique(b) && Alternating(events)
    requires forall e :: e in b ==> Open(events, e.tid)
    ensures Alternating(events + DeadEnds(b, seen))
    ensures forall tid: Tid :: Open(events + DeadEnds(b, seen), tid) <==>
              Open(events, tid) && (HasTid(b, tid) ==> HasTid(Survivors(b, seen), tid))
    decreases |b|
  {
    hide Open, Alternating;
    if b == [] {
      assert events + [] == events;
    } else {
      var n := |b| - 1;
      assert b == b[..n] + [b[n]];
      UniquePrefix(b);
      assert forall e :: e in b[..n] ==> e in b;
      BucketSweep(b[..n], seen, events);
      var mid := events + DeadEnds(b[..n], seen);
      SweepLast(b, seen, events, mid);
    }
  }

  lemma SweepLast(b: Bucket, seen: set<Thread>, events: seq<Event>, mid: seq<Event>)
    requires b != [] && Unique(b) && Alternating(mid)
    requires var n := |b| - 1; mid == events + DeadEnds(b[..n], seen) && Open(events, b[n].tid)
    requires var n := |b| - 1; forall tid: Tid :: Open(mid, tid) <==>
               Open(events, tid) && (HasTid(b[..n], tid) ==> HasTid(Survivors(b[..n], seen), tid))
    ensures Alternating(events + DeadEnds(b, seen))
    ensures forall tid: Tid :: Open(events + DeadEnds(b, seen), tid) <==>
              Open(events, tid) && (HasTid(b, tid) ==> HasTid(Survivors(b, seen), tid))
  {
    hide Open, Alternating, Unique;
    var n := |b| - 1;
    var init, e := b[..n], b[n];
    assert b == init + [e];
    UniquePrefix(b);
    assert forall tid: Tid :: HasTid(b, tid) <==> HasTid(init, tid) || tid == e.tid by {
      assert forall x :: x in b <==> x in init || x == e;
      assert forall x :: x in init ==> x in b;
    }
    var s, s' := Survivors(init, seen), Survivors(b, seen);
    assert !HasTid(s, e.tid) by {
      assert forall x :: x in s ==> x in init;
    }
    if e in seen {
      assert s' == s + [e] && e in s';
      assert forall tid: Tid :: HasTid(s', tid) <==> HasTid(s, tid) || tid == e.tid by {
        assert forall x :: x in s' <==> x in s || x == e;
      }
    } else {
      assert s' == s;
      assert events + DeadEnds(b, seen) == mid + [End(e.tid)];
      AlternatingSnoc(mid, End(e.tid));
      forall tid: Tid {
        OpenSnoc(mid, End(e.tid), tid);
      }
    }
  }

  /** A whole collection keeps the table and the events in agreement. */
  lemma {:induction false} SweepConsistent(t: Table, hash: Tid -> Index, events: seq<Event>, seen: set<Thread>, n: nat)
    requires Consistent(t, hash, events) && n <= SIZE
    ensures Consistent(Swept(t, seen, n), hash, events + SweepEvents(t, seen, n))
    decreases n
  {
    hide Open, Alternating, Survivors, DeadEnds, Unique;
    if n == 0 {
      assert Swept(t, seen, 0) == t && events + [] == events;
    } else {
      SweepConsistent(t, hash, events, seen, n - 1);
      var mid, t' := events + SweepEvents(t, seen, n - 1), Swept(t, seen, n - 1);
      assert events + SweepEvents(t, seen, n) == mid + DeadEnds(t[n - 1], seen);
      SweepNext(t', hash, mid, seen, n - 1);
      assert Swept(t, seen, n) == t'[n - 1 := Survivors(t[n - 1], seen)];
    }
  }

  lemma SweepNext(t: Table, hash: Tid -> Index, events: seq<Event>, seen: set<Thread>, i: Index)
    requires Consistent(t, hash, events)
    ensures Consistent(t[i := Survivors(t[i], seen)], hash, events + DeadEnds(t[i], seen))
  {
    hide Open, Alternating, Survivors, DeadEnds, Unique;
    var b := t[i];
    assert BucketPlaced(b, hash, i);
    forall e | e in b
      ensures Open(events, e.tid)
    {
      assert HasTid(t[hash(e.tid)], e.tid);
    }
    BucketSweep(b, seen, events);
    SurvivorsUnique(b, seen);
    var t' := t[i := Survivors(b, seen)];
    var after := events + DeadEnds(b, seen);
    forall tid: Tid
      ensures HasTid(t'[hash(tid)], tid) <==> Open(after, tid)
    {
      if hash(tid) == i {
        assert HasTid(Survivors(b, seen), tid) ==> HasTid(b, tid);
      } else {
        assert !HasTid(b, tid);
      }
    }
    forall j: Index
      ensures BucketPlaced(t'[j], hash, j)
    {
      assert BucketPlaced(t[j], hash, j);
    }
  }
}
