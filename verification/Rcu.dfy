/**
 Who may touch the memory of a bucket when: lock-free readers inside read-side critical
 sections, one updater at a time building, publishing and retiring buckets, and the RCU
 callbacks that free them.  Addresses of freed buckets are reused.
 */
module Rcu {
  import opened Basics
  import opened ThreadSpec

  type Address = nat
  type Reader = nat

  /** What a reader got when it dereferenced the table: an address, and the items then there. */
  datatype View = View(at: Address, items: Bucket)

  /**
   `own` are buckets the updater has not published, `unlinked` those it has replaced,
   `waiting` maps a bucket given to call_rcu to the readers its grace period waits for.
   */
  datatype State = State(heap: map<Address, Bucket>, table: seq<Option<Address>>, own: set<Address>,
                         unlinked: set<Address>, waiting: map<Address, set<Reader>>,
                         readers: map<Reader, Option<View>>)

  datatype Step =
    | ReadLock(r: Reader)
    | Dereference(r: Reader, i: nat)
    | ReadUnlock(r: Reader)
    | Allocate(at: Address, items: Bucket)
    | Write(at: Address, items: Bucket)
    | Discard(at: Address)
    | Publish(i: nat, at: Address)
    | PublishEmpty(i: nat)
    | CallRcu(at: Address)
    | Reclaim(at: Address)
    | Destroy(at: Address)

  ghost predicate Init(s: State) {
    && s.heap == map[] && (forall i :: 0 <= i < |s.table| ==> s.table[i].None?)
    && s.own == {} && s.unlinked == {} && s.waiting == map[] && s.readers == map[]
  }

  predicate Enabled(s: State, step: Step) {
    match step
    case ReadLock(r) => r !in s.readers
    case Dereference(r, i) => r in s.readers && s.readers[r].None? && i < |s.table|
    case ReadUnlock(r) => r in s.readers
    case Allocate(at, _) => at !in s.heap
    case Write(at, _) => at in s.own
    case Discard(at) => at in s.own
    case Publish(i, at) => i < |s.table| && at in s.own
    case PublishEmpty(i) => i < |s.table|
    case CallRcu(at) => at in s.unlinked
    case Reclaim(at) => at in s.waiting && s.waiting[at] == {}
    // without a grace period, when there are no readers any more
    case Destroy(at) => at in s.unlinked && s.readers == map[]
  }

  /** The bucket at `i` is replaced; the old one is out of the readers' way but not free. */
  function Replace(s: State, i: nat, p: Option<Address>): State
    requires i < |s.table|
  {
    s.(table := s.table[i := p],
       unlinked := if s.table[i].Some? then s.unlinked + {s.table[i].value} else s.unlinked)
  }

  function Apply(s: State, step: Step): State
    requires Enabled(s, step)
  {
    match step
    case ReadLock(r) => s.(readers := s.readers[r := None])
    case Dereference(r, i) =>
      if s.table[i].None? then s
      else
        var at := s.table[i].value;
        s.(readers := s.readers[r := Some(View(at, if at in s.heap then s.heap[at] else []))])
    case ReadUnlock(r) =>
      s.(readers := s.readers - {r}, waiting := map at | at in s.waiting :: s.waiting[at] - {r})
    case Allocate(at, items) => s.(heap := s.heap[at := items], own := s.own + {at})
    case Write(at, items) => s.(heap := s.heap[at := items])
    case Discard(at) => s.(heap := s.heap - {at}, own := s.own - {at})
    case Publish(i, at) => Replace(s.(own := s.own - {at}), i, Some(at))
    case PublishEmpty(i) => Replace(s, i, None)
    case CallRcu(at) => s.(unlinked := s.unlinked - {at}, waiting := s.waiting[at := s.readers.Keys])
    case Reclaim(at) => s.(heap := s.heap - {at}, waiting := s.waiting - {at})
    case Destroy(at) => s.(heap := s.heap - {at}, unlinked := s.unlinked - {at})
  }

  ghost predicate Published(s: State, at: Address) { exists i :: 0 <= i < |s.table| && s.table[i] == Some(at) }

  /** Each bucket in memory is in exactly one of the four situations, so none is lost or freed twice. */
  ghost predicate Accounted(s: State) {
    && (forall at :: at in s.heap <==> at in s.own || at in s.unlinked || at in s.waiting || Published(s, at))
    && s.own !! s.unlinked && s.own !! s.waiting.Keys && s.unlinked !! s.waiting.Keys
    && (forall i :: 0 <= i < |s.table| && s.table[i].Some? ==>
          s.table[i].value !in s.own && s.table[i].value !in s.unlinked && s.table[i].value !in s.waiting)
    && (forall i, j :: 0 <= i < j < |s.table| && s.table[i].Some? ==> s.table[i] != s.table[j])
  }

  /** The bucket a reader holds is still there, as the reader found it. */
  ghost predicate SafeView(s: State, r: Reader)
    requires r in s.readers
  {
    s.readers[r].Some? ==>
      var v := s.readers[r].value;
      && v.at in s.heap && s.heap[v.at] == v.items && v.at !in s.own
      && (v.at in s.waiting ==> r in s.waiting[v.at])
  }

  ghost predicate Inv(s: State) {
    && Accounted(s) && (forall r :: r in s.readers ==> SafeView(s, r))
    // a grace period waits only for readers that are inside
    && (forall at :: at in s.waiting ==> s.waiting[at] <= s.readers.Keys)
  }

  lemma Replaced(s: State, i: nat, p: Option<Address>)
    requires i < |s.table|
    ensures var s' := Replace(s, i, p);
            forall at: Address :: Published(s', at) <==>
            p == Some(at) || exists j :: 0 <= j < |s.table| && j != i && s.table[j] == Some(at)
  {
    var s' := Replace(s, i, p);
    forall at: Address
      ensures Published(s', at) <==> p == Some(at) || exists j :: 0 <= j < |s.table| && j != i && s.table[j] == Some(at)
    {
      if p == Some(at) {
        assert s'.table[i] == Some(at);
      }
      if j :| 0 <= j < |s.table| && j != i && s.table[j] == Some(at) {
        assert s'.table[j] == Some(at);
      }
    }
  }

  lemma PublishKeeps(s: State, i: nat, at: Address)
    requires Inv(s) && Enabled(s, Publish(i, at))
    ensures Inv(Apply(s, Publish(i, at)))
  {
    Replaced(s.(own := s.own - {at}), i, Some(at));
    var s' := Apply(s, Publish(i, at));
    assert Accounted(s') by {
      forall x
        ensures x in s'.heap <==> x in s'.own || x in s'.unlinked || x in s'.waiting || Published(s', x)
      {
        if Published(s, x) {
          var j :| 0 <= j < |s.table| && s.table[j] == Some(x);
        }
      }
    }
    assert forall r :: r in s.readers ==> SafeView(s, r);
  }

  lemma PublishEmptyKeeps(s: State, i: nat)
    requires Inv(s) && Enabled(s, PublishEmpty(i))
    ensures Inv(Apply(s, PublishEmpty(i)))
  {
    Replaced(s, i, None);
    var s' := Apply(s, PublishEmpty(i));
    assert Accounted(s') by {
      forall x
        ensures x in s'.heap <==> x in s'.own || x in s'.unlinked || x in s'.waiting || Published(s', x)
      {
        if Published(s, x) {
          var j :| 0 <= j < |s.table| && s.table[j] == Some(x);
        }
      }
    }
    assert forall r :: r in s.readers ==> SafeView(s, r);
  }

  lemma ReaderKeeps(s: State, step: Step)
    requires Inv(s) && Enabled(s, step) && (step.ReadLock? || step.Dereference? || step.ReadUnlock?)
    ensures Inv(Apply(s, step))
  {
    var s' := Apply(s, step);
    assert s'.table == s.table && s'.waiting.Keys == s.waiting.Keys;
    assert forall at :: Published(s', at) <==> Published(s, at);
    if step.Dereference? && s.table[step.i].Some? {
      assert Published(s, s.table[step.i].value);
    }
    forall r | r in s'.readers
      ensures SafeView(s', r)
    {
      assert r in s.readers ==> SafeView(s, r);
    }
  }

  lemma MemoryKeeps(s: State, step: Step)
    requires Inv(s) && Enabled(s, step)
    requires step.Allocate? || step.Write? || step.Discard? || step.CallRcu? || step.Reclaim? || step.Destroy?
    ensures Inv(Apply(s, step))
  {
    var s' := Apply(s, step);
    assert s'.table == s.table;
    assert forall at :: Published(s', at) <==> Published(s, at);
    forall i | 0 <= i < |s.table| && s.table[i].Some?
      ensures s.table[i].value in s.heap
    {
      assert Published(s, s.table[i].value);
    }
    forall r | r in s'.readers
      ensures SafeView(s', r)
    {
      assert SafeView(s, r);
    }
  }

  lemma StepKeepsInv(s: State, step: Step)
    requires Inv(s) && Enabled(s, step)
    ensures Inv(Apply(s, step))
  {
    hide Inv, Apply;
    match step
    case Publish(i, at) => PublishKeeps(s, i, at);
    case PublishEmpty(i) => PublishEmptyKeeps(s, i);
    case ReadLock(_) => ReaderKeeps(s, step);
    case Dereference(_, _) => ReaderKeeps(s, step);
    case ReadUnlock(_) => ReaderKeeps(s, step);
    case _ => MemoryKeeps(s, step);
  }

  ghost predicate Run(run: seq<State>, steps: seq<Step>)
    decreases |steps|
  {
    if steps == [] then |run| == 1 && Init(run[0])
    else
      var n := |steps| - 1;
      && |run| == n + 2 && Run(run[..n + 1], steps[..n])
      && Enabled(run[n], steps[n]) && run[n + 1] == Apply(run[n], steps[n])
  }

  /**
   In every run, whatever a reader dereferenced stays allocated and unchanged until it leaves
   its critical section, and every bucket in memory is accounted for.
   */
  lemma {:induction false} ReadersAreSafe(run: seq<State>, steps: seq<Step>)
    requires Run(run, steps)
    ensures forall k :: 0 <= k < |run| ==> Inv(run[k])
    decreases |steps|
  {
    hide Inv, Enabled, Apply;
    if steps == [] {
      InitInv(run[0]);
    } else {
      var n := |steps| - 1;
      var before := run[..n + 1];
      ReadersAreSafe(before, steps[..n]);
      assert before[n] == run[n];
      StepKeepsInv(run[n], steps[n]);
      forall k | 0 <= k < |run|
        ensures Inv(run[k])
      {
        assert k < n + 1 ==> run[k] == before[k];
      }
    }
  }

  lemma InitInv(s: State)
    requires Init(s)
    ensures Inv(s)
  {
  }

  /** Running on: one more step at the end. */
  lemma RunSnoc(run: seq<State>, steps: seq<Step>, step: Step)
    requires Run(run, steps) && run != [] && Enabled(run[|run| - 1], step)
    ensures Run(run + [Apply(run[|run| - 1], step)], steps + [step])
  {
    hide Enabled, Apply, Init;
    var s := run[|run| - 1];
    var run', steps' := run + [Apply(s, step)], steps + [step];
    var n := |steps|;
    RunLength(run, steps);
    assert steps'[..n] == steps && run'[..n + 1] == run && steps'[n] == step;
  }

  lemma RunLength(run: seq<State>, steps: seq<Step>)
    requires Run(run, steps)
    ensures |run| == |steps| + 1
  {
  }

  lemma {:induction false} RunStep(run: seq<State>, steps: seq<Step>, k: nat)
    requires Run(run, steps) && k < |steps|
    ensures |run| == |steps| + 1 && Enabled(run[k], steps[k]) && run[k + 1] == Apply(run[k], steps[k])
    decreases |steps|
  {
    hide Enabled, Apply, Init;
    var n := |steps| - 1;
    RunLength(run, steps);
    if k < n {
      RunStep(run[..n + 1], steps[..n], k);
    }
  }

  ghost predicate OfReader(step: Step, r: Reader) {
    (step.ReadLock? || step.Dereference? || step.ReadUnlock?) && step.r == r
  }

  /** What the bucket at `i` holds. */
  ghost function Items(s: State, i: nat): Bucket
    requires i < |s.table|
  {
    if s.table[i].Some? && s.table[i].value in s.heap then s.heap[s.table[i].value] else []
  }

  /**
   A reader that dereferenced bucket `i` at step `j` finds at `k`, still in the same critical
   section, what the bucket held at `j`, whatever the updaters have done since.
   */
  lemma {:induction false} StaleSnapshot(run: seq<State>, steps: seq<Step>, r: Reader, i: nat, j: nat, k: nat)
    requires Run(run, steps) && j < k <= |steps| && steps[j] == Dereference(r, i)
    requires forall m :: j < m < k ==> !OfReader(steps[m], r)
    ensures |run| == |steps| + 1 && i < |run[j].table| && r in run[k].readers
    ensures match run[k].readers[r]
            case None => Items(run[j], i) == []
            case Some(v) => v.at in run[k].heap && run[k].heap[v.at] == Items(run[j], i)
    decreases k
  {
    hide Inv, Accounted;
    RunStep(run, steps, k - 1);
    ReadersAreSafe(run, steps);
    InvViews(run[j]);
    InvViews(run[k]);
    if j == k - 1 {
      InvTable(run[j], i);
    } else {
      StaleSnapshot(run, steps, r, i, j, k - 1);
      InvViews(run[k - 1]);
      OthersKeepView(run[k - 1], steps[k - 1], r);
    }
  }

  lemma InvViews(s: State)
    requires Inv(s)
    ensures forall r :: r in s.readers ==> SafeView(s, r)
  {
  }

  lemma InvTable(s: State, i: nat)
    requires Inv(s) && i < |s.table|
    ensures s.table[i].Some? ==> s.table[i].value in s.heap
  {
    assert s.table[i].Some? ==> Published(s, s.table[i].value);
  }

  lemma OthersKeepView(s: State, step: Step, r: Reader)
    requires Enabled(s, step) && r in s.readers && !OfReader(step, r)
    ensures var s' := Apply(s, step); r in s'.readers && s'.readers[r] == s.readers[r]
  {
  }

  /** A grace period can always end: once no reader is left inside, every retired bucket can be freed. */
  lemma NoReaderNoWait(s: State, at: Address)
    requires Inv(s) && s.readers == map[] && at in s.waiting
    ensures Enabled(s, Reclaim(at))
  {
    assert s.waiting[at] <= s.readers.Keys;
  }
}
