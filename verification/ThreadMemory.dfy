/**
 The updates of the thread table as tid.c performs them on memory: buckets are allocated, filled
 item by item, published, given to call_rcu or deleted, one step at a time, while readers come
 and go and RCU callbacks run between any two steps (`env`).  Every step is one that the state of
 the memory allows, whatever happens in between and wherever memory runs out.
 An address stands for a whole bucket.
 */
module ThreadMemory {
  import opened Basics
  import opened ThreadSpec
  import opened ThreadFailure
  import T = ThreadTable
  import R = Rcu

  // ------------------------------------------------- what the updater sees

  /** The buckets that are not waiting for a grace period. */
  datatype Mem = Mem(core: map<R.Address, Bucket>, table: seq<Option<R.Address>>, own: set<R.Address>,
                     unlinked: set<R.Address>)

  ghost function MemOf(s: R.State): (m: Mem)
    ensures m.table == s.table && m.own == s.own && m.unlinked == s.unlinked
  {
    Mem(map at | at in s.heap && at !in s.waiting :: s.heap[at], s.table, s.own, s.unlinked)
  }

  ghost predicate InTable(table: seq<Option<R.Address>>, at: R.Address) {
    exists i :: 0 <= i < |table| && table[i] == Some(at)
  }

  ghost predicate MemOk(m: Mem) {
    && (forall at :: at in m.core <==> at in m.own || at in m.unlinked || InTable(m.table, at))
    && m.own !! m.unlinked
    && (forall i :: 0 <= i < |m.table| && m.table[i].Some? ==>
        m.table[i].value !in m.own && m.table[i].value !in m.unlinked)
    && (forall i, j :: 0 <= i < j < |m.table| && m.table[i].Some? ==> m.table[i] != m.table[j])
  }

  lemma MemIsOk(s: R.State)
    requires R.Inv(s)
    ensures MemOk(MemOf(s))
  {
    assert forall at :: R.Published(s, at) <==> InTable(s.table, at);
    forall at | at in s.waiting
      ensures !InTable(s.table, at)
    {
    }
  }

  /** The callbacks that have not run, and the readers. */
  datatype Side = Side(pending: set<R.Address>, readers: map<R.Reader, Option<R.View>>)

  ghost function SideOf(s: R.State): Side { Side(s.waiting.Keys, s.readers) }

  ghost function Pending(a: Side, p: Option<R.Address>): Side {
    if p.Some? then a.(pending := a.pending + {p.value}) else a
  }

  predicate IsEnv(step: R.Step) { step.ReadLock? || step.Dereference? || step.ReadUnlock? || step.Reclaim? }

  /** Readers and callbacks do not change what the updater sees. */
  lemma EnvKeepsMem(s: R.State, step: R.Step)
    requires R.Enabled(s, step) && IsEnv(step)
    ensures MemOf(R.Apply(s, step)) == MemOf(s)
  {
  }

  lemma AllocateIs(s: R.State, at: R.Address, items: Bucket)
    requires R.Inv(s) && at !in s.heap
    ensures at !in MemOf(s).core && at !in MemOf(s).own
    ensures var m := MemOf(s);
            MemOf(R.Apply(s, R.Allocate(at, items))) == m.(core := m.core[at := items], own := m.own + {at})
  {
    assert at !in s.waiting;
  }

  lemma WriteIs(s: R.State, at: R.Address, items: Bucket)
    requires R.Inv(s) && at in s.own
    ensures var m := MemOf(s); MemOf(R.Apply(s, R.Write(at, items))) == m.(core := m.core[at := items])
  {
    assert at !in s.waiting;
  }

  lemma DiscardIs(s: R.State, at: R.Address)
    requires R.Inv(s) && at in s.own
    ensures var m := MemOf(s); MemOf(R.Apply(s, R.Discard(at))) == m.(core := m.core - {at}, own := m.own - {at})
  {
  }

  /** The bucket at `i` replaced. */
  ghost function Assigned(m: Mem, i: nat, p: Option<R.Address>): Mem
    requires i < |m.table|
  {
    m.(table := m.table[i := p], own := if p.Some? then m.own - {p.value} else m.own,
       unlinked := if m.table[i].Some? then m.unlinked + {m.table[i].value} else m.unlinked)
  }

  lemma CallRcuIs(s: R.State, at: R.Address)
    requires R.Inv(s) && at in s.unlinked
    ensures var m := MemOf(s);
                MemOf(R.Apply(s, R.CallRcu(at))) == m.(core := m.core - {at}, unlinked := m.unlinked - {at})
    ensures SideOf(R.Apply(s, R.CallRcu(at))) == Pending(SideOf(s), Some(at))
  {
  }

  lemma DestroyIs(s: R.State, at: R.Address)
    requires R.Inv(s) && at in s.unlinked && s.readers == map[]
    ensures var m := MemOf(s);
                MemOf(R.Apply(s, R.Destroy(at))) == m.(core := m.core - {at}, unlinked := m.unlinked - {at})
  {
  }

  // -------------------------------------------------------- the table it holds

  ghost function Held(core: map<R.Address, Bucket>, p: Option<R.Address>): Bucket {
    if p.Some? && p.value in core then core[p.value] else []
  }

  /** The table that the memory stands for. */
  ghost function Denote(m: Mem): Table
    requires |m.table| == SIZE
  {
    seq(SIZE, i requires 0 <= i < SIZE => Held(m.core, m.table[i]))
  }

  /** An empty bucket has no memory. */
  ghost predicate Filled(m: Mem) {
    forall i :: 0 <= i < |m.table| && m.table[i].Some? ==> Held(m.core, m.table[i]) != []
  }

  lemma InCore(m: Mem, i: nat)
    requires MemOk(m) && i < |m.table| && m.table[i].Some?
    ensures m.table[i].value in m.core
  {
    assert InTable(m.table, m.table[i].value);
  }

  lemma BucketAt(m: Mem, i: Index)
    requires |m.table| == SIZE && MemOk(m) && Filled(m)
    ensures Denote(m)[i] == Held(m.core, m.table[i])
    ensures (m.table[i].None? <==> Denote(m)[i] == []) && (m.table[i].Some? ==> m.table[i].value in m.core)
  {
    if m.table[i].Some? {
      InCore(m, i);
    }
  }

  /** A bucket under construction at `head`, unless it is still empty. */
  ghost predicate Grown(m0: Mem, m: Mem, head: Option<R.Address>, items: Bucket) {
    if head.None? then m == m0 && items == []
    else head.value !in m0.core && head.value !in m0.own && items != [] &&
         m == m0.(core := m0.core[head.value := items], own := m0.own + {head.value})
  }

  /** Publishing a bucket and retiring the old one changes one bucket of the table. */
  lemma ReplacedIs(m: Mem, m1: Mem, i: Index, head: Option<R.Address>, items: Bucket)
    requires |m.table| == SIZE && MemOk(m) && Filled(m) && Grown(m, m1, head, items)
    ensures var m2 := Assigned(m1, i, head);
            var m3 := if m.table[i].Some?
                then m2.(core := m2.core - {m.table[i].value}, unlinked := m2.unlinked - {m.table[i].value}) else m2;
            && Denote(m3) == Denote(m)[i := items] && Filled(m3)
            && (m.unlinked == {} ==> m3.unlinked == {}) && m3.own == m.own
            && (m.table[i].Some? ==> m.table[i].value in m2.unlinked)
            && (forall at :: at in m.own ==> at in m.core && at in m3.core && m3.core[at] == m.core[at])
  {
    hide MemOk;
    var m2 := Assigned(m1, i, head);
    var m3 := if m.table[i].Some?
        then m2.(core := m2.core - {m.table[i].value}, unlinked := m2.unlinked - {m.table[i].value}) else m2;
    OwnIsNotPublished(m);
    forall j | 0 <= j < SIZE
      ensures Held(m3.core, m3.table[j]) == if j == i then items else Held(m.core, m.table[j])
    {
      if m.table[j].Some? {
        InCore(m, j);
      }
      if m.table[i].Some? {
        InCore(m, i);
      }
    }
    if head.Some? {
      assert head.value !in m.own;
    }
  }

  lemma OwnIsNotPublished(m: Mem)
    requires MemOk(m)
    ensures forall i, j :: 0 <= i < |m.table| && 0 <= j < |m.table| && i != j && m.table[i].Some? ==>
            m.table[i] != m.table[j]
    ensures forall at :: at in m.own ==> at in m.core
    ensures forall i :: 0 <= i < |m.table| && m.table[i].Some? ==>
            m.table[i].value !in m.own && m.table[i].value !in m.unlinked
  {
  }

  // ---------------------------------------------------------- the shadow table

  /** What is under construction are the buckets of the shadow table. */
  ghost predicate Shadowed(m: Mem, shadow: seq<Option<R.Address>>) {
    && |shadow| == SIZE
    && (forall i :: 0 <= i < SIZE && shadow[i].Some? ==> shadow[i].value in m.own && shadow[i].value in m.core)
    && (forall i, j :: 0 <= i < SIZE && 0 <= j < SIZE && i != j && shadow[i].Some? ==> shadow[i] != shadow[j])
    && (forall at :: at in m.own ==> InTable(shadow, at))
  }

  ghost function ShadowTable(m: Mem, shadow: seq<Option<R.Address>>): Table
    requires |shadow| == SIZE
  {
    seq(SIZE, i requires 0 <= i < SIZE => Held(m.core, shadow[i]))
  }

  /** What a collection keeps while it works on the shadow table: the table itself. */
  ghost predicate SameTable(m: Mem, m': Mem)
    requires |m.table| == SIZE && |m'.table| == SIZE
  {
    Denote(m') == Denote(m) && (Filled(m) ==> Filled(m')) && m'.table == m.table && m'.unlinked == m.unlinked
  }

  lemma NewShadow(m: Mem, m': Mem, head: Option<R.Address>, items: Bucket, shadow: seq<Option<R.Address>>, i: Index)
    requires |m.table| == SIZE && MemOk(m) && Shadowed(m, shadow) && shadow[i].None? && Grown(m, m', head, items)
    ensures SameTable(m, m') && Shadowed(m', shadow[i := head])
    ensures ShadowTable(m', shadow[i := head]) == ShadowTable(m, shadow)[i := items]
  {
    hide MemOk;
    var shadow' := shadow[i := head];
    SameHeld(m, m');
    forall at | at in m'.own
      ensures InTable(shadow', at)
    {
      if at in m.own {
        var j :| 0 <= j < SIZE && shadow[j] == Some(at);
        assert shadow'[j] == Some(at);
      } else {
        assert shadow'[i] == Some(at);
      }
    }
  }

  /** Buckets that are published are not those under construction. */
  lemma SameHeld(m: Mem, m': Mem)
    requires |m.table| == SIZE && MemOk(m) && m'.table == m.table && m'.unlinked == m.unlinked
    requires forall at :: at in m.core && at !in m.own ==> at in m'.core && m'.core[at] == m.core[at]
    ensures SameTable(m, m')
  {
    hide MemOk;
    OwnIsNotPublished(m);
    forall j | 0 <= j < SIZE
      ensures Held(m'.core, m'.table[j]) == Held(m.core, m.table[j])
    {
      if m.table[j].Some? {
        InCore(m, j);
      }
    }
  }

  lemma RewriteShadow(m: Mem, shadow: seq<Option<R.Address>>, i: Index, items: Bucket)
    requires |m.table| == SIZE && MemOk(m) && Shadowed(m, shadow) && shadow[i].Some?
    ensures var m' := m.(core := m.core[shadow[i].value := items]);
            SameTable(m, m') && Shadowed(m', shadow) && ShadowTable(m', shadow) == ShadowTable(m, shadow)[i := items]
  {
    hide MemOk;
    SameHeld(m, m.(core := m.core[shadow[i].value := items]));
  }

  lemma DeleteShadow(m: Mem, shadow: seq<Option<R.Address>>, i: Index)
    requires |m.table| == SIZE && MemOk(m) && Shadowed(m, shadow) && shadow[i].Some?
    ensures var m' := m.(core := m.core - {shadow[i].value}, own := m.own - {shadow[i].value});
            SameTable(m, m') && Shadowed(m', shadow[i := None]) &&
            ShadowTable(m', shadow[i := None]) == ShadowTable(m, shadow)[i := []]
  {
    hide MemOk;
    var m' := m.(core := m.core - {shadow[i].value}, own := m.own - {shadow[i].value});
    SameHeld(m, m');
    forall at | at in m'.own
      ensures InTable(shadow[i := None], at)
    {
      var j :| 0 <= j < SIZE && shadow[j] == Some(at);
      assert shadow[i := None][j] == Some(at);
    }
  }

  /** The memory without the shadow bucket at `i`, as if that one were just being built. */
  ghost function Apart(m: Mem, p: Option<R.Address>): Mem {
    if p.None? then m else m.(core := m.core - {p.value}, own := m.own - {p.value})
  }

  lemma ShadowApart(m: Mem, shadow: seq<Option<R.Address>>, i: Index)
    requires |m.table| == SIZE && MemOk(m) && Shadowed(m, shadow) && (shadow[i].Some? ==> Held(m.core, shadow[i]) != [])
    ensures var m0 := Apart(m, shadow[i]);
            && SameTable(m, m0) && MemOk(m0) && Grown(m0, m, shadow[i], Held(m.core, shadow[i]))
            && Shadowed(m0, shadow[i := None]) && ShadowTable(m0, shadow[i := None]) == ShadowTable(m, shadow)[i := []]
  {
    var m0 := Apart(m, shadow[i]);
    if shadow[i].Some? {
      DeleteShadow(m, shadow, i);
      assert m0.core[shadow[i].value := Held(m.core, shadow[i])] == m.core;
      assert m0.own + {shadow[i].value} == m.own;
    } else {
      assert shadow[i := None] == shadow;
    }
  }

  /** Publishing one shadow bucket leaves the others as they are. */
  lemma ShadowAfterSwap(m0: Mem, m: Mem, shadow: seq<Option<R.Address>>)
    requires Shadowed(m0, shadow) && m.own == m0.own
    requires forall at :: at in m0.own ==> at in m0.core && at in m.core && m.core[at] == m0.core[at]
    ensures Shadowed(m, shadow) && ShadowTable(m, shadow) == ShadowTable(m0, shadow)
  {
  }

  /** How create_new_bucket ends. */
  datatype Made = NoMemory | Made(head: Option<R.Address>)

  class Updater {
    const hash: Tid -> Index
    const env: nat -> seq<R.Step>  // what the others do after the updater's steps
    var clock: nat
    var s: R.State
    var shadow: seq<Option<R.Address>>
    var events: seq<Event>
    var memory: nat                // allocations that still succeed
    var records: nat               // structures for call_rcu that the updater holds
    ghost var run: seq<R.State>    // all states so far
    ghost var steps: seq<R.Step>

    ghost predicate Valid()
      reads `s, `run, `steps, `shadow
    {
      && R.Run(run, steps) && run != [] && run[|run| - 1] == s && R.Inv(s)
      && |s.table| == SIZE && |shadow| == SIZE
    }

    ghost function Mine(): Mem
      reads `s
    {
      MemOf(s)
    }

    /** There is nobody else. */
    ghost predicate Quiet() {
      forall k: nat :: env(k) == []
    }

    // --------------------------------------------------------- single steps

    method Do(step: R.Step)
      requires Valid() && R.Enabled(s, step)
      modifies this`s, this`run, this`steps
      ensures Valid() && s == R.Apply(old(s), step)
    {
      hide R.Inv, R.Run;
      R.StepKeepsInv(s, step);
      R.RunSnoc(run, steps, step);
      s := R.Apply(s, step);
      run, steps := run + [s], steps + [step];
    }

    /** The others run. */
    method Yield()
      requires Valid()
      modifies this`s, this`run, this`steps, this`clock
      ensures Valid() && Mine() == old(Mine())
      ensures Quiet() ==> SideOf(s) == old(SideOf(s))
    {
      hide R.Inv, R.Run, R.Apply, R.Enabled, MemOf;
      var todo := env(clock);
      clock := clock + 1;
      var k := 0;
      while k < |todo|
        invariant k <= |todo| && Valid() && Mine() == old(Mine())
        invariant Quiet() ==> SideOf(s) == old(SideOf(s))
        modifies this`s, this`run, this`steps
      {
        if IsEnv(todo[k]) && R.Enabled(s, todo[k]) {
          EnvKeepsMem(s, todo[k]);
          Do(todo[k]);
        }
        k := k + 1;
      }
    }

    /** The first item of a new bucket. */
    method NewBucket(item: Thread) returns (at: Option<R.Address>)
      requires Valid()
      modifies this`s, this`run, this`steps, this`clock, this`memory
      ensures Valid() && (at.None? <==> old(memory) == 0)
      ensures Quiet() ==> SideOf(s) == old(SideOf(s))
      ensures at.None? ==> Mine() == old(Mine()) && memory == 0
      ensures at.Some? ==> memory == old(memory) - 1 && Grown(old(Mine()), Mine(), at, [item])
    {
      hide R.Inv, R.Run, MemOf;
      if memory == 0 {
        return None;
      }
      ghost var unused := SomeUnused(s.heap);
      var a: R.Address :| a !in s.heap;
      AllocateIs(s, a, [item]);
      Do(R.Allocate(a, [item]));
      memory := memory - 1;
      Yield();
      return Some(a);
    }

    /** One more item at the end of a bucket that is not published. */
    method Append(at: R.Address, item: Thread) returns (ok: bool)
      requires Valid() && at in s.own && at in s.heap
      modifies this`s, this`run, this`steps, this`clock, this`memory
      ensures Valid() && (ok <==> old(memory) > 0)
      ensures Quiet() ==> SideOf(s) == old(SideOf(s))
      ensures !ok ==> Mine() == old(Mine()) && memory == 0
      ensures ok ==>
                memory == old(memory) - 1 &&
                Mine() == old(Mine()).(core := old(Mine()).core[at := old(s.heap)[at] + [item]])
    {
      hide R.Inv, R.Run, MemOf;
      if memory == 0 {
        return false;
      }
      WriteIs(s, at, s.heap[at] + [item]);
      Do(R.Write(at, s.heap[at] + [item]));
      memory := memory - 1;
      Yield();
      return true;
    }

    /** Changes in a bucket that is not published. */
    method Rewrite(at: R.Address, items: Bucket)
      requires Valid() && at in s.own
      modifies this`s, this`run, this`steps, this`clock
      ensures Valid() && Mine() == old(Mine()).(core := old(Mine()).core[at := items])
      ensures Quiet() ==> SideOf(s) == old(SideOf(s))
    {
      hide R.Inv, R.Run, MemOf;
      WriteIs(s, at, items);
      Do(R.Write(at, items));
      Yield();
    }

    /** delete_bucket for a bucket that is not published. */
    method Delete(at: R.Address)
      requires Valid() && at in s.own
      modifies this`s, this`run, this`steps, this`clock
      ensures Valid() && Mine() == old(Mine()).(core := old(Mine()).core - {at}, own := old(Mine()).own - {at})
      ensures Quiet() ==> SideOf(s) == old(SideOf(s))
    {
      hide R.Inv, R.Run, MemOf;
      DiscardIs(s, at);
      Do(R.Discard(at));
      Yield();
    }

    /** rcu_assign_pointer */
    method Assign(i: Index, p: Option<R.Address>)
      requires Valid() && (p.Some? ==> p.value in s.own)
      modifies this`s, this`run, this`steps, this`clock
      ensures Valid() && Mine() == Assigned(old(Mine()), i, p)
      ensures Quiet() ==> SideOf(s) == old(SideOf(s))
    {
      hide R.Inv, R.Run;
      if p.Some? {
        Do(R.Publish(i, p.value));
      } else {
        Do(R.PublishEmpty(i));
      }
      Yield();
    }

    /** call_rcu, with a record that was allocated before. */
    method Retire(at: R.Address)
      requires Valid() && at in s.unlinked && records > 0
      modifies this`s, this`run, this`steps, this`clock, this`records
      ensures Valid() && records == old(records) - 1
      ensures Mine() == old(Mine()).(core := old(Mine()).core - {at}, unlinked := old(Mine()).unlinked - {at})
      ensures Quiet() ==> SideOf(s) == Pending(old(SideOf(s)), Some(at))
    {
      hide R.Inv, R.Run, MemOf;
      CallRcuIs(s, at);
      Do(R.CallRcu(at));
      records := records - 1;
      Yield();
    }

    method NewRecord() returns (ok: bool)
      modifies this`memory, this`records
      ensures ok <==> old(memory) > 0
      ensures ok ==> memory == old(memory) - 1 && records == old(records) + 1
      ensures !ok ==> memory == 0 && records == old(records)
    {
      ok := memory > 0;
      if ok {
        memory, records := memory - 1, records + 1;
      }
    }

    // ------------------------------------------------------ adding a thread

    /** Between updates: nothing under construction, nothing to retire, no record left over. */
    ghost predicate Idle()
      requires Valid()
      reads `s, `run, `steps, `shadow, `records
    {
      && s.own == {} && s.unlinked == {} && records == 0 && Filled(Mine())
      && forall i :: 0 <= i < SIZE ==> shadow[i].None?
    }

    /** create_new_bucket: a copy of the bucket at `old_`, with `task` in front and its old item reported as ended. */
    method CreateNewBucket(old_: Option<R.Address>, task: Option<Thread>) returns (r: Made)
      requires Valid() && (old_.Some? ==> old_.value in Mine().core)
      modifies this`s, this`run, this`steps, this`clock, this`memory, this`events
      ensures Valid() && (Quiet() ==> SideOf(s) == old(SideOf(s)))
      ensures var tid := if task.Some? then task.value.tid else 0;
              var front := if task.Some? then [task.value] else [];
              var b, m := Held(old(Mine()).core, old_), old(memory) - |front|;
              && (r.NoMemory? ==> Mine() == old(Mine()))
              && (m < 0 ==> r.NoMemory? && events == old(events) && memory == old(memory))
              && (m >= 0 ==>
                && (r.Made? <==> |Without(b, tid)| <= m)
                && (r.Made? ==>
                      memory == m - |Without(b, tid)| &&
                      Grown(old(Mine()), Mine(), r.head, front + Without(b, tid)))
                && events == old(events) + EndsOf(b[..Passed(b, tid, m)], tid))
    {
      hide Without, EndsOf, Passed, HasTid, R.Inv, R.Run, MemOf;
      var tid: Tid := if task.Some? then task.value.tid else 0;
      var head: Option<R.Address> := None;
      if task.Some? {
        head := NewBucket(task.value);
        if head.None? {
          return NoMemory;
        }
      }
      r := CopyItems(old_, tid, head, old(Mine()), if task.Some? then [task.value] else []);
    }

    /** The loop of create_new_bucket over the old items; `front` is there already. */
    method CopyItems(old_: Option<R.Address>, tid: Tid, head: Option<R.Address>, ghost m0: Mem, ghost front: Bucket)
      returns (r: Made)
      requires Valid() && (old_.Some? ==> old_.value in m0.core)
      requires Grown(m0, Mine(), head, front)
      modifies this`s, this`run, this`steps, this`clock, this`memory, this`events
      ensures Valid() && (Quiet() ==> SideOf(s) == old(SideOf(s)))
      ensures var b := Held(m0.core, old_);
              && (r.NoMemory? ==> Mine() == m0)
              && (r.Made? <==> |Without(b, tid)| <= old(memory))
              && (r.Made? ==>
                    memory == old(memory) - |Without(b, tid)| &&
                    Grown(m0, Mine(), r.head, front + Without(b, tid)))
              && events == old(events) + EndsOf(b[..Passed(b, tid, old(memory))], tid)
    {
      hide Without, EndsOf, Passed, HasTid, R.Inv, R.Run, MemOf;
      ghost var m, reported, b := memory, events, Held(m0.core, old_);
      var bucket, k := head, 0;
      T.CopyStart(b, tid, m);
      assert front + Without(b[..0], tid) == front;
      OldBucket(s, m0, Mine(), old_, bucket, front);
      while old_.Some? && k < |s.heap[old_.value]|
        invariant Valid() && k <= |b| && (Quiet() ==> SideOf(s) == old(SideOf(s)))
        invariant old_.Some? ==> old_.value in s.heap && s.heap[old_.value] == b
        invariant Grown(m0, Mine(), bucket, front + Without(b[..k], tid)) && memory == m - |Without(b[..k], tid)|
        invariant events == reported + EndsOf(b[..k], tid)
        invariant Passed(b[..k], tid, m) == k
        decreases |b| - k
      {
        Yield();
        OldBucket(s, m0, Mine(), old_, bucket, front + Without(b[..k], tid));
        var item := s.heap[old_.value][k];
        T.CopyNext(b, tid, m, k);
        if item.tid == tid {
          events := events + [End(tid)];
        } else {
          var more := AddItem(bucket, item, m0, front + Without(b[..k], tid));
          if more.None? {
            T.CopyStops(b, tid, m, k);
            return NoMemory;
          }
          bucket := more;
          assert front + Without(b[..k], tid) + [item] == front + Without(b[..k + 1], tid);
        }
        OldBucket(s, m0, Mine(), old_, bucket, front + Without(b[..k + 1], tid));
        k := k + 1;
      }
      assert b[..k] == b;
      r := Made(bucket);
    }

    /** One more item for the bucket under construction, which is deleted if there is no memory. */
    method AddItem(head: Option<R.Address>, item: Thread, ghost m0: Mem, ghost items: Bucket)
      returns (r: Option<R.Address>)
      requires Valid() && Grown(m0, Mine(), head, items)
      modifies this`s, this`run, this`steps, this`clock, this`memory
      ensures Valid() && (Quiet() ==> SideOf(s) == old(SideOf(s)))
      ensures r.None? <==> old(memory) == 0
      ensures if r.None? then Mine() == m0 && memory == 0
              else memory == old(memory) - 1 && Grown(m0, Mine(), r, items + [item])
    {
      hide R.Inv, R.Run, MemOf;
      if head.None? {
        assert items + [item] == [item];
        r := NewBucket(item);
      } else {
        OwnBucket(s, head.value);
        var ok := Append(head.value, item);
        if ok {
          r := head;
          assert m0.core[head.value := items][head.value := items + [item]] == m0.core[head.value := items + [item]];
        } else {
          OwnBucket(s, head.value);
          Delete(head.value);
          assert m0.core[head.value := items] - {head.value} == m0.core;
          assert m0.own + {head.value} - {head.value} == m0.own;
          r := None;
        }
      }
    }

    /** The bucket under construction becomes the one at `i`; the old one, if any, is retired. */
    method SwapIn(i: Index, head: Option<R.Address>, report: seq<Event>, ghost m0: Mem, ghost items: Bucket)
      requires Valid() && |m0.table| == SIZE && MemOk(m0) && Filled(m0) && m0.unlinked == {} &&
               Grown(m0, Mine(), head, items)
      requires m0.table[i].Some? ==> records > 0
      modifies this`s, this`run, this`steps, this`clock, this`events, this`records
      ensures Valid() && events == old(events) + report
      ensures records == old(records) - if m0.table[i].Some? then 1 else 0
      ensures Denote(Mine()) == Denote(m0)[i := items] && Filled(Mine()) && Mine().own == m0.own &&
              Mine().unlinked == {}
      ensures forall at :: at in m0.own ==> at in m0.core && at in Mine().core && Mine().core[at] == m0.core[at]
      ensures Quiet() ==> SideOf(s) == Pending(old(SideOf(s)), m0.table[i])
    {
      hide R.Inv, R.Run, MemOf, MemOk, Denote, Filled, Held;
      MemParts(s);
      var old_ := s.table[i];
      ReplacedIs(m0, Mine(), i, head, items);
      Assign(i, head);
      events := events + report;
      MemParts(s);
      if old_.Some? {
        Retire(old_.value);
      }
    }

    /** add_thread_info */
    method AddThreadInfo(task: Thread) returns (ok: bool)
      requires Valid() && Idle()
      modifies this`s, this`run, this`steps, this`clock, this`memory, this`events, this`records
      ensures Valid() && Idle()
      ensures ok <==> AddNeed(old(Denote(Mine()))[hash(task.tid)], task.tid) <= old(memory)
      ensures Outcome(Denote(Mine()), events) == AddOutcome(old(Denote(Mine())), hash, old(events), task, old(memory))
      ensures Quiet() ==> s.readers == old(s.readers)
    {
      hide Without, EndsOf, Passed, R.Inv, R.Run, MemOf, MemOk, Grown, Filled, Denote, Held;
      var i := hash(task.tid);
      var old_ := s.table[i];
      ghost var m0 := Mine();
      ghost var b := Held(m0.core, old_);
      MemIsOk(s);
      MemParts(s);
      BucketAt(m0, i);
      if old_.Some? {
        var done := NewRecord();
        if !done {
          return false;
        }
      }
      var r := CreateNewBucket(old_, Some(task));
      if r.NoMemory? {
        if old_.Some? {
          records := records - 1;
        }
        MemParts(s);
        return false;
      }
      SwapIn(i, r.head, [Start(task.tid)], m0, [task] + Without(b, task.tid));
      MemParts(s);
      assert b[..|b|] == b;
      return true;
    }

    // --------------------------------------------------- a garbage collection

    /** The table is `t`; nothing is under construction but the shadow table; no record is left over. */
    ghost predicate Collecting(t: Table)
      requires Valid()
      reads `s, `run, `steps, `shadow, `records
    {
      && Denote(Mine()) == t && Filled(Mine()) && Mine().unlinked == {} && records == 0
      && Shadowed(Mine(), shadow) && MemOk(Mine())
    }

    ghost function Shadow(): Table
      requires Valid()
      reads `s, `run, `steps, `shadow
    {
      ShadowTable(Mine(), shadow)
    }

    /** Empty shadow buckets have no memory. */
    ghost predicate ShadowFilled()
      requires Valid()
      reads `s, `run, `steps, `shadow
    {
      forall i: Index :: shadow[i].None? <==> Shadow()[i] == []
    }

    lemma ShadowItems(i: Index, t: Table)
      requires Valid() && Collecting(t) && shadow[i].Some?
      ensures shadow[i].value in s.heap && s.heap[shadow[i].value] == Shadow()[i]
    {
      ShadowOwn(s, shadow, i);
    }

    /** New items for the shadow bucket at `i`. */
    method RewriteAt(i: Index, items: Bucket, ghost t: Table)
      requires Valid() && Collecting(t) && shadow[i].Some?
      modifies this`s, this`run, this`steps, this`clock
      ensures Valid() && Collecting(t) && Shadow() == old(Shadow())[i := items]
      ensures Quiet() ==> SideOf(s) == old(SideOf(s))
    {
      hide R.Inv, R.Run, MemOf, MemOk, Denote, Filled, Held;
      ShadowOwn(s, shadow, i);
      MemParts(s);
      RewriteShadow(Mine(), shadow, i, items);
      Rewrite(shadow[i].value, items);
      MemIsOk(s);
    }

    method DeleteAt(i: Index, ghost t: Table)
      requires Valid() && Collecting(t) && shadow[i].Some?
      modifies this`s, this`run, this`steps, this`clock, this`shadow
      ensures Valid() && Collecting(t) && Shadow() == old(Shadow())[i := []] && shadow == old(shadow)[i := None]
      ensures Quiet() ==> SideOf(s) == old(SideOf(s))
    {
      hide R.Inv, R.Run, MemOf, MemOk, Denote, Filled, Held;
      ShadowOwn(s, shadow, i);
      MemParts(s);
      DeleteShadow(Mine(), shadow, i);
      Delete(shadow[i].value);
      shadow := shadow[i := None];
      MemIsOk(s);
    }

    /** clear_shadow_table */
    method ClearShadow(ghost t: Table)
      requires Valid() && Collecting(t)
      modifies this`s, this`run, this`steps, this`clock, this`shadow
      ensures Valid() && Idle() && Denote(Mine()) == t
      ensures Quiet() ==> SideOf(s) == old(SideOf(s))
    {
      hide R.Inv, R.Run, MemOf, MemOk, Denote, Filled, Held;
      var i := 0;
      while i < SIZE
        invariant i <= SIZE && Valid() && Collecting(t) && forall j :: 0 <= j < i ==> shadow[j].None?
        invariant Quiet() ==> SideOf(s) == old(SideOf(s))
      {
        if shadow[i].Some? {
          DeleteAt(i, t);
        }
        i := i + 1;
      }
      NoShadow(Mine(), shadow);
      MemParts(s);
    }

    /** The loop that marks a new shadow bucket as dead. */
    method MarkDeadAt(i: Index, ghost b: Bucket, ghost t: Table)
      requires Valid() && Collecting(t) && shadow[i].Some? && Shadow()[i] == b
      modifies this`s, this`run, this`steps, this`clock
      ensures Valid() && Collecting(t) && Shadow() == old(Shadow())[i := T.Marked(b, {})]
      ensures Quiet() ==> SideOf(s) == old(SideOf(s))
    {
      hide R.Inv, R.Run, MemOf, Collecting, Shadow, HalfMarked;
      ghost var sh := Shadow();
      var k := 0;
      ShadowItems(i, t);
      HalfStart(b);
      while k < |s.heap[shadow[i].value]|
        invariant k <= |b| && Valid() && Collecting(t) && shadow == old(shadow)
        invariant shadow[i].value in s.heap && s.heap[shadow[i].value] == HalfMarked(b, k)
        invariant Shadow() == sh[i := HalfMarked(b, k)]
        invariant Quiet() ==> SideOf(s) == old(SideOf(s))
        decreases |b| - k
      {
        var items := s.heap[shadow[i].value];
        HalfNext(b, k);
        RewriteAt(i, items[k := MarkDead(items[k])], t);
        ShadowItems(i, t);
        k := k + 1;
      }
    }

    /** A copy of the bucket at `i`, marked dead, in the shadow table. */
    method CopyBucket(i: Index, ghost t: Table) returns (ok: bool)
      requires Valid() && Collecting(t) && shadow[i].None? && s.table[i].Some? && T.AllTop(t[i])
      modifies this`s, this`run, this`steps, this`clock, this`memory, this`events, this`shadow
      ensures Valid() && Collecting(t) && events == old(events)
      ensures Quiet() ==> SideOf(s) == old(SideOf(s))
      ensures ok <==> |t[i]| <= old(memory)
      ensures ok ==> memory == old(memory) - |t[i]| && Shadow() == old(Shadow())[i := T.Marked(t[i], {})]
      ensures ok ==> shadow[i].Some?
      ensures !ok ==> Shadow() == old(Shadow())
      ensures forall j :: 0 <= j < SIZE && j != i ==> shadow[j] == old(shadow)[j]
    {
      hide Without, EndsOf, Passed, R.Inv, R.Run, MemOf, MemOk, Denote, Filled, Held, T.Marked, Shadowed;
      ghost var m := Mine();
      MemParts(s);
      BucketAt(m, i);
      T.CopyWhole(t[i], Passed(t[i], 0, memory));
      var r := CreateNewBucket(s.table[i], None);
      assert [] + t[i] == t[i];
      if r.NoMemory? {
        return false;
      }
      MemParts(s);
      HeadThere(m, Mine(), r.head, t[i]);
      NewShadow(m, Mine(), r.head, t[i], shadow, i);
      shadow := shadow[i := r.head];
      MemIsOk(s);
      ghost var sh := Shadow();
      assert sh == old(Shadow())[i := t[i]];
      MarkDeadAt(i, t[i], t);
      assert old(Shadow())[i := t[i]][i := T.Marked(t[i], {})] == old(Shadow())[i := T.Marked(t[i], {})];
      return true;
    }

    /** copy_thread_table */
    method CopyThreadTable(ghost t: Table) returns (ok: bool)
      requires Valid() && Idle() && Denote(Mine()) == t && WellPlaced(t, hash)
      modifies this`s, this`run, this`steps, this`clock, this`memory, this`events, this`shadow
      ensures Valid() && Collecting(t) && events == old(events)
      ensures Quiet() ==> SideOf(s) == old(SideOf(s))
      ensures ok <==> Copies(t, SIZE) <= old(memory)
      ensures ok ==>
                memory == old(memory) - Copies(t, SIZE) && ShadowFilled() &&
                forall i: Index :: Shadow()[i] == T.Marked(t[i], {})
    {
      hide R.Inv, R.Run, MemOf, MemOk, Filled, Copies, WellPlaced, Held, Denote;
      MemIsOk(s);
      MemParts(s);
      EmptyShadow(Mine(), shadow);
      var i := 0;
      T.NextCopies(t, 0);
      while i < SIZE
        invariant i <= SIZE && Valid() && Collecting(t) && events == old(events)
        invariant Quiet() ==> SideOf(s) == old(SideOf(s))
        invariant Copies(t, i) <= old(memory) && memory == old(memory) - Copies(t, i)
        invariant forall j: Index :: j < i ==> Shadow()[j] == T.Marked(t[j], {}) && (shadow[j].None? <==> t[j] == [])
        invariant forall j :: i <= j < SIZE ==> shadow[j].None?
      {
        T.NextCopies(t, i);
        T.TopBits(t, hash, i);
        MemParts(s);
        BucketAt(Mine(), i);
        if s.table[i].Some? {
          var done := CopyBucket(i, t);
          if !done {
            T.CopiesGrow(t, i + 1, SIZE);
            return false;
          }
        } else {
          ShadowNone(i);
        }
        i := i + 1;
      }
      return true;
    }

    lemma ShadowNone(i: Index)
      requires Valid() && shadow[i].None?
      ensures Shadow()[i] == []
    {
    }

    /** The others run during a collection. */
    method Pause(ghost t: Table)
      requires Valid() && Collecting(t)
      modifies this`s, this`run, this`steps, this`clock
      ensures Valid() && Collecting(t) && Shadow() == old(Shadow())
      ensures Quiet() ==> SideOf(s) == old(SideOf(s))
    {
      Yield();
    }

    /** One task of the traversal: mark the item of the same thread, if there is one. */
    method VisitTask(task: Thread, ghost t: Table, ghost seen: set<Thread>)
      requires Valid() && Collecting(t) && WellPlaced(t, hash) && ShadowFilled()
      requires forall i: Index :: Shadow()[i] == T.Marked(t[i], seen)
      modifies this`s, this`run, this`steps, this`clock
      ensures Valid() && Collecting(t) && ShadowFilled()
      ensures forall i: Index :: Shadow()[i] == T.Marked(t[i], seen + {task})
      ensures Quiet() ==> SideOf(s) == old(SideOf(s))
    {
      hide R.Inv, R.Run, MemOf, Collecting, Shadow, WellPlaced, T.Marked;
      var i := hash(task.tid);
      ghost var b, sh := t[i], Shadow();
      T.PlacedAt(t, hash, i);
      MarkedElsewhere(t, hash, seen, task);
      if shadow[i].None? {
        NothingMarked(b, seen, task);
        return;
      }
      var k := 0;
      ShadowItems(i, t);
      while k < |s.heap[shadow[i].value]| && !T.SameThread(task, s.heap[shadow[i].value][k])
        invariant k <= |b| && Valid() && Collecting(t) && Shadow() == sh && forall j :: 0 <= j < k ==> b[j] != task
        invariant shadow[i].value in s.heap && s.heap[shadow[i].value] == T.Marked(b, seen)
        invariant Quiet() ==> SideOf(s) == old(SideOf(s))
        decreases |b| - k
      {
        T.SameThreadExact(b, seen, task, k);
        Pause(t);
        ShadowItems(i, t);
        k := k + 1;
      }
      var item := s.heap[shadow[i].value];
      if k < |item| {
        T.SameThreadExact(b, seen, task, k);
        T.MarkOne(b, seen, task, k);
        RewriteAt(i, item[k := MarkLive(item[k])], t);
      } else {
        T.MarkNone(b, seen, task);
      }
      LengthsMarked(t, seen);
      LengthsMarked(t, seen + {task});
    }

    /** The traversal of the tasks. */
    method VisitAll(tasks: seq<Thread>, ghost t: Table)
      requires Valid() && Collecting(t) && WellPlaced(t, hash) && ShadowFilled()
      requires forall i: Index :: Shadow()[i] == T.Marked(t[i], {})
      modifies this`s, this`run, this`steps, this`clock
      ensures Valid() && Collecting(t) && ShadowFilled()
      ensures forall i: Index :: Shadow()[i] == T.Marked(t[i], T.Members(tasks))
      ensures Quiet() ==> SideOf(s) == old(SideOf(s))
    {
      hide R.Inv, R.Run, MemOf, Collecting, Shadow, WellPlaced, T.Marked, ShadowFilled;
      var k := 0;
      assert T.Members(tasks[..0]) == {};
      while k < |tasks|
        invariant k <= |tasks| && Valid() && Collecting(t) && ShadowFilled()
        invariant forall i: Index :: Shadow()[i] == T.Marked(t[i], T.Members(tasks[..k]))
        invariant Quiet() ==> SideOf(s) == old(SideOf(s))
      {
        VisitTask(tasks[k], t, T.Members(tasks[..k]));
        assert T.Members(tasks[..k]) + {tasks[k]} == T.Members(tasks[..k + 1]);
        k := k + 1;
      }
      assert tasks[..k] == tasks;
    }

    /** One item of a shadow bucket: it is left alone if it is live, otherwise unlinked, reported and freed. */
    method LookAt(i: Index, k: nat, ghost b: Bucket, ghost seen: set<Thread>, ghost n: nat, ghost t: Table)
      returns (removed: bool)
      requires Valid() && Collecting(t) && T.AllTop(b) && shadow[i].Some? && n <= |b|
      requires Shadow()[i] == Partly(b, seen, n) && k == |Survivors(b[..n], seen)| < |Partly(b, seen, n)|
      modifies this`s, this`run, this`steps, this`clock, this`events
      ensures Valid() && Collecting(t) && n < |b| && Shadow() == old(Shadow())[i := Partly(b, seen, n + 1)]
      ensures |Survivors(b[..n + 1], seen)| == if removed then k else k + 1
      ensures |DeadEnds(b[..n + 1], seen)| == |DeadEnds(b[..n], seen)| + if removed then 1 else 0
      ensures forall e :: e + DeadEnds(b[..n], seen) == old(events) ==> e + DeadEnds(b[..n + 1], seen) == events
      ensures Quiet() ==> SideOf(s) == old(SideOf(s))
    {
      hide R.Inv, R.Run, MemOf, Collecting, Shadow, Survivors, DeadEnds, T.Marked, Partly, SideOf, T.AllTop;
      ShadowItems(i, t);
      var items := s.heap[shadow[i].value];
      PartlyNext(b, seen, n);
      removed := !HasTop(items[k].tid);
      ghost var ends := DeadEnds(b[..n], seen);
      if removed {
        RewriteAt(i, items[..k] + items[k + 1..], t);
        var end := End(SetTop(items[k].tid));
        events := events + [end];
        assert forall e :: e + (ends + [end]) == e + ends + [end];
      } else {
        Pause(t);
        assert ends + [] == ends;
        assert Shadow() == Shadow()[i := Partly(b, seen, n + 1)];
      }
    }

    /** The loop of remove_dead_items. */
    method RemoveItems(i: Index, ghost b: Bucket, ghost seen: set<Thread>, ghost t: Table) returns (changed: bool)
      requires Valid() && Collecting(t) && T.AllTop(b) && shadow[i].Some? && Shadow()[i] == T.Marked(b, seen)
      modifies this`s, this`run, this`steps, this`clock, this`events
      ensures Valid() && Collecting(t) && Shadow() == old(Shadow())[i := Survivors(b, seen)]
      ensures events == old(events) + DeadEnds(b, seen) && (changed <==> DeadEnds(b, seen) != [])
      ensures Quiet() ==> SideOf(s) == old(SideOf(s))
    {
      hide R.Inv, R.Run, MemOf, Collecting, Shadow, Survivors, DeadEnds, T.Marked, Partly, SideOf, T.AllTop;
      ghost var n := 0;
      var k := 0;
      changed := false;
      T.RemoveStart(b, seen);
      PartlyStart(b, seen);
      ShadowItems(i, t);
      while k < |s.heap[shadow[i].value]|
        invariant n <= |b| && k == |Survivors(b[..n], seen)|
        invariant Valid() && Collecting(t) && Shadow() == old(Shadow())[i := Partly(b, seen, n)]
        invariant shadow[i].value in s.heap && s.heap[shadow[i].value] == Partly(b, seen, n)
        invariant old(events) + DeadEnds(b[..n], seen) == events
        invariant changed <==> |DeadEnds(b[..n], seen)| > 0
        invariant Quiet() ==> SideOf(s) == old(SideOf(s))
        decreases |b| - n
      {
        var removed := LookAt(i, k, b, seen, n, t);
        if removed {
          changed := true;
        } else {
          k := k + 1;
        }
        ShadowItems(i, t);
        n := n + 1;
      }
      PartlyEnd(b, seen, n);
    }

    /** remove_dead_items: what is left of a marked bucket are the survivors; an empty bucket is gone. */
    method RemoveDeadItems(i: Index, ghost b: Bucket, ghost seen: set<Thread>, ghost t: Table) returns (changed: bool)
      requires Valid() && Collecting(t) && T.AllTop(b) && shadow[i].Some? && Shadow()[i] == T.Marked(b, seen)
      modifies this`s, this`run, this`steps, this`clock, this`events, this`shadow
      ensures Valid() && Collecting(t) && Shadow() == old(Shadow())[i := Survivors(b, seen)]
      ensures shadow[i].None? <==> Survivors(b, seen) == []
      ensures forall j :: 0 <= j < SIZE && j != i ==> shadow[j] == old(shadow)[j]
      ensures events == old(events) + DeadEnds(b, seen) && (changed <==> DeadEnds(b, seen) != [])
      ensures Quiet() ==> SideOf(s) == old(SideOf(s))
    {
      hide R.Inv, R.Run, MemOf, Collecting, Shadow, Survivors, DeadEnds, T.Marked;
      changed := RemoveItems(i, b, seen, t);
      ShadowItems(i, t);
      if s.heap[shadow[i].value] == [] {
        DeleteAt(i, t);
      }
    }

    /** The turn of the sweep for one bucket of the shadow table. */
    method SweepBucket(i: Index, ghost b: Bucket, ghost seen: set<Thread>, ghost t: Table) returns (ok: bool)
      requires Valid() && Collecting(t) && t[i] == b != [] && T.AllTop(b) && shadow[i].Some? &&
               Shadow()[i] == T.Marked(b, seen)
      modifies this`s, this`run, this`steps, this`clock, this`events, this`shadow, this`memory, this`records
      ensures Valid() && events == old(events) + DeadEnds(b, seen)
      ensures ok <==> DeadEnds(b, seen) == [] || old(memory) > 0
      ensures !ok ==> Collecting(t) && (Quiet() ==> SideOf(s) == old(SideOf(s)))
      ensures ok ==>
                && Collecting(t[i := Survivors(b, seen)]) && shadow == old(shadow)[i := None] &&
                   Shadow() == old(Shadow())[i := []]
                && memory == old(memory) - (if DeadEnds(b, seen) == [] then 0 else 1)
                && (Quiet() ==> s.readers == old(s.readers))
                && (Quiet() ==> (s.waiting.Keys == {} <==> old(s.waiting.Keys) == {} && DeadEnds(b, seen) == []))
    {
      hide R.Inv, R.Run, MemOf, Survivors, DeadEnds, T.Marked, MemOk, Denote, Filled, Held, Shadowed, ShadowTable,
           Grown;
      var changed := RemoveDeadItems(i, b, seen, t);
      SurvivorsUnchanged(t, i, b, seen);
      if !changed {
        DeleteAt(i, t);
        assert shadow == old(shadow)[i := None];
        return true;
      }
      ok := NewRecord();
      if !ok {
        return;
      }
      ghost var m := Mine();
      MemParts(s);
      BucketAt(m, i);
      ShadowIs(i);
      ShadowApart(m, shadow, i);
      ghost var m0 := Apart(m, shadow[i]);
      SameParts(m, m0);
      SwapIn(i, shadow[i], [], m0, Survivors(b, seen));
      ShadowAfterSwap(m0, Mine(), shadow[i := None]);
      shadow := shadow[i := None];
      MemIsOk(s);
      MemParts(s);
      assert shadow == old(shadow)[i := None];
    }

    lemma ShadowIs(i: Index)
      requires Valid()
      ensures Shadow()[i] == Held(Mine().core, shadow[i])
    {
    }

    /** The sweep of gc_timer_fn. */
    method Sweep(ghost seen: set<Thread>, ghost t: Table)
      requires Valid() && Collecting(t) && WellPlaced(t, hash) && ShadowFilled()
      requires forall i: Index :: Shadow()[i] == T.Marked(t[i], seen)
      modifies this`s, this`run, this`steps, this`clock, this`events, this`shadow, this`memory, this`records
      ensures Valid()
      ensures var q := Reached(t, seen, old(memory), SIZE);
              && Collecting(Swept(t, seen, q)) &&
                 events == old(events) + SweepEvents(t, seen, if q < SIZE then q + 1 else q)
              && (Quiet() ==> s.readers == old(s.readers))
              && (Quiet() ==> (s.waiting.Keys == {} <==> old(s.waiting.Keys) == {} && Records(t, seen, q) == 0))
    {
      hide R.Inv, R.Run, MemOf, Collecting, Shadow, Survivors, DeadEnds, Reached, SweepEvents, Records, T.Marked,
           WellPlaced, Swept;
      ghost var m, cur := memory, t;
      var i := 0;
      T.SweepStart(t, seen, m);
      LengthsMarked(t, seen);
      while i < SIZE
        invariant i <= SIZE && Valid() && cur == Swept(t, seen, i) && Collecting(cur)
        invariant forall j: Index :: i <= j ==>
                  cur[j] == t[j] && Shadow()[j] == T.Marked(t[j], seen) && (shadow[j].None? <==> t[j] == [])
        invariant Records(t, seen, i) <= m && memory == m - Records(t, seen, i)
        invariant events == old(events) + SweepEvents(t, seen, i)
        invariant Quiet() ==> s.readers == old(s.readers)
        invariant Quiet() ==> (s.waiting.Keys == {} <==> old(s.waiting.Keys) == {} && Records(t, seen, i) == 0)
      {
        T.SweepTurn(t, seen, m, i);
        T.TopBits(t, hash, i);
        if shadow[i].Some? {
          var ok := SweepBucket(i, t[i], seen, cur);
          if !ok {
            T.SweepStops(t, seen, m, i);
            return;
          }
        } else {
          T.EmptyBucket(t[i], seen);
          assert cur[i := []] == cur;
        }
        cur := cur[i := Survivors(t[i], seen)];
        i := i + 1;
      }
    }

    /** gc_timer_fn; `tasks` are the tasks the traversal visits. */
    method CollectGarbage(tasks: seq<Thread>)
      requires Valid() && Idle() && WellPlaced(Denote(Mine()), hash)
      modifies this`s, this`run, this`steps, this`clock, this`events, this`shadow, this`memory, this`records
      ensures Valid() && Idle()
      ensures Outcome(Denote(Mine()), events) ==
              GcOutcome(old(Denote(Mine())), old(events), T.Members(tasks), old(memory))
      ensures Quiet() ==> s.readers == old(s.readers)
      ensures Quiet() ==> (s.waiting.Keys == {} <==>
                           old(s.waiting.Keys) == {} && !Replaces(old(Denote(Mine())), T.Members(tasks), old(memory)))
    {
      hide R.Inv, R.Run, MemOf, Collecting, Shadow, Survivors, DeadEnds, Reached, SweepEvents, Records, Copies,
           T.Marked, WellPlaced,
           Swept, Denote, Filled;
      MemParts(s);
      ghost var t, m, seen := Denote(Mine()), memory, T.Members(tasks);
      var ok := CopyThreadTable(t);
      if ok {
        VisitAll(tasks, t);
        Sweep(seen, t);
        ReplacedSome(t, seen, m);
        ClearShadow(Swept(t, seen, Reached(t, seen, m - Copies(t, SIZE), SIZE)));
      } else {
        ClearShadow(t);
      }
    }

    // ------------------------------------------------------------- whole runs

    constructor (hash: Tid -> Index, env: nat -> seq<R.Step>, memory: nat)
      ensures Valid() && Idle() && this.hash == hash && this.env == env && this.memory == memory && events == []
      ensures s.readers == map[] && s.waiting == map[] && forall i: Index :: Denote(Mine())[i] == []
    {
      this.hash, this.env, this.memory := hash, env, memory;
      clock, records, events := 0, 0, [];
      var start := R.State(map[], seq(SIZE, _ => None), {}, {}, map[], map[]);
      s, shadow := start, seq(SIZE, _ => None);
      run, steps := [start], [];
      new;
      R.InitInv(s);
    }

    /** Nothing is lost: what is in memory between updates is in the table or about to be reclaimed. */
    lemma NoLeak()
      requires Valid() && Idle()
      ensures forall at :: at in s.heap <==> at in s.waiting || InTable(s.table, at)
    {
      assert forall at :: R.Published(s, at) <==> InTable(s.table, at);
    }

    /** Any sequence of updates, each with its own memory, and any interleaving with readers and callbacks. */
    method RunUpdates(updates: seq<Update>)
      requires Valid() && Idle() && WellPlaced(Denote(Mine()), hash)
      requires forall k :: 0 <= k < |updates| && updates[k].Enter? ==> HasTop(updates[k].task.tid)
      modifies this`s, this`run, this`steps, this`clock, this`events, this`shadow, this`memory, this`records
      ensures Valid() && Idle()
      ensures Outcome(Denote(Mine()), events) == Outcomes(old(Denote(Mine())), hash, old(events), updates)
      ensures forall k :: 0 <= k < |run| ==> R.Inv(run[k])
      ensures Quiet() ==> s.readers == old(s.readers)
    {
      hide R.Inv, R.Run, MemOf, Denote, WellPlaced, AddOutcome, GcOutcome, Idle;
      MemParts(s);
      ghost var t, e := Denote(Mine()), events;
      var k := 0;
      assert updates[..0] == [];
      while k < |updates|
        invariant k <= |updates| && Valid() && Idle() && WellPlaced(Denote(Mine()), hash)
        invariant Outcome(Denote(Mine()), events) == Outcomes(t, hash, e, updates[..k])
        invariant Quiet() ==> s.readers == old(s.readers)
      {
        assert updates[..k + 1][..k] == updates[..k];
        OutcomePlaced(Denote(Mine()), hash, events, updates[k]);
        memory := updates[k].memory;
        match updates[k] {
        case Enter(task, _) =>
          var _ := AddThreadInfo(task);
        case Collect(tasks, _) =>
          CollectGarbage(tasks);
        }
        k := k + 1;
      }
      assert updates[..k] == updates;
      R.ReadersAreSafe(run, steps);
    }

    // ------------------------------------------------------------- the stop

    /** rcu_barrier, when there are no readers. */
    method Barrier()
      requires Valid() && s.readers == map[]
      modifies this`s, this`run, this`steps
      ensures Valid() && Mine() == old(Mine()) && s.readers == map[] && s.waiting == map[]
    {
      hide R.Run, MemOf;
      while s.waiting != map[]
        invariant Valid() && Mine() == old(Mine()) && s.readers == map[]
        decreases |s.waiting|
      {
        var at :| at in s.waiting;
        R.NoReaderNoWait(s, at);
        EnvKeepsMem(s, R.Reclaim(at));
        FewerWaiting(s.waiting, at);
        Do(R.Reclaim(at));
      }
    }

    /** clear_thread_table */
    method ClearThreadTable()
      requires Valid() && Idle() && Quiet() && s.readers == map[]
      modifies this`s, this`run, this`steps, this`clock
      ensures Valid() && s.waiting.Keys == old(s.waiting.Keys) && s.heap.Keys == s.waiting.Keys
    {
      hide R.Inv, R.Run, MemOf;
      var i := 0;
      MemParts(s);
      while i < SIZE
        invariant i <= SIZE && Valid() && SideOf(s) == old(SideOf(s)) && s.own == {} && s.unlinked == {}
        invariant forall j :: 0 <= j < i ==> s.table[j].None?
      {
        var old_ := s.table[i];
        Assign(i, None);
        MemParts(s);
        if old_.Some? {
          DestroyIs(s, old_.value);
          Do(R.Destroy(old_.value));
          MemParts(s);
        }
        i := i + 1;
      }
      OnlyWaiting(s);
    }

    /**
     The timer function runs any number of times: a callback is pending if and only if one was
     before or one of the collections replaces a bucket.
     */
    method CollectAll(collects: seq<Update>)
      requires Valid() && Idle() && Quiet() && WellPlaced(Denote(Mine()), hash)
      requires forall k :: 0 <= k < |collects| ==> collects[k].Collect?
      modifies this`s, this`run, this`steps, this`clock, this`events, this`shadow, this`memory, this`records
      ensures Valid() && Idle() && s.readers == old(s.readers)
      ensures Outcome(Denote(Mine()), events) == Outcomes(old(Denote(Mine())), hash, old(events), collects)
      ensures s.waiting.Keys == {} <==>
              old(s.waiting.Keys) == {} &&
              forall k :: 0 <= k < |collects| ==> !ReplacesAt(old(Denote(Mine())), hash, old(events), collects, k)
    {
      hide R.Inv, R.Run, MemOf, Denote, WellPlaced, Replaces, GcOutcome, AddOutcome, Idle, T.Members;
      ghost var t, e := Denote(Mine()), events;
      var k := 0;
      assert collects[..0] == [];
      while k < |collects|
        invariant k <= |collects| && Valid() && Idle() && WellPlaced(Denote(Mine()), hash) &&
                  s.readers == old(s.readers)
        invariant Outcome(Denote(Mine()), events) == Outcomes(t, hash, e, collects[..k])
        invariant s.waiting.Keys == {} <==>
                  old(s.waiting.Keys) == {} && forall j :: 0 <= j < k ==> !ReplacesAt(t, hash, e, collects, j)
      {
        assert collects[..k + 1][..k] == collects[..k];
        OutcomePlaced(Denote(Mine()), hash, events, collects[k]);
        assert ReplacesAt(t, hash, e, collects, k) ==
               Replaces(Denote(Mine()), T.Members(collects[k].tasks), collects[k].memory);
        memory := collects[k].memory;
        CollectGarbage(collects[k].tasks);
        k := k + 1;
      }
      assert collects[..k] == collects;
    }

    /**
     kedr_thread_handling_stop when no target is left.  The timer is stopped after the barrier, so
     collections may still run in between: callbacks are left over if and only if one of them
     replaces a bucket.
     */
    method Stop(collects: seq<Update>)
      requires Valid() && Idle() && Quiet() && s.readers == map[] && WellPlaced(Denote(Mine()), hash)
      requires forall k :: 0 <= k < |collects| ==> collects[k].Collect?
      modifies this`s, this`run, this`steps, this`clock, this`events, this`shadow, this`memory, this`records
      ensures Valid() && s.heap.Keys == s.waiting.Keys
      ensures s.waiting == map[] <==>
              forall k :: 0 <= k < |collects| ==> !ReplacesAt(old(Denote(Mine())), hash, old(events), collects, k)
    {
      hide R.Inv, R.Run, MemOf, Denote, WellPlaced, ReplacesAt, Filled;
      Barrier();
      CollectAll(collects);
      ClearThreadTable();
      assert s.waiting == map[] <==> s.waiting.Keys == {};
    }
  }

  /** Collection `k` of the sequence replaces a bucket of the table that it finds. */
  ghost predicate ReplacesAt(t: Table, hash: Tid -> Index, events: seq<Event>, collects: seq<Update>, k: nat)
    requires k < |collects| && collects[k].Collect?
  {
    Replaces(Outcomes(t, hash, events, collects[..k]).table, T.Members(collects[k].tasks), collects[k].memory)
  }

  datatype Update = Enter(task: Thread, memory: nat) | Collect(tasks: seq<Thread>, memory: nat)

  /** What the updates make of table and events one after the other. */
  ghost function Outcomes(t: Table, hash: Tid -> Index, events: seq<Event>, updates: seq<Update>): Outcome {
    if updates == [] then Outcome(t, events)
    else
      var o, u := Outcomes(t, hash, events, updates[..|updates| - 1]), updates[|updates| - 1];
      if u.Enter? then AddOutcome(o.table, hash, o.events, u.task, u.memory)
      else GcOutcome(o.table, o.events, T.Members(u.tasks), u.memory)
  }

  lemma OutcomePlaced(t: Table, hash: Tid -> Index, events: seq<Event>, u: Update)
    requires WellPlaced(t, hash) && (u.Enter? ==> HasTop(u.task.tid))
    ensures u.Enter? ==> WellPlaced(AddOutcome(t, hash, events, u.task, u.memory).table, hash)
    ensures u.Collect? ==> WellPlaced(GcOutcome(t, events, T.Members(u.tasks), u.memory).table, hash)
  {
    hide AddOutcome, GcOutcome, WellPlaced;
    if u.Enter? {
      OutcomesWellPlaced(t, hash, events, u.task, {}, u.memory);
    } else {
      OutcomesWellPlaced(t, hash, events, Thread(TOP, 0), T.Members(u.tasks), u.memory);
    }
  }

  lemma FewerWaiting(waiting: map<R.Address, set<R.Reader>>, at: R.Address)
    requires at in waiting
    ensures |waiting - {at}| < |waiting|
  {
    assert waiting.Keys == (waiting - {at}).Keys + {at};
    assert |(waiting - {at}).Keys| == |waiting - {at}| && |waiting.Keys| == |waiting|;
  }

  lemma OnlyWaiting(s: R.State)
    requires R.Inv(s) && s.own == {} && s.unlinked == {} && forall j :: 0 <= j < |s.table| ==> s.table[j].None?
    ensures s.heap.Keys == s.waiting.Keys
  {
    assert forall at :: !R.Published(s, at);
  }

  /**
   What a reader finds in its bucket, however late in its critical section, is what the table
   held when it dereferenced it.
   */
  lemma SnapshotIsTable(run: seq<R.State>, steps: seq<R.Step>, r: R.Reader, i: Index, j: nat, k: nat)
    requires R.Run(run, steps) && j < k <= |steps| && steps[j] == R.Dereference(r, i)
    requires forall m :: j < m < k ==> !R.OfReader(steps[m], r)
    requires |run| == |steps| + 1 && |run[j].table| == SIZE
    ensures r in run[k].readers
    ensures var b := Denote(MemOf(run[j]))[i];
            match run[k].readers[r]
            case None => b == []
            case Some(v) => v.at in run[k].heap && run[k].heap[v.at] == b
  {
    hide R.Run, R.Inv;
    R.StaleSnapshot(run, steps, r, i, j, k);
    R.ReadersAreSafe(run, steps);
    ItemsDenoted(run[j], i);
  }

  lemma ItemsDenoted(s: R.State, i: Index)
    requires R.Inv(s) && |s.table| == SIZE
    ensures R.Items(s, i) == Denote(MemOf(s))[i]
  {
  }

  /** One ended thread in the table, and the timer fires between the barrier and the stop of the timer. */
  method StopTooEarly(hash: Tid -> Index) returns (pending: bool)
    ensures pending
  {
    hide Denote, WellPlaced, AddOutcome;
    var u := new Updater(hash, (k: nat) => [], 10);
    var task := Thread(TOP, 0);
    T.EmptyConsistent(Denote(u.Mine()), hash);
    OneAdded(Denote(u.Mine()), hash, task);
    u.RunUpdates([Enter(task, 10)]);
    ghost var t, e := Denote(u.Mine()), u.events;
    var collects := [Collect([], 10)];
    assert collects[..0] == [] && Outcomes(t, hash, e, []) == Outcome(t, e);
    assert ReplacesAt(t, hash, e, collects, 0);
    u.Stop(collects);
    return u.s.waiting != map[];
  }

  lemma OneAdded(t: Table, hash: Tid -> Index, task: Thread)
    requires HasTop(task.tid) && forall i: Index :: t[i] == []
    ensures var o := Outcomes(t, hash, [], [Enter(task, 10)]);
            WellPlaced(o.table, hash) && Replaces(o.table, T.Members([]), 10)
  {
    var i := hash(task.tid);
    var o := Outcomes(t, hash, [], [Enter(task, 10)]);
    assert [Enter(task, 10)][..0] == [] && Outcomes(t, hash, [], []) == Outcome(t, []);
    assert o == AddOutcome(t, hash, [], task, 10);
    assert AddNeed([], task.tid) == 1 && Added([], task) == [task];
    OnlyBucket(o.table, i, task, SIZE);
    assert T.Members([]) == {};
    OutcomePlaced(t, hash, [], Enter(task, 10));
  }

  /** Whether a collection replaces a bucket: memory for all copies and one record, and something to remove. */
  ghost predicate Replaces(t: Table, seen: set<Thread>, m: nat) { Copies(t, SIZE) < m && Records(t, seen, SIZE) > 0 }

  lemma ReplacedSome(t: Table, seen: set<Thread>, m: nat)
    requires Copies(t, SIZE) <= m
    ensures Records(t, seen, Reached(t, seen, m - Copies(t, SIZE), SIZE)) == 0 <==> !Replaces(t, seen, m)
  {
    hide Copies, Records, Reached;
    var q := Reached(t, seen, m - Copies(t, SIZE), SIZE);
  }

  lemma SurvivorsUnchanged(t: Table, i: Index, b: Bucket, seen: set<Thread>)
    requires t[i] == b
    ensures DeadEnds(b, seen) == [] ==> t[i := Survivors(b, seen)] == t && Survivors(b, seen) == b
  {
  }

  lemma SameParts(m: Mem, m': Mem)
    requires |m.table| == SIZE && |m'.table| == SIZE && SameTable(m, m')
    ensures Denote(m') == Denote(m) && (Filled(m) ==> Filled(m')) && m'.table == m.table && m'.unlinked == m.unlinked
  {
  }

  /** Tasks of other buckets do not change a bucket. */
  lemma MarkedElsewhere(t: Table, hash: Tid -> Index, seen: set<Thread>, task: Thread)
    requires WellPlaced(t, hash)
    ensures forall j: Index :: j != hash(task.tid) ==> T.Marked(t[j], seen) == T.Marked(t[j], seen + {task})
  {
    hide T.Marked, WellPlaced;
    forall j: Index | j != hash(task.tid)
      ensures T.Marked(t[j], seen) == T.Marked(t[j], seen + {task})
    {
      T.PlacedAt(t, hash, j);
      T.MarkNone(t[j], seen, task);
    }
  }

  lemma NothingMarked(b: Bucket, seen: set<Thread>, task: Thread)
    requires T.Marked(b, seen) == []
    ensures T.Marked(b, seen + {task}) == []
  {
    assert |b| == 0;
  }

  lemma LengthsMarked(t: Table, seen: set<Thread>)
    ensures forall i: Index :: T.Marked(t[i], seen) == [] <==> t[i] == []
  {
    forall i: Index
      ensures T.Marked(t[i], seen) == [] <==> t[i] == []
    {
      assert |T.Marked(t[i], seen)| == |t[i]|;
    }
  }

  /** The list when the first `n` items have been looked at. */
  ghost function Partly(b: Bucket, seen: set<Thread>, n: nat): Bucket
    requires n <= |b|
  {
    Survivors(b[..n], seen) + T.Marked(b, seen)[n..]
  }

  lemma PartlyStart(b: Bucket, seen: set<Thread>)
    ensures Partly(b, seen, 0) == T.Marked(b, seen)
  {
    assert b[..0] == [];
  }

  lemma {:induction false} PartlyNext(b: Bucket, seen: set<Thread>, n: nat)
    requires T.AllTop(b) && n <= |b| && |Survivors(b[..n], seen)| < |Partly(b, seen, n)|
    ensures n < |b|
    ensures var k, p := |Survivors(b[..n], seen)|, Partly(b, seen, n);
            && p[k] == T.Marked(b, seen)[n]
            && Partly(b, seen, n + 1) == (if HasTop(p[k].tid) then p else p[..k] + p[k + 1..])
            && |Survivors(b[..n + 1], seen)| == (if HasTop(p[k].tid) then k + 1 else k)
            && DeadEnds(b[..n + 1], seen) == DeadEnds(b[..n], seen) + if HasTop(p[k].tid) then []
               else [End(SetTop(p[k].tid))]
  {
    hide Survivors, T.Marked, T.AllTop, DeadEnds;
    var kept, item, rest := Survivors(b[..n], seen), T.Marked(b, seen)[n], T.Marked(b, seen)[n + 1..];
    var p := Partly(b, seen, n);
    T.RemoveNext(b, seen, n);
    assert T.Marked(b, seen)[n..] == [item] + rest;
    assert p == kept + [item] + rest;
    assert p[..|kept|] == kept && p[|kept| + 1..] == rest;
    if HasTop(item.tid) {
      assert Partly(b, seen, n + 1) == p;
    }
  }

  lemma PartlyEnd(b: Bucket, seen: set<Thread>, n: nat)
    requires n <= |b| && |Partly(b, seen, n)| <= |Survivors(b[..n], seen)|
    ensures n == |b| && b[..n] == b && Partly(b, seen, n) == Survivors(b, seen)
  {
    hide Survivors;
    assert |T.Marked(b, seen)[n..]| == |b| - n;
    assert b[..|b|] == b;
  }

  lemma HeadThere(m0: Mem, m: Mem, head: Option<R.Address>, items: Bucket)
    requires Grown(m0, m, head, items) && items != []
    ensures head.Some?
  {
  }

  lemma EmptyShadow(m: Mem, shadow: seq<Option<R.Address>>)
    requires |shadow| == SIZE && m.own == {} && forall i :: 0 <= i < SIZE ==> shadow[i].None?
    ensures Shadowed(m, shadow)
  {
  }

  /** A bucket whose first `k` items are marked. */
  ghost function HalfMarked(b: Bucket, k: nat): (r: Bucket)
    requires k <= |b|
    ensures |r| == |b|
  {
    T.Marked(b, {})[..k] + b[k..]
  }

  lemma HalfStart(b: Bucket)
    ensures HalfMarked(b, 0) == b && HalfMarked(b, |b|) == T.Marked(b, {})
  {
  }

  lemma HalfNext(b: Bucket, k: nat)
    requires k < |b|
    ensures HalfMarked(b, k)[k] == b[k] && HalfMarked(b, k)[k := MarkDead(b[k])] == HalfMarked(b, k + 1)
  {
  }

  lemma ShadowOwn(s: R.State, shadow: seq<Option<R.Address>>, i: Index)
    requires Shadowed(MemOf(s), shadow) && shadow[i].Some?
    ensures shadow[i].value in s.own && shadow[i].value in s.heap
    ensures s.heap[shadow[i].value] == ShadowTable(MemOf(s), shadow)[i]
  {
  }

  lemma NoShadow(m: Mem, shadow: seq<Option<R.Address>>)
    requires Shadowed(m, shadow) && forall j :: 0 <= j < SIZE ==> shadow[j].None?
    ensures m.own == {}
  {
    assert forall at :: !InTable(shadow, at);
  }

  lemma MemParts(s: R.State)
    ensures MemOf(s).table == s.table && MemOf(s).own == s.own && MemOf(s).unlinked == s.unlinked
    ensures forall at :: at in MemOf(s).core ==> at in s.heap && s.heap[at] == MemOf(s).core[at]
  {
  }

  lemma OwnBucket(s: R.State, at: R.Address)
    requires at in MemOf(s).core && at in MemOf(s).own
    ensures at in s.heap && at in s.own && s.heap[at] == MemOf(s).core[at]
  {
  }

  /** The old bucket is still there, and it is not the one under construction. */
  lemma OldBucket(s: R.State, m0: Mem, m: Mem, old_: Option<R.Address>, head: Option<R.Address>, items: Bucket)
    requires m == MemOf(s) && Grown(m0, m, head, items) && (old_.Some? ==> old_.value in m0.core)
    ensures old_.Some? ==> old_.value in s.heap && s.heap[old_.value] == Held(m0.core, old_)
  {
    assert old_.Some? ==> old_.value in m.core;
  }

  /** There is an address that is not in use. */
  lemma SomeUnused(heap: map<R.Address, Bucket>) returns (a: R.Address)
    ensures a !in heap
  {
    a := 0;
    var seen: set<R.Address> := {};
    while a in heap
      invariant seen <= heap.Keys && |seen| == a && forall x: R.Address :: x in seen <==> x < a
      decreases |heap.Keys| - a
    {
      SubsetCard(seen + {a}, heap.Keys);
      seen := seen + {a};
      a := a + 1;
    }
  }

  lemma SubsetCard(a: set<R.Address>, b: set<R.Address>)
    requires a <= b
    ensures |a| <= |b|
  {
    assert b == a + (b - a);
  }
}
