/**
 The interleavings of ThreadRuns on memory: with enough memory every update of the thread table
 is a step of a run there, and every run there is what updates on memory make of the table, in
 any interleaving with readers and RCU callbacks.
 */
module ThreadRefinement {
  import opened Basics
  import opened ThreadSpec
  import opened ThreadFailure
  import T = ThreadTable
  import V = ThreadRuns
  import M = ThreadMemory
  import R = Rcu

  /** There is memory for the update of the table `t`. */
  ghost predicate Enough(t: Table, hash: Tid -> Index, u: M.Update) {
    match u
    case Enter(task, m) => AddNeed(t[hash(task.tid)], task.tid) <= m
    case Collect(tasks, m) => Copies(t, SIZE) + Records(t, T.Members(tasks), SIZE) <= m
  }

  /** The step that an update with enough memory is. */
  ghost predicate IsStep(s: V.State, hash: Tid -> Index, step: V.Step, u: M.Update) {
    && Enough(s.table, hash, u)
    && match step
       case Add(t) => u.Enter? && u.task == t
       case GcEnd => u.Collect? && s.gc.Some? && T.Members(u.tasks) == s.gc.value.seen
       case _ => false
  }

  /** The updates are those of the run, in order: one for each Add and each end of a collection. */
  ghost predicate Matches(run: seq<V.State>, hash: Tid -> Index, steps: seq<V.Step>, updates: seq<M.Update>)
    requires |run| == |steps| + 1
    decreases |steps|
  {
    if steps == [] then updates == []
    else
      var n, m := |steps| - 1, |updates| - 1;
      if steps[n].Add? || steps[n].GcEnd? then
        m >= 0 && IsStep(run[n], hash, steps[n], updates[m]) && Matches(run[..n + 1], hash, steps[..n], updates[..m])
      else Matches(run[..n + 1], hash, steps[..n], updates)
  }

  /** What one update makes of table and events. */
  ghost function After(t: Table, hash: Tid -> Index, events: seq<Event>, u: M.Update): Outcome {
    if u.Enter? then AddOutcome(t, hash, events, u.task, u.memory)
    else GcOutcome(t, events, T.Members(u.tasks), u.memory)
  }

  /** An update with enough memory does what its step does. */
  lemma UpdateIsStep(s: V.State, hash: Tid -> Index, step: V.Step, u: M.Update)
    requires V.Enabled(s, hash, step) && IsStep(s, hash, step, u)
    ensures var s' := V.Apply(s, hash, step); After(s.table, hash, s.events, u) == Outcome(s'.table, s'.events)
  {
    hide Without, Survivors, DeadEnds, Copies, Records, Reached, SweepEvents, Swept, T.Members, AddEvents, Added;
  }

  /** All other steps leave table and events alone. */
  lemma OthersKeep(s: V.State, hash: Tid -> Index, step: V.Step)
    requires V.Enabled(s, hash, step) && !step.Add? && !step.GcEnd?
    ensures var s' := V.Apply(s, hash, step); s'.table == s.table && s'.events == s.events
  {
    hide Without, Survivors, DeadEnds, SweepEvents, Swept, AddEvents, Added;
  }

  lemma LastUpdate(t: Table, hash: Tid -> Index, events: seq<Event>, updates: seq<M.Update>)
    requires updates != []
    ensures var m := |updates| - 1; var o := M.Outcomes(t, hash, events, updates[..m]);
            M.Outcomes(t, hash, events, updates) == After(o.table, hash, o.events, updates[m])
  {
    hide AddOutcome, GcOutcome;
  }

  /** The updates of a run make of table and events what the run does. */
  lemma {:induction false} RunIsUpdates(run: seq<V.State>, hash: Tid -> Index, steps: seq<V.Step>,
                                        updates: seq<M.Update>)
    requires V.Run(run, hash, steps) && |run| == |steps| + 1 && Matches(run, hash, steps, updates)
    ensures var last := run[|steps|];
            M.Outcomes(run[0].table, hash, run[0].events, updates) == Outcome(last.table, last.events)
    decreases |steps|
  {
    hide V.Enabled, V.Apply, V.Init, IsStep, After, M.Outcomes;
    if steps == [] {
      NoUpdates(run[0].table, hash, run[0].events);
    } else {
      var n := |steps| - 1;
      var before := run[..n + 1];
      assert before[0] == run[0] && before[n] == run[n];
      if steps[n].Add? || steps[n].GcEnd? {
        var m := |updates| - 1;
        RunIsUpdates(before, hash, steps[..n], updates[..m]);
        LastUpdate(run[0].table, hash, run[0].events, updates);
        UpdateIsStep(run[n], hash, steps[n], updates[m]);
      } else {
        RunIsUpdates(before, hash, steps[..n], updates);
        OthersKeep(run[n], hash, steps[n]);
      }
    }
  }

  lemma NoUpdates(t: Table, hash: Tid -> Index, events: seq<Event>)
    ensures M.Outcomes(t, hash, events, []) == Outcome(t, events)
  {
  }

  /** Threads that enter have the top bit of their ID set. */
  lemma {:induction false} TasksHaveTop(run: seq<V.State>, hash: Tid -> Index, steps: seq<V.Step>,
                                        updates: seq<M.Update>)
    requires V.Run(run, hash, steps) && |run| == |steps| + 1 && Matches(run, hash, steps, updates)
    requires forall k :: 0 <= k < |run| ==> V.Inv(run[k], hash)
    ensures forall k :: 0 <= k < |updates| && updates[k].Enter? ==> HasTop(updates[k].task.tid)
    decreases |steps|
  {
    hide V.Apply, V.Init, Enough, V.Inv;
    if steps != [] {
      var n := |steps| - 1;
      assert forall k :: 0 <= k <= n ==> run[..n + 1][k] == run[k];
      if steps[n].Add? || steps[n].GcEnd? {
        var m := |updates| - 1;
        TasksHaveTop(run[..n + 1], hash, steps[..n], updates[..m]);
        if steps[n].Add? {
          AddingHasTop(run[n], hash, steps[n].t);
        }
        assert forall k :: 0 <= k < m ==> updates[..m][k] == updates[k];
      } else {
        TasksHaveTop(run[..n + 1], hash, steps[..n], updates);
      }
    }
  }

  lemma AddingHasTop(s: V.State, hash: Tid -> Index, t: Thread)
    requires V.Inv(s, hash) && t in s.adding
    ensures HasTop(t.tid)
  {
  }

  // ------------------------------------------------------- and it can be had

  lemma {:induction false} Listed(s: set<Thread>) returns (tasks: seq<Thread>)
    ensures T.Members(tasks) == s
    decreases s
  {
    if s == {} {
      tasks := [];
    } else {
      var t :| t in s;
      var rest := Listed(s - {t});
      tasks := rest + [t];
      assert forall x :: x in T.Members(tasks) <==> x in T.Members(rest) || x == t;
    }
  }

  lemma StepUpdate(s: V.State, hash: Tid -> Index, step: V.Step) returns (u: M.Update)
    requires V.Enabled(s, hash, step) && (step.Add? || step.GcEnd?)
    ensures IsStep(s, hash, step, u)
  {
    hide Without, Copies, Records, T.Members;
    if step.Add? {
      u := M.Enter(step.t, AddNeed(s.table[hash(step.t.tid)], step.t.tid));
    } else {
      var tasks := Listed(s.gc.value.seen);
      u := M.Collect(tasks, Copies(s.table, SIZE) + Records(s.table, T.Members(tasks), SIZE));
    }
  }

  /** Every run has its updates. */
  lemma {:induction false} UpdatesOf(run: seq<V.State>, hash: Tid -> Index, steps: seq<V.Step>)
    returns (updates: seq<M.Update>)
    requires V.Run(run, hash, steps) && |run| == |steps| + 1
    ensures Matches(run, hash, steps, updates)
    decreases |steps|
  {
    hide V.Enabled, V.Apply, V.Init, IsStep;
    if steps == [] {
      updates := [];
    } else {
      var n := |steps| - 1;
      updates := UpdatesOf(run[..n + 1], hash, steps[..n]);
      if steps[n].Add? || steps[n].GcEnd? {
        var u := StepUpdate(run[n], hash, steps[n]);
        assert (updates + [u])[..|updates|] == updates;
        updates := updates + [u];
      }
    }
  }

  /**
   A run of ThreadRuns carried out on memory: whatever readers and callbacks do in between, table
   and events are those of the run, so that they agree with each other and with the threads there
   are, and readers are safe in every state.
   */
  method RunOnMemory(u: M.Updater, updates: seq<M.Update>, ghost run: seq<V.State>, ghost steps: seq<V.Step>)
    requires u.Valid() && u.Idle() && u.events == [] && forall i: Index :: M.Denote(u.Mine())[i] == []
    requires V.Run(run, u.hash, steps) && |run| == |steps| + 1 && Matches(run, u.hash, steps, updates)
    modifies u`s, u`run, u`steps, u`clock, u`events, u`shadow, u`memory, u`records
    ensures u.Valid() && u.Idle()
    ensures var last := run[|steps|];
            M.Denote(u.Mine()) == last.table && u.events == last.events && V.Inv(last, u.hash)
    ensures forall k :: 0 <= k < |u.run| ==> R.Inv(u.run[k])
  {
    hide M.Denote, M.Outcomes, V.Inv, V.Run, Matches, Consistent, M.MemOf;
    StartsEmpty(run, u.hash, steps, M.Denote(u.Mine()));
    V.AllRuns(run, u.hash, steps);
    TasksHaveTop(run, u.hash, steps, updates);
    RunIsUpdates(run, u.hash, steps, updates);
    u.RunUpdates(updates);
  }

  lemma {:induction false} StartsEmpty(run: seq<V.State>, hash: Tid -> Index, steps: seq<V.Step>, t: Table)
    requires V.Run(run, hash, steps) && forall i: Index :: t[i] == []
    ensures run != [] && run[0].table == t && run[0].events == [] && WellPlaced(t, hash)
    decreases |steps|
  {
    hide V.Enabled, V.Apply, WellPlaced;
    T.EmptyConsistent(t, hash);
    if steps == [] {
      assert forall i :: 0 <= i < SIZE ==> run[0].table[i] == t[i];
    } else {
      StartsEmpty(run[..|steps|], hash, steps[..|steps| - 1], t);
    }
  }
}
