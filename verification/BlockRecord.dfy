/**
 The contract between instrumentation and report for one code block.  Four traversals have to
 agree on the number and the slots of every memory operation: the count, the filling of the
 block information, the instrumentation, and the report at the end of the block.
 A 32-bit mask is the set of the positions of its bits.
 */
module BlockRecord {
  import opened Basics

  /** What the decoder tells about an instruction that may access memory. */
  datatype Class =
    | SetCc | CmovCc | Cmpxchg | Cmpxchg8b | PushEv | PopEv | PlainE | Movbe
    | Xlat | OffsetMov | StringX | StringY | StringXY | NoAccess

  datatype Op = Op(class_: Class, tracked: bool, pc: nat, size: nat, read: bool, write: bool)

  ghost predicate Decoded(op: Op) { op.tracked ==> !op.class_.NoAccess? }

  predicate IsTypeX(c: Class) { c.StringX? || c.StringXY? }

  predicate IsTypeY(c: Class) { c.StringY? || c.StringXY? }

  predicate IsTypeXY(c: Class) { IsTypeX(c) && IsTypeY(c) }

  predicate IsString(c: Class) { IsTypeX(c) || IsTypeY(c) }

  predicate IsTypeE(c: Class) { c.SetCc? || c.CmovCc? || c.Cmpxchg? || c.PushEv? || c.PopEv? || c.PlainE? }

  // ---------------------------------------------------------------- counting

  /** max_local_value_count */
  function SlotCount(op: Op): nat {
    if !op.tracked then 0
    else if !IsString(op.class_) then 1
    else if !IsTypeXY(op.class_) then 2
    else 4
  }

  /** max_event_count */
  function EventCount(op: Op): nat {
    if !op.tracked then 0 else if !IsTypeXY(op.class_) then 1 else 2
  }

  ghost function SlotSum(ops: seq<Op>): nat {
    if ops == [] then 0 else SlotSum(ops[..|ops| - 1]) + SlotCount(ops[|ops| - 1])
  }

  ghost function EventSum(ops: seq<Op>): nat {
    if ops == [] then 0 else EventSum(ops[..|ops| - 1]) + EventCount(ops[|ops| - 1])
  }

  // ------------------------------------------------- what there is to report

  /** The part of an event that is known in advance. */
  datatype Static = Static(pc: nat, size: nat, read: bool, write: bool, str: bool)

  ghost function Statics(op: Op): seq<Static>
    requires Decoded(op)
    ensures |Statics(op)| == EventCount(op)
  {
    if !op.tracked then []
    else match op.class_
      case StringXY => [Static(op.pc, op.size, true, false, true), Static(op.pc, op.size, !op.write, op.write, true)]
      case StringX => [Static(op.pc, op.size, op.read, op.write, true)]
      case StringY => [Static(op.pc, op.size, op.read, op.write, true)]
      case Xlat => [Static(op.pc, 1, true, false, false)]
      case PushEv => [Static(op.pc, op.size, true, false, false)]
      case PopEv => [Static(op.pc, op.size, false, true, false)]
      // whether a CMPXCHG writes is known only when it has executed
      case Cmpxchg => [Static(op.pc, op.size, true, false, false)]
      case Cmpxchg8b => [Static(op.pc, op.size, true, false, false)]
      case _ => [Static(op.pc, op.size, op.read, op.write, false)]
  }

  /** What an instruction did when control passed through the block. */
  datatype Access =
    | Skipped                                      // not executed, or executed without an access
    | At(addr: nat)
    | Exchange(addr: nat, wrote: bool)             // CMPXCHG*
    | Range(addr: nat, len: nat)                   // X or Y
    | TwoRanges(addr: nat, len: nat, addr2: nat, len2: nat)

  ghost predicate Possible(op: Op, a: Access) {
    match a
    case Skipped => true
    case At(_) => !IsString(op.class_) && !op.class_.Cmpxchg? && !op.class_.Cmpxchg8b?
    case Exchange(_, _) => op.class_.Cmpxchg? || op.class_.Cmpxchg8b?
    case Range(_, _) => IsString(op.class_) && !IsTypeXY(op.class_)
    case TwoRanges(_, _, _, _) => IsTypeXY(op.class_)
  }

  /** The part of an event that is known only at run time. */
  datatype Dynamic = Dynamic(addr: nat, len: nat, wrote: bool)

  ghost function Dynamics(op: Op, a: Access): seq<Dynamic>
    ensures Possible(op, a) ==> |Dynamics(op, a)| == EventCount(op)
  {
    if !op.tracked then []
    else match a
      case Skipped => if IsTypeXY(op.class_) then [Dynamic(0, 0, false), Dynamic(0, 0, false)]
      else [Dynamic(0, 0, false)]
      case At(addr) => [Dynamic(addr, 0, false)]
      case Exchange(addr, wrote) => [Dynamic(addr, 0, wrote)]
      case Range(addr, len) => [Dynamic(addr, len, false)]
      case TwoRanges(addr, len, addr2, len2) => [Dynamic(addr, len, false), Dynamic(addr2, len2, false)]
  }

  datatype Kind = MRead | MWrite | MUpdate

  datatype Event = Event(pc: nat, addr: nat, size: nat, kind: Kind)

  ghost function KindOf(read: bool, write: bool): Kind {
    if !write then MRead else if read then MUpdate else MWrite
  }

  ghost function EventOf(s: Static, d: Dynamic): Event {
    Event(s.pc, d.addr, if s.str then d.len else s.size, KindOf(s.read, s.write || d.wrote))
  }

  /** The events of a whole block, operation by operation. */
  ghost function Expected(ops: seq<Op>, run: seq<Access>): seq<Event>
    requires |ops| == |run| && BlockRun(ops, run)
  {
    var s, d := AllStatics(ops), AllDynamics(ops, run);
    seq(|s|, i requires 0 <= i < |s| => EventOf(s[i], d[i]))
  }

  ghost predicate Block(ops: seq<Op>) { forall k :: 0 <= k < |ops| ==> Decoded(ops[k]) }

  ghost predicate BlockRun(ops: seq<Op>, run: seq<Access>) {
    Block(ops) && |ops| == |run| && forall k :: 0 <= k < |ops| ==> Possible(ops[k], run[k])
  }

  ghost function AllStatics(ops: seq<Op>): (r: seq<Static>)
    requires Block(ops)
    ensures |r| == EventSum(ops)
  {
    if ops == [] then [] else AllStatics(ops[..|ops| - 1]) + Statics(ops[|ops| - 1])
  }

  ghost function AllDynamics(ops: seq<Op>, run: seq<Access>): (r: seq<Dynamic>)
    requires BlockRun(ops, run)
    ensures |r| == EventSum(ops)
  {
    if ops == [] then []
    else AllDynamics(ops[..|ops| - 1], run[..|ops| - 1]) + Dynamics(ops[|ops| - 1], run[|ops| - 1])
  }

  // ------------------------------------------------------------ block information

  datatype MemEvent = MemEvent(pc: nat, size: nat)

  class BlockInfo {
    const maxEvents: nat
    var readMask: set<nat>
    var writeMask: set<nat>
    var stringMask: set<nat>
    const events: array<MemEvent>

    /** kedr_block_info_create */
    constructor (maxEvents: nat)
      ensures this.maxEvents == maxEvents && events.Length == maxEvents && fresh(events)
      ensures readMask == {} && writeMask == {} && stringMask == {}
    {
      this.maxEvents := maxEvents;
      readMask, writeMask, stringMask := {}, {}, {};
      events := new MemEvent[maxEvents](_ => MemEvent(0, 0));
    }

    /** The first `n` events are described as `s` says, and nothing else is. */
    ghost predicate Describes(s: seq<Static>)
      reads this, events
    {
      && |s| <= events.Length
      && (forall i :: 0 <= i < |s| ==> events[i] == MemEvent(s[i].pc, s[i].size))
      && (forall i :: i in readMask <==> 0 <= i < |s| && s[i].read)
      && (forall i :: i in writeMask <==> 0 <= i < |s| && s[i].write)
      && (forall i :: i in stringMask <==> 0 <= i < |s| && s[i].str)
    }

    /** One event: the bits that are set and the entry that is written at position `n`. */
    method SetEvent(n: nat, pc: nat, size: nat, read: bool, write: bool, str: bool, ghost s: seq<Static>)
      requires n == |s| < events.Length && Describes(s)
      modifies this`readMask, this`writeMask, this`stringMask, events
      ensures Describes(s + [Static(pc, size, read, write, str)])
    {
      if str {
        stringMask := stringMask + {n};
      }
      if read {
        readMask := readMask + {n};
      }
      if write {
        writeMask := writeMask + {n};
      }
      events[n] := MemEvent(pc, size);
    }

    /** One instruction, in the order in which fill_block_info tells them apart. */
    method FillOp(op: Op, n: nat, ghost s: seq<Static>) returns (n': nat)
      requires Decoded(op) && op.tracked
      requires n == |s| && n + EventCount(op) <= events.Length && Describes(s)
      modifies this`readMask, this`writeMask, this`stringMask, events
      ensures n' == n + EventCount(op) && Describes(s + Statics(op))
    {
      hide Describes;
      var c := op.class_;
      if IsTypeXY(c) {
        SetEvent(n, op.pc, op.size, true, false, true, s);
        ghost var s' := s + [Static(op.pc, op.size, true, false, true)];
        SetEvent(n + 1, op.pc, op.size, !op.write, op.write, true, s');
        assert s' + [Static(op.pc, op.size, !op.write, op.write, true)] == s + Statics(op);
        return n + 2;
      } else if IsString(c) {
        SetEvent(n, op.pc, op.size, op.read, op.write, true, s);
      } else if c.OffsetMov? {
        SetEvent(n, op.pc, op.size, op.read, op.write, false, s);
      } else if c.Xlat? {
        SetEvent(n, op.pc, 1, true, false, false, s);
      } else if c.PushEv? {
        SetEvent(n, op.pc, op.size, true, false, false, s);
      } else if c.PopEv? {
        SetEvent(n, op.pc, op.size, false, true, false, s);
      } else if c.Cmpxchg? {
        SetEvent(n, op.pc, op.size, true, false, false, s);
      } else if c.Cmpxchg8b? {
        SetEvent(n, op.pc, op.size, true, false, false, s);
      } else {
        assert IsTypeE(c) || c.Movbe?;
        SetEvent(n, op.pc, op.size, op.read, op.write, false, s);
      }
      n' := n + 1;
    }

    /** fill_block_info */
    method Fill(ops: seq<Op>)
      requires Block(ops) && maxEvents == EventSum(ops) == events.Length && Describes([])
      modifies this`readMask, this`writeMask, this`stringMask, events
      ensures Describes(AllStatics(ops))
    {
      hide Describes;
      var k, n: nat := 0, 0;
      assert ops[..0] == [];
      while k < |ops|
        invariant k <= |ops| && n == EventSum(ops[..k]) && Describes(AllStatics(ops[..k]))
      {
        NextOp(ops, k);
        if ops[k].tracked {
          n := FillOp(ops[k], n, AllStatics(ops[..k]));
        } else {
          assert AllStatics(ops[..k]) + [] == AllStatics(ops[..k]);
        }
        k := k + 1;
      }
      assert ops[..k] == ops;
      assert n == maxEvents;
    }
  }

  lemma NextOp(ops: seq<Op>, k: nat)
    requires Block(ops) && k < |ops|
    ensures EventSum(ops[..k + 1]) == EventSum(ops[..k]) + EventCount(ops[k])
    ensures SlotSum(ops[..k + 1]) == SlotSum(ops[..k]) + SlotCount(ops[k])
    ensures AllStatics(ops[..k + 1]) == AllStatics(ops[..k]) + Statics(ops[k])
    ensures EventSum(ops[..k + 1]) <= EventSum(ops) && SlotSum(ops[..k + 1]) <= SlotSum(ops)
  {
    assert ops[..k + 1][..k] == ops[..k];
    SumsGrow(ops, k + 1);
  }

  lemma SumsStart(ops: seq<Op>)
    ensures EventSum(ops[..0]) == 0 && SlotSum(ops[..0]) == 0
  {
  }

  lemma {:induction false} SumsGrow(ops: seq<Op>, k: nat)
    requires k <= |ops|
    ensures EventSum(ops[..k]) <= EventSum(ops) && SlotSum(ops[..k]) <= SlotSum(ops)
    decreases |ops|
  {
    if k == |ops| {
      assert ops[..k] == ops;
    } else {
      SumsGrow(ops[..|ops| - 1], k);
      assert ops[..|ops| - 1][..k] == ops[..k];
    }
  }

  // ------------------------------------------------------------- instrumentation

  /** The number and the first slot that an instruction is instrumented with. */
  datatype Probe = Probe(num: nat, nval: nat)

  /** instrument_tracked_insn, the order of its tests and the advance of its counters. */
  method Advance(op: Op, num: nat, nval: nat) returns (num': nat, nval': nat)
    requires Decoded(op) && op.tracked && num < MAX_VALUES && nval < MAX_VALUES
    ensures num' == num + EventCount(op) && nval' == nval + SlotCount(op)
  {
    var c := op.class_;
    if c.CmovCc? || c.SetCc? {
      return num + 1, nval + 1;
    } else if c.Cmpxchg? {
      return num + 1, nval + 1;
    } else if c.Cmpxchg8b? {
      return num + 1, nval + 1;
    } else if IsTypeE(c) || c.Movbe? {
      return num + 1, nval + 1;
    } else if c.Xlat? {
      return num + 1, nval + 1;
    } else if c.OffsetMov? {
      return num + 1, nval + 1;
    } else if IsTypeXY(c) {
      return num + 2, nval + 4;
    } else if IsTypeX(c) {
      return num + 1, nval + 2;
    } else {
      assert IsTypeY(c);
      return num + 1, nval + 2;
    }
  }

  /** instrument_common_block: no BUG_ON is met, and the k-th operation gets its own number and slots. */
  method Instrument(ops: seq<Op>, info: BlockInfo) returns (probes: seq<Probe>)
    requires Block(ops) && info.maxEvents == EventSum(ops) && SlotSum(ops) <= MAX_VALUES
    ensures |probes| == |ops|
    ensures forall k :: 0 <= k < |ops| ==> probes[k] == Probe(EventSum(ops[..k]), SlotSum(ops[..k]))
  {
    hide EventSum, SlotSum;
    probes := [];
    SumsStart(ops);
    var k, num: nat, nval: nat := 0, 0, 0;
    while k < |ops|
      invariant k <= |ops| && |probes| == k
      invariant num == EventSum(ops[..k]) && nval == SlotSum(ops[..k])
      invariant forall j :: 0 <= j < k ==> probes[j] == Probe(EventSum(ops[..j]), SlotSum(ops[..j]))
    {
      NextOp(ops, k);
      probes := probes + [Probe(num, nval)];
      if ops[k].tracked {
        EventsWithinSlots(ops[..k + 1]);
        assert num < info.maxEvents && nval < MAX_VALUES;
        num, nval := Advance(ops[k], num, nval);
        assert num <= info.maxEvents && nval <= MAX_VALUES;
      }
      k := k + 1;
    }
  }

  lemma {:induction false} EventsWithinSlots(ops: seq<Op>)
    ensures EventSum(ops) <= SlotSum(ops)
    decreases |ops|
  {
    if ops != [] {
      EventsWithinSlots(ops[..|ops| - 1]);
    }
  }

  // --------------------------------------------------------------- execution

  /** The slots of one event. */
  ghost function EventSlots(s: Static, d: Dynamic): seq<nat> {
    if s.str then [d.addr, d.len] else [d.addr]
  }

  ghost function Slots(s: seq<Static>, d: seq<Dynamic>): seq<nat>
    requires |s| == |d|
  {
    if s == [] then [] else Slots(s[..|s| - 1], d[..|s| - 1]) + EventSlots(s[|s| - 1], d[|s| - 1])
  }

  ghost predicate Wrote(s: seq<Dynamic>, i: int) { 0 <= i < |s| && s[i].wrote }

  /** The slots and the write bits hold exactly the accesses recorded so far. */
  ghost predicate HoldsIn(values: seq<nat>, writeMask: set<nat>, slots: seq<nat>, d: seq<Dynamic>) {
    && |values| == MAX_VALUES && |slots| <= MAX_VALUES
    && (forall i :: 0 <= i < MAX_VALUES ==> values[i] == if i < |slots| then slots[i] else 0)
    && (forall i :: i in writeMask <==> Wrote(d, i))
  }

  function Width(a: Access): nat {
    match a
    case Skipped => 0
    case At(_) => 1
    case Exchange(_, _) => 1
    case Range(_, _) => 2
    case TwoRanges(_, _, _, _) => 4
  }

  /** Where the code added for an operation leaves what the operation did. */
  ghost function RecordedValues(values: seq<nat>, n: nat, a: Access): seq<nat>
    requires n + Width(a) <= |values|
  {
    match a
    case Skipped => values
    case At(addr) => values[n := addr]
    case Exchange(addr, _) => values[n := addr]
    case Range(addr, len) => values[n := addr][n + 1 := len]
    case TwoRanges(addr, len, addr2, len2) => values[n := addr][n + 1 := len][n + 2 := addr2][n + 3 := len2]
  }

  ghost function RecordedMask(writeMask: set<nat>, num: nat, a: Access): set<nat> {
    writeMask + if a.Exchange? && a.wrote then {num} else {}
  }

  lemma RecordedSlots(op: Op, p: Probe, a: Access, values: seq<nat>)
    requires op.tracked && Decoded(op) && Possible(op, a) && p.nval + SlotCount(op) <= |values|
    ensures p.nval + Width(a) <= |values|
    ensures var r := RecordedValues(values, p.nval, a);
            && |r| == |values|
            && (forall i :: 0 <= i < |values| && !(p.nval <= i < p.nval + SlotCount(op)) ==> r[i] == values[i])
            && (a.Skipped? ==> r == values)
            && (!a.Skipped? ==> r[p.nval..p.nval + SlotCount(op)] == Slots(Statics(op), Dynamics(op, a)))
  {
    hide Slots;
    var s, d := Statics(op), Dynamics(op, a);
    SlotsOneTwo(s[0], d[0], s[|s| - 1], d[|s| - 1]);
    assert s == if |s| == 1 then [s[0]] else [s[0], s[|s| - 1]];
    assert d == if |s| == 1 then [d[0]] else [d[0], d[|s| - 1]];
  }

  /** One operation extends what the slots hold. */
  lemma RecordedHolds(op: Op, p: Probe, a: Access, values: seq<nat>, mask: set<nat>, s: seq<Static>, d: seq<Dynamic>)
    requires op.tracked && Decoded(op) && Possible(op, a)
    requires |s| == |d| && p == Probe(|d|, |Slots(s, d)|) && p.nval + SlotCount(op) <= MAX_VALUES
    requires HoldsIn(values, mask, Slots(s, d), d)
    ensures p.nval + Width(a) <= |values|
    ensures HoldsIn(RecordedValues(values, p.nval, a), RecordedMask(mask, p.num, a),
                    Slots(s, d) + Slots(Statics(op), Dynamics(op, a)), d + Dynamics(op, a))
  {
    hide Slots, Statics, Dynamics, RecordedValues;
    var slots, more := Slots(s, d), Slots(Statics(op), Dynamics(op, a));
    var n, m := |slots|, SlotCount(op);
    OpSlots(op, a);
    RecordedSlots(op, p, a, values);
    var r := RecordedValues(values, p.nval, a);
    forall i | 0 <= i < MAX_VALUES
      ensures r[i] == if i < n + m then (slots + more)[i] else 0
    {
      if n <= i < n + m {
        assert a.Skipped? ==> r[i] == 0;
        assert !a.Skipped? ==> r[i] == r[n..n + m][i - n];
      }
    }
    var d' := d + Dynamics(op, a);
    assert forall i :: Wrote(d', i) <==> Wrote(d, i) || Wrote(Dynamics(op, a), i - |d|);
  }

  class LocalStorage {
    const values: array<nat>
    var writeMask: set<nat>
    var destAddr: nat

    ghost predicate Cleared()
      reads this, values
    {
      values.Length == MAX_VALUES && (forall i :: 0 <= i < MAX_VALUES ==> values[i] == 0) && writeMask == {} &&
      destAddr == 0
    }

    /** The slots hold exactly the accesses recorded so far. */
    ghost predicate Holds(slots: seq<nat>, d: seq<Dynamic>)
      reads this, values
    {
      HoldsIn(values[..], writeMask, slots, d)
    }

    /** The code added for one operation: where it leaves what the operation did. */
    method Record(p: Probe, a: Access)
      requires p.nval + Width(a) <= values.Length
      modifies values, this`writeMask
      ensures values[..] == RecordedValues(old(values[..]), p.nval, a)
      ensures writeMask == RecordedMask(old(writeMask), p.num, a)
    {
      match a
      case Skipped =>
      case At(addr) =>
        values[p.nval] := addr;
      case Exchange(addr, wrote) =>
        values[p.nval] := addr;
        if wrote {
          writeMask := writeMask + {p.num};
        }
      case Range(addr, len) =>
        values[p.nval] := addr;
        values[p.nval + 1] := len;
      case TwoRanges(addr, len, addr2, len2) =>
        values[p.nval] := addr;
        values[p.nval + 1] := len;
        values[p.nval + 2] := addr2;
        values[p.nval + 3] := len2;
    }

    /** Control passes through the block, forward only. */
    method Execute(ops: seq<Op>, probes: seq<Probe>, run: seq<Access>)
      requires BlockRun(ops, run) && SlotSum(ops) <= MAX_VALUES && Cleared()
      requires |probes| == |ops|
      requires forall k :: 0 <= k < |ops| ==> probes[k] == Probe(EventSum(ops[..k]), SlotSum(ops[..k]))
      modifies values, this`writeMask
      ensures Holds(Slots(AllStatics(ops), AllDynamics(ops, run)), AllDynamics(ops, run))
    {
      hide Slots, Statics, Dynamics, Holds, AllStatics, AllDynamics, EventSum, SlotSum, Possible;
      var k := 0;
      ExecuteStart(this, ops, run);
      while k < |ops|
        invariant k <= |ops| && BlockRun(ops[..k], run[..k])
        invariant Holds(Slots(AllStatics(ops[..k]), AllDynamics(ops[..k], run[..k])), AllDynamics(ops[..k], run[..k]))
      {
        NextOp(ops, k);
        NextRun(ops, run, k);
        if ops[k].tracked {
          RecordOp(ops[k], probes[k], run[k], AllStatics(ops[..k]), AllDynamics(ops[..k], run[..k]));
        }
        k := k + 1;
      }
      assert ops[..k] == ops && run[..k] == run;
    }

    /** One operation extends what the slots hold. */
    method RecordOp(op: Op, p: Probe, a: Access, ghost s: seq<Static>, ghost d: seq<Dynamic>)
      requires op.tracked && Decoded(op) && Possible(op, a)
      requires |s| == |d| && p == Probe(|d|, |Slots(s, d)|) && p.nval + SlotCount(op) <= MAX_VALUES
      requires Holds(Slots(s, d), d)
      modifies values, this`writeMask
      ensures Holds(Slots(s, d) + Slots(Statics(op), Dynamics(op, a)), d + Dynamics(op, a))
    {
      hide Slots, Statics, Dynamics, HoldsIn, RecordedValues, RecordedMask;
      RecordedHolds(op, p, a, values[..], writeMask, s, d);
      Record(p, a);
    }

    /** report_events */
    method ReportEvents(info: BlockInfo, ghost s: seq<Static>, ghost d: seq<Dynamic>) returns (r: seq<Event>)
      requires |s| == |d| && info.Describes(s) && info.maxEvents == |s|
      requires Holds(Slots(s, d), d)
      ensures |r| == |s| && forall i :: 0 <= i < |s| ==> r[i] == EventOf(s[i], d[i])
    {
      hide Slots, HoldsIn;
      r := ReportSlots(info, values[..], writeMask, s, d);
    }

    /** kedr_on_common_block_end: report unless sampling says otherwise, then clear the storage. */
    method BlockEnd(info: BlockInfo, report: bool, ghost ops: seq<Op>, ghost run: seq<Access>) returns (r: seq<Event>)
      requires BlockRun(ops, run) && info.Describes(AllStatics(ops)) && info.maxEvents == EventSum(ops)
      requires Holds(Slots(AllStatics(ops), AllDynamics(ops, run)), AllDynamics(ops, run))
      modifies values, this`writeMask, this`destAddr
      ensures r == if report then Expected(ops, run) else []
      ensures Cleared()
    {
      hide Slots, AllStatics, AllDynamics;
      r := [];
      if report {
        r := ReportEvents(info, AllStatics(ops), AllDynamics(ops, run));
        assert r == Expected(ops, run);
      }
      for i := 0 to MAX_VALUES
        invariant forall j :: 0 <= j < i ==> values[j] == 0
      {
        values[i] := 0;
      }
      writeMask := {};
      destAddr := 0;
    }
  }

  /** report_events, given the slots and the write bits. */
  method ReportSlots(info: BlockInfo, values: seq<nat>, writeMask: set<nat>, ghost s: seq<Static>,
                     ghost d: seq<Dynamic>)
    returns (r: seq<Event>)
    requires |s| == |d| && info.Describes(s) && info.maxEvents == |s|
    requires HoldsIn(values, writeMask, Slots(s, d), d)
    ensures |r| == |s| && forall i :: 0 <= i < |s| ==> r[i] == EventOf(s[i], d[i])
  {
    hide Slots;
    r := [];
    var i, nval: nat := 0, 0;
    SlotsStart(s, d);
    while i < info.maxEvents
      invariant i <= |s| && nval == |Slots(s[..i], d[..i])|
      invariant |r| == i && forall j :: 0 <= j < i ==> r[j] == EventOf(s[j], d[j])
    {
      EventAt(s, d, i);
      var n := nval;
      var size;
      if i in info.stringMask {
        size := values[n + 1];
        nval := nval + 2;
      } else {
        size := info.events[i].size;
        nval := nval + 1;
      }
      var kind := MRead;
      if i in info.writeMask || i in writeMask {
        kind := if i in info.readMask then MUpdate else MWrite;
      }
      r := r + [Event(info.events[i].pc, values[n], size, kind)];
      i := i + 1;
    }
  }

  /**
   The contract: block information filled by one traversal, probes placed by a second, slots
   written by a run of the code and read back by the report give exactly the events of the run,
   in order, whatever part of the block was executed; and the storage is clear for the next block.
   */
  method WholeBlock(ops: seq<Op>, run: seq<Access>, ls: LocalStorage) returns (r: seq<Event>)
    requires BlockRun(ops, run) && SlotSum(ops) <= MAX_VALUES && ls.Cleared()
    modifies ls, ls.values
    ensures r == Expected(ops, run) && ls.Cleared()
  {
    hide AllStatics, AllDynamics, Slots, EventSum, SlotSum, Possible;
    var n := CountEvents(ops);
    var info := new BlockInfo(n);
    info.Fill(ops);
    var probes := Instrument(ops, info);
    ls.Execute(ops, probes, run);
    r := ls.BlockEnd(info, true, ops, run);
  }

  /** Which address and which bytes event `j` of an operation is about, by what the operation did. */
  ghost predicate AddressTold(op: Op, a: Access, j: nat, e: Event) {
    match a
    case Skipped => e.addr == 0 && e.size == if IsString(op.class_) then 0 else if op.class_.Xlat? then 1 else op.size
    case At(addr) => e.addr == addr && e.size == if op.class_.Xlat? then 1 else op.size
    case Exchange(addr, _) => e.addr == addr && e.size == op.size
    case Range(addr, len) => e.addr == addr && e.size == len
    case TwoRanges(addr, len, addr2, len2) =>
      if j == 0 then e.addr == addr && e.size == len else e.addr == addr2 && e.size == len2
  }

  /** Whether event `j` of an operation is a read, a write or an update. */
  ghost predicate KindTold(op: Op, a: Access, j: nat, e: Event) {
    match op.class_
    case PushEv => e.kind == MRead
    case Xlat => e.kind == MRead
    case PopEv => e.kind == MWrite
    case StringXY => e.kind == if j == 1 && op.write then MWrite else MRead
    case Cmpxchg => e.kind == if a.Exchange? && a.wrote then MUpdate else MRead
    case Cmpxchg8b => e.kind == if a.Exchange? && a.wrote then MUpdate else MRead
    case _ =>
      && (e.kind.MRead? <==> !op.write)
      && (e.kind.MWrite? <==> op.write && !op.read)
      && (e.kind.MUpdate? <==> op.write && op.read)
  }

  /** Event `j` of the k-th operation is found at its number in the report and is about that operation. */
  lemma OperationReported(ops: seq<Op>, run: seq<Access>, k: nat, j: nat)
    requires BlockRun(ops, run) && k < |ops| && j < EventCount(ops[k])
    ensures EventSum(ops[..k]) + j < |Expected(ops, run)|
    ensures var e := Expected(ops, run)[EventSum(ops[..k]) + j];
            && e == EventOf(Statics(ops[k])[j], Dynamics(ops[k], run[k])[j])
            && e.pc == ops[k].pc && AddressTold(ops[k], run[k], j, e) && KindTold(ops[k], run[k], j, e)
  {
    hide AllStatics, AllDynamics, EventSum;
    OperationAt(ops, run, k, j);
  }

  lemma {:induction false} OperationAt(ops: seq<Op>, run: seq<Access>, k: nat, j: nat)
    requires BlockRun(ops, run) && k < |ops| && j < EventCount(ops[k])
    ensures EventSum(ops[..k]) + j < EventSum(ops)
    ensures AllStatics(ops)[EventSum(ops[..k]) + j] == Statics(ops[k])[j]
    ensures AllDynamics(ops, run)[EventSum(ops[..k]) + j] == Dynamics(ops[k], run[k])[j]
    decreases |ops|
  {
    hide Statics, Dynamics, Possible, EventCount;
    var n := |ops| - 1;
    if k < n {
      assert ops[..n][..k] == ops[..k];
      OperationAt(ops[..n], run[..n], k, j);
    }
  }

  method CountEvents(ops: seq<Op>) returns (n: nat)
    ensures n == EventSum(ops)
  {
    n := 0;
    assert ops[..0] == [];
    for k := 0 to |ops|
      invariant n == EventSum(ops[..k])
    {
      assert ops[..k + 1][..k] == ops[..k];
      n := n + EventCount(ops[k]);
    }
    assert ops[..|ops|] == ops;
  }

  // ---------------------------------------------------------- facts about slots

  lemma SlotsSnoc(s: seq<Static>, d: seq<Dynamic>, x: Static, y: Dynamic)
    requires |s| == |d|
    ensures Slots(s + [x], d + [y]) == Slots(s, d) + EventSlots(x, y)
  {
    assert (s + [x])[..|s|] == s && (d + [y])[..|s|] == d;
  }

  lemma SlotsOneTwo(x: Static, y: Dynamic, x': Static, y': Dynamic)
    ensures Slots([], []) == [] && Slots([x], [y]) == EventSlots(x, y)
    ensures Slots([x, x'], [y, y']) == EventSlots(x, y) + EventSlots(x', y')
  {
    assert [x][..0] == [] && [y][..0] == [];
    SlotsSnoc([x], [y], x', y');
    assert [x] + [x'] == [x, x'] && [y] + [y'] == [y, y'];
  }

  lemma {:induction false} SlotsAppend(s: seq<Static>, d: seq<Dynamic>, s': seq<Static>, d': seq<Dynamic>)
    requires |s| == |d| && |s'| == |d'|
    ensures Slots(s + s', d + d') == Slots(s, d) + Slots(s', d')
    decreases |s'|
  {
    hide Slots, EventSlots;
    if s' == [] {
      assert s + s' == s && d + d' == d && s' == s'[..0] && d' == d'[..0];
      SlotsStart(s', d');
    } else {
      var n := |s'| - 1;
      var x, y := s'[n], d'[n];
      assert s' == s'[..n] + [x] && d' == d'[..n] + [y];
      assert s + s' == s + s'[..n] + [x] && d + d' == d + d'[..n] + [y];
      SlotsSnoc(s'[..n], d'[..n], x, y);
      SlotsSnoc(s + s'[..n], d + d'[..n], x, y);
      SlotsAppend(s, d, s'[..n], d'[..n]);
    }
  }

  /** An operation has as many slots as were counted for it, all zero if it was skipped. */
  lemma OpSlots(op: Op, a: Access)
    requires Decoded(op) && Possible(op, a)
    ensures |Slots(Statics(op), Dynamics(op, a))| == SlotCount(op)
    ensures a.Skipped? ==> forall i :: 0 <= i < SlotCount(op) ==> Slots(Statics(op), Dynamics(op, a))[i] == 0
    ensures |Dynamics(op, a)| <= 2 && forall i :: Wrote(Dynamics(op, a), i) <==>
            op.tracked && a.Exchange? && a.wrote && i == 0
  {
    hide Slots;
    var s, d := Statics(op), Dynamics(op, a);
    if |s| == 2 {
      SlotsOneTwo(s[0], d[0], s[1], d[1]);
      assert s == [s[0], s[1]] && d == [d[0], d[1]];
    } else if |s| == 1 {
      SlotsOneTwo(s[0], d[0], s[0], d[0]);
      assert s == [s[0]] && d == [d[0]];
    } else {
      SlotsStart(s, d);
      assert s == s[..0] && d == d[..0];
    }
  }

  lemma ExecuteStart(ls: LocalStorage, ops: seq<Op>, run: seq<Access>)
    requires BlockRun(ops, run) && ls.Cleared()
    ensures BlockRun(ops[..0], run[..0])
    ensures ls.Holds(Slots(AllStatics(ops[..0]), AllDynamics(ops[..0], run[..0])), AllDynamics(ops[..0], run[..0]))
  {
    assert AllDynamics(ops[..0], run[..0]) == [];
  }

  lemma NextRun(ops: seq<Op>, run: seq<Access>, k: nat)
    requires BlockRun(ops, run) && k < |ops| && BlockRun(ops[..k], run[..k])
    ensures BlockRun(ops[..k + 1], run[..k + 1])
    ensures var s, d := AllStatics(ops[..k]), AllDynamics(ops[..k], run[..k]);
            && |s| == |d| == EventSum(ops[..k]) && |Slots(s, d)| == SlotSum(ops[..k])
            && AllStatics(ops[..k + 1]) == s + Statics(ops[k])
            && AllDynamics(ops[..k + 1], run[..k + 1]) == d + Dynamics(ops[k], run[k])
            && Slots(s + Statics(ops[k]), d + Dynamics(ops[k], run[k])) == Slots(s, d) +
               Slots(Statics(ops[k]), Dynamics(ops[k], run[k]))
            && (!ops[k].tracked ==> s + Statics(ops[k]) == s && d + Dynamics(ops[k], run[k]) == d)
  {
    hide Slots, Statics, Dynamics, Possible;
    assert ops[..k + 1][..k] == ops[..k] && run[..k + 1][..k] == run[..k];
    SlotsAppend(AllStatics(ops[..k]), AllDynamics(ops[..k], run[..k]), Statics(ops[k]), Dynamics(ops[k], run[k]));
    SlotsLength(ops[..k], run[..k]);
  }

  lemma {:induction false} SlotsLength(ops: seq<Op>, run: seq<Access>)
    requires BlockRun(ops, run)
    ensures |Slots(AllStatics(ops), AllDynamics(ops, run))| == SlotSum(ops)
    decreases |ops|
  {
    hide Statics, Dynamics, Possible;
    if ops != [] {
      var n := |ops| - 1;
      SlotsLength(ops[..n], run[..n]);
      SlotsAppend(AllStatics(ops[..n]), AllDynamics(ops[..n], run[..n]), Statics(ops[n]), Dynamics(ops[n], run[n]));
      OpSlots(ops[n], run[n]);
    }
  }

  lemma SlotsStart(s: seq<Static>, d: seq<Dynamic>)
    requires |s| == |d|
    ensures Slots(s[..0], d[..0]) == []
  {
  }

  /** The slots of event `i` start where those of the events before it end. */
  lemma EventAt(s: seq<Static>, d: seq<Dynamic>, i: nat)
    requires |s| == |d| && i < |s|
    ensures var n := |Slots(s[..i], d[..i])|;
            && |Slots(s[..i + 1], d[..i + 1])| == n + |EventSlots(s[i], d[i])|
            && n + |EventSlots(s[i], d[i])| <= |Slots(s, d)|
            && Slots(s, d)[n] == d[i].addr && (s[i].str ==> Slots(s, d)[n + 1] == d[i].len)
  {
    assert s[..i + 1][..i] == s[..i] && d[..i + 1][..i] == d[..i];
    assert s == s[..i + 1] + s[i + 1..] && d == d[..i + 1] + d[i + 1..];
    SlotsAppend(s[..i + 1], d[..i + 1], s[i + 1..], d[i + 1..]);
    var more := EventSlots(s[i], d[i]);
    assert Slots(s[..i + 1], d[..i + 1]) == Slots(s[..i], d[..i]) + more;
  }
}
