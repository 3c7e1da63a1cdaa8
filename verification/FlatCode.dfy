/**
 The instrumented function as the list of nodes that code generation works on.  Conditional
 stretches of code become jumps whose destinations are resolved in the list, and the list is
 run with a program counter; the storages that the wrappers of handlers are called with are
 kept in order.
 */
module FlatCode {
  import opened Basics
  import opened Machine
  import opened ReleaseBase
  import JumpRelax

  /** What a node of the list does. */
  datatype Op<!W> =
    | Exec(code: Code<W>)
    | Effect(effect: Orig<W> -> Orig<W>)  // the instruction of the original function
    | JumpIf(cond: Flags -> bool)
    | StoreDest                           // mov of the address of the destination to dest_addr
    | JumpTemp                            // jmp *temp

  datatype Item<!W> = Item(op: Op<W>, node: JumpRelax.Node)

  /** The storage and its register; lengths of instructions; the address of each node, and back. */
  datatype Env = Env(base: Reg, ls: Word, size: nat -> nat, address: nat -> Word, labels: Word -> nat)

  ghost function Node(x: Env, at: nat, dest: Option<nat>, last: nat, pastLast: bool): JumpRelax.Node {
    JumpRelax.Node(JumpRelax.Other, 0, x.size(at), dest, JumpRelax.Span(at, last, pastLast), 0, 0)
  }

  // ------------------------------------------------------- straightening out

  function FlatLen<W>(codes: seq<Code<W>>): nat
    decreases codes
  {
    if codes == [] then 0 else CodeLen(codes[0]) + FlatLen(codes[1..])
  }

  function CodeLen<W>(code: Code<W>): (n: nat)
    ensures n > 0
    decreases code
  {
    if code.SkipIf? then 1 + FlatLen(code.body) else 1
  }

  /** The nodes for `codes` when the first one is at position `at` of the list. */
  ghost function Flat<W>(x: Env, codes: seq<Code<W>>, at: nat): (r: seq<Item<W>>)
    ensures |r| == FlatLen(codes)
    decreases codes
  {
    if codes == [] then [] else FlatOne(x, codes[0], at) + Flat(x, codes[1..], at + CodeLen(codes[0]))
  }

  /** A conditional stretch: a jump past its last node, then its nodes. */
  ghost function FlatOne<W>(x: Env, code: Code<W>, at: nat): (r: seq<Item<W>>)
    ensures |r| == CodeLen(code)
    decreases code
  {
    if code.SkipIf? then
      [Item(JumpIf(code.cond), Node(x, at, Some(at), at + FlatLen(code.body), true))] + Flat(x, code.body, at + 1)
    else [Item(Exec(code), Node(x, at, None, at, false))]
  }

  // ----------------------------------------------------------------- running

  ghost function Nodes<W>(list: seq<Item<W>>): (r: seq<JumpRelax.Node>)
    ensures |r| == |list| && forall i :: 0 <= i < |list| ==> r[i] == list[i].node
  {
    seq(|list|, i requires 0 <= i < |list| => list[i].node)
  }

  ghost predicate Linked<W>(list: seq<Item<W>>, i: nat) {
    i < |list| && list[i].node.dest.Some? && list[i].node.dest.value < |list|
  }

  /** The node that a jump leads to when destinations have been resolved. */
  ghost function Dest<W>(list: seq<Item<W>>, i: nat): nat
    requires Linked(list, i)
  {
    JumpRelax.Resolved(Nodes(list), i).dest.value
  }

  /** Where control has left a stretch of the list, and the storages that handlers were called with. */
  datatype Passed<W> = Passed(c: Cpu<W>, next: nat, handled: seq<Storage>)

  ghost function After<W>(handled: seq<Storage>, p: Option<Passed<W>>): Option<Passed<W>> {
    if p.None? then None else Some(p.value.(handled := handled + p.value.handled))
  }

  /** From node `pc` until control leaves the nodes before `hi` or goes back. */
  ghost function RunFrom<W>(x: Env, list: seq<Item<W>>, pc: nat, hi: nat, c: Cpu<W>): Option<Passed<W>>
    decreases hi - pc
  {
    if pc >= hi || pc >= |list| then Some(Passed(c, pc, []))
    else
      match list[pc].op
      case Exec(code) =>
        var c' := Step(code, c, x.ls);
        if c'.None? then None
        else After(if code.CallWrapper? then [c.ls] else [], RunFrom(x, list, pc + 1, hi, c'.value))
      case Effect(effect) =>
        if c.stack != [] then None else RunFrom(x, list, pc + 1, hi, WithOrig(c, effect(AsOrig(c))))
      case JumpIf(cond) =>
        if !cond(c.flags) then RunFrom(x, list, pc + 1, hi, c)
        else if !Linked(list, pc) then None
        else if Dest(list, pc) <= pc then Some(Passed(c, Dest(list, pc), []))
        else RunFrom(x, list, Dest(list, pc), hi, c)
      case StoreDest =>
        if !Linked(list, pc) then None
        else
          var c' := Step(SetField(DestAddr, x.address(Dest(list, pc)), x.base), c, x.ls);
          if c'.None? then None else RunFrom(x, list, pc + 1, hi, c'.value)
      case JumpTemp => if Reaches(c, x.base, x.ls) then Some(Passed(c, x.labels(c.ls.temp), [])) else None
  }

  /** The list has `items` from position `p` on. */
  ghost predicate Has<W>(list: seq<Item<W>>, p: nat, items: seq<Item<W>>) {
    p + |items| <= |list| && forall j :: 0 <= j < |items| ==> list[p + j] == items[j]
  }

  lemma {:induction false} HasSplit<W>(list: seq<Item<W>>, p: nat, a: seq<Item<W>>, b: seq<Item<W>>)
    requires Has(list, p, a + b)
    ensures Has(list, p, a) && Has(list, p + |a|, b)
  {
    assert forall j :: 0 <= j < |a| ==> (a + b)[j] == a[j];
    assert forall j :: 0 <= j < |b| ==> (a + b)[|a| + j] == b[j];
  }

  // ------------------------------------------------- structured and flat code

  /** The storages that the wrappers in `codes` are called with. */
  ghost function Handled<W>(codes: seq<Code<W>>, c: Cpu<W>, ls: Word): seq<Storage>
    decreases codes
  {
    if codes == [] then []
    else
      var c' := Step(codes[0], c, ls);
      HandledOne(codes[0], c, ls) + if c'.None? then [] else Handled(codes[1..], c'.value, ls)
  }

  ghost function HandledOne<W>(code: Code<W>, c: Cpu<W>, ls: Word): seq<Storage>
    decreases code
  {
    if code.CallWrapper? then [c.ls]
    else if code.SkipIf? && !code.cond(c.flags) then Handled(code.body, c, ls)
    else []
  }

  predicate NoCalls<W>(codes: seq<Code<W>>)
    decreases codes
  {
    codes == [] || (NoCall(codes[0]) && NoCalls(codes[1..]))
  }

  predicate NoCall<W>(code: Code<W>)
    decreases code
  {
    !code.CallWrapper? && (code.SkipIf? ==> NoCalls(code.body))
  }

  lemma {:induction false} NothingHandled<W>(codes: seq<Code<W>>, c: Cpu<W>, ls: Word)
    requires NoCalls(codes)
    ensures Handled(codes, c, ls) == []
    decreases codes
  {
    hide Step;
    if codes != [] {
      var c' := Step(codes[0], c, ls);
      if c'.Some? {
        NothingHandled(codes[1..], c'.value, ls);
      }
      if codes[0].SkipIf? {
        NothingHandled(codes[0].body, c, ls);
      }
    }
  }

  lemma {:induction false} HandledConcat<W>(a: seq<Code<W>>, b: seq<Code<W>>, c: Cpu<W>, ls: Word)
    ensures var m := Run(a, c, ls);
            Handled(a + b, c, ls) == Handled(a, c, ls) + if m.None? then [] else Handled(b, m.value, ls)
    decreases |a|
  {
    hide Step, HandledOne;
    if a == [] {
      assert a + b == b;
    } else {
      var c' := Step(a[0], c, ls);
      assert (a + b)[0] == a[0] && (a + b)[1..] == a[1..] + b;
      if c'.Some? {
        HandledConcat(a[1..], b, c'.value, ls);
      }
    }
  }

  lemma {:induction false} NoCallsConcat<W>(a: seq<Code<W>>, b: seq<Code<W>>)
    ensures NoCalls(a + b) <==> NoCalls(a) && NoCalls(b)
    decreases |a|
  {
    hide NoCall;
    if a == [] {
      assert a + b == b;
    } else {
      assert (a + b)[0] == a[0] && (a + b)[1..] == a[1..] + b;
      NoCallsConcat(a[1..], b);
    }
  }

  lemma {:induction false} AfterAfter<W>(a: seq<Storage>, b: seq<Storage>, p: Option<Passed<W>>)
    ensures After(a, After(b, p)) == After(a + b, p)
    ensures After([], p) == p
  {
    if p.Some? {
      assert a + (b + p.value.handled) == a + b + p.value.handled;
      assert [] + p.value.handled == p.value.handled;
    }
  }

  /** The jump of a conditional stretch leads to the node after its last one. */
  lemma {:induction false} SkipLands<W>(x: Env, code: Code<W>, list: seq<Item<W>>, p: nat)
    requires code.SkipIf? && Has(list, p, FlatOne(x, code, p))
    ensures Linked(list, p) && Dest(list, p) == p + CodeLen(code) && list[p].op == JumpIf(code.cond)
  {
    assert list[p + 0] == FlatOne(x, code, p)[0];
  }

  /** Running the nodes of `codes` is running `codes`. */
  lemma {:induction false} RunFlat<W>(x: Env, codes: seq<Code<W>>, list: seq<Item<W>>, p: nat, hi: nat, c: Cpu<W>)
    requires Has(list, p, Flat(x, codes, p)) && p + FlatLen(codes) <= hi <= |list|
    ensures var r := Run(codes, c, x.ls);
            RunFrom(x, list, p, hi, c) ==
            if r.None? then None else After(Handled(codes, c, x.ls), RunFrom(x, list, p + FlatLen(codes), hi, r.value))
    decreases codes, 1
  {
    hide Step, RunFrom, Has, HandledOne, FlatOne, After;
    if codes == [] {
      AfterAfter([], [], RunFrom(x, list, p, hi, c));
    } else {
      var n := CodeLen(codes[0]);
      HasSplit(list, p, FlatOne(x, codes[0], p), Flat(x, codes[1..], p + n));
      RunFlatOne(x, codes[0], list, p, hi, c);
      var c' := Step(codes[0], c, x.ls);
      if c'.Some? {
        RunFlat(x, codes[1..], list, p + n, hi, c'.value);
        var r := Run(codes[1..], c'.value, x.ls);
        if r.Some? {
          AfterAfter(HandledOne(codes[0], c, x.ls), Handled(codes[1..], c'.value, x.ls),
                     RunFrom(x, list, p + FlatLen(codes), hi, r.value));
        } else {
          NoneAfter(HandledOne(codes[0], c, x.ls), RunFrom(x, list, p + n, hi, c'.value));
        }
      }
    }
  }

  lemma {:induction false} NoneAfter<W>(a: seq<Storage>, p: Option<Passed<W>>)
    requires p.None?
    ensures After(a, p).None?
  {
  }

  lemma {:induction false} RunFlatOne<W>(x: Env, code: Code<W>, list: seq<Item<W>>, p: nat, hi: nat, c: Cpu<W>)
    requires Has(list, p, FlatOne(x, code, p)) && p + CodeLen(code) <= hi <= |list|
    ensures var r := Step(code, c, x.ls);
            RunFrom(x, list, p, hi, c) ==
            if r.None? then None else After(HandledOne(code, c, x.ls), RunFrom(x, list, p + CodeLen(code), hi, r.value))
    decreases code, 0
  {
    hide Run, After, Flat, Dest, Linked, Handled;
    if code.SkipIf? {
      SkipLands(x, code, list, p);
      if code.cond(c.flags) {
        AfterAfter([], [], RunFrom(x, list, p + CodeLen(code), hi, c));
      } else {
        HasSplit(list, p, [FlatOne(x, code, p)[0]], Flat(x, code.body, p + 1));
        RunFlat(x, code.body, list, p + 1, hi, c);
      }
    } else {
      assert list[p + 0] == FlatOne(x, code, p)[0];
    }
  }
}
