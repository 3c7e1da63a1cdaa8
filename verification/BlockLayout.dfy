/**
 Common blocks as they are laid out: the nodes of each instruction with its recording code, the
 jumps out of the block redirected to its end, and the code of the block end after its last
 node.  Every way through the nodes of a block calls the handler once, with exactly the accesses
 of the run in the storage, and leaves for the node that the original jumps to.
 */
module BlockLayout {
  import opened Basics
  import opened Machine
  import opened ReleaseBase
  import opened BlockEnd
  import opened FlatCode
  import JumpRelax
  import R = BlockRecord

  /**
   An instruction of the function: with the code added before and after it, and the access it
   makes in a state that it `fits`; or a direct forward jump.
   */
  datatype Source<!W> =
    | Plain(pre: seq<Code<W>>, effect: Orig<W> -> Orig<W>, post: seq<Code<W>>,
            fits: Orig<W> -> bool, access: Orig<W> -> R.Access)
    | Jump(cond: Option<Flags -> bool>, dest: nat)

  /** What is added after the last node of a block; the handler returns `r`. */
  datatype Tail = NoTail | Handler(info: Word, r: Word) | Dispatch(info: Word, r: Word)

  /** An instruction in its place; `op`: its memory operation; `end`: the last node of the block that a jump leaves. */
  datatype Place<!W> = Place(source: Source<W>, op: R.Op, end: Option<nat>, tail: Tail)

  // --------------------------------------------------------------- the list

  function Always(f: Flags): bool { true }

  function ZeroFlag(f: Flags): bool { f.zf }

  function Negated(cond: Flags -> bool): Flags -> bool { f => !cond(f) }

  function CondOf(cond: Option<Flags -> bool>): Flags -> bool { if cond.None? then Always else cond.value }

  /** How many nodes come before the instruction itself. */
  function PreLen<W>(p: Place<W>): nat {
    if p.source.Plain? then FlatLen(p.source.pre)
    else if p.end.None? then 0
    else if p.source.cond.Some? then 2 else 1
  }

  function MainLen<W>(p: Place<W>): nat {
    PreLen(p) + 1 + if p.source.Plain? then FlatLen(p.source.post) else 0
  }

  function TailLen(t: Tail): nat {
    match t
    case NoTail => 0
    case Handler(_, _) => 6
    case Dispatch(_, _) => 16
  }

  /** The position of the first node of instruction `k`, its `first`. */
  function Pos<W>(f: seq<Place<W>>, k: nat): nat
    requires k <= |f|
  {
    if k == 0 then 0 else Pos(f, k - 1) + MainLen(f[k - 1]) + TailLen(f[k - 1].tail)
  }

  /** The node of the instruction itself, its reference node. */
  function Ref<W>(f: seq<Place<W>>, k: nat): nat
    requires k < |f|
  {
    Pos(f, k) + PreLen(f[k])
  }

  /** The last node of the instruction; what follows a block does not belong to it. */
  function Last<W>(f: seq<Place<W>>, k: nat): nat
    requires k < |f|
  {
    Pos(f, k) + MainLen(f[k]) - 1
  }

  /** Jumps lead to instructions of the function and end at nodes of it. */
  ghost predicate Inside<W>(f: seq<Place<W>>) {
    forall k :: 0 <= k < |f| ==>
      (f[k].source.Jump? ==> f[k].source.dest < |f|) && (f[k].end.Some? ==> f[k].end.value < |f|)
  }

  /** kedr_handle_jump_out_of_block: j<not cc>, mov, and the jump itself, past the last node of the block. */
  ghost function JumpOutItems<W>(x: Env, f: seq<Place<W>>, k: nat): (r: seq<Item<W>>)
    requires Inside(f) && k < |f| && f[k].source.Jump? && f[k].end.Some?
    ensures |r| == MainLen(f[k])
  {
    var p, ref := Pos(f, k), Ref(f, k);
    (if f[k].source.cond.None? then []
     else [Item(JumpIf(Negated(f[k].source.cond.value)), FlatCode.Node(x, p, Some(ref), p, true))]) +
    [Item(StoreDest, FlatCode.Node(x, ref - 1, Some(Ref(f, f[k].source.dest)), ref - 1, false)),
     Item(JumpIf(Always), RefNode(x, f, k, Some(Ref(f, f[k].end.value)), true))]
  }

  /** A reference node: it knows the first and the last node of its instruction. */
  ghost function RefNode<W>(x: Env, f: seq<Place<W>>, k: nat, dest: Option<nat>, pastLast: bool): JumpRelax.Node
    requires k < |f|
  {
    JumpRelax.Node(JumpRelax.Other, 0, x.size(Ref(f, k)), dest, JumpRelax.Span(Pos(f, k), Last(f, k), pastLast), 0, 0)
  }

  ghost function MainItems<W>(x: Env, f: seq<Place<W>>, k: nat): (r: seq<Item<W>>)
    requires Inside(f) && k < |f|
    ensures |r| == MainLen(f[k])
  {
    var s := f[k].source;
    if s.Plain? then
      Flat(x, s.pre, Pos(f, k)) + [Item(Effect(s.effect), RefNode(x, f, k, None, false))] +
      Flat(x, s.post, Ref(f, k) + 1)
    else if f[k].end.Some? then JumpOutItems(x, f, k)
    else [Item(JumpIf(CondOf(s.cond)), RefNode(x, f, k, Some(Ref(f, s.dest)), false))]
  }

  /** kedr_handle_block_end and kedr_handle_block_end_no_jumps, from position `q` on. */
  ghost function TailItems<W>(x: Env, t: Tail, q: nat): (r: seq<Item<W>>)
    ensures |r| == TailLen(t)
  {
    match t
    case NoTail => []
    case Handler(info, r) =>
      HandlerLen<W>(info, r, x.base);
      Flat(x, CallHandler(info, r, x.base), q)
    case Dispatch(info, r) =>
      EndLen<W>(info, r, x.base);
      Flat(x, EndCode(info, r, x.base), q) +
      [Item(JumpIf(ZeroFlag), FlatCode.Node(x, q + 12, Some(q + 15), q + 12, false)),
       Item(Exec(Popf), FlatCode.Node(x, q + 13, None, q + 13, false)),
       Item(JumpTemp, FlatCode.Node(x, q + 14, None, q + 14, false)),
       Item(Exec(Popf), FlatCode.Node(x, q + 15, None, q + 15, false))]
  }

  lemma {:induction false} FlatLenConcat<W>(a: seq<Code<W>>, b: seq<Code<W>>)
    ensures FlatLen(a + b) == FlatLen(a) + FlatLen(b)
    decreases |a|
  {
    hide CodeLen;
    if a == [] {
      assert a + b == b;
    } else {
      assert (a + b)[0] == a[0] && (a + b)[1..] == a[1..] + b;
      FlatLenConcat(a[1..], b);
    }
  }

  lemma {:induction false} FlatLenThree<W>(i: Code<W>, j: Code<W>, k: Code<W>)
    requires !i.SkipIf? && !j.SkipIf? && !k.SkipIf?
    ensures FlatLen([i, j, k]) == 3
  {
    assert [i, j, k][1..] == [j, k] && [j, k][1..] == [k] && [k][1..] == [];
    assert FlatLen([k]) == 1 && FlatLen([j, k]) == 2;
  }

  lemma {:induction false} HandlerLen<W>(info: Word, r: Word, base: Reg)
    ensures FlatLen<W>(CallHandler(info, r, base)) == 6
  {
    hide FlatLen;
    FlatLenThree<W>(Push(AX), MovImm(info, AX), Store(Info, AX, base));
    FlatLenThree<W>(Mov(base, AX), CallWrapper(r, Reported), Pop(AX));
    FlatLenConcat<W>([Push(AX), MovImm(info, AX), Store(Info, AX, base)],
                     [Mov(base, AX), CallWrapper(r, Reported), Pop(AX)]);
  }

  lemma {:induction false} EndLen<W>(info: Word, r: Word, base: Reg)
    ensures FlatLen<W>(EndCode(info, r, base)) == 12
  {
    hide FlatLen, CallHandler;
    var one: seq<Code<W>> := [Pushf, StoreSpill(DX, base), Load(DestAddr, DX, base)];
    var three: seq<Code<W>> := [Store(Temp, DX, base), Test(DX), LoadSpill(DX, base)];
    FlatLenThree<W>(Pushf, StoreSpill(DX, base), Load(DestAddr, DX, base));
    HandlerLen<W>(info, r, base);
    FlatLenThree<W>(Store(Temp, DX, base), Test(DX), LoadSpill(DX, base));
    FlatLenConcat(one, CallHandler(info, r, base));
    FlatLenConcat(one + CallHandler(info, r, base), three);
    assert EndCode(info, r, base) == one + CallHandler(info, r, base) + three;
  }

  /** The list of the first `k` instructions. */
  ghost function LayoutTo<W>(x: Env, f: seq<Place<W>>, k: nat): (r: seq<Item<W>>)
    requires Inside(f) && k <= |f|
    ensures |r| == Pos(f, k)
  {
    if k == 0 then []
    else LayoutTo(x, f, k - 1) + MainItems(x, f, k - 1) + TailItems(x, f[k - 1].tail, Pos(f, k - 1) + MainLen(f[k - 1]))
  }

  ghost function Layout<W>(x: Env, f: seq<Place<W>>): (r: seq<Item<W>>)
    requires Inside(f)
    ensures |r| == Pos(f, |f|)
  {
    LayoutTo(x, f, |f|)
  }

  lemma {:induction false} PosGrows<W>(f: seq<Place<W>>, j: nat, k: nat)
    requires j <= k <= |f|
    ensures Pos(f, j) <= Pos(f, k) && (j < k ==> Pos(f, j) + MainLen(f[j]) + TailLen(f[j].tail) <= Pos(f, k))
    decreases k
  {
    hide MainLen;
    if j < k {
      PosGrows(f, j, k - 1);
    }
  }

  /** The nodes of instruction `k`, and what follows it, are where Pos says. */
  lemma {:induction false} Laid<W>(x: Env, f: seq<Place<W>>, k: nat, n: nat)
    requires Inside(f) && k < n <= |f|
    ensures var list := LayoutTo(x, f, n); var p := Pos(f, k);
            && Has(list, p, MainItems(x, f, k))
            && Has(list, p + MainLen(f[k]), TailItems(x, f[k].tail, p + MainLen(f[k])))
    decreases n
  {
    hide MainItems, TailItems, MainLen, Pos, Inside;
    if k < n - 1 {
      Laid(x, f, k, n - 1);
    }
  }

  // -------------------------------------------------- where the jumps lead

  lemma {:induction false} RefItem<W>(x: Env, f: seq<Place<W>>, k: nat)
    requires Inside(f) && k < |f|
    ensures var n := MainItems(x, f, k)[PreLen(f[k])].node; n.span.first == Pos(f, k) && n.span.last == Last(f, k)
  {
    hide Flat, Pos;
  }

  /** The reference node of instruction `k`, found in the list. */
  lemma {:induction false} RefFound<W>(x: Env, f: seq<Place<W>>, k: nat)
    requires Inside(f) && k < |f|
    ensures Ref(f, k) < Pos(f, |f|)
    ensures var n := Layout(x, f)[Ref(f, k)].node; n.span.first == Pos(f, k) && n.span.last == Last(f, k)
  {
    hide Flat, Pos, Inside, MainItems, TailItems, LayoutTo, TailLen;
    Laid(x, f, k, |f|);
    PosGrows(f, k, |f|);
    RefItem(x, f, k);
    assert Layout(x, f)[Pos(f, k) + PreLen(f[k])] == MainItems(x, f, k)[PreLen(f[k])];
  }

  lemma {:induction false} Resolves<W>(list: seq<Item<W>>, i: nat, ref: nat)
    requires i < |list| && ref < |list| && list[i].node.dest == Some(ref)
    ensures Linked(list, i)
    ensures Dest(list, i) == if list[i].node.span.pastLast then list[ref].node.span.last + 1
            else list[ref].node.span.first
  {
  }

  // ----------------------------------------------- running one instruction

  /** The instruction with the code around it. */
  ghost function RunPlain<W>(s: Source<W>, c: Cpu<W>, ls: Word): Option<Cpu<W>>
    requires s.Plain?
  {
    var c1 := Run(s.pre, c, ls);
    if c1.None? || c1.value.stack != [] then None
    else Run(s.post, WithOrig(c1.value, s.effect(AsOrig(c1.value))), ls)
  }

  lemma {:induction false} RunInsn<W>(x: Env, f: seq<Place<W>>, k: nat, hi: nat, c: Cpu<W>)
    requires Inside(f) && k < |f| && f[k].source.Plain? && NoCalls(f[k].source.pre) && NoCalls(f[k].source.post)
    requires Last(f, k) < hi <= Pos(f, |f|)
    ensures var list := Layout(x, f); var r := RunPlain(f[k].source, c, x.ls);
            RunFrom(x, list, Pos(f, k), hi, c) == if r.None? then None
            else RunFrom(x, list, Last(f, k) + 1, hi, r.value)
  {
    hide Flat, FlatLen, Pos, Inside, TailItems, LayoutTo, TailLen, Run, Step, RunFrom, NoCalls, Has, After, RefNode;
    var list, s := Layout(x, f), f[k].source;
    var p, ref := Pos(f, k), Ref(f, k);
    Laid(x, f, k, |f|);
    var effect := Item(Effect(s.effect), RefNode(x, f, k, None, false));
    HasSplit(list, p, Flat(x, s.pre, p) + [effect], Flat(x, s.post, ref + 1));
    HasSplit(list, p, Flat(x, s.pre, p), [effect]);
    RunFlat(x, s.pre, list, p, hi, c);
    NothingHandled(s.pre, c, x.ls);
    var r := Run(s.pre, c, x.ls);
    if r.Some? {
      AfterAfter([], [], RunFrom(x, list, ref, hi, r.value));
      EffectStep(x, list, ref, hi, r.value, s.effect, effect);
      if r.value.stack == [] {
        var d := WithOrig(r.value, s.effect(AsOrig(r.value)));
        RunFlat(x, s.post, list, ref + 1, hi, d);
        NothingHandled(s.post, d, x.ls);
        var r' := Run(s.post, d, x.ls);
        if r'.Some? {
          AfterAfter([], [], RunFrom(x, list, Last(f, k) + 1, hi, r'.value));
        }
      }
    }
  }

  lemma {:induction false} EffectStep<W>(x: Env, list: seq<Item<W>>, p: nat, hi: nat, c: Cpu<W>,
                                         effect: Orig<W> -> Orig<W>, item: Item<W>)
    requires p < hi <= |list| && item.op == Effect(effect) && Has(list, p, [item])
    ensures RunFrom(x, list, p, hi, c) ==
            if c.stack != [] then None else RunFrom(x, list, p + 1, hi, WithOrig(c, effect(AsOrig(c))))
  {
    assert list[p + 0] == [item][0];
  }

  lemma {:induction false} JumpStep<W>(x: Env, list: seq<Item<W>>, p: nat, hi: nat, c: Cpu<W>, cond: Flags -> bool,
                                       dest: nat)
    requires p < hi <= |list| && list[p].op == JumpIf(cond) && Linked(list, p) && Dest(list, p) == dest > p
    ensures RunFrom(x, list, p, hi, c) == RunFrom(x, list, if cond(c.flags) then dest else p + 1, hi, c)
  {
    hide Dest, Linked;
  }

  predicate Taken(cond: Option<Flags -> bool>, f: Flags) { cond.None? || cond.value(f) }

  /** A jump within the block. */
  lemma {:induction false} RunInnerJump<W>(x: Env, f: seq<Place<W>>, k: nat, hi: nat, c: Cpu<W>)
    requires Inside(f) && k < |f| && f[k].source.Jump? && f[k].end.None? && k < f[k].source.dest
    requires Last(f, k) < hi <= Pos(f, |f|)
    ensures var list, s := Layout(x, f), f[k].source;
            RunFrom(x, list, Pos(f, k), hi, c) ==
            RunFrom(x, list, if Taken(s.cond, c.flags) then Pos(f, s.dest) else Last(f, k) + 1, hi, c)
  {
    hide Pos, TailItems, LayoutTo, TailLen, RunFrom, Dest, Linked;
    var list, s, p := Layout(x, f), f[k].source, Pos(f, k);
    Laid(x, f, k, |f|);
    assert list[p + 0] == MainItems(x, f, k)[0];
    RefFound(x, f, s.dest);
    Resolves(list, p, Ref(f, s.dest));
    PosGrows(f, k, s.dest);
    JumpStep(x, list, p, hi, c, CondOf(s.cond), Pos(f, s.dest));
  }

  lemma {:induction false} StoreStep<W>(x: Env, list: seq<Item<W>>, p: nat, hi: nat, c: Cpu<W>, dest: nat)
    requires p < hi <= |list| && list[p].op == StoreDest && Linked(list, p) && Dest(list, p) == dest
    requires Reaches(c, x.base, x.ls)
    ensures RunFrom(x, list, p, hi, c) == RunFrom(x, list, p + 1, hi, c.(ls := c.ls.(destAddr := x.address(dest))))
  {
    hide Dest, Linked;
  }

  /** Node `i` of the list leads to node `dest`. */
  ghost predicate Leads<W>(list: seq<Item<W>>, i: int, op: Op<W>, dest: nat) {
    0 <= i < |list| && list[i].op == op && Linked(list, i) && Dest(list, i) == dest
  }

  /** The nodes of a jump out of a block, and where they lead. */
  lemma {:induction false} JumpOutNodes<W>(x: Env, f: seq<Place<W>>, k: nat)
    requires Inside(f) && k < |f| && f[k].source.Jump? && f[k].end.Some?
    ensures var list, s, ref := Layout(x, f), f[k].source, Ref(f, k);
            && Leads(list, ref, JumpIf(Always), Last(f, f[k].end.value) + 1) &&
               Leads(list, ref - 1, StoreDest, Pos(f, s.dest))
            && (s.cond.None? ==> Pos(f, k) == ref - 1)
            && (s.cond.Some? ==> Pos(f, k) == ref - 2 && Leads(list, ref - 2, JumpIf(Negated(s.cond.value)), ref + 1))
  {
    hide Pos, TailItems, LayoutTo, TailLen, Dest, Linked;
    var list, s, p, ref := Layout(x, f), f[k].source, Pos(f, k), Ref(f, k);
    Laid(x, f, k, |f|);
    var items := MainItems(x, f, k);
    assert items == JumpOutItems(x, f, k);
    assert list[p + (ref - p)] == items[ref - p] && list[p + (ref - p - 1)] == items[ref - p - 1];
    RefFound(x, f, k);
    RefFound(x, f, s.dest);
    RefFound(x, f, f[k].end.value);
    Resolves(list, ref, Ref(f, f[k].end.value));
    Resolves(list, ref - 1, Ref(f, s.dest));
    if s.cond.Some? {
      assert list[p + 0] == items[0];
      Resolves(list, p, ref);
    }
  }

  /** A jump out of the block whose last instruction is `f[k].end`: to its end if taken, with the destination stored. */
  lemma {:induction false} RunJumpOut<W>(x: Env, f: seq<Place<W>>, k: nat, hi: nat, c: Cpu<W>)
    requires Inside(f) && k < |f| && f[k].source.Jump? && f[k].end.Some? && k <= f[k].end.value
    requires Last(f, k) < hi <= Pos(f, |f|) && Reaches(c, x.base, x.ls)
    ensures var list, s := Layout(x, f), f[k].source;
            RunFrom(x, list, Pos(f, k), hi, c) ==
            if Taken(s.cond, c.flags)
            then RunFrom(x, list, Last(f, f[k].end.value) + 1, hi,
                         c.(ls := c.ls.(destAddr := x.address(Pos(f, s.dest)))))
            else RunFrom(x, list, Last(f, k) + 1, hi, c)
  {
    hide Pos, LayoutTo, RunFrom, Dest, Linked;
    var list, s, ref, end := Layout(x, f), f[k].source, Ref(f, k), f[k].end.value;
    JumpOutNodes(x, f, k);
    PosGrows(f, k, end);
    if s.cond.Some? {
      JumpStep(x, list, ref - 2, hi, c, Negated(s.cond.value), ref + 1);
    }
    if Taken(s.cond, c.flags) {
      StoreStep(x, list, ref - 1, hi, c, Pos(f, s.dest));
      JumpStep(x, list, ref, hi, c.(ls := c.ls.(destAddr := x.address(Pos(f, s.dest)))), Always, Last(f, end) + 1);
    }
  }

  // -------------------------------------------------------- the end of a block

  lemma {:induction false} HandledThree<W>(i: Code<W>, j: Code<W>, k: Code<W>, c: Cpu<W>, ls: Word)
    requires !i.SkipIf? && !j.SkipIf? && !k.SkipIf? && !i.CallWrapper? && !k.CallWrapper?
    requires Step(i, c, ls).Some?
    ensures Handled([i, j, k], c, ls) == if j.CallWrapper? then [Step(i, c, ls).value.ls] else []
  {
    hide Step;
    var c1 := Step(i, c, ls).value;
    assert [i, j, k][1..] == [j, k] && [j, k][1..] == [k] && [k][1..] == [];
    assert Handled([j, k], c1, ls) == HandledOne(j, c1, ls) + if Step(j, c1, ls).None? then []
           else Handled([k], Step(j, c1, ls).value, ls);
    assert forall d: Cpu<W> :: Handled([k], d, ls) == [];
  }

  lemma {:induction false} HandledCall<W>(c: Cpu<W>, info: Word, r: Word, base: Reg, ls: Word)
    requires Reaches(c, base, ls) && base != AX && base != SP
    ensures Handled(CallHandler(info, r, base), c, ls) == [c.ls.(info := info)]
  {
    hide Run, Handled, Plus;
    var one: seq<Code<W>>, two: seq<Code<W>> :=
      [Push(AX), MovImm(info, AX), Store(Info, AX, base)], [Mov(base, AX), CallWrapper(r, Reported), Pop(AX)];
    HandlerBefore(c, info, base, ls);
    var d := Run(one, c, ls).value;
    HandledConcat(one, two, c, ls);
    HandledThree<W>(Push(AX), MovImm(info, AX), Store(Info, AX, base), c, ls);
    HandledThree<W>(Mov(base, AX), CallWrapper(r, Reported), Pop(AX), d, ls);
  }

  /** The end code calls the handler once; slots, write bits and information are as they should be then. */
  lemma {:induction false} HandledEnd<W>(c: Cpu<W>, info: Word, r: Word, base: Reg, ls: Word)
    requires Reaches(c, base, ls) && base in NON_SCRATCH && c.stack == []
    ensures Handled(EndCode(info, r, base), c, ls) ==
            [c.ls.(spill := c.ls.spill[DX := c.regs[DX]], info := info)]
  {
    hide Run, Handled, Step, Plus, CallHandler;
    var one: seq<Code<W>> := [Pushf, StoreSpill(DX, base), Load(DestAddr, DX, base)];
    var two: seq<Code<W>> := CallHandler(info, r, base);
    var three: seq<Code<W>> := [Store(Temp, DX, base), Test(DX), LoadSpill(DX, base)];
    assert EndCode(info, r, base) == one + two + three;
    RunEndStart(c, base, ls);
    var c1 := Run(one, c, ls).value;
    HandledConcat(one, two, c, ls);
    HandledConcat(one + two, three, c, ls);
    RunConcat(one, two, c, ls);
    RunCallHandler(c1, info, r, base, ls);
    var c2 := Run(two, c1, ls).value;
    NoneHandled(c, c2, base, ls);
    HandledCall(c1, info, r, base, ls);
  }

  lemma {:induction false} NoneHandled<W>(c: Cpu<W>, d: Cpu<W>, base: Reg, ls: Word)
    requires Reaches(d, base, ls)
    ensures Handled([Pushf, StoreSpill(DX, base), Load(DestAddr, DX, base)], c, ls) == []
    ensures Handled([Store(Temp, DX, base), Test(DX), LoadSpill(DX, base)], d, ls) == []
  {
    hide Handled, Plus;
    HandledThree<W>(Pushf, StoreSpill(DX, base), Load(DestAddr, DX, base), c, ls);
    HandledThree<W>(Store(Temp, DX, base), Test(DX), LoadSpill(DX, base), d, ls);
  }

  /** What leaves a block: the handler called once with `st`, everything else as the original has it, at node `next`. */
  ghost predicate Left<W>(x: Env, p: Option<Passed<W>>, o: Orig<W>, next: nat, st: Storage) {
    && p.Some? && p.value.next == next && p.value.handled == [st]
    && Rel(o, p.value.c, x.base, x.ls) && Clear(p.value.c.ls)
  }

  /** The storage that the handler is called with. */
  ghost predicate Passes(a: Storage, b: Storage, info: Word) {
    a.values == b.values && a.writeMask == b.writeMask && a.info == info
  }

  /** The end of a block without jumps out. */
  lemma {:induction false} RunHandler<W>(x: Env, f: seq<Place<W>>, k: nat, o: Orig<W>, c: Cpu<W>) returns (st: Storage)
    requires Inside(f) && k < |f| && f[k].tail.Handler? && x.base in NON_SCRATCH && Rel(o, c, x.base, x.ls)
    requires Pos(f, k + 1) <= Pos(f, |f|)
    ensures Left(x, RunFrom(x, Layout(x, f), Last(f, k) + 1, Pos(f, k + 1), c), o, Pos(f, k + 1), st)
    ensures Passes(st, c.ls, f[k].tail.info)
  {
    hide Inside, MainItems, LayoutTo, Run, Step, CallHandler, Flat, FlatLen, Has, Rel, NON_SCRATCH;
    var list, q, info, r := Layout(x, f), Last(f, k) + 1, f[k].tail.info, f[k].tail.r;
    st := c.ls.(info := info);
    Laid(x, f, k, |f|);
    HandlerLen<W>(info, r, x.base);
    RunFlat(x, CallHandler(info, r, x.base), list, q, q + 6, c);
    EndWithoutJumps(o, c, info, r, x.base, x.ls);
    CallOfHandler(o, c, info, r, x.base, x.ls);
  }

  lemma {:induction false} CallOfHandler<W>(o: Orig<W>, c: Cpu<W>, info: Word, r: Word, base: Reg, ls: Word)
    requires base in NON_SCRATCH && Rel(o, c, base, ls)
    ensures Handled(CallHandler(info, r, base), c, ls) == [c.ls.(info := info)]
  {
    hide Run, Handled, Step, CallHandler;
    HandledCall(c, info, r, base, ls);
  }

  /** The last nodes of the end code: on to the next block, or to where the jump out leads. */
  lemma {:induction false} RunDispatch<W>(x: Env, list: seq<Item<W>>, q: nat, c: Cpu<W>, d: Cpu<W>)
    requires q + 16 <= |list| && list[q + 12].op == JumpIf(ZeroFlag) && Linked(list, q + 12) &&
             Dest(list, q + 12) == q + 15
    requires list[q + 13].op == Exec(Popf) && list[q + 14].op == JumpTemp && list[q + 15].op == Exec(Popf)
    requires Step(Popf, c, x.ls) == Some(d) && Reaches(d, x.base, x.ls)
    ensures RunFrom(x, list, q + 12, q + 16, c) ==
            Some(Passed(d, if c.flags.zf then q + 16 else x.labels(d.ls.temp), []))
  {
    hide Step, Dest, Linked;
    JumpStep(x, list, q + 12, q + 16, c, ZeroFlag, q + 15);
    if c.flags.zf {
      AfterAfter([], [], RunFrom(x, list, q + 16, q + 16, d));
    } else {
      AfterAfter([], [], RunFrom(x, list, q + 14, q + 16, d));
    }
  }

  lemma {:induction false} DispatchNodes<W>(x: Env, list: seq<Item<W>>, info: Word, r: Word, q: nat)
    requires Has(list, q, TailItems(x, Dispatch(info, r), q))
    ensures Has(list, q, Flat(x, EndCode(info, r, x.base), q)) && q + 16 <= |list|
    ensures list[q + 12].op == JumpIf(ZeroFlag) && Linked(list, q + 12) && Dest(list, q + 12) == q + 15
    ensures list[q + 13].op == Exec(Popf) && list[q + 14].op == JumpTemp && list[q + 15].op == Exec(Popf)
  {
    hide Flat, FlatLen, Dest, Linked;
    EndLen<W>(info, r, x.base);
    var items: seq<Item<W>> := TailItems(x, Dispatch(info, r), q);
    HasSplit(list, q, Flat(x, EndCode(info, r, x.base), q), items[12..]);
    assert list[q + 12] == items[12] && list[q + 13] == items[13] && list[q + 14] == items[14] &&
           list[q + 15] == items[15];
    Resolves(list, q + 12, q + 15);
  }

  /** The end of a block with jumps out, reached with `dest_addr` set by a jump to instruction `d`, or 0. */
  lemma {:induction false} RunTail<W>(x: Env, f: seq<Place<W>>, k: nat, d: nat, o: Orig<W>, c: Cpu<W>)
    returns (st: Storage)
    requires Inside(f) && k < |f| && f[k].tail.Dispatch? && x.base in NON_SCRATCH && Rel(o, c, x.base, x.ls)
    requires Pos(f, k + 1) <= Pos(f, |f|)
    requires d <= |f| && x.address(Pos(f, d)) != 0 && x.labels(x.address(Pos(f, d))) == Pos(f, d)
    requires c.ls.destAddr == x.address(Pos(f, d)) || (d == k + 1 && c.ls.destAddr == 0)
    ensures Left(x, RunFrom(x, Layout(x, f), Last(f, k) + 1, Pos(f, k + 1), c), o, Pos(f, d), st)
    ensures Passes(st, c.ls, f[k].tail.info)
  {
    hide Inside, MainItems, LayoutTo, Run, Step, EndCode, Flat, FlatLen, Has, Rel, NON_SCRATCH, TailItems, Dest,
         Linked, RunFrom;
    var list, q, info, r := Layout(x, f), Last(f, k) + 1, f[k].tail.info, f[k].tail.r;
    Laid(x, f, k, |f|);
    DispatchNodes(x, list, info, r, q);
    EndLen<W>(info, r, x.base);
    RunFlat(x, EndCode(info, r, x.base), list, q, q + 16, c);
    st := c.ls.(spill := c.ls.spill[DX := c.regs[DX]], info := info);
    EndOfHandler(o, c, info, r, x.base, x.ls);
    RunEnd(o, c, info, r, x.base, x.ls);
    var c1 := Run(EndCode(info, r, x.base), c, x.ls).value;
    RunOne(Popf, c1, x.ls);
    var c2 := Run([Popf], c1, x.ls).value;
    Alive(o, c2, x.base, x.ls);
    RunDispatch(x, list, q, c1, c2);
  }

  lemma {:induction false} Alive<W>(o: Orig<W>, c: Cpu<W>, base: Reg, ls: Word)
    requires Rel(o, c, base, ls)
    ensures Reaches(c, base, ls)
  {
  }

  lemma {:induction false} EndOfHandler<W>(o: Orig<W>, c: Cpu<W>, info: Word, r: Word, base: Reg, ls: Word)
    requires base in NON_SCRATCH && Rel(o, c, base, ls)
    ensures Handled(EndCode(info, r, base), c, ls) == [c.ls.(spill := c.ls.spill[DX := c.regs[DX]], info := info)]
  {
    hide Run, Handled, Step, EndCode;
    HandledEnd(c, info, r, base, ls);
  }
}
