/**
 Phase 1 of the instrumentation: the base register is freed in every instruction, the function
 entry and exits are handled, calls and jumps that leave the function go through the thunks.
 The result simulates the original function over every run.
 */
module ReleaseBase {
  import opened Basics
  import opened Machine

  // -------------------------------------------------- the original function

  datatype Orig<W> = Orig(regs: Regs, flags: Flags, world: W)

  datatype Control = Fall | Goto(k: nat) | Leave(dest: Word)

  /** An original instruction: any state transformer within its register mask. */
  datatype Insn<!W> =
    | Straight(mask: set<Reg>, effect: Orig<W> -> Orig<W>)
    | Branch(mask: set<Reg>, effect: Orig<W> -> Orig<W>, dest: Orig<W> -> Option<nat>)
    | JumpTable(e: Expr<W>)                                     // jmp *<expr> within the function
    | Exit(effect: Orig<W> -> Orig<W>)                          // RET*, IRET, UD2, JMP far
    | CallOut(callInfo: Word, effect: Orig<W> -> Orig<W>)       // call rel32 to another function
    | CallIndirect(callInfo: Word, e: Expr<W>, callee: Word -> Orig<W> -> Orig<W>)
    | JumpOut(callInfo: Word, address: Word, cond: Option<Flags -> bool>)
    | JumpIndirectOut(callInfo: Word, e: Expr<W>)

  /** A called function may use what a callee need not preserve, and the stack. */
  const CALL_MASK: set<Reg> := SCRATCH + {SP}

  ghost predicate AgreeOrig<W>(a: Orig<W>, b: Orig<W>, mask: set<Reg>) {
    a.flags == b.flags && a.world == b.world && Agree(a.regs, b.regs, mask)
  }

  /** The effect depends on, and changes, only the registers of the mask. */
  ghost predicate Respects<W(!new)>(effect: Orig<W> -> Orig<W>, mask: set<Reg>) {
    && (forall a: Orig<W>, b: Orig<W> :: AgreeOrig(a, b, mask) ==> AgreeOrig(effect(a), effect(b), mask))
    && (forall a: Orig<W> :: Agree(effect(a).regs, a.regs, ALL - mask))
  }

  ghost predicate Decoded<W(!new)>(i: Insn<W>) {
    match i
    case Straight(mask, effect) => mask != ALL && Respects(effect, mask)
    case Branch(mask, effect, dest) =>
      && mask !! NON_SCRATCH && Respects(effect, mask)
      && (forall a: Orig<W>, b: Orig<W> :: AgreeOrig(a, b, mask) ==> dest(a) == dest(b))
    case JumpTable(e) => GoodExpr(e) && |e.mask| <= 2
    case Exit(_) => true
    case CallOut(_, effect) => Respects(effect, CALL_MASK)
    case CallIndirect(_, e, callee) => GoodExpr(e) && |e.mask| <= 2 && forall v: Word :: Respects(callee(v), CALL_MASK)
    case JumpOut(_, _, _) => true
    case JumpIndirectOut(_, e) => GoodExpr(e) && |e.mask| <= 2
  }

  /** One step of the original; `labels` gives the node at an address. */
  ghost function OrigStep<W>(i: Insn<W>, o: Orig<W>, labels: Word -> nat): (Orig<W>, Control) {
    match i
    case Straight(_, effect) => (effect(o), Fall)
    case Branch(_, effect, dest) => (effect(o), if dest(o).Some? then Goto(dest(o).value) else Fall)
    case JumpTable(e) => (o, Goto(labels(e.load(o.regs, o.world))))
    case Exit(effect) => (effect(o), Leave(0))
    case CallOut(_, effect) => (effect(o), Fall)
    case CallIndirect(_, e, callee) => (callee(e.load(o.regs, o.world))(o), Fall)
    case JumpOut(_, dest, cond) => (o, if cond.None? || cond.value(o.flags) then Leave(dest) else Fall)
    case JumpIndirectOut(_, e) => (o, Leave(e.load(o.regs, o.world)))
  }

  // -------------------------------------------------- the instrumented function

  /** What the original instruction has become: itself, or a transfer to a thunk, or RET. */
  datatype Main<!W> = Original(i: Insn<W>) | ThunkCall(i: Insn<W>) | ThunkJump(i: Insn<W>) | RetToPushed

  /** The code that replaces one original instruction. */
  datatype Group<!W> = Group(before: seq<Code<W>>, main: Main<W>, after: seq<Code<W>>)

  ghost function AsOrig<W>(c: Cpu<W>): Orig<W> { Orig(c.regs, c.flags, c.world) }

  ghost function WithOrig<W>(c: Cpu<W>, o: Orig<W>): Cpu<W> { c.(regs := o.regs, flags := o.flags, world := o.world) }

  /** The thunk saves the scratch registers in their slots and restores %rax from its own. */
  ghost function SaveScratch(spill: Regs, regs: Regs): Regs {
    seq(16, r requires 0 <= r < 16 => if r in CALL_MASK then regs[r] else spill[r])
  }

  ghost function MainStep<W>(m: Main<W>, c: Cpu<W>, ls: Word, labels: Word -> nat): Option<(Cpu<W>, Control)> {
    match m
    case Original(i) =>
      if c.stack != [] then None
      else
        var s := OrigStep(i, AsOrig(c), labels);
        Some((WithOrig(c, s.0), s.1))
    case ThunkCall(i) =>
      if c.stack != [] || !Reaches(c, AX, ls) || !(i.CallOut? || i.CallIndirect?) || c.ls.info != i.callInfo then None
      else
        var d := SetReg(c, AX, c.ls.spill[AX]);
        var o := if i.CallOut? then i.effect(AsOrig(d)) else i.callee(InfoAt(c.calls, i.callInfo).repl)(AsOrig(d));
        Some((WithOrig(d, o).(ls := c.ls.(spill := SaveScratch(c.ls.spill, d.regs))), Fall))
    case ThunkJump(i) =>
      if i.JumpOut? && i.cond.Some? && !i.cond.value(c.flags) then Some((c, Fall))
      else if c.stack != [] || !Reaches(c, AX, ls) || !(i.JumpOut? || i.JumpIndirectOut?) ||
           c.ls.info != i.callInfo then None
      else Some((SetReg(c, AX, c.ls.spill[AX]),
                 Leave(if i.JumpOut? then i.address else InfoAt(c.calls, i.callInfo).repl)))
    case RetToPushed =>
      if |c.stack| != 1 || !c.stack[0].Value? then None
      else Some((MoveSp(c, 8, []), Goto(labels(c.stack[0].v))))
  }

  ghost function GroupStep<W>(g: Group<W>, c: Cpu<W>, ls: Word, labels: Word -> nat): Option<(Cpu<W>, Control)> {
    var c1 := Run(g.before, c, ls);
    if c1.None? then None
    else
      var m := MainStep(g.main, c1.value, ls, labels);
      if m.None? || !m.value.1.Fall? then m
      else
        var c2 := Run(g.after, m.value.0, ls);
        if c2.None? then None else Some((c2.value, Fall))
  }

  // --------------------------------------------------------- generated code

  function Freed(s: Storage): Storage { s.(alive := false) }

  function Save<W>(w: Reg, base: Reg): seq<Code<W>> { [StoreSpill(w, base), Mov(base, w), LoadSpill(base, w)] }

  function Restore<W>(w: Reg, base: Reg): seq<Code<W>> { [StoreSpill(base, w), Mov(w, base), LoadSpill(w, base)] }

  /** mk_eval_addr_to_reg */
  function EvalAddr<W>(e: Expr<W>, base: Reg, w: Reg, t: Reg): seq<Code<W>> {
    if base in e.mask then Save(t, base) + [LoadExpr(e, w), Mov(t, base), LoadSpill(t, base)] else [LoadExpr(e, w)]
  }

  /** mk_common_jmp_call_indirect; the handler that fills the call information returns `r`. */
  function IndirectCommon<W>(e: Expr<W>, callInfo: Word, base: Reg, w: Reg, t: Reg, r: Word): seq<Code<W>> {
    [StoreSpill(w, base)] + EvalAddr(e, base, w, t) +
    [StoreSpill(AX, base), MovImm(callInfo, AX), Store(Info, AX, base), StoreTarget(w, AX, callInfo)] +
    [LoadSpill(w, base), FillLoad(callInfo), FillStore(callInfo, r), Mov(base, AX)]
  }

  function DirectCommon<W>(callInfo: Word, base: Reg): seq<Code<W>> {
    [StoreSpill(AX, base), MovImm(callInfo, AX), Store(Info, AX, base), Mov(base, AX)]
  }

  /** kedr_handle_function_exit; the exit handler releases the storage. */
  function ExitCode<W>(base: Reg, r: Word): seq<Code<W>> {
    [Store(RetVal, AX, base), Store(RetHigh, DX, base), Push(AX), Mov(base, AX)] +
    [LoadSpill(base, AX), CallWrapper(r, Freed), Pop(AX)]
  }

  // ------------------------------------------------------- the correspondence

  /** At a boundary between instructions. */
  ghost predicate Rel<W>(o: Orig<W>, c: Cpu<W>, base: Reg, ls: Word) {
    && c.ls.alive && c.regs[base] == ls && c.ls.spill[base] == o.regs[base]
    && Agree(o.regs, c.regs, ALL - {base})
    && c.flags == o.flags && c.world == o.world && c.stack == []
  }

  /** Having left the function: everything is as the original left it. */
  ghost predicate Exited<W>(o: Orig<W>, c: Cpu<W>) {
    c.regs == o.regs && c.flags == o.flags && c.world == o.world && c.stack == []
  }

  ghost predicate Simulates<W>(i: Insn<W>, g: Group<W>, o: Orig<W>, c: Cpu<W>, base: Reg, ls: Word,
                               labels: Word -> nat) {
    var (o', ctl) := OrigStep(i, o, labels);
    var r := GroupStep(g, c, ls, labels);
    && r.Some? && r.value.1 == ctl
    && (if ctl.Leave? then Exited(o', r.value.0) else Rel(o', r.value.0, base, ls))
  }

  /** A register that differs from base may only differ in the base's own entry. */
  lemma SameRegs(a: Regs, b: Regs)
    requires Agree(a, b, ALL)
    ensures a == b
  {
    forall r | 0 <= r < 16
      ensures a[r] == b[r]
    {
      var q: Reg := r;
      assert q in ALL;
    }
  }

  // ------------------------------------------------------------ general case

  lemma RunSave<W>(c: Cpu<W>, w: Reg, base: Reg, ls: Word)
    requires Reaches(c, base, ls) && w != base
    ensures Run(Save(w, base), c, ls) ==
            Some(c.(regs := c.regs[w := ls][base := c.ls.spill[base]],
                    ls := c.ls.(spill := c.ls.spill[w := c.regs[w]])))
  {
    hide Run;
    RunThree(StoreSpill(w, base), Mov(base, w), LoadSpill(base, w), c, ls);
  }

  lemma RunRestore<W>(c: Cpu<W>, w: Reg, base: Reg, ls: Word)
    requires Reaches(c, w, ls) && w != base
    ensures Run(Restore(w, base), c, ls) ==
            Some(c.(regs := c.regs[base := ls][w := c.ls.spill[w]],
                    ls := c.ls.(spill := c.ls.spill[base := c.regs[base]])))
  {
    hide Run;
    RunThree(StoreSpill(base, w), Mov(w, base), LoadSpill(w, base), c, ls);
  }

  /** kedr_handle_general_case for an instruction that uses the base register. */
  lemma GeneralCase<W(!new)>(i: Insn<W>, w: Reg, o: Orig<W>, c: Cpu<W>, base: Reg, ls: Word, labels: Word -> nat)
    requires i.Straight? && Respects(i.effect, i.mask) && w !in i.mask && w != base && Rel(o, c, base, ls)
    ensures Simulates(i, Group(Save(w, base), Original(i), Restore(w, base)), o, c, base, ls, labels)
  {
    hide Run, Step;
    RunSave(c, w, base, ls);
    var c1 := Run(Save(w, base), c, ls).value;
    assert AgreeOrig(o, AsOrig(c1), i.mask);
    var o', o1 := i.effect(o), i.effect(AsOrig(c1));
    assert AgreeOrig(o', o1, i.mask);
    assert Agree(o'.regs, o.regs, ALL - i.mask) && Agree(o1.regs, c1.regs, ALL - i.mask);
    var c2 := WithOrig(c1, o1);
    assert w in ALL - i.mask && c2.regs[w] == ls;
    RunRestore(c2, w, base, ls);
  }

  /** An instruction that does not use the base register is left as it is. */
  lemma Untouched<W(!new)>(i: Insn<W>, o: Orig<W>, c: Cpu<W>, base: Reg, ls: Word, labels: Word -> nat)
    requires i.Straight? || i.Branch?
    requires Respects(i.effect, i.mask) && base !in i.mask && Rel(o, c, base, ls)
    requires i.Branch? ==> forall a: Orig<W>, b: Orig<W> :: AgreeOrig(a, b, i.mask) ==> i.dest(a) == i.dest(b)
    ensures Simulates(i, Group([], Original(i), []), o, c, base, ls, labels)
  {
    hide Step;
    assert AgreeOrig(o, AsOrig(c), i.mask);
    var o', o1 := i.effect(o), i.effect(AsOrig(c));
    assert AgreeOrig(o', o1, i.mask);
    assert Agree(o'.regs, o.regs, ALL - i.mask) && Agree(o1.regs, c.regs, ALL - i.mask);
  }

  // ------------------------------------------------- addresses in expressions

  /** The word at <expr>, as the original would find it, is loaded into `w`; only `w` changes. */
  lemma RunEvalAddr<W(!new)>(e: Expr<W>, o: Orig<W>, c: Cpu<W>, w: Reg, t: Reg, base: Reg, ls: Word)
    requires GoodExpr(e) && c.ls.alive && c.regs[base] == ls && c.ls.spill[base] == o.regs[base]
    requires Agree(o.regs, c.regs, e.mask - {base}) && c.world == o.world
    requires w != base && w !in e.mask && t != base && t != w && t !in e.mask
    ensures exists spill: Regs ::
              && Run(EvalAddr(e, base, w, t), c, ls) ==
                 Some(c.(regs := c.regs[w := e.load(o.regs, o.world)], ls := c.ls.(spill := spill)))
              && Agree(spill, c.ls.spill, ALL - {t})
  {
    hide Run;
    if base in e.mask {
      RunSave(c, t, base, ls);
      var c1 := Run(Save(t, base), c, ls).value;
      RunConcat(Save(t, base), [LoadExpr(e, w), Mov(t, base), LoadSpill(t, base)], c, ls);
      RunThree(LoadExpr(e, w), Mov(t, base), LoadSpill(t, base), c1, ls);
      assert Agree(o.regs, c1.regs, e.mask);
      var spill := c.ls.spill[t := c.regs[t]];
      var c2 := c.(regs := c.regs[w := e.load(o.regs, o.world)], ls := c.ls.(spill := spill));
      var c3 := Run(EvalAddr(e, base, w, t), c, ls).value;
      assert c3.regs == c2.regs;
    } else {
      RunOne(LoadExpr(e, w), c, ls);
      assert Agree(o.regs, c.regs, e.mask);
      assert c.ls.(spill := c.ls.spill) == c.ls;
    }
  }

  // --------------------------------------------------------- leaving the function

  /** A value pushed, the storage address moved to %rax: how every call of a wrapper begins. */
  ghost function Called<W>(c: Cpu<W>, s: Storage, ls: Word): Cpu<W> {
    c.(regs := c.regs[SP := Plus(c.regs[SP], -8)][AX := ls], stack := [Value(c.regs[AX])] + c.stack, ls := s)
  }

  lemma RunExitStart<W>(c: Cpu<W>, base: Reg, ls: Word)
    requires Reaches(c, base, ls) && base != AX && base != SP
    ensures Run([Store(RetVal, AX, base), Store(RetHigh, DX, base), Push(AX), Mov(base, AX)], c, ls) ==
            Some(Called(c, Put(Put(c.ls, RetVal, c.regs[AX]), RetHigh, c.regs[DX]), ls))
  {
    hide Run, Plus;
    RunFour(Store(RetVal, AX, base), Store(RetHigh, DX, base), Push(AX), Mov(base, AX), c, ls);
  }

  lemma RunExitEnd<W>(c: Cpu<W>, s: Storage, base: Reg, ls: Word, r: Word)
    requires s.alive && base != AX && base != SP
    ensures Run([LoadSpill(base, AX), CallWrapper(r, Freed), Pop(AX)], Called(c, s, ls), ls) ==
            Some(c.(regs := c.regs[base := s.spill[base]], ls := s.(alive := false)))
  {
    hide Run, Plus;
    var d := Called(c, s, ls);
    RunThree(LoadSpill(base, AX), CallWrapper(r, Freed), Pop(AX), d, ls);
    PushPopSp(c.regs[SP]);
    var e := Run([LoadSpill(base, AX), CallWrapper(r, Freed), Pop(AX)], d, ls).value;
    assert d.stack[1..] == c.stack;
    assert e.regs == c.regs[base := s.spill[base]];
  }

  lemma RunExit<W>(c: Cpu<W>, base: Reg, ls: Word, r: Word)
    requires Reaches(c, base, ls) && base != AX && base != SP
    ensures var s := Put(Put(c.ls, RetVal, c.regs[AX]), RetHigh, c.regs[DX]);
            Run(ExitCode(base, r), c, ls) ==
            Some(c.(regs := c.regs[base := c.ls.spill[base]], ls := s.(alive := false)))
  {
    hide Run, Step, Called;
    var first: seq<Code<W>> := [Store(RetVal, AX, base), Store(RetHigh, DX, base), Push(AX), Mov(base, AX)];
    RunConcat(first, [LoadSpill(base, AX), CallWrapper(r, Freed), Pop(AX)], c, ls);
    RunExitStart(c, base, ls);
    RunExitEnd(c, Put(Put(c.ls, RetVal, c.regs[AX]), RetHigh, c.regs[DX]), base, ls, r);
  }

  lemma PushPopSp(sp: Word)
    ensures Plus(Plus(sp, -8), 8) == sp
  {
  }

  /** A simple exit: the storage is released and the exit runs in the original registers. */
  lemma SimpleExit<W>(i: Insn<W>, r: Word, o: Orig<W>, c: Cpu<W>, base: Reg, ls: Word, labels: Word -> nat)
    requires i.Exit? && base in NON_SCRATCH && Rel(o, c, base, ls)
    ensures Simulates(i, Group(ExitCode(base, r), Original(i), []), o, c, base, ls, labels)
    ensures var g := GroupStep(Group(ExitCode(base, r), Original(i), []), c, ls, labels);
            g.Some? && !g.value.0.ls.alive
  {
    hide Run, Step;
    RunExit(c, base, ls, r);
    var c1 := Run(ExitCode(base, r), c, ls).value;
    SameRegs(c1.regs, o.regs);
    assert AsOrig(c1) == o;
  }

  lemma RunDirect<W>(callInfo: Word, c: Cpu<W>, base: Reg, ls: Word)
    requires Reaches(c, base, ls) && base != AX
    ensures Run(DirectCommon(callInfo, base), c, ls) ==
            Some(c.(regs := c.regs[AX := ls], ls := c.ls.(spill := c.ls.spill[AX := c.regs[AX]], info := callInfo)))
  {
    hide Run;
    RunFour(StoreSpill(AX, base), MovImm(callInfo, AX), Store(Info, AX, base), Mov(base, AX), c, ls);
    assert c.regs[AX := callInfo][AX := ls] == c.regs[AX := ls];
  }

  /** What the code before a thunk has prepared. */
  ghost predicate ReadyForCall<W>(o: Orig<W>, c: Cpu<W>, base: Reg, ls: Word, callInfo: Word) {
    && c.ls.alive && c.regs[AX] == ls && c.regs[base] == ls && c.ls.spill[base] == o.regs[base]
    && c.ls.spill[AX] == o.regs[AX] && c.ls.info == callInfo
    && Agree(o.regs, c.regs, ALL - {base, AX})
    && c.flags == o.flags && c.world == o.world && c.stack == []
  }

  /** The callee runs with the caller's registers, apart from a base that it must preserve. */
  lemma ThroughThunk<W(!new)>(effect: Orig<W> -> Orig<W>, o: Orig<W>, c: Cpu<W>, base: Reg, ls: Word, callInfo: Word)
    requires Respects(effect, CALL_MASK) && base in NON_SCRATCH && ReadyForCall(o, c, base, ls, callInfo)
    ensures var d := SetReg(c, AX, c.ls.spill[AX]);
            Rel(effect(o), WithOrig(d, effect(AsOrig(d))).(ls := c.ls.(spill := SaveScratch(c.ls.spill, d.regs))),
                base, ls)
  {
    var d := SetReg(c, AX, c.ls.spill[AX]);
    assert base !in CALL_MASK;
    assert AgreeOrig(o, AsOrig(d), CALL_MASK);
    var o', o1 := effect(o), effect(AsOrig(d));
    assert AgreeOrig(o', o1, CALL_MASK);
    assert Agree(o'.regs, o.regs, ALL - CALL_MASK) && Agree(o1.regs, d.regs, ALL - CALL_MASK);
    assert base in ALL - CALL_MASK;
  }

  /** kedr_handle_call_rel32_out */
  lemma DirectCall<W(!new)>(i: Insn<W>, o: Orig<W>, c: Cpu<W>, base: Reg, ls: Word, labels: Word -> nat)
    requires i.CallOut? && Decoded(i) && base in NON_SCRATCH && Rel(o, c, base, ls)
    ensures Simulates(i, Group(DirectCommon(i.callInfo, base), ThunkCall(i), []), o, c, base, ls, labels)
  {
    hide Run, Step;
    RunDirect(i.callInfo, c, base, ls);
    var c1 := Run(DirectCommon(i.callInfo, base), c, ls).value;
    assert ReadyForCall(o, c1, base, ls, i.callInfo);
    ThroughThunk(i.effect, o, c1, base, ls, i.callInfo);
    RunNothing(MainStep(ThunkCall(i), c1, ls, labels).value.0, ls);
  }

  lemma RunNothing<W>(c: Cpu<W>, ls: Word)
    ensures Run([], c, ls) == Some(c)
  {
  }

  // ------------------------------------------------------- indirect transfers

  /** The address is in `w`, everything else as at the boundary, `w` itself in its slot. */
  ghost predicate Evaluated<W>(o: Orig<W>, c: Cpu<W>, w: Reg, v: Word, base: Reg, ls: Word) {
    && c.ls.alive && c.regs[base] == ls && c.ls.spill[base] == o.regs[base]
    && c.regs[w] == v && c.ls.spill[w] == o.regs[w]
    && Agree(o.regs, c.regs, ALL - {base, w})
    && c.flags == o.flags && c.world == o.world && c.stack == []
  }

  lemma RunEvaluate<W(!new)>(e: Expr<W>, o: Orig<W>, c: Cpu<W>, w: Reg, t: Reg, base: Reg, ls: Word)
    requires GoodExpr(e) && Rel(o, c, base, ls)
    requires w != base && w !in e.mask && t != base && t != w && t !in e.mask
    ensures var r := Run([StoreSpill(w, base)] + EvalAddr(e, base, w, t), c, ls);
            r.Some? && Evaluated(o, r.value, w, e.load(o.regs, o.world), base, ls)
  {
    hide Run;
    RunOne(StoreSpill(w, base), c, ls);
    RunConcat([StoreSpill(w, base)], EvalAddr(e, base, w, t), c, ls);
    var c1 := Run([StoreSpill(w, base)], c, ls).value;
    assert Agree(o.regs, c1.regs, e.mask - {base});
    RunEvalAddr(e, o, c1, w, t, base, ls);
    var spill: Regs :| Run(EvalAddr(e, base, w, t), c1, ls) ==
        Some(c1.(regs := c1.regs[w := e.load(o.regs, o.world)], ls := c1.ls.(spill := spill))) &&
        Agree(spill, c1.ls.spill, ALL - {t});
    assert w in ALL - {t} && base in ALL - {t};
  }

  lemma RunTarget<W>(o: Orig<W>, c: Cpu<W>, v: Word, callInfo: Word, w: Reg, base: Reg, ls: Word)
    requires Evaluated(o, c, w, v, base, ls) && w != base && w != AX && base != AX
    ensures var s := c.ls.(spill := c.ls.spill[AX := c.regs[AX]], info := callInfo);
            Run([StoreSpill(AX, base), MovImm(callInfo, AX), Store(Info, AX, base), StoreTarget(w, AX, callInfo)], c,
                ls) ==
            Some(c.(regs := c.regs[AX := callInfo], ls := s,
                    calls := c.calls[callInfo := InfoAt(c.calls, callInfo).(target := v)]))
  {
    hide Run;
    RunFour(StoreSpill(AX, base), MovImm(callInfo, AX), Store(Info, AX, base), StoreTarget(w, AX, callInfo), c, ls);
  }

  lemma RunFill<W>(c: Cpu<W>, callInfo: Word, w: Reg, base: Reg, ls: Word, r: Word)
    requires Reaches(c, base, ls) && w != base && w != AX && base != AX && c.regs[AX] == callInfo
    ensures var t := InfoAt(c.calls, callInfo).target;
            Run([LoadSpill(w, base), FillLoad(callInfo), FillStore(callInfo, r), Mov(base, AX)], c, ls) ==
            Some(c.(regs := c.regs[w := c.ls.spill[w]][AX := ls], calls := c.calls[callInfo := CallInfo(t, t)]))
  {
    hide Run;
    var t := InfoAt(c.calls, callInfo).target;
    RunFour(LoadSpill(w, base), FillLoad(callInfo), FillStore(callInfo, r), Mov(base, AX), c, ls);
    assert c.regs[w := c.ls.spill[w]][AX := t][AX := r][AX := ls] == c.regs[w := c.ls.spill[w]][AX := ls];
  }

  lemma RunIndirect<W(!new)>(e: Expr<W>, callInfo: Word, o: Orig<W>, c: Cpu<W>, w: Reg, t: Reg, base: Reg, ls: Word,
                             r: Word)
    requires GoodExpr(e) && Rel(o, c, base, ls) && base in NON_SCRATCH
    requires w != base && w != AX && w !in e.mask && t != base && t != w && t !in e.mask
    ensures var q := Run(IndirectCommon(e, callInfo, base, w, t, r), c, ls);
            q.Some? && ReadyForCall(o, q.value, base, ls, callInfo) &&
            InfoAt(q.value.calls, callInfo).repl == e.load(o.regs, o.world)
  {
    hide Run, Step;
    var one := [StoreSpill(w, base)] + EvalAddr(e, base, w, t);
    var two: seq<Code<W>> := [StoreSpill(AX, base), MovImm(callInfo, AX), Store(Info, AX, base),
                              StoreTarget(w, AX, callInfo)];
    var three: seq<Code<W>> := [LoadSpill(w, base), FillLoad(callInfo), FillStore(callInfo, r), Mov(base, AX)];
    assert IndirectCommon(e, callInfo, base, w, t, r) == one + two + three;
    RunEvaluate(e, o, c, w, t, base, ls);
    var c1 := Run(one, c, ls).value;
    RunConcat(one, two, c, ls);
    RunTarget(o, c1, e.load(o.regs, o.world), callInfo, w, base, ls);
    var c2 := Run(two, c1, ls).value;
    RunConcat(one + two, three, c, ls);
    RunFill(c2, callInfo, w, base, ls, r);
  }

  /** kedr_handle_call_indirect */
  lemma IndirectCall<W(!new)>(i: Insn<W>, w: Reg, t: Reg, r: Word, o: Orig<W>, c: Cpu<W>, base: Reg, ls: Word,
                              labels: Word -> nat)
    requires i.CallIndirect? && Decoded(i) && base in NON_SCRATCH && Rel(o, c, base, ls)
    requires w != base && w != AX && w !in i.e.mask && t != base && t != w && t !in i.e.mask
    ensures Simulates(i, Group(IndirectCommon(i.e, i.callInfo, base, w, t, r), ThunkCall(i), []), o, c, base, ls,
                      labels)
  {
    hide Run, Step, IndirectCommon;
    RunIndirect(i.e, i.callInfo, o, c, w, t, base, ls, r);
    var c1 := Run(IndirectCommon(i.e, i.callInfo, base, w, t, r), c, ls).value;
    ThroughThunk(i.callee(InfoAt(c1.calls, i.callInfo).repl), o, c1, base, ls, i.callInfo);
    RunNothing(MainStep(ThunkCall(i), c1, ls, labels).value.0, ls);
  }

  /** The base register restored before a jump that leaves the function. */
  lemma JumpThroughThunk<W>(i: Insn<W>, before: seq<Code<W>>, o: Orig<W>, c: Cpu<W>, base: Reg, ls: Word,
                            labels: Word -> nat)
    requires i.JumpOut? || i.JumpIndirectOut?
    requires base in NON_SCRATCH
    requires var q := Run(before, c, ls); q.Some? && ReadyForCall(o, q.value, base, ls, i.callInfo) &&
                                          (i.JumpIndirectOut? ==>
                                           InfoAt(q.value.calls, i.callInfo).repl == i.e.load(o.regs, o.world))
    ensures var g := GroupStep(Group(before + [LoadSpill(base, AX)], ThunkJump(i), []), c, ls, labels);
            && g.Some? && g.value.1 == OrigStep(i, o, labels).1
            && (if g.value.1.Leave? then Exited(o, g.value.0)
                else g.value.0.regs == o.regs[AX := ls] && g.value.0.stack == [])
  {
    hide Run, Step;
    var c1 := Run(before, c, ls).value;
    RunSnoc(before, LoadSpill(base, AX), c, ls);
    var d := c1.(regs := c1.regs[base := c1.ls.spill[base]]);
    LoadBase(c1, base, ls);
    assert Run(before + [LoadSpill(base, AX)], c, ls) == Some(d);
    SameRegs(d.regs, o.regs[AX := ls]);
    if OrigStep(i, o, labels).1.Leave? {
      SameRegs(d.regs[AX := d.ls.spill[AX]], o.regs);
    } else {
      RunNothing(d, ls);
    }
  }

  lemma LoadBase<W>(c: Cpu<W>, base: Reg, ls: Word)
    requires Reaches(c, AX, ls)
    ensures Step(LoadSpill(base, AX), c, ls) == Some(c.(regs := c.regs[base := c.ls.spill[base]]))
  {
  }

  /** kedr_handle_jmp_indirect_out */
  lemma IndirectJump<W(!new)>(i: Insn<W>, w: Reg, t: Reg, r: Word, o: Orig<W>, c: Cpu<W>, base: Reg, ls: Word,
                              labels: Word -> nat)
    requires i.JumpIndirectOut? && Decoded(i) && base in NON_SCRATCH && Rel(o, c, base, ls)
    requires w != base && w != AX && w !in i.e.mask && t != base && t != w && t !in i.e.mask
    ensures Simulates(i, Group(IndirectCommon(i.e, i.callInfo, base, w, t, r) + [LoadSpill(base, AX)], ThunkJump(i),
                               []),
                      o, c, base, ls, labels)
  {
    hide Run, Step, IndirectCommon;
    RunIndirect(i.e, i.callInfo, o, c, w, t, base, ls, r);
    JumpThroughThunk(i, IndirectCommon(i.e, i.callInfo, base, w, t, r), o, c, base, ls, labels);
  }

  /**
   kedr_handle_jxx_rel32_out.  The correspondence is kept if and only if the jump is taken, or
   the registers that a jump not taken leaves changed happen to hold the storage address anyway.
   */
  lemma DirectJump<W(!new)>(i: Insn<W>, o: Orig<W>, c: Cpu<W>, base: Reg, ls: Word, labels: Word -> nat)
    requires i.JumpOut? && base in NON_SCRATCH && Rel(o, c, base, ls)
    ensures Simulates(i, Group(DirectCommon(i.callInfo, base) + [LoadSpill(base, AX)], ThunkJump(i), []), o, c, base,
                      ls, labels)
            <==> i.cond.None? || i.cond.value(o.flags) || (o.regs[AX] == ls && o.regs[base] == ls)
  {
    hide Run, Step, DirectCommon;
    RunDirect(i.callInfo, c, base, ls);
    var before: seq<Code<W>> := DirectCommon(i.callInfo, base);
    var c1 := Run(before, c, ls).value;
    JumpThroughThunk(i, before, o, c, base, ls, labels);
    var g := GroupStep(Group(before + [LoadSpill(base, AX)], ThunkJump(i), []), c, ls, labels).value;
    if g.1.Fall? {
      assert AX in ALL - {base};
      FellThrough(i, before, o, c, c1, base, ls, labels);
      assert Rel(o, g.0, base, ls) <==> o.regs[AX] == ls && o.regs[base] == ls by {
        if o.regs[AX] == ls && o.regs[base] == ls {
          assert o.regs[AX := ls] == o.regs;
        }
      }
    }
  }

  lemma FellThrough<W>(i: Insn<W>, before: seq<Code<W>>, o: Orig<W>, c: Cpu<W>, c1: Cpu<W>, base: Reg, ls: Word,
                       labels: Word -> nat)
    requires i.JumpOut? && i.cond.Some? && !i.cond.value(o.flags) && base in NON_SCRATCH
    requires Run(before, c, ls) == Some(c1) && ReadyForCall(o, c1, base, ls, i.callInfo)
    ensures var g := GroupStep(Group(before + [LoadSpill(base, AX)], ThunkJump(i), []), c, ls, labels);
            g == Some((c1.(regs := c1.regs[base := c1.ls.spill[base]]), Fall))
  {
    hide Run, Step;
    RunSnoc(before, LoadSpill(base, AX), c, ls);
    LoadBase(c1, base, ls);
    RunNothing(c1.(regs := c1.regs[base := c1.ls.spill[base]]), ls);
  }

  // ------------------------------------------------- jumps by table, with %base

  function TableCode<W>(e: Expr<W>, base: Reg, w: Reg, t: Reg): seq<Code<W>> {
    [StoreSpill(w, base)] + EvalAddr(e, base, w, t) + [Push(w), LoadSpill(w, base)]
  }

  /** kedr_handle_jmp_indirect_inner */
  lemma TableJump<W(!new)>(i: Insn<W>, w: Reg, t: Reg, o: Orig<W>, c: Cpu<W>, base: Reg, ls: Word, labels: Word -> nat)
    requires i.JumpTable? && Decoded(i) && base in NON_SCRATCH && Rel(o, c, base, ls)
    requires w != base && w != SP && w !in i.e.mask && t != base && t != w && t !in i.e.mask
    ensures Simulates(i, Group(TableCode(i.e, base, w, t), RetToPushed, []), o, c, base, ls, labels)
  {
    hide Run, Step, Plus;
    var v := i.e.load(o.regs, o.world);
    var one := [StoreSpill(w, base)] + EvalAddr(i.e, base, w, t);
    RunEvaluate(i.e, o, c, w, t, base, ls);
    var c1 := Run(one, c, ls).value;
    RunConcat(one, [Push(w), LoadSpill(w, base)], c, ls);
    RunPushed(c1, w, base, ls);
    PushPopSp(c1.regs[SP]);
    var c2 := Run(TableCode(i.e, base, w, t), c, ls).value;
    var c3 := MoveSp(c2, 8, []);
    assert c3.regs == c1.regs[w := c1.ls.spill[w]];
  }

  lemma RunPushed<W>(c: Cpu<W>, w: Reg, base: Reg, ls: Word)
    requires Reaches(c, base, ls) && w != SP && w != base && base != SP && c.stack == []
    ensures Run([Push(w), LoadSpill(w, base)], c, ls) ==
            Some(c.(regs := c.regs[SP := Plus(c.regs[SP], -8)][w := c.ls.spill[w]], stack := [Value(c.regs[w])]))
  {
    hide Run, Plus;
    RunTwo(Push(w), LoadSpill(w, base), c, ls);
    assert [Value(c.regs[w])] + c.stack == [Value(c.regs[w])];
  }
}
