/**
 The driver of phase 1: choice of the base and work registers, the pass over the instructions,
 the code at the function entry, and the simulation theorem over whole runs.
 */
module Phase1 {
  import opened Basics
  import opened Machine
  import opened ReleaseBase
  import B = Blocks

  // ------------------------------------------------------------ choosing registers

  /** kedr_choose_register: the lowest register to choose from that is not used. */
  method ChooseRegister(from: set<Reg>, used: set<Reg>) returns (r: Option<Reg>)
    ensures r.None? <==> from <= used
    ensures r.Some? ==> r.value in from && r.value !in used
    ensures r.Some? ==> forall q: Reg :: q in from && q !in used ==> r.value <= q
  {
    var mask := from - used;
    if mask == {} {
      assert forall q: Reg :: q in from ==> q in used || q in mask;
      return None;
    }
    ghost var some: Reg :| some in mask;
    var code := 0;
    while code !in mask
      invariant 0 <= code <= some
      invariant forall q: Reg :: q < code ==> q !in mask
      decreases 16 - code
    {
      code := code + 1;
    }
    assert forall q: Reg :: q in from && q !in used ==> q in mask;
    r := Some(code);
  }

  /** In how many instructions a register is used. */
  function Usage(masks: seq<set<Reg>>, r: Reg): nat {
    if masks == [] then 0 else Usage(masks[..|masks| - 1], r) + if r in masks[|masks| - 1] then 1 else 0
  }

  lemma {:induction false} UsageIs(masks: seq<set<Reg>>, r: Reg)
    ensures Usage(masks, r) == |set k | 0 <= k < |masks| && r in masks[k]|
    decreases |masks|
  {
    if masks != [] {
      var n := |masks| - 1;
      UsageIs(masks[..n], r);
      var a, b := set k | 0 <= k < n && r in masks[..n][k], set k | 0 <= k < |masks| && r in masks[k];
      assert b == if r in masks[n] then a + {n} else a;
    }
  }

  /** ir_choose_base_register: the least used register that a callee must preserve. */
  method ChooseBase(masks: seq<set<Reg>>) returns (base: Option<Reg>)
    ensures base.None? <==> ALL in masks
    ensures base.Some? ==> base.value in NON_SCRATCH
    ensures base.Some? ==> forall r: Reg :: r in NON_SCRATCH ==> Usage(masks, base.value) <= Usage(masks, r)
    ensures base.Some? ==> forall r: Reg :: r in NON_SCRATCH && r < base.value ==>
            Usage(masks, base.value) < Usage(masks, r)
  {
    var usage := new nat[16](_ => 0);
    var k := 0;
    assert masks[..0] == [];
    while k < |masks|
      invariant k <= |masks| && forall r: Reg :: usage[r] == Usage(masks[..k], r)
      invariant ALL !in masks[..k]
    {
      if masks[k] == ALL {
        return None;
      }
      var i := 0;
      ghost var before := masks[..k];
      assert masks[..k + 1][..k] == before;
      while i < 16
        invariant i <= 16
        invariant forall r: Reg :: usage[r] == Usage(before, r) + if r < i && r in masks[k] then 1 else 0
      {
        if i in masks[k] {
          usage[i] := usage[i] + 1;
        }
        i := i + 1;
      }
      k := k + 1;
    }
    assert masks[..k] == masks;
    base := LeastUsed(usage, masks);
  }

  method LeastUsed(usage: array<nat>, ghost masks: seq<set<Reg>>) returns (base: Option<Reg>)
    requires usage.Length == 16 && forall r: Reg :: usage[r] == Usage(masks, r)
    ensures base.Some? && base.value in NON_SCRATCH
    ensures forall r: Reg :: r in NON_SCRATCH ==> Usage(masks, base.value) <= Usage(masks, r)
    ensures forall r: Reg :: r in NON_SCRATCH && r < base.value ==> Usage(masks, base.value) < Usage(masks, r)
  {
    base := None;
    var i := 0;
    while i < 16
      invariant i <= 16
      invariant base.Some? ==> base.value in NON_SCRATCH && base.value < i
      invariant base.None? ==> forall r: Reg :: r < i ==> r !in NON_SCRATCH
      invariant base.Some? ==> forall r: Reg :: r in NON_SCRATCH && r < i ==> usage[base.value] <= usage[r]
      invariant base.Some? ==> forall r: Reg :: r in NON_SCRATCH && r < base.value ==> usage[base.value] < usage[r]
    {
      if i in NON_SCRATCH && (base.None? || usage[i] < usage[base.value]) {
        base := Some(i);
      }
      i := i + 1;
    }
    assert BX in NON_SCRATCH;
  }

  // ------------------------------------------------------ the pass over the code

  predicate Work(w: Reg, t: Reg, mask: set<Reg>, base: Reg) {
    w != base && w !in mask && t != base && t != w && t !in mask
  }

  /** `g` is what phase 1 may make of `i`. */
  ghost predicate IsRelease<W>(i: Insn<W>, g: Group<W>, base: Reg) {
    match i
    case Straight(mask, _) =>
      if base !in mask then g == Group([], Original(i), [])
      else exists w: Reg :: w != base && w !in mask && g == Group(Save(w, base), Original(i), Restore(w, base))
    case Branch(_, _, _) => g == Group([], Original(i), [])
    case JumpTable(e) =>
      if base !in e.mask then g == Group([], Original(i), [])
      else exists w: Reg, t: Reg :: Work(w, t, e.mask, base) && w != SP &&
                                    g == Group(TableCode(e, base, w, t), RetToPushed, [])
    case Exit(_) => exists r: Word :: g == Group(ExitCode(base, r), Original(i), [])
    case CallOut(callInfo, _) => g == Group(DirectCommon(callInfo, base), ThunkCall(i), [])
    case CallIndirect(callInfo, e, _) =>
      exists w: Reg, t: Reg, r: Word :: Work(w, t, e.mask, base) && w != AX &&
                                        g == Group(IndirectCommon(e, callInfo, base, w, t, r), ThunkCall(i), [])
    case JumpOut(callInfo, _, _) => g == Group(DirectCommon(callInfo, base) + [LoadSpill(base, AX)], ThunkJump(i), [])
    case JumpIndirectOut(callInfo, e) =>
      exists w: Reg, t: Reg, r: Word ::
        Work(w, t, e.mask, base) && w != AX &&
        g == Group(IndirectCommon(e, callInfo, base, w, t, r) + [LoadSpill(base, AX)], ThunkJump(i), [])
  }

  lemma {:induction false} SubsetSize(a: set<Reg>, b: set<Reg>)
    requires a <= b
    ensures |a| <= |b|
    decreases a
  {
    if a != {} {
      var x :| x in a;
      SubsetSize(a - {x}, b - {x});
    }
  }

  /** Five registers cannot use up the six that a callee must preserve. */
  lemma SomethingLeft(mask: set<Reg>, a: Reg, b: Reg, c: Reg)
    requires |mask| <= 2
    ensures !(ALL <= mask + {a, b, c}) && !(NON_SCRATCH <= mask + {a, b, c})
  {
    var six: set<Reg> := {BX, BP, 12, 13, 14, 15};
    assert six <= NON_SCRATCH <= ALL;
    assert |six| == 6;
    hide NON_SCRATCH, ALL;
    SizeOfFour(mask, a, b, c);
    if six <= mask + {a, b, c} {
      SubsetSize(six, mask + {a, b, c});
    }
  }

  lemma SizeOfFour(mask: set<Reg>, a: Reg, b: Reg, c: Reg)
    ensures |mask + {a, b, c}| <= |mask| + 3
  {
    assert mask + {a, b, c} == mask + {a} + {b} + {c};
  }

  /** Work registers for an addressing expression; there always are some. */
  method ChooseWork(from: set<Reg>, mask: set<Reg>, avoid: Reg, base: Reg) returns (w: Reg, t: Reg)
    requires |mask| <= 2 && (from == ALL || from == NON_SCRATCH)
    ensures Work(w, t, mask, base) && w != avoid && w != SP
  {
    SomethingLeft(mask, avoid, SP, base);
    var r := ChooseRegister(from, mask + {avoid, SP, base});
    w := r.value;
    SomethingLeft(mask, w, SP, base);
    r := ChooseRegister(ALL, mask + {w, SP, base});
    t := r.value;
  }

  // The handlers of phase 1; `r` is what the handler that they call returns in %rax.

  method HandleExit<W(!new)>(i: Insn<W>, base: Reg, r: Word) returns (g: Group<W>)
    requires i.Exit?
    ensures IsRelease(i, g, base)
  {
    g := Group(ExitCode(base, r), Original(i), []);
  }

  method HandleCallIndirect<W(!new)>(i: Insn<W>, base: Reg, r: Word) returns (g: Group<W>)
    requires i.CallIndirect? && Decoded(i)
    ensures IsRelease(i, g, base)
  {
    hide Respects, GoodExpr, NON_SCRATCH, ALL;
    var w, t := ChooseWork(ALL, i.e.mask, AX, base);
    g := Group(IndirectCommon(i.e, i.callInfo, base, w, t, r), ThunkCall(i), []);
  }

  method HandleJumpIndirectOut<W(!new)>(i: Insn<W>, base: Reg, r: Word) returns (g: Group<W>)
    requires i.JumpIndirectOut? && Decoded(i)
    ensures IsRelease(i, g, base)
  {
    hide Respects, GoodExpr, NON_SCRATCH, ALL;
    var w, t := ChooseWork(ALL, i.e.mask, AX, base);
    g := Group(IndirectCommon(i.e, i.callInfo, base, w, t, r) + [LoadSpill(base, AX)], ThunkJump(i), []);
  }

  method HandleJumpIndirectInner<W(!new)>(i: Insn<W>, base: Reg) returns (g: Group<W>)
    requires i.JumpTable? && Decoded(i)
    ensures IsRelease(i, g, base)
  {
    hide Respects, GoodExpr, NON_SCRATCH, ALL;
    if base !in i.e.mask {
      return Group([], Original(i), []);
    }
    var w, t := ChooseWork(NON_SCRATCH, i.e.mask, SP, base);
    g := Group(TableCode(i.e, base, w, t), RetToPushed, []);
  }

  method HandleCallOut<W(!new)>(i: Insn<W>, base: Reg) returns (g: Group<W>)
    requires i.CallOut?
    ensures IsRelease(i, g, base)
  {
    g := Group(DirectCommon(i.callInfo, base), ThunkCall(i), []);
  }

  method HandleJumpOut<W(!new)>(i: Insn<W>, base: Reg) returns (g: Group<W>)
    requires i.JumpOut?
    ensures IsRelease(i, g, base)
  {
    g := Group(DirectCommon(i.callInfo, base) + [LoadSpill(base, AX)], ThunkJump(i), []);
  }

  method HandleGeneral<W(!new)>(i: Insn<W>, base: Reg) returns (g: Group<W>)
    requires (i.Straight? || i.Branch?) && Decoded(i) && base in NON_SCRATCH
    ensures IsRelease(i, g, base)
  {
    hide Respects, ALL;
    if base !in i.mask {
      return Group([], Original(i), []);
    }
    NotAll(i.mask);
    var w := ChooseRegister(ALL, i.mask + {base});
    g := Group(Save(w.value, base), Original(i), Restore(w.value, base));
  }

  lemma NotAll(mask: set<Reg>)
    requires mask != ALL
    ensures forall b: Reg :: b in mask ==> !(ALL <= mask + {b})
  {
    assert mask <= ALL;
    assert forall b: Reg :: b in mask ==> mask + {b} == mask;
  }

  /** Node `c` of block creation is instruction `i`: what the decoder says of one it says of the other. */
  ghost predicate SameInsn<W>(i: Insn<W>, c: B.Insn) {
    match i
    case Straight(_, _) =>
      // CALL far is a transfer that comes back
      c.kind.Plain? || c.kind.Locked? || c.kind.IoMem? || c.kind.Barrier? || c.kind.OtherTransfer?
    case Branch(_, _, _) => (c.kind.JumpRel? || c.kind.CallRel?) && !c.outside
    case JumpTable(_) => c.kind == B.JumpIndirect(true)
    case Exit(_) => c.kind.Plain? || c.kind.OtherTransfer?
    case CallOut(_, _) => c.kind.CallRel? && c.outside
    case CallIndirect(_, _, _) => c.kind.CallIndirect?
    case JumpOut(_, _, _) => c.kind.JumpRel? && c.outside
    case JumpIndirectOut(_, _) => c.kind == B.JumpIndirect(false)
  }

  /** The type of a node selects the handler that is made for its instruction. */
  ghost predicate RightType<W>(i: Insn<W>, t: B.BlockType) {
    && (t.IndirectCall? <==> i.CallIndirect?)
    && (t.IndirectOut? <==> i.JumpIndirectOut?)
    && (t.IndirectInner? <==> i.JumpTable?)
    && (t.CallOut? <==> i.CallOut?)
    && (t.JumpOut? <==> i.JumpOut?)
  }

  /** Block creation gives every instruction the type whose handler is made for it. */
  lemma TypesAreRight<W>(code: seq<Insn<W>>, nodes: seq<B.Insn>, targets: set<nat>, m: seq<B.Mark>, k: nat)
    requires |code| == |nodes| && B.Split(nodes, targets, m) && k < |code| && SameInsn(code[k], nodes[k])
    ensures k < |m| && RightType(code[k], m[k].type_)
  {
    hide B.BlockIsGood, B.CutBefore, B.IsBlock, B.MarkedBy, B.Separate, B.JumpsBack;
    assert B.Typed(nodes, m, k);
  }

  /** One node of phase 1, by the type of the node. */
  method ReleaseNode<W(!new)>(i: Insn<W>, t: B.BlockType, base: Reg, r: Word) returns (g: Group<W>)
    requires base in NON_SCRATCH && Decoded(i) && RightType(i, t)
    ensures IsRelease(i, g, base)
  {
    hide IsRelease, Decoded, NON_SCRATCH;
    if i.Exit? {
      g := HandleExit(i, base, r);
    } else if t.IndirectCall? {
      g := HandleCallIndirect(i, base, r);
    } else if t.IndirectOut? {
      g := HandleJumpIndirectOut(i, base, r);
    } else if t.IndirectInner? {
      g := HandleJumpIndirectInner(i, base);
    } else if t.CallOut? {
      g := HandleCallOut(i, base);
    } else if t.JumpOut? {
      g := HandleJumpOut(i, base);
    } else {
      g := HandleGeneral(i, base);
    }
  }

  /** The pass of kedr_ir_instrument over the nodes of a split function; it cannot fail once a base was chosen. */
  method InstrumentPhase1<W(!new)>(code: seq<Insn<W>>, ghost nodes: seq<B.Insn>, ghost targets: set<nat>,
                                   m: seq<B.Mark>, base: Reg, r: Word)
    returns (groups: seq<Group<W>>)
    requires base in NON_SCRATCH && |code| == |nodes| && B.Split(nodes, targets, m)
    requires forall k :: 0 <= k < |code| ==> Decoded(code[k]) && SameInsn(code[k], nodes[k])
    ensures |groups| == |code| && forall k :: 0 <= k < |code| ==> IsRelease(code[k], groups[k], base)
  {
    hide IsRelease, Decoded, B.Split, SameInsn, RightType;
    groups := [];
    var k := 0;
    while k < |code|
      invariant k <= |code| && |groups| == k
      invariant forall j :: 0 <= j < k ==> IsRelease(code[j], groups[j], base)
    {
      TypesAreRight(code, nodes, targets, m, k);
      var g := ReleaseNode(code[k], m[k].type_, base, r);
      groups := groups + [g];
      k := k + 1;
    }
  }

  /** From block creation through phase 1: a function is split, and by its types every instruction is released. */
  method SplitAndRelease<W(!new)>(code: seq<Insn<W>>, nodes: seq<B.Insn>, targets: set<nat>, base: Reg, r: Word)
    returns (m: seq<B.Mark>, groups: seq<Group<W>>)
    requires B.Linked(nodes) && |code| == |nodes| > 0 && base in NON_SCRATCH
    requires forall k :: 0 <= k < |code| ==> Decoded(code[k]) && SameInsn(code[k], nodes[k])
    ensures B.Split(nodes, targets, m) && Released(code, groups, base)
  {
    hide IsRelease, Decoded, B.Split, SameInsn, B.Linked;
    var f := new B.Function(nodes, targets);
    f.CreateBlocks(targets);
    m := f.marks[..];
    groups := InstrumentPhase1(code, nodes, targets, m, base, r);
  }

  // ---------------------------------------------------------- function entry

  /** kedr_handle_function_entry up to the test of what the entry handler returned. */
  function EntryCall<W>(funcInfo: Word, ret: Word, handler: Storage -> Storage): seq<Code<W>> {
    [Push(AX), MovImm(funcInfo, AX), Reserve(7)] +
    ArgumentStores() +
    [Mov(SP, AX), CallWrapper(ret, handler), Release(7), Test(AX)]
  }

  function ToFallback<W>(): seq<Code<W>> { [Pop(AX)] }

  function GoOn<W>(base: Reg): seq<Code<W>> { [StoreSpill(base, AX), Mov(AX, base), Pop(AX)] }

  /** Between the reservation of stack space and its release. */
  ghost predicate InEntry<W>(c: Cpu<W>, d: Cpu<W>) {
    && d.regs[SP] == Plus(Plus(c.regs[SP], -8), -56) && Agree(c.regs, d.regs, ALL - {AX, SP})
    && |d.stack| == 8 && d.stack[7] == Value(c.regs[AX]) && d.world == c.world && d.ls == c.ls
  }

  lemma EntryPrologue<W>(c: Cpu<W>, funcInfo: Word, ls: Word)
    requires c.stack == []
    ensures var r := Run([Push(AX), MovImm(funcInfo, AX), Reserve(7)], c, ls);
            r.Some? && InEntry(c, r.value) && r.value.regs[AX] == funcInfo
  {
    hide Run, Plus;
    RunThree(Push(AX), MovImm(funcInfo, AX), Reserve(7), c, ls);
    var r := Run([Push(AX), MovImm(funcInfo, AX), Reserve(7)], c, ls).value;
    assert |seq(7, _ => Value(0))| == 7;
    assert Agree(c.regs, r.regs, ALL - {AX, SP});
  }

  lemma EntryEpilogue<W>(c: Cpu<W>, d: Cpu<W>, ret: Word, handler: Storage -> Storage, ls: Word)
    requires InEntry(c, d)
    ensures var r := Run([Mov(SP, AX), CallWrapper(ret, handler), Release(7), Test(AX)], d, ls);
            && r.Some? && r.value.regs[SP] == Plus(c.regs[SP], -8) && r.value.regs[AX] == ret
            && Agree(c.regs, r.value.regs, ALL - {AX, SP}) && r.value.stack == [Value(c.regs[AX])]
            && r.value.world == c.world && r.value.ls == handler(c.ls) && r.value.flags.zf == (ret == 0)
  {
    hide Run, Step, Plus;
    var one: seq<Code<W>> := [Mov(SP, AX), CallWrapper(ret, handler)];
    RunConcat(one, [Release(7), Test(AX)], d, ls);
    assert one + [Release(7), Test(AX)] == [Mov(SP, AX), CallWrapper(ret, handler), Release(7), Test(AX)];
    RunEntryHandler(d, ret, handler, ls);
    RunEntryRelease(SetReg(d, AX, ret).(ls := handler(d.ls)), ls);
    ReleasedSp(c.regs[SP]);
  }

  lemma RunEntryHandler<W>(d: Cpu<W>, ret: Word, handler: Storage -> Storage, ls: Word)
    ensures Run([Mov(SP, AX), CallWrapper(ret, handler)], d, ls) == Some(SetReg(d, AX, ret).(ls := handler(d.ls)))
  {
    hide Run;
    RunTwo(Mov(SP, AX), CallWrapper(ret, handler), d, ls);
    assert d.regs[AX := d.regs[SP]][AX := ret] == d.regs[AX := ret];
  }

  lemma RunEntryRelease<W>(d: Cpu<W>, ls: Word)
    requires |d.stack| == 8
    ensures Run([Release(7), Test(AX)], d, ls) ==
            Some(MoveSp(d, 8 * 7, [d.stack[7]]).(flags := Arith(d.regs[AX], false)))
  {
    hide Run, Plus;
    RunTwo(Release(7), Test(AX), d, ls);
    assert d.stack[7..] == [d.stack[7]];
  }

  lemma ReleasedSp(sp: Word)
    ensures Plus(Plus(Plus(sp, -8), -56), 8 * 7) == Plus(sp, -8)
  {
  }

  /** The words for the entry handler, from the top of the stack on. */
  function Arguments(funcInfo: Word, regs: Regs): seq<Pushed> {
    [Value(funcInfo), Value(regs[DI]), Value(regs[SI]), Value(regs[DX]), Value(regs[CX]), Value(regs[8]),
     Value(regs[9])]
  }

  lemma DistinctStores<W>()
    ensures var stores := ArgumentStores<W>();
            && |stores| == 7 && forall k :: 0 <= k < 7 ==> stores[k].StoreStack? && stores[k].at == k
  {
  }

  lemma ArgumentsStored<W>(c: Cpu<W>, d: Cpu<W>, e: Cpu<W>, funcInfo: Word)
    requires InEntry(c, d) && d.regs[AX] == funcInfo && |e.stack| == 8
    requires var stores := ArgumentStores<W>();
             forall k :: 0 <= k < 7 ==> e.stack[stores[k].at] == Value(d.regs[stores[k].r])
    ensures e.stack[..7] == Arguments(funcInfo, c.regs)
  {
    hide Plus;
    var stores := ArgumentStores<W>();
    assert stores[0].at == 0 && stores[1].at == 1 && stores[2].at == 2 && stores[3].at == 3;
    assert stores[4].at == 4 && stores[5].at == 5 && stores[6].at == 6;
  }

  /** What the entry handler finds: %rax points to the function's information and its six arguments. */
  lemma EntryArguments<W>(c: Cpu<W>, funcInfo: Word, ret: Word, handler: Storage -> Storage, ls: Word)
    requires c.stack == []
    ensures EntryCall<W>(funcInfo, ret, handler)[11] == CallWrapper(ret, handler)
    ensures var r := Run(EntryCall(funcInfo, ret, handler)[..11], c, ls);
            && r.Some? && |r.value.stack| == 8 && r.value.regs[AX] == r.value.regs[SP]
            && r.value.stack[..7] == Arguments(funcInfo, c.regs)
  {
    hide Run, Step, Plus, EntryCall, ArgumentStores, Arguments;
    var one: seq<Code<W>> := [Push(AX), MovImm(funcInfo, AX), Reserve(7)];
    var stores := ArgumentStores<W>();
    EntryCode<W>(funcInfo, ret, handler);
    EntryPrologue(c, funcInfo, ls);
    var d := Run(one, c, ls).value;
    DistinctStores<W>();
    RunStores(d, stores, ls);
    RunConcat(one, stores, c, ls);
    RunConcat(one + stores, [Mov(SP, AX)], c, ls);
    var e := Run(stores, d, ls).value;
    RunOne(Mov(SP, AX), e, ls);
    MovStep(e, ls);
    ArgumentsStored(c, d, e, funcInfo);
  }

  function ArgumentStores<W>(): seq<Code<W>> {
    [StoreStack(AX, 0), StoreStack(DI, 1), StoreStack(SI, 2), StoreStack(DX, 3), StoreStack(CX, 4), StoreStack(8, 5),
     StoreStack(9, 6)]
  }

  lemma MovStep<W>(c: Cpu<W>, ls: Word)
    ensures Step(Mov(SP, AX), c, ls) == Some(SetReg(c, AX, c.regs[SP]))
  {
  }

  lemma EntryCode<W>(funcInfo: Word, ret: Word, handler: Storage -> Storage)
    ensures var code := EntryCall<W>(funcInfo, ret, handler);
            && |code| == 14 && code[11] == CallWrapper(ret, handler)
            && code[..11] == [Push(AX), MovImm(funcInfo, AX), Reserve(7)] + ArgumentStores() + [Mov(SP, AX)]
  {
  }

  /** Stores to different words of the stack: each word holds what was stored there. */
  lemma {:induction false} RunStores<W>(d: Cpu<W>, code: seq<Code<W>>, ls: Word)
    requires forall k :: 0 <= k < |code| ==> code[k].StoreStack? && code[k].at < |d.stack|
    requires forall j, k :: 0 <= j < k < |code| ==> code[j].at != code[k].at
    ensures var r := Run(code, d, ls);
            && r.Some? && r.value == d.(stack := r.value.stack) && |r.value.stack| == |d.stack|
            && (forall k :: 0 <= k < |code| ==> r.value.stack[code[k].at] == Value(d.regs[code[k].r]))
            && (forall n :: 0 <= n < |d.stack| && (forall k :: 0 <= k < |code| ==> code[k].at != n) ==>
                r.value.stack[n] == d.stack[n])
    decreases |code|
  {
    if code != [] {
      var d' := d.(stack := d.stack[code[0].at := Value(d.regs[code[0].r])]);
      assert Step(code[0], d, ls) == Some(d');
      var rest := code[1..];
      assert forall k :: 0 <= k < |rest| ==> rest[k] == code[k + 1];
      RunStores(d', rest, ls);
      var r := Run(rest, d', ls).value;
      assert r.stack[code[0].at] == Value(d.regs[code[0].r]);
      forall k | 0 <= k < |code|
        ensures r.stack[code[k].at] == Value(d.regs[code[k].r])
      {
        if k > 0 {
          assert code[k] == rest[k - 1];
        }
      }
      forall n | 0 <= n < |d.stack| && (forall k :: 0 <= k < |code| ==> code[k].at != n)
        ensures r.stack[n] == d.stack[n]
      {
        assert forall k :: 0 <= k < |rest| ==> rest[k].at != n;
      }
    }
  }

  lemma EntryCalled<W>(c: Cpu<W>, funcInfo: Word, ret: Word, handler: Storage -> Storage, ls: Word)
    requires c.stack == []
    ensures var r := Run(EntryCall(funcInfo, ret, handler), c, ls);
            && r.Some? && r.value.regs[SP] == Plus(c.regs[SP], -8) && r.value.regs[AX] == ret
            && Agree(c.regs, r.value.regs, ALL - {AX, SP}) && r.value.stack == [Value(c.regs[AX])]
            && r.value.world == c.world && r.value.ls == handler(c.ls) && r.value.flags.zf == (ret == 0)
  {
    hide Run, Step, Plus;
    var one: seq<Code<W>> := [Push(AX), MovImm(funcInfo, AX), Reserve(7)];
    var stores := ArgumentStores<W>();
    var last: seq<Code<W>> := [Mov(SP, AX), CallWrapper(ret, handler), Release(7), Test(AX)];
    EntryPrologue(c, funcInfo, ls);
    var d := Run(one, c, ls).value;
    RunStores(d, stores, ls);
    RunConcat(one, stores, c, ls);
    RunConcat(one + stores, last, c, ls);
    assert forall k :: 0 <= k < 7 ==> stores[k].at != 7;
    EntryEpilogue(c, Run(stores, d, ls).value, ret, handler, ls);
  }

  /** Without a storage the fallback runs in the original registers. */
  lemma EntryFallback<W>(c: Cpu<W>, funcInfo: Word, handler: Storage -> Storage, ls: Word)
    requires c.stack == []
    ensures var r := Run(EntryCall(funcInfo, 0, handler), c, ls);
            && r.Some? && r.value.flags.zf
            && var f := Run(ToFallback(), r.value, ls); f.Some? && f.value.regs == c.regs && f.value.stack == [] &&
                                                        f.value.world == c.world
  {
    hide Run, Plus;
    EntryCalled(c, funcInfo, 0, handler, ls);
    var d := Run(EntryCall(funcInfo, 0, handler), c, ls).value;
    RunOne(Pop(AX), d, ls);
    PushPopSp(c.regs[SP]);
    var f := Run(ToFallback(), d, ls).value;
    SameRegs(f.regs, c.regs);
  }

  /** With a storage, the correspondence holds at the first instruction, for the flags it finds. */
  lemma EntryEstablishes<W>(c: Cpu<W>, funcInfo: Word, handler: Storage -> Storage, base: Reg, ls: Word)
    requires c.stack == [] && base in NON_SCRATCH && ls != 0 && handler(c.ls).alive
    ensures var r := Run(EntryCall(funcInfo, ls, handler), c, ls);
            && r.Some? && !r.value.flags.zf
            && var f := Run(GoOn(base), r.value, ls); f.Some? &&
                                                      Rel(Orig(c.regs, f.value.flags, c.world), f.value, base, ls)
  {
    hide Run, Plus;
    EntryCalled(c, funcInfo, ls, handler, ls);
    var d := Run(EntryCall(funcInfo, ls, handler), c, ls).value;
    RunThree(StoreSpill(base, AX), Mov(AX, base), Pop(AX), d, ls);
    PushPopSp(c.regs[SP]);
    assert base in ALL - {AX, SP};
  }

  // ------------------------------------------------------------- whole runs

  /**
   A conditional jump out of the function that is not taken leaves the storage address in %rax
   and the original value in the base register; no other instruction is affected.
   */
  predicate Harmless<W>(i: Insn<W>, o: Orig<W>, base: Reg, ls: Word) {
    i.JumpOut? ==> i.cond.None? || i.cond.value(o.flags) || (o.regs[AX] == ls && o.regs[base] == ls)
  }

  /** One instruction, whatever phase 1 made of it: the correspondence is kept if and only if it is harmless. */
  lemma StepSimulates<W(!new)>(i: Insn<W>, g: Group<W>, o: Orig<W>, c: Cpu<W>, base: Reg, ls: Word, labels: Word -> nat)
    requires Decoded(i) && base in NON_SCRATCH && IsRelease(i, g, base) && Rel(o, c, base, ls)
    ensures Simulates(i, g, o, c, base, ls, labels) <==> Harmless(i, o, base, ls)
  {
    hide Run, Step, Simulates, Rel, Respects, GoodExpr, Save, Restore, EvalAddr, TableCode, ExitCode, IndirectCommon,
         DirectCommon;
    match i
    case Straight(mask, _) =>
      if base !in mask {
        Untouched(i, o, c, base, ls, labels);
      } else {
        var w: Reg :| w != base && w !in mask && g == Group(Save(w, base), Original(i), Restore(w, base));
        GeneralCase(i, w, o, c, base, ls, labels);
      }
    case Branch(mask, _, _) => Untouched(i, o, c, base, ls, labels);
    case JumpTable(e) =>
      if base !in e.mask {
        UntouchedTable(i, o, c, base, ls, labels);
      } else {
        var w: Reg, t: Reg :| Work(w, t, e.mask, base) && w != SP &&
            g == Group(TableCode(e, base, w, t), RetToPushed, []);
        TableJump(i, w, t, o, c, base, ls, labels);
      }
    case Exit(_) =>
      var r: Word :| g == Group(ExitCode(base, r), Original(i), []);
      SimpleExit(i, r, o, c, base, ls, labels);
    case CallOut(_, _) => DirectCall(i, o, c, base, ls, labels);
    case CallIndirect(callInfo, e, _) =>
      var w: Reg, t: Reg, r: Word :| Work(w, t, e.mask, base) && w != AX &&
          g == Group(IndirectCommon(e, callInfo, base, w, t, r), ThunkCall(i), []);
      IndirectCall(i, w, t, r, o, c, base, ls, labels);
    case JumpOut(_, _, _) => DirectJump(i, o, c, base, ls, labels);
    case JumpIndirectOut(callInfo, e) =>
      var w: Reg, t: Reg, r: Word :| Work(w, t, e.mask, base) && w != AX &&
          g == Group(IndirectCommon(e, callInfo, base, w, t, r) + [LoadSpill(base, AX)], ThunkJump(i), []);
      IndirectJump(i, w, t, r, o, c, base, ls, labels);
  }

  lemma UntouchedTable<W(!new)>(i: Insn<W>, o: Orig<W>, c: Cpu<W>, base: Reg, ls: Word, labels: Word -> nat)
    requires i.JumpTable? && GoodExpr(i.e) && base !in i.e.mask && Rel(o, c, base, ls)
    ensures Simulates(i, Group([], Original(i), []), o, c, base, ls, labels)
  {
    hide Step;
    assert Agree(o.regs, c.regs, i.e.mask);
  }

  /** A conditional jump out of the function that is not taken breaks the correspondence. */
  lemma ConditionalExitFails(labels: Word -> nat) returns (i: Insn<bool>, o: Orig<bool>, c: Cpu<bool>)
    ensures i.JumpOut? && Decoded(i) && Rel(o, c, BX, 1)
    ensures !Simulates(i, Group(DirectCommon(i.callInfo, BX) + [LoadSpill(BX, AX)], ThunkJump(i), []), o, c, BX, 1,
                       labels)
  {
    hide Run, Step, Simulates;
    i := JumpOut(5, 7, Some((f: Flags) => f.zf));
    o := Orig(seq(16, _ => 0), Flags(false, false, 0), false);
    var ls := Storage(true, seq(16, _ => 0), seq(MAX_VALUES, _ => 0), {}, 0, 0, 0, 0, 0);
    c := Cpu(o.regs[BX := 1], o.flags, [], false, ls, map[]);
    DirectJump(i, o, c, BX, 1, labels);
  }

  datatype Outcome<S> = Running(pc: nat, s: S) | Left(s: S, dest: Word) | OutOfCode | Fault

  /** `n` steps of the original function. */
  ghost function OrigRun<W>(code: seq<Insn<W>>, labels: Word -> nat, pc: nat, o: Orig<W>, n: nat): Outcome<Orig<W>>
    decreases n
  {
    if n == 0 then Running(pc, o)
    else if pc >= |code| then OutOfCode
    else
      var (o', ctl) := OrigStep(code[pc], o, labels);
      match ctl
      case Fall => OrigRun(code, labels, pc + 1, o', n - 1)
      case Goto(k) => OrigRun(code, labels, k, o', n - 1)
      case Leave(dest) => Left(o', dest)
  }

  /** The same number of groups of the instrumented function. */
  ghost function GroupRun<W>(groups: seq<Group<W>>, labels: Word -> nat, pc: nat, c: Cpu<W>, ls: Word,
                             n: nat): Outcome<Cpu<W>>
    decreases n
  {
    if n == 0 then Running(pc, c)
    else if pc >= |groups| then OutOfCode
    else
      var r := GroupStep(groups[pc], c, ls, labels);
      if r.None? then Fault
      else match r.value.1
        case Fall => GroupRun(groups, labels, pc + 1, r.value.0, ls, n - 1)
        case Goto(k) => GroupRun(groups, labels, k, r.value.0, ls, n - 1)
        case Leave(dest) => Left(r.value.0, dest)
  }

  ghost predicate SameOutcome<W>(a: Outcome<Orig<W>>, b: Outcome<Cpu<W>>, base: Reg, ls: Word) {
    match a
    case Running(pc, o) => b.Running? && b.pc == pc && Rel(o, b.s, base, ls)
    case Left(o, dest) => b.Left? && b.dest == dest && Exited(o, b.s)
    case OutOfCode => b.OutOfCode?
    case Fault => false
  }

  /** No harmful jump is executed in the next `n` steps of the original. */
  ghost predicate HarmlessRun<W>(code: seq<Insn<W>>, labels: Word -> nat, pc: nat, o: Orig<W>, base: Reg, ls: Word,
                                 n: nat)
    decreases n
  {
    n == 0 || pc >= |code| ||
    (Harmless(code[pc], o, base, ls) &&
     var (o', ctl) := OrigStep(code[pc], o, labels);
     match ctl
     case Fall => HarmlessRun(code, labels, pc + 1, o', base, ls, n - 1)
     case Goto(k) => HarmlessRun(code, labels, k, o', base, ls, n - 1)
     case Leave(_) => true)
  }

  /** The groups are what phase 1 makes of the function. */
  ghost predicate Released<W(!new)>(code: seq<Insn<W>>, groups: seq<Group<W>>, base: Reg) {
    && base in NON_SCRATCH && |groups| == |code|
    && forall k :: 0 <= k < |code| ==> Decoded(code[k]) && IsRelease(code[k], groups[k], base)
  }

  /**
   After any number of steps without a harmful jump the instrumented function is where the
   original is: at the same instruction with the base register's value in its slot and everything
   else equal, or gone to the same place with everything equal.  It never accesses a storage that
   is not there.
   */
  lemma {:induction false} Phase1Simulates<W(!new)>(code: seq<Insn<W>>, groups: seq<Group<W>>, labels: Word -> nat,
                                                   pc: nat, o: Orig<W>, c: Cpu<W>, base: Reg, ls: Word, n: nat)
    requires Released(code, groups, base) && Rel(o, c, base, ls) && HarmlessRun(code, labels, pc, o, base, ls, n)
    ensures SameOutcome(OrigRun(code, labels, pc, o, n), GroupRun(groups, labels, pc, c, ls, n), base, ls)
    decreases n
  {
    hide Decoded, IsRelease, Rel, Exited, GroupStep, OrigStep, Harmless;
    if n > 0 && pc < |code| {
      StepSimulates(code[pc], groups[pc], o, c, base, ls, labels);
      var (o', ctl) := OrigStep(code[pc], o, labels);
      var r := GroupStep(groups[pc], c, ls, labels);
      match ctl
      case Fall => Phase1Simulates(code, groups, labels, pc + 1, o', r.value.0, base, ls, n - 1);
      case Goto(k) => Phase1Simulates(code, groups, labels, k, o', r.value.0, base, ls, n - 1);
      case Leave(_) =>
    }
  }

  lemma {:induction false} HarmlessPrefix<W>(code: seq<Insn<W>>, labels: Word -> nat, pc: nat, o: Orig<W>, base: Reg,
                                             ls: Word, m: nat, n: nat)
    requires m <= n && HarmlessRun(code, labels, pc, o, base, ls, n)
    ensures HarmlessRun(code, labels, pc, o, base, ls, m)
    decreases m
  {
    hide OrigStep, Harmless;
    if m > 0 && pc < |code| {
      var (o', ctl) := OrigStep(code[pc], o, labels);
      match ctl
      case Fall => HarmlessPrefix(code, labels, pc + 1, o', base, ls, m - 1, n - 1);
      case Goto(k) => HarmlessPrefix(code, labels, k, o', base, ls, m - 1, n - 1);
      case Leave(_) =>
    }
  }

  /** After a harmful jump the two are at the same place in states that do not correspond. */
  lemma HarmfulStep<W(!new)>(i: Insn<W>, g: Group<W>, o: Orig<W>, c: Cpu<W>, base: Reg, ls: Word, labels: Word -> nat)
    requires Decoded(i) && base in NON_SCRATCH && IsRelease(i, g, base) && Rel(o, c, base, ls)
    requires !Harmless(i, o, base, ls)
    ensures var r := GroupStep(g, c, ls, labels);
            OrigStep(i, o, labels) == (o, Fall) && (r.Some? && r.value.1.Fall? ==> !Rel(o, r.value.0, base, ls))
            && (r.Some? ==> !r.value.1.Goto?)
  {
    hide Run, Step, Rel, DirectCommon;
    StepSimulates(i, g, o, c, base, ls, labels);
  }

  /** If a harmful jump is executed, the correspondence is lost after some number of steps up to there. */
  lemma {:induction false} HarmfulRunDiffers<W(!new)>(code: seq<Insn<W>>, groups: seq<Group<W>>, labels: Word -> nat,
                                                     pc: nat, o: Orig<W>, c: Cpu<W>, base: Reg, ls: Word, n: nat)
    returns (m: nat)
    requires Released(code, groups, base) && Rel(o, c, base, ls) && !HarmlessRun(code, labels, pc, o, base, ls, n)
    ensures m <= n
    ensures !SameOutcome(OrigRun(code, labels, pc, o, m), GroupRun(groups, labels, pc, c, ls, m), base, ls)
    decreases n
  {
    hide Decoded, IsRelease, Rel, Exited, GroupStep, OrigStep, Harmless;
    var (o', ctl) := OrigStep(code[pc], o, labels);
    var r := GroupStep(groups[pc], c, ls, labels);
    if !Harmless(code[pc], o, base, ls) {
      HarmfulStep(code[pc], groups[pc], o, c, base, ls, labels);
      m := 1;
    } else {
      StepSimulates(code[pc], groups[pc], o, c, base, ls, labels);
      match ctl {
      case Fall =>
        m := HarmfulRunDiffers(code, groups, labels, pc + 1, o', r.value.0, base, ls, n - 1);
      case Goto(k) =>
        m := HarmfulRunDiffers(code, groups, labels, k, o', r.value.0, base, ls, n - 1);
      }
      m := m + 1;
    }
  }

  /** The correspondence is kept throughout `n` steps if and only if no harmful jump is executed in them. */
  lemma SimulatesIffHarmless<W(!new)>(code: seq<Insn<W>>, groups: seq<Group<W>>, labels: Word -> nat, pc: nat,
                                      o: Orig<W>, c: Cpu<W>, base: Reg, ls: Word, n: nat)
    requires Released(code, groups, base) && Rel(o, c, base, ls)
    ensures HarmlessRun(code, labels, pc, o, base, ls, n) <==>
            forall m: nat :: m <= n ==>
              SameOutcome(OrigRun(code, labels, pc, o, m), GroupRun(groups, labels, pc, c, ls, m), base, ls)
  {
    hide Released, Rel, SameOutcome, OrigRun, GroupRun, HarmlessRun;
    if HarmlessRun(code, labels, pc, o, base, ls, n) {
      forall m: nat | m <= n
        ensures SameOutcome(OrigRun(code, labels, pc, o, m), GroupRun(groups, labels, pc, c, ls, m), base, ls)
      {
        HarmlessPrefix(code, labels, pc, o, base, ls, m, n);
        Phase1Simulates(code, groups, labels, pc, o, c, base, ls, m);
      }
    } else {
      var m := HarmfulRunDiffers(code, groups, labels, pc, o, c, base, ls, n);
    }
  }
}
