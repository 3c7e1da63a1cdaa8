/**
 The instructions of a common block as both phases leave them: freed of the base register, with
 the code that records their memory access around them.  Every kind of operation is fit for its
 place in a block: it does what the original does and its slots hold the original's access.
 */
module RecordedNodes {
  import opened Basics
  import opened Machine
  import opened ReleaseBase
  import opened Phase1
  import opened RecordAccess
  import opened FlatCode
  import opened BlockLayout
  import opened BlockPaths
  import StringOps
  import R = BlockRecord

  // ------------------------------------------------ after freeing the base

  /** Freeing the base register uses spill slots only. */
  lemma OnlySpills<W(!new)>(i: Insn<W>, g: Group<W>, o: Orig<W>, c: Cpu<W>, base: Reg, ls: Word)
    requires i.Straight? && Decoded(i) && base in NON_SCRATCH && IsRelease(i, g, base) && Rel(o, c, base, ls)
    ensures var c1 := Run(g.before, c, ls);
            && c1.Some? && c1.value.stack == []
            && var r := Run(g.after, WithOrig(c1.value, i.effect(AsOrig(c1.value))), ls);
               r.Some? && Rel(i.effect(o), r.value, base, ls) && r.value.ls == c.ls.(spill := r.value.ls.spill)
  {
    hide Run, Step;
    if base !in i.mask {
      Untouched(i, o, c, base, ls, Nowhere);
      RunNothing(c, ls);
      RunNothing(WithOrig(c, i.effect(AsOrig(c))), ls);
    } else {
      var w: Reg :| w != base && w !in i.mask && g == Group(Save(w, base), Original(i), Restore(w, base));
      GeneralCase(i, w, o, c, base, ls, Nowhere);
      RunSave(c, w, base, ls);
      var c1 := Run(Save(w, base), c, ls).value;
      var c2 := WithOrig(c1, i.effect(AsOrig(c1)));
      assert w in ALL - i.mask && Agree(c2.regs, c1.regs, ALL - i.mask);
      RunRestore(c2, w, base, ls);
    }
  }

  function Nowhere(w: Word): nat { 0 }

  /** An instruction with `record` before and `note` after what phase 1 has made of it. */
  ghost function Around<W>(record: seq<Code<W>>, i: Insn<W>, g: Group<W>, note: seq<Code<W>>,
                           access: Orig<W> -> R.Access): Source<W>
    requires i.Straight?
  {
    Plain(record + g.before, i.effect, g.after + note, (o: Orig<W>) => true, access)
  }

  ghost predicate Straightened<W(!new)>(i: Insn<W>, g: Group<W>, base: Reg) {
    i.Straight? && Decoded(i) && base in NON_SCRATCH && IsRelease(i, g, base)
  }

  /** What `note` finds when the instruction has run. */
  lemma RunAround<W(!new)>(record: seq<Code<W>>, i: Insn<W>, g: Group<W>, note: seq<Code<W>>,
                           access: Orig<W> -> R.Access,
                           o: Orig<W>, c: Cpu<W>, values: Values, base: Reg, ls: Word) returns (c2: Cpu<W>)
    requires Straightened(i, g, base)
    requires var r := Run(record, c, ls); r.Some? && Keeps(o, c, r.value, values, base, ls)
    ensures Keeps(i.effect(o), c, c2, values, base, ls)
    ensures RunPlain(Around(record, i, g, note, access), c, ls) == Run(note, c2, ls)
  {
    hide Run, Step, Rel, Decoded, IsRelease, NON_SCRATCH;
    var c1 := Run(record, c, ls).value;
    OnlySpills(i, g, o, c1, base, ls);
    RunConcat(record, g.before, c, ls);
    var d := Run(g.before, c1, ls).value;
    var d' := WithOrig(d, i.effect(AsOrig(d)));
    RunConcat(g.after, note, d', ls);
    c2 := Run(g.after, d', ls).value;
  }

  // --------------------------------------------------- none of it is a call

  lemma {:induction false} NoneCalls<W>(codes: seq<Code<W>>)
    requires forall k :: 0 <= k < |codes| ==> !codes[k].CallWrapper? && !codes[k].SkipIf?
    ensures NoCalls(codes)
    decreases |codes|
  {
    if codes != [] {
      NoneCalls(codes[1..]);
    }
  }

  lemma OneSkip<W>(cond: Flags -> bool, body: seq<Code<W>>)
    requires NoCalls(body)
    ensures NoCalls([SkipIf(cond, body)])
  {
    var skip: Code<W> := SkipIf(cond, body);
    assert [skip][1..] == [] && NoCall(skip) && NoCalls<W>([]);
  }

  lemma GroupNoCalls<W(!new)>(i: Insn<W>, g: Group<W>, base: Reg)
    requires Straightened(i, g, base)
    ensures NoCalls(g.before) && NoCalls(g.after)
  {
    hide NoCalls;
    NoneCalls(g.before);
    NoneCalls(g.after);
  }

  lemma AroundNoCalls<W(!new)>(record: seq<Code<W>>, i: Insn<W>, g: Group<W>, note: seq<Code<W>>,
                               access: Orig<W> -> R.Access, base: Reg)
    requires Straightened(i, g, base) && NoCalls(record) && NoCalls(note)
    ensures var s := Around(record, i, g, note, access); NoCalls(s.pre) && NoCalls(s.post)
  {
    hide NoCalls, Straightened;
    GroupNoCalls(i, g, base);
    NoCallsConcat(record, g.before);
    NoCallsConcat(g.after, note);
  }

  // ------------------------------------------------------- kinds of operations

  /** An instruction that is not tracked. */
  lemma Untracked<W(!new)>(x: Env, i: Insn<W>, g: Group<W>, access: Orig<W> -> R.Access, op: R.Op, end: Option<nat>,
                           tail: Tail,
                           num: nat, nval: nat)
    requires Straightened(i, g, x.base) && !op.tracked
    ensures GoodPlain(x, Place(Around([], i, g, [], access), op, end, tail), num, nval)
  {
    hide Run, Straightened, RunPlain, Rel, NoCalls, Around;
    StraightBase(i, g, x.base);
    var p := Place(Around([], i, g, [], access), op, end, tail);
    AroundIs([], i, g, [], access, x.base);
    NoneCalls<W>([]);
    AroundNoCalls([], i, g, [], access, x.base);
    forall o: Orig<W>, c: Cpu<W> | p.source.fits(o) && Rel(o, c, x.base, x.ls)
      ensures GoodStep(x, p, num, nval, o, c)
    {
      RunNothing(c, x.ls);
      var c2 := RunAround([], i, g, [], access, o, c, c.ls.values, x.base, x.ls);
      RunNothing(c2, x.ls);
    }
  }

  lemma AroundIs<W(!new)>(record: seq<Code<W>>, i: Insn<W>, g: Group<W>, note: seq<Code<W>>,
                          access: Orig<W> -> R.Access, base: Reg)
    requires Straightened(i, g, base)
    ensures i.Straight?
    ensures var s := Around(record, i, g, note, access); s.Plain? && s.effect == i.effect && s.access == access
  {
  }

  /** A recording before the instruction that leaves the access in one slot, or no access. */
  ghost predicate Records<W(!new)>(x: Env, record: seq<Code<W>>, access: Orig<W> -> R.Access, nval: nat) {
    forall o: Orig<W>, c: Cpu<W> :: Rel(o, c, x.base, x.ls) ==> RecordsOne(x, record, access(o), nval, o, c)
  }

  ghost predicate RecordsOne<W>(x: Env, record: seq<Code<W>>, a: R.Access, nval: nat, o: Orig<W>, c: Cpu<W>) {
    var r := Run(record, c, x.ls);
    && (a.At? || a.Skipped?) && nval + R.Width(a) <= MAX_VALUES && (a.At? ==> a.addr < TWO64)
    && r.Some? && Keeps(o, c, r.value, if a.At? then c.ls.values[nval := a.addr] else c.ls.values, x.base, x.ls)
  }

  ghost predicate OneAddress(op: R.Op) {
    op.tracked && R.Decoded(op) && !R.IsString(op.class_) && !op.class_.Cmpxchg? && !op.class_.Cmpxchg8b?
  }

  /** Operations whose access is recorded before them. */
  lemma RecordedBefore<W(!new)>(x: Env, record: seq<Code<W>>, i: Insn<W>, g: Group<W>, access: Orig<W> -> R.Access,
                                op: R.Op,
                                end: Option<nat>, tail: Tail, num: nat, nval: nat)
    requires Straightened(i, g, x.base) && OneAddress(op) && NoCalls(record) && Records(x, record, access, nval)
    ensures GoodPlain(x, Place(Around(record, i, g, [], access), op, end, tail), num, nval)
  {
    hide Straightened, Rel, NoCalls, Around, GoodStep, RecordsOne;
    StraightBase(i, g, x.base);
    var p := Place(Around(record, i, g, [], access), op, end, tail);
    AroundIs(record, i, g, [], access, x.base);
    NoneCalls<W>([]);
    AroundNoCalls(record, i, g, [], access, x.base);
    forall o: Orig<W>, c: Cpu<W> | p.source.fits(o) && Rel(o, c, x.base, x.ls)
      ensures GoodStep(x, p, num, nval, o, c)
    {
      RecordedStep(x, record, i, g, access, op, end, tail, num, nval, o, c);
    }
  }

  lemma RecordedStep<W(!new)>(x: Env, record: seq<Code<W>>, i: Insn<W>, g: Group<W>, access: Orig<W> -> R.Access,
                              op: R.Op,
                              end: Option<nat>, tail: Tail, num: nat, nval: nat, o: Orig<W>, c: Cpu<W>)
    requires Straightened(i, g, x.base) && OneAddress(op) && Rel(o, c, x.base, x.ls) &&
             RecordsOne(x, record, access(o), nval, o, c)
    ensures GoodStep(x, Place(Around(record, i, g, [], access), op, end, tail), num, nval, o, c)
  {
    hide Run, Straightened, RunPlain, Rel, Around;
    AroundIs(record, i, g, [], access, x.base);
    var a := access(o);
    var values: Values := if a.At? then c.ls.values[nval := a.addr] else c.ls.values;
    var c2 := RunAround(record, i, g, [], access, o, c, values, x.base, x.ls);
    RunNothing(c2, x.ls);
  }

  lemma CommonNoCalls<W>(e: Expr<W>, base: Reg, w: Reg, n: nat)
    ensures NoCalls(RecordCommon(e, base, w, n))
  {
    NoneCalls(RecordCommon(e, base, w, n));
  }

  /** kedr_handle_type_e_and_m: PUSH, POP, MOVBE and the other operations with an addressing expression. */
  lemma TypeEM<W(!new)>(x: Env, i: Insn<W>, g: Group<W>, e: Expr<W>, w: Reg, op: R.Op, end: Option<nat>, tail: Tail,
                        num: nat, nval: nat)
    requires Straightened(i, g, x.base) && OneAddress(op) && nval < MAX_VALUES
    requires GoodExpr(e) && w != x.base && w !in e.mask
    ensures var access := (o: Orig<W>) => R.At(e.address(o.regs));
            GoodPlain(x, Place(Around(RecordCommon(e, x.base, w, nval), i, g, [], access), op, end, tail), num, nval)
  {
    hide Run, Straightened, Rel, NoCalls, Around, RecordCommon, GoodPlain, GoodExpr;
    var access := (o: Orig<W>) => R.At(e.address(o.regs));
    var record := RecordCommon(e, x.base, w, nval);
    CommonNoCalls(e, x.base, w, nval);
    forall o: Orig<W>, c: Cpu<W> | Rel(o, c, x.base, x.ls)
      ensures RecordsOne(x, record, access(o), nval, o, c)
    {
      RecordsAddress(e, o, c, w, nval, x.base, x.ls);
    }
    RecordedBefore(x, record, i, g, access, op, end, tail, num, nval);
  }

  /** kedr_handle_setcc_cmovcc: an access only if the condition holds. */
  lemma Conditional<W(!new)>(x: Env, cc: Flags -> bool, i: Insn<W>, g: Group<W>, e: Expr<W>, w: Reg, op: R.Op,
                             end: Option<nat>, tail: Tail,
                             num: nat, nval: nat)
    requires Straightened(i, g, x.base) && OneAddress(op) && nval < MAX_VALUES
    requires GoodExpr(e) && w != x.base && w !in e.mask
    ensures var access := (o: Orig<W>) => if cc(o.flags) then R.At(e.address(o.regs)) else R.Skipped;
            var record := [SkipIf((f: Flags) => !cc(f), RecordCommon(e, x.base, w, nval))];
            GoodPlain(x, Place(Around(record, i, g, [], access), op, end, tail), num, nval)
  {
    hide Run, Straightened, Rel, NoCalls, Around, RecordCommon, GoodPlain, GoodExpr;
    var access := (o: Orig<W>) => if cc(o.flags) then R.At(e.address(o.regs)) else R.Skipped;
    var record := [SkipIf((f: Flags) => !cc(f), RecordCommon(e, x.base, w, nval))];
    CommonNoCalls(e, x.base, w, nval);
    OneSkip((f: Flags) => !cc(f), RecordCommon(e, x.base, w, nval));
    forall o: Orig<W>, c: Cpu<W> | Rel(o, c, x.base, x.ls)
      ensures RecordsOne(x, record, access(o), nval, o, c)
    {
      RecordsIfCondition(cc, e, o, c, w, nval, x.base, x.ls);
    }
    RecordedBefore(x, record, i, g, access, op, end, tail, num, nval);
  }

  /** kedr_handle_xlat */
  lemma TypeXlat<W(!new)>(x: Env, i: Insn<W>, g: Group<W>, op: R.Op, end: Option<nat>, tail: Tail, num: nat, nval: nat)
    requires Straightened(i, g, x.base) && OneAddress(op) && nval < MAX_VALUES
    ensures var access := (o: Orig<W>) => R.At(Plus(o.regs[AX] % 0x100, o.regs[BX]));
            GoodPlain(x, Place(Around(RecordXlat(x.base, nval), i, g, [], access), op, end, tail), num, nval)
  {
    hide Run, Rel, NoCalls, Around, GoodPlain, Plus, NON_SCRATCH, Decoded, IsRelease;
    var access := (o: Orig<W>) => R.At(Plus(o.regs[AX] % 0x100, o.regs[BX]));
    var record: seq<Code<W>> := RecordXlat(x.base, nval);
    NoneCalls(record);
    forall o: Orig<W>, c: Cpu<W> | Rel(o, c, x.base, x.ls)
      ensures RecordsOne(x, record, access(o), nval, o, c)
    {
      RecordsXlat(o, c, nval, x.base, x.ls);
    }
    RecordedBefore(x, record, i, g, access, op, end, tail, num, nval);
  }

  /** kedr_handle_direct_offset_mov */
  lemma TypeOffset<W(!new)>(x: Env, addr: Word, i: Insn<W>, g: Group<W>, op: R.Op, end: Option<nat>, tail: Tail,
                            num: nat, nval: nat)
    requires Straightened(i, g, x.base) && OneAddress(op) && nval < MAX_VALUES
    ensures var access := (o: Orig<W>) => R.At(addr);
            var record := [Push(AX), MovImm(addr, AX), Store(Slot(nval), AX, x.base), Pop(AX)];
            GoodPlain(x, Place(Around(record, i, g, [], access), op, end, tail), num, nval)
  {
    hide Run, Rel, NoCalls, Around, GoodPlain, NON_SCRATCH, Decoded, IsRelease;
    var access := (o: Orig<W>) => R.At(addr);
    var record: seq<Code<W>> := [Push(AX), MovImm(addr, AX), Store(Slot(nval), AX, x.base), Pop(AX)];
    NoneCalls(record);
    forall o: Orig<W>, c: Cpu<W> | Rel(o, c, x.base, x.ls)
      ensures RecordsOne(x, record, access(o), nval, o, c)
    {
      RecordsOffset(addr, o, c, nval, x.base, x.ls);
    }
    RecordedBefore(x, record, i, g, access, op, end, tail, num, nval);
  }

  /** handle_cmpxchg_impl: the address before, the write bit after. */
  lemma Exchanges<W(!new)>(x: Env, i: Insn<W>, g: Group<W>, e: Expr<W>, w: Reg, op: R.Op, end: Option<nat>, tail: Tail,
                           num: nat, nval: nat)
    requires Straightened(i, g, x.base) && op.tracked && (op.class_.Cmpxchg? || op.class_.Cmpxchg8b?) &&
             nval < MAX_VALUES
    requires GoodExpr(e) && w != x.base && w !in e.mask
    ensures i.Straight?
    ensures var access := (o: Orig<W>) => R.Exchange(e.address(o.regs), i.effect(o).flags.zf);
            var source := Around(RecordCommon(e, x.base, w, nval), i, g, NoteWrite(num, x.base), access);
            GoodPlain(x, Place(source, op, end, tail), num, nval)
  {
    hide Run, Straightened, Rel, NoCalls, Around, RecordCommon, GoodExpr, RunPlain, NoteWrite;
    StraightBase(i, g, x.base);
    var access := (o: Orig<W>) => R.Exchange(e.address(o.regs), i.effect(o).flags.zf);
    var record, note: seq<Code<W>> := RecordCommon(e, x.base, w, nval), NoteWrite(num, x.base);
    var p := Place(Around(record, i, g, note, access), op, end, tail);
    CommonNoCalls(e, x.base, w, nval);
    NoteNoCalls<W>(num, x.base);
    AroundIs(record, i, g, note, access, x.base);
    AroundNoCalls(record, i, g, note, access, x.base);
    forall o: Orig<W>, c: Cpu<W> | p.source.fits(o) && Rel(o, c, x.base, x.ls)
      ensures GoodStep(x, p, num, nval, o, c)
    {
      RecordsAddress(e, o, c, w, nval, x.base, x.ls);
      var c2 := RunAround(record, i, g, note, access, o, c, c.ls.values[nval := e.address(o.regs)], x.base, x.ls);
      NotesWrite(i.effect(o), c2, num, x.base, x.ls);
    }
  }

  lemma StraightBase<W(!new)>(i: Insn<W>, g: Group<W>, base: Reg)
    requires Straightened(i, g, base)
    ensures i.Straight? && base != SP && base in NON_SCRATCH
  {
  }

  lemma NoteNoCalls<W>(num: nat, base: Reg)
    ensures NoCalls<W>(NoteWrite(num, base))
  {
    hide NoCalls;
    NoneCalls<W>([Pushf, OrWriteMask(num, base), Popf]);
    OneSkip<W>(NotZero, [Pushf, OrWriteMask(num, base), Popf]);
  }

  // ------------------------------------------------------ string operations

  /** What a string operation over `count` elements does to the register `key`, without wrap-around. */
  ghost predicate Steps<W>(effect: Orig<W> -> Orig<W>, o: Orig<W>, key: Reg, size: Word, count: nat, back: bool) {
    effect(o).regs[key] == StringOps.Past(o.regs[key], size, count, back)
  }

  lemma KeyNoCalls<W>(key: Reg, base: Reg, w: Reg, t: Reg, size: Word, n: nat)
    ensures NoCalls<W>(StringOps.NoteKey(key, base, w)) && NoCalls<W>(StringOps.RecordKey(key, base, w, t, size, n))
  {
    hide NoCalls;
    NoneCalls<W>(StringOps.NoteKey(key, base, w));
    var measure: seq<Code<W>>, back: seq<Code<W>> := StringOps.Measure(key, base, w, t), StringOps.PutBack(base, w, t);
    var backwards: seq<Code<W>> := StringOps.Backwards(key, w, t, size);
    var stores: seq<Code<W>> := [Store(Slot(n), w, base), Store(Slot(n + 1), t, base)];
    NoneCalls(measure);
    NoneCalls(back);
    NoneCalls(backwards);
    NoneCalls(stores);
    OneSkip(StringOps.Above, backwards);
    NoCallsConcat([SkipIf(StringOps.Above, backwards)], stores);
    var range: seq<Code<W>> := StringOps.RecordRange(key, base, w, t, size, n);
    assert range == [SkipIf(StringOps.Above, backwards)] + stores;
    OneSkip(StringOps.Zero, range);
    NoCallsConcat(measure, [SkipIf(StringOps.Zero, range)]);
    NoCallsConcat(measure + [SkipIf(StringOps.Zero, range)], back);
  }

  function AtLeastZero(v: int): nat { if v < 0 then 0 else v }

  ghost function KeyRange<W>(effect: Orig<W> -> Orig<W>, o: Orig<W>, key: Reg, size: Word): R.Access {
    var k, k' := o.regs[key], effect(o).regs[key];
    if k' == k then R.Skipped else R.Range(AtLeastZero(StringOps.StartOf(k, k', size)), StringOps.LengthOf(k, k'))
  }

  /** An instruction that uses neither the base register nor what its recording needs in between. */
  ghost predicate Leaves<W(!new)>(i: Insn<W>, used: set<Reg>, base: Reg) {
    i.Straight? && Respects(i.effect, i.mask) && used !! i.mask && base !in i.mask
  }

  /** handle_type_x_and_y_impl: the register before the instruction, the range after it. */
  lemma TypeXOrY<W(!new)>(x: Env, i: Insn<W>, key: Reg, w: Reg, t: Reg, size: Word, count: Orig<W> -> nat,
                          back: Orig<W> -> bool,
                          op: R.Op, end: Option<nat>, tail: Tail, num: nat, nval: nat)
    requires Leaves(i, {w}, x.base) && StringOps.Distinct(key, x.base, w, t) && size > 0 && nval + 1 < MAX_VALUES
    requires op.tracked && R.IsString(op.class_) && !R.IsTypeXY(op.class_)
    ensures i.Straight?
    ensures var fits := (o: Orig<W>) => Steps(i.effect, o, key, size, count(o), back(o));
            var access := (o: Orig<W>) => KeyRange(i.effect, o, key, size);
            var source := Plain(StringOps.NoteKey(key, x.base, w), i.effect,
                                StringOps.RecordKey(key, x.base, w, t, size, nval), fits, access);
            GoodPlain(x, Place(source, op, end, tail), num, nval)
  {
    hide Run, Rel, NoCalls, StringOps.Touched, StringOps.NoteKey, StringOps.RecordKey, StringOps.Distinct, Respects;
    var fits := (o: Orig<W>) => Steps(i.effect, o, key, size, count(o), back(o));
    var access := (o: Orig<W>) => KeyRange(i.effect, o, key, size);
    var pre, post: seq<Code<W>> := StringOps.NoteKey(key, x.base, w),
        StringOps.RecordKey(key, x.base, w, t, size, nval);
    var p := Place(Plain(pre, i.effect, post, fits, access), op, end, tail);
    KeyNoCalls<W>(key, x.base, w, t, size, nval);
    assert w in {w};
    forall o: Orig<W>, c: Cpu<W> | p.source.fits(o) && Rel(o, c, x.base, x.ls)
      ensures GoodStep(x, p, num, nval, o, c)
    {
      assert Steps(i.effect, o, key, size, count(o), back(o));
      KeyNoted(o, c, key, w, x.base, x.ls, t);
      StringOps.RecordsRange(i.effect, i.mask, o, c, key, w, t, size, count(o), back(o), nval, x.base, x.ls);
      CountTold(i.effect, o, key, size, count(o), back(o));
    }
  }

  lemma KeyNoted<W>(o: Orig<W>, c: Cpu<W>, key: Reg, w: Reg, base: Reg, ls: Word, t: Reg)
    requires Rel(o, c, base, ls) && StringOps.Distinct(key, base, w, t)
    ensures var r := Run(StringOps.NoteKey(key, base, w), c, ls); r.Some? && r.value.stack == []
  {
    hide Run, StringOps.NoteKey;
    StringOps.RunNoteKey(o, c, key, w, base, ls);
  }

  /** The register has moved if and only if there were elements. */
  lemma CountTold<W>(effect: Orig<W> -> Orig<W>, o: Orig<W>, key: Reg, size: Word, count: nat, back: bool)
    requires Steps(effect, o, key, size, count, back) && size > 0
    ensures effect(o).regs[key] == o.regs[key] <==> count == 0
  {
    if count > 0 {
      assert count * size > 0;
    }
  }

  lemma BothNoCalls<W>(base: Reg, size: Word, n: nat)
    ensures NoCalls<W>(StringOps.NoteBoth(base)) && NoCalls<W>(StringOps.RecordBoth(base, size, n))
  {
    hide NoCalls;
    NoneCalls<W>(StringOps.NoteBoth(base));
    var measure: seq<Code<W>>, back: seq<Code<W>> := StringOps.Measure(SI, base, AX, CX), StringOps.PutBackBoth(base);
    var backwards: seq<Code<W>>, stores: seq<Code<W>> := StringOps.BothBackwards(size), StringOps.StoreBoth(base, n);
    NoneCalls(measure);
    NoneCalls(back);
    NoneCalls(backwards);
    NoneCalls(stores);
    OneSkip(StringOps.Above, backwards);
    NoCallsConcat([SkipIf(StringOps.Above, backwards)], stores);
    var ranges: seq<Code<W>> := StringOps.RecordBothRanges(base, size, n);
    OneSkip(StringOps.Zero, ranges);
    NoCallsConcat(measure, [SkipIf(StringOps.Zero, ranges)]);
    NoCallsConcat(measure + [SkipIf(StringOps.Zero, ranges)], back);
  }

  ghost function BothRanges<W>(effect: Orig<W> -> Orig<W>, o: Orig<W>, size: Word): R.Access {
    var a, a', b, b' := o.regs[SI], effect(o).regs[SI], o.regs[DI], effect(o).regs[DI];
    if a' == a then R.Skipped
    else R.TwoRanges(AtLeastZero(StringOps.StartOf(a, a', size)), StringOps.LengthOf(a, a'),
                     AtLeastZero(StringOps.StartOf(b, b', size)), StringOps.LengthOf(a, a'))
  }

  /** kedr_handle_type_xy: MOVS and CMPS. */
  lemma TypeXY<W(!new)>(x: Env, i: Insn<W>, size: Word, count: Orig<W> -> nat, back: Orig<W> -> bool,
                        op: R.Op, end: Option<nat>, tail: Tail, num: nat, nval: nat)
    requires Leaves(i, StringOps.BOTH, x.base) && StringOps.BaseForStrings(x.base) && size > 0 && nval + 3 < MAX_VALUES
    requires op.tracked && R.IsTypeXY(op.class_)
    ensures i.Straight?
    ensures var fits := (o: Orig<W>) => Steps(i.effect, o, SI, size, count(o), back(o)) &&
                Steps(i.effect, o, DI, size, count(o), back(o));
            var access := (o: Orig<W>) => BothRanges(i.effect, o, size);
            var source := Plain(StringOps.NoteBoth(x.base), i.effect, StringOps.RecordBoth(x.base, size, nval), fits,
                                access);
            GoodPlain(x, Place(source, op, end, tail), num, nval)
  {
    hide Rel, NoCalls, StringOps.NoteBoth, StringOps.RecordBoth, StringOps.BaseForStrings, Respects, GoodStep;
    var fits := (o: Orig<W>) => Steps(i.effect, o, SI, size, count(o), back(o)) &&
        Steps(i.effect, o, DI, size, count(o), back(o));
    var access := (o: Orig<W>) => BothRanges(i.effect, o, size);
    var pre, post: seq<Code<W>> := StringOps.NoteBoth(x.base), StringOps.RecordBoth(x.base, size, nval);
    var p := Place(Plain(pre, i.effect, post, fits, access), op, end, tail);
    BothNoCalls<W>(x.base, size, nval);
    forall o: Orig<W>, c: Cpu<W> | p.source.fits(o) && Rel(o, c, x.base, x.ls)
      ensures GoodStep(x, p, num, nval, o, c)
    {
      BothStep(x, i, size, count(o), back(o), p, num, nval, o, c);
    }
  }

  lemma BothStep<W(!new)>(x: Env, i: Insn<W>, size: Word, count: nat, back: bool, p: Place<W>, num: nat, nval: nat,
                          o: Orig<W>, c: Cpu<W>)
    requires Leaves(i, StringOps.BOTH, x.base) && StringOps.BaseForStrings(x.base) && size > 0 && nval + 3 < MAX_VALUES
    requires p.op.tracked && R.IsTypeXY(p.op.class_) && p.source.Plain? && p.source.effect == i.effect
    requires p.source.pre == StringOps.NoteBoth(x.base) && p.source.post == StringOps.RecordBoth(x.base, size, nval)
    requires p.source.access(o) == BothRanges(i.effect, o, size) && Rel(o, c, x.base, x.ls)
    requires Steps(i.effect, o, SI, size, count, back) && Steps(i.effect, o, DI, size, count, back)
    ensures GoodStep(x, p, num, nval, o, c)
  {
    hide Run, Rel, StringOps.Touched, StringOps.NoteBoth, StringOps.RecordBoth, StringOps.BaseForStrings, Respects;
    BothNoted(o, c, x.base, x.ls);
    StringOps.RecordsBoth(i.effect, i.mask, o, c, size, count, back, nval, x.base, x.ls);
    CountTold(i.effect, o, SI, size, count, back);
  }

  lemma BothNoted<W>(o: Orig<W>, c: Cpu<W>, base: Reg, ls: Word)
    requires Rel(o, c, base, ls) && StringOps.BaseForStrings(base)
    ensures var r := Run(StringOps.NoteBoth(base), c, ls); r.Some? && r.value.stack == []
  {
    hide Run, StringOps.NoteBoth;
    StringOps.RunNoteBoth(o, c, base, ls);
  }
}
