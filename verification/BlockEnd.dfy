/**
 The code at the end of a common block: it calls the handler and leaves the destination that a
 jump out has stored, if any, in `temp`.
 */
module BlockEnd {
  import opened Basics
  import opened Machine
  import opened ReleaseBase

  // ----------------------------------------------------- the code at the end

  /** kedr_on_common_block_end, as far as the storage is concerned. */
  function Reported(s: Storage): Storage {
    s.(values := seq(MAX_VALUES, _ => 0), writeMask := {}, destAddr := 0)
  }

  ghost predicate Clear(s: Storage) { s.destAddr == 0 && s.values == seq(MAX_VALUES, _ => 0) && s.writeMask == {} }

  /** mk_call_wrapper_with_info for the handler of the block end, which returns `r`. */
  function CallHandler<W>(info: Word, r: Word, base: Reg): seq<Code<W>> {
    [Push(AX), MovImm(info, AX), Store(Info, AX, base)] + [Mov(base, AX), CallWrapper(r, Reported), Pop(AX)]
  }

  /** kedr_handle_block_end up to the conditional jump. */
  function EndCode<W>(info: Word, r: Word, base: Reg): seq<Code<W>> {
    [Pushf, StoreSpill(DX, base), Load(DestAddr, DX, base)] + CallHandler(info, r, base) +
    [Store(Temp, DX, base), Test(DX), LoadSpill(DX, base)]
  }

  lemma RunCallHandler<W>(c: Cpu<W>, info: Word, r: Word, base: Reg, ls: Word)
    requires Reaches(c, base, ls) && base != AX && base != SP
    ensures Run(CallHandler(info, r, base), c, ls) == Some(c.(ls := Reported(c.ls.(info := info))))
  {
    hide Run, Step, Plus;
    var one: seq<Code<W>> := [Push(AX), MovImm(info, AX), Store(Info, AX, base)];
    RunConcat(one, [Mov(base, AX), CallWrapper(r, Reported), Pop(AX)], c, ls);
    HandlerBefore(c, info, base, ls);
    HandlerAfter(c, info, r, base, ls);
  }

  lemma HandlerBefore<W>(c: Cpu<W>, info: Word, base: Reg, ls: Word)
    requires Reaches(c, base, ls) && base != AX && base != SP
    ensures Run([Push(AX), MovImm(info, AX), Store(Info, AX, base)], c, ls) ==
            Some(c.(regs := c.regs[SP := Plus(c.regs[SP], -8)][AX := info], stack := [Value(c.regs[AX])] + c.stack,
                    ls := c.ls.(info := info)))
  {
    hide Run, Plus;
    RunThree(Push(AX), MovImm(info, AX), Store(Info, AX, base), c, ls);
  }

  lemma HandlerAfter<W>(c: Cpu<W>, info: Word, r: Word, base: Reg, ls: Word)
    requires Reaches(c, base, ls) && base != AX && base != SP
    ensures var d := c.(regs := c.regs[SP := Plus(c.regs[SP], -8)][AX := info], stack := [Value(c.regs[AX])] + c.stack,
                        ls := c.ls.(info := info));
            Run([Mov(base, AX), CallWrapper(r, Reported), Pop(AX)], d, ls) ==
            Some(c.(ls := Reported(c.ls.(info := info))))
  {
    hide Run, Plus;
    var d := c.(regs := c.regs[SP := Plus(c.regs[SP], -8)][AX := info], stack := [Value(c.regs[AX])] + c.stack,
                ls := c.ls.(info := info));
    RunThree(Mov(base, AX), CallWrapper(r, Reported), Pop(AX), d, ls);
    PushPopSp(c.regs[SP]);
    var e := Run([Mov(base, AX), CallWrapper(r, Reported), Pop(AX)], d, ls).value;
    assert d.stack[1..] == c.stack;
    assert e.regs == c.regs;
  }

  /** A block without jumps out: the handler, once, and on to the next block. */
  lemma EndWithoutJumps<W>(o: Orig<W>, c: Cpu<W>, info: Word, r: Word, base: Reg, ls: Word)
    requires Rel(o, c, base, ls) && base in NON_SCRATCH
    ensures var e := Run(CallHandler(info, r, base), c, ls);
            e.Some? && Rel(o, e.value, base, ls) && Clear(e.value.ls)
  {
    hide Run, Step;
    RunCallHandler(c, info, r, base, ls);
  }

  lemma RunEndStart<W>(c: Cpu<W>, base: Reg, ls: Word)
    requires Reaches(c, base, ls) && base != DX && base != SP && c.stack == []
    ensures Run([Pushf, StoreSpill(DX, base), Load(DestAddr, DX, base)], c, ls) ==
            Some(c.(regs := c.regs[SP := Plus(c.regs[SP], -8)][DX := c.ls.destAddr], stack := [SavedFlags(c.flags)],
                    ls := c.ls.(spill := c.ls.spill[DX := c.regs[DX]])))
  {
    hide Run, Plus;
    RunThree(Pushf, StoreSpill(DX, base), Load(DestAddr, DX, base), c, ls);
    assert [SavedFlags(c.flags)] + [] == [SavedFlags(c.flags)];
  }

  lemma RunEndTest<W>(d: Cpu<W>, base: Reg, ls: Word)
    requires Reaches(d, base, ls) && base != DX
    ensures Run([Store(Temp, DX, base), Test(DX), LoadSpill(DX, base)], d, ls) ==
            Some(d.(regs := d.regs[DX := d.ls.spill[DX]], ls := d.ls.(temp := d.regs[DX]),
                    flags := Arith(d.regs[DX], false)))
  {
    hide Run;
    RunThree(Store(Temp, DX, base), Test(DX), LoadSpill(DX, base), d, ls);
  }

  /**
   The whole end: after the last POPF everything is as before, the storage is clear, and the
   place to go, `temp`, is what the jump out left, or 0; the conditional jump tells the two apart.
   */
  lemma RunEnd<W>(o: Orig<W>, c: Cpu<W>, info: Word, r: Word, base: Reg, ls: Word)
    requires Rel(o, c, base, ls) && base in NON_SCRATCH
    ensures var e := Run(EndCode(info, r, base), c, ls);
            && e.Some? && e.value.flags.zf == (c.ls.destAddr == 0)
            && var f := Run([Popf], e.value, ls);
               f.Some? && Rel(o, f.value, base, ls) && Clear(f.value.ls) && f.value.ls.temp == c.ls.destAddr
  {
    hide Run, Step, Plus;
    var one: seq<Code<W>> := [Pushf, StoreSpill(DX, base), Load(DestAddr, DX, base)];
    var two: seq<Code<W>> := CallHandler(info, r, base);
    var three: seq<Code<W>> := [Store(Temp, DX, base), Test(DX), LoadSpill(DX, base)];
    assert EndCode(info, r, base) == one + two + three;
    RunEndStart(c, base, ls);
    var c1 := Run(one, c, ls).value;
    RunConcat(one, two, c, ls);
    RunCallHandler(c1, info, r, base, ls);
    var c2 := Run(two, c1, ls).value;
    RunConcat(one + two, three, c, ls);
    RunEndTest(c2, base, ls);
    var c3 := Run(three, c2, ls).value;
    RunOne(Popf, c3, ls);
    PopFlags(c3, c.flags, ls);
    PushPopSp(c.regs[SP]);
    assert c3.regs[SP := Plus(c3.regs[SP], 8)] == c.regs;
  }

  lemma PopFlags<W>(c: Cpu<W>, f: Flags, ls: Word)
    requires c.stack == [SavedFlags(f)]
    ensures Step(Popf, c, ls) == Some(MoveSp(c, 8, []).(flags := f))
  {
    assert c.stack[1..] == [];
  }

  lemma SameFlags<W>(o: Orig<W>, c: Cpu<W>, base: Reg, ls: Word)
    requires Rel(o, c, base, ls)
    ensures o.flags == c.flags
  {
  }
}
