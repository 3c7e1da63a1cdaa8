/**
 Phase 2, recording of memory accesses: the code added around an instruction leaves the address
 (and, for string operations, the length) of what the instruction accesses in its slots of the
 local storage and changes nothing else that the function can see.
 */
module RecordAccess {
  import opened Basics
  import opened Machine
  import opened ReleaseBase

  /** The correspondence, and the storage outside spill slots and `values` untouched. */
  ghost predicate Keeps<W>(o: Orig<W>, c: Cpu<W>, c': Cpu<W>, values: Values, base: Reg, ls: Word) {
    && Rel(o, c', base, ls) && c'.ls.values == values
    && c'.ls.writeMask == c.ls.writeMask && c'.ls.destAddr == c.ls.destAddr
  }

  // ------------------------------------------------- addressing method E and M

  /** mk_record_access_common */
  function RecordCommon<W>(e: Expr<W>, base: Reg, w: Reg, n: nat): seq<Code<W>> {
    if base in e.mask then Save(w, base) + [Lea(e, base), Xchg(base, w), Store(Slot(n), w, base), LoadSpill(w, base)]
    else [StoreSpill(w, base), Lea(e, w), Store(Slot(n), w, base), LoadSpill(w, base)]
  }

  lemma RecordWithoutBase<W(!new)>(e: Expr<W>, o: Orig<W>, c: Cpu<W>, w: Reg, n: nat, base: Reg, ls: Word)
    requires GoodExpr(e) && base !in e.mask && Rel(o, c, base, ls) && w != base && w !in e.mask && n < MAX_VALUES
    ensures var r := Run(RecordCommon(e, base, w, n), c, ls);
            r.Some? && Keeps(o, c, r.value, c.ls.values[n := e.address(o.regs)], base, ls)
  {
    hide Run;
    assert Agree(o.regs, c.regs, e.mask);
    RunFour(StoreSpill(w, base), Lea(e, w), Store(Slot(n), w, base), LoadSpill(w, base), c, ls);
  }

  lemma RecordWithBase<W(!new)>(e: Expr<W>, o: Orig<W>, c: Cpu<W>, w: Reg, n: nat, base: Reg, ls: Word)
    requires GoodExpr(e) && base in e.mask && Rel(o, c, base, ls) && w != base && w !in e.mask && n < MAX_VALUES
    ensures var r := Run(RecordCommon(e, base, w, n), c, ls);
            r.Some? && Keeps(o, c, r.value, c.ls.values[n := e.address(o.regs)], base, ls)
  {
    hide Run;
    RunSave(c, w, base, ls);
    var c1 := Run(Save(w, base), c, ls).value;
    RunConcat(Save(w, base), [Lea(e, base), Xchg(base, w), Store(Slot(n), w, base), LoadSpill(w, base)], c, ls);
    assert Agree(o.regs, c1.regs, e.mask);
    RunFour(Lea(e, base), Xchg(base, w), Store(Slot(n), w, base), LoadSpill(w, base), c1, ls);
  }

  /** kedr_handle_type_e_and_m: the address the original would compute, whether or not %base is in it. */
  lemma RecordsAddress<W(!new)>(e: Expr<W>, o: Orig<W>, c: Cpu<W>, w: Reg, n: nat, base: Reg, ls: Word)
    requires GoodExpr(e) && Rel(o, c, base, ls) && w != base && w !in e.mask && n < MAX_VALUES
    ensures var r := Run(RecordCommon(e, base, w, n), c, ls);
            r.Some? && Keeps(o, c, r.value, c.ls.values[n := e.address(o.regs)], base, ls)
  {
    hide Run, Step;
    if base in e.mask {
      RecordWithBase(e, o, c, w, n, base, ls);
    } else {
      RecordWithoutBase(e, o, c, w, n, base, ls);
    }
  }

  /** kedr_handle_setcc_cmovcc: recorded if and only if the condition `cc` of the instruction holds. */
  lemma RecordsIfCondition<W(!new)>(cc: Flags -> bool, e: Expr<W>, o: Orig<W>, c: Cpu<W>, w: Reg, n: nat, base: Reg,
                                    ls: Word)
    requires GoodExpr(e) && Rel(o, c, base, ls) && w != base && w !in e.mask && n < MAX_VALUES
    ensures var not: Flags -> bool := (f: Flags) => !cc(f);
            var r := Run([SkipIf(not, RecordCommon(e, base, w, n))], c, ls);
            r.Some? && Keeps(o, c, r.value, if cc(o.flags) then c.ls.values[n := e.address(o.regs)] else c.ls.values,
                             base, ls)
  {
    hide Run, Step, RecordCommon;
    var not: Flags -> bool := (f: Flags) => !cc(f);
    SkippedOr(not, RecordCommon(e, base, w, n), c, ls);
    RecordsAddress(e, o, c, w, n, base, ls);
  }

  // ------------------------------------------------------------------ CMPXCHG*

  function NotZero(f: Flags): bool { !f.zf }

  /** The part of handle_cmpxchg_impl after the instruction. */
  function NoteWrite<W>(num: nat, base: Reg): seq<Code<W>> { [SkipIf(NotZero, [Pushf, OrWriteMask(num, base), Popf])] }

  /** The write bit of the operation is set exactly if the exchange took place (ZF), flags kept. */
  lemma NotesWrite<W>(o: Orig<W>, c: Cpu<W>, num: nat, base: Reg, ls: Word)
    requires Rel(o, c, base, ls) && base != SP
    ensures var r := Run(NoteWrite(num, base), c, ls);
            && r.Some? && Rel(o, r.value, base, ls) && r.value.ls.values == c.ls.values &&
               r.value.ls.destAddr == c.ls.destAddr
            && r.value.ls.writeMask == c.ls.writeMask + if o.flags.zf then {num} else {}
  {
    hide Run, Step;
    SkippedOr(NotZero, [Pushf, OrWriteMask(num, base), Popf], c, ls);
    RunOrMask(c, num, base, ls);
  }

  lemma SkippedOr<W>(cond: Flags -> bool, body: seq<Code<W>>, c: Cpu<W>, ls: Word)
    ensures Run([SkipIf(cond, body)], c, ls) == if cond(c.flags) then Some(c) else Run(body, c, ls)
  {
    hide Run;
    RunOne(SkipIf(cond, body), c, ls);
  }

  lemma RunOrMask<W>(c: Cpu<W>, num: nat, base: Reg, ls: Word)
    requires Reaches(c, base, ls) && base != SP
    ensures Run([Pushf, OrWriteMask(num, base), Popf], c, ls) ==
            Some(c.(ls := c.ls.(writeMask := c.ls.writeMask + {num})))
  {
    hide Run, Plus;
    RunThree(Pushf, OrWriteMask(num, base), Popf, c, ls);
    PushPopSp(c.regs[SP]);
    var r := Run([Pushf, OrWriteMask(num, base), Popf], c, ls).value;
    assert ([SavedFlags(c.flags)] + c.stack)[1..] == c.stack;
    assert r.regs == c.regs;
  }

  // -------------------------------------------------------- XLAT, offset MOV

  /** kedr_handle_xlat */
  function RecordXlat<W>(base: Reg, n: nat): seq<Code<W>> {
    [StoreSpill(AX, base), ZeroExtendByte(AX), Pushf] +
    [if base == BX then AddSpill(BX, AX, base) else Add(BX, AX), Popf] +
    [Store(Slot(n), AX, base), LoadSpill(AX, base)]
  }

  lemma XlatStart<W>(c: Cpu<W>, base: Reg, ls: Word)
    requires Reaches(c, base, ls) && base != AX && base != SP && c.stack == []
    ensures Run([StoreSpill(AX, base), ZeroExtendByte(AX), Pushf], c, ls) ==
            Some(c.(regs := c.regs[AX := c.regs[AX] % 0x100][SP := Plus(c.regs[SP], -8)],
                    stack := [SavedFlags(c.flags)],
                    ls := c.ls.(spill := c.ls.spill[AX := c.regs[AX]])))
  {
    hide Run, Plus;
    RunThree(StoreSpill(AX, base), ZeroExtendByte(AX), Pushf, c, ls);
    assert [SavedFlags(c.flags)] + [] == [SavedFlags(c.flags)];
  }

  lemma XlatAdd<W>(c: Cpu<W>, f: Flags, base: Reg, ls: Word)
    requires Reaches(c, base, ls) && base != AX && base != SP && c.stack == [SavedFlags(f)]
    ensures var add := if base == BX then AddSpill(BX, AX, base) else Add(BX, AX);
            var bx := if base == BX then c.ls.spill[BX] else c.regs[BX];
            Run([add, Popf], c, ls) ==
            Some(c.(regs := c.regs[AX := Plus(c.regs[AX], bx)][SP := Plus(c.regs[SP], 8)], stack := [], flags := f))
  {
    hide Run, Plus;
    var add: Code<W> := if base == BX then AddSpill(BX, AX, base) else Add(BX, AX);
    RunTwo(add, Popf, c, ls);
    assert c.stack[1..] == [];
  }

  /** The byte at original %rbx plus zero-extended original %al. */
  lemma RecordsXlat<W>(o: Orig<W>, c: Cpu<W>, n: nat, base: Reg, ls: Word)
    requires Rel(o, c, base, ls) && base in NON_SCRATCH && n < MAX_VALUES
    ensures var r := Run(RecordXlat(base, n), c, ls);
            r.Some? && Keeps(o, c, r.value, c.ls.values[n := Plus(o.regs[AX] % 0x100, o.regs[BX])], base, ls)
  {
    hide Run, Step, Plus;
    var one: seq<Code<W>> := [StoreSpill(AX, base), ZeroExtendByte(AX), Pushf];
    var two: seq<Code<W>> := [if base == BX then AddSpill(BX, AX, base) else Add(BX, AX), Popf];
    var three: seq<Code<W>> := [Store(Slot(n), AX, base), LoadSpill(AX, base)];
    XlatStart(c, base, ls);
    var c1 := Run(one, c, ls).value;
    RunConcat(one, two, c, ls);
    XlatAdd(c1, c.flags, base, ls);
    var c2 := Run(two, c1, ls).value;
    RunConcat(one + two, three, c, ls);
    PushPopSp(c.regs[SP]);
    StoreAndReload(c2, AX, n, base, ls);
    assert BX in ALL && AX in ALL - {base};
  }

  lemma StoreAndReload<W>(c: Cpu<W>, w: Reg, n: nat, base: Reg, ls: Word)
    requires Reaches(c, base, ls) && n < MAX_VALUES
    ensures Run([Store(Slot(n), w, base), LoadSpill(w, base)], c, ls) ==
            Some(c.(regs := c.regs[w := c.ls.spill[w]], ls := c.ls.(values := c.ls.values[n := c.regs[w]])))
  {
    hide Run;
    RunTwo(Store(Slot(n), w, base), LoadSpill(w, base), c, ls);
  }

  /** kedr_handle_direct_offset_mov */
  lemma RecordsOffset<W>(addr: Word, o: Orig<W>, c: Cpu<W>, n: nat, base: Reg, ls: Word)
    requires Rel(o, c, base, ls) && base in NON_SCRATCH && n < MAX_VALUES
    ensures var r := Run([Push(AX), MovImm(addr, AX), Store(Slot(n), AX, base), Pop(AX)], c, ls);
            r.Some? && Keeps(o, c, r.value, c.ls.values[n := addr], base, ls)
  {
    hide Run, Plus;
    var d := c.(regs := c.regs[SP := Plus(c.regs[SP], -8)][AX := addr], stack := [Value(c.regs[AX])]);
    RunTwo(Push(AX), MovImm(addr, AX), c, ls);
    assert [Value(c.regs[AX])] + c.stack == [Value(c.regs[AX])];
    assert Run([Push(AX), MovImm(addr, AX)], c, ls) == Some(d);
    var one: seq<Code<W>>, two: seq<Code<W>> := [Push(AX), MovImm(addr, AX)], [Store(Slot(n), AX, base), Pop(AX)];
    RunConcat(one, two, c, ls);
    assert one + two == [Push(AX), MovImm(addr, AX), Store(Slot(n), AX, base), Pop(AX)];
    RunStorePop(c, d, addr, n, base, ls);
  }

  lemma RunStorePop<W>(c: Cpu<W>, d: Cpu<W>, addr: Word, n: nat, base: Reg, ls: Word)
    requires Reaches(c, base, ls) && base != AX && base != SP && n < MAX_VALUES
    requires d == c.(regs := c.regs[SP := Plus(c.regs[SP], -8)][AX := addr], stack := [Value(c.regs[AX])])
    ensures Run([Store(Slot(n), AX, base), Pop(AX)], d, ls) ==
            Some(c.(stack := [], ls := c.ls.(values := c.ls.values[n := addr])))
  {
    hide Run, Plus;
    RunTwo(Store(Slot(n), AX, base), Pop(AX), d, ls);
    PushPopSp(c.regs[SP]);
    var r := Run([Store(Slot(n), AX, base), Pop(AX)], d, ls).value;
    assert d.stack[1..] == [];
    assert r.regs == c.regs;
  }
}
