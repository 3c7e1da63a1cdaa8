/**
 Recording the memory that (repeated) string instructions access: X (%rsi), Y (%rdi) and XY.
 What is recorded is exactly the range of bytes touched, in either direction.
 */
module StringOps {
  import opened Basics
  import opened Machine
  import opened ReleaseBase
  import opened RecordAccess

  // -------------------------------------------------------- what was touched

  /** Byte `a` belongs to one of `n` elements of `size` bytes, from `k` upwards or downwards. */
  ghost predicate Touched(k: int, size: nat, n: nat, back: bool, a: int) {
    exists j: nat :: j < n && Element(k, size, j, back) <= a < Element(k, size, j, back) + size
  }

  ghost function Element(k: int, size: nat, j: nat, back: bool): int { if back then k - j * size else k + j * size }

  /** Where the repeated instruction leaves the register. */
  ghost function Past(k: int, size: nat, n: nat, back: bool): int { if back then k - n * size else k + n * size }

  /** Start and length recorded for a register that went from `k` to `k'`. */
  ghost function StartOf(k: int, k': int, size: nat): int { if k' > k then k else k' + size }

  ghost function LengthOf(k: int, k': int): int { if k' > k then k' - k else k - k' }

  /** The recorded range is exactly what was touched. */
  lemma RangeIsTouched(k: int, size: nat, n: nat, back: bool, a: int)
    requires size > 0 && n > 0
    ensures var k' := Past(k, size, n, back);
            k' != k && (StartOf(k, k', size) <= a < StartOf(k, k', size) + LengthOf(k, k') <==>
                        Touched(k, size, n, back, a))
  {
    ElementInside(size, 0, n);
    if Touched(k, size, n, back, a) {
      var j: nat :| j < n && Element(k, size, j, back) <= a < Element(k, size, j, back) + size;
      ElementInside(size, j, n);
      assert j * size >= 0;
    }
    hide Touched;
    var len := n * size;
    if back {
      if k - len + size <= a < k + size {
        BelongsTo(k, size, n, true, a, k - a + size - 1);
      }
    } else {
      if k <= a < k + len {
        BelongsTo(k, size, n, false, a, a - k);
      }
    }
  }

  /** The element that byte `a`, at distance `x`, belongs to. */
  lemma BelongsTo(k: int, size: nat, n: nat, back: bool, a: int, x: int)
    requires size > 0 && 0 <= x < n * size && x == if back then k - a + size - 1 else a - k
    ensures Touched(k, size, n, back, a)
  {
    Division(x, size, n);
    var j := x / size;
    assert Element(k, size, j, back) <= a < Element(k, size, j, back) + size;
  }

  lemma ElementInside(size: nat, j: nat, n: nat)
    requires j < n
    ensures j * size + size <= n * size
  {
    assert (n - j - 1) * size >= 0;
  }

  lemma Division(x: int, size: nat, n: nat)
    requires size > 0 && 0 <= x < n * size
    ensures 0 <= x / size < n && x / size * size <= x < x / size * size + size
  {
    assert x == x / size * size + x % size;
    if x / size >= n {
      ElementInside(size, n - 1, x / size);
    }
  }

  // ------------------------------------------------------------- type X and Y

  function Zero(f: Flags): bool { f.zf }

  function Above(f: Flags): bool { !f.cf && !f.zf }

  /** Before the instruction. */
  function NoteKey<W>(key: Reg, base: Reg, w: Reg): seq<Code<W>> { [StoreSpill(w, base), Mov(key, w)] }

  function Measure<W>(key: Reg, base: Reg, w: Reg, t: Reg): seq<Code<W>> {
    [StoreSpill(t, base), Pushf, Mov(key, t), Sub(w, t)]
  }

  function Backwards<W>(key: Reg, w: Reg, t: Reg, size: Word): seq<Code<W>> { [Mov(key, w), AddImm(size, w), Neg(t)] }

  function RecordRange<W>(key: Reg, base: Reg, w: Reg, t: Reg, size: Word, n: nat): seq<Code<W>> {
    [SkipIf(Above, Backwards(key, w, t, size)), Store(Slot(n), w, base), Store(Slot(n + 1), t, base)]
  }

  function PutBack<W>(base: Reg, w: Reg, t: Reg): seq<Code<W>> { [Popf, LoadSpill(t, base), LoadSpill(w, base)] }

  /** After the instruction. */
  function RecordKey<W>(key: Reg, base: Reg, w: Reg, t: Reg, size: Word, n: nat): seq<Code<W>> {
    Measure(key, base, w, t) + [SkipIf(Zero, RecordRange(key, base, w, t, size, n))] + PutBack(base, w, t)
  }

  ghost predicate Distinct(key: Reg, base: Reg, w: Reg, t: Reg) {
    && base in NON_SCRATCH && base != SP && w != base && w != SP && w != key && t != base && t != SP && t != key &&
       t != w && key != base && key != SP
  }

  /** The registers in `used` are in use, their own values in their slots. */
  ghost predicate Noted<W>(o: Orig<W>, c: Cpu<W>, used: set<Reg>, base: Reg, ls: Word) {
    && c.ls.alive && c.regs[base] == ls && c.ls.spill[base] == o.regs[base]
    && Agree(o.regs, c.ls.spill, used) && Agree(o.regs, c.regs, ALL - used - {base})
    && c.flags == o.flags && c.world == o.world && c.stack == []
  }

  /** The same with the flags pushed. */
  ghost predicate Measuring<W>(o: Orig<W>, c: Cpu<W>, used: set<Reg>, base: Reg, ls: Word) {
    && c.ls.alive && c.regs[base] == ls && c.ls.spill[base] == o.regs[base]
    && Agree(o.regs, c.ls.spill, used) && Agree(o.regs, c.regs, ALL - used - {base, SP})
    && c.regs[SP] == Plus(o.regs[SP], -8) && c.world == o.world && c.stack == [SavedFlags(o.flags)]
  }

  ghost predicate SameRest(a: Storage, b: Storage) { a.writeMask == b.writeMask && a.destAddr == b.destAddr }

  lemma RunNoteKey<W>(o: Orig<W>, c: Cpu<W>, key: Reg, w: Reg, base: Reg, ls: Word)
    requires Rel(o, c, base, ls) && w != base && key != base && key != w
    ensures var r := Run(NoteKey(key, base, w), c, ls);
            && r.Some? && Noted(o, r.value, {w}, base, ls) && r.value.regs[w] == o.regs[key]
            && r.value.ls.values == c.ls.values && SameRest(r.value.ls, c.ls)
  {
    hide Run;
    RunTwo(StoreSpill(w, base), Mov(key, w), c, ls);
    assert key in ALL - {base};
  }

  /** The instruction itself: it uses neither `w` nor the base register. */
  lemma ThroughInsn<W(!new)>(effect: Orig<W> -> Orig<W>, mask: set<Reg>, o: Orig<W>, c: Cpu<W>, used: set<Reg>,
                             base: Reg, ls: Word)
    requires Respects(effect, mask) && used !! mask && base !in mask && base !in used && Noted(o, c, used, base, ls)
    ensures var c' := WithOrig(c, effect(AsOrig(c)));
            Noted(effect(o), c', used, base, ls) && Agree(c'.regs, c.regs, used)
  {
    assert AgreeOrig(o, AsOrig(c), mask);
    var o', o1 := effect(o), effect(AsOrig(c));
    assert AgreeOrig(o', o1, mask);
    assert Agree(o'.regs, o.regs, ALL - mask) && Agree(o1.regs, c.regs, ALL - mask);
    assert used <= ALL - mask && base in ALL - mask;
  }

  lemma RunMeasure<W>(o: Orig<W>, c: Cpu<W>, used: set<Reg>, key: Reg, w: Reg, t: Reg, base: Reg, ls: Word)
    requires Noted(o, c, used, base, ls) && Distinct(key, base, w, t) && w in used && {t, key, SP, base} !! used
    ensures var k := c.regs[w];
            var r := Run(Measure(key, base, w, t), c, ls);
            && r.Some? && Measuring(o, r.value, used + {t}, base, ls) && Agree(r.value.regs, c.regs, used)
            && r.value.regs[t] == Minus(o.regs[key], k) &&
               r.value.flags == Arith(Minus(o.regs[key], k), o.regs[key] < k)
            && r.value.ls.values == c.ls.values && SameRest(r.value.ls, c.ls)
  {
    hide Run, Plus, Minus, NON_SCRATCH;
    RunFour(StoreSpill(t, base), Pushf, Mov(key, t), Sub(w, t), c, ls);
    assert {key, t, SP} <= ALL - used - {base};
    assert [SavedFlags(c.flags)] + c.stack == [SavedFlags(c.flags)];
  }

  lemma RunBackwards<W>(o: Orig<W>, c: Cpu<W>, key: Reg, w: Reg, t: Reg, size: Word, base: Reg, ls: Word)
    requires Measuring(o, c, {w, t}, base, ls) && Distinct(key, base, w, t)
    ensures var r := Run(Backwards(key, w, t, size), c, ls);
            && r.Some? && Measuring(o, r.value, {w, t}, base, ls)
            && r.value.regs[w] == Plus(o.regs[key], size) && r.value.regs[t] == Minus(0, c.regs[t]) &&
               r.value.ls == c.ls
  {
    hide Run, Plus, Minus, NON_SCRATCH;
    RunThree(Mov(key, w), AddImm(size, w), Neg(t), c, ls);
    assert key in ALL - {w, t} - {base, SP};
  }

  lemma RunStores<W>(o: Orig<W>, c: Cpu<W>, w: Reg, t: Reg, n: nat, base: Reg, ls: Word)
    requires Measuring(o, c, {w, t}, base, ls) && n + 1 < MAX_VALUES
    ensures Run([Store(Slot(n), w, base), Store(Slot(n + 1), t, base)], c, ls) ==
            Some(c.(ls := c.ls.(values := c.ls.values[n := c.regs[w]][n + 1 := c.regs[t]])))
  {
    hide Run, Plus;
    RunTwo(Store(Slot(n), w, base), Store(Slot(n + 1), t, base), c, ls);
  }

  /** Start and length of what was processed go to the two slots. */
  lemma RunRecordRange<W>(o: Orig<W>, c: Cpu<W>, key: Reg, w: Reg, t: Reg, k: Word, size: Word, n: nat, base: Reg,
                          ls: Word)
    requires Measuring(o, c, {w, t}, base, ls) && Distinct(key, base, w, t) && n + 1 < MAX_VALUES
    requires c.regs[w] == k && c.regs[t] == Minus(o.regs[key], k) &&
             c.flags == Arith(Minus(o.regs[key], k), o.regs[key] < k)
    requires o.regs[key] != k && (o.regs[key] < k ==> o.regs[key] + size < TWO64)
    ensures var r := Run(RecordRange(key, base, w, t, size, n), c, ls);
            && r.Some? && Measuring(o, r.value, {w, t}, base, ls) && SameRest(r.value.ls, c.ls)
            && r.value.ls.values == c.ls.values[n := StartOf(k, o.regs[key], size)][n + 1 := LengthOf(k, o.regs[key])]
  {
    hide Run, Step, Plus, Minus, NON_SCRATCH;
    var k' := o.regs[key];
    MinusNoWrap(k', k, size);
    var skip: seq<Code<W>> := [SkipIf(Above, Backwards(key, w, t, size))];
    var stores: seq<Code<W>> := [Store(Slot(n), w, base), Store(Slot(n + 1), t, base)];
    assert RecordRange(key, base, w, t, size, n) == skip + stores;
    RunConcat(skip, stores, c, ls);
    SkippedOr(Above, Backwards(key, w, t, size), c, ls);
    if k' < k {
      RunBackwards(o, c, key, w, t, size, base, ls);
    }
    var c1 := Run(skip, c, ls).value;
    RunStores(o, c1, w, t, n, base, ls);
  }

  lemma MinusNoWrap(k': Word, k: Word, size: Word)
    ensures k' > k ==> Minus(k', k) == k' - k && Minus(k', k) != 0
    ensures k' == k ==> Minus(k', k) == 0
    ensures k' < k ==> Minus(k', k) == k' - k + TWO64 && Minus(k', k) != 0 && Minus(0, Minus(k', k)) == k - k'
    ensures k' + size < TWO64 ==> Plus(k', size) == k' + size
  {
  }

  lemma RunPutBack<W>(o: Orig<W>, c: Cpu<W>, w: Reg, t: Reg, base: Reg, ls: Word)
    requires Measuring(o, c, {w, t}, base, ls) && w != base && w != SP && t != base && t != SP && t != w && base != SP
    ensures var r := Run(PutBack(base, w, t), c, ls); r.Some? && Keeps(o, c, r.value, c.ls.values, base, ls)
  {
    hide Run, Plus;
    RunThree(Popf, LoadSpill(t, base), LoadSpill(w, base), c, ls);
    PushPopSp(o.regs[SP]);
    assert c.stack[1..] == [];
  }

  /**
   handle_type_x_and_y_impl around an instruction that moves `key` over `n` elements: the range
   touched is recorded, a zero count records nothing, registers and flags are as the original's.
   */
  lemma RecordsRange<W(!new)>(effect: Orig<W> -> Orig<W>, mask: set<Reg>, o: Orig<W>, c: Cpu<W>, key: Reg, w: Reg,
                              t: Reg,
                              size: Word, count: nat, back: bool, n: nat, base: Reg, ls: Word)
    requires Respects(effect, mask) && w !in mask && base !in mask && Distinct(key, base, w, t) && n + 1 < MAX_VALUES
    requires Rel(o, c, base, ls) && size > 0
    requires effect(o).regs[key] == Past(o.regs[key], size, count, back)  // no wrap-around
    ensures var c1 := Run(NoteKey(key, base, w), c, ls);
            && c1.Some?
            && var o' := effect(o);
               var c2 := WithOrig(c1.value, effect(AsOrig(c1.value)));
               var r := Run(RecordKey(key, base, w, t, size, n), c2, ls);
               && r.Some?
               && (count == 0 ==> Keeps(o', c, r.value, c.ls.values, base, ls))
               && (count > 0 ==>
                 var start, len := StartOf(o.regs[key], o'.regs[key], size), LengthOf(o.regs[key], o'.regs[key]);
                 && 0 <= start < TWO64 && 0 <= len < TWO64
                 && Keeps(o', c, r.value, c.ls.values[n := start][n + 1 := len], base, ls)
                 && forall a :: start <= a < start + len <==> Touched(o.regs[key], size, count, back, a))
  {
    hide Run, Step, Plus, Minus, NON_SCRATCH, Touched, Respects, Measuring, Noted, Rel;
    var k, o' := o.regs[key], effect(o);
    RunNoteKey(o, c, key, w, base, ls);
    var c1 := Run(NoteKey(key, base, w), c, ls).value;
    ThroughInsn(effect, mask, o, c1, {w}, base, ls);
    assert w in {w};
    var c2 := WithOrig(c1, effect(AsOrig(c1)));
    if count > 0 {
      StaysInRange(k, o'.regs[key], size, count, back);
    }
    RunRecordKey(o', c2, key, w, t, k, size, n, base, ls);
    if count > 0 {
      forall a
        ensures StartOf(k, o'.regs[key], size) <= a < StartOf(k, o'.regs[key], size) + LengthOf(k, o'.regs[key]) <==>
                Touched(k, size, count, back, a)
      {
        RangeIsTouched(k, size, count, back, a);
      }
      RangeIsTouched(k, size, count, back, 0);
    }
  }

  lemma StaysInRange(k: Word, k': Word, size: Word, n: nat, back: bool)
    requires size > 0 && n > 0 && k' == Past(k, size, n, back)
    ensures 0 <= StartOf(k, k', size) < TWO64 && 0 <= LengthOf(k, k') < TWO64
    ensures k' < k ==> k' + size < TWO64
  {
    ElementInside(size, 0, n);
  }

  lemma RunRecordKey<W>(o: Orig<W>, c: Cpu<W>, key: Reg, w: Reg, t: Reg, k: Word, size: Word, n: nat, base: Reg,
                        ls: Word)
    requires Noted(o, c, {w}, base, ls) && c.regs[w] == k && Distinct(key, base, w, t) && n + 1 < MAX_VALUES
    requires o.regs[key] + size < TWO64 || o.regs[key] >= k
    ensures var r := Run(RecordKey(key, base, w, t, size, n), c, ls);
            && r.Some?
            && (o.regs[key] == k ==> Keeps(o, c, r.value, c.ls.values, base, ls))
            && (o.regs[key] != k ==>
                 Keeps(o, c, r.value,
                       c.ls.values[n := StartOf(k, o.regs[key], size)][n + 1 := LengthOf(k, o.regs[key])], base, ls))
  {
    hide Run, Step, Plus, Minus, NON_SCRATCH, Measuring, Noted, Rel;
    var one := Measure(key, base, w, t);
    var two := [SkipIf(Zero, RecordRange(key, base, w, t, size, n))];
    RunMeasure(o, c, {w}, key, w, t, base, ls);
    assert {w} + {t} == {w, t} && w in {w};
    var c1 := Run(one, c, ls).value;
    RunConcat(one, two, c, ls);
    SkippedOr(Zero, RecordRange(key, base, w, t, size, n), c1, ls);
    MinusNoWrap(o.regs[key], k, size);
    if o.regs[key] != k {
      RunRecordRange(o, c1, key, w, t, k, size, n, base, ls);
    }
    var c2 := Run(two, c1, ls).value;
    RunConcat(one + two, PutBack(base, w, t), c, ls);
    RunPutBack(o, c2, w, t, base, ls);
  }

  // ----------------------------------------------------------------- type XY

  function NoteBoth<W>(base: Reg): seq<Code<W>> {
    [StoreSpill(AX, base), StoreSpill(DX, base), Mov(SI, AX), Mov(DI, DX)]
  }

  function BothBackwards<W>(size: Word): seq<Code<W>> {
    [Mov(SI, AX), AddImm(size, AX), Mov(DI, DX), AddImm(size, DX)] + [Neg(CX)]
  }

  function StoreBoth<W>(base: Reg, n: nat): seq<Code<W>> {
    [Store(Slot(n), AX, base), Store(Slot(n + 1), CX, base), Store(Slot(n + 2), DX, base), Store(Slot(n + 3), CX, base)]
  }

  function RecordBothRanges<W>(base: Reg, size: Word, n: nat): seq<Code<W>> {
    [SkipIf(Above, BothBackwards(size))] + StoreBoth(base, n)
  }

  function PutBackBoth<W>(base: Reg): seq<Code<W>> {
    [Popf, LoadSpill(CX, base), LoadSpill(DX, base), LoadSpill(AX, base)]
  }

  function RecordBoth<W>(base: Reg, size: Word, n: nat): seq<Code<W>> {
    Measure(SI, base, AX, CX) + [SkipIf(Zero, RecordBothRanges(base, size, n))] + PutBackBoth(base)
  }

  const BOTH: set<Reg> := {AX, DX}
  const THREE: set<Reg> := {AX, DX, CX}

  ghost predicate BaseForStrings(base: Reg) {
    base in NON_SCRATCH && base != AX && base != DX && base != CX && base != SI && base != DI && base != SP
  }

  lemma RunNoteBoth<W>(o: Orig<W>, c: Cpu<W>, base: Reg, ls: Word)
    requires Rel(o, c, base, ls) && BaseForStrings(base)
    ensures var r := Run(NoteBoth(base), c, ls);
            && r.Some? && Noted(o, r.value, BOTH, base, ls) && r.value.regs[AX] == o.regs[SI] &&
               r.value.regs[DX] == o.regs[DI]
            && r.value.ls.values == c.ls.values && SameRest(r.value.ls, c.ls)
  {
    hide Run, NON_SCRATCH;
    RunFour(StoreSpill(AX, base), StoreSpill(DX, base), Mov(SI, AX), Mov(DI, DX), c, ls);
    assert {AX, DX, SI, DI} <= ALL - {base};
  }

  lemma RunBothBackwards<W>(o: Orig<W>, c: Cpu<W>, size: Word, base: Reg, ls: Word)
    requires Measuring(o, c, THREE, base, ls) && BaseForStrings(base)
    ensures var r := Run(BothBackwards(size), c, ls);
            && r.Some? && Measuring(o, r.value, THREE, base, ls) && r.value.ls == c.ls
            && r.value.regs[AX] == Plus(o.regs[SI], size) && r.value.regs[DX] == Plus(o.regs[DI], size)
            && r.value.regs[CX] == Minus(0, c.regs[CX])
  {
    hide Run, Plus, Minus, NON_SCRATCH;
    assert {SI, DI} <= ALL - THREE - {base, SP};
    var four: seq<Code<W>> := [Mov(SI, AX), AddImm(size, AX), Mov(DI, DX), AddImm(size, DX)];
    RunFour(Mov(SI, AX), AddImm(size, AX), Mov(DI, DX), AddImm(size, DX), c, ls);
    RunSnoc(four, Neg(CX), c, ls);
  }

  lemma RunStoreBoth<W>(o: Orig<W>, c: Cpu<W>, n: nat, base: Reg, ls: Word)
    requires Measuring(o, c, THREE, base, ls) && n + 3 < MAX_VALUES
    ensures var v := c.ls.values[n := c.regs[AX]][n + 1 := c.regs[CX]][n + 2 := c.regs[DX]][n + 3 := c.regs[CX]];
            Run(StoreBoth(base, n), c, ls) == Some(c.(ls := c.ls.(values := v)))
  {
    hide Run, Plus;
    RunFour(Store(Slot(n), AX, base), Store(Slot(n + 1), CX, base), Store(Slot(n + 2), DX, base),
            Store(Slot(n + 3), CX, base), c, ls);
  }

  lemma RunPutBackBoth<W>(o: Orig<W>, c: Cpu<W>, base: Reg, ls: Word)
    requires Measuring(o, c, THREE, base, ls) && BaseForStrings(base)
    ensures var r := Run(PutBackBoth(base), c, ls); r.Some? && Keeps(o, c, r.value, c.ls.values, base, ls)
  {
    hide Run, Plus, NON_SCRATCH;
    RunFour(Popf, LoadSpill(CX, base), LoadSpill(DX, base), LoadSpill(AX, base), c, ls);
    PushPopSp(o.regs[SP]);
    assert c.stack[1..] == [];
  }

  /** Both ranges, from the old positions in %rax and %rdx and the length in %rcx. */
  lemma RunBothRanges<W>(o: Orig<W>, c: Cpu<W>, x: Word, y: Word, size: Word, n: nat, base: Reg, ls: Word)
    requires Measuring(o, c, THREE, base, ls) && BaseForStrings(base) && n + 3 < MAX_VALUES
    requires c.regs[AX] == x && c.regs[DX] == y && c.regs[CX] == Minus(o.regs[SI], x)
    requires c.flags == Arith(Minus(o.regs[SI], x), o.regs[SI] < x) && o.regs[SI] != x
    requires (o.regs[SI] as int) - x == (o.regs[DI] as int) - y
    requires o.regs[SI] < x ==> o.regs[SI] + size < TWO64 && o.regs[DI] + size < TWO64
    ensures var r := Run(RecordBothRanges(base, size, n), c, ls);
            && r.Some? && Measuring(o, r.value, THREE, base, ls) && SameRest(r.value.ls, c.ls)
            && r.value.ls.values == c.ls.values[n := StartOf(x, o.regs[SI], size)][n + 1 := LengthOf(x, o.regs[SI])]
                                               [n + 2 := StartOf(y, o.regs[DI], size)][n + 3 := LengthOf(y, o.regs[DI])]
  {
    hide Run, Step, Plus, Minus, NON_SCRATCH, Measuring;
    MinusNoWrap(o.regs[SI], x, size);
    MinusNoWrap(o.regs[DI], y, size);
    var skip: seq<Code<W>> := [SkipIf(Above, BothBackwards(size))];
    RunConcat(skip, StoreBoth(base, n), c, ls);
    SkippedOr(Above, BothBackwards(size), c, ls);
    if o.regs[SI] < x {
      RunBothBackwards(o, c, size, base, ls);
    }
    var c1 := Run(skip, c, ls).value;
    RunStoreBoth(o, c1, n, base, ls);
    StoresKeep(o, c1, Run(StoreBoth(base, n), c1, ls).value.ls.values, base, ls);
  }

  lemma StoresKeep<W>(o: Orig<W>, c: Cpu<W>, v: Values, base: Reg, ls: Word)
    requires Measuring(o, c, THREE, base, ls)
    ensures Measuring(o, c.(ls := c.ls.(values := v)), THREE, base, ls)
  {
  }

  lemma RunRecordBoth<W>(o: Orig<W>, c: Cpu<W>, size: Word, n: nat, base: Reg, ls: Word)
    requires Noted(o, c, BOTH, base, ls) && BaseForStrings(base) && n + 3 < MAX_VALUES
    requires (o.regs[SI] as int) - c.regs[AX] == (o.regs[DI] as int) - c.regs[DX]
    requires o.regs[SI] < c.regs[AX] ==> o.regs[SI] + size < TWO64 && o.regs[DI] + size < TWO64
    ensures var x, y := c.regs[AX], c.regs[DX];
            var r := Run(RecordBoth(base, size, n), c, ls);
            && r.Some?
            && (o.regs[SI] == x ==> Keeps(o, c, r.value, c.ls.values, base, ls))
            && (o.regs[SI] != x ==>
                 Keeps(o, c, r.value, c.ls.values[n := StartOf(x, o.regs[SI], size)][n + 1 := LengthOf(x, o.regs[SI])]
                                                 [n + 2 := StartOf(y, o.regs[DI], size)][n +
                                                                                         3 := LengthOf(y, o.regs[DI])],
                                                                                         base, ls))
  {
    hide Run, Step, Plus, Minus, NON_SCRATCH, Measuring, Noted, Rel;
    var x, y := c.regs[AX], c.regs[DX];
    var one := Measure(SI, base, AX, CX);
    var two := [SkipIf(Zero, RecordBothRanges(base, size, n))];
    RunMeasure(o, c, BOTH, SI, AX, CX, base, ls);
    assert BOTH + {CX} == THREE && AX in BOTH && DX in BOTH;
    var c1 := Run(one, c, ls).value;
    RunConcat(one, two, c, ls);
    SkippedOr(Zero, RecordBothRanges(base, size, n), c1, ls);
    MinusNoWrap(o.regs[SI], x, size);
    if o.regs[SI] != x {
      RunBothRanges(o, c1, x, y, size, n, base, ls);
    }
    var c2 := Run(two, c1, ls).value;
    RunConcat(one + two, PutBackBoth(base), c, ls);
    RunPutBackBoth(o, c2, base, ls);
  }

  /** kedr_handle_type_xy around MOVS or CMPS: both ranges touched are recorded. */
  lemma RecordsBoth<W(!new)>(effect: Orig<W> -> Orig<W>, mask: set<Reg>, o: Orig<W>, c: Cpu<W>,
                             size: Word, count: nat, back: bool, n: nat, base: Reg, ls: Word)
    requires Respects(effect, mask) && BOTH !! mask && base !in mask && BaseForStrings(base) && n + 3 < MAX_VALUES
    requires Rel(o, c, base, ls) && size > 0
    requires effect(o).regs[SI] == Past(o.regs[SI], size, count, back)  // no wrap-around
    requires effect(o).regs[DI] == Past(o.regs[DI], size, count, back)
    ensures var c1 := Run(NoteBoth(base), c, ls);
            && c1.Some?
            && var o' := effect(o);
               var c2 := WithOrig(c1.value, effect(AsOrig(c1.value)));
               var r := Run(RecordBoth(base, size, n), c2, ls);
               && r.Some?
               && (count == 0 ==> Keeps(o', c, r.value, c.ls.values, base, ls))
               && (count > 0 ==>
                 var x, y := o.regs[SI], o.regs[DI];
                 var sx, sy := StartOf(x, o'.regs[SI], size), StartOf(y, o'.regs[DI], size);
                 var len := LengthOf(x, o'.regs[SI]);
                 && 0 <= sx < TWO64 && 0 <= sy < TWO64 && 0 <= len < TWO64
                 && Keeps(o', c, r.value, c.ls.values[n := sx][n + 1 := len][n + 2 := sy][n + 3 := len], base, ls)
                 && (forall a :: sx <= a < sx + len <==> Touched(x, size, count, back, a))
                 && (forall a :: sy <= a < sy + len <==> Touched(y, size, count, back, a)))
  {
    hide Run, Step, Plus, Minus, NON_SCRATCH, Touched, Respects, Measuring, Noted, Rel;
    var x, y, o' := o.regs[SI], o.regs[DI], effect(o);
    RunNoteBoth(o, c, base, ls);
    var c1 := Run(NoteBoth(base), c, ls).value;
    ThroughInsn(effect, mask, o, c1, BOTH, base, ls);
    assert AX in BOTH && DX in BOTH;
    var c2 := WithOrig(c1, effect(AsOrig(c1)));
    if count > 0 {
      StaysInRange(x, o'.regs[SI], size, count, back);
      StaysInRange(y, o'.regs[DI], size, count, back);
    }
    RunRecordBoth(o', c2, size, n, base, ls);
    if count > 0 {
      forall a
        ensures StartOf(x, o'.regs[SI], size) <= a < StartOf(x, o'.regs[SI], size) + LengthOf(x, o'.regs[SI]) <==>
                Touched(x, size, count, back, a)
        ensures StartOf(y, o'.regs[DI], size) <= a < StartOf(y, o'.regs[DI], size) + LengthOf(y, o'.regs[DI]) <==>
                Touched(y, size, count, back, a)
      {
        RangeIsTouched(x, size, count, back, a);
        RangeIsTouched(y, size, count, back, a);
      }
      RangeIsTouched(x, size, count, back, 0);
    }
  }
}
