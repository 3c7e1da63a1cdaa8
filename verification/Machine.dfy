/**
 The x86-64 machine as far as the instrumentation sees it: registers, flags, the words its own
 code has pushed, the local storage, and everything else (`world`), which only the instructions
 of the original function change.  Each generated instruction is a constructor with its effect.
 */
module Machine {
  import opened Basics

  type Reg = r: int | 0 <= r < 16
  const AX: Reg := 0
  const CX: Reg := 1
  const DX: Reg := 2
  const BX: Reg := 3
  const SP: Reg := 4
  const BP: Reg := 5
  const SI: Reg := 6
  const DI: Reg := 7

  const SCRATCH: set<Reg> := {AX, CX, DX, SI, DI, 8, 9, 10, 11}
  const ALL: set<Reg> := set r: Reg | 0 <= r < 16
  const NON_SCRATCH: set<Reg> := ALL - SCRATCH - {SP}

  const TWO64 := 0x1_0000_0000_0000_0000
  type Word = x: int | 0 <= x < TWO64
  function Wrap(x: int): Word { x % TWO64 }
  function Plus(a: int, b: int): Word { Wrap(a + b) }
  function Minus(a: int, b: int): Word { Wrap(a - b) }

  type Regs = s: seq<Word> | |s| == 16 witness seq(16, _ => 0)
  type Values = s: seq<Word> | |s| == MAX_VALUES witness seq(MAX_VALUES, _ => 0)

  datatype Flags = Flags(zf: bool, cf: bool, rest: int)

  datatype Pushed = Value(v: Word) | SavedFlags(f: Flags)

  datatype Field = Info | DestAddr | Temp | RetVal | RetHigh | Slot(n: nat)

  /** struct kedr_local_storage; `alive` until its release. */
  datatype Storage = Storage(alive: bool, spill: Regs, values: Values, writeMask: set<nat>,
                             info: Word, destAddr: Word, temp: Word, retVal: Word, retHigh: Word)

  /** struct kedr_call_info, one for each call instruction and shared by all threads. */
  datatype CallInfo = CallInfo(target: Word, repl: Word)

  ghost function InfoAt(calls: map<Word, CallInfo>, at: Word): CallInfo {
    if at in calls then calls[at] else CallInfo(0, 0)
  }

  datatype Cpu<W> = Cpu(regs: Regs, flags: Flags, stack: seq<Pushed>, world: W, ls: Storage, calls: map<Word, CallInfo>)

  /** An addressing expression: the registers it uses, its address, the word found there. */
  datatype Expr<!W> = Expr(mask: set<Reg>, address: Regs -> Word, load: (Regs, W) -> Word)

  ghost predicate Agree(a: Regs, b: Regs, mask: set<Reg>) { forall r: Reg :: r in mask ==> a[r] == b[r] }

  ghost predicate GoodExpr<W(!new)>(e: Expr<W>) {
    && (forall a: Regs, b: Regs :: Agree(a, b, e.mask) ==> e.address(a) == e.address(b))
    && (forall a: Regs, b: Regs, w: W :: Agree(a, b, e.mask) ==> e.load(a, w) == e.load(b, w))
  }

  datatype Code<!W> =
    | StoreSpill(r: Reg, via: Reg)
    | LoadSpill(r: Reg, via: Reg)
    | AddSpill(r: Reg, to: Reg, via: Reg)
    | Mov(from: Reg, to: Reg)
    | MovImm(imm: Word, to: Reg)
    | Xchg(a: Reg, b: Reg)
    | ZeroExtendByte(r: Reg)
    | Add(from: Reg, to: Reg)
    | Sub(from: Reg, to: Reg)
    | AddImm(imm: Word, to: Reg)
    | Neg(r: Reg)
    | Test(r: Reg)
    | Store(f: Field, r: Reg, via: Reg)
    | Load(f: Field, r: Reg, via: Reg)
    | SetField(f: Field, imm: Word, via: Reg)
    | OrWriteMask(bit: nat, via: Reg)
    | Push(r: Reg)
    | Pop(r: Reg)
    | Pushf
    | Popf
    | Reserve(words: nat)
    | StoreStack(r: Reg, at: nat)
    | Release(words: nat)
    | Lea(e: Expr<W>, to: Reg)
    | LoadExpr(e: Expr<W>, to: Reg)
    | StoreTarget(r: Reg, via: Reg, callInfo: Word)
    // the two accesses to the call information inside the wrapper that fills it
    | FillLoad(callInfo: Word)
    | FillStore(callInfo: Word, result: Word)
    | CallWrapper(result: Word, handler: Storage -> Storage)
    | SkipIf(cond: Flags -> bool, body: seq<Code<W>>)

  /** `%via` is the address of the storage and the storage is there. */
  ghost predicate Reaches<W>(c: Cpu<W>, via: Reg, ls: Word) { c.ls.alive && c.regs[via] == ls }

  ghost predicate HasField(f: Field) { f.Slot? ==> f.n < MAX_VALUES }

  ghost function Put(s: Storage, f: Field, v: Word): Storage
    requires HasField(f)
  {
    match f
    case Info => s.(info := v)
    case DestAddr => s.(destAddr := v)
    case Temp => s.(temp := v)
    case RetVal => s.(retVal := v)
    case RetHigh => s.(retHigh := v)
    case Slot(n) => s.(values := s.values[n := v])
  }

  ghost function Get(s: Storage, f: Field): Word
    requires HasField(f)
  {
    match f
    case Info => s.info
    case DestAddr => s.destAddr
    case Temp => s.temp
    case RetVal => s.retVal
    case RetHigh => s.retHigh
    case Slot(n) => s.values[n]
  }

  ghost function SetReg<W>(c: Cpu<W>, r: Reg, v: Word): Cpu<W> { c.(regs := c.regs[r := v]) }

  ghost function MoveSp<W>(c: Cpu<W>, bytes: int, stack: seq<Pushed>): Cpu<W> {
    c.(regs := c.regs[SP := Plus(c.regs[SP], bytes)], stack := stack)
  }

  /** The effect of one instruction; None is an access through a register that is not the storage. */
  ghost function Step<W>(i: Code<W>, c: Cpu<W>, ls: Word): Option<Cpu<W>>
    decreases i
  {
    match i
    case StoreSpill(r, via) =>
      if Reaches(c, via, ls) then Some(c.(ls := c.ls.(spill := c.ls.spill[r := c.regs[r]]))) else None
    case LoadSpill(r, via) => if Reaches(c, via, ls) then Some(SetReg(c, r, c.ls.spill[r])) else None
    case AddSpill(r, to, via) =>
      if Reaches(c, via, ls) then
        Some(SetReg(c, to, Plus(c.regs[to], c.ls.spill[r])).(flags := Arith(Plus(c.regs[to], c.ls.spill[r]), false)))
      else None
    case Mov(from, to) => Some(SetReg(c, to, c.regs[from]))
    case MovImm(imm, to) => Some(SetReg(c, to, imm))
    case Xchg(a, b) => Some(c.(regs := c.regs[a := c.regs[b]][b := c.regs[a]]))
    case ZeroExtendByte(r) => Some(SetReg(c, r, c.regs[r] % 0x100))
    case Add(from, to) =>
      var v := Plus(c.regs[to], c.regs[from]);
      Some(SetReg(c, to, v).(flags := Arith(v, false)))
    case Sub(from, to) =>
      var v := Minus(c.regs[to], c.regs[from]);
      Some(SetReg(c, to, v).(flags := Arith(v, c.regs[to] < c.regs[from])))
    case AddImm(imm, to) =>
      var v := Plus(c.regs[to], imm);
      Some(SetReg(c, to, v).(flags := Arith(v, false)))
    case Neg(r) =>
      var v := Minus(0, c.regs[r]);
      Some(SetReg(c, r, v).(flags := Arith(v, c.regs[r] != 0)))
    case Test(r) => Some(c.(flags := Arith(c.regs[r], false)))
    case Store(f, r, via) =>
      if Reaches(c, via, ls) && HasField(f) then Some(c.(ls := Put(c.ls, f, c.regs[r]))) else None
    case Load(f, r, via) => if Reaches(c, via, ls) && HasField(f) then Some(SetReg(c, r, Get(c.ls, f))) else None
    case SetField(f, imm, via) =>
      if Reaches(c, via, ls) && HasField(f) then Some(c.(ls := Put(c.ls, f, imm))) else None
    case OrWriteMask(bit, via) =>
      if Reaches(c, via, ls) then
        Some(c.(ls := c.ls.(writeMask := c.ls.writeMask + {bit}), flags := Arith(0, false)))
      else None
    case Push(r) => Some(MoveSp(c, -8, [Value(c.regs[r])] + c.stack))
    case Pop(r) =>
      if |c.stack| > 0 && c.stack[0].Value? && r != SP then
        Some(SetReg(MoveSp(c, 8, c.stack[1..]), r, c.stack[0].v))
      else None
    case Pushf => Some(MoveSp(c, -8, [SavedFlags(c.flags)] + c.stack))
    case Popf =>
      if |c.stack| > 0 && c.stack[0].SavedFlags? then Some(MoveSp(c, 8, c.stack[1..]).(flags := c.stack[0].f)) else None
    case Reserve(n) => Some(MoveSp(c, -8 * n, seq(n, _ => Value(0)) + c.stack).(flags := Arith(0, false)))
    case StoreStack(r, at) => if at < |c.stack| then Some(c.(stack := c.stack[at := Value(c.regs[r])])) else None
    case Release(n) =>
      if n <= |c.stack| then Some(MoveSp(c, 8 * n, c.stack[n..]).(flags := Arith(0, false))) else None
    case Lea(e, to) => Some(SetReg(c, to, e.address(c.regs)))
    case LoadExpr(e, to) => Some(SetReg(c, to, e.load(c.regs, c.world)))
    case StoreTarget(r, via, callInfo) =>
      if c.regs[via] == callInfo then
        Some(c.(calls := c.calls[callInfo := InfoAt(c.calls, callInfo).(target := c.regs[r])]))
      else None
    case FillLoad(callInfo) => if c.regs[AX] == callInfo
    then Some(SetReg(c, AX, InfoAt(c.calls, callInfo).target)) else None
    case FillStore(callInfo, result) =>
      Some(SetReg(c, AX, result).(calls := c.calls[callInfo := InfoAt(c.calls, callInfo).(repl := c.regs[AX])]))
    // the wrappers keep all registers but %rax, and the flags
    case CallWrapper(result, handler) => Some(SetReg(c, AX, result).(ls := handler(c.ls)))
    case SkipIf(cond, body) => if cond(c.flags) then Some(c) else Run(body, c, ls)
  }

  ghost function Arith(v: Word, carry: bool): Flags { Flags(v == 0, carry, 0) }

  ghost function Run<W>(code: seq<Code<W>>, c: Cpu<W>, ls: Word): Option<Cpu<W>>
    decreases code
  {
    if code == [] then Some(c)
    else
      var c' := Step(code[0], c, ls);
      if c'.None? then None else Run(code[1..], c'.value, ls)
  }

  /** One more instruction, unless something went wrong before. */
  ghost function Then<W>(c: Option<Cpu<W>>, i: Code<W>, ls: Word): Option<Cpu<W>> {
    if c.None? then None else Step(i, c.value, ls)
  }

  lemma {:induction false} RunConcat<W>(a: seq<Code<W>>, b: seq<Code<W>>, c: Cpu<W>, ls: Word)
    ensures Run(a + b, c, ls) == var m := Run(a, c, ls); if m.None? then None else Run(b, m.value, ls)
    decreases |a|
  {
    hide Step;
    if a == [] {
      assert a + b == b;
    } else {
      var c' := Step(a[0], c, ls);
      assert (a + b)[0] == a[0] && (a + b)[1..] == a[1..] + b;
      if c'.Some? {
        RunConcat(a[1..], b, c'.value, ls);
      }
    }
  }

  lemma RunOne<W>(i: Code<W>, c: Cpu<W>, ls: Word)
    ensures Run([i], c, ls) == Step(i, c, ls)
  {
    hide Step;
    assert [i][1..] == [];
  }

  lemma RunSnoc<W>(code: seq<Code<W>>, i: Code<W>, c: Cpu<W>, ls: Word)
    ensures Run(code + [i], c, ls) == Then(Run(code, c, ls), i, ls)
  {
    hide Step, Run;
    RunConcat(code, [i], c, ls);
    var m := Run(code, c, ls);
    if m.Some? {
      RunOne(i, m.value, ls);
    }
  }

  lemma RunTwo<W>(i: Code<W>, j: Code<W>, c: Cpu<W>, ls: Word)
    ensures Run([i, j], c, ls) == Then(Step(i, c, ls), j, ls)
  {
    hide Step, Run;
    RunOne(i, c, ls);
    RunSnoc([i], j, c, ls);
    assert [i] + [j] == [i, j];
  }

  lemma RunThree<W>(i: Code<W>, j: Code<W>, k: Code<W>, c: Cpu<W>, ls: Word)
    ensures Run([i, j, k], c, ls) == Then(Then(Step(i, c, ls), j, ls), k, ls)
  {
    hide Step, Run;
    RunTwo(i, j, c, ls);
    RunSnoc([i, j], k, c, ls);
    assert [i, j] + [k] == [i, j, k];
  }

  lemma RunFour<W>(i: Code<W>, j: Code<W>, k: Code<W>, l: Code<W>, c: Cpu<W>, ls: Word)
    ensures Run([i, j, k, l], c, ls) == Then(Then(Then(Step(i, c, ls), j, ls), k, ls), l, ls)
  {
    hide Step, Run;
    RunThree(i, j, k, c, ls);
    RunSnoc([i, j, k], l, c, ls);
    assert [i, j, k] + [l] == [i, j, k, l];
  }
}
