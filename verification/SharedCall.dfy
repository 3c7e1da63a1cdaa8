/**
 Indirect calls and jumps of several threads at once.  The target and its replacement are kept
 in the call information, which belongs to the instruction and not to the thread: what other
 threads write there between the store of the target and the thunk decides where the thunk goes.
 */
module SharedCall {
  import opened Basics
  import opened Machine
  import opened ReleaseBase

  // -------------------------------------------------- one thread among others

  /** What another thread writes into the call information. */
  datatype Access = Target(v: Word) | Repl(v: Word)

  ghost function Disturb(ci: CallInfo, acts: seq<Access>): CallInfo {
    if acts == [] then ci
    else
      var d := Disturb(ci, acts[..|acts| - 1]);
      match acts[|acts| - 1]
      case Target(v) => d.(target := v)
      case Repl(v) => d.(repl := v)
  }

  function LastTarget(acts: seq<Access>, default: Word): Word {
    if acts == [] then default
    else if acts[|acts| - 1].Target? then acts[|acts| - 1].v
    else LastTarget(acts[..|acts| - 1], default)
  }

  function LastRepl(acts: seq<Access>, default: Word): Word {
    if acts == [] then default
    else if acts[|acts| - 1].Repl? then acts[|acts| - 1].v
    else LastRepl(acts[..|acts| - 1], default)
  }

  lemma {:induction false} DisturbedIs(ci: CallInfo, acts: seq<Access>)
    ensures Disturb(ci, acts) == CallInfo(LastTarget(acts, ci.target), LastRepl(acts, ci.repl))
  {
    if acts != [] {
      DisturbedIs(ci, acts[..|acts| - 1]);
    }
  }

  ghost function Meddled<W>(c: Cpu<W>, at: Word, acts: seq<Access>): Cpu<W> {
    c.(calls := c.calls[at := Disturb(InfoAt(c.calls, at), acts)])
  }

  /** The code with the accesses `env[k]` of other threads just before instruction `k`. */
  ghost function RunAmong<W>(code: seq<Code<W>>, c: Cpu<W>, ls: Word, at: Word, env: seq<seq<Access>>): Option<Cpu<W>>
    requires |env| == |code|
  {
    if code == [] then Some(c)
    else
      var c' := Step(code[0], Meddled(c, at, env[0]), ls);
      if c'.None? then None else RunAmong(code[1..], c'.value, ls, at, env[1..])
  }

  lemma {:induction false} AmongConcat<W>(a: seq<Code<W>>, b: seq<Code<W>>, c: Cpu<W>, ls: Word, at: Word,
                                          env: seq<seq<Access>>)
    requires |env| == |a| + |b|
    ensures RunAmong(a + b, c, ls, at, env) ==
            var m := RunAmong(a, c, ls, at, env[..|a|]);
                if m.None? then None else RunAmong(b, m.value, ls, at, env[|a|..])
    decreases |a|
  {
    hide Step, Meddled;
    if a == [] {
      assert a + b == b && env[0..] == env;
    } else {
      var c' := Step(a[0], Meddled(c, at, env[0]), ls);
      assert (a + b)[0] == a[0] && (a + b)[1..] == a[1..] + b;
      assert env[..|a|][1..] == env[1..][..|a| - 1] && env[1..][|a| - 1..] == env[|a|..] && env[..|a|][0] == env[0];
      if c'.Some? {
        AmongConcat(a[1..], b, c'.value, ls, at, env[1..]);
      }
    }
  }

  /** An instruction that does not touch the call information. */
  predicate Quiet<W>(i: Code<W>) {
    i.StoreSpill? || i.LoadSpill? || i.Mov? || i.MovImm? || i.Store? || i.LoadExpr?
  }

  lemma QuietStep<W>(i: Code<W>, c: Cpu<W>, calls: map<Word, CallInfo>, ls: Word)
    requires Quiet(i)
    ensures var a, b := Step(i, c, ls), Step(i, c.(calls := calls), ls);
            if a.None? then b.None? else b == Some(a.value.(calls := calls))
  {
  }

  lemma {:induction false} QuietRun<W>(code: seq<Code<W>>, c: Cpu<W>, calls: map<Word, CallInfo>, ls: Word, at: Word,
                                       env: seq<seq<Access>>)
    requires |env| == |code| && forall k :: 0 <= k < |code| ==> Quiet(code[k])
    requires Run(code, c, ls).Some?
    ensures var r := RunAmong(code, c.(calls := calls), ls, at, env);
            r.Some? && r.value == Run(code, c, ls).value.(calls := r.value.calls)
    decreases |code|
  {
    hide Step, Quiet;
    if code != [] {
      var c1 := Meddled(c.(calls := calls), at, env[0]);
      QuietStep(code[0], c, c1.calls, ls);
      var c2 := Step(code[0], c, ls).value;
      QuietRun(code[1..], c2, c1.calls, ls, at, env[1..]);
    }
  }

  lemma QuietEval<W>(e: Expr<W>, base: Reg, w: Reg, t: Reg)
    ensures var code := [StoreSpill(w, base)] + EvalAddr(e, base, w, t);
            forall k :: 0 <= k < |code| ==> Quiet(code[k])
  {
  }

  lemma AmongFour<W>(code: seq<Code<W>>, c: Cpu<W>, ls: Word, at: Word, env: seq<seq<Access>>,
                     c1: Cpu<W>, c2: Cpu<W>, c3: Cpu<W>, c4: Cpu<W>)
    requires |code| == |env| == 4
    requires Step(code[0], Meddled(c, at, env[0]), ls) == Some(c1) &&
             Step(code[1], Meddled(c1, at, env[1]), ls) == Some(c2)
    requires Step(code[2], Meddled(c2, at, env[2]), ls) == Some(c3) &&
             Step(code[3], Meddled(c3, at, env[3]), ls) == Some(c4)
    ensures RunAmong(code, c, ls, at, env) == Some(c4)
  {
    hide Step, Meddled;
    assert RunAmong(code[3..], c3, ls, at, env[3..]) == Some(c4) by {
      assert code[3..][0] == code[3] && code[3..][1..] == [] && env[3..][0] == env[3];
    }
    assert RunAmong(code[2..], c2, ls, at, env[2..]) == Some(c4) by {
      assert code[2..][0] == code[2] && code[2..][1..] == code[3..] && env[2..][0] == env[2] &&
             env[2..][1..] == env[3..];
    }
    assert RunAmong(code[1..], c1, ls, at, env[1..]) == Some(c4) by {
      assert code[1..][0] == code[1] && code[1..][1..] == code[2..] && env[1..][0] == env[1] &&
             env[1..][1..] == env[2..];
    }
  }

  ghost function Stored<W>(w: Reg, callInfo: Word, base: Reg): seq<Code<W>> {
    [StoreSpill(AX, base), MovImm(callInfo, AX), Store(Info, AX, base), StoreTarget(w, AX, callInfo)]
  }

  ghost function Filled<W>(w: Reg, callInfo: Word, base: Reg, r: Word): seq<Code<W>> {
    [LoadSpill(w, base), FillLoad(callInfo), FillStore(callInfo, r), Mov(base, AX)]
  }

  lemma AmongStored<W>(o: Orig<W>, c: Cpu<W>, v: Word, callInfo: Word, w: Reg, base: Reg, ls: Word,
                       env: seq<seq<Access>>)
    requires Evaluated(o, c, w, v, base, ls) && w != base && w != AX && base != AX && |env| == 4
    ensures var r := RunAmong(Stored(w, callInfo, base), c, ls, callInfo, env);
            && r.Some? && InfoAt(r.value.calls, callInfo).target == v
            && r.value == c.(regs := c.regs[AX := callInfo], calls := r.value.calls,
                             ls := c.ls.(spill := c.ls.spill[AX := c.regs[AX]], info := callInfo))
  {
    hide Run, RunAmong, Step, Disturb;
    var three: seq<Code<W>> := [StoreSpill(AX, base), MovImm(callInfo, AX), Store(Info, AX, base)];
    assert Stored(w, callInfo, base) == three + [StoreTarget(w, AX, callInfo)];
    AmongConcat(three, [StoreTarget(w, AX, callInfo)], c, ls, callInfo, env);
    RunPrepared(c, callInfo, base, ls);
    QuietRun(three, c, c.calls, ls, callInfo, env[..3]);
    var c1 := RunAmong(three, c, ls, callInfo, env[..3]).value;
    var c2 := Meddled(c1, callInfo, env[3]);
    AmongOne(StoreTarget(w, AX, callInfo), c1, ls, callInfo, env[3..]);
    TargetStored(c2, w, callInfo, ls);
  }

  lemma RunPrepared<W>(c: Cpu<W>, callInfo: Word, base: Reg, ls: Word)
    requires Reaches(c, base, ls) && base != AX
    ensures Run([StoreSpill(AX, base), MovImm(callInfo, AX), Store(Info, AX, base)], c, ls) ==
            Some(c.(regs := c.regs[AX := callInfo],
                    ls := c.ls.(spill := c.ls.spill[AX := c.regs[AX]], info := callInfo)))
  {
    hide Run;
    RunThree(StoreSpill(AX, base), MovImm(callInfo, AX), Store(Info, AX, base), c, ls);
  }

  lemma AmongOne<W>(i: Code<W>, c: Cpu<W>, ls: Word, at: Word, env: seq<seq<Access>>)
    requires |env| == 1
    ensures RunAmong([i], c, ls, at, env) == Step(i, Meddled(c, at, env[0]), ls)
  {
    hide Step, Meddled;
    assert [i][1..] == [];
  }

  lemma TargetStored<W>(c: Cpu<W>, w: Reg, callInfo: Word, ls: Word)
    requires c.regs[AX] == callInfo
    ensures var r := Step(StoreTarget(w, AX, callInfo), c, ls);
            r.Some? && r.value == c.(calls := r.value.calls) && InfoAt(r.value.calls, callInfo).target == c.regs[w]
  {
  }

  /** What the fill leaves in `repl`: the target read before, unless somebody has filled it again. */
  lemma AmongFilled<W>(c: Cpu<W>, callInfo: Word, w: Reg, base: Reg, ls: Word, r: Word, env: seq<seq<Access>>)
    requires Reaches(c, base, ls) && w != base && w != AX && base != AX && c.regs[AX] == callInfo && |env| == 4
    ensures var q := RunAmong(Filled(w, callInfo, base, r), c, ls, callInfo, env);
            && q.Some? && q.value == c.(regs := c.regs[w := c.ls.spill[w]][AX := ls], calls := q.value.calls)
            && InfoAt(q.value.calls, callInfo).repl ==
               LastRepl(env[3], LastTarget(env[1], LastTarget(env[0], InfoAt(c.calls, callInfo).target)))
  {
    hide RunAmong, Disturb, LastTarget, LastRepl;
    var code: seq<Code<W>> := Filled(w, callInfo, base, r);
    var c1 := Step(code[0], Meddled(c, callInfo, env[0]), ls).value;
    var c2 := Step(code[1], Meddled(c1, callInfo, env[1]), ls).value;
    var c3 := Step(code[2], Meddled(c2, callInfo, env[2]), ls).value;
    var c4 := Step(code[3], Meddled(c3, callInfo, env[3]), ls).value;
    AmongFour(code, c, ls, callInfo, env, c1, c2, c3, c4);
    DisturbedIs(InfoAt(c.calls, callInfo), env[0]);
    DisturbedIs(InfoAt(c1.calls, callInfo), env[1]);
    DisturbedIs(InfoAt(c3.calls, callInfo), env[3]);
    assert c4.regs == c.regs[w := c.ls.spill[w]][AX := ls];
  }

  lemma {:induction false} LastTargetConcat(a: seq<Access>, b: seq<Access>, v: Word)
    ensures LastTarget(a + b, v) == LastTarget(b, LastTarget(a, v))
  {
    if b == [] {
      assert a + b == a;
    } else {
      assert (a + b)[..|a + b| - 1] == a + b[..|b| - 1];
      LastTargetConcat(a, b[..|b| - 1], v);
    }
  }

  lemma {:induction false} LastReplConcat(a: seq<Access>, b: seq<Access>, v: Word)
    ensures LastRepl(a + b, v) == LastRepl(b, LastRepl(a, v))
  {
    if b == [] {
      assert a + b == a;
    } else {
      assert (a + b)[..|a + b| - 1] == a + b[..|b| - 1];
      LastReplConcat(a, b[..|b| - 1], v);
    }
  }

  /**
   Where the thunk goes for a thread that has stored `v`, given what the others write between
   that store and the read by the fill, and after the fill.
   */
  function Reached(v: Word, between: seq<Access>, after: seq<Access>): Word { LastRepl(after, LastTarget(between, v)) }

  /** The accesses between the store of the target and the read of it; those after the fill. */
  ghost function Between(env: seq<seq<Access>>): seq<Access>
    requires |env| >= 4
  {
    env[|env| - 4] + env[|env| - 3]
  }

  /** mk_common_jmp_call_indirect among other threads. */
  lemma AmongIndirect<W(!new)>(e: Expr<W>, callInfo: Word, o: Orig<W>, c: Cpu<W>, w: Reg, t: Reg, base: Reg, ls: Word,
                               r: Word,
                               env: seq<seq<Access>>)
    requires GoodExpr(e) && Rel(o, c, base, ls) && base in NON_SCRATCH
    requires w != base && w != AX && w !in e.mask && t != base && t != w && t !in e.mask
    requires |env| == |IndirectCommon(e, callInfo, base, w, t, r)|
    ensures var q := RunAmong(IndirectCommon(e, callInfo, base, w, t, r), c, ls, callInfo, env);
            && |env| >= 4 && q.Some? && ReadyForCall(o, q.value, base, ls, callInfo)
            && InfoAt(q.value.calls, callInfo).repl == Reached(e.load(o.regs, o.world), Between(env), env[|env| - 1])
  {
    hide Run, RunAmong, Step;
    var v := e.load(o.regs, o.world);
    var one := [StoreSpill(w, base)] + EvalAddr(e, base, w, t);
    var two: seq<Code<W>>, three: seq<Code<W>> := Stored(w, callInfo, base), Filled(w, callInfo, base, r);
    assert IndirectCommon(e, callInfo, base, w, t, r) == one + two + three;
    var n := |one|;
    AmongConcat(one + two, three, c, ls, callInfo, env);
    AmongConcat(one, two, c, ls, callInfo, env[..n + 4]);
    assert env[..n + 4][..n] == env[..n] && env[..n + 4][n..] == env[n..n + 4] && |env| == n + 8;
    RunEvaluate(e, o, c, w, t, base, ls);
    QuietEval(e, base, w, t);
    QuietRun(one, c, c.calls, ls, callInfo, env[..n]);
    var c1 := RunAmong(one, c, ls, callInfo, env[..n]).value;
    AmongStored(o, c1, v, callInfo, w, base, ls, env[n..n + 4]);
    var c2 := RunAmong(two, c1, ls, callInfo, env[n..n + 4]).value;
    AmongFilled(c2, callInfo, w, base, ls, r, env[n + 4..]);
    LastTargetConcat(env[n + 4], env[n + 5], v);
  }

  lemma Later<W>(o: Orig<W>, c: Cpu<W>, base: Reg, ls: Word, callInfo: Word, a: seq<Access>, b: seq<Access>, v: Word,
                 between: seq<Access>)
    requires ReadyForCall(o, c, base, ls, callInfo) && InfoAt(c.calls, callInfo).repl == Reached(v, between, a)
    ensures var d := Meddled(c, callInfo, b);
            ReadyForCall(o, d, base, ls, callInfo) && InfoAt(d.calls, callInfo).repl == Reached(v, between, a + b)
  {
    hide Disturb, LastRepl, LastTarget;
    DisturbedIs(InfoAt(c.calls, callInfo), b);
    LastReplConcat(a, b, LastTarget(between, v));
  }

  /**
   kedr_handle_call_indirect among other threads, which make the accesses `env` during its code
   and `last` before the thunk reads `repl`: Reached tells the function that is called.
   */
  lemma CallAmong<W(!new)>(i: Insn<W>, w: Reg, t: Reg, r: Word, o: Orig<W>, c: Cpu<W>, base: Reg, ls: Word,
                           labels: Word -> nat, env: seq<seq<Access>>, last: seq<Access>)
    requires i.CallIndirect? && Decoded(i) && base in NON_SCRATCH && Rel(o, c, base, ls)
    requires w != base && w != AX && w !in i.e.mask && t != base && t != w && t !in i.e.mask
    requires |env| == |IndirectCommon(i.e, i.callInfo, base, w, t, r)| >= 4
    ensures var q := RunAmong(IndirectCommon(i.e, i.callInfo, base, w, t, r), c, ls, i.callInfo, env);
            && q.Some?
            && var m := MainStep(ThunkCall(i), Meddled(q.value, i.callInfo, last), ls, labels);
               && m.Some? && m.value.1.Fall?
               && var v := Reached(i.e.load(o.regs, o.world), Between(env), env[|env| - 1] + last);
                  Rel(i.callee(v)(o), m.value.0, base, ls)
  {
    hide Run, RunAmong, Step, IndirectCommon, Meddled, Reached, Between;
    AmongIndirect(i.e, i.callInfo, o, c, w, t, base, ls, r, env);
    var c1 := RunAmong(IndirectCommon(i.e, i.callInfo, base, w, t, r), c, ls, i.callInfo, env).value;
    Later(o, c1, base, ls, i.callInfo, env[|env| - 1], last, i.e.load(o.regs, o.world), Between(env));
    var c2 := Meddled(c1, i.callInfo, last);
    ThroughThunk(i.callee(InfoAt(c2.calls, i.callInfo).repl), o, c2, base, ls, i.callInfo);
  }

  /** kedr_handle_jmp_indirect_out among other threads: Reached tells where control goes. */
  lemma JumpAmong<W(!new)>(i: Insn<W>, w: Reg, t: Reg, r: Word, o: Orig<W>, c: Cpu<W>, base: Reg, ls: Word,
                           labels: Word -> nat, env: seq<seq<Access>>, last: seq<Access>)
    requires i.JumpIndirectOut? && Decoded(i) && base in NON_SCRATCH && Rel(o, c, base, ls)
    requires w != base && w != AX && w !in i.e.mask && t != base && t != w && t !in i.e.mask
    requires |env| == |IndirectCommon(i.e, i.callInfo, base, w, t, r)| >= 4
    ensures var q := RunAmong(IndirectCommon(i.e, i.callInfo, base, w, t, r), c, ls, i.callInfo, env);
            && q.Some?
            && var d := Step(LoadSpill(base, AX), q.value, ls);
               && d.Some?
               && var m := MainStep(ThunkJump(i), Meddled(d.value, i.callInfo, last), ls, labels);
                  && m.Some? && Exited(o, m.value.0)
                  && m.value.1 == Leave(Reached(i.e.load(o.regs, o.world), Between(env), env[|env| - 1] + last))
  {
    hide Run, RunAmong, Step, IndirectCommon, Reached, Between, Disturb;
    AmongIndirect(i.e, i.callInfo, o, c, w, t, base, ls, r, env);
    var c1 := RunAmong(IndirectCommon(i.e, i.callInfo, base, w, t, r), c, ls, i.callInfo, env).value;
    LoadBase(c1, base, ls);
    Later(o, c1, base, ls, i.callInfo, env[|env| - 1], last, i.e.load(o.regs, o.world), Between(env));
    var d := c1.(regs := c1.regs[base := c1.ls.spill[base]]);
    SameRegs(d.regs[AX := d.ls.spill[AX]], o.regs);
  }

  // ---------------------------------------------------- all threads together

  /**
   The accesses of thread `t`: it stores its target, reads it back in the fill, writes `repl`, and
   its thunk goes there.
   */
  datatype Move = Sets(t: nat, v: Word) | Reads(t: nat) | Fills(t: nat) | Jumps(t: nat)

  datatype Shared = Shared(info: CallInfo, held: map<nat, Word>)

  ghost function After(moves: seq<Move>, k: nat): Shared
    requires k <= |moves|
  {
    if k == 0 then Shared(CallInfo(0, 0), map[])
    else
      var s := After(moves, k - 1);
      match moves[k - 1]
      case Sets(_, v) => s.(info := s.info.(target := v))
      case Reads(t) => s.(held := s.held[t := s.info.target])
      case Fills(t) => s.(info := s.info.(repl := if t in s.held then s.held[t] else 0))
      case Jumps(_) => s
  }

  /** The last access of the kind before `k` is at `i`. */
  ghost predicate LastSet(moves: seq<Move>, i: nat, k: nat) {
    i < k <= |moves| && moves[i].Sets? && forall m :: i < m < k ==> !moves[m].Sets?
  }

  ghost predicate LastRead(moves: seq<Move>, i: nat, k: nat, t: nat) {
    i < k <= |moves| && moves[i] == Reads(t) && forall m :: i < m < k ==> moves[m] != Reads(t)
  }

  ghost predicate LastFill(moves: seq<Move>, i: nat, k: nat) {
    i < k <= |moves| && moves[i].Fills? && forall m :: i < m < k ==> !moves[m].Fills?
  }

  lemma {:induction false} TargetSince(moves: seq<Move>, i: nat, k: nat)
    requires LastSet(moves, i, k)
    ensures After(moves, k).info.target == moves[i].v
    decreases k
  {
    if i < k - 1 {
      TargetSince(moves, i, k - 1);
    }
  }

  lemma {:induction false} HeldSince(moves: seq<Move>, i: nat, k: nat, t: nat)
    requires LastRead(moves, i, k, t)
    ensures t in After(moves, k).held && After(moves, k).held[t] == After(moves, i).info.target
    decreases k
  {
    if i < k - 1 {
      HeldSince(moves, i, k - 1, t);
    }
  }

  lemma {:induction false} ReplSince(moves: seq<Move>, i: nat, k: nat)
    requires LastFill(moves, i, k)
    ensures After(moves, k).info.repl == After(moves, i + 1).info.repl
    decreases k
  {
    if i < k - 1 {
      ReplSince(moves, i, k - 1);
    }
  }

  /**
   What a thunk that runs at `k` finds: the last fill before it, by whichever thread, put there
   what that thread had read, which is what was stored last before it read.
   */
  lemma CalledIs(moves: seq<Move>, set_: nat, read: nat, fill: nat, k: nat)
    requires LastFill(moves, fill, k) && LastRead(moves, read, fill, moves[fill].t) && LastSet(moves, set_, read)
    ensures After(moves, k).info.repl == moves[set_].v
  {
    ReplSince(moves, fill, k);
    HeldSince(moves, read, fill, moves[fill].t);
    TargetSince(moves, set_, read);
  }

  ghost function SetBefore(moves: seq<Move>, i: nat, k: nat): (r: nat)
    requires i < k <= |moves| && moves[i].Sets?
    ensures LastSet(moves, r, k) && i <= r
    decreases k
  {
    if moves[k - 1].Sets? then k - 1 else SetBefore(moves, i, k - 1)
  }

  ghost function FillBefore(moves: seq<Move>, i: nat, k: nat): (r: nat)
    requires i < k <= |moves| && moves[i].Fills?
    ensures LastFill(moves, r, k) && i <= r
    decreases k
  {
    if moves[k - 1].Fills? then k - 1 else FillBefore(moves, i, k - 1)
  }

  /** Thread `t` stores `v` at `i`, reads it at `j`, fills at `f`, and its thunk runs at `k`. */
  ghost predicate Calls(moves: seq<Move>, t: nat, v: Word, i: nat, j: nat, f: nat, k: nat) {
    i < j < f < k <= |moves| && moves[i] == Sets(t, v) && LastRead(moves, j, f, t) && moves[f] == Fills(t)
  }

  /** How far thread `t` is in its instruction after `k` moves. */
  ghost function Phase(moves: seq<Move>, k: nat, t: nat): (p: nat)
    requires k <= |moves|
    ensures p <= 3
  {
    if k == 0 then 0
    else if moves[k - 1].t != t then Phase(moves, k - 1, t)
    else match moves[k - 1]
      case Sets(_, _) => 1
      case Reads(_) => 2
      case Fills(_) => 3
      case Jumps(_) => 0
  }

  /** Every thread stores, reads, fills and jumps, in this order, any number of times. */
  ghost predicate InOrder(moves: seq<Move>) {
    forall k :: 0 <= k < |moves| ==>
      Phase(moves, k, moves[k].t) ==
      match moves[k]
      case Sets(_, _) => 0
      case Reads(_) => 1
      case Fills(_) => 2
      case Jumps(_) => 3
  }

  /** The last access of a thread that is inside its instruction. */
  lemma {:induction false} LastOwn(moves: seq<Move>, k: nat, t: nat) returns (i: nat)
    requires InOrder(moves) && k <= |moves| && Phase(moves, k, t) > 0
    ensures i < k && moves[i].t == t && forall m :: i < m < k ==> moves[m].t != t
    ensures match Phase(moves, k, t)
            case 1 => moves[i].Sets?
            case 2 => moves[i].Reads? && Phase(moves, i, t) == 1
            case _ => moves[i].Fills? && Phase(moves, i, t) == 2
    decreases k
  {
    hide InOrder;
    if moves[k - 1].t == t {
      i := k - 1;
      PhaseBefore(moves, i);
    } else {
      i := LastOwn(moves, k - 1, t);
    }
  }

  lemma PhaseBefore(moves: seq<Move>, k: nat)
    requires InOrder(moves) && k < |moves|
    ensures moves[k].Reads? ==> Phase(moves, k, moves[k].t) == 1
    ensures moves[k].Fills? ==> Phase(moves, k, moves[k].t) == 2
    ensures moves[k].Jumps? ==> Phase(moves, k, moves[k].t) == 3
  {
  }

  /** A fill comes after a read and a store of its thread. */
  lemma FilledFrom(moves: seq<Move>, fill: nat) returns (i: nat, j: nat)
    requires InOrder(moves) && fill < |moves| && moves[fill].Fills?
    ensures i < j < fill && moves[i].Sets? && moves[i].t == moves[fill].t && LastRead(moves, j, fill, moves[fill].t)
  {
    hide InOrder, Phase;
    var t := moves[fill].t;
    PhaseBefore(moves, fill);
    j := LastOwn(moves, fill, t);
    i := LastOwn(moves, j, t);
  }

  /**
   Every jump has its own store, read and fill, and the store that decides where it goes; it goes
   to its own target if and only if that store stored the same one.
   */
  lemma ReachesOwnIff(moves: seq<Move>, k: nat)
    returns (v: Word, i: nat, j: nat, f: nat, set_: nat, read: nat, fill: nat)
    requires InOrder(moves) && k < |moves| && moves[k].Jumps?
    ensures Calls(moves, moves[k].t, v, i, j, f, k)
    ensures LastFill(moves, fill, k) && LastRead(moves, read, fill, moves[fill].t) && LastSet(moves, set_, read)
    ensures After(moves, k).info.repl == v <==> moves[set_].v == v
  {
    hide InOrder, Phase, After;
    PhaseBefore(moves, k);
    f := LastOwn(moves, k, moves[k].t);
    i, j := FilledFrom(moves, f);
    v := moves[i].v;
    fill := FillBefore(moves, f, k);
    var i';
    i', read := FilledFrom(moves, fill);
    set_ := SetBefore(moves, i', read);
    CalledIs(moves, set_, read, fill, k);
  }

  /**
   So it does if nobody stores a different target from then on, and nobody fills with what was
   read before.
   */
  lemma ReachesOwn(moves: seq<Move>, t: nat, v: Word, i: nat, j: nat, f: nat, k: nat)
    requires Calls(moves, t, v, i, j, f, k)
    requires forall m :: i < m < k && moves[m].Sets? ==> moves[m].v == v
    requires forall m :: f < m < k && moves[m].Fills? ==> exists r :: i < r && LastRead(moves, r, m, moves[m].t)
    ensures After(moves, k).info.repl == v
  {
    hide After;
    var fill := FillBefore(moves, f, k);
    var read := j;
    if fill != f {
      read :| i < read && LastRead(moves, read, fill, moves[fill].t);
    }
    CalledIs(moves, SetBefore(moves, i, read), read, fill, k);
  }

  /** Two threads in the same instruction: thread 0 calls the target of thread 1. */
  lemma OtherTargetCalled(v: Word, v': Word)
    ensures var moves := [Sets(0, v), Sets(1, v'), Reads(0), Fills(0)];
            Calls(moves, 0, v, 0, 2, 3, 4) && After(moves, 4).info.repl == v'
  {
    var moves := [Sets(0, v), Sets(1, v'), Reads(0), Fills(0)];
    CalledIs(moves, 1, 2, 3, 4);
  }

  /** And so even if thread 1 stored its target before thread 0 did. */
  lemma OldTargetCalled(v: Word, v': Word)
    ensures var moves := [Sets(1, v'), Reads(1), Sets(0, v), Reads(0), Fills(0), Fills(1)];
            Calls(moves, 0, v, 2, 3, 4, 6) && After(moves, 6).info.repl == v'
  {
    var moves := [Sets(1, v'), Reads(1), Sets(0, v), Reads(0), Fills(0), Fills(1)];
    CalledIs(moves, 0, 1, 5, 6);
  }

  // ------------------------------------- the accesses that one thread sees

  /** What the threads write from `a` on, as the code of one thread meets it. */
  ghost function Seen(moves: seq<Move>, a: nat, k: nat): seq<Access>
    requires a <= k <= |moves|
    decreases k
  {
    if k == a then []
    else
      var before := After(moves, k - 1);
      Seen(moves, a, k - 1) +
      match moves[k - 1]
      case Sets(_, v) => [Target(v)]
      case Reads(_) => []
      case Jumps(_) => []
      case Fills(t) => [Repl(if t in before.held then before.held[t] else 0)]
  }

  lemma {:induction false} SeenIs(moves: seq<Move>, a: nat, k: nat)
    requires a <= k <= |moves|
    ensures After(moves, k).info == Disturb(After(moves, a).info, Seen(moves, a, k))
    decreases k
  {
    if a < k {
      SeenIs(moves, a, k - 1);
      var before := Seen(moves, a, k - 1);
      if moves[k - 1].Reads? || moves[k - 1].Jumps? {
        assert Seen(moves, a, k) == before;
      } else {
        assert Seen(moves, a, k)[..|before|] == before;
      }
    }
  }

  /** Reached, of what one thread sees, is what the moves of all threads together make of `repl`. */
  lemma ReachedInSchedule(moves: seq<Move>, t: nat, v: Word, i: nat, j: nat, f: nat, k: nat)
    requires Calls(moves, t, v, i, j, f, k)
    ensures Reached(v, Seen(moves, i + 1, j), Seen(moves, f + 1, k)) == After(moves, k).info.repl
  {
    hide Seen, Disturb;
    SeenIs(moves, i + 1, j);
    DisturbedIs(After(moves, i + 1).info, Seen(moves, i + 1, j));
    HeldSince(moves, j, f, t);
    SeenIs(moves, f + 1, k);
    DisturbedIs(After(moves, f + 1).info, Seen(moves, f + 1, k));
  }
}
