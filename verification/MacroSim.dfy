/** The macro interpreter as it runs: registers, object state and counters changed in
    place by one loop (`demmt/macro.c`), proved against the machine of MacroMachine
    and the runs of MacroRuns. */
module MacroSim {
  import opened Options
  import opened MacroMachine
  import opened MacroDecode
  import opened MacroRuns
  import MacroEffects

  /** `struct macro_interpreter_state` */
  class Interp {
    var code: seq<bv32>
    var pc: U32
    const regs: array<U32>
    var mthd: U32
    var incr: U32
    var aborted: bool
    var param: Option<U32>
    var delayed: U32
    var exit: U32
    var lastpc: U32
    var jumps: nat
    const data: array<U32>
    var sent: seq<Sent>

    ghost function View(): State
      reads this, regs, data
    {
      State(pc, regs[..], mthd, incr, aborted, delayed, exit, lastpc, jumps, data[..], sent)
    }

    ghost function Queue(): seq<U32>
      reads this
    {
      if param.Some? then [param.value] else []
    }

    ghost predicate Valid()
      reads this, regs, data
    {
      regs != data && |code| <= TWO32 && Ok(View())
    }

    /** The launch: everything zero, the first word in register 1. */
    constructor (code: seq<bv32>, value: U32, data: array<U32>)
      requires data.Length == DATA_WORDS && |code| <= TWO32
      ensures Valid() && fresh(regs) && this.data == data && this.code == code
      ensures View() == Launch(value, data[..]) && Queue() == []
    {
      this.code, this.data := code, data;
      pc, mthd, incr, aborted, param, lastpc, jumps, sent := 0, 0, 0, false, None, 0, 0, [];
      delayed, exit := NONE, NONE;
      regs := new U32[8](_ => 0);
      new;
      regs[1] := value;
      assert regs[..] == [0, value, 0, 0, 0, 0, 0, 0];
    }

    method WriteReg(r: nat, v: U32)
      requires Valid() && OkReg(r)
      modifies regs
      ensures Valid() && View() == SetReg(old(View()), r, v)
    {
      regs[r] := v;
    }

    /** `register_method_call` and the increment after it. */
    method SendValue(v: U32)
      requires Valid()
      modifies this`mthd, this`sent, data
      ensures Valid() && View() == DoSend(old(View()), v)
    {
      if mthd < 4 * DATA_WORDS {
        data[mthd / 4] := v;
      }
      sent := sent + [Sent(mthd, v)];
      mthd := Plus(mthd, incr * 4);
    }

    method WriteMaddr(res: U32, withIncr: bool)
      requires Valid()
      modifies this`mthd, this`incr
      ensures Valid() && View() == if withIncr then SetMaddr(old(View()), res) else SetMethod(old(View()), res)
    {
      mthd := res % 0x1000 * 4;
      if withIncr {
        incr := res / 0x1000 % 0x40;
      }
    }

    /** `macro_sim_dst`: 1 if the instruction has to wait for a parameter. */
    method Dst(use: Use, r1: nat, res: U32) returns (stall: bool)
      requires Valid() && OkReg(r1)
      modifies this`mthd, this`incr, this`sent, this`param, regs, data
      ensures Valid() && (stall <==> old(param).None? && NeedsParam(use))
      ensures stall ==> View() == old(View()) && param == old(param)
      ensures !stall ==>
        && View() == DoUse(old(View()), use, r1, res, if old(param).Some? then old(param).value else 0)
        && param == (if NeedsParam(use) then None else old(param))
        && MacroEffects.Effect(use, old(View()), View(), r1, res, if old(param).Some? then old(param).value else 0)
    {
      hide MacroEffects.Effect;
      MacroEffects.DoUseEffect(View(), use, r1, res, if param.Some? then param.value else 0);
      stall := false;
      match use
      case ParmIgn =>
        if param.None? { return true; }
        WriteReg(r1, param.value);
        param := None;
      case Mov =>
        WriteReg(r1, res);
      case Maddr =>
        WriteMaddr(res, true);
        if r1 != 0 { WriteReg(r1, res); }
      case ParmSend =>
        if param.None? { return true; }
        SendValue(res);
        WriteReg(r1, param.value);
        param := None;
      case Send =>
        SendValue(res);
        if r1 != 0 { WriteReg(r1, res); }
      case ParmMaddr =>
        if param.None? { return true; }
        WriteMaddr(res, true);
        WriteReg(r1, param.value);
        param := None;
      case ParmSendMaddr =>
        if param.None? { return true; }
        WriteMaddr(res, true);
        SendValue(param.value);
        if r1 != 0 { WriteReg(r1, res); }
        param := None;
      case MaddrSend =>
        WriteMaddr(res, false);
        SendValue(res / 0x1000 % 0x40);
        if r1 != 0 { WriteReg(r1, res); }
    }

    /** The instruction's own part of a turn.  `skip` is the source's `continue`. */
    method Execute(i: Instr) returns (stall: bool, skip: bool)
      requires Valid() && OkInstr(i) && !aborted
      modifies this`pc, this`mthd, this`incr, this`sent, this`param, this`delayed, this`exit, this`aborted, regs, data
      ensures Valid() && (stall <==> Stalls(i, old(Queue())))
      ensures stall ==> View() == old(View()) && Queue() == old(Queue())
      ensures !stall ==>
        && View() == Exec(Arith, old(View()), i, old(Queue())) && Queue() == Rest(i, old(Queue()))
        && (skip <==> Delays(old(View()), i))
    {
      hide Arith;
      stall, skip := false, false;
      match i.body
      case Compute(src, use, r1) =>
        var res := Arith(src, regs[..]);
        stall := Dst(use, r1, res);
        if !stall {
          pc := Plus(pc, 1);
        }
      case Nop =>
        pc := Plus(pc, 1);
      case Parm(r1) =>
        if param.None? {
          return true, false;
        }
        WriteReg(r1, param.value);
        param := None;
        pc := Plus(pc, 1);
      case ReadImm(r1, imm) =>
        WriteReg(r1, data[imm % 0x1000]);
        pc := Plus(pc, 1);
      case ReadAdd(r1, r2, imm) =>
        WriteReg(r1, data[Plus(regs[r2], imm) % 0x1000]);
        pc := Plus(pc, 1);
      case Branch(cond, annul, r2, disp) =>
        if cond.Always? || (cond.IfZero? && regs[r2] == 0) || (cond.IfNonZero? && regs[r2] != 0) {
          if annul {
            pc := Plus(pc, disp);
          } else {
            delayed := Plus(pc, disp);
            pc := Plus(pc, 1);
            skip := true;
          }
        } else {
          pc := Plus(pc, 1);
          if i.exit {
            exit := NONE;
          }
        }
      case Unknown =>
        pc := Plus(pc, 1);
        aborted := true;
    }

    /** The start of a turn: false if the budget of backward jumps is gone. */
    method Begin(i: Instr) returns (ok: bool)
      requires Valid() && !aborted
      modifies this`exit, this`jumps, this`lastpc, this`aborted
      ensures Valid() && ok == !OverBudget(old(View()))
      ensures ok ==> View() == Enter(old(View()), i)
      ensures !ok ==> View() == OutOfBudget(old(View()), i)
    {
      if i.exit {
        exit := 2;
      }
      if pc < lastpc {
        jumps := jumps + 1;
        if jumps - 1 > MAX_BACK_JUMPS {
          aborted := true;
          return false;
        }
      }
      lastpc := pc;
      ok := true;
    }

    /** The end of a turn. */
    method Finish() returns (stop: Option<Outcome>)
      requires Valid()
      modifies this`pc, this`delayed, this`exit
      ensures Valid() && View() == Count(Land(old(View())))
      ensures stop == Ending(old(exit), View())
    {
      if delayed != NONE {
        pc := delayed;
        delayed := NONE;
      }
      if exit != NONE {
        exit := Plus(exit, -1);
        if exit == 0 {
          return Some(if aborted then Aborted else Exited);
        }
      }
      stop := if aborted then Some(Aborted) else None;
    }

    /** One turn of the loop of `macro_sim`. */
    method Turn() returns (stop: Option<Outcome>)
      requires Valid() && !aborted && pc < |code|
      modifies this`pc, this`mthd, this`incr, this`sent, this`param, this`delayed, this`exit, this`aborted
      modifies this`jumps, this`lastpc, regs, data
      ensures Valid()
      ensures var t := Turn1(Arith, old(View()), Decode(old(code[pc])), old(Queue()));
              View() == t.s && Queue() == t.q && stop == if t.Stop? then Some(t.outcome) else None
    {
      hide Arith, Exec;
      var i := Decode(code[pc]);
      var ok := Begin(i);
      if !ok {
        return Some(Aborted);
      }
      var stall, skip := Execute(i);
      if stall {
        return Some(Stalled);
      }
      if skip {
        return None;
      }
      stop := Finish();
    }

    /** `macro_sim`.  A call that would never return is reported as `Spins`. */
    method Run() returns (end: Outcome)
      requires Valid() && Budget(View()) >= 0
      modifies this`pc, this`mthd, this`incr, this`sent, this`param, this`delayed, this`exit, this`aborted
      modifies this`jumps, this`lastpc, regs, data
      ensures Valid()
      ensures Halt(end, View(), Queue()) == Sim(Arith, Program(code), old(View()), old(Queue()))
    {
      hide Arith, Decode, Turn1;
      ghost var prog := Program(code);
      while !aborted
        invariant Valid() && Budget(View()) >= 0
        invariant Sim(Arith, prog, View(), Queue()) == Sim(Arith, prog, old(View()), old(Queue()))
        decreases RankOf(prog, View())
      {
        if pc >= |code| {
          return Escaped;
        }
        var i := Decode(code[pc]);
        if Spinning(i) {
          return Spins;
        }
        if Turn1(Arith, View(), i, Queue()).Go? {
          TurnDecreases(Arith, |prog|, View(), i, Queue());
        }
        var stop := Turn();
        if stop.Some? {
          return stop.value;
        }
      }
      end := Aborted;
    }

    predicate Spinning(i: Instr)
      requires Valid() && OkInstr(i)
      reads this, regs, data
      ensures Spinning(i) <==> SelfLoop(View(), i)
    {
      && !(pc < lastpc && jumps > MAX_BACK_JUMPS) && delayed == NONE && i.body.Branch?
      && (i.body.cond.Always? || (i.body.cond.IfZero? && regs[i.body.r2] == 0)
          || (i.body.cond.IfNonZero? && regs[i.body.r2] != 0))
      && i.body.annul && i.body.disp % TWO32 == 0 && (i.exit || exit == NONE)
    }

    /** `decode_macro`, MACRO_PARAM: one call with one parameter. */
    method SendParam(value: U32) returns (end: Outcome)
      requires Valid() && Budget(View()) >= 0 && param.None?
      modifies this, regs, data
      ensures Valid() && param.None? && code == old(code)
      ensures var h := Sim(Arith, Program(code), old(View()), [value]);
              end == h.outcome && View() == h.s
    {
      hide Sim, Decode, Arith;
      param := Some(value);
      end := Run();
      param := None;
    }
  }

  /** Launching a macro and sending its parameters one after the other, as the trace
      does: what happens is what one run with all the parameters does. */
  method Replay(code: seq<bv32>, value: U32, data: array<U32>, params: seq<U32>) returns (m: Interp, end: Outcome)
    requires data.Length == DATA_WORDS && |code| <= TWO32
    modifies data
    ensures fresh(m) && m.Valid()
    ensures var h := Sim(Arith, Program(code), Launch(value, old(data[..])), params);
            end == h.outcome && m.View() == h.s
  {
    hide Arith;
    m := new Interp(code, value, data);
    ghost var prog := Program(code);
    ghost var s := m.View();
    end := m.Run();
    ghost var h := Sim(Arith, prog, s, []);
    ReachedFirst(Arith, prog, s, params);
    SimRest(Arith, prog, s, []);
    var k := 0;
    while k < |params| && end.Stalled?
      invariant k <= |params| && m.Valid() && m.param.None? && m.code == code
      invariant fresh(m.regs) && m.data == data
      invariant h.outcome == end && h.s == m.View() && Reached(Arith, prog, s, params, h, k)
    {
      ReachedNext(Arith, prog, s, params, h, k);
      h := Sim(Arith, prog, h.s, [params[k]]);
      end := m.SendParam(params[k]);
      k := k + 1;
    }
    ReachedLast(Arith, prog, s, params, h, k);
  }

  /** The words that are branches to themselves: `bra`, `braz` or `branz` with `annul`
      and displacement 0. */
  lemma SelfBranchWord(c: bv32)
    ensures BranchToSelf(Decode(c)) <==> c & 0x27 == 0x27 && c >> 14 == 0
  {
    assert c & 0x27 == 0x27 ==> c & 7 == 7 && c & 0x20 != 0;
    assert c & 7 == 7 && c & 0x20 != 0 ==> c & 0x27 == 0x27;
    assert c & 7 == 7 ==> !IsRegReg(c) && c & 0x77 != 0x15 && c & 0x3877 != 0x15;
    assert c & 7 == 7 ==> c & 0x17 == 7 || c & 0x17 == 0x17;
    assert c & 0x17 == 7 || c & 0x17 == 0x17 || c & 0x3817 == 7 ==> c & 7 == 7;
    ImmZero(c);
  }

  lemma ImmZero(c: bv32)
    ensures Imm(c) % TWO32 == 0 <==> c >> 14 == 0
  {
    hide Signed18;
    var h := c >> 14;
    TopBit(c, h);
    HighPart(h);
    SignedZero(h as int, c & 0x8000_0000 != 0);
  }

  lemma SignedZero(n: nat, top: bool)
    requires n < 0x4_0000 && (top ==> n != 0)
    ensures Signed18(n, top) % TWO32 == 0 <==> n == 0
  {
  }

  lemma TopBit(c: bv32, h: bv32)
    requires h == c >> 14
    ensures h < 0x4_0000 && (c & 0x8000_0000 != 0 ==> h != 0)
  {
  }

  lemma HighPart(h: bv32)
    requires h < 0x4_0000
    ensures 0 <= h as int < 0x4_0000 && (h as int == 0 <==> h == 0)
  {
    if h as int == 0 {
      assert (h as int) as bv32 == h;
    }
  }

  /** One such word, launched: the call never returns. */
  lemma OneWordSpins(data: U32, obj: seq<U32>, q: seq<U32>, n: nat)
    requires |obj| == DATA_WORDS
    ensures var prog := Program([0x27]);
            Sim(Arith, prog, Launch(data, obj), q).outcome.Spins? &&
              RunFor(Arith, prog, Launch(data, obj), q, n).Running?
  {
    SelfBranchWord(0x27);
    var prog, s := Program([0x27]), Launch(data, obj);
    assert prog[0] == Decode(0x27) && prog[0].body == Branch(Always, true, 0, 0);
    LoopRunsOn(Arith, prog, s, q, n);
  }
}
