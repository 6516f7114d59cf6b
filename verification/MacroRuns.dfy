/** Whole runs of the macro interpreter: they end unless they reach a branch to
    itself, and feeding parameters one call at a time changes nothing. */
module MacroRuns {
  import opened MacroMachine

  // ---------------------------------------------------------------------
  // The measure
  // ---------------------------------------------------------------------

  /** Backward jumps that can still be taken, the pending one not counted. */
  function Budget(s: State): int {
    MAX_BACK_JUMPS + 2 - s.jumps - (if s.pc < s.lastpc then 1 else 0)
  }

  function Ahead(n: nat, s: State): nat {
    if s.pc < n then n - s.pc else 0
  }

  /** A delayed branch or an exit that is still to come. */
  function Pending(s: State): nat {
    (if s.delayed != NONE then 4 else 0) + (if s.exit == NONE then 0 else if s.exit <= 2 then s.exit + 1 else 0)
  }

  /** Turns left, at most, over `n` words of code. */
  function Rank(n: nat, s: State): int {
    (Budget(s) * (n + 1) + Ahead(n, s)) * 8 + Pending(s)
  }

  /** The longest run from a launch over `n` words: linear in `n`. */
  function Bound(n: nat): nat {
    (MAX_BACK_JUMPS + 2) * (n + 1) * 8 + n * 8 + 8
  }

  lemma Arithmetic(b: int, c: int, n: nat, x: nat, y: nat, p: nat, r: nat)
    requires c <= b && (c == b ==> y < x || (y == x && r < p))
    requires x <= n && y <= n && x > 0 && p < 8 && r < 8
    ensures (c * (n + 1) + y) * 8 + r < (b * (n + 1) + x) * 8 + p
  {
    if c < b {
      assert c * (n + 1) <= (b - 1) * (n + 1) == b * (n + 1) - (n + 1);
    }
  }

  lemma RankBound(n: nat, s: State)
    requires Ok(s)
    ensures Rank(n, s) <= Bound(n)
  {
    var b := Budget(s);
    assert b * (n + 1) <= (MAX_BACK_JUMPS + 2) * (n + 1);
  }

  lemma RankNonNegative(n: nat, s: State)
    requires Ok(s) && Budget(s) >= 0
    ensures Rank(n, s) >= 0
  {
    assert Budget(s) * (n + 1) >= 0;
  }

  lemma UseKeeps(s: State, use: Use, r1: nat, res: U32, parm: U32)
    requires Ok(s) && OkReg(r1)
    ensures var t := DoUse(s, use, r1, res, parm);
            t.pc == s.pc && t.exit == s.exit && t.delayed == s.delayed && t.lastpc == s.lastpc && t.jumps == s.jumps &&
            t.aborted == s.aborted
  {
  }

  /** Everything but a taken branch moves to the next word. */
  lemma ExecForms(alu: Alu, s: State, i: Instr, q: seq<U32>)
    requires Ok(s) && OkInstr(i) && !Stalls(i, q)
    ensures var t := Exec(alu, s, i, q);
            && t.lastpc == s.lastpc && t.jumps == s.jumps
            && (if Delays(s, i) then t.pc == Plus(s.pc, 1) && t.exit == s.exit
                else t.delayed == s.delayed)
            && (!(i.body.Branch? && Taken(s, i.body)) ==> t.pc == Plus(s.pc, 1))
            && (i.body.Branch? && Taken(s, i.body) ==> t.exit == s.exit)
            && (i.body.Branch? && i.body.annul && Taken(s, i.body) ==> t.pc == Plus(s.pc, i.body.disp))
  {
    if i.body.Compute? {
      UseKeeps(s, i.body.use, i.body.r1, alu(i.body.src, s.regs), if q == [] then 0 else q[0]);
    }
  }

  lemma PlusSame(a: U32, d: int)
    requires Plus(a, d) == a
    ensures d % TWO32 == 0
  {
    assert (a + d) % TWO32 == a;
    assert d == TWO32 * ((a + d) / TWO32);
    assert (TWO32 * ((a + d) / TWO32)) % TWO32 == 0;
  }

  /** A turn that stays where it is uses up something pending. */
  lemma StaysPut(alu: Alu, s: State, i: Instr, q: seq<U32>)
    requires Ok(s) && OkInstr(i) && !s.aborted && !SelfLoop(s, i)
    requires Turn1(alu, s, i, q).Go? && Turn1(alu, s, i, q).s.pc == s.pc
    ensures Pending(Turn1(alu, s, i, q).s) < Pending(s)
  {
    var e := Enter(s, i);
    ExecForms(alu, e, i, q);
    if !Delays(e, i) && s.delayed == NONE {
      assert i.body.Branch? && Taken(e, i.body);
      PlusSame(s.pc, i.body.disp);
    }
  }

  lemma TurnDecreases(alu: Alu, n: nat, s: State, i: Instr, q: seq<U32>)
    requires Ok(s) && OkInstr(i) && !s.aborted && s.pc < n && !SelfLoop(s, i)
    requires Turn1(alu, s, i, q).Go?
    ensures var t := Turn1(alu, s, i, q).s;
            Budget(t) >= 0 && Rank(n, t) < Rank(n, s)
  {
    var e := Enter(s, i);
    ExecForms(alu, e, i, q);
    var t := Turn1(alu, s, i, q).s;
    if t.pc == s.pc {
      StaysPut(alu, s, i, q);
    }
    Arithmetic(Budget(s), Budget(t), n, Ahead(n, s), Ahead(n, t), Pending(s), Pending(t));
  }

  // ---------------------------------------------------------------------
  // Runs
  // ---------------------------------------------------------------------

  /** How a call of `macro_sim` ends.  `Escaped` is the program counter outside the
      uploaded code, `Spins` a call that never returns. */
  datatype Halt = Halt(outcome: Outcome, s: State, rest: seq<U32>)

  /** `macro_sim` with the parameters in `q` at hand. */
  function Sim(alu: Alu, prog: seq<Instr>, s: State, q: seq<U32>): (h: Halt)
    requires Ok(s) && OkProg(prog) && Budget(s) >= 0
    ensures Ok(h.s)
    decreases RankOf(prog, s)
  {
    if s.aborted then Halt(Aborted, s, q)
    else if s.pc >= |prog| then Halt(Escaped, s, q)
    else if SelfLoop(s, prog[s.pc]) then Halt(Spins, s, q)
    else
      var turn := Turn1(alu, s, prog[s.pc], q);
      if turn.Stop? then Halt(turn.outcome, turn.s, turn.q)
      else
        TurnDecreases(alu, |prog|, s, prog[s.pc], q);
        Sim(alu, prog, turn.s, turn.q)
  }

  /** Parameters are used in the order they came, each once; a call that waits has
      used them all. */
  lemma {:induction false} SimRest(alu: Alu, prog: seq<Instr>, s: State, q: seq<U32>)
    requires Ok(s) && OkProg(prog) && Budget(s) >= 0
    ensures var h := Sim(alu, prog, s, q);
            |h.rest| <= |q| && h.rest == q[|q| - |h.rest|..] && (h.outcome.Stalled? ==> h.rest == [])
    decreases RankOf(prog, s)
  {
    hide Turn1;
    if !s.aborted && s.pc < |prog| && !SelfLoop(s, prog[s.pc]) {
      var turn := Turn1(alu, s, prog[s.pc], q);
      TurnRest(alu, s, prog[s.pc], q);
      if turn.Go? {
        TurnDecreases(alu, |prog|, s, prog[s.pc], q);
        SimRest(alu, prog, turn.s, turn.q);
      }
    }
  }

  lemma TurnRest(alu: Alu, s: State, i: Instr, q: seq<U32>)
    requires Ok(s) && OkInstr(i) && !s.aborted
    ensures var t := Turn1(alu, s, i, q);
            && (t.q == q || (q != [] && t.q == q[1..])) && (t.Stop? && t.outcome.Stalled? ==> t.q == [])
  {
    hide Exec;
  }

  function RankOf(prog: seq<Instr>, s: State): (r: nat)
    requires Ok(s) && Budget(s) >= 0
    ensures r == Rank(|prog|, s)
  {
    RankNonNegative(|prog|, s);
    Rank(|prog|, s)
  }

  /** The turns such a call takes. */
  function Turns(alu: Alu, prog: seq<Instr>, s: State, q: seq<U32>): (n: nat)
    requires Ok(s) && OkProg(prog) && Budget(s) >= 0
    ensures n <= RankOf(prog, s) + 1
    decreases RankOf(prog, s)
  {
    if s.aborted || s.pc >= |prog| || SelfLoop(s, prog[s.pc]) then 0
    else
      var turn := Turn1(alu, s, prog[s.pc], q);
      if turn.Stop? then 1
      else
        TurnDecreases(alu, |prog|, s, prog[s.pc], q);
        1 + Turns(alu, prog, turn.s, turn.q)
  }

  // ---------------------------------------------------------------------
  // Which calls return
  // ---------------------------------------------------------------------

  /** The interpreter's loop for `n` turns and no more, with no regard to branches to
      themselves. */
  datatype Progress = Ended(halt: Halt) | Running(s: State, q: seq<U32>)

  function RunFor(alu: Alu, prog: seq<Instr>, s: State, q: seq<U32>, n: nat): Progress
    requires Ok(s) && OkProg(prog)
    decreases n
  {
    if s.aborted then Ended(Halt(Aborted, s, q))
    else if s.pc >= |prog| then Ended(Halt(Escaped, s, q))
    else if n == 0 then Running(s, q)
    else
      var turn := Turn1(alu, s, prog[s.pc], q);
      if turn.Stop? then Ended(Halt(turn.outcome, turn.s, turn.q)) else RunFor(alu, prog, turn.s, turn.q, n - 1)
  }

  /** A branch without a delay slot whose target is itself. */
  predicate BranchToSelf(i: Instr) {
    i.body.Branch? && i.body.annul && i.body.disp % TWO32 == 0
  }

  predicate NoBranchToSelf(prog: seq<Instr>) {
    forall k :: 0 <= k < |prog| ==> !BranchToSelf(prog[k])
  }

  /** There it stays for ever: after one turn nothing changes any more. */
  lemma SpinsForEver(alu: Alu, s: State, i: Instr, q: seq<U32>)
    requires Ok(s) && OkInstr(i) && !s.aborted && SelfLoop(s, i)
    ensures var t := Turn1(alu, s, i, q);
            && t.Go? && t.q == q && t.s.pc == s.pc && SelfLoop(t.s, i)
            && Turn1(alu, t.s, i, q) == Go(t.s, q)
  {
    assert Plus(s.pc, i.body.disp) == s.pc by {
      assert i.body.disp == TWO32 * (i.body.disp / TWO32);
      assert (s.pc + TWO32 * (i.body.disp / TWO32)) % TWO32 == s.pc;
    }
  }

  lemma {:induction false} LoopRunsOn(alu: Alu, prog: seq<Instr>, s: State, q: seq<U32>, n: nat)
    requires Ok(s) && OkProg(prog) && !s.aborted && s.pc < |prog| && SelfLoop(s, prog[s.pc])
    ensures RunFor(alu, prog, s, q, n).Running?
    decreases n
  {
    SpinsForEver(alu, s, prog[s.pc], q);
    if n > 0 {
      LoopRunsOn(alu, prog, Turn1(alu, s, prog[s.pc], q).s, q, n - 1);
    }
  }

  /** `Sim` is the loop itself: where it ends, the loop ends so within that many turns,
      and where it says `Spins` the loop never ends. */
  lemma {:induction false} SimIsTheLoop(alu: Alu, prog: seq<Instr>, s: State, q: seq<U32>, n: nat)
    requires Ok(s) && OkProg(prog) && Budget(s) >= 0
    ensures var h := Sim(alu, prog, s, q);
            if h.outcome.Spins? then RunFor(alu, prog, s, q, n).Running?
            else n >= Turns(alu, prog, s, q) ==> RunFor(alu, prog, s, q, n) == Ended(h)
    decreases RankOf(prog, s)
  {
    hide Turn1;
    if !s.aborted && s.pc < |prog| {
      if SelfLoop(s, prog[s.pc]) {
        LoopRunsOn(alu, prog, s, q, n);
      } else {
        var turn := Turn1(alu, s, prog[s.pc], q);
        NotSpinning(alu, s, prog[s.pc], q);
        if turn.Go? && n > 0 {
          TurnDecreases(alu, |prog|, s, prog[s.pc], q);
          SimIsTheLoop(alu, prog, turn.s, turn.q, n - 1);
        }
      }
    }
  }

  lemma NotSpinning(alu: Alu, s: State, i: Instr, q: seq<U32>)
    requires Ok(s) && OkInstr(i) && !s.aborted
    ensures var t := Turn1(alu, s, i, q); t.Stop? ==> !t.outcome.Spins?
  {
    hide Exec;
  }

  /** A call does not spin over code without a branch to itself. */
  lemma {:induction false} NeverSpins(alu: Alu, prog: seq<Instr>, s: State, q: seq<U32>)
    requires Ok(s) && OkProg(prog) && Budget(s) >= 0 && NoBranchToSelf(prog)
    ensures !Sim(alu, prog, s, q).outcome.Spins?
    decreases RankOf(prog, s)
  {
    hide Turn1;
    if !s.aborted && s.pc < |prog| {
      assert !BranchToSelf(prog[s.pc]);
      var turn := Turn1(alu, s, prog[s.pc], q);
      NotSpinning(alu, s, prog[s.pc], q);
      if turn.Go? {
        TurnDecreases(alu, |prog|, s, prog[s.pc], q);
        NeverSpins(alu, prog, turn.s, turn.q);
      }
    }
  }

  /** Over such code every call returns within a number of turns linear in its size. */
  lemma RunsAreBounded(alu: Alu, prog: seq<Instr>, s: State, q: seq<U32>)
    requires Ok(s) && OkProg(prog) && Budget(s) >= 0 && NoBranchToSelf(prog)
    ensures RunFor(alu, prog, s, q, Bound(|prog|) + 1) == Ended(Sim(alu, prog, s, q))
  {
    RankBound(|prog|, s);
    NeverSpins(alu, prog, s, q);
    SimIsTheLoop(alu, prog, s, q, Bound(|prog|) + 1);
  }

  ghost predicate Returns(alu: Alu, prog: seq<Instr>, s: State, q: seq<U32>)
    requires Ok(s) && OkProg(prog)
  {
    exists n :: RunFor(alu, prog, s, q, n).Ended?
  }

  /** A state at word `k` in which the branch there is taken. */
  function At(k: U32, i: Body): (s: State)
    requires i.Branch? && OkReg(i.r2)
    ensures Ok(s) && Budget(s) >= 0 && s.pc == k && !s.aborted && Taken(s, i)
  {
    var v := if i.cond.IfNonZero? then 1 else 0;
    State(k, seq(8, _ => v), 0, 0, false, NONE, NONE, 0, 0, seq(DATA_WORDS, _ => 0), [])
  }

  /** The code for which every call returns, whatever state it starts in, is exactly the
      code without a branch to itself. */
  lemma ReturnsIff(alu: Alu, prog: seq<Instr>)
    requires OkProg(prog)
    ensures NoBranchToSelf(prog) <==> forall s, q :: Ok(s) && Budget(s) >= 0 ==> Returns(alu, prog, s, q)
  {
    if NoBranchToSelf(prog) {
      forall s, q | Ok(s) && Budget(s) >= 0 ensures Returns(alu, prog, s, q) {
        RunsAreBounded(alu, prog, s, q);
      }
    } else {
      var k :| 0 <= k < |prog| && BranchToSelf(prog[k]);
      var s := At(k, prog[k].body);
      forall n: nat ensures RunFor(alu, prog, s, [], n).Running? {
        LoopRunsOn(alu, prog, s, [], n);
      }
      assert !Returns(alu, prog, s, []);
    }
  }

  // ---------------------------------------------------------------------
  // Suspension
  // ---------------------------------------------------------------------

  /** A stall leaves nothing behind that running the instruction again would repeat. */
  lemma StallIsIdle(alu: Alu, s: State, i: Instr, q: seq<U32>)
    requires Ok(s) && OkInstr(i) && !s.aborted && Turn1(alu, s, i, []).Stop? && Turn1(alu, s, i, []).outcome.Stalled?
    ensures var t := Turn1(alu, s, i, []).s;
            && t.pc == s.pc && !t.aborted && Budget(t) >= 0 && t.regs == s.regs && t.mthd == s.mthd
            && t.incr == s.incr && t.data == s.data && t.sent == s.sent
            && Turn1(alu, t, i, q) == Turn1(alu, s, i, q)
            && !SelfLoop(t, i)
  {
    var t := Turn1(alu, s, i, []).s;
    assert t == Enter(s, i) && Enter(t, i) == t;
  }

  /** More parameters at hand change nothing in a turn that does not stall. */
  lemma TurnIgnoresMore(alu: Alu, s: State, i: Instr, q: seq<U32>, more: seq<U32>)
    requires Ok(s) && OkInstr(i) && !s.aborted
    requires !(Turn1(alu, s, i, q).Stop? && Turn1(alu, s, i, q).outcome.Stalled?)
    ensures var t := Turn1(alu, s, i, q);
            Turn1(alu, s, i, q + more) == (if t.Stop? then Stop(t.outcome, t.s, t.q + more) else Go(t.s, t.q + more))
  {
    if !OverBudget(s) {
      assert !Stalls(i, q);
      if q != [] {
        assert (q + more)[0] == q[0] && (q + more)[1..] == q[1..] + more;
      } else {
        assert q + more == more;
      }
      ExecIgnoresMore(alu, Enter(s, i), i, q, more);
    }
  }

  lemma ExecIgnoresMore(alu: Alu, s: State, i: Instr, q: seq<U32>, more: seq<U32>)
    requires Ok(s) && OkInstr(i) && !Stalls(i, q)
    ensures Exec(alu, s, i, q + more) == Exec(alu, s, i, q)
    ensures Rest(i, q + more) == Rest(i, q) + more
  {
    if q == [] {
      if i.body.Compute? {
        UseIgnores(s, i.body.use, i.body.r1, alu(i.body.src, s.regs), if more == [] then 0 else more[0], 0);
      }
      assert q + more == more;
    } else {
      assert (q + more)[0] == q[0] && (q + more)[1..] == q[1..] + more;
    }
  }

  lemma UseIgnores(s: State, use: Use, r1: nat, res: U32, p: U32, p': U32)
    requires Ok(s) && OkReg(r1) && !NeedsParam(use)
    ensures DoUse(s, use, r1, res, p) == DoUse(s, use, r1, res, p')
  {
  }

  /** Running with part of the parameters and then, if that stalls, with the others
      is running with all of them: the same end, the same registers, method address,
      sends and object state, and the same parameters used up. */
  lemma {:induction false} SuspendedRun(alu: Alu, prog: seq<Instr>, s: State, q: seq<U32>, more: seq<U32>)
    requires Ok(s) && OkProg(prog) && Budget(s) >= 0
    ensures var h := Sim(alu, prog, s, q);
            if h.outcome.Stalled? then Budget(h.s) >= 0 && Sim(alu, prog, h.s, more) == Sim(alu, prog, s, q + more)
            else Sim(alu, prog, s, q + more) == Halt(h.outcome, h.s, h.rest + more)
    decreases RankOf(prog, s)
  {
    if !s.aborted && s.pc < |prog| && !SelfLoop(s, prog[s.pc]) {
      var i := prog[s.pc];
      var turn := Turn1(alu, s, i, q);
      if turn.Stop? && turn.outcome.Stalled? {
        assert q == [] && q + more == more;
        StallIsIdle(alu, s, i, more);
      } else {
        TurnIgnoresMore(alu, s, i, q, more);
        if turn.Go? {
          TurnDecreases(alu, |prog|, s, i, q);
          SuspendedRun(alu, prog, turn.s, turn.q, more);
        }
      }
    }
  }

  /** `decode_macro`: the launch, with the first word in register 1. */
  function Launch(data: U32, obj: seq<U32>): (s: State)
    requires |obj| == DATA_WORDS
    ensures Ok(s) && Budget(s) >= 0
  {
    State(0, [0, data, 0, 0, 0, 0, 0, 0], 0, 0, false, NONE, NONE, 0, 0, obj, [])
  }

  /** `decode_macro`: one call of the interpreter for each parameter sent, as long as
      the macro is waiting for one.  A parameter the call did not use is forgotten. */
  function Feed(alu: Alu, prog: seq<Instr>, h: Halt, params: seq<U32>): Halt
    requires Ok(h.s) && OkProg(prog) && (h.outcome.Stalled? ==> Budget(h.s) >= 0)
    decreases |params|
  {
    if params == [] || !h.outcome.Stalled? then Halt(h.outcome, h.s, params)
    else
      var next := Sim(alu, prog, h.s, [params[0]]);
      SuspendedRun(alu, prog, h.s, [params[0]], []);
      Feed(alu, prog, next, params[1..])
  }

  /** A call made while the macro waits uses its parameter up. */
  lemma {:induction false} ParameterTaken(alu: Alu, prog: seq<Instr>, s: State, q: seq<U32>, p: U32)
    requires Ok(s) && OkProg(prog) && Budget(s) >= 0 && Sim(alu, prog, s, q).outcome.Stalled?
    ensures var h := Sim(alu, prog, s, q);
            Budget(h.s) >= 0 && Sim(alu, prog, h.s, [p]).rest == []
    decreases RankOf(prog, s)
  {
    var i := prog[s.pc];
    var turn := Turn1(alu, s, i, q);
    if turn.Stop? {
      StallIsIdle(alu, s, i, [p]);
      FirstTurnTakes(alu, prog, turn.s, p);
    } else {
      TurnDecreases(alu, |prog|, s, i, q);
      ParameterTaken(alu, prog, turn.s, turn.q, p);
    }
  }

  lemma FirstTurnTakes(alu: Alu, prog: seq<Instr>, s: State, p: U32)
    requires Ok(s) && OkProg(prog) && Budget(s) >= 0 && !s.aborted && s.pc < |prog| && !OverBudget(s)
    requires Stalls(prog[s.pc], []) && !SelfLoop(s, prog[s.pc])
    ensures Sim(alu, prog, s, [p]).rest == []
  {
    TurnTakes(alu, s, prog[s.pc], p);
    var turn := Turn1(alu, s, prog[s.pc], [p]);
    if turn.Go? {
      TurnDecreases(alu, |prog|, s, prog[s.pc], [p]);
      SimRest(alu, prog, turn.s, []);
    }
  }

  lemma TurnTakes(alu: Alu, s: State, i: Instr, p: U32)
    requires Ok(s) && OkInstr(i) && !s.aborted && !OverBudget(s) && Stalls(i, [])
    ensures Turn1(alu, s, i, [p]).q == []
  {
  }

  /** Running with parameters is running without them first. */
  lemma Resume(alu: Alu, prog: seq<Instr>, s: State, params: seq<U32>)
    requires Ok(s) && OkProg(prog) && Budget(s) >= 0
    ensures var h := Sim(alu, prog, s, []);
            Sim(alu, prog, s, params) ==
            if h.outcome.Stalled? && Budget(h.s) >= 0 then Sim(alu, prog, h.s, params)
            else Halt(h.outcome, h.s, params)
    ensures var h := Sim(alu, prog, s, []);
            h.outcome.Stalled? ==> Waiting(alu, prog, h)
  {
    SuspendedRun(alu, prog, s, [], params);
    SimRest(alu, prog, s, []);
    assert [] + params == params;
    if Sim(alu, prog, s, []).outcome.Stalled? {
      WaitsAgain(alu, prog, s, []);
    }
  }

  /** The end of a call that waits for a parameter. */
  ghost predicate Waiting(alu: Alu, prog: seq<Instr>, h: Halt)
    requires OkProg(prog)
  {
    Ok(h.s) && Budget(h.s) >= 0 && h.outcome.Stalled? && Sim(alu, prog, h.s, []) == h
  }

  lemma OneMore(alu: Alu, prog: seq<Instr>, h: Halt, params: seq<U32>)
    requires OkProg(prog) && Waiting(alu, prog, h) && params != []
    ensures var next := Sim(alu, prog, h.s, [params[0]]);
            Sim(alu, prog, h.s, params) ==
            if next.outcome.Stalled? && Ok(next.s) && Budget(next.s) >= 0 then Sim(alu, prog, next.s, params[1..])
            else Halt(next.outcome, next.s, params[1..])
  {
    var first := [params[0]];
    ParameterTaken(alu, prog, h.s, [], params[0]);
    SuspendedRun(alu, prog, h.s, first, params[1..]);
    assert params == first + params[1..] && [] + params[1..] == params[1..];
  }

  /** The same from a state in which the macro waits. */
  lemma {:induction false} FeedWaiting(alu: Alu, prog: seq<Instr>, h: Halt, params: seq<U32>)
    requires OkProg(prog) && Waiting(alu, prog, h)
    ensures Feed(alu, prog, h, params) == Sim(alu, prog, h.s, params)
    decreases |params|
  {
    if params != [] {
      OneMore(alu, prog, h, params);
      var next := Sim(alu, prog, h.s, [params[0]]);
      if next.outcome.Stalled? {
        WaitsAgain(alu, prog, h.s, [params[0]]);
        FeedWaiting(alu, prog, next, params[1..]);
      }
    } else {
      SimRest(alu, prog, h.s, []);
    }
  }

  /** A waiting macro called without a parameter waits on unchanged. */
  lemma WaitsAgain(alu: Alu, prog: seq<Instr>, s: State, q: seq<U32>)
    requires Ok(s) && OkProg(prog) && Budget(s) >= 0 && Sim(alu, prog, s, q).outcome.Stalled?
    ensures var h := Sim(alu, prog, s, q);
            Budget(h.s) >= 0 && Sim(alu, prog, h.s, []) == h
  {
    SuspendedRun(alu, prog, s, q, []);
    assert q + [] == q;
  }

  /** Launching a macro and sending it its parameters one call at a time ends exactly
      as running it once with all of them. */
  lemma StreamedIsBatch(alu: Alu, prog: seq<Instr>, data: U32, obj: seq<U32>, params: seq<U32>)
    requires |obj| == DATA_WORDS && OkProg(prog)
    ensures var s := Launch(data, obj);
            var h := Sim(alu, prog, s, []);
            && (h.outcome.Stalled? ==> Budget(h.s) >= 0)
            && Feed(alu, prog, h, params) == Sim(alu, prog, s, params)
  {
    var s := Launch(data, obj);
    Resume(alu, prog, s, params);
    var h := Sim(alu, prog, s, []);
    if h.outcome.Stalled? {
      FeedWaiting(alu, prog, h, params);
    }
  }

  /** A replay that has sent `k` of the parameters and got as far as `h`. */
  ghost predicate Reached(alu: Alu, prog: seq<Instr>, s: State, params: seq<U32>, h: Halt, k: nat)
    requires Ok(s) && OkProg(prog) && Budget(s) >= 0
  {
    && k <= |params| && Ok(h.s)
    && (if h.outcome.Stalled? then
          Waiting(alu, prog, h) && Sim(alu, prog, h.s, params[k..]) == Sim(alu, prog, s, params)
        else Sim(alu, prog, s, params) == Halt(h.outcome, h.s, params[k..]))
  }

  lemma ReachedFirst(alu: Alu, prog: seq<Instr>, s: State, params: seq<U32>)
    requires Ok(s) && OkProg(prog) && Budget(s) >= 0
    ensures Reached(alu, prog, s, params, Sim(alu, prog, s, []), 0)
  {
    Resume(alu, prog, s, params);
    assert params[0..] == params;
  }

  lemma ReachedNext(alu: Alu, prog: seq<Instr>, s: State, params: seq<U32>, h: Halt, k: nat)
    requires Ok(s) && OkProg(prog) && Budget(s) >= 0
    requires Reached(alu, prog, s, params, h, k) && h.outcome.Stalled? && k < |params|
    ensures Reached(alu, prog, s, params, Sim(alu, prog, h.s, [params[k]]), k + 1)
  {
    OneMore(alu, prog, h, params[k..]);
    assert params[k..][0] == params[k] && params[k..][1..] == params[k + 1..];
    if Sim(alu, prog, h.s, [params[k]]).outcome.Stalled? {
      WaitsAgain(alu, prog, h.s, [params[k]]);
    }
  }

  lemma ReachedLast(alu: Alu, prog: seq<Instr>, s: State, params: seq<U32>, h: Halt, k: nat)
    requires Ok(s) && OkProg(prog) && Budget(s) >= 0
    requires Reached(alu, prog, s, params, h, k) && (k == |params| || !h.outcome.Stalled?)
    ensures var end := Sim(alu, prog, s, params);
            end.outcome == h.outcome && end.s == h.s
  {
    if h.outcome.Stalled? {
      assert params[k..] == [];
    }
  }

  /** A branch that carries the exit bit: the code keeps the exit pending exactly when
      the branch is taken and drops it when it is not. */
  lemma ExitOnBranch(alu: Alu, s: State, i: Instr, q: seq<U32>)
    requires Ok(s) && OkInstr(i) && !s.aborted && !OverBudget(s) && i.body.Branch? && i.exit
    ensures var t := Turn1(alu, s, i, q);
            t.Go? && (t.s.exit == NONE <==> !Taken(s, i.body))
  {
  }

  // ---------------------------------------------------------------------
  // Method sends
  // ---------------------------------------------------------------------

  /** Object state after some sends. */
  function Applied(data: seq<U32>, sends: seq<Sent>): (r: seq<U32>)
    ensures |r| == |data|
    decreases |sends|
  {
    if sends == [] then data
    else
      var m := sends[0].mthd / 4;
      Applied(if m < |data| then data[m := sends[0].value] else data, sends[1..])
  }

  /** `t` is a later state than `s`: its log of sends continues that of `s`, and the
      object state is that of `s` with the new sends applied in order. */
  ghost predicate Later(s: State, t: State) {
    && |s.sent| <= |t.sent| && s.sent == t.sent[..|s.sent|]
    && t.data == Applied(s.data, t.sent[|s.sent|..])
  }

  lemma {:induction false} AppliedMore(data: seq<U32>, a: seq<Sent>, b: seq<Sent>)
    ensures Applied(data, a + b) == Applied(Applied(data, a), b)
    decreases |a|
  {
    if a == [] {
      assert a + b == b;
    } else {
      assert (a + b)[1..] == a[1..] + b;
      var m := a[0].mthd / 4;
      AppliedMore(if m < |data| then data[m := a[0].value] else data, a[1..], b);
    }
  }

  lemma LaterTrans(s: State, t: State, u: State)
    requires Later(s, t) && Later(t, u)
    ensures Later(s, u)
  {
    var a, b := t.sent[|s.sent|..], u.sent[|t.sent|..];
    assert u.sent[|s.sent|..] == a + b;
    AppliedMore(s.data, a, b);
  }

  lemma LaterSame(s: State, t: State)
    requires t.sent == s.sent && t.data == s.data
    ensures Later(s, t)
  {
    assert t.sent[|s.sent|..] == [];
  }

  lemma SendLater(s: State, v: U32)
    requires Ok(s)
    ensures Later(s, DoSend(s, v))
  {
    var t := DoSend(s, v);
    assert t.sent[|s.sent|..] == [Sent(s.mthd, v)];
    assert [Sent(s.mthd, v)][1..] == [];
  }

  lemma UseLater(s: State, use: Use, r1: nat, res: U32, parm: U32)
    requires Ok(s) && OkReg(r1)
    ensures Later(s, DoUse(s, use, r1, res, parm))
  {
    hide Later;
    var t := DoUse(s, use, r1, res, parm);
    match use
    case ParmSend => SendLater(s, res); LaterSame(DoSend(s, res), t); LaterTrans(s, DoSend(s, res), t);
    case Send => SendLater(s, res); LaterSame(DoSend(s, res), t); LaterTrans(s, DoSend(s, res), t);
    case ParmSendMaddr =>
      var u := SetMaddr(s, res);
      LaterSame(s, u);
      SendLater(u, parm);
      LaterTrans(s, u, DoSend(u, parm));
      LaterSame(DoSend(u, parm), t);
      LaterTrans(s, DoSend(u, parm), t);
    case MaddrSend =>
      var u, v := SetMethod(s, res), res / 0x1000 % 0x40;
      LaterSame(s, u);
      SendLater(u, v);
      LaterTrans(s, u, DoSend(u, v));
      LaterSame(DoSend(u, v), t);
      LaterTrans(s, DoSend(u, v), t);
    case _ => LaterSame(s, t);
  }

  lemma ExecLater(alu: Alu, s: State, i: Instr, q: seq<U32>)
    requires Ok(s) && OkInstr(i) && !Stalls(i, q)
    ensures Later(s, Exec(alu, s, i, q))
  {
    hide Later, DoUse;
    var t := Exec(alu, s, i, q);
    if i.body.Compute? {
      var u := DoUse(s, i.body.use, i.body.r1, alu(i.body.src, s.regs), if q == [] then 0 else q[0]);
      UseLater(s, i.body.use, i.body.r1, alu(i.body.src, s.regs), if q == [] then 0 else q[0]);
      LaterSame(u, t);
      LaterTrans(s, u, t);
    } else {
      LaterSame(s, t);
    }
  }

  lemma TurnLater(alu: Alu, s: State, i: Instr, q: seq<U32>)
    requires Ok(s) && OkInstr(i) && !s.aborted
    ensures Later(s, Turn1(alu, s, i, q).s)
  {
    hide Later, Exec;
    if OverBudget(s) {
      LaterSame(s, OutOfBudget(s, i));
    } else {
      var e := Enter(s, i);
      LaterSame(s, e);
      if !Stalls(i, q) {
        var t := Exec(alu, e, i, q);
        ExecLater(alu, e, i, q);
        LaterTrans(s, e, t);
        if !Delays(e, i) {
          LaterSame(t, Count(Land(t)));
          LaterTrans(s, t, Count(Land(t)));
        }
      }
    }
  }

  /** Over a whole run the log of sends only grows, and the object state is always
      what it was at the start with the sends applied to it in order: nothing else
      writes it, and no send is lost. */
  lemma {:induction false} SendsAreConserved(alu: Alu, prog: seq<Instr>, s: State, q: seq<U32>)
    requires Ok(s) && OkProg(prog) && Budget(s) >= 0
    ensures Later(s, Sim(alu, prog, s, q).s)
    decreases RankOf(prog, s)
  {
    hide Later, Turn1;
    LaterSame(s, s);
    if !s.aborted && s.pc < |prog| && !SelfLoop(s, prog[s.pc]) {
      var turn := Turn1(alu, s, prog[s.pc], q);
      TurnLater(alu, s, prog[s.pc], q);
      if turn.Go? {
        TurnDecreases(alu, |prog|, s, prog[s.pc], q);
        SendsAreConserved(alu, prog, turn.s, turn.q);
        LaterTrans(s, turn.s, Sim(alu, prog, turn.s, turn.q).s);
      }
    }
  }
}
