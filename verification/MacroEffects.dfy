/** What a turn of the macro interpreter does, on numbers: the results it computes, the
    methods it sends, the registers it writes, and where it goes on. */
module MacroEffects {
  import opened Options
  import opened Words
  import opened Numbers
  import opened MacroMachine
  import MacroRuns
  import D = MacroDecode

  // ---------------------------------------------------------------------
  // Results
  // ---------------------------------------------------------------------

  /** A result of `size + 1` bits of `x` from bit `from` on, moved to bit `to`; bits that leave
      the word are lost, and a size of 32 bits counts as none. */
  ghost predicate Moved(x: int, from: nat, size: nat, to: nat, k: nat) {
    to % 32 <= k < to % 32 + (size + 1) % 32 && k - to % 32 + from % 32 < 32 && Bit(x, k - to % 32 + from % 32)
  }

  /** `res` is what the source computes from the registers. */
  ghost predicate Computes(src: Source, regs: seq<U32>, res: U32)
    requires |regs| == 8 && OkSource(src)
  {
    match src
    case RegReg(op, r2, r3) =>
      var x, y := regs[r2], regs[r3];
      (match op
       case AddOp => res == (x + y) % TWO32
       case AdcOp => res == (x + y) % TWO32
       case SubOp => res == (x - y) % TWO32
       case SbbOp => res == (x - y) % TWO32
       case XorOp => forall k :: 0 <= k < 32 ==> (Bit(res, k) <==> Bit(x, k) != Bit(y, k))
       case OrOp => forall k :: 0 <= k < 32 ==> (Bit(res, k) <==> Bit(x, k) || Bit(y, k))
       case AndOp => forall k :: 0 <= k < 32 ==> (Bit(res, k) <==> Bit(x, k) && Bit(y, k))
       case AndnOp => forall k :: 0 <= k < 32 ==> (Bit(res, k) <==> Bit(x, k) && !Bit(y, k))
       case NandOp => forall k :: 0 <= k < 32 ==> (Bit(res, k) <==> !(Bit(x, k) && Bit(y, k))))
    case ImmSrc(imm) => res == imm % TWO32
    case RegSrc(r2) => res == regs[r2]
    case AddImm(r2, imm) => res == (regs[r2] + imm) % TWO32
    case ExtrInsrt(r2, r3, from, size, to) =>
      forall k :: 0 <= k < 32 ==>
        (Bit(res, k) <==> if to % 32 <= k < to % 32 + (size + 1) % 32 then Moved(regs[r3], from, size, to, k)
                          else Bit(regs[r2], k))
    case ExtrShlDst(r2, r3, size, to) =>
      forall k :: 0 <= k < 32 ==> (Bit(res, k) <==> Moved(regs[r3], regs[r2], size, to, k))
    case ExtrShlSrc(r2, r3, from, size) =>
      forall k :: 0 <= k < 32 ==> (Bit(res, k) <==> Moved(regs[r3], from, size, regs[r2], k))
  }

  predicate OkSource(src: Source) {
    match src
    case RegReg(_, r2, r3) => r2 < 8 && r3 < 8
    case RegSrc(r2) => r2 < 8
    case AddImm(r2, _) => r2 < 8
    case ExtrInsrt(r2, r3, _, _, _) => r2 < 8 && r3 < 8
    case ExtrShlDst(r2, r3, _, _) => r2 < 8 && r3 < 8
    case ExtrShlSrc(r2, r3, _, _) => r2 < 8 && r3 < 8
    case _ => true
  }

  lemma RegisterBit(x: U32, k: nat)
    requires k < 64
    ensures D.ToBits(x)[k] <==> Bit(x, k)
  {
    hide Val, Bit, Pow2;
    D.ThirtyTwo();
    Pow2Grows(32, 64);
    FromNatValue(x);
    Quotient(x, Pow2(64), 0, x);
    BitOfVal(D.ToBits(x), k);
  }

  lemma ResultBit(w: Word, k: nat)
    requires k < 32
    ensures Bit(D.OfBits(w), k) <==> w[k]
  {
    hide Val, Bit, Pow2;
    BitOfVal(D.Cut(w), k);
  }

  lemma ExtractBit(x: U32, from: nat, size: nat, to: nat, k: nat)
    requires k < 32
    ensures D.Extract(D.ToBits(x), from, size, to)[k] <==> Moved(x, from, size, to, k)
  {
    hide Bit, D.ToBits;
    var j := k - to % 32 + from % 32;
    if 0 <= j < 64 {
      RegisterBit(x, j);
    }
    PickedBit(D.ToBits(x), from, size, to, k);
  }

  lemma PickedBit(w: Word, from: nat, size: nat, to: nat, k: nat)
    requires k < 32
    ensures D.Extract(w, from, size, to)[k] <==>
            to % 32 <= k < to % 32 + (size + 1) % 32 && k - to % 32 + from % 32 < 32 && w[k - to % 32 + from % 32]
  {
  }

  lemma LogicMeans(op: AluOp, regs: seq<U32>, r2: nat, r3: nat)
    requires |regs| == 8 && r2 < 8 && r3 < 8
    ensures Computes(RegReg(op, r2, r3), regs, D.Arith(RegReg(op, r2, r3), regs))
  {
    hide Bit, D.OfBits, D.ToBits;
    var x, y := regs[r2], regs[r3];
    var a, b := D.ToBits(x), D.ToBits(y);
    forall k | 0 <= k < 32
      ensures (Bit(x, k) <==> a[k]) && (Bit(y, k) <==> b[k])
      ensures Bit(D.OfBits(Xor(a, b)), k) <==> a[k] != b[k]
      ensures Bit(D.OfBits(Or(a, b)), k) <==> a[k] || b[k]
      ensures Bit(D.OfBits(And(a, b)), k) <==> a[k] && b[k]
      ensures Bit(D.OfBits(And(a, Not(b))), k) <==> a[k] && !b[k]
      ensures Bit(D.OfBits(Not(And(a, b))), k) <==> !(a[k] && b[k])
    {
      RegisterBit(x, k);
      RegisterBit(y, k);
      ResultBit(Xor(a, b), k);
      ResultBit(Or(a, b), k);
      ResultBit(And(a, b), k);
      ResultBit(And(a, Not(b)), k);
      ResultBit(Not(And(a, b)), k);
    }
  }

  lemma InsertMeans(regs: seq<U32>, r2: nat, r3: nat, from: nat, size: nat, to: nat)
    requires |regs| == 8 && r2 < 8 && r3 < 8
    ensures Computes(ExtrInsrt(r2, r3, from, size, to), regs, D.Arith(ExtrInsrt(r2, r3, from, size, to), regs))
  {
    hide Bit, Moved, D.OfBits, D.ToBits, D.Extract;
    var kept := And(D.ToBits(regs[r2]), Not(D.Shl32(D.LowMask(size), to)));
    var moved := D.Extract(D.ToBits(regs[r3]), from, size, to);
    forall k | 0 <= k < 32
      ensures Bit(D.OfBits(Or(kept, moved)), k) <==>
              if to % 32 <= k < to % 32 + (size + 1) % 32 then Moved(regs[r3], from, size, to, k) else Bit(regs[r2], k)
    {
      ResultBit(Or(kept, moved), k);
      ExtractBit(regs[r3], from, size, to, k);
      RegisterBit(regs[r2], k);
      NotMoved(regs[r3], from, size, to, k);
    }
  }

  lemma NotMoved(x: int, from: nat, size: nat, to: nat, k: nat)
    ensures Moved(x, from, size, to, k) ==> to % 32 <= k < to % 32 + (size + 1) % 32
  {
  }

  /** What `macro_sim` computes from the registers. */
  lemma ArithMeans(src: Source, regs: seq<U32>)
    requires |regs| == 8 && OkSource(src)
    ensures Computes(src, regs, D.Arith(src, regs))
  {
    hide Bit, Moved, D.OfBits, D.ToBits, D.Extract;
    match src {
      case RegReg(op, r2, r3) => LogicMeans(op, regs, r2, r3);
      case ExtrInsrt(r2, r3, from, size, to) => InsertMeans(regs, r2, r3, from, size, to);
      case ExtrShlDst(r2, r3, size, to) =>
        forall k | 0 <= k < 32 ensures Bit(D.Arith(src, regs), k) <==> Moved(regs[r3], regs[r2], size, to, k) {
          ResultBit(D.Extract(D.ToBits(regs[r3]), regs[r2], size, to), k);
          ExtractBit(regs[r3], regs[r2], size, to, k);
        }
      case ExtrShlSrc(r2, r3, from, size) =>
        forall k | 0 <= k < 32 ensures Bit(D.Arith(src, regs), k) <==> Moved(regs[r3], from, size, regs[r2], k) {
          ResultBit(D.Extract(D.ToBits(regs[r3]), from, size, regs[r2]), k);
          ExtractBit(regs[r3], from, size, regs[r2], k);
        }
      case _ =>
    }
  }

  /** The registers that a decoded source names exist. */
  lemma DecodedSource(c: bv32)
    ensures var i := D.Decode(c); i.body.Compute? ==> OkSource(i.body.src)
  {
    hide D.Reg2, D.Reg3, D.Imm, D.SrcPos, D.DstPos, D.Size;
  }

  // ---------------------------------------------------------------------
  // Uses of a result
  // ---------------------------------------------------------------------

  /** `v` was sent to the method `m`: it is logged, and stored if there is such a word. */
  ghost predicate Sends(s: State, t: State, m: nat, v: U32) {
    && m < TWO32 && t.sent == s.sent + [Sent(m, v)] && |t.data| == |s.data| == DATA_WORDS
    && forall k :: 0 <= k < DATA_WORDS ==>
         t.data[k] == if m < 4 * DATA_WORDS && k == m / 4 then v else s.data[k]
  }

  ghost predicate SendsNothing(s: State, t: State) { t.sent == s.sent && t.data == s.data }

  /** The register `r` is worth `v`, all others what they were. */
  ghost predicate Sets(s: State, t: State, r: nat, v: U32) {
    && |t.regs| == |s.regs| == 8
    && forall k :: 0 <= k < 8 ==> t.regs[k] == if k == r then v else s.regs[k]
  }

  /** Register 0 stands for no register. */
  ghost predicate SetsUnless0(s: State, t: State, r: nat, v: U32) {
    if r == 0 then t.regs == s.regs else Sets(s, t, r, v)
  }

  /** The method a result names, and its increment. */
  function MethodOf(res: nat): nat { 4 * (res % 0x1000) }

  function IncrOf(res: nat): nat { res / 0x1000 % 0x40 }

  /** What the use of a result `res` does, with the parameter `parm`. */
  ghost predicate Effect(use: Use, s: State, t: State, r1: nat, res: U32, parm: U32) {
    match use
    case ParmIgn => SendsNothing(s, t) && Sets(s, t, r1, parm) && t.mthd == s.mthd && t.incr == s.incr
    case Mov => SendsNothing(s, t) && Sets(s, t, r1, res) && t.mthd == s.mthd && t.incr == s.incr
    case Maddr => SendsNothing(s, t) && SetsUnless0(s, t, r1, res) && t.mthd == MethodOf(res) && t.incr == IncrOf(res)
    case ParmSend =>
      Sends(s, t, s.mthd, res) && Sets(s, t, r1, parm) && t.mthd == (s.mthd + 4 * s.incr) % TWO32 && t.incr == s.incr
    case Send =>
      && Sends(s, t, s.mthd, res) && SetsUnless0(s, t, r1, res)
      && t.mthd == (s.mthd + 4 * s.incr) % TWO32 && t.incr == s.incr
    case ParmMaddr => SendsNothing(s, t) && Sets(s, t, r1, parm) && t.mthd == MethodOf(res) && t.incr == IncrOf(res)
    case ParmSendMaddr =>
      && Sends(s, t, MethodOf(res), parm) && SetsUnless0(s, t, r1, res)
      && t.mthd == (MethodOf(res) + 4 * IncrOf(res)) % TWO32 && t.incr == IncrOf(res)
    case MaddrSend =>
      && Sends(s, t, MethodOf(res), IncrOf(res)) && SetsUnless0(s, t, r1, res)
      && t.mthd == (MethodOf(res) + 4 * s.incr) % TWO32 && t.incr == s.incr
  }

  /** The turn runs its instruction: the budget is not used up and no parameter is missing. */
  predicate Runs(s: State, i: Instr, q: seq<U32>) {
    Ok(s) && OkInstr(i) && !s.aborted && !OverBudget(s) && !Stalls(i, q)
  }

  /** The parts of a state that a use changes. */
  ghost predicate SameOutside(s: State, t: State) {
    s.regs == t.regs && s.mthd == t.mthd && s.incr == t.incr && s.data == t.data && s.sent == t.sent
  }

  /** The parts that it does not. */
  ghost predicate SameFlow(s: State, t: State) {
    && s.pc == t.pc && s.aborted == t.aborted && s.delayed == t.delayed && s.exit == t.exit
    && s.lastpc == t.lastpc && s.jumps == t.jumps
  }

  lemma SendEffect(s: State, v: U32)
    requires Ok(s)
    ensures var t := DoSend(s, v);
            && Sends(s, t, s.mthd, v) && t.mthd == (s.mthd + 4 * s.incr) % TWO32 && t.incr == s.incr
            && t.regs == s.regs && SameFlow(s, t)
  {
  }

  lemma DoUseEffect(s: State, use: Use, r1: nat, res: U32, parm: U32)
    requires Ok(s) && OkReg(r1)
    ensures Effect(use, s, DoUse(s, use, r1, res, parm), r1, res, parm)
    ensures SameFlow(s, DoUse(s, use, r1, res, parm))
  {
    hide DoSend, Sends;
    SendEffect(s, res);
    SendEffect(SetMaddr(s, res), parm);
    SendEffect(SetMethod(s, res), res / 0x1000 % 0x40);
    SendsFrom(s, SetMaddr(s, res), DoSend(SetMaddr(s, res), parm), r1, res);
    SendsFrom(s, SetMethod(s, res), DoSend(SetMethod(s, res), res / 0x1000 % 0x40), r1, res);
    SendsFrom(s, s, DoSend(s, res), r1, parm);
    SendsFrom(s, s, DoSend(s, res), r1, res);
  }

  /** What was sent is the same, whatever registers are written afterwards. */
  lemma SendsFrom(s: State, s': State, t: State, r1: nat, v: U32)
    requires Ok(t) && OkReg(r1) && s.sent == s'.sent && s.data == s'.data
    ensures forall m, w :: Sends(s', t, m, w) ==> Sends(s, t, m, w) && Sends(s, SetReg(t, r1, v), m, w)
  {
  }

  lemma EffectFrame(use: Use, s: State, s': State, t: State, t': State, r1: nat, res: U32, parm: U32)
    requires Effect(use, s, t, r1, res, parm) && SameOutside(s, s') && SameOutside(t, t')
    ensures Effect(use, s', t', r1, res, parm)
  {
  }

  lemma TurnUses(alu: Alu, s: State, i: Instr, q: seq<U32>) returns (t: State)
    requires Runs(s, i, q) && i.body.Compute?
    ensures SameOutside(s, Enter(s, i))
    ensures t == DoUse(Enter(s, i), i.body.use, i.body.r1, alu(i.body.src, s.regs), if q == [] then 0 else q[0])
    ensures SameOutside(t, Turn1(alu, s, i, q).s)
  {
    hide DoUse;
    t := DoUse(Enter(s, i), i.body.use, i.body.r1, alu(i.body.src, s.regs), if q == [] then 0 else q[0]);
  }

  /** A turn of an instruction that computes: what is sent, which register is written, and
      where the next value will be sent. */
  lemma UseEffect(alu: Alu, s: State, i: Instr, q: seq<U32>)
    requires Runs(s, i, q) && i.body.Compute?
    ensures var t := Turn1(alu, s, i, q);
            && Effect(i.body.use, s, t.s, i.body.r1, alu(i.body.src, s.regs), if q == [] then 0 else q[0])
            && t.q == (if NeedsParam(i.body.use) then q[1..] else q)
  {
    hide DoUse, Effect;
    var res, parm := alu(i.body.src, s.regs), if q == [] then 0 else q[0];
    var t := TurnUses(alu, s, i, q);
    DoUseEffect(Enter(s, i), i.body.use, i.body.r1, res, parm);
    EffectFrame(i.body.use, Enter(s, i), s, t, Turn1(alu, s, i, q).s, i.body.r1, res, parm);
  }

  /** A turn of any other instruction sends nothing, and writes at most one register: with the
      parameter, or with a word of the object state. */
  lemma OtherEffect(alu: Alu, s: State, i: Instr, q: seq<U32>)
    requires Runs(s, i, q) && !i.body.Compute?
    ensures var t := Turn1(alu, s, i, q);
            && SendsNothing(s, t.s) && t.s.mthd == s.mthd && t.s.incr == s.incr
            && t.q == (if i.body.Parm? then q[1..] else q)
            && match i.body
               case Parm(r1) => Sets(s, t.s, r1, q[0])
               case ReadImm(r1, imm) => Sets(s, t.s, r1, s.data[imm % 0x1000])
               case ReadAdd(r1, r2, imm) => Sets(s, t.s, r1, s.data[(s.regs[r2] + imm) % TWO32 % 0x1000])
               case _ => t.s.regs == s.regs
  {
    hide Exec;
    ExecOutside(alu, s, i, q);
  }

  lemma ExecOutside(alu: Alu, s: State, i: Instr, q: seq<U32>)
    requires Runs(s, i, q) && !i.body.Compute?
    ensures var t := Exec(alu, Enter(s, i), i, q);
            && t.sent == s.sent && t.data == s.data && t.mthd == s.mthd && t.incr == s.incr
            && match i.body
               case Parm(r1) => t.regs == s.regs[r1 := q[0]]
               case ReadImm(r1, imm) => t.regs == s.regs[r1 := s.data[imm % 0x1000]]
               case ReadAdd(r1, r2, imm) => t.regs == s.regs[r1 := s.data[(s.regs[r2] + imm) % TWO32 % 0x1000]]
               case _ => t.regs == s.regs
  {
  }

  // ---------------------------------------------------------------------
  // Where it goes on
  // ---------------------------------------------------------------------

  /** The branch is taken. */
  predicate Goes(s: State, b: Body)
    requires Ok(s) && b.Branch? && b.r2 < 8
  {
    b.cond.Always? || (b.cond.IfZero? <==> s.regs[b.r2] == 0)
  }

  lemma FlowKept(alu: Alu, s: State, i: Instr, q: seq<U32>)
    requires Runs(s, i, q) && !i.body.Branch? && !i.body.Unknown?
    ensures SameFlow(NextPc(Enter(s, i)), Exec(alu, Enter(s, i), i, q))
  {
    hide DoUse;
    if i.body.Compute? {
      DoUseEffect(Enter(s, i), i.body.use, i.body.r1, alu(i.body.src, s.regs), if q == [] then 0 else q[0]);
    }
  }

  /** The next instruction: behind this one; the target of a delayed branch in front of it; or
      its own target, if it has no delay slot. */
  lemma WhereNext(alu: Alu, s: State, i: Instr, q: seq<U32>)
    requires Runs(s, i, q)
    ensures var t := Turn1(alu, s, i, q).s;
            if i.body.Branch? && Goes(s, i.body) && !i.body.annul then
              t.pc == (s.pc + 1) % TWO32 && t.delayed == (s.pc + i.body.disp) % TWO32
            else
              && t.delayed == NONE
              && t.pc == (if s.delayed != NONE then s.delayed
                          else if i.body.Branch? && Goes(s, i.body) then (s.pc + i.body.disp) % TWO32
                          else (s.pc + 1) % TWO32)
  {
    hide Exec;
    ExecFlow(alu, s, i, q);
  }

  lemma ExecFlow(alu: Alu, s: State, i: Instr, q: seq<U32>)
    requires Runs(s, i, q)
    ensures var t := Exec(alu, Enter(s, i), i, q);
            && (Delays(Enter(s, i), i) <==> i.body.Branch? && Goes(s, i.body) && !i.body.annul)
            && t.delayed == (if Delays(Enter(s, i), i) then (s.pc + i.body.disp) % TWO32 else s.delayed)
            && t.pc == if i.body.Branch? && Goes(s, i.body) && i.body.annul then (s.pc + i.body.disp) % TWO32
                       else (s.pc + 1) % TWO32
  {
    hide DoUse, ReadMethod;
    if !i.body.Branch? && !i.body.Unknown? {
      FlowKept(alu, s, i, q);
    }
  }

  /** A turn that stands in front of the one before counts as a jump back, and is not run if
      more than 100 of them have been counted; then nothing is sent, written or used up. */
  lemma BudgetEnds(alu: Alu, s: State, i: Instr, q: seq<U32>)
    requires Ok(s) && OkInstr(i) && !s.aborted
    ensures var t := Turn1(alu, s, i, q);
            if s.pc < s.lastpc && s.jumps > 100 then
              t.Stop? && t.outcome.Aborted? && SameOutside(s, t.s) && t.q == q && t.s.aborted
            else t.s.lastpc == s.pc && t.s.jumps == s.jumps + (if s.pc < s.lastpc then 1 else 0)
  {
    hide DoUse, ReadMethod;
    if Runs(s, i, q) && !i.body.Branch? && !i.body.Unknown? {
      FlowKept(alu, s, i, q);
    }
  }

  /** A branch with a delay slot takes effect behind the next instruction, whatever that
      is, unless it is such a branch itself. */
  lemma DelaySlot(alu: Alu, s: State, i: Instr, q: seq<U32>, j: Instr)
    requires Runs(s, i, q) && i.body.Branch? && Goes(s, i.body) && !i.body.annul
    requires (s.pc + i.body.disp) % TWO32 != NONE
    ensures var first := Turn1(alu, s, i, q);
            && first.Go? && first.s.pc == (s.pc + 1) % TWO32
            && (Runs(first.s, j, first.q) && !(j.body.Branch? && Goes(first.s, j.body) && !j.body.annul) ==>
                  Turn1(alu, first.s, j, first.q).s.pc == (s.pc + i.body.disp) % TWO32)
  {
    hide DoUse, ReadMethod;
    var first := Turn1(alu, s, i, q);
    if Runs(first.s, j, first.q) {
      WhereNext(alu, first.s, j, first.q);
    }
  }

  /** An instruction with the exit bit is followed by one more, and the run ends behind that:
      if it is no branch, and neither is the one that follows, which has no exit bit itself. */
  lemma ExitSlot(alu: Alu, s: State, i: Instr, q: seq<U32>, j: Instr)
    requires Runs(s, i, q) && i.exit && !i.body.Branch? && !i.body.Unknown?
    ensures var first := Turn1(alu, s, i, q);
            && first.Go?
            && (Runs(first.s, j, first.q) && !j.exit && !j.body.Branch? && !j.body.Unknown? ==>
                  var second := Turn1(alu, first.s, j, first.q); second.Stop? && second.outcome.Exited?)
  {
    hide DoUse, ReadMethod;
    FlowKept(alu, s, i, q);
    var first := Turn1(alu, s, i, q);
    if Runs(first.s, j, first.q) && !j.body.Branch? && !j.body.Unknown? {
      FlowKept(alu, first.s, j, first.q);
    }
  }

  /** A macro starts at its first word with the value in register 1, everything else 0, nothing
      pending and nothing sent. */
  lemma LaunchMeans(value: U32, obj: seq<U32>)
    requires |obj| == DATA_WORDS
    ensures var s := MacroRuns.Launch(value, obj);
            && s.pc == 0 && (forall r :: 0 <= r < 8 ==> s.regs[r] == if r == 1 then value else 0)
            && s.mthd == 0 && s.incr == 0 && s.sent == [] && s.data == obj
            && !s.aborted && s.delayed == NONE && s.exit == NONE && s.jumps == 0
  {
  }
}
