/** The macro interpreter of `demmt/macro.c` as a machine on decoded instructions:
    delay slots, delayed exit, suspension on a missing parameter and the budget of
    backward jumps.  The arithmetic is a parameter (`alu`): nothing proved here
    depends on it. */
module MacroMachine {
  import opened Options

  const TWO32: nat := 0x1_0000_0000
  /** The value that marks "no delayed branch" and "no exit pending". */
  const NONE: nat := 0xffff_ffff
  const MAX_BACK_JUMPS: nat := 100
  /** Object state is 0x8000 words (`OBJECT_SIZE / 4`). */
  const DATA_WORDS: nat := 0x8000

  type U32 = x: nat | x < TWO32

  datatype AluOp = AddOp | AdcOp | SubOp | SbbOp | XorOp | OrOp | AndOp | AndnOp | NandOp

  /** Where a result comes from. */
  datatype Source =
    | RegReg(op: AluOp, r2: nat, r3: nat)
    | ImmSrc(imm: int)
    | RegSrc(r2: nat)
    | AddImm(r2: nat, imm: int)
    | ExtrInsrt(r2: nat, r3: nat, src: nat, size: nat, dst: nat)
    | ExtrShlDst(r2: nat, r3: nat, size: nat, dst: nat)
    | ExtrShlSrc(r2: nat, r3: nat, src: nat, size: nat)

  /** What is done with it (bits 4-6). */
  datatype Use = ParmIgn | Mov | Maddr | ParmSend | Send | ParmMaddr | ParmSendMaddr | MaddrSend

  datatype Cond = Always | IfZero | IfNonZero

  datatype Body =
    | Compute(src: Source, use: Use, r1: nat)
    | Nop
    | Parm(r1: nat)
    | ReadImm(r1: nat, imm: int)
    | ReadAdd(r1: nat, r2: nat, imm: int)
    | Branch(cond: Cond, annul: bool, r2: nat, disp: int)
    | Unknown

  /** A decoded instruction and its exit bit. */
  datatype Instr = Instr(exit: bool, body: Body)

  datatype Sent = Sent(mthd: U32, value: U32)

  datatype State = State(
    pc: U32, regs: seq<U32>, mthd: U32, incr: U32, aborted: bool,
    delayed: U32, exit: U32, lastpc: U32, jumps: nat,
    data: seq<U32>, sent: seq<Sent>)

  predicate Ok(s: State) {
    && |s.regs| == 8 && |s.data| == DATA_WORDS
    && s.jumps <= MAX_BACK_JUMPS + 2
    && (s.jumps == MAX_BACK_JUMPS + 2 ==> s.aborted)
    && (s.exit <= 2 || s.exit == NONE)
  }

  predicate OkReg(r: nat) { r < 8 }

  predicate OkInstr(i: Instr) {
    match i.body
    case Compute(_, _, r1) => OkReg(r1)
    case Parm(r1) => OkReg(r1)
    case ReadImm(r1, _) => OkReg(r1)
    case ReadAdd(r1, r2, _) => OkReg(r1) && OkReg(r2)
    case Branch(_, _, r2, _) => OkReg(r2)
    case _ => true
  }

  predicate OkProg(prog: seq<Instr>) {
    |prog| <= TWO32 && forall i :: 0 <= i < |prog| ==> OkInstr(prog[i])
  }

  type Alu = (Source, seq<U32>) -> U32

  function Plus(a: int, b: int): U32 { (a + b) % TWO32 }

  // ---------------------------------------------------------------------
  // One instruction
  // ---------------------------------------------------------------------

  function SetReg(s: State, r: nat, v: U32): (t: State)
    requires Ok(s) && OkReg(r)
    ensures Ok(t)
  {
    s.(regs := s.regs[r := v])
  }

  /** `decode_maddr`, without and with the increment. */
  function SetMethod(s: State, res: U32): State {
    s.(mthd := res % 0x1000 * 4)
  }

  function SetMaddr(s: State, res: U32): State {
    s.(mthd := res % 0x1000 * 4, incr := res / 0x1000 % 0x40)
  }

  /** `register_method_call` and the step to the next method. */
  function DoSend(s: State, v: U32): (t: State)
    requires Ok(s)
    ensures Ok(t)
  {
    s.(data := if s.mthd < 4 * DATA_WORDS then s.data[s.mthd / 4 := v] else s.data,
       sent := s.sent + [Sent(s.mthd, v)],
       mthd := Plus(s.mthd, s.incr * 4))
  }

  predicate NeedsParam(use: Use) {
    use.ParmIgn? || use.ParmSend? || use.ParmMaddr? || use.ParmSendMaddr?
  }

  /** `macro_sim_dst`, once a needed parameter is there. */
  function DoUse(s: State, use: Use, r1: nat, res: U32, parm: U32): (t: State)
    requires Ok(s) && OkReg(r1)
    ensures Ok(t)
  {
    match use
    case ParmIgn => SetReg(s, r1, parm)
    case Mov => SetReg(s, r1, res)
    case Maddr => var t := SetMaddr(s, res); if r1 == 0 then t else SetReg(t, r1, res)
    case ParmSend => SetReg(DoSend(s, res), r1, parm)
    case Send => var t := DoSend(s, res); if r1 == 0 then t else SetReg(t, r1, res)
    case ParmMaddr => SetReg(SetMaddr(s, res), r1, parm)
    case ParmSendMaddr => var t := DoSend(SetMaddr(s, res), parm); if r1 == 0 then t else SetReg(t, r1, res)
    case MaddrSend =>
      var t := DoSend(SetMethod(s, res), res / 0x1000 % 0x40);
      if r1 == 0 then t else SetReg(t, r1, res)
  }

  predicate Stalls(i: Instr, q: seq<U32>) {
    q == [] && (i.body.Parm? || (i.body.Compute? && NeedsParam(i.body.use)))
  }

  /** The parameters left after an instruction that did not stall. */
  function Rest(i: Instr, q: seq<U32>): seq<U32>
    requires !Stalls(i, q)
  {
    if i.body.Parm? || (i.body.Compute? && NeedsParam(i.body.use)) then q[1..] else q
  }

  function NextPc(s: State): State {
    s.(pc := Plus(s.pc, 1))
  }

  function ReadMethod(s: State, r1: nat, at: int): (t: State)
    requires Ok(s) && OkReg(r1)
    ensures Ok(t)
  {
    SetReg(s, r1, s.data[at % 0x1000])
  }

  predicate Taken(s: State, i: Body)
    requires Ok(s) && i.Branch? && OkReg(i.r2)
  {
    match i.cond
    case Always => true
    case IfZero => s.regs[i.r2] == 0
    case IfNonZero => s.regs[i.r2] != 0
  }

  /** A taken branch with a delay slot: the only instruction after which neither
      the delayed branch nor the exit counter is looked at. */
  predicate Delays(s: State, i: Instr)
    requires Ok(s) && OkInstr(i)
  {
    i.body.Branch? && !i.body.annul && Taken(s, i.body)
  }

  /** The body of an instruction that does not stall. */
  function Exec(alu: Alu, s: State, i: Instr, q: seq<U32>): (t: State)
    requires Ok(s) && OkInstr(i) && !Stalls(i, q)
    ensures Ok(t)
  {
    match i.body
    case Compute(src, use, r1) =>
      NextPc(DoUse(s, use, r1, alu(src, s.regs), if q == [] then 0 else q[0]))
    case Nop => NextPc(s)
    case Parm(r1) => NextPc(SetReg(s, r1, q[0]))
    case ReadImm(r1, imm) => NextPc(ReadMethod(s, r1, imm))
    case ReadAdd(r1, r2, imm) => NextPc(ReadMethod(s, r1, Plus(s.regs[r2], imm)))
    case Branch(_, annul, r2, disp) =>
      if Taken(s, i.body) then
        if annul then s.(pc := Plus(s.pc, disp))
        else NextPc(s).(delayed := Plus(s.pc, disp))
      else NextPc(if i.exit then s.(exit := NONE) else s)
    case Unknown => NextPc(s).(aborted := true)
  }

  // ---------------------------------------------------------------------
  // One turn of the loop
  // ---------------------------------------------------------------------

  predicate OverBudget(s: State) {
    s.pc < s.lastpc && s.jumps > MAX_BACK_JUMPS
  }

  /** The start of a turn: a pending exit is armed, a backward jump is counted. */
  function Enter(s: State, i: Instr): (t: State)
    requires Ok(s) && !s.aborted && !OverBudget(s)
    ensures Ok(t)
  {
    s.(exit := if i.exit then 2 else s.exit,
       jumps := if s.pc < s.lastpc then s.jumps + 1 else s.jumps,
       lastpc := s.pc)
  }

  /** The end of a turn: a delayed branch takes effect. */
  function Land(s: State): (t: State) {
    if s.delayed != NONE then s.(pc := s.delayed, delayed := NONE) else s
  }

  /** The end of a turn: the exit counter. */
  function Count(s: State): (t: State)
    requires Ok(s)
    ensures Ok(t)
  {
    if s.exit != NONE then s.(exit := Plus(s.exit, -1)) else s
  }

  /** What the exit counter and the abort flag say at the end of a turn. */
  function Ending(before: U32, s: State): Option<Outcome> {
    if s.aborted then Some(Aborted) else if before != NONE && s.exit == 0 then Some(Exited) else None
  }

  function OutOfBudget(s: State, i: Instr): (t: State)
    requires Ok(s) && !s.aborted && OverBudget(s)
    ensures Ok(t)
  {
    s.(exit := if i.exit then 2 else s.exit, jumps := s.jumps + 1, aborted := true)
  }

  datatype Outcome = Stalled | Exited | Aborted | Escaped | Spins

  datatype Turn = Stop(outcome: Outcome, s: State, q: seq<U32>) | Go(s: State, q: seq<U32>)

  function Turn1(alu: Alu, s: State, i: Instr, q: seq<U32>): (r: Turn)
    requires Ok(s) && OkInstr(i) && !s.aborted
    ensures Ok(r.s)
    ensures r.Go? ==> !r.s.aborted
  {
    if OverBudget(s) then Stop(Aborted, OutOfBudget(s, i), q)
    else
      var e := Enter(s, i);
      if Stalls(i, q) then Stop(Stalled, e, q)
      else
        var t := Exec(alu, e, i, q);
        if Delays(e, i) then Go(t, Rest(i, q))
        else
          var u := Count(Land(t));
          var ending := Ending(t.exit, u);
          if ending.Some? then Stop(ending.value, u, Rest(i, q)) else Go(u, Rest(i, q))
  }

  /** A taken branch to itself without a delay slot, which nothing pending can end. */
  predicate SelfLoop(s: State, i: Instr)
    requires Ok(s) && OkInstr(i)
  {
    && !OverBudget(s) && s.delayed == NONE
    && i.body.Branch? && i.body.annul && Taken(s, i.body) && i.body.disp % TWO32 == 0
    && (i.exit || s.exit == NONE)
  }
}
