/** The syntax tree of assembly expressions and instructions, and the 64-bit
    wrap-around meaning that `calc` gives to expressions. */
module Exprs {
  import opened Options
  import opened Words

  datatype BinOp = VecOp | LOrOp | LAndOp | OrOp | XorOp | AndOp | ShlOp | ShrOp
                 | AddOp | SubOp | MulOp | DivOp | ModOp

  datatype UnOp = NegOp | NotOp | LNotOp

  /** The four ways a memory access may update its address. */
  datatype Step = PlusPlus | MinusMinus | PlusEq | MinusEq

  datatype Expr =
    | Bin(op: BinOp, e1: Expr, e2: Expr)
    | Un(uop: UnOp, e: Expr)
    | Num(n: Word)
    | Reg(name: string)
    | Label(name: string)
    | Discard
    | Pos
    | ZVec
    | Mem(name: string, addr: Expr)
    | MemStep(step: Step, name: string, addr: Expr, amount: Expr)
    | SInsnExpr(insn: SInsn)

  datatype Modifier = Modifier(name: string, isunk: bool)

  datatype Operand = Operand(mods: seq<Modifier>, exprs: seq<Expr>)

  datatype SInsn = SInsn(name: string, isunk: bool, operands: seq<Operand>, mods: seq<Modifier>)

  datatype SubInsn = SubInsn(prefs: seq<Expr>, sinsn: SInsn)

  datatype Insn = Insn(subinsns: seq<SubInsn>)

  /** `easm_isimm` */
  predicate IsImm(e: Expr) {
    match e
    case Bin(op, e1, e2) => op != VecOp && IsImm(e1) && IsImm(e2)
    case Un(_, e1) => IsImm(e1)
    case Num(_) => true
    case Label(_) => true
    case _ => false
  }

  function Mul(x: Word, y: Word): Word { FromNat(Val(x) * Val(y)) }

  function Div(x: Word, y: Word): Word
    requires Val(y) != 0
  {
    FromNat(Val(x) / Val(y))
  }

  function Mod(x: Word, y: Word): Word
    requires Val(y) != 0
  {
    FromNat(Val(x) % Val(y))
  }

  function Truth(b: bool): Word { if b then OneHot(0) else Zero() }

  predicate IsTrue(x: Word) { x != Zero() }

  /** What names stand for.  The assembler knows labels only; registers and the
      current position have values once an instruction runs at an address. */
  datatype Env = Env(labels: map<string, Word>, regs: map<string, Word>, here: Option<Word>)

  function UnValue(op: UnOp, x: Word): Word {
    match op
    case NegOp => Neg(x)
    case NotOp => Not(x)
    case LNotOp => Truth(!IsTrue(x))
  }

  /** None is division by zero, or an operator without a numeric value. */
  function BinValue(op: BinOp, x: Word, y: Word): Option<Word> {
    match op
    case VecOp => None
    case LOrOp => Some(Truth(IsTrue(x) || IsTrue(y)))
    case LAndOp => Some(Truth(IsTrue(x) && IsTrue(y)))
    case OrOp => Some(Words.Or(x, y))
    case XorOp => Some(Words.Xor(x, y))
    case AndOp => Some(Words.And(x, y))
    case ShlOp => Some(Shl(x, Val(y)))
    case ShrOp => Some(Shr(x, Val(y)))
    case AddOp => Some(Add(x, y))
    case SubOp => Some(Sub(x, y))
    case MulOp => Some(Mul(x, y))
    case DivOp => if Val(y) == 0 then None else Some(Div(x, y))
    case ModOp => if Val(y) == 0 then None else Some(Mod(x, y))
  }

  /** `calc`; None where the source stops the program (undefined name, division
      by zero, or an expression that is no number).  `&&` and `||` do not look
      at their right operand when the left one decides. */
  function Eval(e: Expr, env: Env): Option<Word> {
    match e
    case Num(n) => Some(n)
    case Label(s) => if s in env.labels then Some(env.labels[s]) else None
    case Reg(s) => if s in env.regs then Some(env.regs[s]) else None
    case Pos => env.here
    case Un(op, e1) =>
      (match Eval(e1, env)
       case None => None
       case Some(x) => Some(UnValue(op, x)))
    case Bin(op, e1, e2) =>
      (match Eval(e1, env)
       case None => None
       case Some(x) =>
         if op == LOrOp && IsTrue(x) then Some(Truth(true))
         else if op == LAndOp && !IsTrue(x) then Some(Truth(false))
         else match Eval(e2, env)
           case None => None
           case Some(y) => BinValue(op, x, y))
    case _ => None
  }

  function LabelEnv(labels: map<string, Word>): Env { Env(labels, map[], None) }
}
