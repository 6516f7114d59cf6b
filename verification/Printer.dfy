/** Printing expressions and instructions by precedence level
    (`easm/easm_print.c`). */
module Printer {
  import opened Exprs
  import opened Lexer

  // ---------------------------------------------------------------------
  // The printer
  // ---------------------------------------------------------------------

  /** The level at which `easm_print_expr` prints an operator; 6 if it does not. */
  function ExprLevel(op: BinOp): int {
    match op
    case VecOp => -1
    case LOrOp => 0
    case LAndOp => 1
    case OrOp => 2
    case XorOp => 3
    case AndOp => 4
    case ShlOp => 5
    case ShrOp => 5
    case _ => 6
  }

  /** The level at which `easm_print_sexpr` prints an operator; -2 if it does not. */
  function SExprLevel(op: BinOp): int {
    match op
    case VecOp => -1
    case AddOp => 0
    case SubOp => 0
    case MulOp => 1
    case DivOp => 1
    case ModOp => 1
    case _ => -2
  }

  /** `easm_print_sexpr` prints the expression itself, without parentheses. */
  predicate SDirect(e: Expr, lvl: int) {
    match e
    case Bin(op, _, _) => lvl <= SExprLevel(op)
    case Un(_, _) => lvl <= 2
    case _ => true
  }

  /** `easm_print_expr` */
  function PrintExpr(e: Expr, lvl: int): seq<Piece>
    requires -1 <= lvl <= 6
    decreases e, if lvl == -1 then 1 else 3
  {
    if e.Bin? && ExprLevel(e.op) < 6 && lvl <= ExprLevel(e.op) then
      PrintExpr(e.e1, ExprLevel(e.op)) + [P(OpTok(e.op))] + PrintExpr(e.e2, ExprLevel(e.op) + 1)
    else
      PrintSExpr(e, 0)
  }

  /** `easm_print_sexpr` */
  function PrintSExpr(e: Expr, lvl: int): seq<Piece>
    requires -1 <= lvl <= 3
    decreases e, if SDirect(e, lvl) then 0 else 2
  {
    if !SDirect(e, lvl) then [P(Open)] + PrintExpr(e, -1) + [P(Close)]
    else
      match e
      case Bin(op, e1, e2) => PrintSExpr(e1, SExprLevel(op)) + [P(OpTok(op))] + PrintSExpr(e2, SExprLevel(op) + 1)
      case Un(op, e1) => [P(UnTok(op))] + PrintSExpr(e1, 2)
      case Num(n) => [P(NumTok(n))]
      case Reg(name) => [P(RegTok(name))]
      case Label(name) => [P(LabelTok(name))]
      case Discard => [P(Hash)]
      case ZVec => [P(Open), P(Close)]
      case Pos => [P(PosTok)]
      case SInsnExpr(insn) => [P(Open)] + PrintSInsn(insn) + [P(Close)]
      case Mem(name, addr) => [P(Bracket(name))] + PrintExpr(addr, -1) + [P(Unbracket)]
      case MemStep(step, name, addr, amount) =>
        [P(Bracket(name))] + PrintExpr(addr, -1) + [P(StepTok(step))] + PrintExpr(amount, -1) + [P(Unbracket)]
  }

  /** `easm_print_mods` behind a name or an operand. */
  function PrintMods(mods: seq<Modifier>): seq<Piece> {
    if mods == [] then [] else [Blank, P(WordTok(mods[0].name))] + PrintMods(mods[1..])
  }

  /** The expressions of an operand; `more` says that one came before. */
  function PrintExprs(es: seq<Expr>, more: bool): seq<Piece>
    decreases es
  {
    if es == [] then []
    else (if more then [Blank, P(OpTok(OrOp))] else []) + [Blank] + PrintSExpr(es[0], -1) + PrintExprs(es[1..], true)
  }

  /** `easm_print_operand`, one after the other. */
  function PrintOperands(ops: seq<Operand>): seq<Piece>
    decreases ops
  {
    if ops == [] then []
    else PrintMods(ops[0].mods) + PrintExprs(ops[0].exprs, false) + PrintOperands(ops[1..])
  }

  /** `easm_print_sinsn` */
  function PrintSInsn(s: SInsn): seq<Piece>
    decreases s
  {
    [P(WordTok(s.name))] + PrintOperands(s.operands) + PrintMods(s.mods)
  }

  // ---------------------------------------------------------------------
  // One scale of precedence
  // ---------------------------------------------------------------------

  function OpPrec(op: BinOp): (p: int)
    ensures -1 <= p <= 7
  {
    if ExprLevel(op) < 6 then ExprLevel(op) else 6 + SExprLevel(op)
  }

  function Prec(e: Expr): (p: int)
    ensures -1 <= p <= 9
  {
    match e
    case Bin(op, _, _) => OpPrec(op)
    case Un(_, _) => 8
    case _ => 9
  }

  /** Printing at a level of the common scale: parentheses exactly around what binds
      less tightly than the level asks. */
  function Print(e: Expr, l: int): (r: seq<Piece>)
    requires -1 <= l <= 9
    ensures r != []
    decreases e, if l <= Prec(e) then 0 else 1
  {
    if Prec(e) < l then [P(Open)] + Print(e, -1) + [P(Close)]
    else
      match e
      case Bin(op, e1, e2) => Print(e1, OpPrec(op)) + [P(OpTok(op))] + Print(e2, OpPrec(op) + 1)
      case Un(op, e1) => [P(UnTok(op))] + Print(e1, 8)
      case Num(n) => [P(NumTok(n))]
      case Reg(name) => [P(RegTok(name))]
      case Label(name) => [P(LabelTok(name))]
      case Discard => [P(Hash)]
      case ZVec => [P(Open), P(Close)]
      case Pos => [P(PosTok)]
      case SInsnExpr(insn) => [P(Open)] + PrintSInsn(insn) + [P(Close)]
      case Mem(name, addr) => [P(Bracket(name))] + Print(addr, -1) + [P(Unbracket)]
      case MemStep(step, name, addr, amount) =>
        [P(Bracket(name))] + Print(addr, -1) + [P(StepTok(step))] + Print(amount, -1) + [P(Unbracket)]
  }

  /** The two printers are this one. */
  lemma {:induction false} ExprScale(e: Expr, lvl: int)
    requires -1 <= lvl <= 6
    ensures PrintExpr(e, lvl) == Print(e, lvl)
    decreases e, if lvl == -1 then 1 else 3
  {
    hide PrintSInsn;
    if e.Bin? && ExprLevel(e.op) < 6 && lvl <= ExprLevel(e.op) {
      ExprScale(e.e1, ExprLevel(e.op));
      ExprScale(e.e2, ExprLevel(e.op) + 1);
    } else {
      SExprScale(e, 0);
      SamePrint(e, lvl, 6);
    }
  }

  lemma {:induction false} SExprScale(e: Expr, lvl: int)
    requires 0 <= lvl <= 3
    ensures PrintSExpr(e, lvl) == Print(e, lvl + 6)
    decreases e, if SDirect(e, lvl) then 0 else 2
  {
    hide PrintSInsn;
    if !SDirect(e, lvl) {
      ExprScale(e, -1);
    } else {
      match e
      case Bin(op, e1, e2) =>
        SExprScale(e1, SExprLevel(op));
        SExprScale(e2, SExprLevel(op) + 1);
      case Un(op, e1) => SExprScale(e1, 2);
      case Mem(_, addr) => ExprScale(addr, -1);
      case MemStep(_, _, addr, amount) =>
        ExprScale(addr, -1);
        ExprScale(amount, -1);
      case _ =>
    }
  }

  /** Between two levels that treat an expression alike its text is the same. */
  lemma SamePrint(e: Expr, l: int, m: int)
    requires -1 <= l <= 9 && -1 <= m <= 9 && (Prec(e) < l <==> Prec(e) < m)
    ensures Print(e, l) == Print(e, m)
  {
    hide PrintSInsn;
  }

  /** Operands: only a vector is printed differently by the two outermost inner
      levels. */
  lemma OperandScale(e: Expr)
    ensures PrintSExpr(e, -1) ==
            if e.Bin? && e.op.VecOp? then PrintSExpr(e.e1, -1) + [P(OpTok(VecOp))] + Print(e.e2, 6)
            else Print(e, 6)
  {
    hide PrintSInsn, Print;
    if e.Bin? && e.op.VecOp? {
      SExprScale(e.e2, 0);
    } else {
      SExprScale(e, 0);
    }
  }
}
