/** What the rewriting of expressions is supposed to do, on expression values:
    position substitution, constant folding, and the clean-up that the
    disassembler applies before printing, through memory operands and nested
    instructions. */
module Rewrite {
  import opened Options
  import opened Words
  import opened Exprs
  import opened Fields
  import opened Relocs

  /** `easm_substpos_expr` */
  function SubstPos(e: Expr, pos: Word): Expr
    decreases e
  {
    match e
    case Pos => Num(pos)
    case Bin(op, e1, e2) => Bin(op, SubstPos(e1, pos), SubstPos(e2, pos))
    case Un(op, e1) => Un(op, SubstPos(e1, pos))
    case Mem(name, a) => Mem(name, SubstPos(a, pos))
    case MemStep(step, name, a, b) => MemStep(step, name, SubstPos(a, pos), SubstPos(b, pos))
    case SInsnExpr(insn) => SInsnExpr(SubstInsn(insn, pos))
    case _ => e
  }

  /** `easm_substpos_sinsn` */
  function SubstInsn(s: SInsn, pos: Word): SInsn
    decreases s
  {
    s.(operands := seq(|s.operands|, i requires 0 <= i < |s.operands| => SubstOperand(s.operands[i], pos)))
  }

  function SubstOperand(op: Operand, pos: Word): Operand
    decreases op
  {
    op.(exprs := seq(|op.exprs|, j requires 0 <= j < |op.exprs| => SubstPos(op.exprs[j], pos)))
  }

  /** The last step of `easm_cfold_expr`, when the children have been folded. */
  function FoldNode(e: Expr): Expr {
    match e
    case Un(op, Num(x)) => Num(UnValue(op, x))
    case Bin(op, Num(x), Num(y)) => (match BinValue(op, x, y) case None => e case Some(v) => Num(v))
    case _ => e
  }

  /** `easm_cfold_expr`; it returns 1 iff the result is a number. */
  function Fold(e: Expr): Expr
    decreases e
  {
    match e
    case Bin(op, e1, e2) => FoldNode(Bin(op, Fold(e1), Fold(e2)))
    case Un(op, e1) => FoldNode(Un(op, Fold(e1)))
    case Mem(name, a) => Mem(name, Fold(a))
    case MemStep(step, name, a, b) => MemStep(step, name, Fold(a), Fold(b))
    case SInsnExpr(insn) => SInsnExpr(FoldInsn(insn))
    case _ => e
  }

  /** `easm_cfold_sinsn` */
  function FoldInsn(s: SInsn): SInsn
    decreases s
  {
    s.(operands := seq(|s.operands|, i requires 0 <= i < |s.operands| => FoldOperand(s.operands[i])))
  }

  function FoldOperand(op: Operand): Operand
    decreases op
  {
    op.(exprs := seq(|op.exprs|, j requires 0 <= j < |op.exprs| => Fold(op.exprs[j])))
  }

  predicate IsZero(e: Expr) { e.Num? && e.n == Zero() }

  predicate IsNegative(e: Expr) { e.Num? && e.n[63] }

  /** A folded number with the top bit set is shown as a negation, unless it is
      a marked operand such as a branch target. */
  function ShowSign(e: Expr, special: bool): Expr {
    if IsNegative(e) && !special then Un(NegOp, Num(Neg(e.n))) else e
  }

  function DropLeftZero(e: Expr): Expr {
    if e.Bin? && e.op == AddOp && IsZero(e.e1) then e.e2 else e
  }

  function DropRightZero(e: Expr): Expr {
    if e.Bin? && (e.op == AddOp || e.op == SubOp) && IsZero(e.e2) then e.e1 else e
  }

  function AddToSub(e: Expr): Expr {
    if e.Bin? && e.op == AddOp && IsNegative(e.e2) then Bin(SubOp, e.e1, Num(Neg(e.e2.n))) else e
  }

  /** The part of `dis_pp_expr` that follows the recursion into the operands. */
  function TidyNode(e: Expr, pos: Word, special: bool): Expr {
    AddToSub(DropRightZero(DropLeftZero(ShowSign(Fold(SubstPos(e, pos)), special))))
  }

  /** Which nodes of an expression are marked: one alone, or one and nodes below it. */
  datatype Marks = Here(special: bool) | Both(special: bool, m1: Marks, m2: Marks)
                 | Nested(special: bool, inner: seq<seq<Marks>>)

  function Left(m: Marks): Marks { if m.Both? then m.m1 else Here(false) }

  function Right(m: Marks): Marks { if m.Both? then m.m2 else Here(false) }

  /** The marks of an operand of a nested instruction. */
  function Inner(m: Marks, i: nat, j: nat): Marks {
    if m.Nested? && i < |m.inner| && j < |m.inner[i]| then m.inner[i][j] else Here(false)
  }

  /** `dis_pp_expr` */
  function TidyMarked(e: Expr, pos: Word, m: Marks): Expr
    decreases e
  {
    match e
    case Bin(op, e1, e2) =>
      TidyNode(Bin(op, TidyMarked(e1, pos, Left(m)), TidyMarked(e2, pos, Right(m))), pos, m.special)
    case Un(op, e1) => TidyNode(Un(op, TidyMarked(e1, pos, Left(m))), pos, m.special)
    case Mem(name, a) => TidyNode(Mem(name, TidyMarked(a, pos, Left(m))), pos, m.special)
    case MemStep(step, name, a, b) =>
      TidyNode(MemStep(step, name, TidyMarked(a, pos, Left(m)), TidyMarked(b, pos, Right(m))), pos, m.special)
    case SInsnExpr(insn) => TidyNode(SInsnExpr(TidyInsn(insn, pos, m)), pos, m.special)
    case _ => TidyNode(e, pos, m.special)
  }

  /** `dis_pp_sinsn` */
  function TidyInsn(s: SInsn, pos: Word, m: Marks): SInsn
    decreases s
  {
    s.(operands := seq(|s.operands|, i requires 0 <= i < |s.operands| => TidyOperand(s.operands[i], pos, m, i)))
  }

  function TidyOperand(op: Operand, pos: Word, m: Marks, i: nat): Operand
    decreases op
  {
    op.(exprs := seq(|op.exprs|, j requires 0 <= j < |op.exprs| => TidyMarked(op.exprs[j], pos, Inner(m, i, j))))
  }

  /** The same for an operand of which only the outermost expression may be marked. */
  function Tidy(e: Expr, pos: Word, special: bool): Expr { TidyMarked(e, pos, Here(special)) }

  // ---------------------------------------------------------------------
  // Meaning is preserved
  // ---------------------------------------------------------------------

  /** `env` with the current position known to be `pos`. */
  function At(env: Env, pos: Word): Env { env.(here := Some(pos)) }

  lemma {:induction false} SubstMeans(e: Expr, pos: Word, env: Env)
    ensures Eval(SubstPos(e, pos), env) == Eval(SubstPos(e, pos), At(env, pos)) == Eval(e, At(env, pos))
  {
    match e {
      case Bin(_, e1, e2) =>
        SubstMeans(e1, pos, env);
        SubstMeans(e2, pos, env);
      case Un(_, e1) => SubstMeans(e1, pos, env);
      case _ =>
    }
  }

  lemma FoldNodeMeans(e: Expr, env: Env)
    ensures Eval(FoldNode(e), env) == Eval(e, env)
  {
  }

  /** Constant folding keeps the value of every expression under every
      environment: 64-bit wrap-around, errors included.  A division by zero is
      not folded away, and neither is an operand that `&&` or `||` would skip. */
  lemma {:induction false} FoldMeans(e: Expr, env: Env)
    ensures Eval(Fold(e), env) == Eval(e, env)
  {
    match e {
      case Bin(op, e1, e2) =>
        FoldMeans(e1, env);
        FoldMeans(e2, env);
        FoldNodeMeans(Bin(op, Fold(e1), Fold(e2)), env);
      case Un(op, e1) =>
        FoldMeans(e1, env);
        FoldNodeMeans(Un(op, Fold(e1)), env);
      case _ =>
    }
  }

  lemma SubZero(x: Word)
    ensures Sub(x, Zero()) == x
  {
    AddZero(x, Zero());
    SubAfterAdd(x, Zero(), false);
  }

  /** Subtracting a negation is adding; `b` and `c` are the borrows of the inner
      and the outer subtraction. */
  lemma {:induction false} SubNegBits(x: seq<bool>, z: seq<bool>, n: seq<bool>, b: bool, c: bool)
    requires |x| == |z| == |n| && (c ==> b)
    requires forall i :: 0 <= i < |z| ==> !z[i]
    ensures SubB(x, SubB(z, n, b), c) == AddC(x, n, b && !c)
  {
    if x != [] {
      var y := SubB(z, n, b);
      var b' := n[0] || b;
      assert y[0] == (n[0] != b) && y[1..] == SubB(z[1..], n[1..], b');
      var c' := (!x[0] && (y[0] || c)) || (y[0] && c);
      SubNegBits(x[1..], z[1..], n[1..], b', c');
    }
  }

  /** `x - -n` is `x + n`. */
  lemma SubNeg(x: Word, n: Word)
    ensures Sub(x, Neg(n)) == Add(x, n)
  {
    SubNegBits(x, Zero(), n, false, false);
  }

  lemma ShowSignMeans(e: Expr, special: bool, env: Env)
    ensures Eval(ShowSign(e, special), env) == Eval(e, env)
  {
    hide Neg;
    if IsNegative(e) {
      NegBack(e.n);
    }
  }

  lemma DropLeftMeans(e: Expr, env: Env)
    ensures Eval(DropLeftZero(e), env) == Eval(e, env)
  {
    hide Add;
    if e.Bin? && e.op == AddOp && Eval(e.e2, env).Some? {
      AddLeftZero(Eval(e.e2, env).value);
    }
  }

  lemma DropRightMeans(e: Expr, env: Env)
    ensures Eval(DropRightZero(e), env) == Eval(e, env)
  {
    hide Sub, AddC;
    if e.Bin? && Eval(e.e1, env).Some? {
      AddZero(Eval(e.e1, env).value, Zero());
      SubZero(Eval(e.e1, env).value);
    }
  }

  lemma AddToSubMeans(e: Expr, env: Env)
    ensures Eval(AddToSub(e), env) == Eval(e, env)
  {
    hide Add, Sub, Neg;
    if e.Bin? && Eval(e.e1, env).Some? && Eval(e.e2, env).Some? {
      SubNeg(Eval(e.e1, env).value, Eval(e.e2, env).value);
    }
  }

  lemma CleanupMeans(e: Expr, special: bool, env: Env)
    ensures Eval(ShowSign(e, special), env) == Eval(e, env)
    ensures Eval(DropLeftZero(e), env) == Eval(e, env)
    ensures Eval(DropRightZero(e), env) == Eval(e, env)
    ensures Eval(AddToSub(e), env) == Eval(e, env)
  {
    hide Eval, ShowSign, DropLeftZero, DropRightZero, AddToSub;
    ShowSignMeans(e, special, env);
    DropLeftMeans(e, env);
    DropRightMeans(e, env);
    AddToSubMeans(e, env);
  }

  lemma TidyNodeMeans(e: Expr, pos: Word, special: bool, env: Env)
    ensures Eval(TidyNode(e, pos, special), env) == Eval(e, At(env, pos))
  {
    hide Eval, SubstPos, Fold, ShowSign, DropLeftZero, DropRightZero, AddToSub;
    SubstMeans(e, pos, env);
    var folded := Fold(SubstPos(e, pos));
    FoldMeans(SubstPos(e, pos), env);
    var signed := ShowSign(folded, special);
    CleanupMeans(folded, special, env);
    var left := DropLeftZero(signed);
    CleanupMeans(signed, special, env);
    CleanupMeans(left, special, env);
    CleanupMeans(DropRightZero(left), special, env);
  }

  /** The printed form of an operand at `pos` has, without looking at any
      position, the value that the decoded operand has there. */
  lemma {:induction false} TidyMeans(e: Expr, pos: Word, m: Marks, env: Env)
    ensures Eval(TidyMarked(e, pos, m), env) == Eval(e, At(env, pos))
    ensures Eval(TidyMarked(e, pos, m), At(env, pos)) == Eval(e, At(env, pos))
    decreases e
  {
    match e {
      case Bin(op, e1, e2) =>
        TidyMeans(e1, pos, Left(m), env);
        TidyMeans(e2, pos, Right(m), env);
        var e' := Bin(op, TidyMarked(e1, pos, Left(m)), TidyMarked(e2, pos, Right(m)));
        TidyNodeMeans(e', pos, m.special, env);
        TidyNodeMeans(e', pos, m.special, At(env, pos));
      case Un(op, e1) =>
        TidyMeans(e1, pos, Left(m), env);
        var e' := Un(op, TidyMarked(e1, pos, Left(m)));
        TidyNodeMeans(e', pos, m.special, env);
        TidyNodeMeans(e', pos, m.special, At(env, pos));
      case Mem(name, a) =>
        var e' := Mem(name, TidyMarked(a, pos, Left(m)));
        TidyNodeMeans(e', pos, m.special, env);
        TidyNodeMeans(e', pos, m.special, At(env, pos));
      case MemStep(step, name, a, b) =>
        var e' := MemStep(step, name, TidyMarked(a, pos, Left(m)), TidyMarked(b, pos, Right(m)));
        TidyNodeMeans(e', pos, m.special, env);
        TidyNodeMeans(e', pos, m.special, At(env, pos));
      case SInsnExpr(insn) =>
        var e' := SInsnExpr(TidyInsn(insn, pos, m));
        TidyNodeMeans(e', pos, m.special, env);
        TidyNodeMeans(e', pos, m.special, At(env, pos));
      case _ =>
        TidyNodeMeans(e, pos, m.special, env);
        TidyNodeMeans(e, pos, m.special, At(env, pos));
    }
  }

  /** What is done to a part of a memory operand: it is cleaned up for itself, and then
      substituted and folded once more with the operand. */
  function TidyPart(e: Expr, pos: Word, m: Marks): Expr { Fold(SubstPos(TidyMarked(e, pos, m), pos)) }

  lemma TidyPartMeans(e: Expr, pos: Word, m: Marks, env: Env)
    ensures Eval(TidyPart(e, pos, m), env) == Eval(e, At(env, pos))
  {
    hide Eval, SubstPos, Fold, TidyMarked;
    TidyMeans(e, pos, m, env);
    SubstMeans(TidyMarked(e, pos, m), pos, env);
    FoldMeans(SubstPos(TidyMarked(e, pos, m), pos), env);
  }

  /** Memory operands have no value, but their addresses have: they stay memory operands
      of the same name, each part worth what the decoded part is worth at `pos`. */
  lemma TidyMemory(e: Expr, pos: Word, m: Marks, env: Env)
    ensures e.Mem? ==>
              var r := TidyMarked(e, pos, m);
              r.Mem? && r.name == e.name && Eval(r.addr, env) == Eval(e.addr, At(env, pos))
    ensures e.MemStep? ==>
              var r := TidyMarked(e, pos, m);
              && r.MemStep? && r.step == e.step && r.name == e.name
              && Eval(r.addr, env) == Eval(e.addr, At(env, pos)) && Eval(r.amount, env) == Eval(e.amount, At(env, pos))
  {
    hide Eval, Fold, SubstPos;
    if e.Mem? || e.MemStep? {
      TidyPartMeans(e.addr, pos, Left(m), env);
      TidyMemoryParts(e, pos, m);
    }
    if e.MemStep? {
      TidyPartMeans(e.amount, pos, Right(m), env);
    }
  }

  lemma TidyMemoryParts(e: Expr, pos: Word, m: Marks)
    ensures e.Mem? ==> TidyMarked(e, pos, m) == Mem(e.name, TidyPart(e.addr, pos, Left(m)))
    ensures e.MemStep? ==>
              TidyMarked(e, pos, m) ==
              MemStep(e.step, e.name, TidyPart(e.addr, pos, Left(m)), TidyPart(e.amount, pos, Right(m)))
  {
  }

  // ---------------------------------------------------------------------
  // At every depth
  // ---------------------------------------------------------------------

  /** `r`, without looking at any position, is worth what `e` is worth at `pos`; memory
      operands and nested instructions stay what they are, and so it is for all their parts. */
  ghost predicate Keeps(e: Expr, r: Expr, pos: Word)
    decreases e
  {
    && (forall env :: Eval(r, env) == Eval(e, At(env, pos)))
    && match e
       case Mem(name, a) => r.Mem? && r.name == name && Keeps(a, r.addr, pos)
       case MemStep(step, name, a, b) =>
         r.MemStep? && r.step == step && r.name == name && Keeps(a, r.addr, pos) && Keeps(b, r.amount, pos)
       case SInsnExpr(s) => r.SInsnExpr? && KeepsInsn(s, r.insn, pos)
       case _ => true
  }

  ghost predicate KeepsInsn(s: SInsn, r: SInsn, pos: Word)
    decreases s
  {
    && r.name == s.name && r.isunk == s.isunk && r.mods == s.mods && |r.operands| == |s.operands|
    && forall i :: 0 <= i < |s.operands| ==> KeepsOperand(s.operands[i], r.operands[i], pos)
  }

  ghost predicate KeepsOperand(op: Operand, r: Operand, pos: Word)
    decreases op
  {
    && r.mods == op.mods && |r.exprs| == |op.exprs|
    && forall j :: 0 <= j < |op.exprs| ==> Keeps(op.exprs[j], r.exprs[j], pos)
  }

  lemma FoldedValue(e: Expr, r: Expr, pos: Word, env: Env)
    requires Eval(r, env) == Eval(e, At(env, pos)) && Eval(r, At(env, pos)) == Eval(e, At(At(env, pos), pos))
    ensures Eval(Fold(SubstPos(r, pos)), env) == Eval(e, At(env, pos))
  {
    hide Eval, SubstPos, Fold;
    SubstMeans(r, pos, env);
    FoldMeans(SubstPos(r, pos), env);
  }

  /** Substituting and folding once more, as it is done from the outside. */
  lemma {:induction false} KeepsFolded(e: Expr, r: Expr, pos: Word)
    requires Keeps(e, r, pos)
    ensures Keeps(e, Fold(SubstPos(r, pos)), pos)
    decreases e
  {
    hide Eval, KeepsInsn, SubstInsn, FoldInsn;
    forall env ensures Eval(Fold(SubstPos(r, pos)), env) == Eval(e, At(env, pos)) {
      FoldedValue(e, r, pos, env);
    }
    match e {
      case Mem(_, a) => KeepsFolded(a, r.addr, pos);
      case MemStep(_, _, a, b) =>
        KeepsFolded(a, r.addr, pos);
        KeepsFolded(b, r.amount, pos);
      case SInsnExpr(s) => KeepsFoldedInsn(s, r.insn, pos);
      case _ =>
    }
  }

  lemma {:induction false} KeepsFoldedInsn(s: SInsn, r: SInsn, pos: Word)
    requires KeepsInsn(s, r, pos)
    ensures KeepsInsn(s, FoldInsn(SubstInsn(r, pos)), pos)
    decreases s
  {
    hide KeepsOperand;
    forall i | 0 <= i < |s.operands|
      ensures KeepsOperand(s.operands[i], FoldOperand(SubstOperand(r.operands[i], pos)), pos)
    {
      KeepsFoldedOperand(s.operands[i], r.operands[i], pos);
    }
  }

  lemma {:induction false} KeepsFoldedOperand(op: Operand, r: Operand, pos: Word)
    requires KeepsOperand(op, r, pos)
    ensures KeepsOperand(op, FoldOperand(SubstOperand(r, pos)), pos)
    decreases op
  {
    hide Keeps, SubstPos, Fold;
    forall j | 0 <= j < |op.exprs| ensures Keeps(op.exprs[j], Fold(SubstPos(r.exprs[j], pos)), pos) {
      KeepsFolded(op.exprs[j], r.exprs[j], pos);
    }
  }

  /** The clean-up keeps values at every depth, whichever nodes are marked. */
  lemma {:induction false} TidyKeeps(e: Expr, pos: Word, m: Marks)
    ensures Keeps(e, TidyMarked(e, pos, m), pos)
    decreases e
  {
    hide Eval, KeepsInsn, TidyMarked, TidyInsn;
    forall env ensures Eval(TidyMarked(e, pos, m), env) == Eval(e, At(env, pos)) {
      TidyMeans(e, pos, m, env);
    }
    match e {
      case Mem(_, a) =>
        TidyMemoryParts(e, pos, m);
        TidyKeeps(a, pos, Left(m));
        KeepsFolded(a, TidyMarked(a, pos, Left(m)), pos);
      case MemStep(_, _, a, b) =>
        TidyMemoryParts(e, pos, m);
        TidyKeeps(a, pos, Left(m));
        TidyKeeps(b, pos, Right(m));
        KeepsFolded(a, TidyMarked(a, pos, Left(m)), pos);
        KeepsFolded(b, TidyMarked(b, pos, Right(m)), pos);
      case SInsnExpr(s) =>
        TidyInsnParts(s, pos, m);
        TidyKeepsInsn(s, pos, m);
        KeepsFoldedInsn(s, TidyInsn(s, pos, m), pos);
      case _ =>
    }
  }

  lemma TidyInsnParts(s: SInsn, pos: Word, m: Marks)
    ensures TidyMarked(SInsnExpr(s), pos, m) == SInsnExpr(FoldInsn(SubstInsn(TidyInsn(s, pos, m), pos)))
  {
    hide TidyInsn, SubstInsn, FoldInsn;
  }

  lemma {:induction false} TidyKeepsInsn(s: SInsn, pos: Word, m: Marks)
    ensures KeepsInsn(s, TidyInsn(s, pos, m), pos)
    decreases s
  {
    hide KeepsOperand;
    forall i | 0 <= i < |s.operands| ensures KeepsOperand(s.operands[i], TidyOperand(s.operands[i], pos, m, i), pos) {
      TidyKeepsOperand(s.operands[i], pos, m, i);
    }
  }

  lemma {:induction false} TidyKeepsOperand(op: Operand, pos: Word, m: Marks, i: nat)
    ensures KeepsOperand(op, TidyOperand(op, pos, m, i), pos)
    decreases op
  {
    hide Keeps, TidyMarked;
    forall j | 0 <= j < |op.exprs| ensures Keeps(op.exprs[j], TidyMarked(op.exprs[j], pos, Inner(m, i, j)), pos) {
      TidyKeeps(op.exprs[j], pos, Inner(m, i, j));
    }
  }

  // ---------------------------------------------------------------------
  // Branch targets
  // ---------------------------------------------------------------------

  /** Made of numbers, the position and the given operators only. */
  predicate Constant(e: Expr) {
    match e
    case Num(_) => true
    case Pos => true
    case Un(_, e1) => Constant(e1)
    case Bin(op, e1, e2) =>
      op in {AddOp, SubOp, AndOp, OrOp, XorOp, MulOp, ShlOp, ShrOp} && Constant(e1) && Constant(e2)
    case _ => false
  }

  /** An expression of that kind folds to the number it is worth. */
  lemma {:induction false} ConstantFolds(e: Expr, pos: Word, env: Env)
    requires Constant(e)
    ensures Eval(e, At(env, pos)).Some? && Fold(SubstPos(e, pos)) == Num(Eval(e, At(env, pos)).value)
  {
    match e {
      case Bin(_, e1, e2) =>
        ConstantFolds(e1, pos, env);
        ConstantFolds(e2, pos, env);
      case Un(_, e1) => ConstantFolds(e1, pos, env);
      case _ =>
    }
  }

  lemma PosExprConstant(bf: RBitfield)
    requires ValidRbf(bf)
    ensures Constant(PosExpr(bf))
  {
  }

  lemma SumConstant(e: Expr, res: Word, k: Word)
    requires Constant(e)
    ensures Constant(PlusConst(Bin(AddOp, e, Num(res)), k))
  {
  }

  lemma TargetConstant(bf: RBitfield, a: Code)
    requires ValidRbf(bf)
    ensures Constant(GetRbf(bf, a))
  {
    PosExprConstant(bf);
    SumConstant(PosExpr(bf), RawValue(bf, a), bf.addend);
  }

  /** The branch target round trip.  A field that `resolve` filled at `pos` with
      the value of a source expression is decoded, by any opcode that keeps the
      fixed bits, to an expression that position substitution and folding turn
      into a number: that value, up to the field's own width when `wrapok`. */
  lemma BranchTargetRoundTrip(bf: RBitfield, a: Code, m: Code, val: Word, pos: Word, x: Code)
    requires ValidRbf(bf) && Fields.Tidy(a, m)
    requires FillRbf(a, m, bf, val, pos).ok
    requires Agrees(x, FillRbf(a, m, bf, val, pos).a, FillRbf(a, m, bf, val, pos).m)
    ensures var target := Fold(SubstPos(GetRbf(bf, x), pos));
            target.Num? && Words.And(target.n, CheckMask(bf)) == Words.And(val, CheckMask(bf))
    ensures !bf.wrapok ==> Fold(SubstPos(GetRbf(bf, x), pos)) == Num(val)
  {
    FillSound(a, m, bf, val, pos, x);
    ReadersAgree(bf, x, map[], pos);
    TargetConstant(bf, x);
    ConstantFolds(GetRbf(bf, x), pos, Env(map[], map[], None));
    if !bf.wrapok {
      assert Words.And(val, AllOnes()) == val;
      assert Words.And(GetRbfAs(bf, x, pos), AllOnes()) == GetRbfAs(bf, x, pos);
    }
  }

  /** Constant operands come out of the clean-up as their value, shown with a
      sign when it is negative and the operand is not marked. */
  lemma {:induction false} ConstantTidies(e: Expr, pos: Word, special: bool, env: Env)
    requires Constant(e)
    ensures Eval(e, At(env, pos)).Some?
    ensures Tidy(e, pos, special) == ShowSign(Num(Eval(e, At(env, pos)).value), special)
    decreases e
  {
    hide ShowSign, DropLeftZero, DropRightZero, AddToSub, SubstPos, Fold, BinValue, UnValue;
    ConstantFolds(e, pos, env);
    match e {
      case Bin(op, e1, e2) =>
        ConstantTidies(e1, pos, false, env);
        ConstantTidies(e2, pos, false, env);
        var v1, v2 := Eval(e1, At(env, pos)).value, Eval(e2, At(env, pos)).value;
        ShownFolds(v1, pos);
        ShownFolds(v2, pos);
        BinFolds(op, Tidy(e1, pos, false), Tidy(e2, pos, false), v1, v2, pos);
        ShownStays(Eval(e, At(env, pos)).value, special);
      case Un(op, e1) =>
        ConstantTidies(e1, pos, false, env);
        var v1 := Eval(e1, At(env, pos)).value;
        ShownFolds(v1, pos);
        UnFolds(op, Tidy(e1, pos, false), v1, pos);
        ShownStays(Eval(e, At(env, pos)).value, special);
      case Num(n) => ShownStays(n, special);
      case Pos => ShownStays(pos, special);
    }
  }

  lemma BinFolds(op: BinOp, a: Expr, b: Expr, x: Word, y: Word, pos: Word)
    requires Fold(SubstPos(a, pos)) == Num(x) && Fold(SubstPos(b, pos)) == Num(y)
    ensures BinValue(op, x, y).Some? ==> Fold(SubstPos(Bin(op, a, b), pos)) == Num(BinValue(op, x, y).value)
  {
    hide BinValue;
  }

  lemma UnFolds(op: UnOp, a: Expr, x: Word, pos: Word)
    requires Fold(SubstPos(a, pos)) == Num(x)
    ensures Fold(SubstPos(Un(op, a), pos)) == Num(UnValue(op, x))
  {
    hide UnValue;
  }

  lemma ShownFolds(n: Word, pos: Word)
    ensures Fold(SubstPos(ShowSign(Num(n), false), pos)) == Num(n)
  {
    NegBack(n);
  }

  lemma ShownStays(n: Word, special: bool)
    ensures AddToSub(DropRightZero(DropLeftZero(ShowSign(Num(n), special)))) == ShowSign(Num(n), special)
  {
  }
}
