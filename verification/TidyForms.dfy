/** What cleaned-up operands look like, on numbers: how a constant is shown, and how an offset
    is added to something that is no constant. */
module TidyForms {
  import opened Options
  import opened Words
  import opened Exprs
  import opened Numbers
  import opened Rewrite

  /** `r` shows the number `v` as a signed one: as it is, or as the negation of a positive one. */
  ghost predicate ShowsSigned(r: Expr, v: Word) {
    if Int64(v) >= 0 then r == Num(v)
    else r.Un? && r.uop == NegOp && r.e.Num? && Val(r.e.n) == 0 - Int64(v)
  }

  lemma NegSigned(v: Word)
    ensures v[63] <==> Int64(v) < 0
    ensures Int64(v) < 0 ==> Val(Neg(v)) == 0 - Int64(v)
  {
    hide Val, SubB, Pow2;
    DoublePower(63);
    SubIsModular(Zero(), v);
    ZeroValue();
    SignedValue(v);
    if Int64(v) < 0 {
      Quotient(0 - Val(v), Pow2(64), -1, Pow2(64) - Val(v));
    }
  }

  /** A constant operand is shown as its value: plainly if it is marked, such as a branch
      target, and with its sign otherwise. */
  lemma ConstantShown(e: Expr, pos: Word, special: bool, env: Env)
    requires Constant(e)
    ensures Eval(e, At(env, pos)).Some?
    ensures var v := Eval(e, At(env, pos)).value;
            if special then Tidy(e, pos, special) == Num(v) else ShowsSigned(Tidy(e, pos, special), v)
  {
    hide Val, Neg, Tidy, Eval, Int64;
    ConstantTidies(e, pos, special, env);
    NegSigned(Eval(e, At(env, pos)).value);
  }

  /** What becomes of an operand inside another one: it is cleaned up for itself, and folded
      again. */
  function Inside(e: Expr, pos: Word, m: Marks): Expr { Fold(SubstPos(TidyMarked(e, pos, m), pos)) }

  /** Neither a number nor a sum with a negative number. */
  predicate Base(a: Expr) { !a.Num? && !(a.Bin? && a.op == AddOp && IsNegative(a.e2)) }

  lemma NumInside(n: Word, pos: Word, m: Marks)
    ensures Inside(Num(n), pos, m) == Num(n)
  {
    hide Neg, DropLeftZero, DropRightZero, AddToSub;
    ShownStays(n, m.special);
    ShownFolds(n, pos);
  }

  lemma SumInside(op: BinOp, e1: Expr, e2: Expr, pos: Word, m: Marks)
    requires op == AddOp || op == SubOp
    requires !Inside(e1, pos, Left(m)).Num? || !Inside(e2, pos, Right(m)).Num?
    ensures TidyMarked(Bin(op, e1, e2), pos, m) ==
            AddToSub(DropRightZero(DropLeftZero(Bin(op, Inside(e1, pos, Left(m)), Inside(e2, pos, Right(m))))))
  {
    var a, b := TidyMarked(e1, pos, Left(m)), TidyMarked(e2, pos, Right(m));
    assert SubstPos(Bin(op, a, b), pos) == Bin(op, SubstPos(a, pos), SubstPos(b, pos));
  }

  /** An offset to something that is no constant: 0 is not shown, a negative one is shown as a
      subtraction of its magnitude, any other as it is. */
  lemma OffsetShown(e: Expr, n: Word, pos: Word, m: Marks)
    requires Base(Inside(e, pos, Left(m)))
    ensures var a, r := Inside(e, pos, Left(m)), TidyMarked(Bin(AddOp, e, Num(n)), pos, m);
            if Val(n) == 0 then r == a
            else if Int64(n) > 0 then r == Bin(AddOp, a, Num(n))
            else r.Bin? && r.op == SubOp && r.e1 == a && r.e2.Num? && Val(r.e2.n) == 0 - Int64(n)
    ensures Val(n) == 0 ==> TidyMarked(Bin(SubOp, e, Num(n)), pos, m) == Inside(e, pos, Left(m))
  {
    hide Val, Neg, TidyMarked, Inside, Int64, Fold, SubstPos;
    NumInside(n, pos, Right(m));
    SumInside(AddOp, e, Num(n), pos, m);
    SumInside(SubOp, e, Num(n), pos, m);
    NegSigned(n);
    ZeroIff(n);
    SignedZero(n);
  }

  /** A leading 0 is not shown either. */
  lemma ZeroInFront(e: Expr, n: Word, pos: Word, m: Marks)
    requires Val(n) == 0 && Base(Inside(e, pos, Right(m)))
    requires var b := Inside(e, pos, Right(m)); !(b.Bin? && b.op in {AddOp, SubOp} && Rewrite.IsZero(b.e2))
    ensures TidyMarked(Bin(AddOp, Num(n), e), pos, m) == Inside(e, pos, Right(m))
  {
    hide Val, TidyMarked, Inside, Fold, SubstPos;
    NumInside(n, pos, Left(m));
    SumInside(AddOp, Num(n), e, pos, m);
    ZeroIff(n);
  }

  lemma SignedZero(n: Word)
    ensures Int64(n) == 0 <==> Val(n) == 0
  {
    hide Val;
    SignedValue(n);
    Quotient(0, Pow2(64), 0, 0);
  }
}
