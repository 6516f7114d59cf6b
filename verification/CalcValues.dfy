/** What `calc` computes, on numbers: the operators of the assembly language are those of
    arithmetic modulo 2^64, and so is folding, which `Rewrite.FoldMeans` ties to `Eval`. */
module CalcValues {
  import opened Options
  import opened Words
  import opened Exprs
  import opened Numbers
  import Registers

  /** The expression has a value, and it is the number `v`. */
  ghost predicate Worth(e: Expr, env: Env, v: int) {
    Eval(e, env).Some? && Val(Eval(e, env).value) == v
  }

  lemma ProductValue(x: Word, y: Word)
    ensures Val(Mul(x, y)) == Wrap(Val(x) * Val(y))
  {
    hide Val, Pow2, FromNat;
    FromNatValue(Val(x) * Val(y));
  }

  lemma TruthValue(b: bool)
    ensures Val(Truth(b)) == Unit(b)
  {
    hide Val;
    ZeroValue();
    OneHotValue(0);
  }

  /** `+`, `-` and `*` are those of the integers modulo 2^64. */
  lemma RingOperators(e1: Expr, e2: Expr, env: Env, x: nat, y: nat)
    requires Worth(e1, env, x) && Worth(e2, env, y)
    ensures Worth(Bin(AddOp, e1, e2), env, Wrap(x + y))
    ensures Worth(Bin(SubOp, e1, e2), env, Wrap(x - y))
    ensures Worth(Bin(MulOp, e1, e2), env, Wrap(x * y))
  {
    hide Val, AddC, SubB, Mul, Pow2;
    var a, b := Eval(e1, env).value, Eval(e2, env).value;
    AddIsModular(a, b);
    SubIsModular(a, b);
    ProductValue(a, b);
  }

  /** `/` and `%` are quotient and remainder, and stop the program for the divisor 0. */
  lemma DivisionOperators(e1: Expr, e2: Expr, env: Env, x: nat, y: nat) returns (q: nat, r: nat)
    requires Worth(e1, env, x) && Worth(e2, env, y)
    ensures y > 0 ==> Worth(Bin(DivOp, e1, e2), env, q) && Worth(Bin(ModOp, e1, e2), env, r)
                      && x == q * y + r && r < y
    ensures y == 0 ==> Eval(Bin(DivOp, e1, e2), env) == None == Eval(Bin(ModOp, e1, e2), env)
  {
    hide Val, Pow2, FromNat;
    q, r := 0, 0;
    if y > 0 {
      QuotientBound(x, y);
      q, r := x / y, x % y;
      FromNatValue(q);
      FromNatValue(r);
      Quotient(q, Pow2(64), 0, q);
      Quotient(r, Pow2(64), 0, r);
    }
  }

  /** `<<` multiplies by a power of two, modulo 2^64, and `>>` divides by one. */
  lemma ShiftOperators(e1: Expr, e2: Expr, env: Env, x: nat, y: nat)
    requires Worth(e1, env, x) && Worth(e2, env, y)
    ensures Worth(Bin(ShlOp, e1, e2), env, Wrap(x * Pow2(y)))
    ensures Worth(Bin(ShrOp, e1, e2), env, x / Pow2(y))
  {
    hide Val, Shl, Shr, Pow2;
    var a := Eval(e1, env).value;
    ShlValue(a, y);
    ShrValue(a, y);
  }

  /** `&`, `|` and `^` work bit by bit. */
  lemma BitOperators(e1: Expr, e2: Expr, env: Env, x: nat, y: nat) returns (a: nat, o: nat, d: nat)
    requires Worth(e1, env, x) && Worth(e2, env, y)
    ensures Worth(Bin(AndOp, e1, e2), env, a) && Worth(Bin(OrOp, e1, e2), env, o)
    ensures Worth(Bin(XorOp, e1, e2), env, d)
    ensures a < Pow2(64) && o < Pow2(64) && d < Pow2(64)
    ensures forall i :: 0 <= i < 64 ==> (Bit(a, i) <==> Bit(x, i) && Bit(y, i))
    ensures forall i :: 0 <= i < 64 ==> (Bit(o, i) <==> Bit(x, i) || Bit(y, i))
    ensures forall i :: 0 <= i < 64 ==> (Bit(d, i) <==> Bit(x, i) != Bit(y, i))
  {
    hide Val, Bit, Pow2;
    var v, w := Eval(e1, env).value, Eval(e2, env).value;
    var va, vo, vd := Words.And(v, w), Words.Or(v, w), Words.Xor(v, w);
    a, o, d := Val(va), Val(vo), Val(vd);
    forall i | 0 <= i < 64
      ensures (Bit(a, i) <==> Bit(x, i) && Bit(y, i)) && (Bit(o, i) <==> Bit(x, i) || Bit(y, i))
      ensures Bit(d, i) <==> Bit(x, i) != Bit(y, i)
    {
      BitOfVal(v, i);
      BitOfVal(w, i);
      BitOfVal(va, i);
      BitOfVal(vo, i);
      BitOfVal(vd, i);
    }
  }

  /** `&&` and `||` are 0 or 1, and the left operand alone may decide. */
  lemma TruthOperators(e1: Expr, e2: Expr, env: Env, x: nat)
    requires Worth(e1, env, x)
    ensures x == 0 ==> Worth(Bin(LAndOp, e1, e2), env, 0)
    ensures x != 0 ==> Worth(Bin(LOrOp, e1, e2), env, 1)
    ensures forall y: nat :: Worth(e2, env, y) ==>
      && Worth(Bin(LAndOp, e1, e2), env, if x != 0 && y != 0 then 1 else 0)
      && Worth(Bin(LOrOp, e1, e2), env, if x != 0 || y != 0 then 1 else 0)
  {
    hide Val, Truth;
    ZeroIff(Eval(e1, env).value);
    TruthValue(true);
    TruthValue(false);
    forall y: nat | Worth(e2, env, y)
      ensures Worth(Bin(LAndOp, e1, e2), env, if x != 0 && y != 0 then 1 else 0)
      ensures Worth(Bin(LOrOp, e1, e2), env, if x != 0 || y != 0 then 1 else 0)
    {
      ZeroIff(Eval(e2, env).value);
    }
  }

  /** `-`, `~` and `!`. */
  lemma UnaryOperators(e: Expr, env: Env, x: nat)
    requires Worth(e, env, x)
    ensures Worth(Un(NegOp, e), env, Wrap(0 - x))
    ensures Worth(Un(NotOp, e), env, Pow2(64) - 1 - x)
    ensures Worth(Un(LNotOp, e), env, if x == 0 then 1 else 0)
  {
    hide Val, Truth, Neg, Pow2;
    var v := Eval(e, env).value;
    NegValue(v);
    NotSum(v, Not(v));
    ZeroIff(v);
    TruthValue(!IsTrue(v));
  }

  /** The registers that are always 0 and always 1 are shown as these numbers. */
  lemma FixedRegisters(env: Env)
    ensures Worth(Registers.SpecialText(Registers.IsZero), env, 0)
    ensures Worth(Registers.SpecialText(Registers.IsOne), env, 1)
  {
    hide Val;
    ZeroValue();
    OneHotValue(0);
  }

  // ---------------------------------------------------------------------
  // Whole expressions
  // ---------------------------------------------------------------------

  /** The expression has only numbers, defined names, `+`, `-`, `*` and negations. */
  predicate Linear(e: Expr, env: Env) {
    match e
    case Num(_) => true
    case Label(s) => s in env.labels
    case Un(NegOp, e1) => Linear(e1, env)
    case Bin(op, e1, e2) => (op == AddOp || op == SubOp || op == MulOp) && Linear(e1, env) && Linear(e2, env)
    case _ => false
  }

  /** Its value over the integers. */
  function Exact(e: Expr, env: Env): int
    requires Linear(e, env)
  {
    match e
    case Num(n) => Val(n)
    case Label(s) => Val(env.labels[s])
    case Un(_, e1) => -Exact(e1, env)
    case Bin(op, e1, e2) =>
      var x, y := Exact(e1, env), Exact(e2, env);
      if op == AddOp then x + y else if op == SubOp then x - y else x * y
  }

  lemma SumRemainder(x: int, y: int, m: int)
    requires m > 0
    ensures (x % m + y % m) % m == (x + y) % m && (x % m - y % m) % m == (x - y) % m
  {
    var p, q := x / m, y / m;
    Spread(m, p, q);
    SameRemainder(x + y, x % m + y % m, m, p + q);
    SameRemainder(x - y, x % m - y % m, m, p - q);
  }

  lemma Spread(m: int, p: int, q: int)
    ensures m * (p + q) == m * p + m * q && m * (p - q) == m * p - m * q
  {
  }

  lemma ProductRemainder(x: int, y: int, m: int)
    requires m > 0
    ensures (x % m) * (y % m) % m == x * y % m
  {
    var p, q, a, b := x / m, y / m, x % m, y % m;
    ProductOfSums(m, p, a, q, b);
    SameRemainder(x * y, a * b, m, p * y + a * q);
  }

  lemma ProductOfSums(m: int, p: int, a: int, q: int, b: int)
    ensures (m * p + a) * (m * q + b) == a * b + m * (p * (m * q + b) + a * q)
  {
    var y := m * q + b;
    assert (m * p + a) * y == m * p * y + a * y;
    assert a * y == m * (a * q) + a * b;
    assert m * (p * y + a * q) == m * (p * y) + m * (a * q);
  }

  /** However often 64 bits overflow on the way, the outcome is the exact value modulo
      2^64. */
  lemma {:induction false} WrapsOnlyOnce(e: Expr, env: Env)
    requires Linear(e, env)
    ensures Worth(e, env, Wrap(Exact(e, env)))
  {
    hide Worth, Val, Pow2;
    match e {
      case Num(_) => LeafWraps(e, env);
      case Label(_) => LeafWraps(e, env);
      case Un(_, e1) =>
        WrapsOnlyOnce(e1, env);
        UnaryOperators(e1, env, Wrap(Exact(e1, env)));
        SumRemainder(0, Exact(e1, env), Pow2(64));
        Quotient(0, Pow2(64), 0, 0);
      case Bin(op, e1, e2) =>
        WrapsOnlyOnce(e1, env);
        WrapsOnlyOnce(e2, env);
        BinWraps(e, env);
    }
  }

  lemma LeafWraps(e: Expr, env: Env)
    requires Linear(e, env) && (e.Num? || e.Label?)
    ensures Worth(e, env, Wrap(Exact(e, env)))
  {
    hide Val, Pow2;
    Quotient(Exact(e, env), Pow2(64), 0, Exact(e, env));
  }

  lemma BinWraps(e: Expr, env: Env)
    requires Linear(e, env) && e.Bin?
    requires Worth(e.e1, env, Wrap(Exact(e.e1, env))) && Worth(e.e2, env, Wrap(Exact(e.e2, env)))
    ensures Worth(e, env, Wrap(Exact(e, env)))
  {
    hide Worth, Val, Pow2, Exact;
    var x, y := Exact(e.e1, env), Exact(e.e2, env);
    RingOperators(e.e1, e.e2, env, Wrap(x), Wrap(y));
    SumRemainder(x, y, Pow2(64));
    ProductRemainder(x, y, Pow2(64));
    ExactStep(e, env);
  }

  lemma ExactStep(e: Expr, env: Env)
    requires Linear(e, env) && e.Bin?
    ensures var x, y := Exact(e.e1, env), Exact(e.e2, env);
            Exact(e, env) == if e.op == AddOp then x + y else if e.op == SubOp then x - y else x * y
  {
  }
}
