/** Relocatable fields: their reading as a position-relative expression by the
    disassembler (`getrbf`) and as a number by the assembler (`getrbf_as`), and
    the filling done by `setrbf` and by each iteration of `resolve`. */
module Relocs {
  import opened Options
  import opened Words
  import opened Exprs
  import opened Fields

  datatype RBitfield = RBitfield(s0: Sbf, s1: Sbf, mode: Mode, shr: nat, pcrel: bool,
                                 addend: Word, pospreadd: Word, wrapok: bool)

  predicate ValidRbf(bf: RBitfield) {
    FitsFields(bf.s0, bf.s1, bf.mode, bf.shr) && !bf.mode.Lut?
  }

  function FieldTotal(bf: RBitfield): nat { Total(bf.s0, bf.s1, bf.shr) }

  function RawValue(bf: RBitfield, a: Code): Word
    requires ValidRbf(bf)
  {
    Interpret(bf.mode, FieldTotal(bf), Raw(bf.s0, bf.s1, bf.shr, a))
  }

  /** `(pos + pospreadd) & -(1ull << shr)` */
  function PosBase(bf: RBitfield, pos: Word): Word
    requires ValidRbf(bf)
  {
    Words.And(Add(pos, bf.pospreadd), HighOnes(bf.shr))
  }

  /** `getrbf_as` */
  function GetRbfAs(bf: RBitfield, a: Code, pos: Word): Word
    requires ValidRbf(bf)
  {
    var res := RawValue(bf, a);
    Add(if bf.pcrel then Add(res, PosBase(bf, pos)) else res, bf.addend)
  }

  /** The position part of the expression that `getrbf` builds. */
  function PosExpr(bf: RBitfield): Expr
    requires ValidRbf(bf)
  {
    var e := if bf.pospreadd != Zero() then Bin(AddOp, Pos, Num(bf.pospreadd)) else Pos;
    if bf.shr != 0 then Bin(AndOp, e, Num(HighOnes(bf.shr))) else e
  }

  function PlusConst(e: Expr, k: Word): Expr {
    if k != Zero() then Bin(AddOp, e, Num(k)) else e
  }

  /** `getrbf` */
  function GetRbf(bf: RBitfield, a: Code): Expr
    requires ValidRbf(bf)
  {
    var res := RawValue(bf, a);
    if bf.pcrel then PlusConst(Bin(AddOp, PosExpr(bf), Num(res)), bf.addend)
    else Num(Add(res, bf.addend))
  }

  function AtPos(labels: map<string, Word>, pos: Word): Env { Env(labels, map[], Some(pos)) }

  lemma PosExprValue(bf: RBitfield, env: Env, pos: Word)
    requires ValidRbf(bf) && env.here == Some(pos)
    ensures Eval(PosExpr(bf), env) == Some(PosBase(bf, pos))
  {
    AddZero(pos, Zero());
    var sum := Add(pos, bf.pospreadd);
    var e := if bf.pospreadd != Zero() then Bin(AddOp, Pos, Num(bf.pospreadd)) else Pos;
    assert Eval(e, env) == Some(sum);
    if bf.shr == 0 {
      assert Words.And(sum, HighOnes(0)) == sum;
    }
  }

  lemma SumValue(e: Expr, k: Word, env: Env, v: Word)
    requires Eval(e, env) == Some(v)
    ensures Eval(Bin(AddOp, e, Num(k)), env) == Some(Add(v, k))
    ensures Eval(PlusConst(e, k), env) == Some(Add(v, k))
  {
    AddZero(v, Zero());
  }

  lemma TargetValue(e: Expr, base: Word, res: Word, addend: Word, env: Env)
    requires Eval(e, env) == Some(base)
    ensures Eval(PlusConst(Bin(AddOp, e, Num(res)), addend), env) == Some(Add(Add(res, base), addend))
  {
    SumValue(e, res, env, base);
    AddCommutes(base, res, false);
    SumValue(Bin(AddOp, e, Num(res)), addend, env, Add(res, base));
  }

  /** The two readers agree: the expression that the disassembler builds
      evaluates, at the instruction's position, to the assembler's reading. */
  lemma ReadersAgree(bf: RBitfield, a: Code, labels: map<string, Word>, pos: Word)
    requires ValidRbf(bf)
    ensures Eval(GetRbf(bf, a), AtPos(labels, pos)) == Some(GetRbfAs(bf, a, pos))
  {
    if bf.pcrel {
      var env := AtPos(labels, pos);
      PosExprValue(bf, env, pos);
      TargetValue(PosExpr(bf), PosBase(bf, pos), RawValue(bf, a), bf.addend, env);
    }
  }

  /** The bits on which a filled field has to agree with the value asked for. */
  function CheckMask(bf: RBitfield): Word
    requires ValidRbf(bf)
  {
    if bf.wrapok then Ones(FieldTotal(bf)) else AllOnes()
  }

  /** One relocation of `resolve`; `setrbf` is the case of a plain number in a
      field that is not position-relative. */
  function FillRbf(a: Code, m: Code, bf: RBitfield, val: Word, pos: Word): Fill
    requires ValidRbf(bf)
  {
    var num := Sub(val, bf.addend);
    var num' := if bf.pcrel then Sub(num, PosBase(bf, pos)) else num;
    var (a', m') := SetPieces(a, m, bf.s0, bf.s1, Shr(num', bf.shr));
    Fill(Words.And(GetRbfAs(bf, a', pos), CheckMask(bf)) == Words.And(val, CheckMask(bf)), a', m')
  }

  lemma SameRbf(bf: RBitfield, x: Code, a: Code, m: Code, pos: Word)
    requires ValidRbf(bf) && Agrees(x, a, m) && Covers(m, bf.s0) && Covers(m, bf.s1)
    ensures GetRbfAs(bf, x, pos) == GetRbfAs(bf, a, pos) && GetRbf(bf, x) == GetRbf(bf, a)
  {
    SameRaw(bf.s0, bf.s1, bf.shr, x, a, m);
  }

  /** A field that was filled reads back as the value asked for from every
      opcode that keeps the fixed bits, and fixed bits were not disturbed. */
  lemma FillSound(a: Code, m: Code, bf: RBitfield, val: Word, pos: Word, x: Code)
    requires ValidRbf(bf) && Tidy(a, m)
    ensures var r := FillRbf(a, m, bf, val, pos);
            Tidy(r.a, r.m) && Extends(a, m, r.a, r.m)
            && (r.ok && Agrees(x, r.a, r.m) ==>
                  Agrees(x, a, m)
                  && Words.And(GetRbfAs(bf, x, pos), CheckMask(bf)) == Words.And(val, CheckMask(bf)))
  {
    var num := Sub(val, bf.addend);
    var num' := if bf.pcrel then Sub(num, PosBase(bf, pos)) else num;
    SetPiecesExtends(a, m, bf.s0, bf.s1, Shr(num', bf.shr));
    var r := FillRbf(a, m, bf, val, pos);
    if r.ok && Agrees(x, r.a, r.m) {
      SameRbf(bf, x, r.a, r.m, pos);
    }
  }

  lemma {:induction false} SubLow(x: seq<bool>, x': seq<bool>, y: seq<bool>, b: bool, n: nat)
    requires |x| == |x'| == |y| && n <= |x|
    requires forall i :: 0 <= i < n ==> x[i] == x'[i]
    ensures forall i :: 0 <= i < n ==> SubB(x, y, b)[i] == SubB(x', y, b)[i]
  {
    if n > 0 {
      SubLow(x[1..], x'[1..], y[1..], (!x[0] && (y[0] || b)) || (y[0] && b), n - 1);
    }
  }

  /** Undoing the addend and the position recovers the raw value. */
  lemma Unfill(bf: RBitfield, x: Code, pos: Word)
    requires ValidRbf(bf)
    ensures var num := Sub(GetRbfAs(bf, x, pos), bf.addend);
            (if bf.pcrel then Sub(num, PosBase(bf, pos)) else num) == RawValue(bf, x)
  {
    var res := RawValue(bf, x);
    SubAfterAdd(if bf.pcrel then Add(res, PosBase(bf, pos)) else res, bf.addend, false);
    SubAfterAdd(res, PosBase(bf, pos), false);
  }

  /** What the filler writes for `val` is the field content of any opcode that
      reads as `val` up to the checked bits. */
  lemma FillHolds(bf: RBitfield, x: Code, val: Word, pos: Word)
    requires ValidRbf(bf)
    requires Words.And(GetRbfAs(bf, x, pos), CheckMask(bf)) == Words.And(val, CheckMask(bf))
    ensures var num := Sub(val, bf.addend);
            var num' := if bf.pcrel then Sub(num, PosBase(bf, pos)) else num;
            Holds(x, bf.s0, bf.s1, Shr(num', bf.shr))
  {
    var total := FieldTotal(bf);
    var got := GetRbfAs(bf, x, pos);
    forall i | 0 <= i < total ensures got[i] == val[i] {
      assert CheckMask(bf)[i];
      assert Words.And(got, CheckMask(bf))[i] == Words.And(val, CheckMask(bf))[i];
    }
    SubLow(got, val, bf.addend, false, total);
    var num := Sub(val, bf.addend);
    SubLow(Sub(got, bf.addend), num, PosBase(bf, pos), false, total);
    var num' := if bf.pcrel then Sub(num, PosBase(bf, pos)) else num;
    Unfill(bf, x, pos);
    var raw := Raw(bf.s0, bf.s1, bf.shr, x);
    InterpretLow(bf.mode, total, raw);
    RawSpells(bf.s0, bf.s1, bf.shr, x);
    SpellsHolds(bf.s0, bf.s1, bf.shr, x, raw, num');
  }

  /** Any opcode of the set that reads as `val` (up to the checked bits)
      survives the filling. */
  lemma FillComplete(a: Code, m: Code, bf: RBitfield, val: Word, pos: Word, x: Code)
    requires ValidRbf(bf) && Tidy(a, m) && Agrees(x, a, m)
    requires Words.And(GetRbfAs(bf, x, pos), CheckMask(bf)) == Words.And(val, CheckMask(bf))
    ensures var r := FillRbf(a, m, bf, val, pos); r.ok && Agrees(x, r.a, r.m)
  {
    FillHolds(bf, x, val, pos);
    var num := Sub(val, bf.addend);
    var num' := if bf.pcrel then Sub(num, PosBase(bf, pos)) else num;
    SetPiecesKeeps(x, a, m, bf.s0, bf.s1, Shr(num', bf.shr));
    SetPiecesExtends(a, m, bf.s0, bf.s1, Shr(num', bf.shr));
    var (a', m') := SetPieces(a, m, bf.s0, bf.s1, Shr(num', bf.shr));
    SameRbf(bf, x, a', m', pos);
  }

  /** Filling selects exactly the opcodes whose field reads, at `pos`, as `val`:
      all 64 bits, or the field's own width when `wrapok`. */
  lemma FillExact(a: Code, m: Code, bf: RBitfield, val: Word, pos: Word)
    requires ValidRbf(bf) && Tidy(a, m)
    ensures var r := FillRbf(a, m, bf, val, pos);
            var mask := CheckMask(bf);
            && (r.ok <==> exists x :: Agrees(x, a, m) && Words.And(GetRbfAs(bf, x, pos), mask) == Words.And(val, mask))
            && (r.ok ==> forall x :: Agrees(x, r.a, r.m) <==>
                                     Agrees(x, a, m) && Words.And(GetRbfAs(bf, x, pos), mask) == Words.And(val, mask))
  {
    var r := FillRbf(a, m, bf, val, pos);
    var mask := CheckMask(bf);
    forall x
      ensures r.ok && Agrees(x, r.a, r.m) ==>
              Agrees(x, a, m) && Words.And(GetRbfAs(bf, x, pos), mask) == Words.And(val, mask)
      ensures Agrees(x, a, m) && Words.And(GetRbfAs(bf, x, pos), mask) == Words.And(val, mask) ==>
              r.ok && Agrees(x, r.a, r.m)
    {
      FillSound(a, m, bf, val, pos, x);
      if Agrees(x, a, m) && Words.And(GetRbfAs(bf, x, pos), mask) == Words.And(val, mask) {
        FillComplete(a, m, bf, val, pos, x);
      }
    }
    if r.ok {
      assert Agrees(r.a, r.a, r.m);
    }
  }
}
