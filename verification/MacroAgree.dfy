/** The repository reads a macro word twice: by the table of `envydis/macro.c`
    (`MacroIsa`) and by the tests of `demmt/macro.c` (`MacroDecode`).  Both take it for
    the same instruction. */
module MacroAgree {
  import opened Words
  import opened Fields
  import opened Registers
  import opened Tables
  import opened MacroMachine
  import opened MacroDecode
  import MacroIsa

  /** The low half of the opcode is `c`. */
  ghost predicate LowHalf(x: Code, c: bv32) {
    forall i :: 0 <= i < 32 ==> x[0][i] == MacroIsa.Bit(c, i)
  }

  predicate Is(c: bv32, mask: bv32, val: bv32) { c & mask == val }

  predicate Hit(row: MacroIsa.Line, c: bv32) { Is(c, row.mask, row.val) }

  /** The first row from `k` on that is hit. */
  function Pick(rows: seq<MacroIsa.Line>, c: bv32, k: nat): (i: nat)
    requires k <= |rows|
    ensures k <= i <= |rows| && (i < |rows| ==> Hit(rows[i], c)) && forall j :: k <= j < i ==> !Hit(rows[j], c)
    decreases |rows| - k
  {
    if k == |rows| || Hit(rows[k], c) then k else Pick(rows, c, k + 1)
  }

  lemma PickStep(rows: seq<MacroIsa.Line>, c: bv32, k: nat, mask: bv32, val: bv32)
    requires k < |rows| && rows[k].mask == mask && rows[k].val == val
    ensures Pick(rows, c, k) == if Is(c, mask, val) then k else Pick(rows, c, k + 1)
  {
    hide Is;
  }

  predicate SameAt(c: bv32, d: bv32, k: bv5) { MacroIsa.BitAt(c, k) == MacroIsa.BitAt(d, k) }

  lemma Byte0(c: bv32, d: bv32)
    requires SameAt(c, d, 0) && SameAt(c, d, 1) && SameAt(c, d, 2) && SameAt(c, d, 3)
    requires SameAt(c, d, 4) && SameAt(c, d, 5) && SameAt(c, d, 6) && SameAt(c, d, 7)
    ensures c & 0xff == d & 0xff
  {
  }

  lemma Byte1(c: bv32, d: bv32)
    requires SameAt(c, d, 8) && SameAt(c, d, 9) && SameAt(c, d, 10) && SameAt(c, d, 11)
    requires SameAt(c, d, 12) && SameAt(c, d, 13) && SameAt(c, d, 14) && SameAt(c, d, 15)
    ensures c & 0xff00 == d & 0xff00
  {
  }

  lemma Byte2(c: bv32, d: bv32)
    requires SameAt(c, d, 16) && SameAt(c, d, 17) && SameAt(c, d, 18) && SameAt(c, d, 19)
    requires SameAt(c, d, 20) && SameAt(c, d, 21) && SameAt(c, d, 22) && SameAt(c, d, 23)
    ensures c & 0xff0000 == d & 0xff0000
  {
  }

  lemma Byte3(c: bv32, d: bv32)
    requires SameAt(c, d, 24) && SameAt(c, d, 25) && SameAt(c, d, 26) && SameAt(c, d, 27)
    requires SameAt(c, d, 28) && SameAt(c, d, 29) && SameAt(c, d, 30) && SameAt(c, d, 31)
    ensures c & 0xff000000 == d & 0xff000000
  {
  }

  lemma FourBytes(c: bv32, d: bv32)
    requires c & 0xff == d & 0xff && c & 0xff00 == d & 0xff00
    requires c & 0xff0000 == d & 0xff0000 && c & 0xff000000 == d & 0xff000000
    ensures c == d
  {
  }

  lemma BitsAt(c: bv32, d: bv32, k: bv5)
    requires MacroIsa.On(c) == MacroIsa.On(d)
    ensures MacroIsa.BitAt(c, k) == MacroIsa.BitAt(d, k)
  {
    hide MacroIsa.BitAt;
    SmallIndex(k);
    var i := k as nat;
    assert MacroIsa.On(c)[i] == MacroIsa.Bit(c, i) && MacroIsa.On(d)[i] == MacroIsa.Bit(d, i);
  }

  lemma SmallIndex(k: bv5)
    ensures 0 <= k as nat < 32 && (k as nat) as bv5 == k
  {
  }

  lemma OnOnce(c: bv32, d: bv32)
    ensures MacroIsa.On(c) == MacroIsa.On(d) <==> c == d
  {
    hide MacroIsa.BitAt, MacroIsa.On;
    if MacroIsa.On(c) == MacroIsa.On(d) {
      forall k: bv5 ensures SameAt(c, d, k) {
        BitsAt(c, d, k);
      }
      Byte0(c, d);
      Byte1(c, d);
      Byte2(c, d);
      Byte3(c, d);
      FourBytes(c, d);
    }
  }

  lemma AndLow(x: Code, c: bv32, m: bv32)
    requires LowHalf(x, c)
    ensures Words.And(x[0], MacroIsa.On(m)) == MacroIsa.On(c & m)
  {
    hide MacroIsa.Bit;
    MacroIsa.AndOn(c, m);
    assert Words.And(x[0], MacroIsa.On(m)) == Words.And(MacroIsa.On(c), MacroIsa.On(m));
  }

  lemma OnIs(c: bv32, mask: bv32, val: bv32)
    ensures MacroIsa.On(c & mask) == MacroIsa.On(val) <==> Is(c, mask, val)
  {
    hide MacroIsa.On;
    OnOnce(c & mask, val);
  }

  lemma LowIs(x: Code, c: bv32, mask: bv32, val: bv32)
    requires LowHalf(x, c)
    ensures Words.And(x[0], MacroIsa.On(mask)) == MacroIsa.On(val) <==> Is(c, mask, val)
  {
    hide MacroIsa.On, LowHalf, Words.And, Is;
    AndLow(x, c, mask);
    OnIs(c, mask, val);
  }

  lemma HitFires(row: MacroIsa.Line, x: Code, c: bv32)
    requires LowHalf(x, c)
    ensures Words.And(x[0], MacroIsa.On(row.mask)) == MacroIsa.On(row.val) <==> Hit(row, c)
  {
    hide MacroIsa.On, LowHalf, Words.And, Is;
    LowIs(x, c, row.mask, row.val);
  }

  /** `atomtab_d` takes the row picked, or the catch-all row behind them all. */
  lemma {:induction false} FirstIsPicked(rows: seq<MacroIsa.Line>, last: seq<Atom>, x: Code, c: bv32, vi: VarInfo,
                                         k: nat)
    requires k <= |rows| && ValidTable(MacroIsa.Build(rows[k..], last)) && LowHalf(x, c)
    ensures FirstRow(MacroIsa.Build(rows[k..], last), x, vi) == MacroIsa.Build(rows[Pick(rows, c, k)..], last)
    decreases |rows| - k
  {
    hide LowHalf, Hit, MacroIsa.On;
    var t := MacroIsa.Build(rows[k..], last);
    if k == |rows| {
      assert Words.And(x[0], Zero()) == Zero();
    } else {
      HitFires(rows[k], x, c);
      assert rows[k..][1..] == rows[k + 1..];
      if !Fires(t, x, vi) {
        if IsLast(t) {
          LastFires(t, x, vi);
        }
        FirstIsPicked(rows, last, x, c, vi, k + 1);
      }
    }
  }

  // ---------------------------------------------------------------------
  // The instruction
  // ---------------------------------------------------------------------

  function OpRow(op: AluOp): (row: nat)
    ensures row < 9
  {
    match op
    case AddOp => 0
    case AdcOp => 1
    case SubOp => 2
    case SbbOp => 3
    case XorOp => 4
    case OrOp => 5
    case AndOp => 6
    case AndnOp => 7
    case NandOp => 8
  }

  function SourceRow(src: Source): (row: nat)
    ensures row < 18
  {
    match src
    case RegReg(op, _, _) => OpRow(op)
    case ImmSrc(_) => 12
    case RegSrc(_) => 13
    case AddImm(_, _) => 14
    case ExtrInsrt(_, _, _, _, _) => 15
    case ExtrShlDst(_, _, _, _) => 16
    case ExtrShlSrc(_, _, _, _) => 17
  }

  /** The rows of the table that spell an instruction; 23 is the catch-all. */
  function RowsOf(b: Body): set<nat> {
    match b
    case Compute(src, _, _) => {SourceRow(src)}
    case Nop => {9, 10}
    case Parm(_) => {11}
    case ReadImm(_, _) => {18}
    case ReadAdd(_, _, _) => {19}
    case Branch(cond, _, _, _) => {if cond.Always? then 20 else if cond.IfZero? then 21 else 22}
    case Unknown => {23}
  }

  /** The tests in the order of the rows. */
  function FirstTest(c: bv32): nat {
    if Is(c, 0x3e0007, 0x0) then 0
    else if Is(c, 0x3e0007, 0x20000) then 1
    else if Is(c, 0x3e0007, 0x40000) then 2
    else if Is(c, 0x3e0007, 0x60000) then 3
    else if Is(c, 0x3e0007, 0x100000) then 4
    else if Is(c, 0x3e0007, 0x120000) then 5
    else if Is(c, 0x3e0007, 0x140000) then 6
    else if Is(c, 0x3e0007, 0x160000) then 7
    else if Is(c, 0x3e0007, 0x180000) then 8
    else LaterTest(c)
  }

  function LaterTest(c: bv32): nat {
    if Is(c, 0xffffffff, 0x11) then 9
    else if Is(c, 0xffffffff, 0x91) then 10
    else if Is(c, 0xfffff87f, 0x1) then 11
    else if Is(c, 0x3807, 0x1) then 12
    else if Is(c, 0xffffc007, 0x1) then 13
    else if Is(c, 0x7, 0x1) then 14
    else if Is(c, 0x7, 0x2) then 15
    else if Is(c, 0x7, 0x3) then 16
    else if Is(c, 0x7, 0x4) then 17
    else if Is(c, 0x3877, 0x15) then 18
    else if Is(c, 0x77, 0x15) then 19
    else if Is(c, 0x3817, 0x7) then 20
    else if Is(c, 0x17, 0x7) then 21
    else if Is(c, 0x17, 0x17) then 22
    else 23
  }

  lemma ArithDecode(c: bv32)
    requires IsRegReg(c)
    ensures FirstTest(c) in RowsOf(DecodeBody(c))
  {
    hide Reg1, Reg2, Reg3, DecodeUse, LaterTest;
  }

  /** The six tests of an instruction with a source that is not two registers. */
  lemma LaterSource(c: bv32)
    requires !IsRegReg(c) && c & 7 != 0 && c & 7 <= 4
    ensures SourceRow(DecodeSource(c)) ==
            if Is(c, 0x3807, 1) then 12 else if Is(c, 0xffffc007, 1) then 13 else if Is(c, 7, 1) then 14
            else if Is(c, 7, 2) then 15 else if Is(c, 7, 3) then 16 else 17
  {
    hide Reg1, Reg2, Reg3, Imm, SrcPos, Size, DstPos;
  }

  lemma NotArith(c: bv32)
    requires !IsRegReg(c)
    ensures FirstTest(c) == LaterTest(c)
  {
    hide LaterTest;
  }

  lemma LowDecode(c: bv32)
    requires !IsRegReg(c) && c & 7 != 0 && c & 7 <= 4
    ensures LaterTest(c) in RowsOf(DecodeBody(c))
  {
    hide Is, DecodeSource, Reg1, Reg2, Reg3, Imm, SrcPos, Size, DstPos, DecodeUse;
    LaterSource(c);
    WholeWord(c);
    LowTests(c);
  }

  lemma WholeWord(c: bv32)
    ensures Is(c, 0xffff_ffff, 0x11) <==> c == 0x11
    ensures Is(c, 0xffff_ffff, 0x91) <==> c == 0x91
    ensures Is(c, 0xffff_f87f, 1) <==> c & 0xffff_f87f == 1
  {
  }

  lemma LowTests(c: bv32)
    requires c & 7 != 0 && c & 7 <= 4
    ensures c & 7 == 1 || c & 7 == 2 || c & 7 == 3 || c & 7 == 4
    ensures Is(c, 7, 1) || Is(c, 7, 2) || Is(c, 7, 3) || Is(c, 7, 4)
  {
  }

  lemma HighDecode(c: bv32)
    requires !IsRegReg(c) && (c & 7 == 0 || c & 7 > 4)
    ensures LaterTest(c) in RowsOf(DecodeBody(c))
  {
    hide Is, DecodeSource, Reg1, Reg2, Reg3, Imm, SrcPos, Size, DstPos, DecodeUse;
    HighTests(c);
  }

  lemma HighTests(c: bv32)
    requires c & 7 == 0 || c & 7 > 4
    ensures c != 0x11 && c != 0x91 && !Is(c, 0xffff_ffff, 0x11) && !Is(c, 0xffff_ffff, 0x91) && !Is(c, 0xffff_f87f, 1)
    ensures c & 0xffff_f87f != 1 && c & 7 != 1 && c & 7 != 2 && c & 7 != 3 && c & 7 != 4
    ensures !Is(c, 0x3807, 1) && !Is(c, 0xffff_c007, 1)
    ensures !Is(c, 7, 1) && !Is(c, 7, 2) && !Is(c, 7, 3) && !Is(c, 7, 4)
    ensures Is(c, 0x3877, 0x15) <==> c & 0x3877 == 0x15
    ensures Is(c, 0x77, 0x15) <==> c & 0x77 == 0x15
    ensures Is(c, 0x3817, 7) <==> c & 0x3817 == 7
    ensures Is(c, 0x17, 7) <==> c & 0x17 == 7
    ensures Is(c, 0x17, 0x17) <==> c & 0x17 == 0x17
  {
  }

  lemma LaterDecode(c: bv32)
    requires !IsRegReg(c)
    ensures FirstTest(c) == LaterTest(c) && LaterTest(c) in RowsOf(DecodeBody(c))
  {
    hide FirstTest, LaterTest, DecodeBody;
    NotArith(c);
    if c & 7 != 0 && c & 7 <= 4 {
      LowDecode(c);
    } else {
      HighDecode(c);
    }
  }

  lemma TestsDecode(c: bv32)
    ensures FirstTest(c) in RowsOf(DecodeBody(c))
  {
    hide FirstTest, DecodeBody;
    if IsRegReg(c) {
      ArithDecode(c);
    } else {
      LaterDecode(c);
    }
  }

  lemma ArithAt()
    ensures |MacroIsa.ArithRows()| == 9
    ensures MacroIsa.ArithRows()[0].mask == 0x3e0007 && MacroIsa.ArithRows()[0].val == 0x0
    ensures MacroIsa.ArithRows()[1].mask == 0x3e0007 && MacroIsa.ArithRows()[1].val == 0x20000
    ensures MacroIsa.ArithRows()[2].mask == 0x3e0007 && MacroIsa.ArithRows()[2].val == 0x40000
    ensures MacroIsa.ArithRows()[3].mask == 0x3e0007 && MacroIsa.ArithRows()[3].val == 0x60000
    ensures MacroIsa.ArithRows()[4].mask == 0x3e0007 && MacroIsa.ArithRows()[4].val == 0x100000
    ensures MacroIsa.ArithRows()[5].mask == 0x3e0007 && MacroIsa.ArithRows()[5].val == 0x120000
    ensures MacroIsa.ArithRows()[6].mask == 0x3e0007 && MacroIsa.ArithRows()[6].val == 0x140000
    ensures MacroIsa.ArithRows()[7].mask == 0x3e0007 && MacroIsa.ArithRows()[7].val == 0x160000
    ensures MacroIsa.ArithRows()[8].mask == 0x3e0007 && MacroIsa.ArithRows()[8].val == 0x180000
  {
    hide MacroIsa.Nested, MacroIsa.Dst, MacroIsa.Annul, MacroIsa.Reg1, MacroIsa.Reg2, MacroIsa.Reg3;
    hide MacroIsa.MImm, MacroIsa.BTarg, MacroIsa.SrcPos, MacroIsa.Size, MacroIsa.DstPos;
  }

  lemma MoveAt()
    ensures |MacroIsa.MoveRows()| == 6
    ensures MacroIsa.MoveRows()[0].mask == 0xffffffff && MacroIsa.MoveRows()[0].val == 0x11
    ensures MacroIsa.MoveRows()[1].mask == 0xffffffff && MacroIsa.MoveRows()[1].val == 0x91
    ensures MacroIsa.MoveRows()[2].mask == 0xfffff87f && MacroIsa.MoveRows()[2].val == 0x1
    ensures MacroIsa.MoveRows()[3].mask == 0x3807 && MacroIsa.MoveRows()[3].val == 0x1
    ensures MacroIsa.MoveRows()[4].mask == 0xffffc007 && MacroIsa.MoveRows()[4].val == 0x1
    ensures MacroIsa.MoveRows()[5].mask == 0x7 && MacroIsa.MoveRows()[5].val == 0x1
  {
    hide MacroIsa.Nested, MacroIsa.Dst, MacroIsa.Annul, MacroIsa.Reg1, MacroIsa.Reg2, MacroIsa.Reg3;
    hide MacroIsa.MImm, MacroIsa.BTarg, MacroIsa.SrcPos, MacroIsa.Size, MacroIsa.DstPos;
  }

  lemma FieldAt()
    ensures |MacroIsa.FieldRows()| == 8
    ensures MacroIsa.FieldRows()[0].mask == 0x7 && MacroIsa.FieldRows()[0].val == 0x2
    ensures MacroIsa.FieldRows()[1].mask == 0x7 && MacroIsa.FieldRows()[1].val == 0x3
    ensures MacroIsa.FieldRows()[2].mask == 0x7 && MacroIsa.FieldRows()[2].val == 0x4
    ensures MacroIsa.FieldRows()[3].mask == 0x3877 && MacroIsa.FieldRows()[3].val == 0x15
    ensures MacroIsa.FieldRows()[4].mask == 0x77 && MacroIsa.FieldRows()[4].val == 0x15
    ensures MacroIsa.FieldRows()[5].mask == 0x3817 && MacroIsa.FieldRows()[5].val == 0x7
    ensures MacroIsa.FieldRows()[6].mask == 0x17 && MacroIsa.FieldRows()[6].val == 0x7
    ensures MacroIsa.FieldRows()[7].mask == 0x17 && MacroIsa.FieldRows()[7].val == 0x17
  {
    hide MacroIsa.Nested, MacroIsa.Dst, MacroIsa.Annul, MacroIsa.Reg1, MacroIsa.Reg2, MacroIsa.Reg3;
    hide MacroIsa.MImm, MacroIsa.BTarg, MacroIsa.SrcPos, MacroIsa.Size, MacroIsa.DstPos;
  }

  lemma BodyAt()
    ensures |MacroIsa.BodyRows()| == 23
    ensures MacroIsa.BodyRows()[0].mask == 0x3e0007 && MacroIsa.BodyRows()[0].val == 0x0
    ensures MacroIsa.BodyRows()[1].mask == 0x3e0007 && MacroIsa.BodyRows()[1].val == 0x20000
    ensures MacroIsa.BodyRows()[2].mask == 0x3e0007 && MacroIsa.BodyRows()[2].val == 0x40000
    ensures MacroIsa.BodyRows()[3].mask == 0x3e0007 && MacroIsa.BodyRows()[3].val == 0x60000
    ensures MacroIsa.BodyRows()[4].mask == 0x3e0007 && MacroIsa.BodyRows()[4].val == 0x100000
    ensures MacroIsa.BodyRows()[5].mask == 0x3e0007 && MacroIsa.BodyRows()[5].val == 0x120000
    ensures MacroIsa.BodyRows()[6].mask == 0x3e0007 && MacroIsa.BodyRows()[6].val == 0x140000
    ensures MacroIsa.BodyRows()[7].mask == 0x3e0007 && MacroIsa.BodyRows()[7].val == 0x160000
    ensures MacroIsa.BodyRows()[8].mask == 0x3e0007 && MacroIsa.BodyRows()[8].val == 0x180000
    ensures MacroIsa.BodyRows()[9].mask == 0xffffffff && MacroIsa.BodyRows()[9].val == 0x11
    ensures MacroIsa.BodyRows()[10].mask == 0xffffffff && MacroIsa.BodyRows()[10].val == 0x91
    ensures MacroIsa.BodyRows()[11].mask == 0xfffff87f && MacroIsa.BodyRows()[11].val == 0x1
    ensures MacroIsa.BodyRows()[12].mask == 0x3807 && MacroIsa.BodyRows()[12].val == 0x1
    ensures MacroIsa.BodyRows()[13].mask == 0xffffc007 && MacroIsa.BodyRows()[13].val == 0x1
    ensures MacroIsa.BodyRows()[14].mask == 0x7 && MacroIsa.BodyRows()[14].val == 0x1
    ensures MacroIsa.BodyRows()[15].mask == 0x7 && MacroIsa.BodyRows()[15].val == 0x2
    ensures MacroIsa.BodyRows()[16].mask == 0x7 && MacroIsa.BodyRows()[16].val == 0x3
    ensures MacroIsa.BodyRows()[17].mask == 0x7 && MacroIsa.BodyRows()[17].val == 0x4
    ensures MacroIsa.BodyRows()[18].mask == 0x3877 && MacroIsa.BodyRows()[18].val == 0x15
    ensures MacroIsa.BodyRows()[19].mask == 0x77 && MacroIsa.BodyRows()[19].val == 0x15
    ensures MacroIsa.BodyRows()[20].mask == 0x3817 && MacroIsa.BodyRows()[20].val == 0x7
    ensures MacroIsa.BodyRows()[21].mask == 0x17 && MacroIsa.BodyRows()[21].val == 0x7
    ensures MacroIsa.BodyRows()[22].mask == 0x17 && MacroIsa.BodyRows()[22].val == 0x17
  {
    hide MacroIsa.ArithRows, MacroIsa.MoveRows, MacroIsa.FieldRows;
    ArithAt();
    MoveAt();
    FieldAt();
  }

  lemma LaterRows(c: bv32)
    ensures |MacroIsa.BodyRows()| == 23 && LaterTest(c) == Pick(MacroIsa.BodyRows(), c, 9)
  {
    hide Is, Pick, MacroIsa.BodyRows;
    BodyAt();
    var rows := MacroIsa.BodyRows();
    PickStep(rows, c, 9, 0xffffffff, 0x11);
    PickStep(rows, c, 10, 0xffffffff, 0x91);
    PickStep(rows, c, 11, 0xfffff87f, 0x1);
    PickStep(rows, c, 12, 0x3807, 0x1);
    PickStep(rows, c, 13, 0xffffc007, 0x1);
    PickStep(rows, c, 14, 0x7, 0x1);
    PickStep(rows, c, 15, 0x7, 0x2);
    PickStep(rows, c, 16, 0x7, 0x3);
    PickStep(rows, c, 17, 0x7, 0x4);
    PickStep(rows, c, 18, 0x3877, 0x15);
    PickStep(rows, c, 19, 0x77, 0x15);
    PickStep(rows, c, 20, 0x3817, 0x7);
    PickStep(rows, c, 21, 0x17, 0x7);
    PickStep(rows, c, 22, 0x17, 0x17);
    PickEnd(rows, c);
  }

  lemma BodyTests(c: bv32)
    ensures FirstTest(c) == Pick(MacroIsa.BodyRows(), c, 0)
  {
    hide Is, Pick, LaterTest, MacroIsa.BodyRows;
    BodyAt();
    var rows := MacroIsa.BodyRows();
    LaterRows(c);
    PickStep(rows, c, 0, 0x3e0007, 0x0);
    PickStep(rows, c, 1, 0x3e0007, 0x20000);
    PickStep(rows, c, 2, 0x3e0007, 0x40000);
    PickStep(rows, c, 3, 0x3e0007, 0x60000);
    PickStep(rows, c, 4, 0x3e0007, 0x100000);
    PickStep(rows, c, 5, 0x3e0007, 0x120000);
    PickStep(rows, c, 6, 0x3e0007, 0x140000);
    PickStep(rows, c, 7, 0x3e0007, 0x160000);
    PickStep(rows, c, 8, 0x3e0007, 0x180000);
  }

  lemma PickEnd(rows: seq<MacroIsa.Line>, c: bv32)
    ensures Pick(rows, c, |rows|) == |rows|
  {
  }

  /** The instruction.  The row that `atomtab_d` takes is the one for the form that the
      tests of `macro_sim` find, and the catch-all row exactly where they find none. */
  lemma SameInstruction(x: Code, c: bv32, vi: VarInfo) returns (row: nat)
    requires LowHalf(x, c)
    ensures row in RowsOf(DecodeBody(c)) && row <= |MacroIsa.BodyRows()| && row == Pick(MacroIsa.BodyRows(), c, 0)
    ensures FirstRow(MacroIsa.BodyTable(), x, vi) == MacroIsa.Build(MacroIsa.BodyRows()[row..], MacroIsa.BodyLast())
    ensures row == |MacroIsa.BodyRows()| <==> DecodeBody(c).Unknown?
  {
    hide MacroIsa.Build, MacroIsa.BodyRows, MacroIsa.BodyLast, DecodeBody, LowHalf, FirstTest;
    MacroIsa.PartsValid(vi);
    TestsDecode(c);
    BodyAt();
    BodyTests(c);
    row := Pick(MacroIsa.BodyRows(), c, 0);
    assert MacroIsa.BodyRows()[0..] == MacroIsa.BodyRows();
    FirstIsPicked(MacroIsa.BodyRows(), MacroIsa.BodyLast(), x, c, vi, 0);
  }

  // ---------------------------------------------------------------------
  // What is done with the result, and the flags
  // ---------------------------------------------------------------------

  /** The row of `tabdst`; three ways to use a result have a row of their own where
      register 0 is named. */
  function UseRow(use: Use, r1: nat): (i: nat)
    ensures i < 12
  {
    match use
    case ParmIgn => 0
    case Mov => 1
    case Maddr => if r1 == 0 then 2 else 3
    case ParmSend => 4
    case Send => if r1 == 0 then 5 else 6
    case ParmMaddr => 7
    case ParmSendMaddr => if r1 == 0 then 8 else 9
    case MaddrSend => if r1 == 0 then 10 else 11
  }

  function DstTest(c: bv32): nat {
    if Is(c, 0x70, 0x0) then 0
    else if Is(c, 0x70, 0x10) then 1
    else if Is(c, 0x770, 0x20) then 2
    else if Is(c, 0x70, 0x20) then 3
    else if Is(c, 0x70, 0x30) then 4
    else if Is(c, 0x770, 0x40) then 5
    else if Is(c, 0x70, 0x40) then 6
    else if Is(c, 0x70, 0x50) then 7
    else if Is(c, 0x770, 0x60) then 8
    else if Is(c, 0x70, 0x60) then 9
    else if Is(c, 0x770, 0x70) then 10
    else 11
  }

  lemma Reg1Zero(c: bv32)
    ensures Reg1(c) == 0 <==> c & 0x700 == 0
  {
    var r := (c >> 8) & 7;
    assert r == 0 <==> c & 0x700 == 0;
    SmallNumber(r);
  }

  lemma SmallNumber(r: bv32)
    ensures r as nat == 0 <==> r == 0
  {
    if r as nat == 0 {
      assert (r as nat) as bv32 == r;
    }
  }

  lemma DstDecode(c: bv32)
    ensures DstTest(c) == UseRow(DecodeUse(c), Reg1(c))
  {
    hide Reg1;
    Reg1Zero(c);
    DstWays(c);
  }

  lemma DstWays(c: bv32)
    ensures Is(c, 0x770, 0x20) <==> c & 0x70 == 0x20 && c & 0x700 == 0
    ensures Is(c, 0x770, 0x40) <==> c & 0x70 == 0x40 && c & 0x700 == 0
    ensures Is(c, 0x770, 0x60) <==> c & 0x70 == 0x60 && c & 0x700 == 0
    ensures Is(c, 0x770, 0x70) <==> c & 0x70 == 0x70 && c & 0x700 == 0
  {
  }

  lemma DstAt()
    ensures |MacroIsa.DstRows()| == 12
    ensures MacroIsa.DstRows()[0].mask == 0x70 && MacroIsa.DstRows()[0].val == 0x0
    ensures MacroIsa.DstRows()[1].mask == 0x70 && MacroIsa.DstRows()[1].val == 0x10
    ensures MacroIsa.DstRows()[2].mask == 0x770 && MacroIsa.DstRows()[2].val == 0x20
    ensures MacroIsa.DstRows()[3].mask == 0x70 && MacroIsa.DstRows()[3].val == 0x20
    ensures MacroIsa.DstRows()[4].mask == 0x70 && MacroIsa.DstRows()[4].val == 0x30
    ensures MacroIsa.DstRows()[5].mask == 0x770 && MacroIsa.DstRows()[5].val == 0x40
    ensures MacroIsa.DstRows()[6].mask == 0x70 && MacroIsa.DstRows()[6].val == 0x40
    ensures MacroIsa.DstRows()[7].mask == 0x70 && MacroIsa.DstRows()[7].val == 0x50
    ensures MacroIsa.DstRows()[8].mask == 0x770 && MacroIsa.DstRows()[8].val == 0x60
    ensures MacroIsa.DstRows()[9].mask == 0x70 && MacroIsa.DstRows()[9].val == 0x60
    ensures MacroIsa.DstRows()[10].mask == 0x770 && MacroIsa.DstRows()[10].val == 0x70
    ensures MacroIsa.DstRows()[11].mask == 0x70 && MacroIsa.DstRows()[11].val == 0x70
  {
    hide MacroIsa.Reg1;
  }

  lemma DstTests(c: bv32)
    ensures DstTest(c) == Pick(MacroIsa.DstRows(), c, 0)
  {
    hide Is, Pick, MacroIsa.DstRows;
    DstAt();
    OneOfEight(c);
    var rows := MacroIsa.DstRows();
    PickStep(rows, c, 0, 0x70, 0x0);
    PickStep(rows, c, 1, 0x70, 0x10);
    PickStep(rows, c, 2, 0x770, 0x20);
    PickStep(rows, c, 3, 0x70, 0x20);
    PickStep(rows, c, 4, 0x70, 0x30);
    PickStep(rows, c, 5, 0x770, 0x40);
    PickStep(rows, c, 6, 0x70, 0x40);
    PickStep(rows, c, 7, 0x70, 0x50);
    PickStep(rows, c, 8, 0x770, 0x60);
    PickStep(rows, c, 9, 0x70, 0x60);
    PickStep(rows, c, 10, 0x770, 0x70);
    PickStep(rows, c, 11, 0x70, 0x70);
  }

  lemma OneOfEight(c: bv32)
    ensures Is(c, 0x70, 0) || Is(c, 0x70, 0x10) || Is(c, 0x70, 0x20) || Is(c, 0x70, 0x30)
         || Is(c, 0x70, 0x40) || Is(c, 0x70, 0x50) || Is(c, 0x70, 0x60) || Is(c, 0x70, 0x70)
  {
  }

  lemma FlagTests(c: bv32, flag: bv32, name: string)
    requires flag == 0x80 || flag == 0x20
    ensures Pick(MacroIsa.FlagRows(flag, name), c, 0) == if c & flag != 0 then 1 else 0
  {
    hide Is, Pick;
    var rows := MacroIsa.FlagRows(flag, name);
    PickStep(rows, c, 0, flag, 0);
    PickStep(rows, c, 1, flag, flag);
    FlagWays(c, flag);
  }

  lemma FlagWays(c: bv32, flag: bv32)
    requires flag == 0x80 || flag == 0x20
    ensures Is(c, flag, 0) <==> c & flag == 0
    ensures Is(c, flag, flag) <==> c & flag != 0
  {
  }

  /** The other three tables: the way the result is used, the exit bit and the annul bit. */
  lemma SameUse(x: Code, c: bv32, vi: VarInfo)
    requires LowHalf(x, c)
    ensures |MacroIsa.DstRows()| == 12
    ensures FirstRow(MacroIsa.DstTable(), x, vi) ==
            MacroIsa.Build(MacroIsa.DstRows()[UseRow(DecodeUse(c), Reg1(c))..], [MacroIsa.Oops()])
  {
    hide MacroIsa.Build, MacroIsa.DstRows, MacroIsa.Oops, LowHalf, DecodeUse, Reg1, UseRow, DstTest;
    MacroIsa.PartsValid(vi);
    DstAt();
    DstDecode(c);
    DstTests(c);
    assert MacroIsa.DstRows()[0..] == MacroIsa.DstRows();
    FirstIsPicked(MacroIsa.DstRows(), [MacroIsa.Oops()], x, c, vi, 0);
  }

  lemma SameFlags(x: Code, c: bv32, vi: VarInfo)
    requires LowHalf(x, c)
    ensures FirstRow(MacroIsa.ExitTable(), x, vi) ==
            MacroIsa.Build(MacroIsa.ExitRows()[if Decode(c).exit then 1 else 0..], [MacroIsa.Oops()])
    ensures Decode(c).body.Branch? ==>
              FirstRow(MacroIsa.AnnulTable(), x, vi) ==
              MacroIsa.Build(MacroIsa.AnnulRows()[if Decode(c).body.annul then 1 else 0..], [MacroIsa.Oops()])
  {
    hide MacroIsa.Build, MacroIsa.Oops, LowHalf, DecodeSource, Reg1, Reg2, Imm;
    MacroIsa.PartsValid(vi);
    FlagTests(c, 0x80, "exit");
    FlagTests(c, 0x20, "annul");
    assert MacroIsa.ExitRows()[0..] == MacroIsa.ExitRows() && MacroIsa.AnnulRows()[0..] == MacroIsa.AnnulRows();
    FirstIsPicked(MacroIsa.ExitRows(), [MacroIsa.Oops()], x, c, vi, 0);
    FirstIsPicked(MacroIsa.AnnulRows(), [MacroIsa.Oops()], x, c, vi, 0);
  }
}
