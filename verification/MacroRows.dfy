/** Which rows of the macro table shadow others: an encoding that was built from a row is
    read along that row exactly if no row in front of it fires too, and for the macro set
    that is a list of a few special cases. */
module MacroRows {
  import opened Options
  import opened Words
  import opened Exprs
  import opened Fields
  import opened Registers
  import opened Tables
  import opened AsmSound
  import opened MacroAgree
  import S = MacroShown
  import MacroIsa

  // ---------------------------------------------------------------------
  // Rows of a table by number
  // ---------------------------------------------------------------------

  function Depth(t: Table): nat { if t.Row? then 1 + Depth(t.next) else 0 }

  lemma {:induction false} BuildDepth(rows: seq<MacroIsa.Line>, last: seq<Atom>)
    ensures Depth(MacroIsa.Build(rows, last)) == |rows| + 1
  {
    hide MacroIsa.On, MacroIsa.Seq;
    if rows != [] {
      BuildDepth(rows[1..], last);
    }
  }

  /** Every row is one of the lines, or the catch-all. */
  lemma {:induction false} RowNumber(rows: seq<MacroIsa.Line>, last: seq<Atom>, row: Table) returns (k: nat)
    requires RowOf(row, MacroIsa.Build(rows, last))
    ensures k <= |rows| && row == MacroIsa.Build(rows[k..], last)
  {
    hide MacroIsa.On, MacroIsa.Seq;
    if row == MacroIsa.Build(rows, last) {
      k := 0;
      assert rows[0..] == rows;
    } else {
      var j := RowNumber(rows[1..], last, row);
      k := j + 1;
      assert rows[1..][j..] == rows[k..];
    }
  }

  lemma FiresHits(rows: seq<MacroIsa.Line>, last: seq<Atom>, k: nat, x: Code, c: bv32, vi: VarInfo)
    requires LowHalf(x, c) && k < |rows| && Fires(MacroIsa.Build(rows[k..], last), x, vi)
    ensures Hit(rows[k], c)
  {
    hide LowHalf, Hit, MacroIsa.On, MacroIsa.Seq;
    HitFires(rows[k], x, c);
  }

  /** The row of a number is the one that is taken exactly if it is the first that is hit. */
  lemma TakenIsPicked(rows: seq<MacroIsa.Line>, last: seq<Atom>, k: nat, x: Code, c: bv32, vi: VarInfo)
    requires LowHalf(x, c) && k <= |rows| && ValidTable(MacroIsa.Build(rows, last))
    ensures MacroIsa.Build(rows[k..], last) == FirstRow(MacroIsa.Build(rows, last), x, vi) <==> k == Pick(rows, c, 0)
  {
    hide LowHalf, Pick, MacroIsa.Build, FirstRow, ValidTable;
    assert rows[0..] == rows;
    FirstIsPicked(rows, last, x, c, vi, 0);
    BuildDepth(rows[k..], last);
    BuildDepth(rows[Pick(rows, c, 0)..], last);
  }

  // ---------------------------------------------------------------------
  // The list
  // ---------------------------------------------------------------------

  /** What it takes for a row of the main table not to be shadowed by one in front of it: a
      move of an immediate is no `nop` and no `parm`; a move of a register, an addition of
      an immediate, a read at an offset and a branch on zero do not use register 0, and the
      addition does not add 0. */
  predicate OwnBody(k: nat, c: bv32) {
    if k == 12 then !IsNop(c) && !IsParm(c)
    else if k == 13 || k == 19 || k == 21 then UsesReg2(c)
    else if k == 14 then UsesReg2(c) && HasImm(c)
    else true
  }

  predicate IsNop(c: bv32) { c == 0x11 || c == 0x91 }

  predicate IsParm(c: bv32) { c & 0xfffff87f == 1 }

  predicate UsesReg2(c: bv32) { c & 0x3800 != 0 }

  predicate HasImm(c: bv32) { c & 0xffffc000 != 0 }

  predicate UsesReg1(c: bv32) { c & 0x700 != 0 }

  /** And for a row of `tabdst`: where the register that receives the result may be left out,
      it is named only if it is not register 0. */
  predicate OwnUse(d: nat, c: bv32) { d == 3 || d == 6 || d == 9 || d == 11 ==> UsesReg1(c) }

  lemma OwnArith(c: bv32)
    ensures Is(c, 0x3e0007, 0x0) ==> FirstTest(c) == 0
    ensures Is(c, 0x3e0007, 0x20000) ==> FirstTest(c) == 1
    ensures Is(c, 0x3e0007, 0x40000) ==> FirstTest(c) == 2
    ensures Is(c, 0x3e0007, 0x60000) ==> FirstTest(c) == 3
    ensures Is(c, 0x3e0007, 0x100000) ==> FirstTest(c) == 4
    ensures Is(c, 0x3e0007, 0x120000) ==> FirstTest(c) == 5
    ensures Is(c, 0x3e0007, 0x140000) ==> FirstTest(c) == 6
    ensures Is(c, 0x3e0007, 0x160000) ==> FirstTest(c) == 7
    ensures Is(c, 0x3e0007, 0x180000) ==> FirstTest(c) == 8
  {
    hide LaterTest;
  }

  predicate LowIs1(c: bv32) { c & 7 == 1 }

  predicate LowIs0(c: bv32) { c & 7 == 0 }

  lemma NoArith(c: bv32)
    requires !LowIs0(c)
    ensures FirstTest(c) == LaterTest(c)
  {
    hide LaterTest;
  }

  lemma MoveTests(c: bv32)
    requires LowIs1(c)
    ensures Is(c, 7, 1) && !(Is(c, 0xffffffff, 0x11) && Is(c, 0xffffffff, 0x91))
    ensures Is(c, 0xfffff87f, 1) ==> !Is(c, 0xffffffff, 0x11) && !Is(c, 0xffffffff, 0x91)
    ensures Is(c, 0xffffffff, 0x11) || Is(c, 0xffffffff, 0x91) || Is(c, 0xfffff87f, 1) ==> Is(c, 0x3807, 1)
    ensures Is(c, 0xffffffff, 0x11) || Is(c, 0xffffffff, 0x91) || Is(c, 0xfffff87f, 1) ==> Is(c, 0xffffc007, 1)
  {
  }

  lemma NopMeans(c: bv32)
    ensures Is(c, 0xffffffff, 0x11) || Is(c, 0xffffffff, 0x91) <==> IsNop(c)
    ensures Is(c, 0xfffff87f, 1) <==> IsParm(c)
  {
    WholeWord(c);
  }

  lemma RegMeans(c: bv32)
    requires LowIs1(c)
    ensures Is(c, 0x3807, 1) <==> !UsesReg2(c)
    ensures Is(c, 0xffffc007, 1) <==> !HasImm(c)
  {
  }

  lemma OwnNop(c: bv32)
    requires LowIs1(c)
    ensures Is(c, 0xffffffff, 0x11) ==> LaterTest(c) == 9
    ensures Is(c, 0xffffffff, 0x91) ==> LaterTest(c) == 10
    ensures Is(c, 0xfffff87f, 1) ==> LaterTest(c) == 11
  {
    hide Is, LowIs1;
    MoveTests(c);
  }

  lemma OwnMove(c: bv32)
    requires LowIs1(c)
    ensures Is(c, 0x3807, 1) ==> (LaterTest(c) == 12 <==> OwnBody(12, c))
    ensures Is(c, 0xffffc007, 1) ==> (LaterTest(c) == 13 <==> OwnBody(13, c))
    ensures Is(c, 7, 1) ==> (LaterTest(c) == 14 <==> OwnBody(14, c))
  {
    hide Is, LowIs1, IsNop, IsParm, UsesReg2, HasImm;
    MoveTests(c);
    NopMeans(c);
    RegMeans(c);
  }

  lemma NoMove(c: bv32)
    requires !LowIs1(c)
    ensures !Is(c, 0xffffffff, 0x11) && !Is(c, 0xffffffff, 0x91) && !Is(c, 0xfffff87f, 1)
    ensures !Is(c, 0x3807, 1) && !Is(c, 0xffffc007, 1) && !Is(c, 7, 1)
  {
  }

  lemma FieldTests(c: bv32)
    ensures !(Is(c, 7, 2) && Is(c, 7, 3)) && !(Is(c, 7, 2) && Is(c, 7, 4)) && !(Is(c, 7, 3) && Is(c, 7, 4))
    ensures Is(c, 0x3877, 0x15) || Is(c, 0x77, 0x15) ==> !Is(c, 7, 2) && !Is(c, 7, 3) && !Is(c, 7, 4)
    ensures Is(c, 0x3817, 7) || Is(c, 0x17, 7) || Is(c, 0x17, 0x17) ==> !Is(c, 7, 2) && !Is(c, 7, 3) && !Is(c, 7, 4)
    ensures Is(c, 0x3817, 7) || Is(c, 0x17, 7) || Is(c, 0x17, 0x17) ==> !Is(c, 0x77, 0x15) && !Is(c, 0x3877, 0x15)
    ensures Is(c, 0x17, 0x17) ==> !Is(c, 0x17, 7) && !Is(c, 0x3817, 7)
  {
  }

  lemma FieldMeans(c: bv32)
    ensures Is(c, 0x3877, 0x15) <==> Is(c, 0x77, 0x15) && !UsesReg2(c)
    ensures Is(c, 0x3817, 7) <==> Is(c, 0x17, 7) && !UsesReg2(c)
  {
  }

  lemma OwnField(c: bv32)
    requires !LowIs1(c)
    ensures Is(c, 7, 2) ==> LaterTest(c) == 15
    ensures Is(c, 7, 3) ==> LaterTest(c) == 16
    ensures Is(c, 7, 4) ==> LaterTest(c) == 17
  {
    hide Is, LowIs1;
    NoMove(c);
    FieldTests(c);
  }

  lemma OwnRead(c: bv32)
    requires !LowIs1(c)
    ensures Is(c, 0x3877, 0x15) ==> LaterTest(c) == 18
    ensures Is(c, 0x77, 0x15) ==> (LaterTest(c) == 19 <==> OwnBody(19, c))
  {
    hide Is, LowIs1, UsesReg2;
    NoMove(c);
    FieldTests(c);
    FieldMeans(c);
  }

  lemma OwnBranch(c: bv32)
    requires !LowIs1(c)
    ensures Is(c, 0x3817, 0x7) ==> LaterTest(c) == 20
    ensures Is(c, 0x17, 0x7) ==> (LaterTest(c) == 21 <==> OwnBody(21, c))
    ensures Is(c, 0x17, 0x17) ==> LaterTest(c) == 22
  {
    hide Is, LowIs1, UsesReg2;
    NoMove(c);
    FieldTests(c);
    FieldMeans(c);
  }

  lemma LowBits(c: bv32)
    ensures FirstNine(c) ==> LowIs0(c)
    ensures LowIs0(c) ==> !LowIs1(c)
    ensures Is(c, 0xffffffff, 0x11) || Is(c, 0xffffffff, 0x91) || Is(c, 0xfffff87f, 1) ==> LowIs1(c)
    ensures Is(c, 0x3807, 1) || Is(c, 0xffffc007, 1) || Is(c, 7, 1) ==> LowIs1(c)
    ensures Is(c, 7, 2) || Is(c, 7, 3) || Is(c, 7, 4) ==> !LowIs0(c) && !LowIs1(c)
    ensures Is(c, 0x3877, 0x15) || Is(c, 0x77, 0x15) ==> !LowIs0(c) && !LowIs1(c)
    ensures Is(c, 0x3817, 7) || Is(c, 0x17, 7) || Is(c, 0x17, 0x17) ==> !LowIs0(c) && !LowIs1(c)
  {
  }

  predicate FirstNine(c: bv32) {
    || Is(c, 0x3e0007, 0x0) || Is(c, 0x3e0007, 0x20000) || Is(c, 0x3e0007, 0x40000) || Is(c, 0x3e0007, 0x60000)
    || Is(c, 0x3e0007, 0x100000) || Is(c, 0x3e0007, 0x120000) || Is(c, 0x3e0007, 0x140000)
    || Is(c, 0x3e0007, 0x160000) || Is(c, 0x3e0007, 0x180000)
  }

  /** A row of the main table that is hit is the first one exactly if it is on its own. */
  lemma BodyOwned(k: nat, c: bv32, rows: seq<MacroIsa.Line>)
    requires rows == MacroIsa.BodyRows() && k < |rows| && Hit(rows[k], c)
    ensures k == Pick(rows, c, 0) <==> OwnBody(k, c)
  {
    hide Is, LowIs0, LowIs1, FirstTest, LaterTest, Pick, MacroIsa.BodyRows, OwnBody;
    BodyAt();
    BodyTests(c);
    LowBits(c);
    OwnArith(c);
    if !LowIs0(c) {
      NoArith(c);
      if LowIs1(c) {
        OwnNop(c);
        OwnMove(c);
      } else {
        OwnField(c);
        OwnRead(c);
        OwnBranch(c);
      }
    }
    AlwaysOwn(k, c);
  }

  lemma AlwaysOwn(k: nat, c: bv32)
    ensures k != 12 && k != 13 && k != 14 && k != 19 && k != 21 ==> OwnBody(k, c)
  {
  }

  lemma UseMeans(c: bv32)
    ensures Is(c, 0x770, 0x20) <==> Is(c, 0x70, 0x20) && !UsesReg1(c)
    ensures Is(c, 0x770, 0x40) <==> Is(c, 0x70, 0x40) && !UsesReg1(c)
    ensures Is(c, 0x770, 0x60) <==> Is(c, 0x70, 0x60) && !UsesReg1(c)
    ensures Is(c, 0x770, 0x70) <==> Is(c, 0x70, 0x70) && !UsesReg1(c)
  {
  }

  lemma OneUse(c: bv32, use: bv32, other: bv32)
    requires use != other
    ensures !(Is(c, 0x70, use) && Is(c, 0x70, other))
  {
  }

  /** The eight ways exclude each other. */
  lemma UsesApart(c: bv32)
    ensures forall use: bv32, other: bv32 :: Is(c, 0x70, use) && Is(c, 0x70, other) ==> use == other
  {
    hide Is;
    forall use: bv32, other: bv32 | use != other ensures !(Is(c, 0x70, use) && Is(c, 0x70, other)) {
      OneUse(c, use, other);
    }
  }

  lemma PlainUses(c: bv32)
    ensures Is(c, 0x70, 0x0) ==> DstTest(c) == 0
    ensures Is(c, 0x70, 0x10) ==> DstTest(c) == 1
    ensures Is(c, 0x70, 0x30) ==> DstTest(c) == 4
    ensures Is(c, 0x70, 0x50) ==> DstTest(c) == 7
  {
    hide Is, UsesReg1;
    UseMeans(c);
    UsesApart(c);
  }

  lemma SpecialUses(c: bv32)
    ensures Is(c, 0x770, 0x20) ==> DstTest(c) == 2
    ensures Is(c, 0x770, 0x40) ==> DstTest(c) == 5
    ensures Is(c, 0x770, 0x60) ==> DstTest(c) == 8
    ensures Is(c, 0x770, 0x70) ==> DstTest(c) == 10
  {
    hide Is, UsesReg1;
    UseMeans(c);
    UsesApart(c);
  }

  lemma NamedUses(c: bv32)
    ensures Is(c, 0x70, 0x20) ==> (DstTest(c) == 3 <==> OwnUse(3, c))
    ensures Is(c, 0x70, 0x40) ==> (DstTest(c) == 6 <==> OwnUse(6, c))
    ensures Is(c, 0x70, 0x60) ==> (DstTest(c) == 9 <==> OwnUse(9, c))
    ensures Is(c, 0x70, 0x70) ==> (DstTest(c) == 11 <==> OwnUse(11, c))
  {
    hide Is, UsesReg1;
    UseMeans(c);
    UsesApart(c);
  }

  lemma UseOwned(d: nat, c: bv32, rows: seq<MacroIsa.Line>)
    requires rows == MacroIsa.DstRows() && d < |rows| && Hit(rows[d], c)
    ensures d == Pick(rows, c, 0) <==> OwnUse(d, c)
  {
    hide Is, DstTest, Pick, OwnUse, MacroIsa.DstRows;
    DstAt();
    DstTests(c);
    PlainUses(c);
    SpecialUses(c);
    NamedUses(c);
    AlwaysUsed(d, c);
  }

  lemma AlwaysUsed(d: nat, c: bv32)
    ensures d != 3 && d != 6 && d != 9 && d != 11 ==> OwnUse(d, c)
  {
  }

  // ---------------------------------------------------------------------
  // Paths
  // ---------------------------------------------------------------------

  predicate Tableless(atoms: seq<Atom>) { forall i :: 0 <= i < |atoms| ==> !atoms[i].TabAtom? }

  lemma {:induction false} NothingToTake(atoms: seq<Atom>, path: Path, x: Code, items: seq<Item>, i: nat, j: nat,
                                         vi: VarInfo, pos: Word, labels: map<string, Word>)
    requires Tableless(atoms) && ValidAtoms(MacroIsa.Seq(atoms))
    requires ReadsAs(MacroIsa.Seq(atoms), path, x, items, i, j, vi, pos, labels)
    ensures TakesFirst(MacroIsa.Seq(atoms), path, x, vi)
  {
    hide Says;
    if atoms != [] {
      NothingToTake(atoms[1..], path.next, x, items, path.mid, j, vi, pos, labels);
    }
  }

  /** A catch-all row with a `???` reads as nothing. */
  lemma NeverUnknown(path: Path, x: Code, items: seq<Item>, i: nat, j: nat, vi: VarInfo, pos: Word,
                     labels: map<string, Word>)
    requires ValidAtoms(MacroIsa.Seq([MacroIsa.Oops()]))
    ensures !ReadsAs(MacroIsa.Seq([MacroIsa.Oops()]), path, x, items, i, j, vi, pos, labels)
  {
    assert MacroIsa.Seq([MacroIsa.Oops()]).head == MacroIsa.Oops();
  }

  lemma NeverLast(path: Path, x: Code, items: seq<Item>, i: nat, j: nat, vi: VarInfo, pos: Word,
                  labels: map<string, Word>)
    requires ValidAtoms(MacroIsa.Seq(MacroIsa.BodyLast()))
    ensures !ReadsAs(MacroIsa.Seq(MacroIsa.BodyLast()), path, x, items, i, j, vi, pos, labels)
  {
    hide MacroIsa.Dst, MacroIsa.Reg2;
    var all := MacroIsa.BodyLast();
    assert MacroIsa.Seq(all).head == MacroIsa.Dst() && MacroIsa.Seq(all).tail == MacroIsa.Seq(all[1..]);
    assert MacroIsa.Seq(all[1..]).head == MacroIsa.Oops();
  }

  /** A table without tables: a row that reads as something is a line that is hit. */
  lemma FlatRow(rows: seq<MacroIsa.Line>, row: Table, path: Path, x: Code, c: bv32, items: seq<Item>, i: nat, j: nat,
                vi: VarInfo, pos: Word, labels: map<string, Word>) returns (k: nat)
    requires LowHalf(x, c) && ValidTable(MacroIsa.Build(rows, [MacroIsa.Oops()]))
    requires forall n :: 0 <= n < |rows| ==> Tableless(rows[n].atoms)
    requires RowOf(row, MacroIsa.Build(rows, [MacroIsa.Oops()])) && row.Row? && Fires(row, x, vi)
    requires ValidAtoms(row.atoms)
    requires ReadsAs(row.atoms, path, x, items, i, j, vi, pos, labels)
    ensures k < |rows| && row == MacroIsa.Build(rows[k..], [MacroIsa.Oops()]) && Hit(rows[k], c)
    ensures row == FirstRow(MacroIsa.Build(rows, [MacroIsa.Oops()]), x, vi) <==> k == Pick(rows, c, 0)
    ensures TakesFirst(row.atoms, path, x, vi)
  {
    hide LowHalf, Pick, FirstRow, Says, Hit, ReadsAs, TakesFirst, MacroIsa.Build, MacroIsa.Oops, Tableless, Fires;
    var last := [MacroIsa.Oops()];
    k := RowNumber(rows, last, row);
    if k == |rows| {
      S.LastRow(rows, last);
      NeverUnknown(path, x, items, i, j, vi, pos, labels);
      assert false;
    }
    S.BuiltRow(rows, last, k);
    FiresHits(rows, last, k, x, c, vi);
    TakenIsPicked(rows, last, k, x, c, vi);
    NothingToTake(rows[k].atoms, path, x, items, i, j, vi, pos, labels);
  }

  // ---------------------------------------------------------------------
  // The rows of the main table and their tables
  // ---------------------------------------------------------------------

  /** The row says what is done with a result, by a row of `tabdst`. */
  predicate HasUse(k: nat) { k < 9 || 12 <= k < 18 }

  /** What stands in front of the other atoms of a row. */
  datatype Lead = UseLead | AnnulLead | NoLead

  predicate Led(atoms: seq<Atom>, lead: Lead) {
    match lead
    case UseLead => atoms != [] && atoms[0] == MacroIsa.Dst() && Tableless(atoms[1..])
    case AnnulLead => |atoms| > 1 && !atoms[0].TabAtom? && atoms[1] == MacroIsa.Annul() && Tableless(atoms[1..][1..])
    case NoLead => Tableless(atoms)
  }

  function LeadOf(k: nat): Lead { if HasUse(k) then UseLead else if k >= 20 then AnnulLead else NoLead }

  lemma SourceLed(src: S.M.Source)
    ensures Led(S.SourceAtoms(src), UseLead)
  {
    hide MacroIsa.Dst, S.OpName;
    NoTables();
    assert |S.SourceAtoms(src)| > 0;
  }

  lemma NoTables()
    ensures !MacroIsa.Reg1().TabAtom? && !MacroIsa.Reg2().TabAtom? && !MacroIsa.Reg3().TabAtom?
    ensures !MacroIsa.SrcPos().TabAtom? && !MacroIsa.Size().TabAtom? && !MacroIsa.DstPos().TabAtom?
    ensures !MacroIsa.MImm().TabAtom? && !MacroIsa.BTarg().TabAtom?
  {
  }

  lemma BranchLed(b: S.M.Body)
    requires b.Branch?
    ensures Led(S.BodyAtoms(b), AnnulLead)
  {
    hide MacroIsa.Annul, MacroIsa.Reg1, MacroIsa.Reg2, MacroIsa.MImm, MacroIsa.BTarg, S.SourceAtoms;
    NoTables();
  }

  lemma OtherLed(b: S.M.Body)
    requires b.Parm? || b.ReadImm? || b.ReadAdd?
    ensures Led(S.BodyAtoms(b), NoLead) && Led([NameAtom("nop")], NoLead) && Led([], NoLead)
  {
    hide MacroIsa.Reg1, MacroIsa.Reg2, MacroIsa.MImm;
    NoTables();
  }

  function OpOf(k: nat): (op: S.M.AluOp)
    requires k < 9
    ensures OpRow(op) == k
  {
    match k
    case 0 => S.M.AddOp
    case 1 => S.M.AdcOp
    case 2 => S.M.SubOp
    case 3 => S.M.SbbOp
    case 4 => S.M.XorOp
    case 5 => S.M.OrOp
    case 6 => S.M.AndOp
    case 7 => S.M.AndnOp
    case _ => S.M.NandOp
  }

  lemma ArithLed(k: nat, rows: seq<MacroIsa.Line>)
    requires rows == MacroIsa.ArithRows() && k < 9
    ensures |rows| == 9 && Led(rows[k].atoms, UseLead)
  {
    hide MacroIsa.ArithRows, S.SourceAtoms, Led;
    S.ArithAtoms(OpOf(k), rows);
    SourceLed(S.M.RegReg(OpOf(k), 0, 0));
  }

  lemma MoveLed(k: nat, rows: seq<MacroIsa.Line>)
    requires rows == MacroIsa.MoveRows() && k < 6
    ensures |rows| == 6 && Led(rows[k].atoms, if k < 3 then NoLead else UseLead)
  {
    hide MacroIsa.MoveRows, S.SourceAtoms, S.BodyAtoms, Led;
    S.MoveAtoms(rows);
    OtherLed(S.M.Parm(0));
    SourceLed(S.M.ImmSrc(0));
    SourceLed(S.M.RegSrc(0));
    SourceLed(S.M.AddImm(0, 0));
  }

  lemma FieldLed(k: nat, rows: seq<MacroIsa.Line>)
    requires rows == MacroIsa.FieldRows() && k < 8
    ensures |rows| == 8 && Led(rows[k].atoms, if k < 3 then UseLead else if k < 5 then NoLead else AnnulLead)
  {
    hide MacroIsa.FieldRows, S.SourceAtoms, S.BodyAtoms, Led;
    S.FieldAtoms(rows);
    SourceLed(S.M.ExtrInsrt(0, 0, 0, 0, 0));
    SourceLed(S.M.ExtrShlDst(0, 0, 0, 0));
    SourceLed(S.M.ExtrShlSrc(0, 0, 0, 0));
    OtherLed(S.M.ReadImm(0, 0));
    OtherLed(S.M.ReadAdd(0, 0, 0));
    BranchLed(S.M.Branch(S.M.Always, false, 0, 0));
    BranchLed(S.M.Branch(S.M.IfZero, false, 0, 0));
    BranchLed(S.M.Branch(S.M.IfNonZero, false, 0, 0));
  }

  lemma RowLed(k: nat, rows: seq<MacroIsa.Line>)
    requires |rows| == 23 && rows == MacroIsa.BodyRows() && k < 23
    ensures Led(rows[k].atoms, LeadOf(k))
  {
    hide MacroIsa.BodyRows, MacroIsa.ArithRows, MacroIsa.MoveRows, MacroIsa.FieldRows, Led;
    S.ThreeParts(rows);
    if k < 9 {
      ArithLed(k, rows[..9]);
    } else if k < 15 {
      MoveLed(k - 9, rows[9..15]);
    } else {
      FieldLed(k - 15, rows[15..]);
    }
  }

  lemma FlatTables()
    ensures forall d :: 0 <= d < |MacroIsa.DstRows()| ==> Tableless(MacroIsa.DstRows()[d].atoms)
    ensures forall d :: 0 <= d < |MacroIsa.ExitRows()| ==> Tableless(MacroIsa.ExitRows()[d].atoms)
    ensures forall d :: 0 <= d < |MacroIsa.AnnulRows()| ==> Tableless(MacroIsa.AnnulRows()[d].atoms)
  {
    hide MacroIsa.Reg1;
    NoTables();
  }

  /** A flag is set or not. */
  lemma FlagOwned(flag: bv32, name: string, k: nat, c: bv32)
    requires flag == 0x80 || flag == 0x20
    requires k < |MacroIsa.FlagRows(flag, name)| && Hit(MacroIsa.FlagRows(flag, name)[k], c)
    ensures k == Pick(MacroIsa.FlagRows(flag, name), c, 0)
  {
    hide Is, Pick;
    FlagTests(c, flag, name);
    FlagWays(c, flag);
  }

  /** One table in front of, or behind, atoms that are none. */
  lemma TableTakes(table: Table, tail: seq<Atom>, path: Path, x: Code, items: seq<Item>, i: nat, j: nat, vi: VarInfo,
                   pos: Word, labels: map<string, Word>)
    requires ValidTable(table) && Tableless(tail) && ValidAtoms(MacroIsa.Seq(tail))
    requires ReadsAs(ACons(TabAtom(table), MacroIsa.Seq(tail)), path, x, items, i, j, vi, pos, labels)
    ensures path.PTab? && RowOf(path.row, table) && path.row.Row? && ValidAtoms(path.row.atoms)
    ensures Fires(path.row, x, vi)
    ensures ReadsAs(path.row.atoms, path.inner, x, items, i, path.mid, vi, pos, labels)
    ensures TakesFirst(path.row.atoms, path.inner, x, vi) ==>
              (TakesFirst(ACons(TabAtom(table), MacroIsa.Seq(tail)), path, x, vi) <==>
               path.row == FirstRow(table, x, vi))
  {
    hide Says, FirstRow, RowOf;
    assert ValidAtom(TabAtom(table));
    RowOfValid(path.row, table);
    NothingToTake(tail, path.next, x, items, path.mid, j, vi, pos, labels);
  }

  /** The path in a row with a use: the row of `tabdst` it takes. */
  lemma UseTakes(atoms: seq<Atom>, path: Path, x: Code, c: bv32, items: seq<Item>, i: nat, j: nat, vi: VarInfo,
                 pos: Word, labels: map<string, Word>) returns (d: nat)
    requires LowHalf(x, c) && Led(atoms, UseLead) && ValidAtoms(MacroIsa.Seq(atoms))
    requires ReadsAs(MacroIsa.Seq(atoms), path, x, items, i, j, vi, pos, labels)
    ensures path.PTab? && d < |MacroIsa.DstRows()|
    ensures path.row == MacroIsa.Build(MacroIsa.DstRows()[d..], [MacroIsa.Oops()])
    ensures TakesFirst(MacroIsa.Seq(atoms), path, x, vi) <==> OwnUse(d, c)
  {
    hide LowHalf, ReadsAs, TakesFirst, FirstRow, Fires, ValidTable, OwnUse, Hit, Pick, RowOf, Tableless;
    hide MacroIsa.Build, MacroIsa.DstRows, MacroIsa.Oops;
    var table := MacroIsa.Build(MacroIsa.DstRows(), [MacroIsa.Oops()]);
    assert MacroIsa.Seq(atoms) == ACons(TabAtom(table), MacroIsa.Seq(atoms[1..]));
    MacroIsa.PartsValid(vi);
    FlatTables();
    TableTakes(table, atoms[1..], path, x, items, i, j, vi, pos, labels);
    d := FlatRow(MacroIsa.DstRows(), path.row, path.inner, x, c, items, i, path.mid, vi, pos, labels);
    UseOwned(d, c, MacroIsa.DstRows());
  }

  /** The path in the row of a branch takes its own row of `tabannul`. */
  lemma AnnulTakes(atoms: seq<Atom>, path: Path, x: Code, c: bv32, items: seq<Item>, i: nat, j: nat, vi: VarInfo,
                   pos: Word, labels: map<string, Word>)
    requires LowHalf(x, c) && Led(atoms, AnnulLead) && ValidAtoms(MacroIsa.Seq(atoms))
    requires ReadsAs(MacroIsa.Seq(atoms), path, x, items, i, j, vi, pos, labels)
    ensures TakesFirst(MacroIsa.Seq(atoms), path, x, vi)
  {
    hide LowHalf, FirstRow, Fires, ValidTable, Hit, Pick, RowOf, Tableless, Says;
    hide MacroIsa.Build, MacroIsa.FlagRows, MacroIsa.Oops;
    var table := MacroIsa.Build(MacroIsa.AnnulRows(), [MacroIsa.Oops()]);
    assert MacroIsa.Seq(atoms[1..]) == ACons(TabAtom(table), MacroIsa.Seq(atoms[1..][1..]));
    MacroIsa.PartsValid(vi);
    FlagTakes(0x20, "annul", atoms[1..][1..], path.next, x, c, items, path.mid, j, vi, pos, labels);
  }

  lemma FlagTakes(flag: bv32, name: string, tail: seq<Atom>, path: Path, x: Code, c: bv32, items: seq<Item>, i: nat,
                  j: nat, vi: VarInfo, pos: Word, labels: map<string, Word>)
    requires flag == 0x80 || flag == 0x20
    requires LowHalf(x, c) && Tableless(tail) && ValidAtoms(MacroIsa.Seq(tail))
    requires ValidTable(MacroIsa.Build(MacroIsa.FlagRows(flag, name), [MacroIsa.Oops()]))
    requires var table := MacroIsa.Build(MacroIsa.FlagRows(flag, name), [MacroIsa.Oops()]);
             ReadsAs(ACons(TabAtom(table), MacroIsa.Seq(tail)), path, x, items, i, j, vi, pos, labels)
    ensures var table := MacroIsa.Build(MacroIsa.FlagRows(flag, name), [MacroIsa.Oops()]);
            TakesFirst(ACons(TabAtom(table), MacroIsa.Seq(tail)), path, x, vi)
  {
    hide LowHalf, ReadsAs, TakesFirst, FirstRow, Fires, ValidTable, Hit, Pick, RowOf, MacroIsa.Build, MacroIsa.Oops;
    var rows := MacroIsa.FlagRows(flag, name);
    TableTakes(MacroIsa.Build(rows, [MacroIsa.Oops()]), tail, path, x, items, i, j, vi, pos, labels);
    var k := FlatRow(rows, path.row, path.inner, x, c, items, i, path.mid, vi, pos, labels);
    FlagOwned(flag, name, k, c);
  }

  /** A row of the main table and the path in it. */
  lemma LineTakes(k: nat, atoms: seq<Atom>, path: Path, x: Code, c: bv32, items: seq<Item>, i: nat, j: nat, vi: VarInfo,
                  pos: Word, labels: map<string, Word>) returns (d: nat)
    requires LowHalf(x, c) && Led(atoms, LeadOf(k)) && ValidAtoms(MacroIsa.Seq(atoms))
    requires ReadsAs(MacroIsa.Seq(atoms), path, x, items, i, j, vi, pos, labels)
    ensures HasUse(k) ==>
              && path.PTab? && d < |MacroIsa.DstRows()|
              && path.row == MacroIsa.Build(MacroIsa.DstRows()[d..], [MacroIsa.Oops()])
    ensures TakesFirst(MacroIsa.Seq(atoms), path, x, vi) <==> (HasUse(k) ==> OwnUse(d, c))
  {
    hide LowHalf, ReadsAs, TakesFirst, OwnUse, Led, MacroIsa.Build, MacroIsa.DstRows, MacroIsa.Oops;
    d := 0;
    if HasUse(k) {
      d := UseTakes(atoms, path, x, c, items, i, j, vi, pos, labels);
    } else if k >= 20 {
      AnnulTakes(atoms, path, x, c, items, i, j, vi, pos, labels);
    } else {
      NothingLed(atoms);
      NothingToTake(atoms, path, x, items, i, j, vi, pos, labels);
    }
  }

  lemma NothingLed(atoms: seq<Atom>)
    requires Led(atoms, NoLead)
    ensures Tableless(atoms)
  {
  }

  /** The main table: the row of a path that reads as something, and whether its rows are
      those that the disassembler takes. */
  lemma MainTakes(row: Table, path: Path, x: Code, c: bv32, items: seq<Item>, i: nat, j: nat, vi: VarInfo,
                  pos: Word, labels: map<string, Word>) returns (k: nat, d: nat)
    requires LowHalf(x, c) && RowOf(row, MacroIsa.BodyTable()) && row.Row? && Fires(row, x, vi) && ValidAtoms(row.atoms)
    requires ReadsAs(row.atoms, path, x, items, i, j, vi, pos, labels)
    ensures |MacroIsa.BodyRows()| == 23 && k < 23
    ensures row == MacroIsa.Build(MacroIsa.BodyRows()[k..], MacroIsa.BodyLast())
    ensures HasUse(k) ==>
              && path.PTab? && d < |MacroIsa.DstRows()|
              && path.row == MacroIsa.Build(MacroIsa.DstRows()[d..], [MacroIsa.Oops()])
    ensures row == FirstRow(MacroIsa.BodyTable(), x, vi) && TakesFirst(row.atoms, path, x, vi) <==>
            OwnBody(k, c) && (HasUse(k) ==> OwnUse(d, c))
  {
    hide LowHalf, ReadsAs, TakesFirst, FirstRow, Fires, ValidTable, OwnBody, OwnUse, Hit, Pick, RowOf, Led, HasUse;
    hide MacroIsa.Build, MacroIsa.BodyRows, MacroIsa.BodyLast, MacroIsa.DstRows, MacroIsa.Oops;
    var rows, last := MacroIsa.BodyRows(), MacroIsa.BodyLast();
    S.RowCount(rows);
    k := RowNumber(rows, last, row);
    if k == 23 {
      S.LastRow(rows, last);
      NeverLast(path, x, items, i, j, vi, pos, labels);
      assert false;
    }
    S.BuiltRow(rows, last, k);
    FiresHits(rows, last, k, x, c, vi);
    TakenIsPicked(rows, last, k, x, c, vi);
    BodyOwned(k, c, rows);
    RowLed(k, rows);
    d := LineTakes(k, rows[k].atoms, path, x, c, items, i, j, vi, pos, labels);
  }

  // ---------------------------------------------------------------------
  // The whole table
  // ---------------------------------------------------------------------

  lemma TableHead(table: Table, tail: Atoms, path: Path, x: Code, items: seq<Item>, i: nat, j: nat, vi: VarInfo,
                  pos: Word, labels: map<string, Word>)
    requires ValidTable(table) && ValidAtoms(tail)
    requires ReadsAs(ACons(TabAtom(table), tail), path, x, items, i, j, vi, pos, labels)
    ensures path.PTab? && RowOf(path.row, table) && path.row.Row? && ValidAtoms(path.row.atoms)
    ensures Fires(path.row, x, vi)
    ensures ReadsAs(path.row.atoms, path.inner, x, items, i, path.mid, vi, pos, labels)
    ensures ReadsAs(tail, path.next, x, items, path.mid, j, vi, pos, labels)
    ensures TakesFirst(ACons(TabAtom(table), tail), path, x, vi) <==>
            && path.row == FirstRow(table, x, vi) && TakesFirst(path.row.atoms, path.inner, x, vi)
            && TakesFirst(tail, path.next, x, vi)
  {
    hide Says, FirstRow, RowOf;
    assert ValidAtom(TabAtom(table));
    RowOfValid(path.row, table);
  }

  lemma ExitTakes(row: Table, path: Path, x: Code, c: bv32, items: seq<Item>, i: nat, j: nat, vi: VarInfo,
                  pos: Word, labels: map<string, Word>)
    requires LowHalf(x, c) && RowOf(row, MacroIsa.ExitTable()) && row.Row? && Fires(row, x, vi) && ValidAtoms(row.atoms)
    requires ReadsAs(row.atoms, path, x, items, i, j, vi, pos, labels)
    ensures row == FirstRow(MacroIsa.ExitTable(), x, vi) && TakesFirst(row.atoms, path, x, vi)
  {
    hide LowHalf, ReadsAs, TakesFirst, FirstRow, Fires, ValidTable, Hit, Pick, RowOf, MacroIsa.Build, MacroIsa.Oops;
    FlatTables();
    var k := FlatRow(MacroIsa.ExitRows(), row, path, x, c, items, i, j, vi, pos, labels);
    FlagOwned(0x80, "exit", k, c);
  }

  lemma TailAtoms()
    ensures MacroIsa.Exit() == TabAtom(MacroIsa.ExitTable()) && MacroIsa.Body() == TabAtom(MacroIsa.BodyTable())
    ensures MacroIsa.Seq([OpLenAtom(1), MacroIsa.Exit(), MacroIsa.Body()]) ==
            ACons(OpLenAtom(1), ACons(TabAtom(MacroIsa.ExitTable()), ACons(TabAtom(MacroIsa.BodyTable()), ANil)))
  {
    hide MacroIsa.Build;
    var exit, body := MacroIsa.Exit(), MacroIsa.Body();
    assert [OpLenAtom(1), exit, body][1..] == [exit, body] && [exit, body][1..] == [body] && [body][1..] == [];
    assert MacroIsa.Seq([]) == ANil && MacroIsa.Seq([body]) == ACons(body, ANil);
    assert MacroIsa.Seq([exit, body]) == ACons(exit, ACons(body, ANil));
  }

  /** What is behind the length: the two tables of the root row. */
  lemma TwoTables(path: Path, x: Code, c: bv32, items: seq<Item>, i: nat, j: nat, vi: VarInfo, pos: Word,
                  labels: map<string, Word>, exit: Table, body: Table) returns (k: nat, d: nat)
    requires LowHalf(x, c) && exit == MacroIsa.ExitTable() && body == MacroIsa.BodyTable()
    requires ValidAtoms(ACons(TabAtom(exit), ACons(TabAtom(body), ANil)))
    requires ReadsAs(ACons(TabAtom(exit), ACons(TabAtom(body), ANil)), path, x, items, i, j, vi, pos, labels)
    ensures path.PTab? && path.next.PTab? && IsMacroPath(path.next, k, d)
    ensures TakesFirst(ACons(TabAtom(exit), ACons(TabAtom(body), ANil)), path, x, vi) <==>
            OwnBody(k, c) && (HasUse(k) ==> OwnUse(d, c))
  {
    hide LowHalf, ReadsAs, FirstRow, Fires, ValidTable, OwnBody, OwnUse, Hit, Pick, RowOf, HasUse;
    hide MacroIsa.ExitTable, MacroIsa.BodyTable, MacroIsa.Build, MacroIsa.BodyRows, MacroIsa.BodyLast, MacroIsa.DstRows;
    hide TakesFirst;
    var tail := ACons(TabAtom(body), ANil);
    assert ValidAtoms(tail) && ValidAtoms(ANil);
    TableHead(exit, tail, path, x, items, i, j, vi, pos, labels);
    ExitTakes(path.row, path.inner, x, c, items, i, path.mid, vi, pos, labels);
    TableHead(body, ANil, path.next, x, items, path.mid, j, vi, pos, labels);
    NoneTaken(path.next.next, x, vi);
    k, d := MainTakes(path.next.row, path.next.inner, x, c, items, path.mid, path.next.mid, vi, pos, labels);
  }

  lemma NoneTaken(path: Path, x: Code, vi: VarInfo)
    ensures TakesFirst(ANil, path, x, vi)
  {
  }

  /** The path goes along line `k` of the main table, and along line `d` of `tabdst` if
      that says what is done with a result. */
  predicate IsMacroPath(path: Path, k: nat, d: nat) {
    && path.PTab? && |MacroIsa.BodyRows()| == 23 && k < 23
    && path.row == MacroIsa.Build(MacroIsa.BodyRows()[k..], MacroIsa.BodyLast())
    && (HasUse(k) ==>
          && path.inner.PTab? && d < |MacroIsa.DstRows()|
          && path.inner.row == MacroIsa.Build(MacroIsa.DstRows()[d..], [MacroIsa.Oops()]))
  }

  lemma RootOnly(row: Table, t: Table, atoms: Atoms)
    requires t == Row(Zero(), Zero(), atoms, {}, {}, TNil) && RowOf(row, t)
    ensures row == t
  {
  }

  lemma RootRow(x: Code, vi: VarInfo)
    ensures FirstRow(MacroIsa.Root(), x, vi) == MacroIsa.Root()
    ensures MacroIsa.Root() ==
            Row(Zero(), Zero(), MacroIsa.Seq([OpLenAtom(1), MacroIsa.Exit(), MacroIsa.Body()]), {}, {}, TNil)
  {
    hide MacroIsa.Exit, MacroIsa.Body, MacroIsa.Seq;
    assert Words.And(x[0], Zero()) == Zero();
  }

  lemma LengthTaken(tail: Atoms, path: Path, x: Code, items: seq<Item>, i: nat, j: nat, vi: VarInfo, pos: Word,
                    labels: map<string, Word>)
    requires ValidAtoms(ACons(OpLenAtom(1), tail))
    requires ReadsAs(ACons(OpLenAtom(1), tail), path, x, items, i, j, vi, pos, labels)
    ensures ValidAtoms(tail) && path.PStep? && ReadsAs(tail, path.next, x, items, i, j, vi, pos, labels)
    ensures TakesFirst(ACons(OpLenAtom(1), tail), path, x, vi) <==> TakesFirst(tail, path.next, x, vi)
  {
    hide Says;
  }

  /** A word that reads as a macro instruction along some lines of the tables is read along
      these very lines exactly if they are its own. */
  lemma MacroOwnRows(row: Table, path: Path, x: Code, c: bv32, items: seq<Item>, vi: VarInfo, pos: Word,
                     labels: map<string, Word>) returns (k: nat, d: nat)
    requires LowHalf(x, c) && ReadsTable(MacroIsa.Root(), row, path, x, items, 0, |items|, vi, pos, labels)
    ensures path.PStep? && path.next.PTab? && IsMacroPath(path.next.next, k, d)
    ensures OwnRows(MacroIsa.Root(), row, path, x, vi) <==> OwnBody(k, c) && (HasUse(k) ==> OwnUse(d, c))
  {
    hide LowHalf, ReadsAs, FirstRow, Fires, TakesFirst, OwnBody, OwnUse, HasUse, IsMacroPath;
    hide MacroIsa.Root, MacroIsa.ExitTable, MacroIsa.BodyTable, MacroIsa.Exit, MacroIsa.Body, MacroIsa.Seq;
    RootRow(x, vi);
    RootOnly(row, MacroIsa.Root(), MacroIsa.Seq([OpLenAtom(1), MacroIsa.Exit(), MacroIsa.Body()]));
    RowOfValid(row, MacroIsa.Root());
    TailAtoms();
    var tail := ACons(TabAtom(MacroIsa.ExitTable()), ACons(TabAtom(MacroIsa.BodyTable()), ANil));
    LengthTaken(tail, path, x, items, 0, |items|, vi, pos, labels);
    k, d := TwoTables(path.next, x, c, items, 0, |items|, vi, pos, labels, MacroIsa.ExitTable(), MacroIsa.BodyTable());
  }
}
