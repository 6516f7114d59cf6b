/** The macro instruction set (`envydis/macro.c`) as a table of module Tables, and what
    the assembler and disassembler results say about it. */
module MacroIsa {
  import opened Options
  import opened Words
  import opened Fields
  import opened Relocs
  import opened Registers
  import opened Tables
  import opened AsmSound
  import opened AsmComplete

  predicate Bit(c: bv32, i: nat)
    requires i < 32
  {
    BitAt(c, i as bv5)
  }

  predicate BitAt(c: bv32, k: bv5) { (c >> k) & 1 == 1 }

  /** A word whose low half is given. */
  function On(c: bv32): (w: Word)
    ensures forall i :: 0 <= i < 64 ==> w[i] == (i < 32 && Bit(c, i))
  {
    seq(64, i requires 0 <= i => i < 32 && Bit(c, i))
  }

  /** Atoms and rows as lists. */
  function Seq(atoms: seq<Atom>): Atoms {
    if atoms == [] then ANil else ACons(atoms[0], Seq(atoms[1..]))
  }

  datatype Line = Line(val: bv32, mask: bv32, atoms: seq<Atom>)

  /** The rows in order and then the catch-all row `{ 0, 0, ... }`. */
  function Build(rows: seq<Line>, last: seq<Atom>): Table {
    if rows == [] then Row(Zero(), Zero(), Seq(last), {}, {}, TNil)
    else Row(On(rows[0].val), On(rows[0].mask), Seq(rows[0].atoms), {}, {}, Build(rows[1..], last))
  }

  /** The piece lies in the low half of the first word. */
  predicate LowSbf(f: Sbf) { f.len == 0 || f.pos + f.len <= 32 }

  /** No length and no end mark, plain immediates without a sign or a bias, and nothing
      outside the low half of the first word. */
  predicate TameTable(t: Table) {
    t.Row? ==> (forall i :: 32 <= i < 64 ==> !t.mask[i]) && TameAtoms(t.atoms) && TameTable(t.next)
  }

  predicate TameAtoms(atoms: Atoms) {
    atoms.ACons? ==> TameAtom(atoms.head) && TameAtoms(atoms.tail)
  }

  predicate TameAtom(atom: Atom) {
    match atom
    case TabAtom(t) => TameTable(t)
    case ImmAtom(bf) =>
      bf.mode.Unsigned? && bf.xorend == Zero() && bf.addend == Zero() && LowSbf(bf.s0) && LowSbf(bf.s1)
    case RImmAtom(bf, _) => LowSbf(bf.s0) && LowSbf(bf.s1)
    case RegAtom(reg) => reg.bf.Some? ==> LowSbf(reg.bf.value.s0) && LowSbf(reg.bf.value.s1)
    case OpLenAtom(_) => false
    case EndMarkAtom => false
    case _ => true
  }

  ghost predicate GoodAtom(atom: Atom, vi: VarInfo) {
    ValidAtom(atom) && ClearAtom(atom, vi) && TameAtom(atom)
  }

  ghost predicate GoodAtoms(atoms: seq<Atom>, vi: VarInfo) {
    forall a <- atoms :: GoodAtom(a, vi)
  }

  predicate Masked(val: bv32, mask: bv32) { val & mask == val }

  ghost predicate GoodLine(row: Line, vi: VarInfo) {
    Masked(row.val, row.mask) && GoodAtoms(row.atoms, vi)
  }

  lemma {:induction false} SeqGood(atoms: seq<Atom>, vi: VarInfo)
    requires GoodAtoms(atoms, vi)
    ensures ValidAtoms(Seq(atoms)) && ClearAtoms(Seq(atoms), vi) && TameAtoms(Seq(atoms))
  {
    hide ValidAtom, ClearAtom, TameAtom;
    if atoms != [] {
      assert GoodAtom(atoms[0], vi);
      SeqGood(atoms[1..], vi);
    }
  }

  lemma AndBit(c: bv32, d: bv32, i: nat)
    requires i < 32
    ensures Bit(c & d, i) == (Bit(c, i) && Bit(d, i))
  {
    hide BitAt;
    AndBitAt(c, d, i as bv5);
  }

  lemma AndBitAt(c: bv32, d: bv32, k: bv5)
    ensures BitAt(c & d, k) == (BitAt(c, k) && BitAt(d, k))
  {
  }

  lemma AndOn(c: bv32, d: bv32)
    ensures Words.And(On(c), On(d)) == On(c & d)
  {
    hide Bit;
    forall i | 0 <= i < 32 ensures Bit(c & d, i) == (Bit(c, i) && Bit(d, i)) {
      AndBit(c, d, i);
    }
  }

  lemma MaskedOn(val: bv32, mask: bv32)
    requires Masked(val, mask)
    ensures Words.And(On(val), On(mask)) == On(val)
  {
    hide On;
    AndOn(val, mask);
  }

  lemma {:induction false} BuildGood(rows: seq<Line>, last: seq<Atom>, vi: VarInfo)
    requires GoodAtoms(last, vi) && forall i :: 0 <= i < |rows| ==> GoodLine(rows[i], vi)
    ensures ValidTable(Build(rows, last)) && ClearTable(Build(rows, last), vi) && TameTable(Build(rows, last))
  {
    hide ValidAtom, ClearAtom, TameAtom, On, Masked;
    if rows == [] {
      SeqGood(last, vi);
      assert Words.And(Zero(), Zero()) == Zero();
    } else {
      assert GoodLine(rows[0], vi);
      SeqGood(rows[0].atoms, vi);
      MaskedOn(rows[0].val, rows[0].mask);
      BuildGood(rows[1..], last, vi);
    }
  }

  function Plain(pos: nat, len: nat): Bitfield {
    Bitfield(Sbf(pos, len), Sbf(0, 0), Unsigned, 0, Zero(), Zero())
  }

  function RegAt(pos: nat): Atom {
    RegAtom(RegDesc(Some(Plain(pos, 3)), "r", "", [SReg(Zero(), IsZero, {})], false))
  }

  function Reg1(): Atom { RegAt(8) }
  function Reg2(): Atom { RegAt(11) }
  function Reg3(): Atom { RegAt(14) }
  function SrcPos(): Atom { ImmAtom(Plain(17, 5)) }
  function Size(): Atom { ImmAtom(Plain(22, 5)) }
  function DstPos(): Atom { ImmAtom(Plain(27, 5)) }

  function Field18(pcrel: bool): RBitfield {
    RBitfield(Sbf(14, 18), Sbf(0, 0), Signed, 0, pcrel, Zero(), Zero(), false)
  }

  function MImm(): Atom { RImmAtom(Field18(false), PlainTarget) }
  function BTarg(): Atom { RImmAtom(Field18(true), BranchTarget) }
  function Oops(): Atom { UnkAtom("???") }

  /** A table with one flag. */
  function FlagRows(flag: bv32, name: string): seq<Line> {
    [Line(0, flag, []), Line(flag, flag, [NameAtom(name)])]
  }

  function ExitRows(): seq<Line> { FlagRows(0x80, "exit") }

  function AnnulRows(): seq<Line> { FlagRows(0x20, "annul") }

  function Exit(): Atom { TabAtom(Build(ExitRows(), [Oops()])) }

  function Annul(): Atom { TabAtom(Build(AnnulRows(), [Oops()])) }

  function DstRows(): seq<Line> {
    [ Line(0x00000000, 0x00000070, [NameAtom("parm"), Reg1(), NameAtom("ign")]),
      Line(0x00000010, 0x00000070, [NameAtom("mov"), Reg1()]),
      Line(0x00000020, 0x00000770, [NameAtom("maddr")]),
      Line(0x00000020, 0x00000070, [NameAtom("maddr"), Reg1()]),
      Line(0x00000030, 0x00000070, [NameAtom("parm"), Reg1(), NameAtom("send")]),
      Line(0x00000040, 0x00000770, [NameAtom("send")]),
      Line(0x00000040, 0x00000070, [NameAtom("send"), Reg1()]),
      Line(0x00000050, 0x00000070, [NameAtom("parm"), Reg1(), NameAtom("maddr")]),
      Line(0x00000060, 0x00000770, [NameAtom("parmsend"), NameAtom("maddr")]),
      Line(0x00000060, 0x00000070, [NameAtom("parmsend"), NameAtom("maddr"), Reg1()]),
      Line(0x00000070, 0x00000770, [NameAtom("maddrsend")]),
      Line(0x00000070, 0x00000070, [NameAtom("maddrsend"), Reg1()]) ]
  }

  function Dst(): Atom { TabAtom(Build(DstRows(), [Oops()])) }

  function Nested(name: string, a: Atom, b: Atom): seq<Atom> {
    [Dst(), SeStartAtom, NameAtom(name), a, b, SeEndAtom]
  }

  function ArithRows(): seq<Line> {
    [ Line(0x00000000, 0x003e0007, Nested("add", Reg2(), Reg3())),
      Line(0x00020000, 0x003e0007, Nested("adc", Reg2(), Reg3())),
      Line(0x00040000, 0x003e0007, Nested("sub", Reg2(), Reg3())),
      Line(0x00060000, 0x003e0007, Nested("sbb", Reg2(), Reg3())),
      Line(0x00100000, 0x003e0007, Nested("xor", Reg2(), Reg3())),
      Line(0x00120000, 0x003e0007, Nested("or", Reg2(), Reg3())),
      Line(0x00140000, 0x003e0007, Nested("and", Reg2(), Reg3())),
      Line(0x00160000, 0x003e0007, Nested("andn", Reg2(), Reg3())),
      Line(0x00180000, 0x003e0007, Nested("nand", Reg2(), Reg3())) ]
  }

  function MoveRows(): seq<Line> {
    [ Line(0x00000011, 0xffffffff, [NameAtom("nop")]),
      Line(0x00000091, 0xffffffff, []),
      Line(0x00000001, 0xfffff87f, [NameAtom("parm"), Reg1()]),
      Line(0x00000001, 0x00003807, [Dst(), MImm()]),
      Line(0x00000001, 0xffffc007, [Dst(), Reg2()]),
      Line(0x00000001, 0x00000007, Nested("add", Reg2(), MImm())) ]
  }

  function FieldRows(): seq<Line> {
    [ Line(0x00000002, 0x00000007,
           [Dst(), SeStartAtom, NameAtom("extrinsrt"), Reg2(), Reg3(), SrcPos(), Size(), DstPos(), SeEndAtom]),
      Line(0x00000003, 0x00000007,
           [Dst(), SeStartAtom, NameAtom("extrshl"), Reg3(), Reg2(), Size(), DstPos(), SeEndAtom]),
      Line(0x00000004, 0x00000007,
           [Dst(), SeStartAtom, NameAtom("extrshl"), Reg3(), SrcPos(), Size(), Reg2(), SeEndAtom]),
      Line(0x00000015, 0x00003877, [NameAtom("read"), Reg1(), MImm()]),
      Line(0x00000015, 0x00000077, [NameAtom("read"), Reg1(), SeStartAtom, NameAtom("add"), Reg2(), MImm(), SeEndAtom]),
      Line(0x00000007, 0x00003817, [NameAtom("bra"), Annul(), BTarg()]),
      Line(0x00000007, 0x00000017, [NameAtom("braz"), Annul(), Reg2(), BTarg()]),
      Line(0x00000017, 0x00000017, [NameAtom("branz"), Annul(), Reg2(), BTarg()]) ]
  }

  function BodyRows(): seq<Line> { ArithRows() + MoveRows() + FieldRows() }

  function BodyLast(): seq<Atom> { [Dst(), Oops(), Reg2()] }

  function Body(): Atom { TabAtom(Build(BodyRows(), BodyLast())) }

  function RootTable(): Table { Build([], [OpLenAtom(1), Exit(), Body()]) }

  /** `tabroot` */
  function Root(): (t: Table)
    ensures ValidTable(t)
  {
    RootGood(VarInfo({}, None));
    RootTable()
  }

  // ---------------------------------------------------------------------
  // The table is well formed and unambiguous
  // ---------------------------------------------------------------------

  lemma RegGood(pos: nat, vi: VarInfo)
    requires pos + 3 <= 32
    ensures GoodAtom(RegAt(pos), vi)
  {
    var reg := RegDesc(Some(Plain(pos, 3)), "r", "", [SReg(Zero(), IsZero, {})], false);
    assert SkipSpace("") == "";
    assert StrToUll("") == (Zero(), "");
  }

  lemma PlainGood(pos: nat, vi: VarInfo)
    requires pos + 5 <= 32
    ensures GoodAtom(ImmAtom(Plain(pos, 5)), vi)
  {
  }

  lemma NameGood(name: string, vi: VarInfo)
    ensures GoodAtom(NameAtom(name), vi) && GoodAtom(Oops(), vi)
  {
  }

  lemma TargetGood(pcrel: bool, target: Target, vi: VarInfo)
    ensures GoodAtom(RImmAtom(Field18(pcrel), target), vi)
  {
  }

  /** Every atom that is not a table. */
  lemma SimpleGood(vi: VarInfo)
    ensures GoodAtom(Reg1(), vi) && GoodAtom(Reg2(), vi) && GoodAtom(Reg3(), vi)
    ensures GoodAtom(SrcPos(), vi) && GoodAtom(Size(), vi) && GoodAtom(DstPos(), vi)
    ensures GoodAtom(MImm(), vi) && GoodAtom(BTarg(), vi) && GoodAtom(Oops(), vi)
    ensures GoodAtom(SeStartAtom, vi) && GoodAtom(SeEndAtom, vi)
    ensures forall name :: GoodAtom(NameAtom(name), vi)
  {
    hide ClearNames, Plain, Field18;
    PlainGood(17, vi);
    PlainGood(22, vi);
    PlainGood(27, vi);
    TargetGood(false, PlainTarget, vi);
    TargetGood(true, BranchTarget, vi);
    RegGood(8, vi);
    RegGood(11, vi);
    RegGood(14, vi);
  }

  lemma TableGood(rows: seq<Line>, last: seq<Atom>, vi: VarInfo)
    requires GoodAtoms(last, vi) && forall i :: 0 <= i < |rows| ==> GoodLine(rows[i], vi)
    ensures GoodAtom(TabAtom(Build(rows, last)), vi)
  {
    BuildGood(rows, last, vi);
  }

  lemma FlagGood(flag: bv32, name: string, vi: VarInfo)
    requires Masked(0, flag) && Masked(flag, flag)
    ensures GoodAtom(TabAtom(Build(FlagRows(flag, name), [Oops()])), vi)
  {
    hide GoodAtom, Build, Oops, Masked;
    NameGood(name, vi);
    TableGood(FlagRows(flag, name), [Oops()], vi);
  }

  lemma DstGood(vi: VarInfo)
    ensures GoodAtom(Dst(), vi)
  {
    hide GoodAtom, Build, Reg1, Oops;
    SimpleGood(vi);
    TableGood(DstRows(), [Oops()], vi);
  }

  lemma NestedGood(name: string, a: Atom, b: Atom, vi: VarInfo)
    requires GoodAtom(a, vi) && GoodAtom(b, vi) && GoodAtom(Dst(), vi)
    ensures GoodAtoms(Nested(name, a, b), vi)
  {
    hide GoodAtom, Dst;
    SimpleGood(vi);
  }

  lemma ArithGood(vi: VarInfo)
    requires GoodAtom(Dst(), vi)
    ensures forall i :: 0 <= i < |ArithRows()| ==> GoodLine(ArithRows()[i], vi)
  {
    hide GoodAtom, GoodAtoms, Dst, Reg2, Reg3, Nested;
    SimpleGood(vi);
    forall name: string ensures GoodAtoms(Nested(name, Reg2(), Reg3()), vi) {
      NestedGood(name, Reg2(), Reg3(), vi);
    }
  }

  lemma MoveGood(vi: VarInfo)
    requires GoodAtom(Dst(), vi)
    ensures forall i :: 0 <= i < |MoveRows()| ==> GoodLine(MoveRows()[i], vi)
  {
    hide GoodAtom, Nested, Dst, Reg1, Reg2, MImm;
    SimpleGood(vi);
    NestedGood("add", Reg2(), MImm(), vi);
    forall i | 0 <= i < |MoveRows()| ensures Masked(MoveRows()[i].val, MoveRows()[i].mask) {
      hide GoodAtoms;
      assert i == 0 || i == 1 || i == 2 || i == 3 || i == 4 || i == 5;
    }
    hide Masked;
  }

  lemma FieldGood(vi: VarInfo)
    requires GoodAtom(Dst(), vi) && GoodAtom(Annul(), vi)
    ensures forall i :: 0 <= i < |FieldRows()| ==> GoodLine(FieldRows()[i], vi)
  {
    hide GoodAtom, Dst, Annul, Reg1, Reg2, Reg3, MImm, BTarg, SrcPos, Size, DstPos;
    SimpleGood(vi);
  }

  lemma RootGood(vi: VarInfo)
    ensures ValidTable(RootTable()) && ClearTable(RootTable(), vi)
    ensures RootTable() == Row(Zero(), Zero(), ACons(OpLenAtom(1), Rest()), {}, {}, TNil) && TameAtoms(Rest())
  {
    hide GoodAtom, Rest, RootTable, Build, Dst, Exit, Annul, Body, ArithRows, MoveRows, FieldRows, Oops, Reg2;
    SimpleGood(vi);
    FlagGoods(vi);
    DstGood(vi);
    ArithGood(vi);
    MoveGood(vi);
    FieldGood(vi);
    BodyGood(vi);
    RootBuilt(vi);
  }

  lemma RootBuilt(vi: VarInfo)
    requires GoodAtom(Exit(), vi) && GoodAtom(Body(), vi)
    ensures ValidTable(RootTable()) && ClearTable(RootTable(), vi)
    ensures RootTable() == Row(Zero(), Zero(), ACons(OpLenAtom(1), Rest()), {}, {}, TNil) && TameAtoms(Rest())
  {
    hide Exit, Body, GoodAtom;
    assert [OpLenAtom(1), Exit(), Body()][1..] == [Exit(), Body()];
    SeqGood([Exit(), Body()], vi);
    assert ValidAtom(OpLenAtom(1)) && ClearAtom(OpLenAtom(1), vi);
    assert Words.And(Zero(), Zero()) == Zero();
  }

  /** What follows the length in the one row of the root table. */
  function Rest(): Atoms { Seq([Exit(), Body()]) }

  lemma FlagGoods(vi: VarInfo)
    ensures GoodAtom(Exit(), vi) && GoodAtom(Annul(), vi)
  {
    hide GoodAtom, Build;
    FlagGood(0x80, "exit", vi);
    FlagGood(0x20, "annul", vi);
  }

  lemma BodyGood(vi: VarInfo)
    requires GoodAtom(Dst(), vi) && forall i :: 0 <= i < |ArithRows()| ==> GoodLine(ArithRows()[i], vi)
    requires forall i :: 0 <= i < |MoveRows()| ==> GoodLine(MoveRows()[i], vi)
    requires forall i :: 0 <= i < |FieldRows()| ==> GoodLine(FieldRows()[i], vi)
    ensures GoodAtom(Body(), vi)
  {
    hide GoodAtom, GoodLine, Build, Dst, ArithRows, MoveRows, FieldRows, Oops, Reg2;
    SimpleGood(vi);
    TableGood(BodyRows(), BodyLast(), vi);
  }

  /** The tables inside, for themselves. */
  lemma PartsValid(vi: VarInfo)
    ensures ValidTable(Build(BodyRows(), BodyLast())) && ValidTable(Build(DstRows(), [Oops()]))
    ensures ValidTable(Build(ExitRows(), [Oops()])) && ValidTable(Build(AnnulRows(), [Oops()]))
  {
    hide Build, BodyRows, BodyLast, DstRows, ExitRows, AnnulRows, Oops, ArithRows, MoveRows, FieldRows;
    FlagGoods(vi);
    DstGood(vi);
    ArithGood(vi);
    MoveGood(vi);
    FieldGood(vi);
    BodyGood(vi);
  }

  function BodyTable(): (t: Table)
    ensures ValidTable(t) && t == Build(BodyRows(), BodyLast())
  {
    PartsValid(VarInfo({}, None));
    Build(BodyRows(), BodyLast())
  }

  /** `tabdst` */
  function DstTable(): (t: Table)
    ensures ValidTable(t) && t == Build(DstRows(), [Oops()])
  {
    PartsValid(VarInfo({}, None));
    Build(DstRows(), [Oops()])
  }

  function ExitTable(): (t: Table)
    ensures ValidTable(t) && t == Build(ExitRows(), [Oops()])
  {
    PartsValid(VarInfo({}, None));
    Build(ExitRows(), [Oops()])
  }

  function AnnulTable(): (t: Table)
    ensures ValidTable(t) && t == Build(AnnulRows(), [Oops()])
  {
    PartsValid(VarInfo({}, None));
    Build(AnnulRows(), [Oops()])
  }

  /** On a tame walk nothing sets a length or the end mark, and no plain immediate shows a
      sign. */
  lemma {:induction false} TameWalk(atoms: Atoms, x: Code, vi: VarInfo)
    requires ValidAtoms(atoms) && TameAtoms(atoms)
    ensures DisAtoms(atoms, x, vi).oplen == None && !DisAtoms(atoms, x, vi).endmark && NoSign(atoms, x, vi)
    decreases atoms
  {
    if atoms.ACons? {
      TameStep(atoms.head, x, vi);
      TameWalk(atoms.tail, x, vi);
    }
  }

  lemma {:induction false} TameStep(atom: Atom, x: Code, vi: VarInfo)
    requires ValidAtom(atom) && TameAtom(atom)
    ensures DisAtom(atom, x, vi).oplen == None && !DisAtom(atom, x, vi).endmark && NoSignAtom(atom, x, vi)
    decreases atom
  {
    hide GetBf;
    if atom.TabAtom? {
      FirstTame(atom.tab, x, vi);
      TameWalk(FirstRow(atom.tab, x, vi).atoms, x, vi);
    } else if atom.ImmAtom? {
      PlainTop(atom.bf, x);
    }
  }

  lemma {:induction false} FirstTame(t: Table, x: Code, vi: VarInfo)
    requires ValidTable(t) && TameTable(t)
    ensures TameAtoms(FirstRow(t, x, vi).atoms)
    decreases t
  {
    hide TameAtoms;
    if !Fires(t, x, vi) && !IsLast(t) {
      FirstTame(t.next, x, vi);
    }
  }

  /** A plain field is shorter than a word. */
  lemma PlainTop(bf: Bitfield, x: Code)
    requires ValidBf(bf) && bf.mode.Unsigned? && bf.xorend == Zero() && bf.addend == Zero()
    ensures !GetBf(bf, x)[63]
  {
    var raw := Raw(bf.s0, bf.s1, bf.shr, x);
    RawHigh(bf.s0, bf.s1, bf.shr, x);
    assert Xor(raw, Zero()) == raw;
    AddZero(raw, Zero());
  }

  lemma RootWalk(x: Code, vi: VarInfo)
    ensures DisTab(Root(), x, vi).oplen == Some(1) && !DisTab(Root(), x, vi).endmark
    ensures NoSignTab(Root(), x, vi) && ClearTable(Root(), vi)
  {
    hide RootTable, Rest;
    RootGood(vi);
    assert Fires(RootTable(), x, vi) by {
      assert Words.And(x[0], Zero()) == Zero();
    }
    TameWalk(Rest(), x, vi);
  }

  /** Any word of macro code that disassembles without a `???` assembles back: one of
      the candidates for its tokens is one word long, relocates at its position, and
      fixes only bits that the word has. */
  lemma MacroRoundTrip(x: Code, vi: VarInfo, pos: Word) returns (mt: Match)
    requires Known(DisTab(Root(), x, vi).items)
    ensures mt in DoAs(Root(), SettleAll(DisTab(Root(), x, vi).items, pos), vi)
    ensures GoodMatch(mt) && Satisfies(x, mt, pos, map[]) && mt.oplen == 1
    ensures Resolve(mt, pos, map[]).Fits? && Agrees(x, Resolve(mt, pos, map[]).a, Resolve(mt, pos, map[]).m)
  {
    hide Root, DisTab, Resolve;
    RootWalk(x, vi);
    mt := RoundTrip(Root(), x, vi, pos);
  }

  /** So it does in the form it is printed in, since no field of the macro set shows a
      sign unless it is relocatable. */
  lemma MacroPrintedRoundTrip(x: Code, marked: seq<bool>, vi: VarInfo, pos: Word) returns (mt: Match)
    requires Known(DisTab(Root(), x, vi).items) && |marked| == |DisTab(Root(), x, vi).items|
    ensures mt in DoAs(Root(), Cleaned(DisTab(Root(), x, vi).items, marked, pos), vi)
    ensures GoodMatch(mt) && Satisfies(x, mt, pos, map[]) && mt.oplen == 1
    ensures Resolve(mt, pos, map[]).Fits? && Agrees(x, Resolve(mt, pos, map[]).a, Resolve(mt, pos, map[]).m)
  {
    hide Root, DisTab, Resolve;
    RootWalk(x, vi);
    mt := PrintedRoundTrip(Root(), x, marked, vi, pos);
  }
}
