/** What the disassembler prints for a macro word is the instruction that the simulator
    executes: the table of `envydis/macro.c` and the tests of `demmt/macro.c` put
    together, operands included. */
module MacroShown {
  import opened Options
  import opened Words
  import opened Exprs
  import opened Fields
  import opened Relocs
  import opened Registers
  import opened Tables
  import M = MacroMachine
  import D = MacroDecode
  import opened MacroAgree
  import opened MacroOperands
  import MacroIsa

  // ---------------------------------------------------------------------
  // Instructions as tokens
  // ---------------------------------------------------------------------

  function NameOf(name: string): Item { NameItem(name, false) }

  /** Register 0 is the number 0. */
  function RegItem(r: nat): Item { ExprItem(if r == 0 then Num(Zero()) else Reg("r" + Dec(r))) }

  function NatItem(n: nat): Item { ExprItem(Num(FromNat(n))) }

  /** A signed number as a word. */
  function IntWord(n: int): Word { FromNat(n % Pow2(64)) }

  function IntItem(n: int): Item { ExprItem(Num(IntWord(n))) }

  /** A branch target, relative to the position. */
  function TargetItem(disp: int): Item { ExprItem(Bin(AddOp, Pos, Num(IntWord(disp)))) }

  function OpName(op: M.AluOp): string {
    match op
    case AddOp => "add"
    case AdcOp => "adc"
    case SubOp => "sub"
    case SbbOp => "sbb"
    case XorOp => "xor"
    case OrOp => "or"
    case AndOp => "and"
    case AndnOp => "andn"
    case NandOp => "nand"
  }

  /** Register 0 is not named where it only receives the result. */
  function KeptItems(r1: nat): seq<Item> { if r1 == 0 then [] else [RegItem(r1)] }

  function UseItems(use: M.Use, r1: nat): seq<Item> {
    match use
    case ParmIgn => [NameOf("parm"), RegItem(r1), NameOf("ign")]
    case Mov => [NameOf("mov"), RegItem(r1)]
    case Maddr => [NameOf("maddr")] + KeptItems(r1)
    case ParmSend => [NameOf("parm"), RegItem(r1), NameOf("send")]
    case Send => [NameOf("send")] + KeptItems(r1)
    case ParmMaddr => [NameOf("parm"), RegItem(r1), NameOf("maddr")]
    case ParmSendMaddr => [NameOf("parmsend"), NameOf("maddr")] + KeptItems(r1)
    case MaddrSend => [NameOf("maddrsend")] + KeptItems(r1)
  }

  function SourceItems(src: M.Source): seq<Item> {
    match src
    case RegReg(op, r2, r3) => [SeStart, NameOf(OpName(op)), RegItem(r2), RegItem(r3), SeEnd]
    case ImmSrc(imm) => [IntItem(imm)]
    case RegSrc(r2) => [RegItem(r2)]
    case AddImm(r2, imm) => [SeStart, NameOf("add"), RegItem(r2), IntItem(imm), SeEnd]
    case ExtrInsrt(r2, r3, from, size, to) =>
      [SeStart, NameOf("extrinsrt"), RegItem(r2), RegItem(r3), NatItem(from), NatItem(size), NatItem(to), SeEnd]
    case ExtrShlDst(r2, r3, size, to) =>
      [SeStart, NameOf("extrshl"), RegItem(r3), RegItem(r2), NatItem(size), NatItem(to), SeEnd]
    case ExtrShlSrc(r2, r3, from, size) =>
      [SeStart, NameOf("extrshl"), RegItem(r3), NatItem(from), NatItem(size), RegItem(r2), SeEnd]
  }

  function AnnulItems(annul: bool): seq<Item> { if annul then [NameOf("annul")] else [] }

  function BodyItems(b: M.Body): seq<Item> {
    match b
    case Compute(src, use, r1) => UseItems(use, r1) + SourceItems(src)
    case Nop => [NameOf("nop")]
    case Parm(r1) => [NameOf("parm"), RegItem(r1)]
    case ReadImm(r1, imm) => [NameOf("read"), RegItem(r1), IntItem(imm)]
    case ReadAdd(r1, r2, imm) =>
      [NameOf("read"), RegItem(r1), SeStart, NameOf("add"), RegItem(r2), IntItem(imm), SeEnd]
    case Branch(Always, annul, _, disp) => [NameOf("bra")] + AnnulItems(annul) + [TargetItem(disp)]
    case Branch(IfZero, annul, r2, disp) => [NameOf("braz")] + AnnulItems(annul) + [RegItem(r2), TargetItem(disp)]
    case Branch(IfNonZero, annul, r2, disp) => [NameOf("branz")] + AnnulItems(annul) + [RegItem(r2), TargetItem(disp)]
    case Unknown => []
  }

  /** An instruction that does nothing but exit is `exit` alone. */
  function Shown(i: M.Instr): seq<Item> {
    if !i.exit then BodyItems(i.body)
    else if i.body.Nop? then [NameOf("exit")]
    else [NameOf("exit")] + BodyItems(i.body)
  }

  // ---------------------------------------------------------------------
  // The operands of a decoded instruction
  // ---------------------------------------------------------------------

  predicate SourceOf(src: M.Source, c: bv32) {
    match src
    case RegReg(_, r2, r3) => r2 == D.Reg2(c) && r3 == D.Reg3(c)
    case ImmSrc(imm) => imm == D.Imm(c)
    case RegSrc(r2) => r2 == D.Reg2(c)
    case AddImm(r2, imm) => r2 == D.Reg2(c) && imm == D.Imm(c)
    case ExtrInsrt(r2, r3, from, size, to) =>
      r2 == D.Reg2(c) && r3 == D.Reg3(c) && from == D.SrcPos(c) && size == D.Size(c) && to == D.DstPos(c)
    case ExtrShlDst(r2, r3, size, to) => r2 == D.Reg2(c) && r3 == D.Reg3(c) && size == D.Size(c) && to == D.DstPos(c)
    case ExtrShlSrc(r2, r3, from, size) =>
      r2 == D.Reg2(c) && r3 == D.Reg3(c) && from == D.SrcPos(c) && size == D.Size(c)
  }

  predicate BodyOf(b: M.Body, c: bv32) {
    match b
    case Compute(src, use, r1) => SourceOf(src, c) && use == D.DecodeUse(c) && r1 == D.Reg1(c)
    case Nop => c == 0x11 || c == 0x91
    case Parm(r1) => r1 == D.Reg1(c)
    case ReadImm(r1, imm) => r1 == D.Reg1(c) && imm == D.Imm(c)
    case ReadAdd(r1, r2, imm) => r1 == D.Reg1(c) && r2 == D.Reg2(c) && imm == D.Imm(c)
    case Branch(_, annul, r2, disp) => annul == (c & 0x20 != 0) && r2 == D.Reg2(c) && disp == D.Imm(c)
    case Unknown => true
  }

  lemma SourceDecoded(c: bv32)
    ensures SourceOf(D.DecodeSource(c), c)
  {
    hide D.Reg1, D.Reg2, D.Reg3, D.Imm, D.SrcPos, D.Size, D.DstPos;
  }

  lemma BodyDecoded(c: bv32)
    ensures BodyOf(D.DecodeBody(c), c)
  {
    hide D.DecodeSource, SourceOf, D.IsRegReg, D.Reg1, D.Reg2, D.Reg3, D.Imm, D.DecodeUse;
    SourceDecoded(c);
  }

  // ---------------------------------------------------------------------
  // What an atom shows
  // ---------------------------------------------------------------------

  function AtomItems(atom: Atom, x: Code, vi: VarInfo): seq<Item>
    requires ValidAtom(atom)
  {
    DisAtom(atom, x, vi).items
  }

  predicate AllValid(atoms: seq<Atom>) { forall i :: 0 <= i < |atoms| ==> ValidAtom(atoms[i]) }

  function ItemsOf(atoms: seq<Atom>, x: Code, vi: VarInfo): seq<Item>
    requires AllValid(atoms)
  {
    if atoms == [] then [] else AtomItems(atoms[0], x, vi) + ItemsOf(atoms[1..], x, vi)
  }

  lemma {:induction false} SeqItems(atoms: seq<Atom>, x: Code, vi: VarInfo)
    requires AllValid(atoms)
    ensures ValidAtoms(MacroIsa.Seq(atoms)) && DisAtoms(MacroIsa.Seq(atoms), x, vi).items == ItemsOf(atoms, x, vi)
  {
    hide ValidAtom, DisAtom;
    if atoms != [] {
      SeqItems(atoms[1..], x, vi);
    }
  }

  lemma {:induction false} JoinItems(a: seq<Atom>, b: seq<Atom>, x: Code, vi: VarInfo)
    requires AllValid(a) && AllValid(b)
    ensures AllValid(a + b) && ItemsOf(a + b, x, vi) == ItemsOf(a, x, vi) + ItemsOf(b, x, vi)
  {
    hide ValidAtom, AtomItems;
    if a == [] {
      assert a + b == b;
    } else {
      assert (a + b)[1..] == a[1..] + b;
      JoinItems(a[1..], b, x, vi);
    }
  }

  lemma OneItem(a: Atom, x: Code, vi: VarInfo)
    requires ValidAtom(a)
    ensures AllValid([a]) && ItemsOf([a], x, vi) == AtomItems(a, x, vi)
  {
    hide ValidAtom, AtomItems;
    assert [a][1..] == [];
  }

  /** A value that is known in full. */
  lemma WordIs(w: Word, v: nat)
    requires Val(w) == v
    ensures w == FromNat(v)
  {
    hide Val, FromNat;
    FromValue(w);
  }

  lemma SmallTop(w: Word)
    requires Val(w) < 8
    ensures !w[63]
  {
    hide Val;
    assert w[..63] + [w[63]] == w;
    ValSnoc(w[..63], w[63]);
    BigPower();
  }

  lemma BigPower()
    ensures Pow2(63) >= 8
  {
    GrowingPower(60, 3);
  }

  lemma {:induction false} GrowingPower(n: nat, k: nat)
    ensures Pow2(n + k) >= Pow2(k)
  {
    if n > 0 {
      GrowingPower(n - 1, k);
    }
  }

  function RegAt(pos: nat): RegDesc {
    RegDesc(Some(MacroIsa.Plain(pos, 3)), "r", "", [SReg(Zero(), IsZero, {})], false)
  }

  lemma RegisterName(pos: nat, w: Word, vi: VarInfo)
    ensures PrintNum(RegAt(pos), w, RegAt(pos).specials, vi) == if w == Zero() then Num(Zero()) else Reg("r" + Lld(w))
  {
    hide Lld;
    var reg := RegAt(pos);
    assert reg.specials[1..] == [];
    assert PrintNum(reg, w, [], vi) == Reg("r" + (Lld(w) + ""));
    assert Lld(w) + "" == Lld(w);
  }

  lemma RegisterText(pos: nat, x: Code, vi: VarInfo)
    requires pos + 3 <= 32
    ensures ValidAtom(MacroIsa.RegAt(pos)) && ValidBf(MacroIsa.Plain(pos, 3))
    ensures var w := GetBf(MacroIsa.Plain(pos, 3), x);
            AtomItems(MacroIsa.RegAt(pos), x, vi) == [ExprItem(if w == Zero() then Num(Zero()) else Reg("r" + Lld(w)))]
  {
    hide GetBf, Lld, PrintNum;
    RegisterName(pos, GetBf(MacroIsa.Plain(pos, 3), x), vi);
    assert MacroIsa.RegAt(pos) == RegAtom(RegAt(pos));
  }

  lemma RegisterShown(pos: nat, r: nat, x: Code, vi: VarInfo)
    requires pos + 3 <= 32 && Val(GetBf(MacroIsa.Plain(pos, 3), x)) == r < 8
    ensures ValidAtom(MacroIsa.RegAt(pos)) && AtomItems(MacroIsa.RegAt(pos), x, vi) == [RegItem(r)]
  {
    hide Val, GetBf, Dec, Lld, AtomItems, ValidAtom, FromNat, MacroIsa.Plain, ValidBf;
    RegisterText(pos, x, vi);
    var w := GetBf(MacroIsa.Plain(pos, 3), x);
    WordIs(w, r);
    SmallTop(w);
    NoValue(Zero());
    WordIs(Zero(), 0);
    LldSmall(w);
  }

  lemma LldSmall(w: Word)
    requires !w[63]
    ensures Lld(w) == Dec(Val(w))
  {
  }

  lemma NumberShown(pos: nat, n: nat, x: Code, vi: VarInfo)
    requires pos + 5 <= 32 && Val(GetBf(MacroIsa.Plain(pos, 5), x)) == n
    ensures var a := ImmAtom(MacroIsa.Plain(pos, 5)); ValidAtom(a) && AtomItems(a, x, vi) == [NatItem(n)]
  {
    hide Val, GetBf;
    WordIs(GetBf(MacroIsa.Plain(pos, 5), x), n);
  }

  lemma ImmediateShown(x: Code, c: bv32, vi: VarInfo)
    requires LowHalf(x, c)
    ensures ValidAtom(MacroIsa.MImm()) && AtomItems(MacroIsa.MImm(), x, vi) == [IntItem(D.Imm(c))]
    ensures ValidAtom(MacroIsa.BTarg()) && AtomItems(MacroIsa.BTarg(), x, vi) == [TargetItem(D.Imm(c))]
  {
    hide Val, RawValue, LowHalf, D.Imm, Pow2;
    SameImmediate(x, c, false);
    SameImmediate(x, c, true);
    WordIs(RawValue(MacroIsa.Field18(false), x), D.Imm(c) % Pow2(64));
    WordIs(RawValue(MacroIsa.Field18(true), x), D.Imm(c) % Pow2(64));
    AddZero(RawValue(MacroIsa.Field18(false), x), Zero());
  }

  predicate Says(atom: Atom, items: seq<Item>, x: Code, vi: VarInfo) {
    ValidAtom(atom) && AtomItems(atom, x, vi) == items
  }

  predicate SaysAll(atoms: seq<Atom>, items: seq<Item>, x: Code, vi: VarInfo) {
    AllValid(atoms) && ItemsOf(atoms, x, vi) == items
  }

  lemma RegistersSaid(x: Code, c: bv32, vi: VarInfo)
    requires LowHalf(x, c)
    ensures Says(MacroIsa.Reg1(), [RegItem(D.Reg1(c))], x, vi) && Says(MacroIsa.Reg2(), [RegItem(D.Reg2(c))], x, vi)
    ensures Says(MacroIsa.Reg3(), [RegItem(D.Reg3(c))], x, vi)
  {
    hide Val, GetBf, LowHalf, D.Reg1, D.Reg2, D.Reg3, MacroIsa.Plain, RegItem, ValidAtom, AtomItems;
    SameRegisters(x, c);
    RegisterShown(8, D.Reg1(c), x, vi);
    RegisterShown(11, D.Reg2(c), x, vi);
    RegisterShown(14, D.Reg3(c), x, vi);
  }

  lemma PositionsSaid(x: Code, c: bv32, vi: VarInfo)
    requires LowHalf(x, c)
    ensures Says(MacroIsa.SrcPos(), [NatItem(D.SrcPos(c))], x, vi) && Says(MacroIsa.Size(), [NatItem(D.Size(c))], x, vi)
    ensures Says(MacroIsa.DstPos(), [NatItem(D.DstPos(c))], x, vi)
  {
    hide Val, GetBf, LowHalf, D.SrcPos, D.Size, D.DstPos, MacroIsa.Plain, NatItem, ValidAtom, AtomItems;
    SamePositions(x, c);
    NumberShown(17, D.SrcPos(c), x, vi);
    NumberShown(22, D.Size(c), x, vi);
    NumberShown(27, D.DstPos(c), x, vi);
  }

  lemma NamesSaid(x: Code, vi: VarInfo)
    ensures Says(SeStartAtom, [SeStart], x, vi) && Says(SeEndAtom, [SeEnd], x, vi)
    ensures forall name :: Says(NameAtom(name), [NameOf(name)], x, vi)
  {
  }

  /** All atoms that are no tables. */
  lemma AtomsShown(x: Code, c: bv32, vi: VarInfo)
    requires LowHalf(x, c)
    ensures Says(MacroIsa.Reg1(), [RegItem(D.Reg1(c))], x, vi) && Says(MacroIsa.Reg2(), [RegItem(D.Reg2(c))], x, vi)
    ensures Says(MacroIsa.Reg3(), [RegItem(D.Reg3(c))], x, vi) && Says(MacroIsa.SrcPos(), [NatItem(D.SrcPos(c))], x, vi)
    ensures Says(MacroIsa.Size(), [NatItem(D.Size(c))], x, vi) && Says(MacroIsa.DstPos(), [NatItem(D.DstPos(c))], x, vi)
    ensures Says(MacroIsa.MImm(), [IntItem(D.Imm(c))], x, vi) && Says(MacroIsa.BTarg(), [TargetItem(D.Imm(c))], x, vi)
    ensures Says(SeStartAtom, [SeStart], x, vi) && Says(SeEndAtom, [SeEnd], x, vi)
    ensures forall name :: Says(NameAtom(name), [NameOf(name)], x, vi)
  {
    hide LowHalf, RegItem, NatItem, IntItem, TargetItem, ValidAtom, AtomItems;
    RegistersSaid(x, c, vi);
    PositionsSaid(x, c, vi);
    ImmediateShown(x, c, vi);
    NamesSaid(x, vi);
  }

  lemma NoneSaid(x: Code, vi: VarInfo)
    ensures SaysAll([], [], x, vi)
  {
  }

  lemma OneSaid(a: Atom, s: seq<Item>, x: Code, vi: VarInfo)
    requires Says(a, s, x, vi)
    ensures SaysAll([a], s, x, vi)
  {
    OneItem(a, x, vi);
  }

  lemma JoinSaid(a: seq<Atom>, b: seq<Atom>, s: seq<Item>, t: seq<Item>, x: Code, vi: VarInfo)
    requires SaysAll(a, s, x, vi) && SaysAll(b, t, x, vi)
    ensures SaysAll(a + b, s + t, x, vi)
  {
    JoinItems(a, b, x, vi);
  }

  lemma TwoSaid(a: Atom, b: Atom, s: seq<Item>, t: seq<Item>, x: Code, vi: VarInfo)
    requires Says(a, s, x, vi) && Says(b, t, x, vi)
    ensures SaysAll([a, b], s + t, x, vi)
  {
    hide Says, SaysAll;
    OneSaid(a, s, x, vi);
    OneSaid(b, t, x, vi);
    JoinSaid([a], [b], s, t, x, vi);
    assert [a, b] == [a] + [b];
  }

  lemma ThreeSaid(a: Atom, b: Atom, c: Atom, s: seq<Item>, t: seq<Item>, u: seq<Item>, x: Code, vi: VarInfo)
    requires Says(a, s, x, vi) && Says(b, t, x, vi) && Says(c, u, x, vi)
    ensures SaysAll([a, b, c], s + t + u, x, vi)
  {
    hide Says, SaysAll;
    TwoSaid(a, b, s, t, x, vi);
    OneSaid(c, u, x, vi);
    JoinSaid([a, b], [c], s + t, u, x, vi);
    assert [a, b, c] == [a, b] + [c];
  }

  // ---------------------------------------------------------------------
  // What a table shows
  // ---------------------------------------------------------------------

  lemma BuiltRow(rows: seq<MacroIsa.Line>, last: seq<Atom>, i: nat)
    requires i < |rows|
    ensures MacroIsa.Build(rows[i..], last).Row? && MacroIsa.Build(rows[i..], last).atoms == MacroIsa.Seq(rows[i].atoms)
  {
    hide MacroIsa.On;
  }

  lemma LastRow(rows: seq<MacroIsa.Line>, last: seq<Atom>)
    ensures MacroIsa.Build(rows[|rows|..], last).Row?
    ensures MacroIsa.Build(rows[|rows|..], last).atoms == MacroIsa.Seq(last)
  {
  }

  lemma TableItems(t: Table, x: Code, vi: VarInfo)
    requires ValidTable(t)
    ensures ValidAtom(TabAtom(t)) && AtomItems(TabAtom(t), x, vi) == DisAtoms(FirstRow(t, x, vi).atoms, x, vi).items
  {
    hide FirstRow;
    assert DisAtom(TabAtom(t), x, vi) == DisTab(t, x, vi);
  }

  lemma TableShown(rows: seq<MacroIsa.Line>, last: seq<Atom>, i: nat, items: seq<Item>, x: Code, vi: VarInfo)
    requires i < |rows| && ValidTable(MacroIsa.Build(rows, last))
    requires FirstRow(MacroIsa.Build(rows, last), x, vi) == MacroIsa.Build(rows[i..], last)
    requires SaysAll(rows[i].atoms, items, x, vi)
    ensures Says(TabAtom(MacroIsa.Build(rows, last)), items, x, vi)
  {
    hide DisAtoms, MacroIsa.Build, ValidTable, FirstRow, AtomItems;
    TableItems(MacroIsa.Build(rows, last), x, vi);
    BuiltRow(rows, last, i);
    SeqItems(rows[i].atoms, x, vi);
  }

  /** The rows of `tabdst`. */
  lemma UseRows(use: M.Use, r1: nat, x: Code, vi: VarInfo)
    requires Says(MacroIsa.Reg1(), [RegItem(r1)], x, vi) && forall name :: Says(NameAtom(name), [NameOf(name)], x, vi)
    ensures |MacroIsa.DstRows()| == 12
    ensures SaysAll(MacroIsa.DstRows()[UseRow(use, r1)].atoms, UseItems(use, r1), x, vi)
  {
    hide Says, SaysAll, MacroIsa.Reg1, RegItem, NameOf;
    match use {
      case ParmIgn => ParmRow("ign", r1, x, vi);
      case Mov => KeptRow("mov", r1, x, vi);
      case Maddr => KeptRow("maddr", r1, x, vi);
      case ParmSend => ParmRow("send", r1, x, vi);
      case Send => KeptRow("send", r1, x, vi);
      case ParmMaddr => ParmRow("maddr", r1, x, vi);
      case ParmSendMaddr => SendRow(r1, x, vi);
      case MaddrSend => KeptRow("maddrsend", r1, x, vi);
    }
  }

  lemma KeptRow(name: string, r1: nat, x: Code, vi: VarInfo)
    requires Says(MacroIsa.Reg1(), [RegItem(r1)], x, vi) && Says(NameAtom(name), [NameOf(name)], x, vi)
    ensures SaysAll([NameAtom(name)], [NameOf(name)], x, vi)
    ensures SaysAll([NameAtom(name), MacroIsa.Reg1()], [NameOf(name), RegItem(r1)], x, vi)
    ensures [NameOf(name)] + KeptItems(r1) == if r1 == 0 then [NameOf(name)] else [NameOf(name), RegItem(r1)]
  {
    hide Says, SaysAll, MacroIsa.Reg1, RegItem, NameOf;
    OneSaid(NameAtom(name), [NameOf(name)], x, vi);
    TwoSaid(NameAtom(name), MacroIsa.Reg1(), [NameOf(name)], [RegItem(r1)], x, vi);
    assert [NameOf(name)] + [RegItem(r1)] == [NameOf(name), RegItem(r1)];
  }

  lemma ParmRow(name: string, r1: nat, x: Code, vi: VarInfo)
    requires Says(MacroIsa.Reg1(), [RegItem(r1)], x, vi) && Says(NameAtom(name), [NameOf(name)], x, vi)
    requires Says(NameAtom("parm"), [NameOf("parm")], x, vi)
    ensures SaysAll([NameAtom("parm"), MacroIsa.Reg1(), NameAtom(name)],
                    [NameOf("parm"), RegItem(r1), NameOf(name)], x, vi)
  {
    hide Says, SaysAll, MacroIsa.Reg1, RegItem, NameOf;
    ThreeSaid(NameAtom("parm"), MacroIsa.Reg1(), NameAtom(name),
              [NameOf("parm")], [RegItem(r1)], [NameOf(name)], x, vi);
    assert [NameOf("parm")] + [RegItem(r1)] + [NameOf(name)] == [NameOf("parm"), RegItem(r1), NameOf(name)];
  }

  lemma SendRow(r1: nat, x: Code, vi: VarInfo)
    requires Says(MacroIsa.Reg1(), [RegItem(r1)], x, vi)
    requires Says(NameAtom("parmsend"), [NameOf("parmsend")], x, vi)
    requires Says(NameAtom("maddr"), [NameOf("maddr")], x, vi)
    ensures SaysAll([NameAtom("parmsend"), NameAtom("maddr")], [NameOf("parmsend"), NameOf("maddr")], x, vi)
    ensures SaysAll([NameAtom("parmsend"), NameAtom("maddr"), MacroIsa.Reg1()],
                    [NameOf("parmsend"), NameOf("maddr"), RegItem(r1)], x, vi)
    ensures [NameOf("parmsend"), NameOf("maddr")] + KeptItems(r1) ==
            if r1 == 0 then [NameOf("parmsend"), NameOf("maddr")]
            else [NameOf("parmsend"), NameOf("maddr"), RegItem(r1)]
  {
    hide Says, SaysAll, MacroIsa.Reg1, RegItem, NameOf;
    var p, m := NameAtom("parmsend"), NameAtom("maddr");
    TwoSaid(p, m, [NameOf("parmsend")], [NameOf("maddr")], x, vi);
    ThreeSaid(p, m, MacroIsa.Reg1(), [NameOf("parmsend")], [NameOf("maddr")], [RegItem(r1)], x, vi);
    assert [NameOf("parmsend")] + [NameOf("maddr")] == [NameOf("parmsend"), NameOf("maddr")];
    assert [NameOf("parmsend"), NameOf("maddr")] + [RegItem(r1)] == [NameOf("parmsend"), NameOf("maddr"), RegItem(r1)];
  }

  lemma UseShown(x: Code, c: bv32, vi: VarInfo)
    requires LowHalf(x, c)
    ensures Says(MacroIsa.Dst(), UseItems(D.DecodeUse(c), D.Reg1(c)), x, vi)
  {
    hide LowHalf, Says, SaysAll, MacroIsa.Build, UseItems, D.DecodeUse, D.Reg1, MacroIsa.DstRows;
    AtomsShown(x, c, vi);
    UseRows(D.DecodeUse(c), D.Reg1(c), x, vi);
    SameUse(x, c, vi);
    TableShown(MacroIsa.DstRows(), [MacroIsa.Oops()], UseRow(D.DecodeUse(c), D.Reg1(c)),
               UseItems(D.DecodeUse(c), D.Reg1(c)), x, vi);
  }

  lemma FlagShown(flag: bv32, name: string, on: bool, x: Code, vi: VarInfo)
    requires ValidTable(MacroIsa.Build(MacroIsa.FlagRows(flag, name), [MacroIsa.Oops()]))
    requires FirstRow(MacroIsa.Build(MacroIsa.FlagRows(flag, name), [MacroIsa.Oops()]), x, vi) ==
             MacroIsa.Build(MacroIsa.FlagRows(flag, name)[if on then 1 else 0..], [MacroIsa.Oops()])
    ensures Says(TabAtom(MacroIsa.Build(MacroIsa.FlagRows(flag, name), [MacroIsa.Oops()])),
                 if on then [NameOf(name)] else [], x, vi)
  {
    hide MacroIsa.Build;
    var rows := MacroIsa.FlagRows(flag, name);
    NoneSaid(x, vi);
    OneSaid(NameAtom(name), [NameOf(name)], x, vi);
    TableShown(rows, [MacroIsa.Oops()], if on then 1 else 0, if on then [NameOf(name)] else [], x, vi);
  }

  // ---------------------------------------------------------------------
  // What a row of the main table shows
  // ---------------------------------------------------------------------

  /** All that the rows are made of. */
  ghost predicate Context(x: Code, c: bv32, vi: VarInfo) {
    && Says(MacroIsa.Reg1(), [RegItem(D.Reg1(c))], x, vi) && Says(MacroIsa.Reg2(), [RegItem(D.Reg2(c))], x, vi)
    && Says(MacroIsa.Reg3(), [RegItem(D.Reg3(c))], x, vi) && Says(MacroIsa.SrcPos(), [NatItem(D.SrcPos(c))], x, vi)
    && Says(MacroIsa.Size(), [NatItem(D.Size(c))], x, vi) && Says(MacroIsa.DstPos(), [NatItem(D.DstPos(c))], x, vi)
    && Says(MacroIsa.MImm(), [IntItem(D.Imm(c))], x, vi) && Says(MacroIsa.BTarg(), [TargetItem(D.Imm(c))], x, vi)
    && Says(SeStartAtom, [SeStart], x, vi) && Says(SeEndAtom, [SeEnd], x, vi)
    && (forall name :: Says(NameAtom(name), [NameOf(name)], x, vi))
    && Says(MacroIsa.Dst(), UseItems(D.DecodeUse(c), D.Reg1(c)), x, vi)
  }

  lemma BracketRow(inner: seq<Atom>, items: seq<Item>, x: Code, c: bv32, vi: VarInfo)
    requires Context(x, c, vi) && SaysAll(inner, items, x, vi)
    ensures SaysAll([MacroIsa.Dst(), SeStartAtom] + inner + [SeEndAtom],
                    UseItems(D.DecodeUse(c), D.Reg1(c)) + ([SeStart] + items + [SeEnd]), x, vi)
  {
    hide Says, SaysAll, MacroIsa.Dst, UseItems, RegItem, NatItem, IntItem, TargetItem, NameOf;
    hide D.DecodeUse, D.Reg1, D.Reg2, D.Reg3, D.SrcPos, D.Size, D.DstPos, D.Imm;
    var use := UseItems(D.DecodeUse(c), D.Reg1(c));
    TwoSaid(MacroIsa.Dst(), SeStartAtom, use, [SeStart], x, vi);
    JoinSaid([MacroIsa.Dst(), SeStartAtom], inner, use + [SeStart], items, x, vi);
    OneSaid(SeEndAtom, [SeEnd], x, vi);
    JoinSaid([MacroIsa.Dst(), SeStartAtom] + inner, [SeEndAtom], use + [SeStart] + items, [SeEnd], x, vi);
    assert use + [SeStart] + items + [SeEnd] == use + ([SeStart] + items + [SeEnd]);
  }

  lemma NestedRow(name: string, a: Atom, b: Atom, s: Item, t: Item, x: Code, c: bv32, vi: VarInfo)
    requires Context(x, c, vi) && Says(a, [s], x, vi) && Says(b, [t], x, vi)
    ensures SaysAll(MacroIsa.Nested(name, a, b),
                    UseItems(D.DecodeUse(c), D.Reg1(c)) + [SeStart, NameOf(name), s, t, SeEnd], x, vi)
  {
    hide Says, SaysAll, MacroIsa.Dst, UseItems, RegItem, NatItem, IntItem, TargetItem, NameOf;
    hide D.DecodeUse, D.Reg1, D.Reg2, D.Reg3, D.SrcPos, D.Size, D.DstPos, D.Imm;
    ThreeSaid(NameAtom(name), a, b, [NameOf(name)], [s], [t], x, vi);
    BracketRow([NameAtom(name), a, b], [NameOf(name)] + [s] + [t], x, c, vi);
    assert [SeStart] + ([NameOf(name)] + [s] + [t]) + [SeEnd] == [SeStart, NameOf(name), s, t, SeEnd];
    assert [MacroIsa.Dst(), SeStartAtom] + [NameAtom(name), a, b] + [SeEndAtom] == MacroIsa.Nested(name, a, b);
  }

  /** Four operands in brackets. */
  lemma FieldRow(name: string, a: Atom, b: Atom, d: Atom, e: Atom, s: Item, t: Item, u: Item, v: Item,
                 x: Code, c: bv32, vi: VarInfo)
    requires Context(x, c, vi) && Says(a, [s], x, vi) && Says(b, [t], x, vi) && Says(d, [u], x, vi)
    requires Says(e, [v], x, vi)
    ensures SaysAll([MacroIsa.Dst(), SeStartAtom, NameAtom(name), a, b, d, e, SeEndAtom],
                    UseItems(D.DecodeUse(c), D.Reg1(c)) + [SeStart, NameOf(name), s, t, u, v, SeEnd], x, vi)
  {
    hide Says, SaysAll, MacroIsa.Dst, UseItems, RegItem, NatItem, IntItem, TargetItem, NameOf;
    hide D.DecodeUse, D.Reg1, D.Reg2, D.Reg3, D.SrcPos, D.Size, D.DstPos, D.Imm;
    ThreeSaid(NameAtom(name), a, b, [NameOf(name)], [s], [t], x, vi);
    TwoSaid(d, e, [u], [v], x, vi);
    JoinSaid([NameAtom(name), a, b], [d, e], [NameOf(name)] + [s] + [t], [u] + [v], x, vi);
    BracketRow([NameAtom(name), a, b] + [d, e], [NameOf(name)] + [s] + [t] + ([u] + [v]), x, c, vi);
    assert [SeStart] + ([NameOf(name)] + [s] + [t] + ([u] + [v])) + [SeEnd] ==
           [SeStart, NameOf(name), s, t, u, v, SeEnd];
    assert [MacroIsa.Dst(), SeStartAtom] + ([NameAtom(name), a, b] + [d, e]) + [SeEndAtom] ==
           [MacroIsa.Dst(), SeStartAtom, NameAtom(name), a, b, d, e, SeEndAtom];
  }

  /** Five of them. */
  lemma InsertRow(x: Code, c: bv32, vi: VarInfo)
    requires Context(x, c, vi)
    ensures SaysAll([MacroIsa.Dst(), SeStartAtom, NameAtom("extrinsrt"), MacroIsa.Reg2(), MacroIsa.Reg3(),
                     MacroIsa.SrcPos(), MacroIsa.Size(), MacroIsa.DstPos(), SeEndAtom],
                    UseItems(D.DecodeUse(c), D.Reg1(c)) +
                    SourceItems(M.ExtrInsrt(D.Reg2(c), D.Reg3(c), D.SrcPos(c), D.Size(c), D.DstPos(c))), x, vi)
  {
    hide Says, SaysAll, MacroIsa.Dst, UseItems, RegItem, NatItem, IntItem, TargetItem, NameOf;
    hide D.DecodeUse, D.Reg1, D.Reg2, D.Reg3, D.SrcPos, D.Size, D.DstPos, D.Imm;
    hide MacroIsa.Reg1, MacroIsa.Reg2, MacroIsa.Reg3, MacroIsa.SrcPos, MacroIsa.Size, MacroIsa.DstPos;
    var n, a, b := NameAtom("extrinsrt"), MacroIsa.Reg2(), MacroIsa.Reg3();
    var d, e, f := MacroIsa.SrcPos(), MacroIsa.Size(), MacroIsa.DstPos();
    var m, s, t := NameOf("extrinsrt"), RegItem(D.Reg2(c)), RegItem(D.Reg3(c));
    var u, v, w := NatItem(D.SrcPos(c)), NatItem(D.Size(c)), NatItem(D.DstPos(c));
    ThreeSaid(n, a, b, [m], [s], [t], x, vi);
    ThreeSaid(d, e, f, [u], [v], [w], x, vi);
    JoinSaid([n, a, b], [d, e, f], [m] + [s] + [t], [u] + [v] + [w], x, vi);
    BracketRow([n, a, b] + [d, e, f], [m] + [s] + [t] + ([u] + [v] + [w]), x, c, vi);
    assert [SeStart] + ([m] + [s] + [t] + ([u] + [v] + [w])) + [SeEnd] == [SeStart, m, s, t, u, v, w, SeEnd];
    assert [MacroIsa.Dst(), SeStartAtom] + ([n, a, b] + [d, e, f]) + [SeEndAtom] ==
           [MacroIsa.Dst(), SeStartAtom, n, a, b, d, e, f, SeEndAtom];
  }

  /** The atoms of the row for a source. */
  function SourceAtoms(src: M.Source): seq<Atom> {
    match src
    case RegReg(op, _, _) => MacroIsa.Nested(OpName(op), MacroIsa.Reg2(), MacroIsa.Reg3())
    case ImmSrc(_) => [MacroIsa.Dst(), MacroIsa.MImm()]
    case RegSrc(_) => [MacroIsa.Dst(), MacroIsa.Reg2()]
    case AddImm(_, _) => MacroIsa.Nested("add", MacroIsa.Reg2(), MacroIsa.MImm())
    case ExtrInsrt(_, _, _, _, _) =>
      [MacroIsa.Dst(), SeStartAtom, NameAtom("extrinsrt"), MacroIsa.Reg2(), MacroIsa.Reg3(),
       MacroIsa.SrcPos(), MacroIsa.Size(), MacroIsa.DstPos(), SeEndAtom]
    case ExtrShlDst(_, _, _, _) =>
      [MacroIsa.Dst(), SeStartAtom, NameAtom("extrshl"), MacroIsa.Reg3(), MacroIsa.Reg2(),
       MacroIsa.Size(), MacroIsa.DstPos(), SeEndAtom]
    case ExtrShlSrc(_, _, _, _) =>
      [MacroIsa.Dst(), SeStartAtom, NameAtom("extrshl"), MacroIsa.Reg3(), MacroIsa.SrcPos(),
       MacroIsa.Size(), MacroIsa.Reg2(), SeEndAtom]
  }

  /** The atoms of the row for an instruction; `nop` is left out. */
  function BodyAtoms(b: M.Body): seq<Atom> {
    match b
    case Compute(src, _, _) => SourceAtoms(src)
    case Parm(_) => [NameAtom("parm"), MacroIsa.Reg1()]
    case ReadImm(_, _) => [NameAtom("read"), MacroIsa.Reg1(), MacroIsa.MImm()]
    case ReadAdd(_, _, _) =>
      [NameAtom("read"), MacroIsa.Reg1(), SeStartAtom, NameAtom("add"), MacroIsa.Reg2(), MacroIsa.MImm(), SeEndAtom]
    case Branch(Always, _, _, _) => [NameAtom("bra"), MacroIsa.Annul(), MacroIsa.BTarg()]
    case Branch(IfZero, _, _, _) => [NameAtom("braz"), MacroIsa.Annul(), MacroIsa.Reg2(), MacroIsa.BTarg()]
    case Branch(IfNonZero, _, _, _) => [NameAtom("branz"), MacroIsa.Annul(), MacroIsa.Reg2(), MacroIsa.BTarg()]
    case _ => []
  }

  lemma ArithAtoms(op: M.AluOp, rows: seq<MacroIsa.Line>)
    requires rows == MacroIsa.ArithRows()
    ensures |rows| == 9 && rows[OpRow(op)].atoms == SourceAtoms(M.RegReg(op, 0, 0))
  {
    hide MacroIsa.Nested, MacroIsa.Reg2, MacroIsa.Reg3;
  }

  lemma MoveAtoms(rows: seq<MacroIsa.Line>)
    requires rows == MacroIsa.MoveRows()
    ensures |rows| == 6 && rows[0].atoms == [NameAtom("nop")] && rows[1].atoms == []
    ensures rows[2].atoms == BodyAtoms(M.Parm(0)) && rows[3].atoms == SourceAtoms(M.ImmSrc(0))
    ensures rows[4].atoms == SourceAtoms(M.RegSrc(0)) && rows[5].atoms == SourceAtoms(M.AddImm(0, 0))
  {
    hide MacroIsa.Dst, MacroIsa.Reg1, MacroIsa.Reg2, MacroIsa.MImm, MacroIsa.Nested;
  }

  lemma FieldAtoms(rows: seq<MacroIsa.Line>)
    requires rows == MacroIsa.FieldRows()
    ensures |rows| == 8 && rows[0].atoms == SourceAtoms(M.ExtrInsrt(0, 0, 0, 0, 0))
    ensures rows[1].atoms == SourceAtoms(M.ExtrShlDst(0, 0, 0, 0))
    ensures rows[2].atoms == SourceAtoms(M.ExtrShlSrc(0, 0, 0, 0))
    ensures rows[3].atoms == BodyAtoms(M.ReadImm(0, 0)) && rows[4].atoms == BodyAtoms(M.ReadAdd(0, 0, 0))
    ensures rows[5].atoms == BodyAtoms(M.Branch(M.Always, false, 0, 0))
    ensures rows[6].atoms == BodyAtoms(M.Branch(M.IfZero, false, 0, 0))
    ensures rows[7].atoms == BodyAtoms(M.Branch(M.IfNonZero, false, 0, 0))
  {
    hide MacroIsa.Dst, MacroIsa.Annul, MacroIsa.Reg1, MacroIsa.Reg2, MacroIsa.Reg3, MacroIsa.MImm, MacroIsa.BTarg;
    hide MacroIsa.SrcPos, MacroIsa.Size, MacroIsa.DstPos;
  }

  lemma ThreeParts(rows: seq<MacroIsa.Line>)
    requires rows == MacroIsa.BodyRows()
    ensures |MacroIsa.ArithRows()| == 9 && |MacroIsa.MoveRows()| == 6 && |MacroIsa.FieldRows()| == 8 && |rows| == 23
    ensures rows[..9] == MacroIsa.ArithRows() && rows[9..15] == MacroIsa.MoveRows()
    ensures rows[15..] == MacroIsa.FieldRows()
  {
    hide MacroIsa.ArithRows, MacroIsa.MoveRows, MacroIsa.FieldRows;
    ArithAt();
    MoveAt();
    FieldAt();
  }

  lemma SourceRowAtoms(src: M.Source, rows: seq<MacroIsa.Line>)
    requires |rows| == 23 && rows == MacroIsa.BodyRows()
    ensures rows[SourceRow(src)].atoms == SourceAtoms(src)
  {
    hide MacroIsa.BodyRows, MacroIsa.ArithRows, MacroIsa.MoveRows, MacroIsa.FieldRows, MacroIsa.Nested, OpName;
    hide MacroIsa.Dst, MacroIsa.Reg1, MacroIsa.Reg2, MacroIsa.Reg3, MacroIsa.MImm;
    hide MacroIsa.SrcPos, MacroIsa.Size, MacroIsa.DstPos;
    ThreeParts(rows);
    if src.RegReg? {
      ArithAtoms(src.op, rows[..9]);
    } else if src.ImmSrc? || src.RegSrc? || src.AddImm? {
      MoveAtoms(rows[9..15]);
    } else {
      FieldAtoms(rows[15..]);
    }
  }

  lemma OtherRowAtoms(b: M.Body, row: nat, rows: seq<MacroIsa.Line>)
    requires |rows| == 23 && row < 23 && rows == MacroIsa.BodyRows() && row in RowsOf(b) && !b.Unknown? && !b.Compute?
    ensures rows[row].atoms == if b.Nop? && row == 9 then [NameAtom("nop")] else BodyAtoms(b)
  {
    hide MacroIsa.BodyRows, MacroIsa.ArithRows, MacroIsa.MoveRows, MacroIsa.FieldRows, SourceAtoms;
    hide MacroIsa.Annul, MacroIsa.Reg1, MacroIsa.Reg2, MacroIsa.MImm, MacroIsa.BTarg;
    ThreeParts(rows);
    if b.Nop? || b.Parm? {
      assert 9 <= row < 12 && rows[row] == rows[9..15][row - 9];
      MoveAtoms(rows[9..15]);
    } else {
      assert 18 <= row < 23 && rows[row] == rows[15..][row - 15];
      FieldAtoms(rows[15..]);
    }
  }

  /** The rows of an instruction, whatever its operands are. */
  lemma RowAtoms(b: M.Body, row: nat, rows: seq<MacroIsa.Line>)
    requires |rows| == 23 && row < 23 && rows == MacroIsa.BodyRows() && row in RowsOf(b) && !b.Unknown?
    ensures rows[row].atoms == if b.Nop? && row == 9 then [NameAtom("nop")] else BodyAtoms(b)
  {
    hide MacroIsa.BodyRows, SourceAtoms;
    if b.Compute? {
      SourceRowAtoms(b.src, rows);
    } else {
      OtherRowAtoms(b, row, rows);
    }
  }

  /** The rows that say where a result comes from and what is done with it. */
  lemma SourceShown(src: M.Source, x: Code, c: bv32, vi: VarInfo)
    requires Context(x, c, vi) && SourceOf(src, c)
    ensures SaysAll(SourceAtoms(src), UseItems(D.DecodeUse(c), D.Reg1(c)) + SourceItems(src), x, vi)
  {
    hide Says, SaysAll, UseItems, RegItem, NatItem, IntItem, TargetItem, NameOf, AnnulItems, OpName;
    hide D.DecodeUse, D.Reg1, D.Reg2, D.Reg3, D.SrcPos, D.Size, D.DstPos, D.Imm;
    hide MacroIsa.Dst, MacroIsa.Annul, MacroIsa.Reg1, MacroIsa.Reg2, MacroIsa.Reg3, MacroIsa.MImm, MacroIsa.BTarg;
    hide MacroIsa.SrcPos, MacroIsa.Size, MacroIsa.DstPos, MacroIsa.Nested;
    var use, two, three := UseItems(D.DecodeUse(c), D.Reg1(c)), RegItem(D.Reg2(c)), RegItem(D.Reg3(c));
    var imm, from, size, to := IntItem(D.Imm(c)), NatItem(D.SrcPos(c)), NatItem(D.Size(c)), NatItem(D.DstPos(c));
    match src {
      case RegReg(op, _, _) => NestedRow(OpName(op), MacroIsa.Reg2(), MacroIsa.Reg3(), two, three, x, c, vi);
      case ImmSrc(_) => TwoSaid(MacroIsa.Dst(), MacroIsa.MImm(), use, [imm], x, vi);
      case RegSrc(_) => TwoSaid(MacroIsa.Dst(), MacroIsa.Reg2(), use, [two], x, vi);
      case AddImm(_, _) => NestedRow("add", MacroIsa.Reg2(), MacroIsa.MImm(), two, imm, x, c, vi);
      case ExtrInsrt(_, _, _, _, _) => InsertRow(x, c, vi);
      case ExtrShlDst(_, _, _, _) =>
        FieldRow("extrshl", MacroIsa.Reg3(), MacroIsa.Reg2(), MacroIsa.Size(), MacroIsa.DstPos(),
                 three, two, size, to, x, c, vi);
      case ExtrShlSrc(_, _, _, _) =>
        FieldRow("extrshl", MacroIsa.Reg3(), MacroIsa.SrcPos(), MacroIsa.Size(), MacroIsa.Reg2(),
                 three, from, size, two, x, c, vi);
    }
  }

  lemma ReadAddRow(x: Code, c: bv32, vi: VarInfo)
    requires Context(x, c, vi)
    ensures SaysAll([NameAtom("read"), MacroIsa.Reg1(), SeStartAtom, NameAtom("add"), MacroIsa.Reg2(), MacroIsa.MImm(),
                     SeEndAtom],
                    BodyItems(M.ReadAdd(D.Reg1(c), D.Reg2(c), D.Imm(c))), x, vi)
  {
    hide Says, SaysAll, UseItems, RegItem, NatItem, IntItem, TargetItem, NameOf;
    hide D.DecodeUse, D.Reg1, D.Reg2, D.Reg3, D.SrcPos, D.Size, D.DstPos, D.Imm;
    hide MacroIsa.Dst, MacroIsa.Reg1, MacroIsa.Reg2, MacroIsa.MImm;
    var a, b, d, e, f, g := NameAtom("read"), MacroIsa.Reg1(), SeStartAtom, NameAtom("add"), MacroIsa.Reg2(),
      MacroIsa.MImm();
    var s, t, u, v, w := NameOf("read"), RegItem(D.Reg1(c)), NameOf("add"), RegItem(D.Reg2(c)), IntItem(D.Imm(c));
    ThreeSaid(a, b, d, [s], [t], [SeStart], x, vi);
    ThreeSaid(e, f, g, [u], [v], [w], x, vi);
    JoinSaid([a, b, d], [e, f, g], [s] + [t] + [SeStart], [u] + [v] + [w], x, vi);
    OneSaid(SeEndAtom, [SeEnd], x, vi);
    JoinSaid([a, b, d] + [e, f, g], [SeEndAtom], [s] + [t] + [SeStart] + ([u] + [v] + [w]), [SeEnd], x, vi);
    assert [a, b, d] + [e, f, g] + [SeEndAtom] == [a, b, d, e, f, g, SeEndAtom];
    assert [s] + [t] + [SeStart] + ([u] + [v] + [w]) + [SeEnd] == [s, t, SeStart, u, v, w, SeEnd];
  }

  lemma BranchShown(b: M.Body, x: Code, c: bv32, vi: VarInfo)
    requires Context(x, c, vi) && BodyOf(b, c) && b.Branch?
    requires Says(MacroIsa.Annul(), AnnulItems(b.annul), x, vi)
    ensures SaysAll(BodyAtoms(b), BodyItems(b), x, vi)
  {
    hide Says, SaysAll, UseItems, RegItem, NatItem, IntItem, TargetItem, NameOf, AnnulItems, OpName;
    hide D.DecodeUse, D.Reg1, D.Reg2, D.Reg3, D.SrcPos, D.Size, D.DstPos, D.Imm;
    hide MacroIsa.Dst, MacroIsa.Annul, MacroIsa.Reg1, MacroIsa.Reg2, MacroIsa.Reg3, MacroIsa.MImm, MacroIsa.BTarg;
    hide MacroIsa.SrcPos, MacroIsa.Size, MacroIsa.DstPos, MacroIsa.Nested;
    var two, target, annul := RegItem(D.Reg2(c)), TargetItem(D.Imm(c)), AnnulItems(b.annul);
    var name := NameAtom(if b.cond.Always? then "bra" else if b.cond.IfZero? then "braz" else "branz");
    TwoSaid(name, MacroIsa.Annul(), [NameOf(name.name)], annul, x, vi);
    if b.cond.Always? {
      ThreeSaid(name, MacroIsa.Annul(), MacroIsa.BTarg(), [NameOf(name.name)], annul, [target], x, vi);
    } else {
      TwoSaid(MacroIsa.Reg2(), MacroIsa.BTarg(), [two], [target], x, vi);
      JoinSaid([name, MacroIsa.Annul()], [MacroIsa.Reg2(), MacroIsa.BTarg()], [NameOf(name.name)] + annul,
               [two] + [target], x, vi);
      assert [name, MacroIsa.Annul()] + [MacroIsa.Reg2(), MacroIsa.BTarg()] ==
             [name, MacroIsa.Annul(), MacroIsa.Reg2(), MacroIsa.BTarg()];
      assert [two] + [target] == [two, target];
    }
  }

  lemma ReadShown(b: M.Body, x: Code, c: bv32, vi: VarInfo)
    requires Context(x, c, vi) && BodyOf(b, c) && (b.Parm? || b.ReadImm? || b.ReadAdd?)
    ensures SaysAll(BodyAtoms(b), BodyItems(b), x, vi)
  {
    hide Says, SaysAll, UseItems, RegItem, NatItem, IntItem, TargetItem, NameOf, AnnulItems, OpName;
    hide D.DecodeUse, D.Reg1, D.Reg2, D.Reg3, D.SrcPos, D.Size, D.DstPos, D.Imm;
    hide MacroIsa.Dst, MacroIsa.Annul, MacroIsa.Reg1, MacroIsa.Reg2, MacroIsa.Reg3, MacroIsa.MImm, MacroIsa.BTarg;
    hide MacroIsa.SrcPos, MacroIsa.Size, MacroIsa.DstPos, MacroIsa.Nested;
    var one, imm := RegItem(D.Reg1(c)), IntItem(D.Imm(c));
    if b.Parm? {
      TwoSaid(NameAtom("parm"), MacroIsa.Reg1(), [NameOf("parm")], [one], x, vi);
      assert [NameOf("parm")] + [one] == [NameOf("parm"), one];
    } else if b.ReadImm? {
      ThreeSaid(NameAtom("read"), MacroIsa.Reg1(), MacroIsa.MImm(), [NameOf("read")], [one], [imm], x, vi);
      assert [NameOf("read")] + [one] + [imm] == [NameOf("read"), one, imm];
    } else {
      ReadAddRow(x, c, vi);
    }
  }

  /** The row of an instruction shows the instruction. */
  lemma BodyShown(b: M.Body, x: Code, c: bv32, vi: VarInfo)
    requires Context(x, c, vi) && BodyOf(b, c) && !b.Unknown? && !b.Nop?
    requires b.Branch? ==> Says(MacroIsa.Annul(), AnnulItems(b.annul), x, vi)
    ensures SaysAll(BodyAtoms(b), BodyItems(b), x, vi)
  {
    hide Context, SaysAll, Says, SourceItems, SourceAtoms, UseItems;
    if b.Compute? {
      SourceShown(b.src, x, c, vi);
    } else if b.Branch? {
      BranchShown(b, x, c, vi);
    } else {
      ReadShown(b, x, c, vi);
    }
  }

  // ---------------------------------------------------------------------
  // The whole word
  // ---------------------------------------------------------------------

  lemma ContextHolds(x: Code, c: bv32, vi: VarInfo)
    requires LowHalf(x, c)
    ensures Context(x, c, vi)
  {
    hide LowHalf, Says, RegItem, NatItem, IntItem, TargetItem, NameOf, UseItems;
    AtomsShown(x, c, vi);
    UseShown(x, c, vi);
  }

  /** The flags, by the bits that the simulator looks at. */
  lemma FlagsShown(x: Code, c: bv32, vi: VarInfo)
    requires LowHalf(x, c)
    ensures Says(MacroIsa.Exit(), if D.Decode(c).exit then [NameOf("exit")] else [], x, vi)
    ensures D.Decode(c).body.Branch? ==> Says(MacroIsa.Annul(), AnnulItems(D.Decode(c).body.annul), x, vi)
  {
    hide LowHalf, Says, MacroIsa.Build, MacroIsa.FlagRows, D.DecodeBody, D.Decode;
    MacroIsa.PartsValid(vi);
    SameFlags(x, c, vi);
    FlagShown(0x80, "exit", D.Decode(c).exit, x, vi);
    if D.Decode(c).body.Branch? {
      FlagShown(0x20, "annul", D.Decode(c).body.annul, x, vi);
    }
  }

  /** What the main table shows; `nop` with the exit bit shows nothing more. */
  function BodyText(i: M.Instr): seq<Item> { if i.exit && i.body.Nop? then [] else BodyItems(i.body) }

  lemma NopBit(c: bv32)
    ensures c == 0x11 ==> c & 0x80 == 0
    ensures c == 0x91 ==> c & 0x80 != 0
  {
  }

  lemma NopRow(c: bv32, row: nat)
    requires (c == 0x11 || c == 0x91) && row == Pick(MacroIsa.BodyRows(), c, 0)
    ensures row == if D.Decode(c).exit then 10 else 9
  {
    hide MacroIsa.BodyRows, Pick, D.DecodeBody;
    BodyTests(c);
  }

  /** The main table, on a word that the simulator knows. */
  lemma MainShown(x: Code, c: bv32, vi: VarInfo)
    requires LowHalf(x, c) && !D.DecodeBody(c).Unknown?
    ensures Says(MacroIsa.Body(), BodyText(D.Decode(c)), x, vi)
  {
    hide LowHalf, Says, SaysAll, Context, BodyOf, BodyItems, BodyAtoms, RowsOf, Pick;
    hide MacroIsa.Build, MacroIsa.BodyRows, MacroIsa.BodyLast, MacroIsa.Annul, D.DecodeBody;
    var i, rows := D.Decode(c), MacroIsa.BodyRows();
    MacroIsa.PartsValid(vi);
    var row := SameInstruction(x, c, vi);
    RowCount(rows);
    RowAtoms(i.body, row, rows);
    BodyDecoded(c);
    ContextHolds(x, c, vi);
    if i.body.Nop? {
      NopShown(i, c, row, x, vi);
    } else {
      FlagsShown(x, c, vi);
      BodyShown(i.body, x, c, vi);
    }
    TableShown(rows, MacroIsa.BodyLast(), row, BodyText(i), x, vi);
  }

  lemma RowCount(rows: seq<MacroIsa.Line>)
    requires rows == MacroIsa.BodyRows()
    ensures |rows| == 23
  {
    hide MacroIsa.BodyRows;
    BodyAt();
  }

  lemma NopShown(i: M.Instr, c: bv32, row: nat, x: Code, vi: VarInfo)
    requires i == D.Decode(c) && i.body.Nop? && row == Pick(MacroIsa.BodyRows(), c, 0)
    requires BodyOf(i.body, c)
    ensures SaysAll(if row == 9 then [NameAtom("nop")] else BodyAtoms(i.body), BodyText(i), x, vi)
  {
    hide Says, SaysAll, MacroIsa.BodyRows, Pick, D.Decode;
    NopRow(c, row);
    NamesSaid(x, vi);
    OneSaid(NameAtom("nop"), [NameOf("nop")], x, vi);
    NoneSaid(x, vi);
  }

  lemma RootFires(x: Code, vi: VarInfo)
    ensures FirstRow(MacroIsa.Root(), x, vi).atoms == MacroIsa.Seq([OpLenAtom(1), MacroIsa.Exit(), MacroIsa.Body()])
  {
    hide MacroIsa.Exit, MacroIsa.Body, MacroIsa.Seq;
    assert Words.And(x[0], Zero()) == Zero();
  }

  lemma LengthSaid(x: Code, vi: VarInfo)
    ensures Says(OpLenAtom(1), [], x, vi)
  {
  }

  /** The tokens of a macro word are the instruction that the simulator executes for it,
      with the registers, numbers and flags that it uses. */
  lemma DisassemblyShows(x: Code, c: bv32, vi: VarInfo)
    requires LowHalf(x, c) && !D.Decode(c).body.Unknown?
    ensures DisTab(MacroIsa.Root(), x, vi).items == Shown(D.Decode(c))
  {
    hide LowHalf, Says, SaysAll, BodyItems, FirstRow, DisAtoms, D.DecodeBody;
    hide MacroIsa.Root, MacroIsa.Exit, MacroIsa.Body, MacroIsa.Seq;
    var i := D.Decode(c);
    var exit := if i.exit then [NameOf("exit")] else [];
    FlagsShown(x, c, vi);
    MainShown(x, c, vi);
    LengthSaid(x, vi);
    RootFires(x, vi);
    ThreeSaid(OpLenAtom(1), MacroIsa.Exit(), MacroIsa.Body(), [], exit, BodyText(i), x, vi);
    RootItems(x, vi, [] + exit + BodyText(i));
    assert [] + exit + BodyText(i) == Shown(i);
  }

  lemma RootItems(x: Code, vi: VarInfo, items: seq<Item>)
    requires SaysAll([OpLenAtom(1), MacroIsa.Exit(), MacroIsa.Body()], items, x, vi)
    ensures DisTab(MacroIsa.Root(), x, vi).items == items
  {
    hide MacroIsa.Root, MacroIsa.Exit, MacroIsa.Body, FirstRow, ItemsOf, AllValid, MacroIsa.Seq;
    RootFires(x, vi);
    SeqItems([OpLenAtom(1), MacroIsa.Exit(), MacroIsa.Body()], x, vi);
  }

  lemma CatchAll(rows: seq<MacroIsa.Line>, last: seq<Atom>, items: seq<Item>, x: Code, vi: VarInfo)
    requires ValidTable(MacroIsa.Build(rows, last)) && SaysAll(last, items, x, vi)
    requires FirstRow(MacroIsa.Build(rows, last), x, vi) == MacroIsa.Build(rows[|rows|..], last)
    ensures Says(TabAtom(MacroIsa.Build(rows, last)), items, x, vi)
  {
    hide DisAtoms, ValidTable, FirstRow, AtomItems;
    TableItems(MacroIsa.Build(rows, last), x, vi);
    SeqItems(last, x, vi);
  }

  lemma OopsSaid(x: Code, vi: VarInfo)
    ensures Says(MacroIsa.Oops(), [NameItem("???", true)], x, vi)
  {
  }

  /** A word that the simulator does not know is marked as unknown. */
  lemma UnknownShown(x: Code, c: bv32, vi: VarInfo)
    requires LowHalf(x, c) && D.Decode(c).body.Unknown?
    ensures NameItem("???", true) in DisTab(MacroIsa.Root(), x, vi).items
  {
    hide LowHalf, Says, SaysAll, Context, RowsOf, Pick, UseItems, MacroIsa.Reg2, MacroIsa.Dst, MacroIsa.Oops, D.Reg2;
    hide MacroIsa.Build, MacroIsa.BodyRows, MacroIsa.Annul, D.DecodeBody, FirstRow, MacroIsa.Root, DisTab;
    var rows := MacroIsa.BodyRows();
    var exit := if D.Decode(c).exit then [NameOf("exit")] else [];
    var use := UseItems(D.DecodeUse(c), D.Reg1(c));
    MacroIsa.PartsValid(vi);
    var row := SameInstruction(x, c, vi);
    AtomsShown(x, c, vi);
    UseShown(x, c, vi);
    OopsSaid(x, vi);
    FlagsShown(x, c, vi);
    LengthSaid(x, vi);
    ThreeSaid(MacroIsa.Dst(), MacroIsa.Oops(), MacroIsa.Reg2(),
              use, [NameItem("???", true)], [RegItem(D.Reg2(c))], x, vi);
    var items := use + [NameItem("???", true)] + [RegItem(D.Reg2(c))];
    CatchAll(rows, MacroIsa.BodyLast(), items, x, vi);
    ThreeSaid(OpLenAtom(1), MacroIsa.Exit(), MacroIsa.Body(), [], exit, items, x, vi);
    RootItems(x, vi, [] + exit + items);
    assert items[|use|] == NameItem("???", true);
  }
}
