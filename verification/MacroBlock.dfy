/** Code discovery on macro code: what the table marks are the targets that the simulator
    branches to. */
module MacroBlock {
  import opened Options
  import opened Words
  import opened Exprs
  import opened Fields
  import opened Relocs
  import opened Registers
  import opened Tables
  import opened AsmSound
  import opened AsmComplete
  import Discovery
  import opened DisBlock
  import M = MacroMachine
  import D = MacroDecode
  import opened MacroAgree
  import opened MacroOperands
  import opened MacroShown
  import MacroIsa

  // ---------------------------------------------------------------------
  // Rows without branch targets
  // ---------------------------------------------------------------------

  predicate AllQuiet(atoms: seq<Atom>) { forall i :: 0 <= i < |atoms| ==> Quiet(atoms[i]) }

  lemma {:induction false} SeqQuiet(atoms: seq<Atom>)
    requires AllQuiet(atoms)
    ensures QuietAtoms(MacroIsa.Seq(atoms))
  {
    hide Quiet;
    if atoms != [] {
      SeqQuiet(atoms[1..]);
    }
  }

  lemma {:induction false} BuildQuiet(rows: seq<MacroIsa.Line>, last: seq<Atom>)
    requires AllQuiet(last) && forall i :: 0 <= i < |rows| ==> AllQuiet(rows[i].atoms)
    ensures QuietTable(MacroIsa.Build(rows, last))
  {
    hide AllQuiet, MacroIsa.On;
    if rows == [] {
      SeqQuiet(last);
    } else {
      SeqQuiet(rows[0].atoms);
      BuildQuiet(rows[1..], last);
    }
  }

  lemma PlainQuiet()
    ensures Quiet(MacroIsa.Reg1()) && Quiet(MacroIsa.Reg2()) && Quiet(MacroIsa.Reg3()) && Quiet(MacroIsa.SrcPos())
    ensures Quiet(MacroIsa.Size()) && Quiet(MacroIsa.DstPos()) && Quiet(MacroIsa.MImm()) && Quiet(MacroIsa.Oops())
    ensures Quiet(SeStartAtom) && Quiet(SeEndAtom) && Quiet(OpLenAtom(1)) && forall name :: Quiet(NameAtom(name))
  {
  }

  lemma FlagQuiet(flag: bv32, name: string)
    ensures Quiet(TabAtom(MacroIsa.Build(MacroIsa.FlagRows(flag, name), [MacroIsa.Oops()])))
  {
    hide MacroIsa.Oops, MacroIsa.Build;
    PlainQuiet();
    BuildQuiet(MacroIsa.FlagRows(flag, name), [MacroIsa.Oops()]);
  }

  lemma FlagsQuiet()
    ensures Quiet(MacroIsa.Exit()) && Quiet(MacroIsa.Annul())
  {
    hide Quiet, MacroIsa.Build;
    FlagQuiet(0x80, "exit");
    FlagQuiet(0x20, "annul");
  }

  /** The tables inside are well formed. */
  lemma TablesValid(vi: VarInfo)
    ensures ValidAtom(MacroIsa.Exit()) && ValidAtom(MacroIsa.Annul()) && ValidAtom(MacroIsa.Body())
  {
    hide ValidTable, MacroIsa.Build, MacroIsa.BodyRows, MacroIsa.BodyLast, MacroIsa.ExitRows, MacroIsa.AnnulRows;
    MacroIsa.PartsValid(vi);
  }

  lemma PlainValid(vi: VarInfo)
    ensures ValidAtom(MacroIsa.Reg2()) && ValidAtom(OpLenAtom(1)) && forall name :: ValidAtom(NameAtom(name))
  {
    hide MacroIsa.RegAt, AtomItems, ValidBf, GetBf, Lld;
    RegisterText(11, [Zero(), Zero()], vi);
  }

  lemma DstQuiet()
    ensures Quiet(MacroIsa.Dst())
  {
    hide MacroIsa.Oops, MacroIsa.Reg1, MacroIsa.Build;
    PlainQuiet();
    BuildQuiet(MacroIsa.DstRows(), [MacroIsa.Oops()]);
  }

  lemma SourceQuiet(src: M.Source)
    ensures AllQuiet(SourceAtoms(src))
  {
    hide Quiet, MacroIsa.Dst, MacroIsa.Reg1, MacroIsa.Reg2, MacroIsa.Reg3, MacroIsa.MImm, OpName;
    hide MacroIsa.SrcPos, MacroIsa.Size, MacroIsa.DstPos;
    PlainQuiet();
    DstQuiet();
  }

  lemma BodyQuiet(b: M.Body)
    requires !b.Branch?
    ensures AllQuiet(BodyAtoms(b)) && AllQuiet([NameAtom("nop")]) && AllQuiet(MacroIsa.BodyLast())
  {
    hide Quiet, MacroIsa.Dst, MacroIsa.Oops, MacroIsa.Reg1, MacroIsa.Reg2, MacroIsa.MImm, SourceAtoms;
    PlainQuiet();
    DstQuiet();
    if b.Compute? {
      SourceQuiet(b.src);
    }
  }

  // ---------------------------------------------------------------------
  // The target of a branch
  // ---------------------------------------------------------------------

  lemma {:induction false} PowerSum(n: nat, k: nat)
    ensures Pow2(n + k) == Pow2(n) * Pow2(k)
  {
    if n > 0 {
      PowerSum(n - 1, k);
    }
  }

  lemma WordSize()
    ensures Pow2(64) == ADDRESSES * ADDRESSES
  {
    PowerSum(32, 32);
    PowerSum(16, 16);
    PlaceWeight(16);
  }

  lemma LowOfSum(raw: nat, pos: nat, imm: int)
    requires raw == imm % (ADDRESSES * ADDRESSES)
    ensures (raw + pos) % (ADDRESSES * ADDRESSES) % ADDRESSES == (pos + imm) % ADDRESSES
  {
  }

  /** The field is a displacement from the position, in words. */
  lemma BranchAddress(x: Code, c: bv32, pos: Word)
    requires LowHalf(x, c)
    ensures Marked(MacroIsa.Field18(true), x, pos) == [(Val(pos) + D.Imm(c)) % ADDRESSES]
  {
    hide Val, LowHalf, RawValue, D.Imm, Marked, Pow2;
    var bf := MacroIsa.Field18(true);
    var raw := RawValue(bf, x);
    MarkedAddress(bf, x, pos);
    SameImmediate(x, c, true);
    AddZero(pos, Zero());
    assert Words.And(pos, HighOnes(0)) == pos;
    AddZero(Words.Add(raw, pos), Zero());
    AddIsModular(raw, pos);
    WordSize();
    LowOfSum(Val(raw), Val(pos), D.Imm(c));
  }

  /** Of a row, only the last atom counts if all others are quiet. */
  lemma {:induction false} LastTargets(atoms: seq<Atom>, last: Atom, x: Code, vi: VarInfo, pos: Word, kind: Target)
    requires AllValid(atoms) && ValidAtom(last) && AllQuiet(atoms) && !kind.PlainTarget?
    ensures ValidAtoms(MacroIsa.Seq(atoms + [last]))
    ensures Targets(MacroIsa.Seq(atoms + [last]), x, vi, pos, kind) == AtomTargets(last, x, vi, pos, kind)
  {
    hide Quiet, AtomTargets, ValidAtom;
    var all := atoms + [last];
    if atoms == [] {
      assert all[1..] == [];
    } else {
      assert all[1..] == atoms[1..] + [last];
      QuietAtomNone(atoms[0], x, vi, pos, kind);
      LastTargets(atoms[1..], last, x, vi, pos, kind);
    }
  }

  /** The atoms of a branch in front of its target. */
  function BranchFront(b: M.Body): seq<Atom>
    requires b.Branch?
  {
    match b.cond
    case Always => [NameAtom("bra"), MacroIsa.Annul()]
    case IfZero => [NameAtom("braz"), MacroIsa.Annul(), MacroIsa.Reg2()]
    case IfNonZero => [NameAtom("branz"), MacroIsa.Annul(), MacroIsa.Reg2()]
  }

  lemma BranchEnds(b: M.Body)
    requires b.Branch?
    ensures BodyAtoms(b) == BranchFront(b) + [MacroIsa.BTarg()]
  {
    hide SourceAtoms, MacroIsa.Annul, MacroIsa.Reg1, MacroIsa.Reg2, MacroIsa.MImm, MacroIsa.BTarg;
  }

  lemma BranchParts(b: M.Body, vi: VarInfo)
    requires b.Branch?
    ensures BodyAtoms(b) == BranchFront(b) + [MacroIsa.BTarg()]
    ensures AllQuiet(BranchFront(b)) && AllValid(BranchFront(b))
  {
    hide Quiet, ValidAtom, AllQuiet, AllValid, BodyAtoms, MacroIsa.Annul, MacroIsa.Reg2, MacroIsa.BTarg;
    BranchEnds(b);
    PlainQuiet();
    FlagsQuiet();
    PlainValid(vi);
    TablesValid(vi);
    var name := NameAtom(if b.cond.Always? then "bra" else if b.cond.IfZero? then "braz" else "branz");
    FrontParts(name, MacroIsa.Annul(), MacroIsa.Reg2());
  }

  lemma FrontParts(name: Atom, annul: Atom, reg: Atom)
    requires Quiet(name) && Quiet(annul) && Quiet(reg) && ValidAtom(name) && ValidAtom(annul) && ValidAtom(reg)
    ensures AllQuiet([name, annul]) && AllValid([name, annul]) && AllQuiet([name, annul, reg])
    ensures AllValid([name, annul, reg])
  {
    hide Quiet, ValidAtom;
  }

  lemma TargetAtom(x: Code, c: bv32, vi: VarInfo, pos: Word, kind: Target)
    requires LowHalf(x, c) && !kind.PlainTarget?
    ensures ValidAtom(MacroIsa.BTarg())
    ensures AtomTargets(MacroIsa.BTarg(), x, vi, pos, kind) ==
            if kind.BranchTarget? then [(Val(pos) + D.Imm(c)) % ADDRESSES] else []
  {
    hide LowHalf, Val, D.Imm, Marked, MacroIsa.Field18;
    MacroIsa.TargetGood(true, BranchTarget, vi);
    BranchAddress(x, c, pos);
  }

  /** What an instruction of the simulator marks. */
  function BranchTo(b: M.Body, pos: Word, kind: Target): seq<nat> {
    if b.Branch? && kind.BranchTarget? then [(Val(pos) + b.disp) % ADDRESSES] else []
  }

  lemma BodyTargets(atoms: seq<Atom>, x: Code, c: bv32, vi: VarInfo, pos: Word, kind: Target)
    requires LowHalf(x, c) && !kind.PlainTarget? && ValidAtoms(MacroIsa.Seq(atoms))
    requires var b := D.DecodeBody(c);
             if b.Branch? then atoms == BodyAtoms(b) else AllQuiet(atoms)
    ensures Targets(MacroIsa.Seq(atoms), x, vi, pos, kind) == BranchTo(D.DecodeBody(c), pos, kind)
  {
    hide LowHalf, Val, D.Imm, D.DecodeBody, BodyAtoms, BranchFront, AllQuiet, AtomTargets, ValidAtoms, MacroIsa.BTarg;
    var b := D.DecodeBody(c);
    if b.Branch? {
      BranchParts(b, vi);
      TargetAtom(x, c, vi, pos, kind);
      LastTargets(BranchFront(b), MacroIsa.BTarg(), x, vi, pos, kind);
      BodyDecoded(c);
    } else {
      SeqQuiet(atoms);
      QuietNone(MacroIsa.Seq(atoms), x, vi, pos, kind);
    }
  }

  /** The row that `atomtab_d` takes in the main table. */
  lemma MainAtoms(x: Code, c: bv32, vi: VarInfo) returns (atoms: seq<Atom>)
    requires LowHalf(x, c)
    ensures FirstRow(MacroIsa.BodyTable(), x, vi).atoms == MacroIsa.Seq(atoms)
    ensures var b := D.DecodeBody(c);
            if b.Branch? then atoms == BodyAtoms(b) else AllQuiet(atoms)
  {
    hide LowHalf, MacroIsa.Build, MacroIsa.BodyRows, MacroIsa.BodyLast, BodyAtoms, AllQuiet, D.DecodeBody, RowsOf, Pick;
    var b, rows := D.DecodeBody(c), MacroIsa.BodyRows();
    var row := SameInstruction(x, c, vi);
    RowCount(rows);
    if !b.Branch? {
      BodyQuiet(b);
    }
    if b.Unknown? {
      atoms := MacroIsa.BodyLast();
      LastRow(rows, atoms);
    } else {
      RowAtoms(b, row, rows);
      BuiltRow(rows, MacroIsa.BodyLast(), row);
      atoms := rows[row].atoms;
    }
  }

  lemma FrontTargets(x: Code, vi: VarInfo, pos: Word, kind: Target)
    requires !kind.PlainTarget?
    ensures ValidAtom(MacroIsa.Body())
    ensures Targets(FirstRow(MacroIsa.Root(), x, vi).atoms, x, vi, pos, kind) ==
            AtomTargets(MacroIsa.Body(), x, vi, pos, kind)
  {
    hide MacroIsa.Root, MacroIsa.Exit, MacroIsa.Body, Quiet, ValidAtom, Targets, FirstRow, MacroIsa.Seq;
    var front := [OpLenAtom(1), MacroIsa.Exit()];
    RootFires(x, vi);
    PlainQuiet();
    FlagsQuiet();
    TablesValid(vi);
    PlainValid(vi);
    LastTargets(front, MacroIsa.Body(), x, vi, pos, kind);
    assert [OpLenAtom(1), MacroIsa.Exit(), MacroIsa.Body()] == front + [MacroIsa.Body()];
  }

  lemma RootTargets(x: Code, c: bv32, vi: VarInfo, pos: Word, kind: Target)
    requires LowHalf(x, c) && !kind.PlainTarget?
    ensures Targets(FirstRow(MacroIsa.Root(), x, vi).atoms, x, vi, pos, kind) == BranchTo(D.DecodeBody(c), pos, kind)
  {
    hide LowHalf, ValidAtom, FirstRow, Targets, AtomTargets, BranchTo, D.DecodeBody;
    hide MacroIsa.Root, MacroIsa.Body, MacroIsa.BodyTable;
    FrontTargets(x, vi, pos, kind);
    var atoms := MainAtoms(x, c, vi);
    MainTargets(atoms, x, vi, pos, kind);
    BodyTargets(atoms, x, c, vi, pos, kind);
  }

  lemma MainTargets(atoms: seq<Atom>, x: Code, vi: VarInfo, pos: Word, kind: Target)
    requires FirstRow(MacroIsa.BodyTable(), x, vi).atoms == MacroIsa.Seq(atoms)
    ensures ValidAtoms(MacroIsa.Seq(atoms)) && ValidAtom(MacroIsa.Body())
    ensures AtomTargets(MacroIsa.Body(), x, vi, pos, kind) == Targets(MacroIsa.Seq(atoms), x, vi, pos, kind)
  {
    hide FirstRow, MacroIsa.Build, MacroIsa.BodyRows, MacroIsa.BodyLast;
  }

  /** Decoding a macro word for code discovery: one word, never an end mark or a call, and
      the address marked is the one the simulator would branch to. */
  lemma MacroInstruction(x: Code, c: bv32, vi: VarInfo, pos: Word)
    requires LowHalf(x, c)
    ensures Instruction(MacroIsa.Root(), x, vi, pos, 1) ==
            Discovery.Decoded(1, false, [], BranchTo(D.DecodeBody(c), pos, BranchTarget), [])
  {
    hide LowHalf, MacroIsa.Root, DisTab, FirstRow, Targets, D.DecodeBody;
    MacroIsa.RootWalk(x, vi);
    RootTargets(x, c, vi, pos, CallTarget);
    RootTargets(x, c, vi, pos, BranchTarget);
  }
}
