/** What the instruction tables give to code discovery: an opcode's length, its end mark,
    and the addresses that post-processing finds in its branch and call operands
    (`do_dis`, `dis_pp_expr`). */
module DisBlock {
  import opened Options
  import opened Words
  import opened Exprs
  import opened Fields
  import opened Relocs
  import opened Registers
  import opened Tables
  import opened AsmComplete
  import Rewrite
  import opened Discovery

  /** `mark` takes a 32-bit address. */
  const ADDRESSES: nat := 0x1_0000_0000

  /** What a marked operand marks: the number it folds to, if it is one. */
  function Marked(bf: RBitfield, x: Code, pos: Word): seq<nat>
    requires ValidRbf(bf)
  {
    match Rewrite.Tidy(GetRbf(bf, x), pos, true)
    case Num(n) => [Val(n) % ADDRESSES]
    case _ => []
  }

  /** The addresses that the operands of one kind mark. */
  function Targets(atoms: Atoms, x: Code, vi: VarInfo, pos: Word, kind: Target): seq<nat>
    requires ValidAtoms(atoms)
    decreases atoms
  {
    if atoms.ANil? then [] else AtomTargets(atoms.head, x, vi, pos, kind) + Targets(atoms.tail, x, vi, pos, kind)
  }

  function AtomTargets(atom: Atom, x: Code, vi: VarInfo, pos: Word, kind: Target): seq<nat>
    requires ValidAtom(atom)
    decreases atom
  {
    match atom
    case TabAtom(t) => Targets(FirstRow(t, x, vi).atoms, x, vi, pos, kind)
    case RImmAtom(bf, k) => if k == kind then Marked(bf, x, pos) else []
    case _ => []
  }

  /** `do_dis` and `dis_dopp`; an opcode without a length is `opunit` long. */
  function Instruction(root: Table, x: Code, vi: VarInfo, pos: Word, opunit: nat): Decoded
    requires ValidTable(root)
  {
    var d, atoms := DisTab(root, x, vi), FirstRow(root, x, vi).atoms;
    Decoded(LengthOr(d, opunit), d.endmark, Targets(atoms, x, vi, pos, CallTarget),
            Targets(atoms, x, vi, pos, BranchTarget), [])
  }

  /** A block of code: `at` gives the opcode at an offset. */
  function BlockOf(root: Table, at: nat -> Code, base: nat, init: seq<Flags>, vi: VarInfo, opunit: nat): Block
    requires ValidTable(root)
  {
    Block(base, |init|, init, (p: nat) => Instruction(root, at(p), vi, FromNat(base + p), opunit))
  }

  /** What is marked is the address that the assembler reads the field as. */
  lemma MarkedAddress(bf: RBitfield, x: Code, pos: Word)
    requires ValidRbf(bf)
    ensures Marked(bf, x, pos) == [Val(GetRbfAs(bf, x, pos)) % ADDRESSES]
  {
    hide Eval, Rewrite.Tidy, GetRbf, GetRbfAs, Val;
    var env := Env(map[], map[], None);
    Rewrite.TargetConstant(bf, x);
    Rewrite.ConstantTidies(GetRbf(bf, x), pos, true, env);
    ReadersAgree(bf, x, map[], pos);
  }

  /** An instruction that was assembled to go to `val` marks `val`: every opcode with the
      bits that `resolve` has fixed does, for a field that is not allowed to wrap. */
  lemma AssembledTargetIsMarked(bf: RBitfield, a: Code, m: Code, val: Word, pos: Word, x: Code)
    requires ValidRbf(bf) && Fields.Tidy(a, m) && !bf.wrapok
    requires FillRbf(a, m, bf, val, pos).ok
    requires Agrees(x, FillRbf(a, m, bf, val, pos).a, FillRbf(a, m, bf, val, pos).m)
    ensures Marked(bf, x, pos) == [Val(val) % ADDRESSES]
  {
    hide FillRbf, Val, GetRbfAs, Marked;
    MarkedAddress(bf, x, pos);
    FillSound(a, m, bf, val, pos, x);
    assert Words.And(val, AllOnes()) == val;
    assert Words.And(GetRbfAs(bf, x, pos), AllOnes()) == GetRbfAs(bf, x, pos);
  }

  // ---------------------------------------------------------------------
  // Tables without marked operands
  // ---------------------------------------------------------------------

  predicate QuietTable(t: Table) { t.Row? ==> QuietAtoms(t.atoms) && QuietTable(t.next) }

  predicate QuietAtoms(atoms: Atoms) { atoms.ACons? ==> Quiet(atoms.head) && QuietAtoms(atoms.tail) }

  predicate Quiet(atom: Atom) {
    match atom
    case TabAtom(t) => QuietTable(t)
    case RImmAtom(_, k) => k.PlainTarget?
    case _ => true
  }

  lemma {:induction false} QuietNone(atoms: Atoms, x: Code, vi: VarInfo, pos: Word, kind: Target)
    requires ValidAtoms(atoms) && QuietAtoms(atoms) && !kind.PlainTarget?
    ensures Targets(atoms, x, vi, pos, kind) == []
    decreases atoms
  {
    if atoms.ACons? {
      QuietAtomNone(atoms.head, x, vi, pos, kind);
      QuietNone(atoms.tail, x, vi, pos, kind);
    }
  }

  lemma {:induction false} QuietAtomNone(atom: Atom, x: Code, vi: VarInfo, pos: Word, kind: Target)
    requires ValidAtom(atom) && Quiet(atom) && !kind.PlainTarget?
    ensures AtomTargets(atom, x, vi, pos, kind) == []
    decreases atom
  {
    if atom.TabAtom? {
      QuietRow(atom.tab, x, vi);
      QuietNone(FirstRow(atom.tab, x, vi).atoms, x, vi, pos, kind);
    }
  }

  lemma {:induction false} QuietRow(t: Table, x: Code, vi: VarInfo)
    requires ValidTable(t) && QuietTable(t)
    ensures QuietAtoms(FirstRow(t, x, vi).atoms)
    decreases t
  {
    hide QuietAtoms;
    if !Fires(t, x, vi) && !IsLast(t) {
      QuietRow(t.next, x, vi);
    }
  }
}
