/** The opcode bits that the disassembler looks at: the masks of the rows it takes and the
    fields it reads, collected in the mask array that goes along with the opcode.  Bits
    of the opcode outside it are reported as unknown. */
module UsedBits {
  import opened Options
  import opened Words
  import opened Exprs
  import opened Fields
  import opened Relocs
  import opened Registers
  import opened Tables

  // ---------------------------------------------------------------------
  // Collecting
  // ---------------------------------------------------------------------

  function MarkPieces(s0: Sbf, s1: Sbf, m: Code): Code
    requires FitsSbf(s0) && FitsSbf(s1)
  {
    MarkSbf(s1, MarkSbf(s0, m))
  }

  function MarkRow(row: Table, m: Code): Code
    requires row.Row?
  {
    m[0 := Words.Or(m[0], row.mask)]
  }

  /** What `atomtab_d` adds to the mask. */
  function TabMask(t: Table, x: Code, vi: VarInfo, m: Code): Code
    requires ValidTable(t)
    decreases t, 1
  {
    var row := FirstRow(t, x, vi);
    AtomsMask(row.atoms, x, vi, MarkRow(row, m))
  }

  function AtomsMask(atoms: Atoms, x: Code, vi: VarInfo, m: Code): Code
    requires ValidAtoms(atoms)
    decreases atoms
  {
    if atoms.ANil? then m else AtomsMask(atoms.tail, x, vi, AtomMask(atoms.head, x, vi, m))
  }

  function AtomMask(atom: Atom, x: Code, vi: VarInfo, m: Code): Code
    requires ValidAtom(atom)
    decreases atom
  {
    match atom
    case TabAtom(t) => TabMask(t, x, vi, m)
    case IgnoreAtom(f) => MarkSbf(f, m)
    case ImmAtom(bf) => MarkPieces(bf.s0, bf.s1, m)
    case RImmAtom(bf, _) => MarkPieces(bf.s0, bf.s1, m)
    case RegAtom(reg) => if reg.bf.Some? then MarkPieces(reg.bf.value.s0, reg.bf.value.s1, m) else m
    case _ => m
  }

  // ---------------------------------------------------------------------
  // What it means
  // ---------------------------------------------------------------------

  /** `m1` has all bits of `m0`. */
  ghost predicate More(m0: Code, m1: Code) { forall b :: 0 <= b < 128 && BitOf(m0, b) ==> BitOf(m1, b) }

  lemma MarkMore(f: Sbf, m: Code)
    requires FitsSbf(f)
    ensures More(m, MarkSbf(f, m)) && forall b :: f.pos <= b < f.pos + f.len ==> BitOf(MarkSbf(f, m), b)
  {
    hide MarkSbf;
    forall b | 0 <= b < 128 ensures BitOf(MarkSbf(f, m), b) == (BitOf(m, b) || f.pos <= b < f.pos + f.len) {
      MarkSbfBit(f, m, b);
    }
  }

  lemma RowMore(row: Table, m: Code)
    requires row.Row?
    ensures More(m, MarkRow(row, m)) && forall i :: 0 <= i < 64 && row.mask[i] ==> MarkRow(row, m)[0][i]
  {
  }

  lemma {:induction false} AtomsMore(atoms: Atoms, x: Code, vi: VarInfo, m: Code)
    requires ValidAtoms(atoms)
    ensures More(m, AtomsMask(atoms, x, vi, m))
    decreases atoms
  {
    hide More, AtomMask;
    if atoms.ACons? {
      AtomMore(atoms.head, x, vi, m);
      AtomsMore(atoms.tail, x, vi, AtomMask(atoms.head, x, vi, m));
      MoreTrans(m, AtomMask(atoms.head, x, vi, m), AtomsMask(atoms, x, vi, m));
    } else {
      MoreTrans(m, m, m);
    }
  }

  lemma MoreTrans(m0: Code, m1: Code, m2: Code)
    ensures More(m0, m0) && (More(m0, m1) && More(m1, m2) ==> More(m0, m2))
  {
  }

  lemma {:induction false} AtomMore(atom: Atom, x: Code, vi: VarInfo, m: Code)
    requires ValidAtom(atom)
    ensures More(m, AtomMask(atom, x, vi, m))
    decreases atom
  {
    hide More, MarkSbf;
    MoreTrans(m, m, m);
    match atom {
      case TabAtom(t) =>
        var row := FirstRow(t, x, vi);
        RowMore(row, m);
        AtomsMore(row.atoms, x, vi, MarkRow(row, m));
        MoreTrans(m, MarkRow(row, m), TabMask(t, x, vi, m));
      case IgnoreAtom(f) => MarkMore(f, m);
      case ImmAtom(bf) => PiecesMore(bf.s0, bf.s1, m);
      case RImmAtom(bf, _) => PiecesMore(bf.s0, bf.s1, m);
      case RegAtom(reg) =>
        if reg.bf.Some? {
          PiecesMore(reg.bf.value.s0, reg.bf.value.s1, m);
        }
      case _ =>
    }
  }

  lemma PiecesMore(s0: Sbf, s1: Sbf, m: Code)
    requires FitsSbf(s0) && FitsSbf(s1)
    ensures More(m, MarkPieces(s0, s1, m)) && Covers(MarkPieces(s0, s1, m), s0) && Covers(MarkPieces(s0, s1, m), s1)
  {
    hide MarkSbf;
    MarkMore(s0, m);
    MarkMore(s1, MarkSbf(s0, m));
  }

  /** `y` takes the rows that `x` takes, in all tables on the walk. */
  predicate SameRows(t: Table, x: Code, y: Code, vi: VarInfo)
    requires ValidTable(t)
    decreases t, 1
  {
    FirstRow(t, x, vi) == FirstRow(t, y, vi) && SameRowsAtoms(FirstRow(t, x, vi).atoms, x, y, vi)
  }

  predicate SameRowsAtoms(atoms: Atoms, x: Code, y: Code, vi: VarInfo)
    requires ValidAtoms(atoms)
    decreases atoms
  {
    atoms.ACons? ==> SameRowsAtom(atoms.head, x, y, vi) && SameRowsAtoms(atoms.tail, x, y, vi)
  }

  predicate SameRowsAtom(atom: Atom, x: Code, y: Code, vi: VarInfo)
    requires ValidAtom(atom)
    decreases atom
  {
    match atom
    case TabAtom(t) => SameRows(t, x, y, vi)
    case _ => true
  }

  lemma {:induction false} SameReading(atoms: Atoms, x: Code, y: Code, vi: VarInfo, m: Code, mask: Code)
    requires ValidAtoms(atoms) && SameRowsAtoms(atoms, x, y, vi)
    requires More(AtomsMask(atoms, x, vi, m), mask) && Agrees(y, x, mask)
    ensures DisAtoms(atoms, y, vi) == DisAtoms(atoms, x, vi) && AtomsMask(atoms, y, vi, m) == AtomsMask(atoms, x, vi, m)
    decreases atoms
  {
    hide More, Agrees, AtomMask, DisAtom;
    if atoms.ACons? {
      var m' := AtomMask(atoms.head, x, vi, m);
      AtomsMore(atoms.tail, x, vi, m');
      MoreTrans(m', AtomsMask(atoms, x, vi, m), mask);
      SameAtom(atoms.head, x, y, vi, m, mask);
      SameReading(atoms.tail, x, y, vi, m', mask);
    }
  }

  lemma {:induction false} SameAtom(atom: Atom, x: Code, y: Code, vi: VarInfo, m: Code, mask: Code)
    requires ValidAtom(atom) && SameRowsAtom(atom, x, y, vi)
    requires More(AtomMask(atom, x, vi, m), mask) && Agrees(y, x, mask)
    ensures DisAtom(atom, y, vi) == DisAtom(atom, x, vi) && AtomMask(atom, y, vi, m) == AtomMask(atom, x, vi, m)
    decreases atom
  {
    hide More, Agrees, MarkSbf, GetBf, GetRbf, Covers;
    match atom {
      case TabAtom(t) =>
        var row := FirstRow(t, x, vi);
        SameReading(row.atoms, x, y, vi, MarkRow(row, m), mask);
      case ImmAtom(bf) => SameField(bf, x, y, m, mask);
      case RImmAtom(bf, _) =>
        PiecesMore(bf.s0, bf.s1, m);
        CoversMore(MarkPieces(bf.s0, bf.s1, m), mask, bf.s0);
        CoversMore(MarkPieces(bf.s0, bf.s1, m), mask, bf.s1);
        SameRbf(bf, y, x, mask, Zero());
      case RegAtom(reg) =>
        if reg.bf.Some? {
          SameField(reg.bf.value, x, y, m, mask);
        }
      case _ =>
    }
  }

  lemma CoversMore(m0: Code, m1: Code, f: Sbf)
    requires FitsSbf(f) && More(m0, m1) && Covers(m0, f)
    ensures Covers(m1, f)
  {
  }

  lemma SameField(bf: Bitfield, x: Code, y: Code, m: Code, mask: Code)
    requires ValidBf(bf) && More(MarkPieces(bf.s0, bf.s1, m), mask) && Agrees(y, x, mask)
    ensures GetBf(bf, y) == GetBf(bf, x)
  {
    hide More, Agrees, MarkSbf, GetBf, Covers;
    PiecesMore(bf.s0, bf.s1, m);
    CoversMore(MarkPieces(bf.s0, bf.s1, m), mask, bf.s0);
    CoversMore(MarkPieces(bf.s0, bf.s1, m), mask, bf.s1);
    SameBf(bf, y, x, mask);
  }

  /** The bits that are not reported are enough: an opcode that has them and takes the
      same rows gives the same tokens, length and mask. */
  lemma UsedBitsDecide(root: Table, x: Code, y: Code, vi: VarInfo)
    requires ValidTable(root) && SameRows(root, x, y, vi) && Agrees(y, x, TabMask(root, x, vi, Blank()))
    ensures DisTab(root, y, vi) == DisTab(root, x, vi)
    ensures TabMask(root, y, vi, Blank()) == TabMask(root, x, vi, Blank())
  {
    hide Agrees, AtomsMask, DisAtoms;
    var row := FirstRow(root, x, vi);
    MoreTrans(TabMask(root, x, vi, Blank()), Blank(), Blank());
    SameReading(row.atoms, x, y, vi, MarkRow(row, Blank()), TabMask(root, x, vi, Blank()));
  }

  // ---------------------------------------------------------------------
  // Reported bits that matter
  // ---------------------------------------------------------------------

  /** One unit long, and only a name. */
  function Named(name: string): Atoms { ACons(OpLenAtom(1), ACons(NameAtom(name), ANil)) }

  /** A row that asks for a clear bit, and the catch-all row. */
  function TwoRows(): Table {
    Row(Zero(), OneHot(0), Named("clear"), {}, {}, Row(Zero(), Zero(), Named("other"), {}, {}, TNil))
  }

  /** That it takes the same rows is needed: here the one bit of the opcode is reported as
      unknown, and without it the opcode is another instruction. */
  lemma UnknownBitMatters(vi: VarInfo)
    ensures ValidTable(TwoRows())
    ensures var x := [OneHot(0), Zero()];
            && TabMask(TwoRows(), x, vi, Blank()) == Blank()
            && DisTab(TwoRows(), x, vi) == Reading([NameItem("other", false)], Some(1), false)
    ensures DisTab(TwoRows(), Blank(), vi) == Reading([NameItem("clear", false)], Some(1), false)
  {
    var t, x := TwoRows(), [OneHot(0), Zero()];
    assert OneHot(0)[0] && !Zero()[0];
    assert Words.And(Zero(), OneHot(0)) == Zero() && Words.And(Zero(), Zero()) == Zero();
    NamedReads("other", x, vi);
    NamedReads("clear", Blank(), vi);
    assert ValidTable(t.next) && IsLast(t.next);
    assert ValidTable(t);
    assert Words.And(OneHot(0), OneHot(0)) == OneHot(0) != Zero() && Words.And(OneHot(0), Zero()) == Zero();
    assert FirstRow(t, x, vi) == t.next && FirstRow(t, Blank(), vi) == t;
    assert Words.Or(Zero(), Zero()) == Zero() && MarkRow(t.next, Blank()) == Blank();
  }

  lemma NamedReads(name: string, x: Code, vi: VarInfo)
    ensures ValidAtoms(Named(name)) && DisAtoms(Named(name), x, vi) == Reading([NameItem(name, false)], Some(1), false)
    ensures forall m :: AtomsMask(Named(name), x, vi, m) == m
  {
    assert ValidAtom(NameAtom(name)) && ValidAtoms(ANil);
    var tail := ACons(NameAtom(name), ANil);
    assert ValidAtoms(tail) && ValidAtom(OpLenAtom(1));
    var name' := Token(NameItem(name, false));
    ThenNothing(name');
    StepReads(NameAtom(name), ANil, x, vi);
    StepReads(OpLenAtom(1), tail, x, vi);
    forall m ensures AtomsMask(Named(name), x, vi, m) == m {
      assert AtomsMask(tail, x, vi, m) == m;
    }
  }

  lemma StepReads(head: Atom, tail: Atoms, x: Code, vi: VarInfo)
    requires ValidAtom(head) && ValidAtoms(tail)
    ensures DisAtoms(ACons(head, tail), x, vi) == Then(DisAtom(head, x, vi), DisAtoms(tail, x, vi))
  {
    hide DisAtom, Then;
  }

  lemma ThenNothing(r: Reading)
    ensures Then(r, Nothing()) == r
    ensures Then(Reading([], Some(1), false), r) ==
            Reading(r.items, if r.oplen.Some? then r.oplen else Some(1), r.endmark)
  {
    assert r.items + [] == r.items && [] + r.items == r.items;
  }
}
