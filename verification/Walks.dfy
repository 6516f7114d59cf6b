/** What the disassembler meets on its walk through the tables, row by row and atom by atom,
    and what that comes to: the end mark, the length, the bits looked at, the targets. */
module Walks {
  import opened Options
  import opened Words
  import opened Exprs
  import opened Fields
  import opened Relocs
  import opened Registers
  import opened Tables
  import opened UsedBits
  import opened DisBlock

  datatype Met = MetRow(mask: Word) | MetAtom(atom: Atom)

  function Walk(t: Table, x: Code, vi: VarInfo): seq<Met>
    requires ValidTable(t)
    decreases t, 1
  {
    var row := FirstRow(t, x, vi);
    [MetRow(row.mask)] + WalkAtoms(row.atoms, x, vi)
  }

  function WalkAtoms(atoms: Atoms, x: Code, vi: VarInfo): seq<Met>
    requires ValidAtoms(atoms)
    decreases atoms
  {
    if atoms.ANil? then [] else WalkAtom(atoms.head, x, vi) + WalkAtoms(atoms.tail, x, vi)
  }

  function WalkAtom(atom: Atom, x: Code, vi: VarInfo): seq<Met>
    requires ValidAtom(atom)
    decreases atom
  {
    if atom.TabAtom? then Walk(atom.tab, x, vi) else [MetAtom(atom)]
  }

  lemma InBoth(a: seq<Met>, b: seq<Met>)
    ensures forall e :: e in a + b <==> e in a || e in b
  {
  }

  // ---------------------------------------------------------------------
  // End mark and length
  // ---------------------------------------------------------------------

  /** The last length on the walk, if there is one. */
  ghost predicate LastLength(w: seq<Met>, oplen: Option<nat>) {
    match oplen
    case None => forall k :: 0 <= k < |w| ==> !IsLength(w[k])
    case Some(n) =>
      exists k :: 0 <= k < |w| && w[k] == MetAtom(OpLenAtom(n)) && forall j :: k < j < |w| ==> !IsLength(w[j])
  }

  predicate IsLength(e: Met) { e.MetAtom? && e.atom.OpLenAtom? }

  lemma LengthJoins(a: seq<Met>, b: seq<Met>, r: Option<nat>, s: Option<nat>)
    requires LastLength(a, r) && LastLength(b, s)
    ensures LastLength(a + b, if s.Some? then s else r)
  {
    var w := a + b;
    forall k | |a| <= k < |w| ensures w[k] == b[k - |a|] {
    }
    if s.Some? {
      var k :| 0 <= k < |b| && b[k] == MetAtom(OpLenAtom(s.value)) && forall j :: k < j < |b| ==> !IsLength(b[j]);
      assert w[|a| + k] == b[k];
    } else if r.Some? {
      var k :| 0 <= k < |a| && a[k] == MetAtom(OpLenAtom(r.value)) && forall j :: k < j < |a| ==> !IsLength(a[j]);
      assert w[k] == a[k];
    }
  }

  lemma LengthOf(e: Met)
    ensures LastLength([e], if IsLength(e) then Some(e.atom.len) else None)
  {
    assert [e][0] == e;
  }

  lemma NoLength()
    ensures LastLength([], None)
  {
  }

  ghost predicate ReadingFits(w: seq<Met>, r: Reading) {
    LastLength(w, r.oplen) && (r.endmark <==> MetAtom(EndMarkAtom) in w)
  }

  lemma FitsJoins(a: seq<Met>, b: seq<Met>, r: Reading, s: Reading)
    requires ReadingFits(a, r) && ReadingFits(b, s)
    ensures ReadingFits(a + b, Then(r, s))
  {
    hide LastLength;
    LengthJoins(a, b, r.oplen, s.oplen);
    InBoth(a, b);
  }

  /** An instruction is as long as the last length on the walk says, and ends a run of code
      exactly if an end mark was met. */
  lemma {:induction false} WalkReads(t: Table, x: Code, vi: VarInfo)
    requires ValidTable(t)
    ensures LastLength(Walk(t, x, vi), DisTab(t, x, vi).oplen)
    ensures DisTab(t, x, vi).endmark <==> MetAtom(EndMarkAtom) in Walk(t, x, vi)
    decreases t, 1
  {
    hide LastLength;
    var row := FirstRow(t, x, vi);
    AtomsRead(row.atoms, x, vi);
    LengthOf(MetRow(row.mask));
    FitsJoins([MetRow(row.mask)], WalkAtoms(row.atoms, x, vi), Nothing(), DisAtoms(row.atoms, x, vi));
  }

  lemma {:induction false} AtomsRead(atoms: Atoms, x: Code, vi: VarInfo)
    requires ValidAtoms(atoms)
    ensures ReadingFits(WalkAtoms(atoms, x, vi), DisAtoms(atoms, x, vi))
    decreases atoms
  {
    hide LastLength;
    NoLength();
    if atoms.ACons? {
      AtomReads(atoms.head, x, vi);
      AtomsRead(atoms.tail, x, vi);
      FitsJoins(WalkAtom(atoms.head, x, vi), WalkAtoms(atoms.tail, x, vi), DisAtom(atoms.head, x, vi),
                DisAtoms(atoms.tail, x, vi));
    }
  }

  lemma {:induction false} AtomReads(atom: Atom, x: Code, vi: VarInfo)
    requires ValidAtom(atom)
    ensures ReadingFits(WalkAtom(atom, x, vi), DisAtom(atom, x, vi))
    decreases atom
  {
    hide LastLength;
    if atom.TabAtom? {
      WalkReads(atom.tab, x, vi);
    } else {
      LengthOf(MetAtom(atom));
    }
  }

  // ---------------------------------------------------------------------
  // The bits looked at
  // ---------------------------------------------------------------------

  predicate InPiece(f: Sbf, b: nat) { f.pos <= b < f.pos + f.len }

  /** The bit belongs to the row's mask or to the atom's field. */
  predicate Names(e: Met, b: nat) {
    match e
    case MetRow(mask) => b < 64 && mask[b]
    case MetAtom(IgnoreAtom(f)) => InPiece(f, b)
    case MetAtom(ImmAtom(bf)) => InPiece(bf.s0, b) || InPiece(bf.s1, b)
    case MetAtom(RImmAtom(bf, _)) => InPiece(bf.s0, b) || InPiece(bf.s1, b)
    case MetAtom(RegAtom(reg)) => reg.bf.Some? && (InPiece(reg.bf.value.s0, b) || InPiece(reg.bf.value.s1, b))
    case _ => false
  }

  ghost predicate Named(w: seq<Met>, b: nat) { exists e :: e in w && Names(e, b) }

  lemma NamedJoins(u: seq<Met>, w: seq<Met>, b: nat)
    ensures Named(u + w, b) <==> Named(u, b) || Named(w, b)
  {
    hide Names;
    InBoth(u, w);
    if Named(u, b) {
      var e :| e in u && Names(e, b);
      assert e in u + w;
    }
    if Named(w, b) {
      var e :| e in w && Names(e, b);
      assert e in u + w;
    }
  }

  lemma NamedOne(e: Met, b: nat)
    ensures Named([e], b) <==> Names(e, b)
  {
    hide Names;
    assert e in [e];
  }

  /** Exactly the bits are marked that a row or a field on the walk names. */
  lemma {:induction false} MarksExactly(t: Table, x: Code, vi: VarInfo, m: Code, b: nat)
    requires ValidTable(t) && b < 128
    ensures BitOf(TabMask(t, x, vi, m), b) <==> BitOf(m, b) || Named(Walk(t, x, vi), b)
    decreases t, 1
  {
    hide Named, Names, MarkRow;
    var row := FirstRow(t, x, vi);
    RowMarks(row, m, b);
    NamedOne(MetRow(row.mask), b);
    AtomsMark(row.atoms, x, vi, MarkRow(row, m), b);
    NamedJoins([MetRow(row.mask)], WalkAtoms(row.atoms, x, vi), b);
  }

  lemma RowMarks(row: Table, m: Code, b: nat)
    requires row.Row? && b < 128
    ensures BitOf(MarkRow(row, m), b) <==> BitOf(m, b) || Names(MetRow(row.mask), b)
  {
  }

  lemma {:induction false} AtomsMark(atoms: Atoms, x: Code, vi: VarInfo, m: Code, b: nat)
    requires ValidAtoms(atoms) && b < 128
    ensures BitOf(AtomsMask(atoms, x, vi, m), b) <==> BitOf(m, b) || Named(WalkAtoms(atoms, x, vi), b)
    decreases atoms
  {
    hide AtomMask, BitOf;
    if atoms.ACons? {
      AtomMarks(atoms.head, x, vi, m, b);
      AtomsMark(atoms.tail, x, vi, AtomMask(atoms.head, x, vi, m), b);
      NamedJoins(WalkAtom(atoms.head, x, vi), WalkAtoms(atoms.tail, x, vi), b);
    }
  }

  lemma {:induction false} AtomMarks(atom: Atom, x: Code, vi: VarInfo, m: Code, b: nat)
    requires ValidAtom(atom) && b < 128
    ensures BitOf(AtomMask(atom, x, vi, m), b) <==> BitOf(m, b) || Named(WalkAtom(atom, x, vi), b)
    decreases atom
  {
    hide Named, MarkSbf, BitOf;
    match atom {
      case TabAtom(t) => MarksExactly(t, x, vi, m, b);
      case _ => NamedOne(MetAtom(atom), b);
    }
    match atom {
      case IgnoreAtom(f) => MarkSbfBit(f, m, b);
      case ImmAtom(bf) => PiecesMark(bf.s0, bf.s1, m, b);
      case RImmAtom(bf, _) => PiecesMark(bf.s0, bf.s1, m, b);
      case RegAtom(reg) =>
        if reg.bf.Some? {
          PiecesMark(reg.bf.value.s0, reg.bf.value.s1, m, b);
        }
      case _ =>
    }
  }

  lemma PiecesMark(s0: Sbf, s1: Sbf, m: Code, b: nat)
    requires FitsSbf(s0) && FitsSbf(s1) && b < 128
    ensures BitOf(MarkPieces(s0, s1, m), b) <==> BitOf(m, b) || InPiece(s0, b) || InPiece(s1, b)
  {
    hide MarkSbf, BitOf;
    MarkSbfBit(s0, m, b);
    MarkSbfBit(s1, MarkSbf(s0, m), b);
  }

  // ---------------------------------------------------------------------
  // Targets
  // ---------------------------------------------------------------------

  /** An operand of the kind on the walk goes to `addr`. */
  ghost predicate GoesTo(w: seq<Met>, x: Code, pos: Word, kind: Target, addr: nat) {
    exists bf :: MetAtom(RImmAtom(bf, kind)) in w && ValidRbf(bf) && addr == Val(GetRbfAs(bf, x, pos)) % ADDRESSES
  }

  lemma GoesJoins(u: seq<Met>, w: seq<Met>, x: Code, pos: Word, kind: Target, addr: nat)
    ensures GoesTo(u + w, x, pos, kind, addr) <==> GoesTo(u, x, pos, kind, addr) || GoesTo(w, x, pos, kind, addr)
  {
    hide Val, GetRbfAs;
    InBoth(u, w);
    if GoesTo(u, x, pos, kind, addr) {
      var bf :| MetAtom(RImmAtom(bf, kind)) in u && ValidRbf(bf) && addr == Val(GetRbfAs(bf, x, pos)) % ADDRESSES;
      assert MetAtom(RImmAtom(bf, kind)) in u + w;
    }
    if GoesTo(w, x, pos, kind, addr) {
      var bf :| MetAtom(RImmAtom(bf, kind)) in w && ValidRbf(bf) && addr == Val(GetRbfAs(bf, x, pos)) % ADDRESSES;
      assert MetAtom(RImmAtom(bf, kind)) in u + w;
    }
  }

  /** The addresses that an instruction marks are those that the operands of the kind on its
      walk stand for. */
  lemma {:induction false} TargetsExactly(atoms: Atoms, x: Code, vi: VarInfo, pos: Word, kind: Target, addr: nat)
    requires ValidAtoms(atoms)
    ensures addr in Targets(atoms, x, vi, pos, kind) <==> GoesTo(WalkAtoms(atoms, x, vi), x, pos, kind, addr)
    decreases atoms
  {
    hide GoesTo, AtomTargets, WalkAtom;
    if atoms.ACons? {
      AtomTargetsExactly(atoms.head, x, vi, pos, kind, addr);
      TargetsExactly(atoms.tail, x, vi, pos, kind, addr);
      GoesJoins(WalkAtom(atoms.head, x, vi), WalkAtoms(atoms.tail, x, vi), x, pos, kind, addr);
    } else {
      GoesNowhere(x, pos, kind, addr);
    }
  }

  lemma GoesNowhere(x: Code, pos: Word, kind: Target, addr: nat)
    ensures !GoesTo([], x, pos, kind, addr)
  {
  }

  lemma GoesRow(mask: Word, x: Code, pos: Word, kind: Target, addr: nat)
    ensures !GoesTo([MetRow(mask)], x, pos, kind, addr)
  {
  }

  lemma GoesAtom(atom: Atom, x: Code, pos: Word, kind: Target, addr: nat)
    requires ValidAtom(atom)
    ensures GoesTo([MetAtom(atom)], x, pos, kind, addr) <==>
            atom.RImmAtom? && atom.target == kind && addr == Val(GetRbfAs(atom.rbf, x, pos)) % ADDRESSES
  {
    hide Val, GetRbfAs;
    if atom.RImmAtom? {
      assert MetAtom(RImmAtom(atom.rbf, atom.target)) in [MetAtom(atom)];
    }
  }

  lemma {:induction false} AtomTargetsExactly(atom: Atom, x: Code, vi: VarInfo, pos: Word, kind: Target, addr: nat)
    requires ValidAtom(atom)
    ensures addr in AtomTargets(atom, x, vi, pos, kind) <==> GoesTo(WalkAtom(atom, x, vi), x, pos, kind, addr)
    decreases atom
  {
    hide GoesTo, Marked, GetRbfAs, Val;
    if atom.TabAtom? {
      var row := FirstRow(atom.tab, x, vi);
      TargetsExactly(row.atoms, x, vi, pos, kind, addr);
      GoesRow(row.mask, x, pos, kind, addr);
      GoesJoins([MetRow(row.mask)], WalkAtoms(row.atoms, x, vi), x, pos, kind, addr);
    } else {
      GoesAtom(atom, x, pos, kind, addr);
      if atom.RImmAtom? {
        MarkedAddress(atom.rbf, x, pos);
      }
    }
  }

  /** What code discovery learns of an instruction. */
  lemma InstructionMarks(root: Table, x: Code, vi: VarInfo, pos: Word, opunit: nat, addr: nat)
    requires ValidTable(root)
    ensures var d := Instruction(root, x, vi, pos, opunit);
            var w := Walk(root, x, vi);
            && (addr in d.branches <==> GoesTo(w, x, pos, BranchTarget, addr))
            && (addr in d.calls <==> GoesTo(w, x, pos, CallTarget, addr))
            && (d.endmark <==> MetAtom(EndMarkAtom) in w)
            && exists oplen: Option<nat> ::
                 LastLength(w, oplen) && d.len == if oplen.Some? then oplen.value else opunit
  {
    hide GoesTo, Targets, LastLength, DisTab, WalkAtoms;
    var row := FirstRow(root, x, vi);
    WalkReads(root, x, vi);
    assert LastLength(Walk(root, x, vi), DisTab(root, x, vi).oplen);
    TargetsExactly(row.atoms, x, vi, pos, BranchTarget, addr);
    TargetsExactly(row.atoms, x, vi, pos, CallTarget, addr);
    GoesRow(row.mask, x, pos, BranchTarget, addr);
    GoesRow(row.mask, x, pos, CallTarget, addr);
    GoesJoins([MetRow(row.mask)], WalkAtoms(row.atoms, x, vi), x, pos, BranchTarget, addr);
    GoesJoins([MetRow(row.mask)], WalkAtoms(row.atoms, x, vi), x, pos, CallTarget, addr);
  }
}
