/** Which bits an encoding can fix: only those that some row or field of the table
    names. */
module MaskBounds {
  import opened Options
  import opened Words
  import opened Exprs
  import opened Fields
  import opened Relocs
  import opened Registers
  import opened Tables
  import opened AsmSound
  import opened Sections
  import opened Layout
  import opened LayoutRun
  import opened LayoutFacts

  // ---------------------------------------------------------------------
  // Tables whose rows and fields end early
  // ---------------------------------------------------------------------

  /** The piece is empty or ends within the first `n` bits. */
  predicate ShortSbf(f: Sbf, n: nat) { f.len == 0 || f.pos + f.len <= n }

  predicate ShortRbf(bf: RBitfield, n: nat) { ShortSbf(bf.s0, n) && ShortSbf(bf.s1, n) }

  predicate ShortBf(bf: Bitfield, n: nat) { ShortSbf(bf.s0, n) && ShortSbf(bf.s1, n) }

  ghost predicate ShortTable(t: Table, n: nat) {
    t.Row? ==> (forall i :: n <= i < 64 ==> !t.mask[i]) && ShortAtoms(t.atoms, n) && ShortTable(t.next, n)
  }

  ghost predicate ShortAtoms(atoms: Atoms, n: nat) {
    atoms.ACons? ==> ShortAtom(atoms.head, n) && ShortAtoms(atoms.tail, n)
  }

  ghost predicate ShortAtom(atom: Atom, n: nat) {
    match atom
    case TabAtom(t) => ShortTable(t, n)
    case ImmAtom(bf) => ShortBf(bf, n)
    case RImmAtom(bf, _) => ShortRbf(bf, n)
    case RegAtom(reg) => reg.bf.Some? ==> ShortBf(reg.bf.value, n)
    case _ => true
  }

  /** The mask ends within the first `n` bits. */
  ghost predicate ShortMask(m: Code, n: nat) { forall b :: n <= b < 128 ==> !BitOf(m, b) }

  ghost predicate ShortMatch(mt: Match, n: nat) {
    ShortMask(mt.m, n) && forall r :: r in mt.relocs ==> ShortRbf(r.bf, n)
  }

  // ---------------------------------------------------------------------
  // Nothing else is ever fixed
  // ---------------------------------------------------------------------

  lemma MarkShort(f: Sbf, m: Code, n: nat)
    requires FitsSbf(f) && ShortSbf(f, n) && ShortMask(m, n)
    ensures ShortMask(MarkSbf(f, m), n)
  {
    hide MarkSbf;
    forall b | n <= b < 128 ensures !BitOf(MarkSbf(f, m), b) {
      MarkSbfBit(f, m, b);
    }
  }

  lemma SetShort(a: Code, m: Code, f: Sbf, num: Word, n: nat)
    requires FitsSbf(f) && ShortSbf(f, n) && ShortMask(m, n)
    ensures ShortMask(SetSbf(a, m, f, num).m, n)
  {
    MarkShort(f, m, n);
    SetWithinMark(a, m, f, num);
    forall b | n <= b < 128 ensures !BitOf(SetSbf(a, m, f, num).m, b) {
      assert !BitOf(MarkSbf(f, m), b);
    }
  }

  /** A write fixes no more than the bits of its piece, even when it is refused. */
  lemma SetWithinMark(a: Code, m: Code, f: Sbf, num: Word)
    requires FitsSbf(f)
    ensures forall b :: 0 <= b < 128 && BitOf(SetSbf(a, m, f, num).m, b) ==> BitOf(MarkSbf(f, m), b)
  {
  }

  lemma PiecesShort(a: Code, m: Code, s0: Sbf, s1: Sbf, num: Word, n: nat)
    requires FitsSbf(s0) && FitsSbf(s1) && ShortSbf(s0, n) && ShortSbf(s1, n) && ShortMask(m, n)
    ensures ShortMask(SetPieces(a, m, s0, s1, num).1, n)
  {
    hide SetSbf, MarkSbf, ShortMask, ShortSbf;
    var r0 := SetSbf(a, m, s0, num);
    var r1 := SetSbf(r0.a, r0.m, s1, Shr(num, s0.len));
    SetShort(a, m, s0, num, n);
    SetShort(r0.a, r0.m, s1, Shr(num, s0.len), n);
    MarkShort(s0, r1.m, n);
    MarkShort(s1, MarkSbf(s0, r1.m), n);
  }

  lemma BlankShort(n: nat)
    ensures ShortMask(Blank(), n)
  {
  }

  lemma AtomShort(atom: Atom, items: seq<Item>, spos: nat, vi: VarInfo, b: Match, n: nat)
    requires ValidAtom(atom) && ShortAtom(atom, n) && !atom.TabAtom?
    requires AtomA(atom, items, spos, vi).Some? && b in AtomA(atom, items, spos, vi).value
    ensures ShortMatch(b, n)
  {
    hide SetPieces, ShortMask, ShortSbf, GetBf, GetRbfAs, Sub, Shr, Xor;
    BlankShort(n);
    match atom {
      case ImmAtom(bf) => SetBfShort(bf, items[spos].e.n, n);
      case RImmAtom(bf, _) =>
        if items[spos].e.Num? && !bf.pcrel {
          FillShort(Blank(), Blank(), bf, items[spos].e.n, Zero(), n);
        }
      case RegAtom(reg) =>
        var num := NamedNum(reg, items[spos].e, reg.specials, vi).value;
        if reg.bf.Some? {
          SetBfShort(reg.bf.value, num, n);
        }
      case _ =>
    }
  }

  lemma SetBfShort(bf: Bitfield, num: Word, n: nat)
    requires ValidBf(bf) && ShortBf(bf, n)
    ensures ShortMask(SetBf(Blank(), Blank(), bf, num).m, n)
  {
    hide SetPieces, ShortMask, ShortSbf, GetBf, FromNat;
    BlankShort(n);
    var unbiased := Xor(Sub(num, bf.addend), bf.xorend);
    if !(bf.mode.Lut? && FindLut(bf.mode.table, unbiased, 0) == |bf.mode.table|) {
      var k := if bf.mode.Lut? then FromNat(FindLut(bf.mode.table, unbiased, 0)) else unbiased;
      PiecesShort(Blank(), Blank(), bf.s0, bf.s1, Shr(k, bf.shr), n);
    }
  }

  lemma FillShort(a: Code, m: Code, bf: RBitfield, val: Word, pos: Word, n: nat)
    requires ValidRbf(bf) && ShortRbf(bf, n) && ShortMask(m, n)
    ensures ShortMask(FillRbf(a, m, bf, val, pos).m, n)
  {
    hide SetPieces, ShortMask, ShortSbf, GetRbfAs, PosBase;
    var num := Sub(val, bf.addend);
    PiecesShort(a, m, bf.s0, bf.s1, Shr(if bf.pcrel then Sub(num, PosBase(bf, pos)) else num, bf.shr), n);
  }

  lemma MergeShort(a: Match, b: Match, n: nat)
    requires ShortMatch(a, n) && ShortMatch(b, n)
    ensures ShortMatch(Merge(a, b), n)
  {
    var m := Merge(a, b).m;
    forall i | n <= i < 128 ensures !BitOf(m, i) {
      assert !BitOf(a.m, i) && !BitOf(b.m, i);
    }
  }

  lemma {:induction false} TableShort(t: Table, items: seq<Item>, spos: nat, vi: VarInfo, r: Match, n: nat)
    requires ValidTable(t) && ShortTable(t, n) && r in TabA(t, items, spos, vi)
    ensures ShortMatch(r, n)
    decreases t, 1
  {
    hide ShortMatch, TabA, TabDesc;
    var row := TabFrom(t, items, spos, vi, r);
    ShortRow(t, row, n);
    StartShort(row, spos, n);
    AtomsShort(RowStart(row, spos), row.atoms, items, vi, r, n);
  }

  lemma StartShort(row: Table, spos: nat, n: nat)
    requires row.Row? && forall i :: n <= i < 64 ==> !row.mask[i]
    ensures ShortMatch(RowStart(row, spos), n)
  {
  }

  lemma {:induction false} ShortRow(t: Table, row: Table, n: nat)
    requires ValidTable(t) && RowOf(row, t) && ShortTable(t, n)
    ensures row.Row? && ShortTable(row, n)
    decreases t
  {
    if row != t {
      ShortRow(t.next, row, n);
    }
  }

  /** So it is with all that extends a match. */
  lemma {:induction false} AtomsShort(m: Match, atoms: Atoms, items: seq<Item>, vi: VarInfo, r: Match, n: nat)
    requires ValidAtoms(atoms) && ShortAtoms(atoms, n) && ShortMatch(m, n)
    requires TabDesc(m, atoms, items, vi).Some? && r in TabDesc(m, atoms, items, vi).value
    ensures ShortMatch(r, n)
    decreases atoms, 0
  {
    hide ShortMatch, AtomA, MergeMatches, DescAll;
    if atoms.ACons? {
      var ms := AtomA(atoms.head, items, m.lpos, vi).value;
      var mid := DescFrom(MergeMatches(m, ms), atoms.tail, items, vi, r);
      var b := MergeFrom(m, ms, mid);
      if atoms.head.TabAtom? {
        TableMatches(atoms.head.tab, items, m.lpos, vi);
        TableShort(atoms.head.tab, items, m.lpos, vi, b, n);
      } else {
        AtomShort(atoms.head, items, m.lpos, vi, b, n);
      }
      MergeShort(m, b, n);
      AtomsShort(mid, atoms.tail, items, vi, r, n);
    }
  }

  lemma TableMatches(t: Table, items: seq<Item>, spos: nat, vi: VarInfo)
    requires ValidTable(t)
    ensures AtomA(TabAtom(t), items, spos, vi) == Some(TabA(t, items, spos, vi))
  {
    hide TabA;
  }

  lemma {:induction false} ResolveShort(a: Code, m: Code, relocs: seq<Reloc>, pos: Word, labels: map<string, Word>,
                                        n: nat)
    requires (forall r :: r in relocs ==> ValidRbf(r.bf) && ShortRbf(r.bf, n)) && ShortMask(m, n)
    ensures var r := ResolveFrom(a, m, relocs, pos, labels); r.Fits? ==> ShortMask(r.m, n)
    decreases |relocs|
  {
    hide FillRbf, ShortMask, ShortRbf, Eval;
    if relocs != [] && Eval(relocs[0].expr, LabelEnv(labels)).Some? {
      var v := Eval(relocs[0].expr, LabelEnv(labels)).value;
      var r := FillRbf(a, m, relocs[0].bf, v, pos);
      FillShort(a, m, relocs[0].bf, v, pos, n);
      if r.ok {
        ResolveShort(r.a, r.m, relocs[1..], pos, labels, n);
      }
    }
  }

  /** The bits that an encoding fixes are bits that the table names. */
  lemma MaskStaysShort(root: Table, items: seq<Item>, vi: VarInfo, mt: Match, pos: Word, labels: map<string, Word>,
                       n: nat)
    requires ValidTable(root) && ShortTable(root, n) && mt in DoAs(root, items, vi)
    ensures ValidRelocs(mt) && (Resolve(mt, pos, labels).Fits? ==> ShortMask(Resolve(mt, pos, labels).m, n))
  {
    hide ShortMask, ShortRbf, TabA, ShortTable, ResolveFrom;
    CompleteIn(TabA(root, items, 0, vi), |items|, mt);
    var row, path := AssemblerSound(root, items, vi, mt);
    TableShort(root, items, 0, vi, mt, n);
    ResolveShort(mt.a, mt.m, mt.relocs, pos, labels, n);
  }

  /** Where no row or field of the table reaches beyond an encoding, the bytes written
      decide what is read: every opcode that starts with them reads along the rows of the
      encoding as the source line. */
  lemma ShortCodeReadsAsSource(lines: seq<Line>, im: seq<seq<Match>>, stride: nat, labels: map<string, Word>,
                               sections: seq<Section>, k: nat, root: Table, items: seq<Item>, vi: VarInfo)
    returns (row: Table, path: Path)
    requires DoneUpTo(|lines|, lines, im, Lens(im, stride), stride, labels, sections)
    requires k < |lines| && lines[k].InsnLine? && im[k] != []
    requires ValidTable(root) && im[k][0] in DoAs(root, items, vi) && ShortTable(root, 8 * (im[k][0].oplen * stride))
    ensures ScanTo(lines, Lens(im, stride), stride, k).Some?
    ensures ValidPlace(ScanTo(lines, Lens(im, stride), stride, k).value.place)
    ensures var p := ScanTo(lines, Lens(im, stride), stride, k).value.place;
            var n := im[k][0].oplen * stride;
            && p.cur < |sections| && n <= 8 * MAXOPLEN
            && (exists x :: Stands(sections[p.cur].code, Offset(p), CodeBytes(x, n)))
            && forall x :: Stands(sections[p.cur].code, Offset(p), CodeBytes(x, n)) ==>
                 ReadsBack(root, row, path, x, items, im[k][0].oplen, vi, Address(p, stride), labels)
  {
    hide ReadsBack, CodeBytes, DoneUpTo, DoAs, Resolve, Stands, ShortTable;
    var mask;
    mask, row, path := EmittedCodeReadsAsSource(lines, im, stride, labels, sections, k, root, items, vi);
    DoneAt(lines, im, stride, labels, sections, k);
    var n := im[k][0].oplen * stride;
    var pos := Address(ScanTo(lines, Lens(im, stride), stride, k).value.place, stride);
    MaskStaysShort(root, items, vi, im[k][0], pos, labels, 8 * n);
  }
}
