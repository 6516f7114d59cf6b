/** Assembled macro code: every encoding is one word and fixes bits of that word only, so
    the bytes that are written decide what the disassembler reads. */
module MacroEmitted {
  import opened Options
  import opened Words
  import opened Exprs
  import opened Fields
  import opened Relocs
  import opened Registers
  import opened Tables
  import opened AsmSound
  import opened Sections
  import opened Layout
  import opened LayoutRun
  import opened LayoutFacts
  import opened MaskBounds
  import MacroIsa

  lemma {:induction false} TameShortTable(t: Table)
    requires MacroIsa.TameTable(t)
    ensures ShortTable(t, 32)
    decreases t
  {
    if t.Row? {
      TameShortAtoms(t.atoms);
      TameShortTable(t.next);
    }
  }

  lemma {:induction false} TameShortAtoms(atoms: Atoms)
    requires MacroIsa.TameAtoms(atoms)
    ensures ShortAtoms(atoms, 32)
    decreases atoms
  {
    if atoms.ACons? {
      if atoms.head.TabAtom? {
        TameShortTable(atoms.head.tab);
      }
      TameShortAtoms(atoms.tail);
    }
  }

  /** Nothing tame sets a length. */
  lemma {:induction false} TameTableLen(t: Table, items: seq<Item>, spos: nat, vi: VarInfo, r: Match)
    requires ValidTable(t) && MacroIsa.TameTable(t) && r in TabA(t, items, spos, vi)
    ensures r.oplen == 0
    decreases t, 1
  {
    hide TabA, TabDesc;
    var row := TabFrom(t, items, spos, vi, r);
    TameRow(t, row);
    TameAtomsLen(RowStart(row, spos), row.atoms, items, vi, r);
  }

  lemma {:induction false} TameRow(t: Table, row: Table)
    requires ValidTable(t) && RowOf(row, t) && MacroIsa.TameTable(t)
    ensures row.Row? && MacroIsa.TameTable(row)
    decreases t
  {
    if row != t {
      TameRow(t.next, row);
    }
  }

  lemma {:induction false} TameAtomsLen(m: Match, atoms: Atoms, items: seq<Item>, vi: VarInfo, r: Match)
    requires ValidAtoms(atoms) && MacroIsa.TameAtoms(atoms)
    requires TabDesc(m, atoms, items, vi).Some? && r in TabDesc(m, atoms, items, vi).value
    ensures r.oplen == m.oplen
    decreases atoms, 0
  {
    hide AtomA, MergeMatches, DescAll;
    if atoms.ACons? {
      var ms := AtomA(atoms.head, items, m.lpos, vi).value;
      var mid := DescFrom(MergeMatches(m, ms), atoms.tail, items, vi, r);
      var b := MergeFrom(m, ms, mid);
      if atoms.head.TabAtom? {
        TableMatches(atoms.head.tab, items, m.lpos, vi);
        TameTableLen(atoms.head.tab, items, m.lpos, vi, b);
      } else {
        PlainLength(atoms.head, items, m.lpos, vi, b);
      }
      TameAtomsLen(mid, atoms.tail, items, vi, r);
    }
  }

  lemma PlainLength(atom: Atom, items: seq<Item>, spos: nat, vi: VarInfo, b: Match)
    requires ValidAtom(atom) && !atom.TabAtom?
    requires AtomA(atom, items, spos, vi).Some? && b in AtomA(atom, items, spos, vi).value
    ensures b.oplen == (if atom.OpLenAtom? then atom.len else 0)
  {
    hide SetBf, FillRbf, NamedNum;
  }

  /** Every encoding is one word long. */
  lemma MacroLength(items: seq<Item>, vi: VarInfo, mt: Match)
    requires mt in DoAs(MacroIsa.Root(), items, vi)
    ensures mt.oplen == 1
  {
    hide TabA, TabDesc, MacroIsa.Rest;
    var root := MacroIsa.Root();
    MacroIsa.RootGood(vi);
    CompleteIn(TabA(root, items, 0, vi), |items|, mt);
    var row := TabFrom(root, items, 0, vi, mt);
    OnlyRow(root, row, ACons(OpLenAtom(1), MacroIsa.Rest()));
    LengthFirst(RowStart(row, 0), MacroIsa.Rest(), items, vi, mt);
  }

  lemma OnlyRow(t: Table, row: Table, atoms: Atoms)
    requires t == Row(Zero(), Zero(), atoms, {}, {}, TNil) && RowOf(row, t) && ValidTable(t)
    ensures row == t
  {
  }

  lemma LengthFirst(m: Match, rest: Atoms, items: seq<Item>, vi: VarInfo, r: Match)
    requires ValidAtoms(rest) && MacroIsa.TameAtoms(rest)
    requires TabDesc(m, ACons(OpLenAtom(1), rest), items, vi).Some?
    requires r in TabDesc(m, ACons(OpLenAtom(1), rest), items, vi).value
    ensures r.oplen == 1
  {
    hide AtomA, MergeMatches, DescAll;
    var ms := AtomA(OpLenAtom(1), items, m.lpos, vi).value;
    var mid := DescFrom(MergeMatches(m, ms), rest, items, vi, r);
    var b := MergeFrom(m, ms, mid);
    PlainLength(OpLenAtom(1), items, m.lpos, vi, b);
    TameAtomsLen(mid, rest, items, vi, r);
  }

  lemma RootShort()
    ensures ShortTable(MacroIsa.Root(), 32)
  {
    hide MacroIsa.Rest;
    MacroIsa.RootGood(VarInfo({}, None));
    TameShortAtoms(MacroIsa.Rest());
    ShortOnly(MacroIsa.Root(), MacroIsa.Rest());
  }

  lemma ShortOnly(t: Table, rest: Atoms)
    requires t == Row(Zero(), Zero(), ACons(OpLenAtom(1), rest), {}, {}, TNil) && ShortAtoms(rest, 32)
    ensures ShortTable(t, 32)
  {
    assert ShortAtom(OpLenAtom(1), 32) && ShortTable(TNil, 32);
    assert ShortAtoms(ACons(OpLenAtom(1), rest), 32);
  }

  /** Assembled macro code reads as its source: after a successful layout, every opcode
      that starts with the four bytes written at an instruction's place reads along the
      rows of its encoding as the tokens of the line, without any further condition. */
  lemma MacroCodeReadsAsSource(lines: seq<Line>, im: seq<seq<Match>>, labels: map<string, Word>,
                               sections: seq<Section>, k: nat, items: seq<Item>, vi: VarInfo)
    returns (row: Table, path: Path)
    requires DoneUpTo(|lines|, lines, im, Lens(im, 4), 4, labels, sections)
    requires k < |lines| && lines[k].InsnLine? && im[k] != [] && im[k][0] in DoAs(MacroIsa.Root(), items, vi)
    ensures ScanTo(lines, Lens(im, 4), 4, k).Some? && ValidPlace(ScanTo(lines, Lens(im, 4), 4, k).value.place)
    ensures var p := ScanTo(lines, Lens(im, 4), 4, k).value.place;
            && p.cur < |sections|
            && (exists x :: Stands(sections[p.cur].code, Offset(p), CodeBytes(x, 4)))
            && forall x :: Stands(sections[p.cur].code, Offset(p), CodeBytes(x, 4)) ==>
                 ReadsBack(MacroIsa.Root(), row, path, x, items, 1, vi, Address(p, 4), labels)
  {
    hide ReadsBack, CodeBytes, DoAs, Stands, ShortTable, MacroIsa.Root, ScanTo, Address, Offset;
    MacroLength(items, vi, im[k][0]);
    RootShort();
    row, path := ShortCodeReadsAsSource(lines, im, 4, labels, sections, k, MacroIsa.Root(), items, vi);
  }
}
