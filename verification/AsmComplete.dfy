/** Completeness of the assembler: whatever the disassembler prints, without a
    `???`, the assembler accepts, and among its candidates is one that the
    original opcode satisfies. */
module AsmComplete {
  import opened Options
  import opened Words
  import opened Exprs
  import opened Fields
  import opened Relocs
  import opened Registers
  import opened Tables
  import opened AsmSound
  import Rewrite

  /** A position-relative operand, once the position is filled in and the
      expression folded, is a number; every other token stays as it is. */
  function Settle(item: Item, pos: Word): Item {
    if item.ExprItem? && Eval(item.e, AtPos(map[], pos)).Some?
    then ExprItem(Num(Eval(item.e, AtPos(map[], pos)).value))
    else item
  }

  function SettleAll(items: seq<Item>, pos: Word): (r: seq<Item>)
    ensures |r| == |items| && forall k :: 0 <= k < |items| ==> r[k] == Settle(items[k], pos)
  {
    seq(|items|, k requires 0 <= k < |items| => Settle(items[k], pos))
  }

  /** How a token reaches the assembler: settled, or cleaned up for printing, with the
      outermost expression marked as a branch or call target or not. */
  ghost predicate Shows(d: Item, item: Item, pos: Word, tidy: bool) {
    if tidy && d.ExprItem? then exists marked :: item == ExprItem(Rewrite.Tidy(d.e, pos, marked))
    else item == Settle(d, pos)
  }

  predicate Known(items: seq<Item>) {
    forall k :: 0 <= k < |items| ==> !(items[k].NameItem? && items[k].isunk)
  }

  function LengthOr(r: Reading, default: nat): nat { if r.oplen.Some? then r.oplen.value else default }

  /** The tokens printed for an atom list stand in `items` from `i` on. */
  ghost predicate Printed(d: seq<Item>, items: seq<Item>, i: nat, pos: Word, tidy: bool) {
    i + |d| <= |items| && forall k :: 0 <= k < |d| ==> Shows(d[k], items[i + k], pos, tidy)
  }

  lemma PrintedSplit(d0: seq<Item>, d1: seq<Item>, items: seq<Item>, i: nat, pos: Word, tidy: bool)
    requires Printed(d0 + d1, items, i, pos, tidy)
    ensures Printed(d0, items, i, pos, tidy) && Printed(d1, items, i + |d0|, pos, tidy)
  {
    hide Shows;
    forall k | 0 <= k < |d0| ensures Shows(d0[k], items[i + k], pos, tidy) {
      assert (d0 + d1)[k] == d0[k];
    }
    forall k | 0 <= k < |d1| ensures Shows(d1[k], items[i + |d0| + k], pos, tidy) {
      assert (d0 + d1)[|d0| + k] == d1[k];
    }
  }

  /** No plain immediate on the disassembler's walk has its top bit set. */
  predicate NoSignTab(t: Table, x: Code, vi: VarInfo)
    requires ValidTable(t)
    decreases t, 1
  {
    NoSign(FirstRow(t, x, vi).atoms, x, vi)
  }

  predicate NoSign(atoms: Atoms, x: Code, vi: VarInfo)
    requires ValidAtoms(atoms)
    decreases atoms
  {
    atoms.ACons? ==> NoSignAtom(atoms.head, x, vi) && NoSign(atoms.tail, x, vi)
  }

  predicate NoSignAtom(atom: Atom, x: Code, vi: VarInfo)
    requires ValidAtom(atom)
    decreases atom
  {
    match atom
    case TabAtom(t) => NoSignTab(t, x, vi)
    case ImmAtom(bf) => !GetBf(bf, x)[63]
    case _ => true
  }

  lemma KnownSplit(d0: seq<Item>, d1: seq<Item>)
    requires Known(d0 + d1)
    ensures Known(d0) && Known(d1)
  {
    forall k | 0 <= k < |d0| ensures !(d0[k].NameItem? && d0[k].isunk) {
      assert (d0 + d1)[k] == d0[k];
    }
    forall k | 0 <= k < |d1| ensures !(d1[k].NameItem? && d1[k].isunk) {
      assert (d0 + d1)[|d0| + k] == d1[k];
    }
  }

  // ---------------------------------------------------------------------
  // Membership, from parts to results
  // ---------------------------------------------------------------------

  lemma {:induction false} MergeInto(a: Match, bs: seq<Match>, b: Match)
    requires b in bs && !Conflict(a, b)
    ensures Merge(a, b) in MergeMatches(a, bs)
  {
    if b != bs[0] {
      MergeInto(a, bs[1..], b);
    }
  }

  lemma {:induction false} DescInto(ms: seq<Match>, atoms: Atoms, items: seq<Item>, vi: VarInfo, m: Match, r: Match)
    requires ValidAtoms(atoms) && m in ms
    requires TabDesc(m, atoms, items, vi).Some? && r in TabDesc(m, atoms, items, vi).value
    ensures r in DescAll(ms, atoms, items, vi)
    decreases |ms|
  {
    if m != ms[0] {
      DescInto(ms[1..], atoms, items, vi, m, r);
    }
  }

  /** The matches of the row that the disassembler takes are among those of the
      whole table. */
  lemma {:induction false} TabInto(t: Table, items: seq<Item>, spos: nat, x: Code, vi: VarInfo, r: Match)
    requires ValidTable(t)
    requires var row := FirstRow(t, x, vi);
             TabDesc(RowStart(row, spos), row.atoms, items, vi).Some?
             && r in TabDesc(RowStart(row, spos), row.atoms, items, vi).value
    ensures r in TabA(t, items, spos, vi)
    decreases t
  {
    if !Fires(t, x, vi) {
      if IsLast(t) {
        LastFires(t, x, vi);
      } else {
        TabInto(t.next, items, spos, x, vi, r);
      }
    }
  }

  // ---------------------------------------------------------------------
  // Single atoms
  // ---------------------------------------------------------------------

  /** `setrbf` takes any computable expression for the field's value. */
  lemma RImmComplete(bf: RBitfield, x: Code, e: Expr, lpos: nat, pos: Word)
    requires ValidRbf(bf) && IsImm(e) && Eval(e, LabelEnv(map[])) == Some(GetRbfAs(bf, x, pos))
    ensures var b := SetRbf(bf, e, lpos);
            && b.Some? && GoodMatch(b.value) && b.value.lpos == lpos && b.value.oplen == 0
            && Satisfies(x, b.value, pos, map[])
  {
    BlankAgrees(x);
    if e.Num? && !bf.pcrel {
      assert GetRbfAs(bf, x, pos) == GetRbfAs(bf, x, Zero());
      FillSound(Blank(), Blank(), bf, e.n, Zero(), x);
      FillComplete(Blank(), Blank(), bf, e.n, Zero(), x);
    }
  }

  /** A relocatable operand is computable however it is shown, and worth its field. */
  lemma TargetShown(bf: RBitfield, x: Code, item: Item, pos: Word, tidy: bool)
    requires ValidRbf(bf) && Shows(ExprItem(GetRbf(bf, x)), item, pos, tidy)
    ensures item.ExprItem? && IsImm(item.e) && Eval(item.e, LabelEnv(map[])) == Some(GetRbfAs(bf, x, pos))
  {
    ReadersAgree(bf, x, map[], pos);
    if tidy {
      var marked :| item == ExprItem(Rewrite.Tidy(GetRbf(bf, x), pos, marked));
      Rewrite.TargetConstant(bf, x);
      Rewrite.ConstantTidies(GetRbf(bf, x), pos, marked, LabelEnv(map[]));
      NegBack(GetRbfAs(bf, x, pos));
    }
  }

  /** A number is shown as it is unless its top bit is set. */
  lemma NumberShown(n: Word, item: Item, pos: Word, tidy: bool)
    requires Shows(ExprItem(Num(n)), item, pos, tidy) && (tidy ==> !n[63])
    ensures item == ExprItem(Num(n))
  {
    if tidy {
      var marked :| item == ExprItem(Rewrite.Tidy(Num(n), pos, marked));
      Rewrite.ShownStays(n, marked);
    }
  }

  lemma FieldComplete(bf: Bitfield, x: Code)
    requires ValidBf(bf) && InjectiveLut(bf)
    ensures var r := SetBf(Blank(), Blank(), bf, GetBf(bf, x));
            r.ok && Tidy(r.a, r.m) && Agrees(x, r.a, r.m)
  {
    BlankAgrees(x);
    SetBfComplete(Blank(), Blank(), bf, x);
    SetBfSound(Blank(), Blank(), bf, GetBf(bf, x), x);
  }

  /** A printed register name means nothing as a number unless it is one, and is shown
      as it is. */
  lemma RegisterShown(reg: RegDesc, num: Word, specials: seq<SReg>, vi: VarInfo, item: Item, pos: Word, tidy: bool)
    requires Shows(ExprItem(PrintNum(reg, num, specials, vi)), item, pos, tidy)
    ensures item == ExprItem(PrintNum(reg, num, specials, vi))
  {
    if specials != [] && !(VarOk(specials[0].fmask, {}, vi) && specials[0].num == num) {
      RegisterShown(reg, num, specials[1..], vi, item, pos, tidy);
    }
  }

  lemma RegComplete(reg: RegDesc, x: Code, items: seq<Item>, i: nat, vi: VarInfo, pos: Word, tidy: bool)
    requires ValidReg(reg) && ClearNames(reg, vi)
    requires i < |items| && Shows(ExprItem(PrintReg(reg, x, vi)), items[i], pos, tidy)
    ensures var r := MatchReg(reg, items[i].e, vi, Blank(), Blank());
            items[i].ExprItem? && r.ok && Tidy(r.a, r.m) && Agrees(x, r.a, r.m)
  {
    BlankAgrees(x);
    RegisterShown(reg, RegNum(reg, x), reg.specials, vi, items[i], pos, tidy);
    PrintedNameIsRead(reg, x, vi);
    if reg.bf.Some? {
      FieldComplete(reg.bf.value, x);
    }
  }

  lemma ImmAtomComplete(bf: Bitfield, x: Code, items: seq<Item>, i: nat, pos: Word) returns (b: Match)
    requires ValidBf(bf) && InjectiveLut(bf) && i < |items| && items[i] == ExprItem(Num(GetBf(bf, x)))
    ensures ImmA(bf, items, i) == Some([b])
    ensures GoodMatch(b) && b.lpos == i + 1 && b.oplen == 0 && Satisfies(x, b, pos, map[])
  {
    FieldComplete(bf, x);
    var r := SetBf(Blank(), Blank(), bf, GetBf(bf, x));
    b := Match(0, r.a, r.m, i + 1, []);
  }

  lemma RImmAtomComplete(bf: RBitfield, x: Code, items: seq<Item>, i: nat, pos: Word, tidy: bool)
    returns (b: Match)
    requires ValidRbf(bf) && i < |items| && Shows(ExprItem(GetRbf(bf, x)), items[i], pos, tidy)
    ensures RImmA(bf, items, i) == Some([b])
    ensures GoodMatch(b) && b.lpos == i + 1 && b.oplen == 0 && Satisfies(x, b, pos, map[])
  {
    TargetShown(bf, x, items[i], pos, tidy);
    RImmComplete(bf, x, items[i].e, i + 1, pos);
    b := SetRbf(bf, items[i].e, i + 1).value;
  }

  lemma RegAtomComplete(reg: RegDesc, x: Code, items: seq<Item>, i: nat, vi: VarInfo, pos: Word, tidy: bool)
    returns (b: Match)
    requires ValidReg(reg) && ClearNames(reg, vi)
    requires i < |items| && Shows(ExprItem(PrintReg(reg, x, vi)), items[i], pos, tidy)
    ensures RegA(reg, items, i, vi) == Some([b])
    ensures GoodMatch(b) && b.lpos == i + 1 && b.oplen == 0 && Satisfies(x, b, pos, map[])
  {
    RegComplete(reg, x, items, i, vi, pos, tidy);
    var r := MatchReg(reg, items[i].e, vi, Blank(), Blank());
    b := Match(0, r.a, r.m, i + 1, []);
  }

  /** Every atom but a table and a `???` accepts its own printed token. */
  lemma AtomComplete(atom: Atom, x: Code, items: seq<Item>, i: nat, vi: VarInfo, pos: Word, tidy: bool)
    returns (b: Match)
    requires ValidAtom(atom) && ClearAtom(atom, vi) && !atom.TabAtom? && !atom.UnkAtom?
    requires tidy ==> NoSignAtom(atom, x, vi)
    requires Printed(DisAtom(atom, x, vi).items, items, i, pos, tidy)
    ensures AtomA(atom, items, i, vi).Some? && b in AtomA(atom, items, i, vi).value
    ensures GoodMatch(b) && b.lpos == i + |DisAtom(atom, x, vi).items| && Satisfies(x, b, pos, map[])
    ensures b.oplen == LengthOr(DisAtom(atom, x, vi), 0)
  {
    hide AtomA, DisAtom, GoodMatch, Satisfies, ImmA, RImmA, RegA, PrintReg, GetRbf;
    AtomForms(atom, x, items, i, vi);
    var d := DisAtom(atom, x, vi).items;
    if atom.ImmAtom? || atom.RImmAtom? || atom.RegAtom? {
      assert Shows(d[0], items[i + 0], pos, tidy);
    }
    if atom.ImmAtom? {
      NumberShown(GetBf(atom.bf, x), items[i], pos, tidy);
      b := ImmAtomComplete(atom.bf, x, items, i, pos);
    } else if atom.RImmAtom? {
      b := RImmAtomComplete(atom.rbf, x, items, i, pos, tidy);
    } else if atom.RegAtom? {
      b := RegAtomComplete(atom.reg, x, items, i, vi, pos, tidy);
    } else {
      b := PlainAtomComplete(atom, x, items, i, vi, pos, tidy);
    }
  }

  /** The two halves of the atoms that have a field. */
  lemma AtomForms(atom: Atom, x: Code, items: seq<Item>, i: nat, vi: VarInfo)
    requires ValidAtom(atom)
    ensures atom.ImmAtom? ==> ValidBf(atom.bf) && AtomA(atom, items, i, vi) == ImmA(atom.bf, items, i)
                              && DisAtom(atom, x, vi) == Token(ExprItem(Num(GetBf(atom.bf, x))))
    ensures atom.RImmAtom? ==> ValidRbf(atom.rbf) && AtomA(atom, items, i, vi) == RImmA(atom.rbf, items, i)
                               && DisAtom(atom, x, vi) == Token(ExprItem(GetRbf(atom.rbf, x)))
    ensures atom.RegAtom? ==> ValidReg(atom.reg) && AtomA(atom, items, i, vi) == RegA(atom.reg, items, i, vi)
                              && DisAtom(atom, x, vi) == Token(ExprItem(PrintReg(atom.reg, x, vi)))
  {
  }

  /** The atoms that have no field. */
  lemma PlainAtomComplete(atom: Atom, x: Code, items: seq<Item>, i: nat, vi: VarInfo, pos: Word, tidy: bool)
    returns (b: Match)
    requires !atom.TabAtom? && !atom.UnkAtom? && !atom.ImmAtom? && !atom.RImmAtom? && !atom.RegAtom? && ValidAtom(atom)
    requires Printed(DisAtom(atom, x, vi).items, items, i, pos, tidy)
    ensures AtomA(atom, items, i, vi) == Some([b])
    ensures GoodMatch(b) && b.lpos == i + |DisAtom(atom, x, vi).items| && Satisfies(x, b, pos, map[])
    ensures b.oplen == LengthOr(DisAtom(atom, x, vi), 0)
  {
    BlankAgrees(x);
    var d := DisAtom(atom, x, vi).items;
    if !Silent(atom) {
      assert Shows(d[0], items[i + 0], pos, tidy);
    }
    b := AtomA(atom, items, i, vi).value[0];
  }

  lemma UnknownShows(atom: Atom, x: Code, vi: VarInfo)
    requires ValidAtom(atom) && atom.UnkAtom?
    ensures !Known(DisAtom(atom, x, vi).items)
  {
    assert DisAtom(atom, x, vi).items[0].isunk;
  }

  // ---------------------------------------------------------------------
  // The theorem
  // ---------------------------------------------------------------------

  lemma MergeKeeps(m: Match, b: Match, x: Code, pos: Word)
    requires GoodMatch(m) && GoodMatch(b) && Satisfies(x, m, pos, map[]) && Satisfies(x, b, pos, map[])
    ensures !Conflict(m, b) && GoodMatch(Merge(m, b)) && Satisfies(x, Merge(m, b), pos, map[])
  {
    CommonMeansNoConflict(m, b, x);
    MergeSatisfies(m, b, x, pos, map[]);
  }

  lemma {:induction false} CompleteTable(t: Table, x: Code, items: seq<Item>, i: nat, vi: VarInfo, pos: Word,
                                         tidy: bool)
    returns (r: Match)
    requires ValidTable(t) && ClearTable(t, vi) && (tidy ==> NoSignTab(t, x, vi))
    requires Known(DisTab(t, x, vi).items) && Printed(DisTab(t, x, vi).items, items, i, pos, tidy)
    ensures r in TabA(t, items, i, vi)
    ensures GoodMatch(r) && r.lpos == i + |DisTab(t, x, vi).items| && Satisfies(x, r, pos, map[])
    ensures r.oplen == LengthOr(DisTab(t, x, vi), 0)
    decreases t, 1
  {
    var row := FirstRow(t, x, vi);
    FirstRowOf(t, x, vi);
    RowOfValid(row, t);
    RowStartGood(row, i, x, vi);
    r := CompleteAtoms(RowStart(row, i), row.atoms, x, items, vi, pos, tidy);
    TabInto(t, items, i, x, vi, r);
  }

  lemma {:induction false} CompleteHead(atom: Atom, x: Code, items: seq<Item>, i: nat, vi: VarInfo, pos: Word,
                                        tidy: bool)
    returns (b: Match)
    requires ValidAtom(atom) && ClearAtom(atom, vi) && (tidy ==> NoSignAtom(atom, x, vi))
    requires Known(DisAtom(atom, x, vi).items) && Printed(DisAtom(atom, x, vi).items, items, i, pos, tidy)
    ensures AtomA(atom, items, i, vi).Some? && b in AtomA(atom, items, i, vi).value
    ensures GoodMatch(b) && b.lpos == i + |DisAtom(atom, x, vi).items| && Satisfies(x, b, pos, map[])
    ensures b.oplen == LengthOr(DisAtom(atom, x, vi), 0)
    decreases atom
  {
    if atom.TabAtom? {
      b := CompleteTable(atom.tab, x, items, i, vi, pos, tidy);
    } else {
      if atom.UnkAtom? {
        UnknownShows(atom, x, vi);
      }
      b := AtomComplete(atom, x, items, i, vi, pos, tidy);
    }
  }

  lemma {:induction false} CompleteAtoms(m: Match, atoms: Atoms, x: Code, items: seq<Item>, vi: VarInfo, pos: Word,
                                         tidy: bool)
    returns (r: Match)
    requires ValidAtoms(atoms) && ClearAtoms(atoms, vi) && (tidy ==> NoSign(atoms, x, vi))
    requires GoodMatch(m) && Satisfies(x, m, pos, map[])
    requires Known(DisAtoms(atoms, x, vi).items) && Printed(DisAtoms(atoms, x, vi).items, items, m.lpos, pos, tidy)
    ensures TabDesc(m, atoms, items, vi).Some? && r in TabDesc(m, atoms, items, vi).value
    ensures GoodMatch(r) && r.lpos == m.lpos + |DisAtoms(atoms, x, vi).items| && Satisfies(x, r, pos, map[])
    ensures r.oplen == LengthOr(DisAtoms(atoms, x, vi), m.oplen)
    decreases atoms, 0
  {
    hide AtomA, DisAtom, MergeMatches, Conflict, GoodMatch, Satisfies, OrCode;
    if atoms.ANil? {
      r := m;
    } else {
      var d0, d1 := DisAtom(atoms.head, x, vi).items, DisAtoms(atoms.tail, x, vi).items;
      assert DisAtoms(atoms, x, vi).items == d0 + d1;
      KnownSplit(d0, d1);
      PrintedSplit(d0, d1, items, m.lpos, pos, tidy);
      var b := CompleteHead(atoms.head, x, items, m.lpos, vi, pos, tidy);
      MergeKeeps(m, b, x, pos);
      var ms := AtomA(atoms.head, items, m.lpos, vi).value;
      MergeInto(m, ms, b);
      r := CompleteAtoms(Merge(m, b), atoms.tail, x, items, vi, pos, tidy);
      DescInto(MergeMatches(m, ms), atoms.tail, items, vi, Merge(m, b), r);
    }
  }

  /** Among the candidates for tokens that show what the disassembler reads is one that
      the opcode satisfies. */
  lemma ShownRoundTrip(root: Table, x: Code, items: seq<Item>, vi: VarInfo, pos: Word, tidy: bool) returns (mt: Match)
    requires ValidTable(root) && ClearTable(root, vi) && Known(DisTab(root, x, vi).items)
    requires |items| == |DisTab(root, x, vi).items| && Printed(DisTab(root, x, vi).items, items, 0, pos, tidy)
    requires tidy ==> NoSignTab(root, x, vi)
    ensures mt in DoAs(root, items, vi)
    ensures GoodMatch(mt) && Satisfies(x, mt, pos, map[])
    ensures mt.oplen == LengthOr(DisTab(root, x, vi), 0)
    ensures Resolve(mt, pos, map[]).Fits?
    ensures Agrees(x, Resolve(mt, pos, map[]).a, Resolve(mt, pos, map[]).m)
  {
    mt := CompleteTable(root, x, items, 0, vi, pos, tidy);
    CompleteIn(TabA(root, items, 0, vi), |items|, mt);
    ResolveExact(mt, pos, map[]);
  }

  /** Assembler completeness and the round trip.  Disassemble any opcode at any
      position; unless a `???` was hit, assembling the printed tokens yields a
      candidate of the same length that relocates at that position, and the bits
      it fixes are the opcode's own. */
  lemma RoundTrip(root: Table, x: Code, vi: VarInfo, pos: Word) returns (mt: Match)
    requires ValidTable(root) && ClearTable(root, vi) && Known(DisTab(root, x, vi).items)
    ensures mt in DoAs(root, SettleAll(DisTab(root, x, vi).items, pos), vi)
    ensures GoodMatch(mt) && Satisfies(x, mt, pos, map[])
    ensures mt.oplen == LengthOr(DisTab(root, x, vi), 0)
    ensures Resolve(mt, pos, map[]).Fits?
    ensures Agrees(x, Resolve(mt, pos, map[]).a, Resolve(mt, pos, map[]).m)
  {
    mt := ShownRoundTrip(root, x, SettleAll(DisTab(root, x, vi).items, pos), vi, pos, false);
  }

  /** What the disassembler prints: every operand cleaned up, those marked as branch or
      call targets without a sign. */
  function Cleaned(items: seq<Item>, marked: seq<bool>, pos: Word): (r: seq<Item>)
    requires |marked| == |items|
    ensures |r| == |items|
    ensures forall k :: 0 <= k < |items| ==>
              r[k] == if items[k].ExprItem? then ExprItem(Rewrite.Tidy(items[k].e, pos, marked[k])) else items[k]
  {
    seq(|items|, k requires 0 <= k < |items| =>
      if items[k].ExprItem? then ExprItem(Rewrite.Tidy(items[k].e, pos, marked[k])) else items[k])
  }

  /** The round trip through the printed form, whatever is marked: it holds for every
      opcode on whose walk no plain immediate has its top bit set. */
  lemma PrintedRoundTrip(root: Table, x: Code, marked: seq<bool>, vi: VarInfo, pos: Word) returns (mt: Match)
    requires ValidTable(root) && ClearTable(root, vi) && Known(DisTab(root, x, vi).items)
    requires |marked| == |DisTab(root, x, vi).items| && NoSignTab(root, x, vi)
    ensures mt in DoAs(root, Cleaned(DisTab(root, x, vi).items, marked, pos), vi)
    ensures GoodMatch(mt) && Satisfies(x, mt, pos, map[])
    ensures mt.oplen == LengthOr(DisTab(root, x, vi), 0)
    ensures Resolve(mt, pos, map[]).Fits?
    ensures Agrees(x, Resolve(mt, pos, map[]).a, Resolve(mt, pos, map[]).m)
  {
    var d := DisTab(root, x, vi).items;
    var items := Cleaned(d, marked, pos);
    forall k | 0 <= k < |d| ensures Shows(d[k], items[0 + k], pos, true) {
      assert d[k].ExprItem? ==> items[k] == ExprItem(Rewrite.Tidy(d[k].e, pos, marked[k]));
    }
    mt := ShownRoundTrip(root, x, items, vi, pos, true);
  }
}
