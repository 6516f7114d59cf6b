/** Soundness of the assembler: every opcode that a match allows reads, along
    the rows the match was built from, as the tokens the match consumed. */
module AsmSound {
  import opened Options
  import opened Words
  import opened Exprs
  import opened Fields
  import opened Relocs
  import opened Registers
  import opened Tables

  // ---------------------------------------------------------------------
  // What a match stands for
  // ---------------------------------------------------------------------

  ghost predicate RelocHolds(r: Reloc, x: Code, pos: Word, labels: map<string, Word>)
    requires ValidRbf(r.bf)
  {
    var v := Eval(r.expr, LabelEnv(labels));
    v.Some? && Words.And(GetRbfAs(r.bf, x, pos), CheckMask(r.bf)) == Words.And(v.value, CheckMask(r.bf))
  }

  /** `x`, placed at `pos`, is one of the opcodes the match stands for: it has
      the fixed bits and its relocation fields have the values of their
      expressions. */
  ghost predicate Satisfies(x: Code, mt: Match, pos: Word, labels: map<string, Word>)
    requires ValidRelocs(mt)
  {
    Agrees(x, mt.a, mt.m) && forall r :: r in mt.relocs ==> RelocHolds(r, x, pos, labels)
  }

  ghost predicate GoodMatch(mt: Match) { Tidy(mt.a, mt.m) && ValidRelocs(mt) }

  lemma BlankAgrees(x: Code)
    ensures Agrees(x, Blank(), Blank()) && Tidy(Blank(), Blank())
  {
  }

  /** `mergematches` intersects exactly: it drops a pair iff no opcode belongs to
      both, and otherwise the merged match stands for precisely the common
      opcodes. */
  lemma MergeExact(a: Match, b: Match)
    requires Tidy(a.a, a.m) && Tidy(b.a, b.m)
    ensures Conflict(a, b) <==> !exists x :: Agrees(x, a.a, a.m) && Agrees(x, b.a, b.m)
    ensures !Conflict(a, b) ==> Tidy(Merge(a, b).a, Merge(a, b).m)
    ensures !Conflict(a, b) ==>
              forall x :: Agrees(x, Merge(a, b).a, Merge(a, b).m) <==> Agrees(x, a.a, a.m) && Agrees(x, b.a, b.m)
  {
    if !Conflict(a, b) {
      NoConflictBits(a, b);
      MergeIntersects(a, b);
      var x := OrCode(b.a, a.a);
      assert Agrees(x, OrCode(b.a, a.a), OrCode(b.m, a.m));
      assert Agrees(x, a.a, a.m) && Agrees(x, b.a, b.m);
    } else {
      forall x ensures !(Agrees(x, a.a, a.m) && Agrees(x, b.a, b.m)) {
        if Agrees(x, a.a, a.m) && Agrees(x, b.a, b.m) {
          CommonMeansNoConflict(a, b, x);
        }
      }
    }
  }

  lemma NoConflictBits(a: Match, b: Match)
    requires !Conflict(a, b)
    ensures forall j, i :: 0 <= j < MAXOPLEN && 0 <= i < 64 ==> a.m[j][i] && b.m[j][i] ==> a.a[j][i] == b.a[j][i]
  {
    forall j, i | 0 <= j < MAXOPLEN && 0 <= i < 64 && a.m[j][i] && b.m[j][i]
      ensures a.a[j][i] == b.a[j][i]
    {
      var both := Words.And(a.m[j], b.m[j]);
      assert Words.And(a.a[j], both)[i] == Words.And(b.a[j], both)[i];
    }
  }

  lemma MergeIntersects(a: Match, b: Match)
    requires Tidy(a.a, a.m) && Tidy(b.a, b.m)
    requires forall j, i :: 0 <= j < MAXOPLEN && 0 <= i < 64 ==> a.m[j][i] && b.m[j][i] ==> a.a[j][i] == b.a[j][i]
    ensures Tidy(Merge(a, b).a, Merge(a, b).m)
    ensures forall x :: Agrees(x, Merge(a, b).a, Merge(a, b).m) <==> Agrees(x, a.a, a.m) && Agrees(x, b.a, b.m)
  {
    var c, m := OrCode(b.a, a.a), OrCode(b.m, a.m);
    forall j, i | 0 <= j < MAXOPLEN && 0 <= i < 64
      ensures c[j][i] == (a.a[j][i] || b.a[j][i]) && m[j][i] == (a.m[j][i] || b.m[j][i])
    {
    }
  }

  lemma CommonMeansNoConflict(a: Match, b: Match, x: Code)
    requires Agrees(x, a.a, a.m) && Agrees(x, b.a, b.m)
    ensures !Conflict(a, b)
  {
    forall j | 0 <= j < MAXOPLEN
      ensures Words.And(a.a[j], Words.And(a.m[j], b.m[j])) == Words.And(b.a[j], Words.And(a.m[j], b.m[j]))
    {
      var both := Words.And(a.m[j], b.m[j]);
      forall i | 0 <= i < 64 ensures Words.And(a.a[j], both)[i] == Words.And(b.a[j], both)[i] {
      }
    }
  }

  /** The same with relocations, for one result of `mergematches`. */
  lemma MergeSatisfies(a: Match, b: Match, x: Code, pos: Word, labels: map<string, Word>)
    requires GoodMatch(a) && GoodMatch(b) && !Conflict(a, b)
    ensures GoodMatch(Merge(a, b))
    ensures Satisfies(x, Merge(a, b), pos, labels) <==> Satisfies(x, a, pos, labels) && Satisfies(x, b, pos, labels)
  {
    MergeExact(a, b);
  }

  /** Every merged match comes from one of the given matches. */
  lemma {:induction false} MergeFrom(a: Match, bs: seq<Match>, r: Match) returns (b: Match)
    requires r in MergeMatches(a, bs)
    ensures b in bs && !Conflict(a, b) && r == Merge(a, b)
  {
    if !Conflict(a, bs[0]) && r == Merge(a, bs[0]) {
      b := bs[0];
    } else {
      b := MergeFrom(a, bs[1..], r);
    }
  }

  lemma {:induction false} DescFrom(ms: seq<Match>, atoms: Atoms, items: seq<Item>, vi: VarInfo, r: Match)
    returns (m: Match)
    requires ValidAtoms(atoms) && r in DescAll(ms, atoms, items, vi)
    ensures m in ms && TabDesc(m, atoms, items, vi).Some? && r in TabDesc(m, atoms, items, vi).value
    decreases |ms|
  {
    var first := OrEmpty(TabDesc(ms[0], atoms, items, vi));
    if r in first {
      m := ms[0];
    } else {
      m := DescFrom(ms[1..], atoms, items, vi, r);
    }
  }

  // ---------------------------------------------------------------------
  // Reading along chosen rows
  // ---------------------------------------------------------------------

  /** The rows chosen for the tables met on a walk, and how far each atom got. */
  datatype Path = PNil | PStep(mid: nat, next: Path) | PTab(row: Table, inner: Path, mid: nat, next: Path)

  /** `row` is one of the rows of `t` that either interpreter can reach. */
  predicate RowOf(row: Table, t: Table) {
    t.Row? && (row == t || (!IsLast(t) && RowOf(row, t.next)))
  }

  lemma {:induction false} RowOfValid(row: Table, t: Table)
    requires ValidTable(t) && RowOf(row, t)
    ensures ValidTable(row) && ValidAtoms(row.atoms)
    decreases t
  {
    if row != t {
      RowOfValid(row, t.next);
    }
  }

  /** The single token `item` says what the atom finds in `x`.  Names, commands
      and immediates are literal; a register name has to name the number in the
      field; an expression has to have the value of the field. */
  ghost predicate Says(atom: Atom, x: Code, item: Item, vi: VarInfo, pos: Word, labels: map<string, Word>)
    requires ValidAtom(atom)
  {
    match atom
    case SeStartAtom => item == SeStart
    case SeEndAtom => item == SeEnd
    case NameAtom(s) => item.NameItem? && item.name == s
    case CmdAtom(s) => item == ExprItem(Label(s))
    case ImmAtom(bf) => item == ExprItem(Num(GetBf(bf, x)))
    case RImmAtom(bf, _) =>
      item.ExprItem? && IsImm(item.e) && RelocHolds(Reloc(bf, item.e), x, pos, labels)
    case RegAtom(reg) => item.ExprItem? && NamedNum(reg, item.e, reg.specials, vi) == Some(RegNum(reg, x))
    case DiscardAtom => item == ExprItem(Discard)
    case _ => false
  }

  predicate Silent(atom: Atom) { atom.OpLenAtom? || atom.EndMarkAtom? || atom.IgnoreAtom? }

  /** `x` reads along `path` as the tokens `items[i..j]`. */
  ghost predicate ReadsAs(atoms: Atoms, path: Path, x: Code, items: seq<Item>, i: nat, j: nat,
                          vi: VarInfo, pos: Word, labels: map<string, Word>)
    requires ValidAtoms(atoms)
    decreases path
  {
    if atoms.ANil? then path.PNil? && i == j
    else if atoms.head.TabAtom? then
      && path.PTab?
      && RowOf(path.row, atoms.head.tab)
      && (assert ValidAtom(atoms.head);
          RowOfValid(path.row, atoms.head.tab);
          && Fires(path.row, x, vi)
          && ReadsAs(path.row.atoms, path.inner, x, items, i, path.mid, vi, pos, labels))
      && ReadsAs(atoms.tail, path.next, x, items, path.mid, j, vi, pos, labels)
    else
      && path.PStep?
      && (if Silent(atoms.head) then path.mid == i
          else path.mid == i + 1 && i < |items| && Says(atoms.head, x, items[i], vi, pos, labels))
      && ReadsAs(atoms.tail, path.next, x, items, path.mid, j, vi, pos, labels)
  }

  /** The instruction length set along a path; 0 when none is. */
  function PathLen(atoms: Atoms, path: Path): nat
    decreases path
  {
    if atoms.ANil? || path.PNil? then 0
    else
      var rest := PathLen(atoms.tail, path.next);
      if rest != 0 then rest
      else if path.PTab? then (if path.row.Row? then PathLen(path.row.atoms, path.inner) else 0)
      else if atoms.head.OpLenAtom? then atoms.head.len
      else 0
  }

  ghost predicate ReadsTable(t: Table, row: Table, path: Path, x: Code, items: seq<Item>, i: nat, j: nat,
                             vi: VarInfo, pos: Word, labels: map<string, Word>)
    requires ValidTable(t)
  {
    && RowOf(row, t)
    && (RowOfValid(row, t);
        Fires(row, x, vi) && ReadsAs(row.atoms, path, x, items, i, j, vi, pos, labels))
  }

  // ---------------------------------------------------------------------
  // Single atoms
  // ---------------------------------------------------------------------

  lemma RImmSound(bf: RBitfield, items: seq<Item>, spos: nat, vi: VarInfo, x: Code, pos: Word,
                  labels: map<string, Word>)
    requires ValidRbf(bf) && spos < |items| && items[spos].ExprItem?
    requires SetRbf(bf, items[spos].e, spos + 1).Some?
    ensures var b := SetRbf(bf, items[spos].e, spos + 1).value;
            && GoodMatch(b) && b.lpos == spos + 1 && b.oplen == 0
            && (Satisfies(x, b, pos, labels) ==>
                  IsImm(items[spos].e) && RelocHolds(Reloc(bf, items[spos].e), x, pos, labels))
  {
    var e := items[spos].e;
    var b := SetRbf(bf, e, spos + 1).value;
    BlankAgrees(x);
    if !e.Num? || bf.pcrel {
      assert Reloc(bf, e) in b.relocs;
    } else {
      FillSound(Blank(), Blank(), bf, e.n, Zero(), x);
    }
  }

  lemma FieldSound(bf: Bitfield, num: Word, x: Code)
    requires ValidBf(bf)
    ensures var r := SetBf(Blank(), Blank(), bf, num);
            Tidy(r.a, r.m) && (r.ok && Agrees(x, r.a, r.m) ==> GetBf(bf, x) == num)
  {
    BlankAgrees(x);
    SetBfSound(Blank(), Blank(), bf, num, x);
  }

  /** An atom that is not a table contributes one match, and the opcodes of that
      match say what the token at `spos` says. */
  lemma AtomSound(atom: Atom, items: seq<Item>, spos: nat, vi: VarInfo, b: Match,
                  x: Code, pos: Word, labels: map<string, Word>)
    requires ValidAtom(atom) && !atom.TabAtom? && spos <= |items|
    requires AtomA(atom, items, spos, vi).Some? && b in AtomA(atom, items, spos, vi).value
    ensures GoodMatch(b)
    ensures b.lpos == (if Silent(atom) then spos else spos + 1) && b.lpos <= |items|
    ensures b.oplen == (if atom.OpLenAtom? then atom.len else 0)
    ensures !Silent(atom) && Satisfies(x, b, pos, labels) ==> Says(atom, x, items[spos], vi, pos, labels)
  {
    BlankAgrees(x);
    match atom {
      case ImmAtom(bf) => FieldSound(bf, items[spos].e.n, x);
      case RImmAtom(bf, _) => RImmSound(bf, items, spos, vi, x, pos, labels);
      case RegAtom(reg) =>
        var num := NamedNum(reg, items[spos].e, reg.specials, vi).value;
        if reg.bf.Some? {
          FieldSound(reg.bf.value, num, x);
        }
      case _ =>
    }
  }

  // ---------------------------------------------------------------------
  // The theorem
  // ---------------------------------------------------------------------

  lemma RowStartGood(row: Table, spos: nat, x: Code, vi: VarInfo)
    requires ValidTable(row)
    ensures GoodMatch(RowStart(row, spos))
    ensures VarOk(row.fmask, row.ptype, vi) ==>
              (Agrees(x, RowStart(row, spos).a, RowStart(row, spos).m) <==> Fires(row, x, vi))
  {
    var rs := RowStart(row, spos);
    forall i | 0 <= i < 64 ensures row.val[i] ==> row.mask[i] {
      assert Words.And(row.val, row.mask)[i] == row.val[i];
    }
    if Fires(row, x, vi) {
      forall i | 0 <= i < 64 && row.mask[i] ensures x[0][i] == row.val[i] {
        assert Words.And(x[0], row.mask)[i] == row.val[i];
      }
    }
    if Agrees(x, rs.a, rs.m) {
      assert rs.m[0] == row.mask && rs.a[0] == row.val;
      assert Words.And(x[0], row.mask) == row.val;
    }
  }

  /** A match of a table comes from one row of it. */
  lemma {:induction false} TabFrom(t: Table, items: seq<Item>, spos: nat, vi: VarInfo, r: Match) returns (row: Table)
    requires ValidTable(t) && r in TabA(t, items, spos, vi)
    ensures row.Row? && RowOf(row, t) && ValidTable(row) && VarOk(row.fmask, row.ptype, vi)
    ensures TabDesc(RowStart(row, spos), row.atoms, items, vi).Some?
    ensures r in TabDesc(RowStart(row, spos), row.atoms, items, vi).value
    ensures row == t || row < t
    decreases t
  {
    if VarOk(t.fmask, t.ptype, vi) && r in OrEmpty(TabDesc(RowStart(t, spos), t.atoms, items, vi)) {
      row := t;
    } else {
      row := TabFrom(t.next, items, spos, vi, r);
    }
  }

  /** What soundness says of one result `r` of extending `m` by `atoms`. */
  ghost predicate SoundStep(m: Match, atoms: Atoms, path: Path, items: seq<Item>, r: Match, vi: VarInfo)
    requires ValidAtoms(atoms)
  {
    && GoodMatch(m) && GoodMatch(r) && m.lpos <= r.lpos <= |items|
    && r.oplen == (if PathLen(atoms, path) != 0 then PathLen(atoms, path) else m.oplen)
    && forall x, pos, labels :: Satisfies(x, r, pos, labels) ==>
         Satisfies(x, m, pos, labels) && ReadsAs(atoms, path, x, items, m.lpos, r.lpos, vi, pos, labels)
  }

  lemma {:induction false} SoundTable(t: Table, items: seq<Item>, spos: nat, vi: VarInfo, r: Match)
    returns (row: Table, path: Path)
    requires ValidTable(t) && spos <= |items| && r in TabA(t, items, spos, vi)
    ensures GoodMatch(r) && spos <= r.lpos <= |items|
    ensures row.Row? && RowOf(row, t) && ValidAtoms(row.atoms) && r.oplen == PathLen(row.atoms, path)
    ensures forall x, pos, labels :: Satisfies(x, r, pos, labels) ==>
              ReadsTable(t, row, path, x, items, spos, r.lpos, vi, pos, labels)
    decreases t, 1
  {
    row := TabFrom(t, items, spos, vi, r);
    var start := RowStart(row, spos);
    RowStartGood(row, spos, Blank(), vi);
    path := SoundAtoms(start, row.atoms, items, vi, r);
    forall x, pos, labels | Satisfies(x, r, pos, labels)
      ensures ReadsTable(t, row, path, x, items, spos, r.lpos, vi, pos, labels)
    {
      RowStartGood(row, spos, x, vi);
    }
  }

  /** One atom: the path element and what it says about the opcodes of `b`. */
  lemma {:induction false} SoundAtoms(m: Match, atoms: Atoms, items: seq<Item>, vi: VarInfo, r: Match)
    returns (path: Path)
    requires ValidAtoms(atoms) && GoodMatch(m) && m.lpos <= |items|
    requires TabDesc(m, atoms, items, vi).Some? && r in TabDesc(m, atoms, items, vi).value
    ensures SoundStep(m, atoms, path, items, r, vi)
    decreases atoms, 0
  {
    if atoms.ANil? {
      path := PNil;
    } else {
      var ms := AtomA(atoms.head, items, m.lpos, vi).value;
      var mid := DescFrom(MergeMatches(m, ms), atoms.tail, items, vi, r);
      var b := MergeFrom(m, ms, mid);
      if atoms.head.TabAtom? {
        var row, inner := SoundTable(atoms.head.tab, items, m.lpos, vi, b);
        MergeSatisfies(m, b, Blank(), Zero(), map[]);
        var next := SoundAtoms(mid, atoms.tail, items, vi, r);
        path := PTab(row, inner, mid.lpos, next);
        assert PathLen(atoms, path) == if PathLen(atoms.tail, next) != 0 then PathLen(atoms.tail, next) else b.oplen;
        forall x, pos, labels | Satisfies(x, r, pos, labels)
          ensures Satisfies(x, m, pos, labels) && ReadsAs(atoms, path, x, items, m.lpos, r.lpos, vi, pos, labels)
        {
          MergeSatisfies(m, b, x, pos, labels);
          assert ReadsTable(atoms.head.tab, row, inner, x, items, m.lpos, b.lpos, vi, pos, labels);
        }
      } else {
        AtomSound(atoms.head, items, m.lpos, vi, b, Blank(), Zero(), map[]);
        MergeSatisfies(m, b, Blank(), Zero(), map[]);
        var next := SoundAtoms(mid, atoms.tail, items, vi, r);
        path := PStep(mid.lpos, next);
        assert PathLen(atoms, path) == if PathLen(atoms.tail, next) != 0 then PathLen(atoms.tail, next) else b.oplen;
        forall x, pos, labels | Satisfies(x, r, pos, labels)
          ensures Satisfies(x, m, pos, labels) && ReadsAs(atoms, path, x, items, m.lpos, r.lpos, vi, pos, labels)
        {
          MergeSatisfies(m, b, x, pos, labels);
          AtomSound(atoms.head, items, m.lpos, vi, b, x, pos, labels);
        }
      }
    }
  }

  // ---------------------------------------------------------------------
  // Relocation of a match
  // ---------------------------------------------------------------------

  ghost predicate AllHold(relocs: seq<Reloc>, x: Code, pos: Word, labels: map<string, Word>)
    requires forall r :: r in relocs ==> ValidRbf(r.bf)
  {
    forall r :: r in relocs ==> RelocHolds(r, x, pos, labels)
  }

  lemma AllHoldSplit(relocs: seq<Reloc>, x: Code, pos: Word, labels: map<string, Word>)
    requires relocs != [] && forall r :: r in relocs ==> ValidRbf(r.bf)
    ensures AllHold(relocs, x, pos, labels) <==>
            RelocHolds(relocs[0], x, pos, labels) && AllHold(relocs[1..], x, pos, labels)
  {
    assert forall r :: r in relocs <==> r == relocs[0] || r in relocs[1..];
  }

  lemma {:induction false} ResolveFromExact(a: Code, m: Code, relocs: seq<Reloc>, pos: Word, labels: map<string, Word>,
                                            x: Code)
    requires (forall r :: r in relocs ==> ValidRbf(r.bf)) && Tidy(a, m)
    ensures var res := ResolveFrom(a, m, relocs, pos, labels);
            && (res.Fits? ==> Tidy(res.a, res.m) && Extends(a, m, res.a, res.m))
            && (res.Fits? && Agrees(x, res.a, res.m) ==> Agrees(x, a, m) && AllHold(relocs, x, pos, labels))
            && (Agrees(x, a, m) && AllHold(relocs, x, pos, labels) ==> res.Fits? && Agrees(x, res.a, res.m))
    decreases |relocs|
  {
    if relocs != [] {
      AllHoldSplit(relocs, x, pos, labels);
      var v := Eval(relocs[0].expr, LabelEnv(labels));
      if v.Some? {
        var r := FillRbf(a, m, relocs[0].bf, v.value, pos);
        FillSound(a, m, relocs[0].bf, v.value, pos, x);
        if Agrees(x, a, m) && RelocHolds(relocs[0], x, pos, labels) {
          FillComplete(a, m, relocs[0].bf, v.value, pos, x);
        }
        if r.ok {
          ResolveFromExact(r.a, r.m, relocs[1..], pos, labels, x);
        }
      }
    }
  }

  /** `resolve` succeeds iff some opcode satisfies the match at `pos`, leaves
      exactly the opcodes that do, and so a later relocation never disturbs an
      earlier one. */
  lemma ResolveExact(mt: Match, pos: Word, labels: map<string, Word>)
    requires GoodMatch(mt)
    ensures var res := Resolve(mt, pos, labels);
            && (res.Fits? <==> exists x :: Satisfies(x, mt, pos, labels))
            && (res.Fits? ==> Tidy(res.a, res.m)
                              && forall x :: Agrees(x, res.a, res.m) <==> Satisfies(x, mt, pos, labels))
  {
    var res := Resolve(mt, pos, labels);
    forall x
      ensures res.Fits? ==> Tidy(res.a, res.m)
      ensures res.Fits? && Agrees(x, res.a, res.m) ==> Satisfies(x, mt, pos, labels)
      ensures Satisfies(x, mt, pos, labels) ==> res.Fits? && Agrees(x, res.a, res.m)
    {
      ResolveFromExact(mt.a, mt.m, mt.relocs, pos, labels, x);
    }
    if res.Fits? {
      assert Agrees(res.a, res.a, res.m);
    }
  }

  /** `x` keeps all the bits that `resolve` fixed. */
  ghost predicate ResolvesTo(mt: Match, pos: Word, labels: map<string, Word>, x: Code)
    requires ValidRelocs(mt)
  {
    var res := Resolve(mt, pos, labels);
    res.Fits? && Agrees(x, res.a, res.m)
  }

  lemma {:induction false} CompleteIn(ms: seq<Match>, n: nat, mt: Match)
    ensures mt in Complete(ms, n) <==> mt in ms && mt.lpos == n
  {
    if ms != [] {
      CompleteIn(ms[1..], n, mt);
    }
  }

  /** Assembler soundness.  Every match of `do_as` consumed the whole token list
      along some choice of rows, and every opcode it can be resolved to, at any
      position and under any labels, reads along those rows as those tokens. */
  lemma AssemblerSound(root: Table, items: seq<Item>, vi: VarInfo, mt: Match)
    returns (row: Table, path: Path)
    requires ValidTable(root) && mt in DoAs(root, items, vi)
    ensures GoodMatch(mt) && mt.lpos == |items|
    ensures row.Row? && RowOf(row, root) && ValidAtoms(row.atoms) && mt.oplen == PathLen(row.atoms, path)
    ensures forall pos, labels, x :: ResolvesTo(mt, pos, labels, x) ==>
              ReadsTable(root, row, path, x, items, 0, |items|, vi, pos, labels)
  {
    CompleteIn(TabA(root, items, 0, vi), |items|, mt);
    row, path := SoundTable(root, items, 0, vi, mt);
    forall pos, labels, x | ResolvesTo(mt, pos, labels, x)
      ensures ReadsTable(root, row, path, x, items, 0, |items|, vi, pos, labels)
    {
      ResolveExact(mt, pos, labels);
    }
  }

  // ---------------------------------------------------------------------
  // From a reading along rows to the disassembler's output
  // ---------------------------------------------------------------------

  /** Register names and lookup tables are unambiguous throughout a table. */
  ghost predicate ClearTable(t: Table, vi: VarInfo) {
    t.Row? ==> ClearAtoms(t.atoms, vi) && ClearTable(t.next, vi)
  }

  ghost predicate ClearAtoms(atoms: Atoms, vi: VarInfo) {
    atoms.ACons? ==> ClearAtom(atoms.head, vi) && ClearAtoms(atoms.tail, vi)
  }

  ghost predicate ClearAtom(atom: Atom, vi: VarInfo) {
    match atom
    case TabAtom(t) => ClearTable(t, vi)
    case ImmAtom(bf) => InjectiveLut(bf)
    case RegAtom(reg) => ClearNames(reg, vi)
    case _ => true
  }

  lemma {:induction false} FirstRowOf(t: Table, x: Code, vi: VarInfo)
    requires ValidTable(t)
    ensures RowOf(FirstRow(t, x, vi), t)
    ensures ClearTable(t, vi) ==> ClearAtoms(FirstRow(t, x, vi).atoms, vi)
    decreases t
  {
    if !Fires(t, x, vi) {
      if IsLast(t) {
        LastFires(t, x, vi);
      } else {
        FirstRowOf(t.next, x, vi);
      }
    }
  }

  /** It is the first row of the table that fires: no row before it does. */
  lemma {:induction false} NoEarlierRow(t: Table, x: Code, vi: VarInfo, r: Table)
    requires ValidTable(t) && RowOf(r, t) && RowOf(FirstRow(t, x, vi), r) && r != FirstRow(t, x, vi)
    ensures r.Row? && !Fires(r, x, vi)
    decreases t
  {
    if Fires(t, x, vi) {
      if r != t {
        RowBelow(r, t);
        RowBelow(t, r);
      }
    } else if IsLast(t) {
      LastFires(t, x, vi);
    } else if r != t {
      NoEarlierRow(t.next, x, vi, r);
    }
  }

  lemma {:induction false} RowBelow(r: Table, t: Table)
    requires RowOf(r, t) && r != t
    ensures r < t
    decreases t
  {
    if r != t.next {
      RowBelow(r, t.next);
    }
  }

  /** The rows of the path are the ones `atomtab_d` takes for `x`. */
  ghost predicate TakesFirst(atoms: Atoms, path: Path, x: Code, vi: VarInfo)
    requires ValidAtoms(atoms)
    decreases path
  {
    if atoms.ANil? then true
    else if atoms.head.TabAtom? then
      && path.PTab?
      && (assert ValidAtom(atoms.head);
          path.row == FirstRow(atoms.head.tab, x, vi))
      && TakesFirst(path.row.atoms, path.inner, x, vi)
      && TakesFirst(atoms.tail, path.next, x, vi)
    else path.PStep? && TakesFirst(atoms.tail, path.next, x, vi)
  }

  /** The atoms of a path that stand for a token each, in order. */
  function Speakers(atoms: Atoms, path: Path): seq<Atom>
    decreases path
  {
    if atoms.ANil? || path.PNil? then []
    else if path.PTab? then
      (if path.row.Row? then Speakers(path.row.atoms, path.inner) else []) + Speakers(atoms.tail, path.next)
    else (if Silent(atoms.head) then [] else [atoms.head]) + Speakers(atoms.tail, path.next)
  }

  /** A printed token and a source token mean the same to an atom: one register
      number, one value up to the checked bits of the field, one name, or else they
      are equal. */
  ghost predicate SameMeaning(atom: Atom, d: Item, s: Item, vi: VarInfo, pos: Word, labels: map<string, Word>)
    requires ValidAtom(atom)
  {
    match atom
    case RImmAtom(bf, _) =>
      d.ExprItem? && s.ExprItem? && ValuesMatch(bf, Eval(d.e, AtPos(labels, pos)), Eval(s.e, LabelEnv(labels)))
    case RegAtom(reg) =>
      && d.ExprItem? && s.ExprItem? && NamedNum(reg, d.e, reg.specials, vi).Some?
      && NamedNum(reg, d.e, reg.specials, vi) == NamedNum(reg, s.e, reg.specials, vi)
    case NameAtom(_) => d.NameItem? && s.NameItem? && d.name == s.name
    case _ => d == s
  }

  ghost predicate ValuesMatch(bf: RBitfield, d: Option<Word>, s: Option<Word>)
    requires ValidRbf(bf)
  {
    d.Some? && s.Some? && Words.And(d.value, CheckMask(bf)) == Words.And(s.value, CheckMask(bf))
  }

  /** Token for token, `ds` and the source tokens from `i` on mean the same. */
  ghost predicate Matches(speakers: seq<Atom>, ds: seq<Item>, items: seq<Item>, i: nat,
                          vi: VarInfo, pos: Word, labels: map<string, Word>)
  {
    && |speakers| == |ds| && i + |ds| <= |items|
    && forall k :: 0 <= k < |ds| ==>
         ValidAtom(speakers[k]) && SameMeaning(speakers[k], ds[k], items[i + k], vi, pos, labels)
  }

  lemma SaysMeans(atom: Atom, x: Code, item: Item, vi: VarInfo, pos: Word, labels: map<string, Word>)
    requires ValidAtom(atom) && ClearAtom(atom, vi) && Says(atom, x, item, vi, pos, labels)
    ensures |DisAtom(atom, x, vi).items| == 1 && DisAtom(atom, x, vi).oplen == None
    ensures SameMeaning(atom, DisAtom(atom, x, vi).items[0], item, vi, pos, labels)
  {
    match atom {
      case RImmAtom(bf, _) => ReadersAgree(bf, x, labels, pos);
      case RegAtom(reg) => PrintedNameIsRead(reg, x, vi);
      case _ =>
    }
  }

  lemma SpeaksOnce(atom: Atom, x: Code, items: seq<Item>, i: nat, vi: VarInfo, pos: Word, labels: map<string, Word>)
    requires ValidAtom(atom) && ClearAtom(atom, vi) && !atom.TabAtom?
    requires Silent(atom) || (i < |items| && Says(atom, x, items[i], vi, pos, labels))
    requires i <= |items|
    ensures Matches(if Silent(atom) then [] else [atom], DisAtom(atom, x, vi).items, items, i, vi, pos, labels)
  {
    hide SameMeaning, Says, DisAtom, ClearAtom;
    if Silent(atom) {
      SilentSays(atom, x, vi);
    } else {
      SaysMeans(atom, x, items[i], vi, pos, labels);
    }
  }

  lemma SilentSays(atom: Atom, x: Code, vi: VarInfo)
    requires ValidAtom(atom) && Silent(atom) && !atom.TabAtom?
    ensures DisAtom(atom, x, vi).items == []
  {
  }

  /** When the path takes the disassembler's own rows, the disassembler prints,
      token for token, what the source said, and the same length. */
  lemma {:induction false} DisFollows(atoms: Atoms, path: Path, x: Code, items: seq<Item>, i: nat, j: nat,
                                      vi: VarInfo, pos: Word, labels: map<string, Word>)
    requires ValidAtoms(atoms) && ClearAtoms(atoms, vi)
    requires ReadsAs(atoms, path, x, items, i, j, vi, pos, labels) && TakesFirst(atoms, path, x, vi)
    requires j <= |items|
    ensures var d := DisAtoms(atoms, x, vi);
            && |d.items| == j - i
            && d.oplen == (if PathLen(atoms, path) == 0 then None else Some(PathLen(atoms, path)))
            && Matches(Speakers(atoms, path), d.items, items, i, vi, pos, labels)
    decreases path
  {
    hide SameMeaning, Says, Matches;
    MatchesNothing(items, i, vi, pos, labels);
    if atoms.ACons? {
      var d0, d1 := DisAtom(atoms.head, x, vi), DisAtoms(atoms.tail, x, vi);
      assert ValidAtom(atoms.head) && ClearAtom(atoms.head, vi);
      ReadsForward(atoms.tail, path.next, x, items, path.mid, j, vi, pos, labels);
      DisFollows(atoms.tail, path.next, x, items, path.mid, j, vi, pos, labels);
      if atoms.head.TabAtom? {
        FirstRowOf(atoms.head.tab, x, vi);
        DisFollows(path.row.atoms, path.inner, x, items, i, path.mid, vi, pos, labels);
        assert d0 == DisTab(atoms.head.tab, x, vi) == DisAtoms(path.row.atoms, x, vi);
        MatchesJoin(Speakers(path.row.atoms, path.inner), Speakers(atoms.tail, path.next), d0.items, d1.items,
                    items, i, path.mid, vi, pos, labels);
      } else {
        SpeaksOnce(atoms.head, x, items, i, vi, pos, labels);
        MatchesCount(if Silent(atoms.head) then [] else [atoms.head], d0.items, items, i, vi, pos, labels);
        MatchesJoin(if Silent(atoms.head) then [] else [atoms.head], Speakers(atoms.tail, path.next), d0.items,
                    d1.items, items, i, path.mid, vi, pos, labels);
      }
    }
  }

  lemma MatchesNothing(items: seq<Item>, i: nat, vi: VarInfo, pos: Word, labels: map<string, Word>)
    ensures i <= |items| ==> Matches([], [], items, i, vi, pos, labels)
  {
  }

  lemma MatchesCount(speakers: seq<Atom>, d: seq<Item>, items: seq<Item>, i: nat, vi: VarInfo, pos: Word,
                     labels: map<string, Word>)
    requires Matches(speakers, d, items, i, vi, pos, labels)
    ensures |d| == |speakers|
  {
  }

  lemma MatchesJoin(s0: seq<Atom>, s1: seq<Atom>, d0: seq<Item>, d1: seq<Item>, items: seq<Item>, i: nat, mid: nat,
                    vi: VarInfo, pos: Word, labels: map<string, Word>)
    requires mid == i + |d0|
    requires Matches(s0, d0, items, i, vi, pos, labels) && Matches(s1, d1, items, mid, vi, pos, labels)
    ensures Matches(s0 + s1, d0 + d1, items, i, vi, pos, labels)
  {
    hide SameMeaning;
    forall k | 0 <= k < |d0 + d1|
      ensures ValidAtom((s0 + s1)[k]) && SameMeaning((s0 + s1)[k], (d0 + d1)[k], items[i + k], vi, pos, labels)
    {
      if k >= |d0| {
        assert items[mid + (k - |d0|)] == items[i + k];
        assert SameMeaning(s1[k - |d0|], d1[k - |d0|], items[mid + (k - |d0|)], vi, pos, labels);
      }
    }
  }

  lemma {:induction false} ReadsForward(atoms: Atoms, path: Path, x: Code, items: seq<Item>, i: nat, j: nat,
                                        vi: VarInfo, pos: Word, labels: map<string, Word>)
    requires ValidAtoms(atoms) && ReadsAs(atoms, path, x, items, i, j, vi, pos, labels)
    ensures i <= j
    decreases path
  {
    if atoms.ACons? {
      ReadsForward(atoms.tail, path.next, x, items, path.mid, j, vi, pos, labels);
      if atoms.head.TabAtom? {
        assert ValidAtom(atoms.head);
        RowOfValid(path.row, atoms.head.tab);
        ReadsForward(path.row.atoms, path.inner, x, items, i, path.mid, vi, pos, labels);
      }
    }
  }

  /** The rows that a result of `do_as` was found along are those that the disassembler
      takes for `x`. */
  ghost predicate OwnRows(root: Table, row: Table, path: Path, x: Code, vi: VarInfo)
    requires ValidTable(root)
  {
    row == FirstRow(root, x, vi) && TakesFirst(row.atoms, path, x, vi)
  }

  /** `x` reads along the rows as the tokens; and if they are its own rows, in a table
      without ambiguous names, the disassembler prints of it the same meaning token for
      token, and the length. */
  ghost predicate ReadsBack(root: Table, row: Table, path: Path, x: Code, items: seq<Item>, oplen: nat,
                            vi: VarInfo, pos: Word, labels: map<string, Word>)
    requires ValidTable(root)
  {
    && row.Row? && ReadsTable(root, row, path, x, items, 0, |items|, vi, pos, labels)
    && (ClearTable(root, vi) && OwnRows(root, row, path, x, vi) ==>
          && Matches(Speakers(row.atoms, path), DisTab(root, x, vi).items, items, 0, vi, pos, labels)
          && |DisTab(root, x, vi).items| == |items|
          && DisTab(root, x, vi).oplen == if oplen == 0 then None else Some(oplen))
  }

  /** Source to bits to text, for every result of `do_as` and every opcode it resolves to,
      at any position and under any labels. */
  lemma SourceReadsBack(root: Table, items: seq<Item>, vi: VarInfo, mt: Match) returns (row: Table, path: Path)
    requires ValidTable(root) && mt in DoAs(root, items, vi)
    ensures GoodMatch(mt) && RowOf(row, root)
    ensures forall pos, labels, x :: ResolvesTo(mt, pos, labels, x) ==>
              ReadsBack(root, row, path, x, items, mt.oplen, vi, pos, labels)
  {
    hide Matches, Resolve, SameMeaning;
    row, path := AssemblerSound(root, items, vi, mt);
    forall pos, labels, x | ResolvesTo(mt, pos, labels, x)
      ensures ReadsBack(root, row, path, x, items, mt.oplen, vi, pos, labels)
    {
      assert ReadsTable(root, row, path, x, items, 0, |items|, vi, pos, labels);
      if ClearTable(root, vi) && OwnRows(root, row, path, x, vi) {
        FirstRowOf(root, x, vi);
        DisFollows(row.atoms, path, x, items, 0, |items|, vi, pos, labels);
      }
    }
  }
}
