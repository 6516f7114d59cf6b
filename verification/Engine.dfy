/** The routines of the assembler and disassembler cores in the form they are
    written in: loops over the two-word bit and mask arrays, growing match lists,
    and a disassembly context that the atoms append to.  Each is proved to
    compute the function of the same purpose in `Fields` and `Tables`. */
module Engine {
  import opened Options
  import opened Words
  import opened Exprs
  import opened Fields
  import opened Relocs
  import opened Registers
  import opened Tables
  import opened UsedBits

  // ---------------------------------------------------------------------
  // Bit fields in place
  // ---------------------------------------------------------------------

  /** `bf_`: reads a piece and marks its bits as used. */
  method Bf(f: Sbf, a: array<Word>, m: array<Word>) returns (res: Word)
    requires a.Length == MAXOPLEN && m.Length == MAXOPLEN && a != m && FitsSbf(f)
    modifies m
    ensures res == ReadSbf(f, a[..])
    ensures m[..] == MarkSbf(f, old(m[..]))
  {
    var idx, bit := f.pos / 64, f.pos % 64;
    var m0 := Shl(Ones(f.len), bit);
    m[idx] := Words.Or(m[idx], m0);
    res := Shr(Words.And(a[idx], m0), bit);
    if bit + f.len > 64 {
      var m1 := Shr(Ones(f.len), 64 - bit);
      m[idx + 1] := Words.Or(m[idx + 1], m1);
      res := Words.Or(res, Shl(Words.And(a[idx + 1], m1), 64 - bit));
    }
  }

  /** `getbf_as` (and `getbf`, which is the same code). */
  method GetField(bf: Bitfield, a: array<Word>, m: array<Word>) returns (res: Word)
    requires a.Length == MAXOPLEN && m.Length == MAXOPLEN && a != m && ValidBf(bf)
    modifies m
    ensures res == GetBf(bf, a[..])
    ensures m[..] == MarkSbf(bf.s1, MarkSbf(bf.s0, old(m[..])))
  {
    hide ReadSbf, MarkSbf, Interpret, Words.Or, Shl, Xor, Add;
    var low := Bf(bf.s0, a, m);
    var high := Bf(bf.s1, a, m);
    res := Words.Or(Shl(low, bf.shr), Shl(high, bf.shr + bf.s0.len));
    RawFits(bf, a[..]);
    res := Interpret(bf.mode, Total(bf.s0, bf.s1, bf.shr), res);
    res := Xor(res, bf.xorend);
    res := Add(res, bf.addend);
  }

  /** `setsbf` */
  method SetPiece(a: array<Word>, m: array<Word>, f: Sbf, num: Word) returns (ok: bool)
    requires a.Length == MAXOPLEN && m.Length == MAXOPLEN && a != m && FitsSbf(f)
    modifies a, m
    ensures Fill(ok, a[..], m[..]) == SetSbf(old(a[..]), old(m[..]), f, num)
  {
    if f.len == 0 {
      return true;
    }
    var idx, bit := f.pos / 64, f.pos % 64;
    var m0 := Shl(Ones(f.len), bit);
    var a0 := Words.And(Shl(num, bit), m0);
    if Words.And(Words.And(a0, m0), m[idx]) == Words.And(Words.And(a[idx], m0), m[idx]) {
      a[idx] := Words.Or(a[idx], a0);
      m[idx] := Words.Or(m[idx], m0);
    } else {
      return false;
    }
    if bit + f.len > 64 {
      var m1 := Shr(Ones(f.len), 64 - bit);
      var a1 := Words.And(Shr(num, 64 - bit), m1);
      if Words.And(Words.And(a1, m1), m[idx + 1]) == Words.And(Words.And(a[idx + 1], m1), m[idx + 1]) {
        a[idx + 1] := Words.Or(a[idx + 1], a1);
        m[idx + 1] := Words.Or(m[idx + 1], m1);
      } else {
        return false;
      }
    }
    return true;
  }

  /** The table search of `setbf`. */
  method SearchLut(table: seq<Word>, num: Word) returns (j: nat)
    ensures j == FindLut(table, num, 0)
  {
    j := 0;
    while j < |table| && table[j] != num
      invariant j <= |table| && FindLut(table, num, 0) == FindLut(table, num, j)
    {
      j := j + 1;
    }
  }

  /** `setbf` */
  method SetField(a: array<Word>, m: array<Word>, bf: Bitfield, onum: Word) returns (ok: bool)
    requires a.Length == MAXOPLEN && m.Length == MAXOPLEN && a != m && ValidBf(bf)
    modifies a, m
    ensures Fill(ok, a[..], m[..]) == SetBf(old(a[..]), old(m[..]), bf, onum)
  {
    var num := Xor(Sub(onum, bf.addend), bf.xorend);
    if bf.mode.Lut? {
      var j := SearchLut(bf.mode.table, num);
      if j == |bf.mode.table| {
        return false;
      }
      num := FromNat(j);
    }
    num := Shr(num, bf.shr);
    var _ := SetPiece(a, m, bf.s0, num);
    num := Shr(num, bf.s0.len);
    var _ := SetPiece(a, m, bf.s1, num);
    var back := GetField(bf, a, m);
    return back == onum;
  }

  /** `getrbf_as` */
  method GetReloc(bf: RBitfield, a: array<Word>, m: array<Word>, cpos: Word) returns (res: Word)
    requires a.Length == MAXOPLEN && m.Length == MAXOPLEN && a != m && ValidRbf(bf)
    modifies m
    ensures res == GetRbfAs(bf, a[..], cpos)
    ensures m[..] == MarkSbf(bf.s1, MarkSbf(bf.s0, old(m[..])))
  {
    var low := Bf(bf.s0, a, m);
    var high := Bf(bf.s1, a, m);
    res := Words.Or(Shl(low, bf.shr), Shl(high, bf.shr + bf.s0.len));
    res := Interpret(bf.mode, FieldTotal(bf), res);
    if bf.pcrel {
      res := Add(res, PosBase(bf, cpos));
    }
    res := Add(res, bf.addend);
  }

  /** `getrbf` */
  method GetTarget(bf: RBitfield, a: array<Word>, m: array<Word>) returns (e: Expr)
    requires a.Length == MAXOPLEN && m.Length == MAXOPLEN && a != m && ValidRbf(bf)
    modifies m
    ensures e == GetRbf(bf, a[..])
    ensures m[..] == MarkSbf(bf.s1, MarkSbf(bf.s0, old(m[..])))
  {
    hide ReadSbf, MarkSbf, Interpret, Words.Or, Shl;
    var low := Bf(bf.s0, a, m);
    var high := Bf(bf.s1, a, m);
    var res := Words.Or(Shl(low, bf.shr), Shl(high, bf.shr + bf.s0.len));
    res := Interpret(bf.mode, FieldTotal(bf), res);
    if bf.pcrel {
      e := Pos;
      if bf.pospreadd != Zero() {
        e := Bin(AddOp, e, Num(bf.pospreadd));
      }
      if bf.shr != 0 {
        e := Bin(AndOp, e, Num(HighOnes(bf.shr)));
      }
      e := Bin(AddOp, e, Num(res));
      if bf.addend != Zero() {
        e := Bin(AddOp, e, Num(bf.addend));
      }
    } else {
      res := Add(res, bf.addend);
      e := Num(res);
    }
  }

  /** One iteration of `resolve` (and, at position 0, the number case of
      `setrbf`). */
  method FillReloc(a: array<Word>, m: array<Word>, bf: RBitfield, val: Word, pos: Word) returns (ok: bool)
    requires a.Length == MAXOPLEN && m.Length == MAXOPLEN && a != m && ValidRbf(bf)
    modifies a, m
    ensures Fill(ok, a[..], m[..]) == FillRbf(old(a[..]), old(m[..]), bf, val, pos)
  {
    var num := Sub(val, bf.addend);
    if bf.pcrel {
      num := Sub(num, PosBase(bf, pos));
    }
    num := Shr(num, bf.shr);
    var _ := SetPiece(a, m, bf.s0, num);
    num := Shr(num, bf.s0.len);
    var _ := SetPiece(a, m, bf.s1, num);
    var mask := CheckMask(bf);
    var back := GetReloc(bf, a, m, pos);
    return Words.And(back, mask) == Words.And(val, mask);
  }

  // ---------------------------------------------------------------------
  // Match lists
  // ---------------------------------------------------------------------

  method Compatible(a: Match, b: Match) returns (ok: bool)
    ensures ok == !Conflict(a, b)
  {
    var j := 0;
    while j < MAXOPLEN
      invariant 0 <= j <= MAXOPLEN
      invariant forall k :: 0 <= k < j ==>
        Words.And(a.a[k], Words.And(a.m[k], b.m[k])) == Words.And(b.a[k], Words.And(a.m[k], b.m[k]))
    {
      var cmask := Words.And(a.m[j], b.m[j]);
      if Words.And(a.a[j], cmask) != Words.And(b.a[j], cmask) {
        return false;
      }
      j := j + 1;
    }
    return true;
  }

  lemma {:induction false} MergeSnoc(a: Match, bs: seq<Match>, b: Match)
    ensures MergeMatches(a, bs + [b]) == MergeMatches(a, bs) + (if Conflict(a, b) then [] else [Merge(a, b)])
  {
    if bs != [] {
      assert (bs + [b])[1..] == bs[1..] + [b];
      MergeSnoc(a, bs[1..], b);
    }
  }

  /** `mergematches` */
  method MergeAll(a: Match, b: seq<Match>) returns (res: seq<Match>)
    ensures res == MergeMatches(a, b)
  {
    res := [];
    var i := 0;
    while i < |b|
      invariant 0 <= i <= |b|
      invariant res == MergeMatches(a, b[..i])
    {
      var ok := Compatible(a, b[i]);
      if ok {
        res := res + [Merge(a, b[i])];
      }
      MergeSnoc(a, b[..i], b[i]);
      assert b[..i + 1] == b[..i] + [b[i]];
      i := i + 1;
    }
    assert b[..i] == b;
  }

  /** The one match of an immediate or register atom: a fresh match whose arrays
      `setbf` fills. */
  method FieldMatch(bf: Bitfield, num: Word, lpos: nat) returns (ms: Option<seq<Match>>)
    requires ValidBf(bf)
    ensures ms == Filled(SetBf(Blank(), Blank(), bf, num), lpos)
  {
    var a := new Word[MAXOPLEN](_ => Zero());
    var m := new Word[MAXOPLEN](_ => Zero());
    assert a[..] == Blank() && m[..] == Blank();
    var ok := SetField(a, m, bf, num);
    if ok {
      ms := Some([Match(0, a[..], m[..], lpos, [])]);
    } else {
      ms := None;
    }
  }

  /** `setrbf` on a fresh match: a number goes straight into an absolute field, anything
      else that can be computed is left to a relocation. */
  method RelocMatch(bf: RBitfield, e: Expr, lpos: nat) returns (res: Option<Match>)
    requires ValidRbf(bf)
    ensures res == SetRbf(bf, e, lpos)
  {
    if !IsImm(e) {
      return None;
    }
    if !e.Num? || bf.pcrel {
      return Some(Match(0, Blank(), Blank(), lpos, [Reloc(bf, e)]));
    }
    var a := new Word[MAXOPLEN](_ => Zero());
    var m := new Word[MAXOPLEN](_ => Zero());
    assert a[..] == Blank() && m[..] == Blank();
    var ok := FillReloc(a, m, bf, e.n, Zero());
    res := if ok then Some(Match(0, a[..], m[..], lpos, [])) else None;
  }

  lemma {:induction false} DescSnoc(ms: seq<Match>, m: Match, atoms: Atoms, items: seq<Item>, vi: VarInfo)
    requires ValidAtoms(atoms)
    ensures DescAll(ms + [m], atoms, items, vi) == DescAll(ms, atoms, items, vi) + OrEmpty(TabDesc(m, atoms, items, vi))
    decreases |ms|
  {
    hide TabDesc;
    if ms != [] {
      assert (ms + [m])[1..] == ms[1..] + [m];
      DescSnoc(ms[1..], m, atoms, items, vi);
    }
  }

  lemma {:induction false} DescNil(ms: seq<Match>, items: seq<Item>, vi: VarInfo)
    ensures DescAll(ms, ANil, items, vi) == ms
    decreases |ms|
  {
    if ms != [] {
      DescNil(ms[1..], items, vi);
    }
  }

  /** The `fun_as` calls. */
  method RunAtom(atom: Atom, items: seq<Item>, spos: nat, vi: VarInfo) returns (ms: Option<seq<Match>>)
    requires ValidAtom(atom)
    ensures ms == AtomA(atom, items, spos, vi)
    decreases atom
  {
    hide SetBf, SetRbf, NamedNum;
    if atom.TabAtom? {
      var all := RunTable(atom.tab, items, spos, vi);
      ms := Some(all);
    } else if atom.ImmAtom? || atom.RImmAtom? || atom.RegAtom? {
      ms := RunField(atom, items, spos, vi);
    } else {
      ms := RunPlain(atom, items, spos, vi);
    }
  }

  /** The loop of `matchreg` over the special registers, and the plain name behind it. */
  method FindName(reg: RegDesc, e: Expr, vi: VarInfo) returns (num: Option<Word>)
    ensures num == NamedNum(reg, e, reg.specials, vi)
  {
    hide PlainNum, VarOk;
    for i := 0 to |reg.specials|
      invariant NamedNum(reg, e, reg.specials, vi) == NamedNum(reg, e, reg.specials[i..], vi)
    {
      var s := reg.specials[i];
      var found := false;
      match s.mode {
        case Named(name) => found := e.Reg? && e.name == name;
        case IsZero => found := e.Num? && e.n == Zero();
        case IsOne => found := e.Num? && e.n == OneHot(0);
        case IsDiscard => found := e.Discard?;
      }
      assert reg.specials[i..][1..] == reg.specials[i + 1..];
      if VarOk(s.fmask, {}, vi) && found {
        return Some(s.num);
      }
    }
    num := if e.Reg? then PlainNum(reg, e.name) else None;
  }

  /** `atomimm_a`, `atomrimm_a` and `atomreg_a` */
  method RunField(atom: Atom, items: seq<Item>, spos: nat, vi: VarInfo) returns (ms: Option<seq<Match>>)
    requires ValidAtom(atom) && (atom.ImmAtom? || atom.RImmAtom? || atom.RegAtom?)
    ensures ms == AtomA(atom, items, spos, vi)
  {
    ms := None;
    if spos >= |items| || !items[spos].ExprItem? {
      return;
    }
    var e := items[spos].e;
    match atom {
      case ImmAtom(bf) =>
        if e.Num? {
          ms := FieldMatch(bf, e.n, spos + 1);
        }
      case RImmAtom(bf, _) =>
        var m := RelocMatch(bf, e, spos + 1);
        ms := if m.Some? then Some([m.value]) else None;
      case RegAtom(reg) =>
        var num := FindName(reg, e, vi);
        if num.Some? && reg.bf.Some? {
          ms := FieldMatch(reg.bf.value, num.value, spos + 1);
        } else if num == Some(Zero()) {
          ms := Some([Always(spos + 1)]);
        }
    }
  }

  /** The other handlers: a token is taken or refused, or nothing is looked at. */
  method RunPlain(atom: Atom, items: seq<Item>, spos: nat, vi: VarInfo) returns (ms: Option<seq<Match>>)
    requires ValidAtom(atom) && !atom.TabAtom? && !atom.ImmAtom? && !atom.RImmAtom? && !atom.RegAtom?
    ensures ms == AtomA(atom, items, spos, vi)
  {
    var taken := false;
    match atom {
      case OpLenAtom(n) => return Some([Match(n, Blank(), Blank(), spos, [])]);
      case EndMarkAtom => return Some([Always(spos)]);
      case IgnoreAtom(_) => return Some([Always(spos)]);
      case UnkAtom(_) => return None;
      case SeStartAtom => taken := spos < |items| && items[spos].SeStart?;
      case SeEndAtom => taken := spos < |items| && items[spos].SeEnd?;
      case NameAtom(s) => taken := spos < |items| && items[spos].NameItem? && items[spos].name == s;
      case CmdAtom(s) =>
        taken := spos < |items| && items[spos].ExprItem? && items[spos].e.Label? && items[spos].e.name == s;
      case DiscardAtom => taken := spos < |items| && items[spos].ExprItem? && items[spos].e.Discard?;
    }
    ms := if taken then Some([Always(spos + 1)]) else None;
  }

  /** `tabdesc` */
  method RunAtoms(m: Match, atoms: Atoms, items: seq<Item>, vi: VarInfo) returns (res: Option<seq<Match>>)
    requires ValidAtoms(atoms)
    ensures res == TabDesc(m, atoms, items, vi)
    decreases atoms
  {
    if atoms.ANil? {
      return Some([m]);
    }
    var first := RunAtom(atoms.head, items, m.lpos, vi);
    if first.None? {
      return None;
    }
    var ms := MergeAll(m, first.value);
    if atoms.tail.ANil? {
      DescNil(ms, items, vi);
      return Some(ms);
    }
    var all := [];
    var i := 0;
    while i < |ms|
      invariant 0 <= i <= |ms|
      invariant all == DescAll(ms[..i], atoms.tail, items, vi)
    {
      var tmp := RunAtoms(ms[i], atoms.tail, items, vi);
      if tmp.Some? {
        all := all + tmp.value;
      }
      DescSnoc(ms[..i], ms[i], atoms.tail, items, vi);
      assert ms[..i + 1] == ms[..i] + [ms[i]];
      i := i + 1;
    }
    assert ms[..i] == ms;
    return Some(all);
  }

  lemma TabSplit(row: Table, items: seq<Item>, spos: nat, vi: VarInfo, before: seq<Match>, after: seq<Match>)
    requires ValidTable(row)
    requires after == before + (if VarOk(row.fmask, row.ptype, vi)
                                then OrEmpty(TabDesc(RowStart(row, spos), row.atoms, items, vi)) else [])
    ensures before + TabA(row, items, spos, vi) ==
            after + (if IsLast(row) then [] else TabA(row.next, items, spos, vi))
  {
    hide TabA, TabDesc, VarOk, RowStart;
    TabForm(row, items, spos, vi);
    var rest := if IsLast(row) then [] else TabA(row.next, items, spos, vi);
    var mine := if VarOk(row.fmask, row.ptype, vi)
                then OrEmpty(TabDesc(RowStart(row, spos), row.atoms, items, vi)) else [];
    assert before + (mine + rest) == (before + mine) + rest;
  }

  lemma TabForm(row: Table, items: seq<Item>, spos: nat, vi: VarInfo)
    requires ValidTable(row)
    ensures TabA(row, items, spos, vi) ==
            (if VarOk(row.fmask, row.ptype, vi)
             then OrEmpty(TabDesc(RowStart(row, spos), row.atoms, items, vi)) else [])
            + (if IsLast(row) then [] else TabA(row.next, items, spos, vi))
  {
    hide TabDesc, VarOk, RowStart, OrEmpty;
  }

  /** `atomtab_a` */
  method RunTable(t: Table, items: seq<Item>, spos: nat, vi: VarInfo) returns (res: seq<Match>)
    requires ValidTable(t)
    ensures res == TabA(t, items, spos, vi)
    decreases t
  {
    res := [];
    var row := t;
    while true
      invariant ValidTable(row) && (row == t || row < t)
      invariant TabA(t, items, spos, vi) == res + TabA(row, items, spos, vi)
      decreases row
    {
      ghost var before := res;
      if VarOk(row.fmask, row.ptype, vi) {
        var sub := RunAtoms(RowStart(row, spos), row.atoms, items, vi);
        if sub.Some? {
          res := res + sub.value;
        }
      }
      TabSplit(row, items, spos, vi, before, res);
      if IsLast(row) {
        return;
      }
      row := row.next;
    }
  }

  lemma {:induction false} CompleteSnoc(ms: seq<Match>, m: Match, n: nat)
    ensures Complete(ms + [m], n) == Complete(ms, n) + (if m.lpos == n then [m] else [])
  {
    if ms != [] {
      assert (ms + [m])[1..] == ms[1..] + [m];
      CompleteSnoc(ms[1..], m, n);
    }
  }

  /** `do_as` on a flattened instruction. */
  method Assemble(root: Table, items: seq<Item>, vi: VarInfo) returns (res: seq<Match>)
    requires ValidTable(root)
    ensures res == DoAs(root, items, vi)
  {
    hide TabA;
    var ms := RunTable(root, items, 0, vi);
    res := [];
    var i := 0;
    while i < |ms|
      invariant 0 <= i <= |ms| && res == Complete(ms[..i], |items|)
    {
      if ms[i].lpos == |items| {
        res := res + [ms[i]];
      }
      CompleteSnoc(ms[..i], ms[i], |items|);
      assert ms[..i + 1] == ms[..i] + [ms[i]];
      i := i + 1;
    }
    assert ms[..i] == ms;
  }

  // ---------------------------------------------------------------------
  // Disassembly context
  // ---------------------------------------------------------------------

  /** The row search of `atomtab_d`. */
  method FindRow(t: Table, x: Code, vi: VarInfo) returns (row: Table)
    requires ValidTable(t)
    ensures row == FirstRow(t, x, vi)
  {
    hide Fires;
    row := t;
    while !Fires(row, x, vi)
      invariant ValidTable(row) && (row == t || row < t)
      invariant FirstRow(t, x, vi) == FirstRow(row, x, vi)
      decreases row
    {
      if IsLast(row) {
        LastFires(row, x, vi);
      }
      row := row.next;
    }
  }

  lemma ThenThrough(done: Reading, step: Reading, rest: Reading)
    ensures Then(done, Then(step, rest)) == Then(Then(done, step), rest)
    ensures Then(done, Nothing()) == done && Then(Nothing(), done) == done
  {
    assert (done.items + step.items) + rest.items == done.items + (step.items + rest.items);
    assert done.items + [] == done.items && [] + done.items == done.items;
  }

  lemma AtomsStep(atoms: Atoms, x: Code, vi: VarInfo)
    requires ValidAtoms(atoms)
    ensures DisAtoms(atoms, x, vi) ==
            if atoms.ANil? then Nothing() else Then(DisAtom(atoms.head, x, vi), DisAtoms(atoms.tail, x, vi))
  {
    hide DisAtom, Then;
  }

  /** `struct disctx` */
  class DisContext {
    var items: seq<Item>
    var oplen: nat
    var endmark: bool
    const vi: VarInfo

    constructor (vi: VarInfo)
      ensures this.vi == vi && items == [] && oplen == 0 && !endmark
    {
      this.vi := vi;
      items, oplen, endmark := [], 0, false;
    }

    /** The context after a walk that added `r`. */
    twostate predicate Gained(r: Reading)
      reads this
    {
      && items == old(items) + r.items
      && oplen == (if r.oplen.Some? then r.oplen.value else old(oplen))
      && endmark == (old(endmark) || r.endmark)
    }

    /** The `fun_dis` calls: the opcode in `a`, and the bits looked at so far in `m`. */
    method RunAtom(atom: Atom, a: array<Word>, m: array<Word>)
      requires ValidAtom(atom) && a.Length == MAXOPLEN && m.Length == MAXOPLEN && a != m
      modifies this, m
      ensures Gained(DisAtom(atom, a[..], vi)) && m[..] == AtomMask(atom, a[..], vi, old(m[..]))
      decreases atom
    {
      hide MarkSbf, GetBf, GetRbf, PrintNum;
      match atom {
        case TabAtom(t) => RunTable(t, a, m);
        case OpLenAtom(n) => oplen := n;
        case EndMarkAtom => endmark := true;
        case IgnoreAtom(f) => var _ := Bf(f, a, m);
        case SeStartAtom => items := items + [SeStart];
        case SeEndAtom => items := items + [SeEnd];
        case NameAtom(s) => items := items + [NameItem(s, false)];
        case CmdAtom(s) => items := items + [ExprItem(Label(s))];
        case UnkAtom(s) => items := items + [NameItem(s, true)];
        case DiscardAtom => items := items + [ExprItem(Discard)];
        case _ => RunFieldAtom(atom, a, m);
      }
    }

    /** `atomimm_d`, `atomrimm_d` and `atomreg_d` */
    method RunFieldAtom(atom: Atom, a: array<Word>, m: array<Word>)
      requires ValidAtom(atom) && (atom.ImmAtom? || atom.RImmAtom? || atom.RegAtom?)
      requires a.Length == MAXOPLEN && m.Length == MAXOPLEN && a != m
      modifies this, m
      ensures Gained(DisAtom(atom, a[..], vi)) && m[..] == AtomMask(atom, a[..], vi, old(m[..]))
    {
      hide MarkSbf, GetBf, GetRbf, PrintNum;
      var e;
      match atom {
        case ImmAtom(bf) =>
          var num := GetField(bf, a, m);
          e := Num(num);
        case RImmAtom(bf, _) => e := GetTarget(bf, a, m);
        case RegAtom(reg) => e := ShowReg(reg, a, m);
      }
      items := items + [ExprItem(e)];
    }

    /** `printreg`, and the zero that `atomreg_d` shows where it prints nothing. */
    method ShowReg(reg: RegDesc, a: array<Word>, m: array<Word>) returns (e: Expr)
      requires ValidReg(reg) && a.Length == MAXOPLEN && m.Length == MAXOPLEN && a != m
      modifies m
      ensures e == PrintReg(reg, a[..], vi)
      ensures m[..] == if reg.bf.Some? then MarkPieces(reg.bf.value.s0, reg.bf.value.s1, old(m[..])) else old(m[..])
    {
      hide MarkSbf, GetBf, PlainText, VarOk;
      var num := Zero();
      if reg.bf.Some? {
        num := GetField(reg.bf.value, a, m);
      }
      for i := 0 to |reg.specials|
        invariant PrintNum(reg, num, reg.specials, vi) == PrintNum(reg, num, reg.specials[i..], vi)
        invariant num == RegNum(reg, a[..])
      {
        assert reg.specials[i..][1..] == reg.specials[i + 1..];
        if VarOk(reg.specials[i].fmask, {}, vi) && num == reg.specials[i].num {
          return SpecialText(reg.specials[i].mode);
        }
      }
      e := Reg(PlainText(reg, num));
    }

    /** `atomtab_d`: find the first row that fires, mark its bits, and run all its atoms. */
    method RunTable(t: Table, a: array<Word>, m: array<Word>)
      requires ValidTable(t) && a.Length == MAXOPLEN && m.Length == MAXOPLEN && a != m
      modifies this, m
      ensures Gained(DisTab(t, a[..], vi)) && m[..] == TabMask(t, a[..], vi, old(m[..]))
      decreases t
    {
      hide Fires, DisAtom;
      ghost var was := m[..];
      var row := FindRow(t, a[..], vi);
      m[0] := Words.Or(m[0], row.mask);
      assert m[..] == MarkRow(row, was);
      RunAtoms(row.atoms, a, m);
    }

    method RunAtoms(atoms: Atoms, a: array<Word>, m: array<Word>)
      requires ValidAtoms(atoms) && a.Length == MAXOPLEN && m.Length == MAXOPLEN && a != m
      modifies this, m
      ensures Gained(DisAtoms(atoms, a[..], vi)) && m[..] == AtomsMask(atoms, a[..], vi, old(m[..]))
      decreases atoms, 0
    {
      hide DisAtom, DisAtoms, AtomMask;
      var rest := atoms;
      ghost var x, done := a[..], Nothing();
      ThenThrough(DisAtoms(atoms, x, vi), done, done);
      while rest.ACons?
        invariant ValidAtoms(rest) && (rest == atoms || rest < atoms) && a[..] == x
        invariant DisAtoms(atoms, x, vi) == Then(done, DisAtoms(rest, x, vi))
        invariant AtomsMask(atoms, x, vi, old(m[..])) == AtomsMask(rest, x, vi, m[..])
        invariant Gained(done)
        decreases rest
      {
        ghost var step := DisAtom(rest.head, x, vi);
        AtomsStep(rest, x, vi);
        ThenThrough(done, step, DisAtoms(rest.tail, x, vi));
        RunAtom(rest.head, a, m);
        done := Then(done, step);
        rest := rest.tail;
      }
      AtomsStep(rest, x, vi);
      ThenThrough(done, done, done);
    }
  }
}
