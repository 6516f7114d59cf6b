/** The instruction tables and their two interpretations.

    A table row holds a value, a mask and a list of atoms; an atom may be another
    table.  `DisTab` reads an opcode with the first row that matches
    (`atomtab_d`); `TabA`/`TabDesc` collect every way to spell a token list as a
    partly known opcode (`atomtab_a`, `tabdesc`, `mergematches`). */
module Tables {
  import opened Options
  import opened Words
  import opened Exprs
  import opened Fields
  import opened Relocs
  import opened Registers

  /** `struct litem`: one token of a flattened instruction. */
  datatype Item = NameItem(name: string, isunk: bool) | ExprItem(e: Expr) | SeStart | SeEnd

  datatype Target = PlainTarget | CallTarget | BranchTarget

  datatype Atom =
    | TabAtom(tab: Table)
    | OpLenAtom(len: nat)
    | EndMarkAtom
    | IgnoreAtom(f: Sbf)
    | SeStartAtom
    | SeEndAtom
    | NameAtom(name: string)
    | CmdAtom(name: string)
    | UnkAtom(name: string)
    | ImmAtom(bf: Bitfield)
    | RImmAtom(rbf: RBitfield, target: Target)
    | RegAtom(reg: RegDesc)
    | DiscardAtom

  datatype Atoms = ANil | ACons(head: Atom, tail: Atoms)

  datatype Table = TNil | Row(val: Word, mask: Word, atoms: Atoms, fmask: set<nat>, ptype: set<nat>, next: Table)

  /** The row at which `atomtab_a` stops. */
  predicate IsLast(row: Table)
    requires row.Row?
  {
    row.mask == Zero() && row.fmask == {} && row.ptype == {}
  }

  /** What the C code needs of a table: it ends in a catch-all row, no row asks
      for bits outside its mask, and all fields are readable. */
  predicate ValidTable(t: Table) {
    && t.Row?
    && Words.And(t.val, t.mask) == t.val
    && ValidAtoms(t.atoms)
    && (!IsLast(t) ==> ValidTable(t.next))
  }

  predicate ValidAtoms(atoms: Atoms) {
    atoms.ACons? ==> ValidAtom(atoms.head) && ValidAtoms(atoms.tail)
  }

  predicate ValidAtom(atom: Atom) {
    match atom
    case TabAtom(t) => ValidTable(t)
    case OpLenAtom(n) => n > 0
    case IgnoreAtom(f) => FitsSbf(f)
    case ImmAtom(bf) => ValidBf(bf)
    case RImmAtom(bf, _) => ValidRbf(bf)
    case RegAtom(reg) => ValidReg(reg)
    case _ => true
  }

  predicate Fires(row: Table, x: Code, vi: VarInfo)
    requires row.Row?
  {
    Words.And(x[0], row.mask) == row.val && VarOk(row.fmask, row.ptype, vi)
  }

  lemma LastFires(row: Table, x: Code, vi: VarInfo)
    requires ValidTable(row) && IsLast(row)
    ensures Fires(row, x, vi)
  {
    assert Words.And(x[0], row.mask) == Zero() == Words.And(row.val, row.mask);
  }

  // ---------------------------------------------------------------------
  // Disassembly
  // ---------------------------------------------------------------------

  /** What a walk adds to the disassembly context: tokens, the instruction
      length if one was set, and the end mark. */
  datatype Reading = Reading(items: seq<Item>, oplen: Option<nat>, endmark: bool)

  function Nothing(): Reading { Reading([], None, false) }

  function Then(r: Reading, s: Reading): Reading {
    Reading(r.items + s.items, if s.oplen.Some? then s.oplen else r.oplen, r.endmark || s.endmark)
  }

  function Token(item: Item): Reading { Reading([item], None, false) }

  /** The row that `atomtab_d` takes. */
  function FirstRow(t: Table, x: Code, vi: VarInfo): (row: Table)
    requires ValidTable(t)
    ensures row.Row? && Fires(row, x, vi) && ValidAtoms(row.atoms)
    ensures row == t || row < t
    decreases t
  {
    if Fires(t, x, vi) then t
    else
      if IsLast(t) then LastFires(t, x, vi); t
      else FirstRow(t.next, x, vi)
  }

  /** `atomtab_d` */
  function DisTab(t: Table, x: Code, vi: VarInfo): (r: Reading)
    requires ValidTable(t)
    ensures r.oplen != Some(0)
    decreases t, 1
  {
    DisAtoms(FirstRow(t, x, vi).atoms, x, vi)
  }

  function DisAtoms(atoms: Atoms, x: Code, vi: VarInfo): (r: Reading)
    requires ValidAtoms(atoms)
    ensures r.oplen != Some(0)
    decreases atoms
  {
    if atoms.ANil? then Nothing()
    else Then(DisAtom(atoms.head, x, vi), DisAtoms(atoms.tail, x, vi))
  }

  /** The `fun_dis` half of an atom. */
  function DisAtom(atom: Atom, x: Code, vi: VarInfo): (r: Reading)
    requires ValidAtom(atom)
    ensures r.oplen != Some(0)
    decreases atom
  {
    match atom
    case TabAtom(t) => DisTab(t, x, vi)
    case OpLenAtom(n) => Reading([], Some(n), false)
    case EndMarkAtom => Reading([], None, true)
    case IgnoreAtom(_) => Nothing()
    case SeStartAtom => Token(SeStart)
    case SeEndAtom => Token(SeEnd)
    case NameAtom(s) => Token(NameItem(s, false))
    case CmdAtom(s) => Token(ExprItem(Label(s)))
    case UnkAtom(s) => Token(NameItem(s, true))
    case ImmAtom(bf) => Token(ExprItem(Num(GetBf(bf, x))))
    case RImmAtom(bf, _) => Token(ExprItem(GetRbf(bf, x)))
    case RegAtom(reg) => Token(ExprItem(PrintReg(reg, x, vi)))
    case DiscardAtom => Token(ExprItem(Discard))
  }

  // ---------------------------------------------------------------------
  // Assembly
  // ---------------------------------------------------------------------

  datatype Reloc = Reloc(bf: RBitfield, expr: Expr)

  /** `struct match`: a partly known opcode for the tokens before `lpos`. */
  datatype Match = Match(oplen: nat, a: Code, m: Code, lpos: nat, relocs: seq<Reloc>)

  function Blank(): Code { [Zero(), Zero()] }

  /** The match of `alwaysmatches`. */
  function Always(lpos: nat): Match { Match(0, Blank(), Blank(), lpos, []) }

  predicate Conflict(a: Match, b: Match) {
    exists j :: 0 <= j < MAXOPLEN &&
      Words.And(a.a[j], Words.And(a.m[j], b.m[j])) != Words.And(b.a[j], Words.And(a.m[j], b.m[j]))
  }

  function OrCode(c: Code, d: Code): Code { [Words.Or(c[0], d[0]), Words.Or(c[1], d[1])] }

  function Merge(a: Match, b: Match): Match {
    Match(if b.oplen == 0 then a.oplen else b.oplen, OrCode(b.a, a.a), OrCode(b.m, a.m), b.lpos, b.relocs + a.relocs)
  }

  /** `mergematches` */
  function MergeMatches(a: Match, b: seq<Match>): seq<Match> {
    if b == [] then []
    else (if Conflict(a, b[0]) then [] else [Merge(a, b[0])]) + MergeMatches(a, b[1..])
  }

  /** `setrbf` on an empty match: numbers go straight into an absolute field,
      anything else that can be computed is left to a relocation. */
  function SetRbf(bf: RBitfield, e: Expr, lpos: nat): Option<Match>
    requires ValidRbf(bf)
  {
    if !IsImm(e) then None
    else if !e.Num? || bf.pcrel then Some(Always(lpos).(relocs := [Reloc(bf, e)]))
    else
      var r := FillRbf(Blank(), Blank(), bf, e.n, Zero());
      if r.ok then Some(Match(0, r.a, r.m, lpos, [])) else None
  }

  function Filled(r: Fill, lpos: nat): Option<seq<Match>> {
    if r.ok then Some([Match(0, r.a, r.m, lpos, [])]) else None
  }

  predicate ExprAt(items: seq<Item>, spos: nat) { spos < |items| && items[spos].ExprItem? }

  /** `atomimm_a` */
  function ImmA(bf: Bitfield, items: seq<Item>, spos: nat): Option<seq<Match>>
    requires ValidBf(bf)
  {
    if ExprAt(items, spos) && items[spos].e.Num?
    then Filled(SetBf(Blank(), Blank(), bf, items[spos].e.n), spos + 1) else None
  }

  /** `atomrimm_a` */
  function RImmA(bf: RBitfield, items: seq<Item>, spos: nat): Option<seq<Match>>
    requires ValidRbf(bf)
  {
    if ExprAt(items, spos) then
      var r := SetRbf(bf, items[spos].e, spos + 1);
      if r.Some? then Some([r.value]) else None
    else None
  }

  /** `atomreg_a` */
  function RegA(reg: RegDesc, items: seq<Item>, spos: nat, vi: VarInfo): Option<seq<Match>>
    requires ValidReg(reg)
  {
    if ExprAt(items, spos) then Filled(MatchReg(reg, items[spos].e, vi, Blank(), Blank()), spos + 1) else None
  }

  /** The `fun_as` half of an atom: None is the source's null result. */
  function AtomA(atom: Atom, items: seq<Item>, spos: nat, vi: VarInfo): Option<seq<Match>>
    requires ValidAtom(atom)
    decreases atom
  {
    match atom
    case TabAtom(t) => Some(TabA(t, items, spos, vi))
    case OpLenAtom(n) => Some([Always(spos).(oplen := n)])
    case EndMarkAtom => Some([Always(spos)])
    case IgnoreAtom(_) => Some([Always(spos)])
    case SeStartAtom => if spos < |items| && items[spos] == SeStart then Some([Always(spos + 1)]) else None
    case SeEndAtom => if spos < |items| && items[spos] == SeEnd then Some([Always(spos + 1)]) else None
    case NameAtom(s) =>
      if spos < |items| && items[spos].NameItem? && items[spos].name == s then Some([Always(spos + 1)]) else None
    case CmdAtom(s) =>
      if spos < |items| && items[spos] == ExprItem(Label(s)) then Some([Always(spos + 1)]) else None
    case UnkAtom(_) => None
    case ImmAtom(bf) => ImmA(bf, items, spos)
    case RImmAtom(bf, _) => RImmA(bf, items, spos)
    case RegAtom(reg) => RegA(reg, items, spos, vi)
    case DiscardAtom =>
      if spos < |items| && items[spos] == ExprItem(Discard) then Some([Always(spos + 1)]) else None
  }

  /** `tabdesc`: extend one match by the atoms of a row. */
  function TabDesc(m: Match, atoms: Atoms, items: seq<Item>, vi: VarInfo): Option<seq<Match>>
    requires ValidAtoms(atoms)
    decreases atoms, 0
  {
    if atoms.ANil? then Some([m])
    else
      match AtomA(atoms.head, items, m.lpos, vi)
      case None => None
      case Some(ms) => Some(DescAll(MergeMatches(m, ms), atoms.tail, items, vi))
  }

  function DescAll(ms: seq<Match>, atoms: Atoms, items: seq<Item>, vi: VarInfo): seq<Match>
    requires ValidAtoms(atoms)
    decreases atoms, 1, |ms|
  {
    if ms == [] then []
    else OrEmpty(TabDesc(ms[0], atoms, items, vi)) + DescAll(ms[1..], atoms, items, vi)
  }

  function OrEmpty(o: Option<seq<Match>>): seq<Match> { if o.Some? then o.value else [] }

  function RowStart(row: Table, spos: nat): Match
    requires row.Row?
  {
    Match(0, [row.val, Zero()], [row.mask, Zero()], spos, [])
  }

  /** `atomtab_a` */
  function TabA(t: Table, items: seq<Item>, spos: nat, vi: VarInfo): seq<Match>
    requires ValidTable(t)
    decreases t
  {
    (if VarOk(t.fmask, t.ptype, vi) then OrEmpty(TabDesc(RowStart(t, spos), t.atoms, items, vi)) else [])
    + (if IsLast(t) then [] else TabA(t.next, items, spos, vi))
  }

  /** The final filter of `do_as`. */
  function Complete(ms: seq<Match>, n: nat): seq<Match> {
    if ms == [] then [] else (if ms[0].lpos == n then [ms[0]] else []) + Complete(ms[1..], n)
  }

  /** `do_as` on a flattened instruction. */
  function DoAs(root: Table, items: seq<Item>, vi: VarInfo): seq<Match>
    requires ValidTable(root)
  {
    Complete(TabA(root, items, 0, vi), |items|)
  }

  // ---------------------------------------------------------------------
  // Relocation
  // ---------------------------------------------------------------------

  datatype Resolution = Fits(a: Code, m: Code) | DoesNotFit | BadExpr

  /** The loop of `resolve`; BadExpr where `calc` would stop the program. */
  function ResolveFrom(a: Code, m: Code, relocs: seq<Reloc>, pos: Word, labels: map<string, Word>): Resolution
    requires forall r :: r in relocs ==> ValidRbf(r.bf)
    decreases |relocs|
  {
    if relocs == [] then Fits(a, m)
    else
      match Eval(relocs[0].expr, LabelEnv(labels))
      case None => BadExpr
      case Some(v) =>
        var r := FillRbf(a, m, relocs[0].bf, v, pos);
        if r.ok then ResolveFrom(r.a, r.m, relocs[1..], pos, labels) else DoesNotFit
  }

  predicate ValidRelocs(mt: Match) { forall r :: r in mt.relocs ==> ValidRbf(r.bf) }

  /** `resolve` */
  function Resolve(mt: Match, pos: Word, labels: map<string, Word>): Resolution
    requires ValidRelocs(mt)
  {
    ResolveFrom(mt.a, mt.m, mt.relocs, pos, labels)
  }
}
