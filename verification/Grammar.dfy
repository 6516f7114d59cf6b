/** The grammar of expressions and instructions (`easm/easm_parse.y`) as a reader of
    token lists, and what it makes of the tokens the printer writes. */
module Grammar {
  import opened Exprs
  import opened Lexer
  import opened Printer

  // ---------------------------------------------------------------------
  // The grammar
  // ---------------------------------------------------------------------

  /** The precedence of the operator a text goes on with; -2 if it does not. */
  function NextPrec(ts: seq<Tok>): int {
    if ts == [] || !ts[0].OpTok? then -2 else OpPrec(ts[0].op)
  }

  datatype Read = Read(e: Expr, rest: seq<Tok>) | Wrong

  datatype ReadInsn = ReadInsn(insn: SInsn, rest: seq<Tok>) | WrongInsn

  /** `expr`, `expr0` ... `expr5`, `sexpr0`, `sexpr1`, `pexpr` and `aexpr` at levels
      -1 ... 9.  The grammar has no `$`; `here` admits it as an operand, which is used
      to compare printed texts only. */
  function Parse(l: int, ts: seq<Tok>, here: bool): (r: Read)
    requires -1 <= l <= 9
    ensures r.Read? ==> |r.rest| < |ts|
    decreases |ts|, 1, 9 - l
  {
    if l == 9 then ParseAtom(ts, here)
    else if l == 8 then
      if ts != [] && ts[0].UnTok? then
        var r := Parse(8, ts[1..], here);
        if r.Read? then Read(Un(ts[0].uop, r.e), r.rest) else Wrong
      else Parse(9, ts, here)
    else
      var r := Parse(l + 1, ts, here);
      if r.Read? then ParseMore(l, r.e, r.rest, here) else Wrong
  }

  /** The left recursion of the binary levels. */
  function ParseMore(l: int, e: Expr, ts: seq<Tok>, here: bool): (r: Read)
    requires -1 <= l <= 7
    ensures r.Read? ==> |r.rest| <= |ts|
    decreases |ts|, 2
  {
    if NextPrec(ts) != l then Read(e, ts)
    else
      var r := Parse(l + 1, ts[1..], here);
      if r.Read? then ParseMore(l, Bin(ts[0].op, e, r.e), r.rest, here) else Wrong
  }

  function ParseAtom(ts: seq<Tok>, here: bool): (r: Read)
    ensures r.Read? ==> |r.rest| < |ts|
    decreases |ts|, 0
  {
    if ts == [] then Wrong
    else
      match ts[0]
      case NumTok(n) => Read(Num(n), ts[1..])
      case RegTok(name) => Read(Reg(name), ts[1..])
      case LabelTok(name) => Read(Label(name), ts[1..])
      case Hash => Read(Discard, ts[1..])
      case PosTok => if here then Read(Pos, ts[1..]) else Wrong
      case Open => ParseParen(ts[1..], here)
      case Bracket(name) => ParseMem(name, ts[1..], here)
      case _ => Wrong
  }

  function ParseParen(ts: seq<Tok>, here: bool): (r: Read)
    ensures r.Read? ==> |r.rest| < |ts|
    decreases |ts|, 3
  {
    if ts == [] then Wrong
    else if ts[0].Close? then Read(ZVec, ts[1..])
    else if ts[0].WordTok? then
      var r := ParseSInsn(ts, here);
      if r.ReadInsn? && r.rest != [] && r.rest[0].Close? then Read(SInsnExpr(r.insn), r.rest[1..]) else Wrong
    else
      var r := Parse(-1, ts, here);
      if r.Read? && r.rest != [] && r.rest[0].Close? then Read(r.e, r.rest[1..]) else Wrong
  }

  /** `membody` */
  function ParseMem(name: string, ts: seq<Tok>, here: bool): (r: Read)
    ensures r.Read? ==> |r.rest| < |ts|
    decreases |ts|, 3
  {
    var a := Parse(-1, ts, here);
    if a.Wrong? || a.rest == [] then Wrong
    else if a.rest[0].Unbracket? then Read(Mem(name, a.e), a.rest[1..])
    else if !a.rest[0].StepTok? then Wrong
    else
      var b := Parse(-1, a.rest[1..], here);
      if b.Wrong? || b.rest == [] || !b.rest[0].Unbracket? then Wrong
      else Read(MemStep(a.rest[0].step, name, a.e, b.e), b.rest[1..])
  }

  /** `sexpr` */
  function ParseOperand(ts: seq<Tok>, here: bool): (r: Read)
    ensures r.Read? ==> |r.rest| < |ts|
    decreases |ts|, 2
  {
    var r := Parse(6, ts, here);
    if r.Read? then ParseVector(r.e, r.rest, here) else Wrong
  }

  function ParseVector(e: Expr, ts: seq<Tok>, here: bool): (r: Read)
    ensures r.Read? ==> |r.rest| <= |ts|
    decreases |ts|, 2
  {
    if NextPrec(ts) != -1 then Read(e, ts)
    else
      var r := Parse(6, ts[1..], here);
      if r.Read? then ParseVector(Bin(VecOp, e, r.e), r.rest, here) else Wrong
  }

  /** `sinsn` */
  function ParseSInsn(ts: seq<Tok>, here: bool): (r: ReadInsn)
    ensures r.ReadInsn? ==> |r.rest| < |ts|
    decreases |ts|, 2
  {
    if ts == [] || !ts[0].WordTok? then WrongInsn
    else ParseOperands(ts[1..], SInsn(ts[0].name, false, [], []), here)
  }

  /** An operand begins here. */
  predicate Starts(t: Tok) {
    t.UnTok? || t.NumTok? || t.RegTok? || t.LabelTok? || t.Hash? || t.PosTok? || t.Open? || t.Bracket?
  }

  /** `operands` and `mods`: the modifiers read so far are those of `s`. */
  function ParseOperands(ts: seq<Tok>, s: SInsn, here: bool): (r: ReadInsn)
    ensures r.ReadInsn? ==> |r.rest| <= |ts|
    decreases |ts|, 4
  {
    if ts != [] && ts[0].WordTok? then
      ParseOperands(ts[1..], s.(mods := s.mods + [Modifier(ts[0].name, false)]), here)
    else if ts != [] && Starts(ts[0]) then
      var r := ParseOperand(ts, here);
      if r.Read? then ParseBars(r.rest, s, [r.e], here) else WrongInsn
    else ReadInsn(s, ts)
  }

  /** `operand '|' sexpr` */
  function ParseBars(ts: seq<Tok>, s: SInsn, es: seq<Expr>, here: bool): (r: ReadInsn)
    ensures r.ReadInsn? ==> |r.rest| <= |ts|
    decreases |ts|, 5
  {
    if ts != [] && ts[0] == OpTok(OrOp) then
      var r := ParseOperand(ts[1..], here);
      if r.Read? then ParseBars(r.rest, s, es + [r.e], here) else WrongInsn
    else ParseOperands(ts, s.(operands := s.operands + [Operand(s.mods, es)], mods := []), here)
  }

  // ---------------------------------------------------------------------
  // The tokens of a printed text
  // ---------------------------------------------------------------------

  function Toks(ps: seq<Piece>): seq<Tok> {
    if ps == [] then [] else (if ps[0].P? then [ps[0].tok] else []) + Toks(ps[1..])
  }

  lemma {:induction false} ToksJoin(a: seq<Piece>, b: seq<Piece>)
    ensures Toks(a + b) == Toks(a) + Toks(b)
  {
    if a == [] {
      assert a + b == b;
    } else {
      assert (a + b)[1..] == a[1..] + b;
      ToksJoin(a[1..], b);
      var first := if a[0].P? then [a[0].tok] else [];
      assert Toks(a + b) == first + Toks(a[1..] + b) && Toks(a) == first + Toks(a[1..]);
      assert first + (Toks(a[1..]) + Toks(b)) == first + Toks(a[1..]) + Toks(b);
    }
  }

  lemma ToksOne(t: Tok)
    ensures Toks([P(t)]) == [t] && Toks([Blank]) == []
  {
    assert [P(t)][1..] == [] && [Blank][1..] == [];
  }

  /** The tokens of an expression printed at a level. */
  function PT(e: Expr, l: int): seq<Tok>
    requires -1 <= l <= 9
  {
    Toks(Print(e, l))
  }

  /** A text between two tokens. */
  lemma ToksAround(a: Tok, ps: seq<Piece>, b: Tok)
    ensures Toks([P(a)] + ps + [P(b)]) == [a] + Toks(ps) + [b]
  {
    ToksOne(a);
    ToksOne(b);
    ToksJoin([P(a)], ps);
    ToksJoin([P(a)] + ps, [P(b)]);
  }

  /** A token between two texts. */
  lemma ToksBetween(ps: seq<Piece>, t: Tok, qs: seq<Piece>)
    ensures Toks(ps + [P(t)] + qs) == Toks(ps) + [t] + Toks(qs)
  {
    ToksOne(t);
    ToksJoin(ps, [P(t)]);
    ToksJoin(ps + [P(t)], qs);
  }

  lemma PrintParen(e: Expr, l: int)
    requires -1 <= l <= 9 && Prec(e) < l
    ensures PT(e, l) == [Open] + PT(e, -1) + [Close]
  {
    hide Toks;
    ToksAround(Open, Print(e, -1), Close);
  }

  lemma PrintBin(e: Expr)
    requires e.Bin?
    ensures PT(e, OpPrec(e.op)) == PT(e.e1, OpPrec(e.op)) + [OpTok(e.op)] + PT(e.e2, OpPrec(e.op) + 1)
  {
    hide Toks;
    ToksBetween(Print(e.e1, OpPrec(e.op)), OpTok(e.op), Print(e.e2, OpPrec(e.op) + 1));
  }

  lemma PrintUn(e: Expr)
    requires e.Un?
    ensures PT(e, 8) == [UnTok(e.uop)] + PT(e.e, 8)
  {
    hide Toks;
    ToksOne(UnTok(e.uop));
    ToksJoin([P(UnTok(e.uop))], Print(e.e, 8));
  }

  lemma PrintMem(e: Expr)
    ensures e.Mem? ==> PT(e, 9) == [Bracket(e.name)] + PT(e.addr, -1) + [Unbracket]
    ensures e.MemStep? ==>
      PT(e, 9) == [Bracket(e.name)] + PT(e.addr, -1) + [StepTok(e.step)] + PT(e.amount, -1) + [Unbracket]
  {
    hide Toks;
    if e.Mem? {
      ToksAround(Bracket(e.name), Print(e.addr, -1), Unbracket);
    } else if e.MemStep? {
      var a, b := Print(e.addr, -1), Print(e.amount, -1);
      ToksBetween(a, StepTok(e.step), b);
      ToksAround(Bracket(e.name), a + [P(StepTok(e.step))] + b, Unbracket);
      assert [P(Bracket(e.name))] + a + [P(StepTok(e.step))] + b + [P(Unbracket)] ==
             [P(Bracket(e.name))] + (a + [P(StepTok(e.step))] + b) + [P(Unbracket)];
    }
  }

  lemma PrintNested(e: Expr)
    requires e.SInsnExpr?
    ensures PT(e, 9) == [Open] + Toks(PrintSInsn(e.insn)) + [Close]
  {
    hide Toks, PrintSInsn;
    ToksAround(Open, PrintSInsn(e.insn), Close);
  }

  lemma PrintLeaf(e: Expr)
    requires !e.Bin? && !e.Un? && !e.Mem? && !e.MemStep? && !e.SInsnExpr?
    ensures PT(e, 9) == if e.ZVec? then [Open, Close] else [Print(e, 9)[0].tok]
    ensures Print(e, 9)[0].P?
  {
    if e.ZVec? {
      assert [P(Open), P(Close)][1..] == [P(Close)];
      ToksOne(Close);
    } else {
      ToksOne(Print(e, 9)[0].tok);
    }
  }

  // ---------------------------------------------------------------------
  // What survives as tokens
  // ---------------------------------------------------------------------

  /** Nested instructions have no unknown names and no operand without an expression,
      and the position does not occur, unless `here`. */
  predicate Whole(e: Expr, here: bool)
    decreases e
  {
    match e
    case Bin(_, e1, e2) => Whole(e1, here) && Whole(e2, here)
    case Un(_, e1) => Whole(e1, here)
    case Mem(_, a) => Whole(a, here)
    case MemStep(_, _, a, b) => Whole(a, here) && Whole(b, here)
    case Pos => here
    case SInsnExpr(s) => WholeSInsn(s, here)
    case _ => true
  }

  predicate KnownMods(mods: seq<Modifier>) { forall i :: 0 <= i < |mods| ==> !mods[i].isunk }

  predicate WholeSInsn(s: SInsn, here: bool)
    decreases s
  {
    && !s.isunk && KnownMods(s.mods)
    && forall i :: 0 <= i < |s.operands| ==> WholeOperand(s.operands[i], here)
  }

  predicate WholeOperand(op: Operand, here: bool)
    decreases op
  {
    KnownMods(op.mods) && op.exprs != [] && forall j :: 0 <= j < |op.exprs| ==> Whole(op.exprs[j], here)
  }

  // ---------------------------------------------------------------------
  // What was printed is read back
  // ---------------------------------------------------------------------

  /** What reading at a level does with an operand already read. */
  function Continue(l: int, e: Expr, rest: seq<Tok>, here: bool): Read
    requires -1 <= l <= 9
  {
    if l <= 7 then ParseMore(l, e, rest, here) else Read(e, rest)
  }

  /** Reading at a level starts by reading at the next one. */
  lemma Lift(l: int, ts: seq<Tok>, e: Expr, rest: seq<Tok>, here: bool)
    requires -1 <= l < 9 && Parse(l + 1, ts, here) == Continue(l + 1, e, rest, here) && NextPrec(rest) <= l
    requires l == 8 ==> ts != [] && !ts[0].UnTok?
    ensures Parse(l, ts, here) == Continue(l, e, rest, here)
  {
    hide ParseAtom;
  }

  lemma {:induction false} LiftFrom9(l: int, ts: seq<Tok>, e: Expr, rest: seq<Tok>, here: bool)
    requires -1 <= l <= 9 && Parse(9, ts, here) == Read(e, rest) && NextPrec(rest) <= l
    requires ts != [] && !ts[0].UnTok?
    ensures Parse(l, ts, here) == Continue(l, e, rest, here)
    decreases 9 - l
  {
    hide ParseAtom, Parse;
    if l < 9 {
      LiftFrom9(l + 1, ts, e, rest, here);
      Lift(l, ts, e, rest, here);
    }
  }

  lemma {:induction false} LiftFrom8(l: int, ts: seq<Tok>, e: Expr, rest: seq<Tok>, here: bool)
    requires -1 <= l <= 8 && Parse(8, ts, here) == Read(e, rest) && NextPrec(rest) <= l
    ensures Parse(l, ts, here) == Continue(l, e, rest, here)
    decreases 8 - l
  {
    hide ParseAtom, Parse;
    if l < 8 {
      LiftFrom8(l + 1, ts, e, rest, here);
      Lift(l, ts, e, rest, here);
    }
  }

  lemma {:induction false} LiftFrom(p: int, l: int, ts: seq<Tok>, e: Expr, rest: seq<Tok>, here: bool)
    requires -1 <= l <= p <= 7 && Parse(p, ts, here) == Continue(p, e, rest, here) && NextPrec(rest) <= l
    ensures Parse(l, ts, here) == Continue(l, e, rest, here)
    decreases p - l
  {
    hide ParseAtom, Parse;
    if l < p {
      LiftFrom(p, l + 1, ts, e, rest, here);
      Lift(l, ts, e, rest, here);
    }
  }

  /** A printed expression starts with a token that starts an operand. */
  lemma {:induction false} FirstTok(e: Expr, l: int)
    requires -1 <= l <= 9
    ensures PT(e, l) != [] && Starts(PT(e, l)[0])
    decreases e, if l <= Prec(e) then 0 else 1
  {
    hide Toks, Print, PT;
    if Prec(e) < l {
      PrintParen(e, l);
    } else if e.Bin? {
      FirstTok(e.e1, OpPrec(e.op));
      PrintBin(e);
      SameTokens(e, l, OpPrec(e.op));
    } else if e.Un? {
      PrintUn(e);
      SameTokens(e, l, 8);
    } else {
      SameTokens(e, l, 9);
      FirstAtom(e);
    }
  }

  lemma FirstAtom(e: Expr)
    requires !e.Bin? && !e.Un?
    ensures PT(e, 9) != [] && Starts(PT(e, 9)[0]) && !PT(e, 9)[0].UnTok?
  {
    hide Toks, PT, PrintSInsn;
    if e.Mem? || e.MemStep? {
      PrintMem(e);
    } else if e.SInsnExpr? {
      PrintNested(e);
    } else {
      PrintLeaf(e);
    }
  }

  lemma SameTokens(e: Expr, l: int, m: int)
    requires -1 <= l <= 9 && -1 <= m <= 9 && (Prec(e) < l <==> Prec(e) < m)
    ensures PT(e, l) == PT(e, m)
  {
    SamePrint(e, l, m);
  }

  lemma NoMore(l: int, e: Expr, rest: seq<Tok>, here: bool)
    requires -1 <= l <= 9 && NextPrec(rest) < l
    ensures Continue(l, e, rest, here) == Read(e, rest)
  {
    hide Parse;
  }

  /** Tokens printed at a level and read at that level give the expression, and reading
      goes on with what follows. */
  lemma {:induction false} PrintedIsRead(e: Expr, l: int, rest: seq<Tok>, here: bool)
    requires -1 <= l <= 9 && NextPrec(rest) <= l && Whole(e, here)
    ensures Parse(l, PT(e, l) + rest, here) == Continue(l, e, rest, here)
    decreases e, if l <= Prec(e) then 3 else 5
  {
    hide Parse, ParseAtom, ParseMore, PT;
    if Prec(e) < l {
      ParenIsRead(e, l, rest, here);
    } else if e.Bin? {
      BinIsRead(e, rest, here);
      SameTokens(e, OpPrec(e.op), l);
      LiftFrom(OpPrec(e.op), l, PT(e, l) + rest, e, rest, here);
    } else if e.Un? {
      UnIsRead(e, rest, here);
      SameTokens(e, 8, l);
      LiftFrom8(l, PT(e, l) + rest, e, rest, here);
    } else {
      AtomIsRead(e, rest, here);
      FirstAtom(e);
      SameTokens(e, 9, l);
      LiftFrom9(l, PT(e, l) + rest, e, rest, here);
    }
  }

  lemma {:induction false} ParenIsRead(e: Expr, l: int, rest: seq<Tok>, here: bool)
    requires -1 <= l <= 9 && Prec(e) < l && NextPrec(rest) <= l && Whole(e, here)
    ensures Parse(l, PT(e, l) + rest, here) == Continue(l, e, rest, here)
    decreases e, 4
  {
    hide ParseMore, PT, Parse;
    PrintParen(e, l);
    var inner := PT(e, -1);
    var ts := PT(e, l) + rest;
    assert ts[0] == Open && ts[1..] == inner + ([Close] + rest);
    PrintedIsRead(e, -1, [Close] + rest, here);
    NoMore(-1, e, [Close] + rest, here);
    FirstTok(e, -1);
    assert (inner + ([Close] + rest))[0] == inner[0] && ([Close] + rest)[1..] == rest;
    assert ParseParen(ts[1..], here) == Read(e, rest);
    AtomLevel(ts, here);
    LiftFrom9(l, ts, e, rest, here);
  }

  lemma AtomLevel(ts: seq<Tok>, here: bool)
    ensures Parse(9, ts, here) == ParseAtom(ts, here)
  {
    hide ParseAtom;
  }

  lemma {:induction false} BinIsRead(e: Expr, rest: seq<Tok>, here: bool)
    requires e.Bin? && NextPrec(rest) <= OpPrec(e.op) && Whole(e, here)
    ensures Parse(OpPrec(e.op), PT(e, OpPrec(e.op)) + rest, here) == Continue(OpPrec(e.op), e, rest, here)
    decreases e, 0
  {
    hide Parse, PT;
    var p := OpPrec(e.op);
    var tail := [OpTok(e.op)] + (PT(e.e2, p + 1) + rest);
    PrintBin(e);
    assert PT(e, p) + rest == PT(e.e1, p) + tail;
    PrintedIsRead(e.e1, p, tail, here);
    PrintedIsRead(e.e2, p + 1, rest, here);
    NoMore(p + 1, e.e2, rest, here);
    assert tail[1..] == PT(e.e2, p + 1) + rest;
    assert ParseMore(p, e.e1, tail, here) == ParseMore(p, e, rest, here);
  }

  lemma {:induction false} UnIsRead(e: Expr, rest: seq<Tok>, here: bool)
    requires e.Un? && Whole(e, here)
    ensures Parse(8, PT(e, 8) + rest, here) == Read(e, rest)
    decreases e, 0
  {
    hide ParseAtom, ParseMore, PT, Parse;
    PrintUn(e);
    var ts := PT(e, 8) + rest;
    assert ts[0] == UnTok(e.uop) && ts[1..] == PT(e.e, 8) + rest;
    PrintedIsRead(e.e, 8, rest, here);
    UnaryLevel(ts, here);
  }

  lemma UnaryLevel(ts: seq<Tok>, here: bool)
    requires ts != [] && ts[0].UnTok?
    ensures var r := Parse(8, ts[1..], here);
            Parse(8, ts, here) == if r.Read? then Read(Un(ts[0].uop, r.e), r.rest) else Wrong
  {
    hide ParseAtom, ParseMore;
  }

  lemma {:induction false} AtomIsRead(e: Expr, rest: seq<Tok>, here: bool)
    requires !e.Bin? && !e.Un? && Whole(e, here)
    ensures Parse(9, PT(e, 9) + rest, here) == Read(e, rest)
    decreases e, 2
  {
    hide Parse, ParseMore, PT;
    var ts := PT(e, 9) + rest;
    AtomLevel(ts, here);
    if e.Mem? || e.MemStep? {
      MemIsRead(e, rest, here);
    } else if e.SInsnExpr? {
      NestedIsRead(e, rest, here);
    } else {
      LeafIsRead(e, rest, here);
    }
  }

  lemma LeafIsRead(e: Expr, rest: seq<Tok>, here: bool)
    requires !e.Bin? && !e.Un? && !e.Mem? && !e.MemStep? && !e.SInsnExpr? && Whole(e, here)
    ensures ParseAtom(PT(e, 9) + rest, here) == Read(e, rest)
  {
    hide Parse, ParseMore, PT, ParseSInsn;
    PrintLeaf(e);
    var ts := PT(e, 9) + rest;
    if e.ZVec? {
      assert ts[1..][1..] == rest;
    } else {
      assert ts[1..] == rest;
    }
  }

  lemma {:induction false} NestedIsRead(e: Expr, rest: seq<Tok>, here: bool)
    requires e.SInsnExpr? && Whole(e, here)
    ensures ParseAtom(PT(e, 9) + rest, here) == Read(e, rest)
    decreases e, 1
  {
    hide Parse, ParseSInsn, PrintSInsn, PT, Toks;
    PrintNested(e);
    var inner := Toks(PrintSInsn(e.insn));
    var ts := PT(e, 9) + rest;
    var end := [Close] + rest;
    assert ts[0] == Open && ts[1..] == inner + end && end[1..] == rest;
    SInsnIsRead(e.insn, end, here);
    SInsnFirst(e.insn);
    assert (inner + end)[0] == inner[0];
  }

  lemma {:induction false} MemIsRead(e: Expr, rest: seq<Tok>, here: bool)
    requires (e.Mem? || e.MemStep?) && Whole(e, here)
    ensures ParseAtom(PT(e, 9) + rest, here) == Read(e, rest)
    decreases e, 0
  {
    hide Parse, ParseMore, ParseMem, PT;
    PrintMem(e);
    var ts := PT(e, 9) + rest;
    var end := [Unbracket] + rest;
    if e.Mem? {
      assert ts[1..] == PT(e.addr, -1) + end;
      PrintedIsRead(e.addr, -1, end, here);
      NoMore(-1, e.addr, end, here);
      MemEnd(e, PT(e.addr, -1) + end, rest, here);
    } else {
      var tail := [StepTok(e.step)] + (PT(e.amount, -1) + end);
      assert ts[1..] == PT(e.addr, -1) + tail && tail[1..] == PT(e.amount, -1) + end;
      PrintedIsRead(e.addr, -1, tail, here);
      NoMore(-1, e.addr, tail, here);
      PrintedIsRead(e.amount, -1, end, here);
      NoMore(-1, e.amount, end, here);
      MemStepEnd(e, PT(e.addr, -1) + tail, tail, rest, here);
    }
  }

  lemma MemEnd(e: Expr, ts: seq<Tok>, rest: seq<Tok>, here: bool)
    requires e.Mem? && Parse(-1, ts, here) == Read(e.addr, [Unbracket] + rest)
    ensures ParseMem(e.name, ts, here) == Read(e, rest)
  {
    hide Parse;
    assert ([Unbracket] + rest)[1..] == rest;
  }

  lemma MemStepEnd(e: Expr, ts: seq<Tok>, tail: seq<Tok>, rest: seq<Tok>, here: bool)
    requires e.MemStep? && Parse(-1, ts, here) == Read(e.addr, tail)
    requires tail != [] && tail[0] == StepTok(e.step)
    requires Parse(-1, tail[1..], here) == Read(e.amount, [Unbracket] + rest)
    ensures ParseMem(e.name, ts, here) == Read(e, rest)
  {
    hide Parse;
    assert ([Unbracket] + rest)[1..] == rest;
  }

  // ---------------------------------------------------------------------
  // Operands and instructions
  // ---------------------------------------------------------------------

  lemma OperandTokens(e: Expr)
    ensures Toks(PrintSExpr(e, -1)) ==
            if e.Bin? && e.op.VecOp? then Toks(PrintSExpr(e.e1, -1)) + [OpTok(VecOp)] + PT(e.e2, 6) else PT(e, 6)
  {
    hide Toks, PrintSExpr, Print;
    OperandScale(e);
    if e.Bin? && e.op.VecOp? {
      ToksBetween(PrintSExpr(e.e1, -1), OpTok(VecOp), Print(e.e2, 6));
    }
  }

  lemma {:induction false} OperandIsRead(e: Expr, rest: seq<Tok>, here: bool)
    requires NextPrec(rest) <= 5 && Whole(e, here)
    ensures ParseOperand(Toks(PrintSExpr(e, -1)) + rest, here) == ParseVector(e, rest, here)
    decreases e, 6
  {
    hide Parse, PT, ParseVector, Toks, PrintSExpr;
    OperandTokens(e);
    if e.Bin? && e.op.VecOp? {
      var tail := [OpTok(VecOp)] + (PT(e.e2, 6) + rest);
      assert Toks(PrintSExpr(e, -1)) + rest == Toks(PrintSExpr(e.e1, -1)) + tail;
      OperandIsRead(e.e1, tail, here);
      PrintedIsRead(e.e2, 6, rest, here);
      NoMore(6, e.e2, rest, here);
      assert tail[1..] == PT(e.e2, 6) + rest;
      VectorStep(e, tail, rest, here);
    } else {
      PrintedIsRead(e, 6, rest, here);
      NoMore(6, e, rest, here);
    }
  }

  lemma VectorStep(e: Expr, ts: seq<Tok>, rest: seq<Tok>, here: bool)
    requires e.Bin? && e.op.VecOp? && ts != [] && ts[0] == OpTok(VecOp) && Parse(6, ts[1..], here) == Read(e.e2, rest)
    ensures ParseVector(e.e1, ts, here) == ParseVector(e, rest, here)
  {
    hide Parse;
  }

  lemma VectorEnd(e: Expr, rest: seq<Tok>, here: bool)
    requires NextPrec(rest) != -1
    ensures ParseVector(e, rest, here) == Read(e, rest)
  {
    hide Parse;
  }

  lemma {:induction false} FirstOperandTok(e: Expr)
    ensures Toks(PrintSExpr(e, -1)) != [] && Starts(Toks(PrintSExpr(e, -1))[0])
    decreases e
  {
    hide Toks, PrintSExpr, PT;
    OperandTokens(e);
    if e.Bin? && e.op.VecOp? {
      FirstOperandTok(e.e1);
    } else {
      FirstTok(e, 6);
    }
  }

  /** Behind an instruction stands no word, no operand and no operator but the `&` of
      the next one. */
  predicate Stop(rest: seq<Tok>) {
    rest == [] || !(rest[0].WordTok? || Starts(rest[0]) || (rest[0].OpTok? && rest[0].op != AndOp))
  }

  lemma SInsnFirst(s: SInsn)
    ensures Toks(PrintSInsn(s)) == [WordTok(s.name)] + Toks(PrintOperands(s.operands)) + Toks(PrintMods(s.mods))
  {
    hide Toks;
    ToksOne(WordTok(s.name));
    ToksJoin([P(WordTok(s.name))], PrintOperands(s.operands));
    ToksJoin([P(WordTok(s.name))] + PrintOperands(s.operands), PrintMods(s.mods));
  }

  lemma ModsFirst(mods: seq<Modifier>)
    ensures Toks(PrintMods(mods)) == if mods == [] then [] else [WordTok(mods[0].name)] + Toks(PrintMods(mods[1..]))
  {
    if mods != [] {
      hide Toks;
      var w := WordTok(mods[0].name);
      ToksOne(w);
      ToksJoin([Blank], [P(w)]);
      ToksJoin([Blank, P(w)], PrintMods(mods[1..]));
      assert [Blank, P(w)] == [Blank] + [P(w)];
    }
  }

  lemma ExprsFirst(es: seq<Expr>, more: bool)
    ensures Toks(PrintExprs(es, more)) ==
            if es == [] then []
            else (if more then [OpTok(OrOp)] else []) + Toks(PrintSExpr(es[0], -1)) + Toks(PrintExprs(es[1..], true))
  {
    if es != [] {
      hide Toks, PrintSExpr;
      var bar: seq<Piece> := if more then [Blank, P(OpTok(OrOp))] else [];
      var one, tail := PrintSExpr(es[0], -1), PrintExprs(es[1..], true);
      ToksOne(OpTok(OrOp));
      ToksJoin([Blank], [P(OpTok(OrOp))]);
      assert [Blank, P(OpTok(OrOp))] == [Blank] + [P(OpTok(OrOp))];
      ToksNone();
      ToksJoin(bar, [Blank]);
      ToksJoin(bar + [Blank], one);
      ToksJoin(bar + [Blank] + one, tail);
    } else {
      ToksNone();
    }
  }

  lemma ToksNone()
    ensures Toks([]) == []
  {
  }

  lemma OperandsFirst(ops: seq<Operand>)
    ensures Toks(PrintOperands(ops)) ==
            if ops == [] then []
            else Toks(PrintMods(ops[0].mods)) + Toks(PrintExprs(ops[0].exprs, false)) + Toks(PrintOperands(ops[1..]))
  {
    if ops != [] {
      hide Toks, PrintMods, PrintExprs;
      ToksJoin(PrintMods(ops[0].mods), PrintExprs(ops[0].exprs, false));
      ToksJoin(PrintMods(ops[0].mods) + PrintExprs(ops[0].exprs, false), PrintOperands(ops[1..]));
    } else {
      ToksNone();
    }
  }

  lemma {:induction false} SInsnIsRead(s: SInsn, rest: seq<Tok>, here: bool)
    requires WholeSInsn(s, here) && Stop(rest)
    ensures ParseSInsn(Toks(PrintSInsn(s)) + rest, here) == ReadInsn(s, rest)
    decreases s, 1
  {
    hide ParseOperands, Toks, PrintSInsn, PrintOperands, PrintMods;
    SInsnFirst(s);
    var mods := Toks(PrintMods(s.mods)) + rest;
    var tail := Toks(PrintOperands(s.operands)) + mods;
    var ts := Toks(PrintSInsn(s)) + rest;
    assert ts[0] == WordTok(s.name) && ts[1..] == tail;
    var bare := SInsn(s.name, false, [], []);
    ModsStart(s.mods, rest);
    OperandsAreRead(s.operands, mods, bare, here);
    ModsAreRead(s.mods, rest, bare.(operands := s.operands), here);
    OperandsEnd(s, rest, here);
    assert [] + s.operands == s.operands && [] + s.mods == s.mods;
  }

  lemma OperandsEnd(s: SInsn, rest: seq<Tok>, here: bool)
    requires Stop(rest)
    ensures ParseOperands(rest, s, here) == ReadInsn(s, rest)
  {
    hide ParseOperand;
  }

  /** Behind an operand stands no operator. */
  predicate NoOperator(ts: seq<Tok>) { ts == [] || !ts[0].OpTok? || ts[0].op == AndOp }

  lemma ModsStart(mods: seq<Modifier>, rest: seq<Tok>)
    requires Stop(rest)
    ensures NoOperator(Toks(PrintMods(mods)) + rest)
  {
    hide Toks, PrintMods;
    ModsFirst(mods);
    if mods == [] {
      assert [] + rest == rest;
    }
  }

  lemma {:induction false} ModsAreRead(mods: seq<Modifier>, rest: seq<Tok>, s: SInsn, here: bool)
    requires KnownMods(mods)
    ensures ParseOperands(Toks(PrintMods(mods)) + rest, s, here) == ParseOperands(rest, s.(mods := s.mods + mods), here)
    decreases |mods|
  {
    hide Toks, PrintMods, ParseOperands;
    ModsFirst(mods);
    if mods == [] {
      assert [] + rest == rest && s.mods + mods == s.mods;
    } else {
      var ts := Toks(PrintMods(mods)) + rest;
      assert ts[0] == WordTok(mods[0].name) && ts[1..] == Toks(PrintMods(mods[1..])) + rest;
      assert mods[0] == Modifier(mods[0].name, false);
      ModRead(ts, s, here);
      ModsAreRead(mods[1..], rest, s.(mods := s.mods + [mods[0]]), here);
      assert s.mods + [mods[0]] + mods[1..] == s.mods + mods;
    }
  }

  lemma ModRead(ts: seq<Tok>, s: SInsn, here: bool)
    requires ts != [] && ts[0].WordTok?
    ensures ParseOperands(ts, s, here) ==
            ParseOperands(ts[1..], s.(mods := s.mods + [Modifier(ts[0].name, false)]), here)
  {
    hide ParseOperand;
  }

  lemma {:induction false} OperandsAreRead(ops: seq<Operand>, rest: seq<Tok>, s: SInsn, here: bool)
    requires (forall i :: 0 <= i < |ops| ==> WholeOperand(ops[i], here)) && s.mods == [] && NoOperator(rest)
    ensures ParseOperands(Toks(PrintOperands(ops)) + rest, s, here) ==
            ParseOperands(rest, s.(operands := s.operands + ops), here)
    decreases ops, 0
  {
    hide Toks, PrintMods, PrintExprs, PrintOperands, ParseOperands, ParseBars;
    OperandsFirst(ops);
    if ops == [] {
      assert [] + rest == rest && s.operands + ops == s.operands;
    } else {
      var op := ops[0];
      var more := Toks(PrintOperands(ops[1..])) + rest;
      var exprs := Toks(PrintExprs(op.exprs, false));
      assert Toks(PrintOperands(ops)) + rest == Toks(PrintMods(op.mods)) + (exprs + more);
      ModsAreRead(op.mods, exprs + more, s, here);
      assert [] + op.mods == op.mods;
      OperandsStart(ops[1..], rest);
      OneOperandRead(op, more, s.(mods := op.mods), here);
      OperandsAreRead(ops[1..], rest, s.(operands := s.operands + [op]), here);
      assert s.operands + [op] + ops[1..] == s.operands + ops;
    }
  }

  lemma OperandsStart(ops: seq<Operand>, rest: seq<Tok>)
    requires (forall i :: 0 <= i < |ops| ==> ops[i].exprs != []) && NoOperator(rest)
    ensures NoOperator(Toks(PrintOperands(ops)) + rest)
  {
    hide Toks, PrintMods, PrintExprs, PrintSExpr, PrintOperands;
    OperandsFirst(ops);
    if ops == [] {
      assert [] + rest == rest;
    } else {
      var op := ops[0];
      ModsFirst(op.mods);
      ExprsFirst(op.exprs, false);
      FirstOperandTok(op.exprs[0]);
    }
  }

  lemma {:induction false} OneOperandRead(op: Operand, rest: seq<Tok>, s: SInsn, here: bool)
    requires WholeOperand(op, here) && s.mods == op.mods && NoOperator(rest)
    ensures ParseOperands(Toks(PrintExprs(op.exprs, false)) + rest, s, here) ==
            ParseOperands(rest, s.(operands := s.operands + [op], mods := []), here)
    decreases op, 2
  {
    hide Toks, PrintExprs, PrintSExpr, ParseOperands, ParseBars, ParseOperand, ParseVector;
    var e := op.exprs[0];
    var tail := Toks(PrintExprs(op.exprs[1..], true)) + rest;
    ExprsFirst(op.exprs, false);
    var ts := Toks(PrintExprs(op.exprs, false)) + rest;
    assert ts == Toks(PrintSExpr(e, -1)) + tail;
    FirstOperandTok(e);
    BarsStart(op.exprs[1..], rest);
    OperandIsRead(e, tail, here);
    VectorEnd(e, tail, here);
    OperandBegins(ts, s, e, tail, here);
    BarsAreRead(op.exprs[1..], rest, s, [e], here);
    assert [e] + op.exprs[1..] == op.exprs && op == Operand(s.mods, op.exprs);
  }

  lemma OperandBegins(ts: seq<Tok>, s: SInsn, e: Expr, tail: seq<Tok>, here: bool)
    requires ts != [] && Starts(ts[0]) && ParseOperand(ts, here) == Read(e, tail)
    ensures ParseOperands(ts, s, here) == ParseBars(tail, s, [e], here)
  {
    hide ParseOperand, ParseBars;
  }

  lemma BarsStart(es: seq<Expr>, rest: seq<Tok>)
    requires NoOperator(rest)
    ensures var ts := Toks(PrintExprs(es, true)) + rest;
            NextPrec(ts) <= 5 && NextPrec(ts) != -1
  {
    hide Toks, PrintExprs, PrintSExpr;
    ExprsFirst(es, true);
    if es == [] {
      assert [] + rest == rest;
    }
  }

  lemma {:induction false} BarsAreRead(es: seq<Expr>, rest: seq<Tok>, s: SInsn, got: seq<Expr>, here: bool)
    requires (forall j :: 0 <= j < |es| ==> Whole(es[j], here)) && NoOperator(rest)
    ensures ParseBars(Toks(PrintExprs(es, true)) + rest, s, got, here) ==
            ParseOperands(rest, s.(operands := s.operands + [Operand(s.mods, got + es)], mods := []), here)
    decreases es, 1
  {
    hide Toks, PrintExprs, PrintSExpr, ParseOperands, ParseBars, ParseOperand, ParseVector;
    ExprsFirst(es, true);
    var ts := Toks(PrintExprs(es, true)) + rest;
    if es == [] {
      assert ts == rest && got + es == got;
      BarsEnd(rest, s, got, here);
    } else {
      var tail := Toks(PrintExprs(es[1..], true)) + rest;
      assert ts[0] == OpTok(OrOp) && ts[1..] == Toks(PrintSExpr(es[0], -1)) + tail;
      BarsStart(es[1..], rest);
      OperandIsRead(es[0], tail, here);
      VectorEnd(es[0], tail, here);
      BarRead(ts, s, got, es[0], tail, here);
      BarsAreRead(es[1..], rest, s, got + [es[0]], here);
      assert got + [es[0]] + es[1..] == got + es;
    }
  }

  lemma BarsEnd(rest: seq<Tok>, s: SInsn, es: seq<Expr>, here: bool)
    requires NoOperator(rest)
    ensures ParseBars(rest, s, es, here) ==
            ParseOperands(rest, s.(operands := s.operands + [Operand(s.mods, es)], mods := []), here)
  {
    hide ParseOperand, ParseOperands;
  }

  lemma BarRead(ts: seq<Tok>, s: SInsn, got: seq<Expr>, e: Expr, tail: seq<Tok>, here: bool)
    requires ts != [] && ts[0] == OpTok(OrOp) && ParseOperand(ts[1..], here) == Read(e, tail)
    ensures ParseBars(ts, s, got, here) == ParseBars(tail, s, got + [e], here)
  {
    hide ParseOperand, ParseOperands;
  }
}
