/** Whole instructions as text: `easm_print_insn`, and the grammar's `insn` reading what
    it writes. */
module InsnText {
  import opened Options
  import opened Exprs
  import opened Lexer
  import opened Printer
  import opened Grammar
  import opened Spacing
  import opened PrintedText
  import opened Reading

  // ---------------------------------------------------------------------
  // Printing and reading
  // ---------------------------------------------------------------------

  function PrintPrefs(es: seq<Expr>): seq<Piece> {
    if es == [] then [] else PrintSExpr(es[0], 2) + [Blank] + PrintPrefs(es[1..])
  }

  /** `easm_print_subinsn` */
  function PrintSubInsn(s: SubInsn): seq<Piece> { PrintPrefs(s.prefs) + PrintSInsn(s.sinsn) }

  function PrintMore(ss: seq<SubInsn>): seq<Piece> {
    if ss == [] then [] else [Blank, P(OpTok(AndOp)), Blank] + PrintSubInsn(ss[0]) + PrintMore(ss[1..])
  }

  /** `easm_print_insn` */
  function PrintInsn(i: Insn): seq<Piece> {
    if i.subinsns == [] then [] else PrintSubInsn(i.subinsns[0]) + PrintMore(i.subinsns[1..])
  }

  datatype ReadSub = ReadSub(s: SubInsn, rest: seq<Tok>) | WrongSub

  /** `subinsn`, with the prefixes read so far. */
  function ParseSubInsn(ts: seq<Tok>, prefs: seq<Expr>): (r: ReadSub)
    ensures r.ReadSub? ==> |r.rest| < |ts|
    decreases |ts|
  {
    if ts != [] && ts[0].WordTok? then
      var r := ParseSInsn(ts, false);
      if r.ReadInsn? then ReadSub(SubInsn(prefs, r.insn), r.rest) else WrongSub
    else
      var r := Parse(8, ts, false);
      if r.Read? then ParseSubInsn(r.rest, prefs + [r.e]) else WrongSub
  }

  /** `insn '&' subinsn`, up to the end. */
  function ParseMoreSubs(ts: seq<Tok>, done: seq<SubInsn>): Option<Insn>
    decreases |ts|
  {
    if ts == [] then Some(Insn(done))
    else if ts[0] == OpTok(AndOp) then
      var r := ParseSubInsn(ts[1..], []);
      if r.ReadSub? then ParseMoreSubs(r.rest, done + [r.s]) else None
    else None
  }

  function ParseInsn(ts: seq<Tok>): Option<Insn> {
    var r := ParseSubInsn(ts, []);
    if r.ReadSub? then ParseMoreSubs(r.rest, [r.s]) else None
  }

  /** Reading the text of an instruction, at the start of a line or behind white space
      if `ws`. */
  function ReadInsnText(text: string, ws: bool): Option<Insn> { ParseInsn(Lex(text, ws)) }

  // ---------------------------------------------------------------------
  // Conditions
  // ---------------------------------------------------------------------

  predicate GoodPrefs(es: seq<Expr>) { forall j :: 0 <= j < |es| ==> Named(es[j]) && Whole(es[j], false) }

  predicate GoodSub(s: SubInsn) { GoodPrefs(s.prefs) && NamedSInsn(s.sinsn) && WholeSInsn(s.sinsn, false) }

  predicate GoodSubs(ss: seq<SubInsn>) { forall k :: 0 <= k < |ss| ==> GoodSub(ss[k]) }

  predicate SpacedPrefs(es: seq<Expr>) { forall j :: 0 <= j < |es| ==> Spaced(es[j]) }

  predicate SpacedSub(s: SubInsn) { SpacedPrefs(s.prefs) && SpacedOperands(s.sinsn.operands) }

  predicate SpacedSubs(ss: seq<SubInsn>) { forall k :: 0 <= k < |ss| ==> SpacedSub(ss[k]) }

  /** Something is there, it can be written, and all negations stand free. */
  predicate ReadableInsn(i: Insn) { i.subinsns != [] && GoodSubs(i.subinsns) && SpacedSubs(i.subinsns) }

  predicate SubLeadsNeg(s: SubInsn) { s.prefs != [] && LeadsNeg(s.prefs[0], 8) }

  predicate InsnLeadsNeg(i: Insn) { i.subinsns != [] && SubLeadsNeg(i.subinsns[0]) }

  // ---------------------------------------------------------------------
  // Tokens are read back
  // ---------------------------------------------------------------------

  lemma ToksBlank(a: seq<Piece>, b: seq<Piece>)
    ensures Toks(a + [Blank] + b) == Toks(a) + Toks(b)
  {
    hide Toks;
    ToksOne(Hash);
    ToksJoin(a, [Blank]);
    ToksJoin(a + [Blank], b);
    assert Toks(a) + [] == Toks(a);
  }

  lemma PrefsFirst(es: seq<Expr>)
    ensures Toks(PrintPrefs(es)) == if es == [] then [] else PT(es[0], 8) + Toks(PrintPrefs(es[1..]))
  {
    hide Toks, Print, PrintSExpr;
    if es == [] {
      ToksNone();
    } else {
      SExprScale(es[0], 2);
      ToksBlank(Print(es[0], 8), PrintPrefs(es[1..]));
    }
  }

  lemma {:induction false} SubIsRead(es: seq<Expr>, s: SInsn, rest: seq<Tok>, got: seq<Expr>)
    requires GoodPrefs(es) && NamedSInsn(s) && WholeSInsn(s, false) && Stop(rest)
    ensures ParseSubInsn(Toks(PrintPrefs(es)) + Toks(PrintSInsn(s)) + rest, got) == ReadSub(SubInsn(got + es, s), rest)
    decreases |es|
  {
    hide Toks, PrintPrefs, PrintSInsn, Parse, ParseSInsn, PT, Named, Whole, ParseSubInsn;
    PrefsFirst(es);
    var tail := Toks(PrintSInsn(s)) + rest;
    var ts := Toks(PrintPrefs(es)) + Toks(PrintSInsn(s)) + rest;
    if es == [] {
      assert ts == tail && got + es == got;
      SInsnIsRead(s, rest, false);
      SInsnFirst(s);
      SubEnds(ts, got);
    } else {
      var more := Toks(PrintPrefs(es[1..])) + Toks(PrintSInsn(s)) + rest;
      assert ts == PT(es[0], 8) + more;
      PrintedIsRead(es[0], 8, more, false);
      FirstTok(es[0], 8);
      PrefRead(ts, got, es[0], more);
      SubIsRead(es[1..], s, rest, got + [es[0]]);
      assert got + [es[0]] + es[1..] == got + es;
    }
  }

  lemma SubEnds(ts: seq<Tok>, got: seq<Expr>)
    requires ts != [] && ts[0].WordTok?
    ensures var r := ParseSInsn(ts, false);
            ParseSubInsn(ts, got) == if r.ReadInsn? then ReadSub(SubInsn(got, r.insn), r.rest) else WrongSub
  {
    hide ParseSInsn, Parse;
  }

  lemma PrefRead(ts: seq<Tok>, got: seq<Expr>, e: Expr, rest: seq<Tok>)
    requires ts != [] && !ts[0].WordTok? && Parse(8, ts, false) == Read(e, rest)
    ensures ParseSubInsn(ts, got) == ParseSubInsn(rest, got + [e])
  {
    hide ParseSInsn, Parse;
  }

  lemma SubTokens(s: SubInsn)
    ensures Toks(PrintSubInsn(s)) == Toks(PrintPrefs(s.prefs)) + Toks(PrintSInsn(s.sinsn))
  {
    ToksJoin(PrintPrefs(s.prefs), PrintSInsn(s.sinsn));
  }

  lemma ToksAnd(a: seq<Piece>, b: seq<Piece>)
    ensures Toks([Blank, P(OpTok(AndOp)), Blank] + a + b) == [OpTok(AndOp)] + Toks(a) + Toks(b)
  {
    hide Toks;
    var bar: seq<Piece> := [Blank, P(OpTok(AndOp)), Blank];
    BarTokens();
    ToksJoin(bar, a);
    ToksJoin(bar + a, b);
  }

  lemma BarTokens()
    ensures Toks([Blank, P(OpTok(AndOp)), Blank]) == [OpTok(AndOp)]
  {
    ToksBetween([Blank], OpTok(AndOp), [Blank]);
    ToksOne(Hash);
    assert [Blank] + [P(OpTok(AndOp))] + [Blank] == [Blank, P(OpTok(AndOp)), Blank];
  }

  lemma MoreFirst(ss: seq<SubInsn>)
    ensures Toks(PrintMore(ss)) ==
            if ss == [] then [] else [OpTok(AndOp)] + Toks(PrintSubInsn(ss[0])) + Toks(PrintMore(ss[1..]))
  {
    hide Toks, PrintSubInsn;
    if ss == [] {
      ToksNone();
    } else {
      ToksAnd(PrintSubInsn(ss[0]), PrintMore(ss[1..]));
    }
  }

  lemma {:induction false} MoreIsRead(ss: seq<SubInsn>, done: seq<SubInsn>)
    requires GoodSubs(ss)
    ensures ParseMoreSubs(Toks(PrintMore(ss)), done) == Some(Insn(done + ss))
    decreases |ss|
  {
    hide Toks, PrintMore, PrintSubInsn, PrintPrefs, PrintSInsn, ParseSubInsn, GoodSub;
    MoreFirst(ss);
    if ss == [] {
      assert done + ss == done;
    } else {
      var ts, rest := Toks(PrintMore(ss)), Toks(PrintMore(ss[1..]));
      Behind(OpTok(AndOp), Toks(PrintSubInsn(ss[0])), rest);
      assert GoodSub(ss[0]);
      OneSubRead(ss[0], rest, ss[1..]);
      MoreIsRead(ss[1..], done + [ss[0]]);
      Moved(done, ss);
    }
  }

  lemma Behind<T>(x: T, a: seq<T>, b: seq<T>)
    ensures var all := [x] + a + b; all != [] && all[0] == x && all[1..] == a + b
  {
  }

  lemma Moved<T>(a: seq<T>, b: seq<T>)
    requires b != []
    ensures a + [b[0]] + b[1..] == a + b
  {
  }

  lemma OneSubRead(s: SubInsn, rest: seq<Tok>, ss: seq<SubInsn>)
    requires GoodSub(s) && rest == Toks(PrintMore(ss))
    ensures ParseSubInsn(Toks(PrintSubInsn(s)) + rest, []) == ReadSub(s, rest)
  {
    hide Toks, PrintMore, PrintSubInsn, PrintPrefs, PrintSInsn, ParseSubInsn;
    MoreFirst(ss);
    SubTokens(s);
    SubIsRead(s.prefs, s.sinsn, rest, []);
    assert [] + s.prefs == s.prefs;
  }

  lemma InsnIsRead(i: Insn)
    requires i.subinsns != [] && GoodSubs(i.subinsns)
    ensures ParseInsn(Toks(PrintInsn(i))) == Some(i)
  {
    hide Toks, PrintMore, PrintSubInsn, ParseSubInsn, ParseMoreSubs, GoodSub;
    var s, ss := i.subinsns[0], i.subinsns[1..];
    ToksJoin(PrintSubInsn(s), PrintMore(ss));
    assert GoodSub(s);
    OneSubRead(s, Toks(PrintMore(ss)), ss);
    MoreIsRead(ss, [s]);
    assert [s] + ss == i.subinsns;
  }

  // ---------------------------------------------------------------------
  // Pieces fit, and where negations stand
  // ---------------------------------------------------------------------

  /** A piece that an instruction begins with. */
  predicate BeginP(p: Piece) { StartP(p) || (p.P? && p.tok.WordTok?) }

  lemma BlankBegin(p: Piece)
    requires BeginP(p) && OkPiece(p)
    ensures OkPair(Blank, p)
  {
    if StartP(p) {
      StartPair(Blank, p);
    }
  }

  /** All about the pieces of a part of an instruction: they fit, they begin and end
      well, they stand loose iff `loose`, and so many of them are negations. */
  ghost predicate Part(ps: seq<Piece>, loose: bool, negs: nat) {
    && Fits(ps) && NoPos(ps) && ps != [] && BeginP(ps[0]) && Ended(Last(ps))
    && (Loose(ps) <==> loose) && NegPieces(ps) == negs
  }

  lemma SInsnPart(s: SInsn)
    requires NamedSInsn(s) && WholeSInsn(s, false)
    ensures Part(PrintSInsn(s), SpacedOperands(s.operands), OperandNegs(s.operands))
    ensures PrintSInsn(s)[0] == P(WordTok(s.name))
  {
    hide Fits, NoPos, Loose, NegPieces, PrintSInsn, SpacedOperands, OperandNegs;
    SInsnFits(s, false);
    SInsnLoose(s);
    NegsSInsn(s);
  }

  /** Two parts with a blank between. */
  lemma PartJoin(a: seq<Piece>, b: seq<Piece>, la: bool, lb: bool, na: nat, nb: nat)
    requires Part(a, la, na) && Part(b, lb, nb)
    ensures Part(a + [Blank] + b, la && lb, na + nb)
  {
    hide OkPiece, OkPair, Chain, BeginP, Ended;
    SignsOk();
    FirstOk(b);
    EndedPair(Last(a), Blank);
    BlankBegin(b[0]);
    ChainBetween(a, Blank, b, OkPiece, OkPair);
    ChainBetween(a, Blank, b, Any, FreePair);
    NegBetween(a, Blank, b);
  }

  function PrefNegs(es: seq<Expr>): nat { if es == [] then 0 else Negs(es[0]) + PrefNegs(es[1..]) }

  function SubNegs(s: SubInsn): nat { PrefNegs(s.prefs) + OperandNegs(s.sinsn.operands) }

  function SubsNegs(ss: seq<SubInsn>): nat { if ss == [] then 0 else SubNegs(ss[0]) + SubsNegs(ss[1..]) }

  lemma PrefPart(e: Expr)
    requires Named(e) && Whole(e, false)
    ensures Part(Print(e, 8), Spaced(e), Negs(e)) && (IsNeg(Print(e, 8)[0]) <==> LeadsNeg(e, 8))
  {
    hide Fits, NoPos, Chain, NegPieces, Print, LeadsNeg, StartP, EndP;
    PrintFits(e, 8, false);
    PrintEnds(e, 8);
    SpacedPrint(e, 8);
    NegsPrint(e, 8);
  }

  lemma {:induction false} SubPart(es: seq<Expr>, s: SInsn)
    requires GoodPrefs(es) && NamedSInsn(s) && WholeSInsn(s, false)
    ensures var ps := PrintPrefs(es) + PrintSInsn(s);
            && Part(ps, SpacedPrefs(es) && SpacedOperands(s.operands), PrefNegs(es) + OperandNegs(s.operands))
            && (IsNeg(ps[0]) <==> es != [] && LeadsNeg(es[0], 8))
    decreases |es|
  {
    hide Part, Print, PrintSExpr, PrintSInsn, Named, Whole, Spaced, SpacedOperands, LeadsNeg, OperandNegs;
    if es == [] {
      SInsnPart(s);
      PartSome(PrintSInsn(s), SpacedOperands(s.operands), OperandNegs(s.operands));
      assert [] + PrintSInsn(s) == PrintSInsn(s);
    } else {
      var a, b := Print(es[0], 8), PrintPrefs(es[1..]) + PrintSInsn(s);
      SExprScale(es[0], 2);
      PrefPart(es[0]);
      SubPart(es[1..], s);
      PartJoin(a, b, Spaced(es[0]), SpacedPrefs(es[1..]) && SpacedOperands(s.operands),
               Negs(es[0]), PrefNegs(es[1..]) + OperandNegs(s.operands));
      assert PrintPrefs(es) + PrintSInsn(s) == a + [Blank] + b;
      assert SpacedPrefs(es) <==> Spaced(es[0]) && SpacedPrefs(es[1..]);
    }
  }

  lemma PartSome(ps: seq<Piece>, loose: bool, negs: nat)
    requires Part(ps, loose, negs)
    ensures ps != []
  {
  }

  lemma AndPart()
    ensures Fits([Blank, P(OpTok(AndOp)), Blank]) && NoPos([Blank, P(OpTok(AndOp)), Blank])
    ensures Loose([Blank, P(OpTok(AndOp)), Blank]) && NegPieces([Blank, P(OpTok(AndOp)), Blank]) == 0
  {
    var t := P(OpTok(AndOp));
    NegAround(Blank, [t], Blank);
    NegOne(t);
    assert [Blank] + [t] + [Blank] == [Blank, t, Blank];
  }

  /** Two parts with ` & ` between. */
  lemma PartAnd(a: seq<Piece>, b: seq<Piece>, la: bool, lb: bool, na: nat, nb: nat)
    requires Part(a, la, na) && Part(b, lb, nb)
    ensures Part(a + [Blank, P(OpTok(AndOp)), Blank] + b, la && lb, na + nb)
  {
    hide OkPiece, OkPair, Chain, BeginP, Ended;
    var c: seq<Piece> := [Blank, P(OpTok(AndOp)), Blank];
    AndPart();
    FirstOk(b);
    EndedPair(Last(a), Blank);
    BlankBegin(b[0]);
    ChainJoin(a, c, OkPiece, OkPair);
    ChainJoin(a + c, b, OkPiece, OkPair);
    ChainJoin(a, c, Any, FreePair);
    ChainJoin(a + c, b, Any, FreePair);
    NegJoin(a, c);
    NegJoin(a + c, b);
  }

  lemma {:induction false} MorePart(ps: seq<Piece>, ss: seq<SubInsn>, loose: bool, negs: nat)
    requires Part(ps, loose, negs) && GoodSubs(ss)
    ensures Part(ps + PrintMore(ss), loose && SpacedSubs(ss), negs + SubsNegs(ss))
    ensures (ps + PrintMore(ss))[0] == ps[0]
    decreases |ss|
  {
    hide Part, PrintSubInsn, GoodSub, SpacedSub, SubNegs;
    PartSome(ps, loose, negs);
    if ss == [] {
      assert ps + [] == ps;
    } else {
      var a := PrintSubInsn(ss[0]);
      assert GoodSub(ss[0]);
      OneSubPart(ss[0]);
      PartAnd(ps, a, loose, SpacedSub(ss[0]), negs, SubNegs(ss[0]));
      var qs := ps + [Blank, P(OpTok(AndOp)), Blank] + a;
      MorePart(qs, ss[1..], loose && SpacedSub(ss[0]), negs + SubNegs(ss[0]));
      assert ps + PrintMore(ss) == qs + PrintMore(ss[1..]);
      assert SpacedSubs(ss) <==> SpacedSub(ss[0]) && SpacedSubs(ss[1..]);
    }
  }

  lemma OneSubPart(s: SubInsn)
    requires GoodSub(s)
    ensures Part(PrintSubInsn(s), SpacedSub(s), SubNegs(s))
    ensures PrintSubInsn(s) != [] && (IsNeg(PrintSubInsn(s)[0]) <==> SubLeadsNeg(s))
  {
    hide Part, PrintPrefs, PrintSInsn, LeadsNeg, SpacedPrefs, SpacedOperands;
    SubPart(s.prefs, s.sinsn);
    PartSome(PrintSubInsn(s), SpacedSub(s), SubNegs(s));
  }

  lemma InsnPart(i: Insn)
    requires i.subinsns != [] && GoodSubs(i.subinsns)
    ensures Part(PrintInsn(i), SpacedSubs(i.subinsns), SubsNegs(i.subinsns))
    ensures PrintInsn(i) != [] && (IsNeg(PrintInsn(i)[0]) <==> InsnLeadsNeg(i))
  {
    hide Part, PrintSubInsn, GoodSub, SpacedSub, SubNegs, SubLeadsNeg, PrintMore;
    var s, ss := i.subinsns[0], i.subinsns[1..];
    assert GoodSub(s);
    OneSubPart(s);
    MorePart(PrintSubInsn(s), ss, SpacedSub(s), SubNegs(s));
    PartSome(PrintInsn(i), SpacedSub(s) && SpacedSubs(ss), SubNegs(s) + SubsNegs(ss));
    assert SpacedSubs(i.subinsns) <==> SpacedSub(s) && SpacedSubs(ss);
  }

  lemma PartPrinted(ps: seq<Piece>, loose: bool, negs: nat, ws: bool)
    requires Part(ps, loose, negs)
    ensures Printed(ps) && (Free(ps, ws) <==> loose && (IsNeg(ps[0]) ==> ws))
  {
    hide Fits, Chain, NegPieces;
  }

  // ---------------------------------------------------------------------
  // What reading gives at all
  // ---------------------------------------------------------------------

  lemma {:induction false} PrefNegsSnoc(es: seq<Expr>, e: Expr)
    ensures PrefNegs(es + [e]) == PrefNegs(es) + Negs(e)
    decreases |es|
  {
    if es == [] {
      assert es + [e] == [e] && [e][1..] == [];
    } else {
      assert (es + [e])[1..] == es[1..] + [e];
      PrefNegsSnoc(es[1..], e);
    }
  }

  lemma {:induction false} SubsNegsSnoc(ss: seq<SubInsn>, s: SubInsn)
    ensures SubsNegs(ss + [s]) == SubsNegs(ss) + SubNegs(s)
    decreases |ss|
  {
    hide SubNegs;
    if ss == [] {
      assert ss + [s] == [s] && [s][1..] == [];
    } else {
      assert (ss + [s])[1..] == ss[1..] + [s];
      SubsNegsSnoc(ss[1..], s);
    }
  }

  lemma {:induction false} SubGives(ts: seq<Tok>, prefs: seq<Expr>)
    requires OkToks(ts) && GoodPrefs(prefs)
    ensures var r := ParseSubInsn(ts, prefs);
            r.ReadSub? ==>
              GoodSub(r.s) && OkToks(r.rest) && SubNegs(r.s) + NegToks(r.rest) == PrefNegs(prefs) + NegToks(ts)
    decreases |ts|
  {
    hide OkToks, NegToks, Parse, ParseSInsn, Named, Whole, NamedSInsn, WholeSInsn;
    if ts != [] && ts[0].WordTok? {
      SInsnGives(ts);
    } else {
      ParseGives(8, ts);
      var r := Parse(8, ts, false);
      if r.Read? {
        PrefNegsSnoc(prefs, r.e);
        SubGives(r.rest, prefs + [r.e]);
      }
    }
  }

  lemma {:induction false} MoreSubsGive(ts: seq<Tok>, done: seq<SubInsn>)
    requires OkToks(ts) && GoodSubs(done) && done != []
    ensures var r := ParseMoreSubs(ts, done);
            r.Some? ==> r.value.subinsns != [] && GoodSubs(r.value.subinsns)
                        && SubsNegs(r.value.subinsns) == SubsNegs(done) + NegToks(ts)
    decreases |ts|
  {
    hide OkToks, NegToks, ParseSubInsn, GoodSub, SubNegs;
    if ts == [] {
      NoToks();
    } else if ts[0] == OpTok(AndOp) {
      TailOk(ts);
      SubGives(ts[1..], []);
      var r := ParseSubInsn(ts[1..], []);
      if r.ReadSub? {
        SubsNegsSnoc(done, r.s);
        MoreSubsGive(r.rest, done + [r.s]);
      }
    }
  }

  lemma InsnGives(ts: seq<Tok>)
    requires OkToks(ts)
    ensures var r := ParseInsn(ts);
            r.Some? ==>
              r.value.subinsns != [] && GoodSubs(r.value.subinsns) && SubsNegs(r.value.subinsns) == NegToks(ts)
  {
    hide OkToks, NegToks, ParseSubInsn, ParseMoreSubs, GoodSub, SubNegs;
    SubGives(ts, []);
    var r := ParseSubInsn(ts, []);
    if r.ReadSub? {
      assert [r.s][1..] == [];
      MoreSubsGive(r.rest, [r.s]);
    }
  }

  // ---------------------------------------------------------------------
  // The result
  // ---------------------------------------------------------------------

  /** The text of an instruction reads back as the instruction exactly when it is
      readable and does not need white space in front that is not there. */
  lemma InsnTextIsRead(i: Insn, ws: bool)
    ensures ReadInsnText(Text(PrintInsn(i)), ws) == Some(i) <==> ReadableInsn(i) && (InsnLeadsNeg(i) ==> ws)
  {
    hide Lex, ParseInsn, PrintInsn, Text, Toks, NegToks, NegPieces, Printed, Free, SubsNegs, GoodSubs, SpacedSubs,
         SubLeadsNeg;
    var ps := PrintInsn(i);
    var negs := SubsNegs(i.subinsns);
    if i.subinsns != [] && GoodSubs(i.subinsns) {
      InsnPart(i);
      PartPrinted(ps, SpacedSubs(i.subinsns), negs, ws);
      if Free(ps, ws) {
        FoundAsWritten(ps, ws);
        InsnIsRead(i);
      }
    }
    if ReadInsnText(Text(ps), ws) == Some(i) {
      LexOk(Text(ps), ws);
      InsnGives(Lex(Text(ps), ws));
      LostOtherwise(ps, ws);
    }
  }
}
