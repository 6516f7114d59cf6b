/** Printed text read back: which expressions survive the way through the printer, the
    lexer and the grammar. */
module Reading {
  import opened Options
  import opened Words
  import opened Exprs
  import opened Lexer
  import opened Printer
  import opened Grammar
  import opened Spacing
  import opened PrintedText

  // ---------------------------------------------------------------------
  // What the lexer and the grammar can give at all
  // ---------------------------------------------------------------------

  predicate OkTok(t: Tok) { t.ErrTok? || OkPiece(P(t)) }

  predicate OkToks(ts: seq<Tok>) { forall i :: 0 <= i < |ts| ==> OkTok(ts[i]) }

  lemma StartedName(s: string, n: nat)
    requires s != "" && IsStart(s[0]) && n == NameLen(s)
    ensures n > 0 && IsName(s[..n]) && s[..n][0] == s[0]
  {
    assert IsPart(s[0]);
  }

  lemma NextOk(s: string, ws: bool)
    requires s != ""
    ensures Next(s, ws).tok.Some? ==> OkTok(Next(s, ws).tok.value)
  {
    hide NameLen, Value, SpanLen, Saturated, IsName;
    if IsStart(s[0]) {
      StartedName(s, NameLen(s));
    } else if |s| > 1 && IsStart(s[1]) {
      StartedName(s[1..], NameLen(s[1..]));
      assert s[1..1 + NameLen(s[1..])] == s[1..][..NameLen(s[1..])];
    }
  }

  lemma {:induction false} LexOk(s: string, ws: bool)
    ensures OkToks(Lex(s, ws))
    decreases |s|
  {
    hide Next, OkTok;
    if s != "" {
      var l := Next(s, ws);
      NextOk(s, ws);
      LexOk(s[l.len..], l.ws);
    }
  }

  /** The expression has good names and no `$`, the rest is good, and the negations of
      the tokens used up are those of the expression. */
  ghost predicate Given(before: nat, e: Expr, rest: seq<Tok>) {
    Named(e) && Whole(e, false) && OkToks(rest) && Negs(e) + NegToks(rest) == before
  }

  ghost predicate GivenInsn(before: nat, s: SInsn, rest: seq<Tok>) {
    NamedSInsn(s) && WholeSInsn(s, false) && OkToks(rest) && OperandNegs(s.operands) + NegToks(rest) == before
  }

  lemma TailOk(ts: seq<Tok>)
    requires OkToks(ts) && ts != []
    ensures OkToks(ts[1..]) && OkTok(ts[0]) && NegToks(ts) == Count(ts[0] == UnTok(NegOp)) + NegToks(ts[1..])
  {
    hide OkTok;
  }

  lemma {:induction false} ParseGives(l: int, ts: seq<Tok>)
    requires -1 <= l <= 9 && OkToks(ts)
    ensures var r := Parse(l, ts, false); r.Read? ==> Given(NegToks(ts), r.e, r.rest)
    decreases |ts|, 1, 9 - l
  {
    hide OkToks, NegToks, ParseAtom, ParseMore;
    if l == 9 {
      AtomGives(ts);
    } else if l == 8 {
      if ts != [] && ts[0].UnTok? {
        TailOk(ts);
        ParseGives(8, ts[1..]);
      } else {
        ParseGives(9, ts);
      }
    } else {
      ParseGives(l + 1, ts);
      var r := Parse(l + 1, ts, false);
      if r.Read? {
        MoreGives(l, r.e, r.rest, NegToks(ts));
      }
    }
  }

  lemma {:induction false} MoreGives(l: int, e: Expr, ts: seq<Tok>, before: nat)
    requires -1 <= l <= 7 && Given(before, e, ts)
    ensures var r := ParseMore(l, e, ts, false); r.Read? ==> Given(before, r.e, r.rest)
    decreases |ts|, 2
  {
    hide OkToks, NegToks, Parse;
    if NextPrec(ts) == l {
      TailOk(ts);
      ParseGives(l + 1, ts[1..]);
      var r := Parse(l + 1, ts[1..], false);
      if r.Read? {
        MoreGives(l, Bin(ts[0].op, e, r.e), r.rest, before);
      }
    }
  }

  lemma {:induction false} AtomGives(ts: seq<Tok>)
    requires OkToks(ts)
    ensures var r := ParseAtom(ts, false); r.Read? ==> Given(NegToks(ts), r.e, r.rest)
    decreases |ts|, 0
  {
    hide OkToks, NegToks, ParseParen, ParseMem, IsName;
    if ts != [] {
      TailOk(ts);
      if ts[0].Open? {
        ParenGives(ts[1..]);
      } else if ts[0].Bracket? {
        MemGives(ts[0].name, ts[1..]);
      }
    }
  }

  lemma {:induction false} ParenGives(ts: seq<Tok>)
    requires OkToks(ts)
    ensures var r := ParseParen(ts, false); r.Read? ==> Given(NegToks(ts), r.e, r.rest)
    decreases |ts|, 3
  {
    hide OkToks, NegToks, Parse, ParseSInsn;
    if ts != [] {
      TailOk(ts);
      if ts[0].WordTok? {
        SInsnGives(ts);
        var r := ParseSInsn(ts, false);
        if r.ReadInsn? && r.rest != [] {
          TailOk(r.rest);
        }
      } else if !ts[0].Close? {
        ParseGives(-1, ts);
        var r := Parse(-1, ts, false);
        if r.Read? && r.rest != [] {
          TailOk(r.rest);
        }
      }
    }
  }

  lemma {:induction false} MemGives(name: string, ts: seq<Tok>)
    requires OkToks(ts) && (name == "" || IsName(name))
    ensures var r := ParseMem(name, ts, false); r.Read? ==> Given(NegToks(ts), r.e, r.rest)
    decreases |ts|, 3
  {
    hide OkToks, NegToks, Parse, IsName;
    ParseGives(-1, ts);
    var a := Parse(-1, ts, false);
    if a.Read? && a.rest != [] {
      TailOk(a.rest);
      if a.rest[0].StepTok? {
        ParseGives(-1, a.rest[1..]);
        var b := Parse(-1, a.rest[1..], false);
        if b.Read? && b.rest != [] {
          TailOk(b.rest);
        }
      }
    }
  }

  lemma {:induction false} OperandGives(ts: seq<Tok>)
    requires OkToks(ts)
    ensures var r := ParseOperand(ts, false); r.Read? ==> Given(NegToks(ts), r.e, r.rest)
    decreases |ts|, 2
  {
    hide OkToks, NegToks, Parse, ParseVector;
    ParseGives(6, ts);
    var r := Parse(6, ts, false);
    if r.Read? {
      VectorGives(r.e, r.rest, NegToks(ts));
    }
  }

  lemma {:induction false} VectorGives(e: Expr, ts: seq<Tok>, before: nat)
    requires Given(before, e, ts)
    ensures var r := ParseVector(e, ts, false); r.Read? ==> Given(before, r.e, r.rest)
    decreases |ts|, 2
  {
    hide OkToks, NegToks, Parse;
    if NextPrec(ts) == -1 {
      TailOk(ts);
      ParseGives(6, ts[1..]);
      var r := Parse(6, ts[1..], false);
      if r.Read? {
        VectorGives(Bin(VecOp, e, r.e), r.rest, before);
      }
    }
  }

  lemma {:induction false} SInsnGives(ts: seq<Tok>)
    requires OkToks(ts)
    ensures var r := ParseSInsn(ts, false); r.ReadInsn? ==> GivenInsn(NegToks(ts), r.insn, r.rest)
    decreases |ts|, 2
  {
    hide OkToks, NegToks, ParseOperands, IsWord;
    if ts != [] && ts[0].WordTok? {
      TailOk(ts);
      OperandsGive(ts[1..], SInsn(ts[0].name, false, [], []), NegToks(ts));
    }
  }

  lemma {:induction false} OperandsGive(ts: seq<Tok>, s: SInsn, before: nat)
    requires GivenInsn(before, s, ts)
    ensures var r := ParseOperands(ts, s, false); r.ReadInsn? ==> GivenInsn(before, r.insn, r.rest)
    decreases |ts|, 4
  {
    hide OkToks, NegToks, ParseOperand, ParseBars, IsWord;
    if ts != [] && ts[0].WordTok? {
      TailOk(ts);
      OperandsGive(ts[1..], s.(mods := s.mods + [Modifier(ts[0].name, false)]), before);
    } else if ts != [] && Starts(ts[0]) {
      OperandGives(ts);
      var r := ParseOperand(ts, false);
      if r.Read? {
        OneExpr(r.e);
        BarsGive(r.rest, s, [r.e], before);
      }
    }
  }

  lemma OneExpr(e: Expr)
    ensures ExprNegs([e]) == Negs(e)
  {
    assert [e][1..] == [];
  }

  /** The expressions read so far, and what comes after them. */
  ghost predicate GivenExprs(before: nat, s: SInsn, es: seq<Expr>, rest: seq<Tok>) {
    && NamedSInsn(s) && WholeSInsn(s, false) && OkToks(rest)
    && es != [] && (forall j :: 0 <= j < |es| ==> Named(es[j]) && Whole(es[j], false))
    && OperandNegs(s.operands) + ExprNegs(es) + NegToks(rest) == before
  }

  lemma {:induction false} BarsGive(ts: seq<Tok>, s: SInsn, es: seq<Expr>, before: nat)
    requires GivenExprs(before, s, es, ts)
    ensures var r := ParseBars(ts, s, es, false); r.ReadInsn? ==> GivenInsn(before, r.insn, r.rest)
    decreases |ts|, 5
  {
    hide OkToks, NegToks, ParseOperand, ParseOperands, Named, Whole;
    if ts != [] && ts[0] == OpTok(OrOp) {
      TailOk(ts);
      OperandGives(ts[1..]);
      var r := ParseOperand(ts[1..], false);
      if r.Read? {
        ExprNegsSnoc(es, r.e);
        BarsGive(r.rest, s, es + [r.e], before);
      }
    } else {
      var t := s.(operands := s.operands + [Operand(s.mods, es)], mods := []);
      OperandNegsSnoc(s.operands, Operand(s.mods, es));
      MoreOperands(s, es);
      OperandsGive(ts, t, before);
    }
  }

  lemma MoreOperands(s: SInsn, es: seq<Expr>)
    requires NamedSInsn(s) && WholeSInsn(s, false)
    requires es != [] && forall j :: 0 <= j < |es| ==> Named(es[j]) && Whole(es[j], false)
    ensures var t := s.(operands := s.operands + [Operand(s.mods, es)], mods := []);
            NamedSInsn(t) && WholeSInsn(t, false)
  {
    hide Named, Whole, IsWord;
    assert NamedOperand(Operand(s.mods, es)) && WholeOperand(Operand(s.mods, es), false);
  }

  lemma {:induction false} ExprNegsSnoc(es: seq<Expr>, e: Expr)
    ensures ExprNegs(es + [e]) == ExprNegs(es) + Negs(e)
    decreases |es|
  {
    if es == [] {
      OneExpr(e);
      assert es + [e] == [e];
    } else {
      assert (es + [e])[1..] == es[1..] + [e];
      ExprNegsSnoc(es[1..], e);
    }
  }

  lemma {:induction false} OperandNegsSnoc(ops: seq<Operand>, op: Operand)
    ensures OperandNegs(ops + [op]) == OperandNegs(ops) + ExprNegs(op.exprs)
    decreases |ops|
  {
    if ops == [] {
      assert ops + [op] == [op] && [op][1..] == [];
    } else {
      assert (ops + [op])[1..] == ops[1..] + [op];
      OperandNegsSnoc(ops[1..], op);
    }
  }

  // ---------------------------------------------------------------------
  // The tokens of a printed text
  // ---------------------------------------------------------------------

  /** Printed pieces: they fit, begin like an operand or an instruction and end like one. */
  ghost predicate Printed(ps: seq<Piece>) {
    Fits(ps) && NoPos(ps) && ps != [] && NoSubFirst(ps) && !IsDash(Last(ps))
  }

  lemma FoundAsWritten(ps: seq<Piece>, ws: bool)
    requires Printed(ps) && Free(ps, ws)
    ensures Lex(Text(ps), ws) == Toks(ps)
  {
    hide Fits, Free, Lex, LexPieces, Toks, Text;
    LexText(ps, ws);
    FreeLex(ps, ws);
  }

  lemma LostOtherwise(ps: seq<Piece>, ws: bool)
    requires Printed(ps) && NegToks(Lex(Text(ps), ws)) == NegPieces(ps)
    ensures Free(ps, ws)
  {
    hide Fits, Free, Lex, LexPieces, Text, NegToks, NegPieces;
    LexText(ps, ws);
    NegsLost(ps, ws);
  }

  lemma ExprPrinted(e: Expr, ws: bool)
    requires Named(e) && Whole(e, false)
    ensures Printed(Print(e, -1)) && NegPieces(Print(e, -1)) == Negs(e)
    ensures Free(Print(e, -1), ws) <==> Spaced(e) && (LeadsNeg(e, -1) ==> ws)
  {
    hide Fits, Chain, Print, NegPieces, NoPos;
    PrintFits(e, -1, false);
    PrintEnds(e, -1);
    SpacedPrint(e, -1);
    NegsPrint(e, -1);
  }

  lemma OperandPrinted(e: Expr, ws: bool)
    requires Named(e) && Whole(e, false)
    ensures Printed(PrintSExpr(e, -1)) && NegPieces(PrintSExpr(e, -1)) == Negs(e)
    ensures Free(PrintSExpr(e, -1), ws) <==> SpacedOperand(e) && (OperandLeadsNeg(e) ==> ws)
  {
    hide Fits, Chain, PrintSExpr, NegPieces, NoPos;
    OperandFits(e, false);
    OperandEnds(e);
    OperandLoose(e);
    NegsOperand(e);
  }

  // ---------------------------------------------------------------------
  // The results
  // ---------------------------------------------------------------------

  /** Names are names, nested instructions are of a form that can be written, there is no
      `$`, and no negation is the first thing printed of a right operand, of the operand
      of a unary operator or of the step of a memory operand. */
  predicate Readable(e: Expr) { Named(e) && Whole(e, false) && Spaced(e) }

  predicate ReadableOperand(e: Expr) { Named(e) && Whole(e, false) && SpacedOperand(e) }

  /** Reading a text that stands behind white space if `ws`. */
  function ReadExpr(text: string, ws: bool): Read { Parse(-1, Lex(text, ws), false) }

  function ReadOperand(text: string, ws: bool): Read { ParseOperand(Lex(text, ws), false) }

  /** The outermost text of an expression reads back as the expression exactly when it is
      readable and does not need white space in front that is not there. */
  lemma TextIsRead(e: Expr, ws: bool)
    ensures ReadExpr(Text(PrintExpr(e, -1)), ws) == Read(e, []) <==> Readable(e) && (LeadsNeg(e, -1) ==> ws)
  {
    hide Lex, Parse, Print, PrintExpr, Text, Toks, NegToks, NegPieces, Printed, Free;
    ExprScale(e, -1);
    var ps := Print(e, -1);
    if Named(e) && Whole(e, false) {
      ExprPrinted(e, ws);
      if Free(ps, ws) {
        FoundAsWritten(ps, ws);
        PrintedIsRead(e, -1, [], false);
        assert PT(e, -1) + [] == Toks(ps);
        NoMore(-1, e, [], false);
      }
    }
    if ReadExpr(Text(ps), ws) == Read(e, []) {
      LexOk(Text(ps), ws);
      ParseGives(-1, Lex(Text(ps), ws));
      NoToks();
      LostOtherwise(ps, ws);
    }
  }

  lemma NoToks()
    ensures NegToks([]) == 0
  {
  }

  /** So does the text of an operand. */
  lemma OperandTextIsRead(e: Expr, ws: bool)
    ensures ReadOperand(Text(PrintSExpr(e, -1)), ws) == Read(e, []) <==>
            ReadableOperand(e) && (OperandLeadsNeg(e) ==> ws)
  {
    hide Lex, ParseOperand, PrintSExpr, Text, Toks, NegToks, NegPieces, Printed, Free;
    var ps := PrintSExpr(e, -1);
    if Named(e) && Whole(e, false) {
      OperandPrinted(e, ws);
      if Free(ps, ws) {
        FoundAsWritten(ps, ws);
        OperandIsRead(e, [], false);
        assert Toks(ps) + [] == Toks(ps);
        VectorEnd(e, [], false);
      }
    }
    if ReadOperand(Text(ps), ws) == Read(e, []) {
      LexOk(Text(ps), ws);
      OperandGives(Lex(Text(ps), ws));
      NoToks();
      LostOtherwise(ps, ws);
    }
  }
}
