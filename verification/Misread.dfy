/** Two texts that the printer writes and the parser does not take for what they were:
    `0x2*-0x3`, where the lexer takes the negation for a subtraction, and `[$r1--$r2]`,
    where it takes a subtraction and a negation for one sign. */
module Misread {
  import opened Options
  import opened Words
  import opened Exprs
  import opened Lexer
  import opened Printer
  import opened Grammar
  import opened Spacing
  import opened PrintedText
  import opened Reading

  lemma TextCons(p: Piece, ps: seq<Piece>)
    ensures Text([p] + ps) == Spell(p) + Text(ps) && Text([]) == ""
  {
    assert ([p] + ps)[1..] == ps;
  }

  lemma Signs()
    ensures Spell(P(Bracket(""))) == "[" && Spell(P(Unbracket)) == "]" && Spell(P(OpTok(MulOp))) == "*"
    ensures Spell(P(OpTok(SubOp))) == "-" && Spell(P(UnTok(NegOp))) == "-" && Spell(P(StepTok(MinusMinus))) == "--"
  {
    assert "" + "[" == "[";
  }

  lemma Operands(n: Word, name: string)
    ensures Spell(P(NumTok(n))) == "0x" + Hex(Val(n)) && Spell(P(RegTok(name))) == "$" + name
  {
  }

  lemma AtomPieces(e: Expr, l: int)
    requires (e.Num? || e.Reg?) && -1 <= l <= 9
    ensures Print(e, l) == [P(if e.Num? then NumTok(e.n) else RegTok(e.name))]
  {
  }

  // ---------------------------------------------------------------------
  // A negated factor
  // ---------------------------------------------------------------------

  function Product(a: Word, b: Word): Expr { Bin(MulOp, Num(a), Un(NegOp, Num(b))) }

  lemma ProductPieces(a: Word, b: Word)
    ensures PrintExpr(Product(a, b), -1) == [P(NumTok(a)), P(OpTok(MulOp)), P(UnTok(NegOp)), P(NumTok(b))]
  {
    hide PrintExpr, Print;
    var e := Product(a, b);
    ExprScale(e, -1);
    PrintInfix(e, -1);
    PrintPrefix(e.e2, 8);
    AtomPieces(e.e1, OpPrec(MulOp));
    AtomPieces(e.e2.e, 8);
  }

  lemma ProductText(a: Word, b: Word)
    ensures Text(PrintExpr(Product(a, b), -1)) == "0x" + Hex(Val(a)) + ("*" + ("-" + ("0x" + Hex(Val(b)) + "")))
  {
    hide Hex, Val, PrintExpr, Text, Spell;
    Signs();
    Operands(a, "");
    Operands(b, "");
    ProductPieces(a, b);
    var n, t, u, m := P(NumTok(a)), P(OpTok(MulOp)), P(UnTok(NegOp)), P(NumTok(b));
    TextCons(m, []);
    TextCons(u, [m] + []);
    TextCons(t, [u] + ([m] + []));
    TextCons(n, [t] + ([u] + ([m] + [])));
    assert [n, t, u, m] == [n] + ([t] + ([u] + ([m] + [])));
  }

  lemma LexOne(p: Piece, ps: seq<Piece>, ws: bool)
    requires p.P? && !IsDash(p) && !p.tok.PosTok?
    ensures LexPieces([p] + ps, ws) == [p.tok] + LexPieces(ps, Opens(p)) && LexPieces([], ws) == []
  {
    assert ([p] + ps)[1..] == ps;
  }

  lemma LexDash(p: Piece, q: Piece, ps: seq<Piece>, ws: bool)
    requires IsDash(p) && !IsDash(q)
    ensures LexPieces([p] + ([q] + ps), ws) == [if ws then UnTok(NegOp) else OpTok(SubOp)] + LexPieces([q] + ps, false)
  {
    assert ([p] + ([q] + ps))[1..] == [q] + ps;
  }

  lemma ProductGood(a: Word, b: Word)
    ensures Named(Product(a, b)) && Whole(Product(a, b), false)
  {
    var m, n := Num(a), Num(b);
    assert Named(m) && Whole(m, false) && Named(n) && Whole(n, false);
    var u := Un(NegOp, n);
    assert Named(u) && Whole(u, false);
    assert Product(a, b) == Bin(MulOp, m, u);
  }

  /** The negation is found as a subtraction. */
  lemma ProductLexed(a: Word, b: Word, ws: bool)
    ensures Lex(Text(PrintExpr(Product(a, b), -1)), ws) == [NumTok(a), OpTok(MulOp), OpTok(SubOp), NumTok(b)]
  {
    hide Lex, LexPieces, Print, PrintExpr, Fits, Text, Named, Whole;
    var e := Product(a, b);
    var n, t, u, m := P(NumTok(a)), P(OpTok(MulOp)), P(UnTok(NegOp)), P(NumTok(b));
    ProductPieces(a, b);
    ExprScale(e, -1);
    ProductGood(a, b);
    PrintFits(e, -1, false);
    LexText([n, t, u, m], ws);
    LexOne(m, [], false);
    LexDash(u, m, [], false);
    LexOne(t, [u] + ([m] + []), false);
    LexOne(n, [t] + ([u] + ([m] + [])), ws);
    assert [n, t, u, m] == [n] + ([t] + ([u] + ([m] + [])));
  }

  lemma {:induction false} WrongBelow(l: int, ts: seq<Tok>)
    requires -1 <= l <= 7 && Parse(7, ts, false) == Wrong
    ensures Parse(l, ts, false) == Wrong
    decreases 7 - l
  {
    hide ParseAtom;
    if l < 7 {
      WrongBelow(l + 1, ts);
    }
  }

  lemma ProductWrong(a: Word, b: Word)
    ensures Parse(-1, [NumTok(a), OpTok(MulOp), OpTok(SubOp), NumTok(b)], false) == Wrong
  {
    var ts := [NumTok(a), OpTok(MulOp), OpTok(SubOp), NumTok(b)];
    assert ts[1..][1..][0] == OpTok(SubOp);
    assert Parse(9, ts, false) == Read(Num(a), ts[1..]);
    assert Parse(9, ts[1..][1..], false) == Wrong;
    assert Parse(8, ts, false) == Read(Num(a), ts[1..]) && Parse(8, ts[1..][1..], false) == Wrong;
    assert Parse(7, ts, false) == Wrong;
    WrongBelow(-1, ts);
  }

  lemma ProductLiteral()
    ensures "0x" + "2" + ("*" + ("-" + ("0x" + "3" + ""))) == "0x2*-0x3"
  {
    assert "0x" + "3" + "" == "0x3" && "-" + "0x3" == "-0x3" && "*" + "-0x3" == "*-0x3" && "0x" + "2" == "0x2";
  }

  /** `0x2*-0x3` is printed and is a syntax error, wherever it stands. */
  lemma ProductRefused(a: Word, b: Word, ws: bool)
    requires Val(a) == 2 && Val(b) == 3
    ensures Text(PrintExpr(Product(a, b), -1)) == "0x2*-0x3"
    ensures ReadExpr("0x2*-0x3", ws) == Wrong
  {
    hide Val, Lex, PrintExpr, Text, Parse;
    ProductText(a, b);
    ProductLiteral();
    assert Hex(2) == "2" && Hex(3) == "3";
    ProductLexed(a, b, ws);
    ProductWrong(a, b);
  }

  // ---------------------------------------------------------------------
  // A subtracted negation
  // ---------------------------------------------------------------------

  function Difference(a: string, b: string): Expr { Mem("", Bin(SubOp, Reg(a), Un(NegOp, Reg(b)))) }

  function Stepped(a: string, b: string): Expr { MemStep(MinusMinus, "", Reg(a), Reg(b)) }

  lemma DifferencePieces(a: string, b: string)
    ensures PrintExpr(Difference(a, b), -1) ==
            [P(Bracket("")), P(RegTok(a)), P(OpTok(SubOp)), P(UnTok(NegOp)), P(RegTok(b)), P(Unbracket)]
  {
    hide PrintExpr, Print;
    var e := Difference(a, b);
    ExprScale(e, -1);
    SamePrint(e, -1, 9);
    PrintMemory(e);
    PrintInfix(e.addr, -1);
    PrintPrefix(e.addr.e2, 7);
    AtomPieces(e.addr.e1, OpPrec(SubOp));
    AtomPieces(e.addr.e2.e, 8);
  }

  lemma SteppedPieces(a: string, b: string)
    ensures PrintExpr(Stepped(a, b), -1) ==
            [P(Bracket("")), P(RegTok(a)), P(StepTok(MinusMinus)), P(RegTok(b)), P(Unbracket)]
  {
    hide PrintExpr, Print;
    var e := Stepped(a, b);
    ExprScale(e, -1);
    SamePrint(e, -1, 9);
    PrintMemory(e);
    AtomPieces(e.addr, -1);
    AtomPieces(e.amount, -1);
  }

  /** The two texts, as they are put together. */
  function Shared(a: string, b: string): string {
    "[" + (("$" + a) + ("-" + ("-" + (("$" + b) + ("]" + "")))))
  }

  lemma SharedText(a: string, b: string)
    ensures Shared(a, b) == "[$" + a + "--$" + b + "]"
  {
    var s, t := "$" + a, ("$" + b) + "]";
    assert ("$" + b) + ("]" + "") == t;
    assert "-" + ("-" + t) == "--" + t;
    assert "[" + (s + ("--" + t)) == "[" + s + "--" + t;
  }

  lemma TailText(b: string)
    ensures Text([P(RegTok(b)), P(Unbracket)]) == ("$" + b) + ("]" + "")
  {
    hide Text, Spell, Hex, Val;
    Signs();
    Operands(Zero(), b);
    var r, u := P(RegTok(b)), P(Unbracket);
    TextCons(u, []);
    TextCons(r, [u] + []);
    assert [r, u] == [r] + ([u] + []);
  }

  lemma DifferenceText(a: string, b: string)
    ensures Text(PrintExpr(Difference(a, b), -1)) == Shared(a, b)
  {
    hide Text, PrintExpr, Spell, Hex, Val;
    Signs();
    Operands(Zero(), a);
    DifferencePieces(a, b);
    var o, r, s, n, t := P(Bracket("")), P(RegTok(a)), P(OpTok(SubOp)), P(UnTok(NegOp)), [P(RegTok(b)), P(Unbracket)];
    TailText(b);
    TextCons(n, t);
    TextCons(s, [n] + t);
    TextCons(r, [s] + ([n] + t));
    TextCons(o, [r] + ([s] + ([n] + t)));
    assert PrintExpr(Difference(a, b), -1) == [o] + ([r] + ([s] + ([n] + t)));
  }

  lemma TwoDashes(s: string)
    ensures "--" + s == "-" + ("-" + s)
  {
  }

  lemma SteppedText(a: string, b: string)
    ensures Text(PrintExpr(Stepped(a, b), -1)) == Shared(a, b)
  {
    hide Text, PrintExpr, Spell, Hex, Val;
    Signs();
    Operands(Zero(), a);
    SteppedPieces(a, b);
    var o, r, m, t := P(Bracket("")), P(RegTok(a)), P(StepTok(MinusMinus)), [P(RegTok(b)), P(Unbracket)];
    TailText(b);
    TextCons(m, t);
    TextCons(r, [m] + t);
    TextCons(o, [r] + ([m] + t));
    assert PrintExpr(Stepped(a, b), -1) == [o] + ([r] + ([m] + t));
    TwoDashes(("$" + b) + ("]" + ""));
  }

  /** `[$r1--$r2]` is printed for a subtraction of a negation, and read as a step;
      likewise for any other two registers. */
  lemma StepReadInstead(a: string, b: string, ws: bool)
    requires IsName(a) && IsName(b)
    ensures Text(PrintExpr(Difference(a, b), -1)) == "[$" + a + "--$" + b + "]"
    ensures ReadExpr("[$" + a + "--$" + b + "]", ws) == Read(Stepped(a, b), [])
  {
    hide Lex, Parse, PrintExpr, Text, IsName;
    DifferenceText(a, b);
    SteppedText(a, b);
    SharedText(a, b);
    SteppedReadable(a, b);
    TextIsRead(Stepped(a, b), ws);
  }

  lemma SteppedReadable(a: string, b: string)
    requires IsName(a) && IsName(b)
    ensures Readable(Stepped(a, b)) && !LeadsNeg(Stepped(a, b), -1)
  {
    hide IsName;
    assert Named(Reg(a)) && Named(Reg(b)) && Whole(Reg(a), false) && Whole(Reg(b), false) && Spaced(Reg(a)) &&
           Spaced(Reg(b));
  }

  lemma RegistersMisread(ws: bool)
    ensures Text(PrintExpr(Difference("r1", "r2"), -1)) == "[$r1--$r2]"
    ensures ReadExpr("[$r1--$r2]", ws) == Read(Stepped("r1", "r2"), [])
  {
    hide Lex, Parse, PrintExpr, Text;
    assert IsName("r1") && IsName("r2") && "[$" + "r1" + "--$" + "r2" + "]" == "[$r1--$r2]";
    StepReadInstead("r1", "r2", ws);
  }
}
