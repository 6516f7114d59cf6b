/** The text that the printer writes is well spaced, up to negations; which texts those
    are is a matter of the expression alone. */
module PrintedText {
  import opened Options
  import opened Exprs
  import opened Lexer
  import opened Printer
  import opened Grammar
  import opened Spacing

  // ---------------------------------------------------------------------
  // Conditions on expressions
  // ---------------------------------------------------------------------

  /** Registers, labels, memories, instructions and modifiers have names that the lexer
      takes for names. */
  predicate Named(e: Expr)
    decreases e
  {
    match e
    case Bin(_, e1, e2) => Named(e1) && Named(e2)
    case Un(_, e1) => Named(e1)
    case Reg(name) => IsName(name)
    case Label(name) => IsName(name)
    case Mem(name, a) => (name == "" || IsName(name)) && Named(a)
    case MemStep(_, name, a, b) => (name == "" || IsName(name)) && Named(a) && Named(b)
    case SInsnExpr(s) => NamedSInsn(s)
    case _ => true
  }

  predicate NamedMods(mods: seq<Modifier>) { forall i :: 0 <= i < |mods| ==> IsWord(mods[i].name) }

  predicate NamedSInsn(s: SInsn)
    decreases s
  {
    && IsWord(s.name) && NamedMods(s.mods)
    && forall i :: 0 <= i < |s.operands| ==> NamedOperand(s.operands[i])
  }

  predicate NamedOperand(op: Operand)
    decreases op
  {
    NamedMods(op.mods) && forall j :: 0 <= j < |op.exprs| ==> Named(op.exprs[j])
  }

  /** A negation is the first thing printed of the expression at a level. */
  predicate LeadsNeg(e: Expr, l: int) {
    l <= Prec(e) && ((e.Un? && e.uop == NegOp) || (e.Bin? && LeadsNeg(e.e1, OpPrec(e.op))))
  }

  predicate OperandLeadsNeg(e: Expr) {
    if e.Bin? && e.op.VecOp? then OperandLeadsNeg(e.e1) else LeadsNeg(e, 6)
  }

  /** No negation is the first thing printed of a right operand, of the operand of a
      unary operator, or of the step of a memory operand. */
  predicate Spaced(e: Expr)
    decreases e, 0
  {
    match e
    case Bin(op, e1, e2) => Spaced(e1) && Spaced(e2) && !LeadsNeg(e2, OpPrec(op) + 1)
    case Un(_, e1) => Spaced(e1) && !LeadsNeg(e1, 8)
    case Mem(_, a) => Spaced(a)
    case MemStep(_, _, a, b) => Spaced(a) && Spaced(b) && !LeadsNeg(b, -1)
    case SInsnExpr(s) => SpacedOperands(s.operands)
    case _ => true
  }

  /** The same for an operand, whose vectors are printed on the inner levels. */
  predicate SpacedOperand(e: Expr)
    decreases e, 1
  {
    if e.Bin? && e.op.VecOp? then SpacedOperand(e.e1) && Spaced(e.e2) && !LeadsNeg(e.e2, 6) else Spaced(e)
  }

  predicate SpacedOperands(ops: seq<Operand>)
    decreases ops
  {
    forall i :: 0 <= i < |ops| ==> SpacedExprs(ops[i].exprs)
  }

  predicate SpacedExprs(es: seq<Expr>)
    decreases es
  {
    forall j :: 0 <= j < |es| ==> SpacedOperand(es[j])
  }

  // ---------------------------------------------------------------------
  // First and last pieces
  // ---------------------------------------------------------------------

  predicate StartP(p: Piece) { p.P? && Starts(p.tok) }

  function Last(ps: seq<Piece>): Piece
    requires ps != []
  {
    ps[|ps| - 1]
  }

  lemma {:induction false} PrintEnds(e: Expr, l: int)
    requires -1 <= l <= 9
    ensures StartP(Print(e, l)[0]) && EndP(Last(Print(e, l)))
    ensures IsNeg(Print(e, l)[0]) <==> LeadsNeg(e, l)
    decreases e, if l <= Prec(e) then 0 else 1
  {
    hide Print, StartP, EndP;
    if l > Prec(e) {
      OpenStarts();
      PrintParens(e, l);
    } else if e.Bin? {
      PrintEnds(e.e1, OpPrec(e.op));
      PrintEnds(e.e2, OpPrec(e.op) + 1);
      PrintInfix(e, l);
    } else if e.Un? {
      PrintEnds(e.e, 8);
      UnStarts(e.uop);
      PrintPrefix(e, l);
    } else {
      AtomEnds(e);
      SamePrint(e, l, 9);
    }
  }

  lemma PrintParens(e: Expr, l: int)
    requires Prec(e) < l <= 9
    ensures Print(e, l) == [P(Open)] + Print(e, -1) + [P(Close)]
  {
    hide PrintSInsn;
  }

  lemma PrintInfix(e: Expr, l: int)
    requires e.Bin? && -1 <= l <= Prec(e)
    ensures Print(e, l) == Print(e.e1, OpPrec(e.op)) + [P(OpTok(e.op))] + Print(e.e2, OpPrec(e.op) + 1)
  {
    hide PrintSInsn;
  }

  lemma PrintPrefix(e: Expr, l: int)
    requires e.Un? && -1 <= l <= 8
    ensures Print(e, l) == [P(UnTok(e.uop))] + Print(e.e, 8)
  {
    hide PrintSInsn;
  }

  lemma OpenStarts()
    ensures StartP(P(Open)) && EndP(P(Close))
  {
  }

  lemma UnStarts(op: UnOp)
    ensures StartP(P(UnTok(op)))
  {
  }

  lemma AtomEnds(e: Expr)
    requires !e.Bin? && !e.Un?
    ensures StartP(Print(e, 9)[0]) && EndP(Last(Print(e, 9))) && !IsNeg(Print(e, 9)[0])
  {
    hide PrintSInsn;
  }

  lemma PrintMemory(e: Expr)
    ensures e.Mem? ==> Print(e, 9) == [P(Bracket(e.name))] + Print(e.addr, -1) + [P(Unbracket)]
    ensures e.MemStep? ==>
              Print(e, 9) ==
              [P(Bracket(e.name))] + (Print(e.addr, -1) + [P(StepTok(e.step))] + Print(e.amount, -1)) + [P(Unbracket)]
  {
    hide PrintSInsn;
    if e.MemStep? {
      var t, a, s, b, u := [P(Bracket(e.name))], Print(e.addr, -1), [P(StepTok(e.step))], Print(e.amount, -1),
        [P(Unbracket)];
      assert t + a + s + b + u == t + (a + s + b) + u;
    }
  }

  lemma {:induction false} OperandEnds(e: Expr)
    ensures PrintSExpr(e, -1) != []
    ensures StartP(PrintSExpr(e, -1)[0]) && EndP(Last(PrintSExpr(e, -1)))
    ensures IsNeg(PrintSExpr(e, -1)[0]) <==> OperandLeadsNeg(e)
    decreases e
  {
    hide PrintSExpr, Print, LeadsNeg;
    OperandScale(e);
    if e.Bin? && e.op.VecOp? {
      OperandEnds(e.e1);
      PrintEnds(e.e2, 6);
    } else {
      PrintEnds(e, 6);
    }
  }

  // ---------------------------------------------------------------------
  // Pieces fit together
  // ---------------------------------------------------------------------

  /** What may stand behind a complete operand. */
  predicate Follows(q: Piece) {
    q.Blank? || q.tok.OpTok? || q.tok.Close? || q.tok.Unbracket? || q.tok.StepTok?
  }

  lemma EndPair(p: Piece, q: Piece)
    requires EndP(p) && Follows(q)
    ensures OkPair(p, q)
  {
  }

  lemma WordPair(p: Piece, q: Piece)
    requires p.P? && p.tok.WordTok? && (q.Blank? || q.tok.Close?)
    ensures OkPair(p, q)
  {
  }

  /** What may stand in front of an operand. */
  predicate Leads(p: Piece) {
    p.Blank? || p.tok.OpTok? || p.tok.UnTok? || p.tok.StepTok? || p.tok.Open? || p.tok.Bracket?
  }

  lemma StartPair(p: Piece, q: Piece)
    requires Leads(p) && StartP(q) && OkPiece(q)
    ensures OkPair(p, q)
  {
    hide Hex, Words.Val;
    SpellSome(q);
    if q.tok.Bracket? && q.tok.name != "" {
      assert Spell(q)[0] == q.tok.name[0];
    }
  }

  /** A run of pieces that starts with a blank and ends with a word or an operand. */
  ghost predicate Tail(ps: seq<Piece>) {
    Fits(ps) && (ps != [] ==> ps[0].Blank? && Ended(Last(ps)))
  }

  predicate Ended(p: Piece) { EndP(p) || (p.P? && p.tok.WordTok?) }

  lemma EndedPair(p: Piece, q: Piece)
    requires Ended(p) && (q.Blank? || q.tok.Close?)
    ensures OkPair(p, q)
  {
    hide OkPair;
    if EndP(p) {
      EndPair(p, q);
    } else {
      WordPair(p, q);
    }
  }

  lemma TailJoin(a: seq<Piece>, b: seq<Piece>)
    requires Tail(a) && Tail(b)
    ensures Tail(a + b)
  {
    hide OkPiece, OkPair, Chain;
    ChainJoin(a, b, OkPiece, OkPair);
    if a != [] && b != [] {
      EndedPair(Last(a), b[0]);
    }
  }

  lemma PairFits(p: Piece, q: Piece)
    requires OkPiece(p) && OkPiece(q) && OkPair(p, q)
    ensures Fits([p, q])
  {
    hide OkPiece, OkPair;
  }

  lemma OneFits(p: Piece)
    requires OkPiece(p)
    ensures Fits([p])
  {
    hide OkPiece, OkPair;
  }

  lemma {:induction false} ModsTail(mods: seq<Modifier>)
    requires NamedMods(mods)
    ensures Tail(PrintMods(mods)) && NoPos(PrintMods(mods))
    decreases |mods|
  {
    hide OkPair, Fits, IsWord;
    if mods == [] {
      NothingFits();
    } else {
      var w := P(WordTok(mods[0].name));
      BlankWord(w);
      PairFits(Blank, w);
      ModsTail(mods[1..]);
      TailJoin([Blank, w], PrintMods(mods[1..]));
    }
  }

  lemma NothingFits()
    ensures Fits([])
  {
  }

  lemma BlankWord(w: Piece)
    requires w.P? && w.tok.WordTok?
    ensures OkPair(Blank, w)
  {
  }

  lemma {:induction false} PrintFits(e: Expr, l: int, here: bool)
    requires -1 <= l <= 9 && Named(e) && Whole(e, here)
    ensures Fits(Print(e, l)) && (here || NoPos(Print(e, l)))
    decreases e, if l <= Prec(e) then 2 else 3
  {
    hide OkPair, Fits, NoPos, OkPiece, PrintSInsn, StartP, EndP, IsName;
    SignsOk();
    if l > Prec(e) {
      PrintFits(e, -1, here);
      PrintEnds(e, -1);
      AroundFits(P(Open), Print(e, -1), P(Close));
    } else if e.Bin? {
      var p := OpPrec(e.op);
      PrintFits(e.e1, p, here);
      PrintFits(e.e2, p + 1, here);
      PrintEnds(e.e1, p);
      PrintEnds(e.e2, p + 1);
      BetweenFits(Print(e.e1, p), P(OpTok(e.op)), Print(e.e2, p + 1));
    } else if e.Un? {
      PrintFits(e.e, 8, here);
      PrintEnds(e.e, 8);
      BehindFits(P(UnTok(e.uop)), Print(e.e, 8));
    } else if e.Mem? || e.MemStep? {
      MemFits(e, here);
    } else if e.SInsnExpr? {
      SInsnFits(e.insn, here);
      NestedFits(PrintSInsn(e.insn));
    } else {
      LeafFits(e);
    }
  }

  lemma SignsOk()
    ensures OkPiece(P(Open)) && OkPiece(P(Close)) && OkPiece(P(Unbracket)) && OkPiece(Blank)
    ensures (forall op :: OkPiece(P(OpTok(op)))) && (forall op :: OkPiece(P(UnTok(op))))
    ensures forall step :: OkPiece(P(StepTok(step)))
  {
  }

  lemma BracketOk(name: string)
    requires name == "" || IsName(name)
    ensures OkPiece(P(Bracket(name)))
  {
  }

  lemma AroundFits(t: Piece, a: seq<Piece>, u: Piece)
    requires a != [] && Fits(a) && StartP(a[0]) && EndP(Last(a)) && OkPiece(t) && OkPiece(u) && Leads(t) && Follows(u)
    ensures Fits([t] + a + [u]) && (NoPos(a) ==> NoPos([t] + a + [u]))
  {
    hide OkPair, Chain, OkPiece, StartP, EndP;
    ChainAround(t, a, u, OkPiece, OkPair);
    FirstOk(a);
    StartPair(t, a[0]);
    EndPair(Last(a), u);
  }

  lemma BetweenFits(a: seq<Piece>, t: Piece, b: seq<Piece>)
    requires a != [] && b != [] && Fits(a) && Fits(b) && EndP(Last(a)) && StartP(b[0])
    requires OkPiece(t) && Leads(t) && Follows(t)
    ensures Fits(a + [t] + b) && (NoPos(a) && NoPos(b) ==> NoPos(a + [t] + b))
  {
    hide OkPair, Chain, OkPiece, StartP, EndP;
    ChainBetween(a, t, b, OkPiece, OkPair);
    FirstOk(b);
    EndPair(Last(a), t);
    StartPair(t, b[0]);
  }

  lemma BehindFits(t: Piece, a: seq<Piece>)
    requires a != [] && Fits(a) && StartP(a[0]) && OkPiece(t) && Leads(t)
    ensures Fits([t] + a) && (NoPos(a) ==> NoPos([t] + a))
  {
    hide OkPair, Chain, OkPiece, StartP;
    OneFits(t);
    ChainJoin([t], a, OkPiece, OkPair);
    FirstOk(a);
    StartPair(t, a[0]);
  }

  lemma FirstOk(a: seq<Piece>)
    requires a != [] && Fits(a)
    ensures OkPiece(a[0])
  {
    hide OkPiece, OkPair;
  }

  lemma NestedFits(a: seq<Piece>)
    requires a != [] && Fits(a) && a[0].P? && a[0].tok.WordTok? && Ended(Last(a))
    ensures Fits([P(Open)] + a + [P(Close)]) && (NoPos(a) ==> NoPos([P(Open)] + a + [P(Close)]))
  {
    hide OkPair, Chain, Ended;
    ChainAround(P(Open), a, P(Close), OkPiece, OkPair);
    OpenWord(a[0]);
    EndedPair(Last(a), P(Close));
  }

  lemma OpenWord(w: Piece)
    requires w.P? && w.tok.WordTok?
    ensures OkPair(P(Open), w)
  {
  }

  lemma LeafFits(e: Expr)
    requires !e.Bin? && !e.Un? && !e.Mem? && !e.MemStep? && !e.SInsnExpr? && Named(e)
    ensures Fits(Print(e, 9))
    ensures !e.Pos? ==> NoPos(Print(e, 9))
  {
    hide Spell, IsName, Fits;
    if e.ZVec? {
      OpenClose();
    } else {
      OneFits(Print(e, 9)[0]);
    }
  }

  lemma OpenClose()
    ensures Fits([P(Open), P(Close)])
  {
    PairFits(P(Open), P(Close));
  }

  lemma MemParts(e: Expr, here: bool)
    requires (e.Mem? || e.MemStep?) && Named(e) && Whole(e, here)
    ensures (e.name == "" || IsName(e.name)) && Named(e.addr) && Whole(e.addr, here)
    ensures e.MemStep? ==> Named(e.amount) && Whole(e.amount, here)
  {
  }

  lemma {:induction false} MemFits(e: Expr, here: bool)
    requires (e.Mem? || e.MemStep?) && Named(e) && Whole(e, here)
    ensures Fits(Print(e, 9)) && (here || NoPos(Print(e, 9)))
    decreases e, 1
  {
    hide OkPair, Fits, NoPos, OkPiece, StartP, EndP, IsName, Named, Whole;
    hide Print;
    SignsOk();
    PrintMemory(e);
    MemParts(e, here);
    BracketOk(e.name);
    var a := Print(e.addr, -1);
    PrintFits(e.addr, -1, here);
    PrintEnds(e.addr, -1);
    var t := P(Bracket(e.name));
    if e.Mem? {
      AroundFits(t, a, P(Unbracket));
    } else {
      var b, s := Print(e.amount, -1), P(StepTok(e.step));
      PrintFits(e.amount, -1, here);
      PrintEnds(e.amount, -1);
      BetweenFits(a, s, b);
      AroundFits(t, a + [s] + b, P(Unbracket));
    }
  }

  // ---------------------------------------------------------------------
  // Operands and instructions
  // ---------------------------------------------------------------------

  lemma {:induction false} OperandFits(e: Expr, here: bool)
    requires Named(e) && Whole(e, here)
    ensures Fits(PrintSExpr(e, -1)) && (here || NoPos(PrintSExpr(e, -1)))
    decreases e, 4
  {
    hide OkPair, Chain, OkPiece, PrintSExpr, Print, StartP, EndP;
    OperandScale(e);
    if e.Bin? && e.op.VecOp? {
      OperandFits(e.e1, here);
      PrintFits(e.e2, 6, here);
      OperandEnds(e.e1);
      PrintEnds(e.e2, 6);
      VecOk();
      BetweenFits(PrintSExpr(e.e1, -1), P(OpTok(VecOp)), Print(e.e2, 6));
    } else {
      PrintFits(e, 6, here);
    }
  }

  lemma VecOk()
    ensures OkPiece(P(OpTok(VecOp))) && OkPiece(Blank)
  {
  }

  /** One more expression of an operand. */
  lemma {:induction false} OneExprTail(e: Expr, more: bool, here: bool)
    requires Named(e) && Whole(e, here)
    ensures var ps := (if more then [Blank, P(OpTok(OrOp))] else []) + [Blank] + PrintSExpr(e, -1);
            Tail(ps) && (here || NoPos(ps))
    decreases e, 5
  {
    hide OkPair, Chain, OkPiece, PrintSExpr, StartP, EndP;
    var one := PrintSExpr(e, -1);
    OperandFits(e, here);
    OperandEnds(e);
    VecOk();
    BehindFits(Blank, one);
    if more {
      var bar: seq<Piece> := [Blank, P(OpTok(OrOp))];
      BarFits();
      ChainJoin(bar, [Blank] + one, OkPiece, OkPair);
      assert bar + ([Blank] + one) == bar + [Blank] + one;
    } else {
      assert [] + [Blank] + one == [Blank] + one;
    }
  }

  lemma BarFits()
    ensures Fits([Blank, P(OpTok(OrOp))]) && OkPair(P(OpTok(OrOp)), Blank)
  {
    PairFits(Blank, P(OpTok(OrOp)));
  }

  lemma {:induction false} ExprsTail(es: seq<Expr>, more: bool, here: bool)
    requires forall j :: 0 <= j < |es| ==> Named(es[j]) && Whole(es[j], here)
    ensures Tail(PrintExprs(es, more)) && (here || NoPos(PrintExprs(es, more)))
    decreases es, 0
  {
    hide Tail, PrintSExpr, Named, Whole;
    if es == [] {
      EmptyTail();
    } else {
      OneExprTail(es[0], more, here);
      ExprsTail(es[1..], true, here);
      TailJoin((if more then [Blank, P(OpTok(OrOp))] else []) + [Blank] + PrintSExpr(es[0], -1),
               PrintExprs(es[1..], true));
    }
  }

  lemma EmptyTail()
    ensures Tail([])
  {
  }

  lemma {:induction false} OperandsTail(ops: seq<Operand>, here: bool)
    requires forall i :: 0 <= i < |ops| ==> NamedOperand(ops[i]) && WholeOperand(ops[i], here)
    ensures Tail(PrintOperands(ops)) && (here || NoPos(PrintOperands(ops)))
    decreases ops, 0
  {
    hide Tail, PrintExprs, PrintMods;
    if ops == [] {
      EmptyTail();
    } else {
      var op := ops[0];
      assert NamedOperand(op) && WholeOperand(op, here);
      ModsTail(op.mods);
      ExprsTail(op.exprs, false, here);
      TailJoin(PrintMods(op.mods), PrintExprs(op.exprs, false));
      OperandsTail(ops[1..], here);
      TailJoin(PrintMods(op.mods) + PrintExprs(op.exprs, false), PrintOperands(ops[1..]));
    }
  }

  lemma {:induction false} SInsnFits(s: SInsn, here: bool)
    requires NamedSInsn(s) && WholeSInsn(s, here)
    ensures var ps := PrintSInsn(s);
            && Fits(ps) && ps != [] && ps[0] == P(WordTok(s.name)) && Ended(Last(ps)) && (here || NoPos(ps))
    decreases s, 1
  {
    hide OkPair, Chain, PrintOperands, PrintMods;
    var w := P(WordTok(s.name));
    var tail := PrintOperands(s.operands) + PrintMods(s.mods);
    OperandsTail(s.operands, here);
    ModsTail(s.mods);
    TailJoin(PrintOperands(s.operands), PrintMods(s.mods));
    OneFits(w);
    ChainJoin([w], tail, OkPiece, OkPair);
    if tail != [] {
      WordPair(w, tail[0]);
    }
    assert PrintSInsn(s) == [w] + tail;
  }

  // ---------------------------------------------------------------------
  // Negations that stand free
  // ---------------------------------------------------------------------

  ghost predicate Loose(ps: seq<Piece>) { Chain(ps, Any, FreePair) }

  lemma {:induction false} SpacedPrint(e: Expr, l: int)
    requires -1 <= l <= 9
    ensures Loose(Print(e, l)) <==> Spaced(e)
    decreases e, if l <= Prec(e) then 2 else 3
  {
    hide Loose, PrintSInsn, LeadsNeg;
    if l > Prec(e) {
      SpacedPrint(e, -1);
      AroundLoose(P(Open), Print(e, -1), P(Close));
    } else if e.Bin? {
      var p := OpPrec(e.op);
      SpacedPrint(e.e1, p);
      SpacedPrint(e.e2, p + 1);
      PrintEnds(e.e2, p + 1);
      BetweenLoose(Print(e.e1, p), P(OpTok(e.op)), Print(e.e2, p + 1));
    } else if e.Un? {
      SpacedPrint(e.e, 8);
      PrintEnds(e.e, 8);
      BehindLoose(P(UnTok(e.uop)), Print(e.e, 8));
    } else if e.Mem? || e.MemStep? {
      SpacedMem(e);
    } else if e.SInsnExpr? {
      SInsnLoose(e.insn);
      AroundLoose(P(Open), PrintSInsn(e.insn), P(Close));
    } else {
      LeafLoose(e);
    }
  }

  lemma AroundLoose(t: Piece, a: seq<Piece>, u: Piece)
    requires a != [] && Opens(t) && !IsNeg(u)
    ensures Loose([t] + a + [u]) <==> Loose(a)
  {
    hide Chain;
    ChainAround(t, a, u, Any, FreePair);
  }

  lemma BetweenLoose(a: seq<Piece>, t: Piece, b: seq<Piece>)
    requires a != [] && b != [] && !IsNeg(t) && !Opens(t)
    ensures Loose(a + [t] + b) <==> Loose(a) && Loose(b) && !IsNeg(b[0])
  {
    hide Chain;
    ChainBetween(a, t, b, Any, FreePair);
  }

  lemma BehindLoose(t: Piece, a: seq<Piece>)
    requires a != [] && !Opens(t)
    ensures Loose([t] + a) <==> Loose(a) && !IsNeg(a[0])
  {
    hide Chain;
    OneLoose(t);
    ChainJoin([t], a, Any, FreePair);
  }

  lemma OneLoose(p: Piece)
    ensures Loose([p]) && Loose([])
  {
  }

  lemma LeafLoose(e: Expr)
    requires !e.Bin? && !e.Un? && !e.Mem? && !e.MemStep? && !e.SInsnExpr?
    ensures Loose(Print(e, 9))
  {
  }

  lemma {:induction false} SpacedMem(e: Expr)
    requires e.Mem? || e.MemStep?
    ensures Loose(Print(e, 9)) <==> Spaced(e)
    decreases e, 1
  {
    hide Loose, Print, LeadsNeg;
    PrintMemory(e);
    var t, a := P(Bracket(e.name)), Print(e.addr, -1);
    SpacedPrint(e.addr, -1);
    if e.Mem? {
      AroundLoose(t, a, P(Unbracket));
    } else {
      var b, s := Print(e.amount, -1), P(StepTok(e.step));
      SpacedPrint(e.amount, -1);
      PrintEnds(e.amount, -1);
      BetweenLoose(a, s, b);
      AroundLoose(t, a + [s] + b, P(Unbracket));
    }
  }

  lemma {:induction false} OperandLoose(e: Expr)
    ensures Loose(PrintSExpr(e, -1)) <==> SpacedOperand(e)
    decreases e, 4
  {
    hide Loose, PrintSExpr, Print, LeadsNeg;
    OperandScale(e);
    if e.Bin? && e.op.VecOp? {
      OperandLoose(e.e1);
      OperandEnds(e.e1);
      SpacedPrint(e.e2, 6);
      PrintEnds(e.e2, 6);
      BetweenLoose(PrintSExpr(e.e1, -1), P(OpTok(VecOp)), Print(e.e2, 6));
    } else {
      SpacedPrint(e, 6);
    }
  }

  /** Joined to something that starts with a blank. */
  lemma LooseJoin(a: seq<Piece>, b: seq<Piece>)
    requires b != [] ==> b[0].Blank?
    ensures Loose(a + b) <==> Loose(a) && Loose(b)
  {
    hide Chain;
    ChainJoin(a, b, Any, FreePair);
  }

  lemma {:induction false} ModsLoose(mods: seq<Modifier>)
    ensures Loose(PrintMods(mods)) && (mods != [] ==> PrintMods(mods)[0].Blank?)
    decreases |mods|
  {
    hide Chain;
    if mods == [] {
      OneLoose(Blank);
    } else {
      ModsLoose(mods[1..]);
      PairLoose(P(WordTok(mods[0].name)));
      LooseJoin([Blank, P(WordTok(mods[0].name))], PrintMods(mods[1..]));
    }
  }

  lemma PairLoose(q: Piece)
    requires !IsNeg(q)
    ensures Loose([Blank, q])
  {
  }

  lemma {:induction false} ExprsLoose(es: seq<Expr>, more: bool)
    ensures Loose(PrintExprs(es, more)) <==> SpacedExprs(es)
    ensures es != [] ==> PrintExprs(es, more) != [] && PrintExprs(es, more)[0].Blank?
    decreases es, 0
  {
    hide Loose, PrintSExpr, SpacedOperand;
    if es == [] {
      OneLoose(Blank);
    } else {
      var bar: seq<Piece> := if more then [Blank, P(OpTok(OrOp))] else [];
      var one, tail := [Blank] + PrintSExpr(es[0], -1), PrintExprs(es[1..], true);
      OperandLoose(es[0]);
      BlankLoose(PrintSExpr(es[0], -1));
      PairLoose(P(OpTok(OrOp)));
      OneLoose(Blank);
      LooseJoin(bar, one);
      ExprsLoose(es[1..], true);
      LooseJoin(bar + one, tail);
      assert bar + [Blank] + PrintSExpr(es[0], -1) == bar + one;
      assert SpacedExprs(es) <==> SpacedOperand(es[0]) && SpacedExprs(es[1..]);
    }
  }

  lemma BlankLoose(a: seq<Piece>)
    ensures Loose([Blank] + a) <==> Loose(a)
  {
    hide Chain;
    OneLoose(Blank);
    ChainJoin([Blank], a, Any, FreePair);
  }

  lemma {:induction false} OperandsLoose(ops: seq<Operand>)
    ensures Loose(PrintOperands(ops)) <==> SpacedOperands(ops)
    ensures PrintOperands(ops) != [] ==> PrintOperands(ops)[0].Blank?
    decreases ops, 0
  {
    hide Loose, PrintExprs, PrintMods, SpacedExprs;
    if ops == [] {
      OneLoose(Blank);
    } else {
      var op := ops[0];
      ModsLoose(op.mods);
      ExprsLoose(op.exprs, false);
      NoExprs(op);
      LooseJoin(PrintMods(op.mods), PrintExprs(op.exprs, false));
      OperandsLoose(ops[1..]);
      LooseJoin(PrintMods(op.mods) + PrintExprs(op.exprs, false), PrintOperands(ops[1..]));
      assert SpacedOperands(ops) <==> SpacedExprs(op.exprs) && SpacedOperands(ops[1..]);
    }
  }

  lemma NoExprs(op: Operand)
    ensures op.exprs == [] ==> PrintExprs(op.exprs, false) == []
    ensures op.mods == [] ==> PrintMods(op.mods) == []
  {
  }

  lemma {:induction false} SInsnLoose(s: SInsn)
    ensures Loose(PrintSInsn(s)) <==> SpacedOperands(s.operands)
    ensures PrintSInsn(s) != [] && PrintSInsn(s)[0] == P(WordTok(s.name))
    decreases s, 1
  {
    hide Loose, PrintOperands, PrintMods, SpacedOperands;
    var w := P(WordTok(s.name));
    OneLoose(w);
    OperandsLoose(s.operands);
    ModsLoose(s.mods);
    NoExprs(Operand(s.mods, []));
    LooseJoin([w], PrintOperands(s.operands));
    LooseJoin([w] + PrintOperands(s.operands), PrintMods(s.mods));
  }

  // ---------------------------------------------------------------------
  // Counting negations
  // ---------------------------------------------------------------------

  function Negs(e: Expr): nat
    decreases e
  {
    match e
    case Bin(_, e1, e2) => Negs(e1) + Negs(e2)
    case Un(op, e1) => Count(op == NegOp) + Negs(e1)
    case Mem(_, a) => Negs(a)
    case MemStep(_, _, a, b) => Negs(a) + Negs(b)
    case SInsnExpr(s) => OperandNegs(s.operands)
    case _ => 0
  }

  function OperandNegs(ops: seq<Operand>): nat
    decreases ops
  {
    if ops == [] then 0 else ExprNegs(ops[0].exprs) + OperandNegs(ops[1..])
  }

  function ExprNegs(es: seq<Expr>): nat
    decreases es
  {
    if es == [] then 0 else Negs(es[0]) + ExprNegs(es[1..])
  }

  lemma {:induction false} NegJoin(a: seq<Piece>, b: seq<Piece>)
    ensures NegPieces(a + b) == NegPieces(a) + NegPieces(b)
  {
    if a == [] {
      assert a + b == b;
    } else {
      assert (a + b)[1..] == a[1..] + b;
      NegJoin(a[1..], b);
    }
  }

  lemma NegOne(t: Piece)
    ensures NegPieces([t]) == Count(IsNeg(t)) && NegPieces([]) == 0
  {
    assert [t][1..] == [];
  }

  lemma NegAround(t: Piece, a: seq<Piece>, u: Piece)
    ensures NegPieces([t] + a + [u]) == Count(IsNeg(t)) + NegPieces(a) + Count(IsNeg(u))
  {
    NegOne(t);
    NegOne(u);
    NegJoin([t], a);
    NegJoin([t] + a, [u]);
  }

  lemma NegBetween(a: seq<Piece>, t: Piece, b: seq<Piece>)
    ensures NegPieces(a + [t] + b) == NegPieces(a) + Count(IsNeg(t)) + NegPieces(b)
  {
    NegOne(t);
    NegJoin(a, [t]);
    NegJoin(a + [t], b);
  }

  /** What is counted in the expression is what is printed. */
  lemma {:induction false} NegsPrint(e: Expr, l: int)
    requires -1 <= l <= 9
    ensures NegPieces(Print(e, l)) == Negs(e)
    decreases e, if l <= Prec(e) then 2 else 3
  {
    hide NegPieces, PrintSInsn;
    if l > Prec(e) {
      NegsPrint(e, -1);
      NegAround(P(Open), Print(e, -1), P(Close));
    } else if e.Bin? {
      NegsPrint(e.e1, OpPrec(e.op));
      NegsPrint(e.e2, OpPrec(e.op) + 1);
      NegBetween(Print(e.e1, OpPrec(e.op)), P(OpTok(e.op)), Print(e.e2, OpPrec(e.op) + 1));
    } else if e.Un? {
      NegsPrint(e.e, 8);
      NegOne(P(UnTok(e.uop)));
      NegJoin([P(UnTok(e.uop))], Print(e.e, 8));
    } else if e.Mem? || e.MemStep? {
      NegsMem(e);
    } else if e.SInsnExpr? {
      NegsSInsn(e.insn);
      NegAround(P(Open), PrintSInsn(e.insn), P(Close));
    } else {
      NegsLeaf(e);
    }
  }

  lemma NegsLeaf(e: Expr)
    requires !e.Bin? && !e.Un? && !e.Mem? && !e.MemStep? && !e.SInsnExpr?
    ensures NegPieces(Print(e, 9)) == 0
  {
    NegOne(Print(e, 9)[0]);
    if e.ZVec? {
      NegJoin([P(Open)], [P(Close)]);
      NegOne(P(Close));
    }
  }

  lemma {:induction false} NegsMem(e: Expr)
    requires e.Mem? || e.MemStep?
    ensures NegPieces(Print(e, 9)) == Negs(e)
    decreases e, 1
  {
    hide NegPieces, Print;
    PrintMemory(e);
    var t, a := P(Bracket(e.name)), Print(e.addr, -1);
    NegsPrint(e.addr, -1);
    if e.Mem? {
      NegAround(t, a, P(Unbracket));
    } else {
      var b, s := Print(e.amount, -1), P(StepTok(e.step));
      NegsPrint(e.amount, -1);
      NegBetween(a, s, b);
      NegAround(t, a + [s] + b, P(Unbracket));
    }
  }

  lemma {:induction false} NegsOperand(e: Expr)
    ensures NegPieces(PrintSExpr(e, -1)) == Negs(e)
    decreases e, 4
  {
    hide NegPieces, Print, PrintSExpr;
    OperandScale(e);
    if e.Bin? && e.op.VecOp? {
      NegsOperand(e.e1);
      NegsPrint(e.e2, 6);
      NegBetween(PrintSExpr(e.e1, -1), P(OpTok(VecOp)), Print(e.e2, 6));
    } else {
      NegsPrint(e, 6);
    }
  }

  lemma {:induction false} NegsMods(mods: seq<Modifier>)
    ensures NegPieces(PrintMods(mods)) == 0
    decreases |mods|
  {
    if mods != [] {
      hide NegPieces;
      var w := P(WordTok(mods[0].name));
      NegsMods(mods[1..]);
      NegOne(Blank);
      NegOne(w);
      NegJoin([Blank], [w]);
      NegJoin([Blank, w], PrintMods(mods[1..]));
      assert [Blank] + [w] == [Blank, w];
    }
  }

  lemma {:induction false} NegsExprs(es: seq<Expr>, more: bool)
    ensures NegPieces(PrintExprs(es, more)) == ExprNegs(es)
    decreases es, 0
  {
    if es != [] {
      hide NegPieces, PrintSExpr;
      var bar: seq<Piece> := if more then [Blank, P(OpTok(OrOp))] else [];
      NegOne(Blank);
      NegOne(P(OpTok(OrOp)));
      NegJoin([Blank], [P(OpTok(OrOp))]);
      assert [Blank] + [P(OpTok(OrOp))] == [Blank, P(OpTok(OrOp))];
      NegsOperand(es[0]);
      NegsExprs(es[1..], true);
      NegJoin(bar, [Blank]);
      NegJoin(bar + [Blank], PrintSExpr(es[0], -1));
      NegJoin(bar + [Blank] + PrintSExpr(es[0], -1), PrintExprs(es[1..], true));
    }
  }

  lemma {:induction false} NegsOperands(ops: seq<Operand>)
    ensures NegPieces(PrintOperands(ops)) == OperandNegs(ops)
    decreases ops, 0
  {
    if ops != [] {
      hide NegPieces, PrintMods, PrintExprs;
      NegsMods(ops[0].mods);
      NegsExprs(ops[0].exprs, false);
      NegsOperands(ops[1..]);
      NegJoin(PrintMods(ops[0].mods), PrintExprs(ops[0].exprs, false));
      NegJoin(PrintMods(ops[0].mods) + PrintExprs(ops[0].exprs, false), PrintOperands(ops[1..]));
    }
  }

  lemma {:induction false} NegsSInsn(s: SInsn)
    ensures NegPieces(PrintSInsn(s)) == OperandNegs(s.operands)
    decreases s, 1
  {
    hide NegPieces, PrintMods, PrintOperands;
    var w := P(WordTok(s.name));
    NegOne(w);
    NegsOperands(s.operands);
    NegsMods(s.mods);
    NegJoin([w], PrintOperands(s.operands));
    NegJoin([w] + PrintOperands(s.operands), PrintMods(s.mods));
  }
}
