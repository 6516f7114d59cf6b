/** Which expressions have the same text.  Only one thing is lost: whether `--` in a
    memory operand is a step or a subtraction of a negation. */
module SameText {
  import opened Options
  import opened Exprs
  import opened Lexer
  import opened Printer
  import opened Grammar
  import opened Spacing
  import opened PrintedText

  // ---------------------------------------------------------------------
  // Pieces from a text
  // ---------------------------------------------------------------------

  /** The pieces of a text with every single `-` for itself. */
  function Raw(s: string): seq<Piece>
    decreases |s|
  {
    if s == "" then []
    else if s[0] == '-' && Second(s) != '=' then [P(OpTok(SubOp))] + Raw(s[1..])
    else if s[0] == '$' && !IsStart(Second(s)) then [P(PosTok)] + Raw(s[1..])
    else
      var l := Next(s, true);
      [if l.tok.Some? then P(l.tok.value) else Blank] + Raw(s[l.len..])
  }

  /** Pieces with the sign of a `-` forgotten. */
  function Blur(p: Piece): seq<Piece> {
    if IsDash(p) then [P(OpTok(SubOp))]
    else if p == P(StepTok(MinusMinus)) then [P(OpTok(SubOp)), P(OpTok(SubOp))]
    else [p]
  }

  function Merge(ps: seq<Piece>): seq<Piece> {
    if ps == [] then [] else Blur(ps[0]) + Merge(ps[1..])
  }

  lemma {:induction false} MergeJoin(a: seq<Piece>, b: seq<Piece>)
    ensures Merge(a + b) == Merge(a) + Merge(b)
  {
    if a == [] {
      assert a + b == b;
    } else {
      assert (a + b)[1..] == a[1..] + b;
      MergeJoin(a[1..], b);
    }
  }

  lemma MergeOne(p: Piece)
    ensures Merge([p]) == Blur(p) && Merge([]) == []
  {
    assert [p][1..] == [];
  }

  /** Nothing is spelled with an `=` in front. */
  lemma NoEquals(ps: seq<Piece>)
    requires Fits(ps)
    ensures Text(ps) != "" ==> Text(ps)[0] != '='
  {
    hide Hex, Words.Val;
    if ps != [] {
      FitsTail(ps);
      SpellSome(ps[0]);
      assert Text(ps)[0] == Spell(ps[0])[0];
      if ps[0].P? && (ps[0].tok.WordTok? || (ps[0].tok.Bracket? && ps[0].tok.name != "")) {
        assert Spell(ps[0])[0] == ps[0].tok.name[0];
      }
    }
  }

  lemma RawDash(rest: string)
    requires rest == "" || rest[0] != '='
    ensures Raw("-" + rest) == [P(OpTok(SubOp))] + Raw(rest)
  {
    hide Next;
    assert ("-" + rest)[1..] == rest;
  }

  lemma RawPos(rest: string)
    requires rest == "" || !IsStart(rest[0])
    ensures Raw("$" + rest) == [P(PosTok)] + Raw(rest)
  {
    hide Next;
    assert ("$" + rest)[1..] == rest;
  }

  lemma RawOther(p: Piece, rest: string)
    requires OkPiece(p) && Apart(p, rest) && !IsDash(p) && p != P(PosTok) && p != P(StepTok(MinusMinus))
    ensures Raw(Spell(p) + rest) == [p] + Raw(rest)
  {
    hide Next, Hex, Words.Val, NameLen;
    PieceNext(p, rest, true);
    var s := Spell(p) + rest;
    assert s[|Spell(p)|..] == rest;
    if p.P? && p.tok.RegTok? {
      assert s[1] == p.tok.name[0];
    } else if p.P? && (p.tok.WordTok? || (p.tok.Bracket? && p.tok.name != "")) {
      assert s[0] == p.tok.name[0];
    }
  }

  /** The text of fitting pieces tells them, up to the signs. */
  lemma {:induction false} RawText(ps: seq<Piece>)
    requires Fits(ps)
    ensures Raw(Text(ps)) == Merge(ps)
    decreases |ps|
  {
    hide Fits, Raw, OkPiece, Spell, Apart, OkPair;
    if ps != [] {
      FitsTail(ps);
      var rest := Text(ps[1..]);
      RawText(ps[1..]);
      NoEquals(ps[1..]);
      if IsDash(ps[0]) {
        SpellDash(ps[0]);
        RawDash(rest);
      } else if ps[0] == P(StepTok(MinusMinus)) {
        SpellDash(ps[0]);
        RawDash(rest);
        RawDash("-" + rest);
        assert "--" + rest == "-" + ("-" + rest);
      } else {
        ApartNext(ps);
        if ps[0] == P(PosTok) {
          SpellDash(ps[0]);
          PosApart(rest);
          RawPos(rest);
        } else {
          RawOther(ps[0], rest);
        }
      }
    } else {
      RawNothing();
    }
  }

  lemma RawNothing()
    ensures Raw("") == []
  {
  }

  lemma PosApart(rest: string)
    requires Apart(P(PosTok), rest)
    ensures rest == "" || !IsStart(rest[0])
  {
  }

  lemma SpellDash(p: Piece)
    ensures IsDash(p) ==> Spell(p) == "-"
    ensures p == P(StepTok(MinusMinus)) ==> Spell(p) == "--"
    ensures p == P(PosTok) ==> Spell(p) == "$"
  {
  }

  /** And pieces alike up to the signs have the same text. */
  lemma {:induction false} MergeText(ps: seq<Piece>)
    ensures Text(Merge(ps)) == Text(ps)
  {
    hide Spell;
    if ps != [] {
      MergeText(ps[1..]);
      TextJoin(Blur(ps[0]), Merge(ps[1..]));
      BlurText(ps[0]);
    }
  }

  lemma {:induction false} TextJoin(a: seq<Piece>, b: seq<Piece>)
    ensures Text(a + b) == Text(a) + Text(b)
  {
    hide Spell;
    if a == [] {
      assert a + b == b;
    } else {
      assert (a + b)[1..] == a[1..] + b;
      TextJoin(a[1..], b);
    }
  }

  lemma BlurText(p: Piece)
    ensures Text(Blur(p)) == Spell(p)
  {
    var d := P(OpTok(SubOp));
    assert [p][1..] == [] && [d][1..] == [] && [d, d][1..] == [d];
    assert Text([]) == "" && Text([d]) == "-" && Text([d, d]) == "-" + Text([d]);
  }

  predicate NoSteps(ps: seq<Piece>) { forall i :: 0 <= i < |ps| ==> ps[i] != P(StepTok(MinusMinus)) }

  /** Behind an operand a `-` is a subtraction, elsewhere a negation; so without steps
      nothing is lost. */
  lemma {:induction false} MergeInjective(ps: seq<Piece>, qs: seq<Piece>)
    requires Fits(ps) && Fits(qs) && NoSteps(ps) && NoSteps(qs) && Merge(ps) == Merge(qs)
    requires ps != [] && qs != [] ==> (IsDash(ps[0]) && IsDash(qs[0]) ==> ps[0] == qs[0])
    ensures ps == qs
    decreases |ps|
  {
    hide Fits, OkPiece, Spell, Apart;
    if ps != [] && qs != [] {
      FitsTail(ps);
      FitsTail(qs);
      assert Merge(ps)[0] == Merge(qs)[0] && Merge(ps)[1..] == Merge(qs)[1..];
      assert Merge(ps)[1..] == Merge(ps[1..]) && Merge(qs)[1..] == Merge(qs[1..]);
      assert ps[0] == qs[0];
      MergeInjective(ps[1..], qs[1..]);
      assert ps == [ps[0]] + ps[1..] && qs == [qs[0]] + qs[1..];
    }
  }

  // ---------------------------------------------------------------------
  // Reading every `--` as a subtraction
  // ---------------------------------------------------------------------

  /** `b` with a negation in front of everything that is printed of it at a level. */
  function NegFirst(b: Expr, l: int): Expr
    requires -1 <= l <= 8
  {
    if b.Bin? && l <= Prec(b) then Bin(b.op, NegFirst(b.e1, OpPrec(b.op)), b.e2) else Un(NegOp, b)
  }

  lemma {:induction false} NegFirstPrint(b: Expr, l: int)
    requires -1 <= l <= 8
    ensures Print(NegFirst(b, l), l) == [P(UnTok(NegOp))] + Print(b, l) && Prec(NegFirst(b, l)) >= l
  {
    hide Print;
    if b.Bin? && l <= Prec(b) {
      NegFirstPrint(b.e1, OpPrec(b.op));
      PrintInfix(b, l);
      PrintInfix(NegFirst(b, l), l);
    } else {
      PrintPrefix(Un(NegOp, b), l);
      SamePrint(b, l, 8);
    }
  }

  /** How tightly `e` holds together where it is printed at a level. */
  function Hold(e: Expr, l: int): int { if l <= Prec(e) then Prec(e) else 9 }

  /** `a`, printed at level `l`, minus `g`, printed at level `m`, as one expression. */
  function Glue(a: Expr, l: int, g: Expr, m: int): Expr
    decreases a, g
  {
    if g.Bin? && m <= Prec(g) && Prec(g) <= 6 && Prec(g) <= Hold(a, l) then
      Bin(g.op, Glue(a, OpPrec(g.op), g.e1, OpPrec(g.op)), g.e2)
    else if a.Bin? && l <= Prec(a) && Prec(a) < 6 then
      Bin(a.op, a.e1, Glue(a.e2, OpPrec(a.op) + 1, g, m))
    else Bin(SubOp, a, g)
  }

  lemma {:induction false} GluePrint(a: Expr, l: int, g: Expr, m: int)
    requires -1 <= l <= 6 && -1 <= m <= 6 && (m <= Prec(g) ==> l <= Prec(g))
    ensures Print(Glue(a, l, g, m), l) == Print(a, l) + [P(OpTok(SubOp))] + Print(g, m)
    ensures l <= Prec(Glue(a, l, g, m))
    decreases a, g
  {
    hide Print, Glue;
    GlueForm(a, l, g, m);
    var d := [P(OpTok(SubOp))];
    var r := Glue(a, l, g, m);
    if g.Bin? && m <= Prec(g) && Prec(g) <= 6 && Prec(g) <= Hold(a, l) {
      var q := OpPrec(g.op);
      GluePrint(a, q, g.e1, q);
      SamePrint(a, l, q);
      PrintInfix(g, m);
      PrintInfix(r, l);
      Regroup(Print(a, l) + d, Print(g.e1, q), [P(OpTok(g.op))], Print(g.e2, q + 1));
    } else if a.Bin? && l <= Prec(a) && Prec(a) < 6 {
      var p := OpPrec(a.op);
      GluePrint(a.e2, p + 1, g, m);
      PrintInfix(a, l);
      PrintInfix(r, l);
      Regroup(Print(a.e1, p) + [P(OpTok(a.op))], Print(a.e2, p + 1), d, Print(g, m));
    } else {
      PrintInfix(r, l);
      SamePrint(a, l, 6);
      SamePrint(g, m, 7);
    }
  }

  lemma Regroup<T>(a: seq<T>, b: seq<T>, c: seq<T>, d: seq<T>)
    ensures a + (b + c + d) == a + b + c + d
  {
  }

  lemma GlueForm(a: Expr, l: int, g: Expr, m: int)
    ensures Glue(a, l, g, m) ==
            if g.Bin? && m <= Prec(g) && Prec(g) <= 6 && Prec(g) <= Hold(a, l) then
              Bin(g.op, Glue(a, OpPrec(g.op), g.e1, OpPrec(g.op)), g.e2)
            else if a.Bin? && l <= Prec(a) && Prec(a) < 6 then Bin(a.op, a.e1, Glue(a.e2, OpPrec(a.op) + 1, g, m))
            else Bin(SubOp, a, g)
  {
  }

  /** The other reading of a memory operand with a `--` step. */
  function Relax(e: Expr): Expr
    decreases e
  {
    match e
    case Bin(op, e1, e2) => Bin(op, Relax(e1), Relax(e2))
    case Un(op, e1) => Un(op, Relax(e1))
    case Mem(name, a) => Mem(name, Relax(a))
    case MemStep(step, name, a, b) =>
      if step.MinusMinus? then Mem(name, Glue(Relax(a), -1, NegFirst(Relax(b), -1), -1))
      else MemStep(step, name, Relax(a), Relax(b))
    case SInsnExpr(s) => SInsnExpr(SInsn(s.name, s.isunk, RelaxOperands(s.operands), s.mods))
    case _ => e
  }

  function RelaxOperands(ops: seq<Operand>): seq<Operand>
    decreases ops
  {
    if ops == [] then [] else [Operand(ops[0].mods, RelaxExprs(ops[0].exprs))] + RelaxOperands(ops[1..])
  }

  function RelaxExprs(es: seq<Expr>): (r: seq<Expr>)
    ensures |r| == |es|
    decreases es
  {
    if es == [] then [] else [Relax(es[0])] + RelaxExprs(es[1..])
  }

  lemma SameLevel(e: Expr)
    ensures Prec(Relax(e)) == Prec(e) && (Relax(e).Bin? <==> e.Bin?) && (Relax(e).Un? <==> e.Un?)
    ensures e.Bin? ==> Relax(e).op == e.op
  {
    hide Glue, NegFirst;
  }

  // ---------------------------------------------------------------------
  // The other reading is printed alike, and is as good an expression
  // ---------------------------------------------------------------------

  /** The same up to signs, and without steps. */
  ghost predicate Alike(ps: seq<Piece>, qs: seq<Piece>) { Merge(ps) == Merge(qs) && NoSteps(ps) }

  lemma AlikeJoin(a: seq<Piece>, b: seq<Piece>, c: seq<Piece>, d: seq<Piece>)
    requires Alike(a, c) && Alike(b, d)
    ensures Alike(a + b, c + d)
  {
    hide Merge;
    MergeJoin(a, b);
    MergeJoin(c, d);
  }

  lemma AlikeOne(t: Piece)
    requires t != P(StepTok(MinusMinus))
    ensures Alike([t], [t]) && Alike([], [])
  {
    hide Merge;
  }

  lemma AlikeAround(t: Piece, a: seq<Piece>, c: seq<Piece>, u: Piece)
    requires Alike(a, c) && t != P(StepTok(MinusMinus)) && u != P(StepTok(MinusMinus))
    ensures Alike([t] + a + [u], [t] + c + [u])
  {
    hide Alike;
    AlikeOne(t);
    AlikeOne(u);
    AlikeJoin([t], a, [t], c);
    AlikeJoin([t] + a, [u], [t] + c, [u]);
  }

  lemma AlikeBetween(a: seq<Piece>, b: seq<Piece>, t: Piece, c: seq<Piece>, d: seq<Piece>)
    requires Alike(a, c) && Alike(b, d) && t != P(StepTok(MinusMinus))
    ensures Alike(a + [t] + b, c + [t] + d)
  {
    hide Alike;
    AlikeOne(t);
    AlikeJoin(a, [t], c, [t]);
    AlikeJoin(a + [t], b, c + [t], d);
  }

  /** Two single dashes for a step. */
  lemma AlikeStep(a: seq<Piece>, b: seq<Piece>, c: seq<Piece>, d: seq<Piece>)
    requires Alike(a, c) && Alike(b, d)
    ensures Alike(a + [P(OpTok(SubOp))] + ([P(UnTok(NegOp))] + b), c + [P(StepTok(MinusMinus))] + d)
  {
    hide Merge;
    var s, n, m := P(OpTok(SubOp)), P(UnTok(NegOp)), P(StepTok(MinusMinus));
    MergeOne(s);
    MergeOne(n);
    MergeOne(m);
    MergeJoin([n], b);
    MergeJoin(a, [s]);
    MergeJoin(a + [s], [n] + b);
    MergeJoin(c, [m]);
    MergeJoin(c + [m], d);
  }

  lemma {:induction false} RelaxPrint(e: Expr, l: int)
    requires -1 <= l <= 9
    ensures Alike(Print(Relax(e), l), Print(e, l))
    decreases e, if l <= Prec(e) then 2 else 3
  {
    hide Alike, PrintSInsn, Glue, NegFirst, RelaxOperands;
    SameLevel(e);
    if l > Prec(e) {
      RelaxPrint(e, -1);
      AlikeAround(P(Open), Print(Relax(e), -1), Print(e, -1), P(Close));
    } else if e.Bin? {
      var p := OpPrec(e.op);
      RelaxPrint(e.e1, p);
      RelaxPrint(e.e2, p + 1);
      AlikeBetween(Print(Relax(e.e1), p), Print(Relax(e.e2), p + 1), P(OpTok(e.op)),
                   Print(e.e1, p), Print(e.e2, p + 1));
    } else if e.Un? {
      RelaxPrint(e.e, 8);
      AlikeOne(P(UnTok(e.uop)));
      AlikeJoin([P(UnTok(e.uop))], Print(Relax(e.e), 8), [P(UnTok(e.uop))], Print(e.e, 8));
    } else if e.Mem? || e.MemStep? {
      RelaxMem(e);
      SamePrint(e, l, 9);
      SamePrint(Relax(e), l, 9);
    } else if e.SInsnExpr? {
      RelaxSInsn(e.insn);
      AlikeAround(P(Open), PrintSInsn(Relax(e).insn), PrintSInsn(e.insn), P(Close));
    } else {
      AlikeLeaf(e);
      SamePrint(e, l, 9);
    }
  }

  lemma AlikeLeaf(e: Expr)
    requires !e.Bin? && !e.Un? && !e.Mem? && !e.MemStep? && !e.SInsnExpr?
    ensures Alike(Print(e, 9), Print(e, 9))
  {
    hide Merge;
  }

  lemma {:induction false} RelaxMem(e: Expr)
    requires e.Mem? || e.MemStep?
    ensures Alike(Print(Relax(e), 9), Print(e, 9))
    decreases e, 1
  {
    hide Alike, Print, Glue, NegFirst;
    var t, u := P(Bracket(e.name)), P(Unbracket);
    var a, a' := Print(e.addr, -1), Print(Relax(e.addr), -1);
    PrintMemory(e);
    PrintMemory(Relax(e));
    RelaxPrint(e.addr, -1);
    if e.Mem? {
      AlikeAround(t, a', a, u);
    } else {
      var b, b' := Print(e.amount, -1), Print(Relax(e.amount), -1);
      RelaxPrint(e.amount, -1);
      if e.step.MinusMinus? {
        var g := NegFirst(Relax(e.amount), -1);
        NegFirstPrint(Relax(e.amount), -1);
        GluePrint(Relax(e.addr), -1, g, -1);
        AlikeStep(a', b', a, b);
        AlikeAround(t, Print(Relax(e).addr, -1), a + [P(StepTok(e.step))] + b, u);
      } else {
        AlikeBetween(a', b', P(StepTok(e.step)), a, b);
        AlikeAround(t, a' + [P(StepTok(e.step))] + b', a + [P(StepTok(e.step))] + b, u);
      }
    }
  }

  lemma {:induction false} RelaxOperand(e: Expr)
    ensures Alike(PrintSExpr(Relax(e), -1), PrintSExpr(e, -1))
    decreases e, 4
  {
    hide Alike, Print, PrintSExpr;
    OperandScale(e);
    OperandScale(Relax(e));
    SameLevel(e);
    if e.Bin? && e.op.VecOp? {
      RelaxOperand(e.e1);
      RelaxPrint(e.e2, 6);
      AlikeBetween(PrintSExpr(Relax(e.e1), -1), Print(Relax(e.e2), 6), P(OpTok(VecOp)),
                   PrintSExpr(e.e1, -1), Print(e.e2, 6));
    } else {
      RelaxPrint(e, 6);
    }
  }

  lemma {:induction false} ModsAlike(mods: seq<Modifier>)
    ensures Alike(PrintMods(mods), PrintMods(mods))
    decreases |mods|
  {
    hide Merge;
    if mods != [] {
      ModsAlike(mods[1..]);
    }
  }

  lemma {:induction false} RelaxedExprs(es: seq<Expr>, more: bool)
    ensures Alike(PrintExprs(RelaxExprs(es), more), PrintExprs(es, more))
    decreases es, 0
  {
    hide Alike, PrintSExpr;
    if es == [] {
      AlikeOne(Blank);
    } else {
      var bar: seq<Piece> := if more then [Blank, P(OpTok(OrOp))] else [];
      BarAlike(bar);
      AlikeOne(Blank);
      RelaxOperand(es[0]);
      RelaxedExprs(es[1..], true);
      assert RelaxExprs(es)[1..] == RelaxExprs(es[1..]);
      AlikeJoin(bar, [Blank], bar, [Blank]);
      AlikeJoin(bar + [Blank], PrintSExpr(Relax(es[0]), -1), bar + [Blank], PrintSExpr(es[0], -1));
      AlikeJoin(bar + [Blank] + PrintSExpr(Relax(es[0]), -1), PrintExprs(RelaxExprs(es[1..]), true),
                bar + [Blank] + PrintSExpr(es[0], -1), PrintExprs(es[1..], true));
    }
  }

  lemma BarAlike(bar: seq<Piece>)
    requires NoSteps(bar)
    ensures Alike(bar, bar)
  {
    hide Merge;
  }

  lemma {:induction false} RelaxedOperands(ops: seq<Operand>)
    ensures Alike(PrintOperands(RelaxOperands(ops)), PrintOperands(ops))
    decreases ops, 0
  {
    hide Alike, PrintExprs, PrintMods;
    if ops == [] {
      AlikeOne(Blank);
    } else {
      var op := ops[0];
      var m, x, x' := PrintMods(op.mods), PrintExprs(op.exprs, false), PrintExprs(RelaxExprs(op.exprs), false);
      ModsAlike(op.mods);
      RelaxedExprs(op.exprs, false);
      RelaxedOperands(ops[1..]);
      assert RelaxOperands(ops)[1..] == RelaxOperands(ops[1..]);
      AlikeJoin(m, x', m, x);
      AlikeJoin(m + x', PrintOperands(RelaxOperands(ops[1..])), m + x, PrintOperands(ops[1..]));
    }
  }

  lemma {:induction false} RelaxSInsn(s: SInsn)
    ensures Alike(PrintSInsn(SInsn(s.name, s.isunk, RelaxOperands(s.operands), s.mods)), PrintSInsn(s))
    decreases s, 1
  {
    hide Alike, PrintOperands, PrintMods, RelaxOperands;
    var w := P(WordTok(s.name));
    AlikeOne(w);
    RelaxedOperands(s.operands);
    ModsAlike(s.mods);
    AlikeJoin([w], PrintOperands(RelaxOperands(s.operands)), [w], PrintOperands(s.operands));
    AlikeJoin([w] + PrintOperands(RelaxOperands(s.operands)), PrintMods(s.mods),
              [w] + PrintOperands(s.operands), PrintMods(s.mods));
  }

  // ---------------------------------------------------------------------
  // The other reading is well formed
  // ---------------------------------------------------------------------

  predicate Good(e: Expr) { Named(e) && Whole(e, true) }

  lemma {:induction false} NegFirstGood(b: Expr, l: int)
    requires -1 <= l <= 8 && Good(b)
    ensures Good(NegFirst(b, l))
  {
    if b.Bin? && l <= Prec(b) {
      NegFirstGood(b.e1, OpPrec(b.op));
    }
  }

  lemma {:induction false} GlueGood(a: Expr, l: int, g: Expr, m: int)
    requires Good(a) && Good(g)
    ensures Good(Glue(a, l, g, m))
    decreases a, g
  {
    if g.Bin? && m <= Prec(g) && Prec(g) <= 6 && Prec(g) <= Hold(a, l) {
      GlueGood(a, OpPrec(g.op), g.e1, OpPrec(g.op));
    } else if a.Bin? && l <= Prec(a) && Prec(a) < 6 {
      GlueGood(a.e2, OpPrec(a.op) + 1, g, m);
    }
  }

  lemma {:induction false} RelaxGood(e: Expr)
    requires Good(e)
    ensures Good(Relax(e))
    decreases e
  {
    hide Glue, NegFirst, IsName, IsWord;
    match e
    case Bin(_, e1, e2) =>
      RelaxGood(e1);
      RelaxGood(e2);
    case Un(_, e1) => RelaxGood(e1);
    case Mem(_, a) => RelaxGood(a);
    case MemStep(step, _, a, b) =>
      RelaxGood(a);
      RelaxGood(b);
      if step.MinusMinus? {
        NegFirstGood(Relax(b), -1);
        GlueGood(Relax(a), -1, NegFirst(Relax(b), -1), -1);
      }
    case SInsnExpr(s) => RelaxSInsnGood(s);
    case _ =>
  }

  predicate GoodOperand(op: Operand) { NamedOperand(op) && WholeOperand(op, true) }

  predicate GoodOperands(ops: seq<Operand>) { forall i :: 0 <= i < |ops| ==> GoodOperand(ops[i]) }

  predicate GoodExprs(es: seq<Expr>) { forall j :: 0 <= j < |es| ==> Good(es[j]) }

  lemma {:induction false} RelaxSInsnGood(s: SInsn)
    requires NamedSInsn(s) && WholeSInsn(s, true)
    ensures var t := SInsn(s.name, s.isunk, RelaxOperands(s.operands), s.mods); NamedSInsn(t) && WholeSInsn(t, true)
    decreases s
  {
    hide IsWord, NamedOperand, WholeOperand, RelaxOperands;
    forall i | 0 <= i < |s.operands| ensures GoodOperand(s.operands[i]) {
      assert NamedOperand(s.operands[i]) && WholeOperand(s.operands[i], true);
    }
    RelaxOperandsGood(s.operands);
    var r := RelaxOperands(s.operands);
    forall i | 0 <= i < |r| ensures NamedOperand(r[i]) && WholeOperand(r[i], true) {
      assert GoodOperand(r[i]);
    }
  }

  lemma {:induction false} RelaxOperandsGood(ops: seq<Operand>)
    requires GoodOperands(ops)
    ensures GoodOperands(RelaxOperands(ops))
    decreases ops
  {
    hide GoodOperand, RelaxExprs;
    if ops != [] {
      assert GoodOperand(ops[0]);
      RelaxOperandGood(ops[0]);
      RelaxOperandsGood(ops[1..]);
    }
  }

  lemma {:induction false} RelaxOperandGood(op: Operand)
    requires GoodOperand(op)
    ensures GoodOperand(Operand(op.mods, RelaxExprs(op.exprs)))
    decreases op
  {
    hide Named, Whole, IsWord, RelaxExprs;
    forall j | 0 <= j < |op.exprs| ensures Good(op.exprs[j]) {
      assert Named(op.exprs[j]) && Whole(op.exprs[j], true);
    }
    RelaxExprsGood(op.exprs);
    var r := RelaxExprs(op.exprs);
    forall j | 0 <= j < |r| ensures Named(r[j]) && Whole(r[j], true) {
      assert Good(r[j]);
    }
  }

  lemma {:induction false} RelaxExprsGood(es: seq<Expr>)
    requires GoodExprs(es)
    ensures GoodExprs(RelaxExprs(es))
    decreases es
  {
    hide Relax, Good;
    if es != [] {
      assert Good(es[0]);
      RelaxGood(es[0]);
      RelaxExprsGood(es[1..]);
    }
  }

  // ---------------------------------------------------------------------
  // The results
  // ---------------------------------------------------------------------

  /** Texts without steps tell their expressions. */
  lemma SteplessSame(e: Expr, f: Expr)
    requires Good(e) && Good(f) && NoSteps(Print(e, -1)) && NoSteps(Print(f, -1))
    requires Merge(Print(e, -1)) == Merge(Print(f, -1))
    ensures e == f
  {
    hide Merge, Print, Named, Whole, Fits, Toks, Parse;
    PrintFits(e, -1, true);
    PrintFits(f, -1, true);
    PrintEnds(e, -1);
    PrintEnds(f, -1);
    MergeInjective(Print(e, -1), Print(f, -1));
    PrintedIsRead(e, -1, [], true);
    PrintedIsRead(f, -1, [], true);
    NoMore(-1, e, [], true);
    NoMore(-1, f, [], true);
  }

  /** Two well-formed expressions have the same text, character for character, exactly
      when they differ at most in `--` being a step or a subtraction. */
  lemma SameTextIff(e: Expr, f: Expr)
    requires Good(e) && Good(f)
    ensures Text(PrintExpr(e, -1)) == Text(PrintExpr(f, -1)) <==> Relax(e) == Relax(f)
  {
    hide Merge, Print, PrintExpr, Named, Whole, Fits, Relax, Text, Raw;
    ExprScale(e, -1);
    ExprScale(f, -1);
    MergeText(Print(e, -1));
    MergeText(Print(f, -1));
    PrintFits(e, -1, true);
    PrintFits(f, -1, true);
    RawText(Print(e, -1));
    RawText(Print(f, -1));
    RelaxPrint(e, -1);
    RelaxPrint(f, -1);
    if Text(PrintExpr(e, -1)) == Text(PrintExpr(f, -1)) {
      RelaxGood(e);
      RelaxGood(f);
      SteplessSame(Relax(e), Relax(f));
    }
  }

  lemma SteplessSameOperand(e: Expr, f: Expr)
    requires Good(e) && Good(f) && NoSteps(PrintSExpr(e, -1)) && NoSteps(PrintSExpr(f, -1))
    requires Merge(PrintSExpr(e, -1)) == Merge(PrintSExpr(f, -1))
    ensures e == f
  {
    hide Merge, PrintSExpr, Named, Whole, Fits, Toks, ParseOperand;
    OperandFits(e, true);
    OperandFits(f, true);
    OperandEnds(e);
    OperandEnds(f);
    MergeInjective(PrintSExpr(e, -1), PrintSExpr(f, -1));
    OperandIsRead(e, [], true);
    OperandIsRead(f, [], true);
    VectorEnd(e, [], true);
    VectorEnd(f, [], true);
  }

  /** So it is for operands. */
  lemma SameOperandTextIff(e: Expr, f: Expr)
    requires Good(e) && Good(f)
    ensures Text(PrintSExpr(e, -1)) == Text(PrintSExpr(f, -1)) <==> Relax(e) == Relax(f)
  {
    hide Merge, PrintSExpr, Named, Whole, Fits, Relax, Text, Raw;
    MergeText(PrintSExpr(e, -1));
    MergeText(PrintSExpr(f, -1));
    OperandFits(e, true);
    OperandFits(f, true);
    RawText(PrintSExpr(e, -1));
    RawText(PrintSExpr(f, -1));
    RelaxOperand(e);
    RelaxOperand(f);
    if Text(PrintSExpr(e, -1)) == Text(PrintSExpr(f, -1)) {
      RelaxGood(e);
      RelaxGood(f);
      SteplessSameOperand(Relax(e), Relax(f));
    }
  }

  // ---------------------------------------------------------------------
  // Expressions without steps
  // ---------------------------------------------------------------------

  /** No memory operand has a `--` step. */
  predicate Stepless(e: Expr)
    decreases e
  {
    match e
    case Bin(_, e1, e2) => Stepless(e1) && Stepless(e2)
    case Un(_, e1) => Stepless(e1)
    case Mem(_, a) => Stepless(a)
    case MemStep(step, _, a, b) => !step.MinusMinus? && Stepless(a) && Stepless(b)
    case SInsnExpr(s) => SteplessOperands(s.operands)
    case _ => true
  }

  predicate SteplessOperands(ops: seq<Operand>)
    decreases ops
  {
    ops == [] || (SteplessExprs(ops[0].exprs) && SteplessOperands(ops[1..]))
  }

  predicate SteplessExprs(es: seq<Expr>)
    decreases es
  {
    es == [] || (Stepless(es[0]) && SteplessExprs(es[1..]))
  }

  lemma {:induction false} RelaxNothing(e: Expr)
    requires Stepless(e)
    ensures Relax(e) == e
    decreases e
  {
    match e
    case Bin(_, e1, e2) =>
      RelaxNothing(e1);
      RelaxNothing(e2);
    case Un(_, e1) => RelaxNothing(e1);
    case Mem(_, a) => RelaxNothing(a);
    case MemStep(_, _, a, b) =>
      RelaxNothing(a);
      RelaxNothing(b);
    case SInsnExpr(s) => RelaxNoOperands(s.operands);
    case _ =>
  }

  lemma {:induction false} RelaxNoOperands(ops: seq<Operand>)
    requires SteplessOperands(ops)
    ensures RelaxOperands(ops) == ops
    decreases ops
  {
    hide Relax, Stepless;
    if ops != [] {
      RelaxNoExprs(ops[0].exprs);
      RelaxNoOperands(ops[1..]);
    }
  }

  lemma {:induction false} RelaxNoExprs(es: seq<Expr>)
    requires SteplessExprs(es)
    ensures RelaxExprs(es) == es
    decreases es
  {
    hide Relax, Stepless;
    if es != [] {
      RelaxNothing(es[0]);
      RelaxNoExprs(es[1..]);
    }
  }

  /** Of expressions without `--` steps no two have the same text. */
  lemma SteplessInjective(e: Expr, f: Expr)
    requires Good(e) && Good(f) && Stepless(e) && Stepless(f)
    ensures Text(PrintExpr(e, -1)) == Text(PrintExpr(f, -1)) <==> e == f
  {
    hide Text, PrintExpr, Relax, Good, Stepless;
    SameTextIff(e, f);
    RelaxNothing(e);
    RelaxNothing(f);
  }
}
