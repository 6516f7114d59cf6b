/** What the lexer finds in a printed text.  Only two things can go wrong: `$` is no
    token, and a `-` is the token of a negation only behind white space or an opening
    bracket, and never when another `-` follows. */
module Spacing {
  import opened Options
  import opened Exprs
  import opened Lexer
  import opened Printer
  import opened Grammar

  // ---------------------------------------------------------------------
  // Neighbours
  // ---------------------------------------------------------------------

  /** Every piece satisfies `ok`, and every two neighbours `pair`. */
  ghost predicate Chain(ps: seq<Piece>, ok: Piece -> bool, pair: (Piece, Piece) -> bool) {
    (forall i :: 0 <= i < |ps| ==> ok(ps[i])) && forall i :: 0 < i < |ps| ==> pair(ps[i - 1], ps[i])
  }

  lemma ChainJoin(a: seq<Piece>, b: seq<Piece>, ok: Piece -> bool, pair: (Piece, Piece) -> bool)
    ensures Chain(a + b, ok, pair) <==>
            Chain(a, ok, pair) && Chain(b, ok, pair) && (a != [] && b != [] ==> pair(a[|a| - 1], b[0]))
  {
    var c := a + b;
    if Chain(c, ok, pair) {
      forall i | 0 <= i < |a| ensures ok(a[i]) && (0 < i ==> pair(a[i - 1], a[i])) {
        assert c[i] == a[i] && (0 < i ==> c[i - 1] == a[i - 1] && pair(c[i - 1], c[i]));
      }
      forall i | 0 <= i < |b| ensures ok(b[i]) && (0 < i ==> pair(b[i - 1], b[i])) {
        var k := |a| + i;
        assert c[k] == b[i] && (0 < i ==> c[k - 1] == b[i - 1] && pair(c[k - 1], c[k]));
      }
      if a != [] && b != [] {
        assert c[|a| - 1] == a[|a| - 1] && c[|a|] == b[0];
      }
    }
    if Chain(a, ok, pair) && Chain(b, ok, pair) && (a != [] && b != [] ==> pair(a[|a| - 1], b[0])) {
      forall i | 0 < i < |c| ensures pair(c[i - 1], c[i]) {
        if i < |a| {
          assert c[i - 1] == a[i - 1] && c[i] == a[i];
        } else if i > |a| {
          assert c[i - 1] == b[i - 1 - |a|] && c[i] == b[i - |a|];
        }
      }
    }
  }

  lemma ChainBetween(a: seq<Piece>, t: Piece, b: seq<Piece>, ok: Piece -> bool, pair: (Piece, Piece) -> bool)
    requires a != [] && b != []
    ensures Chain(a + [t] + b, ok, pair) <==>
            Chain(a, ok, pair) && Chain(b, ok, pair) && ok(t) && pair(a[|a| - 1], t) && pair(t, b[0])
  {
    ChainJoin(a, [t], ok, pair);
    ChainJoin(a + [t], b, ok, pair);
    assert Chain([t], ok, pair) <==> ok([t][0]);
  }

  lemma ChainAround(t: Piece, a: seq<Piece>, u: Piece, ok: Piece -> bool, pair: (Piece, Piece) -> bool)
    requires a != []
    ensures Chain([t] + a + [u], ok, pair) <==>
            Chain(a, ok, pair) && ok(t) && ok(u) && pair(t, a[0]) && pair(a[|a| - 1], u)
  {
    ChainJoin([t], a, ok, pair);
    ChainJoin([t] + a, [u], ok, pair);
    assert Chain([t], ok, pair) <==> ok([t][0]);
    assert Chain([u], ok, pair) <==> ok([u][0]);
  }

  // ---------------------------------------------------------------------
  // Lexing piece by piece
  // ---------------------------------------------------------------------

  predicate IsNeg(p: Piece) { p == P(UnTok(NegOp)) }

  /** The piece ends an operand. */
  predicate EndP(p: Piece) {
    && p.P?
    && (p.tok.NumTok? || p.tok.RegTok? || p.tok.LabelTok? || p.tok.Hash? || p.tok.PosTok? || p.tok.Close?
        || p.tok.Unbracket?)
  }

  /** `q` may stand behind `p` in a text: it does not run into it, and a subtraction
      stands behind an operand, a negation does not. */
  predicate OkPair(p: Piece, q: Piece) {
    && Apart(p, Spell(q))
    && (q == P(OpTok(SubOp)) ==> EndP(p)) && (IsNeg(q) ==> !EndP(p))
    && (IsDash(p) ==> IsDash(q) || (Spell(q) != "" && Spell(q)[0] !in "-= \t"))
  }

  ghost predicate Fits(ps: seq<Piece>) { Chain(ps, OkPiece, OkPair) }

  /** The tokens found in the text of some pieces. */
  function LexPieces(ps: seq<Piece>, ws: bool): seq<Tok>
    decreases |ps|
  {
    if ps == [] then []
    else if ps[0].Blank? then LexPieces(ps[1..], true)
    else if IsDash(ps[0]) then
      if |ps| > 1 && IsDash(ps[1]) then [StepTok(MinusMinus)] + LexPieces(ps[2..], false)
      else [if ws then UnTok(NegOp) else OpTok(SubOp)] + LexPieces(ps[1..], false)
    else if ps[0].tok.PosTok? then [ErrTok] + LexPieces(ps[1..], ws)
    else [ps[0].tok] + LexPieces(ps[1..], Opens(ps[0]))
  }

  lemma FitsTail(ps: seq<Piece>)
    requires Fits(ps) && ps != []
    ensures Fits(ps[1..]) && OkPiece(ps[0]) && (|ps| > 1 ==> OkPair(ps[0], ps[1]) && OkPiece(ps[1]))
  {
    hide OkPiece, OkPair;
    forall i | 0 <= i < |ps| - 1 ensures OkPiece(ps[1..][i]) && (0 < i ==> OkPair(ps[1..][i - 1], ps[1..][i])) {
      assert OkPiece(ps[i + 1]) && (0 < i ==> OkPair(ps[i], ps[i + 1]));
    }
    assert |ps| > 1 ==> OkPair(ps[1 - 1], ps[1]) && OkPiece(ps[1]);
  }

  lemma SpellSome(p: Piece)
    requires OkPiece(p)
    ensures Spell(p) != ""
  {
    hide Hex, Words.Val;
  }

  /** Whether a piece runs into a text is decided by the first character. */
  lemma ApartText(p: Piece, ps: seq<Piece>)
    requires ps != [] ==> OkPiece(ps[0]) && Apart(p, Spell(ps[0]))
    ensures Apart(p, Text(ps))
  {
    hide OkPiece, Hex, Words.Val;
    if ps != [] {
      SpellSome(ps[0]);
      assert Text(ps)[0] == Spell(ps[0])[0];
    }
  }

  lemma {:induction false} LexText(ps: seq<Piece>, ws: bool)
    requires Fits(ps) && (ps != [] ==> !IsDash(ps[|ps| - 1]))
    ensures Lex(Text(ps), ws) == LexPieces(ps, ws)
    decreases |ps|
  {
    hide Fits, OkPiece, OkPair, Next, Spell, Apart;
    if ps != [] {
      FitsTail(ps);
      var rest := Text(ps[1..]);
      if IsDash(ps[0]) {
        assert |ps| > 1;
        LexDash(ps, ws);
        if IsDash(ps[1]) {
          FitsTail(ps[1..]);
          assert ps[1..][1..] == ps[2..];
          LexText(ps[2..], false);
        } else {
          LexText(ps[1..], false);
        }
      } else {
        ApartNext(ps);
        PieceNext(ps[0], rest, ws);
        LexFirst(Spell(ps[0]), rest, ws);
        LexText(ps[1..], if ps[0].P? && ps[0].tok.PosTok? then ws else Opens(ps[0]));
      }
    }
  }

  lemma ApartNext(ps: seq<Piece>)
    requires ps != [] && OkPiece(ps[0]) && (|ps| > 1 ==> OkPiece(ps[1]) && OkPair(ps[0], ps[1]))
    ensures Apart(ps[0], Text(ps[1..]))
  {
    hide OkPiece, Spell, Apart;
    if |ps| == 1 {
      ApartNothing(ps[0]);
    } else {
      ApartText(ps[0], ps[1..]);
    }
  }

  lemma ApartNothing(p: Piece)
    ensures Apart(p, Text([]))
  {
  }

  /** The first match of a text and the rest. */
  lemma LexFirst(s: string, rest: string, ws: bool)
    requires s != "" && Next(s + rest, ws).len == |s|
    ensures var l := Next(s + rest, ws);
            Lex(s + rest, ws) == (if l.tok.Some? then [l.tok.value] else []) + Lex(rest, l.ws)
  {
    hide Next;
    assert (s + rest)[|s|..] == rest;
  }

  lemma LexDash(ps: seq<Piece>, ws: bool)
    requires |ps| > 1 && IsDash(ps[0]) && OkPiece(ps[1]) && OkPair(ps[0], ps[1])
    ensures Lex(Text(ps), ws) ==
            if IsDash(ps[1]) then [StepTok(MinusMinus)] + Lex(Text(ps[2..]), false)
            else [if ws then UnTok(NegOp) else OpTok(SubOp)] + Lex(Text(ps[1..]), false)
  {
    hide Next, OkPiece;
    var rest := Text(ps[1..]);
    assert Text(ps) == "-" + rest;
    if IsDash(ps[1]) {
      assert ps[1..][1..] == ps[2..];
      assert rest == "-" + Text(ps[2..]);
      DashDashNext(Text(ps[2..]), ws);
      assert "-" + ("-" + Text(ps[2..])) == "--" + Text(ps[2..]);
      LexFirst("--", Text(ps[2..]), ws);
    } else {
      assert rest[0] == Spell(ps[1])[0];
      DashNext(rest, ws);
      LexFirst("-", rest, ws);
    }
  }

  // ---------------------------------------------------------------------
  // When the tokens found are the tokens written
  // ---------------------------------------------------------------------

  predicate Any(p: Piece) { true }

  /** A negation stands behind a blank or an opening bracket. */
  predicate FreePair(p: Piece, q: Piece) { IsNeg(q) ==> Opens(p) }

  /** Every negation does, the first piece being behind white space if `ws`. */
  ghost predicate Free(ps: seq<Piece>, ws: bool) {
    Chain(ps, Any, FreePair) && (ps != [] && IsNeg(ps[0]) ==> ws)
  }

  predicate NoPos(ps: seq<Piece>) { forall i :: 0 <= i < |ps| ==> ps[i] != P(PosTok) }

  predicate NoSubFirst(ps: seq<Piece>) { ps != [] ==> ps[0] != P(OpTok(SubOp)) }

  lemma {:induction false} FreeLex(ps: seq<Piece>, ws: bool)
    requires Fits(ps) && NoPos(ps) && Free(ps, ws) && (ws ==> NoSubFirst(ps))
    ensures LexPieces(ps, ws) == Toks(ps)
    decreases |ps|
  {
    hide OkPiece, Fits, Apart, Spell;
    if ps != [] {
      FitsTail(ps);
      FreeTail(ps, ws);
      var next := Opens(ps[0]);
      FreeLex(ps[1..], next);
    }
  }

  lemma FreeTail(ps: seq<Piece>, ws: bool)
    requires ps != [] && Free(ps, ws)
    ensures Free(ps[1..], Opens(ps[0]))
  {
    var t := ps[1..];
    forall i | 0 < i < |t| ensures FreePair(t[i - 1], t[i]) {
      assert FreePair(ps[i], ps[i + 1]);
    }
    assert |ps| > 1 ==> FreePair(ps[1 - 1], ps[1]);
  }

  function Count(b: bool): nat { if b then 1 else 0 }

  /** Negations among the tokens, and among the pieces. */
  function NegToks(ts: seq<Tok>): nat {
    if ts == [] then 0 else Count(ts[0] == UnTok(NegOp)) + NegToks(ts[1..])
  }

  function NegPieces(ps: seq<Piece>): nat {
    if ps == [] then 0 else Count(IsNeg(ps[0])) + NegPieces(ps[1..])
  }

  /** No more negations are found than were written, and if none is lost they all stand
      free. */
  lemma {:induction false} NegsLost(ps: seq<Piece>, ws: bool)
    requires Fits(ps) && NoPos(ps) && (ws ==> NoSubFirst(ps))
    ensures NegToks(LexPieces(ps, ws)) <= NegPieces(ps)
    ensures NegToks(LexPieces(ps, ws)) == NegPieces(ps) ==> Free(ps, ws)
    decreases |ps|
  {
    hide OkPiece, Fits, Apart, Spell, Free;
    if ps == [] {
      FreeNothing(ws);
    } else {
      FitsTail(ps);
      var ts := LexPieces(ps, ws);
      if IsDash(ps[0]) && |ps| > 1 && IsDash(ps[1]) {
        FitsTail(ps[1..]);
        assert ps[1..][1..] == ps[2..];
        NegsLost(ps[2..], false);
        assert ts[1..] == LexPieces(ps[2..], false);
      } else {
        NegsLost(ps[1..], Opens(ps[0]));
        assert !ps[0].Blank? ==> ts[1..] == LexPieces(ps[1..], Opens(ps[0]));
        if NegToks(ts) == NegPieces(ps) {
          FreeMore(ps, ws);
        }
      }
    }
  }

  lemma FreeNothing(ws: bool)
    ensures Free([], ws)
  {
  }

  lemma FreeMore(ps: seq<Piece>, ws: bool)
    requires ps != [] && Free(ps[1..], Opens(ps[0])) && (IsNeg(ps[0]) ==> ws)
    ensures Free(ps, ws)
  {
    forall i | 0 < i < |ps| ensures FreePair(ps[i - 1], ps[i]) {
      if i == 1 {
        assert ps[1..][0] == ps[1];
      } else {
        assert FreePair(ps[1..][i - 2], ps[1..][i - 1]);
      }
    }
  }
}
