/** The tokens of the assembly language, how they are spelled, and how
    `easm/easm_lex.l` finds them in a text.  The lexer keeps one flag: whether the
    last thing it saw was white space or an opening bracket (`yyextra.ws`), which
    decides what a `-` is. */
module Lexer {
  import opened Options
  import opened Words
  import opened Exprs
  import Registers

  /** `PosTok` is never found; `ErrTok` is everything that no expression contains. */
  datatype Tok =
    | OpTok(op: BinOp)
    | UnTok(uop: UnOp)
    | NumTok(n: Word)
    | RegTok(name: string)
    | LabelTok(name: string)
    | WordTok(name: string)
    | Hash
    | PosTok
    | Open
    | Close
    | Bracket(name: string)
    | StepTok(step: Step)
    | Unbracket
    | ErrTok

  /** What the printer writes. */
  datatype Piece = P(tok: Tok) | Blank

  // ---------------------------------------------------------------------
  // Characters
  // ---------------------------------------------------------------------

  predicate IsLower(c: char) { 'a' <= c <= 'z' }

  predicate IsStart(c: char) { IsLower(c) || 'A' <= c <= 'Z' || c == '_' }

  predicate IsPart(c: char) { IsStart(c) || '0' <= c <= '9' }

  /** `[a-zA-Z_][a-zA-Z_0-9]*` */
  predicate IsName(s: string) {
    s != "" && IsStart(s[0]) && forall c <- s :: IsPart(c)
  }

  /** `[a-z][a-zA-Z_0-9]*` */
  predicate IsWord(s: string) { IsName(s) && IsLower(s[0]) }

  function NameLen(s: string): (n: nat)
    ensures n <= |s| && (forall i :: 0 <= i < n ==> IsPart(s[i])) && (n < |s| ==> !IsPart(s[n]))
  {
    if s == "" || !IsPart(s[0]) then 0 else 1 + NameLen(s[1..])
  }

  /** What a digit is worth; 16 if it is none. */
  function DigitOf(c: char): (d: nat)
    ensures d <= 16
  {
    if '0' <= c <= '9' then (c - '0') as nat
    else if 'a' <= c <= 'f' then (c - 'a') as nat + 10
    else if 'A' <= c <= 'F' then (c - 'A') as nat + 10
    else 16
  }

  function SpanLen(s: string, base: nat): (n: nat)
    ensures n <= |s| && (forall i :: 0 <= i < n ==> DigitOf(s[i]) < base) && (n < |s| ==> DigitOf(s[n]) >= base)
    ensures s != "" && DigitOf(s[0]) < base ==> n > 0
  {
    if s == "" || DigitOf(s[0]) >= base then 0 else 1 + SpanLen(s[1..], base)
  }

  function Value(s: string, base: nat): nat {
    if s == "" then 0 else Value(s[..|s| - 1], base) * base + DigitOf(s[|s| - 1])
  }

  /** `strtoull` saturates. */
  function Saturated(v: nat): Word {
    if v <= Val(AllOnes()) then FromNat(v) else AllOnes()
  }

  function NumberTok(s: string, base: nat): Tok { NumTok(Saturated(Value(s, base))) }

  function HexChar(d: nat): char
    requires d < 16
  {
    if d < 10 then '0' + d as char else 'a' + (d - 10) as char
  }

  function Hex(v: nat): (s: string)
    ensures s != "" && forall c <- s :: DigitOf(c) < 16
  {
    if v < 16 then [HexChar(v)] else Hex(v / 16) + [HexChar(v % 16)]
  }

  // ---------------------------------------------------------------------
  // Spelling
  // ---------------------------------------------------------------------

  function OpText(op: BinOp): string {
    match op
    case VecOp => ":"
    case LOrOp => "||"
    case LAndOp => "&&"
    case OrOp => "|"
    case XorOp => "^"
    case AndOp => "&"
    case ShlOp => "<<"
    case ShrOp => ">>"
    case AddOp => "+"
    case SubOp => "-"
    case MulOp => "*"
    case DivOp => "/"
    case ModOp => "%"
  }

  function UnText(op: UnOp): string {
    match op
    case NegOp => "-"
    case NotOp => "~"
    case LNotOp => "!"
  }

  function StepText(step: Step): string {
    match step
    case PlusPlus => "++"
    case MinusMinus => "--"
    case PlusEq => "+="
    case MinusEq => "-="
  }

  function Spell(p: Piece): string {
    match p
    case Blank => " "
    case P(OpTok(op)) => OpText(op)
    case P(UnTok(op)) => UnText(op)
    case P(NumTok(n)) => "0x" + Hex(Val(n))
    case P(RegTok(name)) => "$" + name
    case P(LabelTok(name)) => "#" + name
    case P(WordTok(name)) => name
    case P(Hash) => "#"
    case P(PosTok) => "$"
    case P(Open) => "("
    case P(Close) => ")"
    case P(Bracket(name)) => name + "["
    case P(StepTok(step)) => StepText(step)
    case P(Unbracket) => "]"
    case P(ErrTok) => ""
  }

  function Text(ps: seq<Piece>): string {
    if ps == [] then "" else Spell(ps[0]) + Text(ps[1..])
  }

  // ---------------------------------------------------------------------
  // The lexer
  // ---------------------------------------------------------------------

  /** One match: the token returned, if any, the length, and the flag afterwards. */
  datatype Lexeme = Lexeme(tok: Option<Tok>, len: nat, ws: bool)

  function Found(tok: Tok, len: nat, ws: bool): Lexeme { Lexeme(Some(tok), len, ws) }

  /** The character behind the first; anything harmless if there is none. */
  function Second(s: string): char { if |s| > 1 then s[1] else ';' }

  function WordLexeme(s: string, ws: bool): (r: Lexeme)
    requires s != "" && IsStart(s[0])
    ensures 0 < r.len <= |s|
  {
    var n := NameLen(s);
    if n < |s| && s[n] == '[' then Found(Bracket(s[..n]), n + 1, true)
    else if n < |s| && s[n] == ':' then Found(ErrTok, n + 1, true)
    else if IsLower(s[0]) then Found(WordTok(s[..n]), n, false)
    else Found(ErrTok, 1, ws)
  }

  function NumLexeme(s: string): (r: Lexeme)
    requires s != "" && DigitOf(s[0]) < 10
    ensures 0 < r.len <= |s|
  {
    if s[0] == '0' && |s| > 2 && (s[1] == 'x' || s[1] == 'X') && DigitOf(s[2]) < 16 then
      var n := SpanLen(s[2..], 16);
      Found(NumberTok(s[2..2 + n], 16), 2 + n, false)
    else if s[0] == '0' then Digits(s, 8)
    else Digits(s, 10)
  }

  function Digits(s: string, base: nat): (r: Lexeme)
    requires s != "" && DigitOf(s[0]) < base
    ensures 0 < r.len <= |s|
  {
    var n := SpanLen(s, base);
    Found(NumberTok(s[..n], base), n, false)
  }

  /** The four rules for `-`. */
  function DashLexeme(s: string, ws: bool): (r: Lexeme)
    requires s != ""
    ensures 0 < r.len <= |s|
  {
    if |s| == 1 then Found(ErrTok, 1, ws)
    else if s[1] == '-' then Found(StepTok(MinusMinus), 2, false)
    else if s[1] == '=' then Found(StepTok(MinusEq), 2, false)
    else if s[1] == ' ' || s[1] == '\t' then Found(if ws then OpTok(SubOp) else ErrTok, 1, false)
    else Found(if ws then UnTok(NegOp) else OpTok(SubOp), 1, false)
  }

  /** The tokens made of punctuation.  Comments, strings, swizzles and the ends of
      lines and of blocks are no part of an expression. */
  function SignLexeme(s: string, ws: bool): (r: Lexeme)
    requires s != ""
    ensures 0 < r.len <= |s|
  {
    var c, d := s[0], Second(s);
    if c == '+' then
      if d == '+' then Found(StepTok(PlusPlus), 2, false)
      else if d == '=' then Found(StepTok(PlusEq), 2, false)
      else Found(OpTok(AddOp), 1, false)
    else if c == '|' then if d == '|' then Found(OpTok(LOrOp), 2, false) else Found(OpTok(OrOp), 1, false)
    else if c == '&' then if d == '&' then Found(OpTok(LAndOp), 2, false) else Found(OpTok(AndOp), 1, false)
    else if c == '<' && d == '<' then Found(OpTok(ShlOp), 2, false)
    else if c == '>' && d == '>' then Found(OpTok(ShrOp), 2, false)
    else if c == '/' then
      if d == '*' || d == '/' || d == '+' then Found(ErrTok, 1, ws) else Found(OpTok(DivOp), 1, false)
    else if c == '*' then Found(OpTok(MulOp), 1, false)
    else if c == '%' then Found(OpTok(ModOp), 1, false)
    else if c == '^' then Found(OpTok(XorOp), 1, false)
    else if c == ':' then Found(OpTok(VecOp), 1, false)
    else if c == '~' then Found(UnTok(NotOp), 1, false)
    else if c == '!' then Found(UnTok(LNotOp), 1, false)
    else if c == ')' then Found(Close, 1, false)
    else if c == ']' then Found(Unbracket, 1, false)
    else if c == '(' then Found(Open, 1, true)
    else if c == '[' then Found(Bracket(""), 1, true)
    else Found(ErrTok, 1, ws)
  }

  function Next(s: string, ws: bool): (r: Lexeme)
    requires s != ""
    ensures 0 < r.len <= |s|
  {
    var c := s[0];
    if c == ' ' || c == '\t' then Lexeme(None, 1, true)
    else if IsStart(c) then WordLexeme(s, ws)
    else if DigitOf(c) < 10 then NumLexeme(s)
    else if c == '-' then DashLexeme(s, ws)
    else if c == '$' && IsStart(Second(s)) then
      Found(RegTok(s[1..1 + NameLen(s[1..])]), 1 + NameLen(s[1..]), false)
    else if c == '#' && IsStart(Second(s)) then
      Found(LabelTok(s[1..1 + NameLen(s[1..])]), 1 + NameLen(s[1..]), false)
    else if c == '#' then Found(Hash, 1, false)
    else SignLexeme(s, ws)
  }

  function Lex(s: string, ws: bool): seq<Tok>
    decreases |s|
  {
    if s == "" then []
    else
      var l := Next(s, ws);
      (if l.tok.Some? then [l.tok.value] else []) + Lex(s[l.len..], l.ws)
  }

  // ---------------------------------------------------------------------
  // What is found where a piece was written
  // ---------------------------------------------------------------------

  /** The piece is a single `-`. */
  predicate IsDash(p: Piece) { p == P(UnTok(NegOp)) || p == P(OpTok(SubOp)) }

  /** The names are names. */
  predicate OkPiece(p: Piece) {
    match p
    case P(RegTok(name)) => IsName(name)
    case P(LabelTok(name)) => IsName(name)
    case P(WordTok(name)) => IsWord(name)
    case P(Bracket(name)) => name == "" || IsName(name)
    case P(ErrTok) => false
    case _ => true
  }

  /** The text behind a piece does not run into it. */
  predicate Apart(p: Piece, rest: string) {
    var c := if rest == "" then ';' else rest[0];
    match p
    case P(NumTok(_)) => DigitOf(c) == 16
    case P(RegTok(_)) => !IsPart(c)
    case P(LabelTok(_)) => !IsPart(c)
    case P(WordTok(_)) => !IsPart(c) && c != '[' && c != ':'
    case P(Hash) => !IsStart(c)
    case P(PosTok) => !IsStart(c)
    case P(OpTok(AddOp)) => c != '+' && c != '='
    case P(OpTok(OrOp)) => c != '|'
    case P(OpTok(AndOp)) => c != '&'
    case P(OpTok(DivOp)) => c != '*' && c != '/' && c != '+'
    case _ => true
  }

  predicate Opens(p: Piece) { p.Blank? || p.tok.Open? || p.tok.Bracket? }

  lemma {:induction false} NameLenOf(w: string, rest: string)
    requires (forall c <- w :: IsPart(c)) && (rest == "" || !IsPart(rest[0]))
    ensures NameLen(w + rest) == |w|
  {
    if w == "" {
      assert w + rest == rest;
    } else {
      assert (w + rest)[1..] == w[1..] + rest;
      NameLenOf(w[1..], rest);
    }
  }

  lemma {:induction false} SpanLenOf(w: string, rest: string)
    requires (forall c <- w :: DigitOf(c) < 16) && (rest == "" || DigitOf(rest[0]) == 16)
    ensures SpanLen(w + rest, 16) == |w|
  {
    if w == "" {
      assert w + rest == rest;
    } else {
      assert (w + rest)[1..] == w[1..] + rest;
      SpanLenOf(w[1..], rest);
    }
  }

  lemma {:induction false} HexValue(v: nat)
    ensures Value(Hex(v), 16) == v
  {
    var s := Hex(v);
    if v < 16 {
      assert s[..0] == "";
    } else {
      HexValue(v / 16);
      assert s[..|s| - 1] == Hex(v / 16);
    }
  }

  lemma NumNext(n: Word, rest: string, ws: bool)
    requires Apart(P(NumTok(n)), rest)
    ensures Next(Spell(P(NumTok(n))) + rest, ws) == Found(NumTok(n), |Spell(P(NumTok(n)))|, false)
  {
    hide Val, FromNat, AllOnes;
    var h := Hex(Val(n));
    var s := "0x" + h + rest;
    assert s[2..] == h + rest;
    SpanLenOf(h, rest);
    HexValue(Val(n));
    Registers.FromValue(n);
    assert s[2..2 + |h|] == h;
    assert DigitOf(s[2]) == DigitOf(h[0]);
  }

  lemma NameNext(p: Piece, rest: string, ws: bool)
    requires OkPiece(p) && Apart(p, rest) && p.P? && (p.tok.RegTok? || p.tok.LabelTok?)
    ensures Next(Spell(p) + rest, ws) == Found(p.tok, |Spell(p)|, false)
  {
    var w := p.tok.name;
    var s := Spell(p) + rest;
    assert s[1..] == w + rest;
    NameLenOf(w, rest);
    assert s[1..1 + |w|] == w && s[1] == w[0];
  }

  lemma WordNext(p: Piece, rest: string, ws: bool)
    requires OkPiece(p) && Apart(p, rest) && p.P? && (p.tok.WordTok? || p.tok.Bracket?)
    ensures Next(Spell(p) + rest, ws) == Found(p.tok, |Spell(p)|, p.tok.Bracket?)
  {
    var w := p.tok.name;
    var s := Spell(p) + rest;
    if w != "" {
      var tail := if p.tok.Bracket? then "[" + rest else rest;
      assert s == w + tail;
      NameLenOf(w, tail);
      assert s[..|w|] == w && s[0] == w[0];
    }
  }

  lemma OpNext(op: BinOp, rest: string, ws: bool)
    requires !op.SubOp? && Apart(P(OpTok(op)), rest)
    ensures Next(OpText(op) + rest, ws) == Found(OpTok(op), |OpText(op)|, false)
  {
    hide NumLexeme, WordLexeme, DashLexeme, NameLen;
  }

  lemma StepNext(step: Step, rest: string, ws: bool)
    ensures Next(StepText(step) + rest, ws) == Found(StepTok(step), 2, false)
  {
    hide NumLexeme, WordLexeme, NameLen;
  }

  lemma SignNext(p: Piece, rest: string, ws: bool)
    requires Apart(p, rest) && p.P? && !IsDash(p)
    requires p.tok.UnTok? || p.tok.Hash? || p.tok.Open? || p.tok.Close? || p.tok.Unbracket?
    ensures Next(Spell(p) + rest, ws) == Found(p.tok, 1, p.tok.Open?) && |Spell(p)| == 1
  {
    hide NumLexeme, WordLexeme, DashLexeme, NameLen;
  }

  /** Every piece but a single `-` is found again, or is `$`, which is no token. */
  lemma PieceNext(p: Piece, rest: string, ws: bool)
    requires OkPiece(p) && Apart(p, rest) && !IsDash(p)
    ensures Spell(p) != ""
    ensures Next(Spell(p) + rest, ws) ==
            if p.Blank? then Lexeme(None, |Spell(p)|, true)
            else if p.tok.PosTok? then Found(ErrTok, |Spell(p)|, ws)
            else Found(p.tok, |Spell(p)|, Opens(p))
  {
    hide Next, Hex;
    if p.Blank? {
      BlankNext(rest, ws);
    } else {
      if p.tok.NumTok? {
        NumNext(p.tok.n, rest, ws);
      } else if p.tok.RegTok? || p.tok.LabelTok? {
        NameNext(p, rest, ws);
      } else if p.tok.WordTok? || p.tok.Bracket? {
        WordNext(p, rest, ws);
      } else if p.tok.OpTok? {
        OpNext(p.tok.op, rest, ws);
      } else if p.tok.StepTok? {
        StepNext(p.tok.step, rest, ws);
      } else if p.tok.PosTok? {
        PosNext(rest, ws);
      } else {
        SignNext(p, rest, ws);
      }
    }
  }

  lemma BlankNext(rest: string, ws: bool)
    ensures Next(" " + rest, ws) == Lexeme(None, 1, true)
  {
    hide NumLexeme, WordLexeme, SignLexeme, DashLexeme, NameLen;
  }

  lemma PosNext(rest: string, ws: bool)
    requires Apart(P(PosTok), rest)
    ensures Next("$" + rest, ws) == Found(ErrTok, 1, ws)
  {
  }

  lemma DashNext(rest: string, ws: bool)
    requires rest != "" && rest[0] != '-' && rest[0] != '=' && rest[0] != ' ' && rest[0] != '\t'
    ensures Next("-" + rest, ws) == Found(if ws then UnTok(NegOp) else OpTok(SubOp), 1, false)
  {
  }

  lemma DashDashNext(rest: string, ws: bool)
    ensures Next("-" + ("-" + rest), ws) == Found(StepTok(MinusMinus), 2, false)
  {
  }
}
