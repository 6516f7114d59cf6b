/** Number literals: decimal, octal and hexadecimal ones are read as the numbers they spell,
    up to the largest 64-bit number. */
module Literals {
  import opened Options
  import opened Words
  import opened Numbers
  import opened Lexer
  import R = Registers

  /** A digit of a base up to 16, in lower case. */
  function DigitChar(d: nat): (c: char)
    requires d < 16
    ensures DigitOf(c) == d && c != 'x' && c != 'X'
  {
    HexChar(d)
  }

  /** The digits of a number, the most significant first. */
  function Numeral(v: nat, base: nat): (s: string)
    requires 2 <= base <= 16
    ensures s != "" && (forall c <- s :: DigitOf(c) < base && c != 'x' && c != 'X') && (v > 0 ==> DigitOf(s[0]) > 0)
    decreases v
  {
    if v < base then [DigitChar(v)] else Smaller(v, base); Numeral(v / base, base) + [DigitChar(v % base)]
  }

  lemma Smaller(v: nat, base: nat)
    requires 2 <= base <= v
    ensures 0 < v / base < v && v % base < base
  {
  }

  lemma {:induction false} NumeralValue(v: nat, base: nat)
    requires 2 <= base <= 16
    ensures Value(Numeral(v, base), base) == v
    decreases v
  {
    var s := Numeral(v, base);
    if v < base {
      assert s[..0] == "";
    } else {
      Smaller(v, base);
      NumeralValue(v / base, base);
      assert s[..|s| - 1] == Numeral(v / base, base);
      Division(v, base);
    }
  }

  lemma {:induction false} DigitSpan(w: string, rest: string, base: nat)
    requires (forall c <- w :: DigitOf(c) < base) && (rest == "" || DigitOf(rest[0]) >= base)
    ensures SpanLen(w + rest, base) == |w|
  {
    if w == "" {
      assert w + rest == rest;
    } else {
      assert (w + rest)[1..] == w[1..] + rest;
      DigitSpan(w[1..], rest, base);
    }
  }

  /** The literals that the language has. */
  datatype Style = Decimal | Octal | HexLower | HexUpper

  function Base(style: Style): nat { if style.Decimal? then 10 else if style.Octal? then 8 else 16 }

  /** A literal for `v`; the number 0 is an octal one. */
  function Literal(style: Style, v: nat): string {
    match style
    case Decimal => Numeral(v, 10)
    case Octal => "0" + Numeral(v, 8)
    case HexLower => "0x" + Numeral(v, 16)
    case HexUpper => "0X" + Numeral(v, 16)
  }

  lemma SaturatedValue(v: nat)
    ensures Val(Saturated(v)) == if v < Pow2(64) then v else Pow2(64) - 1
  {
    hide Val, Pow2;
    var all := AllOnes();
    assert all == Ones(64);
    OnesValue(64);
    FromNatValue(v);
    if v < Pow2(64) {
      Quotient(v, Pow2(64), 0, v);
    }
  }

  lemma DigitsRead(s: string, w: string, rest: string, base: nat, v: nat)
    requires s == w + rest && w != "" && (forall c <- w :: DigitOf(c) < base) && Value(w, base) == v
    requires rest == "" || DigitOf(rest[0]) >= base
    ensures Digits(s, base) == Found(NumTok(Saturated(v)), |w|, false)
  {
    DigitSpan(w, rest, base);
    assert s[..|w|] == w;
  }

  /** A literal in a text, behind which no further digit stands, is one token, and its value is
      the number that was spelled, or the largest one if 64 bits do not hold it. */
  lemma LiteralNext(style: Style, v: nat, rest: string, ws: bool)
    requires (style.Decimal? ==> v > 0) && (rest == "" || DigitOf(rest[0]) >= Base(style))
    ensures var l := Next(Literal(style, v) + rest, ws);
            && l.len == |Literal(style, v)| && !l.ws && l.tok.Some? && l.tok.value.NumTok?
            && Val(l.tok.value.n) == if v < Pow2(64) then v else Pow2(64) - 1
  {
    hide Val, Pow2, Saturated, SpanLen, Value, Next, NumLexeme, Numeral;
    SaturatedValue(v);
    var s := Literal(style, v) + rest;
    NumeralValue(v, Base(style));
    IsNumber(s, ws);
    Behind("0", Numeral(v, 8), rest);
    Behind("0x", Numeral(v, 16), rest);
    Behind("0X", Numeral(v, 16), rest);
    match style {
      case Decimal => DecimalRead(s, Numeral(v, 10), rest, v);
      case Octal => OctalRead(s, Numeral(v, 8), rest, v);
      case HexLower => HexRead(s, Numeral(v, 16), rest, v);
      case HexUpper => HexRead(s, Numeral(v, 16), rest, v);
    }
  }

  lemma Behind(front: string, w: string, rest: string)
    ensures (front + w + rest)[|front|..] == w + rest
  {
  }

  lemma IsNumber(s: string, ws: bool)
    requires s != "" && DigitOf(s[0]) < 10
    ensures Next(s, ws) == NumLexeme(s)
  {
    hide NumLexeme, WordLexeme, DashLexeme, SignLexeme;
  }

  lemma DecimalRead(s: string, w: string, rest: string, v: nat)
    requires s == w + rest && w != "" && DigitOf(w[0]) > 0 && (forall c <- w :: DigitOf(c) < 10) && Value(w, 10) == v
    requires rest == "" || DigitOf(rest[0]) >= 10
    ensures NumLexeme(s) == Found(NumTok(Saturated(v)), |w|, false)
  {
    hide Saturated, Digits, Value, SpanLen;
    DigitsRead(s, w, rest, 10, v);
  }

  lemma OctalRead(s: string, w: string, rest: string, v: nat)
    requires |s| > 1 && s[0] == '0' && s[1..] == w + rest && w != ""
    requires (forall c <- w :: DigitOf(c) < 8 && c != 'x' && c != 'X')
    requires Value(w, 8) == v && (rest == "" || DigitOf(rest[0]) >= 8)
    ensures NumLexeme(s) == Found(NumTok(Saturated(v)), 1 + |w|, false)
  {
    hide Saturated, NumLexeme, Digits, Value, SpanLen, DigitOf;
    assert s[1] == s[1..][0] == w[0] && w[0] in w;
    OctalBranch(s);
    var z := ZeroInFront(s, w, rest, v);
    DigitsRead(s, z, rest, 8, v);
  }

  lemma ZeroInFront(s: string, w: string, rest: string, v: nat) returns (z: string)
    requires |s| > 1 && s[0] == '0' && s[1..] == w + rest && forall c <- w :: DigitOf(c) < 8
    requires Value(w, 8) == v
    ensures s == z + rest && |z| == 1 + |w| && Value(z, 8) == v && forall c <- z :: DigitOf(c) < 8
  {
    hide Value;
    z := "0" + w;
    LeadingZero(w, v);
    assert s == [s[0]] + s[1..];
    assert DigitOf('0') == 0;
  }

  lemma OctalBranch(s: string)
    requires |s| > 1 && s[0] == '0' && s[1] != 'x' && s[1] != 'X'
    ensures DigitOf(s[0]) == 0 && NumLexeme(s) == Digits(s, 8)
  {
    hide Digits, SpanLen;
  }

  lemma HexBranch(s: string)
    requires |s| > 2 && s[0] == '0' && (s[1] == 'x' || s[1] == 'X') && DigitOf(s[2]) < 16
    ensures DigitOf(s[0]) == 0
    ensures NumLexeme(s) == var n := SpanLen(s[2..], 16); Found(NumberTok(s[2..2 + n], 16), 2 + n, false)
  {
    hide Digits, SpanLen, NumberTok;
  }

  lemma {:induction false} LeadingZero(w: string, v: nat)
    requires Value(w, 8) == v
    ensures Value("0" + w, 8) == v
    decreases |w|
  {
    var z := "0" + w;
    if w == "" {
      assert z[..0] == "";
    } else {
      assert z[..|z| - 1] == "0" + w[..|w| - 1];
      LeadingZero(w[..|w| - 1], Value(w[..|w| - 1], 8));
    }
  }

  lemma HexRead(s: string, w: string, rest: string, v: nat)
    requires |s| > 2 && s[0] == '0' && (s[1] == 'x' || s[1] == 'X') && s[2..] == w + rest && w != ""
    requires (forall c <- w :: DigitOf(c) < 16) && Value(w, 16) == v && (rest == "" || DigitOf(rest[0]) >= 16)
    ensures NumLexeme(s) == Found(NumTok(Saturated(v)), 2 + |w|, false)
  {
    hide Saturated, NumLexeme, Value, SpanLen, DigitOf;
    var t := s[2..];
    assert t[..|w|] == w && t[0] == w[0];
    DigitSpan(w, rest, 16);
    HexBranch(s);
    assert s[2..2 + |w|] == t[..|w|];
  }

  // ---------------------------------------------------------------------
  // Numbers inside register names
  // ---------------------------------------------------------------------

  lemma {:induction false} BlanksSkipped(blank: string, t: string)
    requires (forall c <- blank :: R.IsSpace(c)) && t != "" && !R.IsSpace(t[0])
    ensures R.SkipSpace(blank + t) == t
  {
    if blank == "" {
      assert blank + t == t;
    } else {
      assert (blank + t)[1..] == blank[1..] + t;
      BlanksSkipped(blank[1..], t);
    }
  }

  /** `strtoull` takes white space, a sign and decimal digits; a minus is taken modulo 2^64, and
      a number that is too large becomes the largest one. */
  lemma StrToUllReads(blank: string, sign: string, v: nat, rest: string)
    requires (forall c <- blank :: R.IsSpace(c)) && sign in {"", "+", "-"}
    requires rest == "" || !R.IsDigit(rest[0])
    ensures var (w, end) := R.StrToUll(blank + (sign + (R.Dec(v) + rest)));
            end == rest && Val(w) == if v >= Pow2(64) then Pow2(64) - 1 else if sign == "-" then Wrap(0 - v) else v
  {
    hide Val, Pow2, R.SkipSpace, R.Digits, R.Dec, R.StrToUll, Neg, FromNat, AllOnes;
    var u := R.Dec(v) + rest;
    assert u[0] == R.Dec(v)[0];
    BlanksSkipped(blank, sign + u);
    R.DigitsDec(v, 0, rest);
    SignedDigits(blank + (sign + u), sign, u, v, rest);
    SaturatedValue(v);
    MostOnes();
    if v < Pow2(64) {
      Quotient(v, Pow2(64), 0, v);
      FromNatValue(v);
      NegValue(FromNat(v));
    }
  }

  lemma MostOnes()
    ensures Val(AllOnes()) == Pow2(64) - 1
  {
    hide Val;
    assert AllOnes() == Ones(64);
    OnesValue(64);
  }

  lemma SignedDigits(s: string, sign: string, u: string, v: nat, rest: string)
    requires sign in {"", "+", "-"} && u != "" && R.IsDigit(u[0])
    requires R.SkipSpace(s) == sign + u && R.Digits(u, 0) == (v, rest)
    ensures R.StrToUll(s) ==
            (if v > Val(AllOnes()) then AllOnes() else if sign == "-" then Neg(FromNat(v)) else FromNat(v), rest)
  {
    hide Val, R.SkipSpace, R.Digits, Neg, FromNat, AllOnes;
    var t := sign + u;
    if sign == "" {
      assert t == u;
    } else {
      assert t[1..] == u && t[0] == sign[0];
    }
  }
}
