/** Register names: how `printreg` spells a register number and which number
    `matchreg` takes a spelling for. */
module Registers {
  import opened Options
  import opened Words
  import opened Exprs
  import opened Fields

  // ---------------------------------------------------------------------
  // Decimal text
  // ---------------------------------------------------------------------

  predicate IsDigit(c: char) { '0' <= c <= '9' }

  predicate IsSpace(c: char) { c == ' ' || c == '\t' || c == '\n' || c == '\r' || c == 11 as char || c == 12 as char }

  function DigitChar(d: nat): char
    requires d < 10
  {
    ('0' as int + d) as char
  }

  function Dec(n: nat): (s: string)
    ensures s != [] && forall i :: 0 <= i < |s| ==> IsDigit(s[i])
  {
    if n < 10 then [DigitChar(n)] else Dec(n / 10) + [DigitChar(n % 10)]
  }

  /** Reads digits onto `acc`; returns the number and the unread rest. */
  function Digits(s: string, acc: nat): (nat, string) {
    if s != [] && IsDigit(s[0]) then Digits(s[1..], 10 * acc + (s[0] as int - '0' as int)) else (acc, s)
  }

  function SkipSpace(s: string): string {
    if s != [] && IsSpace(s[0]) then SkipSpace(s[1..]) else s
  }

  /** C's `strtoull(s, &end, 10)`: the number and the text at `end`. */
  function StrToUll(s: string): (Word, string) {
    var t := SkipSpace(s);
    var signed := t != [] && (t[0] == '-' || t[0] == '+');
    var u := if signed then t[1..] else t;
    if u == [] || !IsDigit(u[0]) then (Zero(), s)
    else
      var (v, rest) := Digits(u, 0);
      if v > Val(AllOnes()) then (AllOnes(), rest)
      else (if signed && t[0] == '-' then Neg(FromNat(v)) else FromNat(v), rest)
  }

  /** C's `%lld` applied to an unsigned word. */
  function Lld(num: Word): string {
    if num[63] then "-" + Dec(Val(Neg(num))) else Dec(Val(num))
  }

  function Pow10(n: nat): nat { if n == 0 then 1 else 10 * Pow10(n - 1) }

  lemma {:induction false} DigitsDec(n: nat, acc: nat, rest: string)
    requires rest == [] || !IsDigit(rest[0])
    ensures Digits(Dec(n) + rest, acc) == (acc * Pow10(|Dec(n)|) + n, rest)
    decreases n
  {
    DigitsDecThen(n, acc, rest);
    assert Digits(rest, acc * Pow10(|Dec(n)|) + n) == (acc * Pow10(|Dec(n)|) + n, rest);
  }

  lemma {:induction false} DigitsDecThen(n: nat, acc: nat, rest: string)
    ensures Digits(Dec(n) + rest, acc) == Digits(rest, acc * Pow10(|Dec(n)|) + n)
    decreases n
  {
    hide Digits;
    var tail := [DigitChar(n % 10)] + rest;
    if n < 10 {
      assert Dec(n) + rest == tail;
      assert Pow10(1) == 10;
      OneDigit(n, rest, acc);
    } else {
      assert Dec(n) + rest == Dec(n / 10) + tail;
      DigitsDecThen(n / 10, acc, tail);
      OneDigit(n % 10, rest, acc * Pow10(|Dec(n / 10)|) + n / 10);
      NextPlace(n, acc, Pow10(|Dec(n / 10)|));
    }
  }

  lemma OneDigit(d: nat, rest: string, acc: nat)
    requires d < 10
    ensures Digits([DigitChar(d)] + rest, acc) == Digits(rest, 10 * acc + d)
  {
    assert ([DigitChar(d)] + rest)[1..] == rest;
  }

  lemma NextPlace(n: nat, acc: nat, p: nat)
    ensures 10 * (acc * p + n / 10) + n % 10 == acc * (10 * p) + n
  {
  }

  lemma {:induction false} ValMax(x: seq<bool>, y: seq<bool>)
    requires |x| == |y| && forall i :: 0 <= i < |y| ==> y[i]
    ensures Val(x) <= Val(y)
  {
    if x != [] {
      ValMax(x[1..], y[1..]);
    }
  }

  lemma FromValue(x: Word)
    ensures FromNat(Val(x)) == x
    ensures Val(x) <= Val(AllOnes())
  {
    BitsVal(x);
    ValMax(x, AllOnes());
  }

  lemma ReadUnsigned(u: string, w: Word, rest: string)
    requires u != [] && IsDigit(u[0]) && Digits(u, 0) == (Val(w), rest)
    ensures StrToUll(u) == (w, rest)
  {
    hide Digits, Val, FromNat, AllOnes;
    FromValue(w);
    assert SkipSpace(u) == u;
  }

  lemma ReadNegative(u: string, w: Word, rest: string)
    requires u != [] && IsDigit(u[0]) && Digits(u, 0) == (Val(w), rest)
    ensures StrToUll("-" + u) == (Neg(w), rest)
  {
    hide Digits, Val, FromNat, AllOnes, Neg;
    FromValue(w);
    var s := "-" + u;
    assert SkipSpace(s) == s;
    assert s[1..] == u;
  }

  /** Printing a number and reading it back is lossless, whatever follows. */
  lemma UllRoundTrip(num: Word, rest: string)
    requires rest == [] || !IsDigit(rest[0])
    ensures StrToUll(Lld(num) + rest) == (num, rest)
  {
    hide Digits, Val, Neg, StrToUll, Dec;
    var shown := if num[63] then Neg(num) else num;
    var u := Dec(Val(shown)) + rest;
    DigitsDec(Val(shown), 0, rest);
    assert u[0] == Dec(Val(shown))[0];
    if num[63] {
      ReadNegative(u, shown, rest);
      NegBack(num);
      assert Lld(num) + rest == "-" + u;
    } else {
      ReadUnsigned(u, shown, rest);
    }
  }

  // ---------------------------------------------------------------------
  // Program variants
  // ---------------------------------------------------------------------

  /** Bit masks of the variant machinery are the sets of their bits. */
  datatype VarInfo = VarInfo(features: set<nat>, mode: Option<nat>)

  /** `var_ok` */
  predicate VarOk(fmask: set<nat>, ptype: set<nat>, vi: VarInfo) {
    && fmask <= vi.features
    && (ptype == {} || (vi.mode.Some? && vi.mode.value in ptype))
  }

  /** The bits of a mask. */
  function BitSet(w: Word): set<nat> { set i | 0 <= i < 64 && w[i] }

  /** On masks: every feature that is asked for is there, and the mode is one of those asked
      for, if any are. */
  lemma VariantMasks(fmask: Word, ptype: Word, features: Word, mode: Option<nat>)
    ensures VarOk(BitSet(fmask), BitSet(ptype), VarInfo(BitSet(features), mode)) <==>
            && Words.And(features, fmask) == fmask
            && (ptype == Zero() || (mode.Some? && mode.value < 64 && ptype[mode.value]))
  {
    BitsWithin(fmask, features);
    var both := Words.And(features, fmask);
    if BitSet(fmask) <= BitSet(features) {
      assert both == fmask;
    } else {
      var i :| 0 <= i < 64 && fmask[i] && !features[i];
      assert both[i] != fmask[i];
    }
    if BitSet(ptype) == {} {
      assert forall i :: 0 <= i < 64 && ptype[i] ==> i in BitSet(ptype);
      assert ptype == Zero();
    }
  }

  lemma BitsWithin(x: Word, y: Word)
    ensures BitSet(x) <= BitSet(y) <==> forall i :: 0 <= i < 64 && x[i] ==> y[i]
  {
    if BitSet(x) <= BitSet(y) {
      forall i | 0 <= i < 64 && x[i] ensures y[i] {
        assert i in BitSet(x);
      }
    }
  }

  // ---------------------------------------------------------------------
  // Registers
  // ---------------------------------------------------------------------

  datatype SpecialMode = Named(name: string) | IsZero | IsOne | IsDiscard

  datatype SReg = SReg(num: Word, mode: SpecialMode, fmask: set<nat>)

  datatype RegDesc = RegDesc(bf: Option<Bitfield>, name: string, suffix: string,
                             specials: seq<SReg>, hilo: bool)

  predicate ValidReg(reg: RegDesc) {
    && (reg.bf.Some? ==> ValidBf(reg.bf.value))
    && (reg.specials != [] ==> reg.bf.Some?)
  }

  /** The text under which a special register appears. */
  function SpecialText(mode: SpecialMode): Expr {
    match mode
    case Named(s) => Reg(s)
    case IsZero => Num(Zero())
    case IsOne => Num(OneHot(0))
    case IsDiscard => Discard
  }

  function RegNum(reg: RegDesc, a: Code): Word
    requires ValidReg(reg)
  {
    if reg.bf.Some? then GetBf(reg.bf.value, a) else Zero()
  }

  /** The ordinary spelling of a number. */
  function PlainText(reg: RegDesc, num: Word): string {
    reg.name + (if reg.bf.Some? then Lld(ShownNum(reg, num)) + SuffixFor(reg, num) else SuffixFor(reg, num))
  }

  /** `printreg` followed by the zero substitution of `atomreg_d`. */
  function PrintNum(reg: RegDesc, num: Word, specials: seq<SReg>, vi: VarInfo): Expr {
    if specials == [] then Reg(PlainText(reg, num))
    else if VarOk(specials[0].fmask, {}, vi) && specials[0].num == num then SpecialText(specials[0].mode)
    else PrintNum(reg, num, specials[1..], vi)
  }

  function PrintReg(reg: RegDesc, a: Code, vi: VarInfo): Expr
    requires ValidReg(reg)
  {
    PrintNum(reg, RegNum(reg, a), reg.specials, vi)
  }

  /** The number that an ordinary spelling stands for. */
  function PlainNum(reg: RegDesc, s: string): Option<Word> {
    if !(reg.name <= s) then None
    else
      var (num, end) := StrToUll(s[|reg.name|..]);
      WithSuffix(reg, num, end)
  }

  function WithSuffix(reg: RegDesc, num: Word, end: string): Option<Word> {
    if !reg.hilo then (if end == reg.suffix then Some(num) else None)
    else if end == "h" then Some(Words.Or(Shl(num, 1), OneHot(0)))
    else if end == "l" then Some(Shl(num, 1))
    else None
  }

  function SuffixFor(reg: RegDesc, num: Word): string {
    if reg.hilo then (if num[0] then "h" else "l") else reg.suffix
  }

  function ShownNum(reg: RegDesc, num: Word): Word {
    if reg.hilo then Shr(num, 1) else num
  }

  /** The number `matchreg` is about to write for an expression: the first
      special register that answers to it, else the ordinary spelling. */
  function NamedNum(reg: RegDesc, e: Expr, specials: seq<SReg>, vi: VarInfo): Option<Word> {
    if specials == [] then (if e.Reg? then PlainNum(reg, e.name) else None)
    else if VarOk(specials[0].fmask, {}, vi) && SpecialText(specials[0].mode) == e then Some(specials[0].num)
    else NamedNum(reg, e, specials[1..], vi)
  }

  /** `matchreg` on a partly known opcode. */
  function MatchReg(reg: RegDesc, e: Expr, vi: VarInfo, a: Code, m: Code): Fill
    requires ValidReg(reg)
  {
    match NamedNum(reg, e, reg.specials, vi)
    case None => Fill(false, a, m)
    case Some(num) =>
      if reg.bf.Some? then SetBf(a, m, reg.bf.value, num) else Fill(num == Zero(), a, m)
  }

  /** Register names are unambiguous: no two active special registers share a
      text unless they are the same number, no special name reads as some other
      number's ordinary spelling, and a suffix cannot run into the number. */
  ghost predicate ClearNames(reg: RegDesc, vi: VarInfo) {
    && (forall i, j :: 0 <= i < |reg.specials| && 0 <= j < |reg.specials| ==>
          VarOk(reg.specials[i].fmask, {}, vi) && VarOk(reg.specials[j].fmask, {}, vi)
          && SpecialText(reg.specials[i].mode) == SpecialText(reg.specials[j].mode) ==>
          reg.specials[i].num == reg.specials[j].num)
    && (forall i :: 0 <= i < |reg.specials| ==>
          VarOk(reg.specials[i].fmask, {}, vi) && reg.specials[i].mode.Named? ==>
          PlainNum(reg, reg.specials[i].mode.name) in {None, Some(reg.specials[i].num)})
    && (reg.suffix == [] || !IsDigit(reg.suffix[0]))
    && StrToUll(reg.suffix) == (Zero(), reg.suffix)
    && (reg.bf.Some? ==> InjectiveLut(reg.bf.value))
  }

  /** `StrToUll` on the text between the register's prefix and its suffix. */
  lemma NumberPart(reg: RegDesc, shown: Word, suf: string)
    requires suf == [] || !IsDigit(suf[0])
    requires StrToUll(suf) == (Zero(), suf)
    requires reg.bf.None? ==> shown == Zero()
    ensures var text := if reg.bf.Some? then Lld(shown) + suf else suf;
            StrToUll(text) == (shown, suf)
  {
    if reg.bf.Some? {
      UllRoundTrip(shown, suf);
    }
  }

  lemma NoNumber(s: string)
    requires s != "" && !IsSpace(s[0]) && s[0] != '-' && s[0] != '+' && !IsDigit(s[0])
    ensures StrToUll(s) == (Zero(), s)
  {
    assert SkipSpace(s) == s;
  }

  lemma HiloSuffix(suf: string)
    requires suf == "h" || suf == "l"
    ensures StrToUll(suf) == (Zero(), suf) && !IsDigit(suf[0])
  {
    hide StrToUll;
    assert suf[0] == 'h' || suf[0] == 'l';
    NoNumber(suf);
  }

  lemma PlainRoundTrip(reg: RegDesc, num: Word)
    requires reg.suffix == [] || !IsDigit(reg.suffix[0])
    requires StrToUll(reg.suffix) == (Zero(), reg.suffix)
    requires reg.bf.None? ==> num == Zero()
    ensures PlainNum(reg, PlainText(reg, num)) == Some(num)
  {
    var suf, shown := SuffixFor(reg, num), ShownNum(reg, num);
    if reg.hilo {
      HiloSuffix(suf);
    }
    NumberPart(reg, shown, suf);
    SuffixBack(reg, num);
    var s := PlainText(reg, num);
    assert s[|reg.name|..] == if reg.bf.Some? then Lld(shown) + suf else suf;
  }

  lemma SuffixBack(reg: RegDesc, num: Word)
    ensures WithSuffix(reg, ShownNum(reg, num), SuffixFor(reg, num)) == Some(num)
  {
    HalfAndBack(num);
  }

  lemma HalfAndBack(num: Word)
    ensures num[0] ==> Words.Or(Shl(Shr(num, 1), 1), OneHot(0)) == num
    ensures !num[0] ==> Shl(Shr(num, 1), 1) == num
  {
  }

  /** The specials from `k` on give back the number that they were asked to
      print, and the specials before `k` do not answer to its text. */
  lemma {:induction false} NamesFrom(reg: RegDesc, num: Word, vi: VarInfo, k: nat, e: Expr)
    requires k <= |reg.specials| && ClearNames(reg, vi) && (reg.bf.None? ==> num == Zero())
    requires forall i :: 0 <= i < k ==> VarOk(reg.specials[i].fmask, {}, vi) ==> reg.specials[i].num != num
    requires e == PrintNum(reg, num, reg.specials[k..], vi)
    ensures NamedNum(reg, e, reg.specials[k..], vi) == Some(num)
    ensures forall i :: 0 <= i < k ==> VarOk(reg.specials[i].fmask, {}, vi) ==> SpecialText(reg.specials[i].mode) != e
    decreases |reg.specials| - k
  {
    var rest := reg.specials[k..];
    if k == |reg.specials| {
      PlainRoundTrip(reg, num);
    } else if VarOk(rest[0].fmask, {}, vi) && rest[0].num == num {
      assert rest[0] == reg.specials[k];
    } else {
      assert rest[1..] == reg.specials[k + 1..];
      NamesFrom(reg, num, vi, k + 1, e);
    }
  }

  /** What `printreg` prints, `matchreg` takes for the number that was printed. */
  lemma PrintedNameIsRead(reg: RegDesc, a: Code, vi: VarInfo)
    requires ValidReg(reg) && ClearNames(reg, vi)
    ensures NamedNum(reg, PrintReg(reg, a, vi), reg.specials, vi) == Some(RegNum(reg, a))
  {
    assert reg.specials[0..] == reg.specials;
    NamesFrom(reg, RegNum(reg, a), vi, 0, PrintReg(reg, a, vi));
  }
}
