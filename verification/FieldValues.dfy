/** What a field is worth, on numbers: which number its bits stand for in each sign mode,
    which numbers it can be given, and when a relocation fits. */
module FieldValues {
  import opened Options
  import opened Words
  import opened Exprs
  import opened Numbers
  import opened Fields
  import opened Relocs
  import opened Tables

  // ---------------------------------------------------------------------
  // The bits of a field
  // ---------------------------------------------------------------------

  /** The bits of a field, least significant first: `shr` clear ones and the two pieces. */
  function FieldBits(s0: Sbf, s1: Sbf, shr: nat, x: Code): (r: seq<bool>)
    requires FitsSbf(s0) && FitsSbf(s1)
    ensures |r| == Total(s0, s1, shr)
  {
    seq(shr, _ => false)
    + seq(s0.len, i requires 0 <= i < s0.len => BitOf(x, s0.pos + i))
    + seq(s1.len, i requires 0 <= i < s1.len => BitOf(x, s1.pos + i))
  }

  function FieldNumber(s0: Sbf, s1: Sbf, shr: nat, x: Code): (f: nat)
    requires FitsSbf(s0) && FitsSbf(s1)
    ensures f < Pow2(Total(s0, s1, shr))
  {
    Val(FieldBits(s0, s1, shr, x))
  }

  lemma RawNumber(s0: Sbf, s1: Sbf, shr: nat, x: Code)
    requires FitsSbf(s0) && FitsSbf(s1) && Total(s0, s1, shr) < 64
    ensures Val(Raw(s0, s1, shr, x)) == FieldNumber(s0, s1, shr, x)
  {
    hide Val, Raw;
    var raw, t := Raw(s0, s1, shr, x), Total(s0, s1, shr);
    RawHigh(s0, s1, shr, x);
    ValSplit(raw, t);
    ValClear(raw[t..]);
    forall i | 0 <= i < t ensures raw[..t][i] == FieldBits(s0, s1, shr, x)[i] {
      RawBit(s0, s1, shr, x, i);
    }
    assert raw[..t] == FieldBits(s0, s1, shr, x);
  }

  // ---------------------------------------------------------------------
  // Sign modes
  // ---------------------------------------------------------------------

  /** The numbers that a field of total width `t` can stand for. */
  ghost predicate InRange(mode: Mode, t: nat, n: int) {
    match mode
    case Unsigned => 0 <= n < Pow2(t)
    case Signed => t >= 1 && 0 - Pow2(t - 1) <= n < Pow2(t - 1)
    case SlightlySigned => t >= 2 && 0 - Pow2(t - 2) <= n < 3 * Pow2(t - 2)
    case UltraSigned => 0 - Pow2(t) <= n < 0
    case Lut(_) => false
  }

  /** Field bits worth `f` stand for `n`: the one number of the mode's range that differs
      from `f` by a multiple of 2^t, or the entry of the table. */
  ghost predicate StandsFor(mode: Mode, t: nat, f: nat, n: int) {
    if mode.Lut? then f < |mode.table| && n == Val(mode.table[f]) else InRange(mode, t, n) && n % Pow2(t) == f
  }

  lemma StandsForOne(mode: Mode, t: nat, f: nat, n: int, n': int)
    requires StandsFor(mode, t, f, n) && StandsFor(mode, t, f, n')
    ensures n == n'
  {
    if !mode.Lut? {
      RangeWidth(mode, t, n, n');
      Division(n, Pow2(t));
      Division(n', Pow2(t));
      SpreadOver(Pow2(t), n / Pow2(t), n' / Pow2(t));
      MultipleBound(Pow2(t), n / Pow2(t) - n' / Pow2(t));
    }
  }

  lemma SpreadOver(d: int, p: int, q: int)
    ensures d * (p - q) == d * p - d * q
  {
  }

  lemma RangeWidth(mode: Mode, t: nat, n: int, n': int)
    requires InRange(mode, t, n) && InRange(mode, t, n')
    ensures 0 - Pow2(t) < n - n' < Pow2(t)
  {
    if mode.SlightlySigned? {
      assert Pow2(t) == 2 * Pow2(t - 1) && Pow2(t - 1) == 2 * Pow2(t - 2);
    }
  }

  /** The two top bits of a number below 2^t. */
  lemma TopBits(w: Word, t: nat)
    requires 1 <= t < 64 && Val(w) < Pow2(t)
    ensures w[t - 1] <==> Val(w) >= Pow2(t - 1)
    ensures t >= 2 ==> (w[t - 1] && w[t - 2] <==> Val(w) >= 3 * Pow2(t - 2))
  {
    hide Val, Pow2;
    HighClear(w, t);
    TopBit(w, t - 1);
    if t >= 2 {
      assert w == w[..t - 1] + w[t - 1..];
      ValAppend(w[..t - 1], w[t - 1..]);
      OneBit(w[t - 1..]);
      TimesUnit(Pow2(t - 1), w[t - 1..][0]);
      TopBit(w[..t - 1], t - 2);
      DoublePower(t - 2);
    }
  }

  lemma OneBit(x: seq<bool>)
    requires x != [] && forall i :: 1 <= i < |x| ==> !x[i]
    ensures Val(x) == Unit(x[0])
  {
    ValClear(x[1..]);
  }

  lemma TopBit(w: seq<bool>, i: nat)
    requires i < |w| && forall k :: i < k < |w| ==> !w[k]
    ensures w[i] <==> Val(w) >= Pow2(i)
  {
    hide Val, Pow2;
    assert w == w[..i] + w[i..];
    ValAppend(w[..i], w[i..]);
    OneBit(w[i..]);
    TimesUnit(Pow2(i), w[i..][0]);
  }

  lemma TimesUnit(p: nat, b: bool)
    ensures p * Unit(b) == if b then p else 0
  {
  }

  lemma InterpretNumber(mode: Mode, t: nat, raw: Word) returns (n: int)
    requires t < 64 && Val(raw) < Pow2(t) && !mode.Lut?
    requires (mode.Signed? ==> 1 <= t) && (mode.SlightlySigned? ==> 2 <= t)
    ensures StandsFor(mode, t, Val(raw), n) && Val(Interpret(mode, t, raw)) == Wrap(n)
  {
    hide Val, Sub, OneHot;
    var f := Val(raw);
    if t >= 1 {
      TopBits(raw, t);
      assert Pow2(t) == 2 * Pow2(t - 1);
    }
    if t >= 2 {
      assert Pow2(t - 1) == 2 * Pow2(t - 2);
    }
    Quotient(f, Pow2(t), 0, f);
    Quotient(f, Pow2(64), 0, f);
    if mode.UltraSigned? || (mode.Signed? && raw[t - 1]) || (mode.SlightlySigned? && raw[t - 1] && raw[t - 2]) {
      n := f - Pow2(t);
      Quotient(n, Pow2(t), -1, f);
      LessPower(raw, t);
    } else {
      n := f;
    }
  }

  lemma LessPower(raw: Word, t: nat)
    requires t < 64
    ensures Val(Sub(raw, OneHot(t))) == Wrap(Val(raw) - Pow2(t))
  {
    hide Val, SubB;
    SubIsModular(raw, OneHot(t));
    OneHotValue(t);
  }

  // ---------------------------------------------------------------------
  // getbf
  // ---------------------------------------------------------------------

  lemma ReadNumber(bf: Bitfield, x: Code) returns (n: int)
    requires ValidBf(bf)
    ensures StandsFor(bf.mode, Total(bf.s0, bf.s1, bf.shr), FieldNumber(bf.s0, bf.s1, bf.shr, x), n)
    ensures Val(Raw(bf.s0, bf.s1, bf.shr, x)) == FieldNumber(bf.s0, bf.s1, bf.shr, x)
    ensures bf.mode.Lut? ==> Val(Raw(bf.s0, bf.s1, bf.shr, x)) < |bf.mode.table|
    ensures Val(Interpret(bf.mode, Total(bf.s0, bf.s1, bf.shr), Raw(bf.s0, bf.s1, bf.shr, x))) == Wrap(n)
  {
    hide Val, Raw, FieldNumber;
    RawFits(bf, x);
    RawNumber(bf.s0, bf.s1, bf.shr, x);
    var t, raw := Total(bf.s0, bf.s1, bf.shr), Raw(bf.s0, bf.s1, bf.shr, x);
    if bf.mode.Lut? {
      n := Val(bf.mode.table[Val(raw)]);
      Quotient(n, Pow2(64), 0, n);
    } else {
      n := InterpretNumber(bf.mode, t, raw);
    }
  }

  /** `getbf`: the number that the field bits stand for, with the bits of `xorend` flipped,
      plus `addend`, in 64 bits. */
  lemma FieldMeans(bf: Bitfield, x: Code) returns (n: int, m: nat)
    requires ValidBf(bf)
    ensures StandsFor(bf.mode, Total(bf.s0, bf.s1, bf.shr), FieldNumber(bf.s0, bf.s1, bf.shr, x), n)
    ensures m < Pow2(64) && forall i :: 0 <= i < 64 ==> (Bit(m, i) <==> Bit(n, i) != Bit(Val(bf.xorend), i))
    ensures bf.xorend == Zero() ==> m == Wrap(n)
    ensures Val(GetBf(bf, x)) == Wrap(m + Val(bf.addend))
  {
    hide Val, Raw, FieldNumber, Interpret, AddC, Bit, StandsFor;
    n := ReadNumber(bf, x);
    var v := Interpret(bf.mode, Total(bf.s0, bf.s1, bf.shr), Raw(bf.s0, bf.s1, bf.shr, x));
    var flipped := Xor(v, bf.xorend);
    m := Val(flipped);
    forall i | 0 <= i < 64 ensures Bit(m, i) <==> Bit(n, i) != Bit(Val(bf.xorend), i) {
      BitOfVal(flipped, i);
      BitOfVal(v, i);
      BitOfVal(bf.xorend, i);
      WrapKeepsBit(n, i);
    }
    if bf.xorend == Zero() {
      assert flipped == v;
    }
    AddIsModular(flipped, bf.addend);
  }

  /** A field without a bias reads as the number that its bits stand for. */
  lemma PlainFieldMeans(bf: Bitfield, x: Code) returns (n: int)
    requires ValidBf(bf) && bf.xorend == Zero() && bf.addend == Zero()
    ensures StandsFor(bf.mode, Total(bf.s0, bf.s1, bf.shr), FieldNumber(bf.s0, bf.s1, bf.shr, x), n)
    ensures Val(GetBf(bf, x)) == Wrap(n) && (bf.mode.Lut? || Int64(GetBf(bf, x)) == n)
  {
    hide Val, FieldNumber, GetBf;
    var m;
    n, m := FieldMeans(bf, x);
    ZeroValue();
    Quotient(m, Pow2(64), 0, m);
    if !bf.mode.Lut? {
      RangeFits(bf.mode, Total(bf.s0, bf.s1, bf.shr), n);
      SignedValue(GetBf(bf, x));
      WrapOnlyOne(Int64(GetBf(bf, x)), n);
    }
  }

  lemma RangeFits(mode: Mode, t: nat, n: int)
    requires t < 64 && InRange(mode, t, n)
    ensures 0 - Pow2(63) <= n < Pow2(63)
  {
    Pow2Grows(t, 63);
    if t >= 1 {
      assert Pow2(t) == 2 * Pow2(t - 1);
    }
    if t >= 2 {
      assert Pow2(t - 1) == 2 * Pow2(t - 2);
    }
  }

  lemma WrapOnlyOne(v: int, w: int)
    requires 0 - Pow2(63) <= v < Pow2(63) && 0 - Pow2(63) <= w < Pow2(63) && Wrap(v) == Wrap(w)
    ensures v == w
  {
    assert Pow2(64) == 2 * Pow2(63);
    var p, q := v / Pow2(64), w / Pow2(64);
    Division(v, Pow2(64));
    Division(w, Pow2(64));
    SpreadOver(Pow2(64), p, q);
    MultipleBound(Pow2(64), p - q);
  }

  /** The low 64 bits of a number are those of what 64 bits hold of it. */
  lemma WrapKeepsBit(n: int, i: nat)
    requires i < 64
    ensures Bit(Wrap(n), i) <==> Bit(n, i)
  {
    hide Pow2;
    Pow2Sum(i, 63 - i);
    Pow2Sum(1, 63);
    Pow2Sum(1, 0);
    OneDoubled();
    Division(n, Pow2(64));
    HigherParts(n, Wrap(n), Pow2(i), Pow2(63 - i), n / Pow2(64));
  }

  lemma OneDoubled()
    ensures Pow2(0) == 1 && Pow2(1) == 2
  {
  }

  lemma HigherParts(n: int, w: nat, a: nat, b: nat, q: int)
    requires a > 0 && n == 2 * (a * b) * q + w
    ensures n / a % 2 == w / a % 2
  {
    var u := b * q;
    assert 2 * (a * b) * q == a * (2 * u);
    Division(w, a);
    SumTimes(a, w / a, 2 * u);
    Quotient(n, a, w / a + 2 * u, w % a);
  }

  lemma SumTimes(a: int, p: int, q: int)
    ensures a * (p + q) == a * p + a * q
  {
  }

  // ---------------------------------------------------------------------
  // setbf
  // ---------------------------------------------------------------------

  predicate Disjoint(s0: Sbf, s1: Sbf) {
    s0.pos + s0.len <= s1.pos || s1.pos + s1.len <= s0.pos || s0.len == 0 || s1.len == 0
  }

  function WithPieces(s0: Sbf, s1: Sbf, lo: seq<bool>, hi: seq<bool>, b: nat): bool
    requires |lo| == s0.len && |hi| == s1.len
  {
    if s0.pos <= b < s0.pos + s0.len then lo[b - s0.pos]
    else if s1.pos <= b < s1.pos + s1.len then hi[b - s1.pos]
    else false
  }

  lemma OpcodeOf(s0: Sbf, s1: Sbf, lo: seq<bool>, hi: seq<bool>) returns (x: Code)
    requires |lo| == s0.len && |hi| == s1.len
    ensures forall b :: 0 <= b < 128 ==> BitOf(x, b) == WithPieces(s0, s1, lo, hi, b)
  {
    hide WithPieces;
    x := [seq(64, i requires 0 <= i < 64 => WithPieces(s0, s1, lo, hi, i)),
          seq(64, i requires 0 <= i < 64 => WithPieces(s0, s1, lo, hi, 64 + i))];
    forall b | 0 <= b < 128 ensures BitOf(x, b) == WithPieces(s0, s1, lo, hi, b) {
      WordOf(b);
    }
  }

  lemma OpcodeWith(s0: Sbf, s1: Sbf, lo: seq<bool>, hi: seq<bool>) returns (x: Code)
    requires FitsSbf(s0) && FitsSbf(s1) && Disjoint(s0, s1) && |lo| == s0.len && |hi| == s1.len
    ensures forall i :: 0 <= i < s0.len ==> BitOf(x, s0.pos + i) == lo[i]
    ensures forall i :: 0 <= i < s1.len ==> BitOf(x, s1.pos + i) == hi[i]
  {
    hide BitOf;
    x := OpcodeOf(s0, s1, lo, hi);
  }

  lemma WordOf(b: nat)
    requires b < 128
    ensures if b < 64 then b / 64 == 0 && b % 64 == b else b / 64 == 1 && b % 64 == b - 64
  {
  }

  /** Every number with clear low bits stands in some opcode. */
  lemma SomeOpcode(s0: Sbf, s1: Sbf, shr: nat, f: nat) returns (x: Code)
    requires FitsSbf(s0) && FitsSbf(s1) && Disjoint(s0, s1)
    requires f < Pow2(Total(s0, s1, shr)) && f % Pow2(shr) == 0
    ensures FieldNumber(s0, s1, shr, x) == f
  {
    hide Val, Pow2, Bits, BitOf;
    var bits := Bits(f, Total(s0, s1, shr));
    ValBits(f, Total(s0, s1, shr));
    ValSplit(bits, shr);
    SameVal(bits[..shr], ClearBits(shr));
    x := OpcodeWith(s0, s1, bits[shr..][..s0.len], bits[shr..][s0.len..]);
    ThreeParts(bits, shr, s0.len);
    assert FieldBits(s0, s1, shr, x) == ClearBits(shr) + bits[shr..][..s0.len] + bits[shr..][s0.len..];
  }

  lemma ThreeParts(x: seq<bool>, m: nat, n: nat)
    requires m + n <= |x|
    ensures x == x[..m] + x[m..][..n] + x[m..][n..]
  {
  }

  function ClearBits(n: nat): (r: seq<bool>)
    ensures |r| == n && Val(r) == 0
  {
    ValClear(seq(n, _ => false));
    seq(n, _ => false)
  }

  /** The range check of an unbiased field, when no bit of it is fixed: a number is
      accepted exactly if it is in the mode's range and its low `shr` bits are clear. */
  lemma AcceptedNumbers(bf: Bitfield, num: Word)
    requires ValidBf(bf) && !bf.mode.Lut? && bf.xorend == Zero() && bf.addend == Zero() && Disjoint(bf.s0, bf.s1)
    ensures SetBf(Blank(), Blank(), bf, num).ok <==>
            InRange(bf.mode, Total(bf.s0, bf.s1, bf.shr), Int64(num)) && Int64(num) % Pow2(bf.shr) == 0
  {
    hide SetBf, GetBf, FieldNumber, InRange, Wrap, Int64;
    SetBfExact(Blank(), Blank(), bf, num);
    if SetBf(Blank(), Blank(), bf, num).ok {
      var x :| GetBf(bf, x) == num;
      NumberInRange(bf, x);
    }
    if InRange(bf.mode, Total(bf.s0, bf.s1, bf.shr), Int64(num)) && Int64(num) % Pow2(bf.shr) == 0 {
      var x := NumberReached(bf, num);
      assert Agrees(x, Blank(), Blank());
    }
  }

  lemma NumberInRange(bf: Bitfield, x: Code)
    requires ValidBf(bf) && !bf.mode.Lut? && bf.xorend == Zero() && bf.addend == Zero()
    ensures InRange(bf.mode, Total(bf.s0, bf.s1, bf.shr), Int64(GetBf(bf, x)))
    ensures Int64(GetBf(bf, x)) % Pow2(bf.shr) == 0
  {
    hide GetBf, InRange, Int64, Pow2, Val;
    var n := PlainFieldMeans(bf, x);
    var t := Total(bf.s0, bf.s1, bf.shr);
    FieldAligned(bf.s0, bf.s1, bf.shr, x);
    Pow2Sum(bf.shr, t - bf.shr);
    AlignedAlike(n, FieldNumber(bf.s0, bf.s1, bf.shr, x), Pow2(bf.shr), Pow2(t - bf.shr));
  }

  /** Numbers that agree modulo 2^t agree modulo a smaller power. */
  lemma AlignedAlike(n: int, f: int, d: nat, e: nat)
    requires d > 0 && e > 0 && d * e > 0 && n % (d * e) == f
    ensures n % d == f % d
  {
    Division(n, d * e);
    var q := n / (d * e);
    assert d * e * q == d * (e * q);
    SameRemainder(n, f, d, e * q);
  }

  lemma FieldAligned(s0: Sbf, s1: Sbf, shr: nat, x: Code)
    requires FitsSbf(s0) && FitsSbf(s1)
    ensures FieldNumber(s0, s1, shr, x) % Pow2(shr) == 0
  {
    hide Val, Pow2;
    var bits := FieldBits(s0, s1, shr, x);
    ValSplit(bits, shr);
    ValClear(bits[..shr]);
  }

  lemma NumberReached(bf: Bitfield, num: Word) returns (x: Code)
    requires ValidBf(bf) && !bf.mode.Lut? && bf.xorend == Zero() && bf.addend == Zero() && Disjoint(bf.s0, bf.s1)
    requires InRange(bf.mode, Total(bf.s0, bf.s1, bf.shr), Int64(num)) && Int64(num) % Pow2(bf.shr) == 0
    ensures GetBf(bf, x) == num
  {
    hide GetBf, Pow2, Val, Int64, FieldNumber, InRange;
    var t := Total(bf.s0, bf.s1, bf.shr);
    var n := Int64(num);
    var f := n % Pow2(t);
    Pow2Sum(bf.shr, t - bf.shr);
    AlignedAlike(n, f, Pow2(bf.shr), Pow2(t - bf.shr));
    x := SomeOpcode(bf.s0, bf.s1, bf.shr, f);
    var n' := PlainFieldMeans(bf, x);
    StandsForOne(bf.mode, t, f, n, n');
    SignedValue(num);
    SameVal(GetBf(bf, x), num);
  }

  // ---------------------------------------------------------------------
  // getrbf and the filling of relocations
  // ---------------------------------------------------------------------

  /** The position that a position-relative field counts from, rounded down to a multiple
      of 2^shr. */
  function BaseNumber(bf: RBitfield, pos: nat): (b: int) {
    if bf.pcrel then Wrap(pos + Val(bf.pospreadd)) / Pow2(bf.shr) * Pow2(bf.shr) else 0
  }

  lemma PosBaseNumber(bf: RBitfield, pos: Word)
    requires ValidRbf(bf) && bf.pcrel
    ensures Val(PosBase(bf, pos)) == BaseNumber(bf, Val(pos))
  {
    hide Val, AddC, Pow2, And;
    AddIsModular(pos, bf.pospreadd);
    MaskLowValue(Add(pos, bf.pospreadd), bf.shr);
  }

  lemma WrapSum(v: int, w: int)
    ensures Wrap(Wrap(v) + w) == Wrap(v + w) == Wrap(v + Wrap(w))
  {
    hide Pow2;
    Division(v, Pow2(64));
    Division(w, Pow2(64));
    SameRemainder(v + w, Wrap(v) + w, Pow2(64), v / Pow2(64));
    SameRemainder(v + w, v + Wrap(w), Pow2(64), w / Pow2(64));
  }

  /** `getrbf`: the number that the field bits stand for, plus the position that it counts
      from and `addend`, in 64 bits. */
  lemma TargetMeans(bf: RBitfield, x: Code, pos: Word) returns (n: int)
    requires ValidRbf(bf)
    ensures StandsFor(bf.mode, FieldTotal(bf), FieldNumber(bf.s0, bf.s1, bf.shr, x), n)
    ensures Val(GetRbfAs(bf, x, pos)) == Wrap(n + BaseNumber(bf, Val(pos)) + Val(bf.addend))
  {
    hide Val, Raw, FieldNumber, Interpret, AddC, BaseNumber, PosBase, Wrap, StandsFor;
    RawNumber(bf.s0, bf.s1, bf.shr, x);
    n := InterpretNumber(bf.mode, FieldTotal(bf), Raw(bf.s0, bf.s1, bf.shr, x));
    var res := RawValue(bf, x);
    if bf.pcrel {
      PosBaseNumber(bf, pos);
      AddNumber(res, PosBase(bf, pos));
      WrapSum(n, Val(PosBase(bf, pos)));
      AddNumber(Add(res, PosBase(bf, pos)), bf.addend);
      WrapSum(n + Val(PosBase(bf, pos)), Val(bf.addend));
    } else {
      NoBase(bf, Val(pos));
      AddNumber(res, bf.addend);
      WrapSum(n, Val(bf.addend));
    }
  }

  lemma NoBase(bf: RBitfield, pos: nat)
    ensures !bf.pcrel ==> BaseNumber(bf, pos) == 0
  {
  }

  lemma AddNumber(x: Word, y: Word)
    ensures Val(Add(x, y)) == Wrap(Val(x) + Val(y))
  {
    hide Val, AddC;
    AddIsModular(x, y);
  }

  /** The value asked for and the value the field gives agree: modulo the field's width for
      a field that is allowed to wrap, and in all 64 bits otherwise. */
  ghost predicate Close(bf: RBitfield, v: nat, w: nat)
    requires ValidRbf(bf)
  {
    if bf.wrapok then v % Pow2(FieldTotal(bf)) == w % Pow2(FieldTotal(bf)) else v == w
  }

  lemma CheckedBits(bf: RBitfield, v: Word, w: Word)
    requires ValidRbf(bf)
    ensures And(v, CheckMask(bf)) == And(w, CheckMask(bf)) <==> Close(bf, Val(v), Val(w))
  {
    hide Val, Pow2;
    if bf.wrapok {
      var t := FieldTotal(bf);
      MaskHighValue(v, t);
      MaskHighValue(w, t);
      if Close(bf, Val(v), Val(w)) {
        SameVal(And(v, Ones(t)), And(w, Ones(t)));
      }
    } else {
      assert And(v, AllOnes()) == v && And(w, AllOnes()) == w;
      if Val(v) == Val(w) {
        SameVal(v, w);
      }
    }
  }

  /** The opcode `x` goes, at `pos`, to `val`. */
  ghost predicate GoesTo(bf: RBitfield, x: Code, pos: nat, val: nat)
    requires ValidRbf(bf)
  {
    exists n :: StandsFor(bf.mode, FieldTotal(bf), FieldNumber(bf.s0, bf.s1, bf.shr, x), n)
                && Close(bf, Wrap(n + BaseNumber(bf, pos) + Val(bf.addend)), val)
  }

  lemma GoesWhere(bf: RBitfield, x: Code, pos: Word, val: Word)
    requires ValidRbf(bf)
    ensures And(GetRbfAs(bf, x, pos), CheckMask(bf)) == And(val, CheckMask(bf)) <==> GoesTo(bf, x, Val(pos), Val(val))
  {
    hide Val, FieldNumber, GetRbfAs, CheckMask, Close, Wrap, BaseNumber, StandsFor;
    var n := TargetMeans(bf, x, pos);
    CheckedBits(bf, GetRbfAs(bf, x, pos), val);
    forall n' | StandsFor(bf.mode, FieldTotal(bf), FieldNumber(bf.s0, bf.s1, bf.shr, x), n') ensures n' == n {
      StandsForOne(bf.mode, FieldTotal(bf), FieldNumber(bf.s0, bf.s1, bf.shr, x), n, n');
    }
  }

  /** A relocation fits exactly if some opcode of the set goes to the value, and what is
      left are exactly the opcodes that do. */
  lemma RelocationNumbers(a: Code, m: Code, bf: RBitfield, val: Word, pos: Word)
    requires ValidRbf(bf) && Tidy(a, m)
    ensures var r := FillRbf(a, m, bf, val, pos);
            && (r.ok <==> exists x :: Agrees(x, a, m) && GoesTo(bf, x, Val(pos), Val(val)))
            && (r.ok ==> forall x :: Agrees(x, r.a, r.m) <==> Agrees(x, a, m) && GoesTo(bf, x, Val(pos), Val(val)))
  {
    hide Val, FillRbf, GoesTo, GetRbfAs, CheckMask, Agrees, And;
    FillExact(a, m, bf, val, pos);
    forall x
      ensures And(GetRbfAs(bf, x, pos), CheckMask(bf)) == And(val, CheckMask(bf)) <==>
              GoesTo(bf, x, Val(pos), Val(val))
    {
      GoesWhere(bf, x, pos, val);
    }
  }

  lemma WrapMove(n: int, k: int, v: nat)
    requires v < Pow2(64)
    ensures Wrap(n + k) == v <==> Wrap(n) == Wrap(v - k)
  {
    hide Wrap, Pow2;
    WrapSum(n + k, -k);
    WrapSum(v - k, k);
    WrapSum(n, k);
    WrapSmall(v);
  }

  lemma WrapSmall(v: nat)
    requires v < Pow2(64)
    ensures Wrap(v) == v
  {
    hide Pow2;
    Quotient(v, Pow2(64), 0, v);
  }

  /** How far a field of which no bit is fixed reaches: a target is accepted exactly if its
      distance from where the field counts from is in the mode's range and a multiple
      of 2^shr. */
  lemma ReachableTargets(bf: RBitfield, val: Word, pos: Word)
    requires ValidRbf(bf) && !bf.wrapok && Disjoint(bf.s0, bf.s1)
    ensures FillRbf(Blank(), Blank(), bf, val, pos).ok <==>
            exists n :: InRange(bf.mode, FieldTotal(bf), n) && n % Pow2(bf.shr) == 0
                        && Wrap(n) == Wrap(Val(val) - (BaseNumber(bf, Val(pos)) + Val(bf.addend)))
  {
    hide Val, FillRbf, FieldNumber, Pow2, Wrap, InRange, BaseNumber;
    var k := BaseNumber(bf, Val(pos)) + Val(bf.addend);
    if FillRbf(Blank(), Blank(), bf, val, pos).ok {
      var n := DistanceOf(bf, val, pos);
      WrapMove(n, k, Val(val));
    }
    forall n | InRange(bf.mode, FieldTotal(bf), n) && n % Pow2(bf.shr) == 0 && Wrap(n) == Wrap(Val(val) - k)
      ensures FillRbf(Blank(), Blank(), bf, val, pos).ok
    {
      WrapMove(n, k, Val(val));
      DistanceFits(bf, val, pos, n);
    }
  }

  lemma DistanceOf(bf: RBitfield, val: Word, pos: Word) returns (n: int)
    requires ValidRbf(bf) && !bf.wrapok && FillRbf(Blank(), Blank(), bf, val, pos).ok
    ensures InRange(bf.mode, FieldTotal(bf), n) && n % Pow2(bf.shr) == 0
    ensures Wrap(n + (BaseNumber(bf, Val(pos)) + Val(bf.addend))) == Val(val)
  {
    hide Val, FillRbf, FieldNumber, Pow2, Wrap, InRange, BaseNumber;
    RelocationNumbers(Blank(), Blank(), bf, val, pos);
    var x :| GoesTo(bf, x, Val(pos), Val(val));
    n :| StandsFor(bf.mode, FieldTotal(bf), FieldNumber(bf.s0, bf.s1, bf.shr, x), n)
         && Close(bf, Wrap(n + BaseNumber(bf, Val(pos)) + Val(bf.addend)), Val(val));
    DistanceAligned(bf, x, n);
  }

  lemma DistanceFits(bf: RBitfield, val: Word, pos: Word, n: int)
    requires ValidRbf(bf) && !bf.wrapok && Disjoint(bf.s0, bf.s1)
    requires InRange(bf.mode, FieldTotal(bf), n) && n % Pow2(bf.shr) == 0
    requires Wrap(n + (BaseNumber(bf, Val(pos)) + Val(bf.addend))) == Val(val)
    ensures FillRbf(Blank(), Blank(), bf, val, pos).ok
  {
    hide Val, FillRbf, FieldNumber, Pow2, Wrap, InRange, BaseNumber;
    RelocationNumbers(Blank(), Blank(), bf, val, pos);
    var x := DistanceReached(bf, n);
    assert Close(bf, Wrap(n + BaseNumber(bf, Val(pos)) + Val(bf.addend)), Val(val));
    assert Agrees(x, Blank(), Blank()) && GoesTo(bf, x, Val(pos), Val(val));
  }

  lemma DistanceAligned(bf: RBitfield, x: Code, n: int)
    requires ValidRbf(bf) && StandsFor(bf.mode, FieldTotal(bf), FieldNumber(bf.s0, bf.s1, bf.shr, x), n)
    ensures InRange(bf.mode, FieldTotal(bf), n) && n % Pow2(bf.shr) == 0
  {
    hide Val, FieldNumber, Pow2, InRange;
    FieldAligned(bf.s0, bf.s1, bf.shr, x);
    Pow2Sum(bf.shr, FieldTotal(bf) - bf.shr);
    AlignedAlike(n, FieldNumber(bf.s0, bf.s1, bf.shr, x), Pow2(bf.shr), Pow2(FieldTotal(bf) - bf.shr));
  }

  lemma DistanceReached(bf: RBitfield, n: int) returns (x: Code)
    requires ValidRbf(bf) && Disjoint(bf.s0, bf.s1) && InRange(bf.mode, FieldTotal(bf), n) && n % Pow2(bf.shr) == 0
    ensures StandsFor(bf.mode, FieldTotal(bf), FieldNumber(bf.s0, bf.s1, bf.shr, x), n)
  {
    hide Val, FieldNumber, Pow2, InRange;
    var t := FieldTotal(bf);
    Pow2Sum(bf.shr, t - bf.shr);
    AlignedAlike(n, n % Pow2(t), Pow2(bf.shr), Pow2(t - bf.shr));
    x := SomeOpcode(bf.s0, bf.s1, bf.shr, n % Pow2(t));
  }
}
