/** The operands of a macro word: the fields that the table names and the shifts and
    masks of the simulator read the same registers and numbers. */
module MacroOperands {
  import opened Words
  import opened Exprs
  import opened Fields
  import opened Relocs
  import opened Registers
  import opened Tables
  import MacroIsa
  import MacroDecode
  import opened MacroAgree

  // ---------------------------------------------------------------------
  // The number that some low bits are
  // ---------------------------------------------------------------------

  /** A bit: its index, the mask of the bits below it, its own mask and its weight. */
  datatype Place = Place(k: bv5, low: bv32, bit: bv32, weight: nat)

  /** The places of the widest field, and one more. */
  function PlaceAt(k: nat): Place {
    match k
    case 0 => Place(0, 0x0, 0x1, 0x1)
    case 1 => Place(1, 0x1, 0x2, 0x2)
    case 2 => Place(2, 0x3, 0x4, 0x4)
    case 3 => Place(3, 0x7, 0x8, 0x8)
    case 4 => Place(4, 0xf, 0x10, 0x10)
    case 5 => Place(5, 0x1f, 0x20, 0x20)
    case 6 => Place(6, 0x3f, 0x40, 0x40)
    case 7 => Place(7, 0x7f, 0x80, 0x80)
    case 8 => Place(8, 0xff, 0x100, 0x100)
    case 9 => Place(9, 0x1ff, 0x200, 0x200)
    case 10 => Place(10, 0x3ff, 0x400, 0x400)
    case 11 => Place(11, 0x7ff, 0x800, 0x800)
    case 12 => Place(12, 0xfff, 0x1000, 0x1000)
    case 13 => Place(13, 0x1fff, 0x2000, 0x2000)
    case 14 => Place(14, 0x3fff, 0x4000, 0x4000)
    case 15 => Place(15, 0x7fff, 0x8000, 0x8000)
    case 16 => Place(16, 0xffff, 0x10000, 0x10000)
    case 17 => Place(17, 0x1ffff, 0x20000, 0x20000)
    case _ => Place(18, 0x3ffff, 0x40000, 0x40000)
  }

  /** The low `k` bits. */
  function Below(k: nat): bv32 { PlaceAt(k).low }

  /** Some bits of a word, as a number. */
  function Part(c: bv32, mask: bv32): nat { (c & mask) as nat }

  /** What taking one place away from some low bits does to their number. */
  predicate Peels(c: bv32, high: bv32, low: bv32, bit: bv32, k: bv5, weight: nat) {
    && Part(c, high) == Part(c, low) + Part(c, bit)
    && Part(c, bit) == if MacroIsa.BitAt(c, k) then weight else 0
  }

  lemma Peels0(c: bv32)
    ensures Peels(c, 0x1, 0x0, 0x1, 0, 0x1)
    ensures Peels(c, 0x3, 0x1, 0x2, 1, 0x2)
    ensures Peels(c, 0x7, 0x3, 0x4, 2, 0x4)
    ensures Peels(c, 0xf, 0x7, 0x8, 3, 0x8)
    ensures Peels(c, 0x1f, 0xf, 0x10, 4, 0x10)
    ensures Peels(c, 0x3f, 0x1f, 0x20, 5, 0x20)
  {
  }

  lemma Peels6(c: bv32)
    ensures Peels(c, 0x7f, 0x3f, 0x40, 6, 0x40)
    ensures Peels(c, 0xff, 0x7f, 0x80, 7, 0x80)
    ensures Peels(c, 0x1ff, 0xff, 0x100, 8, 0x100)
    ensures Peels(c, 0x3ff, 0x1ff, 0x200, 9, 0x200)
    ensures Peels(c, 0x7ff, 0x3ff, 0x400, 10, 0x400)
    ensures Peels(c, 0xfff, 0x7ff, 0x800, 11, 0x800)
  {
  }

  lemma Peels12(c: bv32)
    ensures Peels(c, 0x1fff, 0xfff, 0x1000, 12, 0x1000)
    ensures Peels(c, 0x3fff, 0x1fff, 0x2000, 13, 0x2000)
    ensures Peels(c, 0x7fff, 0x3fff, 0x4000, 14, 0x4000)
    ensures Peels(c, 0xffff, 0x7fff, 0x8000, 15, 0x8000)
    ensures Peels(c, 0x1ffff, 0xffff, 0x10000, 16, 0x10000)
    ensures Peels(c, 0x3ffff, 0x1ffff, 0x20000, 17, 0x20000)
  {
  }

  lemma PlaceIndex(k: nat)
    requires k < 18
    ensures PlaceAt(k).k == k as bv5
  {
  }

  lemma PlaceWeight(k: nat)
    requires k < 18
    ensures PlaceAt(k).weight == Pow2(k)
  {
  }

  lemma Peel(c: bv32, k: nat)
    requires k < 18
    ensures var p := PlaceAt(k); Peels(c, Below(k + 1), p.low, p.bit, p.k, p.weight)
  {
    hide Peels;
    if k < 6 {
      Peels0(c);
    } else if k < 12 {
      Peels6(c);
    } else {
      Peels12(c);
    }
  }

  /** The low bits of a word. */
  function LowBits(c: bv32, k: nat): (r: seq<bool>)
    requires k <= 32
    ensures |r| == k && forall i :: 0 <= i < k ==> r[i] == MacroIsa.Bit(c, i)
  {
    seq(k, i requires 0 <= i < k => MacroIsa.Bit(c, i))
  }

  lemma LowSnoc(c: bv32, k: nat)
    requires k < 18
    ensures LowBits(c, k + 1) == LowBits(c, k) + [MacroIsa.Bit(c, k)]
    ensures Part(c, Below(k + 1)) == Part(c, Below(k)) + Unit(MacroIsa.Bit(c, k)) * Pow2(k)
  {
    hide Part, PlaceAt, Pow2, MacroIsa.BitAt;
    Peel(c, k);
    PlaceIndex(k);
    PlaceWeight(k);
  }

  lemma {:induction false} ValSnoc(x: seq<bool>, b: bool)
    ensures Val(x + [b]) == Val(x) + Unit(b) * Pow2(|x|)
  {
    if x == [] {
      assert [b][1..] == [] && [] + [b] == [b];
    } else {
      assert (x + [b])[1..] == x[1..] + [b];
      ValSnoc(x[1..], b);
    }
  }

  lemma AddedBit(x: seq<bool>, y: seq<bool>, b: bool, v: nat, w: nat, p: nat)
    requires x == y + [b] && Val(y) == v && w == v + Unit(b) * p && p == Pow2(|y|)
    ensures Val(x) == w
  {
    hide Val, Pow2;
    ValSnoc(y, b);
  }

  lemma NoBits(c: bv32)
    ensures LowBits(c, 0) == [] && Val([]) == 0 && Part(c, Below(0)) == 0
  {
  }

  /** They are worth, as bits, what the masked word is as a number. */
  lemma {:induction false} LowValue(c: bv32, k: nat)
    requires k <= 18
    ensures Val(LowBits(c, k)) == Part(c, Below(k))
  {
    hide Part, Val, Pow2, Below, LowBits, MacroIsa.Bit;
    if k == 0 {
      NoBits(c);
    } else {
      LowValue(c, k - 1);
      LowSnoc(c, k - 1);
      AddedBit(LowBits(c, k), LowBits(c, k - 1), MacroIsa.Bit(c, k - 1),
               Part(c, Below(k - 1)), Part(c, Below(k)), Pow2(k - 1));
    }
  }

  // ---------------------------------------------------------------------
  // Fields
  // ---------------------------------------------------------------------

  predicate ShiftAt(c: bv32, p: bv5, k: bv5) { MacroIsa.BitAt(c >> p, k) == MacroIsa.BitAt(c, p + k) }

  lemma ShiftBit(c: bv32, p: bv5, k: bv5)
    requires p <= 31 - k
    ensures ShiftAt(c, p, k)
  {
  }

  lemma IndexBack(p: nat)
    requires p < 32
    ensures (p as bv5) as nat == p
  {
  }

  lemma IndexSum(a: bv5, b: bv5)
    requires a as nat + b as nat < 32
    ensures a <= 31 - b && (a + b) as nat == a as nat + b as nat
  {
  }

  lemma SmallSum(p: nat, i: nat)
    requires p + i < 32
    ensures p as bv5 + i as bv5 == (p + i) as bv5 && p as bv5 <= 31 - i as bv5
  {
    IndexBack(p);
    IndexBack(i);
    IndexSum(p as bv5, i as bv5);
    SmallIndex(p as bv5 + i as bv5);
  }

  lemma {:induction false} HighClear(x: seq<bool>, n: nat)
    requires n <= |x| && forall i :: n <= i < |x| ==> !x[i]
    ensures Val(x) == Val(x[..n])
  {
    if n == 0 {
      if x != [] {
        HighClear(x[1..], 0);
        assert x[1..][..0] == [] && x[..0] == [];
      }
    } else {
      HighClear(x[1..], n - 1);
      assert x[1..][..n - 1] == x[..n][1..];
    }
  }

  lemma ShiftedBit(c: bv32, pos: nat, i: nat)
    requires pos + i < 32
    ensures MacroIsa.Bit(c >> (pos as bv5), i) == MacroIsa.Bit(c, pos + i)
  {
    hide MacroIsa.BitAt;
    SmallSum(pos, i);
    ShiftBit(c, pos as bv5, i as bv5);
  }

  /** A field of one piece in the low half of an opcode. */
  lemma FieldBits(x: Code, c: bv32, pos: nat, len: nat)
    requires LowHalf(x, c) && pos < 32 && pos + len <= 32 && len <= 18
    ensures forall i :: 0 <= i < 64 ==>
              Raw(Sbf(pos, len), Sbf(0, 0), 0, x)[i] == (i < len && MacroIsa.Bit(c >> (pos as bv5), i))
  {
    hide MacroIsa.Bit, ReadSbf;
    forall i | 0 <= i < 64 ensures !ReadSbf(Sbf(0, 0), x)[i] {
      ReadSbfBit(Sbf(0, 0), x, i);
    }
    forall i | 0 <= i < 64
      ensures ReadSbf(Sbf(pos, len), x)[i] == (i < len && MacroIsa.Bit(c >> (pos as bv5), i))
    {
      ReadSbfBit(Sbf(pos, len), x, i);
      if i < len {
        ShiftedBit(c, pos, i);
        assert BitOf(x, pos + i) == x[0][pos + i];
      }
    }
  }

  lemma ShiftedField(x: Code, c: bv32, d: bv32, pos: nat, len: nat)
    requires LowHalf(x, c) && pos < 32 && pos + len <= 32 && 0 < len <= 18 && d == c >> (pos as bv5)
    ensures Val(Raw(Sbf(pos, len), Sbf(0, 0), 0, x)) == Part(d, Below(len))
  {
    hide Raw, Val, Part, Below, MacroIsa.Bit, LowHalf;
    var raw := Raw(Sbf(pos, len), Sbf(0, 0), 0, x);
    FieldBits(x, c, pos, len);
    HighClear(raw, len);
    assert raw[..len] == LowBits(d, len);
    LowValue(d, len);
  }

  lemma SameShift(c: bv32, pos: nat, k: bv5)
    requires k as nat == pos && pos < 32
    ensures c >> (pos as bv5) == c >> k
  {
    SmallIndex(k);
  }

  /** What is read from it. */
  lemma FieldNumber(x: Code, c: bv32, pos: nat, k: bv5, len: nat)
    requires LowHalf(x, c) && k as nat == pos && pos + len <= 32 && 0 < len <= 18
    ensures Val(Raw(Sbf(pos, len), Sbf(0, 0), 0, x)) == Part(c >> k, Below(len))
  {
    hide Raw, Val, Part, Below, LowHalf;
    SameShift(c, pos, k);
    ShiftedField(x, c, c >> k, pos, len);
  }

  lemma FieldTop(x: Code, c: bv32, pos: nat, len: nat)
    requires LowHalf(x, c) && pos < 32 && pos + len <= 32 && 0 < len <= 18
    ensures Raw(Sbf(pos, len), Sbf(0, 0), 0, x)[len - 1] == MacroIsa.Bit(c, pos + len - 1)
  {
    hide Raw, MacroIsa.Bit, LowHalf;
    FieldBits(x, c, pos, len);
    ShiftedBit(c, pos, len - 1);
  }

  // ---------------------------------------------------------------------
  // The operands
  // ---------------------------------------------------------------------

  /** An unsigned field of the table. */
  lemma PlainValue(x: Code, c: bv32, pos: nat, k: bv5, len: nat, low: bv32)
    requires LowHalf(x, c) && k as nat == pos && pos + len <= 32 && 0 < len <= 18 && low == Below(len)
    ensures Val(GetBf(MacroIsa.Plain(pos, len), x)) == Part(c >> k, low)
  {
    hide Val, Part, Below, LowHalf, Raw;
    FieldNumber(x, c, pos, k, len);
    var raw := Raw(Sbf(pos, len), Sbf(0, 0), 0, x);
    assert Xor(raw, Zero()) == raw;
    AddZero(raw, Zero());
  }

  /** Registers. */
  lemma SameRegisters(x: Code, c: bv32)
    requires LowHalf(x, c)
    ensures Val(GetBf(MacroIsa.Plain(8, 3), x)) == MacroDecode.Reg1(c)
    ensures Val(GetBf(MacroIsa.Plain(11, 3), x)) == MacroDecode.Reg2(c)
    ensures Val(GetBf(MacroIsa.Plain(14, 3), x)) == MacroDecode.Reg3(c)
  {
    hide Val, GetBf, LowHalf;
    PlainValue(x, c, 8, 8, 3, 7);
    PlainValue(x, c, 11, 11, 3, 7);
    PlainValue(x, c, 14, 14, 3, 7);
  }

  /** Bit positions and sizes. */
  lemma SamePositions(x: Code, c: bv32)
    requires LowHalf(x, c)
    ensures Val(GetBf(MacroIsa.Plain(17, 5), x)) == MacroDecode.SrcPos(c)
    ensures Val(GetBf(MacroIsa.Plain(22, 5), x)) == MacroDecode.Size(c)
    ensures Val(GetBf(MacroIsa.Plain(27, 5), x)) == MacroDecode.DstPos(c)
  {
    hide Val, GetBf, LowHalf;
    PlainValue(x, c, 17, 17, 5, 0x1f);
    PlainValue(x, c, 22, 22, 5, 0x1f);
    PlainValue(x, c, 27, 27, 5, 0x1f);
  }

  lemma {:induction false} NoValue(x: seq<bool>)
    requires forall i :: 0 <= i < |x| ==> !x[i]
    ensures Val(x) == 0
  {
    if x != [] {
      NoValue(x[1..]);
    }
  }

  lemma OneHotValue(n: nat)
    requires n < 64
    ensures Val(OneHot(n)) == Pow2(n)
  {
    hide Val, Pow2;
    var h := OneHot(n);
    HighClear(h, n + 1);
    assert h[..n + 1] == h[..n] + [true];
    ValSnoc(h[..n], true);
    NoValue(h[..n]);
  }

  function Top18(c: bv32): int { (c >> 14) as int }

  predicate Negative(c: bv32) { c & 0x8000_0000 != 0 }

  lemma TopBits(c: bv32, k: bv5, low: bv32)
    requires k == 14 && low == 0x3ffff
    ensures Part(c >> k, low) == Top18(c)
  {
  }

  lemma TopBit(c: bv32)
    ensures MacroIsa.BitAt(c, 31) == Negative(c)
  {
  }

  lemma TopIndex(c: bv32)
    ensures MacroIsa.Bit(c, 31) == MacroIsa.BitAt(c, 31)
  {
  }

  lemma ImmediateBits(x: Code, c: bv32)
    requires LowHalf(x, c)
    ensures Val(Raw(Sbf(14, 18), Sbf(0, 0), 0, x)) == Top18(c)
    ensures Raw(Sbf(14, 18), Sbf(0, 0), 0, x)[17] == Negative(c)
  {
    hide Val, LowHalf, Raw, Part, Below, MacroIsa.BitAt, MacroIsa.Bit, Top18, Negative;
    Masks();
    FieldNumber(x, c, 14, 14, 18);
    FieldTop(x, c, 14, 18);
    TopBits(c, 14, Below(18));
    TopBit(c);
    TopIndex(c);
  }

  lemma Masks()
    ensures Below(18) == 0x3ffff && Pow2(18) == 0x4_0000
  {
    PlaceWeight(17);
  }

  lemma SmallMod(v: int, m: int)
    requires 0 <= v < m
    ensures v % m == v
  {
  }

  /** A number of 18 bits with its sign, modulo 2^64. */
  lemma SignedValue(raw: Word, n: int, top: bool)
    requires Val(raw) == n && raw[17] == top
    ensures Val(Interpret(Signed, 18, raw)) == MacroDecode.Signed18(n, top) % Pow2(64)
  {
    hide Val, Pow2;
    Masks();
    OneHotValue(18);
    SubIsModular(raw, OneHot(18));
    SmallMod(n, Pow2(64));
  }

  lemma ImmediateIs(c: bv32)
    ensures MacroDecode.Imm(c) == MacroDecode.Signed18(Top18(c), Negative(c))
  {
  }

  /** The signed field. */
  lemma SameImmediate(x: Code, c: bv32, pcrel: bool)
    requires LowHalf(x, c)
    ensures Val(RawValue(MacroIsa.Field18(pcrel), x)) == MacroDecode.Imm(c) % Pow2(64)
  {
    hide Val, LowHalf, Raw, Pow2, Interpret, MacroDecode.Signed18, Top18, Negative;
    var raw := Raw(Sbf(14, 18), Sbf(0, 0), 0, x);
    ImmediateBits(x, c);
    SignedValue(raw, Top18(c), Negative(c));
    ImmediateIs(c);
  }
}
