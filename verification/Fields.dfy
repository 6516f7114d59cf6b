/** Bit fields of a 128-bit opcode and the two routines that move a number
    into and out of them: `getbf`/`getrbf` on the reading side, `setsbf`,
    `setbf` and the relocation filler on the writing side.

    A partly known opcode is a pair `(a, m)`: bit values and the mask of the
    bits that are fixed.  It stands for the set of opcodes that `Agrees`. */
module Fields {
  import opened Words

  const MAXOPLEN := 2

  type Code = c: seq<Word> | |c| == MAXOPLEN witness [Zero(), Zero()]

  datatype Sbf = Sbf(pos: nat, len: nat)

  datatype Mode = Unsigned | Signed | SlightlySigned | UltraSigned | Lut(table: seq<Word>)

  datatype Bitfield = Bitfield(s0: Sbf, s1: Sbf, mode: Mode, shr: nat, addend: Word, xorend: Word)

  // ---------------------------------------------------------------------
  // Opcodes and partly known opcodes
  // ---------------------------------------------------------------------

  function BitOf(c: Code, b: nat): bool
    requires b < 128
  {
    c[b / 64][b % 64]
  }

  /** `x` is one of the opcodes that the pair `(a, m)` stands for. */
  ghost predicate Agrees(x: Code, a: Code, m: Code) {
    forall j, i :: 0 <= j < MAXOPLEN && 0 <= i < 64 ==> m[j][i] ==> x[j][i] == a[j][i]
  }

  /** No value bit is set outside the mask. */
  ghost predicate Tidy(a: Code, m: Code) {
    forall j, i :: 0 <= j < MAXOPLEN && 0 <= i < 64 ==> a[j][i] ==> m[j][i]
  }

  /** `(a', m')` fixes every bit that `(a, m)` fixes, to the same value. */
  ghost predicate Extends(a: Code, m: Code, a': Code, m': Code) {
    forall j, i :: 0 <= j < MAXOPLEN && 0 <= i < 64 ==> m[j][i] ==> m'[j][i] && a'[j][i] == a[j][i]
  }

  predicate FitsSbf(f: Sbf) {
    f.pos < 128 && f.len < 64 && f.pos + f.len <= 128
  }

  ghost predicate Covers(m: Code, f: Sbf)
    requires FitsSbf(f)
  {
    forall b :: f.pos <= b < f.pos + f.len ==> BitOf(m, b)
  }

  // ---------------------------------------------------------------------
  // Reading
  // ---------------------------------------------------------------------

  /** The value part of `bf_`: the field may straddle the two words. */
  function ReadSbf(f: Sbf, a: Code): Word
    requires FitsSbf(f)
  {
    var idx, bit := f.pos / 64, f.pos % 64;
    var low := Shr(And(a[idx], Shl(Ones(f.len), bit)), bit);
    if bit + f.len > 64 then
      Or(low, Shl(And(a[idx + 1], Shr(Ones(f.len), 64 - bit)), 64 - bit))
    else low
  }

  /** The mask part of `bf_`. */
  function MarkSbf(f: Sbf, m: Code): Code
    requires FitsSbf(f)
  {
    var idx, bit := f.pos / 64, f.pos % 64;
    var low := m[idx := Or(m[idx], Shl(Ones(f.len), bit))];
    if bit + f.len > 64 then
      low[idx + 1 := Or(low[idx + 1], Shr(Ones(f.len), 64 - bit))]
    else low
  }

  /** Bit `i` of a piece at `pos` is in the word where the piece starts or in the next. */
  lemma WhichWord(pos: nat, i: nat)
    requires i < 64
    ensures if pos % 64 + i < 64 then (pos + i) / 64 == pos / 64 && (pos + i) % 64 == pos % 64 + i
            else (pos + i) / 64 == pos / 64 + 1 && (pos + i) % 64 == pos % 64 + i - 64
  {
  }

  lemma ReadSbfBit(f: Sbf, a: Code, i: nat)
    requires FitsSbf(f) && i < 64
    ensures ReadSbf(f, a)[i] == (i < f.len && BitOf(a, f.pos + i))
  {
    WhichWord(f.pos, i);
    var idx, bit := f.pos / 64, f.pos % 64;
    var low := Shr(And(a[idx], Shl(Ones(f.len), bit)), bit);
    assert low[i] == (bit + i < 64 && i < f.len && a[idx][bit + i]);
    if bit + f.len > 64 {
      var high := Shl(And(a[idx + 1], Shr(Ones(f.len), 64 - bit)), 64 - bit);
      assert high[i] == (64 - bit <= i < f.len && a[idx + 1][i - (64 - bit)]);
    }
  }

  lemma MarkSbfBit(f: Sbf, m: Code, b: nat)
    requires FitsSbf(f) && b < 128
    ensures BitOf(MarkSbf(f, m), b) == (BitOf(m, b) || f.pos <= b < f.pos + f.len)
  {
  }

  function Total(s0: Sbf, s1: Sbf, shr: nat): nat { shr + s0.len + s1.len }

  /** The shape the C code needs for none of its shifts to be undefined. */
  predicate FitsFields(s0: Sbf, s1: Sbf, mode: Mode, shr: nat) {
    && FitsSbf(s0) && FitsSbf(s1) && Total(s0, s1, shr) < 64
    && (mode.Signed? ==> 1 <= Total(s0, s1, shr))
    && (mode.SlightlySigned? ==> 2 <= Total(s0, s1, shr))
  }

  function Raw(s0: Sbf, s1: Sbf, shr: nat, a: Code): Word
    requires FitsSbf(s0) && FitsSbf(s1)
  {
    Or(Shl(ReadSbf(s0, a), shr), Shl(ReadSbf(s1, a), shr + s0.len))
  }

  /** The sign treatment shared by `getbf`, `getrbf` and their assembler twins. */
  function Interpret(mode: Mode, total: nat, raw: Word): Word
    requires total < 64
    requires mode.Signed? ==> 1 <= total
    requires mode.SlightlySigned? ==> 2 <= total
    requires mode.Lut? ==> Val(raw) < |mode.table|
  {
    match mode
    case Unsigned => raw
    case Signed => if raw[total - 1] then Sub(raw, OneHot(total)) else raw
    case SlightlySigned => if raw[total - 1] && raw[total - 2] then Sub(raw, OneHot(total)) else raw
    case UltraSigned => Sub(raw, OneHot(total))
    case Lut(table) => table[Val(raw)]
  }

  predicate ValidBf(bf: Bitfield) {
    && FitsFields(bf.s0, bf.s1, bf.mode, bf.shr)
    && (bf.mode.Lut? ==> bf.shr == 0 && |bf.mode.table| == Pow2(Total(bf.s0, bf.s1, bf.shr)))
  }

  /** `Raw` is the two pieces side by side above `shr` clear bits. */
  lemma RawBit(s0: Sbf, s1: Sbf, shr: nat, a: Code, i: nat)
    requires FitsSbf(s0) && FitsSbf(s1) && Total(s0, s1, shr) < 64 && i < 64
    ensures Raw(s0, s1, shr, a)[i] ==
            if i < shr then false
            else if i < shr + s0.len then BitOf(a, s0.pos + (i - shr))
            else i < Total(s0, s1, shr) && BitOf(a, s1.pos + (i - shr - s0.len))
  {
    if shr <= i {
      ReadSbfBit(s0, a, i - shr);
    }
    if shr + s0.len <= i {
      ReadSbfBit(s1, a, i - shr - s0.len);
    }
  }

  lemma RawHigh(s0: Sbf, s1: Sbf, shr: nat, a: Code)
    requires FitsSbf(s0) && FitsSbf(s1) && Total(s0, s1, shr) < 64
    ensures forall i :: Total(s0, s1, shr) <= i < 64 ==> !Raw(s0, s1, shr, a)[i]
  {
    forall i | Total(s0, s1, shr) <= i < 64 ensures !Raw(s0, s1, shr, a)[i] {
      RawBit(s0, s1, shr, a, i);
    }
  }

  lemma RawInTable(s0: Sbf, s1: Sbf, shr: nat, a: Code)
    requires FitsSbf(s0) && FitsSbf(s1) && Total(s0, s1, shr) < 64
    ensures Val(Raw(s0, s1, shr, a)) < Pow2(Total(s0, s1, shr))
  {
    RawHigh(s0, s1, shr, a);
    ValBound(Raw(s0, s1, shr, a), Total(s0, s1, shr));
  }

  lemma RawFits(bf: Bitfield, a: Code)
    requires ValidBf(bf)
    ensures bf.mode.Lut? ==> Val(Raw(bf.s0, bf.s1, bf.shr, a)) < |bf.mode.table|
  {
    if bf.mode.Lut? {
      RawInTable(bf.s0, bf.s1, bf.shr, a);
    }
  }

  /** `getbf` */
  function GetBf(bf: Bitfield, a: Code): Word
    requires ValidBf(bf)
  {
    RawFits(bf, a);
    var raw := Raw(bf.s0, bf.s1, bf.shr, a);
    Add(Xor(Interpret(bf.mode, Total(bf.s0, bf.s1, bf.shr), raw), bf.xorend), bf.addend)
  }

  lemma SameRaw(s0: Sbf, s1: Sbf, shr: nat, x: Code, a: Code, m: Code)
    requires FitsSbf(s0) && FitsSbf(s1)
    requires Agrees(x, a, m) && Covers(m, s0) && Covers(m, s1)
    ensures Raw(s0, s1, shr, x) == Raw(s0, s1, shr, a)
  {
    SameSbf(s0, x, a, m);
    SameSbf(s1, x, a, m);
  }

  lemma SameSbf(f: Sbf, x: Code, a: Code, m: Code)
    requires FitsSbf(f) && Agrees(x, a, m) && Covers(m, f)
    ensures ReadSbf(f, x) == ReadSbf(f, a)
  {
    forall i | 0 <= i < 64 ensures ReadSbf(f, x)[i] == ReadSbf(f, a)[i] {
      ReadSbfBit(f, x, i);
      ReadSbfBit(f, a, i);
      if i < f.len {
        assert BitOf(m, f.pos + i);
      }
    }
  }

  // ---------------------------------------------------------------------
  // Writing
  // ---------------------------------------------------------------------

  datatype Fill = Fill(ok: bool, a: Code, m: Code)

  /** `setsbf`: refuses, leaving the piece alone, when a fixed bit disagrees. */
  function SetSbf(a: Code, m: Code, f: Sbf, num: Word): Fill
    requires FitsSbf(f)
  {
    if f.len == 0 then Fill(true, a, m)
    else
      var idx, bit := f.pos / 64, f.pos % 64;
      var m0 := Shl(Ones(f.len), bit);
      var a0 := And(Shl(num, bit), m0);
      if And(And(a0, m0), m[idx]) != And(And(a[idx], m0), m[idx]) then Fill(false, a, m)
      else
        var a', m' := a[idx := Or(a[idx], a0)], m[idx := Or(m[idx], m0)];
        if bit + f.len > 64 then
          var m1 := Shr(Ones(f.len), 64 - bit);
          var a1 := And(Shr(num, 64 - bit), m1);
          if And(And(a1, m1), m'[idx + 1]) != And(And(a'[idx + 1], m1), m'[idx + 1]) then Fill(false, a', m')
          else Fill(true, a'[idx + 1 := Or(a'[idx + 1], a1)], m'[idx + 1 := Or(m'[idx + 1], m1)])
        else Fill(true, a', m')
  }

  /** Whatever `setsbf` does, fixed bits stay as they were. */
  lemma SetSbfExtends(a: Code, m: Code, f: Sbf, num: Word)
    requires FitsSbf(f) && Tidy(a, m)
    ensures var r := SetSbf(a, m, f, num); Tidy(r.a, r.m) && Extends(a, m, r.a, r.m)
  {
  }

  /** One word of `setsbf`: a piece copied from a member of the set never
      conflicts and leaves that member in the set. */
  lemma PieceKeeps(w: Word, a: Word, m: Word, mask: Word, piece: Word)
    requires forall i :: 0 <= i < 64 ==> (m[i] ==> w[i] == a[i]) && (a[i] ==> m[i])
    requires forall i :: 0 <= i < 64 ==> piece[i] == (mask[i] && w[i])
    ensures And(And(piece, mask), m) == And(And(a, mask), m)
    ensures forall i :: 0 <= i < 64 ==> Or(m, mask)[i] ==> w[i] == Or(a, piece)[i]
  {
  }

  /** What `setsbf` writes is the part of `x` that lies under the field. */
  lemma PieceBits(x: Code, f: Sbf, num: Word, piece: Word, mask: Word)
    requires FitsSbf(f)
    requires forall i :: 0 <= i < f.len ==> num[i] == BitOf(x, f.pos + i)
    requires mask == Shl(Ones(f.len), f.pos % 64)
    requires piece == And(Shl(num, f.pos % 64), mask)
    ensures forall i :: 0 <= i < 64 ==> piece[i] == (mask[i] && x[f.pos / 64][i])
  {
    forall i | 0 <= i < 64 ensures piece[i] == (mask[i] && x[f.pos / 64][i]) {
      if mask[i] {
        assert num[i - f.pos % 64] == BitOf(x, f.pos + (i - f.pos % 64));
      }
    }
  }

  lemma UpperPieceBits(x: Code, f: Sbf, num: Word, piece: Word, mask: Word)
    requires FitsSbf(f) && f.pos % 64 + f.len > 64
    requires forall i :: 0 <= i < f.len ==> num[i] == BitOf(x, f.pos + i)
    requires mask == Shr(Ones(f.len), 64 - f.pos % 64)
    requires piece == And(Shr(num, 64 - f.pos % 64), mask)
    ensures forall i :: 0 <= i < 64 ==> piece[i] == (mask[i] && x[f.pos / 64 + 1][i])
  {
    forall i | 0 <= i < 64 ensures piece[i] == (mask[i] && x[f.pos / 64 + 1][i]) {
      if mask[i] {
        assert num[i + (64 - f.pos % 64)] == BitOf(x, f.pos + (i + (64 - f.pos % 64)));
      }
    }
  }

  /** If some opcode of the set already holds `num` in the field, `setsbf`
      accepts and keeps that opcode in the set. */
  lemma SetSbfKeeps(x: Code, a: Code, m: Code, f: Sbf, num: Word)
    requires FitsSbf(f) && Tidy(a, m) && Agrees(x, a, m)
    requires forall i :: 0 <= i < f.len ==> num[i] == BitOf(x, f.pos + i)
    ensures var r := SetSbf(a, m, f, num); r.ok && Agrees(x, r.a, r.m)
  {
    hide Shl, Shr, Ones;
    if f.len > 0 {
      var idx, bit := f.pos / 64, f.pos % 64;
      var m0 := Shl(Ones(f.len), bit);
      var a0 := And(Shl(num, bit), m0);
      PieceBits(x, f, num, a0, m0);
      PieceKeeps(x[idx], a[idx], m[idx], m0, a0);
      if bit + f.len > 64 {
        var m1 := Shr(Ones(f.len), 64 - bit);
        var a1 := And(Shr(num, 64 - bit), m1);
        UpperPieceBits(x, f, num, a1, m1);
        PieceKeeps(x[idx + 1], a[idx + 1], m[idx + 1], m1, a1);
      }
    }
  }

  /** `setsbf` on both pieces of a field, low piece first, then the marking
      that the read-back performs; its return codes are ignored, as in the
      source. */
  function SetPieces(a: Code, m: Code, s0: Sbf, s1: Sbf, num: Word): (Code, Code)
    requires FitsSbf(s0) && FitsSbf(s1)
  {
    var r0 := SetSbf(a, m, s0, num);
    var r1 := SetSbf(r0.a, r0.m, s1, Shr(num, s0.len));
    (r1.a, MarkSbf(s1, MarkSbf(s0, r1.m)))
  }

  lemma MarkExtends(f: Sbf, a: Code, m: Code)
    requires FitsSbf(f) && Tidy(a, m)
    ensures Tidy(a, MarkSbf(f, m)) && Covers(MarkSbf(f, m), f)
    ensures forall j, i :: 0 <= j < MAXOPLEN && 0 <= i < 64 ==> m[j][i] ==> MarkSbf(f, m)[j][i]
    ensures forall g | FitsSbf(g) && Covers(m, g) :: Covers(MarkSbf(f, m), g)
  {
    forall b | f.pos <= b < f.pos + f.len ensures BitOf(MarkSbf(f, m), b) {
      MarkSbfBit(f, m, b);
    }
    forall g, b | FitsSbf(g) && Covers(m, g) && g.pos <= b < g.pos + g.len ensures BitOf(MarkSbf(f, m), b) {
      assert BitOf(m, b);
      MarkSbfBit(f, m, b);
    }
  }

  lemma SetPiecesExtends(a: Code, m: Code, s0: Sbf, s1: Sbf, num: Word)
    requires FitsSbf(s0) && FitsSbf(s1) && Tidy(a, m)
    ensures var (a', m') := SetPieces(a, m, s0, s1, num);
            Tidy(a', m') && Extends(a, m, a', m') && Covers(m', s0) && Covers(m', s1)
  {
    var r0 := SetSbf(a, m, s0, num);
    SetSbfExtends(a, m, s0, num);
    var r1 := SetSbf(r0.a, r0.m, s1, Shr(num, s0.len));
    SetSbfExtends(r0.a, r0.m, s1, Shr(num, s0.len));
    MarkExtends(s0, r1.a, r1.m);
    MarkExtends(s1, r1.a, MarkSbf(s0, r1.m));
  }

  /** A number spells the field contents of `x`, counted from bit `shr`. */
  ghost predicate Holds(x: Code, s0: Sbf, s1: Sbf, num: Word)
    requires FitsSbf(s0) && FitsSbf(s1) && s0.len + s1.len < 64
  {
    && (forall i :: 0 <= i < s0.len ==> num[i] == BitOf(x, s0.pos + i))
    && (forall i :: 0 <= i < s1.len ==> Shr(num, s0.len)[i] == BitOf(x, s1.pos + i))
  }

  lemma SetPiecesKeeps(x: Code, a: Code, m: Code, s0: Sbf, s1: Sbf, num: Word)
    requires FitsSbf(s0) && FitsSbf(s1) && s0.len + s1.len < 64
    requires Tidy(a, m) && Agrees(x, a, m) && Holds(x, s0, s1, num)
    ensures var (a', m') := SetPieces(a, m, s0, s1, num); Agrees(x, a', m')
  {
    var r0 := SetSbf(a, m, s0, num);
    SetSbfExtends(a, m, s0, num);
    SetSbfKeeps(x, a, m, s0, num);
    var rest := Shr(num, s0.len);
    SetSbfExtends(r0.a, r0.m, s1, rest);
    SetSbfKeeps(x, r0.a, r0.m, s1, rest);
    var r1 := SetSbf(r0.a, r0.m, s1, rest);
    AlreadyMarked(s0, a, m, num);
    AlreadyMarked(s1, r0.a, r0.m, rest);
    MarkNothing(s0, r1.m);
    MarkNothing(s1, r1.m);
  }

  /** When `setsbf` accepts, the read-back has nothing left to mark. */
  lemma AlreadyMarked(f: Sbf, a: Code, m: Code, num: Word)
    requires FitsSbf(f) && SetSbf(a, m, f, num).ok
    ensures Covers(SetSbf(a, m, f, num).m, f)
  {
    forall b | f.pos <= b < f.pos + f.len ensures BitOf(SetSbf(a, m, f, num).m, b) {
    }
  }

  lemma MarkNothing(f: Sbf, m: Code)
    requires FitsSbf(f) && Covers(m, f)
    ensures MarkSbf(f, m) == m
  {
    forall b | 0 <= b < 128 ensures BitOf(MarkSbf(f, m), b) == BitOf(m, b) {
      MarkSbfBit(f, m, b);
    }
    SameBits(MarkSbf(f, m), m);
  }

  lemma SameBits(c: Code, d: Code)
    requires forall b :: 0 <= b < 128 ==> BitOf(c, b) == BitOf(d, b)
    ensures c == d
  {
    forall j, i | 0 <= j < MAXOPLEN && 0 <= i < 64 ensures c[j][i] == d[j][i] {
      assert BitOf(c, 64 * j + i) == BitOf(d, 64 * j + i);
    }
    assert c[0] == d[0] && c[1] == d[1];
  }

  /** The sign treatment leaves the bits of the field themselves alone. */
  lemma InterpretLow(mode: Mode, total: nat, raw: Word)
    requires total < 64 && !mode.Lut?
    requires mode.Signed? ==> 1 <= total
    requires mode.SlightlySigned? ==> 2 <= total
    ensures forall i :: 0 <= i < total ==> Interpret(mode, total, raw)[i] == raw[i]
  {
    SubKeepsLow(raw, OneHot(total), total);
  }

  /** The pointwise description of `Raw`, for all bits at once. */
  ghost predicate Spells(raw: Word, s0: Sbf, s1: Sbf, shr: nat, x: Code)
    requires FitsSbf(s0) && FitsSbf(s1) && Total(s0, s1, shr) < 64
  {
    forall i :: 0 <= i < 64 ==>
      raw[i] == if i < shr then false
                else if i < shr + s0.len then BitOf(x, s0.pos + (i - shr))
                else i < Total(s0, s1, shr) && BitOf(x, s1.pos + (i - shr - s0.len))
  }

  lemma RawSpells(s0: Sbf, s1: Sbf, shr: nat, x: Code)
    requires FitsSbf(s0) && FitsSbf(s1) && Total(s0, s1, shr) < 64
    ensures Spells(Raw(s0, s1, shr, x), s0, s1, shr, x)
  {
    forall i | 0 <= i < 64 {
      RawBit(s0, s1, shr, x, i);
    }
  }

  /** Any word with the field's own bits in place yields the field contents. */
  lemma SpellsHolds(s0: Sbf, s1: Sbf, shr: nat, x: Code, raw: Word, v: Word)
    requires FitsSbf(s0) && FitsSbf(s1) && Total(s0, s1, shr) < 64
    requires Spells(raw, s0, s1, shr, x)
    requires forall i :: 0 <= i < Total(s0, s1, shr) ==> v[i] == raw[i]
    ensures Holds(x, s0, s1, Shr(v, shr))
  {
    forall i | 0 <= i < s0.len ensures Shr(v, shr)[i] == BitOf(x, s0.pos + i) {
      assert v[shr + i] == raw[shr + i];
    }
    forall i | 0 <= i < s1.len ensures Shr(Shr(v, shr), s0.len)[i] == BitOf(x, s1.pos + i) {
      assert v[shr + s0.len + i] == raw[shr + s0.len + i];
    }
  }

  lemma InterpretHolds(mode: Mode, s0: Sbf, s1: Sbf, shr: nat, x: Code)
    requires FitsFields(s0, s1, mode, shr) && !mode.Lut?
    ensures Holds(x, s0, s1, Shr(Interpret(mode, Total(s0, s1, shr), Raw(s0, s1, shr, x)), shr))
  {
    var raw := Raw(s0, s1, shr, x);
    RawSpells(s0, s1, shr, x);
    InterpretLow(mode, Total(s0, s1, shr), raw);
    SpellsHolds(s0, s1, shr, x, raw, Interpret(mode, Total(s0, s1, shr), raw));
  }

  // ---------------------------------------------------------------------
  // Immediate fields: setbf
  // ---------------------------------------------------------------------

  /** First index from `j` on that holds `num`, or the table size. */
  function FindLut(table: seq<Word>, num: Word, j: nat): (r: nat)
    requires j <= |table|
    ensures j <= r <= |table|
    ensures r < |table| ==> table[r] == num
    ensures forall k :: j <= k < r ==> table[k] != num
    decreases |table| - j
  {
    if j == |table| || table[j] == num then j else FindLut(table, num, j + 1)
  }

  /** `setbf`: undo the bias, look the value up, write both pieces, and accept
      only if the field reads back as the number asked for. */
  function SetBf(a: Code, m: Code, bf: Bitfield, num: Word): Fill
    requires ValidBf(bf)
  {
    var unbiased := Xor(Sub(num, bf.addend), bf.xorend);
    if bf.mode.Lut? && FindLut(bf.mode.table, unbiased, 0) == |bf.mode.table| then Fill(false, a, m)
    else
      var n := if bf.mode.Lut? then FromNat(FindLut(bf.mode.table, unbiased, 0)) else unbiased;
      var (a', m') := SetPieces(a, m, bf.s0, bf.s1, Shr(n, bf.shr));
      Fill(GetBf(bf, a') == num, a', m')
  }

  ghost predicate InjectiveLut(bf: Bitfield) {
    bf.mode.Lut? ==>
      forall i, j :: 0 <= i < j < |bf.mode.table| ==> bf.mode.table[i] != bf.mode.table[j]
  }

  lemma SameBf(bf: Bitfield, x: Code, a: Code, m: Code)
    requires ValidBf(bf) && Agrees(x, a, m) && Covers(m, bf.s0) && Covers(m, bf.s1)
    ensures GetBf(bf, x) == GetBf(bf, a)
  {
    SameRaw(bf.s0, bf.s1, bf.shr, x, a, m);
  }

  /** On success every opcode of the narrowed set reads as `num`. */
  lemma SetBfSound(a: Code, m: Code, bf: Bitfield, num: Word, x: Code)
    requires ValidBf(bf) && Tidy(a, m)
    ensures var r := SetBf(a, m, bf, num);
            Tidy(r.a, r.m) && Extends(a, m, r.a, r.m)
            && (r.ok && Agrees(x, r.a, r.m) ==> Agrees(x, a, m) && GetBf(bf, x) == num)
  {
    var unbiased := Xor(Sub(num, bf.addend), bf.xorend);
    var n := if bf.mode.Lut? then FromNat(FindLut(bf.mode.table, unbiased, 0)) else unbiased;
    SetPiecesExtends(a, m, bf.s0, bf.s1, Shr(n, bf.shr));
    var r := SetBf(a, m, bf, num);
    if r.ok && Agrees(x, r.a, r.m) {
      SameBf(bf, x, r.a, r.m);
    }
  }

  /** The number that `setbf` writes is the field content of any opcode that
      reads as `num`. */
  lemma Unbias(bf: Bitfield, x: Code)
    requires ValidBf(bf)
    ensures Xor(Sub(GetBf(bf, x), bf.addend), bf.xorend) ==
            (RawFits(bf, x); Interpret(bf.mode, Total(bf.s0, bf.s1, bf.shr), Raw(bf.s0, bf.s1, bf.shr, x)))
  {
    RawFits(bf, x);
    var v := Interpret(bf.mode, Total(bf.s0, bf.s1, bf.shr), Raw(bf.s0, bf.s1, bf.shr, x));
    SubAfterAdd(Xor(v, bf.xorend), bf.addend, false);
    assert Xor(Xor(v, bf.xorend), bf.xorend) == v;
  }

  lemma LutHolds(bf: Bitfield, x: Code)
    requires ValidBf(bf) && bf.mode.Lut? && InjectiveLut(bf)
    ensures var unbiased := Xor(Sub(GetBf(bf, x), bf.addend), bf.xorend);
            var j := FindLut(bf.mode.table, unbiased, 0);
            j < |bf.mode.table| && Holds(x, bf.s0, bf.s1, Shr(FromNat(j), bf.shr))
  {
    Unbias(bf, x);
    RawFits(bf, x);
    var raw := Raw(bf.s0, bf.s1, bf.shr, x);
    var j := FindLut(bf.mode.table, Xor(Sub(GetBf(bf, x), bf.addend), bf.xorend), 0);
    assert j == Val(raw);
    BitsVal(raw);
    assert FromNat(j) == raw;
    InterpretHolds(Unsigned, bf.s0, bf.s1, bf.shr, x);
  }

  /** Any opcode of the set that already reads as `num` survives `setbf`. */
  lemma SetBfComplete(a: Code, m: Code, bf: Bitfield, x: Code)
    requires ValidBf(bf) && InjectiveLut(bf) && Tidy(a, m) && Agrees(x, a, m)
    ensures var r := SetBf(a, m, bf, GetBf(bf, x)); r.ok && Agrees(x, r.a, r.m)
  {
    var num := GetBf(bf, x);
    var unbiased := Xor(Sub(num, bf.addend), bf.xorend);
    Unbias(bf, x);
    var n := if bf.mode.Lut? then FromNat(FindLut(bf.mode.table, unbiased, 0)) else unbiased;
    if bf.mode.Lut? {
      LutHolds(bf, x);
    } else {
      InterpretHolds(bf.mode, bf.s0, bf.s1, bf.shr, x);
    }
    SetPiecesKeeps(x, a, m, bf.s0, bf.s1, Shr(n, bf.shr));
    SetPiecesExtends(a, m, bf.s0, bf.s1, Shr(n, bf.shr));
    var (a', m') := SetPieces(a, m, bf.s0, bf.s1, Shr(n, bf.shr));
    SameBf(bf, x, a', m');
  }

  /** `setbf` selects exactly: it succeeds iff some opcode of the set reads as
      `num`, and then leaves exactly the opcodes that do. */
  lemma SetBfExact(a: Code, m: Code, bf: Bitfield, num: Word)
    requires ValidBf(bf) && InjectiveLut(bf) && Tidy(a, m)
    ensures var r := SetBf(a, m, bf, num);
            && (r.ok <==> exists x :: Agrees(x, a, m) && GetBf(bf, x) == num)
            && (r.ok ==> forall x :: Agrees(x, r.a, r.m) <==> Agrees(x, a, m) && GetBf(bf, x) == num)
  {
    var r := SetBf(a, m, bf, num);
    forall x
      ensures r.ok && Agrees(x, r.a, r.m) ==> Agrees(x, a, m) && GetBf(bf, x) == num
      ensures Agrees(x, a, m) && GetBf(bf, x) == num ==> r.ok && Agrees(x, r.a, r.m)
    {
      SetBfSound(a, m, bf, num, x);
      if Agrees(x, a, m) && GetBf(bf, x) == num {
        SetBfComplete(a, m, bf, x);
      }
    }
    if r.ok {
      assert Agrees(r.a, r.a, r.m);
    }
  }
}
