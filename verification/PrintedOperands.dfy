/** Which printed operands the assembler takes back, one operand at a time and
    exactly; `AsmComplete.PrintedRoundTrip` is about whole instructions. */
module PrintedOperands {
  import opened Options
  import opened Words
  import opened Exprs
  import opened Fields
  import opened Relocs
  import opened Tables
  import opened AsmSound
  import opened AsmComplete
  import opened Rewrite

  /** A relocatable operand is taken back however it is shown, and still stands
      for the field it was decoded from. */
  lemma PrintedTargetAccepted(bf: RBitfield, x: Code, pos: Word, special: bool)
    requires ValidRbf(bf)
    ensures var b := SetRbf(bf, Rewrite.Tidy(GetRbf(bf, x), pos, special), 1);
            b.Some? && GoodMatch(b.value) && Satisfies(x, b.value, pos, map[])
  {
    var e := Rewrite.Tidy(GetRbf(bf, x), pos, special);
    assert Shows(ExprItem(GetRbf(bf, x)), ExprItem(e), pos, true);
    TargetShown(bf, x, ExprItem(e), pos, true);
    RImmComplete(bf, x, e, 1, pos);
  }

  /** A plain immediate is taken back exactly when its top bit is clear: a
      negative one is shown as a negation, and `atomimm_a` takes numbers only. */
  lemma PrintedImmediateAccepted(bf: Bitfield, x: Code, pos: Word)
    requires ValidBf(bf) && InjectiveLut(bf)
    ensures ImmA(bf, [ExprItem(Rewrite.Tidy(Num(GetBf(bf, x)), pos, false))], 0).Some? <==> !GetBf(bf, x)[63]
  {
    var n := GetBf(bf, x);
    ConstantTidies(Num(n), pos, false, Env(map[], map[], None));
    if !n[63] {
      var b := ImmAtomComplete(bf, x, [ExprItem(Num(n))], 0, pos);
    }
  }

  /** For instance, a one-bit field biased by -1, when the bit is clear. */
  lemma NegativeImmediateRefused()
    ensures var bf := Bitfield(Sbf(0, 1), Sbf(0, 0), Unsigned, 0, AllOnes(), Zero());
            ValidBf(bf) && ImmA(bf, [ExprItem(Rewrite.Tidy(Num(GetBf(bf, Blank())), Zero(), false))], 0) == None
  {
    var bf := Bitfield(Sbf(0, 1), Sbf(0, 0), Unsigned, 0, AllOnes(), Zero());
    BiasedReads(bf);
    PrintedImmediateAccepted(bf, Blank(), Zero());
  }

  lemma BiasedReads(bf: Bitfield)
    requires ValidBf(bf) && bf.mode.Unsigned? && bf.shr == 0 && bf.addend == AllOnes() && bf.xorend == Zero()
    ensures GetBf(bf, Blank()) == AllOnes()
  {
    BlankReads(bf.s0, bf.s1);
    Biased(Raw(bf.s0, bf.s1, 0, Blank()));
  }

  lemma Biased(raw: Word)
    requires raw == Zero()
    ensures Add(Xor(raw, Zero()), AllOnes()) == AllOnes()
  {
    assert Xor(raw, Zero()) == Zero();
    AddLeftZero(AllOnes());
  }

  lemma BlankReads(s0: Sbf, s1: Sbf)
    requires FitsSbf(s0) && FitsSbf(s1) && Total(s0, s1, 0) < 64
    ensures Raw(s0, s1, 0, Blank()) == Zero()
  {
    RawSpells(s0, s1, 0, Blank());
  }
}
