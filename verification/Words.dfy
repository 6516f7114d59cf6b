/** The 64-bit unsigned machine word (`ull`) that both halves of the
    assembler compute with.  A word is its sequence of bits, least significant
    first, so masks and shifts are pointwise; `+` and `-` are ripple-carry, and
    `AddIsModular`/`SubIsModular` anchor them to modular arithmetic. */
module Words {

  type Word = s: seq<bool> | |s| == 64 witness seq(64, _ => false)

  function Zero(): (r: Word)
    ensures forall i :: 0 <= i < 64 ==> !r[i]
  {
    seq(64, _ => false)
  }

  function AllOnes(): (r: Word)
    ensures forall i :: 0 <= i < 64 ==> r[i]
  {
    seq(64, _ => true)
  }

  /** `(1ull << n) - 1` */
  function Ones(n: nat): (r: Word)
    requires n <= 64
    ensures forall i :: 0 <= i < 64 ==> r[i] == (i < n)
  {
    seq(64, i => i < n)
  }

  /** `1ull << n` */
  function OneHot(n: nat): (r: Word)
    requires n < 64
    ensures forall i :: 0 <= i < 64 ==> r[i] == (i == n)
  {
    seq(64, i => i == n)
  }

  /** `-(1ull << n)` */
  function HighOnes(n: nat): (r: Word)
    requires n <= 64
    ensures forall i :: 0 <= i < 64 ==> r[i] == (n <= i)
  {
    seq(64, i => n <= i)
  }

  function And(x: Word, y: Word): (r: Word)
    ensures forall i :: 0 <= i < 64 ==> r[i] == (x[i] && y[i])
  {
    seq(64, i requires 0 <= i < 64 => x[i] && y[i])
  }

  function Or(x: Word, y: Word): (r: Word)
    ensures forall i :: 0 <= i < 64 ==> r[i] == (x[i] || y[i])
  {
    seq(64, i requires 0 <= i < 64 => x[i] || y[i])
  }

  function Xor(x: Word, y: Word): (r: Word)
    ensures forall i :: 0 <= i < 64 ==> r[i] == (x[i] != y[i])
  {
    seq(64, i requires 0 <= i < 64 => x[i] != y[i])
  }

  function Not(x: Word): (r: Word)
    ensures forall i :: 0 <= i < 64 ==> r[i] == !x[i]
  {
    seq(64, i requires 0 <= i < 64 => !x[i])
  }

  function Shl(x: Word, n: nat): (r: Word)
    ensures forall i :: 0 <= i < 64 ==> r[i] == (n <= i && x[i - n])
  {
    seq(64, i requires 0 <= i < 64 => n <= i && x[i - n])
  }

  function Shr(x: Word, n: nat): (r: Word)
    ensures forall i :: 0 <= i < 64 ==> r[i] == (i + n < 64 && x[i + n])
  {
    seq(64, i requires 0 <= i < 64 => i + n < 64 && x[i + n])
  }

  function AddC(x: seq<bool>, y: seq<bool>, c: bool): (r: seq<bool>)
    requires |x| == |y|
    ensures |r| == |x|
  {
    if x == [] then []
    else [(x[0] != y[0]) != c] + AddC(x[1..], y[1..], (x[0] && y[0]) || (c && (x[0] || y[0])))
  }

  function SubB(x: seq<bool>, y: seq<bool>, b: bool): (r: seq<bool>)
    requires |x| == |y|
    ensures |r| == |x|
  {
    if x == [] then []
    else [(x[0] != y[0]) != b] + SubB(x[1..], y[1..], (!x[0] && (y[0] || b)) || (y[0] && b))
  }

  function Add(x: Word, y: Word): Word { AddC(x, y, false) }

  function Sub(x: Word, y: Word): Word { SubB(x, y, false) }

  function Neg(x: Word): Word { Sub(Zero(), x) }

  function Pow2(n: nat): (r: nat)
    ensures r > 0
  {
    if n == 0 then 1 else 2 * Pow2(n - 1)
  }

  function Unit(b: bool): nat { if b then 1 else 0 }

  /** The unsigned value of a bit string. */
  function Val(x: seq<bool>): (v: nat)
    ensures v < Pow2(|x|)
  {
    if x == [] then 0 else Unit(x[0]) + 2 * Val(x[1..])
  }

  function Bits(v: nat, n: nat): (r: seq<bool>)
    ensures |r| == n
    decreases n
  {
    if n == 0 then [] else [v % 2 == 1] + Bits(v / 2, n - 1)
  }

  /** The word for a small number; `|z|` rather than 64 keeps the solver from
      unrolling `Bits`. */
  function FromNat(v: nat): Word {
    var z := Zero();
    Bits(v, |z|)
  }

  lemma {:induction false} BitsVal(x: seq<bool>)
    ensures Bits(Val(x), |x|) == x
  {
    if x != [] {
      BitsVal(x[1..]);
    }
  }

  lemma {:induction false} ValBits(v: nat, n: nat)
    requires v < Pow2(n)
    ensures Val(Bits(v, n)) == v
    decreases n
  {
    if n > 0 {
      ValBits(v / 2, n - 1);
      assert Bits(v, n)[1..] == Bits(v / 2, n - 1);
    }
  }

  /** A bit string whose bits from `n` on are clear is worth less than 2^n. */
  lemma {:induction false} ValBound(x: seq<bool>, n: nat)
    requires forall i :: n <= i < |x| ==> !x[i]
    ensures Val(x) < Pow2(n)
  {
    if x != [] {
      if n == 0 {
        assert !x[0];
        ValBound(x[1..], 0);
      } else {
        ValBound(x[1..], n - 1);
      }
    }
  }

  lemma {:induction false} SubAfterAdd(x: seq<bool>, y: seq<bool>, c: bool)
    requires |x| == |y|
    ensures SubB(AddC(x, y, c), y, c) == x
  {
    if x != [] {
      var r := AddC(x, y, c);
      var c' := (x[0] && y[0]) || (c && (x[0] || y[0]));
      assert r[1..] == AddC(x[1..], y[1..], c');
      SubAfterAdd(x[1..], y[1..], c');
      assert [x[0]] + x[1..] == x;
    }
  }

  lemma {:induction false} AddAfterSub(x: seq<bool>, y: seq<bool>, b: bool)
    requires |x| == |y|
    ensures AddC(SubB(x, y, b), y, b) == x
  {
    if x != [] {
      var r := SubB(x, y, b);
      var b' := (!x[0] && (y[0] || b)) || (y[0] && b);
      assert r[1..] == SubB(x[1..], y[1..], b');
      AddAfterSub(x[1..], y[1..], b');
      assert [x[0]] + x[1..] == x;
    }
  }

  lemma {:induction false} AddZero(x: seq<bool>, y: seq<bool>)
    requires |x| == |y|
    requires forall i :: 0 <= i < |y| ==> !y[i]
    ensures AddC(x, y, false) == x
  {
    if x != [] {
      AddZero(x[1..], y[1..]);
      assert [x[0]] + x[1..] == x;
    }
  }

  lemma {:induction false} AddCommutes(x: seq<bool>, y: seq<bool>, c: bool)
    requires |x| == |y|
    ensures AddC(x, y, c) == AddC(y, x, c)
  {
    if x != [] {
      AddCommutes(x[1..], y[1..], (x[0] && y[0]) || (c && (x[0] || y[0])));
    }
  }

  lemma AddLeftZero(x: Word)
    ensures Add(Zero(), x) == x
  {
    AddCommutes(Zero(), x, false);
    AddZero(x, Zero());
  }

  lemma NegBack(x: Word)
    ensures Neg(Neg(x)) == x
  {
    var z := Zero();
    AddAfterSub(z, x, false);
    assert AddC(Neg(x), x, false) == z;
    AddCommutes(Neg(x), x, false);
    SubAfterAdd(x, Neg(x), false);
  }

  /** Subtracting a number with clear low bits leaves the low bits alone. */
  lemma {:induction false} SubKeepsLow(x: seq<bool>, y: seq<bool>, n: nat)
    requires |x| == |y|
    requires n <= |x|
    requires forall i :: 0 <= i < n ==> !y[i]
    ensures forall i :: 0 <= i < n ==> SubB(x, y, false)[i] == x[i]
  {
    if n > 0 {
      SubKeepsLow(x[1..], y[1..], n - 1);
    }
  }

  lemma FullAdder(x: bool, y: bool, c: bool)
    ensures Unit(x) + Unit(y) + Unit(c) ==
            Unit((x != y) != c) + 2 * Unit((x && y) || (c && (x || y)))
  {
  }

  /** One rippled addition is exact up to a single dropped carry. */
  lemma {:induction false} AddValue(x: seq<bool>, y: seq<bool>, c: bool)
    requires |x| == |y|
    ensures var total := Val(x) + Val(y) + Unit(c);
            Val(AddC(x, y, c)) == total || Val(AddC(x, y, c)) == total - Pow2(|x|)
  {
    if x != [] {
      var c' := (x[0] && y[0]) || (c && (x[0] || y[0]));
      AddValue(x[1..], y[1..], c');
      var r := AddC(x, y, c);
      assert r[1..] == AddC(x[1..], y[1..], c');
      assert r[0] == ((x[0] != y[0]) != c);
      FullAdder(x[0], y[0], c);
    }
  }

  lemma WrapOnce(v: int, w: int, m: nat)
    requires m > 0 && 0 <= v < m && (w == v || w == v + m || w == v - m)
    ensures v == w % m
  {
    if w == v + m {
      assert w % m == (v + m) % m;
    } else if w == v - m {
      assert v == w + m;
    }
  }

  /** `+` on n-bit words is addition modulo 2^n. */
  lemma AddIsModular(x: seq<bool>, y: seq<bool>)
    requires |x| == |y|
    ensures Val(AddC(x, y, false)) == (Val(x) + Val(y)) % Pow2(|x|)
  {
    hide Val, AddC, Pow2;
    AddValue(x, y, false);
    WrapOnce(Val(AddC(x, y, false)), Val(x) + Val(y), Pow2(|x|));
  }

  /** `-` on n-bit words is subtraction modulo 2^n. */
  lemma SubIsModular(x: seq<bool>, y: seq<bool>)
    requires |x| == |y|
    ensures Val(SubB(x, y, false)) == (Val(x) - Val(y)) % Pow2(|x|)
  {
    hide Val, AddC, SubB, Pow2;
    var d := SubB(x, y, false);
    AddAfterSub(x, y, false);
    AddValue(d, y, false);
    WrapOnce(Val(d), Val(x) - Val(y), Pow2(|x|));
  }
}
