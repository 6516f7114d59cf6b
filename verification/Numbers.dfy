/** Words as numbers: bits, shifts and constants in terms of division and remainder by
    powers of two. */
module Numbers {
  import opened Words

  /** Bit `i` of a number, in two's complement if it is negative. */
  predicate Bit(v: int, i: nat) { v / Pow2(i) % 2 == 1 }

  /** What 64 bits hold of a number. */
  function Wrap(v: int): (r: nat)
    ensures r < Pow2(64)
  {
    v % Pow2(64)
  }

  /** A word as a signed number. */
  function Int64(x: Word): int { if x[63] then Val(x) - Pow2(64) else Val(x) }

  // ---------------------------------------------------------------------
  // Division
  // ---------------------------------------------------------------------

  lemma MultipleBound(d: int, k: int)
    requires d > 0
    ensures k >= 1 ==> d * k >= d
    ensures k <= -1 ==> d * k <= -d
  {
    if k >= 1 {
      assert d * k == d + d * (k - 1) && d * (k - 1) >= 0;
    } else if k <= -1 {
      assert d * k == -d + d * (k + 1) && d * (k + 1) <= 0;
    }
  }

  lemma Quotient(w: int, d: int, q: int, r: int)
    requires 0 <= r < d && w == d * q + r
    ensures w / d == q && w % d == r
  {
    var a := w / d;
    MultipleBound(d, q - a);
    assert d * (q - a) == d * q - d * a == w % d - r;
  }

  lemma SameRemainder(v: int, w: int, d: int, k: int)
    requires d > 0 && v == w + d * k
    ensures v % d == w % d
  {
    var q := w / d;
    assert v == d * (q + k) + w % d by {
      assert d * (q + k) == d * q + d * k;
    }
    Quotient(v, d, q + k, w % d);
  }

  lemma {:induction false} Pow2Sum(m: nat, n: nat)
    ensures Pow2(m + n) == Pow2(m) * Pow2(n)
  {
    if m > 0 {
      Pow2Sum(m - 1, n);
    }
  }

  lemma DoublePower(n: nat)
    ensures Pow2(n + 1) == 2 * Pow2(n)
  {
  }

  lemma {:induction false} Pow2Grows(m: nat, n: nat)
    requires m <= n
    ensures Pow2(m) <= Pow2(n)
  {
    if m < n {
      Pow2Grows(m, n - 1);
    }
  }

  // ---------------------------------------------------------------------
  // Values of bit strings
  // ---------------------------------------------------------------------

  lemma {:induction false} ValAppend(x: seq<bool>, y: seq<bool>)
    ensures Val(x + y) == Val(x) + Pow2(|x|) * Val(y)
  {
    if x == [] {
      assert x + y == y;
    } else {
      ValAppend(x[1..], y);
      assert (x + y)[1..] == x[1..] + y;
      TwiceTimes(Pow2(|x| - 1), Val(y));
    }
  }

  lemma TwiceTimes(p: int, v: int)
    ensures 2 * p * v == 2 * (p * v)
  {
  }

  lemma {:induction false} ValClear(x: seq<bool>)
    requires forall i :: 0 <= i < |x| ==> !x[i]
    ensures Val(x) == 0
  {
    if x != [] {
      ValClear(x[1..]);
    }
  }

  lemma ValSplit(x: seq<bool>, n: nat)
    requires n <= |x|
    ensures Val(x) == Val(x[..n]) + Pow2(n) * Val(x[n..])
    ensures Val(x) / Pow2(n) == Val(x[n..]) && Val(x) % Pow2(n) == Val(x[..n])
  {
    hide Val;
    assert x == x[..n] + x[n..];
    ValAppend(x[..n], x[n..]);
    Quotient(Val(x), Pow2(n), Val(x[n..]), Val(x[..n]));
  }

  /** A bit of a word is that bit of its value. */
  lemma BitOfVal(x: seq<bool>, i: nat)
    requires i < |x|
    ensures x[i] <==> Bit(Val(x), i)
  {
    hide Pow2, Val;
    ValSplit(x, i);
    FirstBit(x[i..]);
  }

  lemma FirstBit(x: seq<bool>)
    requires x != []
    ensures Val(x) % 2 == Unit(x[0])
  {
  }

  /** Bits from the value's length on are clear. */
  lemma HighClear(x: seq<bool>, n: nat)
    requires Val(x) < Pow2(n) && n <= |x|
    ensures forall i :: n <= i < |x| ==> !x[i]
  {
    hide Val;
    forall i | n <= i < |x| ensures !x[i] {
      BitOfVal(x, i);
      Pow2Grows(n, i);
      Quotient(Val(x), Pow2(i), 0, Val(x));
    }
  }

  lemma {:induction false} BitsValue(v: nat, n: nat)
    ensures Val(Bits(v, n)) == v % Pow2(n)
    decreases n
  {
    if n > 0 {
      BitsValue(v / 2, n - 1);
      assert Bits(v, n)[1..] == Bits(v / 2, n - 1);
      HalfRemainder(v, Pow2(n - 1));
    }
  }

  lemma HalfRemainder(v: nat, p: nat)
    requires p > 0
    ensures v % (2 * p) == 2 * (v / 2 % p) + v % 2
  {
    var h := v / 2;
    var q, r := h / p, h % p;
    assert h == p * q + r;
    assert 2 * p * q == 2 * (p * q);
    Quotient(v, 2 * p, q, 2 * r + v % 2);
  }

  lemma QuotientBound(x: nat, y: nat)
    requires y > 0
    ensures 0 <= x / y <= x && 0 <= x % y <= x && x == x / y * y + x % y
  {
    var q := x / y;
    Division(x, y);
    if q < 0 {
      MultipleBound(y, q);
    }
    AtLeast(q, y);
  }

  lemma Division(x: int, y: int)
    requires y > 0
    ensures x == y * (x / y) + x % y && x == x / y * y + x % y && 0 <= x % y < y
  {
  }

  lemma AtLeast(q: int, y: int)
    requires y > 0
    ensures q >= 0 ==> q <= y * q
  {
    if q >= 0 {
      assert y * q == q + (y - 1) * q && (y - 1) * q >= 0;
    }
  }

  lemma FromNatValue(v: nat)
    ensures Val(FromNat(v)) == Wrap(v)
  {
    var z := Zero();
    BitsValue(v, |z|);
  }

  lemma SameVal(x: seq<bool>, y: seq<bool>)
    requires |x| == |y| && Val(x) == Val(y)
    ensures x == y
  {
    BitsVal(x);
    BitsVal(y);
  }

  lemma ZeroValue()
    ensures Val(Zero()) == 0
  {
    hide Val;
    ValClear(Zero());
  }

  lemma ZeroIff(x: Word)
    ensures x == Zero() <==> Val(x) == 0
  {
    hide Val;
    ZeroValue();
    if Val(x) == 0 {
      SameVal(x, Zero());
    }
  }

  // ---------------------------------------------------------------------
  // Shifts and constants
  // ---------------------------------------------------------------------

  lemma ShrValue(x: Word, n: nat)
    ensures Val(Shr(x, n)) == Val(x) / Pow2(n)
  {
    hide Val;
    var r := Shr(x, n);
    if n < 64 {
      ValSplit(x, n);
      assert r[..64 - n] == x[n..];
      ValSplit(r, 64 - n);
      ValClear(r[64 - n..]);
    } else {
      ValClear(r);
      Pow2Grows(64, n);
      Quotient(Val(x), Pow2(n), 0, Val(x));
    }
  }

  lemma ShlValue(x: Word, n: nat)
    ensures Val(Shl(x, n)) == Wrap(Val(x) * Pow2(n))
  {
    hide Val, Pow2;
    var r := Shl(x, n);
    if n < 64 {
      ValSplit(x, 64 - n);
      ValSplit(r, n);
      ValClear(r[..n]);
      assert r[n..] == x[..64 - n];
      Pow2Sum(n, 64 - n);
      DropHigh(Val(x[..64 - n]), Val(x[64 - n..]), Pow2(n), Pow2(64 - n));
    } else {
      ValClear(r);
      Pow2Sum(n - 64, 64);
      DropAll(Val(x), Pow2(n - 64), Pow2(64));
    }
  }

  lemma DropHigh(lo: nat, hi: nat, a: nat, b: nat)
    requires a > 0 && lo < b
    ensures a * b > 0 && (lo + b * hi) * a % (a * b) == a * lo
  {
    Positive(a, b);
    Positive(a, b - lo);
    DropParts(a, b, lo, hi);
    Quotient((lo + b * hi) * a, a * b, hi, a * lo);
  }

  lemma Positive(a: int, b: int)
    requires a > 0 && b > 0
    ensures a * b > 0
  {
    MultipleBound(a, b);
  }

  lemma DropParts(a: int, b: int, lo: int, hi: int)
    ensures (lo + b * hi) * a == a * b * hi + a * lo && a * (b - lo) == a * b - a * lo
  {
    assert (lo + b * hi) * a == lo * a + b * hi * a;
  }

  lemma DropAll(v: nat, a: nat, m: nat)
    requires m > 0
    ensures v * (a * m) % m == 0
  {
    assert v * (a * m) == m * (v * a);
    Quotient(v * (a * m), m, v * a, 0);
  }

  lemma {:induction false} ValSet(x: seq<bool>)
    requires forall i :: 0 <= i < |x| ==> x[i]
    ensures Val(x) == Pow2(|x|) - 1
  {
    if x != [] {
      ValSet(x[1..]);
    }
  }

  lemma OnesValue(n: nat)
    requires n <= 64
    ensures Val(Ones(n)) == Pow2(n) - 1
  {
    hide Val;
    ValSplit(Ones(n), n);
    ValSet(Ones(n)[..n]);
    ValClear(Ones(n)[n..]);
  }

  lemma OneHotValue(n: nat)
    requires n < 64
    ensures Val(OneHot(n)) == Pow2(n)
  {
    hide Val, Pow2;
    var r := OneHot(n);
    ValSplit(r, n);
    ValClear(r[..n]);
    OnlyFirst(r[n..]);
  }

  lemma OnlyFirst(x: seq<bool>)
    requires x != [] && x[0] && forall i :: 1 <= i < |x| ==> !x[i]
    ensures Val(x) == 1
  {
    ValClear(x[1..]);
  }

  lemma HighOnesValue(n: nat)
    requires n <= 64
    ensures Val(HighOnes(n)) == Pow2(64) - Pow2(n)
  {
    hide Val;
    ValSplit(HighOnes(n), n);
    ValClear(HighOnes(n)[..n]);
    ValSet(HighOnes(n)[n..]);
    Pow2Sum(n, 64 - n);
    assert Pow2(n) * (Pow2(64 - n) - 1) == Pow2(n) * Pow2(64 - n) - Pow2(n);
  }

  lemma {:induction false} NotSum(x: seq<bool>, y: seq<bool>)
    requires |x| == |y| && forall i :: 0 <= i < |x| ==> y[i] == !x[i]
    ensures Val(x) + Val(y) == Pow2(|x|) - 1
  {
    if x != [] {
      NotSum(x[1..], y[1..]);
    }
  }

  /** Clearing the low bits rounds down to a multiple. */
  lemma MaskLowValue(x: Word, n: nat)
    requires n <= 64
    ensures Val(And(x, HighOnes(n))) == Val(x) / Pow2(n) * Pow2(n)
  {
    hide Val;
    var r := And(x, HighOnes(n));
    ValSplit(x, n);
    ValSplit(r, n);
    ValClear(r[..n]);
    assert r[n..] == x[n..];
  }

  /** Keeping the low bits is the remainder. */
  lemma MaskHighValue(x: Word, n: nat)
    requires n <= 64
    ensures Val(And(x, Ones(n))) == Val(x) % Pow2(n)
  {
    hide Val;
    var r := And(x, Ones(n));
    ValSplit(x, n);
    ValSplit(r, n);
    ValClear(r[n..]);
    assert r[..n] == x[..n];
  }

  /** A word's value as a signed number lies between -2^63 and 2^63, and differs from the
      unsigned one by a multiple of 2^64. */
  lemma SignedValue(x: Word)
    ensures 0 - Pow2(63) <= Int64(x) < Pow2(63) && Wrap(Int64(x)) == Val(x)
    ensures Int64(x) == Val(x) || Int64(x) == Val(x) - Pow2(64)
  {
    hide Val, Pow2;
    ValSplit(x, 63);
    assert x[63..] == [x[63]];
    BitString(x[63]);
    DoublePower(63);
    if x[63] {
      Quotient(Int64(x), Pow2(64), -1, Val(x));
    } else {
      Quotient(Int64(x), Pow2(64), 0, Val(x));
    }
  }

  lemma BitString(b: bool)
    ensures Val([b]) == Unit(b)
  {
    assert [b][1..] == [];
  }

  lemma NegValue(x: Word)
    ensures Val(Neg(x)) == Wrap(0 - Val(x))
  {
    hide Val, SubB, Pow2;
    SubIsModular(Zero(), x);
    ZeroValue();
  }
}
