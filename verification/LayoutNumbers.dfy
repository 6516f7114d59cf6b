/** What the layout comes to on numbers: the numbers that emitted bytes spell, least
    significant byte first, what the data directives refuse, what a label is worth, and
    where `.align` goes on. */
module LayoutNumbers {
  import opened Options
  import opened Words
  import opened Exprs
  import opened Numbers
  import opened Fields
  import Layout

  type Byte = Layout.Byte

  // ---------------------------------------------------------------------
  // Bytes
  // ---------------------------------------------------------------------

  /** The number that bytes spell, least significant byte first. */
  function LeNumber(bs: seq<Byte>): nat {
    if bs == [] then 0 else Val(bs[0]) + 0x100 * LeNumber(bs[1..])
  }

  lemma BytePower()
    ensures Pow2(8) == 0x100
  {
  }

  lemma {:induction false} LeSnoc(bs: seq<Byte>, b: Byte)
    ensures LeNumber(bs + [b]) == LeNumber(bs) + Pow2(8 * |bs|) * Val(b)
  {
    hide Val;
    if bs == [] {
      assert bs + [b] == [b];
      assert [b][1..] == [];
      assert LeNumber([]) == 0;
    } else {
      assert (bs + [b])[1..] == bs[1..] + [b];
      LeSnoc(bs[1..], b);
      BytePower();
      Pow2Sum(8, 8 * |bs[1..]|);
      Regroup(Pow2(8 * |bs[1..]|), Val(b));
    }
  }

  lemma Regroup(p: int, v: int)
    ensures 0x100 * (p * v) == 0x100 * p * v
  {
  }

  /** Bytes cut out of a bit string one after the other spell its low part. */
  lemma {:induction false} CutBytes(x: seq<bool>, bs: seq<Byte>)
    requires 8 * |bs| <= |x| && forall j :: 0 <= j < |bs| ==> bs[j] == x[8 * j..8 * j + 8]
    ensures LeNumber(bs) == Val(x[..8 * |bs|])
    decreases |bs|
  {
    hide Val;
    if bs == [] {
      assert x[..0] == [];
      ValClear(x[..0]);
    } else {
      var n := |bs| - 1;
      CutBytes(x, bs[..n]);
      LeSnoc(bs[..n], bs[n]);
      assert bs == bs[..n] + [bs[n]];
      assert x[..8 * |bs|] == x[..8 * n] + bs[n];
      ValAppend(x[..8 * n], bs[n]);
    }
  }

  lemma WordNumber(w: Word, n: nat)
    requires n <= 8
    ensures LeNumber(Layout.WordBytes(w, n)) == Val(w) % Pow2(8 * n)
  {
    hide Val;
    CutBytes(w, Layout.WordBytes(w, n));
    ValSplit(w, 8 * n);
  }

  function CodeBits(c: Code): (x: seq<bool>)
    ensures |x| == 128
  {
    var low: seq<bool> := c[0];
    low + c[1]
  }

  /** The number that a 128-bit opcode is. */
  function CodeNumber(c: Code): nat { Val(c[0]) + Pow2(64) * Val(c[1]) }

  /** The bytes of an instruction are the opcode, least significant byte first. */
  lemma InsnBytes(c: Code, n: nat)
    requires n <= 8 * MAXOPLEN
    ensures LeNumber(Layout.CodeBytes(c, n)) == CodeNumber(c) % Pow2(8 * n)
  {
    hide Val, Pow2;
    var x := CodeBits(c);
    ValAppend(c[0], c[1]);
    forall j | 0 <= j < n ensures Layout.CodeByte(c, j) == x[8 * j..8 * j + 8] {
      ByteInWord(c, j);
    }
    CutBytes(x, Layout.CodeBytes(c, n));
    ValSplit(x, 8 * n);
  }

  lemma ByteInWord(c: Code, j: nat)
    requires j < 16
    ensures Layout.CodeByte(c, j) == CodeBits(c)[8 * j..8 * j + 8]
  {
    if j >= 8 {
      assert j / 8 == 1 && j % 8 == j - 8;
    }
  }

  /** Padding is bytes of 0. */
  lemma PaddingIsZero()
    ensures Val(Layout.ZeroByte()) == 0
  {
    hide Val;
    ValClear(Layout.ZeroByte());
  }

  // ---------------------------------------------------------------------
  // Data directives
  // ---------------------------------------------------------------------

  /** A number of `bits` bits as a signed one. */
  function Signed(bits: nat, v: int): int
    requires bits > 0
  {
    if v >= Pow2(bits - 1) then v - Pow2(bits) else v
  }

  /** `bs` is `v` as the directive writes it: modulo the size; exactly, where the directive
      checks the range. */
  ghost predicate Spells(kind: Layout.DataKind, bs: seq<Byte>, v: Word) {
    && LeNumber(bs) == Val(v) % Pow2(8 * |bs|)
    && (kind.Unsigned? ==> LeNumber(bs) == Val(v))
    && (kind.Signed? ==> |bs| > 0 && Signed(8 * |bs|, LeNumber(bs)) == Int64(v))
  }

  /** The values that `.uN` and `.sN` take. */
  ghost predicate Representable(kind: Layout.DataKind, bytes: nat, v: Word)
    requires 1 <= bytes
  {
    match kind
    case Bare => true
    case Unsigned => Val(v) < Pow2(8 * bytes)
    case Signed => 0 - Pow2(8 * bytes - 1) <= Int64(v) < Pow2(8 * bytes - 1)
  }

  lemma FitsNumbers(kind: Layout.DataKind, bytes: nat, v: Word)
    requires 1 <= bytes <= 8
    ensures Layout.FitsData(kind, bytes, v) <==> Representable(kind, bytes, v)
  {
    hide Val, Pow2;
    SignedValue(v);
    var b := 8 * bytes - 1;
    HighOnesValue(b);
    Pow2Grows(b, 63);
    DoublePower(63);
  }

  lemma WrittenSpells(kind: Layout.DataKind, bytes: nat, v: Word)
    requires 1 <= bytes <= 8 && Representable(kind, bytes, v)
    ensures Spells(kind, Layout.WordBytes(v, bytes), v)
  {
    hide Val, Pow2;
    WordNumber(v, bytes);
    var b, p := 8 * bytes, Pow2(8 * bytes);
    SignedValue(v);
    DoublePower(b - 1);
    if kind.Unsigned? {
      Quotient(Val(v), p, 0, Val(v));
    }
    if kind.Signed? {
      Pow2Sum(b, 64 - b);
      LowPart(Int64(v), Val(v), p, Pow2(64 - b));
    }
  }

  /** A number between -p/2 and p/2, as 64 bits hold it, has its own remainder. */
  lemma LowPart(n: int, v: nat, p: nat, q: nat)
    requires p > 0 && (n == v || n == v - p * q) && 0 - p <= n < p
    ensures v % p == if n < 0 then n + p else n
  {
    if n == v {
      Quotient(v, p, 0, v);
    } else if n < 0 {
      assert p * (q - 1) == p * q - p;
      Quotient(v, p, q - 1, n + p);
    } else {
      Quotient(v, p, q, n);
    }
  }

  /** What stands in a buffer after a data directive: its parameters, one after the other. */
  ghost predicate Lists(kind: Layout.DataKind, bytes: nat, params: seq<Expr>, labels: map<string, Word>,
                        bs: seq<Byte>) {
    && |bs| == bytes * |params|
    && forall i :: 0 <= i < |params| ==>
         && 0 <= bytes * i <= bytes * i + bytes <= |bs| && Eval(params[i], LabelEnv(labels)).Some?
         && Spells(kind, bs[bytes * i..bytes * i + bytes], Eval(params[i], LabelEnv(labels)).value)
  }

  /** What stands in a buffer, from `at` on, are the parameters of a data line. */
  ghost predicate LineLists(line: Layout.Line, labels: map<string, Word>, code: seq<Byte>, at: nat)
    requires line.DataLine?
  {
    && at + Layout.DataSize(line) <= |code|
    && Lists(line.kind, line.bytes, line.params, labels, code[at..at + Layout.DataSize(line)])
  }

  lemma {:induction false} DataLists(kind: Layout.DataKind, bytes: nat, params: seq<Expr>, labels: map<string, Word>)
    requires 1 <= bytes <= 8 && Layout.DataBytes(kind, bytes, params, labels).Some?
    ensures Lists(kind, bytes, params, labels, Layout.DataBytes(kind, bytes, params, labels).value)
    decreases |params|
  {
    hide Spells, Eval, Layout.WordBytes, Layout.FitsData, Representable;
    if params != [] {
      var n := |params| - 1;
      DataLists(kind, bytes, params[..n], labels);
      var before := Layout.DataBytes(kind, bytes, params[..n], labels).value;
      var v := Layout.DataValue(kind, bytes, params[n], labels).value;
      FitsNumbers(kind, bytes, v);
      WrittenSpells(kind, bytes, v);
      ListsSnoc(kind, bytes, params, labels, before, Layout.WordBytes(v, bytes));
    }
  }

  lemma ListsSnoc(kind: Layout.DataKind, bytes: nat, params: seq<Expr>, labels: map<string, Word>, before: seq<Byte>,
                  last: seq<Byte>)
    requires params != [] && |last| == bytes && Eval(params[|params| - 1], LabelEnv(labels)).Some?
    requires Lists(kind, bytes, params[..|params| - 1], labels, before)
    requires Spells(kind, last, Eval(params[|params| - 1], LabelEnv(labels)).value)
    ensures Lists(kind, bytes, params, labels, before + last)
  {
    hide Spells, Eval;
    var n := |params| - 1;
    assert bytes * |params| == bytes * n + bytes;
    forall i | 0 <= i < |params|
      ensures 0 <= bytes * i <= bytes * i + bytes <= |before + last| && Eval(params[i], LabelEnv(labels)).Some?
      ensures Spells(kind, (before + last)[bytes * i..bytes * i + bytes], Eval(params[i], LabelEnv(labels)).value)
    {
      if i < n {
        assert params[..n][i] == params[i];
        assert 0 <= bytes * i <= bytes * i + bytes <= |before|;
        assert (before + last)[bytes * i..bytes * i + bytes] == before[bytes * i..bytes * i + bytes];
      } else {
        assert (before + last)[bytes * i..bytes * i + bytes] == last;
      }
    }
  }

  /** A parameter cannot be computed or is out of range. */
  ghost predicate Refused(kind: Layout.DataKind, bytes: nat, params: seq<Expr>, labels: map<string, Word>)
    requires 1 <= bytes
  {
    exists i :: 0 <= i < |params|
                && (Eval(params[i], LabelEnv(labels)).None?
                    || !Representable(kind, bytes, Eval(params[i], LabelEnv(labels)).value))
  }

  /** A data directive stops the program exactly if one of its parameters is refused. */
  lemma {:induction false} DataRefused(kind: Layout.DataKind, bytes: nat, params: seq<Expr>, labels: map<string, Word>)
    requires 1 <= bytes <= 8
    ensures Layout.DataBytes(kind, bytes, params, labels).None? <==> Refused(kind, bytes, params, labels)
    decreases |params|
  {
    hide Eval, Representable, Layout.FitsData;
    if params != [] {
      var n := |params| - 1;
      DataRefused(kind, bytes, params[..n], labels);
      var v := Eval(params[n], LabelEnv(labels));
      if v.Some? {
        FitsNumbers(kind, bytes, v.value);
      }
      assert forall i :: 0 <= i < n ==> params[..n][i] == params[i];
    }
  }

  // ---------------------------------------------------------------------
  // Positions
  // ---------------------------------------------------------------------

  /** An address is `base + offset / stride`, in 64 bits. */
  lemma AddressNumber(p: Layout.Place, stride: nat)
    requires Layout.ValidPlace(p) && stride > 0
    ensures Val(Layout.Address(p, stride)) == Wrap(p.secs[p.cur].pos / stride + Val(p.secs[p.cur].base))
  {
    hide Val, AddC, FromNat, Pow2;
    QuotientBound(p.secs[p.cur].pos, stride);
    var q: nat := p.secs[p.cur].pos / stride;
    FromNatValue(q);
    AddIsModular(FromNat(q), p.secs[p.cur].base);
    Division(q, Pow2(64));
    SameRemainder(q + Val(p.secs[p.cur].base), Wrap(q) + Val(p.secs[p.cur].base), Pow2(64), q / Pow2(64));
  }

  /** `.align n` goes on at the first multiple of `n` that is not behind the position;
      `.skip n` goes on `n` bytes further; `.size n` goes on at `n`, or stops the run behind it. */
  lemma PaddingGoes(p: Layout.Place, n: nat, len: nat)
    requires Layout.ValidPlace(p)
    ensures n > 0 ==>
      var q := Layout.StepPlace(Layout.AlignLine(n), len, p);
      && q.Some? && p.secs[p.cur].pos <= q.value.secs[p.cur].pos && q.value.secs[p.cur].pos % n == 0
      && forall m :: p.secs[p.cur].pos <= m && m % n == 0 ==> q.value.secs[p.cur].pos <= m
    ensures var q := Layout.StepPlace(Layout.SkipLine(n), len, p);
            q.Some? && q.value.secs[p.cur].pos == p.secs[p.cur].pos + n
    ensures var q := Layout.StepPlace(Layout.SizeLine(n), len, p);
            && (q.None? <==> p.secs[p.cur].pos > n)
            && (q.Some? ==> q.value.secs[p.cur].pos == n)
  {
    if n > 0 {
      var pos := p.secs[p.cur].pos;
      var k := (pos + n - 1) / n;
      Layout.AlignUp(pos, n);
      Quotient(k * n, n, k, 0);
      forall m | pos <= m && m % n == 0 ensures k * n <= m {
        Division(m, n);
        SpreadMultiple(k, m / n, n);
        MultipleBound(n, k - m / n);
      }
    }
  }

  lemma SpreadMultiple(k: int, q: int, n: int)
    ensures n * (k - q) == k * n - q * n
  {
  }

  /** The position of a section. */
  function PosIn(p: Layout.Place, j: nat): nat
    requires j < |p.secs|
  {
    p.secs[j].pos
  }

  /** A line of code or data moves its own section on by its length and no other one; labels
      and `.equ` move nothing. */
  lemma LineGoes(line: Layout.Line, p: Layout.Place, len: nat)
    requires Layout.ValidLine(line) && Layout.ValidPlace(p) && !line.BadLine? && !line.SectionLine?
    requires Layout.StepPlace(line, len, p).Some?
    ensures var q := Layout.StepPlace(line, len, p).value;
            && q.cur == p.cur && |q.secs| == |p.secs|
            && (forall j :: 0 <= j < |p.secs| && j != p.cur ==> q.secs[j] == p.secs[j])
            && (line.InsnLine? ==> PosIn(q, p.cur) == PosIn(p, p.cur) + len)
            && (line.DataLine? ==> PosIn(q, p.cur) == PosIn(p, p.cur) + line.bytes * |line.params|)
            && (line.LabelLine? || line.EquLine? ==> q == p)
  {
  }

  /** `.section` goes on where the section of that name was left, or starts a new one, at offset
      0 and with the base that is given, or 0. */
  lemma SectionGoes(p: Layout.Place, name: string, base: Option<Word>, len: nat)
    requires Layout.ValidPlace(p) && Layout.DistinctNames(p.secs)
    ensures var q := Layout.StepPlace(Layout.SectionLine(name, base), len, p);
            && q.Some? && q.value.cur < |q.value.secs| && q.value.secs[q.value.cur].name == name
            && (forall j :: 0 <= j < |p.secs| ==> j < |q.value.secs| && q.value.secs[j] == p.secs[j])
            && if exists j :: 0 <= j < |p.secs| && p.secs[j].name == name then q.value.secs == p.secs
               else
                 && |q.value.secs| == |p.secs| + 1 && q.value.cur == |p.secs| && PosIn(q.value, |p.secs|) == 0
                 && Val(q.value.secs[|p.secs|].base) == if base.Some? then Val(base.value) else 0
  {
    hide Val;
    ZeroValue();
  }

  /** A source starts at address 0 of the section named "default". */
  lemma StartsAtZero(stride: nat)
    requires stride > 0
    ensures Layout.ValidPlace(Layout.Start()) && Layout.Start().secs[Layout.Start().cur].name == "default"
    ensures Val(Layout.Address(Layout.Start(), stride)) == 0
  {
    hide Val, Layout.Address;
    AddressNumber(Layout.Start(), stride);
    ZeroValue();
    Quotient(0, stride, 0, 0);
    Quotient(0, Pow2(64), 0, 0);
  }

  /** What the first pass stops at: a line it does not understand, a name defined twice, a value
      that cannot be computed or has something else than numbers and names in it, and a
      position behind a `.size`. */
  lemma WhatStops(line: Layout.Line, len: nat, stride: nat, st: Layout.Scan)
    requires Layout.ValidLine(line) && Layout.ValidPlace(st.place) && stride > 0
    ensures Layout.StepScan(line, len, stride, st).None? <==>
            match line
            case BadLine => true
            case LabelLine(name) => name in st.labels
            case EquLine(name, e) => name in st.labels || !IsImm(e) || Eval(e, LabelEnv(st.labels)).None?
            case SizeLine(n) => PosIn(st.place, st.place.cur) > n
            case DataLine(_, _, params) => exists i :: 0 <= i < |params| && !IsImm(params[i])
            case _ => false
  {
    hide Eval, Layout.Address;
  }
}
