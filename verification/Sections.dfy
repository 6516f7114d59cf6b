/** The growing code buffer of one section: `extend`, and the loops of the second
    pass that write instruction bytes, padding and data into it. */
module Sections {
  import opened Options
  import opened Words
  import opened Exprs
  import opened Fields
  import opened Layout
  import LayoutNumbers

  /** `struct section`; the allocated size `maxpos` is the length of `code`. */
  datatype Section = Section(name: string, base: Word, pos: nat, code: seq<Byte>)

  /** Memory fresh from the allocator holds anything at all. */
  method Garbage(n: nat) returns (bytes: seq<Byte>)
    ensures |bytes| == n
  {
    assert |seq(n, _ => ZeroByte())| == n;
    bytes :| |bytes| == n;
  }

  predicate ByteAt(code: seq<Byte>, i: nat, b: Byte) { i < |code| && code[i] == b }

  /** The bytes `bs` stand in `code` from `at` on. */
  ghost predicate Stands(code: seq<Byte>, at: nat, bs: seq<Byte>) {
    forall k :: 0 <= k < |bs| ==> ByteAt(code, at + k, bs[k])
  }

  /** `t` is `s` after the bytes `bs` were written at its position. */
  ghost predicate Appended(s: Section, t: Section, bs: seq<Byte>) {
    && t.name == s.name && t.base == s.base
    && t.pos == s.pos + |bs| <= |t.code|
    && Stands(t.code, s.pos, bs)
    && |s.code| <= |t.code|
    && (forall k :: 0 <= k < s.pos && k < |s.code| ==> t.code[k] == s.code[k])
  }

  /** `extend`: double the buffer until `add` bytes fit behind the position. */
  method Extend(s: Section, add: nat) returns (t: Section)
    ensures t == s.(code := t.code) && s.pos + add < |t.code|
    ensures |s.code| <= |t.code| && forall k :: 0 <= k < |s.code| ==> t.code[k] == s.code[k]
  {
    t := s;
    while t.pos + add >= |t.code|
      invariant t == s.(code := t.code)
      invariant |s.code| <= |t.code| && forall k :: 0 <= k < |s.code| ==> t.code[k] == s.code[k]
      decreases t.pos + add + 1 - |t.code|
    {
      var grown := Garbage(if |t.code| == 0 then 256 else |t.code|);
      t := t.(code := t.code + grown);
    }
  }

  /** The byte loop of an instruction line. */
  method EmitCode(s: Section, val: Code, n: nat) returns (t: Section)
    requires n <= 8 * MAXOPLEN
    ensures Appended(s, t, CodeBytes(val, n))
    ensures LayoutNumbers.LeNumber(t.code[s.pos..t.pos]) == LayoutNumbers.CodeNumber(val) % Pow2(8 * n)
  {
    t := Extend(s, n);
    ghost var grown := t;
    var j := 0;
    while j < n
      invariant 0 <= j <= n
      invariant t == s.(code := t.code, pos := s.pos + j) && |t.code| == |grown.code|
      invariant forall k :: 0 <= k < j ==> t.code[s.pos + k] == CodeByte(val, k)
      invariant forall k :: 0 <= k < s.pos ==> t.code[k] == grown.code[k]
    {
      t := t.(code := t.code[t.pos := CodeByte(val, j)], pos := t.pos + 1);
      j := j + 1;
    }
    assert t.code[s.pos..t.pos] == CodeBytes(val, n);
    LayoutNumbers.InsnBytes(val, n);
  }

  /** `.align`, `.size` and `.skip`: move on and clear what was stepped over. */
  method EmitZeros(s: Section, pos: nat) returns (t: Section)
    requires s.pos <= pos
    ensures Appended(s, t, seq(pos - s.pos, _ => ZeroByte()))
  {
    t := Extend(s.(pos := pos), 0);
    ghost var grown := t;
    var j := s.pos;
    while j < pos
      invariant s.pos <= j <= pos < |t.code| == |grown.code|
      invariant t == s.(code := t.code, pos := pos)
      invariant forall k :: s.pos <= k < j ==> t.code[k] == ZeroByte()
      invariant forall k :: 0 <= k < s.pos ==> t.code[k] == grown.code[k]
    {
      t := t.(code := t.code[j := ZeroByte()]);
      j := j + 1;
    }
  }

  /** The value loop of `donum`: one parameter, `bytes` bytes at offset `at`. */
  method PutWord(code: seq<Byte>, at: nat, v: Word, bytes: nat) returns (r: seq<Byte>)
    requires bytes <= 8 && at + bytes <= |code|
    ensures |r| == |code| && Stands(r, at, WordBytes(v, bytes))
    ensures forall k :: 0 <= k < |code| && !(at <= k < at + bytes) ==> r[k] == code[k]
  {
    r := code;
    var j := 0;
    while j < bytes
      invariant 0 <= j <= bytes && |r| == |code|
      invariant forall k :: 0 <= k < j ==> r[at + k] == WordByte(v, k)
      invariant forall k :: 0 <= k < |code| && !(at <= k < at + j) ==> r[k] == code[k]
    {
      r := r[at + j := WordByte(v, j)];
      j := j + 1;
    }
  }

  lemma DataSnoc(kind: DataKind, bytes: nat, params: seq<Expr>, labels: map<string, Word>, i: nat)
    requires 1 <= bytes <= 8 && i < |params|
    ensures DataBytes(kind, bytes, params[..i + 1], labels) ==
            match DataBytes(kind, bytes, params[..i], labels)
            case None => None
            case Some(before) =>
              var v := DataValue(kind, bytes, params[i], labels);
              if v.None? then None else Some(before + WordBytes(v.value, bytes))
  {
    assert params[..i + 1][..i] == params[..i];
  }

  lemma {:induction false} DataPrefix(kind: DataKind, bytes: nat, params: seq<Expr>, labels: map<string, Word>, i: nat)
    requires 1 <= bytes <= 8 && i <= |params| && DataBytes(kind, bytes, params, labels).Some?
    ensures DataBytes(kind, bytes, params[..i], labels).Some?
    decreases |params|
  {
    if i < |params| {
      DataPrefix(kind, bytes, params[..|params| - 1], labels, i);
      assert params[..|params| - 1][..i] == params[..i];
    } else {
      assert params[..i] == params;
    }
  }

  /** `donum` with writing enabled, for parameters already known to be computable
      expressions; `ok` is false where the source stops the program. */
  method EmitData(s: Section, kind: DataKind, bytes: nat, params: seq<Expr>, labels: map<string, Word>)
    returns (ok: bool, t: Section)
    requires 1 <= bytes <= 8
    ensures ok <==> DataBytes(kind, bytes, params, labels).Some?
    ensures ok ==> Appended(s, t, DataBytes(kind, bytes, params, labels).value)
    ensures ok ==> LayoutNumbers.Lists(kind, bytes, params, labels, t.code[s.pos..t.pos])
    ensures !ok <==> LayoutNumbers.Refused(kind, bytes, params, labels)
  {
    hide DataBytes, Stands, LayoutNumbers.Lists, LayoutNumbers.Refused;
    var code;
    ok, code := PutAll(s, kind, bytes, params, labels);
    DataLengthIf(kind, bytes, params, labels);
    LayoutNumbers.DataRefused(kind, bytes, params, labels);
    t := Section(s.name, s.base, s.pos + bytes * |params|, code);
    if ok {
      StandsThere(code, s.pos, DataBytes(kind, bytes, params, labels).value);
      LayoutNumbers.DataLists(kind, bytes, params, labels);
    }
  }

  lemma StandsThere(code: seq<Byte>, at: nat, bs: seq<Byte>)
    requires Stands(code, at, bs) && at + |bs| <= |code|
    ensures code[at..at + |bs|] == bs
  {
    forall k | 0 <= k < |bs| ensures code[at..at + |bs|][k] == bs[k] {
      assert ByteAt(code, at + k, bs[k]);
    }
  }

  lemma DataLengthIf(kind: DataKind, bytes: nat, params: seq<Expr>, labels: map<string, Word>)
    requires 1 <= bytes <= 8
    ensures var d := DataBytes(kind, bytes, params, labels); d.Some? ==> |d.value| == bytes * |params|
  {
    if DataBytes(kind, bytes, params, labels).Some? {
      DataLength(kind, bytes, params, labels);
    }
  }

  lemma DataFails(kind: DataKind, bytes: nat, params: seq<Expr>, labels: map<string, Word>, i: nat)
    requires 1 <= bytes <= 8 && i < |params| && DataValue(kind, bytes, params[i], labels).None?
    ensures DataBytes(kind, bytes, params, labels).None?
  {
    DataSnoc(kind, bytes, params, labels, i);
    if DataBytes(kind, bytes, params, labels).Some? {
      DataPrefix(kind, bytes, params, labels, i + 1);
    }
  }

  /** The parameter loop of `donum`. */
  method PutAll(s: Section, kind: DataKind, bytes: nat, params: seq<Expr>, labels: map<string, Word>)
    returns (ok: bool, code: seq<Byte>)
    requires 1 <= bytes <= 8
    ensures ok <==> DataBytes(kind, bytes, params, labels).Some?
    ensures ok ==> Stands(code, s.pos, DataBytes(kind, bytes, params, labels).value)
    ensures |s.code| <= |code| && s.pos + bytes * |params| < |code|
    ensures forall k :: 0 <= k < s.pos && k < |s.code| ==> code[k] == s.code[k]
  {
    hide DataBytes, Stands, WordBytes, DataValue;
    var t := Extend(s, bytes * |params|);
    code := t.code;
    ghost var done: seq<Byte> := [];
    var i, at := 0, s.pos;
    NoData(kind, bytes, params, labels, code, s.pos);
    while i < |params|
      invariant 0 <= i <= |params| && |code| == |t.code|
      invariant DataBytes(kind, bytes, params[..i], labels) == Some(done) && at == s.pos + |done| == s.pos + bytes * i
      invariant Stands(code, s.pos, done)
      invariant forall k :: 0 <= k < s.pos && k < |s.code| ==> code[k] == s.code[k]
    {
      var num := DataValue(kind, bytes, params[i], labels);
      if num.None? {
        DataFails(kind, bytes, params, labels, i);
        return false, code;
      }
      DataSnoc(kind, bytes, params, labels, i);
      Room(i, |params|, bytes);
      var next := PutWord(code, at, num.value, bytes);
      StandsSnoc(code, next, s.pos, done, WordBytes(num.value, bytes));
      done := done + WordBytes(num.value, bytes);
      code, i, at := next, i + 1, at + bytes;
    }
    assert params[..i] == params;
    ok := true;
  }

  lemma NoData(kind: DataKind, bytes: nat, params: seq<Expr>, labels: map<string, Word>, code: seq<Byte>, at: nat)
    requires 1 <= bytes <= 8
    ensures DataBytes(kind, bytes, params[..0], labels) == Some([]) && Stands(code, at, [])
  {
  }

  lemma StandsSnoc(code: seq<Byte>, next: seq<Byte>, at: nat, done: seq<Byte>, more: seq<Byte>)
    requires Stands(code, at, done) && |next| == |code|
    requires Stands(next, at + |done|, more)
    requires forall k :: 0 <= k < at + |done| && k < |code| ==> next[k] == code[k]
    ensures Stands(next, at, done + more)
  {
    forall k | 0 <= k < |done + more| ensures ByteAt(next, at + k, (done + more)[k]) {
      if k >= |done| {
        assert ByteAt(next, at + |done| + (k - |done|), more[k - |done|]);
      } else {
        assert ByteAt(code, at + k, done[k]);
      }
    }
  }

  lemma Room(i: nat, n: nat, bytes: nat)
    requires i < n
    ensures bytes * i + bytes == bytes * (i + 1) <= bytes * n
  {
    assert bytes * (i + 1) <= bytes * n;
  }
}
