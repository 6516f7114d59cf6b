/** From records to bytes and back: a written trace is parsed as the records that were
    written, and whatever is parsed was a written record. */
module TraceRoundTrip {
  import opened Options
  import opened Stream
  import opened TraceFormat

  /** The bytes `b` stand in the stream from `p` on. */
  ghost predicate Stands(s: seq<Byte>, p: nat, b: seq<Byte>) { p + |b| <= |s| && s[p..p + |b|] == b }

  lemma StandsPart(s: seq<Byte>, p: nat, b: seq<Byte>, c: seq<Byte>)
    requires Stands(s, p, b + c)
    ensures Stands(s, p, b) && Stands(s, p + |b|, c)
  {
    assert (b + c)[..|b|] == b && (b + c)[|b|..] == c;
    assert s[p..p + |b|] == s[p..p + |b + c|][..|b|];
    assert s[p + |b|..p + |b + c|] == s[p..p + |b + c|][|b|..];
  }

  lemma StandsJoined(s: seq<Byte>, p: nat, b: seq<Byte>, c: seq<Byte>)
    requires Stands(s, p, b) && Stands(s, p + |b|, c)
    ensures Stands(s, p, b + c)
  {
    var q := p + |b|;
    assert s[p..q + |c|] == s[p..q] + s[q..q + |c|];
  }

  lemma StandsSlice(s: seq<Byte>, p: nat, b: seq<Byte>, i: nat, j: nat)
    requires Stands(s, p, b) && i <= j <= |b|
    ensures p + j <= |s| && s[p + i..p + j] == b[i..j]
  {
    forall k | 0 <= k < j - i ensures s[p + i..p + j][k] == b[i..j][k] {
      assert s[p..p + |b|][i + k] == s[p + i + k];
    }
  }

  // ---------------------------------------------------------------------
  // Sizes
  // ---------------------------------------------------------------------

  /** Where the parts of an encoded record are. */
  lemma Parts(m: Message)
    requires OkMessage(m)
    ensures var f := FormatOf(m.nv, m.mark).value;
            var b, n := Encode(m), Front(m.nv, f);
            && |b| == Sized(m.nv, m.mark).base + |m.data| && b[|b| - 1] == 10
            && b[0] == CharByte(if m.nv then 'n' else m.mark) && (m.nv ==> b[1] == CharByte(m.mark))
            && (f.tail.Tail8? ==> b[n] == |m.data|)
            && (f.tail.Tail32? ==> n + 4 <= |b| && LeValue(b[n..n + 4]) == |m.data|)
  {
    hide FormatOf, FieldBytes, OkValues, LeValue;
    var f := FormatOf(m.nv, m.mark).value;
    var tag, fields, len := Tag(m.nv, m.mark), FieldBytes(f.fields, m.values), LengthBytes(f.tail, |m.data|);
    FiveParts(tag, fields, len, m.data);
    if f.tail.Tail8? {
      OneByte(|m.data|);
    } else if f.tail.Tail32? {
      LeRoundTrip(|m.data|, 4);
    }
  }

  lemma OneByte(v: nat)
    requires v < 0x100
    ensures LeBytes(v, 1) == [v]
  {
    assert LeBytes(v / 0x100, 0) == [];
  }

  lemma FiveParts(tag: seq<Byte>, fields: seq<Byte>, len: seq<Byte>, data: seq<Byte>)
    requires tag != []
    ensures var b := tag + fields + len + data + [10];
            var n := |tag| + |fields|;
            && b[|b| - 1] == 10 && b[0] == tag[0] && (|tag| > 1 ==> b[1] == tag[1])
            && b[n..n + |len|] == len && (|len| > 0 ==> b[n] == len[0])
  {
  }

  /** An encoded record has its own size, if it fits the window. */
  lemma MessageSize(s: seq<Byte>, p: nat, pfx: nat, m: Message)
    requires OkMessage(m) && Stands(s, p + pfx, Encode(m))
    ensures var r := SizeAt(s, p, pfx, Sized(m.nv, m.mark));
            if pfx + |Encode(m)| <= BUF then r == Size(|Encode(m)|)
            else r.NoSize? && (r.reason.TooBig? || r.reason.TooLong?)
  {
    hide Encode, FormatOf, LeValue;
    Parts(m);
    var f, b, sh := FormatOf(m.nv, m.mark).value, Encode(m), Sized(m.nv, m.mark);
    var n, q := Front(m.nv, f), p + pfx;
    StandsSlice(s, q, b, |b| - 1, |b|);
    if f.tail.Tail8? {
      StandsSlice(s, q, b, n, n + 1);
    } else if f.tail.Tail32? {
      StandsSlice(s, q, b, n, n + 4);
    }
    assert LengthAt(s, q, sh) == |m.data|;
  }

  lemma MessageKind(s: seq<Byte>, p: nat, m: Message)
    requires OkMessage(m) && Stands(s, p, Encode(m))
    ensures p + (if m.nv then 2 else 1) <= |s|
    ensures KindAt(s, p) == KindFor(m.nv, m.mark) && (s[p] as char == 'n' <==> m.nv)
    ensures m.nv ==> s[p + 1] == CharByte(m.mark)
  {
    hide Encode, NvKind, TopKind, KindFor, Sized;
    Parts(m);
    var b := Encode(m);
    StandsSlice(s, p, b, 0, 1);
    MarkIsByte(m.nv, m.mark);
    if m.nv {
      StandsSlice(s, p, b, 1, 2);
    }
    KindOfByte(CharByte(m.mark), m.nv);
  }

  lemma MarkIsByte(nv: bool, c: char)
    requires FormatOf(nv, c).Some?
    ensures CharByte(c) as char == c && CharByte('n') as char == 'n'
    ensures if nv then c != 'o' else c != 'n' && c != 'y'
  {
  }

  /** A record that no dumps follow, with anything in front of it and behind it, is parsed
      as exactly its bytes, and the next one is looked for right behind it; the one thing
      that can be wrong with it is that it is too long for the window. */
  lemma MessageParses(before: seq<Byte>, m: Message, behind: seq<Byte>, handled: set<char>)
    requires OkMessage(m) && !IsIoctl(m.mark)
    ensures var r := ParseAt(before + Encode(m) + behind, |before|, handled);
            if |Encode(m)| <= 0x1_0000 then r == Rec(Record(Encode(m), []), |before| + |Encode(m)|)
            else r.Fail? && (r.reason.TooBig? || r.reason.TooLong?)
  {
    hide Encode, KindAt, SizeAt, Sized;
    var s, p := before + Encode(m) + behind, |before|;
    assert Stands(s, p, Encode(m));
    MessageAt(s, p, m, handled);
  }

  lemma MessageAt(s: seq<Byte>, p: nat, m: Message, handled: set<char>)
    requires OkMessage(m) && !IsIoctl(m.mark) && Stands(s, p, Encode(m))
    ensures var r := ParseAt(s, p, handled);
            if |Encode(m)| <= BUF then r == Rec(Record(Encode(m), []), p + |Encode(m)|)
            else r.Fail? && (r.reason.TooBig? || r.reason.TooLong?)
  {
    hide Encode, KindAt, SizeAt, Sized;
    MessageKind(s, p, m);
    MessageSize(s, p, 0, m);
  }

  lemma CutSize(s: seq<Byte>, p: nat, m: Message, k: nat)
    requires OkMessage(m) && |Encode(m)| <= BUF && 0 < k < |Encode(m)| && (m.nv ==> 2 <= k)
    requires Stands(s, p, Encode(m)[..k]) && p + k == |s|
    ensures SizeAt(s, p, 0, Sized(m.nv, m.mark)) == NoSize(Eof)
  {
    hide Encode, FormatOf, LeValue;
    Parts(m);
    var f, b, sh := FormatOf(m.nv, m.mark).value, Encode(m), Sized(m.nv, m.mark);
    var n := Front(m.nv, f);
    if sh.base <= k {
      if f.tail.Tail8? {
        StandsSlice(s, p, b[..k], n, n + 1);
        assert s[p + n] == b[n];
      } else if f.tail.Tail32? {
        StandsSlice(s, p, b[..k], n, n + 4);
        assert b[..k][n..n + 4] == b[n..n + 4];
      }
      assert LengthAt(s, p, sh) == |m.data|;
    }
  }

  /** A trace that ends in the middle of a record ends the run there: the part is never
      delivered. */
  lemma CutShort(before: seq<Byte>, m: Message, k: nat, handled: set<char>)
    requires OkMessage(m) && |Encode(m)| <= 0x1_0000 && 0 < k < |Encode(m)|
    ensures ParseAt(before + Encode(m)[..k], |before|, handled) == Fail(Eof)
  {
    hide Encode, KindAt, SizeAt, Sized, FormatOf;
    var s, p, b := before + Encode(m)[..k], |before|, Encode(m);
    Parts(m);
    assert Stands(s, p, b[..k]);
    assert s[p] == b[0];
    MarkIsByte(m.nv, m.mark);
    if !m.nv || k >= 2 {
      CutKind(s, p, m, k);
      CutSize(s, p, m, k);
    }
  }

  lemma CutKind(s: seq<Byte>, p: nat, m: Message, k: nat)
    requires OkMessage(m) && k <= |Encode(m)| && (if m.nv then 2 else 1) <= k && Stands(s, p, Encode(m)[..k])
    ensures KindAt(s, p) == KindFor(m.nv, m.mark)
  {
    hide Encode, NvKind, TopKind, KindFor, Sized;
    Parts(m);
    MarkIsByte(m.nv, m.mark);
    var b := Encode(m);
    assert s[p] == b[..k][0] == b[0];
    if m.nv {
      assert s[p + 1] == b[..k][1] == b[1];
    }
    KindOfByte(CharByte(m.mark), m.nv);
  }

  /** A record of the right size whose last byte is another one ends the run. */
  lemma DamagedEnd(before: seq<Byte>, m: Message, c: Byte, behind: seq<Byte>, handled: set<char>)
    requires OkMessage(m) && |Encode(m)| <= 0x1_0000 && c != 10
    ensures var b := Encode(m);
            ParseAt(before + b[..|b| - 1] + [c] + behind, |before|, handled) == Fail(NoEor)
  {
    hide Encode, KindAt, SizeAt, Sized, FormatOf;
    var b, p := Encode(m), |before|;
    var k := |b| - 1;
    var s := before + b[..k] + [c] + behind;
    assert Stands(s, p, b[..k]) && s[p + k] == c;
    Parts(m);
    MarkIsByte(m.nv, m.mark);
    LongEnough(m);
    assert s[p] == b[..k][0] == b[0];
    CutKind(s, p, m, k);
    DamagedSize(s, p, m);
  }

  lemma LongEnough(m: Message)
    requires OkMessage(m)
    ensures |Encode(m)| > if m.nv then 2 else 1
  {
    hide FormatOf, FieldBytes;
  }

  lemma DamagedSize(s: seq<Byte>, p: nat, m: Message)
    requires OkMessage(m) && |Encode(m)| <= BUF && p + |Encode(m)| <= |s|
    requires Stands(s, p, Encode(m)[..|Encode(m)| - 1]) && s[p + |Encode(m)| - 1] != 10
    ensures SizeAt(s, p, 0, Sized(m.nv, m.mark)) == NoSize(NoEor)
  {
    hide Encode, FormatOf, LeValue;
    Parts(m);
    var f, b, sh := FormatOf(m.nv, m.mark).value, Encode(m), Sized(m.nv, m.mark);
    var n, k := Front(m.nv, f), |b| - 1;
    if f.tail.Tail8? {
      StandsSlice(s, p, b[..k], n, n + 1);
      assert s[p + n] == b[n];
    } else if f.tail.Tail32? {
      StandsSlice(s, p, b[..k], n, n + 4);
      assert b[..k][n..n + 4] == b[n..n + 4];
    }
    assert LengthAt(s, p, sh) == |m.data|;
  }

  /** A byte that is no type ends the run. */
  lemma UnknownEnds(before: seq<Byte>, c: Byte, d: Byte, behind: seq<Byte>, handled: set<char>)
    ensures TopFormat(c as char).None? && c as char !in {'n', '=', '-'} ==>
              ParseAt(before + [c] + behind, |before|, handled) == Fail(UnknownType)
    ensures NvFormat(d as char).None? && d as char != 'o' ==>
              ParseAt(before + [CharByte('n'), d] + behind, |before|, handled) == Fail(UnknownType)
  {
    hide TopKind, NvKind, TopFormat, NvFormat;
    var s, u := before + [c] + behind, before + [CharByte('n'), d] + behind;
    assert s[|before|] == c && u[|before|] == CharByte('n') && u[|before| + 1] == d;
    KindOfByte(c, false);
    KindOfByte(d, true);
  }

  // ---------------------------------------------------------------------
  // And back
  // ---------------------------------------------------------------------

  /** How long the length itself is. */
  function LengthWidth(tail: Tail): nat {
    match tail
    case NoTail => 0
    case Tail8 => 1
    case Tail32 => 4
  }

  /** Bytes of the size that the loader finds are an encoded record. */
  lemma SizedIsMessage(s: seq<Byte>, p: nat, nv: bool, mark: char, n: nat) returns (m: Message)
    requires FormatOf(nv, mark).Some? && SizeAt(s, p, 0, Sized(nv, mark)) == Size(n)
    requires s[p] == CharByte(if nv then 'n' else mark) && (nv ==> p + 1 < |s| && s[p + 1] == CharByte(mark))
    ensures OkMessage(m) && m.nv == nv && m.mark == mark && p + n <= |s| && Encode(m) == s[p..p + n]
  {
    hide FormatOf, LeValue, Tag, FieldBytes, LengthAt, LeBytes, OkValues, OkMessage, Encode, SizeAt, LengthBytes;
    var f := FormatOf(nv, mark).value;
    var k := if nv then 2 else 1;
    var b := s[p..p + n];
    var h, l := SizeParts(s, p, nv, mark, n);
    var values := FieldsBack(f.fields, b[k..k + WidthOf(f.fields)]);
    m := Message(nv, mark, values, b[h..n - 1]);
    CutInFive(b, k, k + WidthOf(f.fields), h, n - 1);
    Assembled(m, f);
  }

  lemma Assembled(m: Message, f: Format)
    requires FormatOf(m.nv, m.mark) == Some(f) && OkValues(f.fields, m.values) && (f.tail.NoTail? ==> m.data == [])
    requires (f.tail.Tail8? ==> |m.data| < 0x100) && (f.tail.Tail32? ==> |m.data| < Pow256(4))
    ensures OkMessage(m)
    ensures Encode(m) ==
            Tag(m.nv, m.mark) + FieldBytes(f.fields, m.values) + LengthBytes(f.tail, |m.data|) + m.data + [10]
  {
    hide FormatOf, Pow256, OkValues;
  }

  /** The parts of a record of `n` bytes, `h` of them in front of `l` bytes of data. */
  ghost predicate HasParts(s: seq<Byte>, p: nat, nv: bool, mark: char, f: Format, n: nat, h: nat, l: nat) {
    var k := if nv then 2 else 1;
    && p + n <= |s| && h + l + 1 == n && h == k + WidthOf(f.fields) + LengthWidth(f.tail)
    && var b := s[p..p + n];
       && b[..k] == Tag(nv, mark) && b[n - 1..] == [10] && b[k + WidthOf(f.fields)..h] == LengthBytes(f.tail, l)
       && (f.tail.NoTail? ==> l == 0) && (f.tail.Tail8? ==> l < 0x100) && (f.tail.Tail32? ==> l < Pow256(4))
  }

  /** Where the parts of a record are that has a size. */
  lemma SizeParts(s: seq<Byte>, p: nat, nv: bool, mark: char, n: nat) returns (h: nat, l: nat)
    requires FormatOf(nv, mark).Some? && SizeAt(s, p, 0, Sized(nv, mark)) == Size(n)
    requires s[p] == CharByte(if nv then 'n' else mark) && (nv ==> p + 1 < |s| && s[p + 1] == CharByte(mark))
    ensures HasParts(s, p, nv, mark, FormatOf(nv, mark).value, n, h, l)
  {
    hide FormatOf, LeValue, LeBytes, WidthOf;
    var f, sh := FormatOf(nv, mark).value, Sized(nv, mark);
    var k := if nv then 2 else 1;
    var at := k + WidthOf(f.fields);
    h, l := at + LengthWidth(f.tail), LengthAt(s, p, sh);
    LengthFits(s, p, f.tail, at, l);
    var b := s[p..p + n];
    StandsSlice(s, p, b, at, h);
    assert b[n - 1] == s[p + n - 1];
  }

  lemma CutInFive(b: seq<Byte>, i: nat, j: nat, k: nat, l: nat)
    requires i <= j <= k <= l <= |b|
    ensures b == b[..i] + b[i..j] + b[j..k] + b[k..l] + b[l..]
  {
  }

  lemma LengthFits(s: seq<Byte>, p: nat, tail: Tail, at: nat, l: nat)
    requires tail.Tail8? ==> p + at + 1 <= |s| && l == s[p + at]
    requires tail.Tail32? ==> p + at + 4 <= |s| && l == Le32(s, p + at)
    ensures tail.Tail8? ==> l < 0x100 && LengthBytes(tail, l) == s[p + at..p + at + 1]
    ensures tail.Tail32? ==> l < Pow256(4) && LengthBytes(tail, l) == s[p + at..p + at + 4]
  {
    if tail.Tail8? {
      assert LeBytes(l, 1) == [l % 0x100] + LeBytes(l / 0x100, 0);
    } else if tail.Tail32? {
      LeBack(s[p + at..p + at + 4]);
    }
  }

  /** Whatever the loader parses, other than a dump that stands alone, is an encoded record,
      dumps aside. */
  lemma ParsedIsMessage(s: seq<Byte>, p: nat, handled: set<char>) returns (m: Message)
    requires ParseAt(s, p, handled).Rec? && ParseAt(s, p, handled).record.Record?
    ensures OkMessage(m) && Encode(m) == ParseAt(s, p, handled).record.body && Stands(s, p, Encode(m))
  {
    hide NvKind, TopKind, Encode, OkMessage, SizeAt, Sized, DumpsFrom, DumpBody;
    var nv := s[p] as char == 'n';
    var c := s[if nv then p + 1 else p];
    KindOfByte(c, nv);
    MarkOfByte(c);
    MarkOfByte(s[p]);
    m := SizedIsMessage(s, p, nv, c as char, SizeAt(s, p, 0, KindAt(s, p).shape).size);
  }

  lemma MarkOfByte(c: Byte)
    ensures CharByte(c as char) == c
  {
  }

  /** A record is determined by its bytes. */
  lemma EncodeInjective(m: Message, m': Message)
    requires OkMessage(m) && OkMessage(m') && Encode(m) == Encode(m')
    ensures m == m'
  {
    hide FieldBytes, LeBytes, FormatOf, LeValue;
    Parts(m);
    Parts(m');
    MarkIsByte(m.nv, m.mark);
    MarkIsByte(m'.nv, m'.mark);
    assert m.nv == m'.nv && m.mark == m'.mark;
    var f := FormatOf(m.nv, m.mark).value;
    SameParts(Tag(m.nv, m.mark), FieldBytes(f.fields, m.values), LengthBytes(f.tail, |m.data|), m.data,
              FieldBytes(f.fields, m'.values), LengthBytes(f.tail, |m'.data|), m'.data);
    FieldsInjective(f.fields, m.values, m'.values);
  }

  lemma SameParts(tag: seq<Byte>, a: seq<Byte>, l: seq<Byte>, d: seq<Byte>, a': seq<Byte>, l': seq<Byte>, d': seq<Byte>)
    requires |a| == |a'| && |l| == |l'| && tag + a + l + d + [10] == tag + a' + l' + d' + [10]
    ensures a == a' && d == d'
  {
    var b := tag + a + l + d + [10];
    var i, j := |tag| + |a|, |tag| + |a| + |l|;
    assert a == b[|tag|..i] && a' == b[|tag|..i];
    assert d == b[j..|b| - 1] && d' == b[j..|b| - 1];
  }

  // ---------------------------------------------------------------------
  // Memory dumps
  // ---------------------------------------------------------------------

  /** A dump: the older format has no name. */
  datatype MemDump = MemDump(nv: bool, addr: nat, name: seq<Byte>, data: seq<Byte>)

  predicate OkDump(d: MemDump) {
    d.addr < Pow256(8) && |d.name| < BUF && |d.data| < BUF && (!d.nv ==> d.name == [])
  }

  /** Bytes with their number in front. */
  function Counted(b: seq<Byte>): (r: seq<Byte>)
    ensures |r| == 4 + |b|
  {
    LeBytes(|b|, 4) + b
  }

  function DumpHead(d: MemDump): (b: seq<Byte>)
    ensures |b| == if d.nv then 14 + |d.name| else 9
  {
    if d.nv then [CharByte('n'), CharByte('o')] + LeBytes(d.addr, 8) + Counted(d.name)
    else [CharByte('y')] + LeBytes(d.addr, 8)
  }

  function EncodeDump(d: MemDump): seq<Byte> { DumpHead(d) + (Counted(d.data) + [10]) }

  /** What a handler sees of it: name and data with their lengths. */
  function Seen(d: MemDump): Dump {
    Dump(LeBytes(d.addr, 8), if d.nv then Counted(d.name) else [], Counted(d.data))
  }

  lemma CountedReads(s: seq<Byte>, at: nat, b: seq<Byte>)
    requires Stands(s, at, Counted(b)) && |b| < BUF
    ensures at + 4 + |b| <= |s| && Le32(s, at) == |b| && MmtBuf(s, at) == Counted(b)
  {
    hide LeBytes, LeValue;
    BufInLength();
    LeRoundTrip(|b|, 4);
    StandsPart(s, at, LeBytes(|b|, 4), b);
  }

  lemma BufInLength()
    ensures BUF < Pow256(4)
  {
    assert Pow256(2) == 0x1_0000;
    assert Pow256(4) == 0x1_0000_0000;
  }

  lemma DumpHeadReads(s: seq<Byte>, p: nat, pfx: nat, d: MemDump)
    requires OkDump(d) && Stands(s, p + pfx, DumpHead(d)) && pfx + |DumpHead(d)| <= BUF
    ensures HeadSize(s, p, pfx, d.nv) == Size(|DumpHead(d)|)
    ensures var at := p + pfx + AddrAt(d.nv); at + 8 <= |s| && s[at..at + 8] == LeBytes(d.addr, 8)
    ensures d.nv ==> MmtBuf(s, p + pfx + 10) == Counted(d.name)
  {
    hide LeBytes, LeValue, MmtBuf, Counted;
    var q, k := p + pfx, AddrAt(d.nv);
    var tag := if d.nv then [CharByte('n'), CharByte('o')] else [CharByte('y')];
    if d.nv {
      StandsPart(s, q, tag + LeBytes(d.addr, 8), Counted(d.name));
      CountedReads(s, q + 10, d.name);
    }
    StandsPart(s, q, tag, LeBytes(d.addr, 8));
  }

  /** A written dump is read back, wherever it stands. */
  lemma DumpReads(s: seq<Byte>, p: nat, pfx: nat, d: MemDump)
    requires OkDump(d) && Stands(s, p + pfx, EncodeDump(d)) && pfx + |EncodeDump(d)| <= BUF
    ensures DumpBody(s, p, pfx, d.nv) == GotDump(Seen(d), |EncodeDump(d)|, |DumpHead(d)|)
  {
    hide LeBytes, LeValue, MmtBuf, Counted, HeadSize, DataSize, DumpHead;
    var h := |DumpHead(d)|;
    StandsPart(s, p + pfx, DumpHead(d), Counted(d.data) + [10]);
    DumpHeadReads(s, p, pfx, d);
    DumpDataReads(s, p, pfx + h, d.data);
    StandsPart(s, p + pfx + h, Counted(d.data), [10]);
    CountedReads(s, p + pfx + h, d.data);
  }

  lemma DumpDataReads(s: seq<Byte>, p: nat, pfx: nat, data: seq<Byte>)
    requires |data| < BUF && Stands(s, p + pfx, Counted(data) + [10]) && pfx + |data| + 5 <= BUF
    ensures DataSize(s, p, pfx) == Size(|data| + 5)
  {
    hide LeBytes, LeValue, MmtBuf, Counted;
    StandsPart(s, p + pfx, Counted(data), [10]);
    CountedReads(s, p + pfx, data);
  }

  /** A dump that stands alone is delivered with the address and bytes that were written. */
  lemma LoneDumpParses(before: seq<Byte>, d: MemDump, behind: seq<Byte>, handled: set<char>)
    requires OkDump(d) && d.nv && |EncodeDump(d)| <= BUF
    ensures ParseAt(before + EncodeDump(d) + behind, |before|, handled) ==
            Rec(Memory(Seen(d)), |before| + |EncodeDump(d)|)
  {
    hide EncodeDump, DumpHead, DumpBody;
    var s, p := before + EncodeDump(d) + behind, |before|;
    assert Stands(s, p, EncodeDump(d));
    LoneDumpAt(s, p, d, handled);
  }

  lemma LoneDumpAt(s: seq<Byte>, p: nat, d: MemDump, handled: set<char>)
    requires OkDump(d) && d.nv && |EncodeDump(d)| <= BUF && Stands(s, p, EncodeDump(d))
    ensures ParseAt(s, p, handled) == Rec(Memory(Seen(d)), p + |EncodeDump(d)|)
  {
    hide EncodeDump, DumpBody;
    DumpMark(s, p, d);
    DumpReads(s, p, 0, d);
  }

  lemma DumpMark(s: seq<Byte>, q: nat, d: MemDump)
    requires Stands(s, q, EncodeDump(d))
    ensures |EncodeDump(d)| >= 9 && q + 9 <= |s|
    ensures s[q] as char == (if d.nv then 'n' else 'y') && (d.nv ==> s[q + 1] as char == 'o')
  {
    hide Counted, LeBytes;
    var b := EncodeDump(d);
    StandsSlice(s, q, b, 0, 1);
    assert s[q] == b[0];
    if d.nv {
      assert b[0] == CharByte('n') && b[1] == CharByte('o');
      StandsSlice(s, q, b, 1, 2);
      assert s[q + 1] == b[1];
    } else {
      assert b[0] == CharByte('y');
    }
  }

  lemma CountedBack(s: seq<Byte>, at: nat)
    requires at + 4 <= |s| && at + 4 + Le32(s, at) <= |s|
    ensures Counted(s[at + 4..at + 4 + Le32(s, at)]) == s[at..at + 4 + Le32(s, at)]
  {
    var n := Le32(s, at);
    LeBack(s[at..at + 4]);
    assert s[at..at + 4] + s[at + 4..at + 4 + n] == s[at..at + 4 + n];
  }

  /** Whatever is taken for a dump, behind its type bytes, is a written dump. */
  lemma DumpBack(s: seq<Byte>, p: nat, pfx: nat, nv: bool) returns (d: MemDump)
    requires DumpBody(s, p, pfx, nv).GotDump?
    requires s[p + pfx] == CharByte(if nv then 'n' else 'y') && (nv ==> s[p + pfx + 1] == CharByte('o'))
    ensures OkDump(d) && d.nv == nv && Stands(s, p + pfx, EncodeDump(d))
    ensures DumpBody(s, p, pfx, nv).dump == Seen(d) && DumpBody(s, p, pfx, nv).size == |EncodeDump(d)|
  {
    hide LeBytes, LeValue, Counted, HeadSize, DataSize, DumpHead, MmtBuf;
    var h := HeadSize(s, p, pfx, nv).size;
    var addr, name := HeadBack(s, p, pfx, nv);
    var data := DataBack(s, p, pfx + h);
    d := MemDump(nv, addr, name, data);
    HeadOfOther(nv, addr, name, [], data);
    StandsJoined(s, p + pfx, DumpHead(d), Counted(data) + [10]);
  }

  lemma HeadOfOther(nv: bool, addr: nat, name: seq<Byte>, data: seq<Byte>, data': seq<Byte>)
    ensures DumpHead(MemDump(nv, addr, name, data)) == DumpHead(MemDump(nv, addr, name, data'))
  {
  }

  lemma HeadBack(s: seq<Byte>, p: nat, pfx: nat, nv: bool) returns (addr: nat, name: seq<Byte>)
    requires HeadSize(s, p, pfx, nv).Size?
    requires s[p + pfx] == CharByte(if nv then 'n' else 'y') && (nv ==> s[p + pfx + 1] == CharByte('o'))
    ensures addr < Pow256(8) && |name| < BUF && (!nv ==> name == [])
    ensures var b := DumpHead(MemDump(nv, addr, name, []));
            |b| == HeadSize(s, p, pfx, nv).size && Stands(s, p + pfx, b)
    ensures var at := p + pfx + AddrAt(nv); at + 8 <= |s| && s[at..at + 8] == LeBytes(addr, 8)
    ensures nv ==> MmtBuf(s, p + pfx + 10) == Counted(name)
  {
    hide LeBytes, LeValue, Counted;
    var q, k := p + pfx, AddrAt(nv);
    var tag := if nv then [CharByte('n'), CharByte('o')] else [CharByte('y')];
    LeBack(s[q + k..q + k + 8]);
    addr, name := LeValue(s[q + k..q + k + 8]), [];
    assert s[q..q + k] == tag;
    StandsJoined(s, q, tag, LeBytes(addr, 8));
    if nv {
      CountedBack(s, q + 10);
      name := s[q + 14..q + 14 + Le32(s, q + 10)];
      StandsJoined(s, q, tag + LeBytes(addr, 8), Counted(name));
      assert tag + (LeBytes(addr, 8) + Counted(name)) == tag + LeBytes(addr, 8) + Counted(name);
    }
  }

  lemma DataBack(s: seq<Byte>, p: nat, pfx: nat) returns (data: seq<Byte>)
    requires DataSize(s, p, pfx).Size?
    ensures |data| < BUF && Stands(s, p + pfx, Counted(data) + [10]) && DataSize(s, p, pfx).size == 5 + |data|
    ensures MmtBuf(s, p + pfx) == Counted(data)
  {
    hide LeBytes, LeValue, Counted;
    var at := p + pfx;
    CountedBack(s, at);
    data := s[at + 4..at + 4 + Le32(s, at)];
    assert s[at + 4 + |data|..at + 5 + |data|] == [10];
    StandsJoined(s, at, Counted(data), [10]);
  }

  lemma ParsedIsDump(s: seq<Byte>, p: nat, handled: set<char>) returns (d: MemDump)
    requires ParseAt(s, p, handled).Rec? && ParseAt(s, p, handled).record.Memory?
    ensures OkDump(d) && d.nv && ParseAt(s, p, handled).record.dump == Seen(d) && Stands(s, p, EncodeDump(d))
  {
    hide DumpBody, EncodeDump, Seen, TopKind;
    MarkOfByte(s[p]);
    MarkOfByte(s[p + 1]);
    NotBare(s[p]);
    d := DumpBack(s, p, 0, true);
  }

  lemma NotBare(c: Byte)
    ensures !TopKind(c).BareDump? && (NvKind(c).BareDump? ==> c as char == 'o')
  {
  }

  // ---------------------------------------------------------------------
  // Ioctls and their dumps
  // ---------------------------------------------------------------------

  /** A record of nvidia that is passed over when nobody handles it. */
  predicate OkSkipped(m: Message, handled: set<char>) {
    OkMessage(m) && m.nv && PassedOver(m.mark, handled)
  }

  predicate AllSkipped(ms: seq<Message>, handled: set<char>) {
    forall i :: 0 <= i < |ms| ==> OkSkipped(ms[i], handled)
  }

  function Bytes(m: Message): seq<Byte> { if OkMessage(m) then Encode(m) else [] }

  function EncodeAll(ms: seq<Message>): seq<Byte> { if ms == [] then [] else Bytes(ms[0]) + EncodeAll(ms[1..]) }

  lemma SkipsOne(s: seq<Byte>, p: nat, pfx: nat, m: Message, handled: set<char>)
    requires OkSkipped(m, handled) && Stands(s, p + pfx, Bytes(m)) && pfx + |Bytes(m)| <= BUF
    ensures SkipOnce(s, p, pfx, handled) == SkipOver(|Bytes(m)|)
  {
    hide Encode, SizeAt, Sized, NvKind, KindAt;
    SkippedMark(m, handled);
    Parts(m);
    MarkIsByte(true, m.mark);
    var b := Encode(m);
    StandsSlice(s, p + pfx, b, 0, 1);
    StandsSlice(s, p + pfx, b, 1, 2);
    assert s[p + pfx] == b[0] && s[p + pfx + 1] == b[1];
    KindOfByte(CharByte(m.mark), true);
    MessageSize(s, p, pfx, m);
  }

  lemma SkippedMark(m: Message, handled: set<char>)
    requires OkSkipped(m, handled)
    ensures !IsIoctl(m.mark) && |Encode(m)| >= 2 && Omitted(CharByte(m.mark), handled)
  {
    hide FieldBytes, LeBytes, Omitted;
    MarkIsByte(true, m.mark);
    OmittedMeans(CharByte(m.mark), handled);
  }

  lemma {:induction false} SkipsAll(s: seq<Byte>, p: nat, pfx: nat, ms: seq<Message>, handled: set<char>)
    requires AllSkipped(ms, handled) && Stands(s, p + pfx, EncodeAll(ms)) && pfx + |EncodeAll(ms)| <= BUF
    ensures SkipOmitted(s, p, pfx, handled) == SkipOmitted(s, p, pfx + |EncodeAll(ms)|, handled)
    decreases |ms|
  {
    hide SkipOnce, Bytes, OkSkipped, Stands;
    if ms != [] {
      StandsPart(s, p + pfx, Bytes(ms[0]), EncodeAll(ms[1..]));
      SkipsOne(s, p, pfx, ms[0], handled);
      SkipsAll(s, p, pfx + |Bytes(ms[0])|, ms[1..], handled);
    }
  }

  /** A dump of an ioctl, with the records that are passed over in front of it. */
  datatype Attached = Attached(skipped: seq<Message>, dump: MemDump)

  predicate OkAttached(a: Attached, nv: bool, handled: set<char>) {
    AllSkipped(a.skipped, handled) && OkDump(a.dump) && a.dump.nv == nv && (!nv ==> a.skipped == [])
  }

  predicate AllAttached(ds: seq<Attached>, nv: bool, handled: set<char>) {
    forall i :: 0 <= i < |ds| ==> OkAttached(ds[i], nv, handled)
  }

  function EncodeAttached(a: Attached): seq<Byte> { EncodeAll(a.skipped) + EncodeDump(a.dump) }

  function EncodeDumps(ds: seq<Attached>): seq<Byte> {
    if ds == [] then [] else EncodeAttached(ds[0]) + EncodeDumps(ds[1..])
  }

  function AllSeen(ds: seq<Attached>): (r: seq<Dump>)
    ensures |r| == |ds|
  {
    if ds == [] then [] else [Seen(ds[0].dump)] + AllSeen(ds[1..])
  }

  lemma AttachedFound(s: seq<Byte>, p: nat, pfx: nat, a: Attached, nv: bool, handled: set<char>)
    requires OkAttached(a, nv, handled)
    requires Stands(s, p + pfx, EncodeAttached(a)) && pfx + |EncodeAttached(a)| <= BUF
    ensures var d := FindDump(s, p, pfx, nv, handled);
            d.GotDump? && d.dump == Seen(a.dump) && d.size == |EncodeAttached(a)|
  {
    hide EncodeDump, EncodeAll, DumpBody, FindHead, Seen;
    StandsPart(s, p + pfx, EncodeAll(a.skipped), EncodeDump(a.dump));
    HeadFound(s, p, pfx, a, nv, handled);
    DumpReads(s, p, pfx + |EncodeAll(a.skipped)|, a.dump);
  }

  lemma HeadFound(s: seq<Byte>, p: nat, pfx: nat, a: Attached, nv: bool, handled: set<char>)
    requires OkAttached(a, nv, handled)
    requires Stands(s, p + pfx, EncodeAttached(a)) && pfx + |EncodeAttached(a)| <= BUF
    ensures FindHead(s, p, pfx, nv, handled) == SkipTo(pfx + |EncodeAll(a.skipped)|)
  {
    hide EncodeDump, EncodeAll, SkipOmitted;
    var at := pfx + |EncodeAll(a.skipped)|;
    StandsPart(s, p + pfx, EncodeAll(a.skipped), EncodeDump(a.dump));
    DumpMark(s, p + at, a.dump);
    NothingSkipped();
    if nv {
      SkipsAll(s, p, pfx, a.skipped, handled);
      SkipsNone(s, p, at, handled);
    }
  }

  lemma SkipsNone(s: seq<Byte>, p: nat, at: nat, handled: set<char>)
    requires p + at + 2 <= |s| && at + 2 <= BUF && s[p + at] as char == 'n' && s[p + at + 1] as char == 'o'
    ensures SkipOmitted(s, p, at, handled) == SkipTo(at)
  {
  }

  lemma NothingSkipped()
    ensures EncodeAll([]) == []
  {
  }

  /** The written dumps are found, one after the other. */
  lemma {:induction false} DumpsFound(s: seq<Byte>, p: nat, pfx: nat, ds: seq<Attached>, nv: bool, handled: set<char>,
                                      got: seq<Dump>)
    requires AllAttached(ds, nv, handled) && |got| + |ds| <= MaxArgs(nv)
    requires Stands(s, p + pfx, EncodeDumps(ds)) && pfx + |EncodeDumps(ds)| <= BUF
    ensures DumpsFrom(s, p, pfx, nv, handled, got) ==
            DumpsFrom(s, p, pfx + |EncodeDumps(ds)|, nv, handled, got + AllSeen(ds))
    decreases |ds|
  {
    hide FindDump, DumpsFrom, EncodeAttached, OkAttached, Seen, Stands;
    if ds == [] {
      assert got + AllSeen(ds) == got;
    } else {
      DumpsStep(s, p, pfx, nv, handled, got);
      var size, first, rest := |EncodeAttached(ds[0])|, [Seen(ds[0].dump)], AllSeen(ds[1..]);
      StandsPart(s, p + pfx, EncodeAttached(ds[0]), EncodeDumps(ds[1..]));
      AttachedFound(s, p, pfx, ds[0], nv, handled);
      DumpsFound(s, p, pfx + size, ds[1..], nv, handled, got + first);
      assert got + first + rest == got + (first + rest);
    }
  }

  /** What stands at `q` is neither a dump nor passed over in search of one. */
  predicate StopsAt(s: seq<Byte>, q: nat, nv: bool, handled: set<char>) {
    || q >= |s|
    || (if !nv then s[q] as char != 'y'
        else s[q] as char != 'n' || (q + 1 < |s| && s[q + 1] as char != 'o' && !Omitted(s[q + 1], handled)))
  }

  lemma NoMoreDumps(s: seq<Byte>, p: nat, pfx: nat, over: seq<Message>, nv: bool, handled: set<char>)
    requires AllSkipped(over, handled) && (!nv ==> over == []) && Stands(s, p + pfx, EncodeAll(over))
    requires pfx + |EncodeAll(over)| + 2 <= BUF && StopsAt(s, p + pfx + |EncodeAll(over)|, nv, handled)
    ensures FindDump(s, p, pfx, nv, handled) == NoDump
  {
    hide EncodeAll, AllSkipped, SkipOmitted, StopsAt, Stands;
    NothingSkipped();
    SearchStops(s, p, pfx + |EncodeAll(over)|, nv, handled);
    if nv {
      SkipsAll(s, p, pfx, over, handled);
    }
  }

  lemma SearchStops(s: seq<Byte>, p: nat, at: nat, nv: bool, handled: set<char>)
    requires at + 2 <= BUF && StopsAt(s, p + at, nv, handled)
    ensures FindHead(s, p, at, nv, handled) == SkipNone
  {
    hide NvKind, SizeAt, Omitted;
  }

  /** An ioctl record and its dumps: they are attached to it, and the next record is looked
      for behind the last of them.  `over` are records behind it that are passed over in
      search of a further dump, which there is not. */
  lemma IoctlAtParses(s: seq<Byte>, p: nat, m: Message, ds: seq<Attached>, over: seq<Message>, handled: set<char>)
    requires OkMessage(m) && IsIoctl(m.mark)
    requires AllAttached(ds, m.nv, handled) && |ds| <= MaxArgs(m.nv) && AllSkipped(over, handled)
    requires Stands(s, p, Encode(m) + EncodeDumps(ds))
    requires var n := |Encode(m) + EncodeDumps(ds)|;
             && n <= BUF
             && (|ds| < MaxArgs(m.nv) ==>
                   && (!m.nv ==> over == []) && Stands(s, p + n, EncodeAll(over))
                   && n + |EncodeAll(over)| + 2 <= BUF && StopsAt(s, p + n + |EncodeAll(over)|, m.nv, handled))
    ensures ParseAt(s, p, handled) == Rec(Record(Encode(m), AllSeen(ds)), p + |Encode(m) + EncodeDumps(ds)|)
  {
    hide Encode, EncodeDumps, IoctlAt, KindAt, OkMessage, StopsAt, FormatOf;
    StandsPart(s, p, Encode(m), EncodeDumps(ds));
    MessageKind(s, p, m);
    IoctlWithDumps(s, p, m, ds, over, handled);
  }

  lemma IoctlWithDumps(s: seq<Byte>, p: nat, m: Message, ds: seq<Attached>, over: seq<Message>, handled: set<char>)
    requires OkMessage(m)
    requires AllAttached(ds, m.nv, handled) && |ds| <= MaxArgs(m.nv) && AllSkipped(over, handled)
    requires Stands(s, p, Encode(m) + EncodeDumps(ds))
    requires var n := |Encode(m) + EncodeDumps(ds)|;
             && n <= BUF
             && (|ds| < MaxArgs(m.nv) ==>
                   && (!m.nv ==> over == []) && Stands(s, p + n, EncodeAll(over))
                   && n + |EncodeAll(over)| + 2 <= BUF && StopsAt(s, p + n + |EncodeAll(over)|, m.nv, handled))
    ensures IoctlAt(s, p, Sized(m.nv, m.mark), m.nv, handled) ==
            Rec(Record(Encode(m), AllSeen(ds)), p + |Encode(m) + EncodeDumps(ds)|)
  {
    hide Encode, EncodeDumps, EncodeAll, SizeAt, Sized, FindDump, AllSkipped, AllAttached, StopsAt, OkMessage, FormatOf;
    hide DumpsFrom, AllSeen, Stands;
    var n := |Encode(m) + EncodeDumps(ds)|;
    StandsPart(s, p, Encode(m), EncodeDumps(ds));
    MessageSize(s, p, 0, m);
    MessageThere(s, p, m);
    DumpsFound(s, p, |Encode(m)|, ds, m.nv, handled, []);
    assert [] + AllSeen(ds) == AllSeen(ds);
    if |ds| < MaxArgs(m.nv) {
      NoMoreDumps(s, p, n, over, m.nv, handled);
      DumpsStep(s, p, n, m.nv, handled, AllSeen(ds));
    } else {
      DumpsFull(s, p, n, m.nv, handled, AllSeen(ds));
    }
  }

  lemma MessageThere(s: seq<Byte>, p: nat, m: Message)
    requires OkMessage(m) && Stands(s, p, Encode(m))
    ensures p + |Encode(m)| <= |s| && s[p..p + |Encode(m)|] == Encode(m)
  {
  }

  lemma DumpsFull(s: seq<Byte>, p: nat, pfx: nat, nv: bool, handled: set<char>, got: seq<Dump>)
    requires |got| == MaxArgs(nv)
    ensures DumpsFrom(s, p, pfx, nv, handled, got) == Dumps(got, pfx)
  {
  }

  // ---------------------------------------------------------------------
  // Whole traces
  // ---------------------------------------------------------------------

  datatype Item = Single(m: Message) | Lone(d: MemDump) | WithDumps(m: Message, ds: seq<Attached>)

  predicate OkItem(it: Item, handled: set<char>) {
    && |ItemBytes(it)| <= 0x1_0000
    && match it
       case Single(m) => OkMessage(m) && !IsIoctl(m.mark)
       case Lone(d) => OkDump(d) && d.nv
       case WithDumps(m, ds) =>
         OkMessage(m) && IsIoctl(m.mark) && AllAttached(ds, m.nv, handled) && |ds| <= DumpLimit(m.nv)
  }

  /** At most so many dumps belong to an ioctl. */
  function DumpLimit(nv: bool): nat { if nv then 10 else 20 }

  function ItemBytes(it: Item): seq<Byte> {
    match it
    case Single(m) => Bytes(m)
    case Lone(d) => EncodeDump(d)
    case WithDumps(m, ds) => Bytes(m) + EncodeDumps(ds)
  }

  function TraceBytes(its: seq<Item>): seq<Byte> {
    if its == [] then [] else ItemBytes(its[0]) + TraceBytes(its[1..])
  }

  /** What the handlers see of an item. */
  function ItemRecord(it: Item): Record {
    match it
    case Single(m) => Record(Bytes(m), [])
    case Lone(d) => Memory(Seen(d))
    case WithDumps(m, ds) => Record(Bytes(m), AllSeen(ds))
  }

  function ItemRecords(its: seq<Item>): seq<Record> {
    if its == [] then [] else [ItemRecord(its[0])] + ItemRecords(its[1..])
  }

  /** Behind an ioctl no dump is found that is not its own: the search, which passes over
      unhandled records and has `room` bytes of the window left, meets none. */
  predicate NoDumpBehind(its: seq<Item>, nv: bool, handled: set<char>, room: int) {
    && room >= 2
    && (nv && its != [] ==>
          && !its[0].Lone?
          && (its[0].Single? && OkSkipped(its[0].m, handled) ==>
                NoDumpBehind(its[1..], nv, handled, room - |ItemBytes(its[0])|)))
  }

  predicate OkTrace(its: seq<Item>, handled: set<char>) {
    its != [] ==>
      && OkItem(its[0], handled) && OkTrace(its[1..], handled)
      && (its[0].WithDumps? && |its[0].ds| < DumpLimit(its[0].m.nv) ==>
            NoDumpBehind(its[1..], its[0].m.nv, handled, 0x1_0000 - |ItemBytes(its[0])|))
  }

  lemma ItemStart(s: seq<Byte>, q: nat, it: Item, handled: set<char>)
    requires OkItem(it, handled) && Stands(s, q, ItemBytes(it))
    ensures ItemBytes(it) != [] && q < |s| && s[q] as char != 'y'
    ensures !it.Lone? && !(it.Single? && OkSkipped(it.m, handled)) ==> StopsAt(s, q, true, handled)
  {
    hide Encode, OkMessage, EncodeDump, EncodeDumps, Omitted;
    match it {
      case Lone(d) => DumpMark(s, q, d);
      case Single(m) => MessageStart(s, q, m, handled);
      case WithDumps(m, ds) =>
        StandsPart(s, q, Bytes(m), EncodeDumps(ds));
        MessageStart(s, q, m, handled);
        IoctlKept(m, handled);
    }
  }

  lemma IoctlKept(m: Message, handled: set<char>)
    requires IsIoctl(m.mark)
    ensures !Omitted(CharByte(m.mark), handled)
  {
  }

  lemma MessageStart(s: seq<Byte>, q: nat, m: Message, handled: set<char>)
    requires OkMessage(m) && Stands(s, q, Bytes(m))
    ensures Bytes(m) != [] && q < |s| && s[q] as char != 'y'
    ensures !OkSkipped(m, handled) ==> StopsAt(s, q, true, handled)
  {
    hide Encode, Omitted, KindAt;
    Parts(m);
    MessageKind(s, q, m);
    StandsSlice(s, q, Bytes(m), 0, 1);
    assert s[q] == Bytes(m)[0];
    MarkIsByte(m.nv, m.mark);
    OmittedMeans(CharByte(m.mark), handled);
  }

  /** Where the search behind an ioctl ends. */
  lemma {:induction false} SearchBehind(s: seq<Byte>, q: nat, its: seq<Item>, nv: bool, handled: set<char>, room: int)
    returns (over: seq<Message>)
    requires OkTrace(its, handled) && NoDumpBehind(its, nv, handled, room)
    requires Stands(s, q, TraceBytes(its)) && q + |TraceBytes(its)| == |s|
    ensures AllSkipped(over, handled) && (!nv ==> over == []) && Stands(s, q, EncodeAll(over))
    ensures |EncodeAll(over)| + 2 <= room && StopsAt(s, q + |EncodeAll(over)|, nv, handled)
    decreases |its|
  {
    hide Bytes, OkSkipped, AllSkipped, StopsAt, OkItem, EncodeAll, ItemBytes;
    over := [];
    NothingSkipped();
    AllSkippedNone(handled);
    if its == [] {
      StopsAtEnd(s, q, nv, handled);
    } else {
      StandsPart(s, q, ItemBytes(its[0]), TraceBytes(its[1..]));
      ItemStart(s, q, its[0], handled);
      if nv && its[0].Single? && OkSkipped(its[0].m, handled) {
        var rest := SearchBehind(s, q + |ItemBytes(its[0])|, its[1..], nv, handled, room - |ItemBytes(its[0])|);
        over := [its[0].m] + rest;
        SingleBytes(its[0]);
        OneMore(s, q, its[0].m, rest, over, handled);
      } else if !nv {
        StopsAtOther(s, q, handled);
      }
    }
  }

  lemma StopsAtEnd(s: seq<Byte>, q: nat, nv: bool, handled: set<char>)
    requires q >= |s|
    ensures StopsAt(s, q, nv, handled)
  {
  }

  lemma StopsAtOther(s: seq<Byte>, q: nat, handled: set<char>)
    requires q < |s| && s[q] as char != 'y'
    ensures StopsAt(s, q, false, handled)
  {
  }

  lemma SingleBytes(it: Item)
    ensures it.Single? ==> ItemBytes(it) == Bytes(it.m)
  {
  }

  lemma OneMore(s: seq<Byte>, q: nat, m: Message, rest: seq<Message>, all: seq<Message>, handled: set<char>)
    requires OkSkipped(m, handled) && AllSkipped(rest, handled)
    requires all == [m] + rest && Stands(s, q, Bytes(m)) && Stands(s, q + |Bytes(m)|, EncodeAll(rest))
    ensures EncodeAll(all) == Bytes(m) + EncodeAll(rest) && Stands(s, q, EncodeAll(all)) && AllSkipped(all, handled)
  {
    hide Bytes, OkSkipped;
    assert all[1..] == rest;
    StandsJoined(s, q, Bytes(m), EncodeAll(rest));
  }

  lemma ItemParses(s: seq<Byte>, p: nat, its: seq<Item>, handled: set<char>)
    requires its != [] && OkTrace(its, handled) && Stands(s, p, TraceBytes(its)) && p + |TraceBytes(its)| == |s|
    ensures ItemBytes(its[0]) != []
    ensures ParseAt(s, p, handled) == Rec(ItemRecord(its[0]), p + |ItemBytes(its[0])|)
  {
    hide ItemBytes, ItemRecord, ParseAt, OkItem, NoDumpBehind, Stands;
    StandsPart(s, p, ItemBytes(its[0]), TraceBytes(its[1..]));
    ItemStart(s, p, its[0], handled);
    if its[0].WithDumps? {
      ItemWithDumps(s, p, its[0], its[1..], handled);
    } else {
      ItemAlone(s, p, its[0], handled);
    }
  }

  lemma ItemAlone(s: seq<Byte>, p: nat, it: Item, handled: set<char>)
    requires OkItem(it, handled) && !it.WithDumps? && Stands(s, p, ItemBytes(it))
    ensures ParseAt(s, p, handled) == Rec(ItemRecord(it), p + |ItemBytes(it)|)
  {
    hide Encode, ParseAt, EncodeDump, OkMessage, OkDump, Seen, Stands;
    match it {
      case Single(m) => MessageAt(s, p, m, handled);
      case Lone(d) => LoneDumpAt(s, p, d, handled);
    }
  }

  lemma ItemWithDumps(s: seq<Byte>, p: nat, it: Item, tail: seq<Item>, handled: set<char>)
    requires it.WithDumps? && OkItem(it, handled) && OkTrace(tail, handled)
    requires |it.ds| < MaxArgs(it.m.nv) ==> NoDumpBehind(tail, it.m.nv, handled, BUF - |ItemBytes(it)|)
    requires Stands(s, p, ItemBytes(it)) && Stands(s, p + |ItemBytes(it)|, TraceBytes(tail))
    requires p + |ItemBytes(it)| + |TraceBytes(tail)| == |s|
    ensures ParseAt(s, p, handled) == Rec(ItemRecord(it), p + |ItemBytes(it)|)
  {
    hide Encode, ParseAt, EncodeDumps, OkMessage, StopsAt, NoDumpBehind, AllAttached, AllSkipped, AllSeen, EncodeAll;
    hide OkTrace, TraceBytes, Stands;
    var over := [];
    AllSkippedNone(handled);
    if |it.ds| < MaxArgs(it.m.nv) {
      over := SearchBehind(s, p + |ItemBytes(it)|, tail, it.m.nv, handled, BUF - |ItemBytes(it)|);
    }
    IoctlAtParses(s, p, it.m, it.ds, over, handled);
  }

  lemma AllSkippedNone(handled: set<char>)
    ensures AllSkipped([], handled)
  {
  }

  /** A whole trace, written item by item, is parsed as exactly those items, in order, and the
      run ends without a failure. */
  lemma {:induction false} TraceParsesFrom(s: seq<Byte>, p: nat, its: seq<Item>, handled: set<char>)
    requires OkTrace(its, handled) && Stands(s, p, TraceBytes(its)) && p + |TraceBytes(its)| == |s|
    ensures ParseAll(s, p, handled) == Trace(ItemRecords(its), None)
    decreases |its|
  {
    hide ParseAt, ItemBytes, ItemRecord, OkItem;
    if its != [] {
      ItemParses(s, p, its, handled);
      StandsPart(s, p, ItemBytes(its[0]), TraceBytes(its[1..]));
      TraceParsesFrom(s, p + |ItemBytes(its[0])|, its[1..], handled);
    } else {
      AtEnd(s, p, handled);
    }
  }

  lemma AtEnd(s: seq<Byte>, p: nat, handled: set<char>)
    requires p >= |s|
    ensures ParseAt(s, p, handled) == End
  {
  }

  lemma TraceParses(its: seq<Item>, handled: set<char>)
    requires OkTrace(its, handled)
    ensures ParseAll(TraceBytes(its), 0, handled) == Trace(ItemRecords(its), None)
  {
    hide ParseAll, OkTrace;
    TraceParsesFrom(TraceBytes(its), 0, its, handled);
  }
}
