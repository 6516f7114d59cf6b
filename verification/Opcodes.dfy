/** How `do_dis` takes an opcode out of a block of code, and that it gets back what the
    assembler has written there. */
module Opcodes {
  import opened Options
  import opened Words
  import opened Exprs
  import opened Fields
  import opened Registers
  import opened Tables
  import opened AsmSound
  import opened Layout
  import opened Sections
  import opened LayoutRun
  import opened LayoutFacts
  import LayoutNumbers
  import Numbers

  /** Bit `b` of the bytes from `at` on; there are no bits behind the end of the code. */
  predicate BitThere(code: seq<Byte>, at: nat, b: nat) { at + b / 8 < |code| && code[at + b / 8][b % 8] }

  /** The opcode at an offset: sixteen bytes, as far as they are there. */
  function OpcodeAt(code: seq<Byte>, at: nat): (c: Code)
    ensures forall b :: 0 <= b < 128 ==> BitOf(c, b) == BitThere(code, at, b)
  {
    [seq(64, i requires 0 <= i < 64 => BitThere(code, at, i)),
     seq(64, i requires 0 <= i < 64 => BitThere(code, at, 64 + i))]
  }

  function ByteWord(b: Byte): (w: Word)
    ensures forall i :: 0 <= i < 64 ==> w[i] == (i < 8 && b[i])
  {
    seq(64, i requires 0 <= i < 64 => i < 8 && b[i])
  }

  /** The bytes that have been read so far, and nothing else. */
  ghost predicate ReadSoFar(c: Code, code: seq<Byte>, at: nat, i: nat) {
    forall b :: 0 <= b < 128 ==> BitOf(c, b) == (b < 8 * i && BitThere(code, at, b))
  }

  lemma ByteAdded(c: Code, code: seq<Byte>, at: nat, i: nat)
    requires i < 16 && at + i < |code| && ReadSoFar(c, code, at, i)
    ensures ReadSoFar(c[i / 8 := Words.Or(c[i / 8], Shl(ByteWord(code[at + i]), 8 * (i % 8)))], code, at, i + 1)
  {
    var added := Shl(ByteWord(code[at + i]), 8 * (i % 8));
    var c' := c[i / 8 := Words.Or(c[i / 8], added)];
    forall b | 0 <= b < 128 ensures BitOf(c', b) == (b < 8 * (i + 1) && BitThere(code, at, b)) {
      ByteOf(i, b);
      assert BitOf(c, b) == (b < 8 * i && BitThere(code, at, b));
      if b / 64 == i / 8 {
        assert added[b % 64] == (8 * i <= b < 8 * i + 8 && code[at + i][b - 8 * i]);
      }
    }
  }

  lemma ByteOf(i: nat, b: nat)
    requires i < 16 && b < 128
    ensures 8 * i <= b < 8 * i + 8 ==> b / 8 == i && b % 8 == b - 8 * i && b / 64 == i / 8
    ensures b / 64 == i / 8 ==> b % 64 - 8 * (i % 8) == b - 8 * i
  {
    assert 8 * (i / 8) + i % 8 == i;
  }

  /** The loop of `do_dis` over the bytes of an opcode. */
  method ReadOpcode(code: seq<Byte>, at: nat) returns (c: Code)
    ensures c == OpcodeAt(code, at)
  {
    c := Blank();
    var i := 0;
    while i < 16 && at + i < |code|
      invariant 0 <= i <= 16 && ReadSoFar(c, code, at, i)
    {
      ByteAdded(c, code, at, i);
      c := c[i / 8 := Words.Or(c[i / 8], Shl(ByteWord(code[at + i]), 8 * (i % 8)))];
      i := i + 1;
    }
    SameBits(c, OpcodeAt(code, at));
  }

  /** An opcode starts with the bytes that it was read from. */
  lemma OpcodeStands(code: seq<Byte>, at: nat, n: nat)
    requires n <= 16 && at + n <= |code|
    ensures Stands(code, at, CodeBytes(OpcodeAt(code, at), n))
  {
    hide CodeByte, OpcodeAt;
    var c := OpcodeAt(code, at);
    forall k | 0 <= k < n ensures ByteAt(code, at + k, CodeBytes(c, n)[k]) {
      forall i | 0 <= i < 8 ensures CodeByte(c, k)[i] == code[at + k][i] {
        ByteBit(c, 8 * k + i);
        assert (8 * k + i) / 8 == k && (8 * k + i) % 8 == i;
        assert BitOf(c, 8 * k + i) == BitThere(code, at, 8 * k + i);
      }
    }
  }

  /** The number that is read is the one that the bytes spell. */
  lemma OpcodeNumber(code: seq<Byte>, at: nat)
    requires at + 16 <= |code|
    ensures LayoutNumbers.CodeNumber(OpcodeAt(code, at)) == LayoutNumbers.LeNumber(code[at..at + 16])
  {
    hide OpcodeAt, CodeBytes, LayoutNumbers.CodeNumber, LayoutNumbers.LeNumber, Pow2;
    var c := OpcodeAt(code, at);
    OpcodeStands(code, at, 16);
    StandsThere(code, at, CodeBytes(c, 16));
    LayoutNumbers.InsnBytes(c, 16);
    CodeBound(c);
    Numbers.Quotient(LayoutNumbers.CodeNumber(c), Pow2(128), 0, LayoutNumbers.CodeNumber(c));
  }

  lemma CodeBound(c: Code)
    ensures LayoutNumbers.CodeNumber(c) < Pow2(128)
  {
    hide Val, Pow2;
    Numbers.ValAppend(c[0], c[1]);
    assert LayoutNumbers.CodeNumber(c) == Val(LayoutNumbers.CodeBits(c));
  }

  /** From source to bytes to the disassembler: the opcode that it takes from the address of an
      instruction reads along the rows of the encoding as the tokens of the source line. */
  lemma SourceIsReadBack(lines: seq<Line>, im: seq<seq<Match>>, stride: nat, labels: map<string, Word>,
                         sections: seq<Section>, k: nat, root: Table, items: seq<Item>, vi: VarInfo)
    returns (mask: Code, row: Table, path: Path)
    requires DoneUpTo(|lines|, lines, im, Lens(im, stride), stride, labels, sections) && Covered(sections)
    requires k < |lines| && lines[k].InsnLine? && im[k] != []
    requires ValidTable(root) && im[k][0] in DoAs(root, items, vi)
    ensures ScanTo(lines, Lens(im, stride), stride, k).Some?
    ensures ValidPlace(ScanTo(lines, Lens(im, stride), stride, k).value.place)
    ensures var p := ScanTo(lines, Lens(im, stride), stride, k).value.place;
            var n, pos := Lens(im, stride)[k], Address(p, stride);
            && p.cur < |sections| && n <= 16 && ValidRelocs(im[k][0])
            && Resolve(im[k][0], pos, labels).Fits? && mask == Resolve(im[k][0], pos, labels).m
            && (MaskWithin(mask, n) ==>
                  ReadsBack(root, row, path, OpcodeAt(sections[p.cur].code, Offset(p)), items, im[k][0].oplen, vi, pos,
                            labels))
  {
    hide ReadsBack, CodeBytes, MaskWithin, DoneUpTo, DoAs, Resolve, Stands, OpcodeAt, Covered, LineDone, Address;
    mask, row, path := EmittedCodeReadsAsSource(lines, im, stride, labels, sections, k, root, items, vi);
    LineInside(lines, im, stride, labels, sections, k);
    var p := ScanTo(lines, Lens(im, stride), stride, k).value.place;
    var n := Lens(im, stride)[k];
    OpcodeStands(sections[p.cur].code, Offset(p), n);
  }

  lemma LineInside(lines: seq<Line>, im: seq<seq<Match>>, stride: nat, labels: map<string, Word>,
                   sections: seq<Section>, k: nat)
    requires DoneUpTo(|lines|, lines, im, Lens(im, stride), stride, labels, sections) && Covered(sections)
    requires k < |lines| && lines[k].InsnLine? && im[k] != []
    ensures ValidSource(lines, Lens(im, stride), stride)
    ensures ScanTo(lines, Lens(im, stride), stride, k).Some?
    ensures ValidPlace(ScanTo(lines, Lens(im, stride), stride, k).value.place)
    ensures var p := ScanTo(lines, Lens(im, stride), stride, k).value.place;
            p.cur < |sections| && Offset(p) + Lens(im, stride)[k] <= |sections[p.cur].code|
  {
    hide Stands, Resolve, ScanTo;
    assert LineDone(lines[k], im[k], ScanTo(lines, Lens(im, stride), stride, k).value.place, stride, labels, sections);
  }
}
