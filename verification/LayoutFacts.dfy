/** What a successful layout means to the author of the source file. */
module LayoutFacts {
  import opened Options
  import opened Words
  import opened Exprs
  import opened Fields
  import opened Registers
  import opened Tables
  import opened AsmSound
  import opened Layout
  import opened Sections
  import opened LayoutRun
  import LayoutNumbers

  /** What a label line or an `.equ` line puts into the label map. */
  ghost predicate Defines(line: Line, stride: nat, st: Scan, labels: map<string, Word>) {
    && (line.LabelLine? ==>
          line.name in labels && stride > 0 && ValidPlace(st.place) && labels[line.name] == Address(st.place, stride))
    && (line.EquLine? ==>
          line.name in labels && Eval(line.e, LabelEnv(st.labels)) == Some(labels[line.name]))
  }

  lemma StepDefines(line: Line, len: nat, stride: nat, st: Scan)
    requires ValidLine(line) && ValidPlace(st.place) && stride > 0 && StepScan(line, len, stride, st).Some?
    ensures Defines(line, stride, st, StepScan(line, len, stride, st).value.labels)
  {
  }

  lemma ScanDefines(lines: seq<Line>, lens: seq<nat>, stride: nat, k: nat)
    requires ValidSource(lines, lens, stride) && k < |lines| && ScanTo(lines, lens, stride, k + 1).Some?
    ensures ScanTo(lines, lens, stride, k).Some?
    ensures Defines(lines[k], stride, ScanTo(lines, lens, stride, k).value,
                    ScanTo(lines, lens, stride, k + 1).value.labels)
  {
    StepDefines(lines[k], lens[k], stride, ScanTo(lines, lens, stride, k).value);
  }

  lemma LaterDefines(line: Line, stride: nat, st: Scan, mid: Scan, end: Scan)
    requires Defines(line, stride, st, mid.labels) && Later(mid, end)
    ensures Defines(line, stride, st, end.labels)
  {
  }

  lemma DefinedSoFar(lines: seq<Line>, lens: seq<nat>, stride: nat, k: nat) returns (st: Scan, mid: Scan)
    requires ValidSource(lines, lens, stride) && k < |lines| && ScanTo(lines, lens, stride, k + 1).Some?
    ensures ScanTo(lines, lens, stride, k) == Some(st) && ScanTo(lines, lens, stride, k + 1) == Some(mid)
    ensures Defines(lines[k], stride, st, mid.labels)
  {
    ScanDefines(lines, lens, stride, k);
    st, mid := ScanTo(lines, lens, stride, k).value, ScanTo(lines, lens, stride, k + 1).value;
  }

  /** What one line of the scan defines is still defined so at the end. */
  lemma StillDefined(lines: seq<Line>, lens: seq<nat>, stride: nat, k: nat) returns (st: Scan)
    requires ValidSource(lines, lens, stride) && k < |lines| && ScanTo(lines, lens, stride, |lines|).Some?
    ensures ScanTo(lines, lens, stride, k) == Some(st)
    ensures Defines(lines[k], stride, st, ScanTo(lines, lens, stride, |lines|).value.labels)
  {
    hide StepScan, Defines;
    ScanPrefix(lines, lens, stride, k + 1, |lines|);
    var mid;
    st, mid := DefinedSoFar(lines, lens, stride, k);
    LaterDefines(lines[k], stride, st, mid, ScanTo(lines, lens, stride, |lines|).value);
  }

  /** Each label is worth `base + offset / stride` of its own line. */
  lemma LabelsCorrect(lines: seq<Line>, lens: seq<nat>, stride: nat, k: nat)
    requires ValidSource(lines, lens, stride) && ScanTo(lines, lens, stride, |lines|).Some?
    requires k < |lines| && lines[k].LabelLine?
    ensures ScanTo(lines, lens, stride, k).Some?
    ensures var labels := ScanTo(lines, lens, stride, |lines|).value.labels;
            lines[k].name in labels
            && labels[lines[k].name] == Address(ScanTo(lines, lens, stride, k).value.place, stride)
  {
    var st := StillDefined(lines, lens, stride, k);
  }

  lemma {:induction false} EvalMore(e: Expr, few: map<string, Word>, more: map<string, Word>)
    requires Eval(e, LabelEnv(few)).Some?
    requires forall s :: s in few ==> s in more && more[s] == few[s]
    ensures Eval(e, LabelEnv(more)) == Eval(e, LabelEnv(few))
  {
    match e {
      case Un(_, e1) => EvalMore(e1, few, more);
      case Bin(op, e1, e2) =>
        EvalMore(e1, few, more);
        if Eval(e2, LabelEnv(few)).Some? {
          EvalMore(e2, few, more);
        }
      case _ =>
    }
  }

  /** Each `.equ` name is worth its expression, under the final labels too. */
  lemma EquCorrect(lines: seq<Line>, lens: seq<nat>, stride: nat, k: nat)
    requires ValidSource(lines, lens, stride) && ScanTo(lines, lens, stride, |lines|).Some?
    requires k < |lines| && lines[k].EquLine?
    ensures var labels := ScanTo(lines, lens, stride, |lines|).value.labels;
            lines[k].name in labels && Eval(lines[k].e, LabelEnv(labels)) == Some(labels[lines[k].name])
  {
    var st := StillDefined(lines, lens, stride, k);
    ScanPrefix(lines, lens, stride, k, |lines|);
    EvalMore(lines[k].e, st.labels, ScanTo(lines, lens, stride, |lines|).value.labels);
  }

  /** The mask fixes no bit behind the first `n` bytes. */
  ghost predicate MaskWithin(m: Code, n: nat) {
    forall b :: 8 * n <= b < 128 ==> !BitOf(m, b)
  }

  /** The bit of a byte that bit `b` of an opcode is. */
  lemma ByteBit(c: Code, b: nat)
    requires b < 128
    ensures b % 8 < 8 && b / 8 < 16 && CodeByte(c, b / 8)[b % 8] == BitOf(c, b)
  {
    var j := b / 8;
    assert b == 8 * j + b % 8;
    assert b / 64 == j / 8 && b % 64 == 8 * (j % 8) + b % 8;
  }

  /** An opcode that starts with the bytes of `c` agrees with it wherever the mask says,
      if the mask ends with those bytes. */
  lemma SameStart(c: Code, x: Code, m: Code, n: nat, code: seq<Byte>, at: nat)
    requires n <= 8 * MAXOPLEN && MaskWithin(m, n)
    requires Stands(code, at, CodeBytes(c, n)) && Stands(code, at, CodeBytes(x, n))
    ensures Agrees(x, c, m)
  {
    hide CodeByte;
    forall j, i | 0 <= j < MAXOPLEN && 0 <= i < 64 && m[j][i] ensures x[j][i] == c[j][i] {
      var b := 64 * j + i;
      assert BitOf(m, b);
      assert ByteAt(code, at + b / 8, CodeBytes(c, n)[b / 8]) && ByteAt(code, at + b / 8, CodeBytes(x, n)[b / 8]);
      ByteBit(c, b);
      ByteBit(x, b);
    }
  }

  /** From source to bytes and back: after a successful layout, every opcode that starts
      with the bytes in the buffer at an instruction's address, whatever follows them,
      reads along the rows its encoding was built from as the tokens of the source line,
      every branch target and immediate having the value of its expression at that
      address; and if those are the rows the disassembler takes, it prints the source's
      meaning and the length emitted. */
  lemma EmittedCodeReadsAsSource(lines: seq<Line>, im: seq<seq<Match>>, stride: nat, labels: map<string, Word>,
                                 sections: seq<Section>, k: nat, root: Table, items: seq<Item>, vi: VarInfo)
    returns (mask: Code, row: Table, path: Path)
    requires DoneUpTo(|lines|, lines, im, Lens(im, stride), stride, labels, sections)
    requires k < |lines| && lines[k].InsnLine? && im[k] != []
    requires ValidTable(root) && im[k][0] in DoAs(root, items, vi)
    ensures ScanTo(lines, Lens(im, stride), stride, k).Some?
    ensures ValidPlace(ScanTo(lines, Lens(im, stride), stride, k).value.place)
    ensures var p := ScanTo(lines, Lens(im, stride), stride, k).value.place;
            var n, pos := Lens(im, stride)[k], Address(p, stride);
            && p.cur < |sections| && n <= 8 * MAXOPLEN && ValidRelocs(im[k][0])
            && Resolve(im[k][0], pos, labels).Fits? && mask == Resolve(im[k][0], pos, labels).m
            && (exists x :: Stands(sections[p.cur].code, Offset(p), CodeBytes(x, n)))
            && (MaskWithin(mask, n) ==>
                  forall x :: Stands(sections[p.cur].code, Offset(p), CodeBytes(x, n)) ==>
                    ReadsBack(root, row, path, x, items, im[k][0].oplen, vi, pos, labels))
  {
    hide ReadsBack, CodeBytes, MaskWithin, DoneUpTo, DoAs, Resolve, Stands, LineDone;
    DoneAt(lines, im, stride, labels, sections, k);
    var p := ScanTo(lines, Lens(im, stride), stride, k).value.place;
    var mt, pos := im[k][0], Address(p, stride);
    row, path := SourceReadsBack(root, items, vi, mt);
    var res := Resolve(mt, pos, labels);
    var n := mt.oplen * stride;
    mask := res.m;
    Resolved(mt, pos, labels);
    if MaskWithin(mask, n) {
      forall x | Stands(sections[p.cur].code, Offset(p), CodeBytes(x, n)) ensures ResolvesTo(mt, pos, labels, x) {
        SameStart(res.a, x, res.m, n, sections[p.cur].code, Offset(p));
      }
    }
  }

  lemma Resolved(mt: Match, pos: Word, labels: map<string, Word>)
    requires ValidRelocs(mt)
    ensures var res := Resolve(mt, pos, labels);
            res.Fits? ==> forall x :: Agrees(x, res.a, res.m) ==> ResolvesTo(mt, pos, labels, x)
  {
  }

  /** What a successful layout says of an instruction line. */
  lemma DoneAt(lines: seq<Line>, im: seq<seq<Match>>, stride: nat, labels: map<string, Word>,
               sections: seq<Section>, k: nat)
    requires DoneUpTo(|lines|, lines, im, Lens(im, stride), stride, labels, sections)
    requires k < |lines| && lines[k].InsnLine? && im[k] != []
    ensures ValidSource(lines, Lens(im, stride), stride)
    ensures ScanTo(lines, Lens(im, stride), stride, k).Some?
    ensures ValidPlace(ScanTo(lines, Lens(im, stride), stride, k).value.place)
    ensures var p := ScanTo(lines, Lens(im, stride), stride, k).value.place;
            && p.cur < |sections| && Lens(im, stride)[k] == im[k][0].oplen * stride <= 8 * MAXOPLEN
            && ValidRelocs(im[k][0]) && stride > 0
            && var res := Resolve(im[k][0], Address(p, stride), labels);
               res.Fits? && Stands(sections[p.cur].code, Offset(p), CodeBytes(res.a, Lens(im, stride)[k]))
  {
    hide Stands, Resolve;
    var p := ScanTo(lines, Lens(im, stride), stride, k).value.place;
    assert LineDone(lines[k], im[k], p, stride, labels, sections);
  }

  /** After a successful layout the bytes at a data line's position spell its parameters,
      one after the other, under the final labels. */
  lemma DataReadsAsSource(lines: seq<Line>, im: seq<seq<Match>>, stride: nat, labels: map<string, Word>,
                          sections: seq<Section>, k: nat)
    requires DoneUpTo(|lines|, lines, im, Lens(im, stride), stride, labels, sections) && Covered(sections)
    requires k < |lines| && lines[k].DataLine?
    ensures ScanTo(lines, Lens(im, stride), stride, k).Some?
    ensures ValidPlace(ScanTo(lines, Lens(im, stride), stride, k).value.place)
    ensures var p := ScanTo(lines, Lens(im, stride), stride, k).value.place;
            p.cur < |sections| && LayoutNumbers.LineLists(lines[k], labels, sections[p.cur].code, Offset(p))
  {
    hide LineDone, Covered, ScanTo, LayoutNumbers.LineLists;
    LineSpells(lines[k], im[k], ScanTo(lines, Lens(im, stride), stride, k).value.place, stride, labels, sections);
  }

  lemma LineSpells(line: Line, ms: seq<Match>, p: Place, stride: nat, labels: map<string, Word>, sections: seq<Section>)
    requires LineDone(line, ms, p, stride, labels, sections) && Covered(sections) && line.DataLine?
    ensures ValidPlace(p) && p.cur < |sections|
    ensures LayoutNumbers.LineLists(line, labels, sections[p.cur].code, Offset(p))
  {
    hide Stands, DataBytes, LayoutNumbers.Lists;
    var bs := DataBytes(line.kind, line.bytes, line.params, labels);
    DataLength(line.kind, line.bytes, line.params, labels);
    StandsThere(sections[p.cur].code, Offset(p), bs.value);
    LayoutNumbers.DataLists(line.kind, line.bytes, line.params, labels);
  }
}
