/** What the two passes of `envyas_layout` are meant to agree on: where each
    line stands, what the labels are worth, and which bytes each line emits. */
module Layout {
  import opened Options
  import opened Words
  import opened Exprs
  import opened Fields
  import opened Tables

  type Byte = b: seq<bool> | |b| == 8 witness seq(8, _ => false)

  datatype DataKind = Bare | Unsigned | Signed

  /** One source line; a directive with an unknown name or wrong arguments is a
      `BadLine`.  The encodings of an instruction line are kept beside it. */
  datatype Line =
    | InsnLine
    | LabelLine(name: string)
    | SectionLine(name: string, base: Option<Word>)
    | AlignLine(n: nat)
    | SizeLine(n: nat)
    | SkipLine(n: nat)
    | EquLine(name: string, e: Expr)
    | DataLine(kind: DataKind, bytes: nat, params: seq<Expr>)
    | BadLine

  /** What the parser guarantees of a line. */
  predicate ValidLine(line: Line) {
    (line.AlignLine? ==> line.n > 0) && (line.DataLine? ==> 1 <= line.bytes <= 8)
  }

  // ---------------------------------------------------------------------
  // Positions
  // ---------------------------------------------------------------------

  datatype Sec = Sec(name: string, base: Word, pos: nat)

  /** The current section and the position reached in every section. */
  datatype Place = Place(cur: nat, secs: seq<Sec>)

  predicate ValidPlace(p: Place) { p.cur < |p.secs| }

  function FindSec(secs: seq<Sec>, name: string, j: nat): (r: nat)
    requires j <= |secs|
    ensures j <= r <= |secs|
    ensures r < |secs| ==> secs[r].name == name
    ensures forall k :: j <= k < r ==> secs[k].name != name
    decreases |secs| - j
  {
    if j == |secs| || secs[j].name == name then j else FindSec(secs, name, j + 1)
  }

  function Offset(p: Place): nat
    requires ValidPlace(p)
  {
    p.secs[p.cur].pos
  }

  function MoveTo(p: Place, pos: nat): (r: Place)
    requires ValidPlace(p)
    ensures ValidPlace(r)
  {
    p.(secs := p.secs[p.cur := p.secs[p.cur].(pos := pos)])
  }

  function DataSize(line: Line): nat
    requires line.DataLine?
  {
    line.bytes * |line.params|
  }

  /** The position and section bookkeeping of one line; None stops the run. */
  function StepPlace(line: Line, len: nat, p: Place): (r: Option<Place>)
    requires ValidLine(line) && ValidPlace(p)
    ensures r.Some? ==> ValidPlace(r.value)
  {
    match line
    case InsnLine => Some(MoveTo(p, Offset(p) + len))
    case LabelLine(_) => Some(p)
    case EquLine(_, _) => Some(p)
    case SectionLine(name, base) =>
      var j := FindSec(p.secs, name, 0);
      if j < |p.secs| then Some(p.(cur := j))
      else Some(Place(j, p.secs + [Sec(name, if base.Some? then base.value else Zero(), 0)]))
    case AlignLine(n) => Some(MoveTo(p, (Offset(p) + n - 1) / n * n))
    case SizeLine(n) => if Offset(p) > n then None else Some(MoveTo(p, n))
    case SkipLine(n) => Some(MoveTo(p, Offset(p) + n))
    case DataLine(_, bytes, params) =>
      if forall e :: e in params ==> IsImm(e) then Some(MoveTo(p, Offset(p) + bytes * |params|)) else None
    case BadLine => None
  }

  lemma AlignUp(pos: nat, n: nat)
    requires n > 0
    ensures pos <= (pos + n - 1) / n * n < pos + n
  {
    var q := (pos + n - 1) / n;
    assert q * n == pos + n - 1 - (pos + n - 1) % n;
  }

  /** No line moves a position backwards, and no line renames or removes a
      section. */
  lemma StepForward(line: Line, len: nat, p: Place)
    requires ValidLine(line) && ValidPlace(p) && StepPlace(line, len, p).Some?
    ensures var q := StepPlace(line, len, p).value;
            && |p.secs| <= |q.secs|
            && forall k :: 0 <= k < |p.secs| ==>
                 q.secs[k].name == p.secs[k].name && q.secs[k].base == p.secs[k].base && p.secs[k].pos <= q.secs[k].pos
  {
    if line.AlignLine? {
      AlignUp(Offset(p), line.n);
    }
  }

  /** `pos / stride + base`: the address of the next thing at a place. */
  function Address(p: Place, stride: nat): Word
    requires ValidPlace(p) && stride > 0
  {
    Add(FromNat(Offset(p) / stride), p.secs[p.cur].base)
  }

  // ---------------------------------------------------------------------
  // The first pass
  // ---------------------------------------------------------------------

  datatype Scan = Scan(place: Place, labels: map<string, Word>)

  function Start(): Place { Place(0, [Sec("default", Zero(), 0)]) }

  /** One line of the first pass; None where the source gives up. */
  function StepScan(line: Line, len: nat, stride: nat, st: Scan): (r: Option<Scan>)
    requires ValidLine(line) && ValidPlace(st.place) && stride > 0
    ensures r.Some? ==> ValidPlace(r.value.place)
  {
    match StepPlace(line, len, st.place)
    case None => None
    case Some(place) =>
      if line.LabelLine? then
        if line.name in st.labels then None
        else Some(Scan(place, st.labels[line.name := Address(st.place, stride)]))
      else if line.EquLine? then
        var v := Eval(line.e, LabelEnv(st.labels));
        if !IsImm(line.e) || v.None? || line.name in st.labels then None
        else Some(Scan(place, st.labels[line.name := v.value]))
      else Some(Scan(place, st.labels))
  }

  predicate ValidSource(lines: seq<Line>, lens: seq<nat>, stride: nat) {
    |lens| == |lines| && stride > 0 && forall k :: 0 <= k < |lines| ==> ValidLine(lines[k])
  }

  /** The state of the first pass in front of line `i`. */
  function ScanTo(lines: seq<Line>, lens: seq<nat>, stride: nat, i: nat): (r: Option<Scan>)
    requires ValidSource(lines, lens, stride) && i <= |lines|
    ensures r.Some? ==> ValidPlace(r.value.place)
    decreases i
  {
    if i == 0 then Some(Scan(Start(), map[]))
    else
      match ScanTo(lines, lens, stride, i - 1)
      case None => None
      case Some(st) => StepScan(lines[i - 1], lens[i - 1], stride, st)
  }

  /** Sections and labels are only ever added. */
  ghost predicate Later(si: Scan, sj: Scan) {
    && (forall s :: s in si.labels ==> s in sj.labels && sj.labels[s] == si.labels[s])
    && |si.place.secs| <= |sj.place.secs|
    && forall k :: 0 <= k < |si.place.secs| ==>
         sj.place.secs[k].name == si.place.secs[k].name && sj.place.secs[k].base == si.place.secs[k].base
  }

  lemma StepLater(line: Line, len: nat, stride: nat, st: Scan)
    requires ValidLine(line) && ValidPlace(st.place) && stride > 0 && StepScan(line, len, stride, st).Some?
    ensures Later(st, StepScan(line, len, stride, st).value)
    ensures StepPlace(line, len, st.place) == Some(StepScan(line, len, stride, st).value.place)
  {
    StepForward(line, len, st.place);
  }

  lemma {:induction false} ScanPrefix(lines: seq<Line>, lens: seq<nat>, stride: nat, i: nat, j: nat)
    requires ValidSource(lines, lens, stride) && i <= j <= |lines| && ScanTo(lines, lens, stride, j).Some?
    ensures ScanTo(lines, lens, stride, i).Some?
    ensures Later(ScanTo(lines, lens, stride, i).value, ScanTo(lines, lens, stride, j).value)
    decreases j
  {
    hide StepScan;
    if i < j {
      ScanPrefix(lines, lens, stride, i, j - 1);
      StepLater(lines[j - 1], lens[j - 1], stride, ScanTo(lines, lens, stride, j - 1).value);
    }
  }

  // ---------------------------------------------------------------------
  // The second pass visits the same places
  // ---------------------------------------------------------------------

  /** `q` is the second pass's view of the first pass's place `p`: all sections
      of the file are known from the start, those not yet met are empty. */
  ghost predicate SameSpot(p: Place, q: Place, all: seq<Sec>) {
    && p.cur == q.cur < |p.secs| <= |q.secs| == |all|
    && (forall k :: 0 <= k < |p.secs| ==> q.secs[k] == p.secs[k])
    && (forall k :: |p.secs| <= k < |q.secs| ==> q.secs[k].pos == 0)
    && (forall k :: 0 <= k < |all| ==> q.secs[k].name == all[k].name && q.secs[k].base == all[k].base)
  }

  ghost predicate DistinctNames(secs: seq<Sec>) {
    forall j, k :: 0 <= j < k < |secs| ==> secs[j].name != secs[k].name
  }

  lemma StepDistinct(line: Line, len: nat, p: Place)
    requires ValidLine(line) && ValidPlace(p) && DistinctNames(p.secs) && StepPlace(line, len, p).Some?
    ensures DistinctNames(StepPlace(line, len, p).value.secs)
  {
  }

  lemma {:induction false} ScanDistinct(lines: seq<Line>, lens: seq<nat>, stride: nat, i: nat)
    requires ValidSource(lines, lens, stride) && i <= |lines| && ScanTo(lines, lens, stride, i).Some?
    ensures DistinctNames(ScanTo(lines, lens, stride, i).value.place.secs)
    decreases i
  {
    if i > 0 {
      ScanDistinct(lines, lens, stride, i - 1);
      var st := ScanTo(lines, lens, stride, i - 1).value;
      StepLater(lines[i - 1], lens[i - 1], stride, st);
      StepDistinct(lines[i - 1], lens[i - 1], st.place);
    }
  }

  /** A line takes the two views of one spot to two views of one spot, so both
      passes agree on every position. */
  lemma SameStep(line: Line, len: nat, p: Place, q: Place, all: seq<Sec>)
    requires ValidLine(line) && ValidPlace(p) && SameSpot(p, q, all) && DistinctNames(all)
    requires StepPlace(line, len, p).Some?
    requires var p' := StepPlace(line, len, p).value;
             && |p'.secs| <= |all|
             && forall k :: 0 <= k < |p'.secs| ==> all[k].name == p'.secs[k].name && all[k].base == p'.secs[k].base
    ensures StepPlace(line, len, q).Some?
    ensures SameSpot(StepPlace(line, len, p).value, StepPlace(line, len, q).value, all)
  {
    hide DistinctNames, FindSec;
    if line.SectionLine? {
      var j := FindSec(p.secs, line.name, 0);
      if j == |p.secs| {
        assert all[j].name == StepPlace(line, len, p).value.secs[j].name;
      } else {
        assert p.secs[j].name == line.name;
      }
      assert q.secs[j].name == line.name;
      FirstOfName(q.secs, all, line.name, j);
    }
  }

  lemma FirstOfName(secs: seq<Sec>, all: seq<Sec>, name: string, j: nat)
    requires DistinctNames(all) && |secs| == |all| && forall k :: 0 <= k < |all| ==> secs[k].name == all[k].name
    requires j < |secs| && secs[j].name == name
    ensures FindSec(secs, name, 0) == j
  {
    var k := FindSec(secs, name, 0);
    assert k < |secs| ==> all[k].name == all[j].name;
  }

  // ---------------------------------------------------------------------
  // Emitted bytes
  // ---------------------------------------------------------------------

  /** Byte `j` of a 128-bit opcode: `val[j >> 3] >> (8 * (j & 7))`. */
  function CodeByte(c: Code, j: nat): Byte
    requires j < 8 * MAXOPLEN
  {
    c[j / 8][8 * (j % 8)..8 * (j % 8) + 8]
  }

  function CodeBytes(c: Code, n: nat): (r: seq<Byte>)
    requires n <= 8 * MAXOPLEN
    ensures |r| == n && forall j :: 0 <= j < n ==> r[j] == CodeByte(c, j)
  {
    seq(n, j requires 0 <= j < n => CodeByte(c, j))
  }

  function WordByte(w: Word, j: nat): Byte
    requires j < 8
  {
    w[8 * j..8 * j + 8]
  }

  function WordBytes(w: Word, n: nat): (r: seq<Byte>)
    requires n <= 8
    ensures |r| == n && forall j :: 0 <= j < n ==> r[j] == WordByte(w, j)
  {
    seq(n, j requires 0 <= j < n => WordByte(w, j))
  }

  function ZeroByte(): Byte { seq(8, _ => false) }

  /** The range check of `.uN` and `.sN`. */
  predicate FitsData(kind: DataKind, bytes: nat, v: Word)
    requires 1 <= bytes <= 8
  {
    bytes == 8
    || (match kind
        case Bare => true
        case Unsigned => Val(v) < Pow2(8 * bytes)
        case Signed => Val(v) < Pow2(8 * bytes - 1) || Val(v) >= Val(HighOnes(8 * bytes - 1)))
  }

  /** The value of one `.bN`/`.uN`/`.sN` parameter; None where `donum` stops. */
  function DataValue(kind: DataKind, bytes: nat, e: Expr, labels: map<string, Word>): Option<Word>
    requires 1 <= bytes <= 8
  {
    var v := Eval(e, LabelEnv(labels));
    if v.Some? && FitsData(kind, bytes, v.value) then v else None
  }

  function DataBytes(kind: DataKind, bytes: nat, params: seq<Expr>, labels: map<string, Word>): Option<seq<Byte>>
    requires 1 <= bytes <= 8
    decreases |params|
  {
    if params == [] then Some([])
    else
      var init := params[..|params| - 1];
      match DataBytes(kind, bytes, init, labels)
      case None => None
      case Some(before) =>
        var v := DataValue(kind, bytes, params[|params| - 1], labels);
        if v.None? then None else Some(before + WordBytes(v.value, bytes))
  }

  lemma {:induction false} DataLength(kind: DataKind, bytes: nat, params: seq<Expr>, labels: map<string, Word>)
    requires 1 <= bytes <= 8 && DataBytes(kind, bytes, params, labels).Some?
    ensures |DataBytes(kind, bytes, params, labels).value| == bytes * |params|
    decreases |params|
  {
    if params != [] {
      DataLength(kind, bytes, params[..|params| - 1], labels);
      assert bytes * |params| == bytes * (|params| - 1) + bytes;
    }
  }

  /** The bytes that `.align` skips. */
  function AlignPad(pos: nat, n: nat): nat
    requires n > 0
  {
    AlignUp(pos, n);
    (pos + n - 1) / n * n - pos
  }

  /** What line `line`, standing at `p`, contributes to the current section when
      its encoding is `mt`; None if something in it cannot be computed, does not
      fit, or stops the run. */
  function LineBytes(line: Line, mt: Option<Match>, p: Place, stride: nat,
                     labels: map<string, Word>): (r: Option<seq<Byte>>)
    requires ValidLine(line) && ValidPlace(p) && stride > 0
    requires line.InsnLine? ==> mt.Some? && ValidRelocs(mt.value) && mt.value.oplen * stride <= 8 * MAXOPLEN
  {
    match line
    case InsnLine =>
      var res := Resolve(mt.value, Address(p, stride), labels);
      if res.Fits? then Some(CodeBytes(res.a, mt.value.oplen * stride)) else None
    case AlignLine(n) => Some(seq(AlignPad(Offset(p), n), _ => ZeroByte()))
    case SizeLine(n) => if Offset(p) > n then None else Some(seq(n - Offset(p), _ => ZeroByte()))
    case SkipLine(n) => Some(seq(n, _ => ZeroByte()))
    case DataLine(kind, bytes, params) => DataBytes(kind, bytes, params, labels)
    case BadLine => None
    case _ => Some([])
  }
}
