/** `envyas_layout`: the loop that lays the sections out, emits them, drops an
    encoding whenever a relocation does not fit, and starts over. */
module LayoutRun {
  import opened Options
  import opened Words
  import opened Exprs
  import opened Fields
  import opened Tables
  import opened AsmSound
  import opened Layout
  import opened Sections
  import opened Engine
  import LayoutNumbers

  // ---------------------------------------------------------------------
  // Resolution in place
  // ---------------------------------------------------------------------

  /** `resolve`: the match is a copy, so its arrays are local. */
  method ResolveMatch(mt: Match, pos: Word, labels: map<string, Word>) returns (res: Resolution)
    requires ValidRelocs(mt)
    ensures res == Resolve(mt, pos, labels)
  {
    var a := new Word[MAXOPLEN](j requires 0 <= j < MAXOPLEN => mt.a[j]);
    var m := new Word[MAXOPLEN](j requires 0 <= j < MAXOPLEN => mt.m[j]);
    assert a[..] == mt.a && m[..] == mt.m;
    var i := 0;
    while i < |mt.relocs|
      invariant 0 <= i <= |mt.relocs|
      invariant Resolve(mt, pos, labels) == ResolveFrom(a[..], m[..], mt.relocs[i..], pos, labels)
    {
      var v := Eval(mt.relocs[i].expr, LabelEnv(labels));
      if v.None? {
        return BadExpr;
      }
      var ok := FillReloc(a, m, mt.relocs[i].bf, v.value, pos);
      if !ok {
        return DoesNotFit;
      }
      assert mt.relocs[i..][1..] == mt.relocs[i + 1..];
      i := i + 1;
    }
    return Fits(a[..], m[..]);
  }

  // ---------------------------------------------------------------------
  // The state and what it means
  // ---------------------------------------------------------------------

  function Skeleton(sections: seq<Section>): (r: seq<Sec>)
    ensures |r| == |sections|
    ensures forall k :: 0 <= k < |sections| ==> r[k] == Sec(sections[k].name, sections[k].base, sections[k].pos)
  {
    seq(|sections|, k requires 0 <= k < |sections| => Sec(sections[k].name, sections[k].base, sections[k].pos))
  }

  /** Every instruction line has at least one encoding, all of them are well
      formed, and no encoding is longer than the opcode buffer. */
  ghost predicate ValidCandidates(lines: seq<Line>, im: seq<seq<Match>>, stride: nat) {
    && |im| == |lines|
    && forall k :: 0 <= k < |lines| && lines[k].InsnLine? ==>
         im[k] != [] && forall mt :: mt in im[k] ==> GoodMatch(mt) && mt.oplen * stride <= 8 * MAXOPLEN
  }

  ghost predicate ValidJob(lines: seq<Line>, stride: nat, im: seq<seq<Match>>) {
    && stride > 0
    && (forall k :: 0 <= k < |lines| ==> ValidLine(lines[k]))
    && ValidCandidates(lines, im, stride)
  }

  /** Length in bytes of the encoding currently first in line. */
  function Lens(im: seq<seq<Match>>, stride: nat): (r: seq<nat>)
    ensures |r| == |im|
    ensures forall k :: 0 <= k < |im| ==> r[k] == (if im[k] == [] then 0 else im[k][0].oplen * stride)
  {
    seq(|im|, k requires 0 <= k < |im| => if im[k] == [] then 0 else im[k][0].oplen * stride)
  }

  function Head(ms: seq<Match>): Option<Match> { if ms == [] then None else Some(ms[0]) }

  /** How many encodings there are left to drop. */
  function Spare(im: seq<seq<Match>>): nat {
    if im == [] then 0 else (if im[0] == [] then 0 else |im[0]| - 1) + Spare(im[1..])
  }

  lemma {:induction false} SpareDrop(im: seq<seq<Match>>, k: nat)
    requires k < |im| && |im[k]| > 1
    ensures Spare(im[k := im[k][1..]]) == Spare(im) - 1
  {
    var im' := im[k := im[k][1..]];
    if k == 0 {
      assert im'[1..] == im[1..];
    } else {
      assert im'[1..] == im[1..][k - 1 := im[k][1..]];
      SpareDrop(im[1..], k - 1);
    }
  }

  /** `im` was obtained from `im0` by dropping encodings from the front, never
      the last one. */
  ghost predicate Dropped(im0: seq<seq<Match>>, im: seq<seq<Match>>) {
    |im| == |im0| && forall k :: 0 <= k < |im| ==> IsSuffix(im[k], im0[k])
  }

  ghost predicate IsSuffix(s: seq<Match>, t: seq<Match>) {
    |s| <= |t| && s == t[|t| - |s|..] && (t != [] ==> s != [])
  }

  lemma DroppedNone(im: seq<seq<Match>>)
    ensures Dropped(im, im)
  {
  }

  lemma DroppedTwice(im0: seq<seq<Match>>, im1: seq<seq<Match>>, im2: seq<seq<Match>>)
    requires Dropped(im0, im1) && Dropped(im1, im2)
    ensures Dropped(im0, im2)
  {
  }

  lemma SuffixStep(s: seq<Match>, t: seq<Match>)
    requires IsSuffix(s, t) && |s| > 1
    ensures IsSuffix(s[1..], t)
  {
  }

  /** Line `k`, with encoding list `ms`, has its bytes in place: they are the
      bytes it should emit at the first pass's position. */
  ghost predicate LineDone(line: Line, ms: seq<Match>, p: Place, stride: nat, labels: map<string, Word>,
                           sections: seq<Section>) {
    && Emits(line, ms, p, stride)
    && p.cur < |sections|
    && var bytes := LineBytes(line, Head(ms), p, stride, labels);
       && bytes.Some?
       && Offset(p) + |bytes.value| <= sections[p.cur].pos
       && Stands(sections[p.cur].code, Offset(p), bytes.value)
  }

  /** The line and the place make sense and its encoding fits the buffer. */
  ghost predicate Emits(line: Line, ms: seq<Match>, p: Place, stride: nat) {
    && ValidLine(line) && ValidPlace(p) && stride > 0
    && (line.InsnLine? ==> ms != [] && ValidRelocs(ms[0]) && ms[0].oplen * stride <= 8 * MAXOPLEN)
  }

  /** The first encoding of a line does not fit at `p`. */
  ghost predicate Unfit(ms: seq<Match>, p: Place, stride: nat, labels: map<string, Word>) {
    && Emits(InsnLine, ms, p, stride)
    && Resolve(ms[0], Address(p, stride), labels).DoesNotFit?
  }

  /** Something that the line needs cannot be computed. */
  ghost predicate Uncomputable(line: Line, ms: seq<Match>, p: Place, stride: nat, labels: map<string, Word>) {
    && Emits(line, ms, p, stride)
    && (if line.InsnLine? then Resolve(ms[0], Address(p, stride), labels).BadExpr?
        else line.DataLine? && DataBytes(line.kind, line.bytes, line.params, labels).None?)
  }

  /** Positions only move forward and bytes below them stay as they are. */
  ghost predicate Grown(s: seq<Section>, t: seq<Section>) {
    && |s| == |t|
    && forall k :: 0 <= k < |s| ==>
         s[k].pos <= t[k].pos && |s[k].code| <= |t[k].code|
         && forall b :: 0 <= b < s[k].pos && b < |s[k].code| ==> t[k].code[b] == s[k].code[b]
  }

  /** Every section's buffer reaches at least to its position. */
  ghost predicate Covered(sections: seq<Section>) {
    forall k :: 0 <= k < |sections| ==> sections[k].pos <= |sections[k].code|
  }

  lemma DoneStays(line: Line, ms: seq<Match>, p: Place, stride: nat, labels: map<string, Word>, s: seq<Section>,
                  t: seq<Section>)
    requires LineDone(line, ms, p, stride, labels, s) && Grown(s, t)
    ensures LineDone(line, ms, p, stride, labels, t)
  {
    var bytes := LineBytes(line, Head(ms), p, stride, labels).value;
    forall k | 0 <= k < |bytes| ensures ByteAt(t[p.cur].code, Offset(p) + k, bytes[k]) {
      assert ByteAt(s[p.cur].code, Offset(p) + k, bytes[k]);
    }
  }

  /** The lines before `i` are done, each at the place the first pass found. */
  ghost predicate DoneUpTo(i: nat, lines: seq<Line>, im: seq<seq<Match>>, lens: seq<nat>, stride: nat,
                           labels: map<string, Word>, sections: seq<Section>)
  {
    && ValidSource(lines, lens, stride) && i <= |lines| == |im|
    && forall k :: 0 <= k < i ==>
         ScanTo(lines, lens, stride, k).Some?
         && LineDone(lines[k], im[k], ScanTo(lines, lens, stride, k).value.place, stride, labels, sections)
  }

  lemma DoneNext(i: nat, lines: seq<Line>, im: seq<seq<Match>>, lens: seq<nat>, stride: nat,
                 labels: map<string, Word>, s: seq<Section>, t: seq<Section>)
    requires i < |lines| && DoneUpTo(i, lines, im, lens, stride, labels, s) && Grown(s, t)
    requires ScanTo(lines, lens, stride, i).Some?
    requires LineDone(lines[i], im[i], ScanTo(lines, lens, stride, i).value.place, stride, labels, t)
    ensures DoneUpTo(i + 1, lines, im, lens, stride, labels, t)
  {
    forall k | 0 <= k < i
      ensures LineDone(lines[k], im[k], ScanTo(lines, lens, stride, k).value.place, stride, labels, t)
    {
      DoneStays(lines[k], im[k], ScanTo(lines, lens, stride, k).value.place, stride, labels, s, t);
    }
  }

  /** The first pass, run with the encodings `im0`, found the sections `all`. */
  ghost predicate Laid(lines: seq<Line>, stride: nat, im0: seq<seq<Match>>, all: seq<Sec>) {
    && ValidSource(lines, Lens(im0, stride), stride)
    && DistinctNames(all)
    && ScanTo(lines, Lens(im0, stride), stride, |lines|).Some?
    && ScanTo(lines, Lens(im0, stride), stride, |lines|).value.place.secs == all
  }

  /** The second pass in front of line `i`, at place `q`. */
  ghost predicate Midway(i: nat, lines: seq<Line>, stride: nat, im0: seq<seq<Match>>, im: seq<seq<Match>>, q: Place,
                         all: seq<Sec>, labels: map<string, Word>, sections: seq<Section>, allok: bool)
  {
    && ValidJob(lines, stride, im) && ValidSource(lines, Lens(im0, stride), stride) && i <= |lines|
    && AtSpot(i, lines, stride, im0, q, all)
    && Dropped(im0, im) && (forall k :: i <= k < |im| ==> im[k] == im0[k])
    && (if allok then
          im == im0 && Covered(sections) && DoneUpTo(i, lines, im, Lens(im0, stride), stride, labels, sections)
        else Spare(im) < Spare(im0))
  }

  ghost predicate AtSpot(i: nat, lines: seq<Line>, stride: nat, im0: seq<seq<Match>>, q: Place, all: seq<Sec>)
    requires ValidSource(lines, Lens(im0, stride), stride) && i <= |lines|
  {
    ScanTo(lines, Lens(im0, stride), stride, i).Some?
    && SameSpot(ScanTo(lines, Lens(im0, stride), stride, i).value.place, q, all)
  }

  /** The second pass behind the last line. */
  lemma MidwayEnd(lines: seq<Line>, stride: nat, im0: seq<seq<Match>>, im: seq<seq<Match>>, q: Place,
                  all: seq<Sec>, labels: map<string, Word>, sections: seq<Section>, allok: bool)
    requires Midway(|lines|, lines, stride, im0, im, q, all, labels, sections, allok)
    ensures ValidJob(lines, stride, im) && Dropped(im0, im)
    ensures if allok then
              && im == im0 && Covered(sections)
              && DoneUpTo(|lines|, lines, im, Lens(im0, stride), stride, labels, sections)
            else Spare(im) < Spare(im0)
  {
  }

  /** The second pass in front of the first line. */
  lemma MidwayStart(lines: seq<Line>, stride: nat, im: seq<seq<Match>>, labels: map<string, Word>,
                    sections: seq<Section>, reset: seq<Section>)
    requires ValidJob(lines, stride, im) && ValidSource(lines, Lens(im, stride), stride) && |lines| == |im|
    requires ScanTo(lines, Lens(im, stride), stride, |lines|).Some?
    requires ScanTo(lines, Lens(im, stride), stride, |lines|).value.place.secs == Skeleton(sections)
    requires forall s :: s in sections ==> s.code == []
    requires |reset| == |sections| && forall k :: 0 <= k < |sections| ==> reset[k] == sections[k].(pos := 0)
    ensures Laid(lines, stride, im, Skeleton(sections))
    ensures Midway(0, lines, stride, im, im, Place(0, Skeleton(reset)), Skeleton(sections), labels, reset, true)
  {
    hide StepScan, LineDone, SameSpot;
    RestartSpot(lines, Lens(im, stride), stride, sections, reset);
    ScanDistinct(lines, Lens(im, stride), stride, |lines|);
  }

  lemma MidwayWritten(i: nat, lines: seq<Line>, stride: nat, im0: seq<seq<Match>>, im: seq<seq<Match>>,
                      q: Place, q': Place, all: seq<Sec>, labels: map<string, Word>, s: seq<Section>,
                      t: seq<Section>, allok: bool)
    requires i < |lines| && Midway(i, lines, stride, im0, im, q, all, labels, s, allok)
    requires AtSpot(i + 1, lines, stride, im0, q', all)
    requires Grown(s, t) && (Covered(s) ==> Covered(t))
    requires LineDone(lines[i], im[i], ScanTo(lines, Lens(im0, stride), stride, i).value.place, stride, labels, t)
    ensures Midway(i + 1, lines, stride, im0, im, q', all, labels, t, allok)
  {
    if allok {
      DoneNext(i, lines, im, Lens(im0, stride), stride, labels, s, t);
    }
  }

  lemma MidwayRetry(i: nat, lines: seq<Line>, stride: nat, im0: seq<seq<Match>>, im: seq<seq<Match>>, q: Place,
                    q': Place, all: seq<Sec>, labels: map<string, Word>, s: seq<Section>, t: seq<Section>, allok: bool)
    requires i < |lines| && Midway(i, lines, stride, im0, im, q, all, labels, s, allok)
    requires AtSpot(i + 1, lines, stride, im0, q', all) && |im[i]| > 1
    ensures Midway(i + 1, lines, stride, im0, im[i := im[i][1..]], q', all, labels, t, false)
  {
    SpareDrop(im, i);
    StillValid(lines, stride, im0, im, i);
  }

  lemma SkeletonMove(sections: seq<Section>, c: nat, t: Section)
    requires c < |sections| && t.name == sections[c].name && t.base == sections[c].base
    ensures Place(c, Skeleton(sections[c := t])) == MoveTo(Place(c, Skeleton(sections)), t.pos)
  {
    assert Skeleton(sections[c := t]) == Skeleton(sections)[c := Skeleton(sections)[c].(pos := t.pos)];
  }

  lemma SkeletonSnoc(sections: seq<Section>, t: Section)
    ensures Skeleton(sections + [t]) == Skeleton(sections) + [Sec(t.name, t.base, t.pos)]
  {
  }

  /** Once the first pass has given up, it has given up for good. */
  lemma ScanStays(lines: seq<Line>, lens: seq<nat>, stride: nat, i: nat)
    requires ValidSource(lines, lens, stride) && i <= |lines| && ScanTo(lines, lens, stride, i).None?
    ensures ScanTo(lines, lens, stride, |lines|).None?
  {
    if ScanTo(lines, lens, stride, |lines|).Some? {
      ScanPrefix(lines, lens, stride, i, |lines|);
    }
  }

  /** The two views of one spot emit the same bytes. */
  lemma SameBytes(line: Line, mt: Option<Match>, p: Place, q: Place, all: seq<Sec>, stride: nat,
                  labels: map<string, Word>)
    requires ValidLine(line) && ValidPlace(p) && SameSpot(p, q, all) && stride > 0
    requires line.InsnLine? ==> mt.Some? && ValidRelocs(mt.value) && mt.value.oplen * stride <= 8 * MAXOPLEN
    ensures ValidPlace(q) && Offset(q) == Offset(p)
    ensures LineBytes(line, mt, p, stride, labels) == LineBytes(line, mt, q, stride, labels)
  {
    assert q.secs[q.cur] == p.secs[p.cur];
  }

  lemma CandidateFits(lines: seq<Line>, im: seq<seq<Match>>, stride: nat, i: nat)
    requires ValidCandidates(lines, im, stride) && i < |lines| && lines[i].InsnLine?
    ensures im[i] != [] && GoodMatch(im[i][0]) && im[i][0].oplen * stride <= 8 * MAXOPLEN
    ensures Lens(im, stride)[i] == im[i][0].oplen * stride
  {
  }

  lemma InsnDone(ms: seq<Match>, p: Place, stride: nat, labels: map<string, Word>, sections: seq<Section>, a: Code,
                 m: Code)
    requires ms != [] && ValidRelocs(ms[0]) && ms[0].oplen * stride <= 8 * MAXOPLEN
    requires ValidPlace(p) && stride > 0 && p.cur < |sections|
    requires Resolve(ms[0], Address(p, stride), labels) == Fits(a, m)
    requires Offset(p) + ms[0].oplen * stride <= sections[p.cur].pos
    requires Stands(sections[p.cur].code, Offset(p), CodeBytes(a, ms[0].oplen * stride))
    ensures LineDone(InsnLine, ms, p, stride, labels, sections)
  {
  }

  datatype LineResult = Written | Retry | Exhausted | Stopped

  datatype LayoutResult = Ok | BadSource | NoFit(line: nat) | BadValue(line: nat)

  /** The sections met so far, by name and base, are the first of `all`. */
  ghost predicate NamedIn(p: Place, all: seq<Sec>) {
    && |p.secs| <= |all|
    && forall k :: 0 <= k < |p.secs| ==> all[k].name == p.secs[k].name && all[k].base == p.secs[k].base
  }

  /** Why a run stopped, in terms of the encodings `im` and the lengths `lens`
      that its last pass was laid out with. */
  ghost predicate Explains(result: LayoutResult, lines: seq<Line>, stride: nat, im: seq<seq<Match>>, lens: seq<nat>,
                           labels: map<string, Word>)
  {
    && ValidSource(lines, lens, stride) && |im| == |lines|
    && (|| (result.BadSource? && ScanTo(lines, lens, stride, |lines|).None?)
        || (result.NoFit? && result.line < |lines| && ScanTo(lines, lens, stride, result.line).Some?
            && |im[result.line]| == 1
            && Unfit(im[result.line], ScanTo(lines, lens, stride, result.line).value.place, stride, labels))
        || (result.BadValue? && result.line < |lines| && ScanTo(lines, lens, stride, result.line).Some?
            && Uncomputable(lines[result.line], im[result.line],
                            ScanTo(lines, lens, stride, result.line).value.place, stride, labels)))
  }

  /** The labels of a scan of all lines, if it succeeds. */
  ghost function LabelsOf(lines: seq<Line>, lens: seq<nat>, stride: nat): Option<map<string, Word>> {
    if ValidSource(lines, lens, stride) && ScanTo(lines, lens, stride, |lines|).Some?
    then Some(ScanTo(lines, lens, stride, |lines|).value.labels) else None
  }

  lemma RestartSpot(lines: seq<Line>, lens: seq<nat>, stride: nat, sections: seq<Section>, reset: seq<Section>)
    requires ValidSource(lines, lens, stride) && ScanTo(lines, lens, stride, |lines|).Some?
    requires ScanTo(lines, lens, stride, |lines|).value.place.secs == Skeleton(sections)
    requires |reset| == |sections| && forall k :: 0 <= k < |sections| ==> reset[k] == sections[k].(pos := 0)
    ensures SameSpot(Start(), Place(0, Skeleton(reset)), Skeleton(sections))
  {
    ScanPrefix(lines, lens, stride, 0, |lines|);
  }

  lemma ScanStep(lines: seq<Line>, lens: seq<nat>, stride: nat, i: nat)
    requires ValidSource(lines, lens, stride) && i < |lines| && ScanTo(lines, lens, stride, i + 1).Some?
    ensures ScanTo(lines, lens, stride, i).Some?
    ensures StepPlace(lines[i], lens[i], ScanTo(lines, lens, stride, i).value.place) ==
            Some(ScanTo(lines, lens, stride, i + 1).value.place)
  {
    StepLater(lines[i], lens[i], stride, ScanTo(lines, lens, stride, i).value);
  }

  lemma NamedFrom(lines: seq<Line>, lens: seq<nat>, stride: nat, i: nat, all: seq<Sec>)
    requires ValidSource(lines, lens, stride) && i <= |lines| && ScanTo(lines, lens, stride, |lines|).Some?
    requires ScanTo(lines, lens, stride, |lines|).value.place.secs == all
    ensures ScanTo(lines, lens, stride, i).Some? && NamedIn(ScanTo(lines, lens, stride, i).value.place, all)
  {
    ScanPrefix(lines, lens, stride, i, |lines|);
  }

  /** What the second pass may rely on in front of a line. */
  lemma SpotReady(i: nat, lines: seq<Line>, stride: nat, im0: seq<seq<Match>>, q: Place, all: seq<Sec>)
    requires i < |lines| && Laid(lines, stride, im0, all) && AtSpot(i, lines, stride, im0, q, all)
    ensures var lens := Lens(im0, stride);
            && ScanTo(lines, lens, stride, i).Some? && ScanTo(lines, lens, stride, i + 1).Some?
            && var p, p' := ScanTo(lines, lens, stride, i).value.place, ScanTo(lines, lens, stride, i + 1).value.place;
               && ValidPlace(p) && SameSpot(p, q, all) && DistinctNames(all)
               && StepPlace(lines[i], lens[i], p) == Some(p') && NamedIn(p', all)
  {
    hide StepScan, StepPlace;
    NamedFrom(lines, Lens(im0, stride), stride, i + 1, all);
    ScanStep(lines, Lens(im0, stride), stride, i);
  }

  /** A line that writes nothing. */
  lemma NothingToDo(line: Line, ms: seq<Match>, p: Place, stride: nat, labels: map<string, Word>, s: seq<Section>)
    requires line.LabelLine? || line.EquLine? || line.SectionLine?
    requires ValidLine(line) && stride > 0 && p.cur < |s| && ValidPlace(p) && Skeleton(s) == p.secs
    ensures LineDone(line, ms, p, stride, labels, s) && Grown(s, s)
  {
  }

  function Reset(sections: seq<Section>): (r: seq<Section>)
    ensures |r| == |sections| && forall k :: 0 <= k < |sections| ==> r[k] == sections[k].(pos := 0)
  {
    seq(|sections|, k requires 0 <= k < |sections| => sections[k].(pos := 0))
  }

  lemma StillValid(lines: seq<Line>, stride: nat, im0: seq<seq<Match>>, im: seq<seq<Match>>, i: nat)
    requires ValidJob(lines, stride, im) && Dropped(im0, im) && i < |im| && |im[i]| > 1
    ensures ValidJob(lines, stride, im[i := im[i][1..]]) && Dropped(im0, im[i := im[i][1..]])
  {
    SuffixStep(im[i], im0[i]);
  }

  lemma SpotDone(line: Line, ms: seq<Match>, p: Place, q: Place, all: seq<Sec>, stride: nat,
                 labels: map<string, Word>, sections: seq<Section>)
    requires ValidPlace(p) && SameSpot(p, q, all) && LineDone(line, ms, q, stride, labels, sections)
    ensures LineDone(line, ms, p, stride, labels, sections)
  {
    SameBytes(line, Head(ms), p, q, all, stride, labels);
  }

  lemma SpotMeans(line: Line, ms: seq<Match>, p: Place, q: Place, all: seq<Sec>, stride: nat, labels: map<string, Word>)
    requires ValidPlace(p) && SameSpot(p, q, all)
    ensures Unfit(ms, q, stride, labels) ==> Unfit(ms, p, stride, labels)
    ensures Uncomputable(line, ms, q, stride, labels) ==> Uncomputable(line, ms, p, stride, labels)
  {
    assert q.secs[q.cur] == p.secs[p.cur];
  }

  /** In the second pass a section directive always finds its section. */
  lemma FoundSection(line: Line, len: nat, p: Place, p': Place, q: Place, all: seq<Sec>)
    requires ValidLine(line) && ValidPlace(p) && SameSpot(p, q, all)
    requires StepPlace(line, len, p) == Some(p') && NamedIn(p', all)
    ensures line.SectionLine? ==> FindSec(q.secs, line.name, 0) < |q.secs|
  {
    if line.SectionLine? {
      assert q.secs[p'.cur].name == line.name;
    }
  }

  /** `struct asctx`, with `im` the encodings still allowed for every line. */
  class Assembler {
    const lines: seq<Line>
    const stride: nat
    var im: seq<seq<Match>>
    var labels: map<string, Word>
    var sections: seq<Section>
    var cursect: nat

    ghost predicate Valid()
      reads this`im
    {
      ValidJob(lines, stride, im)
    }

    /** Where the next line will stand. */
    ghost function Here(): Place
      reads this`sections, this`cursect
    {
      Place(cursect, Skeleton(sections))
    }

    ghost function ScanAt(i: nat): Option<Scan>
      requires Valid() && i <= |lines|
      reads this`im
    {
      ScanTo(lines, Lens(im, stride), stride, i)
    }

    ghost predicate AllDone()
      requires Valid()
      reads this`im, this`labels, this`sections
    {
      DoneUpTo(|lines|, lines, im, Lens(im, stride), stride, labels, sections)
    }

    constructor (lines: seq<Line>, stride: nat, im: seq<seq<Match>>)
      requires ValidJob(lines, stride, im)
      ensures Valid() && this.lines == lines && this.stride == stride && this.im == im
    {
      this.lines, this.stride, this.im := lines, stride, im;
      labels, sections, cursect := map[], [], 0;
    }

    method FindSection(name: string) returns (j: nat)
      ensures j == FindSec(Skeleton(sections), name, 0)
    {
      j := 0;
      while j < |sections| && sections[j].name != name
        invariant j <= |sections|
        invariant FindSec(Skeleton(sections), name, 0) == FindSec(Skeleton(sections), name, j)
      {
        j := j + 1;
      }
    }

    /** The current section's position becomes `pos`. */
    method SetPos(pos: nat)
      requires cursect < |sections|
      modifies `sections
      ensures Here() == MoveTo(old(Here()), pos)
      ensures (forall s :: s in old(sections) ==> s.code == []) ==> forall s :: s in sections ==> s.code == []
    {
      SkeletonMove(sections, cursect, sections[cursect].(pos := pos));
      sections := sections[cursect := sections[cursect].(pos := pos)];
    }

    /** `.section`: the section of that name, or a new one. */
    method SwitchTo(name: string, base: Option<Word>)
      requires Valid() && cursect < |sections|
      requires forall s :: s in sections ==> s.code == []
      modifies `sections, `cursect
      ensures cursect < |sections| && forall s :: s in sections ==> s.code == []
      ensures StepPlace(SectionLine(name, base), 0, old(Here())) == Some(Here())
    {
      var j := FindSection(name);
      if j == |sections| {
        var s := Section(name, if base.Some? then base.value else Zero(), 0, []);
        SkeletonSnoc(sections, s);
        sections := sections + [s];
      }
      cursect := j;
    }

    /** The position bookkeeping of one line of the first pass. */
    method MoveLine(i: nat) returns (ok: bool)
      requires Valid() && i < |lines| && cursect < |sections|
      requires forall s :: s in sections ==> s.code == []
      modifies `sections, `cursect
      ensures cursect < |sections| && forall s :: s in sections ==> s.code == []
      ensures StepPlace(lines[i], Lens(im, stride)[i], old(Here())) == if ok then Some(Here()) else None
    {
      var pos := sections[cursect].pos;
      match lines[i] {
        case InsnLine => SetPos(pos + im[i][0].oplen * stride);
        case SectionLine(name, base) =>
          SwitchTo(name, base);
        case AlignLine(n) => SetPos((pos + n - 1) / n * n);
        case SizeLine(n) =>
          if pos > n {
            return false;
          }
          SetPos(n);
        case SkipLine(n) => SetPos(pos + n);
        case DataLine(_, bytes, params) =>
          if exists e :: e in params && !IsImm(e) {
            return false;
          }
          SetPos(pos + bytes * |params|);
        case BadLine => return false;
        case LabelLine(_) =>
        case EquLine(_, _) =>
      }
      return true;
    }

    /** One line of the first pass. */
    method ScanLine(i: nat) returns (ok: bool)
      requires Valid() && i < |lines| && cursect < |sections|
      requires forall s :: s in sections ==> s.code == []
      modifies `labels, `sections, `cursect
      ensures cursect < |sections| && forall s :: s in sections ==> s.code == []
      ensures StepScan(lines[i], Lens(im, stride)[i], stride, Scan(old(Here()), old(labels))) ==
              if ok then Some(Scan(Here(), labels)) else None
    {
      match lines[i] {
        case LabelLine(name) =>
          if name in labels {
            return false;
          }
          var pos := NextAddress();
          labels := labels[name := pos];
          return true;
        case EquLine(name, e) =>
          var v := Eval(e, LabelEnv(labels));
          if !IsImm(e) || v.None? || name in labels {
            return false;
          }
          labels := labels[name := v.value];
          return true;
        case _ => ok := MoveLine(i);
      }
    }

    /** Step over `n` bytes of the current section. */
    method Skip(n: nat)
      requires cursect < |sections|
      modifies `sections
      ensures Here() == MoveTo(old(Here()), Offset(old(Here())) + n)
    {
      assert Offset(Here()) == sections[cursect].pos;
      SetPos(sections[cursect].pos + n);
    }

    /** One line of the first pass, in terms of the whole scan. */
    method ScanNext(i: nat) returns (ok: bool)
      requires Valid() && i < |lines| && cursect < |sections| && ScanAt(i) == Some(Scan(Here(), labels))
      requires forall s :: s in sections ==> s.code == []
      modifies `labels, `sections, `cursect
      ensures cursect < |sections| && forall s :: s in sections ==> s.code == []
      ensures if ok then ScanAt(i + 1) == Some(Scan(Here(), labels)) else ScanAt(|lines|).None?
    {
      hide StepScan;
      ok := ScanLine(i);
      if !ok {
        ScanStays(lines, Lens(im, stride), stride, i + 1);
      }
    }

    /** The first pass: it succeeds iff the scan does, and leaves its result. */
    method PassOne() returns (ok: bool)
      requires Valid()
      modifies `labels, `sections, `cursect
      ensures ok <==> ScanAt(|lines|).Some?
      ensures ok ==> ScanAt(|lines|) == Some(Scan(Here(), labels)) && forall s :: s in sections ==> s.code == []
    {
      labels := map[];
      sections := [Section("default", Zero(), 0, [])];
      cursect := 0;
      assert Skeleton(sections) == [Sec("default", Zero(), 0)];
      var i := 0;
      while i < |lines|
        invariant 0 <= i <= |lines| && cursect < |sections|
        invariant ScanAt(i) == Some(Scan(Here(), labels))
        invariant forall s :: s in sections ==> s.code == []
      {
        ok := ScanNext(i);
        if !ok {
          return;
        }
        i := i + 1;
      }
      ok := true;
    }

    /** The section that the current line writes to becomes `t`. */
    method PutSection(t: Section, ghost bytes: seq<Byte>)
      requires cursect < |sections| && Appended(sections[cursect], t, bytes)
      modifies `sections
      ensures Here() == MoveTo(old(Here()), Offset(old(Here())) + |bytes|)
      ensures Grown(old(sections), sections) && cursect < |sections| && sections[cursect] == t
      ensures Stands(sections[cursect].code, Offset(old(Here())), bytes)
      ensures Covered(old(sections)) ==> Covered(sections)
    {
      SkeletonMove(sections, cursect, t);
      sections := sections[cursect := t];
    }

    /** A resolved encoding is written out. */
    method WriteInsn(i: nat, a: Code, ghost m: Code)
      requires Valid() && i < |lines| && lines[i].InsnLine? && cursect < |sections|
      requires im[i] != [] && GoodMatch(im[i][0]) && im[i][0].oplen * stride <= 8 * MAXOPLEN
      requires Resolve(im[i][0], Address(Here(), stride), labels) == Fits(a, m)
      modifies `sections
      ensures Here() == MoveTo(old(Here()), Offset(old(Here())) + Lens(im, stride)[i])
      ensures Grown(old(sections), sections) && (Covered(old(sections)) ==> Covered(sections))
      ensures LineDone(lines[i], im[i], old(Here()), stride, labels, sections)
    {
      hide CodeBytes, Stands, Resolve, LineDone, Grown, Covered;
      hide LayoutNumbers.LeNumber, LayoutNumbers.CodeNumber, Pow2;
      var n := im[i][0].oplen * stride;
      var t := EmitCode(sections[cursect], a, n);
      PutSection(t, CodeBytes(a, n));
      InsnDone(im[i], old(Here()), stride, labels, sections, a, m);
    }

    /** `pos / stride + base` of the current section. */
    method NextAddress() returns (pos: Word)
      requires stride > 0 && cursect < |sections|
      ensures pos == Address(Here(), stride)
    {
      assert Offset(Here()) == sections[cursect].pos;
      pos := Add(FromNat(sections[cursect].pos / stride), sections[cursect].base);
    }

    /** An instruction line of the second pass, when its encoding fits; otherwise
        only the verdict. */
    method EmitInsn(i: nat) returns (res: LineResult)
      requires Valid() && i < |lines| && lines[i].InsnLine? && cursect < |sections|
      modifies `sections
      ensures res.Written? ==>
                && Here() == MoveTo(old(Here()), Offset(old(Here())) + Lens(im, stride)[i])
                && Grown(old(sections), sections) && (Covered(old(sections)) ==> Covered(sections))
                && LineDone(lines[i], im[i], old(Here()), stride, labels, sections)
      ensures !res.Written? ==> sections == old(sections)
      ensures res.Retry? ==> |im[i]| > 1
      ensures res.Exhausted? ==> |im[i]| == 1 && Unfit(im[i], Here(), stride, labels)
      ensures res.Stopped? ==> Uncomputable(lines[i], im[i], Here(), stride, labels)
    {
      hide LineDone, Grown, Covered, Resolve;
      CandidateFits(lines, im, stride, i);
      var pos := NextAddress();
      var val := ResolveMatch(im[i][0], pos, labels);
      if val.Fits? {
        WriteInsn(i, val.a, val.m);
        return Written;
      }
      return if val.BadExpr? then Stopped else if |im[i]| == 1 then Exhausted else Retry;
    }

    /** A relocation did not fit: step over the line and drop its encoding. */
    method DropEncoding(i: nat)
      requires i < |im| && |im[i]| > 1 && cursect < |sections|
      modifies `im, `sections
      ensures Here() == MoveTo(old(Here()), Offset(old(Here())) + old(Lens(im, stride))[i])
      ensures im == old(im)[i := old(im)[i][1..]]
    {
      Skip(im[i][0].oplen * stride);
      im := im[i := im[i][1..]];
    }

    /** The padding directives of the second pass. */
    method EmitPadding(i: nat, pos: nat)
      requires Valid() && i < |lines| && cursect < |sections|
      requires lines[i].AlignLine? || lines[i].SizeLine? || lines[i].SkipLine?
      requires Offset(Here()) <= pos
      requires LineBytes(lines[i], None, Here(), stride, labels) == Some(seq(pos - Offset(Here()), _ => ZeroByte()))
      modifies `sections
      ensures Here() == MoveTo(old(Here()), pos)
      ensures Grown(old(sections), sections) && (Covered(old(sections)) ==> Covered(sections))
      ensures LineDone(lines[i], im[i], old(Here()), stride, labels, sections)
    {
      var t := EmitZeros(sections[cursect], pos);
      PutSection(t, seq(pos - sections[cursect].pos, _ => ZeroByte()));
    }

    /** A data directive of the second pass. */
    method EmitDataLine(i: nat) returns (ok: bool)
      requires Valid() && i < |lines| && ValidLine(lines[i]) && lines[i].DataLine? && cursect < |sections|
      modifies `sections
      ensures ok <==> DataBytes(lines[i].kind, lines[i].bytes, lines[i].params, labels).Some?
      ensures ok ==> Here() == MoveTo(old(Here()), Offset(old(Here())) + DataSize(lines[i]))
      ensures ok ==> Grown(old(sections), sections) && (Covered(old(sections)) ==> Covered(sections))
      ensures ok ==> LineDone(lines[i], im[i], old(Here()), stride, labels, sections)
      ensures !ok <==> LayoutNumbers.Refused(lines[i].kind, lines[i].bytes, lines[i].params, labels)
      ensures ok ==> cursect < |sections| && cursect == old(cursect)
                     && LayoutNumbers.LineLists(lines[i], labels, sections[cursect].code, old(Offset(Here())))
    {
      hide DataBytes, Stands, Grown, Covered, LayoutNumbers.Refused, LayoutNumbers.Lists;
      var line := lines[i];
      var t;
      ok, t := EmitData(sections[cursect], line.kind, line.bytes, line.params, labels);
      if ok {
        DataLength(line.kind, line.bytes, line.params, labels);
        PutSection(t, DataBytes(line.kind, line.bytes, line.params, labels).value);
      }
    }

    /** Any other line of the second pass. */
    method EmitOther(i: nat) returns (res: LineResult)
      requires Valid() && i < |lines| && !lines[i].InsnLine? && cursect < |sections|
      requires StepPlace(lines[i], Lens(im, stride)[i], Here()).Some?
      requires lines[i].SectionLine? ==> FindSec(Here().secs, lines[i].name, 0) < |sections|
      modifies `sections, `cursect
      ensures res.Written? || res.Stopped?
      ensures res.Written? ==>
                && StepPlace(lines[i], Lens(im, stride)[i], old(Here())) == Some(Here())
                && cursect < |sections| && Grown(old(sections), sections)
                && (Covered(old(sections)) ==> Covered(sections))
                && LineDone(lines[i], im[i], old(Here()), stride, labels, sections)
      ensures res.Stopped? ==> Uncomputable(lines[i], im[i], old(Here()), stride, labels)
    {
      hide LineDone, Grown, Covered, DataBytes;
      var pos := sections[cursect].pos;
      match lines[i] {
        case AlignLine(n) =>
          AlignUp(pos, n);
          EmitPadding(i, (pos + n - 1) / n * n);
        case SizeLine(n) => EmitPadding(i, n);
        case SkipLine(n) => EmitPadding(i, pos + n);
        case DataLine(_, _, _) =>
          var ok := EmitDataLine(i);
          if !ok {
            return Stopped;
          }
        case SectionLine(name, _) =>
          NothingToDo(lines[i], im[i], Here(), stride, labels, sections);
          cursect := FindSection(name);
        case LabelLine(_) => NothingToDo(lines[i], im[i], Here(), stride, labels, sections);
        case EquLine(_, _) => NothingToDo(lines[i], im[i], Here(), stride, labels, sections);
      }
      return Written;
    }

    /** One line of the second pass.  `p` and `p'` are the first pass's places in
        front of and behind the line. */
    method EmitLine(i: nat, ghost p: Place, ghost p': Place, ghost all: seq<Sec>) returns (res: LineResult)
      requires Valid() && i < |lines| && ValidPlace(p) && SameSpot(p, Here(), all) && DistinctNames(all)
      requires StepPlace(lines[i], Lens(im, stride)[i], p) == Some(p') && NamedIn(p', all)
      modifies `im, `sections, `cursect
      ensures res.Written? || res.Retry? ==> ValidPlace(p') && SameSpot(p', Here(), all)
      ensures !res.Retry? ==> im == old(im)
      ensures res.Written? ==>
                && Grown(old(sections), sections) && (Covered(old(sections)) ==> Covered(sections))
                && LineDone(lines[i], im[i], p, stride, labels, sections)
      ensures res.Retry? ==> |old(im)[i]| > 1 && im == old(im)[i := old(im)[i][1..]]
      ensures res.Exhausted? ==> |im[i]| == 1 && Unfit(im[i], p, stride, labels)
      ensures res.Stopped? ==> Uncomputable(lines[i], im[i], p, stride, labels)
    {
      hide LineDone, Grown, Covered, Unfit, Uncomputable;
      SameStep(lines[i], Lens(im, stride)[i], p, Here(), all);
      SpotMeans(lines[i], im[i], p, Here(), all, stride, labels);
      if lines[i].InsnLine? {
        res := EmitInsn(i);
        if res.Written? {
          SpotDone(lines[i], im[i], p, old(Here()), all, stride, labels, sections);
        } else if res.Retry? {
          DropEncoding(i);
        }
      } else {
        FoundSection(lines[i], Lens(im, stride)[i], p, p', Here(), all);
        res := EmitOther(i);
        if res.Written? {
          SpotDone(lines[i], im[i], p, old(Here()), all, stride, labels, sections);
        }
      }
    }

    /** One line of the second pass, at the place the first pass found for it. */
    method EmitAt(i: nat, ghost im0: seq<seq<Match>>, ghost all: seq<Sec>) returns (res: LineResult)
      requires Valid() && i < |lines| == |im0| && im[i] == im0[i]
      requires Laid(lines, stride, im0, all) && AtSpot(i, lines, stride, im0, Here(), all)
      modifies `im, `sections, `cursect
      ensures res.Written? || res.Retry? ==> AtSpot(i + 1, lines, stride, im0, Here(), all)
      ensures res.Written? ==>
                && im == old(im)
                && Grown(old(sections), sections) && (Covered(old(sections)) ==> Covered(sections))
                && LineDone(lines[i], im[i], ScanTo(lines, Lens(im0, stride), stride, i).value.place, stride, labels,
                            sections)
      ensures res.Retry? ==> |old(im)[i]| > 1 && im == old(im)[i := old(im)[i][1..]]
      ensures res.Exhausted? || res.Stopped? ==>
                im == old(im)
                && Explains(if res.Exhausted? then NoFit(i) else BadValue(i), lines, stride, im, Lens(im0, stride),
                            labels)
    {
      hide SameSpot, ValidPlace, StepPlace, NamedIn, DistinctNames, StepScan, LineDone, Grown, Covered, Unfit,
           Uncomputable, Laid;
      ghost var lens := Lens(im0, stride);
      SpotReady(i, lines, stride, im0, Here(), all);
      res := EmitLine(i, ScanTo(lines, lens, stride, i).value.place, ScanTo(lines, lens, stride, i + 1).value.place,
                      all);
    }

    /** One line of the second pass, in terms of the whole pass. */
    method PassLine(i: nat, ghost im0: seq<seq<Match>>, ghost all: seq<Sec>, allok: bool)
      returns (res: LineResult, allok': bool)
      requires i < |lines| && Laid(lines, stride, im0, all)
      requires Midway(i, lines, stride, im0, im, Here(), all, labels, sections, allok)
      modifies `im, `sections, `cursect
      ensures res.Written? || res.Retry? ==>
                Midway(i + 1, lines, stride, im0, im, Here(), all, labels, sections, allok')
      ensures res.Exhausted? || res.Stopped? ==>
                Dropped(im0, im)
                && Explains(if res.Exhausted? then NoFit(i) else BadValue(i), lines, stride, im, Lens(im0, stride),
                            labels)
    {
      hide LineDone, Grown, Covered, StepScan, Explains;
      res := EmitAt(i, im0, all);
      allok' := allok && res.Written?;
      if res.Retry? {
        MidwayRetry(i, lines, stride, im0, old(im), old(Here()), Here(), all, labels, old(sections), sections, allok);
      } else if res.Written? {
        MidwayWritten(i, lines, stride, im0, im, old(Here()), Here(), all, labels, old(sections), sections, allok);
      }
    }

    /** The second pass visits the places of the first.  If every relocation fits,
        every line's bytes stand at its place; each one that does not fit costs
        its line an encoding. */
    method PassTwo() returns (result: LayoutResult, allok: bool)
      requires Valid() && ScanAt(|lines|) == Some(Scan(Here(), labels)) && forall s :: s in sections ==> s.code == []
      modifies `im, `sections, `cursect
      ensures Dropped(old(im), im) && (result.Ok? ==> Valid())
      ensures result.Ok? && allok ==> im == old(im) && Covered(sections) && AllDone()
      ensures result.Ok? && !allok ==> Spare(im) < Spare(old(im))
      ensures !result.Ok? ==> Explains(result, lines, stride, im, Lens(old(im), stride), labels) && !result.BadSource?
    {
      hide LineDone, Grown, Covered, StepScan, Midway, Explains, Laid;
      ghost var im0, all := im, Skeleton(sections);
      MidwayStart(lines, stride, im, labels, sections, Reset(sections));
      sections := Reset(sections);
      cursect := 0;
      allok := true;
      var i := 0;
      while i < |lines|
        invariant i <= |lines| && Midway(i, lines, stride, im0, im, Here(), all, labels, sections, allok)
      {
        var res;
        res, allok := PassLine(i, im0, all, allok);
        if res.Exhausted? {
          return NoFit(i), false;
        }
        if res.Stopped? {
          return BadValue(i), false;
        }
        i := i + 1;
      }
      MidwayEnd(lines, stride, im0, im, Here(), all, labels, sections, allok);
      result := Ok;
    }

    /** One turn of the loop: the first pass and, if that succeeds, the second. */
    method BothPasses() returns (result: LayoutResult, allok: bool)
      requires Valid()
      modifies `im, `labels, `sections, `cursect
      ensures Dropped(old(im), im) && (result.Ok? ==> Valid())
      ensures result.Ok? && allok ==> im == old(im) && Covered(sections) && AllDone()
      ensures result.Ok? && !allok ==> Spare(im) < Spare(old(im))
      ensures !result.Ok? ==> Explains(result, lines, stride, im, Lens(old(im), stride), labels)
      ensures !result.BadSource? ==> LabelsOf(lines, Lens(old(im), stride), stride) == Some(labels)
    {
      hide Covered, Midway, Laid;
      DroppedNone(im);
      var ok := PassOne();
      if ok {
        hide Explains;
        result, allok := PassTwo();
      } else {
        result, allok := BadSource, false;
      }
    }

    /** The whole layout.  It always stops, after at most one pass more than there
        are spare encodings; `used` are the encodings of its last pass.  When it
        succeeds, the labels are those of a scan with the final encodings, and every
        line's bytes, relocated with those labels, stand where that scan puts it.
        When a relocation fails, the labels are those of the scan of that pass. */
    method Run() returns (result: LayoutResult, passes: nat, ghost used: seq<seq<Match>>)
      requires Valid()
      modifies this
      ensures passes <= 1 + Spare(old(im))
      ensures Dropped(old(im), used) && Dropped(used, im)
      ensures result.Ok? ==>
                && Valid() && AllDone() && Covered(sections)
                && ScanAt(|lines|).Some? && ScanAt(|lines|).value.labels == labels
      ensures !result.Ok? ==> Explains(result, lines, stride, im, Lens(used, stride), labels)
      ensures result.NoFit? || result.BadValue? ==> LabelsOf(lines, Lens(used, stride), stride) == Some(labels)
    {
      hide Explains, Covered, DoneUpTo, ScanTo, Spare, Dropped;
      passes := 0;
      used := im;
      ghost var im0 := im;
      var allok := false;
      DroppedNone(im);
      while !allok
        invariant Valid() && Dropped(im0, used) && Dropped(used, im)
        invariant passes + Spare(im) <= Spare(im0) + (if allok then 1 else 0)
        invariant allok ==> AllDone() && Covered(sections) && LabelsOf(lines, Lens(im, stride), stride) == Some(labels)
        decreases !allok, Spare(im)
      {
        DroppedTwice(im0, used, im);
        used := im;
        passes := passes + 1;
        result, allok := BothPasses();
        if !result.Ok? {
          return;
        }
      }
      result := Ok;
    }
  }
}
