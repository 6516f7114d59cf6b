/** The written-range list of a buffer as a sequence of half-open intervals: what
    each routine of `demmt/region.c` does to it, and why that is set union. */
module Intervals {

  datatype Iv = Iv(start: nat, end: nat)

  /** The offset `x` has been written. */
  ghost predicate Covers(ivs: seq<Iv>, x: nat) {
    exists i :: 0 <= i < |ivs| && ivs[i].start <= x < ivs[i].end
  }

  /** Every interval is non-empty and separated from the next by a gap. */
  predicate Canonical(ivs: seq<Iv>) {
    && (forall i :: 0 <= i < |ivs| ==> ivs[i].start < ivs[i].end)
    && (forall i :: 0 < i < |ivs| ==> ivs[i - 1].end < ivs[i].start)
  }

  function Drop(ivs: seq<Iv>, k: nat): seq<Iv>
    requires k < |ivs|
  {
    ivs[..k] + ivs[k + 1..]
  }

  /** `maybe_merge_with_next` */
  function MergeNext(ivs: seq<Iv>, k: nat): seq<Iv>
    requires k < |ivs|
    decreases |ivs|
  {
    if k + 1 == |ivs| || ivs[k + 1].start > ivs[k].end then ivs
    else if ivs[k + 1].end <= ivs[k].end then MergeNext(Drop(ivs, k + 1), k)
    else Drop(ivs[k := Iv(ivs[k].start, ivs[k + 1].end)], k + 1)
  }

  /** `maybe_merge_with_previous` */
  function MergePrev(ivs: seq<Iv>, k: nat): seq<Iv>
    requires k < |ivs|
    decreases |ivs|
  {
    if k == 0 || ivs[k - 1].end < ivs[k].start then ivs
    else if ivs[k - 1].start >= ivs[k].start then MergePrev(Drop(ivs, k - 1), k - 1)
    else Drop(ivs[k := Iv(ivs[k - 1].start, ivs[k].end)], k - 1)
  }

  /** What `__regions_add_range` does with the interval the scan stops on. */
  function PlaceAt(ivs: seq<Iv>, start: nat, end: nat, k: nat): seq<Iv>
    requires k < |ivs|
  {
    var cur := ivs[k];
    if end > cur.end then MergeNext(ivs[k := Iv(cur.start, end)], k)
    else if start >= cur.start then ivs
    else if end < cur.start then MergePrev(ivs[..k] + [Iv(start, end)] + ivs[k..], k)
    else MergePrev(ivs[k := Iv(start, cur.end)], k)
  }

  /** The scan of `__regions_add_range` from interval `k` on. */
  function ScanFrom(ivs: seq<Iv>, start: nat, end: nat, k: nat): (stop: nat)
    requires k < |ivs| && end <= ivs[|ivs| - 1].end
    ensures stop < |ivs| && (end > ivs[stop].end ==> ivs[stop].end == start)
    decreases |ivs| - k
  {
    if end > ivs[k].end && ivs[k].end != start then ScanFrom(ivs, start, end, k + 1) else k
  }

  /** `__regions_add_range`; `end` is the end that the source computes, which is less than
      `start` where 32 bits are not enough for it. */
  function AddRange(ivs: seq<Iv>, start: nat, end: nat): seq<Iv> {
    if ivs == [] then [Iv(start, end)]
    else
      var n := |ivs| - 1;
      var last := ivs[n];
      if start == last.end then ivs[n := Iv(last.start, end)]
      else if start > last.end then ivs + [Iv(start, end)]
      else if end > last.end then
        if start < last.start then MergePrev(ivs[n := Iv(start, end)], n)
        else ivs[n := Iv(last.start, end)]
      else PlaceAt(ivs, start, end, ScanFrom(ivs, start, end, 0))
  }

  // ---------------------------------------------------------------------
  // Merging keeps the set and restores the canonical form
  // ---------------------------------------------------------------------

  ghost predicate SameSet(s: seq<Iv>, t: seq<Iv>) {
    forall x: nat :: Covers(s, x) <==> Covers(t, x)
  }

  lemma CoversSplit(s: seq<Iv>, t: seq<Iv>, x: nat)
    ensures Covers(s + t, x) <==> Covers(s, x) || Covers(t, x)
  {
    if Covers(s, x) {
      var i :| 0 <= i < |s| && s[i].start <= x < s[i].end;
      assert (s + t)[i] == s[i];
    }
    if Covers(t, x) {
      var i :| 0 <= i < |t| && t[i].start <= x < t[i].end;
      assert (s + t)[|s| + i] == t[i];
    }
  }

  lemma CoversAt(ivs: seq<Iv>, k: nat, x: nat)
    requires k < |ivs|
    ensures Covers(ivs, x) <==> Covers(Drop(ivs, k), x) || ivs[k].start <= x < ivs[k].end
  {
    CoversSplit(ivs[..k], ivs[k + 1..], x);
    CoversSplit(ivs[..k], ivs[k..], x);
    CoversSplit([ivs[k]], ivs[k + 1..], x);
    assert ivs == ivs[..k] + ivs[k..];
    assert ivs[k..] == [ivs[k]] + ivs[k + 1..];
    assert [ivs[k]][0] == ivs[k];
  }

  /** Dropping an interval that lies within another loses nothing. */
  lemma DropInside(ivs: seq<Iv>, k: nat, j: nat)
    requires k < |ivs| && j < |ivs| && j != k
    requires ivs[j].start <= ivs[k].start && ivs[k].end <= ivs[j].end
    ensures SameSet(Drop(ivs, k), ivs)
  {
    forall x: nat ensures Covers(Drop(ivs, k), x) <==> Covers(ivs, x) {
      CoversAt(ivs, k, x);
      var d := Drop(ivs, k);
      assert d[if j < k then j else j - 1] == ivs[j];
    }
  }

  /** Replacing an interval by one that covers it and what it touches. */
  lemma Replace(ivs: seq<Iv>, k: nat, iv: Iv, x: nat)
    requires k < |ivs|
    ensures Covers(ivs[k := iv], x) <==> Covers(Drop(ivs, k), x) || iv.start <= x < iv.end
  {
    CoversAt(ivs[k := iv], k, x);
    assert Drop(ivs[k := iv], k) == Drop(ivs, k);
  }

  /** Widening an interval over a neighbour that it meets. */
  lemma JoinSame(ivs: seq<Iv>, k: nat, j: nat, wide: Iv)
    requires k < |ivs| && j < |ivs| && j != k
    requires ivs[j].start <= ivs[k].end && ivs[k].start <= ivs[j].end
    requires wide.start == (if ivs[j].start < ivs[k].start then ivs[j].start else ivs[k].start)
    requires wide.end == (if ivs[j].end > ivs[k].end then ivs[j].end else ivs[k].end)
    requires ivs[k].start <= ivs[k].end && ivs[j].start <= ivs[j].end
    ensures SameSet(ivs[k := wide], ivs)
  {
    forall x: nat ensures Covers(ivs[k := wide], x) <==> Covers(ivs, x) {
      Replace(ivs, k, wide, x);
      CoversAt(ivs, k, x);
      var d := Drop(ivs, k);
      assert d[if j < k then j else j - 1] == ivs[j];
    }
  }

  /** Canonical up to `k`, and from `k + 1` on; interval `k` starts before the
      rest but may run into it. */
  ghost predicate LooseAfter(ivs: seq<Iv>, k: nat) {
    && k < |ivs|
    && (forall i :: 0 <= i < |ivs| ==> ivs[i].start < ivs[i].end)
    && (forall i :: 0 < i < |ivs| && i != k + 1 ==> ivs[i - 1].end < ivs[i].start)
    && (k + 1 < |ivs| ==> ivs[k].start < ivs[k + 1].start)
  }

  lemma NextApart(ivs: seq<Iv>, k: nat)
    requires LooseAfter(ivs, k)
    ensures k < |ivs| && forall i :: 0 <= i < |ivs| ==> ivs[i].start < ivs[i].end
    ensures k + 1 < |ivs| ==> ivs[k].start < ivs[k + 1].start
    ensures k + 1 == |ivs| || ivs[k + 1].start > ivs[k].end ==> Canonical(ivs)
  {
  }

  /** Dropping the interval behind `k` leaves the list as it was around `k`. */
  lemma NextStill(ivs: seq<Iv>, k: nat)
    requires LooseAfter(ivs, k) && k + 1 < |ivs|
    ensures LooseAfter(Drop(ivs, k + 1), k)
  {
    var rest := Drop(ivs, k + 1);
    assert forall i :: 0 <= i < |rest| ==> rest[i] == if i < k + 1 then ivs[i] else ivs[i + 1];
    forall i | 0 < i < |rest| && i != k + 1 ensures rest[i - 1].end < rest[i].start {
      assert if i < k + 1 then ivs[i - 1].end < ivs[i].start else ivs[i].end < ivs[i + 1].start;
    }
    if k + 1 < |rest| {
      assert ivs[k + 1].end < ivs[k + 2].start;
    }
  }

  /** The interval behind `k` is joined to it. */
  lemma NextAbsorbed(ivs: seq<Iv>, k: nat)
    requires LooseAfter(ivs, k) && k + 1 < |ivs|
    ensures Canonical(Drop(ivs[k := Iv(ivs[k].start, ivs[k + 1].end)], k + 1))
  {
    var t := Drop(ivs[k := Iv(ivs[k].start, ivs[k + 1].end)], k + 1);
    assert forall i :: 0 <= i < |t| ==>
        t[i] == if i < k then ivs[i] else if i == k then Iv(ivs[k].start, ivs[k + 1].end) else ivs[i + 1];
    forall i | 0 < i < |t| ensures t[i - 1].end < t[i].start {
      assert i <= k ==> ivs[i - 1].end < ivs[i].start;
      assert i > k ==> ivs[i].end < ivs[i + 1].start;
    }
  }

  lemma {:induction false} MergeNextCorrect(ivs: seq<Iv>, k: nat)
    requires LooseAfter(ivs, k)
    ensures Canonical(MergeNext(ivs, k)) && SameSet(MergeNext(ivs, k), ivs)
    decreases |ivs|
  {
    hide SameSet, Canonical, LooseAfter;
    SameTrans(ivs, ivs, ivs);
    NextApart(ivs, k);
    if k + 1 == |ivs| || ivs[k + 1].start > ivs[k].end {
    } else if ivs[k + 1].end <= ivs[k].end {
      var rest := Drop(ivs, k + 1);
      DropInside(ivs, k + 1, k);
      NextStill(ivs, k);
      MergeNextCorrect(rest, k);
      SameTrans(MergeNext(rest, k), rest, ivs);
    } else {
      var wide := ivs[k := Iv(ivs[k].start, ivs[k + 1].end)];
      NextAbsorbed(ivs, k);
      DropInside(wide, k + 1, k);
      JoinSame(ivs, k, k + 1, wide[k]);
      SameTrans(Drop(wide, k + 1), wide, ivs);
    }
  }

  lemma SameTrans(s: seq<Iv>, t: seq<Iv>, u: seq<Iv>)
    ensures SameSet(s, s)
    ensures SameSet(s, t) && SameSet(t, u) ==> SameSet(s, u)
  {
  }

  /** Canonical before `k`, and from `k` on; interval `k` ends after everything
      before it but may reach back into it. */
  ghost predicate LooseBefore(ivs: seq<Iv>, k: nat) {
    && k < |ivs|
    && (forall i :: 0 <= i < |ivs| ==> ivs[i].start < ivs[i].end)
    && (forall i :: 0 < i < |ivs| && i != k ==> ivs[i - 1].end < ivs[i].start)
    && (k > 0 ==> ivs[k - 1].end <= ivs[k].end)
  }

  lemma LooseApart(ivs: seq<Iv>, k: nat)
    requires LooseBefore(ivs, k)
    ensures k < |ivs| && forall i :: 0 <= i < |ivs| ==> ivs[i].start < ivs[i].end
    ensures k > 0 ==> ivs[k - 1].end <= ivs[k].end
    ensures k == 0 || ivs[k - 1].end < ivs[k].start ==> Canonical(ivs)
  {
  }

  /** Dropping the interval before `k` leaves the list as it was around `k`. */
  lemma LooseStill(ivs: seq<Iv>, k: nat)
    requires LooseBefore(ivs, k) && k > 0 && ivs[k - 1].start >= ivs[k].start
    ensures LooseBefore(Drop(ivs, k - 1), k - 1)
  {
    var rest := Drop(ivs, k - 1);
    assert forall i :: 0 <= i < |rest| ==> rest[i] == if i < k - 1 then ivs[i] else ivs[i + 1];
    forall i | 0 < i < |rest| && i != k - 1 ensures rest[i - 1].end < rest[i].start {
      assert if i < k - 1 then ivs[i - 1].end < ivs[i].start else ivs[i].end < ivs[i + 1].start;
    }
    if k > 1 {
      assert ivs[k - 2].end < ivs[k - 1].start;
    }
  }

  /** The interval before `k` is joined to it. */
  lemma Absorbed(ivs: seq<Iv>, k: nat)
    requires LooseBefore(ivs, k) && k > 0 && ivs[k - 1].start < ivs[k].start
    ensures Canonical(Drop(ivs[k := Iv(ivs[k - 1].start, ivs[k].end)], k - 1))
  {
    var t := Drop(ivs[k := Iv(ivs[k - 1].start, ivs[k].end)], k - 1);
    assert forall i :: 0 <= i < |t| ==>
        t[i] == if i < k - 1 then ivs[i] else if i == k - 1 then Iv(ivs[k - 1].start, ivs[k].end) else ivs[i + 1];
    forall i | 0 < i < |t| ensures t[i - 1].end < t[i].start {
      assert i < k ==> ivs[i - 1].end < ivs[i].start;
      assert i >= k ==> ivs[i].end < ivs[i + 1].start;
    }
  }

  lemma {:induction false} MergePrevCorrect(ivs: seq<Iv>, k: nat)
    requires LooseBefore(ivs, k)
    ensures Canonical(MergePrev(ivs, k)) && SameSet(MergePrev(ivs, k), ivs)
    decreases |ivs|
  {
    hide SameSet, Canonical, LooseBefore;
    SameTrans(ivs, ivs, ivs);
    LooseApart(ivs, k);
    if k == 0 || ivs[k - 1].end < ivs[k].start {
    } else if ivs[k - 1].start >= ivs[k].start {
      var rest := Drop(ivs, k - 1);
      DropInside(ivs, k - 1, k);
      LooseStill(ivs, k);
      MergePrevCorrect(rest, k - 1);
      SameTrans(MergePrev(rest, k - 1), rest, ivs);
    } else {
      var wide := ivs[k := Iv(ivs[k - 1].start, ivs[k].end)];
      Absorbed(ivs, k);
      DropInside(wide, k - 1, k);
      JoinSame(ivs, k, k - 1, wide[k]);
      SameTrans(Drop(wide, k - 1), wide, ivs);
    }
  }

  // ---------------------------------------------------------------------
  // Adding a range is set union
  // ---------------------------------------------------------------------

  /** `t` covers exactly what `s` covers and the range. */
  ghost predicate IsUnion(t: seq<Iv>, s: seq<Iv>, start: nat, end: nat) {
    forall x: nat :: Covers(t, x) <==> Covers(s, x) || start <= x < end
  }

  /** Growing interval `k` by a range that it overlaps or touches. */
  lemma GrowIsUnion(ivs: seq<Iv>, k: nat, iv: Iv, start: nat, end: nat)
    requires k < |ivs| && ivs[k].start <= end && start <= ivs[k].end && ivs[k].start <= ivs[k].end && start <= end
    requires iv.start == (if start < ivs[k].start then start else ivs[k].start)
    requires iv.end == (if end > ivs[k].end then end else ivs[k].end)
    ensures IsUnion(ivs[k := iv], ivs, start, end)
  {
    forall x: nat ensures Covers(ivs[k := iv], x) <==> Covers(ivs, x) || start <= x < end {
      Replace(ivs, k, iv, x);
      CoversAt(ivs, k, x);
    }
  }

  lemma InsertIsUnion(ivs: seq<Iv>, k: nat, start: nat, end: nat)
    requires k <= |ivs|
    ensures IsUnion(ivs[..k] + [Iv(start, end)] + ivs[k..], ivs, start, end)
  {
    var t := ivs[..k] + [Iv(start, end)] + ivs[k..];
    assert Drop(t, k) == ivs;
    forall x: nat ensures Covers(t, x) <==> Covers(ivs, x) || start <= x < end {
      CoversAt(t, k, x);
    }
  }

  lemma UnionThen(t: seq<Iv>, u: seq<Iv>, s: seq<Iv>, start: nat, end: nat)
    requires SameSet(t, u) && IsUnion(u, s, start, end)
    ensures IsUnion(t, s, start, end)
  {
  }

  lemma ExtendRight(ivs: seq<Iv>, end: nat, k: nat)
    requires Canonical(ivs) && k < |ivs| && ivs[k].end < end
    ensures var t := MergeNext(ivs[k := Iv(ivs[k].start, end)], k);
            Canonical(t) && IsUnion(t, ivs, ivs[k].end, end)
  {
    var wide := ivs[k := Iv(ivs[k].start, end)];
    MergeNextCorrect(wide, k);
    GrowIsUnion(ivs, k, wide[k], ivs[k].end, end);
    UnionThen(MergeNext(wide, k), wide, ivs, ivs[k].end, end);
  }

  lemma ExtendLeft(ivs: seq<Iv>, start: nat, end: nat, k: nat)
    requires Canonical(ivs) && k < |ivs| && start < ivs[k].start <= end <= ivs[k].end
    ensures var t := MergePrev(ivs[k := Iv(start, ivs[k].end)], k);
            Canonical(t) && IsUnion(t, ivs, start, end)
  {
    var wide := ivs[k := Iv(start, ivs[k].end)];
    GrowIsUnion(ivs, k, wide[k], start, end);
    MergePrevCorrect(wide, k);
    UnionThen(MergePrev(wide, k), wide, ivs, start, end);
  }

  lemma InsertBefore(ivs: seq<Iv>, start: nat, end: nat, k: nat)
    requires Canonical(ivs) && k < |ivs| && start < end && end < ivs[k].start
    requires k > 0 ==> ivs[k - 1].end < end
    ensures var t := MergePrev(ivs[..k] + [Iv(start, end)] + ivs[k..], k);
            Canonical(t) && IsUnion(t, ivs, start, end)
  {
    var wide := ivs[..k] + [Iv(start, end)] + ivs[k..];
    InsertIsUnion(ivs, k, start, end);
    MergePrevCorrect(wide, k);
    UnionThen(MergePrev(wide, k), wide, ivs, start, end);
  }

  lemma AlreadyIn(ivs: seq<Iv>, start: nat, end: nat, k: nat)
    requires k < |ivs| && ivs[k].start <= start <= end <= ivs[k].end
    ensures IsUnion(ivs, ivs, start, end)
  {
    GrowIsUnion(ivs, k, ivs[k], start, end);
    assert ivs[k := ivs[k]] == ivs;
  }

  /** The scan has passed only intervals that end before the range does. */
  lemma {:induction false} ScanCorrect(ivs: seq<Iv>, start: nat, end: nat, k: nat)
    requires Canonical(ivs) && k < |ivs| && end <= ivs[|ivs| - 1].end && start < end
    requires k > 0 ==> ivs[k - 1].end < end
    ensures var t := PlaceAt(ivs, start, end, ScanFrom(ivs, start, end, k));
            Canonical(t) && IsUnion(t, ivs, start, end)
    decreases |ivs| - k
  {
    hide MergeNext, MergePrev, IsUnion;
    var cur := ivs[k];
    if end > cur.end {
      if cur.end == start {
        ExtendRight(ivs, end, k);
      } else {
        ScanCorrect(ivs, start, end, k + 1);
      }
    } else if start >= cur.start {
      AlreadyIn(ivs, start, end, k);
    } else if end < cur.start {
      InsertBefore(ivs, start, end, k);
    } else {
      ExtendLeft(ivs, start, end, k);
    }
  }

  lemma GrowLast(ivs: seq<Iv>, start: nat, end: nat)
    requires Canonical(ivs) && ivs != [] && start < end
    requires ivs[|ivs| - 1].start <= start <= ivs[|ivs| - 1].end < end
    ensures var n := |ivs| - 1;
            var t := ivs[n := Iv(ivs[n].start, end)];
            Canonical(t) && IsUnion(t, ivs, start, end)
  {
    var n := |ivs| - 1;
    GrowIsUnion(ivs, n, Iv(ivs[n].start, end), start, end);
  }

  lemma SwallowLast(ivs: seq<Iv>, start: nat, end: nat)
    requires Canonical(ivs) && ivs != [] && start < ivs[|ivs| - 1].start && ivs[|ivs| - 1].end < end
    ensures var n := |ivs| - 1;
            var t := MergePrev(ivs[n := Iv(start, end)], n);
            Canonical(t) && IsUnion(t, ivs, start, end)
  {
    var n := |ivs| - 1;
    var wide := ivs[n := Iv(start, end)];
    GrowIsUnion(ivs, n, wide[n], start, end);
    MergePrevCorrect(wide, n);
    UnionThen(MergePrev(wide, n), wide, ivs, start, end);
  }

  lemma AppendNew(ivs: seq<Iv>, start: nat, end: nat)
    requires Canonical(ivs) && start < end && (ivs != [] ==> ivs[|ivs| - 1].end < start)
    ensures Canonical(ivs + [Iv(start, end)]) && IsUnion(ivs + [Iv(start, end)], ivs, start, end)
  {
    InsertIsUnion(ivs, |ivs|, start, end);
    assert ivs + [Iv(start, end)] == ivs[..|ivs|] + [Iv(start, end)] + ivs[|ivs|..];
  }

  /** Adding a non-empty range to a canonical list gives the canonical list of the
      union. */
  lemma AddRangeIsUnion(ivs: seq<Iv>, start: nat, end: nat)
    requires Canonical(ivs) && start < end
    ensures Canonical(AddRange(ivs, start, end)) && IsUnion(AddRange(ivs, start, end), ivs, start, end)
  {
    if ivs == [] {
      AppendNew(ivs, start, end);
      assert AddRange(ivs, start, end) == ivs + [Iv(start, end)];
    } else {
      var last := ivs[|ivs| - 1];
      if last.start <= start <= last.end < end {
        GrowLast(ivs, start, end);
      } else if start > last.end {
        AppendNew(ivs, start, end);
      } else if end > last.end {
        SwallowLast(ivs, start, end);
      } else {
        ScanCorrect(ivs, start, end, 0);
      }
    }
  }

  lemma FirstCovered(t: seq<Iv>)
    requires Canonical(t)
    ensures t != [] ==> Covers(t, t[0].start)
  {
  }

  /** A canonical list is determined by the set it covers. */
  lemma {:induction false} CanonicalUnique(s: seq<Iv>, t: seq<Iv>)
    requires Canonical(s) && Canonical(t) && SameSet(s, t)
    ensures s == t
    decreases |s|
  {
    hide SameSet;
    BothEmpty(s, t);
    if s != [] {
      SameFirst(s, t);
      SameTails(s, t);
      CanonicalUnique(s[1..], t[1..]);
      assert s == [s[0]] + s[1..] && t == [t[0]] + t[1..];
    }
  }

  lemma BothEmpty(s: seq<Iv>, t: seq<Iv>)
    requires Canonical(s) && Canonical(t) && SameSet(s, t)
    ensures s == [] <==> t == []
  {
    if s == [] {
      FirstCovered(t);
    } else {
      assert Covers(s, s[0].start);
      assert Covers(t, s[0].start);
    }
  }

  lemma SameTails(s: seq<Iv>, t: seq<Iv>)
    requires Canonical(s) && Canonical(t) && s != [] && t != [] && s[0] == t[0] && SameSet(s, t)
    ensures SameSet(s[1..], t[1..])
  {
    hide Covers;
    forall x: nat ensures Covers(s[1..], x) <==> Covers(t[1..], x) {
      TailCovers(s, x);
      TailCovers(t, x);
    }
  }

  lemma {:induction false} Ordered(s: seq<Iv>, i: nat, j: nat)
    requires Canonical(s) && i < j < |s|
    ensures s[i].end < s[j].start
    decreases j
  {
    if i + 1 < j {
      Ordered(s, i, j - 1);
    }
  }

  lemma SameFirst(s: seq<Iv>, t: seq<Iv>)
    requires Canonical(s) && Canonical(t) && s != [] && t != [] && SameSet(s, t)
    ensures s[0] == t[0]
  {
    FirstStart(s, t);
    FirstStart(t, s);
    FirstEnd(s, t);
    FirstEnd(t, s);
  }

  /** What the tail covers is what the list covers beyond its first interval. */
  lemma TailCovers(s: seq<Iv>, x: nat)
    requires Canonical(s) && s != []
    ensures Covers(s[1..], x) <==> Covers(s, x) && s[0].end <= x
  {
    CoversAt(s, 0, x);
    assert Drop(s, 0) == s[1..];
    if Covers(s[1..], x) {
      Beyond(s, x);
    }
    if Covers(s, x) && s[0].end <= x {
      assert Covers(Drop(s, 0), x);
    }
  }

  lemma Beyond(s: seq<Iv>, x: nat)
    requires Canonical(s) && s != [] && Covers(s[1..], x)
    ensures s[0].end < x
  {
    var i :| 0 <= i < |s[1..]| && s[1..][i].start <= x < s[1..][i].end;
    Ordered(s, 0, i + 1);
  }

  lemma FirstStart(s: seq<Iv>, t: seq<Iv>)
    requires Canonical(s) && Canonical(t) && s != [] && t != [] && SameSet(s, t)
    ensures s[0].start <= t[0].start
  {
    assert Covers(t, t[0].start);
    var i :| 0 <= i < |s| && s[i].start <= t[0].start < s[i].end;
    if i > 0 {
      Ordered(s, 0, i);
    }
  }

  lemma FirstEnd(s: seq<Iv>, t: seq<Iv>)
    requires Canonical(s) && Canonical(t) && s != [] && t != [] && SameSet(s, t) && s[0].start == t[0].start
    ensures s[0].end >= t[0].end
  {
    if s[0].end < t[0].end {
      assert Covers(t, s[0].end);
      assert Covers(s, s[0].end);
      var i :| 0 <= i < |s| && s[i].start <= s[0].end < s[i].end;
      if i > 0 {
        Ordered(s, 0, i);
      }
    }
  }

  // ---------------------------------------------------------------------
  // The verdict of regions_add_range
  // ---------------------------------------------------------------------

  /** `range_in_regions` */
  predicate Contains(ivs: seq<Iv>, start: nat, end: nat) {
    exists i :: 0 <= i < |ivs| && start >= ivs[i].start && end <= ivs[i].end
  }

  lemma AddRangeContains(ivs: seq<Iv>, start: nat, end: nat)
    requires Canonical(ivs) && start < end
    ensures Contains(AddRange(ivs, start, end), start, end)
  {
    AddRangeIsUnion(ivs, start, end);
    var t := AddRange(ivs, start, end);
    assert Covers(t, start);
    var i :| 0 <= i < |t| && t[i].start <= start < t[i].end;
    if t[i].end < end {
      assert Covers(t, t[i].end);
      var j :| 0 <= j < |t| && t[j].start <= t[i].end < t[j].end;
      if i < j {
        Ordered(t, i, j);
      } else if j < i {
        Ordered(t, j, i);
      }
    }
  }

  /** An empty range sits inside or at the edge of some interval. */
  predicate Touches(ivs: seq<Iv>, start: nat) {
    exists i :: 0 <= i < |ivs| && ivs[i].start <= start <= ivs[i].end
  }

  lemma PlaceEmpty(ivs: seq<Iv>, start: nat, k: nat)
    requires Canonical(ivs) && k < |ivs| && start < ivs[k].start
    requires k > 0 ==> ivs[k - 1].end < start
    ensures !Touches(ivs, start) && !Canonical(PlaceAt(ivs, start, start, k))
  {
    var t := ivs[..k] + [Iv(start, start)] + ivs[k..];
    assert MergePrev(t, k) == t && t[k] == Iv(start, start);
    forall i | 0 <= i < |ivs| ensures !(ivs[i].start <= start <= ivs[i].end) {
      if i > k {
        Ordered(ivs, k, i);
      } else if i + 1 < k {
        Ordered(ivs, i, k - 1);
      }
    }
  }

  lemma {:induction false} ScanEmpty(ivs: seq<Iv>, start: nat, k: nat)
    requires Canonical(ivs) && k < |ivs| && start <= ivs[|ivs| - 1].end
    requires k > 0 ==> ivs[k - 1].end < start
    ensures var t := PlaceAt(ivs, start, start, ScanFrom(ivs, start, start, k));
            if Touches(ivs, start) then t == ivs else !Canonical(t)
    decreases |ivs| - k
  {
    if start > ivs[k].end {
      ScanEmpty(ivs, start, k + 1);
    } else if start < ivs[k].start {
      PlaceEmpty(ivs, start, k);
    }
  }

  /** Adding an empty range changes nothing if it touches a region; otherwise the
      list gets an empty region and is no longer canonical. */
  lemma AddEmpty(ivs: seq<Iv>, start: nat)
    requires Canonical(ivs)
    ensures if Touches(ivs, start) then AddRange(ivs, start, start) == ivs && Contains(ivs, start, start)
            else !Canonical(AddRange(ivs, start, start))
  {
    if ivs == [] {
      assert AddRange(ivs, start, start)[0] == Iv(start, start);
    } else {
      var n := |ivs| - 1;
      if start == ivs[n].end {
      } else if start > ivs[n].end {
        assert (ivs + [Iv(start, start)])[n + 1] == Iv(start, start);
        if Touches(ivs, start) {
          var i :| 0 <= i < |ivs| && ivs[i].start <= start <= ivs[i].end;
          if i < n {
            Ordered(ivs, i, n);
          }
        }
      } else {
        ScanEmpty(ivs, start, 0);
      }
    }
  }

  // ---------------------------------------------------------------------
  // Ranges whose end wraps around
  // ---------------------------------------------------------------------

  /** Such a range is accepted where it needs no insertion: behind the last interval, which
      is cut at the wrapped end, or where some interval starts before it and does not end
      before the wrapped end. */
  predicate WrapAccepted(ivs: seq<Iv>, start: nat, end: nat) {
    && ivs != []
    && var last := ivs[|ivs| - 1];
       (start == last.end && last.start < end) || (start < last.end && Contains(ivs, start, end))
  }

  /** The scan ends at the first interval that does not end before `end`. */
  lemma {:induction false} ScanWrapped(ivs: seq<Iv>, start: nat, end: nat, k: nat)
    requires Canonical(ivs) && k < |ivs| && end < start && end <= ivs[|ivs| - 1].end
    requires forall i :: 0 <= i < k ==> ivs[i].end < end
    ensures var stop := ScanFrom(ivs, start, end, k);
            end <= ivs[stop].end && forall i :: 0 <= i < stop ==> ivs[i].end < end
    decreases |ivs| - k
  {
    if end > ivs[k].end {
      ScanWrapped(ivs, start, end, k + 1);
    }
  }

  lemma PlaceWrapped(ivs: seq<Iv>, start: nat, end: nat, k: nat)
    requires Canonical(ivs) && k < |ivs| && end < start && end <= ivs[k].end
    requires forall i :: 0 <= i < k ==> ivs[i].end < end
    ensures var t := PlaceAt(ivs, start, end, k);
            if Contains(ivs, start, end) then t == ivs else !Canonical(t)
  {
    if Contains(ivs, start, end) {
      var i :| 0 <= i < |ivs| && start >= ivs[i].start && end <= ivs[i].end;
      if k < i {
        Ordered(ivs, k, i);
      }
    } else {
      assert start < ivs[k].start;
      var t := ivs[..k] + [Iv(start, end)] + ivs[k..];
      assert t[k] == Iv(start, end) && (k > 0 ==> t[k - 1] == ivs[k - 1]);
      assert MergePrev(t, k) == t;
    }
  }

  /** What happens to it: nothing is added to the set.  Where the call succeeds the list is
      as it was, or the last interval has lost its end. */
  lemma AddWrapped(ivs: seq<Iv>, start: nat, end: nat)
    requires Canonical(ivs) && end < start
    ensures var t := AddRange(ivs, start, end);
            && (Canonical(t) && Contains(t, start, end) <==> WrapAccepted(ivs, start, end))
            && (WrapAccepted(ivs, start, end) ==>
                  var n := |ivs| - 1;
                  t == if start == ivs[n].end then ivs[n := Iv(ivs[n].start, end)] else ivs)
  {
    var t := AddRange(ivs, start, end);
    if ivs == [] {
      assert t[0] == Iv(start, end);
    } else {
      var n := |ivs| - 1;
      if start == ivs[n].end {
        assert t[n] == Iv(ivs[n].start, end);
      } else if start > ivs[n].end {
        assert t[n + 1] == Iv(start, end);
      } else {
        ScanWrapped(ivs, start, end, 0);
        PlaceWrapped(ivs, start, end, ScanFrom(ivs, start, end, 0));
      }
    }
  }

  // ---------------------------------------------------------------------
  // Whole runs
  // ---------------------------------------------------------------------

  /** One write: a start offset and a length. */
  datatype Write = Write(start: nat, len: nat)

  ghost predicate Wrote(ws: seq<Write>, x: nat) {
    exists i :: 0 <= i < |ws| && ws[i].start <= x < ws[i].start + ws[i].len
  }

  predicate NoneEmpty(ws: seq<Write>) {
    forall i :: 0 <= i < |ws| ==> ws[i].len > 0
  }

  function AddAll(ws: seq<Write>): seq<Iv> {
    if ws == [] then [] else
      var w := ws[|ws| - 1];
      AddRange(AddAll(ws[..|ws| - 1]), w.start, w.start + w.len)
  }

  /** After any run of non-empty writes the list covers exactly the offsets written. */
  lemma {:induction false} AddAllCovers(ws: seq<Write>)
    requires NoneEmpty(ws)
    ensures Canonical(AddAll(ws)) && forall x: nat :: Covers(AddAll(ws), x) <==> Wrote(ws, x)
  {
    if ws != [] {
      var n := |ws| - 1;
      AddAllCovers(ws[..n]);
      AddRangeIsUnion(AddAll(ws[..n]), ws[n].start, ws[n].start + ws[n].len);
      forall x: nat ensures Wrote(ws, x) <==> Wrote(ws[..n], x) || ws[n].start <= x < ws[n].start + ws[n].len {
        if Wrote(ws[..n], x) {
          var i :| 0 <= i < n && ws[..n][i].start <= x < ws[..n][i].start + ws[..n][i].len;
          assert ws[i] == ws[..n][i];
        }
        if Wrote(ws, x) {
          var i :| 0 <= i < |ws| && ws[i].start <= x < ws[i].start + ws[i].len;
          assert i < n ==> ws[..n][i] == ws[i];
        }
      }
    }
  }

  /** The list depends on the set of offsets written and on nothing else: not on the
      order of the writes, on how they overlap or on how they were split. */
  lemma HistoryForgotten(ws: seq<Write>, vs: seq<Write>)
    requires NoneEmpty(ws) && NoneEmpty(vs)
    ensures AddAll(ws) == AddAll(vs) <==> (forall x: nat :: Wrote(ws, x) <==> Wrote(vs, x))
  {
    AddAllCovers(ws);
    AddAllCovers(vs);
    if forall x: nat :: Wrote(ws, x) <==> Wrote(vs, x) {
      CanonicalUnique(AddAll(ws), AddAll(vs));
    } else {
      var x: nat :| Wrote(ws, x) != Wrote(vs, x);
      assert Covers(AddAll(ws), x) != Covers(AddAll(vs), x);
    }
  }
}
