/** The written-range list of a buffer as it is kept in memory: a doubly linked list
    of regions changed in place (`demmt/region.c`), proved against the sequences of
    module Intervals. */
module Regions {
  import opened Intervals

  const TWO32: nat := 0x1_0000_0000

  /** Unsigned 32-bit addition, as the source computes every end of a range. */
  function Plus32(a: nat, b: nat): nat {
    (a + b) % TWO32
  }

  class Region {
    var prev: Region?
    var start: nat
    var end: nat
    var next: Region?

    constructor (start: nat, end: nat)
      ensures this.start == start && this.end == end && prev == null && next == null
    {
      this.start, this.end, prev, next := start, end, null, null;
    }
  }

  /** The region at a position, null outside the list. */
  ghost function At(ns: seq<Region>, i: int): Region? {
    if 0 <= i < |ns| then ns[i] else null
  }

  ghost predicate Distinct(ns: seq<Region>) {
    forall i, j :: 0 <= i < j < |ns| ==> ns[i] != ns[j]
  }

  ghost predicate Inside(ns: seq<Region>, repr: set<Region>) {
    forall i :: 0 <= i < |ns| ==> ns[i] in repr
  }

  /** Following `next` from `head` visits exactly `ns`. */
  ghost predicate Forward(ns: seq<Region>, repr: set<Region>, head: Region?)
    reads repr
  {
    && Inside(ns, repr) && head == At(ns, 0)
    && forall i {:trigger ns[i].next} :: 0 <= i < |ns| ==> ns[i].next == At(ns, i + 1)
  }

  /** Following `prev` from `last` visits them backwards. */
  ghost predicate Backward(ns: seq<Region>, repr: set<Region>, last: Region?)
    reads repr
  {
    && Inside(ns, repr) && last == At(ns, |ns| - 1)
    && forall i {:trigger ns[i].prev} :: 0 <= i < |ns| ==> ns[i].prev == At(ns, i - 1)
  }

  ghost predicate HoldsAt(n: Region, iv: Iv)
    reads n
  {
    n.start == iv.start && n.end == iv.end
  }

  /** The regions hold these intervals. */
  ghost predicate Holds(ns: seq<Region>, repr: set<Region>, ivs: seq<Iv>)
    reads repr
  {
    Inside(ns, repr) && |ns| == |ivs| && forall i :: 0 <= i < |ns| ==> HoldsAt(ns[i], ivs[i])
  }

  // ---------------------------------------------------------------------
  // Taking one region out
  // ---------------------------------------------------------------------

  /** `t` is `s` without the region at `k`. */
  ghost predicate Without(t: seq<Region>, s: seq<Region>, k: nat) {
    && k < |s| && |t| + 1 == |s|
    && (forall i :: 0 <= i < k ==> t[i] == s[i])
    && (forall i :: k <= i < |t| ==> t[i] == s[i + 1])
  }

  lemma TakeOut(s: seq<Region>, k: nat) returns (t: seq<Region>)
    requires k < |s|
    ensures Without(t, s, k)
  {
    t := s[..k] + s[k + 1..];
  }

  lemma WithoutDistinct(t: seq<Region>, s: seq<Region>, k: nat)
    requires Without(t, s, k) && Distinct(s)
    ensures Distinct(t)
  {
    forall i, j | 0 <= i < j < |t| ensures t[i] != t[j] {
      assert s[if i < k then i else i + 1] != s[if j < k then j else j + 1];
    }
  }

  /** Every region but the one at `k` links to its successor. */
  ghost predicate ForwardBut(ns: seq<Region>, repr: set<Region>, k: int)
    reads repr
  {
    Inside(ns, repr) && forall i {:trigger ns[i].next} :: 0 <= i < |ns| && i != k ==> ns[i].next == At(ns, i + 1)
  }

  /** Every region but the one at `k` links to its predecessor. */
  ghost predicate BackwardBut(ns: seq<Region>, repr: set<Region>, k: int)
    reads repr
  {
    Inside(ns, repr) && forall i {:trigger ns[i].prev} :: 0 <= i < |ns| && i != k ==> ns[i].prev == At(ns, i - 1)
  }

  lemma WithoutInside(t: seq<Region>, s: seq<Region>, repr: set<Region>, k: nat)
    requires Without(t, s, k) && Inside(s, repr)
    ensures Inside(t, repr)
  {
    forall i | 0 <= i < |t| ensures t[i] in repr {
      assert t[i] == s[if i < k then i else i + 1];
    }
  }

  lemma PutInInside(t: seq<Region>, s: seq<Region>, repr: set<Region>, k: nat)
    requires Without(s, t, k) && Inside(s, repr) && t[k] in repr
    ensures Inside(t, repr)
  {
    forall i | 0 <= i < |t| ensures t[i] in repr {
      assert i == k || t[i] == s[if i < k then i else i - 1];
    }
  }

  lemma WithoutForward(t: seq<Region>, s: seq<Region>, repr: set<Region>, k: nat, head: Region?)
    requires Without(t, s, k) && ForwardBut(s, repr, k - 1)
    requires k > 0 ==> s[k - 1].next == At(s, k + 1)
    requires head == (if k == 0 then At(s, 1) else At(s, 0))
    ensures Forward(t, repr, head)
  {
    WithoutInside(t, s, repr, k);
    forall i | 0 <= i < |t| ensures t[i].next == At(t, i + 1) {
      var n := s[if i < k then i else i + 1];
      assert t[i] == n;
    }
  }

  lemma WithoutBackward(t: seq<Region>, s: seq<Region>, repr: set<Region>, k: nat, last: Region?)
    requires Without(t, s, k) && BackwardBut(s, repr, k + 1)
    requires k + 1 < |s| ==> s[k + 1].prev == At(s, k - 1)
    requires last == (if k + 1 == |s| then At(s, k - 1) else At(s, |s| - 1))
    ensures Backward(t, repr, last)
  {
    WithoutInside(t, s, repr, k);
    forall i | 0 <= i < |t| ensures t[i].prev == At(t, i - 1) {
      var n := s[if i < k then i else i + 1];
      assert t[i] == n;
    }
  }

  lemma WithoutHolds(t: seq<Region>, s: seq<Region>, repr: set<Region>, k: nat, ivs: seq<Iv>)
    requires Without(t, s, k) && Holds(s, repr, ivs)
    ensures Holds(t, repr, Drop(ivs, k))
  {
    WithoutInside(t, s, repr, k);
    forall i | 0 <= i < |t| ensures HoldsAt(t[i], Drop(ivs, k)[i]) {
      var j := if i < k then i else i + 1;
      assert t[i] == s[j] && HoldsAt(s[j], ivs[j]);
    }
  }

  // ---------------------------------------------------------------------
  // Putting one region in: the old list is the new one without it
  // ---------------------------------------------------------------------

  lemma PutIn(s: seq<Region>, k: nat, n: Region) returns (t: seq<Region>)
    requires k <= |s|
    ensures Without(s, t, k) && t[k] == n
  {
    t := s[..k] + [n] + s[k..];
  }

  lemma PutInDistinct(t: seq<Region>, s: seq<Region>, k: nat)
    requires Without(s, t, k) && Distinct(s) && t[k] !in s
    ensures Distinct(t)
  {
    forall i, j | 0 <= i < j < |t| ensures t[i] != t[j] {
      if i != k && j != k {
        assert s[if i < k then i else i - 1] != s[if j < k then j else j - 1];
      } else {
        var o := if i == k then j else i;
        assert t[o] == s[if o < k then o else o - 1];
      }
    }
  }

  lemma PutInForward(t: seq<Region>, s: seq<Region>, repr: set<Region>, k: nat, head: Region?)
    requires Without(s, t, k) && t[k] in repr && ForwardBut(s, repr, k - 1)
    requires (k > 0 ==> s[k - 1].next == t[k]) && t[k].next == At(s, k)
    requires head == (if k == 0 then t[0] else At(s, 0))
    ensures Forward(t, repr, head)
  {
    PutInInside(t, s, repr, k);
    forall i | 0 <= i < |t| ensures t[i].next == At(t, i + 1) {
      if i != k {
        var n := s[if i < k then i else i - 1];
        assert t[i] == n;
      }
    }
  }

  lemma PutInBackward(t: seq<Region>, s: seq<Region>, repr: set<Region>, k: nat, last: Region?)
    requires Without(s, t, k) && t[k] in repr && BackwardBut(s, repr, k)
    requires (k < |s| ==> s[k].prev == t[k]) && t[k].prev == At(s, k - 1)
    requires last == (if k == |s| then t[k] else At(s, |s| - 1))
    ensures Backward(t, repr, last)
  {
    PutInInside(t, s, repr, k);
    forall i | 0 <= i < |t| ensures t[i].prev == At(t, i - 1) {
      if i != k {
        var n := s[if i < k then i else i - 1];
        assert t[i] == n;
      }
    }
  }

  lemma PutInHolds(t: seq<Region>, s: seq<Region>, repr: set<Region>, k: nat, ivs: seq<Iv>, iv: Iv)
    requires Without(s, t, k) && t[k] in repr && Holds(s, repr, ivs) && HoldsAt(t[k], iv)
    ensures Holds(t, repr, ivs[..k] + [iv] + ivs[k..])
  {
    PutInInside(t, s, repr, k);
    forall i | 0 <= i < |t| ensures HoldsAt(t[i], (ivs[..k] + [iv] + ivs[k..])[i]) {
      if i != k {
        var j := if i < k then i else i - 1;
        assert t[i] == s[j] && HoldsAt(s[j], ivs[j]);
      }
    }
  }

  class RegionList {
    var head: Region?
    var last: Region?
    ghost var nodes: seq<Region>
    ghost var repr: set<Region>
    ghost var contents: seq<Iv>

    ghost predicate Valid()
      reads this, repr
    {
      Distinct(nodes) && Forward(nodes, repr, head) && Backward(nodes, repr, last) && Holds(nodes, repr, contents)
    }

    constructor ()
      ensures Valid() && contents == []
    {
      head, last, nodes, repr, contents := null, null, [], {}, [];
    }

    /** `regions_are_sane` */
    method AreSane() returns (sane: bool)
      requires Forward(nodes, repr, head) && Holds(nodes, repr, contents)
      ensures sane <==> (nodes == [] || nodes[0].prev == null) && Canonical(contents)
    {
      var cur := head;
      if cur == null {
        return true;
      }
      if cur.prev != null {
        return false;
      }
      ghost var k := 0;
      while cur != null
        invariant k <= |nodes| && cur == At(nodes, k)
        invariant forall i :: 0 <= i < k ==> contents[i].start < contents[i].end
        invariant forall i :: 0 < i <= k && i < |nodes| ==> contents[i - 1].end < contents[i].start
        decreases |nodes| - k
      {
        assert HoldsAt(cur, contents[k]);
        if cur.start >= cur.end {
          return false;
        }
        var next := cur.next;
        if next != null {
          assert HoldsAt(next, contents[k + 1]);
          if cur.end >= next.start {
            return false;
          }
        }
        cur := next;
        k := k + 1;
      }
      sane := true;
    }

    /** `range_in_regions` */
    method RangeIn(start: nat, len: nat) returns (found: bool)
      requires Forward(nodes, repr, head) && Holds(nodes, repr, contents)
      ensures found <==> Contains(contents, start, Plus32(start, len))
    {
      var cur := head;
      ghost var k := 0;
      while cur != null
        invariant k <= |nodes| && cur == At(nodes, k)
        invariant forall i :: 0 <= i < k ==> !(start >= contents[i].start && Plus32(start, len) <= contents[i].end)
        decreases |nodes| - k
      {
        assert HoldsAt(cur, contents[k]);
        if start >= cur.start && Plus32(start, len) <= cur.end {
          return true;
        }
        cur := cur.next;
        k := k + 1;
      }
      found := false;
    }

    /** `drop_region`, on a region that is not the only one. */
    method DropRegion(reg: Region, ghost k: nat)
      requires Valid() && k < |nodes| && nodes[k] == reg && |nodes| > 1
      modifies this, repr
      ensures Valid() && Without(nodes, old(nodes), k) && contents == Drop(old(contents), k)
      ensures repr == old(repr)
    {
      var prev, next := reg.prev, reg.next;
      if prev != null {
        prev.next := next;
      } else {
        head := next;
      }
      if next != null {
        next.prev := prev;
      } else {
        last := prev;
      }
      ghost var t := TakeOut(nodes, k);
      WithoutDistinct(t, nodes, k);
      WithoutForward(t, nodes, repr, k, head);
      WithoutBackward(t, nodes, repr, k, last);
      WithoutHolds(t, nodes, repr, k, contents);
      nodes, contents := t, Drop(contents, k);
    }

    /** `maybe_merge_with_next` */
    method MergeWithNext(cur: Region, ghost k: nat)
      requires Valid() && k < |nodes| && nodes[k] == cur
      modifies this, repr
      ensures Valid() && contents == MergeNext(old(contents), k) && repr == old(repr)
      decreases |nodes|
    {
      var next := cur.next;
      if next == null {
        return;
      }
      assert HoldsAt(cur, contents[k]) && HoldsAt(next, contents[k + 1]);
      if next.start > cur.end {
        return;
      }
      if next.end <= cur.end {
        DropRegion(next, k + 1);
        MergeWithNext(cur, k);
      } else {
        SetBounds(cur, cur.start, next.end, k);
        DropRegion(next, k + 1);
      }
    }

    /** `maybe_merge_with_previous` */
    method MergeWithPrevious(cur: Region, ghost k: nat)
      requires Valid() && k < |nodes| && nodes[k] == cur
      modifies this, repr
      ensures Valid() && contents == MergePrev(old(contents), k) && repr == old(repr)
      decreases |nodes|
    {
      var prev := cur.prev;
      if prev == null {
        return;
      }
      assert HoldsAt(cur, contents[k]) && HoldsAt(prev, contents[k - 1]);
      if prev.end < cur.start {
        return;
      }
      if prev.start >= cur.start {
        DropRegion(prev, k - 1);
        MergeWithPrevious(cur, k - 1);
      } else {
        SetBounds(cur, prev.start, cur.end, k);
        DropRegion(prev, k - 1);
      }
    }

    /** Overwriting the bounds of one region. */
    method SetBounds(cur: Region, start: nat, end: nat, ghost k: nat)
      requires Valid() && k < |nodes| && nodes[k] == cur
      modifies this`contents, cur`start, cur`end
      ensures Valid() && contents == old(contents)[k := Iv(start, end)]
    {
      cur.start, cur.end := start, end;
      contents := contents[k := Iv(start, end)];
      forall i | 0 <= i < |nodes| ensures HoldsAt(nodes[i], contents[i]) {
        assert old(HoldsAt(nodes[i], contents[i]));
      }
    }

    /** A new first and only region. */
    method StartList(start: nat, end: nat)
      requires Valid() && nodes == []
      modifies this
      ensures Valid() && contents == [Iv(start, end)] && fresh(repr - old(repr))
    {
      var cur := new Region(start, end);
      head, last := cur, cur;
      Adopt(cur, 0);
    }

    /** A new region after the last one. */
    method Append(start: nat, end: nat)
      requires Valid() && nodes != []
      modifies this, repr
      ensures Valid() && contents == old(contents) + [Iv(start, end)] && fresh(repr - old(repr))
    {
      var cur := new Region(start, end);
      cur.prev := last;
      last.next := cur;
      last := cur;
      ghost var k := |nodes|;
      assert contents[..k] + [Iv(start, end)] + contents[k..] == contents + [Iv(start, end)];
      Adopt(cur, k);
    }

    /** Taking note of a region that has just been linked in at `k`. */
    ghost method Adopt(n: Region, k: nat)
      requires k <= |nodes| && n !in repr
      requires Distinct(nodes) && Holds(nodes, repr, contents)
      requires ForwardBut(nodes, repr, k - 1) && (k > 0 ==> nodes[k - 1].next == n) && n.next == At(nodes, k)
      requires BackwardBut(nodes, repr, k) && (k < |nodes| ==> nodes[k].prev == n) && n.prev == At(nodes, k - 1)
      requires head == (if k == 0 then n else At(nodes, 0))
      requires last == (if k == |nodes| then n else At(nodes, |nodes| - 1))
      modifies this`nodes, this`repr, this`contents
      ensures Valid() && k < |nodes| && nodes[k] == n && repr == old(repr) + {n}
      ensures contents == old(contents)[..k] + [Iv(n.start, n.end)] + old(contents)[k..]
    {
      var t := PutIn(nodes, k, n);
      var all := repr + {n};
      PutInDistinct(t, nodes, k);
      PutInForward(t, nodes, all, k, head);
      PutInBackward(t, nodes, all, k, last);
      PutInHolds(t, nodes, all, k, contents, Iv(n.start, n.end));
      nodes, repr, contents := t, all, contents[..k] + [Iv(n.start, n.end)] + contents[k..];
    }

    /** Linking a region in front of `cur`. */
    method LinkBefore(tmp: Region, cur: Region, ghost k: nat)
      requires Valid() && k < |nodes| && nodes[k] == cur && tmp !in repr
      modifies this, tmp, repr
      ensures Valid() && k < |nodes| && nodes[k] == tmp && repr == old(repr) + {tmp}
      ensures contents == old(contents)[..k] + [Iv(old(tmp.start), old(tmp.end))] + old(contents)[k..]
    {
      tmp.prev := cur.prev;
      tmp.next := cur;
      if cur.prev != null {
        cur.prev.next := tmp;
      } else {
        head := tmp;
      }
      cur.prev := tmp;
      Adopt(tmp, k);
    }

    /** A new region in front of `cur`. */
    method InsertBefore(cur: Region, start: nat, end: nat, ghost k: nat) returns (tmp: Region)
      requires Valid() && k < |nodes| && nodes[k] == cur
      modifies this, repr
      ensures Valid() && k < |nodes| && nodes[k] == tmp && fresh(repr - old(repr))
      ensures contents == old(contents)[..k] + [Iv(start, end)] + old(contents)[k..]
    {
      tmp := new Region(start, end);
      LinkBefore(tmp, cur, k);
    }

    /** The scan of `__regions_add_range`: it ends on a region, never on null. */
    method Scan(start: nat, len: nat) returns (cur: Region, ghost k: nat)
      requires Valid() && nodes != [] && Plus32(start, len) <= contents[|nodes| - 1].end
      ensures k < |nodes| && cur == nodes[k] && k == ScanFrom(contents, start, Plus32(start, len), 0)
    {
      cur, k := head, 0;
      while Plus32(start, len) > cur.end
        invariant k < |nodes| && cur == nodes[k]
        invariant ScanFrom(contents, start, Plus32(start, len), 0) == ScanFrom(contents, start, Plus32(start, len), k)
        decreases |nodes| - k
      {
        assert HoldsAt(cur, contents[k]);
        if cur.end == start {
          return;
        }
        cur := cur.next;
        k := k + 1;
      }
      assert HoldsAt(cur, contents[k]);
    }

    method ExtendRight(cur: Region, len: nat, ghost k: nat)
      requires Valid() && k < |nodes| && nodes[k] == cur
      modifies this, repr
      ensures Valid() && repr == old(repr)
      ensures contents == MergeNext(old(contents)[k := Iv(old(cur.start), Plus32(old(cur.end), len))], k)
    {
      hide MergeNext, MergePrev;
      SetBounds(cur, cur.start, Plus32(cur.end, len), k);
      MergeWithNext(cur, k);
    }

    method ExtendLeft(cur: Region, start: nat, ghost k: nat)
      requires Valid() && k < |nodes| && nodes[k] == cur
      modifies this, repr
      ensures Valid() && repr == old(repr)
      ensures contents == MergePrev(old(contents)[k := Iv(start, old(cur.end))], k)
    {
      hide MergeNext, MergePrev;
      SetBounds(cur, start, cur.end, k);
      MergeWithPrevious(cur, k);
    }

    method Insert(cur: Region, start: nat, len: nat, ghost k: nat)
      requires Valid() && k < |nodes| && nodes[k] == cur
      modifies this, repr
      ensures Valid() && fresh(repr - old(repr))
      ensures contents == MergePrev(old(contents)[..k] + [Iv(start, Plus32(start, len))] + old(contents)[k..], k)
    {
      var tmp := InsertBefore(cur, start, Plus32(start, len), k);
      MergeWithPrevious(tmp, k);
    }

    /** The rest of `__regions_add_range`, on the region where the scan ended. */
    method Place(cur: Region, start: nat, len: nat, ghost k: nat)
      requires Valid() && k < |nodes| && nodes[k] == cur && (cur.end < Plus32(start, len) ==> cur.end == start)
      modifies this, repr
      ensures Valid() && contents == PlaceAt(old(contents), start, Plus32(start, len), k) && fresh(repr - old(repr))
    {
      assert HoldsAt(cur, contents[k]);
      if Plus32(start, len) > cur.end {
        ExtendRight(cur, len, k);
      } else if start >= cur.start {
      } else if Plus32(start, len) < cur.start {
        Insert(cur, start, len, k);
      } else {
        ExtendLeft(cur, start, k);
      }
    }

    /** `__regions_add_range` */
    method AddRangeUnchecked(start: nat, len: nat)
      requires Valid()
      modifies this, repr
      ensures Valid() && contents == AddRange(old(contents), start, Plus32(start, len)) && fresh(repr - old(repr))
    {
      hide PlaceAt, MergePrev, ScanFrom, Distinct;
      if head == null {
        StartList(start, Plus32(start, len));
        return;
      }
      ghost var n := |nodes| - 1;
      assert HoldsAt(last, contents[n]);
      if start == last.end {
        SetBounds(last, last.start, Plus32(last.end, len), n);
        return;
      }
      if start > last.end {
        Append(start, Plus32(start, len));
        return;
      }
      if Plus32(start, len) > last.end {
        if start < last.start {
          SetBounds(last, start, Plus32(start, len), n);
          MergeWithPrevious(last, n);
        } else {
          SetBounds(last, last.start, Plus32(start, len), n);
        }
        return;
      }
      ghost var k;
      var cur;
      cur, k := Scan(start, len);
      assert HoldsAt(cur, contents[k]);
      Place(cur, start, len, k);
    }

    /** `regions_add_range`, on 32-bit numbers.  A range that ends where 32 bits can say is
        accepted exactly when it is not empty or touches a region, and then the list becomes
        the canonical list of the union.  A range whose end wraps around is accepted where
        `WrapAccepted` says, and then nothing is recorded. */
    method Add(start: nat, len: nat) returns (ok: bool)
      requires Valid() && Canonical(contents) && start < TWO32 && len < TWO32
      modifies this, repr
      ensures Valid() && fresh(repr - old(repr))
      ensures ok <==> if start + len < TWO32 then len > 0 || Touches(old(contents), start)
                      else WrapAccepted(old(contents), start, start + len - TWO32)
      ensures ok && start + len < TWO32 ==> Canonical(contents) && IsUnion(contents, old(contents), start, start + len)
      ensures ok && len == 0 ==> contents == old(contents)
      ensures ok && start + len >= TWO32 ==>
                var n := |old(contents)| - 1;
                contents == if start == old(contents)[n].end
                            then old(contents)[n := Iv(old(contents)[n].start, start + len - TWO32)] else old(contents)
    {
      hide AddRange, Distinct;
      AddRangeUnchecked(start, len);
      AddRangeVerdict(old(contents), start, len);
      WrapVerdict(old(contents), start, len);
      var sane := AreSane();
      if !sane {
        return false;
      }
      var found := RangeIn(start, len);
      if !found {
        return false;
      }
      ok := true;
    }
  }

  /** What the two checks after the insertion find. */
  lemma AddRangeVerdict(ivs: seq<Iv>, start: nat, len: nat)
    requires Canonical(ivs) && start < TWO32 && len < TWO32
    ensures start + len < TWO32 ==>
              var t := AddRange(ivs, start, Plus32(start, len));
              var good := len > 0 || Touches(ivs, start);
              && (Canonical(t) && Contains(t, start, Plus32(start, len)) <==> good)
              && (good ==> IsUnion(t, ivs, start, start + len))
              && (good && len == 0 ==> t == ivs)
  {
    hide AddRange, Canonical, Contains;
    if start + len < TWO32 {
      if len > 0 {
        AddRangeIsUnion(ivs, start, start + len);
        AddRangeContains(ivs, start, start + len);
      } else {
        AddEmpty(ivs, start);
      }
    }
  }

  lemma WrapVerdict(ivs: seq<Iv>, start: nat, len: nat)
    requires Canonical(ivs) && start < TWO32 && len < TWO32
    ensures start + len >= TWO32 ==>
              var end := start + len - TWO32;
              var t := AddRange(ivs, start, Plus32(start, len));
              && (Canonical(t) && Contains(t, start, Plus32(start, len)) <==> WrapAccepted(ivs, start, end))
              && (WrapAccepted(ivs, start, end) ==>
                    var n := |ivs| - 1;
                    t == if start == ivs[n].end then ivs[n := Iv(ivs[n].start, end)] else ivs)
  {
    hide AddRange;
    if start + len >= TWO32 {
      AddWrapped(ivs, start, start + len - TWO32);
    }
  }

  /** A range is not recorded although it is accepted, and what was recorded is forgotten:
      after the offsets from 10 to 99, a range of 2^32 - 50 from offset 100 on. */
  lemma WrittenIsForgotten()
    ensures var ivs := [Iv(10, 100)];
            Canonical(ivs) && WrapAccepted(ivs, 100, 50) && AddRange(ivs, 100, Plus32(100, TWO32 - 50)) == [Iv(10, 50)]
  {
  }
}
