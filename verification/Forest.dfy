/** The tree of GPU objects (`demmt/buffer.c`) and the walks over it
    (`demmt/nvrm.c`): parent links and child arrays changed in place, and the global
    list of live objects. */
module Forest {

  class GpuObject {
    const cid: nat
    const handle: nat
    const parent: nat
    const class_: nat
    var parentObject: GpuObject?
    var children: seq<GpuObject?>
    var next: GpuObject?
    /** When it was added; parents come before children. */
    ghost const birth: nat

    constructor (cid: nat, parent: nat, handle: nat, class_: nat, ghost birth: nat)
      ensures this.cid == cid && this.parent == parent && this.handle == handle && this.class_ == class_
      ensures this.birth == birth && parentObject == null && children == [] && next == null
    {
      this.cid, this.parent, this.handle, this.class_, this.birth := cid, parent, handle, class_, birth;
      parentObject, children, next := null, [], null;
    }
  }

  // ---------------------------------------------------------------------
  // The tree
  // ---------------------------------------------------------------------

  /** The parent is alive, older, and lists the object. */
  ghost predicate ParentOk(o: GpuObject, live: set<GpuObject>)
    reads o`parentObject, live`children
  {
    o.parentObject != null ==>
      && o.parentObject in live && o.parentObject.birth < o.birth
      && o in o.parentObject.children
  }

  /** Everything listed is alive, names the object as its parent and is listed once. */
  ghost predicate ChildrenOk(o: GpuObject, live: set<GpuObject>)
    reads o`children, live`parentObject
  {
    && (forall i :: 0 <= i < |o.children| && o.children[i] != null ==>
          o.children[i] in live && o.children[i].parentObject == o)
    && (forall i, j :: 0 <= i < j < |o.children| && o.children[i] != null ==> o.children[i] != o.children[j])
  }

  ghost predicate TreeOk(live: set<GpuObject>)
    reads live`parentObject, live`children
  {
    forall o <- live :: ParentOk(o, live) && ChildrenOk(o, live)
  }

  /** The number of times an object stands in a child array. */
  function Count(c: GpuObject, cs: seq<GpuObject?>): nat {
    if cs == [] then 0 else (if cs[0] == c then 1 else 0) + Count(c, cs[1..])
  }

  lemma {:induction false} CountZero(c: GpuObject, cs: seq<GpuObject?>)
    ensures Count(c, cs) == 0 <==> c !in cs
  {
    if cs != [] {
      CountZero(c, cs[1..]);
      assert cs == [cs[0]] + cs[1..];
    }
  }

  lemma {:induction false} CountOnce(c: GpuObject, cs: seq<GpuObject?>)
    requires forall i, j :: 0 <= i < j < |cs| && cs[i] != null ==> cs[i] != cs[j]
    ensures Count(c, cs) == if c in cs then 1 else 0
  {
    if cs != [] {
      var t := cs[1..];
      forall i, j | 0 <= i < j < |t| && t[i] != null ensures t[i] != t[j] {
        assert t[i] == cs[i + 1] && t[j] == cs[j + 1];
      }
      CountOnce(c, t);
      assert cs == [cs[0]] + t;
    }
  }

  /** A live object has a live object as its parent exactly when it stands in that
      object's child array, and then it stands there once. */
  lemma ListedOnce(live: set<GpuObject>, c: GpuObject, o: GpuObject)
    requires TreeOk(live) && c in live && o in live
    ensures c.parentObject == o <==> Count(c, o.children) == 1
    ensures c.parentObject != o <==> Count(c, o.children) == 0
  {
    assert ParentOk(c, live) && ChildrenOk(o, live);
    CountOnce(c, o.children);
  }

  // ---------------------------------------------------------------------
  // Child arrays
  // ---------------------------------------------------------------------

  /** `cs` with `c` put into the first free slot or, if there is none, into the first of
      ten new ones. */
  ghost predicate PutChild(cs: seq<GpuObject?>, c: GpuObject, r: seq<GpuObject?>) {
    exists k :: 0 <= k < |r| && PutAt(cs, c, r, k)
  }

  ghost predicate PutAt(cs: seq<GpuObject?>, c: GpuObject, r: seq<GpuObject?>, k: int) {
    && 0 <= k <= |cs| && |r| == (if k < |cs| then |cs| else |cs| + 10) && r[k] == c
    && (k < |cs| ==> cs[k] == null) && (forall i :: 0 <= i < k ==> cs[i] != null)
    && (forall i :: 0 <= i < |cs| && i != k ==> r[i] == cs[i])
    && (forall i :: |cs| <= i < |r| && i != k ==> r[i] == null)
  }

  /** `gpu_object_add_child` */
  method AddChild(parent: GpuObject, child: GpuObject)
    modifies parent`children
    ensures PutChild(old(parent.children), child, parent.children)
  {
    ghost var cs := parent.children;
    for i := 0 to |parent.children|
      invariant parent.children == cs
      invariant forall j :: 0 <= j < i ==> parent.children[j] != null
    {
      if parent.children[i] == null {
        parent.children := parent.children[i := child];
        assert PutAt(cs, child, parent.children, i);
        return;
      }
    }
    parent.children := parent.children + [child] + seq(9, _ => null);
    assert PutAt(cs, child, parent.children, |cs|);
  }

  lemma PutMembers(cs: seq<GpuObject?>, c: GpuObject, r: seq<GpuObject?>)
    requires PutChild(cs, c, r)
    ensures forall o: GpuObject :: o in r <==> o == c || o in cs
  {
    var k :| 0 <= k < |r| && PutAt(cs, c, r, k);
    forall o: GpuObject ensures o in r <==> o == c || o in cs {
      if o in cs {
        var i :| 0 <= i < |cs| && cs[i] == o;
        assert r[i] == o;
      }
      if o in r {
        var i :| 0 <= i < |r| && r[i] == o;
        assert i == k || (i < |cs| && cs[i] == o);
      }
    }
  }

  lemma PutDistinct(cs: seq<GpuObject?>, c: GpuObject, r: seq<GpuObject?>)
    requires PutChild(cs, c, r) && c !in cs
    requires forall i, j :: 0 <= i < j < |cs| && cs[i] != null ==> cs[i] != cs[j]
    ensures forall i, j :: 0 <= i < j < |r| && r[i] != null ==> r[i] != r[j]
  {
    var k :| 0 <= k < |r| && PutAt(cs, c, r, k);
    forall i, j | 0 <= i < j < |r| && r[i] != null ensures r[i] != r[j] {
      if i == k {
        assert j < |cs| ==> r[j] == cs[j];
      } else {
        assert i < |cs| && r[i] == cs[i];
        assert j != k && j < |cs| ==> r[j] == cs[j];
      }
    }
  }

  /** `cs` without its entry at `k`, the rest moved up if `compact`. */
  function TakeChild(cs: seq<GpuObject?>, k: nat, compact: bool): (r: seq<GpuObject?>)
    requires k < |cs|
    ensures |r| == |cs|
  {
    if compact then cs[..k] + cs[k + 1..] + [null] else cs[k := null]
  }

  lemma TakeMembers(cs: seq<GpuObject?>, k: nat, compact: bool)
    requires k < |cs| && cs[k] != null
    requires forall i, j :: 0 <= i < j < |cs| && cs[i] != null ==> cs[i] != cs[j]
    ensures var r := TakeChild(cs, k, compact);
            && (forall o: GpuObject :: o in r <==> o != cs[k] && o in cs)
            && (forall i, j :: 0 <= i < j < |r| && r[i] != null ==> r[i] != r[j])
  {
    var r := TakeChild(cs, k, compact);
    forall o: GpuObject ensures o in r <==> o != cs[k] && o in cs {
      if o in cs && o != cs[k] {
        var i :| 0 <= i < |cs| && cs[i] == o;
        assert r[if compact && i > k then i - 1 else i] == o;
      }
      if o in r {
        var i :| 0 <= i < |r| && r[i] == o;
        assert cs[if compact && i >= k then i + 1 else i] == o;
      }
    }
    forall i, j | 0 <= i < j < |r| && r[i] != null ensures r[i] != r[j] {
      if compact {
        assert i < |r| - 1 && r[i] == cs[if i >= k then i + 1 else i];
        assert j < |r| - 1 ==> r[j] == cs[if j >= k then j + 1 else j];
      }
    }
  }

  // ---------------------------------------------------------------------
  // Linking and unlinking
  // ---------------------------------------------------------------------

  /** `gpu_object_disconnect_from_parent` */
  method Disconnect(parent: GpuObject, child: GpuObject, compact: bool, ghost live: set<GpuObject>)
    returns (ghost k: nat)
    requires TreeOk(live) && parent in live && child in live && child.parentObject == parent
    modifies parent`children, child`parentObject
    ensures TreeOk(live) && child.parentObject == null
    ensures k < |old(parent.children)| && old(parent.children)[k] == child
    ensures parent.children == TakeChild(old(parent.children), k, compact)
  {
    ghost var cs := parent.children;
    assert ParentOk(child, live) && ChildrenOk(parent, live);
    var i := 0;
    while i < |parent.children| && parent.children[i] != child
      invariant i <= |cs| && parent.children == cs
      invariant forall j :: 0 <= j < i ==> cs[j] != child
    {
      i := i + 1;
    }
    k := i;
    parent.children := parent.children[i := null];
    child.parentObject := null;
    if compact {
      parent.children := parent.children[..i] + parent.children[i + 1..] + [null];
    }
    assert parent.children == TakeChild(cs, k, compact);
    TakeMembers(cs, k, compact);
    forall o | o in live ensures ParentOk(o, live) && ChildrenOk(o, live) {
      assert old(ParentOk(o, live)) && old(ChildrenOk(o, live));
    }
  }

  /** The link from a new object to the parent that was found. */
  method Connect(parent: GpuObject, child: GpuObject, ghost live: set<GpuObject>)
    requires TreeOk(live) && parent in live && child !in live && parent.birth < child.birth
    requires child.parentObject == null && child.children == []
    modifies parent`children, child`parentObject
    ensures TreeOk(live + {child}) && child.parentObject == parent
    ensures PutChild(old(parent.children), child, parent.children)
  {
    ghost var cs := parent.children;
    assert ChildrenOk(parent, live);
    assert child !in cs;
    child.parentObject := parent;
    AddChild(parent, child);
    PutMembers(cs, child, parent.children);
    PutDistinct(cs, child, parent.children);
    forall o | o in live + {child} ensures ParentOk(o, live + {child}) && ChildrenOk(o, live + {child}) {
      assert o in live ==> old(ParentOk(o, live)) && old(ChildrenOk(o, live));
    }
  }

  // ---------------------------------------------------------------------
  // The list of live objects
  // ---------------------------------------------------------------------

  ghost function At(order: seq<GpuObject>, i: int): GpuObject? {
    if 0 <= i < |order| then order[i] else null
  }

  /** The newest live object with this name. */
  ghost function Lookup(order: seq<GpuObject>, cid: nat, handle: nat): GpuObject? {
    if order == [] then null
    else if order[0].cid == cid && order[0].handle == handle then order[0]
    else Lookup(order[1..], cid, handle)
  }

  /** Newest first. */
  ghost predicate Ordered(order: seq<GpuObject>, clock: nat) {
    && (forall i :: 0 <= i < |order| ==> order[i].birth < clock)
    && (forall i, j :: 0 <= i < j < |order| ==> order[i].birth > order[j].birth)
  }

  ghost predicate Chained(order: seq<GpuObject>, live: set<GpuObject>, head: GpuObject?)
    reads live`next
  {
    && (forall i :: 0 <= i < |order| ==> order[i] in live)
    && head == At(order, 0)
    && (forall i {:trigger order[i].next} :: 0 <= i < |order| ==> order[i].next == At(order, i + 1))
  }

  function Without(order: seq<GpuObject>, k: nat): seq<GpuObject>
    requires k < |order|
  {
    order[..k] + order[k + 1..]
  }

  lemma WithoutMembers(order: seq<GpuObject>, k: nat)
    requires k < |order| && forall i :: 0 <= i < |order| && i != k ==> order[i] != order[k]
    ensures forall o :: o in Without(order, k) <==> o in order && o != order[k]
  {
    var t := Without(order, k);
    forall o ensures o in t <==> o in order && o != order[k] {
      if o in order && o != order[k] {
        var i :| 0 <= i < |order| && order[i] == o;
        assert t[if i < k then i else i - 1] == o;
      }
      if o in t {
        var i :| 0 <= i < |t| && t[i] == o;
        assert order[if i < k then i else i + 1] == o;
      }
    }
  }

  lemma WithoutOrdered(order: seq<GpuObject>, k: nat, clock: nat)
    requires k < |order| && Ordered(order, clock)
    ensures Ordered(Without(order, k), clock)
  {
    var t := Without(order, k);
    forall i | 0 <= i < |t| ensures t[i].birth < clock {
      assert t[i] == order[if i < k then i else i + 1];
    }
    forall i, j | 0 <= i < j < |t| ensures t[i].birth > t[j].birth {
      assert t[i] == order[if i < k then i else i + 1] && t[j] == order[if j < k then j else j + 1];
    }
  }

  lemma AllDifferent(order: seq<GpuObject>, clock: nat)
    requires Ordered(order, clock)
    ensures forall i, j :: 0 <= i < j < |order| ==> order[i] != order[j]
  {
  }

  lemma WithoutSet(order: seq<GpuObject>, k: nat, clock: nat)
    requires k < |order| && Ordered(order, clock)
    ensures Ordered(Without(order, k), clock)
    ensures (set o | o in Without(order, k)) == (set o | o in order) - {order[k]}
    ensures forall i :: 0 <= i < |order| && i != k ==> order[i] != order[k]
  {
    WithoutOrdered(order, k, clock);
    WithoutMembers(order, k);
  }

  lemma WithoutChained(order: seq<GpuObject>, k: nat, live: set<GpuObject>, rest: set<GpuObject>, head: GpuObject?)
    requires k < |order|
    requires forall i :: 0 <= i < |order| ==> order[i] in live
    requires forall i {:trigger order[i].next} :: 0 <= i < |order| && i + 1 != k && i != k ==>
               order[i].next == At(order, i + 1)
    requires k > 0 ==> order[k - 1].next == At(order, k + 1)
    requires head == (if k == 0 then At(order, 1) else order[0])
    requires rest == live - {order[k]} && forall i :: 0 <= i < |order| && i != k ==> order[i] != order[k]
    ensures Chained(Without(order, k), rest, head)
  {
    var t := Without(order, k);
    forall i | 0 <= i < |t| ensures t[i] in rest && t[i].next == At(t, i + 1) {
      var n := order[if i < k then i else i + 1];
      assert t[i] == n;
      assert n.next == (if i + 1 == k then At(order, k + 1) else if i < k then At(order, i + 1) else At(order, i + 2));
    }
  }

  lemma ChainedFront(order: seq<GpuObject>, live: set<GpuObject>, obj: GpuObject, head: GpuObject?)
    requires Chained(order, live, head) && obj.next == head
    ensures Chained([obj] + order, live + {obj}, obj)
  {
    var t := [obj] + order;
    forall i | 0 <= i < |t| ensures t[i] in live + {obj} && t[i].next == At(t, i + 1) {
      if i > 0 {
        var n := order[i - 1];
        assert t[i] == n && n.next == At(order, i);
      }
    }
  }

  /** `r` is the first in the list that passes the check; null if none does. */
  ghost predicate FirstPass(os: seq<GpuObject>, check: GpuObject -> bool, r: GpuObject?) {
    if r == null then forall k :: 0 <= k < |os| ==> !check(os[k])
    else exists k :: 0 <= k < |os| && os[k] == r && check(r) && forall j :: 0 <= j < k ==> !check(os[j])
  }

  lemma FirstAtOnce(first: seq<GpuObject>, rest: seq<GpuObject>, check: GpuObject -> bool)
    requires |first| == 1
    ensures check(first[0]) ==> FirstPass(first + rest, check, first[0])
    ensures !check(first[0]) ==> FirstPass(first, check, null)
  {
    assert (first + rest)[0] == first[0];
  }

  lemma FirstLater(done: seq<GpuObject>, part: seq<GpuObject>, rest: seq<GpuObject>, check: GpuObject -> bool,
                   r: GpuObject?)
    requires FirstPass(done, check, null) && FirstPass(part, check, r)
    ensures if r == null then FirstPass(done + part, check, null) else FirstPass(done + part + rest, check, r)
  {
    if r != null {
      var k :| 0 <= k < |part| && part[k] == r && forall j :: 0 <= j < k ==> !check(part[j]);
      var all := done + part + rest;
      assert all[|done| + k] == r;
      forall j | 0 <= j < |done| + k ensures !check(all[j]) {
        assert all[j] == if j < |done| then done[j] else part[j - |done|];
      }
    }
  }

  /** `gpu_objects` and everything reachable from it. */
  class World {
    var head: GpuObject?
    ghost var order: seq<GpuObject>
    ghost var live: set<GpuObject>
    ghost var clock: nat

    ghost predicate Valid()
      reads this, live
    {
      && live == (set o | o in order)
      && Ordered(order, clock) && Chained(order, live, head) && TreeOk(live)
    }

    constructor ()
      ensures Valid() && order == []
    {
      head, order, live, clock := null, [], {}, 0;
    }

    /** `gpu_object_find` */
    method Find(cid: nat, handle: nat) returns (obj: GpuObject?)
      requires Valid()
      ensures obj == Lookup(order, cid, handle) && (obj != null ==> obj in live)
    {
      hide TreeOk, Ordered;
      obj := head;
      ghost var k := 0;
      while obj != null
        invariant k <= |order| && obj == At(order, k)
        invariant Lookup(order, cid, handle) == Lookup(order[k..], cid, handle)
        decreases |order| - k
      {
        if obj.cid == cid && obj.handle == handle {
          return;
        }
        obj := obj.next;
        assert order[k..][1..] == order[k + 1..];
        k := k + 1;
      }
    }

    /** `gpu_object_add`: the new object is the newest, and its parent is the newest
        live object of the name it gives. */
    method Add(cid: nat, parent: nat, handle: nat, class_: nat) returns (obj: GpuObject)
      requires Valid()
      modifies this, live
      ensures Valid() && fresh(obj) && order == [obj] + old(order) && live == old(live) + {obj}
      ensures obj.cid == cid && obj.parent == parent && obj.handle == handle && obj.class_ == class_
      ensures obj.parentObject == old(Lookup(order, cid, parent)) && obj.children == []
      ensures forall o <- old(live) :: o.parentObject == old(o.parentObject)
    {
      hide Ordered, TreeOk, Lookup, Chained;
      obj := new GpuObject(cid, parent, handle, class_, clock);
      var p := Find(cid, parent);
      if p != null {
        Older(p);
        Connect(p, obj, live);
      } else {
        Root(obj);
      }
      LinkFront(obj);
    }

    /** The new object at the head of the list. */
    method LinkFront(obj: GpuObject)
      requires live == (set o | o in order) && Ordered(order, clock) && Chained(order, live, head)
      requires TreeOk(live + {obj}) && obj !in live && obj.birth == clock
      modifies this, obj`next
      ensures Valid() && order == [obj] + old(order) && live == old(live) + {obj}
    {
      hide Ordered, TreeOk, Chained;
      Newest(obj);
      ghost var was := head;
      obj.next := head;
      head := obj;
      ChainedFront(order, live, obj, was);
      order, live, clock := [obj] + order, live + {obj}, clock + 1;
    }

    lemma Older(p: GpuObject)
      requires Valid() && p in live
      ensures p.birth < clock
    {
    }

    lemma Root(obj: GpuObject)
      requires TreeOk(live) && obj !in live && obj.parentObject == null && obj.children == []
      ensures TreeOk(live + {obj})
    {
      forall o | o in live + {obj} ensures ParentOk(o, live + {obj}) && ChildrenOk(o, live + {obj}) {
        assert o in live ==> ParentOk(o, live) && ChildrenOk(o, live);
      }
    }

    lemma Newest(obj: GpuObject)
      requires Ordered(order, clock) && obj.birth == clock
      ensures Ordered([obj] + order, clock + 1)
    {
    }

    /** The removal from the list, `gpu_object_destroy` from the search on. */
    method Unlink(obj: GpuObject)
      requires live == (set o | o in order) && Ordered(order, clock) && Chained(order, live, head)
      requires obj in live && TreeOk(live - {obj})
      modifies this, live`next
      ensures Valid() && live == old(live) - {obj}
      ensures obj in old(order)
      ensures exists k :: 0 <= k < |old(order)| && old(order)[k] == obj && order == Without(old(order), k)
    {
      hide TreeOk, Ordered, Chained, Without;
      var prev;
      ghost var k;
      prev, k := Locate(obj);
      CutOut(obj, prev, k);
    }

    /** The search, with the object before. */
    method Locate(obj: GpuObject) returns (prev: GpuObject?, ghost k: nat)
      requires Chained(order, live, head) && obj in order
      ensures k < |order| && order[k] == obj && prev == At(order, k - 1)
    {
      var it := head;
      prev := null;
      k := 0;
      while it != obj
        invariant k < |order| && it == order[k] && prev == At(order, k - 1)
        invariant obj in order[k..]
        decreases |order| - k
      {
        prev := it;
        it := it.next;
        k := k + 1;
      }
    }

    method CutOut(obj: GpuObject, prev: GpuObject?, ghost k: nat)
      requires live == (set o | o in order) && Ordered(order, clock) && Chained(order, live, head)
      requires k < |order| && order[k] == obj && prev == At(order, k - 1)
      requires TreeOk(live - {obj})
      modifies this, live`next
      ensures Valid() && live == old(live) - {obj} && order == Without(old(order), k)
    {
      hide TreeOk, Without, Ordered;
      AllDifferent(order, clock);
      if prev != null {
        prev.next := obj.next;
      } else {
        head := obj.next;
      }
      WithoutSet(order, k, clock);
      WithoutChained(order, k, live, live - {obj}, head);
      order, live := Without(order, k), live - {obj};
    }

    /** The loop that cuts the children loose. */
    method OrphanChildren(obj: GpuObject)
      requires TreeOk(live) && obj in live
      modifies obj`children, live`parentObject
      ensures TreeOk(live)
      ensures forall o <- live :: o.parentObject == if old(o.parentObject) == obj then null else old(o.parentObject)
    {
      hide TreeOk;
      ghost var n := |obj.children|;
      var i := 0;
      while i < |obj.children|
        invariant i <= |obj.children| == n && TreeOk(live)
        invariant forall j :: 0 <= j < i ==> obj.children[j] == null
        invariant forall o <- live ::
                    o.parentObject == old(o.parentObject) || (old(o.parentObject) == obj && o.parentObject == null)
        decreases n - i
      {
        var c := obj.children[i];
        if c != null {
          Named(obj, c, i);
          ghost var was := obj.children;
          ghost var k := Disconnect(obj, c, false, live);
          assert k == i && obj.children == was[i := null];
        }
        i := i + 1;
      }
      NoneLeft(obj);
      ClearChildren(obj);
    }

    method ClearChildren(obj: GpuObject)
      requires TreeOk(live) && obj in live && forall o <- live :: o.parentObject != obj
      modifies obj`children
      ensures TreeOk(live) && obj.children == []
    {
      obj.children := [];
      forall o | o in live ensures ParentOk(o, live) && ChildrenOk(o, live) {
        assert old(ParentOk(o, live)) && old(ChildrenOk(o, live));
      }
    }

    lemma Named(obj: GpuObject, c: GpuObject, i: nat)
      requires TreeOk(live) && obj in live && i < |obj.children| && obj.children[i] == c
      ensures c in live && c.parentObject == obj
      ensures forall a, b :: 0 <= a < b < |obj.children| && obj.children[a] != null ==>
                obj.children[a] != obj.children[b]
    {
      assert ChildrenOk(obj, live);
    }

    lemma NoneLeft(obj: GpuObject)
      requires TreeOk(live) && obj in live && forall j :: 0 <= j < |obj.children| ==> obj.children[j] == null
      ensures forall o <- live :: o.parentObject != obj
    {
      forall o | o in live ensures o.parentObject != obj {
        assert ParentOk(o, live);
      }
    }

    /** An object that is nobody's parent and has none can go. */
    lemma Removable(obj: GpuObject)
      requires TreeOk(live) && obj in live && obj.parentObject == null && forall o <- live :: o.parentObject != obj
      ensures TreeOk(live - {obj})
    {
      forall o | o in live - {obj} ensures ParentOk(o, live - {obj}) && ChildrenOk(o, live - {obj}) {
        assert ParentOk(o, live) && ChildrenOk(o, live);
      }
    }

    /** `gpu_object_destroy`, as far as the tree and the list go: the object is gone,
        its children have no parent, and all other links are as before. */
    method Destroy(obj: GpuObject)
      requires Valid() && obj in live
      modifies this, live
      ensures Valid() && live == old(live) - {obj}
      ensures exists k :: 0 <= k < |old(order)| && old(order)[k] == obj && order == Without(old(order), k)
      ensures forall o <- live :: o.parentObject == if old(o.parentObject) == obj then null else old(o.parentObject)
    {
      hide TreeOk, Ordered, Chained;
      if obj.parentObject != null {
        Above(obj);
        ghost var k := Disconnect(obj.parentObject, obj, true, live);
      }
      OrphanChildren(obj);
      Removable(obj);
      Unlink(obj);
    }

    lemma Above(obj: GpuObject)
      requires TreeOk(live) && obj in live && obj.parentObject != null
      ensures obj.parentObject in live && obj.parentObject.birth < obj.birth && obj.parentObject != obj
    {
      assert ParentOk(obj, live);
    }

    /** `nvrm_destroy_gpu_object`: an object that does not exist is ignored. */
    method DestroyNamed(cid: nat, handle: nat)
      requires Valid()
      modifies this, live
      ensures Valid()
      ensures var obj := old(Lookup(order, cid, handle));
              if obj == null then live == old(live) && order == old(order) else live == old(live) - {obj}
    {
      hide TreeOk, Ordered, Chained, Lookup, Without;
      var obj := Find(cid, handle);
      if obj != null {
        Destroy(obj);
      }
    }

    // -------------------------------------------------------------------
    // Walks
    // -------------------------------------------------------------------

    /** The first object of one of these classes on the way up from `o`. */
    ghost function FirstUp(o: GpuObject, classes: set<nat>): (r: GpuObject?)
      requires TreeOk(live) && o in live
      reads this, live
      ensures r != null ==> r in live && r.class_ in classes
      decreases o.birth
    {
      ParentAbove(o);
      if o.class_ in classes then o
      else if o.parentObject == null then null
      else FirstUp(o.parentObject, classes)
    }

    lemma ParentAbove(o: GpuObject)
      requires TreeOk(live) && o in live
      ensures o.parentObject != null ==> o.parentObject in live && o.parentObject.birth < o.birth
    {
      assert ParentOk(o, live);
    }

    /** `nvrm_get_device` and `nvrm_get_parent_fifo`: the walk up always ends. */
    method WalkUp(obj: GpuObject, classes: set<nat>) returns (r: GpuObject?)
      requires Valid() && obj in live
      ensures r == FirstUp(obj, classes)
    {
      hide TreeOk;
      r := obj;
      while r != null
        invariant r != null ==> r in live && FirstUp(r, classes) == FirstUp(obj, classes)
        invariant r == null ==> FirstUp(obj, classes) == null
        decreases if r == null then 0 else r.birth + 1
      {
        if r.class_ in classes {
          return;
        }
        ParentAbove(r);
        r := r.parentObject;
      }
    }

    /** `o` lies in the subtree of `root`. */
    ghost predicate Below(o: GpuObject, root: GpuObject)
      requires TreeOk(live) && o in live
      reads this, live
      decreases o.birth
    {
      ParentAbove(o);
      o == root || (o.parentObject != null && Below(o.parentObject, root))
    }

    /** The subtree of `o` in the order of the search: an object, and then its children's
        subtrees in the order of its child array. */
    ghost function Visits(o: GpuObject): seq<GpuObject>
      requires Valid() && o in live
      reads this, live
      decreases clock - o.birth, |o.children| + 1
    {
      [o] + VisitsFrom(o, 0)
    }

    ghost function VisitsFrom(o: GpuObject, i: nat): seq<GpuObject>
      requires Valid() && o in live && i <= |o.children|
      reads this, live
      decreases clock - o.birth, |o.children| - i
    {
      if i == |o.children| then []
      else if o.children[i] == null then VisitsFrom(o, i + 1)
      else
        ChildBelow(o, i);
        Visits(o.children[i]) + VisitsFrom(o, i + 1)
    }

    /** `nvrm_find_object_by_func`: the depth-first search finds an object that passes
        the check if and only if the subtree has one, and then the first in its order. */
    method FindByFunc(root: GpuObject, check: GpuObject -> bool) returns (r: GpuObject?)
      requires Valid() && root in live
      ensures r != null ==> r in live && check(r) && Below(r, root)
      ensures r == null ==> forall o <- live :: Below(o, root) ==> !check(o)
      ensures FirstPass(Visits(root), check, r)
      decreases clock - root.birth
    {
      hide TreeOk, Ordered, Chained, VisitsFrom, FirstPass;
      FirstAtOnce([root], VisitsFrom(root, 0), check);
      if check(root) {
        return root;
      }
      var i := 0;
      ghost var seen := [root];
      while i < |root.children|
        invariant i <= |root.children|
        invariant Visits(root) == seen + VisitsFrom(root, i) && FirstPass(seen, check, null)
        invariant forall j :: 0 <= j < i && root.children[j] != null ==>
          root.children[j] in live && forall o <- live :: Below(o, root.children[j]) ==> !check(o)
      {
        var c := root.children[i];
        if c != null {
          ChildBelow(root, i);
          r := FindByFunc(c, check);
          VisitsChild(root, i);
          assert seen + (Visits(c) + VisitsFrom(root, i + 1)) == seen + Visits(c) + VisitsFrom(root, i + 1);
          FirstLater(seen, Visits(c), VisitsFrom(root, i + 1), check, r);
          seen := seen + Visits(c);
          if r != null {
            BelowTrans(r, c, root);
            return;
          }
        } else {
          VisitsChild(root, i);
        }
        i := i + 1;
      }
      VisitsChild(root, i);
      assert seen + [] == seen;
      r := null;
      forall o | o in live && Below(o, root) ensures !check(o) {
        if o != root {
          var j := ViaChild(o, root);
        }
      }
    }

    lemma VisitsChild(o: GpuObject, i: nat)
      requires Valid() && o in live && i <= |o.children|
      ensures i == |o.children| ==> VisitsFrom(o, i) == []
      ensures i < |o.children| && o.children[i] == null ==> VisitsFrom(o, i) == VisitsFrom(o, i + 1)
      ensures i < |o.children| && o.children[i] != null ==>
                o.children[i] in live && VisitsFrom(o, i) == Visits(o.children[i]) + VisitsFrom(o, i + 1)
    {
      hide TreeOk, Ordered, Chained;
      if i < |o.children| && o.children[i] != null {
        ChildBelow(o, i);
      }
    }

    lemma ChildBelow(root: GpuObject, i: nat)
      requires Valid() && root in live && i < |root.children| && root.children[i] != null
      ensures root.children[i] in live && root.children[i].parentObject == root
      ensures root.birth < root.children[i].birth < clock
    {
      assert ChildrenOk(root, live);
      ParentAbove(root.children[i]);
      Older(root.children[i]);
    }

    lemma {:induction false} BelowTrans(o: GpuObject, c: GpuObject, root: GpuObject)
      requires TreeOk(live) && o in live && c in live && Below(o, c) && c.parentObject == root
      ensures Below(o, root)
      decreases o.birth
    {
      ParentAbove(o);
      if o != c {
        BelowTrans(o.parentObject, c, root);
      } else {
        assert root in live;
      }
    }

    lemma {:induction false} ViaChild(o: GpuObject, root: GpuObject) returns (j: nat)
      requires TreeOk(live) && o in live && root in live && o != root && Below(o, root)
      ensures j < |root.children| && root.children[j] != null && root.children[j] in live && Below(o, root.children[j])
      decreases o.birth
    {
      ParentAbove(o);
      if o.parentObject == root {
        assert ParentOk(o, live);
        j :| 0 <= j < |root.children| && root.children[j] == o;
      } else {
        j := ViaChild(o.parentObject, root);
      }
    }
  }
}
