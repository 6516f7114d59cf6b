/** The trace loader as it runs: a 64K window that is refilled by short reads and
    moved by `memmove`, and pointers into it (`demmt/mmt_bin_decode.c`,
    `demmt/mmt_bin_decode_nvidia.c`). */
module Loader {
  import opened Options
  import opened Stream
  import opened StaleSearch

  /** `b[lo..hi]` of the window is the stream from `at` on. */
  ghost predicate Mirrors(b: seq<Byte>, n: nat, s: seq<Byte>, at: nat) {
    n <= |b| && at + n <= |s| && forall k :: 0 <= k < n ==> b[k] == s[at + k]
  }

  lemma MirrorLe32(b: seq<Byte>, n: nat, s: seq<Byte>, at: nat, off: nat)
    requires Mirrors(b, n, s, at) && off + 4 <= n
    ensures Le32(b, off) == Le32(s, at + off)
  {
    MirrorSlice(b, n, s, at, off, off + 4);
  }

  lemma MirrorSlice(b: seq<Byte>, n: nat, s: seq<Byte>, at: nat, lo: nat, hi: nat)
    requires Mirrors(b, n, s, at) && lo <= hi <= n
    ensures b[lo..hi] == s[at + lo..at + hi]
  {
  }

  lemma MirrorAll(b: seq<Byte>, n: nat, s: seq<Byte>, at: nat)
    requires Mirrors(b, n, s, at)
    ensures n <= |b| && at + n <= |s| && forall k :: 0 <= k < n ==> b[k] == s[at + k]
  {
  }

  /** The bytes from `off` on, moved to the front. */
  lemma MirrorShifted(b: seq<Byte>, n: nat, s: seq<Byte>, at: nat, off: nat)
    requires Mirrors(b, n, s, at) && off <= n
    ensures forall c: seq<Byte> :: |c| == |b| && c[..n - off] == b[off..n] ==> Mirrors(c, n - off, s, at + off)
  {
    forall c: seq<Byte> | |c| == |b| && c[..n - off] == b[off..n] ensures Mirrors(c, n - off, s, at + off) {
      forall k | 0 <= k < n - off ensures c[k] == s[at + off + k] {
        assert c[k] == c[..n - off][k] == b[off + k];
      }
    }
  }

  lemma ShowNone(s: seq<Byte>, at: nat, n: nat)
    ensures ShowAll(s, at, n, [], [])
  {
  }

  /** The pointer at offset `off` of a window that starts at `at` shows the buffer `v`. */
  ghost predicate Shows(s: seq<Byte>, at: nat, n: nat, off: nat, v: seq<Byte>) {
    at + n <= |s| && off + 4 <= n && off + 4 + Le32(s, at + off) <= n && MmtBuf(s, at + off) == v
  }

  /** `struct mmt_memory_dump`: an address and two pointers into the window. */
  datatype Arg = Arg(addr: seq<Byte>, name: Option<nat>, data: nat)

  ghost predicate ShowsDump(s: seq<Byte>, at: nat, n: nat, a: Arg, d: Dump) {
    && a.addr == d.addr
    && (if a.name.Some? then Shows(s, at, n, a.name.value, d.name) else d.name == [])
    && Shows(s, at, n, a.data, d.data)
  }

  ghost predicate ShowAll(s: seq<Byte>, at: nat, n: nat, args: seq<Arg>, ds: seq<Dump>) {
    |args| == |ds| && forall i :: 0 <= i < |args| ==> ShowsDump(s, at, n, args[i], ds[i])
  }

  lemma ShowMore(s: seq<Byte>, at: nat, n: nat, m: nat, args: seq<Arg>, ds: seq<Dump>, a: Arg, d: Dump)
    requires ShowAll(s, at, n, args, ds) && n <= m && at + m <= |s| && ShowsDump(s, at, m, a, d)
    ensures ShowAll(s, at, m, args + [a], ds + [d])
  {
    forall i | 0 <= i < |args| + 1 ensures ShowsDump(s, at, m, (args + [a])[i], (ds + [d])[i]) {
      if i < |args| {
        assert ShowsDump(s, at, n, args[i], ds[i]);
      }
    }
  }

  lemma ShowGrown(s: seq<Byte>, at: nat, n: nat, m: nat, args: seq<Arg>, ds: seq<Dump>)
    requires ShowAll(s, at, n, args, ds) && n <= m && at + m <= |s|
    ensures ShowAll(s, at, m, args, ds)
  {
    forall i | 0 <= i < |args| ensures ShowsDump(s, at, m, args[i], ds[i]) {
      assert ShowsDump(s, at, n, args[i], ds[i]);
    }
  }

  lemma MirrorMmtBuf(b: seq<Byte>, n: nat, s: seq<Byte>, at: nat, off: nat)
    requires Mirrors(b, n, s, at) && off + 4 <= n && off + 4 + Le32(s, at + off) <= n
    ensures MmtBuf(b, off) == MmtBuf(s, at + off)
  {
    MirrorLe32(b, n, s, at, off);
    MirrorSlice(b, n, s, at, off, off + 4 + Le32(b, off));
  }

  /** A dump whose header was loaded, and then its data, without the window moving
      in between. */
  lemma BodyShown(s: seq<Byte>, p: nat, pfx: nat, nv: bool, at: nat, n: nat, idx: nat)
    requires DumpBody(s, p, pfx, nv).GotDump? && at + idx == p && at + n <= |s|
    requires pfx + idx + DumpBody(s, p, pfx, nv).size <= n
    ensures var r := DumpBody(s, p, pfx, nv);
            var d := pfx + idx;
            && r.dump.addr == s[at + d + AddrAt(nv)..at + d + AddrAt(nv) + 8]
            && (nv ==> Shows(s, at, n, d + 10, r.dump.name)) && (!nv ==> r.dump.name == [])
            && Shows(s, at, n, d + r.head, r.dump.data)
  {
  }

  /** The header of a record lies in the window, the record does not, and the window
      is not at the front: loading the rest moves it. */
  predicate Straddles(idx: nat, len: nat, head: nat, size: nat) {
    idx > 0 && idx + head <= len < idx + size
  }

  /** What one turn of the main loop hands to the handlers. */
  datatype Delivery = Got(record: Record) | Done | Failed(reason: Reason)

  /** How the window gets through a turn that passes over `size` bytes: it is where it
      was, and nothing was read into it unless it was at the front, or it is at the front.
      Records that nothing is looked for behind (`peeks`) move it only if they do not fit. */
  predicate Passed(t: Turn, size: nat, peeks: bool) {
    && t.left <= t.end && (t.left == t.idx + size || t.left == size)
    && (t.left == t.idx + size && t.idx > 0 ==> t.end == t.len)
    && (!peeks ==> if t.idx + size <= t.len then t.left == t.idx + size && t.end == t.len else t.left == size)
  }

  /** Looking at the type of a record first makes no difference to that. */
  lemma PassedKind(was: Turn, now: Turn, size: nat, peeks: bool)
    requires now.idx > 0 || was.idx + 2 <= was.len ==> now.idx == was.idx && now.len == was.len
    requires was.end == now.end && was.left == now.left && size >= 2 && was.idx <= was.len
    requires Passed(now, size, peeks)
    ensures Passed(was, size, peeks)
  {
  }

  /** The window is a part of the stream. */
  predicate Placed(s: seq<Byte>, t: Turn) {
    t.idx <= t.len <= BUF && t.end <= BUF && t.idx <= t.p && t.p - t.idx + t.len <= |s|
  }

  /** The record of the turn is a dump that stands alone and straddles the window. */
  ghost predicate StaleAt(s: seq<Byte>, t: Turn) {
    && t.p + 1 < |s| && KindAt(s, t.p).BareDump?
    && var r := DumpBody(s, t.p, 0, true);
       r.GotDump? && Straddles(t.idx, t.len, r.head, r.size)
  }

  /** The buffer after a move and a refill: the stream from the record on, and behind
      that what the window held before. */
  ghost predicate Leftovers(s: seq<Byte>, t: Turn, b: seq<Byte>) {
    && |b| == BUF && Placed(s, t) && Mirrors(b, t.end, s, t.p)
    && forall k :: t.end <= k < t.len ==> b[k] == s[t.p - t.idx + k]
  }

  lemma LeftoversAlike(s: seq<Byte>, t: Turn, b: seq<Byte>, left: nat)
    requires Leftovers(s, t, b)
    ensures forall u: Turn :: u == t.(mid := u.mid, left := left) ==> Leftovers(s, u, b)
  {
  }

  /** What a handler reads of a dump through a header pointer at `header`. */
  function SeenAt(b: seq<Byte>, header: nat, data: seq<Byte>): Dump
    requires header + 14 <= |b|
  {
    Dump(b[header + 2..header + 10], MmtBuf(b, header + 10), data)
  }

  /** A record is delivered as it stands in the stream, unless it is a dump that stands
      alone and straddles the window: then its data are right, and the header is read at
      the place it had before the window moved. */
  ghost predicate Delivered(s: seq<Byte>, t: Turn, r: Record, e: Record) {
    if StaleAt(s, t) then
      && e.Memory? && t.idx + 14 <= BUF && DumpBody(s, t.p, 0, true).size <= t.end
      && exists b :: Leftovers(s, t, b) && r == Memory(SeenAt(b, t.idx, e.dump.data))
    else r == e
  }

  /** The address that goes out with such a dump, byte by byte: what the refill has
      put there, or the right byte where it did not come that far. */
  lemma StaleAddress(s: seq<Byte>, t: Turn, r: Record, handled: set<char>)
    requires StaleAt(s, t) && ParseAt(s, t.p, handled).Rec? && Delivered(s, t, r, ParseAt(s, t.p, handled).record)
    ensures var e := ParseAt(s, t.p, handled).record;
            && r.Memory? && e.Memory? && r.dump.data == e.dump.data && |r.dump.addr| == |e.dump.addr| == 8
            && t.p + 10 <= |s| && e.dump.addr == s[t.p + 2..t.p + 10]
    ensures var e := ParseAt(s, t.p, handled).record;
            forall j :: 0 <= j < 8 ==>
              r.dump.addr[j] == if t.idx + 2 + j < t.end then s[t.p + t.idx + 2 + j] else e.dump.addr[j]
  {
    hide MmtBuf, Le32;
    var e := ParseAt(s, t.p, handled).record;
    var b :| Leftovers(s, t, b) && r == Memory(SeenAt(b, t.idx, e.dump.data));
    forall j | 0 <= j < 8
      ensures r.dump.addr[j] == if t.idx + 2 + j < t.end then s[t.p + t.idx + 2 + j] else e.dump.addr[j]
    {
      assert r.dump.addr[j] == b[t.idx + 2 + j];
    }
  }

  /** A sync record and a dump: six bytes and twenty. */
  function Example(): seq<Byte> {
    [83, 0, 0, 0, 0, 10, 110, 111, 1, 2, 3, 4, 5, 6, 7, 8, 0, 0, 0, 0, 1, 0, 0, 0, 9, 10]
  }

  lemma ExampleLength()
    ensures |Example()| == 26
  {
  }

  lemma ExampleDump(s: seq<Byte>, p: nat)
    requires s == Example() && p == 6
    ensures var r := DumpBody(s, p, 0, true);
            r.GotDump? && r.head == 14 && r.size == 20 && r.dump.addr == s[8..16]
  {
    hide LeValue;
    assert s[p + 10..p + 14] == [0, 0, 0, 0] && s[p + 14..p + 18] == [1, 0, 0, 0];
    LittleEndian(0);
    LittleEndian(1);
    assert HeadSize(s, p, 0, true) == Size(14);
    assert DataSize(s, p, 14) == Size(6);
  }

  lemma LittleEndian(v: Byte)
    ensures LeValue([v, 0, 0, 0]) == v
  {
    assert [v, 0, 0, 0][1..] == [0, 0, 0] && [0, 0, 0][1..] == [0, 0] && [0, 0][1..] == [0] && [0][1..] == [];
    assert LeValue([0]) == 0 && LeValue([0, 0]) == 0 && LeValue([0, 0, 0]) == 0;
  }

  lemma ExampleSync(s: seq<Byte>, p: nat)
    requires s == Example() && p == 0
    ensures ParseAt(s, p, {}) == Rec(Record(s[0..6], []), 6)
  {
    assert TopKind(s[p]) == Plain(Fixed(6));
    assert SizeAt(s, p, 0, Fixed(6)) == Size(6);
  }

  lemma ExampleSyncKind(s: seq<Byte>)
    requires s == Example()
    ensures !KindAt(s, 0).Ioctl?
  {
    assert TopKind(s[0]) == Plain(Fixed(6));
  }

  /** No record is a single byte. */
  lemma TwoBytes(s: seq<Byte>, p: nat, handled: set<char>)
    requires ParseAt(s, p, handled).Rec?
    ensures ParseAt(s, p, handled).next >= p + 2
  {
    hide KindAt;
  }

  /** If the first read returns twenty bytes, the dump goes out with a header pointer
      six bytes off, and the record delivered is not the one in the stream. */
  lemma StaleHeader(s: seq<Byte>, t: Turn, r: Record)
    requires s == Example() && t.p == 6 && t.idx == 6 && t.len == 20
    requires var e := ParseAt(s, t.p, {}); e.Rec? && Delivered(s, t, r, e.record)
    ensures ParseAt(s, 0, {}) == Rec(Record(s[0..6], []), t.p)
    ensures StaleAt(s, t)
    ensures ParseAt(s, t.p, {}).record.Memory? && ParseAt(s, t.p, {}).record.dump.addr == [1, 2, 3, 4, 5, 6, 7, 8]
    ensures r.Memory? && r.dump.addr == [7, 8, 0, 0, 0, 0, 1, 0] && r != ParseAt(s, t.p, {}).record
  {
    hide DumpBody, SizeAt, IoctlAt, KindAt, ParseAt, MmtBuf;
    ExampleSync(s, 0);
    ExampleDump(s, t.p);
    ExampleKind(s, t.p);
    StaleAddress(s, t, r, {});
    assert r.dump.addr == s[14..22];
  }

  lemma ExampleKind(s: seq<Byte>, p: nat)
    requires s == Example() && p == 6
    ensures KindAt(s, p) == BareDump && ParseAt(s, p, {}) == RecordAt(s, p, BareDump, {})
  {
    hide RecordAt;
    assert s[p] == 110 && s[p + 1] == 111;
  }

  /** A window at the front, or one that does not hold two bytes of the record, leaves no
      stale header. */
  lemma NotStale(s: seq<Byte>, was: Turn, now: Turn, r: Record, e: Record)
    requires was.idx == 0 || was.len < was.idx + 2
    requires now.idx == 0 && Delivered(s, now, r, e)
    ensures Delivered(s, was, r, e)
  {
    hide Leftovers, KindAt;
  }

  function Prepend(rs: seq<Record>, t: Trace): Trace {
    Trace(rs + t.records, t.failure)
  }

  lemma PrependNext(rs: seq<Record>, r: Record, t: Trace)
    ensures Prepend(rs, Trace([r] + t.records, t.failure)) == Prepend(rs + [r], t)
  {
    assert rs + ([r] + t.records) == rs + [r] + t.records;
  }

  /** The turn starts at a record of the stream that ends at `next`, and gets past it. */
  ghost predicate Covers(s: seq<Byte>, handled: set<char>, t: Turn, next: nat) {
    && Placed(s, t) && ParseAt(s, t.p, handled).Rec? && ParseAt(s, t.p, handled).next == next
    && Passed(t, next - t.p, KindAt(s, t.p).Ioctl?) && t.mid <= t.end && !Fatal(s, t, handled)
  }

  /** The run ends with what is found in the turn. */
  predicate EndsWith(s: seq<Byte>, handled: set<char>, t: Turn, failure: Option<Reason>) {
    match ParseSeen(s, t, handled)
    case Rec(_, _) => false
    case End => failure == None
    case Fail(reason) => failure == Some(reason)
  }

  /** What was delivered before the last turn is all there is, and the run ends as the
      stream says, exactly if the last turn is not fatal. */
  lemma LastTurn(s: seq<Byte>, handled: set<char>, t: Turn, sofar: seq<Record>, failure: Option<Reason>)
    requires ParseAll(s, 0, handled) == Prepend(sofar, ParseAll(s, t.p, handled)) && EndsWith(s, handled, t, failure)
    ensures var all := ParseAll(s, 0, handled);
            && sofar <= all.records && all.records[..|sofar|] == sofar
            && (|sofar| == |all.records| && failure == all.failure <==> !Fatal(s, t, handled))
  {
    hide ParseSeen, ParseAt, Fatal;
    SeenUnlessFatal(s, t, handled);
    var rest := ParseAll(s, t.p, handled);
    assert (sofar + rest.records)[..|sofar|] == sofar;
  }

  lemma QuietAlong(s: seq<Byte>, handled: set<char>, t: Turn)
    requires Quiet(s, t.p, handled)
    ensures !Fatal(s, t, handled)
    ensures ParseAt(s, t.p, handled).Rec? ==> Quiet(s, ParseAt(s, t.p, handled).next, handled)
  {
    hide ParseAt, Fatal, QuietAt;
    QuietIsHarmless(s, t, handled);
  }

  function StartOf(turns: seq<Turn>, i: nat, next: nat): nat {
    if i < |turns| then turns[i].p else next
  }

  /** The turns follow the records of the stream from its beginning up to `next`, and each
      one finds the window as the one before has left it. */
  ghost predicate Walks(s: seq<Byte>, handled: set<char>, turns: seq<Turn>, next: nat) {
    && StartOf(turns, 0, next) == 0
    && (forall i :: 0 <= i < |turns| ==> Covers(s, handled, turns[i], StartOf(turns, i + 1, next)))
    && forall i :: 0 < i < |turns| ==> turns[i].idx == turns[i - 1].left && turns[i].len == turns[i - 1].end
  }

  /** The window is as the last turn has left it. */
  predicate LeftAt(turns: seq<Turn>, idx: nat, len: nat) {
    turns != [] ==> var t := turns[|turns| - 1]; t.left == idx && t.end == len
  }

  /** The records delivered in the turns are those of the stream, as far as `Delivered` goes. */
  ghost predicate AllDelivered(s: seq<Byte>, handled: set<char>, turns: seq<Turn>, rs: seq<Record>, es: seq<Record>) {
    && |turns| == |rs| == |es|
    && forall i :: 0 <= i < |turns| ==>
         && ParseAt(s, turns[i].p, handled).Rec? && ParseAt(s, turns[i].p, handled).record == es[i]
         && Delivered(s, turns[i], rs[i], es[i])
  }

  lemma NothingYet(s: seq<Byte>, handled: set<char>)
    ensures Walks(s, handled, [], 0) && AllDelivered(s, handled, [], [], [])
  {
  }

  lemma WalkMore(s: seq<Byte>, handled: set<char>, turns: seq<Turn>, t: Turn, next: nat)
    requires Walks(s, handled, turns, t.p) && LeftAt(turns, t.idx, t.len) && Covers(s, handled, t, next)
    ensures Walks(s, handled, turns + [t], next)
  {
    hide Covers;
    var all := turns + [t];
    forall i | 0 <= i < |all| ensures Covers(s, handled, all[i], StartOf(all, i + 1, next)) {
      if i < |turns| {
        assert Covers(s, handled, turns[i], StartOf(turns, i + 1, t.p));
      }
    }
  }

  lemma WalkNext(s: seq<Byte>, handled: set<char>, turns: seq<Turn>, rs: seq<Record>, es: seq<Record>, t: Turn,
                 r: Record)
    requires Walks(s, handled, turns, t.p) && AllDelivered(s, handled, turns, rs, es) && Placed(s, t)
    requires LeftAt(turns, t.idx, t.len) && t.mid <= t.end && !Fatal(s, t, handled)
    requires var p := ParseAt(s, t.p, handled);
             p.Rec? && Delivered(s, t, r, p.record) && Passed(t, p.next - t.p, KindAt(s, t.p).Ioctl?)
    ensures var p := ParseAt(s, t.p, handled);
            Walks(s, handled, turns + [t], p.next) && AllDelivered(s, handled, turns + [t], rs + [r], es + [p.record])
  {
    hide ParseAt, Delivered, Placed, Passed, KindAt, Walks, LeftAt, Fatal;
    WalkMore(s, handled, turns, t, ParseAt(s, t.p, handled).next);
  }

  /** Only dumps that stand alone can differ, and their data never do. */
  lemma OnlyDumpsDiffer(s: seq<Byte>, handled: set<char>, turns: seq<Turn>, rs: seq<Record>, es: seq<Record>)
    requires AllDelivered(s, handled, turns, rs, es)
    ensures |rs| == |es|
    ensures forall i :: 0 <= i < |rs| ==>
              if es[i].Memory? then rs[i].Memory? && rs[i].dump.data == es[i].dump.data else rs[i] == es[i]
    ensures (forall i :: 0 <= i < |es| ==> !es[i].Memory?) ==> rs == es
  {
    hide ParseAt, StaleAt, Leftovers;
    forall i | 0 <= i < |rs|
      ensures if es[i].Memory? then rs[i].Memory? && rs[i].dump.data == es[i].dump.data else rs[i] == es[i]
    {
      assert Delivered(s, turns[i], rs[i], es[i]);
    }
  }

  lemma OmittedPlain(u: Byte, handled: set<char>)
    requires Omitted(u, handled)
    ensures NvKind(u).Plain? && u as char != 'o'
  {
  }

  class Window {
    const buf: array<Byte>
    var idx: nat
    var len: nat
    /** The standard input and how much of it has been read. */
    const input: seq<Byte>
    var pos: nat

    ghost predicate Valid()
      reads this, buf
    {
      && buf.Length == BUF && idx <= len <= BUF && len <= pos <= |input|
      && Mirrors(buf[..], len, input, pos - len)
    }

    /** The place in the stream of the record being decoded. */
    ghost function Here(): nat
      reads this, buf
      requires Valid()
    {
      pos - len + idx
    }

    constructor (input: seq<Byte>)
      ensures Valid() && Here() == 0 && pos == 0 && this.input == input && fresh(buf)
    {
      this.input := input;
      buf := new Byte[BUF](_ => 0);
      idx, len, pos := 0, 0, 0;
    }

    /** `read`: some of what is left, at least one byte unless nothing is. */
    method Read(cap: nat) returns (r: nat)
      requires Valid() && 0 < cap <= BUF - len
      modifies this`len, this`pos, buf
      ensures Valid() && r <= cap && len == old(len) + r && pos == old(pos) + r && RestKept()
      ensures r == 0 <==> old(pos) == |input|
    {
      r := 0;
      if pos < |input| {
        r :| 1 <= r <= cap && pos + r <= |input|;
        Take(r);
      }
    }

    /** A read that returns `r` bytes. */
    method Take(r: nat)
      requires Valid() && len + r <= BUF && pos + r <= |input|
      modifies this`len, this`pos, buf
      ensures Valid() && len == old(len) + r && pos == old(pos) + r && RestKept()
    {
      forall k | 0 <= k < r {
        buf[len + k] := input[pos + k];
      }
      len, pos := len + r, pos + r;
    }

    /** The buffer behind the window is as it was. */
    twostate predicate RestKept()
      reads this, buf
    {
      forall k :: len <= k < buf.Length ==> buf[k] == old(buf[k])
    }

    /** So it is after loading, which leaves the window alone unless it moves it or finds
        it at the front. */
    twostate predicate Untouched()
      reads this, buf
    {
      RestKept() && (idx == old(idx) && idx > 0 ==> len == old(len) && buf[..] == old(buf[..]))
    }

    /** The `memmove` to the front of the buffer. */
    method Slide()
      requires Valid()
      modifies this`idx, this`len, buf
      ensures Valid() && idx == 0 && len == old(len) - old(idx) && Here() == old(Here()) && RestKept()
    {
      hide Mirrors;
      ghost var b := buf[..];
      MirrorShifted(b, len, input, pos - len, idx);
      forall k | 0 <= k < len - idx {
        buf[k] := buf[idx + k];
      }
      assert buf[..][..len - idx] == b[idx..len];
      len := len - idx;
      idx := 0;
    }

    /** `mmt_load_data_with_prefix`; `Some(Eof)` is NULL where that is allowed. */
    method Load(sz: nat, pfx: nat) returns (stop: Option<Reason>)
      requires Valid()
      modifies this`idx, this`len, this`pos, buf
      ensures Valid() && Here() == old(Here()) && stop == Need(|input|, Here(), pfx, sz)
      ensures stop.None? ==> pfx + idx + sz <= len
      ensures idx == (if old(pfx + idx + sz <= len) || pfx + sz > BUF then old(idx) else 0)
      ensures (idx == old(idx) ==> old(len) <= len) && old(len) - old(idx) <= len - idx
      ensures old(pfx + idx + sz <= len) ==> len == old(len)
      ensures Untouched()
    {
      if pfx + idx + sz <= len {
        return None;
      }
      if pfx + sz > BUF {
        return Some(TooBig);
      }
      if idx > 0 {
        Slide();
      }
      while pfx + idx + sz > len
        invariant Valid() && Here() == old(Here()) && idx == 0
        invariant (old(idx) == 0 ==> old(len) <= len) && old(len) - old(idx) <= len
        invariant RestKept()
        decreases |input| - pos
      {
        var r := Read(BUF - len);
        if r == 0 {
          return Some(Eof);
        }
      }
      stop := None;
    }

    /** Since the old state the window has not moved, or it is at the front. */
    twostate predicate Steady()
      reads this
    {
      && (idx == old(idx) || idx == 0) && (idx == old(idx) ==> old(len) <= len)
      && (idx == old(idx) && idx > 0 ==> len == old(len))
      && old(len) - old(idx) <= len - idx
    }

    method ReadByte(off: nat) returns (v: Byte)
      requires Valid() && off < len
      ensures v == input[pos - len + off]
    {
      v := buf[off];
      assert buf[..][off] == v;
    }

    method ReadLe32(off: nat) returns (v: nat)
      requires Valid() && off + 4 <= len
      ensures v == Le32(input, pos - len + off)
    {
      v := Le32(buf[..], off);
      MirrorLe32(buf[..], len, input, pos - len, off);
    }

    method ReadBytes(off: nat, n: nat) returns (v: seq<Byte>)
      requires Valid() && off + n <= len
      ensures v == input[pos - len + off..pos - len + off + n]
    {
      v := buf[off..off + n];
      MirrorSlice(buf[..], len, input, pos - len, off, off + n);
      assert v == buf[..][off..off + n];
    }

    /** The length a record names, once its fixed part is loaded at `off`. */
    method ReadLength(sh: Shape, pfx: nat) returns (n: nat)
      requires Valid() && OkShape(sh) && pfx + idx + sh.base <= len
      ensures n == LengthAt(input, Here() + pfx, sh)
    {
      var off := pfx + idx;
      match sh
      case Fixed(_) => n := 0;
      case LenByte(_, at) => n := ReadByte(off + at);
      case Len32(_, at) => n := ReadLe32(off + at);
    }

    /** Loading all of a record and `mmt_check_eor`. */
    method LoadClosed(size: nat, pfx: nat) returns (r: Sizing)
      requires Valid() && size > 0
      modifies this`idx, this`len, this`pos, buf
      ensures Valid() && Here() == old(Here()) && Steady() && r == Closed(input, Here(), pfx, size)
      ensures r.Size? ==> pfx + idx + size <= len
      ensures r.Size? ==> idx == if old(pfx + idx) + size <= old(len) then old(idx) else 0
      ensures r.Size? && old(pfx + idx) + size <= old(len) ==> len == old(len)
      ensures Untouched()
    {
      var stop := Load(size, pfx);
      if stop.Some? {
        return NoSize(stop.value);
      }
      var e := ReadByte(pfx + idx + size - 1);
      r := if e != EOR then NoSize(NoEor) else Size(size);
    }

    /** The common beginning of the handlers: load the fixed part, add the length it
        names, load the rest and look for the end mark. */
    method LoadRecord(sh: Shape, pfx: nat) returns (r: Sizing)
      requires Valid() && OkShape(sh)
      modifies this`idx, this`len, this`pos, buf
      ensures Valid() && Here() == old(Here()) && Steady() && r == SizeAt(input, Here(), pfx, sh)
      ensures r.Size? ==> pfx + idx + r.size <= len
      ensures r.Size? ==> idx == if old(pfx + idx) + r.size <= old(len) then old(idx) else 0
      ensures r.Size? && old(pfx + idx) + r.size <= old(len) ==> len == old(len)
      ensures Untouched()
    {
      hide Mirrors, Closed, LengthAt;
      var stop := Load(sh.base, pfx);
      if stop.Some? {
        return NoSize(stop.value);
      }
      var n := ReadLength(sh, pfx);
      if sh.Len32? && n >= BUF {
        return NoSize(TooLong);
      }
      r := LoadClosed(sh.base + n, pfx);
    }

    /** Loading the header of a dump: its size. */
    method LoadHead(pfx: nat, nv: bool) returns (r: Sizing)
      requires Valid()
      modifies this`idx, this`len, this`pos, buf
      ensures Valid() && Here() == old(Here()) && Steady() && r == HeadSize(input, Here(), pfx, nv)
      ensures r.Size? ==> pfx + idx + r.size <= len
      ensures r.Size? ==> idx == if old(pfx + idx) + r.size <= old(len) then old(idx) else 0
      ensures r.Size? && old(pfx + idx) + r.size <= old(len) ==> len == old(len)
      ensures Untouched()
    {
      hide Mirrors;
      var stop := Load(HeadBase(nv), pfx);
      if stop.Some? {
        return NoSize(stop.value);
      }
      if !nv {
        return Size(9);
      }
      var n := ReadLe32(pfx + idx + 10);
      if n >= BUF {
        return NoSize(TooLong);
      }
      stop := Load(14 + n, pfx);
      r := if stop.Some? then NoSize(stop.value) else Size(14 + n);
    }

    /** Loading the data of a dump and its end mark: their size. */
    method LoadData(pfx: nat) returns (r: Sizing)
      requires Valid()
      modifies this`idx, this`len, this`pos, buf
      ensures Valid() && Here() == old(Here()) && Steady() && r == DataSize(input, Here(), pfx)
      ensures r.Size? ==> pfx + idx + r.size <= len
      ensures r.Size? ==> idx == if old(pfx + idx) + r.size <= old(len) then old(idx) else 0
      ensures r.Size? && old(pfx + idx) + r.size <= old(len) ==> len == old(len)
      ensures Untouched()
    {
      hide Mirrors, Closed;
      var stop := Load(4, pfx);
      if stop.Some? {
        return NoSize(stop.value);
      }
      var n := ReadLe32(pfx + idx);
      if n >= BUF {
        return NoSize(TooLong);
      }
      r := LoadClosed(4 + n + 1, pfx);
    }

    /** Loading a dump whose header is at `pfx`.  `d` is the pointer to the header as
        taken before the data is loaded. */
    method LoadBody(pfx: nat, nv: bool) returns (stop: Option<Reason>, d: nat, head: nat, size: nat)
      requires Valid()
      modifies this`idx, this`len, this`pos, buf
      ensures Valid() && Here() == old(Here()) && Steady()
      ensures var r := DumpBody(input, Here(), pfx, nv);
              if r.BadDump? then stop == Some(r.reason)
              else stop == None && r.GotDump? && head == r.head && size == r.size
      ensures stop.None? ==>
        && HeadBase(nv) <= head < size && pfx + idx + size <= len && d + head <= BUF
        && d == pfx + (if old(pfx + idx) + head <= old(len) then old(idx) else 0)
        && idx == (if old(pfx + idx) + size <= old(len) then old(idx) else 0)
        && (old(pfx + idx) + size <= old(len) ==> len == old(len))
      ensures Untouched()
    {
      hide Mirrors, HeadSize, DataSize;
      d, head, size := 0, 0, 0;
      var h := LoadHead(pfx, nv);
      if h.NoSize? {
        return Some(h.reason), d, head, size;
      }
      d, head := pfx + idx, h.size;
      var b := LoadData(pfx + head);
      if b.NoSize? {
        return Some(b.reason), d, head, size;
      }
      stop, size := None, head + b.size;
    }

    /** Since the start of the turn the window has not moved, or nothing from `pfx` on was
        in it then. */
    predicate Kept(t: Turn, pfx: nat)
      reads this
    {
      if idx == t.idx then idx > 0 ==> len == t.len else idx == 0 && Behind(t, pfx)
    }

    /** One record of the search: `nv` is the pointer to it, as taken before it is loaded. */
    method SkipRecord(pfx: nat, handled: set<char>, ghost t: Turn) returns (r: Skip, nv: nat)
      requires Valid() && Here() == t.p && Kept(t, pfx)
      modifies this`idx, this`len, this`pos, buf
      ensures Valid() && Here() == old(Here()) && Steady() && r == SkipOnce(input, Here(), pfx, handled)
      ensures r.SkipTo? || r.SkipNone? ==> Kept(t, pfx)
      ensures r.SkipOver? ==> Looked(t, pfx, r.size, nv, len)
      ensures r.SkipOver? && idx == old(idx) ==> !Straddling(t, pfx, r.size)
    {
      hide Mirrors, SizeAt, NvKind, Omitted, Looked, Straddling;
      nv := 0;
      var stop := Load(1, pfx);
      if stop.Some? {
        return if stop.value.Eof? then SkipNone else SkipBad(stop.value), nv;
      }
      var c := ReadByte(pfx + idx);
      if c as char != 'n' {
        return SkipNone, nv;
      }
      stop := Load(2, pfx);
      if stop.Some? {
        return SkipBad(stop.value), nv;
      }
      nv := pfx + idx;
      var u := ReadByte(nv + 1);
      if u as char == 'o' {
        return SkipTo(pfx), nv;
      }
      if !Omitted(u, handled) {
        return SkipNone, nv;
      }
      OmittedPlain(u, handled);
      r := LoadOmitted(u, pfx, nv, t);
    }

    /** What is found through the pointer to a record that was passed over, when that is
        loaded and the window filled up to `mid`. */
    predicate Looked(t: Turn, pfx: nat, size: nat, nv: nat, mid: nat)
      reads this, buf
    {
      && nv + 1 < buf.Length && Kept(t, pfx + size)
      && (buf[nv + 1] as char == 'o' <==> Misfires(input, MidAt(t, mid), pfx, size))
    }

    /** Loading a record that is passed over, whose subtype is already in the window. */
    method LoadOmitted(u: Byte, pfx: nat, nv: nat, ghost t: Turn) returns (r: Skip)
      requires Valid() && Here() == t.p && Kept(t, pfx) && nv == pfx + idx && nv + 2 <= len
      requires u == input[Here() + pfx + 1] && u as char != 'o' && NvKind(u).Plain?
      modifies this`idx, this`len, this`pos, buf
      ensures Valid() && Here() == old(Here()) && Steady()
      ensures var size := SizeAt(input, Here(), pfx, NvKind(u).shape);
              r == if size.NoSize? then SkipBad(size.reason) else SkipOver(size.size)
      ensures r.SkipOver? ==> Looked(t, pfx, r.size, nv, len)
      ensures r.SkipOver? && idx == old(idx) ==> !Straddling(t, pfx, r.size)
    {
      hide Mirrors, SizeAt, NvKind;
      HeldAt(nv + 1);
      var size := LoadRecord(NvKind(u).shape, pfx);
      r := if size.NoSize? then SkipBad(size.reason) else SkipOver(size.size);
      if size.Size? {
        assert buf[nv + 1] == if nv + 1 < len then input[pos - len + nv + 1] else u by {
          if nv + 1 < len {
            HeldAt(nv + 1);
          }
        }
      }
    }

    lemma HeldAt(q: nat)
      requires Valid() && q < len
      ensures buf[q] == input[pos - len + q]
    {
      assert buf[..][q] == buf[q];
    }

    /** Without a move it does not matter how far the window is filled. */
    lemma LookedEither(t: Turn, pfx: nat, r: Skip, nv: nat, mid: nat)
      requires r.SkipOver? ==> Looked(t, pfx, r.size, nv, len) && (mid == len || !Straddling(t, pfx, r.size))
      ensures r.SkipOver? ==> Looked(t, pfx, r.size, nv, mid)
    {
    }

    /** The loop of `load_memory_dump` over records that are passed over, with its second
        look at the subtype.  `mid` is how far the window was filled then, if it had moved. */
    method SkipRecords(pfx: nat, handled: set<char>, ghost t: Turn) returns (r: Skip, ghost mid: nat)
      requires Valid() && Here() == t.p && Kept(t, pfx)
      modifies this`idx, this`len, this`pos, buf
      ensures Valid() && Here() == old(Here()) && Steady() && mid <= len
      ensures forall m :: idx == old(idx) || m == mid ==> r == SkipBy(input, MidAt(t, m), pfx, handled)
      ensures idx == old(idx) ==> r == SkipOmitted(input, Here(), pfx, handled)
      ensures r.SkipTo? ==> Kept(t, r.pfx)
    {
      hide Mirrors, SkipOnce, NvKind, SkipBy, Misfires, Straddling, SameSearch;
      SearchHere(input, t, pfx, handled);
      var at, nv := pfx, 0;
      r, nv := SkipRecord(at, handled, t);
      mid := if idx == old(idx) then 0 else len;
      LookedEither(t, at, r, nv, mid);
      SearchMoved(input, t, pfx, at, handled, true, 0, mid);
      while r.SkipOver?
        invariant Valid() && Here() == old(Here()) && Steady() && mid <= len
        invariant r == SkipOnce(input, Here(), at, handled)
        invariant SameSearch(input, t, pfx, at, handled, idx == old(idx), mid)
        invariant idx == old(idx) ==>
                    SkipOmitted(input, Here(), pfx, handled) == SkipOmitted(input, Here(), at, handled)
        invariant r.SkipTo? || r.SkipNone? ==> Kept(t, at)
        invariant r.SkipOver? ==> Looked(t, at, r.size, nv, mid)
        invariant r.SkipOver? && idx == old(idx) ==> !Straddling(t, at, r.size)
        decreases |input| - at
      {
        SkipOverSize(input, Here(), at, handled);
        if buf[nv + 1] as char == 'o' {
          MisfireStraddles(input, t, mid, at, r.size);
          SearchEnds(input, t, pfx, at, handled, idx == old(idx), mid, SkipTo(at + r.size));
          r := SkipTo(at + r.size);
          return;
        }
        MisfireStraddles(input, t, mid, at, r.size);
        SearchOver(input, t, pfx, at, handled, idx == old(idx), mid);
        at := at + r.size;
        ghost var was, fill := idx, mid;
        r, nv := SkipRecord(at, handled, t);
        mid := if idx == was then mid else len;
        LookedEither(t, at, r, nv, mid);
        if idx != was {
          SearchMoved(input, t, pfx, at, handled, was == old(idx), fill, mid);
        }
      }
      SearchEnds(input, t, pfx, at, handled, idx == old(idx), mid, r);
    }

    /** The pointers a handler gets for a dump; the address is read through the header
        pointer, which the loading of the data may have left behind. */
    method Describe(d: nat, head: nat, size: nat, pfx: nat, nv: bool) returns (a: Arg)
      requires Valid() && HeadBase(nv) <= head < size && d + head <= BUF && pfx + idx + size <= len
      requires var r := DumpBody(input, Here(), pfx, nv);
               r.GotDump? && r.head == head && r.size == size
      ensures d == pfx + idx ==> ShowsDump(input, pos - len, len, a, DumpBody(input, Here(), pfx, nv).dump)
    {
      hide Mirrors, DumpBody;
      var addr := buf[d + AddrAt(nv)..d + AddrAt(nv) + 8];
      a := Arg(addr, if nv then Some(d + 10) else None, pfx + idx + head);
      BodyShown(input, Here(), pfx, nv, pos - len, len, idx);
      if d == pfx + idx {
        MirrorSlice(buf[..], len, input, pos - len, d + AddrAt(nv), d + AddrAt(nv) + 8);
        assert addr == buf[..][d + AddrAt(nv)..d + AddrAt(nv) + 8];
      }
    }

    /** Loading a dump whose header is at `at` and describing it.  The description can
        be trusted as long as the window is still where it was at the call. */
    method LoadDescribed(at: nat, nv: bool) returns (stop: Option<Reason>, a: Arg, size: nat)
      requires Valid()
      modifies this`idx, this`len, this`pos, buf
      ensures Valid() && Here() == old(Here()) && Steady()
      ensures var r := DumpBody(input, Here(), at, nv);
              if r.BadDump? then stop == Some(r.reason)
              else
                && stop == None && r.GotDump? && size == r.size && at + idx + size <= len
                && (idx == old(idx) || old(idx + at) + size > old(len))
                && (idx == old(idx) ==> ShowsDump(input, pos - len, len, a, r.dump))
    {
      hide Mirrors, DumpBody, ShowsDump;
      var d, head;
      stop, d, head, size := LoadBody(at, nv);
      if stop.None? {
        a := Describe(d, head, size, at, nv);
      } else {
        a := Arg([], None, 0);
      }
    }

    method LoadHeadPlace(pfx: nat, nv: bool, handled: set<char>, ghost t: Turn) returns (r: Skip, ghost mid: nat)
      requires Valid() && Here() == t.p && Kept(t, pfx)
      modifies this`idx, this`len, this`pos, buf
      ensures Valid() && Here() == old(Here()) && Steady() && mid <= len
      ensures forall m :: idx == old(idx) || m == mid ==> r == FindHeadBy(input, MidAt(t, m), pfx, nv, handled)
      ensures idx == old(idx) ==> r == FindHead(input, Here(), pfx, nv, handled)
      ensures r.SkipTo? ==> Kept(t, r.pfx)
    {
      hide Mirrors, SkipOmitted, SkipBy;
      mid := 0;
      if nv {
        r, mid := SkipRecords(pfx, handled, t);
      } else {
        var stop := Load(1, pfx);
        if stop.Some? {
          r := if stop.value.Eof? then SkipNone else SkipBad(stop.value);
          return;
        }
        var c := ReadByte(pfx + idx);
        r := if c as char == 'y' then SkipTo(pfx) else SkipNone;
      }
    }

    /** `load_memory_dump_v2` and `load_memory_dump`; `d` is what the search comes to. */
    method LoadDump(pfx: nat, nv: bool, handled: set<char>, ghost t: Turn)
      returns (stop: Option<Reason>, found: bool, a: Arg, size: nat, ghost d: DumpAt, ghost mid: nat)
      requires Valid() && Here() == t.p && Kept(t, pfx)
      modifies this`idx, this`len, this`pos, buf
      ensures Valid() && Here() == old(Here()) && Steady() && mid <= len
      ensures forall m :: idx == old(idx) || m == mid ==> d == FindDumpBy(input, MidAt(t, m), pfx, nv, handled)
      ensures idx == old(idx) ==> d == FindDump(input, Here(), pfx, nv, handled)
      ensures stop == (if d.BadDump? then Some(d.reason) else None) && found == d.GotDump?
      ensures found ==>
                && size == d.size && pfx + idx + size <= len && Kept(t, pfx + size)
                && (idx == old(idx) ==> ShowsDump(input, pos - len, len, a, d.dump))
    {
      hide Mirrors, FindHead, FindHeadBy, DumpBody;
      stop, found, a, size := None, false, Arg([], None, 0), 0;
      var head;
      head, mid := LoadHeadPlace(pfx, nv, handled, t);
      mid := if idx == old(idx) then 0 else mid;
      assert head == FindHeadBy(input, MidAt(t, mid), pfx, nv, handled);
      match head {
        case SkipNone => d := NoDump;
        case SkipBad(reason) =>
          stop := Some(reason);
          d := BadDump(reason);
        case SkipTo(at) =>
          d := DumpBody(input, Here(), at, nv);
          stop, a, size := LoadDescribed(at, nv);
          found, size := stop.None?, at - pfx + size;
          d := if d.GotDump? then d.(size := at - pfx + d.size) else d;
      }
    }

    /** The loop that collects the dumps of an ioctl; `ds` is what the round comes to. */
    method LoadArgs(size: nat, nv: bool, handled: set<char>, ghost t: Turn)
      returns (stop: Option<Reason>, args: seq<Arg>, pfx: nat, ghost round: Dumps, ghost mid: nat)
      requires Valid() && size + idx <= len && Here() == t.p && Kept(t, size)
      modifies this`idx, this`len, this`pos, buf
      ensures Valid() && Here() == old(Here()) && Steady() && mid <= len
      ensures forall m :: idx == old(idx) || m == mid ==> round == DumpsBy(input, MidAt(t, m), size, nv, handled, [])
      ensures idx == old(idx) ==> round == DumpsFrom(input, Here(), size, nv, handled, [])
      ensures stop == if round.BadDumps? then Some(round.reason) else None
      ensures stop.None? ==>
                && pfx == round.pfx && pfx + idx <= len
                && (idx == old(idx) ==> ShowAll(input, pos - len, len, args, round.list))
    {
      hide FindDump, FindDumpBy, DumpsFrom, DumpsBy, SameRound, Mirrors, ShowAll, ShowsDump, Kept;
      args, pfx, mid := [], size, 0;
      ghost var ds: seq<Dump> := [];
      ShowNone(input, pos - len, len);
      RoundHere(input, t, size, nv, handled);
      var more := true;
      while more
        invariant Valid() && Here() == old(Here()) && Steady() && pfx + idx <= len && mid <= len
        invariant |ds| <= MaxArgs(nv) && |args| == |ds| && (more ==> Kept(t, pfx))
        invariant idx == old(idx) ==> ShowAll(input, pos - len, len, args, ds)
        invariant SameRound(input, t, size, pfx, nv, handled, ds, more, idx == old(idx), mid)
        invariant idx == old(idx) ==>
                    DumpsFrom(input, Here(), size, nv, handled, []) ==
                    (if more then DumpsFrom(input, Here(), pfx, nv, handled, ds) else Dumps(ds, pfx))
        invariant more ==> |ds| < MaxArgs(nv)
        decreases MaxArgs(nv) - |ds|, more
      {
        ghost var n, at, was, fill := len, pos - len, idx, mid;
        DumpsStep(input, Here(), pfx, nv, handled, ds);
        var found, a, size2;
        ghost var d, mid2;
        stop, found, a, size2, d, mid2 := LoadDump(pfx, nv, handled, t);
        mid := if idx == was then mid else mid2;
        if idx != was {
          RoundMoved(input, t, size, pfx, nv, handled, ds, was == old(idx), fill, mid);
        }
        RoundStep(input, t, size, pfx, nv, handled, ds, idx == old(idx), mid, d);
        if stop.Some? {
          round := BadDumps(stop.value);
          return;
        }
        if idx == old(idx) {
          ShowGrown(input, at, n, len, args, ds);
        }
        if found {
          if idx == old(idx) {
            ShowMore(input, at, len, len, args, ds, a, d.dump);
          }
          args, ds, pfx := args + [a], ds + [d.dump], pfx + size2;
          more := |args| < MaxArgs(nv);
        } else {
          more := false;
        }
      }
      stop, round := None, Dumps(ds, pfx);
      RoundOver(input, t, size, pfx, nv, handled, ds, idx == old(idx), mid);
    }

    method FollowBuf(off: nat, ghost v: seq<Byte>) returns (r: seq<Byte>)
      requires Valid() && Shows(input, pos - len, len, off, v)
      ensures r == v
    {
      hide Mirrors, Le32;
      r := MmtBuf(buf[..], off);
      MirrorMmtBuf(buf[..], len, input, pos - len, off);
    }

    /** What a handler reads through its pointers. */
    method Follow(a: Arg, ghost e: Dump) returns (d: Dump)
      requires Valid() && ShowsDump(input, pos - len, len, a, e)
      ensures d == e
    {
      hide Mirrors, Shows;
      var name := [];
      if a.name.Some? {
        name := FollowBuf(a.name.value, e.name);
      }
      var data := FollowBuf(a.data, e.data);
      d := Dump(a.addr, name, data);
    }

    method FollowAll(args: seq<Arg>, ghost ds: seq<Dump>) returns (r: seq<Dump>)
      requires Valid() && ShowAll(input, pos - len, len, args, ds)
      ensures r == ds
    {
      hide Mirrors;
      r := [];
      for i := 0 to |args|
        invariant r == ds[..i]
      {
        assert ShowsDump(input, pos - len, len, args[i], ds[i]);
        var d := Follow(args[i], ds[i]);
        r := r + [d];
      }
    }

    /** One round of the retry loop.  `settled` says that the record pointer is still
        what it was before the dumps were loaded. */
    method TryIoctl(sh: Shape, nv: bool, handled: set<char>, ghost t: Turn)
      returns (stop: Option<Reason>, settled: bool, rec: Record, adv: nat, ghost mid: nat)
      requires Valid() && OkShape(sh) && t.p == Here() && t.idx == idx && t.len == len
      modifies this`idx, this`len, this`pos, buf
      ensures Valid() && Here() == old(Here()) && Steady() && mid <= len
      ensures !settled ==> idx == 0 && old(idx) > 0
      ensures stop == RoundFails(input, MidAt(t, mid), sh, nv, handled)
      ensures stop.None? && settled ==>
                adv + idx <= len && IoctlAt(input, Here(), sh, nv, handled) == Rec(rec, Here() + adv)
    {
      hide Mirrors, DumpsFrom, DumpsBy, SizeAt, ShowAll, Need;
      stop, settled, rec, adv, mid := None, true, Record([], []), 0, 0;
      var r := LoadRecord(sh, 0);
      if r.NoSize? {
        stop := Some(r.reason);
        return;
      }
      var ctl, args := idx, [];
      ghost var round;
      stop, args, adv, round, mid := LoadArgs(r.size, nv, handled, t);
      if stop.Some? {
        return;
      }
      var again := Load(r.size, 0);
      settled := ctl == idx;
      if settled {
        var body := ReadBytes(ctl, r.size);
        var dumps := FollowAll(args, round.list);
        rec := Record(body, dumps);
      }
    }

    /** The retry loop of the ioctl handlers.  It goes round at most twice.  Unless the first
        round ends the program, every pointer then shows the bytes of this record and its
        dumps. */
    method LoadIoctl(sh: Shape, nv: bool, handled: set<char>, ghost t: Turn)
      returns (stop: Option<Reason>, rec: Record, adv: nat, ghost rounds: nat, ghost mid: nat)
      requires Valid() && OkShape(sh) && t.p == Here() && t.idx == idx && t.len == len
      modifies this`idx, this`len, this`pos, buf
      ensures Valid() && Here() == old(Here()) && Steady() && rounds <= 2 && mid <= len
      ensures stop.None? ==> adv + idx <= len
      ensures IoctlSeen(input, MidAt(t, mid), sh, nv, handled) ==
              if stop.Some? then Fail(stop.value) else Rec(rec, Here() + adv)
    {
      hide IoctlAt, Mirrors, RoundFails;
      rounds := 1;
      var settled;
      stop, settled, rec, adv, mid := TryIoctl(sh, nv, handled, t);
      while stop.None? && !settled
        invariant Valid() && Here() == old(Here()) && Steady() && 1 <= rounds <= 2 && mid <= len
        invariant !settled ==> idx == 0 && rounds == 1
        invariant stop.None? ==> RoundFails(input, MidAt(t, mid), sh, nv, handled) == None
        invariant stop.Some? ==> IoctlSeen(input, MidAt(t, mid), sh, nv, handled) == Fail(stop.value)
        invariant stop.None? && settled ==>
          adv + idx <= len && IoctlAt(input, Here(), sh, nv, handled) == Rec(rec, Here() + adv)
        decreases 2 - rounds
      {
        rounds := rounds + 1;
        ghost var u, mid2 := Turn(Here(), idx, len, 0, 0, 0), 0;
        stop, settled, rec, adv, mid2 := TryIoctl(sh, nv, handled, u);
        FrontRound(input, MidAt(u, mid2), sh, nv, handled);
      }
    }

    /** What the handler of a dump that stands alone reads through its two pointers. */
    method ReadMemory(header: nat, head: nat) returns (dump: Dump)
      requires Valid() && header + 14 <= BUF
      requires var r := DumpBody(input, Here(), 0, true);
               r.GotDump? && r.head == head && idx + r.size <= len
      ensures var d := DumpBody(input, Here(), 0, true).dump;
              dump == SeenAt(buf[..], header, d.data) && (header == idx ==> dump == d)
    {
      hide Mirrors, DumpBody, Le32;
      ghost var r := DumpBody(input, Here(), 0, true);
      BodyShown(input, Here(), 0, true, pos - len, len, idx);
      var data := FollowBuf(idx + head, r.dump.data);
      dump := SeenAt(buf[..], header, data);
      if header == idx {
        MirrorSlice(buf[..], len, input, pos - len, header + 2, header + 10);
        MirrorMmtBuf(buf[..], len, input, pos - len, header + 10);
      }
    }

    /** `load_memory_dump` for a dump that stands alone.  There is no retry here: the
        header pointer is the record's own exactly when the record did not straddle
        the end of the window; otherwise it is the place the header had before. */
    method LoadMemory() returns (stop: Option<Reason>, dump: Dump, adv: nat, header: nat)
      requires Valid()
      modifies this`idx, this`len, this`pos, buf
      ensures Valid() && Here() == old(Here())
      ensures var r := DumpBody(input, Here(), 0, true);
              if r.BadDump? then stop == Some(r.reason)
              else
                && stop == None && r.GotDump? && adv == r.size && adv + idx <= len
                && (header == idx <==> !Straddles(old(idx), old(len), r.head, r.size))
                && idx == (if old(idx) + r.size <= old(len) then old(idx) else 0)
                && (old(idx) + r.size <= old(len) ==> len == old(len))
                && (header == idx ==> dump == r.dump)
                && (header != idx ==>
                      && idx == 0 && header == old(idx) && header + 14 <= BUF
                      && Leftovers(input, Turn(Here(), old(idx), old(len), 0, len, 0), buf[..])
                      && dump == SeenAt(buf[..], header, r.dump.data))
    {
      hide Mirrors, DumpBody;
      ghost var b, at := buf[..], pos - len;
      var head;
      stop, header, head, adv := LoadBody(0, true);
      if stop.Some? {
        dump := Dump([], [], []);
      } else {
        dump := ReadMemory(header, head);
        if header != idx {
          MirrorAll(b, old(len), input, at);
        }
      }
    }

    /** Looking at the type of the next record, and at the subtype of an 'n' record. */
    method LoadKind() returns (stop: Option<Delivery>, kind: Kind)
      requires Valid()
      modifies this`idx, this`len, this`pos, buf
      ensures Valid() && Here() == old(Here()) && OkKind(kind)
      ensures idx > 0 || old(idx) + 2 <= old(len) ==> idx == old(idx) && len == old(len)
      ensures if Here() >= |input| then stop == Some(Done)
              else if input[Here()] as char == 'n' && Here() + 2 > |input| then stop == Some(Failed(Eof))
              else stop == None && kind == KindAt(input, Here())
    {
      hide Mirrors, TopKind, NvKind;
      kind := BadKind;
      stop := None;
      var eof := Load(1, 0);
      if eof.Some? {
        stop := Some(Done);
        return;
      }
      var t := ReadByte(idx);
      if t as char == 'n' {
        eof := Load(2, 0);
        if eof.Some? {
          stop := Some(Failed(eof.value));
          return;
        }
        var u := ReadByte(idx + 1);
        kind := NvKind(u);
      } else {
        kind := TopKind(t);
      }
    }

    /** The outcome of a turn that starts as `t` says, for what is found in it. */
    ghost predicate Outcome(t: Turn, p: Parsed, r: Delivery)
      reads this, buf
      requires Valid() && t.p < |input|
    {
      if p.Rec? then
        && r.Got? && Here() == p.next && Delivered(input, t, r.record, p.record)
        && p.next >= t.p && Passed(t, p.next - t.p, KindAt(input, t.p).Ioctl?)
      else Here() == t.p && r == if p.Fail? then Failed(p.reason) else Done
    }

    method DeliverPlain(sh: Shape) returns (r: Delivery)
      requires Valid() && Here() < |input| && KindAt(input, Here()) == Plain(sh)
      modifies this`idx, this`len, this`pos, buf
      ensures Valid()
      ensures forall mid ::
                Outcome(Turn(old(Here()), old(idx), old(len), mid, len, idx),
                        RecordAt(input, old(Here()), Plain(sh), {}), r)
    {
      hide Mirrors, SizeAt, Leftovers, SeenAt, KindAt;
      var size := LoadRecord(sh, 0);
      if size.NoSize? {
        r := Failed(size.reason);
      } else {
        var body := ReadBytes(idx, size.size);
        idx := idx + size.size;
        r := Got(Record(body, []));
      }
    }

    method DeliverIoctl(sh: Shape, nv: bool, handled: set<char>) returns (r: Delivery, ghost mid: nat)
      requires Valid() && Here() < |input| && KindAt(input, Here()) == Ioctl(sh, nv)
      modifies this`idx, this`len, this`pos, buf
      ensures Valid() && mid <= len
      ensures var t := Turn(old(Here()), old(idx), old(len), mid, len, idx);
              Outcome(t, IoctlSeen(input, t, sh, nv, handled), r)
    {
      hide Mirrors, IoctlSeen, Leftovers, SeenAt, KindAt;
      ghost var t := Turn(Here(), idx, len, 0, 0, 0);
      var stop, rec, adv;
      ghost var rounds;
      stop, rec, adv, rounds, mid := LoadIoctl(sh, nv, handled, t);
      idx := if stop.Some? then idx else idx + adv;
      SeenAlike(input, MidAt(t, mid), sh, nv, handled, len, idx);
      r := if stop.Some? then Failed(stop.value) else Got(rec);
    }

    method DeliverMemory() returns (r: Delivery)
      requires Valid() && Here() < |input| && KindAt(input, Here()).BareDump?
      modifies this`idx, this`len, this`pos, buf
      ensures Valid()
      ensures forall mid ::
                Outcome(Turn(old(Here()), old(idx), old(len), mid, len, idx),
                        RecordAt(input, old(Here()), BareDump, {}), r)
    {
      hide Mirrors, DumpBody, Leftovers, SeenAt, KindAt;
      var stop, dump, adv, header := LoadMemory();
      if stop.Some? {
        r := Failed(stop.value);
      } else {
        if header != idx {
          LeftoversAlike(input, Turn(Here(), old(idx), old(len), 0, len, 0), buf[..], idx + adv);
        }
        idx := idx + adv;
        r := Got(Memory(dump));
      }
    }

    /** The handlers, by kind of record. */
    method Deliver(kind: Kind, handled: set<char>) returns (r: Delivery, ghost mid: nat)
      requires Valid() && Here() < |input| && kind == KindAt(input, Here())
      modifies this`idx, this`len, this`pos, buf
      ensures Valid() && mid <= len
      ensures var t := Turn(old(Here()), old(idx), old(len), mid, len, idx);
              Outcome(t, RecordSeen(input, t, kind, handled), r)
    {
      hide Mirrors, DumpBody, IoctlSeen, SizeAt, Delivered, KindAt, Passed;
      mid := 0;
      match kind
      case BadKind => r := Failed(UnknownType);
      case TextKind => r := Failed(TextRecord);
      case Plain(sh) => r := DeliverPlain(sh);
      case Ioctl(sh, nv) => r, mid := DeliverIoctl(sh, nv, handled);
      case BareDump => r := DeliverMemory();
    }

    /** One turn of `mmt_decode`. */
    method DecodeOne(handled: set<char>) returns (r: Delivery, ghost mid: nat)
      requires Valid()
      modifies this`idx, this`len, this`pos, buf
      ensures Valid() && mid <= len
      ensures var t := Turn(old(Here()), old(idx), old(len), mid, len, idx);
              var p := ParseSeen(input, t, handled);
              if p.Rec? then
                && r.Got? && Here() == p.next && Delivered(input, t, r.record, p.record)
                && Passed(t, p.next - t.p, KindAt(input, t.p).Ioctl?)
              else Here() == old(Here()) && r == if p.Fail? then Failed(p.reason) else Done
    {
      hide Mirrors, DumpBody, RecordSeen, RecordAt, Leftovers, SeenAt;
      mid := 0;
      ghost var was := Turn(Here(), idx, len, 0, 0, 0);
      var stop, kind := LoadKind();
      if stop.Some? {
        r := stop.value;
        return;
      }
      ghost var now := Turn(Here(), idx, len, 0, 0, 0);
      r, mid := Deliver(kind, handled);
      was, now := was.(mid := mid, end := len, left := idx), now.(mid := mid, end := len, left := idx);
      ghost var e := ParseSeen(input, now, handled);
      if was != now {
        SeenPlain(input, was, handled);
        SeenPlain(input, now, handled);
      }
      if e.Rec? {
        if was != now {
          NotStale(input, was, now, r.record, e.record);
        }
        TwoBytes(input, was.p, handled);
        PassedKind(was, now, e.next - was.p, KindAt(input, was.p).Ioctl?);
      }
    }

    /** `mmt_decode`: however `read` splits the input, the turns walk through the records
        of the byte string, and what is delivered is the record itself, or a dump that stands
        alone whose header is read where `Delivered` says.  All records are delivered, and
        the run ends as the string says, exactly if no turn is fatal; only the last one can
        be.  It is not if nothing is passed over in the search for dumps. */
    method Decode(handled: set<char>)
      returns (records: seq<Record>, failure: Option<Reason>, ghost turns: seq<Turn>, ghost last: Turn)
      requires Valid() && Here() == 0
      modifies this`idx, this`len, this`pos, buf
      ensures Valid()
      ensures Walks(input, handled, turns, last.p) && LeftAt(turns, last.idx, last.len) && Placed(input, last)
      ensures EndsWith(input, handled, last, failure) && last.mid <= last.end
      ensures var all := ParseAll(input, 0, handled);
              && |records| <= |all.records| && AllDelivered(input, handled, turns, records, all.records[..|records|])
              && (|records| == |all.records| && failure == all.failure <==> !Fatal(input, last, handled))
              && (Quiet(input, 0, handled) ==> !Fatal(input, last, handled))
              && ((forall i :: 0 <= i < |all.records| ==> !all.records[i].Memory?) ==> records <= all.records)
    {
      hide Mirrors, ParseAt, ParseSeen, Delivered, Walks, AllDelivered, Passed, Fatal, Quiet, ParseAll;
      records, turns := [], [];
      ghost var sofar: seq<Record> := [];
      NothingYet(input, handled);
      assert ParseAll(input, 0, handled) == Prepend(sofar, ParseAll(input, 0, handled));
      while true
        invariant Valid() && Here() <= |input|
        invariant Walks(input, handled, turns, Here()) && LeftAt(turns, idx, len)
        invariant AllDelivered(input, handled, turns, records, sofar)
        invariant ParseAll(input, 0, handled) == Prepend(sofar, ParseAll(input, Here(), handled))
        invariant Quiet(input, 0, handled) ==> Quiet(input, Here(), handled)
        decreases |input| - Here()
      {
        ghost var p := ParseAt(input, Here(), handled);
        last := Turn(Here(), idx, len, 0, 0, 0);
        var r;
        ghost var mid;
        r, mid := DecodeOne(handled);
        last := last.(mid := mid, end := len, left := idx);
        SeenUnlessFatal(input, last, handled);
        if Quiet(input, last.p, handled) {
          QuietAlong(input, handled, last);
        }
        if !r.Got? {
          failure := if r.Failed? then Some(r.reason) else None;
          OnlyDumpsDiffer(input, handled, turns, records, sofar);
          LastTurn(input, handled, last, sofar, failure);
          return;
        }
        WalkNext(input, handled, turns, records, sofar, last, r.record);
        ParseStep(input, last.p, handled);
        PrependNext(sofar, p.record, ParseAll(input, p.next, handled));
        turns := turns + [last];
        records, sofar := records + [r.record], sofar + [p.record];
      }
      assert false;
    }
  }

  lemma ParseStep(s: seq<Byte>, p: nat, handled: set<char>)
    ensures var r := ParseAt(s, p, handled);
            r.Rec? ==>
              var rest := ParseAll(s, r.next, handled);
              ParseAll(s, p, handled) == Trace([r.record] + rest.records, rest.failure)
  {
    hide ParseAt;
  }

  /** The run of `StaleHeader`: a first read of twenty bytes, the turn that delivers the
      sync record, and the turn that delivers the dump. */
  method StaleRun() returns (r: Record)
    ensures r.Memory? && r.dump.addr == [7, 8, 0, 0, 0, 0, 1, 0]
    ensures ParseAt(Example(), 6, {}).Rec? && r != ParseAt(Example(), 6, {}).record
  {
    hide ParseAt, ParseSeen, Delivered, Example, Mirrors, DumpBody, KindAt, MmtBuf, Le32;
    ExampleLength();
    var w := new Window(Example());
    w.Take(20);
    ExampleSync(Example(), 0);
    ExampleSyncKind(Example());
    var d;
    ghost var mid;
    forall m, e, l ensures ParseSeen(Example(), Turn(0, 0, 20, m, e, l), {}) == ParseAt(Example(), 0, {}) {
      SeenPlain(Example(), Turn(0, 0, 20, m, e, l), {});
    }
    d, mid := w.DecodeOne({});
    assert w.idx == 6 && w.len == 20;
    ExampleDump(Example(), 6);
    ExampleKind(Example(), 6);
    forall m, e, l ensures ParseSeen(Example(), Turn(6, 6, 20, m, e, l), {}) == ParseAt(Example(), 6, {}) {
      OtherSeen(Example(), Turn(6, 6, 20, m, e, l), {});
    }
    d, mid := w.DecodeOne({});
    r := d.record;
    StaleHeader(Example(), Turn(6, 6, 20, mid, w.len, w.idx), r);
  }
}
