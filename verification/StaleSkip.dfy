/** A stream of 32 bytes, and a first read of 23 of them, with which the loader loses an
    ioctl: the second look at a record that was passed over finds a byte of the record. */
module StaleSkip {
  import opened Options
  import opened Stream
  import opened StaleSearch
  import opened Loader

  /** A sync record, an ioctl without data or dumps, and a destroyed object. */
  function Bytes(): seq<Byte> {
    [83, 0, 0, 0, 0, 10,
     110, 105, 0, 0, 0, 0, 0, 0, 0, 0, 0, 0, 0, 0, 10,
     110, 100, 1, 2, 3, 4, 5, 111, 7, 8, 10]
  }

  lemma Contents(s: seq<Byte>)
    requires s == Bytes()
    ensures |s| == 32 && s[0] == 83 && s[5] == 10
    ensures s[6] == 110 && s[7] == 105 && s[16..20] == [0, 0, 0, 0] && s[20] == 10
    ensures s[21] == 110 && s[22] == 100 && s[28] == 111 && s[31] == 10
  {
  }

  lemma IoctlSize(s: seq<Byte>)
    requires s == Bytes()
    ensures KindAt(s, 6) == Ioctl(Len32(15, 10), true) && SizeAt(s, 6, 0, Len32(15, 10)) == Size(15)
  {
    hide LeValue;
    Contents(s);
    LittleEndian(0);
  }

  lemma ObjectSkipped(s: seq<Byte>)
    requires s == Bytes()
    ensures SkipOnce(s, 6, 15, {}) == SkipOver(11) && SkipOnce(s, 6, 26, {}) == SkipNone
  {
    Contents(s);
    assert NvKind(100) == Plain(Fixed(11));
    assert SizeAt(s, 6, 15, Fixed(11)) == Size(11);
  }

  lemma NothingThere(s: seq<Byte>)
    requires s == Bytes()
    ensures DumpBody(s, 6, 26, true) == BadDump(Eof)
  {
    Contents(s);
  }

  /** The three records of the stream: none is a dump that stands alone. */
  lemma ThreeRecords(s: seq<Byte>)
    requires s == Bytes()
    ensures ParseAll(s, 0, {}) ==
            Trace([Record(s[0..6], []), Record(s[6..21], []), Record(s[21..32], [])], None)
  {
    hide ParseAt;
    SyncRecord(s);
    IoctlRecord(s);
    ObjectRecord(s);
    assert ParseAll(s, 32, {}) == Trace([], None);
    assert ParseAll(s, 21, {}) == Trace([Record(s[21..32], [])], None);
    assert ParseAll(s, 6, {}) == Trace([Record(s[6..21], []), Record(s[21..32], [])], None);
  }

  lemma SyncRecord(s: seq<Byte>)
    requires s == Bytes()
    ensures ParseAt(s, 0, {}) == Rec(Record(s[0..6], []), 6) && !KindAt(s, 0).Ioctl?
  {
    Contents(s);
    assert TopKind(s[0]) == Plain(Fixed(6));
    assert SizeAt(s, 0, 0, Fixed(6)) == Size(6);
  }

  lemma IoctlRecord(s: seq<Byte>)
    requires s == Bytes()
    ensures ParseAt(s, 6, {}) == Rec(Record(s[6..21], []), 21)
  {
    hide SkipOnce, KindAt, SizeAt;
    Contents(s);
    IoctlSize(s);
    ObjectSkipped(s);
    assert SkipOmitted(s, 6, 26, {}) == SkipNone;
    assert SkipOmitted(s, 6, 15, {}) == SkipNone;
    assert FindDump(s, 6, 15, true, {}) == NoDump;
    assert DumpsFrom(s, 6, 15, true, {}, []) == Dumps([], 15);
    assert IoctlAt(s, 6, Len32(15, 10), true, {}) == Rec(Record(s[6..21], []), 21);
  }

  lemma ObjectRecord(s: seq<Byte>)
    requires s == Bytes()
    ensures ParseAt(s, 21, {}) == Rec(Record(s[21..32], []), 32) && ParseAt(s, 32, {}) == End
  {
    Contents(s);
    assert NvKind(100) == Plain(Fixed(11));
    assert SizeAt(s, 21, 0, Fixed(11)) == Size(11);
  }

  /** With 23 bytes in the window the turn of the ioctl is fatal, however much is read when
      the object is loaded. */
  lemma LostIoctl(s: seq<Byte>, t: Turn)
    requires s == Bytes() && t.p == 6 && t.idx == 6 && t.len == 23
    ensures Fatal(s, t, {}) && ParseSeen(s, t, {}) == Fail(Eof)
  {
    hide SkipOnce, KindAt, SizeAt, DumpBody, ParseSeen, ParseAt;
    Contents(s);
    IoctlSize(s);
    ObjectSkipped(s);
    NothingThere(s);
    IoctlRecord(s);
    assert Misfires(s, t, 15, 11);
    assert MisfireOfSkip(s, t, 15, {}) == Some(26);
    assert MisfireFrom(s, t, 15, {}, []) == Some(At(26, []));
    assert AfterMisfire(s, 6, At(26, []), {}) == BadDumps(Eof);
    SeenUnlessFatal(s, t, {});
  }

  /** The run: the turn that delivers the sync record, and the turn of the ioctl, which is
      never delivered. */
  method LostRun() returns (r: Delivery)
    ensures r == Failed(Eof) && ParseAt(Bytes(), 6, {}).Rec?
  {
    hide ParseAt, ParseSeen, Bytes, Delivered, Mirrors, KindAt, Fatal;
    Contents(Bytes());
    SyncRecord(Bytes());
    IoctlRecord(Bytes());
    var w := new Window(Bytes());
    w.Take(23);
    ghost var mid;
    forall m, e, l ensures ParseSeen(Bytes(), Turn(0, 0, 23, m, e, l), {}) == ParseAt(Bytes(), 0, {}) {
      SeenPlain(Bytes(), Turn(0, 0, 23, m, e, l), {});
    }
    r, mid := w.DecodeOne({});
    assert w.idx == 6 && w.len == 23;
    forall m, e, l ensures ParseSeen(Bytes(), Turn(6, 6, 23, m, e, l), {}) == Fail(Eof) {
      LostIoctl(Bytes(), Turn(6, 6, 23, m, e, l));
    }
    r, mid := w.DecodeOne({});
  }

  /** In one read of all 32 bytes no turn is fatal. */
  lemma WholeRead(s: seq<Byte>, t: Turn)
    requires s == Bytes() && t.idx == t.p && t.len == 32
    ensures !Fatal(s, t, {})
  {
    hide Fatal;
    Contents(s);
    HeldIsHarmless(s, t, {});
  }
}
