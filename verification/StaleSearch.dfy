/** The search for the dumps of an ioctl as `load_memory_dump` does it
    (`demmt/mmt_bin_decode_nvidia.c`): a record that is passed over is loaded, which may
    move the window, and then the loop looks once more at the subtype through the pointer
    that it took before.  What it finds there can end the search where there is no dump. */
module StaleSearch {
  import opened Options
  import opened Stream

  /** One turn of the main loop: the place in the stream, the window at its start, how far
      the window was filled when a record passed over had moved it, how far it is filled at
      the end, and the place in it that is left for the next turn. */
  datatype Turn = Turn(p: nat, idx: nat, len: nat, mid: nat, end: nat, left: nat)

  function MidAt(t: Turn, m: nat): Turn { t.(mid := m) }

  // ---------------------------------------------------------------------
  // The second look
  // ---------------------------------------------------------------------

  /** The window at the start of the turn holds the subtype of the record at distance `pfx`
      but not the whole record, and is not at the front: loading the record moves it. */
  predicate Straddling(t: Turn, pfx: nat, size: nat) {
    t.idx > 0 && t.idx + pfx + 2 <= t.len < t.idx + pfx + size
  }

  /** Then the subtype is looked at where it was, and an 'o' has come to stand there: a byte
      of the record itself, or one that was read behind it. */
  predicate Misfires(s: seq<Byte>, t: Turn, pfx: nat, size: nat) {
    var q := t.idx + pfx + 1;
    Straddling(t, pfx, size) && (q < pfx + size || q < t.mid) && t.p + q < |s| && s[t.p + q] as char == 'o'
  }

  lemma MisfireStraddles(s: seq<Byte>, t: Turn, mid: nat, pfx: nat, size: nat)
    ensures Misfires(s, MidAt(t, mid), pfx, size) ==> Straddling(t, pfx, size)
  {
  }

  /** The search as it is done in the turn. */
  function SkipBy(s: seq<Byte>, t: Turn, pfx: nat, handled: set<char>): (r: Skip)
    ensures !r.SkipOver? && (r.SkipTo? ==> r.pfx >= pfx)
    decreases |s| - pfx
  {
    var once := SkipOnce(s, t.p, pfx, handled);
    if !once.SkipOver? then once
    else if Misfires(s, t, pfx, once.size) then SkipTo(pfx + once.size)
    else SkipBy(s, t, pfx + once.size, handled)
  }

  function FindHeadBy(s: seq<Byte>, t: Turn, pfx: nat, nv: bool, handled: set<char>): (r: Skip)
    ensures !r.SkipOver? && (r.SkipTo? ==> r.pfx >= pfx)
  {
    if nv then SkipBy(s, t, pfx, handled) else FindHead(s, t.p, pfx, nv, handled)
  }

  function FindDumpBy(s: seq<Byte>, t: Turn, pfx: nat, nv: bool, handled: set<char>): (r: DumpAt)
    ensures r.GotDump? ==> r.size > 0 && t.p + pfx + r.size <= |s| && pfx + r.size <= BUF
  {
    match FindHeadBy(s, t, pfx, nv, handled)
    case SkipNone => NoDump
    case SkipBad(reason) => BadDump(reason)
    case SkipTo(at) =>
      var body := DumpBody(s, t.p, at, nv);
      if body.GotDump? then body.(size := at - pfx + body.size) else body
  }

  /** All dumps of a round. */
  function DumpsBy(s: seq<Byte>, t: Turn, pfx: nat, nv: bool, handled: set<char>, got: seq<Dump>): (r: Dumps)
    requires |got| <= MaxArgs(nv)
    decreases MaxArgs(nv) - |got|
  {
    if |got| == MaxArgs(nv) then Dumps(got, pfx)
    else
      var d := FindDumpBy(s, t, pfx, nv, handled);
      if d.NoDump? then Dumps(got, pfx)
      else if d.BadDump? then BadDumps(d.reason)
      else DumpsBy(s, t, pfx + d.size, nv, handled, got + [d.dump])
  }

  /** One turn of the loop that collects them. */
  predicate DumpsNext(s: seq<Byte>, t: Turn, pfx: nat, nv: bool, handled: set<char>, got: seq<Dump>)
    requires |got| < MaxArgs(nv)
  {
    var d := FindDumpBy(s, t, pfx, nv, handled);
    && DumpsBy(s, t, pfx, nv, handled, got) ==
       (if d.NoDump? then Dumps(got, pfx)
        else if d.BadDump? then BadDumps(d.reason)
        else DumpsBy(s, t, pfx + d.size, nv, handled, got + [d.dump]))
    && (d.GotDump? && |got| + 1 == MaxArgs(nv) ==>
          DumpsBy(s, t, pfx, nv, handled, got) == Dumps(got + [d.dump], pfx + d.size))
  }

  /** The round from `a` comes to what it comes to from `b` on with `got`, or to `got`. */
  ghost predicate SameRound(s: seq<Byte>, t: Turn, a: nat, b: nat, nv: bool, handled: set<char>, got: seq<Dump>,
                            more: bool, still: bool, mid: nat)
    requires |got| <= MaxArgs(nv)
  {
    forall m :: still || m == mid ==>
      DumpsBy(s, MidAt(t, m), a, nv, handled, []) ==
      if more then DumpsBy(s, MidAt(t, m), b, nv, handled, got) else Dumps(got, b)
  }

  lemma RoundHere(s: seq<Byte>, t: Turn, a: nat, nv: bool, handled: set<char>)
    ensures SameRound(s, t, a, a, nv, handled, [], true, true, 0)
  {
  }

  lemma RoundMoved(s: seq<Byte>, t: Turn, a: nat, b: nat, nv: bool, handled: set<char>, got: seq<Dump>,
                   still: bool, mid: nat, mid': nat)
    requires |got| <= MaxArgs(nv)
    requires SameRound(s, t, a, b, nv, handled, got, true, still, mid) && (still || mid' == mid)
    ensures SameRound(s, t, a, b, nv, handled, got, true, false, mid')
  {
  }

  lemma RoundOver(s: seq<Byte>, t: Turn, a: nat, b: nat, nv: bool, handled: set<char>, got: seq<Dump>,
                  still: bool, mid: nat)
    requires |got| <= MaxArgs(nv) && SameRound(s, t, a, b, nv, handled, got, false, still, mid)
    ensures forall m :: still || m == mid ==> Dumps(got, b) == DumpsBy(s, MidAt(t, m), a, nv, handled, [])
  {
  }

  /** One more dump, or none, or the end of the program. */
  lemma RoundStep(s: seq<Byte>, t: Turn, a: nat, b: nat, nv: bool, handled: set<char>, got: seq<Dump>,
                  still: bool, mid: nat, d: DumpAt)
    requires |got| < MaxArgs(nv) && SameRound(s, t, a, b, nv, handled, got, true, still, mid)
    requires forall m :: still || m == mid ==> d == FindDumpBy(s, MidAt(t, m), b, nv, handled)
    ensures d.GotDump? ==>
              SameRound(s, t, a, b + d.size, nv, handled, got + [d.dump], |got| + 1 < MaxArgs(nv), still, mid)
    ensures d.NoDump? ==> SameRound(s, t, a, b, nv, handled, got, false, still, mid)
    ensures d.BadDump? ==>
              forall m :: still || m == mid ==> DumpsBy(s, MidAt(t, m), a, nv, handled, []) == BadDumps(d.reason)
  {
    hide FindDumpBy, DumpsBy;
    forall m | still || m == mid ensures DumpsNext(s, MidAt(t, m), b, nv, handled, got) {
      DumpsByStep(s, MidAt(t, m), b, nv, handled, got);
    }
  }

  lemma DumpsByStep(s: seq<Byte>, t: Turn, pfx: nat, nv: bool, handled: set<char>, got: seq<Dump>)
    requires |got| < MaxArgs(nv)
    ensures DumpsNext(s, t, pfx, nv, handled, got)
  {
    hide FindDumpBy;
  }

  /** The search from `a` is the one from `b`, for the fill `mid` and, if the window has not
      moved yet, for every other. */
  ghost predicate SameSearch(s: seq<Byte>, t: Turn, a: nat, b: nat, handled: set<char>, still: bool, mid: nat) {
    forall m :: still || m == mid ==> SkipBy(s, MidAt(t, m), a, handled) == SkipBy(s, MidAt(t, m), b, handled)
  }

  lemma SearchHere(s: seq<Byte>, t: Turn, a: nat, handled: set<char>)
    ensures SameSearch(s, t, a, a, handled, true, 0)
  {
  }

  /** Passing over a record without a misfire. */
  lemma SearchOver(s: seq<Byte>, t: Turn, a: nat, b: nat, handled: set<char>, still: bool, mid: nat)
    requires SameSearch(s, t, a, b, handled, still, mid) && SkipOnce(s, t.p, b, handled).SkipOver?
    requires var size := SkipOnce(s, t.p, b, handled).size;
             (still ==> !Straddling(t, b, size)) && !Misfires(s, MidAt(t, mid), b, size)
    ensures SameSearch(s, t, a, b + SkipOnce(s, t.p, b, handled).size, handled, still, mid)
  {
    hide SkipOnce;
  }

  /** The window has moved, or it was known to have. */
  lemma SearchMoved(s: seq<Byte>, t: Turn, a: nat, b: nat, handled: set<char>, still: bool, mid: nat, mid': nat)
    requires SameSearch(s, t, a, b, handled, still, mid) && (still || mid' == mid)
    ensures SameSearch(s, t, a, b, handled, false, mid')
  {
  }

  /** How the search ends. */
  lemma SearchEnds(s: seq<Byte>, t: Turn, a: nat, b: nat, handled: set<char>, still: bool, mid: nat, r: Skip)
    requires SameSearch(s, t, a, b, handled, still, mid)
    requires var once := SkipOnce(s, t.p, b, handled);
             if once.SkipOver? then !still && Misfires(s, MidAt(t, mid), b, once.size) && r == SkipTo(b + once.size)
             else r == once
    ensures forall m :: still || m == mid ==> r == SkipBy(s, MidAt(t, m), a, handled)
  {
    hide SkipOnce;
  }

  // ---------------------------------------------------------------------
  // What a turn comes to
  // ---------------------------------------------------------------------

  /** Why the first round of the retry loop ends the program, if it does. */
  function RoundFails(s: seq<Byte>, t: Turn, sh: Shape, nv: bool, handled: set<char>): Option<Reason>
    requires OkShape(sh)
  {
    var size := SizeAt(s, t.p, 0, sh);
    if size.NoSize? then Some(size.reason)
    else
      var dumps := DumpsBy(s, t, size.size, nv, handled, []);
      if dumps.BadDumps? then Some(dumps.reason) else None
  }

  /** An ioctl: the round ends the program, or the record goes out as it stands, since a
      round in which the window has moved is repeated. */
  function IoctlSeen(s: seq<Byte>, t: Turn, sh: Shape, nv: bool, handled: set<char>): (r: Parsed)
    requires OkShape(sh)
    ensures r.Rec? ==> t.p < r.next <= |s| && r == IoctlAt(s, t.p, sh, nv, handled)
  {
    var fails := RoundFails(s, t, sh, nv, handled);
    if fails.Some? then Fail(fails.value) else IoctlAt(s, t.p, sh, nv, handled)
  }

  function RecordSeen(s: seq<Byte>, t: Turn, kind: Kind, handled: set<char>): (r: Parsed)
    requires OkKind(kind)
    ensures r.Rec? ==> t.p < r.next <= |s| && r == RecordAt(s, t.p, kind, handled)
    ensures !r.End?
  {
    if kind.Ioctl? then IoctlSeen(s, t, kind.shape, kind.nv, handled) else RecordAt(s, t.p, kind, handled)
  }

  /** The record at `t.p`, as the loader finds it in the turn. */
  function ParseSeen(s: seq<Byte>, t: Turn, handled: set<char>): (r: Parsed)
    ensures r.Rec? ==> t.p < r.next <= |s| && r == ParseAt(s, t.p, handled)
  {
    if t.p >= |s| then End
    else if s[t.p] as char == 'n' && t.p + 2 > |s| then Fail(Eof)
    else RecordSeen(s, t, KindAt(s, t.p), handled)
  }

  // ---------------------------------------------------------------------
  // Where the second look makes no difference
  // ---------------------------------------------------------------------

  /** Nothing from `pfx` on has its subtype in the window that the turn started with, or
      that window is at the front. */
  predicate Behind(t: Turn, pfx: nat) { t.idx == 0 || t.idx + pfx + 2 > t.len }

  lemma {:induction false} SkipByPlain(s: seq<Byte>, t: Turn, pfx: nat, handled: set<char>)
    requires Behind(t, pfx)
    ensures SkipBy(s, t, pfx, handled) == SkipOmitted(s, t.p, pfx, handled)
    decreases |s| - pfx
  {
    hide SkipOnce;
    var once := SkipOnce(s, t.p, pfx, handled);
    if once.SkipOver? {
      SkipOverSize(s, t.p, pfx, handled);
      SkipByPlain(s, t, pfx + once.size, handled);
    }
  }

  lemma SkipOverSize(s: seq<Byte>, p: nat, pfx: nat, handled: set<char>)
    ensures var once := SkipOnce(s, p, pfx, handled);
            once.SkipOver? ==> once.size > 0 && p + pfx + once.size <= |s|
  {
  }

  lemma FindDumpByPlain(s: seq<Byte>, t: Turn, pfx: nat, nv: bool, handled: set<char>)
    requires Behind(t, pfx)
    ensures FindDumpBy(s, t, pfx, nv, handled) == FindDump(s, t.p, pfx, nv, handled)
  {
    hide SkipBy, SkipOmitted, DumpBody;
    SkipByPlain(s, t, pfx, handled);
  }

  lemma {:induction false} DumpsByPlain(s: seq<Byte>, t: Turn, pfx: nat, nv: bool, handled: set<char>, got: seq<Dump>)
    requires Behind(t, pfx) && |got| <= MaxArgs(nv)
    ensures DumpsBy(s, t, pfx, nv, handled, got) == DumpsFrom(s, t.p, pfx, nv, handled, got)
    decreases MaxArgs(nv) - |got|
  {
    hide FindDumpBy, FindDump;
    if |got| < MaxArgs(nv) {
      FindDumpByPlain(s, t, pfx, nv, handled);
      var d := FindDump(s, t.p, pfx, nv, handled);
      if d.GotDump? {
        DumpsByPlain(s, t, pfx + d.size, nv, handled, got + [d.dump]);
      }
    }
  }

  /** A window at the front, or one that does not hold two bytes of the record. */
  lemma SeenPlain(s: seq<Byte>, t: Turn, handled: set<char>)
    requires Behind(t, 0)
    ensures ParseSeen(s, t, handled) == ParseAt(s, t.p, handled)
  {
    hide DumpsBy, DumpsFrom, SizeAt, KindAt;
    if t.p < |s| && KindAt(s, t.p).Ioctl? {
      var kind := KindAt(s, t.p);
      var size := SizeAt(s, t.p, 0, kind.shape);
      if size.Size? {
        DumpsByPlain(s, t, size.size, kind.nv, handled, []);
      }
    }
  }

  /** A round with the window at the front is the search of the stream. */
  lemma FrontRound(s: seq<Byte>, t: Turn, sh: Shape, nv: bool, handled: set<char>)
    requires OkShape(sh) && t.idx == 0
    ensures RoundFails(s, t, sh, nv, handled) ==
            (match IoctlAt(s, t.p, sh, nv, handled) case Fail(reason) => Some(reason) case _ => None)
  {
    hide DumpsBy, DumpsFrom, SizeAt;
    var size := SizeAt(s, t.p, 0, sh);
    if size.Size? {
      DumpsByPlain(s, t, size.size, nv, handled, []);
    }
  }

  /** The end of the turn makes no difference to what is found in it. */
  lemma {:induction false} SkipAlike(s: seq<Byte>, t: Turn, u: Turn, pfx: nat, handled: set<char>)
    requires u == t.(end := u.end, left := u.left)
    ensures SkipBy(s, u, pfx, handled) == SkipBy(s, t, pfx, handled)
    decreases |s| - pfx
  {
    hide SkipOnce;
    var once := SkipOnce(s, t.p, pfx, handled);
    if once.SkipOver? {
      SkipOverSize(s, t.p, pfx, handled);
      SkipAlike(s, t, u, pfx + once.size, handled);
    }
  }

  lemma {:induction false} DumpsAlike(s: seq<Byte>, t: Turn, u: Turn, pfx: nat, nv: bool, handled: set<char>,
                                      got: seq<Dump>)
    requires u == t.(end := u.end, left := u.left) && |got| <= MaxArgs(nv)
    ensures DumpsBy(s, u, pfx, nv, handled, got) == DumpsBy(s, t, pfx, nv, handled, got)
    decreases MaxArgs(nv) - |got|
  {
    hide SkipBy, DumpBody, FindHead;
    if |got| < MaxArgs(nv) {
      SkipAlike(s, t, u, pfx, handled);
      assert FindDumpBy(s, u, pfx, nv, handled) == FindDumpBy(s, t, pfx, nv, handled);
      var d := FindDumpBy(s, t, pfx, nv, handled);
      if d.GotDump? {
        DumpsAlike(s, t, u, pfx + d.size, nv, handled, got + [d.dump]);
      }
    }
  }

  lemma SeenAlike(s: seq<Byte>, t: Turn, sh: Shape, nv: bool, handled: set<char>, end: nat, left: nat)
    requires OkShape(sh)
    ensures IoctlSeen(s, t.(end := end, left := left), sh, nv, handled) == IoctlSeen(s, t, sh, nv, handled)
  {
    hide DumpsBy, IoctlAt, SizeAt;
    var size := SizeAt(s, t.p, 0, sh);
    if size.Size? {
      DumpsAlike(s, t, t.(end := end, left := left), size.size, nv, handled, []);
    }
  }

  // ---------------------------------------------------------------------
  // When a turn is fatal
  // ---------------------------------------------------------------------

  /** Where the search misfires: the distance behind the record passed over, and the dumps
      found before it. */
  datatype Misfire = At(pfx: nat, got: seq<Dump>)

  function MisfireOfSkip(s: seq<Byte>, t: Turn, pfx: nat, handled: set<char>): (r: Option<nat>)
    ensures r.Some? ==> r.value > pfx && t.idx + r.value > t.len
    decreases |s| - pfx
  {
    var once := SkipOnce(s, t.p, pfx, handled);
    if !once.SkipOver? then None
    else if Misfires(s, t, pfx, once.size) then Some(pfx + once.size)
    else MisfireOfSkip(s, t, pfx + once.size, handled)
  }

  /** The first one, following the records that really are there. */
  function MisfireFrom(s: seq<Byte>, t: Turn, pfx: nat, handled: set<char>, got: seq<Dump>): (r: Option<Misfire>)
    requires |got| <= MaxArgs(true)
    ensures r.Some? ==> t.idx + r.value.pfx > t.len && |r.value.got| < MaxArgs(true)
    decreases MaxArgs(true) - |got|
  {
    if |got| == MaxArgs(true) then None
    else
      var at := MisfireOfSkip(s, t, pfx, handled);
      if at.Some? then Some(At(at.value, got))
      else
        var d := FindDump(s, t.p, pfx, true, handled);
        if d.GotDump? then MisfireFrom(s, t, pfx + d.size, handled, got + [d.dump]) else None
  }

  /** What comes of it: the bytes there are taken for a dump, whatever they are, and the
      search goes on behind them. */
  function AfterMisfire(s: seq<Byte>, p: nat, m: Misfire, handled: set<char>): Dumps
    requires |m.got| < MaxArgs(true)
  {
    match DumpBody(s, p, m.pfx, true)
    case BadDump(reason) => BadDumps(reason)
    case NoDump => Dumps(m.got, m.pfx)
    case GotDump(dump, size, _) => DumpsFrom(s, p, m.pfx + size, true, handled, m.got + [dump])
  }

  lemma {:induction false} SkipMisfires(s: seq<Byte>, t: Turn, pfx: nat, handled: set<char>)
    ensures var m := MisfireOfSkip(s, t, pfx, handled);
            SkipBy(s, t, pfx, handled) == if m.Some? then SkipTo(m.value) else SkipOmitted(s, t.p, pfx, handled)
    decreases |s| - pfx
  {
    hide SkipOnce, Misfires;
    var once := SkipOnce(s, t.p, pfx, handled);
    if once.SkipOver? {
      SkipOverSize(s, t.p, pfx, handled);
      if !Misfires(s, t, pfx, once.size) {
        SkipMisfires(s, t, pfx + once.size, handled);
      }
    }
  }

  lemma FindMisfires(s: seq<Byte>, t: Turn, pfx: nat, handled: set<char>)
    ensures var m := MisfireOfSkip(s, t, pfx, handled);
            if m.None? then FindDumpBy(s, t, pfx, true, handled) == FindDump(s, t.p, pfx, true, handled)
            else
              var body := DumpBody(s, t.p, m.value, true);
              FindDumpBy(s, t, pfx, true, handled) ==
              if body.GotDump? then body.(size := m.value - pfx + body.size) else body
  {
    hide SkipBy, SkipOmitted, DumpBody;
    SkipMisfires(s, t, pfx, handled);
  }

  /** A round is the search of the stream, up to the misfire if there is one. */
  lemma {:induction false} RoundMisfires(s: seq<Byte>, t: Turn, pfx: nat, handled: set<char>, got: seq<Dump>)
    requires |got| <= MaxArgs(true)
    ensures var m := MisfireFrom(s, t, pfx, handled, got);
            DumpsBy(s, t, pfx, true, handled, got) ==
            if m.Some? then AfterMisfire(s, t.p, m.value, handled) else DumpsFrom(s, t.p, pfx, true, handled, got)
    decreases MaxArgs(true) - |got|
  {
    hide FindDumpBy, FindDump, DumpBody, MisfireOfSkip;
    if |got| < MaxArgs(true) {
      FindMisfires(s, t, pfx, handled);
      var at := MisfireOfSkip(s, t, pfx, handled);
      if at.Some? {
        var body := DumpBody(s, t.p, at.value, true);
        NeverNothing(s, t.p, at.value);
        if body.GotDump? {
          MisfirePlace(s, t, pfx, handled);
          DumpsByPlain(s, t, at.value + body.size, true, handled, got + [body.dump]);
        }
      } else {
        var d := FindDump(s, t.p, pfx, true, handled);
        if d.GotDump? {
          RoundMisfires(s, t, pfx + d.size, handled, got + [d.dump]);
        }
      }
    }
  }

  lemma MisfirePlace(s: seq<Byte>, t: Turn, pfx: nat, handled: set<char>)
    ensures var m := MisfireOfSkip(s, t, pfx, handled);
            m.Some? ==> m.value > pfx && t.idx + m.value > t.len
  {
  }

  lemma NeverNothing(s: seq<Byte>, p: nat, pfx: nat)
    ensures !DumpBody(s, p, pfx, true).NoDump?
  {
  }

  predicate IsNvIoctl(s: seq<Byte>, p: nat) {
    p + 1 < |s| && KindAt(s, p).Ioctl? && KindAt(s, p).nv && SizeAt(s, p, 0, KindAt(s, p).shape).Size?
  }

  function MisfireAt(s: seq<Byte>, t: Turn, handled: set<char>): Option<Misfire>
    requires IsNvIoctl(s, t.p)
  {
    MisfireFrom(s, t, SizeAt(s, t.p, 0, KindAt(s, t.p).shape).size, handled, [])
  }

  /** The search misfires in the turn, and what it goes on with then ends the program in a
      way that the record does not. */
  predicate Fatal(s: seq<Byte>, t: Turn, handled: set<char>) {
    && IsNvIoctl(s, t.p) && MisfireAt(s, t, handled).Some?
    && |MisfireAt(s, t, handled).value.got| < MaxArgs(true)
    && var after := AfterMisfire(s, t.p, MisfireAt(s, t, handled).value, handled);
       after.BadDumps? && ParseAt(s, t.p, handled) != Fail(after.reason)
  }

  lemma NvIoctlSeen(s: seq<Byte>, t: Turn, handled: set<char>)
    requires IsNvIoctl(s, t.p)
    ensures MisfireAt(s, t, handled).Some? ==> |MisfireAt(s, t, handled).value.got| < MaxArgs(true)
    ensures var m := MisfireAt(s, t, handled);
            ParseSeen(s, t, handled) ==
            if m.Some? && AfterMisfire(s, t.p, m.value, handled).BadDumps?
            then Fail(AfterMisfire(s, t.p, m.value, handled).reason) else ParseAt(s, t.p, handled)
  {
    hide DumpsBy, DumpsFrom, SizeAt, KindAt, AfterMisfire, MisfireFrom;
    var size := SizeAt(s, t.p, 0, KindAt(s, t.p).shape).size;
    RoundMisfires(s, t, size, handled, []);
    KindOfNv(s, t.p);
  }

  lemma KindOfNv(s: seq<Byte>, p: nat)
    requires p < |s|
    ensures KindAt(s, p).Ioctl? && KindAt(s, p).nv ==> s[p] as char == 'n'
    ensures s[p] as char == 'n' && KindAt(s, p).Ioctl? ==> KindAt(s, p).nv && p + 2 <= |s|
  {
  }

  /** A turn finds the record as it is, unless it is fatal; then the program ends for the
      reason found behind the misfire. */
  lemma SeenUnlessFatal(s: seq<Byte>, t: Turn, handled: set<char>)
    ensures Fatal(s, t, handled) <==> ParseSeen(s, t, handled) != ParseAt(s, t.p, handled)
    ensures Fatal(s, t, handled) ==>
              ParseSeen(s, t, handled) == Fail(AfterMisfire(s, t.p, MisfireAt(s, t, handled).value, handled).reason)
  {
    hide AfterMisfire, MisfireAt;
    if IsNvIoctl(s, t.p) {
      hide ParseSeen, ParseAt;
      NvIoctlSeen(s, t, handled);
    } else {
      OtherSeen(s, t, handled);
    }
  }

  lemma OtherSeen(s: seq<Byte>, t: Turn, handled: set<char>)
    requires !IsNvIoctl(s, t.p)
    ensures ParseSeen(s, t, handled) == ParseAt(s, t.p, handled)
  {
    hide DumpsBy, DumpsFrom, SizeAt, KindAt;
    if t.p < |s| && KindAt(s, t.p).Ioctl? {
      KindOfNv(s, t.p);
      var kind := KindAt(s, t.p);
      var size := SizeAt(s, t.p, 0, kind.shape);
      if size.Size? && !kind.nv {
        OldSearch(s, t, size.size, handled, []);
      }
    }
  }

  /** The older format has no records to pass over. */
  lemma {:induction false} OldSearch(s: seq<Byte>, t: Turn, pfx: nat, handled: set<char>, got: seq<Dump>)
    requires |got| <= MaxArgs(false)
    ensures DumpsBy(s, t, pfx, false, handled, got) == DumpsFrom(s, t.p, pfx, false, handled, got)
    decreases MaxArgs(false) - |got|
  {
    hide FindDumpBy, FindDump;
    if |got| < MaxArgs(false) {
      OldFind(s, t, pfx, handled);
      var d := FindDump(s, t.p, pfx, false, handled);
      if d.GotDump? {
        OldSearch(s, t, pfx + d.size, handled, got + [d.dump]);
      }
    }
  }

  lemma OldFind(s: seq<Byte>, t: Turn, pfx: nat, handled: set<char>)
    ensures FindDumpBy(s, t, pfx, false, handled) == FindDump(s, t.p, pfx, false, handled)
  {
    hide DumpBody;
  }

  // ---------------------------------------------------------------------
  // Streams in which nothing is passed over
  // ---------------------------------------------------------------------

  /** No record is passed over in the search for the dumps of an ioctl. */
  predicate Skipless(s: seq<Byte>, p: nat, pfx: nat, handled: set<char>, got: seq<Dump>)
    requires |got| <= MaxArgs(true)
    decreases MaxArgs(true) - |got|
  {
    |got| == MaxArgs(true)
    || (!SkipOnce(s, p, pfx, handled).SkipOver?
        && var d := FindDump(s, p, pfx, true, handled);
           d.GotDump? ==> Skipless(s, p, pfx + d.size, handled, got + [d.dump]))
  }

  predicate QuietAt(s: seq<Byte>, p: nat, handled: set<char>) {
    IsNvIoctl(s, p) ==> Skipless(s, p, SizeAt(s, p, 0, KindAt(s, p).shape).size, handled, [])
  }

  /** So it is for all ioctls of the stream from `p` on. */
  predicate Quiet(s: seq<Byte>, p: nat, handled: set<char>)
    decreases |s| - p
  {
    QuietAt(s, p, handled) && (ParseAt(s, p, handled).Rec? ==> Quiet(s, ParseAt(s, p, handled).next, handled))
  }

  lemma {:induction false} SkiplessNone(s: seq<Byte>, t: Turn, pfx: nat, handled: set<char>, got: seq<Dump>)
    requires |got| <= MaxArgs(true) && Skipless(s, t.p, pfx, handled, got)
    ensures MisfireFrom(s, t, pfx, handled, got) == None
    decreases MaxArgs(true) - |got|
  {
    hide FindDump, SkipOnce;
    if |got| < MaxArgs(true) {
      var d := FindDump(s, t.p, pfx, true, handled);
      if d.GotDump? {
        SkiplessNone(s, t, pfx + d.size, handled, got + [d.dump]);
      }
    }
  }

  lemma QuietIsHarmless(s: seq<Byte>, t: Turn, handled: set<char>)
    requires QuietAt(s, t.p, handled)
    ensures !Fatal(s, t, handled)
  {
    hide Skipless, MisfireFrom, AfterMisfire, ParseAt;
    if IsNvIoctl(s, t.p) {
      SkiplessNone(s, t, SizeAt(s, t.p, 0, KindAt(s, t.p).shape).size, handled, []);
    }
  }

  // ---------------------------------------------------------------------
  // Windows that hold the rest of the stream
  // ---------------------------------------------------------------------

  lemma {:induction false} HeldSkips(s: seq<Byte>, t: Turn, pfx: nat, handled: set<char>)
    requires t.p + t.len == |s| + t.idx
    ensures MisfireOfSkip(s, t, pfx, handled) == None
    decreases |s| - pfx
  {
    hide SkipOnce;
    var once := SkipOnce(s, t.p, pfx, handled);
    if once.SkipOver? {
      SkipOverSize(s, t.p, pfx, handled);
      HeldSkips(s, t, pfx + once.size, handled);
    }
  }

  lemma {:induction false} HeldSearch(s: seq<Byte>, t: Turn, pfx: nat, handled: set<char>, got: seq<Dump>)
    requires t.p + t.len == |s| + t.idx && |got| <= MaxArgs(true)
    ensures MisfireFrom(s, t, pfx, handled, got) == None
    decreases MaxArgs(true) - |got|
  {
    hide FindDump, MisfireOfSkip;
    if |got| < MaxArgs(true) {
      HeldSkips(s, t, pfx, handled);
      var d := FindDump(s, t.p, pfx, true, handled);
      if d.GotDump? {
        HeldSearch(s, t, pfx + d.size, handled, got + [d.dump]);
      }
    }
  }

  /** A turn is not fatal if all that is left of the stream has been read. */
  lemma HeldIsHarmless(s: seq<Byte>, t: Turn, handled: set<char>)
    requires t.p + t.len == |s| + t.idx
    ensures !Fatal(s, t, handled)
  {
    hide MisfireFrom, AfterMisfire, ParseAt, SizeAt, KindAt;
    if IsNvIoctl(s, t.p) {
      HeldSearch(s, t, SizeAt(s, t.p, 0, KindAt(s, t.p).shape).size, handled, []);
    }
  }
}
