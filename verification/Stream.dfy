/** The binary trace as a plain byte string: the records it holds and where each of
    them starts, by the size rules of `demmt/mmt_bin_decode.c` and
    `demmt/mmt_bin_decode_nvidia.c`. */
module Stream {
  import opened Options

  const BUF: nat := 0x10000
  const EOR: nat := 10

  type Byte = x: nat | x < 256

  /** Why the program gives up (`exit(1)`); `TextRecord` is where this model does. */
  datatype Reason = TooBig | Eof | TooLong | NoEor | UnknownType | TextRecord

  /** What it takes to have `sz` bytes at distance `pfx` from the record at `p`. */
  function Need(n: nat, p: nat, pfx: nat, sz: nat): Option<Reason> {
    if pfx + sz > BUF then Some(TooBig) else if p + pfx + sz > n then Some(Eof) else None
  }

  /** The value of bytes stored least significant first. */
  function LeValue(b: seq<Byte>): nat {
    if b == [] then 0 else
      var low: int := b[0];
      low + 0x100 * LeValue(b[1..])
  }

  function Le32(s: seq<Byte>, at: nat): nat
    requires at + 4 <= |s|
  {
    LeValue(s[at..at + 4])
  }

  /** `struct mmt_buf`: a length and that many bytes, as far as they are there. */
  function MmtBuf(s: seq<Byte>, at: nat): seq<Byte> {
    if at + 4 <= |s| && at + 4 + Le32(s, at) <= |s| then s[at..at + 4 + Le32(s, at)] else []
  }

  // ---------------------------------------------------------------------
  // Record sizes
  // ---------------------------------------------------------------------

  /** Fixed part with the end mark, and where a length is kept if there is one. */
  datatype Shape = Fixed(base: nat) | LenByte(base: nat, at: nat) | Len32(base: nat, at: nat)

  predicate OkShape(sh: Shape) {
    match sh
    case Fixed(base) => base > 1
    case LenByte(base, at) => at + 1 < base
    case Len32(base, at) => at + 4 < base
  }

  datatype Kind = Plain(shape: Shape) | Ioctl(shape: Shape, nv: bool) | BareDump | TextKind | BadKind

  predicate OkKind(k: Kind) {
    match k
    case Plain(sh) => OkShape(sh)
    case Ioctl(sh, _) => OkShape(sh)
    case _ => true
  }

  function TopKind(t: Byte): (k: Kind)
    ensures OkKind(k)
  {
    var c := t as char;
    if c == 'r' || c == 'R' || c == 'w' || c == 'W' then Plain(LenByte(11, 9))
    else if c == 'M' then Plain(Fixed(42))
    else if c == 'm' then Plain(Fixed(30))
    else if c == 'u' then Plain(Fixed(46))
    else if c == 'e' then Plain(Fixed(62))
    else if c == 'o' then Plain(Len32(18, 13))
    else if c == 't' then Plain(Len32(10, 5))
    else if c == 'S' then Plain(Fixed(6))
    else if c == 'd' then Plain(Fixed(10))
    else if c == 'i' then Ioctl(Len32(14, 9), false)
    else if c == 'j' then Ioctl(Len32(30, 25), false)
    else if c == '=' || c == '-' then TextKind
    else BadKind
  }

  function NvKind(t: Byte): (k: Kind)
    ensures OkKind(k)
  {
    var c := t as char;
    if c == 'i' || c == 'j' then Ioctl(Len32(15, 10), true)
    else if c == 'o' then BareDump
    else if c == 'c' || c == '1' then Plain(Len32(19, 14))
    else if c == 'd' || c == 'l' || c == 'b' then Plain(Fixed(11))
    else if c == 'p' || c == 'g' || c == 'H' then Plain(Fixed(23))
    else if c == 't' then Plain(Fixed(15))
    else if c == 'a' || c == 'h' || c == 'e' || c == 'r' then Plain(Fixed(19))
    else if c == 'G' then Plain(Fixed(27))
    else if c == 'M' then Plain(Fixed(59))
    else if c == 'm' then Plain(Fixed(47))
    else if c == 'v' || c == 'x' then Plain(Fixed(7))
    else if c == '4' || c == 'k' || c == 'P' then Plain(Len32(7, 2))
    else BadKind
  }

  /** Records that may stand between an ioctl and its dumps and are skipped there
      when nobody handles them. */
  predicate Omitted(t: Byte, handled: set<char>) {
    var c := t as char;
    || c == 'm'
    || (c in {'c', 'd', 'l', 'p', 't', 'a', 'g', 'G', 'h', 'H', 'e', 'b', 'r', 'v', 'x'} && c !in handled)
  }

  datatype Sizing = Size(size: nat) | NoSize(reason: Reason)

  /** The whole record is there and closed by the end mark. */
  function Closed(s: seq<Byte>, p: nat, pfx: nat, size: nat): (r: Sizing)
    requires size > 0
    ensures r.Size? ==> r.size == size && p + pfx + size <= |s| && pfx + size <= BUF
  {
    var need := Need(|s|, p, pfx, size);
    if need.Some? then NoSize(need.value)
    else if s[p + pfx + size - 1] != EOR then NoSize(NoEor)
    else Size(size)
  }

  /** The length a record at `q` names. */
  function LengthAt(s: seq<Byte>, q: nat, sh: Shape): nat
    requires OkShape(sh) && q + sh.base <= |s|
  {
    match sh
    case Fixed(_) => 0
    case LenByte(_, at) => s[q + at]
    case Len32(_, at) => Le32(s, q + at)
  }

  /** The size of a record of a given shape at distance `pfx` from `p`. */
  function SizeAt(s: seq<Byte>, p: nat, pfx: nat, sh: Shape): (r: Sizing)
    requires OkShape(sh)
    ensures r.Size? ==> r.size >= sh.base && p + pfx + r.size <= |s| && pfx + r.size <= BUF
  {
    var need := Need(|s|, p, pfx, sh.base);
    if need.Some? then NoSize(need.value)
    else
      var n := LengthAt(s, p + pfx, sh);
      if sh.Len32? && n >= BUF then NoSize(TooLong) else Closed(s, p, pfx, sh.base + n)
  }

  // ---------------------------------------------------------------------
  // Memory dumps
  // ---------------------------------------------------------------------

  /** What a handler sees of a dump: the address, the name and the bytes. */
  datatype Dump = Dump(addr: seq<Byte>, name: seq<Byte>, data: seq<Byte>)

  datatype DumpAt = GotDump(dump: Dump, size: nat, head: nat) | NoDump | BadDump(reason: Reason)

  function HeadBase(nv: bool): nat { if nv then 14 else 9 }

  function AddrAt(nv: bool): nat { if nv then 2 else 1 }

  /** The header of a dump: its size, the name included. */
  function HeadSize(s: seq<Byte>, p: nat, pfx: nat, nv: bool): (r: Sizing)
    ensures r.Size? ==> r.size >= HeadBase(nv) && p + pfx + r.size <= |s| && pfx + r.size <= BUF
  {
    var need := Need(|s|, p, pfx, HeadBase(nv));
    if need.Some? then NoSize(need.value)
    else if !nv then Size(9)
    else if Le32(s, p + pfx + 10) >= BUF then NoSize(TooLong)
    else
      var size := 14 + Le32(s, p + pfx + 10);
      var need2 := Need(|s|, p, pfx, size);
      if need2.Some? then NoSize(need2.value) else Size(size)
  }

  /** The data of a dump and the end mark. */
  function DataSize(s: seq<Byte>, p: nat, pfx: nat): (r: Sizing)
    ensures r.Size? ==> r.size >= 5 && p + pfx + r.size <= |s| && pfx + r.size <= BUF
  {
    var need := Need(|s|, p, pfx, 4);
    if need.Some? then NoSize(need.value)
    else if Le32(s, p + pfx) >= BUF then NoSize(TooLong)
    else Closed(s, p, pfx, 4 + Le32(s, p + pfx) + 1)
  }

  function DumpOf(s: seq<Byte>, at: nat, head: nat, nv: bool): Dump
    requires HeadBase(nv) <= head && at + head <= |s|
  {
    Dump(s[at + AddrAt(nv)..at + AddrAt(nv) + 8], if nv then MmtBuf(s, at + 10) else [], MmtBuf(s, at + head))
  }

  function DumpBody(s: seq<Byte>, p: nat, pfx: nat, nv: bool): (r: DumpAt)
    ensures r.GotDump? ==> HeadBase(nv) <= r.head < r.size && p + pfx + r.size <= |s| && pfx + r.size <= BUF
  {
    var head := HeadSize(s, p, pfx, nv);
    if head.NoSize? then BadDump(head.reason)
    else
      var data := DataSize(s, p, pfx + head.size);
      if data.NoSize? then BadDump(data.reason)
      else GotDump(DumpOf(s, p + pfx, head.size, nv), head.size + data.size, head.size)
  }

  datatype Skip = SkipTo(pfx: nat) | SkipNone | SkipBad(reason: Reason) | SkipOver(size: nat)

  /** One turn of the search of `load_memory_dump` for the next 'n','o' record. */
  function SkipOnce(s: seq<Byte>, p: nat, pfx: nat, handled: set<char>): (r: Skip)
    ensures r.SkipTo? ==> r.pfx == pfx && p + pfx + 2 <= |s|
    ensures r.SkipOver? ==> r.size > 0 && p + pfx + r.size <= |s| && pfx + r.size <= BUF
  {
    var need := Need(|s|, p, pfx, 1);
    if need.Some? then if need.value.Eof? then SkipNone else SkipBad(need.value)
    else if s[p + pfx] as char != 'n' then SkipNone
    else
      var need2 := Need(|s|, p, pfx, 2);
      if need2.Some? then SkipBad(need2.value)
      else if s[p + pfx + 1] as char == 'o' then SkipTo(pfx)
      else if !Omitted(s[p + pfx + 1], handled) then SkipNone
      else
        var size := SizeAt(s, p, pfx, NvKind(s[p + pfx + 1]).shape);
        if size.NoSize? then SkipBad(size.reason) else SkipOver(size.size)
  }

  function SkipOmitted(s: seq<Byte>, p: nat, pfx: nat, handled: set<char>): (r: Skip)
    ensures !r.SkipOver? && (r.SkipTo? ==> r.pfx >= pfx)
    decreases |s| - pfx
  {
    var once := SkipOnce(s, p, pfx, handled);
    if once.SkipOver? then SkipOmitted(s, p, pfx + once.size, handled) else once
  }

  /** Where the next dump starts, if there is one. */
  function FindHead(s: seq<Byte>, p: nat, pfx: nat, nv: bool, handled: set<char>): (r: Skip)
    ensures !r.SkipOver? && (r.SkipTo? ==> r.pfx >= pfx)
  {
    if nv then SkipOmitted(s, p, pfx, handled)
    else
      var need := Need(|s|, p, pfx, 1);
      if need.Some? then if need.value.Eof? then SkipNone else SkipBad(need.value)
      else if s[p + pfx] as char == 'y' then SkipTo(pfx)
      else SkipNone
  }

  /** `load_memory_dump_v2` and `load_memory_dump` */
  function FindDump(s: seq<Byte>, p: nat, pfx: nat, nv: bool, handled: set<char>): (r: DumpAt)
    ensures r.GotDump? ==> r.size > 0 && p + pfx + r.size <= |s| && pfx + r.size <= BUF
  {
    match FindHead(s, p, pfx, nv, handled)
    case SkipNone => NoDump
    case SkipBad(reason) => BadDump(reason)
    case SkipTo(at) =>
      var body := DumpBody(s, p, at, nv);
      if body.GotDump? then body.(size := at - pfx + body.size) else body
  }

  datatype Dumps = Dumps(list: seq<Dump>, pfx: nat) | BadDumps(reason: Reason)

  function MaxArgs(nv: bool): nat { if nv then 10 else 20 }

  /** The dumps after an ioctl record, up to the limit. */
  function DumpsFrom(s: seq<Byte>, p: nat, pfx: nat, nv: bool, handled: set<char>, got: seq<Dump>): (r: Dumps)
    requires |got| <= MaxArgs(nv)
    ensures r.Dumps? ==> r.pfx >= pfx && (p + pfx <= |s| ==> p + r.pfx <= |s|)
    decreases MaxArgs(nv) - |got|
  {
    if |got| == MaxArgs(nv) then Dumps(got, pfx)
    else
      var d := FindDump(s, p, pfx, nv, handled);
      if d.NoDump? then Dumps(got, pfx)
      else if d.BadDump? then BadDumps(d.reason)
      else DumpsFrom(s, p, pfx + d.size, nv, handled, got + [d.dump])
  }

  lemma DumpsStep(s: seq<Byte>, p: nat, pfx: nat, nv: bool, handled: set<char>, got: seq<Dump>)
    requires |got| < MaxArgs(nv)
    ensures var d := FindDump(s, p, pfx, nv, handled);
            && DumpsFrom(s, p, pfx, nv, handled, got) ==
               (if d.NoDump? then Dumps(got, pfx)
                else if d.BadDump? then BadDumps(d.reason)
                else DumpsFrom(s, p, pfx + d.size, nv, handled, got + [d.dump]))
            && (d.GotDump? && |got| + 1 == MaxArgs(nv) ==>
                 DumpsFrom(s, p, pfx, nv, handled, got) == Dumps(got + [d.dump], pfx + d.size))
  {
    hide FindDump;
  }

  // ---------------------------------------------------------------------
  // Records
  // ---------------------------------------------------------------------

  datatype Record = Record(body: seq<Byte>, dumps: seq<Dump>) | Memory(dump: Dump)

  datatype Parsed = Rec(record: Record, next: nat) | End | Fail(reason: Reason)

  function KindAt(s: seq<Byte>, p: nat): (k: Kind)
    requires p < |s|
    ensures OkKind(k)
  {
    if s[p] as char != 'n' then TopKind(s[p]) else if p + 1 < |s| then NvKind(s[p + 1]) else BadKind
  }

  /** An ioctl record and its dumps. */
  function IoctlAt(s: seq<Byte>, p: nat, sh: Shape, nv: bool, handled: set<char>): (r: Parsed)
    requires OkShape(sh)
    ensures r.Rec? ==> p < r.next <= |s|
    ensures !r.End?
  {
    var size := SizeAt(s, p, 0, sh);
    if size.NoSize? then Fail(size.reason)
    else
      var dumps := DumpsFrom(s, p, size.size, nv, handled, []);
      if dumps.BadDumps? then Fail(dumps.reason)
      else Rec(Record(s[p..p + size.size], dumps.list), p + dumps.pfx)
  }

  /** A record of a known kind. */
  function RecordAt(s: seq<Byte>, p: nat, kind: Kind, handled: set<char>): (r: Parsed)
    requires OkKind(kind)
    ensures r.Rec? ==> p < r.next <= |s|
    ensures !r.End?
  {
    match kind
    case BadKind => Fail(UnknownType)
    case TextKind => Fail(TextRecord)
    case Plain(sh) =>
      var size := SizeAt(s, p, 0, sh);
      if size.NoSize? then Fail(size.reason) else Rec(Record(s[p..p + size.size], []), p + size.size)
    case Ioctl(sh, nv) => IoctlAt(s, p, sh, nv, handled)
    case BareDump =>
      match DumpBody(s, p, 0, true)
      case BadDump(reason) => Fail(reason)
      case NoDump => Fail(UnknownType)
      case GotDump(dump, size, _) => Rec(Memory(dump), p + size)
  }

  /** The record at `p`. */
  function ParseAt(s: seq<Byte>, p: nat, handled: set<char>): (r: Parsed)
    ensures r.Rec? ==> p < r.next <= |s|
  {
    if p >= |s| then End
    else if s[p] as char == 'n' && p + 2 > |s| then Fail(Eof)
    else RecordAt(s, p, KindAt(s, p), handled)
  }

  datatype Trace = Trace(records: seq<Record>, failure: Option<Reason>)

  /** All the records from `p` on, and how the run ends. */
  function ParseAll(s: seq<Byte>, p: nat, handled: set<char>): Trace
    decreases |s| - p
  {
    match ParseAt(s, p, handled)
    case End => Trace([], None)
    case Fail(reason) => Trace([], Some(reason))
    case Rec(record, next) =>
      var rest := ParseAll(s, next, handled);
      Trace([record] + rest.records, rest.failure)
  }
}
