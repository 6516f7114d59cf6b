/** The binary trace as it is written: the records with their fields, least significant byte
    first, and the end mark.  What the loader's rules of `Stream` parse are exactly these. */
module TraceFormat {
  import opened Options
  import opened Stream

  // ---------------------------------------------------------------------
  // Records and their fields
  // ---------------------------------------------------------------------

  /** The fields of a record, 4 or 8 bytes each. */
  datatype Fields = Done | U32(name: string, next: Fields) | U64(name: string, next: Fields)

  /** What follows the fields: nothing, or bytes with their number in front. */
  datatype Tail = NoTail | Tail8 | Tail32

  datatype Format = Format(fields: Fields, tail: Tail)

  // The fields of the packed structs of `mmt_bin_decode.h`.
  function Access(): Fields { U32("id", U32("offset", Done)) }
  function Access2(): Fields { U64("addr", Done) }
  function Mmap(): Fields { U64("offset", U32("id", U64("start", U64("len", Done)))) }
  function Mmap2(): Fields {
    U64("offset", U32("prot", U32("flags", U32("fd", U32("id", U64("start", U64("len", Done)))))))
  }
  function Unmap(): Fields { U64("offset", U32("id", U64("start", U64("len", U64("data1", U64("data2", Done)))))) }
  function Mremap(): Fields {
    U64("offset", U32("id", U64("old_start", U64("old_len",
        U64("data1", U64("data2", U64("start", U64("len", Done))))))))
  }
  function Open(): Fields { U32("flags", U32("mode", U32("ret", Done))) }
  function WriteSyscall(): Fields { U32("fd", Done) }
  function DupSyscall(): Fields { U32("oldfd", U32("newfd", Done)) }
  function Sync(): Fields { U32("id", Done) }
  function IoctlPreV2(): Fields { U32("fd", U32("id", Done)) }
  function IoctlPostV2(): Fields { U32("fd", U32("id", U64("ret", U64("err", Done)))) }

  // Those of `mmt_bin_decode_nvidia.h`.
  function NvIoctl(): Fields { U32("fd", U32("id", Done)) }
  function CreateObject(): Fields { U32("obj1", U32("obj2", U32("class", Done))) }
  function DestroyObject(): Fields { U32("obj1", U32("obj2", Done)) }
  function CallMethod(): Fields { U32("data1", U32("data2", Done)) }
  function CreateMapped(): Fields { U32("data1", U32("data2", U32("type", U64("mmap_offset", Done)))) }
  function CreateDma(): Fields { U32("name", U32("type", U32("parent", Done))) }
  function AllocMap(): Fields { U32("data1", U32("data2", U64("mmap_offset", Done))) }
  function GpuMap(): Fields { U32("data1", U32("data2", U32("data3", U32("gpu_start", U32("len", Done))))) }
  function GpuMap2(): Fields { U32("data1", U32("data2", U32("data3", U64("gpu_start", U32("len", Done))))) }
  function GpuUnmap(): Fields { U32("data1", U32("data2", U32("data3", U32("gpu_start", Done)))) }
  function GpuUnmap2(): Fields { U32("data1", U32("data2", U32("data3", U64("gpu_start", Done)))) }
  function NvMmap(): Fields { U64("offset", U32("id", U64("start", U64("len", U64("data1", U64("data2", Done)))))) }
  function NvMmap2(): Fields {
    U64("offset", U32("prot", U32("flags", U32("fd", U32("id", U64("start", U64("len",
        U64("data1", U64("data2", Done)))))))))
  }
  function CreateDriver(): Fields { U32("obj1", U32("obj2", U64("addr", Done))) }
  function CreateDevice(): Fields { U32("obj1", Done) }
  function CallMethodData(): Fields { U32("cnt", U64("tx", Done)) }

  /** The records by their type byte. */
  function TopFormat(c: char): Option<Format> {
    if c == 'r' || c == 'w' then Some(Format(Access(), Tail8))
    else if c == 'R' || c == 'W' then Some(Format(Access2(), Tail8))
    else if c == 'm' then Some(Format(Mmap(), NoTail))
    else if c == 'M' then Some(Format(Mmap2(), NoTail))
    else if c == 'u' then Some(Format(Unmap(), NoTail))
    else if c == 'e' then Some(Format(Mremap(), NoTail))
    else if c == 'o' then Some(Format(Open(), Tail32))
    else if c == 't' then Some(Format(WriteSyscall(), Tail32))
    else if c == 'd' then Some(Format(DupSyscall(), NoTail))
    else if c == 'S' then Some(Format(Sync(), NoTail))
    else if c == 'i' then Some(Format(IoctlPreV2(), Tail32))
    else if c == 'j' then Some(Format(IoctlPostV2(), Tail32))
    else None
  }

  /** Those of nvidia, by the byte behind the 'n'. */
  function NvFormat(c: char): Option<Format> {
    if c == 'i' || c == 'j' then Some(Format(NvIoctl(), Tail32))
    else if c == 'c' then Some(Format(CreateObject(), Tail32))
    else if c == 'd' then Some(Format(DestroyObject(), NoTail))
    else if c == 'l' || c == 'b' then Some(Format(CallMethod(), NoTail))
    else if c == 'p' then Some(Format(CreateMapped(), NoTail))
    else if c == 't' then Some(Format(CreateDma(), NoTail))
    else if c == 'a' || c == 'e' then Some(Format(AllocMap(), NoTail))
    else if c == 'g' then Some(Format(GpuMap(), NoTail))
    else if c == 'G' then Some(Format(GpuMap2(), NoTail))
    else if c == 'h' then Some(Format(GpuUnmap(), NoTail))
    else if c == 'H' then Some(Format(GpuUnmap2(), NoTail))
    else if c == 'm' then Some(Format(NvMmap(), NoTail))
    else if c == 'M' then Some(Format(NvMmap2(), NoTail))
    else if c == 'r' then Some(Format(CreateDriver(), NoTail))
    else if c == 'v' || c == 'x' then Some(Format(CreateDevice(), NoTail))
    else if c == '1' then Some(Format(CallMethodData(), Tail32))
    else if c == '4' || c == 'k' || c == 'P' then Some(Format(Done, Tail32))
    else None
  }

  function FormatOf(nv: bool, c: char): Option<Format> { if nv then NvFormat(c) else TopFormat(c) }

  /** A record: its type, a number for each field, and the bytes of the tail. */
  datatype Message = Message(nv: bool, mark: char, values: seq<nat>, data: seq<Byte>)

  // ---------------------------------------------------------------------
  // Encoding
  // ---------------------------------------------------------------------

  function Pow256(n: nat): (r: nat)
    ensures r > 0
  {
    if n == 0 then 1 else 0x100 * Pow256(n - 1)
  }

  /** `n` bytes, least significant first. */
  function LeBytes(v: nat, n: nat): (b: seq<Byte>)
    ensures |b| == n
    decreases n
  {
    if n == 0 then [] else [v % 0x100] + LeBytes(v / 0x100, n - 1)
  }

  function Width(f: Fields): nat { if f.U32? then 4 else 8 }

  function WidthOf(f: Fields): nat { if f.Done? then 0 else Width(f) + WidthOf(f.next) }

  function FieldBytes(f: Fields, values: seq<nat>): (b: seq<Byte>)
    requires OkValues(f, values)
    ensures |b| == WidthOf(f)
  {
    if f.Done? then [] else LeBytes(values[0], Width(f)) + FieldBytes(f.next, values[1..])
  }

  /** There is a number for each field, and it fits. */
  predicate OkValues(f: Fields, values: seq<nat>) {
    if f.Done? then values == []
    else values != [] && values[0] < Pow256(Width(f)) && OkValues(f.next, values[1..])
  }

  function CharByte(c: char): Byte { c as int % 0x100 }

  function Tag(nv: bool, c: char): seq<Byte> { if nv then [CharByte('n'), CharByte(c)] else [CharByte(c)] }

  function LengthBytes(tail: Tail, n: nat): seq<Byte> {
    match tail
    case NoTail => []
    case Tail8 => LeBytes(n, 1)
    case Tail32 => LeBytes(n, 4)
  }

  /** Every value fits its field, and the number of bytes its own. */
  predicate OkMessage(m: Message) {
    FormatOf(m.nv, m.mark).Some? &&
    var f := FormatOf(m.nv, m.mark).value;
    && OkValues(f.fields, m.values)
    && (f.tail.NoTail? ==> m.data == []) && (f.tail.Tail8? ==> |m.data| < 0x100)
    && (f.tail.Tail32? ==> |m.data| < Pow256(4))
  }

  function Encode(m: Message): (b: seq<Byte>)
    requires OkMessage(m)
    ensures b != []
  {
    var f := FormatOf(m.nv, m.mark).value;
    Tag(m.nv, m.mark) + FieldBytes(f.fields, m.values) + LengthBytes(f.tail, |m.data|) + m.data + [10]
  }

  // ---------------------------------------------------------------------
  // Little-endian numbers
  // ---------------------------------------------------------------------

  lemma {:induction false} LeRoundTrip(v: nat, n: nat)
    requires v < Pow256(n)
    ensures LeValue(LeBytes(v, n)) == v
    decreases n
  {
    if n > 0 {
      LeRoundTrip(v / 0x100, n - 1);
      assert LeBytes(v, n)[1..] == LeBytes(v / 0x100, n - 1);
    }
  }

  lemma {:induction false} LeBack(b: seq<Byte>)
    ensures LeValue(b) < Pow256(|b|) && LeBytes(LeValue(b), |b|) == b
  {
    if b != [] {
      LeBack(b[1..]);
      var low: int := b[0];
      assert LeValue(b) / 0x100 == LeValue(b[1..]) && LeValue(b) % 0x100 == low;
    }
  }

  lemma {:induction false} FieldsBack(f: Fields, b: seq<Byte>) returns (values: seq<nat>)
    requires |b| == WidthOf(f)
    ensures OkValues(f, values) && FieldBytes(f, values) == b
  {
    if f.Done? {
      values := [];
    } else {
      var w := Width(f);
      LeBack(b[..w]);
      var rest := FieldsBack(f.next, b[w..]);
      values := [LeValue(b[..w])] + rest;
      assert values[1..] == rest;
      assert b == b[..w] + b[w..];
    }
  }

  lemma {:induction false} FieldsInjective(f: Fields, v: seq<nat>, w: seq<nat>)
    requires OkValues(f, v) && OkValues(f, w) && FieldBytes(f, v) == FieldBytes(f, w)
    ensures v == w
  {
    if !f.Done? {
      var n := Width(f);
      var a, b := FieldBytes(f, v), FieldBytes(f, w);
      assert a[..n] == LeBytes(v[0], n) && b[..n] == LeBytes(w[0], n);
      assert a[n..] == FieldBytes(f.next, v[1..]) && b[n..] == FieldBytes(f.next, w[1..]);
      LeRoundTrip(v[0], n);
      LeRoundTrip(w[0], n);
      FieldsInjective(f.next, v[1..], w[1..]);
      assert v == [v[0]] + v[1..] && w == [w[0]] + w[1..];
    }
  }

  // ---------------------------------------------------------------------
  // What the loader knows of a type
  // ---------------------------------------------------------------------

  /** The bytes in front of the length, or of the end mark. */
  function Front(nv: bool, f: Format): nat { (if nv then 2 else 1) + WidthOf(f.fields) }

  function ShapeOf(nv: bool, f: Format): (sh: Shape)
    ensures OkShape(sh)
  {
    match f.tail
    case NoTail => Fixed(Front(nv, f) + 1)
    case Tail8 => LenByte(Front(nv, f) + 2, Front(nv, f))
    case Tail32 => Len32(Front(nv, f) + 5, Front(nv, f))
  }

  /** The ioctl records, which dumps may follow. */
  predicate IsIoctl(c: char) { c == 'i' || c == 'j' }

  function Sized(nv: bool, c: char): (sh: Shape)
    requires FormatOf(nv, c).Some?
    ensures OkShape(sh)
  {
    ShapeOf(nv, FormatOf(nv, c).value)
  }

  function KindFor(nv: bool, c: char): Kind
    requires FormatOf(nv, c).Some?
  {
    if IsIoctl(c) then Ioctl(Sized(nv, c), nv) else Plain(Sized(nv, c))
  }

  lemma TopWidths()
    ensures WidthOf(Access()) == 8
    ensures WidthOf(Access2()) == 8
    ensures WidthOf(Mmap()) == 28
    ensures WidthOf(Mmap2()) == 40
    ensures WidthOf(Unmap()) == 44
    ensures WidthOf(Mremap()) == 60
    ensures WidthOf(Open()) == 12
    ensures WidthOf(WriteSyscall()) == 4
    ensures WidthOf(DupSyscall()) == 8
    ensures WidthOf(Sync()) == 4
    ensures WidthOf(IoctlPreV2()) == 8
    ensures WidthOf(IoctlPostV2()) == 24
  {
  }

  lemma NvWidths()
    ensures WidthOf(NvIoctl()) == 8
    ensures WidthOf(CreateObject()) == 12
    ensures WidthOf(DestroyObject()) == 8
    ensures WidthOf(CallMethod()) == 8
    ensures WidthOf(CreateMapped()) == 20
    ensures WidthOf(CreateDma()) == 12
    ensures WidthOf(AllocMap()) == 16
    ensures WidthOf(GpuMap()) == 20
    ensures WidthOf(GpuMap2()) == 24
  {
  }

  lemma NvWidths2()
    ensures WidthOf(Done) == 0
    ensures WidthOf(GpuUnmap()) == 16
    ensures WidthOf(GpuUnmap2()) == 20
    ensures WidthOf(NvMmap()) == 44
    ensures WidthOf(NvMmap2()) == 56
    ensures WidthOf(CreateDriver()) == 16
    ensures WidthOf(CreateDevice()) == 4
    ensures WidthOf(CallMethodData()) == 12
  {
  }

  lemma TopShapes(b: Byte)
    requires TopFormat(b as char).Some?
    ensures TopKind(b) == KindFor(false, b as char)
  {
    hide WidthOf, Access, Access2, Mmap, Mmap2, Unmap, Mremap, Open, WriteSyscall, DupSyscall, Sync;
    hide IoctlPreV2, IoctlPostV2;
    TopWidths();
  }

  /** The first half of the types of nvidia. */
  predicate Early(c: char) { c in {'i', 'j', 'c', 'd', 'l', 'b', 'p', 't', 'a', 'e', 'g', 'G'} }

  lemma NvShapesEarly(b: Byte)
    requires Early(b as char)
    ensures NvFormat(b as char).Some? && NvKind(b) == KindFor(true, b as char)
  {
    hide WidthOf, NvIoctl, CreateObject, DestroyObject, CallMethod, CreateMapped, CreateDma, AllocMap, GpuMap, GpuMap2;
    hide GpuUnmap, GpuUnmap2, NvMmap, NvMmap2, CreateDriver, CreateDevice, CallMethodData;
    NvWidths();
  }

  lemma NvShapesLate(b: Byte)
    requires NvFormat(b as char).Some? && !Early(b as char)
    ensures NvKind(b) == KindFor(true, b as char)
  {
    hide WidthOf, NvIoctl, CreateObject, DestroyObject, CallMethod, CreateMapped, CreateDma, AllocMap, GpuMap, GpuMap2;
    hide GpuUnmap, GpuUnmap2, NvMmap, NvMmap2, CreateDriver, CreateDevice, CallMethodData;
    NvWidths2();
  }

  lemma NvShapes(b: Byte)
    requires NvFormat(b as char).Some?
    ensures NvKind(b) == KindFor(true, b as char)
  {
    hide NvKind, KindFor;
    if Early(b as char) {
      NvShapesEarly(b);
    } else {
      NvShapesLate(b);
    }
  }

  /** The size rules are those of the structs, for every type byte; other bytes start a dump or
      a text, or nothing at all. */
  lemma KindOfByte(b: Byte, nv: bool)
    ensures var k := if nv then NvKind(b) else TopKind(b);
            if FormatOf(nv, b as char).Some? then k == KindFor(nv, b as char)
            else if nv then k == (if b as char == 'o' then BareDump else BadKind)
            else k == (if b as char == '=' || b as char == '-' then TextKind else BadKind)
  {
    hide ShapeOf;
    if FormatOf(nv, b as char).Some? {
      if nv {
        NvShapes(b);
      } else {
        TopShapes(b);
      }
    }
  }

  /** What is passed over in search of a dump: every record of nvidia but the ioctls, the newer
      mmap, and those of pushed data, marks and raw calls, unless it is handled; the older mmap
      always is. */
  predicate PassedOver(c: char, handled: set<char>) {
    NvFormat(c).Some? && !IsIoctl(c) && c !in {'M', '1', '4', 'k', 'P'} && (c == 'm' || c !in handled)
  }

  lemma OmittedMeans(b: Byte, handled: set<char>)
    ensures Omitted(b, handled) <==> PassedOver(b as char, handled)
  {
  }
}
