/** The push-buffer decoder (`demmt/pushbuf.c`): one command word at a time, and the
    packets a driver writes. */
module Pushbuf {
  import opened Options
  import Numbers

  const TWO32: nat := 0x1_0000_0000

  type U32 = x: nat | x < TWO32

  /** `struct pushbuf_decode_state`, without the object bindings. */
  datatype State = State(incr: nat, subchan: nat, addr: nat, size: nat, skip: nat, long: bool)

  /** What one word amounts to: a method write, or an address to go on from. */
  datatype Write = Write(subchan: nat, mthd: nat, value: U32)

  datatype Effect = Effect(s: State, write: Option<Write>, next: nat)

  function Quiet(s: State): Effect { Effect(s, None, 0) }

  // Fields of a command word.
  function Mode(w: U32): nat { w / 0x2000_0000 }
  function Subchan(w: U32): nat { w / 0x2000 % 8 }
  function Addr13(w: U32): nat { w % 0x2000 * 4 }
  function Size13(w: U32): nat { w / 0x1_0000 % 0x2000 }
  function Addr11(w: U32): nat { w / 4 % 0x800 * 4 }
  function Size11(w: U32): nat { w / 0x4_0000 % 0x800 }
  function Kind(w: U32): nat { w / 0x1_0000 % 4 }
  function Low2(w: U32): nat { w % 4 }

  /** A header on chipsets from 0xc0 on. */
  function NewHeader(s: State, w: U32): Effect {
    var t := s.(addr := Addr13(w), subchan := Subchan(w), size := Size13(w));
    if Mode(w) == 3 then Quiet(t.(incr := 0))
    else if Mode(w) == 5 then Quiet(t.(incr := 1))
    else if Mode(w) == 1 then Quiet(t.(incr := t.size))
    else if Mode(w) == 4 then Effect(t.(size := 0), Some(Write(t.subchan, t.addr, Size13(w))), 0)
    else if Mode(w) == 0 then Quiet(t.(incr := 1, size := if Kind(w) != 0 then 0 else Size11(w)))
    else if Mode(w) == 2 then Quiet(t.(incr := 0, size := if Kind(w) != 0 then 0 else Size11(w)))
    else Quiet(t.(size := 0))
  }

  /** A header before 0xc0. */
  function OldHeader(s: State, w: U32): Effect {
    if s.long then Quiet(s.(size := w % 0x100_0000, long := false))
    else
      var t := s.(addr := Addr11(w), subchan := Subchan(w), size := Size11(w));
      if Low2(w) == 0 then
        if Mode(w) == 0 then
          if Kind(w) == 0 then Quiet(t.(incr := t.size))
          else if Kind(w) == 3 then Quiet(t.(incr := 0, size := 0, long := true))
          else Quiet(t.(size := 0))
        else if Mode(w) == 1 then Effect(t, None, 1)
        else if Mode(w) == 2 then Quiet(t.(incr := 0))
        else Quiet(t.(size := 0))
      else if Low2(w) == 1 then Effect(t.(size := 0), None, w / 4 * 4)
      else Quiet(t.(size := 0))
  }

  /** A data word. */
  function Datum(s: State, w: U32): Effect
    requires s.size > 0
  {
    var t := if s.incr != 0 then s.(addr := s.addr + 4, incr := s.incr - 1) else s;
    Effect(t.(size := s.size - 1), Some(Write(s.subchan, s.addr, w)), 0)
  }

  /** `pushbuf_decode` */
  function DecodeWord(chipset: nat, s: State, w: U32): Effect {
    if s.skip != 0 then Quiet(s.(skip := s.skip - 1))
    else if s.size != 0 then Datum(s, w)
    else if w == 0 && !s.long then Quiet(s)
    else if chipset >= 0xc0 then NewHeader(s, w)
    else OldHeader(s, w)
  }

  /** Between two packets. */
  predicate AtHeader(s: State) {
    s.size == 0 && s.skip == 0 && !s.long
  }

  // ---------------------------------------------------------------------
  // Packets
  // ---------------------------------------------------------------------

  /** The ways to write `data` to methods of a subchannel: `method` counts words. */
  datatype Packet =
    | Inc(subchan: nat, mthd: nat, data: seq<U32>)
    | Const(subchan: nat, mthd: nat, data: seq<U32>)
    | IncOnce(subchan: nat, mthd: nat, data: seq<U32>)
    | Immediate(subchan: nat, mthd: nat, value: nat)
    | OldInc(subchan: nat, mthd: nat, data: seq<U32>)
    | OldConst(subchan: nat, mthd: nat, data: seq<U32>)
    | Long(subchan: nat, mthd: nat, data: seq<U32>)

  /** The packet exists on the chipset and its fields fit. */
  predicate Encodable(chipset: nat, p: Packet) {
    && p.subchan < 8
    && match p
       case Immediate(_, mthd, value) => chipset >= 0xc0 && mthd < 0x2000 && value < 0x2000
       case Inc(_, mthd, data) => chipset >= 0xc0 && mthd < 0x2000 && |data| < 0x2000
       case Const(_, mthd, data) => chipset >= 0xc0 && mthd < 0x2000 && |data| < 0x2000
       case IncOnce(_, mthd, data) => chipset >= 0xc0 && mthd < 0x2000 && |data| < 0x2000
       case OldInc(_, mthd, data) => mthd < (if chipset >= 0xc0 then 0x2000 else 0x800) && |data| < 0x800
       case OldConst(_, mthd, data) => mthd < (if chipset >= 0xc0 then 0x2000 else 0x800) && |data| < 0x800
       case Long(_, mthd, data) => chipset < 0xc0 && mthd < 0x800 && |data| < 0x100_0000
  }

  function NewWord(mode: nat, size: nat, subchan: nat, mthd: nat): nat {
    mode * 0x2000_0000 + size * 0x1_0000 + subchan * 0x2000 + mthd
  }

  function OldWord(mode: nat, size: nat, kind: nat, subchan: nat, mthd: nat): nat {
    mode * 0x2000_0000 + size * 0x4_0000 + kind * 0x1_0000 + subchan * 0x2000 + mthd * 4
  }

  lemma NewFields(mode: nat, size: nat, subchan: nat, mthd: nat)
    requires mode < 8 && size < 0x2000 && subchan < 8 && mthd < 0x2000
    ensures var w := NewWord(mode, size, subchan, mthd);
            w < TWO32 && Mode(w) == mode && Size13(w) == size && Subchan(w) == subchan && Addr13(w) == mthd * 4
  {
    var w := NewWord(mode, size, subchan, mthd);
    assert w == mode * 0x2000_0000 + (size * 0x1_0000 + subchan * 0x2000 + mthd);
    assert w / 0x1_0000 == mode * 0x2000 + size;
    assert w / 0x2000 == (mode * 0x2000 + size) * 8 + subchan;
  }

  lemma NewSplit(mode: nat, size: nat, subchan: nat, mthd: nat)
    requires mode < 8 && size < 0x800 && subchan < 8 && mthd < 0x2000
    ensures var w := NewWord(mode, size * 4, subchan, mthd);
            w < TWO32 && Mode(w) == mode && Size11(w) == size && Kind(w) == 0 && Subchan(w) == subchan &&
            Addr13(w) == mthd * 4
  {
    NewFields(mode, size * 4, subchan, mthd);
    var w := NewWord(mode, size * 4, subchan, mthd);
    assert w / 0x1_0000 == mode * 0x2000 + size * 4;
    assert w / 0x4_0000 == mode * 0x800 + size;
  }

  lemma OldFields(mode: nat, size: nat, kind: nat, subchan: nat, mthd: nat)
    requires mode < 8 && size < 0x800 && kind < 4 && subchan < 8 && mthd < 0x800
    ensures var w := OldWord(mode, size, kind, subchan, mthd);
            w < TWO32 && Mode(w) == mode && Size11(w) == size && Kind(w) == kind && Subchan(w) == subchan &&
            Addr11(w) == mthd * 4 && Low2(w) == 0
  {
    var w := OldWord(mode, size, kind, subchan, mthd);
    var v := mode * 0x800 + size;
    var z := v * 4 + kind;
    var y := z * 8 + subchan;
    Numbers.Quotient(w, 0x4_0000, v, kind * 0x1_0000 + subchan * 0x2000 + mthd * 4);
    Numbers.Quotient(w, 0x1_0000, z, subchan * 0x2000 + mthd * 4);
    Numbers.Quotient(w, 0x2000, y, mthd * 4);
    Numbers.Quotient(w, 4, y * 0x800 + mthd, 0);
    Numbers.Quotient(w, 0x2000_0000, mode, size * 0x4_0000 + kind * 0x1_0000 + subchan * 0x2000 + mthd * 4);
    Numbers.Quotient(v, 0x800, mode, size);
    Numbers.Quotient(z, 4, v, kind);
    Numbers.Quotient(y, 8, z, subchan);
    Numbers.Quotient(y * 0x800 + mthd, 0x800, y, mthd);
  }

  /** The header words of a packet. */
  function Header(chipset: nat, p: Packet): (ws: seq<U32>)
    requires Encodable(chipset, p)
    ensures |ws| == if p.Long? then 2 else 1
  {
    match p
    case Immediate(sub, mthd, value) => NewFields(4, value, sub, mthd); [NewWord(4, value, sub, mthd)]
    case Inc(sub, mthd, data) => NewFields(1, |data|, sub, mthd); [NewWord(1, |data|, sub, mthd)]
    case Const(sub, mthd, data) => NewFields(3, |data|, sub, mthd); [NewWord(3, |data|, sub, mthd)]
    case IncOnce(sub, mthd, data) => NewFields(5, |data|, sub, mthd); [NewWord(5, |data|, sub, mthd)]
    case OldInc(sub, mthd, data) =>
      if chipset >= 0xc0 then NewSplit(0, |data|, sub, mthd); [NewWord(0, |data| * 4, sub, mthd)]
      else OldFields(0, |data|, 0, sub, mthd); [OldWord(0, |data|, 0, sub, mthd)]
    case OldConst(sub, mthd, data) =>
      if chipset >= 0xc0 then NewSplit(2, |data|, sub, mthd); [NewWord(2, |data| * 4, sub, mthd)]
      else OldFields(2, |data|, 0, sub, mthd); [OldWord(2, |data|, 0, sub, mthd)]
    case Long(sub, mthd, data) => OldFields(0, 0, 3, sub, mthd); [OldWord(0, 0, 3, sub, mthd), |data|]
  }

  function Data(p: Packet): seq<U32> {
    if p.Immediate? then [] else p.data
  }

  function Encode(chipset: nat, p: Packet): seq<U32>
    requires Encodable(chipset, p)
  {
    Header(chipset, p) + Data(p)
  }

  /** How often the method address moves on.  Chipsets from 0xc0 on read an old-style
      incrementing packet as one that increments once. */
  function Increments(chipset: nat, p: Packet): nat {
    match p
    case Inc(_, _, data) => |data|
    case IncOnce(_, _, _) => 1
    case OldInc(_, _, data) => if chipset >= 0xc0 then 1 else |data|
    case _ => 0
  }

  function Min(a: nat, b: nat): nat { if a < b then a else b }

  /** Datum `i` lands at `addr + 4 * min(i, incr)`. */
  function Landing(subchan: nat, addr: nat, incr: nat, data: seq<U32>): (r: seq<Write>)
    ensures |r| == |data|
    ensures forall i :: 0 <= i < |data| ==> r[i] == Write(subchan, addr + 4 * Min(i, incr), data[i])
  {
    seq(|data|, i requires 0 <= i < |data| => Write(subchan, addr + 4 * Min(i, incr), data[i]))
  }

  /** The method writes a packet stands for. */
  function Writes(chipset: nat, p: Packet): seq<Write> {
    if p.Immediate? then (if p.value < TWO32 then [Write(p.subchan, p.mthd * 4, p.value)] else [])
    else Landing(p.subchan, p.mthd * 4, Increments(chipset, p), p.data)
  }

  // ---------------------------------------------------------------------
  // Decoding whole buffers
  // ---------------------------------------------------------------------

  /** The writes of a run, the state it ends in, and the address to go on from. */
  datatype Run = Run(writes: seq<Write>, s: State, next: nat)

  function Decode(chipset: nat, s: State, ws: seq<U32>): Run
    decreases |ws|
  {
    if ws == [] then Run([], s, 0)
    else
      var e := DecodeWord(chipset, s, ws[0]);
      var first := if e.write.Some? then [e.write.value] else [];
      if e.next != 0 then Run(first, e.s, e.next)
      else
        var more := Decode(chipset, e.s, ws[1..]);
        Run(first + more.writes, more.s, more.next)
  }

  lemma {:induction false} DecodeAppend(chipset: nat, s: State, ws: seq<U32>, more: seq<U32>)
    requires Decode(chipset, s, ws).next == 0
    ensures var r := Decode(chipset, s, ws);
            var t := Decode(chipset, r.s, more);
            Decode(chipset, s, ws + more) == Run(r.writes + t.writes, t.s, t.next)
    decreases |ws|
  {
    hide DecodeWord;
    if ws == [] {
      assert ws + more == more;
      assert [] + Decode(chipset, s, more).writes == Decode(chipset, s, more).writes;
    } else {
      var e := DecodeWord(chipset, s, ws[0]);
      var first := if e.write.Some? then [e.write.value] else [];
      assert (ws + more)[0] == ws[0] && (ws + more)[1..] == ws[1..] + more;
      DecodeAppend(chipset, e.s, ws[1..], more);
      var r := Decode(chipset, e.s, ws[1..]);
      var t := Decode(chipset, r.s, more);
      assert first + (r.writes + t.writes) == first + r.writes + t.writes;
    }
  }

  /** A packet's data words, one write each, and the decoder back between packets. */
  lemma {:induction false} PayloadIsWritten(chipset: nat, s: State, data: seq<U32>)
    requires s.size == |data| && s.skip == 0 && !s.long
    ensures var r := Decode(chipset, s, data);
            r.writes == Landing(s.subchan, s.addr, s.incr, data) && AtHeader(r.s) && r.next == 0
    decreases |data|
  {
    if data != [] {
      var e := DecodeWord(chipset, s, data[0]);
      PayloadIsWritten(chipset, e.s, data[1..]);
      var rest := Landing(e.s.subchan, e.s.addr, e.s.incr, data[1..]);
      var all := Landing(s.subchan, s.addr, s.incr, data);
      forall i | 0 <= i < |data| ensures all[i] == ([Write(s.subchan, s.addr, data[0])] + rest)[i] {
        if i > 0 {
          LandsLater(s.addr, s.incr, i);
          assert data[1..][i - 1] == data[i];
        }
      }
      assert all == [Write(s.subchan, s.addr, data[0])] + rest;
    }
  }

  lemma LandsLater(addr: nat, incr: nat, i: nat)
    requires i > 0
    ensures addr + 4 * Min(i, incr) ==
            if incr > 0 then addr + 4 + 4 * Min(i - 1, incr - 1) else addr + 4 * Min(i - 1, 0)
  {
  }

  /** The state a packet's header leaves. */
  predicate Primed(chipset: nat, p: Packet, s: State)
    requires !p.Immediate?
  {
    && s.size == |p.data| && s.skip == 0 && !s.long
    && (p.data != [] ==> s.subchan == p.subchan && s.addr == p.mthd * 4 && s.incr == Increments(chipset, p))
  }

  lemma HeaderPrimes(chipset: nat, s: State, p: Packet)
    requires AtHeader(s) && Encodable(chipset, p) && !p.Immediate? && !p.Long?
    ensures var e := DecodeWord(chipset, s, Header(chipset, p)[0]);
            e.write == None && e.next == 0 && Primed(chipset, p, e.s)
  {
    hide NewWord, OldWord, Size13, Size11, Mode, Kind, Subchan, Addr13, Addr11, Low2;
    var w := Header(chipset, p)[0];
    ZeroFields(w);
    match p
    case Inc(sub, mthd, data) => NewFields(1, |data|, sub, mthd);
    case Const(sub, mthd, data) => NewFields(3, |data|, sub, mthd);
    case IncOnce(sub, mthd, data) => NewFields(5, |data|, sub, mthd);
    case OldInc(sub, mthd, data) =>
      if chipset >= 0xc0 { NewSplit(0, |data|, sub, mthd); } else { OldFields(0, |data|, 0, sub, mthd); }
    case OldConst(sub, mthd, data) =>
      if chipset >= 0xc0 { NewSplit(2, |data|, sub, mthd); } else { OldFields(2, |data|, 0, sub, mthd); }
  }

  lemma ZeroFields(w: U32)
    ensures w == 0 ==> Size13(w) == 0 && Size11(w) == 0
  {
  }

  lemma LongPrimes(chipset: nat, s: State, p: Packet)
    requires AtHeader(s) && Encodable(chipset, p) && p.Long?
    ensures var ws := Header(chipset, p);
            var e := DecodeWord(chipset, s, ws[0]);
            var f := DecodeWord(chipset, e.s, ws[1]);
            e.write == None && e.next == 0 && f.write == None && f.next == 0 && Primed(chipset, p, f.s)
  {
    hide OldWord, Size11, Mode, Kind, Subchan, Addr11, Low2;
    OldFields(0, 0, 3, p.subchan, p.mthd);
    KindNonZero(Header(chipset, p)[0]);
  }

  lemma KindNonZero(w: U32)
    ensures Kind(w) == 3 ==> w != 0
  {
  }

  lemma ImmediateWrites(chipset: nat, s: State, p: Packet)
    requires AtHeader(s) && Encodable(chipset, p) && p.Immediate?
    ensures var e := DecodeWord(chipset, s, Header(chipset, p)[0]);
            e.write == Some(Write(p.subchan, p.mthd * 4, p.value)) && e.next == 0 && AtHeader(e.s)
  {
    hide NewWord, Size13, Mode, Subchan, Addr13;
    NewFields(4, p.value, p.subchan, p.mthd);
    ModeNonZero(Header(chipset, p)[0]);
  }

  lemma ModeNonZero(w: U32)
    ensures Mode(w) == 4 ==> w != 0
  {
  }

  /** Decoding one packet from between two packets gives its writes and ends between
      two packets. */
  lemma PacketDecodes(chipset: nat, s: State, p: Packet)
    requires AtHeader(s) && Encodable(chipset, p)
    ensures var r := Decode(chipset, s, Encode(chipset, p));
            r.writes == Writes(chipset, p) && AtHeader(r.s) && r.next == 0
  {
    hide DecodeWord;
    var ws := Header(chipset, p);
    if p.Immediate? {
      ImmediateWrites(chipset, s, p);
      assert ws + Data(p) == ws && ws[1..] == [];
    } else if p.Long? {
      LongPrimes(chipset, s, p);
      var e := DecodeWord(chipset, s, ws[0]);
      var f := DecodeWord(chipset, e.s, ws[1]);
      var all := ws + p.data;
      assert all[1..][1..] == p.data;
      PayloadIsWritten(chipset, f.s, p.data);
      TwoQuiet(chipset, s, all, e, f);
    } else {
      HeaderPrimes(chipset, s, p);
      var e := DecodeWord(chipset, s, ws[0]);
      var all := ws + p.data;
      assert all[1..] == p.data;
      PayloadIsWritten(chipset, e.s, p.data);
      assert [] + Decode(chipset, e.s, p.data).writes == Decode(chipset, e.s, p.data).writes;
    }
  }

  lemma TwoQuiet(chipset: nat, s: State, ws: seq<U32>, e: Effect, f: Effect)
    requires |ws| >= 2 && e == DecodeWord(chipset, s, ws[0]) && f == DecodeWord(chipset, e.s, ws[1])
    requires e.write == None && e.next == 0 && f.write == None && f.next == 0
    ensures Decode(chipset, s, ws) == Decode(chipset, f.s, ws[1..][1..])
  {
    hide DecodeWord;
    assert ws[1..][0] == ws[1];
    assert [] + Decode(chipset, f.s, ws[1..][1..]).writes == Decode(chipset, f.s, ws[1..][1..]).writes;
    assert [] + Decode(chipset, e.s, ws[1..]).writes == Decode(chipset, e.s, ws[1..]).writes;
  }

  predicate AllEncodable(chipset: nat, ps: seq<Packet>) {
    forall i :: 0 <= i < |ps| ==> Encodable(chipset, ps[i])
  }

  function EncodeAll(chipset: nat, ps: seq<Packet>): seq<U32>
    requires AllEncodable(chipset, ps)
  {
    if ps == [] then [] else Encode(chipset, ps[0]) + EncodeAll(chipset, ps[1..])
  }

  function AllWrites(chipset: nat, ps: seq<Packet>): seq<Write> {
    if ps == [] then [] else Writes(chipset, ps[0]) + AllWrites(chipset, ps[1..])
  }

  /** Decoding a buffer of packets recovers exactly their method writes, in order. */
  lemma {:induction false} BufferDecodes(chipset: nat, s: State, ps: seq<Packet>)
    requires AtHeader(s) && AllEncodable(chipset, ps)
    ensures var r := Decode(chipset, s, EncodeAll(chipset, ps));
            r.writes == AllWrites(chipset, ps) && AtHeader(r.s) && r.next == 0
    decreases |ps|
  {
    hide DecodeWord, Encode, Writes;
    if ps != [] {
      PacketDecodes(chipset, s, ps[0]);
      var r := Decode(chipset, s, Encode(chipset, ps[0]));
      BufferDecodes(chipset, r.s, ps[1..]);
      DecodeAppend(chipset, s, Encode(chipset, ps[0]), EncodeAll(chipset, ps[1..]));
    }
  }

  /** The old-style jump does not reset the size field: the decoder is left between
      two packets exactly when the size bits of the jump word are clear. */
  lemma OldJumpLeavesSize(chipset: nat, s: State, w: U32)
    requires chipset < 0xc0 && AtHeader(s) && Mode(w) == 1 && Low2(w) == 0
    ensures var e := DecodeWord(chipset, s, w);
            e.next == 1 && (AtHeader(e.s) <==> Size11(w) == 0)
  {
  }

  // ---------------------------------------------------------------------
  // Jumps, calls and the rest
  // ---------------------------------------------------------------------

  /** The commands that write nothing. */
  datatype Control =
    | Jump(addr: nat) | Call(addr: nat) | Return | OldJump(addr: nat) | Condition(mask: nat) | StoreMask(mask: nat)

  /** Chipsets from 0xc0 on have conditions and masks only. */
  predicate OkControl(chipset: nat, c: Control) {
    match c
    case Jump(addr) => chipset < 0xc0 && addr < TWO32 && addr % 4 == 0
    case Call(addr) => chipset < 0xc0 && addr < TWO32 && addr % 4 == 0
    case Return => chipset < 0xc0
    case OldJump(addr) => chipset < 0xc0 && addr < 0x2000_0000 && addr % 4 == 0
    case Condition(mask) => mask < 0x1000
    case StoreMask(mask) => chipset >= 0xc0 && mask < 0x1000
  }

  function ControlWord(c: Control): nat {
    match c
    case Jump(addr) => addr + 1
    case Call(addr) => addr + 2
    case Return => 0x2_0000
    case OldJump(addr) => 0x2000_0000 + addr
    case Condition(mask) => 0x1_0000 + 0x10 * mask
    case StoreMask(mask) => 0x2_0000 + 0x10 * mask
  }

  /** A jump goes on at its address, an old one at an address that is not told; nothing is
      written, and the decoder is between packets, except that an old jump leaves bits 18 to 28
      of its address as a number of data words to come. */
  lemma ControlDecodes(chipset: nat, s: State, c: Control)
    requires AtHeader(s) && OkControl(chipset, c)
    ensures ControlWord(c) < TWO32
    ensures var e := DecodeWord(chipset, s, ControlWord(c));
            && e.write == None && e.s.skip == 0 && !e.s.long
            && e.next == (if c.Jump? then c.addr else if c.OldJump? then 1 else 0)
            && e.s.size == (if c.OldJump? then c.addr / 0x4_0000 else 0)
  {
    hide Mode, Subchan, Addr13, Size13, Addr11, Size11, Kind, Low2;
    ControlFields(c, chipset);
  }

  /** What the fields of a control word are. */
  lemma ControlFields(c: Control, chipset: nat)
    requires OkControl(chipset, c)
    ensures 0 < ControlWord(c) < TWO32
    ensures var w := ControlWord(c);
            match c
            case Jump(addr) => Low2(w) == 1 && w / 4 * 4 == addr
            case Call(_) => Low2(w) == 2
            case Return => Low2(w) == 0 && Mode(w) == 0 && Kind(w) == 2
            case OldJump(addr) => Low2(w) == 0 && Mode(w) == 1 && Size11(w) == addr / 0x4_0000
            case Condition(_) => Low2(w) == 0 && Mode(w) == 0 && Kind(w) == 1
            case StoreMask(_) => Low2(w) == 0 && Mode(w) == 0 && Kind(w) == 2
  {
    match c {
      case Jump(addr) => Numbers.Quotient(addr + 1, 4, addr / 4, 1);
      case Call(addr) => Numbers.Quotient(addr + 2, 4, addr / 4, 2);
      case Return =>
      case OldJump(addr) => OldJumpFields(addr);
      case Condition(mask) => MaskFields(mask);
      case StoreMask(mask) => MaskFields(mask);
    }
  }

  lemma OldJumpFields(addr: nat)
    requires addr < 0x2000_0000 && addr % 4 == 0
    ensures var w := 0x2000_0000 + addr;
            w < TWO32 && Mode(w) == 1 && Low2(w) == 0 && Size11(w) == addr / 0x4_0000
  {
    var w := 0x2000_0000 + addr;
    Numbers.Quotient(w, 0x2000_0000, 1, addr);
    Numbers.Quotient(w, 0x4_0000, 0x800 + addr / 0x4_0000, addr % 0x4_0000);
    Numbers.Quotient(0x800 + addr / 0x4_0000, 0x800, 1, addr / 0x4_0000);
  }

  lemma MaskFields(mask: nat)
    requires mask < 0x1000
    ensures var v, w := 0x1_0000 + 0x10 * mask, 0x2_0000 + 0x10 * mask;
            && Mode(v) == 0 && Low2(v) == 0 && Kind(v) == 1 && Mode(w) == 0 && Low2(w) == 0 && Kind(w) == 2
  {
    var r, v, w := 0x10 * mask, 0x1_0000 + 0x10 * mask, 0x2_0000 + 0x10 * mask;
    Numbers.Quotient(v, 0x1_0000, 1, r);
    Numbers.Quotient(w, 0x1_0000, 2, r);
    Numbers.Quotient(v, 0x2000_0000, 0, v);
    Numbers.Quotient(w, 0x2000_0000, 0, w);
    Numbers.Quotient(v, 4, 0x4000 + 4 * mask, 0);
    Numbers.Quotient(w, 4, 0x8000 + 4 * mask, 0);
  }

  /** A header word that is no header of the chipset's is passed over. */
  lemma InvalidIgnored(chipset: nat, s: State, w: U32)
    requires AtHeader(s)
    requires if chipset >= 0xc0 then w >= 0xc000_0000 || (w / 0x2000_0000 in {0, 2} && w / 0x1_0000 % 4 != 0)
             else w % 4 == 3 || (w % 4 == 0 && (w >= 0x6000_0000 || (w < 0x2000_0000 && w / 0x1_0000 % 4 in {1, 2})))
    ensures var e := DecodeWord(chipset, s, w); e.write == None && e.next == 0 && AtHeader(e.s)
  {
  }

  /** Words that are to be skipped are. */
  lemma {:induction false} SkipIgnores(chipset: nat, s: State, ws: seq<U32>)
    requires |ws| <= s.skip
    ensures Decode(chipset, s, ws) == Run([], s.(skip := s.skip - |ws|), 0)
    decreases |ws|
  {
    if ws != [] {
      SkipIgnores(chipset, s.(skip := s.skip - 1), ws[1..]);
    }
  }

  /** Between packets words of zero are nothing. */
  lemma {:induction false} NopsIgnored(chipset: nat, s: State, ws: seq<U32>)
    requires AtHeader(s) && forall i :: 0 <= i < |ws| ==> ws[i] == 0
    ensures Decode(chipset, s, ws) == Run([], s, 0)
    decreases |ws|
  {
    if ws != [] {
      NopsIgnored(chipset, s, ws[1..]);
    }
  }

  /** A buffer is decoded up to the first jump, and what stands behind it does not matter. */
  lemma BufferEndsAtJump(chipset: nat, s: State, ps: seq<Packet>, addr: nat, more: seq<U32>)
    requires AtHeader(s) && AllEncodable(chipset, ps) && OkControl(chipset, Jump(addr)) && addr > 0
    ensures var w := ControlWord(Jump(addr));
            && w < TWO32
            && var r := Decode(chipset, s, EncodeAll(chipset, ps) + ([w] + more));
               r.writes == AllWrites(chipset, ps) && r.next == addr && AtHeader(r.s)
  {
    hide DecodeWord, EncodeAll, AllWrites;
    BufferDecodes(chipset, s, ps);
    var r := Decode(chipset, s, EncodeAll(chipset, ps));
    ControlDecodes(chipset, r.s, Jump(addr));
    var w := ControlWord(Jump(addr));
    var rest := [w] + more;
    assert rest[0] == w;
    DecodeAppend(chipset, s, EncodeAll(chipset, ps), rest);
    assert r.writes + [] == r.writes;
  }

  lemma DecodeNext(chipset: nat, s: State, ws: seq<U32>, i: nat, writes: seq<Write>)
    requires i < |ws|
    ensures var e := DecodeWord(chipset, s, ws[i]);
            var r, t := Decode(chipset, s, ws[i..]), Decode(chipset, e.s, ws[i + 1..]);
            var sofar := if e.write.Some? then writes + [e.write.value] else writes;
            if e.next != 0 then Run(writes + r.writes, r.s, r.next) == Run(sofar, e.s, e.next)
            else Run(writes + r.writes, r.s, r.next) == Run(sofar + t.writes, t.s, t.next)
  {
    hide DecodeWord;
    assert ws[i..][0] == ws[i] && ws[i..][1..] == ws[i + 1..];
    var e := DecodeWord(chipset, s, ws[i]);
    var first := if e.write.Some? then [e.write.value] else [];
    var more := Decode(chipset, e.s, ws[i + 1..]).writes;
    assert writes + (first + more) == (writes + first) + more;
  }

  // ---------------------------------------------------------------------
  // The decoder as it runs
  // ---------------------------------------------------------------------

  class Decoder {
    const chipset: nat
    var incr: nat
    var subchan: nat
    var addr: nat
    var size: nat
    var skip: nat
    var long: bool
    /** The method of the last word, -1 if it had none, and its datum if it had one. */
    var mthd: int
    var available: bool
    var value: U32

    constructor (chipset: nat)
      ensures this.chipset == chipset && AtHeader(View()) && mthd == -1 && !available
    {
      this.chipset := chipset;
      incr, subchan, addr, size, skip, long := 0, 0, 0, 0, 0, false;
      mthd, available, value := -1, false, 0;
    }

    ghost function View(): State
      reads this
    {
      State(incr, subchan, addr, size, skip, long)
    }

    /** The write that the caller sees after a word. */
    ghost function Seen(): Option<Write>
      reads this
    {
      if available && mthd >= 0 then Some(Write(subchan, mthd, value)) else None
    }

    method HeaderNew(w: U32)
      requires mthd == -1 && !available
      modifies this
      ensures var e := NewHeader(old(View()), w);
              View() == e.s && Seen() == e.write && e.next == 0
    {
      var mode := Mode(w);
      addr, subchan, size := Addr13(w), Subchan(w), Size13(w);
      if mode == 3 {
        incr := 0;
      } else if mode == 5 {
        incr := 1;
      } else if mode == 1 {
        incr := size;
      } else if mode == 4 {
        mthd, available, value := addr, true, size;
        size := 0;
        return;
      } else if mode == 0 {
        incr, size := 1, Size11(w);
        if Kind(w) != 0 {
          size := 0;
          return;
        }
      } else if mode == 2 {
        incr, size := 0, Size11(w);
        if Kind(w) != 0 {
          size := 0;
          return;
        }
      } else {
        size := 0;
        return;
      }
      mthd := addr;
    }

    method HeaderOld(w: U32) returns (next: nat)
      requires mthd == -1 && !available
      modifies this
      ensures var e := OldHeader(old(View()), w);
              View() == e.s && Seen() == e.write && e.next == next
    {
      if long {
        size, long := w % 0x100_0000, false;
        return 0;
      }
      var mode := Mode(w);
      addr, subchan, size := Addr11(w), Subchan(w), Size11(w);
      var kind := Low2(w);
      if kind == 0 {
        if mode == 0 {
          kind := Kind(w);
          if kind == 0 {
            incr := size;
          } else if kind == 3 {
            incr, size, long := 0, 0, true;
          } else {
            size := 0;
            return 0;
          }
        } else if mode == 1 {
          return 1;
        } else if mode == 2 {
          incr := 0;
        } else {
          size := 0;
          return 0;
        }
      } else if kind == 1 {
        size := 0;
        return w / 4 * 4;
      } else {
        size := 0;
        return 0;
      }
      mthd := addr;
      next := 0;
    }

    /** `pushbuf_decode` */
    method Word(w: U32) returns (next: nat)
      modifies this
      ensures var e := DecodeWord(chipset, old(View()), w);
              View() == e.s && Seen() == e.write && next == e.next
    {
      hide NewHeader, OldHeader;
      mthd, available, next := -1, false, 0;
      if skip != 0 {
        skip := skip - 1;
        return;
      }
      if size == 0 {
        if w == 0 && !long {
          return;
        }
        if chipset >= 0xc0 {
          HeaderNew(w);
        } else {
          next := HeaderOld(w);
        }
      } else {
        mthd, available, value := addr, true, w;
        if incr != 0 {
          addr, incr := addr + 4, incr - 1;
        }
        size := size - 1;
      }
    }

    /** The loop of `__pushbuf_print`, collecting the writes. */
    method Buffer(ws: seq<U32>) returns (writes: seq<Write>, next: nat)
      modifies this
      ensures Run(writes, View(), next) == Decode(chipset, old(View()), ws)
    {
      hide DecodeWord;
      writes, next := [], 0;
      assert ws[0..] == ws;
      var i := 0;
      while i < |ws|
        invariant i <= |ws| && next == 0
        invariant var r := Decode(chipset, View(), ws[i..]);
                  Decode(chipset, old(View()), ws) == Run(writes + r.writes, r.s, r.next)
        decreases |ws| - i
      {
        ghost var before := View();
        next := Word(ws[i]);
        DecodeNext(chipset, before, ws, i, writes);
        if available && mthd >= 0 {
          writes := writes + [Write(subchan, mthd, value)];
        }
        if next != 0 {
          return;
        }
        i := i + 1;
      }
      assert ws[i..] == [];
    }
  }
}
