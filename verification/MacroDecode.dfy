/** How `macro_sim` reads an instruction word and computes results: the mask tests in
    the order of `demmt/macro.c`, and 32-bit arithmetic. */
module MacroDecode {
  import opened MacroMachine
  import opened Words
  import opened Numbers

  function Reg1(c: bv32): (r: nat)
    ensures OkReg(r)
  {
    ((c >> 8) & 7) as nat
  }

  function Reg2(c: bv32): (r: nat)
    ensures OkReg(r)
  {
    ((c >> 11) & 7) as nat
  }

  function Reg3(c: bv32): (r: nat)
    ensures OkReg(r)
  {
    ((c >> 14) & 7) as nat
  }

  /** The top 18 bits as a signed number. */
  function Imm(c: bv32): int {
    Signed18((c >> 14) as int, c & 0x8000_0000 != 0)
  }

  function Signed18(n: int, top: bool): int {
    n - (if top then 0x4_0000 else 0)
  }

  function SrcPos(c: bv32): nat { ((c >> 17) & 0x1f) as nat }

  function Size(c: bv32): nat { ((c >> 22) & 0x1f) as nat }

  function DstPos(c: bv32): nat { ((c >> 27) & 0x1f) as nat }

  function DecodeUse(c: bv32): Use {
    if c & 0x70 == 0 then ParmIgn
    else if c & 0x70 == 0x10 then Mov
    else if c & 0x70 == 0x20 then Maddr
    else if c & 0x70 == 0x30 then ParmSend
    else if c & 0x70 == 0x40 then Send
    else if c & 0x70 == 0x50 then ParmMaddr
    else if c & 0x70 == 0x60 then ParmSendMaddr
    else MaddrSend
  }

  /** The source of an instruction that goes through `macro_sim_dst`. */
  function DecodeSource(c: bv32): Source {
    if c & 0x003e0007 == 0 then RegReg(AddOp, Reg2(c), Reg3(c))
    else if c & 0x003e0007 == 0x00020000 then RegReg(AdcOp, Reg2(c), Reg3(c))
    else if c & 0x003e0007 == 0x00040000 then RegReg(SubOp, Reg2(c), Reg3(c))
    else if c & 0x003e0007 == 0x00060000 then RegReg(SbbOp, Reg2(c), Reg3(c))
    else if c & 0x003e0007 == 0x00100000 then RegReg(XorOp, Reg2(c), Reg3(c))
    else if c & 0x003e0007 == 0x00120000 then RegReg(OrOp, Reg2(c), Reg3(c))
    else if c & 0x003e0007 == 0x00140000 then RegReg(AndOp, Reg2(c), Reg3(c))
    else if c & 0x003e0007 == 0x00160000 then RegReg(AndnOp, Reg2(c), Reg3(c))
    else if c & 0x003e0007 == 0x00180000 then RegReg(NandOp, Reg2(c), Reg3(c))
    else if c & 0x00003807 == 1 then ImmSrc(Imm(c))
    else if c & 0xffffc007 == 1 then RegSrc(Reg2(c))
    else if c & 7 == 1 then AddImm(Reg2(c), Imm(c))
    else if c & 7 == 2 then ExtrInsrt(Reg2(c), Reg3(c), SrcPos(c), Size(c), DstPos(c))
    else if c & 7 == 3 then ExtrShlDst(Reg2(c), Reg3(c), Size(c), DstPos(c))
    else ExtrShlSrc(Reg2(c), Reg3(c), SrcPos(c), Size(c))
  }

  /** The first nine tests of the chain. */
  predicate IsRegReg(c: bv32) {
    || c & 0x003e0007 == 0 || c & 0x003e0007 == 0x00020000 || c & 0x003e0007 == 0x00040000
    || c & 0x003e0007 == 0x00060000 || c & 0x003e0007 == 0x00100000 || c & 0x003e0007 == 0x00120000
    || c & 0x003e0007 == 0x00140000 || c & 0x003e0007 == 0x00160000 || c & 0x003e0007 == 0x00180000
  }

  function DecodeBody(c: bv32): (b: Body)
    ensures OkInstr(Instr(false, b))
  {
    if IsRegReg(c) then Compute(DecodeSource(c), DecodeUse(c), Reg1(c))
    else if c == 0x11 || c == 0x91 then Nop
    else if c & 0xfffff87f == 1 then Parm(Reg1(c))
    else if c & 7 == 1 || c & 7 == 2 || c & 7 == 3 || c & 7 == 4 then
      Compute(DecodeSource(c), DecodeUse(c), Reg1(c))
    else if c & 0x00003877 == 0x15 then ReadImm(Reg1(c), Imm(c))
    else if c & 0x77 == 0x15 then ReadAdd(Reg1(c), Reg2(c), Imm(c))
    else if c & 0x00003817 == 7 then Branch(Always, c & 0x20 != 0, Reg2(c), Imm(c))
    else if c & 0x17 == 7 then Branch(IfZero, c & 0x20 != 0, Reg2(c), Imm(c))
    else if c & 0x17 == 0x17 then Branch(IfNonZero, c & 0x20 != 0, Reg2(c), Imm(c))
    else Unknown
  }

  function Decode(c: bv32): (i: Instr)
    ensures OkInstr(i)
  {
    Instr(c & 0x80 != 0, DecodeBody(c))
  }

  function Program(code: seq<bv32>): (prog: seq<Instr>)
    requires |code| <= TWO32
    ensures OkProg(prog) && |prog| == |code| && forall i :: 0 <= i < |code| ==> prog[i] == Decode(code[i])
  {
    seq(|code|, i requires 0 <= i < |code| => Decode(code[i]))
  }

  // ---------------------------------------------------------------------
  // Arithmetic on 32 bits
  // ---------------------------------------------------------------------

  /** The low 32 bits. */
  function Cut(w: Word): Word { Words.And(w, Ones(32)) }

  function OfBits(w: Word): (x: U32) {
    MaskHighValue(w, 32);
    ThirtyTwo();
    Val(Cut(w))
  }

  lemma ThirtyTwo()
    ensures Pow2(32) == TWO32
  {
    assert Pow2(8) == 0x100;
    Pow2Sum(8, 8);
    Pow2Sum(16, 16);
  }

  /** Shift counts are taken modulo 32. */
  function Shl32(w: Word, n: nat): Word { Cut(Words.Shl(w, n % 32)) }

  function Shr32(w: Word, n: nat): Word { Words.Shr(Cut(w), n % 32) }

  /** `(1 << (size + 1)) - 1` */
  function LowMask(size: nat): Word { Ones((size + 1) % 32) }

  function RegOr0(regs: seq<U32>, r: nat): U32 {
    if r < |regs| then regs[r] else 0
  }

  function ToBits(x: U32): Word { FromNat(x) }

  function Minus(x: U32, y: U32): U32 { (x - y) % TWO32 }

  /** The carry flag is not implemented: `adc` and `sbb` are `add` and `sub`. */
  function RegRegResult(op: AluOp, x: U32, y: U32): U32 {
    match op
    case AddOp => Plus(x, y)
    case AdcOp => Plus(x, y)
    case SubOp => Minus(x, y)
    case SbbOp => Minus(x, y)
    case XorOp => OfBits(Words.Xor(ToBits(x), ToBits(y)))
    case OrOp => OfBits(Words.Or(ToBits(x), ToBits(y)))
    case AndOp => OfBits(Words.And(ToBits(x), ToBits(y)))
    case AndnOp => OfBits(Words.And(ToBits(x), Words.Not(ToBits(y))))
    case NandOp => OfBits(Words.Not(Words.And(ToBits(x), ToBits(y))))
  }

  /** `size + 1` bits of `x` from `from` on, moved to `to`. */
  function Extract(x: Word, from: nat, size: nat, to: nat): Word {
    Shl32(Shr32(Words.And(x, Shl32(LowMask(size), from)), from), to)
  }

  function Arith(src: Source, regs: seq<U32>): U32 {
    match src
    case RegReg(op, r2, r3) => RegRegResult(op, RegOr0(regs, r2), RegOr0(regs, r3))
    case ImmSrc(imm) => Plus(imm, 0)
    case RegSrc(r2) => RegOr0(regs, r2)
    case AddImm(r2, imm) => Plus(RegOr0(regs, r2), imm)
    case ExtrInsrt(r2, r3, src, size, dst) =>
      var kept := Words.And(ToBits(RegOr0(regs, r2)), Words.Not(Shl32(LowMask(size), dst)));
      OfBits(Words.Or(kept, Extract(ToBits(RegOr0(regs, r3)), src, size, dst)))
    case ExtrShlDst(r2, r3, size, dst) =>
      OfBits(Extract(ToBits(RegOr0(regs, r3)), RegOr0(regs, r2), size, dst))
    case ExtrShlSrc(r2, r3, src, size) =>
      OfBits(Extract(ToBits(RegOr0(regs, r3)), src, size, RegOr0(regs, r2)))
  }
}
