/**
 The instruction words that the assembler writes, as sums of the shifted fields: the fields of one
 word do not overlap, so a sum is the bitwise or. `n / 2^k` is an arithmetic shift to the right and
 `n % 2^k` a mask, also for negative numbers.
 */
module Encoding {
  import opened Words
  import opened Isa

  function Bit(b: bool): (n: nat)
    ensures n < 2
  {
    if b then 1 else 0
  }

  /** rTypeFunctMap and iTypeFunctMap, without the divisions that the decoder does not know. */
  function Funct4(op: AluOp): (f: nat)
    ensures f < 16
  {
    match op
    case ADD => 0
    case SUB => 1
    case MUL => 2
    case SLT => 4
    case SLL => 5
    case SEQ => 6
    case SNEZ => 7
    case MIN => 8
    case ABS => 9
    case NEG => 11
    case ADDI => 0
    case MULI => 2
    case SLLI => 10
    case SEQI => 11
    case _ => 0
  }

  /** The value of the low bits of a number when they are read as signed, `m` being 2^width. */
  function Residue(n: int, m: int): (r: int)
    requires m > 0 && m % 2 == 0
    ensures -(m / 2) <= r < m / 2
  {
    if n % m < m / 2 then n % m else n % m - m
  }

  function EncodeR(scalar: bool, op: AluOp, rd: Reg, rs1: Reg, rs2: Reg): Word {
    Bit(scalar) * 0x1000_0000 + (if op.ABS? || op.SNEZ? then 0 else rs2) * 0x4000
    + Funct4(op) * 0x400 + rs1 * 0x20 + rd
  }

  /** `slli` keeps five bits of its immediate, the others fourteen. */
  function ImmediateField(op: AluOp, imm: int): (f: nat)
    ensures f < 0x4000
  {
    if op.SLLI? then imm % 0x20 else imm % 0x4000
  }

  function EncodeI(scalar: bool, op: AluOp, rd: Reg, rs1: Reg, imm: int): Word {
    1 * 0x2000_0000 + Bit(scalar) * 0x1000_0000 + ImmediateField(op, imm) * 0x4000
    + Funct4(op) * 0x400 + rs1 * 0x20 + rd
  }

  function EncodeLoad(scalar: bool, rd: Reg, rs1: Reg, imm: int): Word {
    4 * 0x2000_0000 + (imm % 0x8000) * 0x4000 + Bit(scalar) * 0x2000 + 0 * 0x400 + rs1 * 0x20 + rd
  }

  function EncodeStore(scalar: bool, rs2: Reg, rs1: Reg, imm: int): Word {
    4 * 0x2000_0000 + ((imm / 0x20) % 0x400) * 0x8_0000 + rs2 * 0x4000 + Bit(scalar) * 0x2000
    + 1 * 0x400 + rs1 * 0x20 + imm % 0x20
  }

  function EncodeLui(scalar: bool, rd: Reg, up: int): Word {
    3 * 0x2000_0000 + (up % 0x10_0000) * 0x200 + Bit(scalar) * 0x20 + rd
  }

  /** `sx.slt` */
  function EncodeX(rd: Reg, rs1: Reg, rs2: Reg): Word {
    5 * 0x2000_0000 + rs2 * 0x4000 + rs1 * 0x20 + rd
  }

  /** `j`, from the byte distance to the label. */
  function EncodeJump(offset: int): Word {
    var imm := (offset / 4) % 0x400_0000;
    7 * 0x2000_0000 + (imm / 0x400) * 0x2000 + 0 * 0x400 + imm % 0x400
  }

  /** `beqz` and `beqo`: 18 bits of distance, of which bits 5 and 6 have no place. */
  function EncodeBranch(one: bool, rs1: Reg, offset: int): Word {
    var imm := (offset / 4) % 0x4_0000;
    7 * 0x2000_0000 + (imm / 0x100) * 0x8_0000 + ((imm / 0x80) % 2) * 0x2000
    + (if one then 2 else 1) * 0x400 + rs1 * 0x20 + imm % 0x20
  }

  const EXIT: Word := 7 * 0x2000_0000 + 7 * 0x400
  const RET: Word := 7 * 0x2000_0000 + 3 * 0x400 + 0x20
}
