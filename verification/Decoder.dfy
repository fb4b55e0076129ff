/** The hardware decoder: the fields of an instruction word and the control signals made of them. */
module Decoder {
  import opened Words
  import opened Isa
  import opened Encoding

  // ----- Fields -----

  function Opcode(w: Word): (f: nat) ensures f < 8 { w / 0x2000_0000 }
  function Bit28(w: Word): bool { (w / 0x1000_0000) % 2 == 1 }
  function Bit13(w: Word): bool { (w / 0x2000) % 2 == 1 }
  function Bit5(w: Word): bool { (w / 0x20) % 2 == 1 }
  function Rs2(w: Word): Reg { (w / 0x4000) % 32 }
  function Rs1(w: Word): Reg { (w / 0x20) % 32 }
  function Rd(w: Word): Reg { w % 32 }
  function F4(w: Word): (f: nat) ensures f < 16 { (w / 0x400) % 16 }
  function F3(w: Word): (f: nat) ensures f < 8 { (w / 0x400) % 8 }
  function ImmI(w: Word): (f: nat) ensures f < 0x4000 { (w / 0x4000) % 0x4000 }
  function ImmLoad(w: Word): (f: nat) ensures f < 0x8000 { (w / 0x4000) % 0x8000 }
  function ImmS(w: Word): (f: nat) ensures f < 0x8000 { ((w / 0x8_0000) % 0x400) * 0x20 + w % 0x20 }
  function ImmB(w: Word): (f: nat)
    ensures f < 0x1_0000
  {
    ((w / 0x8_0000) % 0x400) * 0x40 + ((w / 0x2000) % 2) * 0x20 + w % 0x20
  }
  function ImmU(w: Word): (f: nat) ensures f < 0x10_0000 { (w / 0x200) % 0x10_0000 }
  function ImmJ(w: Word): (f: nat)
    ensures f < 0x400_0000
  {
    ((w / 0x2000) % 0x1_0000) * 0x400 + w % 0x400
  }

  // ----- Sign extension (common.svh) -----

  function SignExtend14(f: nat): Word
    requires f < 0x4000
  {
    if f >= 0x2000 then MODULUS - 0x4000 + f else f
  }

  function SignExtend15(f: nat): Word
    requires f < 0x8000
  {
    if f >= 0x4000 then MODULUS - 0x8000 + f else f
  }

  /** Fourteen ones before sixteen bits make thirty: the top two bits stay zero. */
  function SignExtend16(f: nat): Word
    requires f < 0x1_0000
  {
    if f >= 0x8000 then 0x4000_0000 - 0x1_0000 + f else f
  }

  function SignExtend26(f: nat): Word
    requires f < 0x400_0000
  {
    if f >= 0x200_0000 then MODULUS - 0x400_0000 + f else f
  }

  // ----- Signals -----

  datatype Mux = AluOut | LsuOut | Immediate | VectorToScalar

  datatype Decoded = Decoded(
    regWrite: bool, memWrite: bool, memRead: bool, branch: bool, mux: Mux, scalar: bool,
    immediate: Word, rd: Reg, rs1: Reg, rs2: Reg, alu: AluOp, halt: bool)

  /** The default assignments of a decode; the ALU operation has none and stays what it was. */
  function Defaults(previous: AluOp): Decoded {
    Decoded(false, false, false, false, AluOut, false, 0, 0, 0, 0, previous, false)
  }

  function RegisterOperation(f4: nat, previous: AluOp): AluOp {
    match f4
    case 0 => ADD
    case 1 => SUB
    case 2 => MUL
    case 11 => NEG
    case 4 => SLT
    case 5 => SLL
    case 6 => SEQ
    case 7 => SNEZ
    case 8 => MIN
    case 9 => ABS
    case _ => previous
  }

  function ImmediateOperation(f4: nat, previous: AluOp): AluOp {
    match f4
    case 0 => ADDI
    case 2 => MULI
    case 10 => SLLI
    case 11 => SEQI
    case _ => previous
  }

  function DecodeControl(w: Word, previous: AluOp): Decoded {
    var d := Defaults(previous);
    match F3(w)
    case 0 => d.(alu := JAL, immediate := SignExtend26(ImmJ(w)), scalar := true)
    case 1 => d.(rs1 := Rs1(w), rs2 := Rs2(w), immediate := SignExtend16(ImmB(w)), branch := true,
                 alu := BEQZ, scalar := true)
    case 2 => d.(rs1 := Rs1(w), rs2 := Rs2(w), immediate := SignExtend16(ImmB(w)), branch := true,
                 alu := BEQO, scalar := true)
    case 7 => d.(halt := true, scalar := true)
    case _ => d
  }

  function DecodeMemory(w: Word, previous: AluOp): Decoded {
    var d := Defaults(previous).(alu := ADDI, scalar := Bit13(w), rs1 := Rs1(w));
    match F3(w)
    case 0 => d.(rd := Rd(w), regWrite := true, mux := LsuOut, memRead := true,
                 immediate := SignExtend15(ImmLoad(w)))
    case 1 => d.(rs2 := Rs2(w), memWrite := true, immediate := SignExtend15(ImmS(w)))
    case 2 => d.(rd := Rd(w), regWrite := true, mux := LsuOut, memRead := true,
                 immediate := SignExtend15(ImmLoad(w)))
    case 3 => d.(rs2 := Rs2(w), memWrite := true, immediate := SignExtend15(ImmS(w)))
    case _ => Defaults(previous)
  }

  /** The signals after a decode of `w` when the ALU operation was `previous`. */
  function Decode(w: Word, previous: AluOp): Decoded {
    var d := Defaults(previous);
    match Opcode(w)
    case 7 => DecodeControl(w, previous)
    case 0 => d.(rd := Rd(w), rs1 := Rs1(w), rs2 := Rs2(w), regWrite := true, scalar := Bit28(w),
                 alu := RegisterOperation(F4(w), previous))
    case 1 => d.(rd := Rd(w), rs1 := Rs1(w), regWrite := true, scalar := Bit28(w),
                 immediate := SignExtend14(ImmI(w)), alu := ImmediateOperation(F4(w), previous))
    case 2 => d.(rd := Rd(w), rs1 := Rs1(w), rs2 := Rs2(w), regWrite := true, scalar := Bit28(w),
                 alu := if F4(w) == 3 || F4(w) > 10 then previous else FPU)
    case 4 => DecodeMemory(w, previous)
    case 3 => d.(rd := Rd(w), immediate := ImmU(w) * 0x1000, regWrite := true, mux := Immediate,
                 scalar := Bit5(w))
    case 5 => d.(rd := Rd(w), rs1 := Rs1(w), rs2 := Rs2(w), regWrite := true, mux := VectorToScalar,
                 alu := if F4(w) == 0 then SLT else previous)
    case _ => d
  }

  // ----- Fields of a sum -----

  /** A field of `n` values between higher fields and `m` values of lower ones. */
  lemma Field(w: int, high: int, f: nat, low: nat, n: nat, m: nat)
    requires f < n && low < m && w == (high * n + f) * m + low
    ensures (w / m) % n == f
  {
    QuotientUnique(w, m, high * n + f, low);
    QuotientUnique(high * n + f, n, high, f);
  }

  /** Where the fields of a word lie whose low 18 bits are rs2 or part of an immediate, and so on. */
  lemma LowFields(w: int, high: int, f4: nat, rs1: nat, rd: nat)
    requires f4 < 16 && rs1 < 32 && rd < 32 && w == high * 0x4000 + f4 * 0x400 + rs1 * 0x20 + rd
    ensures (w / 0x400) % 16 == f4 && (w / 0x400) % 8 == f4 % 8 && (w / 0x2000) % 2 == f4 / 8
    ensures (w / 0x20) % 32 == rs1 && w % 32 == rd && w / 0x4000 == high && w % 0x400 == rs1 * 0x20 + rd
  {
    Field(w, high, f4, rs1 * 0x20 + rd, 16, 0x400);
    Field(w, high * 2 + f4 / 8, f4 % 8, rs1 * 0x20 + rd, 8, 0x400);
    Field(w, high, f4 / 8, (f4 % 8) * 0x400 + rs1 * 0x20 + rd, 2, 0x2000);
    Field(w, high * 16 + f4, rs1, rd, 32, 0x20);
    QuotientUnique(w, 32, (high * 16 + f4) * 32 + rs1, rd);
    QuotientUnique(w, 0x4000, high, f4 * 0x400 + rs1 * 0x20 + rd);
    QuotientUnique(w, 0x400, high * 16 + f4, rs1 * 0x20 + rd);
  }

  /** The word above bit 14: the opcode, bit 28, and fourteen bits. */
  lemma HighFields(w: int, opcode: nat, bit: nat, field: nat, low: nat)
    requires bit < 2 && field < 0x4000 && low < 0x4000
    requires w == opcode * 0x2000_0000 + bit * 0x1000_0000 + field * 0x4000 + low
    ensures w / 0x2000_0000 == opcode && (w / 0x1000_0000) % 2 == bit
    ensures (w / 0x4000) % 0x4000 == field && (w / 0x4000) % 32 == field % 32
    ensures (w / 0x4000) % 0x8000 == bit * 0x4000 + field
    ensures (w / 0x8_0000) % 0x400 == bit * 0x200 + field / 32
  {
    QuotientUnique(w, 0x2000_0000, opcode, bit * 0x1000_0000 + field * 0x4000 + low);
    Field(w, opcode, bit, field * 0x4000 + low, 2, 0x1000_0000);
    Field(w, opcode * 2 + bit, field, low, 0x4000, 0x4000);
    Field(w, opcode * 0x400 + bit * 0x200 + field / 32, field % 32, low, 32, 0x4000);
    Field(w, opcode, bit * 0x4000 + field, low, 0x8000, 0x4000);
    Field(w, opcode, bit * 0x200 + field / 32, (field % 32) * 0x4000 + low, 0x400, 0x8_0000);
  }

  lemma RegisterFields(w: Word, opcode: nat, scalar: bool, rs2: Reg, f4: nat, rs1: Reg, rd: Reg)
    requires f4 < 16 && opcode < 8
    requires w == opcode * 0x2000_0000 + Bit(scalar) * 0x1000_0000 + rs2 * 0x4000 + f4 * 0x400 + rs1 * 0x20 + rd
    ensures Opcode(w) == opcode && Bit28(w) == scalar && Rs2(w) == rs2 && F4(w) == f4
    ensures Rs1(w) == rs1 && Rd(w) == rd
  {
    HighFields(w, opcode, Bit(scalar), rs2, f4 * 0x400 + rs1 * 0x20 + rd);
    LowFields(w, opcode * 0x8000 + Bit(scalar) * 0x4000 + rs2, f4, rs1, rd);
  }

  lemma ImmediateFields(w: Word, scalar: bool, field: nat, f4: nat, rs1: Reg, rd: Reg)
    requires f4 < 16 && field < 0x4000
    requires w == 1 * 0x2000_0000 + Bit(scalar) * 0x1000_0000 + field * 0x4000 + f4 * 0x400 + rs1 * 0x20 + rd
    ensures Opcode(w) == 1 && Bit28(w) == scalar && ImmI(w) == field && F4(w) == f4 && Rs1(w) == rs1 && Rd(w) == rd
  {
    HighFields(w, 1, Bit(scalar), field, f4 * 0x400 + rs1 * 0x20 + rd);
    LowFields(w, 0x8000 + Bit(scalar) * 0x4000 + field, f4, rs1, rd);
  }

  lemma LoadFields(w: Word, scalar: bool, field: nat, rs1: Reg, rd: Reg)
    requires field < 0x8000
    requires w == 4 * 0x2000_0000 + field * 0x4000 + Bit(scalar) * 0x2000 + rs1 * 0x20 + rd
    ensures Opcode(w) == 4 && Bit13(w) == scalar && ImmLoad(w) == field && F3(w) == 0 && Rs1(w) == rs1 && Rd(w) == rd
  {
    HighFields(w, 4, field / 0x4000, field % 0x4000, Bit(scalar) * 0x2000 + rs1 * 0x20 + rd);
    LowFields(w, 0x2_0000 + field, Bit(scalar) * 8, rs1, rd);
  }

  lemma StoreFields(w: Word, high: nat, rs2: Reg, scalar: bool, rs1: Reg, low: nat)
    requires high < 0x400 && low < 0x20
    requires w == 4 * 0x2000_0000 + high * 0x8_0000 + rs2 * 0x4000 + Bit(scalar) * 0x2000
                  + 1 * 0x400 + rs1 * 0x20 + low
    ensures Opcode(w) == 4 && ImmS(w) == high * 0x20 + low && Rs2(w) == rs2 && Rs1(w) == rs1
    ensures Bit13(w) == scalar && F3(w) == 1
  {
    HighFields(w, 4, high / 0x200, (high % 0x200) * 32 + rs2,
               Bit(scalar) * 0x2000 + 0x400 + rs1 * 0x20 + low);
    LowFields(w, 0x2_0000 + high * 32 + rs2, Bit(scalar) * 8 + 1, rs1, low);
  }

  lemma UpperFields(w: Word, field: nat, scalar: bool, rd: Reg)
    requires field < 0x10_0000 && w == 3 * 0x2000_0000 + field * 0x200 + Bit(scalar) * 0x20 + rd
    ensures Opcode(w) == 3 && ImmU(w) == field && Bit5(w) == scalar && Rd(w) == rd
  {
    var low := Bit(scalar) * 0x20 + rd;
    QuotientUnique(w, 0x2000_0000, 3, field * 0x200 + low);
    Field(w, 3, field, low, 0x10_0000, 0x200);
    Field(w, 0x180_0000 + field * 8, Bit(scalar), rd, 2, 0x20);
    QuotientUnique(w, 32, 0x300_0000 + field * 16 + Bit(scalar), rd);
  }

  lemma JumpFields(w: Word, high: nat, low: nat)
    requires high < 0x1_0000 && low < 0x400 && w == 7 * 0x2000_0000 + high * 0x2000 + low
    ensures Opcode(w) == 7 && F3(w) == 0 && ImmJ(w) == high * 0x400 + low
  {
    QuotientUnique(w, 0x2000_0000, 7, high * 0x2000 + low);
    Field(w, 7, high, low, 0x1_0000, 0x2000);
    Field(w, 7 * 0x1_0000 + high, 0, low, 8, 0x400);
    QuotientUnique(w, 0x400, (7 * 0x1_0000 + high) * 8, low);
  }

  lemma BranchFields(w: Word, high: nat, bit: nat, f3: nat, rs1: Reg, low: nat)
    requires high < 0x400 && bit < 2 && low < 0x20 && f3 < 8
    requires w == 7 * 0x2000_0000 + high * 0x8_0000 + bit * 0x2000 + f3 * 0x400 + rs1 * 0x20 + low
    ensures Opcode(w) == 7 && ImmB(w) == high * 0x40 + bit * 0x20 + low && Rs2(w) == 0
    ensures Rs1(w) == rs1 && F3(w) == f3
  {
    HighFields(w, 7, high / 0x200, (high % 0x200) * 32, bit * 0x2000 + f3 * 0x400 + rs1 * 0x20 + low);
    LowFields(w, 7 * 0x8000 + high * 32, bit * 8 + f3, rs1, low);
  }

  /** The high and the low part of a field put together again. */
  lemma SplitField(n: int, low: nat, high: nat)
    requires low > 0 && high > 0 && low * high > 0
    ensures ((n / low) % high) * low + n % low == n % (low * high)
  {
    var q, r := n / low, n % low;
    var p, h := q / high, q % high;
    SplitParts(n, low, high, q, r, p, h);
  }

  lemma SplitParts(n: int, low: nat, high: nat, q: int, r: nat, p: int, h: nat)
    requires n == q * low + r && q == p * high + h && r < low && h < high && low * high > 0
    ensures h * low + r == n % (low * high)
  {
    assert q * low == p * (low * high) + h * low by {
      assert (p * high + h) * low == p * high * low + h * low;
    }
    Scale(h + 1, high, low);
    QuotientUnique(n, low * high, p, h * low + r);
  }

  // ----- Round trips -----

  lemma RoundTripR(scalar: bool, op: AluOp, rd: Reg, rs1: Reg, rs2: Reg, previous: AluOp)
    requires RegisterOp(op)
    ensures Defaults(op).(rd := rd, rs1 := rs1, rs2 := if op.ABS? || op.SNEZ? then 0 else rs2,
              regWrite := true, scalar := scalar)
         == Decode(EncodeR(scalar, op, rd, rs1, rs2), previous)
  {
    hide Opcode, Bit28, Bit13, Bit5, Rs2, Rs1, Rd, F4, F3, ImmI, ImmLoad, ImmS, ImmB, ImmU, ImmJ;
    var second := if op.ABS? || op.SNEZ? then 0 else rs2;
    RegisterFields(EncodeR(scalar, op, rd, rs1, rs2), 0, scalar, second, Funct4(op), rs1, rd);
  }

  lemma ExtendedImmediate(op: AluOp, imm: int)
    ensures SignExtend14(ImmediateField(op, imm)) == if op.SLLI? then imm % 32 else Wrap(Residue(imm, 0x4000))
  {
  }

  lemma ExtendedOffset(imm: int)
    ensures SignExtend15(imm % 0x8000) == Wrap(Residue(imm, 0x8000))
  {
  }

  lemma ExtendedJump(words: int)
    ensures SignExtend26(words % 0x400_0000) == Wrap(Residue(words, 0x400_0000))
  {
  }

  lemma RoundTripI(scalar: bool, op: AluOp, rd: Reg, rs1: Reg, imm: int, previous: AluOp)
    requires ImmediateOp(op) || op.SEQI?
    ensures Defaults(op).(rd := rd, rs1 := rs1, regWrite := true, scalar := scalar,
              immediate := if op.SLLI? then imm % 32 else Wrap(Residue(imm, 0x4000)))
         == Decode(EncodeI(scalar, op, rd, rs1, imm), previous)
  {
    var w, field := EncodeI(scalar, op, rd, rs1, imm), ImmediateField(op, imm);
    ExtendedImmediate(op, imm);
    hide Opcode, Bit28, Bit13, Bit5, Rs2, Rs1, Rd, F4, F3, ImmI, ImmLoad, ImmS, ImmB, ImmU, ImmJ;
    hide SignExtend14, ImmediateField, Residue, Wrap;
    ImmediateFields(w, scalar, field, Funct4(op), rs1, rd);
  }

  lemma RoundTripLoad(scalar: bool, rd: Reg, rs1: Reg, imm: int, previous: AluOp)
    ensures Defaults(ADDI).(rd := rd, rs1 := rs1, regWrite := true, mux := LsuOut, memRead := true,
              scalar := scalar, immediate := Wrap(Residue(imm, 0x8000)))
         == Decode(EncodeLoad(scalar, rd, rs1, imm), previous)
  {
    hide Opcode, Bit28, Bit13, Bit5, Rs2, Rs1, Rd, F4, F3, ImmI, ImmLoad, ImmS, ImmB, ImmU, ImmJ;
    hide SignExtend15, Residue, Wrap;
    ExtendedOffset(imm);
    var w, field := EncodeLoad(scalar, rd, rs1, imm), imm % 0x8000;
    LoadFields(w, scalar, field, rs1, rd);
    hide EncodeLoad;
    assert Decode(w, previous) == DecodeMemory(w, previous);
  }

  lemma RoundTripStore(scalar: bool, rs2: Reg, rs1: Reg, imm: int, previous: AluOp)
    ensures Defaults(ADDI).(rs1 := rs1, rs2 := rs2, memWrite := true, scalar := scalar,
              immediate := Wrap(Residue(imm, 0x8000)))
         == Decode(EncodeStore(scalar, rs2, rs1, imm), previous)
  {
    ExtendedOffset(imm);
    hide Opcode, Bit28, Bit13, Bit5, Rs2, Rs1, Rd, F4, F3, ImmI, ImmLoad, ImmS, ImmB, ImmU, ImmJ;
    hide SignExtend15, Residue, Wrap;
    SplitField(imm, 0x20, 0x400);
    StoreFields(EncodeStore(scalar, rs2, rs1, imm), (imm / 0x20) % 0x400, rs2, scalar, rs1, imm % 0x20);
  }

  lemma RoundTripLui(scalar: bool, rd: Reg, up: int, previous: AluOp)
    ensures Defaults(previous).(rd := rd, regWrite := true, mux := Immediate, scalar := scalar,
              immediate := Wrap(up * 0x1000))
         == Decode(EncodeLui(scalar, rd, up), previous)
  {
    var field := up % 0x10_0000;
    QuotientUnique(up * 0x1000, MODULUS, up / 0x10_0000, field * 0x1000);
    hide Opcode, Bit28, Bit13, Bit5, Rs2, Rs1, Rd, F4, F3, ImmI, ImmLoad, ImmS, ImmB, ImmU, ImmJ;
    hide Wrap;
    UpperFields(EncodeLui(scalar, rd, up), field, scalar, rd);
  }

  lemma RoundTripX(rd: Reg, rs1: Reg, rs2: Reg, previous: AluOp)
    ensures Defaults(SLT).(rd := rd, rs1 := rs1, rs2 := rs2, regWrite := true, mux := VectorToScalar)
         == Decode(EncodeX(rd, rs1, rs2), previous)
  {
    hide Opcode, Bit28, Bit13, Bit5, Rs2, Rs1, Rd, F4, F3, ImmI, ImmLoad, ImmS, ImmB, ImmU, ImmJ;
    RegisterFields(EncodeX(rd, rs1, rs2), 5, false, rs2, 0, rs1, rd);
  }

  lemma RoundTripJump(offset: int, previous: AluOp)
    ensures Defaults(JAL).(scalar := true, immediate := Wrap(Residue(offset / 4, 0x400_0000)))
         == Decode(EncodeJump(offset), previous)
  {
    var imm := (offset / 4) % 0x400_0000;
    ExtendedJump(offset / 4);
    assert imm == (imm / 0x400) * 0x400 + imm % 0x400;
    hide Opcode, Bit28, Bit13, Bit5, Rs2, Rs1, Rd, F4, F3, ImmI, ImmLoad, ImmS, ImmB, ImmU, ImmJ;
    hide SignExtend26, Residue, Wrap;
    JumpFields(EncodeJump(offset), imm / 0x400, imm % 0x400);
  }

  lemma RoundTripExit(previous: AluOp)
    ensures Decode(EXIT, previous) == Defaults(previous).(halt := true, scalar := true)
  {
  }

  // ----- Other words -----

  /** The float loads and stores give the signals of the integer ones with the same fields. */
  lemma FloatMemory(w: Word, v: Word, previous: AluOp)
    requires Opcode(w) == 4 == Opcode(v) && F3(v) < 2 && F3(w) == F3(v) + 2
    requires Bit13(w) == Bit13(v) && Rd(w) == Rd(v) && Rs1(w) == Rs1(v) && Rs2(w) == Rs2(v)
    requires ImmLoad(w) == ImmLoad(v) && ImmS(w) == ImmS(v)
    ensures Decode(w, previous) == Decode(v, previous)
  {
    hide Opcode, Bit28, Bit13, Bit5, Rs2, Rs1, Rd, F4, F3, ImmI, ImmLoad, ImmS, ImmB, ImmU, ImmJ;
  }

  /** Ten operations go to the floating-point unit. */
  lemma FloatOperation(w: Word, previous: AluOp)
    requires Opcode(w) == 2
    ensures Defaults(if F4(w) in {0, 1, 2, 4, 5, 6, 7, 8, 9, 10} then FPU else previous)
              .(rd := Rd(w), rs1 := Rs1(w), rs2 := Rs2(w), regWrite := true, scalar := Bit28(w))
         == Decode(w, previous)
  {
    hide Opcode, Bit28, Bit13, Bit5, Rs2, Rs1, Rd, F4, F3, ImmI, ImmLoad, ImmS, ImmB, ImmU, ImmJ;
  }

  /** The words that have no operation write nothing, branch nowhere and leave the ALU operation. */
  lemma UnknownWord(w: Word, previous: AluOp)
    requires Opcode(w) == 6 || (Opcode(w) == 7 && F3(w) in {3, 4, 5, 6}) || (Opcode(w) == 4 && F3(w) >= 4)
    ensures var d := Decode(w, previous);
            && !d.regWrite && !d.memRead && !d.memWrite && !d.branch && !d.halt && !d.scalar && d.alu == previous
  {
    hide Opcode, Bit28, Bit13, Bit5, Rs2, Rs1, Rd, F4, F3, ImmI, ImmLoad, ImmS, ImmB, ImmU, ImmJ;
  }

  /** A reserved function code does the operation of the instruction before it. */
  lemma ReservedFunction(w: Word, previous: AluOp)
    requires (Opcode(w) == 0 && F4(w) in {3, 10, 12, 13, 14, 15}) || (Opcode(w) == 1 && F4(w) !in {0, 2, 10, 11})
    ensures Decode(w, previous).alu == previous && Decode(w, previous).regWrite
  {
    hide Opcode, Bit28, Bit13, Bit5, Rs2, Rs1, Rd, F4, F3, ImmI, ImmLoad, ImmS, ImmB, ImmU, ImmJ;
  }

  // ----- Branches -----

  /** What a decoded branch adds to the program counter when its label is `words` words away. */
  function BranchField(words: int): (f: nat)
    ensures f < 0x1_0000
  {
    var imm := words % 0x4_0000;
    (imm / 0x100) * 0x40 + ((imm / 0x80) % 2) * 0x20 + imm % 0x20
  }

  lemma RoundTripBranch(one: bool, rs1: Reg, offset: int, previous: AluOp)
    ensures Defaults(if one then BEQO else BEQZ).(rs1 := rs1, branch := true, scalar := true,
              immediate := SignExtend16(BranchField(offset / 4)))
         == Decode(EncodeBranch(one, rs1, offset), previous)
  {
    hide Opcode, Bit28, Bit13, Bit5, Rs2, Rs1, Rd, F4, F3, ImmI, ImmLoad, ImmS, ImmB, ImmU, ImmJ;
    hide SignExtend16;
    var imm := (offset / 4) % 0x4_0000;
    BranchFields(EncodeBranch(one, rs1, offset), imm / 0x100, (imm / 0x80) % 2, if one then 2 else 1, rs1, imm % 0x20);
  }

  lemma BranchDigits(imm: nat) returns (a: nat, b: nat, c: nat, d: nat)
    requires imm < 0x4_0000
    ensures imm == a * 0x100 + b * 0x80 + c * 0x20 + d && b < 2 && c < 4 && d < 0x20 && a < 0x400
    ensures imm / 0x100 == a && (imm / 0x80) % 2 == b && imm % 0x20 == d
  {
    a, b, c, d := imm / 0x100, (imm / 0x80) % 2, (imm / 0x20) % 4, imm % 0x20;
    SplitField(imm, 0x80, 2);
    SplitField(imm, 0x20, 4);
  }

  /** A branch lands on its label exactly when the label is 0 to 31 words ahead. */
  lemma BranchLands(words: int)
    requires -0x2000_0000 <= words < 0x2000_0000
    ensures SignExtend16(BranchField(words)) == Wrap(words) <==> 0 <= words < 32
  {
    var imm := words % 0x4_0000;
    var a, b, c, d := BranchDigits(imm);
    var f := a * 0x40 + b * 0x20 + d;
    if 0 <= words {
      QuotientUnique(words, MODULUS, 0, words);
      if words < 0x4_0000 {
        QuotientUnique(words, 0x4_0000, 0, words);
      }
    } else {
      QuotientUnique(words, MODULUS, -1, words + MODULUS);
    }
  }

  /**
   What a branch adds to the pc at every distance: bits 5 and 6 of the distance are gone, and a
   backward branch, up to 2^17 words, jumps ahead by almost 2^30.
   */
  lemma BranchDelivers(words: int)
    ensures var f := ((words % 0x4_0000) / 0x80) * 0x20 + words % 0x20;
            SignExtend16(BranchField(words)) == if f < 0x8000 then f else 0x3FFF_0000 + f
    ensures -0x2_0000 <= words < 0 ==> SignExtend16(BranchField(words)) >= 0x3FFF_8000
  {
    var imm := words % 0x4_0000;
    var a, b, c, d := BranchDigits(imm);
    QuotientUnique(imm, 0x80, a * 2 + b, c * 0x20 + d);
    QuotientUnique(words, 0x20, (words / 0x4_0000) * 0x2000 + a * 8 + b * 4 + c, d);
  }

  // ----- %hi and %lo -----

  /** resolveSymbol for `%hi(S)`, rounding, and for `%lo(S)`, the low 12 bits. */
  function High(address: int): int {
    (address + 0x800) / 0x1000
  }

  function Low(address: int): int {
    address % 0x1000
  }

  /**
   `lui r, %hi(S)` and a load with `%lo(S)(r)`: the low part is not negative to the decoder, so the
   rounding of the high part is right only below the middle of a page.
   */
  lemma HighLow(address: int, rd: Reg, dest: Reg, previous: AluOp)
    requires 0 <= address < 0x8000_0000 - 0x800
    ensures var upper := Decode(EncodeLui(true, rd, High(address)), previous).immediate;
            var lower := Decode(EncodeLoad(true, dest, rd, Low(address)), previous).immediate;
            Wrap(upper + lower) == if address % 0x1000 < 0x800 then address else address + 0x1000
  {
    hide Decode, Wrap, Residue, High, Low, EncodeLui, EncodeLoad;
    RoundTripLui(true, rd, High(address), previous);
    RoundTripLoad(true, dest, rd, Low(address), previous);
    HighLowSum(address);
  }

  lemma HighLowSum(address: int)
    requires 0 <= address < 0x8000_0000 - 0x800
    ensures Wrap(Wrap(High(address) * 0x1000) + Wrap(Residue(Low(address), 0x8000)))
         == if address % 0x1000 < 0x800 then address else address + 0x1000
  {
    var page, low := address / 0x1000, address % 0x1000;
    assert address == page * 0x1000 + low;
    var high := if low < 0x800 then page else page + 1;
    QuotientUnique(address + 0x800, 0x1000, high, if low < 0x800 then low + 0x800 else low - 0x800);
    QuotientUnique(low, 0x8000, 0, low);
    QuotientUnique(low, MODULUS, 0, low);
    QuotientUnique(high * 0x1000, MODULUS, 0, high * 0x1000);
    QuotientUnique(high * 0x1000 + low, MODULUS, 0, high * 0x1000 + low);
  }
}
