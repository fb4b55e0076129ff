/**
 What comes out of the assembler, line by line: the operands that stand for symbols, the word of every
 kind of instruction, and where each instruction and each data word ends up.
 */
module AssemblerLaws {
  import opened Words
  import opened Wrappers
  import opened Isa
  import opened Encoding
  import opened Decoder
  import opened Assembler

  // ----- Operands -----

  /** `v` is what an operand stands for; an unknown symbol and a number that is no `int` are zero. */
  predicate Denotes(o: Operand, labels: map<string, int>, v: int) {
    match o
    case Number(n) => v == if -0x8000_0000 <= n < 0x8000_0000 then n else 0
    case Symbol(s) => if s in labels then v == labels[s] else v == 0
    case Hi(s) => if s in labels then -0x800 <= labels[s] - 0x1000 * v < 0x800 else v == 0
    case Lo(s) => if s in labels then 0 <= v < 0x1000 && (labels[s] - v) % 0x1000 == 0 else v == 0
  }

  /** The page nearest to the address for `%hi`, the place in its page for `%lo`, and nothing else. */
  lemma OperandExact(o: Operand, labels: map<string, int>, v: int)
    ensures Denotes(o, labels, v) <==> v == Resolve(o, labels)
  {
    match o {
      case Hi(s) =>
        if s in labels {
          HighExact(labels[s], v);
        }
      case Lo(s) =>
        if s in labels {
          LowExact(labels[s], v);
        }
      case _ =>
    }
  }

  lemma HighExact(address: int, v: int)
    ensures -0x800 <= address - 0x1000 * v < 0x800 <==> v == High(address)
  {
    if -0x800 <= address - 0x1000 * v < 0x800 {
      QuotientUnique(address + 0x800, 0x1000, v, address + 0x800 - 0x1000 * v);
    }
  }

  lemma LowExact(address: int, v: int)
    ensures 0 <= v < 0x1000 && (address - v) % 0x1000 == 0 <==> v == Low(address)
  {
    if 0 <= v < 0x1000 && (address - v) % 0x1000 == 0 {
      QuotientUnique(address, 0x1000, (address - v) / 0x1000, v);
    } else if v == Low(address) {
      QuotientUnique(address - v, 0x1000, address / 0x1000, 0);
    }
  }

  /**
   `lui rd, %hi(S)` and then a load with `%lo(S)(rd)`, as the lines are assembled: the address formed
   is that of S in the lower half of its page, and 4096 more in the upper half.
   */
  lemma SymbolAddress(s: string, labels: map<string, int>, rd: Reg, dest: Reg, pc: int, previous: AluOp)
    requires s in labels && 0 <= labels[s] < 0x8000_0000 - 0x800
    ensures var lui := Encode(Ins.Lui(true, rd, Hi(s)), pc, labels);
            var load := Encode(Ins.Load(true, dest, Lo(s), rd), pc + 4, labels);
            && lui.Some? && load.Some?
            && var upper, lower := Decode(lui.value, previous), Decode(load.value, previous);
            && upper.mux == Immediate && upper.rd == rd && lower.memRead && lower.rs1 == rd && lower.rd == dest
            && Wrap(upper.immediate + lower.immediate)
               == if labels[s] % 0x1000 < 0x800 then labels[s] else labels[s] + 0x1000
  {
    hide Decode, High, Low, EncodeLui, EncodeLoad, Wrap, Residue;
    HighLow(labels[s], rd, dest, previous);
    RoundTripLui(true, rd, High(labels[s]), previous);
    RoundTripLoad(true, dest, rd, Low(labels[s]), previous);
  }

  // ----- The word of a line -----

  /** The immediate operand of an instruction, if it has one. */
  function OperandOf(i: Ins, labels: map<string, int>): Option<Operand> {
    match i
    case I(_, _, _, _, imm) => Some(imm)
    case Li(_, _, imm) => Some(imm)
    case Load(_, _, imm, _) => Some(imm)
    case Store(_, _, imm, _) => Some(imm)
    case Lui(_, _, imm) => Some(imm)
    case Sync(l) => if l in labels then Some(Number(labels[l] + 4)) else None
    case _ => None
  }

  /** Operations that have an encoding of their own. */
  predicate Encoded(i: Ins) {
    (i.R? ==> RegisterOp(i.op)) && (i.I? ==> ImmediateOp(i.op) || i.op.SEQI?)
  }

  /**
   What the decoder makes of every line, `v` being its operand's value. `ret` does nothing; a jump to an
   unknown label is the word 0, and so is `sync`, which otherwise puts the address after its label in x30.
   */
  predicate Assembled(i: Ins, pc: int, labels: map<string, int>, v: int, previous: AluOp, w: Word) {
    match i
    case R(op, scalar, rd, rs1, rs2) =>
      Decode(w, previous) == Defaults(op).(rd := rd, rs1 := rs1, regWrite := true, scalar := scalar,
                                           rs2 := if op.ABS? || op.SNEZ? then 0 else rs2)
    case I(op, scalar, rd, rs1, _) =>
      Decode(w, previous) == Defaults(op).(rd := rd, rs1 := rs1, regWrite := true, scalar := scalar,
                                           immediate := if op.SLLI? then v % 32 else Wrap(Residue(v, 0x4000)))
    case Li(scalar, rd, _) =>
      Decode(w, previous) == Defaults(ADDI).(rd := rd, rs1 := 0, regWrite := true, scalar := scalar,
                                             immediate := Wrap(Residue(v, 0x4000)))
    case Load(scalar, rd, _, rs1) =>
      Decode(w, previous) == Defaults(ADDI).(rd := rd, rs1 := rs1, regWrite := true, mux := LsuOut, memRead := true,
                                             scalar := scalar, immediate := Wrap(Residue(v, 0x8000)))
    case Store(scalar, rs2, _, rs1) =>
      Decode(w, previous) == Defaults(ADDI).(rs1 := rs1, rs2 := rs2, memWrite := true,
                                             scalar := scalar, immediate := Wrap(Residue(v, 0x8000)))
    case J(l) =>
      if l !in labels then w == 0 else
      Decode(w, previous)
        == Defaults(JAL).(scalar := true, immediate := Wrap(Residue((labels[l] - pc) / 4, 0x400_0000)))
    case Branch(one, rs1, l) =>
      if l !in labels then w == 0 else
      Decode(w, previous)
        == Defaults(if one then BEQO else BEQZ).(rs1 := rs1, branch := true, scalar := true,
                                                 immediate := SignExtend16(BranchField((labels[l] - pc) / 4)))
    case Lui(scalar, rd, _) =>
      Decode(w, previous) == Defaults(previous).(rd := rd, regWrite := true, mux := Immediate, scalar := scalar,
                                                 immediate := Wrap(v * 0x1000))
    case SxSlt(rd, rs1, rs2) =>
      Decode(w, previous) == Defaults(SLT).(rd := rd, rs1 := rs1, rs2 := rs2, regWrite := true, mux := VectorToScalar)
    case Sync(l) =>
      if l !in labels then w == 0 else
      Decode(w, previous) == Defaults(ADDI).(rd := 30, rs1 := 0, regWrite := true, scalar := true,
                                             immediate := Wrap(Residue(v, 0x4000)))
    case Exit => Decode(w, previous) == Defaults(previous).(halt := true, scalar := true)
    case Ret => Decode(w, previous) == Defaults(previous)
    case Rejected => false
  }

  lemma ArithmeticLine(i: Ins, pc: int, labels: map<string, int>, v: int, previous: AluOp)
    requires Encoded(i) && (i.R? || i.I? || i.Li?)
    requires OperandOf(i, labels).Some? ==> Denotes(OperandOf(i, labels).value, labels, v)
    ensures Encode(i, pc, labels).Some? && Assembled(i, pc, labels, v, previous, Encode(i, pc, labels).value)
  {
    hide Decode, EncodeR, EncodeI, EncodeLoad, EncodeStore, EncodeLui, EncodeX, EncodeJump, EncodeBranch;
    hide Residue, Wrap, SignExtend16, BranchField, Denotes, Resolve;
    if OperandOf(i, labels).Some? {
      OperandExact(OperandOf(i, labels).value, labels, v);
    }
    match i {
      case R(op, scalar, rd, rs1, rs2) => RoundTripR(scalar, op, rd, rs1, rs2, previous);
      case I(op, scalar, rd, rs1, _) => RoundTripI(scalar, op, rd, rs1, v, previous);
      case Li(scalar, rd, _) => RoundTripI(scalar, ADDI, rd, 0, v, previous);
    }
  }

  lemma MemoryLine(i: Ins, pc: int, labels: map<string, int>, v: int, previous: AluOp)
    requires Encoded(i) && (i.Load? || i.Store? || i.Lui?)
    requires OperandOf(i, labels).Some? ==> Denotes(OperandOf(i, labels).value, labels, v)
    ensures Encode(i, pc, labels).Some? && Assembled(i, pc, labels, v, previous, Encode(i, pc, labels).value)
  {
    hide Decode, EncodeR, EncodeI, EncodeLoad, EncodeStore, EncodeLui, EncodeX, EncodeJump, EncodeBranch;
    hide Residue, Wrap, SignExtend16, BranchField, Denotes, Resolve;
    if OperandOf(i, labels).Some? {
      OperandExact(OperandOf(i, labels).value, labels, v);
    }
    match i {
      case Load(scalar, rd, _, rs1) => RoundTripLoad(scalar, rd, rs1, v, previous);
      case Store(scalar, rs2, _, rs1) => RoundTripStore(scalar, rs2, rs1, v, previous);
      case Lui(scalar, rd, _) => RoundTripLui(scalar, rd, v, previous);
    }
  }

  lemma JumpLine(i: Ins, pc: int, labels: map<string, int>, v: int, previous: AluOp)
    requires Encoded(i) && (i.J? || i.Branch?)
    requires OperandOf(i, labels).Some? ==> Denotes(OperandOf(i, labels).value, labels, v)
    ensures Encode(i, pc, labels).Some? && Assembled(i, pc, labels, v, previous, Encode(i, pc, labels).value)
  {
    hide Decode, EncodeR, EncodeI, EncodeLoad, EncodeStore, EncodeLui, EncodeX, EncodeJump, EncodeBranch;
    hide Residue, Wrap, SignExtend16, BranchField, Denotes, Resolve;
    if i.J? && i.target in labels {
      RoundTripJump(labels[i.target] - pc, previous);
    } else if i.Branch? && i.target in labels {
      RoundTripBranch(i.one, i.rs1, labels[i.target] - pc, previous);
    }
  }

  lemma OtherLine(i: Ins, pc: int, labels: map<string, int>, v: int, previous: AluOp)
    requires Encoded(i) && (i.SxSlt? || i.Sync? || i.Exit? || i.Ret?)
    requires OperandOf(i, labels).Some? ==> Denotes(OperandOf(i, labels).value, labels, v)
    ensures Encode(i, pc, labels).Some? && Assembled(i, pc, labels, v, previous, Encode(i, pc, labels).value)
  {
    hide Decode, EncodeR, EncodeI, EncodeLoad, EncodeStore, EncodeLui, EncodeX, EncodeJump, EncodeBranch;
    hide Residue, Wrap, SignExtend16, BranchField, Denotes, Resolve;
    if OperandOf(i, labels).Some? {
      OperandExact(OperandOf(i, labels).value, labels, v);
    }
    match i {
      case SxSlt(rd, rs1, rs2) => RoundTripX(rd, rs1, rs2, previous);
      case Sync(l) =>
        if l in labels {
          RoundTripI(true, ADDI, 30, 0, v, previous);
        }
      case Exit => RoundTripExit(previous);
      case Ret => RetNothing(previous);
    }
  }

  /** The second pass writes for every line it does not reject the word that decodes to what the line says. */
  lemma LineAssembled(i: Ins, pc: int, labels: map<string, int>, v: int, previous: AluOp)
    requires Encoded(i) && !i.Rejected?
    requires OperandOf(i, labels).Some? ==> Denotes(OperandOf(i, labels).value, labels, v)
    ensures Encode(i, pc, labels).Some? && Assembled(i, pc, labels, v, previous, Encode(i, pc, labels).value)
  {
    hide Encode, Assembled, Denotes, OperandOf;
    match i {
      case R(_, _, _, _, _) => ArithmeticLine(i, pc, labels, v, previous);
      case I(_, _, _, _, _) => ArithmeticLine(i, pc, labels, v, previous);
      case Li(_, _, _) => ArithmeticLine(i, pc, labels, v, previous);
      case Load(_, _, _, _) => MemoryLine(i, pc, labels, v, previous);
      case Store(_, _, _, _) => MemoryLine(i, pc, labels, v, previous);
      case Lui(_, _, _) => MemoryLine(i, pc, labels, v, previous);
      case J(_) => JumpLine(i, pc, labels, v, previous);
      case Branch(_, _, _) => JumpLine(i, pc, labels, v, previous);
      case _ => OtherLine(i, pc, labels, v, previous);
    }
  }

  /** The decoder does not know `ret`. */
  lemma RetNothing(previous: AluOp)
    ensures Decode(RET, previous) == Defaults(previous)
  {
  }

  /** Words that the assembler's own tests expect, one of each format. */
  lemma ExpectedRegisters()
    ensures Encode(Ins.R(SUB, true, 8, 6, 7), 24, map[]) == Some(0x1001_C4C8)       // s.sub s3, s1, s2
    ensures Encode(Ins.R(SNEZ, true, 8, 6, 0), 56, map[]) == Some(0x1000_1CC8)      // s.snez s3, s1
    ensures Encode(Ins.R(ABS, false, 9, 9, 0), 68, map[]) == Some(0x0000_2529)      // v.abs v4, v4
  {
  }

  /** The function codes of all register and immediate operations. */
  lemma FunctionCodes(op: AluOp)
    requires RegisterOp(op)
    ensures EncodeR(true, op, 8, 6, 0)
         == 0x1000_00C8 + 0x400 * (match op
                                   case ADD => 0
                                   case SUB => 1
                                   case MUL => 2
                                   case SLT => 4
                                   case SLL => 5
                                   case SEQ => 6
                                   case SNEZ => 7
                                   case MIN => 8
                                   case ABS => 9
                                   case NEG => 11)
  {
  }

  lemma ExpectedImmediates()
    ensures Encode(Ins.Li(true, 9, Number(-5)), 64, map[]) == Some(0x3FFE_C009)     // s.li s4, -5
    ensures Encode(Ins.I(MULI, true, 8, 7, Number(10)), 32, map[]) == Some(0x3002_88E8)
    ensures Encode(Ins.I(SLLI, true, 8, 7, Number(2)), 40, map[]) == Some(0x3000_A8E8)
    ensures Encode(Ins.I(SEQI, true, 8, 6, Number(10)), 48, map[]) == Some(0x3002_ACC8)
  {
  }

  lemma ExpectedMemory()
    ensures Encode(Ins.Load(true, 7, Number(0), 2), 12, map[]) == Some(0x8000_2047) // s.lw s2, 0(sp)
    ensures Encode(Ins.Store(true, 8, Number(3), 2), 36, map[]) == Some(0x8002_2443) // s.sw s3, 3(sp)
  {
  }

  lemma ExpectedLabels()
    ensures Encode(Ins.J("for_end1"), 24, map["for_end1" := 40]) == Some(0xE000_0004)
    ensures Encode(Ins.Branch(false, 9, "for_end1"), 24, map["for_end1" := 40]) == Some(0xE000_0524)
    ensures Encode(Ins.Branch(true, 10, "branch1"), 52, map["branch1" := 56]) == Some(0xE000_0941)
    ensures Encode(Ins.Lui(true, 6, Hi(".LC0")), 4, map[".LC0" := 0]) == Some(0x6000_0026)
    ensures Encode(Ins.SxSlt(31, 6, 7), 12, map[]) == Some(0xA001_C0DF)
    ensures Encode(Ins.Exit, 20, map[]) == Some(0xE000_1C00)
  {
  }

  // ----- Data -----

  lemma {:induction false} DataGrows(lines: seq<Line>, m: nat, n: nat)
    requires m <= n <= |lines|
    ensures ScanTo(lines, m).data <= ScanTo(lines, n).data
    decreases n
  {
    if m < n {
      DataGrows(lines, m, n - 1);
    }
  }

  /** Line `i` is a `.word` in a data section. */
  predicate IsWord(lines: seq<Line>, i: nat)
    requires i < |lines|
  {
    && lines[i].Content? && lines[i].body.Some? && lines[i].body.value.Word?
    && !ScanTo(lines, i).section.Text?
  }

  /** The `.word` lines among the first `n`. */
  function WordLines(lines: seq<Line>, n: nat): (count: nat)
    requires n <= |lines|
  {
    if n == 0 then 0 else WordLines(lines, n - 1) + if IsWord(lines, n - 1) then 1 else 0
  }

  /** One word of output for each of them and for no other line. */
  lemma {:induction false} DataCounts(lines: seq<Line>, n: nat)
    requires n <= |lines|
    ensures |ScanTo(lines, n).data| == WordLines(lines, n)
  {
    if n > 0 {
      DataCounts(lines, n - 1);
    }
  }

  /** The word of the k-th `.word` line is the k-th word of the data output. */
  lemma WordInOutput(lines: seq<Line>, i: nat)
    requires i < |lines| && IsWord(lines, i)
    ensures var data := ScanTo(lines, |lines|).data;
            && WordLines(lines, i) < |data| == WordLines(lines, |lines|)
            && data[WordLines(lines, i)] == lines[i].body.value.w
  {
    DataCounts(lines, i);
    DataCounts(lines, |lines|);
    DataGrows(lines, i + 1, |lines|);
    assert ScanTo(lines, i + 1) == Scan(lines[i], ScanTo(lines, i));
  }

  /**
   A data label, defined for the last time at line `j`, finds in the output the `.word` that follows it at
   line `i`, exactly when nothing was passed over before the label.
   */
  lemma DataFound(lines: seq<Line>, j: nat, i: nat, l: string)
    requires j <= i < |lines| && DefinedAt(lines, j, l) && !ScanTo(lines, j).section.Text? && IsWord(lines, i)
    requires forall k :: j < k < |lines| ==> !DefinedAt(lines, k, l)
    requires forall k :: j <= k < i ==> !IsWord(lines, k)
    ensures var p, index := ScanTo(lines, |lines|), WordLines(lines, j);
            && index < |p.data| && p.data[index] == lines[i].body.value.w
            && l in p.labels && (p.labels[l] == 4 * index <==> Skipped(lines, j) == 0)
  {
    WordInOutput(lines, i);
    NoneBetween(lines, j, i);
    DataLabel(lines, j, l);
    DataCounts(lines, j);
  }

  lemma {:induction false} NoneBetween(lines: seq<Line>, j: nat, i: nat)
    requires j <= i <= |lines| && forall k :: j <= k < i ==> !IsWord(lines, k)
    ensures WordLines(lines, i) == WordLines(lines, j)
    decreases i
  {
    if j < i {
      NoneBetween(lines, j, i - 1);
    }
  }

  // ----- Text -----

  /** Line `i` holds something besides a label in the text section. */
  predicate IsCode(lines: seq<Line>, i: nat)
    requires i < |lines|
  {
    lines[i].Content? && lines[i].body.Some? && ScanTo(lines, i).section.Text?
  }

  function CodeLines(lines: seq<Line>, n: nat): (count: nat)
    requires n <= |lines|
  {
    if n == 0 then 0 else CodeLines(lines, n - 1) + if IsCode(lines, n - 1) then 1 else 0
  }

  lemma {:induction false} CodeCounts(lines: seq<Line>, n: nat)
    requires n <= |lines|
    ensures |ScanTo(lines, n).instructions| == CodeLines(lines, n)
  {
    if n > 0 {
      CodeCounts(lines, n - 1);
    }
  }

  /**
   The k-th such line is the k-th instruction, at the address that the lines before it add up to. A
   directive there is taken for an instruction, which the second pass rejects.
   */
  lemma CodeInOrder(lines: seq<Line>, i: nat)
    requires i < |lines| && IsCode(lines, i)
    ensures var all, k := ScanTo(lines, |lines|).instructions, CodeLines(lines, i);
            && k < |all| == CodeLines(lines, |lines|) && all[k].pc == ScanTo(lines, i).instrPc
            && (if lines[i].body.value.Code? then all[k].ins == lines[i].body.value.ins else all[k].ins == Rejected)
  {
    CodeCounts(lines, i);
    CodeCounts(lines, |lines|);
    InstructionsGrow(lines, i + 1, |lines|);
    assert ScanTo(lines, i + 1) == Scan(lines[i], ScanTo(lines, i));
  }

  // ----- Sections and alignment -----

  /** The section in force is that of the last line that names one, and `.text` before. */
  lemma {:induction false} SectionHolds(lines: seq<Line>, j: nat, n: nat)
    requires j <= n <= |lines| && (j == 0 || lines[j - 1].Switch?)
    requires forall k :: j <= k < n ==> !lines[k].Switch?
    ensures ScanTo(lines, n).section == if j == 0 then Section.Text else lines[j - 1].section
    decreases n
  {
    if j < n {
      SectionHolds(lines, j, n - 1);
    }
  }

  /** Alignment goes to the next multiple of the size, and nowhere when already at one. */
  lemma RoundUpExact(pc: int, size: nat, to: int)
    requires size > 0
    ensures to == RoundUp(pc, size) <==> pc <= to < pc + size && to % size == 0
  {
    var q, r := (pc + size - 1) / size, (pc + size - 1) % size;
    assert pc + size - 1 == q * size + r;
    QuotientUnique(q * size, size, q, 0);
    if pc <= to < pc + size && to % size == 0 {
      QuotientUnique(pc + size - 1, size, to / size, pc + size - 1 - to);
    }
  }

  /** An alignment line moves the address of its own section only, to a multiple of 2^bits. */
  lemma Aligns(line: Line, p: Pass)
    requires line.Align?
    ensures var q, size := Scan(line, p), Pow2(line.bits);
            && q == p.(instrPc := q.instrPc, dataPc := q.dataPc)
            && (if p.section.Text? then q.dataPc == p.dataPc && p.instrPc <= q.instrPc < p.instrPc + size
                                        && q.instrPc % size == 0
                else q.instrPc == p.instrPc && p.dataPc <= q.dataPc < p.dataPc + size && q.dataPc % size == 0)
  {
    RoundUpExact(p.instrPc, Pow2(line.bits), RoundUp(p.instrPc, Pow2(line.bits)));
    RoundUpExact(p.dataPc, Pow2(line.bits), RoundUp(p.dataPc, Pow2(line.bits)));
  }
}
