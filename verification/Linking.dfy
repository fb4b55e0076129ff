/**
 From labelled text to words in instruction memory: assembling the text and running its words by the
 instruction set follows the labelled machine line by line.
 */
module Linking {
  import opened Words
  import opened Wrappers
  import opened Isa
  import opened Asm
  import opened Encoding
  import opened Decoder
  import opened Labels
  import A = Assembler
  import R = Refinement

  // ----- The text as the assembler reads it -----

  function Tokens(line: Line): A.Line {
    match line
    case Mark(l) => A.Content(Some(Text(l)), None)
    case Op(i) => A.Content(None, Some(A.Code(OpTokens(i))))
    case Li(rd, n) => A.Content(None, Some(A.Code(A.Ins.Li(true, rd, A.Number(n)))))
    case JumpTo(l) => A.Content(None, Some(A.Code(A.J(Text(l)))))
    case BeqzTo(rs, l) => A.Content(None, Some(A.Code(A.Branch(false, rs, Text(l)))))
  }

  /** Jumps and branches are written with labels only. */
  function OpTokens(i: Instruction): A.Ins {
    match i
    case Alu(op, rd, rs1, rs2) => A.R(op, true, rd, rs1, rs2)
    case AluImm(op, rd, rs1, imm) => A.I(op, true, rd, rs1, A.Number(imm))
    case Lw(rd, rs1, imm) => A.Load(true, rd, A.Number(imm), rs1)
    case Sw(rs2, rs1, imm) => A.Store(true, rs2, A.Number(imm), rs1)
    case Exit => A.Ins.Exit
    case _ => A.Rejected
  }

  function AllTokens(text: seq<Line>): (lines: seq<A.Line>)
    ensures |lines| == |text| && forall k :: 0 <= k < |text| ==> lines[k] == Tokens(text[k])
  {
    seq(|text|, k requires 0 <= k < |text| => Tokens(text[k]))
  }

  /** How many instructions come before line `n`. */
  function Index(text: seq<Line>, n: nat): (k: nat)
    requires n <= |text|
    ensures k <= n
  {
    if n == 0 then 0 else Index(text, n - 1) + if text[n - 1].Mark? then 0 else 1
  }

  function Program(text: seq<Line>): seq<Word> {
    var p := A.ScanTo(AllTokens(text), |text|);
    A.Output(p.instructions, p.labels)
  }

  // ----- What can be encoded -----

  predicate FitsField(n: int, m: nat)
  {
    0 - m <= n < m
  }

  /** Operands that survive their fields, and branches within 31 words ahead. */
  predicate EncodableLine(text: seq<Line>, k: nat)
    requires k < |text|
  {
    match text[k]
    case Mark(_) => true
    case Op(Alu(op, _, _, _)) => RegisterOp(op)
    case Op(AluImm(op, _, _, imm)) =>
      ImmediateOp(op) && if op.SLLI? then 0 <= imm < 32 else FitsField(imm, 0x2000)
    case Op(Lw(_, _, imm)) => FitsField(imm, 0x4000)
    case Op(Sw(_, _, imm)) => FitsField(imm, 0x4000)
    case Op(Exit) => true
    case Op(_) => false
    case Li(_, n) => FitsField(n, 0x2000)
    case JumpTo(l) =>
      Find(text, l) < |text| && -0x200_0000 <= Index(text, Find(text, l)) - Index(text, k) < 0x200_0000
    case BeqzTo(_, l) =>
      Find(text, l) < |text| && 0 <= Index(text, Find(text, l)) - Index(text, k) < 32
  }

  ghost predicate Encodable(text: seq<Line>) {
    && |text| < 0x2000_0000
    && (forall k :: 0 <= k < |text| ==> EncodableLine(text, k))
    && (forall k :: 0 <= k < |text| && text[k].Mark? ==> Made(text[k].target))
  }

  // ----- Scanning -----

  /** The pass over the first lines has met as many instructions as there are. */
  lemma {:induction false} Scanned(text: seq<Line>, n: nat)
    requires n <= |text|
    ensures var p := A.ScanTo(AllTokens(text), n);
            p.section.Text? && |p.instructions| == Index(text, n)
  {
    hide Tokens, A.Scan, A.InsOf;
    if n > 0 {
      Scanned(text, n - 1);
      ScanToken(text[n - 1], A.ScanTo(AllTokens(text), n - 1));
    }
  }

  /** And has put each in its place. */
  lemma ScannedLine(text: seq<Line>, k: nat, n: nat)
    requires k < n <= |text| && !text[k].Mark?
    ensures var p := A.ScanTo(AllTokens(text), n);
            && Index(text, k) < Index(text, n) == |p.instructions|
            && p.instructions[Index(text, k)].ins == A.InsOf(Tokens(text[k]).body.value)
  {
    hide Tokens, A.Scan, A.InsOf;
    var p := A.ScanTo(AllTokens(text), k);
    Scanned(text, k);
    Scanned(text, k + 1);
    Scanned(text, n);
    ScanToken(text[k], p);
    assert A.ScanTo(AllTokens(text), k + 1) == A.Scan(Tokens(text[k]), p);
    A.InstructionsGrow(AllTokens(text), k + 1, n);
  }

  lemma ScanToken(line: Line, p: A.Pass)
    requires p.section.Text?
    ensures line.Mark? || (Tokens(line).Content? && Tokens(line).body.Some?)
    ensures var q := A.Scan(Tokens(line), p);
            && q.section.Text?
            && q.instructions == p.instructions + if line.Mark? then []
                                  else [A.Placed(p.instrPc, A.InsOf(Tokens(line).body.value))]
  {
  }

  lemma NoAlignment(text: seq<Line>)
    ensures A.Aligned(AllTokens(text))
  {
  }

  lemma {:induction false} IndexMonotone(text: seq<Line>, m: nat, n: nat)
    requires m <= n <= |text|
    ensures Index(text, m) <= Index(text, n)
    decreases n
  {
    if m < n {
      IndexMonotone(text, m, n - 1);
    }
  }

  /** Every instruction of the program comes from a line. */
  lemma {:induction false} LineOf(text: seq<Line>, i: nat, n: nat) returns (k: nat)
    requires n <= |text| && i < Index(text, n)
    ensures k < n && !text[k].Mark? && Index(text, k) == i
    decreases n
  {
    if i < Index(text, n - 1) {
      k := LineOf(text, i, n - 1);
    } else {
      k := n - 1;
    }
  }

  lemma NothingRejected(text: seq<Line>)
    requires Encodable(text)
    ensures var p := A.ScanTo(AllTokens(text), |text|);
            forall i :: 0 <= i < |p.instructions| ==> !p.instructions[i].ins.Rejected?
  {
    var p := A.ScanTo(AllTokens(text), |text|);
    Scanned(text, |text|);
    forall i | 0 <= i < |p.instructions| ensures !p.instructions[i].ins.Rejected? {
      var k := LineOf(text, i, |text|);
      ScannedLine(text, k, |text|);
      assert EncodableLine(text, k);
    }
  }

  lemma OtherText(text: seq<Line>, i: nat, j: nat)
    requires Encodable(text) && Unique(text) && i < j < |text| && text[i].Mark? && text[j].Mark?
    ensures Text(text[j].target) != Text(text[i].target)
  {
    if Text(text[j].target) == Text(text[i].target) {
      TextInjective(text[j].target, text[i].target);
    }
  }

  /** The address of a label is that of the first instruction after its line. */
  lemma LabelPlaced(text: seq<Line>, l: Label)
    requires Encodable(text) && Unique(text) && Find(text, l) < |text|
    ensures var p := A.ScanTo(AllTokens(text), |text|);
            Text(l) in p.labels && p.labels[Text(l)] == 4 * Index(text, Find(text, l))
  {
    var lines, j := AllTokens(text), Find(text, l);
    NoAlignment(text);
    Scanned(text, j);
    forall i | j < i < |lines| ensures !A.DefinedAt(lines, i, Text(l)) {
      if text[i].Mark? {
        OtherText(text, j, i);
      }
    }
    A.LabelIndex(lines, j, Text(l));
  }

  /** The word of a line. */
  lemma WordOfLine(text: seq<Line>, k: nat)
    requires Encodable(text) && k < |text| && !text[k].Mark?
    ensures var p := A.ScanTo(AllTokens(text), |text|);
            && Index(text, k) < |Program(text)| == Index(text, |text|)
            && Some(Program(text)[Index(text, k)])
               == A.Encode(A.InsOf(Tokens(text[k]).body.value), 4 * Index(text, k), p.labels)
  {
    NoAlignment(text);
    NothingRejected(text);
    ScannedLine(text, k, |text|);
    A.WordAt(AllTokens(text), Index(text, k));
  }

  // ----- What the words mean -----

  lemma ReadsR(op: AluOp, rd: Reg, rs1: Reg, rs2: Reg)
    requires RegisterOp(op)
    ensures R.InstructionOf(EncodeR(true, op, rd, rs1, rs2))
         == Some(Instruction.Alu(op, rd, rs1, if op.ABS? || op.SNEZ? then 0 else rs2))
  {
    hide Opcode, Bit28, Bit13, Bit5, Rs2, Rs1, Rd, F4, F3, ImmI, ImmLoad, ImmS, ImmB, ImmU, ImmJ;
    var second := if op.ABS? || op.SNEZ? then 0 else rs2;
    RegisterFields(EncodeR(true, op, rd, rs1, rs2), 0, true, second, Funct4(op), rs1, rd);
  }

  lemma ReadsI(op: AluOp, rd: Reg, rs1: Reg, imm: int)
    requires ImmediateOp(op)
    ensures R.InstructionOf(EncodeI(true, op, rd, rs1, imm))
         == Some(AluImm(op, rd, rs1, SignExtend14(ImmediateField(op, imm))))
  {
    hide Opcode, Bit28, Bit13, Bit5, Rs2, Rs1, Rd, F4, F3, ImmI, ImmLoad, ImmS, ImmB, ImmU, ImmJ;
    hide SignExtend14, ImmediateField;
    ImmediateFields(EncodeI(true, op, rd, rs1, imm), true, ImmediateField(op, imm), Funct4(op), rs1, rd);
  }

  lemma ReadsLoad(rd: Reg, rs1: Reg, imm: int)
    ensures R.InstructionOf(EncodeLoad(true, rd, rs1, imm)) == Some(Lw(rd, rs1, SignExtend15(imm % 0x8000)))
  {
    hide Opcode, Bit28, Bit13, Bit5, Rs2, Rs1, Rd, F4, F3, ImmI, ImmLoad, ImmS, ImmB, ImmU, ImmJ;
    hide SignExtend15;
    LoadFields(EncodeLoad(true, rd, rs1, imm), true, imm % 0x8000, rs1, rd);
  }

  lemma ReadsStore(rs2: Reg, rs1: Reg, imm: int)
    ensures R.InstructionOf(EncodeStore(true, rs2, rs1, imm)) == Some(Sw(rs2, rs1, SignExtend15(imm % 0x8000)))
  {
    hide Opcode, Bit28, Bit13, Bit5, Rs2, Rs1, Rd, F4, F3, ImmI, ImmLoad, ImmS, ImmB, ImmU, ImmJ;
    hide SignExtend15;
    SplitField(imm, 0x20, 0x400);
    StoreFields(EncodeStore(true, rs2, rs1, imm), (imm / 0x20) % 0x400, rs2, true, rs1, imm % 0x20);
  }

  lemma ReadsJump(offset: int)
    ensures R.InstructionOf(EncodeJump(offset)) == Some(Jump(SignExtend26((offset / 4) % 0x400_0000)))
  {
    hide Opcode, Bit28, Bit13, Bit5, Rs2, Rs1, Rd, F4, F3, ImmI, ImmLoad, ImmS, ImmB, ImmU, ImmJ;
    hide SignExtend26;
    var imm := (offset / 4) % 0x400_0000;
    assert imm == (imm / 0x400) * 0x400 + imm % 0x400;
    JumpFields(EncodeJump(offset), imm / 0x400, imm % 0x400);
  }

  lemma ReadsBranch(rs1: Reg, offset: int)
    ensures R.InstructionOf(EncodeBranch(false, rs1, offset))
         == Some(BranchZero(rs1, SignExtend16(BranchField(offset / 4))))
  {
    hide Opcode, Bit28, Bit13, Bit5, Rs2, Rs1, Rd, F4, F3, ImmI, ImmLoad, ImmS, ImmB, ImmU, ImmJ;
    hide SignExtend16;
    var imm := (offset / 4) % 0x4_0000;
    BranchFields(EncodeBranch(false, rs1, offset), imm / 0x100, (imm / 0x80) % 2, 1, rs1, imm % 0x20);
  }

  lemma ReadsExit()
    ensures R.InstructionOf(EXIT) == Some(Instruction.Exit)
  {
  }

  // ----- Executing them -----

  lemma WrapWrap(x: int, y: int)
    ensures Wrap(x + Wrap(y)) == Wrap(x + y) && Wrap(x * Wrap(y)) == Wrap(x * y)
  {
    WrapAdd(x, y);
    WrapMul(x, y);
  }

  /** An immediate in range comes back as itself, modulo 2^32. */
  lemma FieldValue(n: int, m: nat)
    requires 0 < m && FitsField(n, m) && 2 * m < MODULUS
    ensures var f := n % (2 * m); Wrap(n) == if f >= m then MODULUS - 2 * m + f else f
  {
    if n >= 0 {
      QuotientUnique(n, 2 * m, 0, n);
      QuotientUnique(n, MODULUS, 0, n);
    } else {
      QuotientUnique(n, 2 * m, -1, n + 2 * m);
      QuotientUnique(n, MODULUS, -1, n + MODULUS);
    }
  }

  lemma Extended14(n: int)
    requires FitsField(n, 0x2000)
    ensures SignExtend14(n % 0x4000) == Wrap(n)
  {
    FieldValue(n, 0x2000);
  }

  lemma Extended15(n: int)
    requires FitsField(n, 0x4000)
    ensures SignExtend15(n % 0x8000) == Wrap(n)
  {
    FieldValue(n, 0x4000);
  }

  lemma Extended26(n: int)
    requires FitsField(n, 0x200_0000)
    ensures SignExtend26(n % 0x400_0000) == Wrap(n)
  {
    FieldValue(n, 0x200_0000);
  }

  /** An immediate operation, a load or a store depends on its immediate modulo 2^32 only. */
  lemma ImmediateEffect(op: AluOp, rd: Reg, rs1: Reg, imm: int, s: Store)
    requires ImmediateOp(op) && if op.SLLI? then 0 <= imm < 32 else FitsField(imm, 0x2000)
    ensures Effect(AluImm(op, rd, rs1, SignExtend14(ImmediateField(op, imm))), s)
         == Effect(AluImm(op, rd, rs1, imm), s)
  {
    if !op.SLLI? {
      hide SignExtend14, Wrap;
      Extended14(imm);
      WrapWrap(s.regs[rs1], imm);
    }
  }

  lemma MemoryEffect(r: Reg, rs1: Reg, imm: int, s: Store)
    requires FitsField(imm, 0x4000)
    ensures Effect(Lw(r, rs1, SignExtend15(imm % 0x8000)), s) == Effect(Lw(r, rs1, imm), s)
    ensures Effect(Sw(r, rs1, SignExtend15(imm % 0x8000)), s) == Effect(Sw(r, rs1, imm), s)
  {
    hide SignExtend15, Wrap;
    Extended15(imm);
    WrapWrap(s.regs[rs1], imm);
  }

  // ----- The simulation -----

  /** The program is in instruction memory from `base` on. */
  predicate Loaded(imem: Memory, words: seq<Word>, base: nat) {
    base + |words| < MODULUS && forall k :: 0 <= k < |words| ==> Load(imem, base + k) == words[k]
  }

  /** The machine at a line and the instruction set at the word of that line. */
  predicate Same(text: seq<Line>, base: nat, c: Config, a: State) {
    c.pc <= |text| && a == State(Wrap(base + Index(text, c.pc)), c.store)
  }

  ghost predicate Linked(text: seq<Line>, imem: Memory, base: nat) {
    Encodable(text) && Unique(text) && Loaded(imem, Program(text), base)
  }

  lemma MarkStep(text: seq<Line>, base: nat, c: Config, a: State)
    requires Same(text, base, c, a) && c.pc < |text| && text[c.pc].Mark?
    ensures Step(text, c).Some? && Same(text, base, Step(text, c).value, a)
  {
  }

  /** The word at the program counter. */
  lemma WordHere(text: seq<Line>, imem: Memory, base: nat, c: Config, a: State)
    requires Linked(text, imem, base) && Same(text, base, c, a) && c.pc < |text| && !text[c.pc].Mark?
    ensures var p := A.ScanTo(AllTokens(text), |text|);
            Some(Load(imem, a.pc)) == A.Encode(A.InsOf(Tokens(text[c.pc]).body.value), 4 * Index(text, c.pc), p.labels)
    ensures a.pc == base + Index(text, c.pc) && Index(text, c.pc + 1) == Index(text, c.pc) + 1
    ensures a.pc + 1 < MODULUS
  {
    hide A.Encode, A.InsOf, Tokens, A.ScanTo, Encodable, Unique, Program;
    WordOfLine(text, c.pc);
    var k := Index(text, c.pc);
    QuotientUnique(base + k, MODULUS, 0, base + k);
    assert Load(imem, base + k) == Program(text)[k];
  }

  /** The word of a line that does not branch has the line's effect. */
  lemma StraightWord(text: seq<Line>, imem: Memory, base: nat, c: Config, a: State)
    returns (i: Instruction)
    requires Linked(text, imem, base) && Same(text, base, c, a) && c.pc < |text| && Straight(text[c.pc])
    ensures R.At(imem, a) == Some(i) && (i.Alu? || i.AluImm? || i.Lw? || i.Sw?)
    ensures Effect(i, c.store) == LineEffect(text[c.pc], c.store)
  {
    hide R.InstructionOf, EncodeR, EncodeI, EncodeLoad, EncodeStore, SignExtend14, SignExtend15, Effect;
    hide Same, Index, A.ScanTo, ImmediateField;
    WordHere(text, imem, base, c, a);
    assert EncodableLine(text, c.pc);
    match text[c.pc]
    case Li(rd, n) =>
      ReadsI(ADDI, rd, 0, n);
      ImmediateEffect(ADDI, rd, 0, n, c.store);
      i := AluImm(ADDI, rd, 0, SignExtend14(ImmediateField(ADDI, n)));
    case Op(Alu(op, rd, rs1, rs2)) =>
      ReadsR(op, rd, rs1, rs2);
      SecondUnused(op, rd, rs1, rs2, c.store);
      i := Instruction.Alu(op, rd, rs1, if op.ABS? || op.SNEZ? then 0 else rs2);
    case Op(AluImm(op, rd, rs1, imm)) =>
      ReadsI(op, rd, rs1, imm);
      ImmediateEffect(op, rd, rs1, imm, c.store);
      i := AluImm(op, rd, rs1, SignExtend14(ImmediateField(op, imm)));
    case Op(Lw(rd, rs1, imm)) =>
      ReadsLoad(rd, rs1, imm);
      MemoryEffect(rd, rs1, imm, c.store);
      i := Lw(rd, rs1, SignExtend15(imm % 0x8000));
    case Op(Sw(rs2, rs1, imm)) =>
      ReadsStore(rs2, rs1, imm);
      MemoryEffect(rs2, rs1, imm, c.store);
      i := Sw(rs2, rs1, SignExtend15(imm % 0x8000));
  }

  lemma StraightStep(text: seq<Line>, imem: Memory, base: nat, c: Config, a: State)
    requires Linked(text, imem, base) && Same(text, base, c, a) && c.pc < |text| && Straight(text[c.pc])
    ensures Step(text, c).Some? && Same(text, base, Step(text, c).value, R.IsaStep(imem, a))
    ensures R.At(imem, a).Some? && !R.At(imem, a).value.Exit?
  {
    hide R.At, Effect, LineEffect, Encodable, Unique, Loaded, A.Encode, Index;
    var i := StraightWord(text, imem, base, c, a);
    WordHere(text, imem, base, c, a);
  }

  lemma SecondUnused(op: AluOp, rd: Reg, rs1: Reg, rs2: Reg, s: Store)
    ensures Effect(Instruction.Alu(op, rd, rs1, if op.ABS? || op.SNEZ? then 0 else rs2), s)
         == Effect(Instruction.Alu(op, rd, rs1, rs2), s)
  {
  }

  /** The word of a jump names the index of its label. */
  lemma JumpWord(text: seq<Line>, imem: Memory, base: nat, c: Config, a: State)
    returns (to: nat)
    requires Linked(text, imem, base) && Same(text, base, c, a) && c.pc < |text| && text[c.pc].JumpTo?
    ensures Find(text, text[c.pc].target) < |text| && to == Index(text, Find(text, text[c.pc].target))
    ensures R.At(imem, a) == Some(Jump(Wrap(to - Index(text, c.pc))))
  {
    hide R.InstructionOf, EncodeJump, SignExtend26, A.ScanTo, Unique, Find, Index, Wrap, Residue;
    WordHere(text, imem, base, c, a);
    assert EncodableLine(text, c.pc);
    var l, k := text[c.pc].target, Index(text, c.pc);
    LabelPlaced(text, l);
    to := Index(text, Find(text, l));
    var offset: int := 4 * to - 4 * k;
    ReadsJump(offset);
    A.JumpDistance(k, to);
    Extended26(to - k);
  }

  lemma JumpStep(text: seq<Line>, imem: Memory, base: nat, c: Config, a: State)
    requires Linked(text, imem, base) && Same(text, base, c, a) && c.pc < |text| && text[c.pc].JumpTo?
    ensures Step(text, c).Some? && Same(text, base, Step(text, c).value, R.IsaStep(imem, a))
    ensures R.At(imem, a).Some? && !R.At(imem, a).value.Exit?
  {
    hide R.At, Linked, Index, Find;
    var to := JumpWord(text, imem, base, c, a);
    JumpLands(base, Index(text, c.pc), to);
  }

  lemma JumpLands(base: nat, k: nat, to: nat)
    ensures Wrap(Wrap(base + k) + Wrap(to - k)) == Wrap(base + to)
  {
    WrapAdd(Wrap(base + k), to - k);
    WrapAdd(base + k, to - k);
  }

  lemma BranchWord(text: seq<Line>, imem: Memory, base: nat, c: Config, a: State)
    returns (to: nat)
    requires Linked(text, imem, base) && Same(text, base, c, a) && c.pc < |text| && text[c.pc].BeqzTo?
    ensures Find(text, text[c.pc].target) < |text| && to == Index(text, Find(text, text[c.pc].target))
    ensures R.At(imem, a) == Some(BranchZero(text[c.pc].rs, Wrap(to - Index(text, c.pc))))
  {
    hide R.InstructionOf, EncodeBranch, SignExtend16, BranchField, A.ScanTo, Unique, Find, Index, Wrap;
    WordHere(text, imem, base, c, a);
    assert EncodableLine(text, c.pc);
    var l, k := text[c.pc].target, Index(text, c.pc);
    LabelPlaced(text, l);
    to := Index(text, Find(text, l));
    var offset: int := 4 * to - 4 * k;
    ReadsBranch(text[c.pc].rs, offset);
    QuotientUnique(offset, 4, to - k, 0);
    BranchLands(to - k);
  }

  lemma BranchStep(text: seq<Line>, imem: Memory, base: nat, c: Config, a: State)
    requires Linked(text, imem, base) && Same(text, base, c, a) && c.pc < |text| && text[c.pc].BeqzTo?
    ensures Step(text, c).Some? && Same(text, base, Step(text, c).value, R.IsaStep(imem, a))
    ensures R.At(imem, a).Some? && !R.At(imem, a).value.Exit?
  {
    hide R.At, Linked, Index, Find;
    var to := BranchWord(text, imem, base, c, a);
    NextPlace(text, imem, base, c, a);
    JumpLands(base, Index(text, c.pc), to);
  }

  lemma NextPlace(text: seq<Line>, imem: Memory, base: nat, c: Config, a: State)
    requires Linked(text, imem, base) && Same(text, base, c, a) && c.pc < |text| && !text[c.pc].Mark?
    ensures Wrap(a.pc + 1) == Wrap(base + Index(text, c.pc + 1))
  {
    hide A.Encode, Encodable, Unique, Loaded, A.ScanTo;
    WordHere(text, imem, base, c, a);
  }

  lemma ExitHere(text: seq<Line>, imem: Memory, base: nat, c: Config, a: State)
    requires Linked(text, imem, base) && Same(text, base, c, a) && c.pc < |text|
    requires text[c.pc] == Op(Instruction.Exit)
    ensures R.At(imem, a) == Some(Instruction.Exit)
  {
    hide R.InstructionOf, Encodable, Unique, Loaded, A.ScanTo, Index, Same;
    WordHere(text, imem, base, c, a);
    ReadsExit();
  }

  /** A step of the machine is no step of the instruction set at a label, and one step elsewhere. */
  lemma StepLinked(text: seq<Line>, imem: Memory, base: nat, c: Config, a: State)
    requires Linked(text, imem, base) && Same(text, base, c, a) && Step(text, c).Some?
    ensures if text[c.pc].Mark? then Same(text, base, Step(text, c).value, a)
            else && Same(text, base, Step(text, c).value, R.IsaStep(imem, a))
                 && R.At(imem, a).Some? && !R.At(imem, a).value.Exit?
  {
    hide Linked, Same, R.IsaStep, R.At;
    match text[c.pc]
    case Mark(_) => MarkStep(text, base, c, a);
    case JumpTo(_) => JumpStep(text, imem, base, c, a);
    case BeqzTo(_, _) => BranchStep(text, imem, base, c, a);
    case _ => StraightStep(text, imem, base, c, a);
  }
}
