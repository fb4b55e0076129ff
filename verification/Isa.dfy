/**
 The scalar integer part of the Elson-V instruction set, one instruction at a time
 (docs/ISA.md): the reference that the compiler targets, that the assembler encodes and
 that the multi-cycle core implements.
 */
module Isa {
  import opened Words

  type Reg = r: int | 0 <= r < 32

  /** The scalar integer register file; x0 always reads as zero. */
  type Regs = s: seq<Word> | |s| == 32 && s[0] == 0 witness seq(32, i => 0)

  /** Data memory. A word never written reads as zero. */
  type Memory = map<Word, Word>

  function Load(mem: Memory, address: Word): Word {
    if address in mem then mem[address] else 0
  }

  function SetReg(regs: Regs, rd: Reg, w: Word): Regs {
    if rd == 0 then regs else regs[rd := w]
  }

  /**
   `alu_instruction_t`, in the order of its encoding. `FPU` stands for the floating-point
   operations FADD to FCVT_S_W, which lie between SLLI and BEQZ.
   */
  datatype AluOp =
    | ADD | SUB | MUL | NEG | SLT | SLL | SEQ | SNEZ | MIN | ABS
    | ADDI | MULI | SLLI
    | FPU
    | BEQZ | JAL | SEQI | BEQO | SYNC | END_SYNC | NOP

  predicate RegisterOp(op: AluOp) {
    op in {ADD, SUB, MUL, NEG, SLT, SLL, SEQ, SNEZ, MIN, ABS}
  }

  predicate ImmediateOp(op: AluOp) {
    op in {ADDI, MULI, SLLI}
  }

  /** The ALU's operation table. Comparison is on unsigned words. */
  function AluResult(op: AluOp, a: Word, b: Word, imm: int, pc: Word): Word {
    match op
    case ADD => Wrap(a + b)
    case SUB => Wrap(a - b)
    case MUL => Wrap(a * b)
    case NEG => Wrap(0 - a)
    case ABS => if a >= HALF then Wrap(0 - a) else a
    case SLT => if a < b then 1 else 0
    case SEQ => if a == b then 1 else 0
    case SNEZ => if a != 0 then 1 else 0
    case MIN => if a < b then a else b
    case SLL => Wrap(a * Pow2(b % 32))
    case ADDI => Wrap(a + imm)
    case MULI => Wrap(a * imm)
    case SLLI => Wrap(a * Pow2(imm % 32))
    case SEQI => if a == Wrap(imm) then 1 else 0
    case BEQO => if a == 1 then 1 else 0
    case BEQZ => if a == 0 then 1 else 0
    case JAL => Wrap(pc + imm)
    case _ => 0
  }

  datatype Instruction =
    | Alu(op: AluOp, rd: Reg, rs1: Reg, rs2: Reg)
    | AluImm(op: AluOp, rd: Reg, rs1: Reg, imm: int)
    | Lw(rd: Reg, rs1: Reg, imm: int)
    | Sw(rs2: Reg, rs1: Reg, imm: int)
    | Jump(imm: int)
    | BranchZero(rs1: Reg, imm: int)
    | BranchOne(rs1: Reg, imm: int)
    | Exit

  /** Registers and memory, without the program counter. */
  datatype Store = Store(regs: Regs, mem: Memory)

  /** What an instruction does to registers and memory; control flow changes neither. */
  function Effect(i: Instruction, s: Store): Store {
    match i
    case Alu(op, rd, rs1, rs2) =>
      s.(regs := SetReg(s.regs, rd, AluResult(op, s.regs[rs1], s.regs[rs2], 0, 0)))
    case AluImm(op, rd, rs1, imm) =>
      s.(regs := SetReg(s.regs, rd, AluResult(op, s.regs[rs1], 0, imm, 0)))
    case Lw(rd, rs1, imm) =>
      s.(regs := SetReg(s.regs, rd, Load(s.mem, Wrap(s.regs[rs1] + imm))))
    case Sw(rs2, rs1, imm) =>
      s.(mem := s.mem[Wrap(s.regs[rs1] + imm) := s.regs[rs2]])
    case _ => s
  }

  /** The word-addressed program counter after an instruction that is not `Exit`. */
  function NextPc(i: Instruction, pc: Word, regs: Regs): Word {
    match i
    case Jump(imm) => Wrap(pc + imm)
    case BranchZero(rs1, imm) => if regs[rs1] == 0 then Wrap(pc + imm) else Wrap(pc + 1)
    case BranchOne(rs1, imm) => if regs[rs1] == 1 then Wrap(pc + imm) else Wrap(pc + 1)
    case _ => Wrap(pc + 1)
  }

  /** An architectural state of one warp. */
  datatype State = State(pc: Word, store: Store)

  function Execute(i: Instruction, s: State): State {
    State(NextPc(i, s.pc, s.store.regs), Effect(i, s.store))
  }
}
