/**
 What the instructions mean, said without the operation table of module Isa: by how a result relates
 to the operands read as signed numbers, and by what an instruction leaves alone.
 */
module AluLaws {
  import opened Words
  import opened Isa
  import opened Units
  import R = Refinement

  /** The same word: equal up to a multiple of 2^32. */
  predicate Agree(x: int, y: int) {
    (x - y) % 0x1_0000_0000 == 0
  }

  predicate Flag(r: Word, b: bool) {
    r <= 1 && (r == 1 <==> b)
  }

  /** Shifted left one place after another. */
  function Doubled(a: Word, n: nat): Word
    decreases n
  {
    if n == 0 then a else Doubled(if a < HALF then 2 * a else 2 * a - MODULUS, n - 1)
  }

  /** The result `r` of an operation on `a`, `b`, an immediate and a pc. */
  predicate Means(op: AluOp, a: Word, b: Word, imm: int, pc: Word, r: Word) {
    match op
    case ADD => Agree(Signed(r), Signed(a) + Signed(b))
    case SUB => Agree(Signed(r) + Signed(b), Signed(a))
    case MUL => Agree(Signed(r), Signed(a) * Signed(b))
    case NEG => Agree(Signed(r) + Signed(a), 0)
    case ABS => if a == HALF then r == HALF else Signed(r) >= 0 && (Signed(r) == Signed(a) || Signed(r) == -Signed(a))
    case SLT => Flag(r, if (Signed(a) < 0) == (Signed(b) < 0) then Signed(a) < Signed(b) else Signed(b) < 0)
    case SEQ => Flag(r, Signed(a) == Signed(b))
    case SNEZ => Flag(r, Signed(a) < 0 || Signed(a) > 0)
    case MIN => (r == a || r == b) && r <= a && r <= b
    case SLL => r == Doubled(a, b % 32)
    case ADDI => Agree(Signed(r), Signed(a) + imm)
    case MULI => Agree(Signed(r), Signed(a) * imm)
    case SLLI => r == Doubled(a, imm % 32)
    case SEQI => Flag(r, Agree(a, imm))
    case BEQZ => Flag(r, a == 0)
    case BEQO => Flag(r, a == 1)
    case JAL => Agree(r, pc + imm)
    case _ => r == 0
  }

  // ----- Residues -----

  lemma WrapUnique(r: Word, x: int)
    ensures r == Wrap(x) <==> Agree(r, x)
  {
    var q := (x - r) / MODULUS;
    if Agree(r, x) {
      var k := (r - x) / MODULUS;
      assert x == r + MODULUS * (-k);
      QuotientUnique(x, MODULUS, -k, r);
    } else if r == Wrap(x) {
      assert x == MODULUS * (x / MODULUS) + r;
      QuotientUnique(r - x, MODULUS, -(x / MODULUS), 0);
    }
  }

  lemma AgreeShift(x: int, y: int, u: int, v: int, k: int)
    requires u - v == x - y + k * MODULUS
    ensures Agree(x, y) <==> Agree(u, v)
  {
    var q, r := (x - y) / MODULUS, (x - y) % MODULUS;
    assert x - y == q * MODULUS + r;
    assert u - v == (q + k) * MODULUS + r by {
      assert (q + k) * MODULUS == q * MODULUS + k * MODULUS;
    }
    QuotientUnique(u - v, MODULUS, q + k, r);
  }

  /** The borrow of a word read as signed. */
  function Carry(a: Word): int {
    if a < HALF then 0 else 1
  }

  lemma SumAgrees(r: Word, a: Word, x: int)
    ensures Agree(Signed(r), Signed(a) + x) <==> r == Wrap(a + x)
  {
    WrapUnique(r, a + x);
    AgreeShift(r, a + x, Signed(r), Signed(a) + x, Carry(a) - Carry(r));
  }

  lemma DifferenceAgrees(r: Word, a: Word, b: Word)
    ensures Agree(Signed(r) + Signed(b), Signed(a)) <==> r == Wrap(a - b)
  {
    WrapUnique(r, a - b);
    AgreeShift(r, a - b, Signed(r) + Signed(b), Signed(a), Carry(a) - Carry(b) - Carry(r));
  }

  lemma ProductAgrees(r: Word, a: Word, x: int)
    ensures Agree(Signed(r), Signed(a) * x) <==> r == Wrap(a * x)
  {
    WrapUnique(r, a * x);
    assert Signed(a) * x == a * x - Carry(a) * x * MODULUS by {
      assert Signed(a) == a - Carry(a) * MODULUS;
    }
    AgreeShift(r, a * x, Signed(r), Signed(a) * x, Carry(a) * x - Carry(r));
  }

  lemma ProductSigned(a: Word, b: Word)
    ensures Wrap(a * Signed(b)) == Wrap(a * b)
  {
    assert a * Signed(b) == a * b - a * Carry(b) * MODULUS by {
      assert Signed(b) == b - Carry(b) * MODULUS;
    }
    WrapShift(a * b, a * Signed(b), -(a * Carry(b)));
  }

  lemma {:induction false} DoubledIsShift(a: Word, n: nat)
    ensures Doubled(a, n) == Wrap(a * Pow2(n))
    decreases n
  {
    hide Wrap;
    if n == 0 {
      SmallWrap(a);
    } else {
      var next: Word := if a < HALF then 2 * a else 2 * a - MODULUS;
      DoubledIsShift(next, n - 1);
      DoubleFactor(a, next, Pow2(n - 1));
    }
  }

  lemma SmallWrap(a: Word)
    ensures Wrap(a) == a == Wrap(a * 1)
  {
    QuotientUnique(a, MODULUS, 0, a);
  }

  lemma DoubleFactor(a: Word, next: Word, p: nat)
    requires next == if a < HALF then 2 * a else 2 * a - MODULUS
    ensures Wrap(next * p) == Wrap(a * (2 * p))
  {
    assert a * (2 * p) == 2 * a * p;
    if a >= HALF {
      assert next * p == 2 * a * p - MODULUS * p;
      WrapShift(a * (2 * p), next * p, 0 - p);
    }
  }

  // ----- The ALU -----

  lemma ArithmeticMeans(op: AluOp, a: Word, b: Word, imm: int, pc: Word, r: Word)
    requires op in {ADD, SUB, MUL, NEG, SLL, ADDI, MULI, SLLI, JAL, SEQI}
    ensures Means(op, a, b, imm, pc, r) <==> r == AluResult(op, a, b, imm, pc)
  {
    hide Agree, Wrap, Pow2, Signed;
    match op {
      case ADD =>
        SumAgrees(r, a, Signed(b));
        WrapSigned(a, b);
      case SUB => DifferenceAgrees(r, a, b);
      case MUL =>
        ProductAgrees(r, a, Signed(b));
        ProductSigned(a, b);
      case NEG =>
        DifferenceAgrees(r, 0, a);
        SignedZero();
      case SLL => DoubledIsShift(a, b % 32);
      case ADDI => SumAgrees(r, a, imm);
      case MULI => ProductAgrees(r, a, imm);
      case SLLI => DoubledIsShift(a, imm % 32);
      case JAL => WrapUnique(r, pc + imm);
      case SEQI => WrapUnique(a, imm);
    }
  }

  lemma SignedZero()
    ensures Signed(0) == 0
  {
  }

  lemma WrapSigned(a: Word, b: Word)
    ensures Wrap(a + Signed(b)) == Wrap(a + b)
  {
    WrapShift(a + b, a + Signed(b), -Carry(b));
  }

  lemma ComparisonMeans(op: AluOp, a: Word, b: Word, imm: int, pc: Word, r: Word)
    requires op !in {ADD, SUB, MUL, NEG, SLL, ADDI, MULI, SLLI, JAL, SEQI}
    ensures Means(op, a, b, imm, pc, r) <==> r == AluResult(op, a, b, imm, pc)
  {
    if op.ABS? && a >= HALF {
      if a == HALF {
        QuotientUnique(0 - a, MODULUS, -1, a);
      } else {
        QuotientUnique(0 - a, MODULUS, -1, MODULUS - a);
      }
    }
  }

  /** One edge of an enabled ALU: its result has exactly that meaning, for the operands captured before. */
  lemma AluExact(p: Pipeline, pc: Word, op: AluOp, op1: Word, op2: Word, imm: Word, r: Word)
    ensures Means(p.op, p.op1, p.op2, p.imm, p.pc, r) <==> r == AluEdge(p, false, true, pc, op, op1, op2, imm).result
  {
    hide Means, AluResult;
    if p.op in {ADD, SUB, MUL, NEG, SLL, ADDI, MULI, SLLI, JAL, SEQI} {
      ArithmeticMeans(p.op, p.op1, p.op2, p.imm, p.pc, r);
    } else {
      ComparisonMeans(p.op, p.op1, p.op2, p.imm, p.pc, r);
    }
  }

  lemma ResultMeans(op: AluOp, a: Word, b: Word, imm: int, pc: Word)
    ensures Means(op, a, b, imm, pc, AluResult(op, a, b, imm, pc))
  {
    hide Means, AluResult;
    var r := AluResult(op, a, b, imm, pc);
    if op in {ADD, SUB, MUL, NEG, SLL, ADDI, MULI, SLLI, JAL, SEQI} {
      ArithmeticMeans(op, a, b, imm, pc, r);
    } else {
      ComparisonMeans(op, a, b, imm, pc, r);
    }
  }

  // ----- Instructions -----

  /** Memory and all registers but `rd` are as before. */
  predicate OnlyRegister(s: Store, t: Store, rd: Reg) {
    t.mem == s.mem && t.regs[0] == 0 && forall x: Reg :: x != rd ==> t.regs[x] == s.regs[x]
  }

  /** What an instruction other than `exit` makes of a state. */
  predicate Does(i: Instruction, s: State, t: State) {
    var x, y := s.store.regs, t.store.regs;
    match i
    case Alu(op, rd, rs1, rs2) =>
      && Agree(t.pc, s.pc + 1) && OnlyRegister(s.store, t.store, rd)
      && (rd != 0 ==> Means(op, x[rs1], x[rs2], 0, 0, y[rd]))
    case AluImm(op, rd, rs1, imm) =>
      && Agree(t.pc, s.pc + 1) && OnlyRegister(s.store, t.store, rd)
      && (rd != 0 ==> Means(op, x[rs1], 0, imm, 0, y[rd]))
    case Lw(rd, rs1, imm) =>
      && Agree(t.pc, s.pc + 1) && OnlyRegister(s.store, t.store, rd)
      && (rd != 0 ==> forall w: Word :: Agree(w, x[rs1] + imm) ==> y[rd] == Load(s.store.mem, w))
    case Sw(rs2, rs1, imm) =>
      && Agree(t.pc, s.pc + 1) && y == x
      && forall w: Word :: Load(t.store.mem, w) == if Agree(w, x[rs1] + imm) then x[rs2] else Load(s.store.mem, w)
    case Jump(imm) => t.store == s.store && Agree(t.pc, s.pc + imm)
    case BranchZero(rs1, imm) => t.store == s.store && Agree(t.pc, s.pc + if x[rs1] == 0 then imm else 1)
    case BranchOne(rs1, imm) => t.store == s.store && Agree(t.pc, s.pc + if x[rs1] == 1 then imm else 1)
    case Exit => false
  }

  lemma ExecuteDoes(i: Instruction, s: State)
    requires !i.Exit?
    ensures Does(i, s, Execute(i, s))
  {
    hide Means, AluResult, Agree, Wrap;
    var t, x := Execute(i, s), s.store.regs;
    PcDoes(i, s);
    match i
    case Alu(op, rd, rs1, rs2) => ResultMeans(op, x[rs1], x[rs2], 0, 0);
    case AluImm(op, rd, rs1, imm) => ResultMeans(op, x[rs1], 0, imm, 0);
    case Lw(rd, rs1, imm) => AddressUnique(x[rs1] + imm);
    case Sw(rs2, rs1, imm) => AddressUnique(x[rs1] + imm);
    case _ =>
  }

  lemma AddressUnique(x: int)
    ensures forall w: Word :: Agree(w, x) <==> w == Wrap(x)
  {
    forall w: Word ensures Agree(w, x) <==> w == Wrap(x) {
      WrapUnique(w, x);
    }
  }

  lemma PcDoes(i: Instruction, s: State)
    ensures var next, x := NextPc(i, s.pc, s.store.regs), s.store.regs;
            match i
            case Jump(imm) => Agree(next, s.pc + imm)
            case BranchZero(rs1, imm) => Agree(next, s.pc + if x[rs1] == 0 then imm else 1)
            case BranchOne(rs1, imm) => Agree(next, s.pc + if x[rs1] == 1 then imm else 1)
            case _ => Agree(next, s.pc + 1)
  {
    hide Agree, Wrap;
    var next := NextPc(i, s.pc, s.store.regs);
    WrapUnique(next, s.pc + 1);
    if i.Jump? || i.BranchZero? || i.BranchOne? {
      WrapUnique(next, s.pc + i.imm);
    }
  }

  /** So each state in which the core starts a fetch comes from the one before by what the instruction does. */
  lemma StepDoes(imem: Memory, a: State, n: nat)
    requires var b := R.IsaRun(imem, a, n); R.At(imem, b).Some? && !R.At(imem, b).value.Exit?
    ensures var b := R.IsaRun(imem, a, n);
            Does(R.At(imem, b).value, b, R.IsaRun(imem, a, n + 1))
  {
    hide Does, R.At, Execute;
    StepNext(imem, a, n);
    var b := R.IsaRun(imem, a, n);
    ExecuteDoes(R.At(imem, b).value, b);
  }

  lemma {:induction false} StepNext(imem: Memory, a: State, n: nat)
    ensures R.IsaRun(imem, a, n + 1) == R.IsaStep(imem, R.IsaRun(imem, a, n))
    decreases n
  {
    hide R.IsaStep;
    if n > 0 {
      StepNext(imem, R.IsaStep(imem, a), n - 1);
    } else {
      assert R.IsaRun(imem, R.IsaStep(imem, a), 0) == R.IsaStep(imem, a);
    }
  }
}
