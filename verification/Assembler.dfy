/**
 The two passes of the assembler, over lines already split into their parts: the first gives every
 label and instruction an address, the second writes the words.
 */
module Assembler {
  import opened Words
  import opened Wrappers
  import opened Isa
  import opened Encoding
  import opened Decoder

  datatype Operand = Number(n: int) | Symbol(s: string) | Hi(s: string) | Lo(s: string)

  /** An instruction line; `Rejected` is one that the second pass reports and skips. */
  datatype Ins =
    | R(op: AluOp, scalar: bool, rd: Reg, rs1: Reg, rs2: Reg)
    | I(op: AluOp, scalar: bool, rd: Reg, rs1: Reg, imm: Operand)
    | Li(scalar: bool, rd: Reg, imm: Operand)
    | Load(scalar: bool, rd: Reg, imm: Operand, rs1: Reg)
    | Store(scalar: bool, rs2: Reg, imm: Operand, rs1: Reg)
    | J(target: string)
    | Branch(one: bool, rs1: Reg, target: string)
    | Lui(scalar: bool, rd: Reg, imm: Operand)
    | SxSlt(rd: Reg, rs1: Reg, rs2: Reg)
    | Sync(target: string)
    | Exit
    | Ret
    | Rejected

  datatype Body = Word(w: Word) | Zero(size: nat) | Code(ins: Ins)

  datatype Section = Text | Data | Rodata

  datatype Line =
    | Switch(section: Section)
    | Ignored                                            // .globl, .size, .type, unknown sections
    | Align(bits: nat)
    | Content(name: Option<string>, body: Option<Body>)  // `label: body`, either part optional

  // ----- Encoding of one line -----

  /** resolveSymbol: an undefined symbol, and a number that does not fit an int, are zero. */
  function Resolve(o: Operand, labels: map<string, int>): int {
    match o
    case Number(n) => if -HALF <= n < HALF then n else 0
    case Symbol(s) => if s in labels then labels[s] else 0
    case Hi(s) => if s in labels then High(labels[s]) else 0
    case Lo(s) => if s in labels then Low(labels[s]) else 0
  }

  /** The word for an instruction at `pc`, or nothing when it is rejected. */
  function Encode(i: Ins, pc: int, labels: map<string, int>): Option<Word> {
    match i
    case R(op, scalar, rd, rs1, rs2) => Some(EncodeR(scalar, op, rd, rs1, rs2))
    case I(op, scalar, rd, rs1, imm) => Some(EncodeI(scalar, op, rd, rs1, Resolve(imm, labels)))
    case Li(scalar, rd, imm) => Some(EncodeI(scalar, ADDI, rd, 0, Resolve(imm, labels)))
    case Load(scalar, rd, imm, rs1) => Some(EncodeLoad(scalar, rd, rs1, Resolve(imm, labels)))
    case Store(scalar, rs2, imm, rs1) => Some(EncodeStore(scalar, rs2, rs1, Resolve(imm, labels)))
    case J(l) => Some(if l in labels then EncodeJump(labels[l] - pc) else 0)
    case Branch(one, rs1, l) => Some(if l in labels then EncodeBranch(one, rs1, labels[l] - pc) else 0)
    case Lui(scalar, rd, imm) => Some(EncodeLui(scalar, rd, Resolve(imm, labels)))
    case SxSlt(rd, rs1, rs2) => Some(EncodeX(rd, rs1, rs2))
    case Sync(l) =>
      Some(if l in labels then EncodeI(true, ADDI, 30, 0, Resolve(Number(labels[l] + 4), labels)) else 0)
    case Exit => Some(EXIT)
    case Ret => Some(RET)
    case Rejected => None
  }

  // ----- First pass -----

  datatype Placed = Placed(pc: int, ins: Ins)

  datatype Pass = Pass(section: Section, instrPc: int, dataPc: int, labels: map<string, int>,
                       instructions: seq<Placed>, data: seq<Word>)

  const START := Pass(Text, 0, 0, map[], [], [])

  /** `(pc + size - 1) & ~(size - 1)` for a power of two. */
  function RoundUp(pc: int, size: nat): int
    requires size > 0
  {
    (pc + size - 1) / size * size
  }

  function Define(p: Pass, name: Option<string>): Pass {
    match name
    case None => p
    case Some(l) => p.(labels := p.labels[l := if p.section.Text? then p.instrPc else p.dataPc])
  }

  function InsOf(b: Body): Ins {
    if b.Code? then b.ins else Rejected
  }

  function Place(p: Pass, body: Option<Body>): Pass {
    match body
    case None => p
    case Some(b) =>
      if p.section.Text? then
        p.(instructions := p.instructions + [Placed(p.instrPc, InsOf(b))], instrPc := p.instrPc + 4)
      else match b
        case Word(w) => p.(data := p.data + [w], dataPc := p.dataPc + 4)
        case Zero(size) => p.(dataPc := p.dataPc + size)
        case Code(_) => p
  }

  function Scan(line: Line, p: Pass): Pass {
    match line
    case Switch(section) => p.(section := section)
    case Ignored => p
    case Align(bits) =>
      if p.section.Text? then p.(instrPc := RoundUp(p.instrPc, Pow2(bits)))
      else p.(dataPc := RoundUp(p.dataPc, Pow2(bits)))
    case Content(name, body) => Place(Define(p, name), body)
  }

  /** The state after the first `n` lines. */
  function ScanTo(lines: seq<Line>, n: nat): Pass
    requires n <= |lines|
  {
    if n == 0 then START else Scan(lines[n - 1], ScanTo(lines, n - 1))
  }

  // ----- Second pass -----

  function Output(instructions: seq<Placed>, labels: map<string, int>): seq<Word> {
    if instructions == [] then [] else
    var k := |instructions| - 1;
    var before := Output(instructions[..k], labels);
    match Encode(instructions[k].ins, instructions[k].pc, labels)
    case None => before
    case Some(w) => before + [w]
  }

  class TwoPass {
    var state: Pass
    var output: seq<Word>

    constructor ()
      ensures state == START && output == []
    {
      state, output := START, [];
    }

    method FirstPass(lines: seq<Line>)
      requires state == START
      modifies this
      ensures state == ScanTo(lines, |lines|) && output == old(output)
    {
      for i := 0 to |lines|
        invariant state == ScanTo(lines, i) && output == old(output)
      {
        match lines[i] {
          case Switch(section) =>
            state := state.(section := section);
          case Ignored =>
          case Align(bits) =>
            if state.section.Text? {
              state := state.(instrPc := RoundUp(state.instrPc, Pow2(bits)));
            } else {
              state := state.(dataPc := RoundUp(state.dataPc, Pow2(bits)));
            }
          case Content(name, body) =>
            if name.Some? {
              var address := if state.section.Text? then state.instrPc else state.dataPc;
              state := state.(labels := state.labels[name.value := address]);
            }
            if body.Some? {
              if state.section.Text? {
                var placed := Placed(state.instrPc, InsOf(body.value));
                state := state.(instructions := state.instructions + [placed], instrPc := state.instrPc + 4);
              } else if body.value.Word? {
                state := state.(data := state.data + [body.value.w], dataPc := state.dataPc + 4);
              } else if body.value.Zero? {
                state := state.(dataPc := state.dataPc + body.value.size);
              }
            }
        }
      }
    }

    method SecondPass()
      requires output == []
      modifies this`output
      ensures output == Output(state.instructions, state.labels)
    {
      for i := 0 to |state.instructions|
        invariant output == Output(state.instructions[..i], state.labels)
      {
        var next := state.instructions[i];
        assert state.instructions[..i + 1][..i] == state.instructions[..i];
        var word := Encode(next.ins, next.pc, state.labels);
        if word.Some? {
          output := output + [word.value];
        }
      }
      assert state.instructions[..|state.instructions|] == state.instructions;
    }
  }

  // ----- Where words end up -----

  /** How many of some instructions the second pass skips. */
  function Rejects(instructions: seq<Placed>): (n: nat)
    ensures n <= |instructions|
  {
    if instructions == [] then 0 else
    var k := |instructions| - 1;
    Rejects(instructions[..k]) + if instructions[k].ins.Rejected? then 1 else 0
  }

  /** An instruction's word comes after those of all accepted instructions before it. */
  lemma {:induction false} WordPlace(instructions: seq<Placed>, labels: map<string, int>, k: nat)
    requires k < |instructions| && !instructions[k].ins.Rejected?
    ensures |Output(instructions, labels)| == |instructions| - Rejects(instructions)
    ensures var j := k - Rejects(instructions[..k]);
            && 0 <= j < |Output(instructions, labels)|
            && Some(Output(instructions, labels)[j]) == Encode(instructions[k].ins, instructions[k].pc, labels)
  {
    hide Encode;
    var n := |instructions| - 1;
    EncodeRejects(instructions[n].ins, instructions[n].pc, labels);
    OutputLength(instructions[..n], labels);
    if k < n {
      WordPlace(instructions[..n], labels, k);
      assert instructions[..n][..k] == instructions[..k];
    }
  }

  lemma EncodeRejects(i: Ins, pc: int, labels: map<string, int>)
    ensures Encode(i, pc, labels).None? <==> i.Rejected?
  {
  }

  lemma {:induction false} OutputLength(instructions: seq<Placed>, labels: map<string, int>)
    ensures |Output(instructions, labels)| == |instructions| - Rejects(instructions)
  {
    hide Encode;
    if instructions != [] {
      var last := instructions[|instructions| - 1];
      EncodeRejects(last.ins, last.pc, labels);
      OutputLength(instructions[..|instructions| - 1], labels);
    }
  }

  lemma {:induction false} NoRejects(instructions: seq<Placed>)
    requires forall k :: 0 <= k < |instructions| ==> !instructions[k].ins.Rejected?
    ensures Rejects(instructions) == 0
  {
    if instructions != [] {
      NoRejects(instructions[..|instructions| - 1]);
    }
  }

  /** No text alignment above 4 bytes. */
  predicate Aligned(lines: seq<Line>) {
    forall i :: 0 <= i < |lines| && lines[i].Align? && ScanTo(lines, i).section.Text? ==> lines[i].bits <= 2
  }

  lemma RoundWord(k: nat, bits: nat)
    requires bits <= 2
    ensures RoundUp(4 * k, Pow2(bits)) == 4 * k
  {
    assert Pow2(0) == 1 && Pow2(1) == 2 && Pow2(2) == 4;
    if bits == 1 {
      QuotientUnique(4 * k + 1, 2, 2 * k, 1);
    } else if bits == 2 {
      QuotientUnique(4 * k + 3, 4, k, 3);
    }
  }

  /** Instruction k is at address 4k, and the next one will be at four times their number. */
  lemma {:induction false} TextAddresses(lines: seq<Line>, n: nat)
    requires Aligned(lines) && n <= |lines|
    ensures var p := ScanTo(lines, n);
            && p.instrPc == 4 * |p.instructions|
            && forall k :: 0 <= k < |p.instructions| ==> p.instructions[k].pc == 4 * k
  {
    if n > 0 {
      TextAddresses(lines, n - 1);
      var p := ScanTo(lines, n - 1);
      if lines[n - 1].Align? && p.section.Text? {
        RoundWord(|p.instructions|, lines[n - 1].bits);
      }
    }
  }

  lemma {:induction false} InstructionsGrow(lines: seq<Line>, m: nat, n: nat)
    requires m <= n <= |lines|
    ensures ScanTo(lines, m).instructions <= ScanTo(lines, n).instructions
    decreases n
  {
    if m < n {
      InstructionsGrow(lines, m, n - 1);
    }
  }

  predicate DefinedAt(lines: seq<Line>, j: nat, l: string)
    requires j < |lines|
  {
    lines[j].Content? && lines[j].name == Some(l)
  }

  /** The last definition of a label is the one that counts. */
  lemma {:induction false} LastDefinition(lines: seq<Line>, j: nat, l: string, n: nat)
    requires j < n <= |lines| && DefinedAt(lines, j, l)
    requires forall i :: j < i < n ==> !DefinedAt(lines, i, l)
    ensures var p := ScanTo(lines, j);
            && l in ScanTo(lines, n).labels
            && ScanTo(lines, n).labels[l] == if p.section.Text? then p.instrPc else p.dataPc
    decreases n
  {
    ScanLabels(lines[n - 1], ScanTo(lines, n - 1));
    assert ScanTo(lines, n) == Scan(lines[n - 1], ScanTo(lines, n - 1));
    if n > j + 1 {
      assert !DefinedAt(lines, n - 1, l);
      LastDefinition(lines, j, l, n - 1);
    }
  }

  lemma ScanLabels(line: Line, p: Pass)
    ensures Scan(line, p).labels == if line.Content? then Define(p, line.name).labels else p.labels
  {
  }

  /**
   With nothing rejected and no text alignment above 4 bytes, word k is the instruction at address
   4k.
   */
  lemma WordAt(lines: seq<Line>, k: nat)
    requires Aligned(lines)
    requires var p := ScanTo(lines, |lines|);
             k < |p.instructions| && forall i :: 0 <= i < |p.instructions| ==> !p.instructions[i].ins.Rejected?
    ensures var p := ScanTo(lines, |lines|);
            var words := Output(p.instructions, p.labels);
            && |words| == |p.instructions| && p.instructions[k].pc == 4 * k
            && Some(words[k]) == Encode(p.instructions[k].ins, 4 * k, p.labels)
  {
    var p := ScanTo(lines, |lines|);
    TextAddresses(lines, |lines|);
    NoRejects(p.instructions);
    NoRejects(p.instructions[..k]);
    WordPlace(p.instructions, p.labels, k);
  }

  /** A label defined in the text stands for the first instruction after it. */
  lemma LabelIndex(lines: seq<Line>, j: nat, l: string)
    requires Aligned(lines) && j < |lines| && DefinedAt(lines, j, l) && ScanTo(lines, j).section.Text?
    requires forall i :: j < i < |lines| ==> !DefinedAt(lines, i, l)
    ensures var p := ScanTo(lines, |lines|);
            var index := |ScanTo(lines, j).instructions|;
            && l in p.labels && p.labels[l] == 4 * index && index <= |p.instructions|
            && ScanTo(lines, j).instructions == p.instructions[..index]
  {
    TextAddresses(lines, j);
    LastDefinition(lines, j, l, |lines|);
    InstructionsGrow(lines, j, |lines|);
  }

  /**
   A `j L` at word k takes the core from k to the index of the first instruction after L if and only
   if that index is less than 2^25 words away: what the decoder makes of the word, added to k, is then
   that index.
   */
  lemma JumpLands(lines: seq<Line>, k: nat, j: nat, l: string, previous: AluOp)
    requires Aligned(lines)
    requires var p := ScanTo(lines, |lines|);
             && k < |p.instructions| < 0x2000_0000 && p.instructions[k].ins == J(l)
             && forall i :: 0 <= i < |p.instructions| ==> !p.instructions[i].ins.Rejected?
    requires j < |lines| && DefinedAt(lines, j, l) && ScanTo(lines, j).section.Text?
    requires forall i :: j < i < |lines| ==> !DefinedAt(lines, i, l)
    ensures var p := ScanTo(lines, |lines|);
            var words := Output(p.instructions, p.labels);
            var index := |ScanTo(lines, j).instructions|;
            && |words| == |p.instructions| && Decode(words[k], previous).alu == JAL
            && (Wrap(k + Decode(words[k], previous).immediate) == index
                <==> -0x200_0000 <= index - k < 0x200_0000)
  {
    hide Decode, EncodeJump, Residue, ScanTo, Output, Aligned, Rejects;
    var p := ScanTo(lines, |lines|);
    var index := |ScanTo(lines, j).instructions|;
    WordAt(lines, k);
    LabelIndex(lines, j, l);
    RoundTripJump(4 * index - 4 * k, previous);
    JumpDistance(k, index);
  }

  /** Word distances up to 2^25 are their own 26-bit residues, and no others are, even modulo 2^32. */
  lemma JumpDistance(k: nat, index: nat)
    requires k < 0x2000_0000 && index < 0x2000_0000
    ensures (4 * index - 4 * k) / 4 == index - k
    ensures Wrap(k + Wrap(Residue(index - k, 0x400_0000))) == index <==> -0x200_0000 <= index - k < 0x200_0000
    ensures -0x200_0000 <= index - k < 0x200_0000 ==> Residue(index - k, 0x400_0000) == index - k
  {
    var distance := index - k;
    var r := Residue(distance, 0x400_0000);
    QuotientUnique(4 * index - 4 * k, 4, distance, 0);
    if 0 <= distance < 0x200_0000 {
      QuotientUnique(distance, 0x400_0000, 0, distance);
    } else if -0x200_0000 <= distance < 0 {
      QuotientUnique(distance, 0x400_0000, -1, distance + 0x400_0000);
    }
    WrapAdd(k, r);
    SumIs(k + r, index);
  }

  lemma SumIs(sum: int, index: nat)
    requires -0x2000_0000 <= sum < 0x4000_0000 && index < 0x2000_0000
    ensures Wrap(sum) == index <==> sum == index
  {
    if sum < 0 {
      QuotientUnique(sum, MODULUS, -1, sum + MODULUS);
    } else {
      QuotientUnique(sum, MODULUS, 0, sum);
    }
  }

  // ----- Data -----

  lemma RoundUpGrows(pc: int, size: nat)
    requires size > 0
    ensures RoundUp(pc, size) >= pc
  {
    assert pc + size - 1 == RoundUp(pc, size) + (pc + size - 1) % size;
  }

  /** The bytes that a line moves the data address by without a word for them in the output. */
  function SkippedBy(line: Line, p: Pass): nat {
    if p.section.Text? then 0 else
    match line
    case Align(bits) =>
      RoundUpGrows(p.dataPc, Pow2(bits));
      RoundUp(p.dataPc, Pow2(bits)) - p.dataPc
    case Content(_, Some(Zero(size))) => size
    case _ => 0
  }

  function Skipped(lines: seq<Line>, n: nat): nat
    requires n <= |lines|
  {
    if n == 0 then 0 else Skipped(lines, n - 1) + SkippedBy(lines[n - 1], ScanTo(lines, n - 1))
  }

  /**
   The data output has words only for `.word`: the next data address is four times the number of words
   so far plus the bytes that `.zero` and alignment have passed over.
   */
  lemma {:induction false} DataAddresses(lines: seq<Line>, n: nat)
    requires n <= |lines|
    ensures ScanTo(lines, n).dataPc == 4 * |ScanTo(lines, n).data| + Skipped(lines, n)
  {
    if n > 0 {
      DataAddresses(lines, n - 1);
    }
  }

  /** So a data label finds its words in the output exactly when nothing before it was passed over. */
  lemma DataLabel(lines: seq<Line>, j: nat, l: string)
    requires j < |lines| && DefinedAt(lines, j, l) && !ScanTo(lines, j).section.Text?
    requires forall i :: j < i < |lines| ==> !DefinedAt(lines, i, l)
    ensures l in ScanTo(lines, |lines|).labels
    ensures ScanTo(lines, |lines|).labels[l] == 4 * |ScanTo(lines, j).data| <==> Skipped(lines, j) == 0
  {
    DataAddresses(lines, j);
    LastDefinition(lines, j, l, |lines|);
  }
}
