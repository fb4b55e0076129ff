/**
 The core with one warp implements the instruction set: whatever the memory delays, the states it
 is in when it starts to fetch are the iterates of the one-step semantics of module Isa.
 */
module Refinement {
  import opened Words
  import opened Wrappers
  import opened Isa
  import opened Decoder
  import opened Warp
  import opened Units
  import opened Core

  // ----- The instruction set over words -----

  /** The scalar integer instruction that a word stands for; LUI, seqi, floating point and the rest are none. */
  function InstructionOf(w: Word): Option<Instruction> {
    if Opcode(w) == 0 && Bit28(w) && RegisterOp(RegisterOperation(F4(w), NOP)) then
      Some(Instruction.Alu(RegisterOperation(F4(w), NOP), Rd(w), Rs1(w), Rs2(w)))
    else if Opcode(w) == 1 && Bit28(w) && ImmediateOp(ImmediateOperation(F4(w), NOP)) then
      Some(AluImm(ImmediateOperation(F4(w), NOP), Rd(w), Rs1(w), SignExtend14(ImmI(w))))
    else if Opcode(w) == 4 && Bit13(w) && F3(w) == 0 then
      Some(Lw(Rd(w), Rs1(w), SignExtend15(ImmLoad(w))))
    else if Opcode(w) == 4 && Bit13(w) && F3(w) == 1 then
      Some(Sw(Rs2(w), Rs1(w), SignExtend15(ImmS(w))))
    else if Opcode(w) == 7 && F3(w) == 0 then Some(Jump(SignExtend26(ImmJ(w))))
    else if Opcode(w) == 7 && F3(w) == 1 then Some(BranchZero(Rs1(w), SignExtend16(ImmB(w))))
    else if Opcode(w) == 7 && F3(w) == 2 then Some(BranchOne(Rs1(w), SignExtend16(ImmB(w))))
    else if Opcode(w) == 7 && F3(w) == 7 then Some(Instruction.Exit)
    else None
  }

  function At(imem: Memory, a: State): Option<Instruction> {
    InstructionOf(Load(imem, a.pc))
  }

  /** One step of the instruction set; `exit` and unknown words stay where they are. */
  function IsaStep(imem: Memory, a: State): State {
    match At(imem, a)
    case Some(Exit) => a
    case Some(i) => Execute(i, a)
    case None => a
  }

  function IsaRun(imem: Memory, a: State, n: nat): State
    decreases n
  {
    if n == 0 then a else IsaRun(imem, IsaStep(imem, a), n - 1)
  }

  /** The control signals of an instruction; those of `exit` leave the ALU operation as it was. */
  predicate Signals(d: Decoded, i: Instruction) {
    match i
    case Alu(op, rd, rs1, rs2) =>
      RegisterOp(op) && d == Defaults(op).(rd := rd, rs1 := rs1, rs2 := rs2, regWrite := true, scalar := true)
    case AluImm(op, rd, rs1, imm) =>
      ImmediateOp(op) && 0 <= imm < MODULUS
      && d == Defaults(op).(rd := rd, rs1 := rs1, regWrite := true, scalar := true, immediate := imm)
    case Lw(rd, rs1, imm) =>
      0 <= imm < MODULUS
      && d == Defaults(ADDI).(rd := rd, rs1 := rs1, regWrite := true, mux := LsuOut, memRead := true,
                              scalar := true, immediate := imm)
    case Sw(rs2, rs1, imm) =>
      0 <= imm < MODULUS
      && d == Defaults(ADDI).(rs1 := rs1, rs2 := rs2, memWrite := true, scalar := true, immediate := imm)
    case Jump(imm) => 0 <= imm < MODULUS && d == Defaults(JAL).(scalar := true, immediate := imm)
    case BranchZero(rs1, imm) =>
      0 <= imm < MODULUS
      && d == Defaults(BEQZ).(rs1 := rs1, rs2 := d.rs2, branch := true, scalar := true, immediate := imm)
    case BranchOne(rs1, imm) =>
      0 <= imm < MODULUS
      && d == Defaults(BEQO).(rs1 := rs1, rs2 := d.rs2, branch := true, scalar := true, immediate := imm)
    case Exit => !d.alu.FPU? && d == Defaults(d.alu).(halt := true, scalar := true)
  }

  lemma DecodeSignals(w: Word, previous: AluOp)
    requires InstructionOf(w).Some? && !previous.FPU?
    ensures Signals(Decode(w, previous), InstructionOf(w).value)
  {
  }

  // ----- The core and its memories -----

  datatype System = System(core: Core, mem: Memory)

  /** The memories answer what is asked: the data that comes with `ready` is the data at the address. */
  predicate Honest(s: System, imem: Memory, io: Inputs) {
    && !io.reset
    && (s.core.fetcher.valid && io.fetchReady ==> io.fetchData == Load(imem, s.core.fetcher.address))
    && (s.core.lsu.readValid && io.data.readReady ==> io.data.readData == Load(s.mem, s.core.lsu.readAddress))
  }

  /** A write happens at the edge at which it is accepted. */
  function SystemEdge(s: System, io: Inputs): System {
    System(Edge(s.core, io),
           if s.core.lsu.writeValid && io.data.writeReady
           then s.mem[s.core.lsu.writeAddress := s.core.lsu.writeData] else s.mem)
  }

  // ----- The invariant -----

  predicate Quiet(l: Lsu) {
    l.state.LsuIdle? && !l.readValid && !l.writeValid
  }

  /** Registers, memory and pc are those of `a`. */
  predicate Holds(s: System, a: State) {
    s.core.file.regs == a.store.regs && s.mem == a.store.mem && s.core.pc == a.pc
  }

  predicate Fetched(s: System, imem: Memory, a: State) {
    match s.core.fetcher.state
    case FetcherIdle => !s.core.fetcher.valid
    case FetcherFetching => s.core.fetcher.valid && s.core.fetcher.address == a.pc
    case FetcherDone => !s.core.fetcher.valid && s.core.fetcher.instruction == Load(imem, a.pc)
  }

  /** The operands have been read. */
  predicate OperandsRead(c: Core, a: State) {
    c.file.rs1 == a.store.regs[c.decoded.rs1] && c.file.rs2 == a.store.regs[c.decoded.rs2]
  }

  predicate Captured(c: Core) {
    AluEnabled(c.decoded) ==>
      && c.alu.op == c.decoded.alu && c.alu.op1 == c.file.rs1 && c.alu.op2 == c.file.rs2
      && c.alu.imm == c.decoded.immediate && c.alu.pc == c.pc
  }

  predicate Computed(c: Core) {
    AluEnabled(c.decoded) ==>
      c.alu.result == AluResult(c.decoded.alu, c.file.rs1, c.file.rs2, c.decoded.immediate, c.pc)
  }

  predicate MemoryOp(i: Instruction) {
    i.Lw? || i.Sw?
  }

  function Address(i: Instruction, a: State): Word
    requires MemoryOp(i)
  {
    Wrap(a.store.regs[i.rs1] + i.imm)
  }

  /** A transfer that has been asked for and not yet accepted. */
  predicate Pending(s: System, i: Instruction, a: State) {
    var l := s.core.lsu;
    && MemoryOp(i) && l.state.LsuWaiting? && s.mem == a.store.mem
    && (i.Lw? ==> l.readValid && !l.writeValid && l.readAddress == Address(i, a))
    && (i.Sw? ==> l.writeValid && !l.readValid && l.writeAddress == Address(i, a)
                  && l.writeData == a.store.regs[i.rs2])
  }

  /** The memory part of the instruction is over. */
  predicate Finished(s: System, i: Instruction, a: State) {
    var l := s.core.lsu;
    && !l.readValid && !l.writeValid && s.mem == Effect(i, a.store).mem
    && (if MemoryOp(i) then l.state.LsuDone? else l.state.LsuIdle?)
    && (i.Lw? ==> l.out == Load(a.store.mem, Address(i, a)))
  }

  predicate Kept(s: System, i: Instruction, a: State) {
    && s.core.file.regs == a.store.regs && s.core.pc == a.pc && Signals(s.core.decoded, i)
    && s.core.fetcher.state.FetcherIdle? && !s.core.fetcher.valid && OperandsRead(s.core, a)
  }

  /** What holds between two fetches, `a` being the state at the last one. */
  predicate Inv(s: System, imem: Memory, a: State) {
    var c, at := s.core, At(imem, a);
    && c.running && !c.decoded.alu.FPU?
    && match c.warp
       case WarpFetch => Holds(s, a) && Fetched(s, imem, a) && Quiet(c.lsu)
       case WarpDecode =>
         Holds(s, a) && c.fetcher.state.FetcherDone? && Fetched(s, imem, a) && Quiet(c.lsu) && at.Some?
       case WarpRequest =>
         at.Some? && Holds(s, a) && Quiet(c.lsu) && Signals(c.decoded, at.value)
         && c.fetcher.state.FetcherIdle? && !c.fetcher.valid
       case WarpRegWait =>
         at.Some? && Holds(s, a) && Kept(s, at.value, a) && !c.lsu.readValid && !c.lsu.writeValid
         && c.lsu.state == if MemoryOp(at.value) then LsuRequesting else LsuIdle
       case WarpWait =>
         at.Some? && Kept(s, at.value, a) && Captured(c)
         && (Pending(s, at.value, a) || Finished(s, at.value, a))
       case WarpExecute =>
         at.Some? && Kept(s, at.value, a) && Finished(s, at.value, a) && Captured(c) && Computed(c)
       case WarpIntAluWait =>
         at.Some? && Kept(s, at.value, a) && Finished(s, at.value, a) && Captured(c) && Computed(c)
       case WarpUpdate =>
         at.Some? && Kept(s, at.value, a) && Finished(s, at.value, a) && Computed(c)
       case WarpDone =>
         at == Some(Instruction.Exit) && Holds(s, a) && Quiet(c.lsu) && !c.fetcher.valid
       case _ => false
  }

  /** Whether this edge ends an instruction. */
  predicate Retires(c: Core) {
    c.warp.WarpUpdate? && !c.decoded.halt
  }

  function NextState(s: System, imem: Memory, a: State): State {
    if Retires(s.core) then IsaStep(imem, a) else a
  }

  // ----- One edge -----

  lemma FetchStep(s: System, imem: Memory, a: State, io: Inputs)
    requires Inv(s, imem, a) && Honest(s, imem, io) && s.core.warp.WarpFetch? && At(imem, a).Some?
    ensures Inv(SystemEdge(s, io), imem, a)
  {
    hide InstructionOf, AluResult, Load, RegularOp, Decode;
  }

  lemma DecodeStep(s: System, imem: Memory, a: State, io: Inputs)
    requires Inv(s, imem, a) && Honest(s, imem, io) && s.core.warp.WarpDecode?
    ensures Inv(SystemEdge(s, io), imem, a)
  {
    hide InstructionOf, AluResult, Load, RegularOp, Decode, Signals;
    DecodeSignals(s.core.fetcher.instruction, s.core.decoded.alu);
    SignalsInteger(Decode(s.core.fetcher.instruction, s.core.decoded.alu), At(imem, a).value);
  }

  lemma SignalsInteger(d: Decoded, i: Instruction)
    requires Signals(d, i)
    ensures !d.alu.FPU? && d.scalar && d.memRead == i.Lw? && d.memWrite == i.Sw? && d.halt == i.Exit?
    ensures MemoryOp(i) ==> d.rs1 == i.rs1 && d.immediate == i.imm
    ensures i.Sw? ==> d.rs2 == i.rs2
  {
  }

  lemma RequestStep(s: System, imem: Memory, a: State, io: Inputs)
    requires Inv(s, imem, a) && Honest(s, imem, io) && s.core.warp.WarpRequest?
    ensures Inv(SystemEdge(s, io), imem, a)
  {
    hide InstructionOf, AluResult, Load, RegularOp, Decode, Signals;
    SignalsInteger(s.core.decoded, At(imem, a).value);
  }

  lemma RegWaitStep(s: System, imem: Memory, a: State, io: Inputs)
    requires Inv(s, imem, a) && Honest(s, imem, io) && s.core.warp.WarpRegWait?
    ensures Inv(SystemEdge(s, io), imem, a)
  {
    hide InstructionOf, AluResult, Load, RegularOp, Decode, Signals;
    SignalsInteger(s.core.decoded, At(imem, a).value);
  }

  lemma WaitStep(s: System, imem: Memory, a: State, io: Inputs)
    requires Inv(s, imem, a) && Honest(s, imem, io) && s.core.warp.WarpWait?
    ensures Inv(SystemEdge(s, io), imem, a)
  {
    hide InstructionOf, AluResult, Load, RegularOp, Decode, Signals;
    SignalsInteger(s.core.decoded, At(imem, a).value);
  }

  lemma ExecuteStep(s: System, imem: Memory, a: State, io: Inputs)
    requires Inv(s, imem, a) && Honest(s, imem, io)
    requires s.core.warp.WarpExecute? || s.core.warp.WarpIntAluWait?
    ensures Inv(SystemEdge(s, io), imem, a)
  {
    hide InstructionOf, AluResult, Load, RegularOp, Decode, Signals;
    SignalsInteger(s.core.decoded, At(imem, a).value);
  }

  lemma DoneStep(s: System, imem: Memory, a: State, io: Inputs)
    requires Inv(s, imem, a) && Honest(s, imem, io) && s.core.warp.WarpDone?
    ensures Inv(SystemEdge(s, io), imem, a) && SystemEdge(s, io).core.done
  {
    hide InstructionOf, AluResult, Load, RegularOp, Decode, Signals;
  }

  // ----- The end of an instruction -----

  /** What the ALU has computed, and where the warp goes, are the instruction's. */
  lemma ResultRight(c: Core, i: Instruction, a: State, io: Inputs)
    requires Signals(c.decoded, i) && OperandsRead(c, a) && Computed(c) && c.pc == a.pc && !i.Exit?
    ensures ResolvedPc(c, io) == NextPc(i, a.pc, a.store.regs)
    ensures i.Alu? ==> AluWire(c, io) == AluResult(i.op, a.store.regs[i.rs1], a.store.regs[i.rs2], 0, 0)
    ensures i.AluImm? ==> AluWire(c, io) == AluResult(i.op, a.store.regs[i.rs1], 0, i.imm, 0)
  {
  }

  lemma WriteBackRight(s: System, i: Instruction, a: State, io: Inputs)
    requires Signals(s.core.decoded, i) && OperandsRead(s.core, a) && Computed(s.core) && !i.Exit?
    requires s.core.pc == a.pc && s.core.file.regs == a.store.regs && Finished(s, i, a)
    requires s.core.warp.WarpUpdate?
    ensures FileEdge(s.core.file, false, s.core.warp, s.core.decoded,
                     WriteBack(AluWire(s.core, io), s.core.lsu.out, 0)).regs == Effect(i, a.store).regs
  {
    hide AluResult, RegularOp;
    ResultRight(s.core, i, a, io);
  }

  lemma RetireStep(s: System, imem: Memory, a: State, io: Inputs)
    requires Inv(s, imem, a) && Honest(s, imem, io) && Retires(s.core)
    ensures Inv(SystemEdge(s, io), imem, IsaStep(imem, a)) && SystemEdge(s, io).core.warp.WarpFetch?
  {
    hide InstructionOf, AluResult, Load, RegularOp, Decode, Signals, ResolvedPc, FileEdge, Effect, NextPc;
    var i := At(imem, a).value;
    SignalsInteger(s.core.decoded, i);
    ResultRight(s.core, i, a, io);
    WriteBackRight(s, i, a, io);
  }

  lemma HaltStep(s: System, imem: Memory, a: State, io: Inputs)
    requires Inv(s, imem, a) && Honest(s, imem, io) && s.core.warp.WarpUpdate? && s.core.decoded.halt
    ensures Inv(SystemEdge(s, io), imem, a) && SystemEdge(s, io).core.warp.WarpDone?
  {
    hide InstructionOf, AluResult, Load, RegularOp, Decode, ResolvedPc;
    SignalsInteger(s.core.decoded, At(imem, a).value);
  }

  /**
   Every edge keeps the invariant: the core is still on the way through the instruction at `a`, or
   has just finished it and is at the next state of the instruction set.
   */
  lemma EdgeRefines(s: System, imem: Memory, a: State, io: Inputs)
    requires Inv(s, imem, a) && Honest(s, imem, io) && At(imem, a).Some?
    ensures Inv(SystemEdge(s, io), imem, NextState(s, imem, a))
  {
    hide Honest, SystemEdge, Signals, InstructionOf, Fetched, Holds, Kept, Finished, Pending;
    match s.core.warp
    case WarpFetch => FetchStep(s, imem, a, io);
    case WarpDecode => DecodeStep(s, imem, a, io);
    case WarpRequest => RequestStep(s, imem, a, io);
    case WarpRegWait => RegWaitStep(s, imem, a, io);
    case WarpWait => WaitStep(s, imem, a, io);
    case WarpExecute => ExecuteStep(s, imem, a, io);
    case WarpIntAluWait => ExecuteStep(s, imem, a, io);
    case WarpUpdate =>
      if s.core.decoded.halt {
        HaltStep(s, imem, a, io);
      } else {
        RetireStep(s, imem, a, io);
      }
    case WarpDone => DoneStep(s, imem, a, io);
  }

  // ----- Transfers -----

  datatype Transfer = Fetch(address: Word) | Read(address: Word, data: Word) | Write(address: Word, data: Word)

  /** The transfers accepted at an edge: `valid` and `ready` together. */
  function Accepted(s: System, io: Inputs): seq<Transfer> {
    var f, l := s.core.fetcher, s.core.lsu;
    (if f.valid && io.fetchReady then [Fetch(f.address)] else [])
    + (if l.readValid && io.data.readReady then [Read(l.readAddress, io.data.readData)] else [])
    + (if l.writeValid && io.data.writeReady then [Write(l.writeAddress, l.writeData)] else [])
  }

  function DataTransfers(i: Instruction, a: State): seq<Transfer> {
    if i.Lw? then [Read(Address(i, a), Load(a.store.mem, Address(i, a)))]
    else if i.Sw? then [Write(Address(i, a), a.store.regs[i.rs2])]
    else []
  }

  /** One fetch, and one read or write if the instruction is a memory instruction. */
  function Transfers(imem: Memory, a: State): seq<Transfer> {
    [Fetch(a.pc)] + if At(imem, a).Some? then DataTransfers(At(imem, a).value, a) else []
  }

  /** The transfers already made for the instruction under way. */
  function Made(s: System, imem: Memory, a: State): seq<Transfer> {
    match s.core.warp
    case WarpFetch => if s.core.fetcher.state.FetcherDone? then [Fetch(a.pc)] else []
    case WarpDecode => [Fetch(a.pc)]
    case WarpRequest => [Fetch(a.pc)]
    case WarpRegWait => [Fetch(a.pc)]
    case WarpWait => if Busy(s.core.lsu.state) then [Fetch(a.pc)] else Transfers(imem, a)
    case _ => Transfers(imem, a)
  }

  lemma WaitTransfers(s: System, imem: Memory, a: State, io: Inputs)
    requires Inv(s, imem, a) && Honest(s, imem, io) && At(imem, a).Some?
    requires s.core.warp.WarpRegWait? || s.core.warp.WarpWait?
    ensures Made(SystemEdge(s, io), imem, a) == Made(s, imem, a) + Accepted(s, io)
  {
    hide InstructionOf, AluResult, Load, RegularOp, Decode, Signals, ResolvedPc, FileEdge, AluEdge, Effect;
    SignalsInteger(s.core.decoded, At(imem, a).value);
  }

  /** An edge adds to the transfers made exactly those accepted at it. */
  lemma EdgeTransfers(s: System, imem: Memory, a: State, io: Inputs)
    requires Inv(s, imem, a) && Honest(s, imem, io) && At(imem, a).Some? && !Retires(s.core)
    ensures Made(SystemEdge(s, io), imem, a) == Made(s, imem, a) + Accepted(s, io)
  {
    hide InstructionOf, AluResult, Load, RegularOp, Decode, Signals, ResolvedPc, FileEdge, AluEdge, Effect, LsuEdge;
    if s.core.warp.WarpRegWait? || s.core.warp.WarpWait? {
      WaitTransfers(s, imem, a, io);
    }
  }

  lemma RetireTransfers(s: System, imem: Memory, a: State, io: Inputs)
    requires Inv(s, imem, a) && Honest(s, imem, io) && Retires(s.core)
    ensures Accepted(s, io) == [] && Made(s, imem, a) == Transfers(imem, a)
    ensures Made(SystemEdge(s, io), imem, IsaStep(imem, a)) == []
  {
    hide InstructionOf, AluResult, Load, RegularOp, Decode, Signals, ResolvedPc, FileEdge, AluEdge, Effect, LsuEdge;
  }

  /** An address stays put from the edge that asks for it to the edge that accepts it. */
  lemma AddressStable(s: System, imem: Memory, a: State, io: Inputs)
    requires Inv(s, imem, a) && Honest(s, imem, io) && At(imem, a).Some?
    ensures var before, after := s.core, SystemEdge(s, io).core;
            && (before.fetcher.valid && !io.fetchReady ==>
                  after.fetcher.valid && after.fetcher.address == before.fetcher.address)
            && (before.lsu.readValid && !io.data.readReady ==>
                  after.lsu.readValid && after.lsu.readAddress == before.lsu.readAddress)
            && (before.lsu.writeValid && !io.data.writeReady ==>
                  after.lsu.writeValid && after.lsu.writeAddress == before.lsu.writeAddress
                  && after.lsu.writeData == before.lsu.writeData)
  {
    hide InstructionOf, AluResult, Load, RegularOp, Decode, Signals, ResolvedPc, FileEdge, AluEdge, Effect;
    if s.core.warp.WarpRegWait? || s.core.warp.WarpWait? {
      SignalsInteger(s.core.decoded, At(imem, a).value);
    }
  }

  // ----- Cycles -----

  /** An edge at which the core waits for a memory that is not ready. */
  predicate Stalled(c: Core, io: Inputs) {
    || (c.warp.WarpFetch? && c.fetcher.state.FetcherFetching? && !io.fetchReady)
    || (c.warp.WarpWait? && c.lsu.state.LsuWaiting? && c.lsu.readValid && !io.data.readReady)
    || (c.warp.WarpWait? && c.lsu.state.LsuWaiting? && c.lsu.writeValid && !io.data.writeReady)
  }

  /** How many edges of its instruction are over, stalls and `exit` not counted. */
  function Position(s: System, imem: Memory, a: State): nat {
    var at := At(imem, a);
    if at.None? || at.value.Exit? then 0 else
    var more := if MemoryOp(at.value) then 1 else 0;
    match s.core.warp
    case WarpFetch =>
      (match s.core.fetcher.state
       case FetcherIdle => 0
       case FetcherFetching => 1
       case FetcherDone => 2)
    case WarpDecode => 3
    case WarpRequest => 4
    case WarpRegWait => 5
    case WarpWait => if Busy(s.core.lsu.state) then 6 else 6 + more
    case WarpExecute => 7 + more
    case WarpIntAluWait => 8 + more
    case WarpUpdate => 9 + more
    case _ => 0
  }

  /** Ten edges for an instruction and one more for a load or a store. */
  function Cycles(imem: Memory, a: State): nat {
    if At(imem, a).Some? && MemoryOp(At(imem, a).value) then 11 else 10
  }

  function Counted(s: System, imem: Memory, a: State, io: Inputs): nat {
    if Stalled(s.core, io) || At(imem, a) == Some(Instruction.Exit) then 0 else 1
  }

  lemma WaitAdvances(s: System, imem: Memory, a: State, io: Inputs)
    requires Inv(s, imem, a) && Honest(s, imem, io) && At(imem, a).Some?
    requires s.core.warp.WarpRegWait? || s.core.warp.WarpWait?
    ensures Position(SystemEdge(s, io), imem, a) == Position(s, imem, a) + Counted(s, imem, a, io)
  {
    hide InstructionOf, AluResult, Load, Decode, ResolvedPc, FileEdge, AluEdge, Effect, RegularOp, Signals;
    SignalsInteger(s.core.decoded, At(imem, a).value);
  }

  lemma EarlyAdvances(s: System, imem: Memory, a: State, io: Inputs)
    requires Inv(s, imem, a) && Honest(s, imem, io) && At(imem, a).Some?
    requires s.core.warp.WarpFetch? || s.core.warp.WarpDecode? || s.core.warp.WarpRequest?
    ensures Position(SystemEdge(s, io), imem, a) == Position(s, imem, a) + Counted(s, imem, a, io)
  {
    hide InstructionOf, AluResult, Load, Decode, ResolvedPc, FileEdge, AluEdge, Effect, RegularOp, Signals;
    hide LsuEdge, Holds, Quiet;
  }

  lemma LateAdvances(s: System, imem: Memory, a: State, io: Inputs)
    requires Inv(s, imem, a) && Honest(s, imem, io) && At(imem, a).Some? && !Retires(s.core)
    requires s.core.warp.WarpExecute? || s.core.warp.WarpIntAluWait? || s.core.warp.WarpUpdate? || s.core.warp.WarpDone?
    ensures Position(SystemEdge(s, io), imem, a) == Position(s, imem, a) + Counted(s, imem, a, io)
  {
    hide InstructionOf, AluResult, Load, Decode, ResolvedPc, FileEdge, AluEdge, Effect, RegularOp, Signals;
    hide LsuEdge, FetcherEdge, Finished, Captured, Computed;
    if s.core.warp.WarpUpdate? {
      SignalsInteger(s.core.decoded, At(imem, a).value);
    } else if s.core.warp.WarpExecute? && !At(imem, a).value.Exit? {
      ExecuteWaits(s.core.decoded, At(imem, a).value);
    }
  }

  /** Every edge that is not a stall brings the instruction one edge nearer to its end. */
  lemma EdgeAdvances(s: System, imem: Memory, a: State, io: Inputs)
    requires Inv(s, imem, a) && Honest(s, imem, io) && At(imem, a).Some? && !Retires(s.core)
    ensures Position(SystemEdge(s, io), imem, a) == Position(s, imem, a) + Counted(s, imem, a, io)
  {
    match s.core.warp {
      case WarpFetch => EarlyAdvances(s, imem, a, io);
      case WarpDecode => EarlyAdvances(s, imem, a, io);
      case WarpRequest => EarlyAdvances(s, imem, a, io);
      case WarpRegWait => WaitAdvances(s, imem, a, io);
      case WarpWait => WaitAdvances(s, imem, a, io);
      case _ => LateAdvances(s, imem, a, io);
    }
  }

  /** Every instruction but `exit` waits one cycle for the ALU. */
  lemma ExecuteWaits(d: Decoded, i: Instruction)
    requires Signals(d, i) && !i.Exit?
    ensures !d.alu.FPU? && (RegularOp(d.alu) || d.branch || d.alu.JAL?)
  {
  }

  lemma RetireAdvances(s: System, imem: Memory, a: State, io: Inputs)
    requires Inv(s, imem, a) && Honest(s, imem, io) && Retires(s.core)
    ensures Position(s, imem, a) + Counted(s, imem, a, io) == Cycles(imem, a)
    ensures Position(SystemEdge(s, io), imem, IsaStep(imem, a)) == 0
  {
    hide InstructionOf, AluResult, Load, RegularOp, Decode, Signals, ResolvedPc, FileEdge, AluEdge, Effect, LsuEdge;
    SignalsInteger(s.core.decoded, At(imem, a).value);
  }

  // ----- Runs -----

  function Run(s: System, ins: seq<Inputs>): System
    decreases ins
  {
    if ins == [] then s else Run(SystemEdge(s, ins[0]), ins[1..])
  }

  predicate HonestRun(s: System, imem: Memory, ins: seq<Inputs>)
    decreases ins
  {
    ins != [] ==> Honest(s, imem, ins[0]) && HonestRun(SystemEdge(s, ins[0]), imem, ins[1..])
  }

  /** The instructions finished during a run. */
  function Retired(s: System, ins: seq<Inputs>): nat
    decreases ins
  {
    if ins == [] then 0 else (if Retires(s.core) then 1 else 0) + Retired(SystemEdge(s, ins[0]), ins[1..])
  }

  /** The transfers accepted during a run. */
  function Log(s: System, ins: seq<Inputs>): seq<Transfer>
    decreases ins
  {
    if ins == [] then [] else Accepted(s, ins[0]) + Log(SystemEdge(s, ins[0]), ins[1..])
  }

  /** The edges of a run that were not stalls, up to `exit`. */
  function Edges(s: System, imem: Memory, a: State, ins: seq<Inputs>): nat
    decreases ins
  {
    if ins == [] then 0 else
    Counted(s, imem, a, ins[0]) + Edges(SystemEdge(s, ins[0]), imem, NextState(s, imem, a), ins[1..])
  }

  /** What the instruction set says of the transfers and cycles of `n` instructions. */
  function AllTransfers(imem: Memory, a: State, n: nat): seq<Transfer>
    decreases n
  {
    if n == 0 then [] else Transfers(imem, a) + AllTransfers(imem, IsaStep(imem, a), n - 1)
  }

  function AllCycles(imem: Memory, a: State, n: nat): nat
    decreases n
  {
    if n == 0 then 0 else Cycles(imem, a) + AllCycles(imem, IsaStep(imem, a), n - 1)
  }

  /** Every instruction on the way is a scalar integer one. */
  ghost predicate Supported(imem: Memory, a: State) {
    forall n: nat :: At(imem, IsaRun(imem, a, n)).Some?
  }

  lemma SupportedStep(imem: Memory, a: State)
    requires Supported(imem, a)
    ensures At(imem, a).Some? && Supported(imem, IsaStep(imem, a))
  {
    assert IsaRun(imem, a, 0) == a;
    forall n: nat ensures At(imem, IsaRun(imem, IsaStep(imem, a), n)).Some? {
      assert IsaRun(imem, a, n + 1) == IsaRun(imem, IsaStep(imem, a), n);
    }
  }

  /**
   The refinement over whole runs, for every memory delay: after a run in which n instructions were
   finished, the core is on its way from the n-th state of the instruction set.
   */
  lemma {:induction false} RunRefines(s: System, imem: Memory, a: State, ins: seq<Inputs>)
    requires Inv(s, imem, a) && HonestRun(s, imem, ins) && Supported(imem, a)
    ensures Inv(Run(s, ins), imem, IsaRun(imem, a, Retired(s, ins)))
    decreases |ins|
  {
    hide Inv, Honest, SystemEdge, At, IsaStep, Supported;
    if ins != [] {
      SupportedStep(imem, a);
      EdgeRefines(s, imem, a, ins[0]);
      RunRefines(SystemEdge(s, ins[0]), imem, NextState(s, imem, a), ins[1..]);
    }
  }

  /**
   The transfers accepted are those of the instructions, one fetch each and one read or write for
   each load or store and in that order, up to those of the instruction under way.
   */
  lemma {:induction false} RunTransfers(s: System, imem: Memory, a: State, ins: seq<Inputs>)
    requires Inv(s, imem, a) && HonestRun(s, imem, ins) && Supported(imem, a)
    ensures var n, end := Retired(s, ins), Run(s, ins);
            Made(s, imem, a) + Log(s, ins)
            == AllTransfers(imem, a, n) + Made(end, imem, IsaRun(imem, a, n))
    decreases |ins|
  {
    hide Inv, Honest, SystemEdge, At, IsaStep, Accepted, Made, Transfers, Supported;
    if ins != [] {
      var next, n := SystemEdge(s, ins[0]), Retired(s, ins);
      SupportedStep(imem, a);
      EdgeRefines(s, imem, a, ins[0]);
      if Retires(s.core) {
        RetireTransfers(s, imem, a, ins[0]);
        RunTransfers(next, imem, IsaStep(imem, a), ins[1..]);
        var rest := AllTransfers(imem, IsaStep(imem, a), n - 1);
        Regroup(Transfers(imem, a), rest, Made(Run(s, ins), imem, IsaRun(imem, a, n)));
        Regroup([], [], Log(next, ins[1..]));
      } else {
        EdgeTransfers(s, imem, a, ins[0]);
        RunTransfers(next, imem, a, ins[1..]);
        Regroup(Made(s, imem, a), Accepted(s, ins[0]), Log(next, ins[1..]));
      }
    } else {
      Regroup(Made(s, imem, a), [], []);
      Regroup([], [], Made(s, imem, a));
    }
  }

  /** The edges used are ten or eleven an instruction, besides those spent waiting for a memory. */
  lemma {:induction false} RunCycles(s: System, imem: Memory, a: State, ins: seq<Inputs>)
    requires Inv(s, imem, a) && HonestRun(s, imem, ins) && Supported(imem, a)
    ensures var n, end := Retired(s, ins), Run(s, ins);
            Position(s, imem, a) + Edges(s, imem, a, ins)
            == AllCycles(imem, a, n) + Position(end, imem, IsaRun(imem, a, n))
    decreases |ins|
  {
    hide Inv, Honest, SystemEdge, At, IsaStep, Position, Cycles, Counted, Supported;
    if ins != [] {
      var next := SystemEdge(s, ins[0]);
      SupportedStep(imem, a);
      EdgeRefines(s, imem, a, ins[0]);
      if Retires(s.core) {
        RetireAdvances(s, imem, a, ins[0]);
        RunCycles(next, imem, IsaStep(imem, a), ins[1..]);
      } else {
        EdgeAdvances(s, imem, a, ins[0]);
        RunCycles(next, imem, a, ins[1..]);
      }
    }
  }

  lemma Regroup<T>(a: seq<T>, b: seq<T>, c: seq<T>)
    ensures a + b + c == a + (b + c) && [] + c == c && a + [] == a
  {
  }

  // ----- From reset to the end -----

  /** A core that has been reset and starts at a base address. */
  lemma StartRefines(s: System, imem: Memory, io: Inputs)
    requires !s.core.running && s.core.warp.WarpIdle? && !s.core.decoded.alu.FPU?
    requires s.core.decoded == Defaults(s.core.decoded.alu) && s.core.file == File(ResetRegs(), 0, 0)
    requires s.core.fetcher == Fetcher(FetcherIdle, false, 0, 0) && s.core.lsu == LSU_RESET
    requires !io.reset && io.start
    ensures Inv(SystemEdge(s, io), imem, State(io.base, Store(ResetRegs(), s.mem)))
    ensures SystemEdge(s, io).core.warp.WarpFetch? && SystemEdge(s, io).core.fetcher.state.FetcherIdle?
    ensures SystemEdge(s, io).core.pc == io.base && SystemEdge(s, io).core.done == s.core.done
    ensures forall r: Reg :: SystemEdge(s, io).core.file.regs[r] == if r == 31 then 0xFFFF_FFFF else 0
  {
    hide InstructionOf, AluResult, Load, RegularOp, Decode, ResolvedPc;
    assert ResetRegs()[0] == 0;
  }

  /** A reset stops the core and clears every register but x31, whatever was under way; memory stays. */
  lemma ResetClears(s: System, io: Inputs)
    requires io.reset && !s.core.lsu.writeValid
    ensures var c := SystemEdge(s, io).core;
            && !c.running && !c.done && c.warp == WarpIdle && c.pc == 0
            && c.fetcher == Fetcher(FetcherIdle, false, 0, 0)
            && c.lsu.state == LsuIdle && !c.lsu.readValid && !c.lsu.writeValid && c.lsu.out == 0
            && c.alu.result == 0 && c.file.rs1 == 0 && c.file.rs2 == 0
            && !c.decoded.regWrite && !c.decoded.memRead && !c.decoded.memWrite && !c.decoded.branch
            && !c.decoded.halt && !c.decoded.scalar
            && forall r: Reg :: c.file.regs[r] == if r == 31 then 0xFFFF_FFFF else 0
    ensures SystemEdge(s, io).mem == s.mem
  {
  }

  /** At the start of a fetch the core shows the state of the instruction set, no more and no less. */
  lemma AtFetch(s: System, imem: Memory, a: State, ins: seq<Inputs>)
    requires Inv(s, imem, a) && HonestRun(s, imem, ins) && Supported(imem, a)
    requires s.core.warp.WarpFetch? && s.core.fetcher.state.FetcherIdle?
    ensures var n, end := Retired(s, ins), Run(s, ins);
            end.core.warp.WarpFetch? && end.core.fetcher.state.FetcherIdle? ==>
              && State(end.core.pc, Store(end.core.file.regs, end.mem)) == IsaRun(imem, a, n)
              && Log(s, ins) == AllTransfers(imem, a, n)
              && Edges(s, imem, a, ins) == AllCycles(imem, a, n)
  {
    hide Honest, SystemEdge, At, IsaStep, Accepted, Transfers, Cycles, Counted, Supported, Run, Log, Edges, Retired;
    hide AllTransfers, AllCycles, IsaRun;
    RunRefines(s, imem, a, ins);
    RunTransfers(s, imem, a, ins);
    RunCycles(s, imem, a, ins);
    Regroup([], [], Log(s, ins));
    Regroup(AllTransfers(imem, a, Retired(s, ins)), [], []);
  }

  /** A core that is done is at an `exit` of the instruction set, with that state's registers and memory. */
  lemma AtDone(s: System, imem: Memory, a: State, ins: seq<Inputs>)
    requires Inv(s, imem, a) && HonestRun(s, imem, ins) && Supported(imem, a)
    ensures var end, b := Run(s, ins), IsaRun(imem, a, Retired(s, ins));
            end.core.warp.WarpDone? ==>
              && At(imem, b) == Some(Instruction.Exit)
              && State(end.core.pc, Store(end.core.file.regs, end.mem)) == b
  {
    hide Honest, SystemEdge, InstructionOf, Supported, Run, Retired, IsaRun;
    RunRefines(s, imem, a, ins);
  }

  // ----- Getting to the end -----

  /** Counts down over the edges of an instruction, `exit` included. */
  function Rank(c: Core): nat {
    match c.warp
    case WarpFetch =>
      (match c.fetcher.state
       case FetcherIdle => 12
       case FetcherFetching => 11
       case FetcherDone => 10)
    case WarpDecode => 9
    case WarpRequest => 8
    case WarpRegWait => 7
    case WarpWait => if Busy(c.lsu.state) then 6 else 5
    case WarpExecute => 4
    case WarpIntAluWait => 3
    case WarpUpdate => 2
    case _ => 1
  }

  function Useful(c: Core, io: Inputs): nat {
    if Stalled(c, io) || c.warp.WarpDone? then 0 else 1
  }

  lemma RankDrops(s: System, imem: Memory, a: State, io: Inputs)
    requires Inv(s, imem, a) && Honest(s, imem, io) && At(imem, a).Some? && !Retires(s.core)
    ensures Rank(SystemEdge(s, io).core) + Useful(s.core, io) <= Rank(s.core)
  {
    hide InstructionOf, AluResult, Load, Decode, ResolvedPc, FileEdge, AluEdge, Effect, RegularOp, Signals;
    if s.core.warp.WarpRegWait? || s.core.warp.WarpWait? {
      SignalsInteger(s.core.decoded, At(imem, a).value);
    } else {
      hide LsuEdge, Finished, Captured, Computed;
    }
  }

  /** The edges of a run at which the core was neither waiting for a memory nor done. */
  function UsefulEdges(s: System, ins: seq<Inputs>): nat
    decreases ins
  {
    if ins == [] then 0 else Useful(s.core, ins[0]) + UsefulEdges(SystemEdge(s, ins[0]), ins[1..])
  }

  /** The edges of a run that were no stalls, whatever the core did at them. */
  function FreeEdges(s: System, ins: seq<Inputs>): nat
    decreases ins
  {
    if ins == [] then 0 else (if Stalled(s.core, ins[0]) then 0 else 1) + FreeEdges(SystemEdge(s, ins[0]), ins[1..])
  }

  /** A core that is done stays so; before that every edge that is no stall is of use. */
  lemma {:induction false} AllUseful(s: System, imem: Memory, a: State, ins: seq<Inputs>)
    requires Inv(s, imem, a) && HonestRun(s, imem, ins) && Supported(imem, a)
    ensures s.core.warp.WarpDone? ==> Run(s, ins).core.warp.WarpDone?
    ensures !Run(s, ins).core.warp.WarpDone? ==> FreeEdges(s, ins) == UsefulEdges(s, ins)
    decreases |ins|
  {
    hide Inv, Honest, SystemEdge, At, IsaStep, Supported, Stalled;
    if ins != [] {
      SupportedStep(imem, a);
      EdgeRefines(s, imem, a, ins[0]);
      AllUseful(SystemEdge(s, ins[0]), imem, NextState(s, imem, a), ins[1..]);
      if s.core.warp.WarpDone? {
        StaysDone(s, imem, a, ins[0]);
      }
    }
  }

  lemma StaysDone(s: System, imem: Memory, a: State, io: Inputs)
    requires Inv(s, imem, a) && Honest(s, imem, io) && s.core.warp.WarpDone?
    ensures SystemEdge(s, io).core.warp.WarpDone? && SystemEdge(s, io).core.done
  {
  }

  /** At most twelve of them for each instruction finished and for the one under way. */
  lemma {:induction false} UsefulBound(s: System, imem: Memory, a: State, ins: seq<Inputs>)
    requires Inv(s, imem, a) && HonestRun(s, imem, ins) && Supported(imem, a)
    ensures UsefulEdges(s, ins) <= Rank(s.core) + 12 * Retired(s, ins)
    decreases |ins|
  {
    hide Inv, Honest, SystemEdge, At, IsaStep, Supported, Useful, Rank;
    if ins != [] {
      SupportedStep(imem, a);
      EdgeRefines(s, imem, a, ins[0]);
      UsefulBound(SystemEdge(s, ins[0]), imem, NextState(s, imem, a), ins[1..]);
      if Retires(s.core) {
        RetireRank(s, imem, a, ins[0]);
      } else {
        RankDrops(s, imem, a, ins[0]);
      }
    }
  }

  lemma RetireRank(s: System, imem: Memory, a: State, io: Inputs)
    requires Inv(s, imem, a) && Honest(s, imem, io) && Retires(s.core)
    ensures Rank(SystemEdge(s, io).core) == 12 && Useful(s.core, io) <= Rank(s.core)
  {
    hide InstructionOf, AluResult, Load, RegularOp, Decode, Signals, ResolvedPc, FileEdge, AluEdge, Effect, LsuEdge;
  }

  /** `exit` is never finished: the instructions before the n-th are others. */
  lemma {:induction false} NoExitRetired(s: System, imem: Memory, a: State, ins: seq<Inputs>, j: nat)
    requires Inv(s, imem, a) && HonestRun(s, imem, ins) && Supported(imem, a) && j < Retired(s, ins)
    ensures At(imem, IsaRun(imem, a, j)) != Some(Instruction.Exit)
    decreases |ins|
  {
    hide Honest, SystemEdge, IsaStep, Supported, InstructionOf, Signals, Holds, Kept, Finished, Captured, Computed;
    SupportedStep(imem, a);
    EdgeRefines(s, imem, a, ins[0]);
    if !Retires(s.core) {
      NoExitRetired(SystemEdge(s, ins[0]), imem, a, ins[1..], j);
    } else if j > 0 {
      NoExitRetired(SystemEdge(s, ins[0]), imem, IsaStep(imem, a), ins[1..], j - 1);
    } else {
      RetiresOther(s, imem, a);
    }
  }

  lemma RetiresOther(s: System, imem: Memory, a: State)
    requires Inv(s, imem, a) && Retires(s.core)
    ensures At(imem, a) != Some(Instruction.Exit)
  {
    SignalsInteger(s.core.decoded, At(imem, a).value);
  }
}
