/**
 Two instructions outside the subset of module Refinement. The ALU is never enabled for `seqi`, and
 LUI has no ALU operation of its own: what they do depends on the instruction before them, whose
 signals stay in force while the next word is fetched.
 */
module Leftover {
  import opened Words
  import opened Wrappers
  import opened Isa
  import opened Decoder
  import opened Warp
  import opened Units
  import opened Core
  import opened Refinement

  /** A scalar word that is neither a memory instruction nor `exit` nor a floating-point operation. */
  predicate PlainWord(w: Word, previous: AluOp) {
    var d := Decode(w, previous);
    d.scalar && !d.memRead && !d.memWrite && !d.halt && !d.alu.FPU?
  }

  predicate SeqiWord(w: Word) {
    Opcode(w) == 1 && Bit28(w) && F4(w) == 11
  }

  predicate LuiWord(w: Word) {
    Opcode(w) == 3 && Bit5(w)
  }

  lemma SeqiSignals(w: Word, previous: AluOp)
    requires SeqiWord(w)
    ensures PlainWord(w, previous) && !AluEnabled(Decode(w, previous))
    ensures Decode(w, previous) == Defaults(SEQI).(rd := Rd(w), rs1 := Rs1(w), regWrite := true,
                                                   scalar := true, immediate := SignExtend14(ImmI(w)))
  {
  }

  lemma LuiSignals(w: Word, previous: AluOp)
    requires LuiWord(w) && !previous.FPU?
    ensures PlainWord(w, previous)
    ensures Decode(w, previous) == Defaults(previous).(rd := Rd(w), immediate := ImmU(w) * 0x1000,
                                                       regWrite := true, mux := Immediate, scalar := true)
  {
  }

  // ----- What the ALU is left with -----

  /** The operation of signals `d` once more, on the registers and the pc of `a`. */
  function Replay(d: Decoded, a: State): Word {
    AluResult(d.alu, a.store.regs[d.rs1], a.store.regs[d.rs2], d.immediate, a.pc)
  }

  /** The ALU's result when the word fetched next has been decoded. */
  function Left(c: Core, a: State): Word {
    if AluEnabled(c.decoded) then Replay(c.decoded, a) else c.alu.result
  }

  /**
   On the way through a plain word, `a` being the state at its fetch, `d` the signals before it and
   `r` what the ALU is left with.
   */
  predicate Passing(s: System, imem: Memory, a: State, d: Decoded, r: Word) {
    var c, w := s.core, Load(imem, a.pc);
    && c.running && Holds(s, a) && Quiet(c.lsu) && !d.alu.FPU? && PlainWord(w, d.alu)
    && match c.warp
       case WarpFetch => Fetched(s, imem, a) && c.decoded == d && Settling(c, a, r)
       case WarpDecode =>
         Fetched(s, imem, a) && c.fetcher.state.FetcherDone? && c.decoded == d
         && c.alu.result == r && Settling(c, a, r)
       case WarpRequest => Decoded(c, w, d, r)
       case WarpRegWait => Decoded(c, w, d, r) && OperandsRead(c, a)
       case WarpWait => Decoded(c, w, d, r) && OperandsRead(c, a) && Captured(c)
       case WarpExecute => Decoded(c, w, d, r) && OperandsRead(c, a) && Captured(c) && Computed(c)
       case WarpIntAluWait => Decoded(c, w, d, r) && OperandsRead(c, a) && Captured(c) && Computed(c)
       case WarpUpdate => Decoded(c, w, d, r) && OperandsRead(c, a) && Computed(c)
       case _ => false
  }

  /** While the word is fetched the old operation is done again on the registers as they are now. */
  predicate Settling(c: Core, a: State, r: Word) {
    if AluEnabled(c.decoded) then
      && r == Replay(c.decoded, a)
      && (!c.fetcher.state.FetcherIdle? ==> OperandsRead(c, a))
      && (c.fetcher.state.FetcherDone? ==> Captured(c))
    else c.alu.result == r
  }

  predicate Decoded(c: Core, w: Word, d: Decoded, r: Word) {
    && c.decoded == Decode(w, d.alu) && c.fetcher.state.FetcherIdle? && !c.fetcher.valid
    && (!AluEnabled(c.decoded) ==> c.alu.result == r)
  }

  lemma PassingStarts(s: System, imem: Memory, a: State)
    requires Inv(s, imem, a) && s.core.warp.WarpFetch? && s.core.fetcher.state.FetcherIdle?
    requires PlainWord(Load(imem, a.pc), s.core.decoded.alu)
    ensures Passing(s, imem, a, s.core.decoded, Left(s.core, a))
  {
    hide AluResult, Decode;
  }

  lemma FetchPasses(s: System, imem: Memory, a: State, d: Decoded, r: Word, io: Inputs)
    requires Passing(s, imem, a, d, r) && Honest(s, imem, io)
    requires s.core.warp.WarpFetch? || s.core.warp.WarpDecode?
    ensures Passing(SystemEdge(s, io), imem, a, d, r)
  {
    hide AluResult, Decode, RegularOp;
  }

  lemma EdgePasses(s: System, imem: Memory, a: State, d: Decoded, r: Word, io: Inputs)
    requires Passing(s, imem, a, d, r) && Honest(s, imem, io) && !s.core.warp.WarpUpdate?
    ensures Passing(SystemEdge(s, io), imem, a, d, r)
  {
    hide AluResult, Decode, RegularOp;
    if s.core.warp.WarpFetch? || s.core.warp.WarpDecode? {
      FetchPasses(s, imem, a, d, r, io);
    }
  }

  lemma {:induction false} RunPasses(s: System, imem: Memory, a: State, d: Decoded, r: Word, ins: seq<Inputs>)
    requires Passing(s, imem, a, d, r) && HonestRun(s, imem, ins) && Retired(s, ins) == 0
    ensures Passing(Run(s, ins), imem, a, d, r)
    decreases |ins|
  {
    hide Honest, SystemEdge, Holds, Quiet, Fetched, Settling, OperandsRead, Captured, Computed, Decode;
    if ins != [] {
      EdgePasses(s, imem, a, d, r, ins[0]);
      RunPasses(SystemEdge(s, ins[0]), imem, a, d, r, ins[1..]);
    }
  }

  // ----- Every word is got through -----

  /** Memories that are always ready. */
  function Ready(s: System, imem: Memory): Inputs {
    Inputs(false, false, 0, true, Load(imem, s.core.fetcher.address),
           DataInputs(true, Load(s.mem, s.core.lsu.readAddress), true), false, 0)
  }

  lemma {:induction false} RunConcat(s: System, imem: Memory, ins: seq<Inputs>, more: seq<Inputs>)
    ensures Run(s, ins + more) == Run(Run(s, ins), more)
    ensures HonestRun(s, imem, ins + more) <==> HonestRun(s, imem, ins) && HonestRun(Run(s, ins), imem, more)
    decreases |ins|
  {
    hide SystemEdge, Honest;
    if ins == [] {
      assert ins + more == more;
    } else {
      assert (ins + more)[0] == ins[0] && (ins + more)[1..] == ins[1..] + more;
      RunConcat(SystemEdge(s, ins[0]), imem, ins[1..], more);
    }
  }

  lemma PassingNearer(s: System, imem: Memory, a: State, d: Decoded, r: Word)
    requires Passing(s, imem, a, d, r) && !s.core.warp.WarpUpdate?
    ensures Honest(s, imem, Ready(s, imem)) && !Retires(s.core)
    ensures Rank(SystemEdge(s, Ready(s, imem)).core) < Rank(s.core)
  {
    hide AluResult, Decode, RegularOp, ResolvedPc, FileEdge, AluEdge;
  }

  /** With memories that are ready every plain word comes to its update. */
  lemma {:induction false} PassingEnds(s: System, imem: Memory, a: State, d: Decoded, r: Word)
    returns (ins: seq<Inputs>)
    requires Passing(s, imem, a, d, r)
    ensures HonestRun(s, imem, ins) && Retired(s, ins) == 0 && Retires(Run(s, ins).core)
    decreases Rank(s.core)
  {
    hide Honest, SystemEdge, Holds, Quiet, Fetched, Settling, OperandsRead, Captured, Computed, Decode, Rank, Ready;
    if s.core.warp.WarpUpdate? {
      ins := [];
    } else {
      var io := Ready(s, imem);
      PassingNearer(s, imem, a, d, r);
      EdgePasses(s, imem, a, d, r, io);
      var rest := PassingEnds(SystemEdge(s, io), imem, a, d, r);
      ins := [io] + rest;
      assert ins[1..] == rest;
    }
  }

  /** So does every supported instruction. */
  lemma {:induction false} InstructionEnds(s: System, imem: Memory, a: State) returns (ins: seq<Inputs>)
    requires Inv(s, imem, a) && At(imem, a).Some? && !At(imem, a).value.Exit?
    ensures HonestRun(s, imem, ins) && Retired(s, ins) == 0 && Retires(Run(s, ins).core)
    ensures Inv(Run(s, ins), imem, a)
    decreases Rank(s.core)
  {
    hide Honest, SystemEdge, Rank, Ready, Inv, Useful, At;
    if Retires(s.core) {
      ins := [];
    } else {
      var io := Ready(s, imem);
      ReadyHonest(s, imem, a);
      RankDrops(s, imem, a, io);
      EdgeRefines(s, imem, a, io);
      var rest := InstructionEnds(SystemEdge(s, io), imem, a);
      ins := [io] + rest;
      assert ins[1..] == rest;
    }
  }

  lemma ReadyHonest(s: System, imem: Memory, a: State)
    requires Inv(s, imem, a) && At(imem, a).Some? && !At(imem, a).value.Exit?
    ensures Honest(s, imem, Ready(s, imem)) && Useful(s.core, Ready(s, imem)) == 1
  {
  }

  // ----- What the two instructions do -----

  /** What `seqi` should write. */
  function SeqiValue(w: Word, a: State): Word {
    if a.store.regs[Rs1(w)] == SignExtend14(ImmI(w)) then 1 else 0
  }

  /** The edge that ends a plain word. */
  lemma PlainEnds(s: System, imem: Memory, a: State, d: Decoded, r: Word, io: Inputs)
    requires Passing(s, imem, a, d, r) && s.core.warp.WarpUpdate? && Honest(s, imem, io)
    ensures var end, e := SystemEdge(s, io), Decode(Load(imem, a.pc), d.alu);
            && end.mem == a.store.mem && end.core.warp.WarpFetch?
            && end.core.pc == ResolvedPc(s.core, io)
            && end.core.file == FileEdge(s.core.file, false, WarpUpdate, e,
                                         WriteBack(s.core.alu.result, s.core.lsu.out, 0))
  {
    hide Decode, AluResult, RegularOp, FileEdge;
  }

  /**
   `seqi` writes what the ALU was left with: the operation before it done again, on the registers and
   the pc as they are when `seqi` is fetched. It is right exactly when that is the right value.
   */
  lemma SeqiExact(s: System, imem: Memory, a: State, ins: seq<Inputs>, io: Inputs)
    requires Inv(s, imem, a) && s.core.warp.WarpFetch? && s.core.fetcher.state.FetcherIdle?
    requires SeqiWord(Load(imem, a.pc)) && HonestRun(s, imem, ins) && Honest(Run(s, ins), imem, io)
    requires Retired(s, ins) == 0 && Retires(Run(s, ins).core)
    ensures var w, end := Load(imem, a.pc), SystemEdge(Run(s, ins), io);
            && end.core.file.regs == SetReg(a.store.regs, Rd(w), Left(s.core, a))
            && end.mem == a.store.mem && end.core.pc == Wrap(a.pc + 1) && end.core.warp.WarpFetch?
            && (end.core.file.regs == SetReg(a.store.regs, Rd(w), SeqiValue(w, a))
                <==> Rd(w) == 0 || Left(s.core, a) == SeqiValue(w, a))
  {
    hide AluResult, Inv, Passing, Retires, SystemEdge, Honest, Decode, SeqiWord, Left;
    var w, d := Load(imem, a.pc), s.core.decoded;
    SeqiSignals(w, d.alu);
    PassingStarts(s, imem, a);
    RunPasses(s, imem, a, d, Left(s.core, a), ins);
    var t := Run(s, ins);
    SeqiUpdate(t, imem, a, d, Left(s.core, a), io);
    SetRegDiffers(a.store.regs, Rd(w), Left(s.core, a), SeqiValue(w, a));
  }

  lemma SetRegDiffers(regs: Regs, rd: Reg, x: Word, y: Word)
    ensures SetReg(regs, rd, x) == SetReg(regs, rd, y) <==> rd == 0 || x == y
  {
    if rd != 0 {
      assert SetReg(regs, rd, x)[rd] == x && SetReg(regs, rd, y)[rd] == y;
    }
  }

  lemma SeqiUpdate(t: System, imem: Memory, a: State, d: Decoded, r: Word, io: Inputs)
    requires Passing(t, imem, a, d, r) && Retires(t.core) && SeqiWord(Load(imem, a.pc)) && Honest(t, imem, io)
    ensures var end := SystemEdge(t, io);
            && end.core.file.regs == SetReg(a.store.regs, Rd(Load(imem, a.pc)), r)
            && end.mem == a.store.mem && end.core.pc == Wrap(a.pc + 1) && end.core.warp.WarpFetch?
  {
    hide AluResult, Honest, SystemEdge, SeqiWord;
    PlainEnds(t, imem, a, d, r, io);
    SeqiSignals(Load(imem, a.pc), d.alu);
    hide Decode;
  }

  /**
   LUI writes its immediate, and goes on to the next instruction exactly when the operation before it
   was not a jump; otherwise it jumps by its immediate.
   */
  lemma LuiExact(s: System, imem: Memory, a: State, ins: seq<Inputs>, io: Inputs)
    requires Inv(s, imem, a) && s.core.warp.WarpFetch? && s.core.fetcher.state.FetcherIdle?
    requires LuiWord(Load(imem, a.pc)) && HonestRun(s, imem, ins) && Honest(Run(s, ins), imem, io)
    requires Retired(s, ins) == 0 && Retires(Run(s, ins).core)
    ensures var w, end := Load(imem, a.pc), SystemEdge(Run(s, ins), io);
            && end.core.file.regs == SetReg(a.store.regs, Rd(w), ImmU(w) * 0x1000)
            && end.mem == a.store.mem && end.core.warp.WarpFetch?
            && end.core.pc == Wrap(a.pc + if s.core.decoded.alu.JAL? then ImmU(w) * 0x1000 else 1)
            && (end.core.pc == Wrap(a.pc + 1) <==> !s.core.decoded.alu.JAL?)
  {
    hide AluResult, Inv, Passing, Retires, SystemEdge, Honest, Decode, LuiWord, Left;
    var w, d := Load(imem, a.pc), s.core.decoded;
    assert !d.alu.FPU? by {
      InvInteger(s, imem, a);
    }
    LuiSignals(w, d.alu);
    PassingStarts(s, imem, a);
    RunPasses(s, imem, a, d, Left(s.core, a), ins);
    LuiUpdate(Run(s, ins), imem, a, d, Left(s.core, a), io);
    if d.alu.JAL? {
      WrapDiffers(a.pc, ImmU(w) * 0x1000, 1);
    }
  }

  lemma InvInteger(s: System, imem: Memory, a: State)
    requires Inv(s, imem, a)
    ensures !s.core.decoded.alu.FPU?
  {
  }

  lemma LuiUpdate(t: System, imem: Memory, a: State, d: Decoded, r: Word, io: Inputs)
    requires Passing(t, imem, a, d, r) && Retires(t.core) && LuiWord(Load(imem, a.pc)) && Honest(t, imem, io)
    ensures var w, end := Load(imem, a.pc), SystemEdge(t, io);
            && end.core.file.regs == SetReg(a.store.regs, Rd(w), ImmU(w) * 0x1000)
            && end.mem == a.store.mem && end.core.warp.WarpFetch?
            && end.core.pc == Wrap(a.pc + if d.alu.JAL? then ImmU(w) * 0x1000 else 1)
  {
    hide Honest, SystemEdge, LuiWord;
    PlainEnds(t, imem, a, d, r, io);
    LuiSignals(Load(imem, a.pc), d.alu);
    hide Decode, AluResult;
    if d.alu.JAL? {
      JalResult(a.pc, ImmU(Load(imem, a.pc)) * 0x1000);
    }
  }

  lemma JalResult(pc: Word, imm: Word)
    ensures forall a: Word, b: Word :: AluResult(JAL, a, b, imm, pc) == Wrap(pc + imm)
  {
  }

  lemma WrapDiffers(pc: Word, x: Word, y: Word)
    requires x != y
    ensures Wrap(pc + x) != Wrap(pc + y)
  {
  }

  // ----- After a supported instruction -----

  /** The result of instruction `i` done again in state `b`, whose pc is no longer that of `i`. */
  function Again(i: Instruction, b: State): Word {
    match i
    case Alu(op, _, rs1, rs2) => AluResult(op, b.store.regs[rs1], b.store.regs[rs2], 0, 0)
    case AluImm(op, _, rs1, imm) => AluResult(op, b.store.regs[rs1], 0, imm, 0)
    case Lw(_, rs1, imm) => Wrap(b.store.regs[rs1] + imm)
    case Sw(_, rs1, imm) => Wrap(b.store.regs[rs1] + imm)
    case Jump(imm) => Wrap(b.pc + imm)
    case BranchZero(rs1, _) => if b.store.regs[rs1] == 0 then 1 else 0
    case BranchOne(rs1, _) => if b.store.regs[rs1] == 1 then 1 else 0
    case Exit => 0
  }

  /** What a supported instruction leaves for the next fetch: its own operation, done once more. */
  lemma LeftAfter(s: System, imem: Memory, a: State, io: Inputs)
    requires Inv(s, imem, a) && Honest(s, imem, io) && Retires(s.core)
    ensures var t, b := SystemEdge(s, io), IsaStep(imem, a);
            && Inv(t, imem, b) && t.core.warp.WarpFetch? && t.core.fetcher.state.FetcherIdle?
            && At(imem, a).Some? && Left(t.core, b) == Again(At(imem, a).value, b)
            && (t.core.decoded.alu.JAL? <==> At(imem, a).value.Jump?)
  {
    hide IsaStep, Honest, Replay;
    RetireStep(s, imem, a, io);
    RetireIdle(s, imem, a, io);
    var d, b, i := s.core.decoded, IsaStep(imem, a), At(imem, a).value;
    ReplayIs(d, i, b);
    RetiresOther(s, imem, a);
    ExecuteWaits(d, i);
    SignalsInteger(d, i);
  }

  lemma RetireIdle(s: System, imem: Memory, a: State, io: Inputs)
    requires Inv(s, imem, a) && Honest(s, imem, io) && Retires(s.core)
    ensures SystemEdge(s, io).core.fetcher.state.FetcherIdle? && SystemEdge(s, io).core.decoded == s.core.decoded
    ensures At(imem, a).Some? && Signals(s.core.decoded, At(imem, a).value)
  {
    hide At, AluResult, Load, RegularOp, Decode, Signals, ResolvedPc, FileEdge, AluEdge, Effect, LsuEdge;
  }

  lemma ReplayIs(d: Decoded, i: Instruction, b: State)
    requires Signals(d, i) && !i.Exit?
    ensures Replay(d, b) == Again(i, b)
    ensures d.alu.JAL? <==> i.Jump?
  {
  }

  /**
   A `seqi` fetched after a supported instruction `i` writes the result of `i` done again, and is right
   exactly when that is what the comparison gives.
   */
  lemma SeqiAfter(s: System, imem: Memory, a: State, last: Inputs, ins: seq<Inputs>, io: Inputs)
    requires Inv(s, imem, a) && Honest(s, imem, last) && Retires(s.core)
    requires SeqiWord(Load(imem, IsaStep(imem, a).pc))
    requires var t := SystemEdge(s, last);
             && HonestRun(t, imem, ins) && Honest(Run(t, ins), imem, io)
             && Retired(t, ins) == 0 && Retires(Run(t, ins).core)
    ensures At(imem, a).Some?
    ensures var i, b := At(imem, a).value, IsaStep(imem, a);
            var w, end := Load(imem, b.pc), SystemEdge(Run(SystemEdge(s, last), ins), io);
            && end.core.file.regs == SetReg(b.store.regs, Rd(w), Again(i, b))
            && (end.core.file.regs == SetReg(b.store.regs, Rd(w), SeqiValue(w, b))
                <==> Rd(w) == 0 || Again(i, b) == SeqiValue(w, b))
  {
    hide IsaStep, Inv, At, SystemEdge, Honest, Retires, SeqiWord, Again, SeqiValue;
    LeftAfter(s, imem, a, last);
    SeqiExact(SystemEdge(s, last), imem, IsaStep(imem, a), ins, io);
  }

  // ----- From reset -----

  /** A core after reset with empty data memory, and the state of the instruction set it starts in. */
  const RESET := System(
    Core(false, false, WarpIdle, 0, Fetcher(FetcherIdle, false, 0, 0), Defaults(NOP), File(ResetRegs(), 0, 0),
         ALU_RESET, LSU_RESET), map[])

  const FIRST := State(0, Store(ResetRegs(), map[]))

  /** The edge at which a core that is ready is told to start at address 0. */
  function Start(imem: Memory): Inputs {
    Ready(RESET, imem).(start := true)
  }

  /**
   If the first instruction is supported and the word it goes to is `seqi` or LUI, a run from reset gets
   to the fetch of that word (`first`) and on to its update (`second`).
   */
  lemma Reaches(imem: Memory) returns (first: seq<Inputs>, second: seq<Inputs>)
    requires At(imem, FIRST).Some? && !At(imem, FIRST).value.Exit?
    requires var w := Load(imem, IsaStep(imem, FIRST).pc); SeqiWord(w) || LuiWord(w)
    ensures var mid, b := Run(RESET, first), IsaStep(imem, FIRST);
            && HonestRun(RESET, imem, first) && HonestRun(mid, imem, second)
            && Inv(mid, imem, b) && mid.core.warp.WarpFetch? && mid.core.fetcher.state.FetcherIdle?
            && Left(mid.core, b) == Again(At(imem, FIRST).value, b)
            && (mid.core.decoded.alu.JAL? <==> At(imem, FIRST).value.Jump?)
            && Retired(mid, second) == 0 && Retires(Run(mid, second).core)
  {
    hide At, IsaStep, Inv, Again, Left, SystemEdge, Honest, Retires, Passing, SeqiWord, LuiWord;
    var s := SystemEdge(RESET, Start(imem));
    Started(imem);
    var ins := InstructionEnds(s, imem, FIRST);
    var t := Run(s, ins);
    var io := Ready(t, imem);
    AlwaysHonest(t, imem);
    LeftAfter(t, imem, FIRST, io);
    first := [Start(imem)] + ins + [io];
    RunOne(RESET, imem, Start(imem));
    RunOne(t, imem, io);
    RunConcat(RESET, imem, [Start(imem)], ins);
    RunConcat(RESET, imem, [Start(imem)] + ins, [io]);
    var mid, b := SystemEdge(t, io), IsaStep(imem, FIRST);
    InvInteger(mid, imem, b);
    if SeqiWord(Load(imem, b.pc)) {
      SeqiSignals(Load(imem, b.pc), mid.core.decoded.alu);
    } else {
      LuiSignals(Load(imem, b.pc), mid.core.decoded.alu);
    }
    PassingStarts(mid, imem, b);
    second := PassingEnds(mid, imem, b, mid.core.decoded, Left(mid.core, b));
  }

  lemma Started(imem: Memory)
    ensures Honest(RESET, imem, Start(imem)) && Inv(SystemEdge(RESET, Start(imem)), imem, FIRST)
  {
    hide Inv, At;
    StartRefines(RESET, imem, Start(imem));
  }

  lemma AlwaysHonest(s: System, imem: Memory)
    ensures Honest(s, imem, Ready(s, imem))
  {
  }

  lemma RunOne(s: System, imem: Memory, io: Inputs)
    ensures Run(s, [io]) == SystemEdge(s, io)
    ensures HonestRun(s, imem, [io]) <==> Honest(s, imem, io)
  {
    hide SystemEdge, Honest;
    assert [io][1..] == [];
  }

  /** `addi x1, x1, 1` and `seqi x2, x1, 1`. */
  const SEQI_PROGRAM: Memory := map[0 := 0x3000_4021, 1 := 0x3000_6C22]

  /** From reset x1 is 1 when `seqi` compares it with 1; what is written is 2. */
  lemma SeqiFails() returns (ins: seq<Inputs>)
    ensures HonestRun(RESET, SEQI_PROGRAM, ins)
    ensures var end := Run(RESET, ins).core;
            && end.warp.WarpFetch? && end.pc == 2 && end.file.regs[1] == 1 && end.file.regs[2] == 2
  {
    hide Inv, SystemEdge, Honest, Retires, Left, At, HonestRun, Run;
    var imem, b := SEQI_PROGRAM, IsaStep(SEQI_PROGRAM, FIRST);
    SeqiProgram();
    var first, second := Reaches(imem);
    var mid := Run(RESET, first);
    var t := Run(mid, second);
    var io := Ready(t, imem);
    AlwaysHonest(t, imem);
    SeqiExact(mid, imem, b, second, io);
    ins := first + second + [io];
    RunOne(t, imem, io);
    RunConcat(RESET, imem, first, second);
    RunConcat(RESET, imem, first + second, [io]);
  }

  lemma SeqiProgram()
    ensures var imem := SEQI_PROGRAM;
            var b := IsaStep(imem, FIRST);
            && At(imem, FIRST) == Some(AluImm(ADDI, 1, 1, 1)) && b.pc == 1
            && b.store.regs[1] == 1 && SeqiWord(Load(imem, 1)) && Rd(Load(imem, 1)) == 2
  {
  }

  /** `j` to the next word, and `lui x1, 1`. */
  const LUI_PROGRAM: Memory := map[0 := 0xE000_0001, 1 := 0x6000_0221]

  /** From reset LUI, at address 1, jumps to 4097. */
  lemma LuiJumps() returns (ins: seq<Inputs>)
    ensures HonestRun(RESET, LUI_PROGRAM, ins)
    ensures var end := Run(RESET, ins).core;
            end.warp.WarpFetch? && end.pc == 4097 && end.file.regs[1] == 4096
  {
    hide Inv, SystemEdge, Honest, Retires, Left, At, HonestRun, Run;
    var imem, b := LUI_PROGRAM, IsaStep(LUI_PROGRAM, FIRST);
    LuiProgram();
    var first, second := Reaches(imem);
    var mid := Run(RESET, first);
    var t := Run(mid, second);
    var io := Ready(t, imem);
    AlwaysHonest(t, imem);
    LuiExact(mid, imem, b, second, io);
    ins := first + second + [io];
    RunOne(t, imem, io);
    RunConcat(RESET, imem, first, second);
    RunConcat(RESET, imem, first + second, [io]);
  }

  lemma LuiProgram()
    ensures var imem := LUI_PROGRAM;
            var b := IsaStep(imem, FIRST);
            && At(imem, FIRST) == Some(Jump(1)) && b.pc == 1
            && LuiWord(Load(imem, 1)) && Rd(Load(imem, 1)) == 1 && ImmU(Load(imem, 1)) == 1
  {
  }
}
