/**
 The core with one warp: the warp's state and program counter, and the scalar units around them.
 Every register takes its new value at a clock edge from the values before that edge.
 */
module Core {
  import opened Words
  import opened Isa
  import opened Decoder
  import opened Warp
  import opened Units

  datatype Core = Core(
    running: bool,        // start_execution
    done: bool,
    warp: WarpState,
    pc: Word,
    fetcher: Fetcher,
    decoded: Decoded,
    file: File,
    alu: Pipeline,
    lsu: Lsu)

  /** What comes from outside in one clock cycle. */
  datatype Inputs = Inputs(
    reset: bool, start: bool, base: Word,
    fetchReady: bool, fetchData: Word,
    data: DataInputs,
    fpuValid: bool, fpuResult: Word)

  function AluWire(c: Core, io: Inputs): Word {
    if c.decoded.alu.FPU? then io.fpuResult else c.alu.result
  }

  predicate AluEnabled(d: Decoded) {
    d.scalar && (RegularOp(d.alu) || d.branch || d.alu.JAL?)
  }

  /** The program counter written in the update state. */
  function ResolvedPc(c: Core, io: Inputs): Word {
    if c.decoded.branch && AluWire(c, io) == 1 then Wrap(c.pc + c.decoded.immediate)
    else if c.decoded.alu.JAL? then AluWire(c, io)
    else Wrap(c.pc + 1)
  }

  /** start_execution, the warp's state, its pc and `done`. */
  function ControlEdge(c: Core, io: Inputs): Core {
    if io.reset then c.(running := false, done := false, warp := WarpIdle, pc := 0)
    else if !c.running then
      if io.start then c.(running := true, warp := WarpFetch, pc := io.base,
                           fetcher := c.fetcher.(state := FetcherIdle))
      else c
    else
      c.(done := c.warp.WarpDone?,
         warp := Advance(c.warp, c.fetcher.state.FetcherDone?, Busy(c.lsu.state), c.decoded, io.fpuValid),
         pc := if c.warp.WarpUpdate? && !c.decoded.halt then ResolvedPc(c, io) else c.pc)
  }

  function DecodedEdge(c: Core, io: Inputs): Decoded {
    if io.reset then Defaults(c.decoded.alu)
    else if c.warp.WarpDecode? then Decode(c.fetcher.instruction, c.decoded.alu)
    else c.decoded
  }

  function Edge(c: Core, io: Inputs): Core {
    var d := c.decoded;
    var control := ControlEdge(c, io);
    Core(control.running, control.done, control.warp, control.pc,
         FetcherEdge(control.fetcher, io.reset, c.warp, c.pc, io.fetchReady, io.fetchData),
         DecodedEdge(c, io),
         FileEdge(c.file, io.reset, c.warp, d, WriteBack(AluWire(c, io), c.lsu.out, 0)),
         AluEdge(c.alu, io.reset, AluEnabled(d), c.pc, d.alu, c.file.rs1, c.file.rs2, d.immediate),
         LsuEdge(c.lsu, io.reset, c.warp, d, c.file.rs1, c.file.rs2, io.data))
  }

  /** A vector instruction leaves the scalar ALU and load-store unit alone, and all registers but sx.slt's rd. */
  lemma VectorLeaves(c: Core, io: Inputs)
    requires !c.decoded.scalar && !io.reset
    ensures Edge(c, io).alu == c.alu && Edge(c, io).lsu == c.lsu
    ensures c.decoded.mux != VectorToScalar ==> Edge(c, io).file.regs == c.file.regs
  {
  }

  /** A scalar floating-point operation writes what the floating-point unit gives. */
  lemma FloatWrites(c: Core, io: Inputs)
    requires c.decoded.alu == FPU && c.decoded.scalar && c.decoded.regWrite && c.decoded.mux == AluOut
    requires !io.reset && c.running && c.warp == WarpUpdate && !c.decoded.halt && !c.decoded.branch
    ensures var e := Edge(c, io);
            && e.file.regs == SetReg(c.file.regs, c.decoded.rd, io.fpuResult)
            && e.pc == Wrap(c.pc + 1) && e.warp == WarpFetch
  {
  }

  /** A core that has not been started stays where it is. */
  lemma NotStarted(c: Core, io: Inputs)
    requires !io.reset && !io.start && !c.running
    ensures var e := Edge(c, io);
            !e.running && e.done == c.done && e.warp == c.warp && e.pc == c.pc
  {
  }

  class ComputeCore {
    var running: bool
    var done: bool
    var warp: WarpState
    var pc: Word
    var decoded: Decoded
    const fetcher: FetcherUnit
    const lsu: LsuUnit
    const alu: AluUnit
    const file: FileUnit

    ghost function Value(): Core
      reads this, fetcher, lsu, alu, file
    {
      Core(running, done, warp, pc, fetcher.Value(), decoded, file.Value(), alu.Value(), lsu.Value())
    }

    constructor (previous: AluOp)
      ensures fresh(fetcher) && fresh(lsu) && fresh(alu) && fresh(file)
      ensures Value() == Core(false, false, WarpIdle, 0, Fetcher(FetcherIdle, false, 0, 0),
                              Defaults(previous), File(ResetRegs(), 0, 0), ALU_RESET, LSU_RESET)
    {
      running, done, warp, pc := false, false, WarpIdle, 0;
      decoded := Defaults(previous);
      fetcher := new FetcherUnit();
      lsu := new LsuUnit();
      alu := new AluUnit();
      file := new FileUnit();
    }

    /** The state machine's own registers, and the decoder's. */
    method ClockControl(io: Inputs, result: Word)
      requires result == AluWire(Value(), io)
      modifies this, fetcher`state
      ensures var c := ControlEdge(old(Value()), io);
              running == c.running && done == c.done && warp == c.warp && pc == c.pc
              && fetcher.Value() == c.fetcher
      ensures decoded == DecodedEdge(old(Value()), io)
    {
      hide Decode, Advance;
      var d, w := decoded, warp;
      if io.reset {
        running, done, warp, pc := false, false, WarpIdle, 0;
        decoded := Defaults(d.alu);
      } else {
        if w == WarpDecode {
          decoded := Decode(fetcher.instruction, d.alu);
        }
        if !running {
          if io.start {
            running, warp, pc := true, WarpFetch, io.base;
            fetcher.state := FetcherIdle;
          }
        } else {
          done := w == WarpDone;
          warp := Advance(w, fetcher.state == FetcherDone, Busy(lsu.state), d, io.fpuValid);
          if w == WarpUpdate && !d.halt {
            if d.branch && result == 1 {
              pc := Wrap(pc + d.immediate);
            } else if d.alu == JAL {
              pc := result;
            } else {
              pc := Wrap(pc + 1);
            }
          }
        }
      }
    }

    /** One clock edge: every unit is handed values read before any of them changes. */
    method Clock(io: Inputs)
      modifies this, fetcher, lsu, alu, file
      ensures Value() == Edge(old(Value()), io)
    {
      hide FetcherEdge, FileEdge, AluEdge, LsuEdge, ControlEdge, DecodedEdge, RegularOp;
      ghost var c := Value();
      var d, w, p := decoded, warp, pc;
      var op1, op2 := file.rs1, file.rs2;
      var result := if d.alu == FPU then io.fpuResult else alu.result;
      var back := WriteBack(result, lsu.out, 0);
      ClockControl(io, result);
      fetcher.Clock(io.reset, w, p, io.fetchReady, io.fetchData);
      file.Clock(io.reset, w, d, back);
      alu.Clock(io.reset, AluEnabled(d), p, d.alu, op1, op2, d.immediate);
      lsu.Clock(io.reset, w, d, op1, op2, io.data);
    }
  }
}
