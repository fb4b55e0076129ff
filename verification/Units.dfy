/**
 The clocked units of a core: fetcher, load-store unit, ALU and scalar register file. For each, a
 function gives the registers after a clock edge from those before it, and a class holds the
 registers and updates them at the edge.
 */
module Units {
  import opened Words
  import opened Isa
  import opened Decoder
  import opened Warp

  // ----- Fetcher -----

  datatype FetcherState = FetcherIdle | FetcherFetching | FetcherDone

  datatype Fetcher = Fetcher(state: FetcherState, valid: bool, address: Word, instruction: Word)

  function FetcherEdge(f: Fetcher, reset: bool, warp: WarpState, pc: Word, ready: bool, data: Word): Fetcher {
    if reset then Fetcher(FetcherIdle, false, 0, 0) else
    match f.state
    case FetcherIdle => if warp.WarpFetch? then Fetcher(FetcherFetching, true, pc, f.instruction) else f
    case FetcherFetching => if ready then Fetcher(FetcherDone, false, f.address, data) else f
    case FetcherDone => if warp.WarpDecode? then f.(state := FetcherIdle) else f
  }

  class FetcherUnit {
    var state: FetcherState
    var valid: bool
    var address: Word
    var instruction: Word

    ghost function Value(): Fetcher
      reads this
    {
      Fetcher(state, valid, address, instruction)
    }

    constructor ()
      ensures Value() == Fetcher(FetcherIdle, false, 0, 0)
    {
      state, valid, address, instruction := FetcherIdle, false, 0, 0;
    }

    method Clock(reset: bool, warp: WarpState, pc: Word, ready: bool, data: Word)
      modifies this
      ensures Value() == FetcherEdge(old(Value()), reset, warp, pc, ready, data)
    {
      if reset {
        state, valid, address, instruction := FetcherIdle, false, 0, 0;
      } else {
        match state {
          case FetcherIdle =>
            if warp == WarpFetch {
              state, valid, address := FetcherFetching, true, pc;
            }
          case FetcherFetching =>
            if ready {
              state, valid, instruction := FetcherDone, false, data;
            }
          case FetcherDone =>
            if warp == WarpDecode {
              state := FetcherIdle;
            }
        }
      }
    }
  }

  // ----- Load-store unit -----

  datatype LsuState = LsuIdle | LsuRequesting | LsuWaiting | LsuDone

  datatype Lsu = Lsu(state: LsuState, out: Word, readValid: bool, readAddress: Word,
                     writeValid: bool, writeAddress: Word, writeData: Word)

  const LSU_RESET := Lsu(LsuIdle, 0, false, 0, false, 0, 0)

  predicate Busy(s: LsuState) {
    s.LsuRequesting? || s.LsuWaiting?
  }

  datatype DataInputs = DataInputs(readReady: bool, readData: Word, writeReady: bool)

  function ReadEdge(l: Lsu, warp: WarpState, address: Word, d: DataInputs): Lsu {
    match l.state
    case LsuIdle => if warp.WarpRequest? then l.(state := LsuRequesting) else l
    case LsuRequesting => l.(readValid := true, readAddress := address, state := LsuWaiting)
    case LsuWaiting =>
      if d.readReady then l.(readValid := false, out := d.readData, state := LsuDone) else l
    case LsuDone => if warp.WarpUpdate? then l.(state := LsuIdle) else l
  }

  /** The second `if` reads the registers before the edge, and its assignments come last. */
  function WriteEdge(before: Lsu, l: Lsu, warp: WarpState, address: Word, rs2: Word, d: DataInputs): Lsu {
    match before.state
    case LsuIdle => if warp.WarpRequest? then l.(state := LsuRequesting) else l
    case LsuRequesting =>
      l.(writeValid := true, writeAddress := address, writeData := rs2, state := LsuWaiting)
    case LsuWaiting => if d.writeReady then l.(writeValid := false, state := LsuDone) else l
    case LsuDone => if warp.WarpUpdate? then l.(state := LsuIdle) else l
  }

  function LsuEdge(l: Lsu, reset: bool, warp: WarpState, c: Decoded, rs1: Word, rs2: Word, d: DataInputs): Lsu {
    if reset then LSU_RESET else if !c.scalar then l else
    var address := Wrap(rs1 + c.immediate);
    var afterRead := if c.memRead then ReadEdge(l, warp, address, d) else l;
    if c.memWrite then WriteEdge(l, afterRead, warp, address, rs2, d) else afterRead
  }

  /** Vector instructions and those that use no memory leave the unit as it is. */
  lemma LsuLeft(l: Lsu, warp: WarpState, c: Decoded, rs1: Word, rs2: Word, d: DataInputs)
    requires !c.scalar || (!c.memRead && !c.memWrite)
    ensures LsuEdge(l, false, warp, c, rs1, rs2, d) == l
  {
  }

  /**
   A load, a store, or an instruction with both signals: asked for in REQUEST, put to memory at the next
   edge, done when memory is ready for one of them, which alone is taken back; free after the update.
   */
  lemma LsuMoves(l: Lsu, warp: WarpState, c: Decoded, rs1: Word, rs2: Word, d: DataInputs)
    requires c.scalar && (c.memRead || c.memWrite)
    ensures var m := LsuEdge(l, false, warp, c, rs1, rs2, d);
            var asked, taken, given := l.state == LsuRequesting, c.memRead && d.readReady, c.memWrite && d.writeReady;
            && m.state == (match l.state
                           case LsuIdle => if warp == WarpRequest then LsuRequesting else LsuIdle
                           case LsuRequesting => LsuWaiting
                           case LsuWaiting => if taken || given then LsuDone else LsuWaiting
                           case LsuDone => if warp == WarpUpdate then LsuIdle else LsuDone)
            && m.readValid == (if asked && c.memRead then true
                               else if l.state == LsuWaiting && taken then false else l.readValid)
            && m.writeValid == (if asked && c.memWrite then true
                                else if l.state == LsuWaiting && given then false else l.writeValid)
            && m.out == (if l.state == LsuWaiting && taken then d.readData else l.out)
            && m.readAddress == (if asked && c.memRead then Wrap(rs1 + c.immediate) else l.readAddress)
            && m.writeAddress == (if asked && c.memWrite then Wrap(rs1 + c.immediate) else l.writeAddress)
            && m.writeData == (if asked && c.memWrite then rs2 else l.writeData)
  {
  }

  class LsuUnit {
    var state: LsuState
    var out: Word
    var readValid: bool
    var readAddress: Word
    var writeValid: bool
    var writeAddress: Word
    var writeData: Word

    ghost function Value(): Lsu
      reads this
    {
      Lsu(state, out, readValid, readAddress, writeValid, writeAddress, writeData)
    }

    constructor ()
      ensures Value() == LSU_RESET
    {
      state, out, readValid, readAddress := LsuIdle, 0, false, 0;
      writeValid, writeAddress, writeData := false, 0, 0;
    }

    method Clock(reset: bool, warp: WarpState, c: Decoded, rs1: Word, rs2: Word, d: DataInputs)
      modifies this
      ensures Value() == LsuEdge(old(Value()), reset, warp, c, rs1, rs2, d)
    {
      var before := state;
      var address := Wrap(rs1 + c.immediate);
      if reset {
        state, out, readValid, readAddress := LsuIdle, 0, false, 0;
        writeValid, writeAddress, writeData := false, 0, 0;
      } else if c.scalar {
        if c.memRead {
          match before {
            case LsuIdle =>
              if warp == WarpRequest {
                state := LsuRequesting;
              }
            case LsuRequesting =>
              readValid, readAddress, state := true, address, LsuWaiting;
            case LsuWaiting =>
              if d.readReady {
                readValid, out, state := false, d.readData, LsuDone;
              }
            case LsuDone =>
              if warp == WarpUpdate {
                state := LsuIdle;
              }
          }
        }
        if c.memWrite {
          match before {
            case LsuIdle =>
              if warp == WarpRequest {
                state := LsuRequesting;
              }
            case LsuRequesting =>
              writeValid, writeAddress, writeData, state := true, address, rs2, LsuWaiting;
            case LsuWaiting =>
              if d.writeReady {
                writeValid, state := false, LsuDone;
              }
            case LsuDone =>
              if warp == WarpUpdate {
                state := LsuIdle;
              }
          }
        }
      }
    }
  }

  // ----- ALU -----

  /** The stage-1 registers and the registered result. */
  datatype Pipeline = Pipeline(pc: Word, op: AluOp, op1: Word, op2: Word, imm: Word, result: Word)

  const ALU_RESET := Pipeline(0, NOP, 0, 0, 0, 0)

  /** Both stages move at once: the result is of the operands captured before the edge. */
  function AluEdge(a: Pipeline, reset: bool, enable: bool, pc: Word, op: AluOp, op1: Word, op2: Word,
                   imm: Word): Pipeline {
    if reset then ALU_RESET else if !enable then a else
    Pipeline(pc, op, op1, op2, imm, AluResult(a.op, a.op1, a.op2, a.imm, a.pc))
  }

  class AluUnit {
    var pc: Word
    var op: AluOp
    var op1: Word
    var op2: Word
    var imm: Word
    var result: Word

    ghost function Value(): Pipeline
      reads this
    {
      Pipeline(pc, op, op1, op2, imm, result)
    }

    constructor ()
      ensures Value() == ALU_RESET
    {
      pc, op, op1, op2, imm, result := 0, NOP, 0, 0, 0, 0;
    }

    method Clock(reset: bool, enable: bool, newPc: Word, newOp: AluOp, newOp1: Word, newOp2: Word, newImm: Word)
      modifies this
      ensures Value() == AluEdge(old(Value()), reset, enable, newPc, newOp, newOp1, newOp2, newImm)
    {
      if reset {
        pc, op, op1, op2, imm, result := 0, NOP, 0, 0, 0, 0;
      } else if enable {
        result := AluResult(op, op1, op2, imm, pc);
        pc, op, op1, op2, imm := newPc, newOp, newOp1, newOp2, newImm;
      }
    }
  }

  // ----- Scalar register file -----

  datatype File = File(regs: Regs, rs1: Word, rs2: Word)

  /** After a reset x31, the execution mask, is all ones and the others are zero. */
  function ResetRegs(): Regs {
    seq(32, i => if i == 31 then MODULUS - 1 else 0)
  }

  datatype WriteBack = WriteBack(alu: Word, lsu: Word, vector: Word)

  function Written(c: Decoded, back: WriteBack): Word {
    match c.mux
    case AluOut => back.alu
    case LsuOut => back.lsu
    case Immediate => c.immediate
    case VectorToScalar => back.vector
  }

  function FileEdge(f: File, reset: bool, warp: WarpState, c: Decoded, back: WriteBack): File {
    if reset then File(ResetRegs(), 0, 0) else
    var write := c.regWrite && (c.scalar || c.mux.VectorToScalar?);
    File(if warp.WarpUpdate? && write then SetReg(f.regs, c.rd, Written(c, back)) else f.regs,
         f.regs[c.rs1], f.regs[c.rs2])
  }

  /**
   An edge of the register file: the operands are those before it, x0 and all registers but rd stay, and
   rd takes what the mux selects, in the update state only and for a scalar or vector-to-scalar write.
   */
  lemma FileWrites(f: File, warp: WarpState, c: Decoded, back: WriteBack, x: Reg)
    ensures var g := FileEdge(f, false, warp, c, back);
            && g.rs1 == f.regs[c.rs1] && g.rs2 == f.regs[c.rs2] && g.regs[0] == 0
            && g.regs[x] == if x == c.rd && x != 0 && warp == WarpUpdate && c.regWrite
                               && (c.scalar || c.mux == VectorToScalar)
                            then if c.mux == AluOut then back.alu
                                 else if c.mux == LsuOut then back.lsu
                                 else if c.mux == Immediate then c.immediate
                                 else back.vector
                            else f.regs[x]
  {
  }

  class FileUnit {
    var regs: Regs
    var rs1: Word
    var rs2: Word

    ghost function Value(): File
      reads this
    {
      File(regs, rs1, rs2)
    }

    constructor ()
      ensures Value() == File(ResetRegs(), 0, 0)
    {
      regs, rs1, rs2 := ResetRegs(), 0, 0;
    }

    method Clock(reset: bool, warp: WarpState, c: Decoded, back: WriteBack)
      modifies this
      ensures Value() == FileEdge(old(Value()), reset, warp, c, back)
    {
      if reset {
        regs, rs1, rs2 := ResetRegs(), 0, 0;
      } else {
        rs1 := if c.rs1 == 0 then 0 else regs[c.rs1];
        rs2 := if c.rs2 == 0 then 0 else regs[c.rs2];
        if warp == WarpUpdate && c.regWrite && (c.scalar || c.mux == VectorToScalar) && c.rd > 0 {
          match c.mux {
            case AluOut => regs := regs[c.rd := back.alu];
            case LsuOut => regs := regs[c.rd := back.lsu];
            case Immediate => regs := regs[c.rd := c.immediate];
            case VectorToScalar => regs := regs[c.rd := back.vector];
          }
        }
      }
    }
  }
}
