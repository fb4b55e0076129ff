/** The states of a warp and how the warp that holds the core moves through them. */
module Warp {
  import opened Isa
  import opened Decoder

  datatype WarpState =
    | WarpIdle | WarpFetch | WarpDecode | WarpRequest | WarpRegWait | WarpWait | WarpExecute
    | WarpAluWait | WarpIntAluWait | WarpUpdate | WarpSyncWait | WarpDone

  /** Operations before FADD in the encoding of `alu_instruction_t`. */
  predicate RegularOp(op: AluOp) {
    RegisterOp(op) || ImmediateOp(op)
  }

  /** The parallel part: a fetch that is done lets the warp decode, whichever warp holds the core. */
  function FetchDone(w: WarpState, fetched: bool): WarpState {
    if w.WarpFetch? && fetched then WarpDecode else w
  }

  /** The next state of the current warp. */
  function Advance(w: WarpState, fetched: bool, lsuBusy: bool, d: Decoded, fpuValid: bool): WarpState {
    match w
    case WarpFetch => FetchDone(w, fetched)
    case WarpDecode => WarpRequest
    case WarpRequest => WarpRegWait
    case WarpRegWait => WarpWait
    case WarpWait => if lsuBusy then WarpWait else WarpExecute
    case WarpExecute =>
      if d.alu.FPU? then WarpAluWait
      else if RegularOp(d.alu) || d.branch || d.alu.JAL? then WarpIntAluWait
      else WarpUpdate
    case WarpIntAluWait => WarpUpdate
    case WarpAluWait => if fpuValid then WarpUpdate else WarpAluWait
    case WarpUpdate => if d.halt then WarpDone else WarpFetch
    case _ => w
  }

  /** Only a floating-point operation enters its wait, and leaves it only when the unit reports a result. */
  lemma FloatWaits(w: WarpState, fetched: bool, lsuBusy: bool, d: Decoded, fpuValid: bool)
    ensures var next := Advance(w, fetched, lsuBusy, d, fpuValid);
            && (next == WarpAluWait <==> (w == WarpExecute && d.alu == FPU) || (w == WarpAluWait && !fpuValid))
            && (w == WarpAluWait && fpuValid ==> next == WarpUpdate)
            && (w in {WarpIdle, WarpSyncWait, WarpDone} ==> next == w)
  {
  }
}
