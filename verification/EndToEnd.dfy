/**
 The whole stack: a function compiled, assembled, loaded and run on the core with one warp returns
 what the source returns, whatever the memory delays.
 */
module EndToEnd {
  import opened Words
  import opened Wrappers
  import opened Isa
  import opened Asm
  import opened Source
  import opened Generator
  import opened Accounting
  import opened Labels
  import opened Linking
  import opened Comparison
  import opened Decoder
  import opened Units
  import F = Functions
  import E = Expressions
  import C = Core
  import R = Refinement

  // ----- The labels of a function -----

  ghost predicate AllMade(code: seq<Line>) {
    forall k :: 0 <= k < |code| && code[k].Mark? ==> Made(code[k].target)
  }

  lemma MadeConcat(a: seq<Line>, b: seq<Line>)
    requires AllMade(a) && AllMade(b)
    ensures AllMade(a + b)
  {
  }

  lemma StraightMade(code: seq<Line>)
    requires AllStraight(code)
    ensures AllMade(code)
  {
    forall k | 0 <= k < |code| ensures !code[k].Mark? {
      assert Straight(code[k]);
    }
  }

  lemma {:induction false} StmtMade(g: Gen, s: Stmt)
    requires GenStmt(g, s).Success?
    ensures AllMade(GenStmt(g, s).value.code)
    decreases s, 1
  {
    hide Made, GenStmt, GenExpr, GenSimple, GenTest, GenAll, GenElse, GenUpdate, Accounted, Shrunk;
    match s
    case Do(simple) =>
      SimpleCode(g, s);
      SimpleAccounts(g, simple);
      StraightMade(GenSimple(g, simple).value.code);
    case Block(decls, body) =>
      var inner, dc, bc := BlockParts(g, s);
      DeclsAccounts(inner, Flatten(decls));
      StraightMade(dc.code);
      AllStmtMade(dc.gen, body);
      MadeConcat(dc.code, bc.code);
    case If(cond, thn, els) =>
      var c, cc, tc, ec := IfParts(g, s);
      ExprAccounts(c.gen, cond, c.reg);
      StraightMade(cc.code);
      StmtMade(cc.gen.(counter := cc.gen.counter + 2), thn);
      ElseMade(tc.gen, els);
      IfMade(cc.code, c.reg, cc.gen.counter, tc.code, ec.code);
    case While(cond, loop) =>
      var c, cc, bc := WhileParts(g, s);
      ExprAccounts(c.gen, cond, c.reg);
      StraightMade(cc.code);
      StmtMade(cc.gen, loop);
      WhileMade(g.counter, cc.code, c.reg, bc.code);
    case For(init, test, update, loop) =>
      var ic, tc, bc, uc := ForParts(g, s);
      SimpleAccounts(ForOpen(g), init);
      StraightMade(ic.code);
      TestMade(ic.gen, test, Numbered("for_end", g.counter + 1));
      StmtMade(tc.gen, loop);
      UpdateAccounts(bc.gen, update);
      StraightMade(uc.code);
      ForMade(g.counter, ic.code, tc.code, bc.code, uc.code);
    case _ => JumpMade(g, s);
  }

  lemma SimpleCode(g: Gen, s: Stmt)
    requires s.Do?
    ensures GenStmt(g, s) == GenSimple(g, s.simple)
  {
  }

  lemma JumpMade(g: Gen, s: Stmt)
    requires (s.Break? || s.Continue? || s.Return?) && GenStmt(g, s).Success?
    ensures AllMade(GenStmt(g, s).value.code)
  {
    if s.Return? && s.e.Some? {
      ExprAccounts(g, s.e.value, S1);
      StraightMade(GenExpr(g, s.e.value, S1).value.code);
    }
  }

  lemma {:induction false} AllStmtMade(g: Gen, ss: seq<Stmt>)
    requires GenAll(g, ss).Success?
    ensures AllMade(GenAll(g, ss).value.code)
    decreases ss, 0
  {
    if ss != [] {
      var first := GenStmt(g, ss[0]).value;
      StmtMade(g, ss[0]);
      AllStmtMade(first.gen, ss[1..]);
    }
  }

  lemma {:induction false} ElseMade(g: Gen, els: Option<Stmt>)
    requires GenElse(g, els).Success?
    ensures AllMade(GenElse(g, els).value.code)
    decreases els, 2
  {
    if els.Some? {
      StmtMade(g, els.value);
    }
  }

  lemma TestMade(g: Gen, test: Option<Expr>, end: Label)
    requires GenTest(g, test, end).Success?
    ensures AllMade(GenTest(g, test, end).value.code)
  {
    if test.Some? {
      var c := Take(g).value;
      ExprAccounts(c.gen, test.value, c.reg);
      StraightMade(GenExpr(c.gen, test.value, c.reg).value.code);
    }
  }

  lemma IfMade(cond: seq<Line>, r: Reg, n: nat, thn: seq<Line>, els: seq<Line>)
    requires AllMade(cond) && AllMade(thn) && AllMade(els)
    ensures AllMade(IfCode(cond, r, n, thn, els))
  {
  }

  lemma WhileMade(n: nat, cond: seq<Line>, r: Reg, loop: seq<Line>)
    requires AllMade(cond) && AllMade(loop)
    ensures AllMade(WhileCode(Numbered("loop_start", n), Numbered("loop_end", n + 1), cond, r, loop))
  {
  }

  lemma ForMade(n: nat, init: seq<Line>, test: seq<Line>, loop: seq<Line>, update: seq<Line>)
    requires AllMade(init) && AllMade(test) && AllMade(loop) && AllMade(update)
    ensures AllMade(init + ForCode(n, test, loop, update))
  {
  }

  lemma FunctionMade(f: Function)
    requires GenFunction(f).Success?
    ensures AllMade(GenFunction(f).value)
  {
    hide GenStmt, FrameBytes;
    var total := FrameBytes(f.decls);
    StmtMade(Opening(f, total), Block(f.decls, f.body));
    F.PrologueStraight(total);
    StraightMade(Prologue(total));
    assert Made(EndLabel(f));
  }

  // ----- Runs -----

  /** A run of the machine is a run of the instruction set, with labels left out. */
  lemma {:induction false} RunLinked(text: seq<Line>, imem: Memory, base: nat, c: Config, a: State, n: nat)
    returns (m: nat)
    requires Linked(text, imem, base) && Same(text, base, c, a) && Steps(text, c, n).Some?
    ensures m <= n && Same(text, base, Steps(text, c, n).value, R.IsaRun(imem, a, m))
    ensures forall j :: 0 <= j < m ==>
              R.At(imem, R.IsaRun(imem, a, j)).Some? && !R.At(imem, R.IsaRun(imem, a, j)).value.Exit?
    decreases n
  {
    hide Linked, Same, Step, R.At, R.IsaStep;
    m := 0;
    if n > 0 {
      StepInside(text, c);
      StepLinked(text, imem, base, c, a);
      var next := Step(text, c).value;
      if text[c.pc].Mark? {
        m := RunLinked(text, imem, base, next, a, n - 1);
      } else {
        var k := RunLinked(text, imem, base, next, R.IsaStep(imem, a), n - 1);
        m := k + 1;
        forall j | 0 <= j < m
          ensures R.At(imem, R.IsaRun(imem, a, j)).Some? && !R.At(imem, R.IsaRun(imem, a, j)).value.Exit?
        {
          if j > 0 {
            assert R.IsaRun(imem, a, j) == R.IsaRun(imem, R.IsaStep(imem, a), j - 1);
          }
        }
      }
    }
  }

  lemma StepInside(text: seq<Line>, c: Config)
    requires Step(text, c).Some?
    ensures c.pc < |text|
  {
  }

  lemma {:induction false} ExitStays(imem: Memory, a: State, m: nat, n: nat)
    requires m <= n && R.At(imem, R.IsaRun(imem, a, m)) == Some(Instruction.Exit)
    ensures R.IsaRun(imem, a, n) == R.IsaRun(imem, a, m)
    decreases n
  {
    hide R.At;
    if m > 0 {
      ExitStays(imem, R.IsaStep(imem, a), m - 1, n - 1);
    } else if n > 0 {
      ExitStays(imem, a, 0, n - 1);
    }
  }

  /** A run that reaches `exit` meets only instructions that are known. */
  lemma ReachesExit(imem: Memory, a: State, m: nat)
    requires R.At(imem, R.IsaRun(imem, a, m)) == Some(Instruction.Exit)
    requires forall j :: 0 <= j < m ==> R.At(imem, R.IsaRun(imem, a, j)).Some?
    ensures R.Supported(imem, a)
  {
    forall n: nat ensures R.At(imem, R.IsaRun(imem, a, n)).Some? {
      if n >= m {
        ExitStays(imem, a, m, n);
      }
    }
  }

  // ----- The core -----

  /** The text of a function in instruction memory at `base`. */
  ghost predicate Installed(f: Function, imem: Memory, base: nat) {
    && GenFunction(f).Success? && F.Fits(f) && FRAME_BASE + FrameBytes(f.decls) < MODULUS
    && Encodable(GenFunction(f).value) && Loaded(imem, Program(GenFunction(f).value), base)
  }

  lemma InstalledLinked(f: Function, imem: Memory, base: nat)
    requires Installed(f, imem, base)
    ensures Linked(GenFunction(f).value, imem, base)
    ensures forall s: Store :: Same(GenFunction(f).value, base, Config(0, s), State(base, s))
  {
    hide GenFunction, F.Fits, FrameBytes, Encodable, Program, Unique;
    F.FunctionUnique(f);
  }

  /** What the core shows once it is done with a function that was started in a store. */
  ghost predicate Result(f: Function, r: Run, regs: Regs, mem: Memory, s: Store) {
    var total := FrameBytes(f.decls);
    && (r.Done? && r.flow.Returned? && r.flow.value.Some? ==> regs[S1] == r.flow.value.value)
    && regs[SP] == FRAME_BASE + total && regs[RA] == s.regs[RA]
    && forall w: Word :: !(FRAME_BASE <= w < FRAME_BASE + total) ==> Load(mem, w) == Load(s.mem, w)
  }

  /** The instruction set runs the function to `exit`. */
  lemma IsaReturns(f: Function, fuel: nat, imem: Memory, base: nat, s: Store) returns (m: nat, s2: Store)
    requires Installed(f, imem, base) && RunFunction(UnsignedOrder, f, fuel).Done?
    ensures R.At(imem, R.IsaRun(imem, State(base, s), m)) == Some(Instruction.Exit)
    ensures R.IsaRun(imem, State(base, s), m).store == s2 && R.Supported(imem, State(base, s))
    ensures Result(f, RunFunction(UnsignedOrder, f, fuel), s2.regs, s2.mem, s)
  {
    hide GenFunction, F.Fits, FrameBytes, Linked, R.At, R.IsaRun, R.Supported, Load, Steps, RunFunction, E.Same;
    hide Encodable, Loaded;
    var text := GenFunction(f).value;
    InstalledLinked(f, imem, base);
    var n;
    n, s2 := F.FunctionCorrect(f, fuel, s);
    var c, end := Config(0, s), Config(|text| - 1, s2);
    m := RunLinked(text, imem, base, c, State(base, s), n);
    ExitHere(text, imem, base, end, R.IsaRun(imem, State(base, s), m));
    ReachesExit(imem, State(base, s), m);
  }

  /**
   The main theorem for runs that end. The core fetches the function at `base`; the memories may
   take any time to answer. When the warp is done, s1 holds what the source run returns, the stack
   pointer is the top of the frame, and memory outside the frame is as it was.
   */
  lemma CoreReturns(f: Function, fuel: nat, imem: Memory, base: nat, start: R.System, ins: seq<C.Inputs>)
    requires Installed(f, imem, base) && RunFunction(UnsignedOrder, f, fuel).Done?
    requires R.Inv(start, imem, State(base, Store(start.core.file.regs, start.mem)))
    requires R.HonestRun(start, imem, ins)
    ensures var end := R.Run(start, ins);
            end.core.warp.WarpDone? ==>
              Result(f, RunFunction(UnsignedOrder, f, fuel), end.core.file.regs, end.mem,
                     Store(start.core.file.regs, start.mem))
  {
    var s := Store(start.core.file.regs, start.mem);
    var a := State(base, s);
    hide Installed, Result, R.Inv, R.HonestRun, R.Run, R.At, R.IsaRun, R.Supported, R.Retired, RunFunction;
    var m, s2 := IsaReturns(f, fuel, imem, base, s);
    var n := R.Retired(start, ins);
    R.AtDone(start, imem, a, ins);
    if R.Run(start, ins).core.warp.WarpDone? {
      if n <= m {
        ExitStays(imem, a, n, m);
      } else {
        ExitStays(imem, a, m, n);
      }
    }
  }

  /** A core and its memories after a reset. */
  predicate Reset(s: R.System) {
    && !s.core.running && s.core.warp.WarpIdle? && !s.core.decoded.alu.FPU?
    && s.core.decoded == Defaults(s.core.decoded.alu) && s.core.file == File(ResetRegs(), 0, 0)
    && s.core.fetcher == Fetcher(FetcherIdle, false, 0, 0) && s.core.lsu == LSU_RESET
  }

  /**
   From reset to the result, against C's own signed `<`: the core is reset, told to start at `base`,
   and run with memories of any speed. When it is done, s1 holds what the source run returns.
   */
  lemma FromReset(f: Function, fuel: nat, imem: Memory, s: R.System, io: C.Inputs, ins: seq<C.Inputs>)
    requires Installed(f, imem, io.base) && Reset(s) && !io.reset && io.start
    requires RunFunction(AgreedOrder, f, fuel).Done? && R.HonestRun(R.SystemEdge(s, io), imem, ins)
    ensures var r, end := RunFunction(SignedOrder, f, fuel), R.Run(R.SystemEdge(s, io), ins);
            && r.Done?
            && (end.core.warp.WarpDone? ==>
                  Result(f, r, end.core.file.regs, end.mem, Store(ResetRegs(), s.mem)))
  {
    hide Installed, Result, R.Inv, R.HonestRun, R.Run, RunFunction, Decode;
    FunctionAgrees(f, fuel);
    R.StartRefines(s, imem, io);
    StartStore(s, io);
    CoreReturns(f, fuel, imem, io.base, R.SystemEdge(s, io), ins);
  }

  lemma StartStore(s: R.System, io: C.Inputs)
    requires Reset(s) && !io.reset && io.start
    ensures R.SystemEdge(s, io).core.file.regs == ResetRegs() && R.SystemEdge(s, io).mem == s.mem
  {
  }

  /**
   And the warp is done in the end: when the source run ends, so many clock edges at which the core
   does not wait for a memory are enough, however they are spread among the waits.
   */
  lemma CoreFinishes(f: Function, fuel: nat, imem: Memory, base: nat, start: R.System) returns (bound: nat)
    requires Installed(f, imem, base) && RunFunction(UnsignedOrder, f, fuel).Done?
    requires R.Inv(start, imem, State(base, Store(start.core.file.regs, start.mem)))
    ensures forall ins: seq<C.Inputs> :: R.HonestRun(start, imem, ins) && R.FreeEdges(start, ins) > bound
              ==> R.Run(start, ins).core.warp.WarpDone?
  {
    var s := Store(start.core.file.regs, start.mem);
    var a := State(base, s);
    hide Installed, Result, R.Inv, R.HonestRun, R.Run, R.At, R.IsaRun, R.Supported, RunFunction, R.FreeEdges;
    var m, s2 := IsaReturns(f, fuel, imem, base, s);
    bound := 12 * (m + 1);
    forall ins: seq<C.Inputs> | R.HonestRun(start, imem, ins) && R.FreeEdges(start, ins) > bound
      ensures R.Run(start, ins).core.warp.WarpDone?
    {
      LongRunDone(imem, a, start, m, ins);
    }
  }

  lemma LongRunDone(imem: Memory, a: State, start: R.System, m: nat, ins: seq<C.Inputs>)
    requires R.Inv(start, imem, a) && R.Supported(imem, a) && R.HonestRun(start, imem, ins)
    requires R.At(imem, R.IsaRun(imem, a, m)) == Some(Instruction.Exit)
    requires R.FreeEdges(start, ins) > 12 * (m + 1)
    ensures R.Run(start, ins).core.warp.WarpDone?
  {
    hide R.Inv, R.HonestRun, R.Run, R.At, R.IsaRun, R.Supported, R.Retired, R.UsefulEdges, R.FreeEdges;
    R.AllUseful(start, imem, a, ins);
    R.UsefulBound(start, imem, a, ins);
    if m < R.Retired(start, ins) {
      R.NoExitRetired(start, imem, a, ins, m);
    }
  }

  /** The labels of an emitted function are always fit to be told apart; the rest is a check of lines. */
  lemma EncodableFunction(f: Function)
    requires GenFunction(f).Success? && |GenFunction(f).value| < 0x2000_0000
    requires forall k :: 0 <= k < |GenFunction(f).value| ==> EncodableLine(GenFunction(f).value, k)
    ensures Encodable(GenFunction(f).value)
  {
    FunctionMade(f);
  }

  // ----- Runs that do not end -----

  ghost predicate Endless(text: seq<Line>, c: Config) {
    forall n: nat :: Steps(text, c, n).Some?
  }

  lemma EndlessStep(text: seq<Line>, c: Config)
    requires Endless(text, c)
    ensures c.pc < |text| && Step(text, c).Some? && Endless(text, Step(text, c).value)
  {
    assert Steps(text, c, 1).Some?;
    forall n: nat ensures Steps(text, Step(text, c).value, n).Some? {
      assert Steps(text, c, n + 1).Some?;
    }
  }

  /** A machine that runs for ever keeps the instruction set busy for ever: labels do not last. */
  lemma {:induction false} BusyForever(text: seq<Line>, imem: Memory, base: nat, c: Config, a: State, j: nat)
    requires Linked(text, imem, base) && Same(text, base, c, a) && Endless(text, c)
    ensures R.At(imem, R.IsaRun(imem, a, j)).Some? && !R.At(imem, R.IsaRun(imem, a, j)).value.Exit?
    decreases j, |text| - c.pc
  {
    hide Linked, Same, R.At, R.IsaStep, Endless, Steps;
    EndlessStep(text, c);
    var next := Step(text, c).value;
    StepLinked(text, imem, base, c, a);
    if text[c.pc].Mark? {
      BusyForever(text, imem, base, next, a, j);
    } else if j > 0 {
      BusyForever(text, imem, base, next, R.IsaStep(imem, a), j - 1);
    }
  }

  /** The main theorem for runs that do not end: the core is never done. */
  lemma CoreRunsOn(f: Function, imem: Memory, base: nat, start: R.System, ins: seq<C.Inputs>)
    requires Installed(f, imem, base) && forall fuel: nat :: RunFunction(UnsignedOrder, f, fuel).Timeout?
    requires R.Inv(start, imem, State(base, Store(start.core.file.regs, start.mem)))
    requires R.HonestRun(start, imem, ins)
    ensures !R.Run(start, ins).core.warp.WarpDone?
  {
    var text, s := GenFunction(f).value, Store(start.core.file.regs, start.mem);
    var a := State(base, s);
    InstalledLinked(f, imem, base);
    hide GenFunction, F.Fits, FrameBytes, Encodable, Program, Linked, Same, Load, RunFunction, Steps;
    hide R.Inv, R.HonestRun, R.Run, R.IsaRun, R.Retired, R.At;
    forall n: nat ensures Steps(text, Config(0, s), n).Some? {
      F.NeverStops(f, s, n);
    }
    forall j: nat ensures R.At(imem, R.IsaRun(imem, a, j)).Some? && !R.At(imem, R.IsaRun(imem, a, j)).value.Exit? {
      BusyForever(text, imem, base, Config(0, s), a, j);
    }
    R.AtDone(start, imem, a, ins);
  }
}
