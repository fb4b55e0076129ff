/**
 A program that meets every condition of the end-to-end theorems: a variable with an initialiser, a
 loop with a branch, and a returned value.
 */
module Example {
  import opened Words
  import opened Wrappers
  import opened Isa
  import opened Asm
  import opened Source
  import opened Generator
  import opened Layout
  import opened Linking
  import opened EndToEnd
  import F = Functions
  import C = Core
  import R = Refinement

  const X := Place("x", [])

  const LOOP := While(Read(X), Do(Bump("x", false)))

  /** `int main() { int x = 3; while (x) x--; return x; }` */
  function Countdown(): Function {
    Function("main", [[Scalar("x", Some(Const(3)))]], [LOOP, Return(Some(Read(X)))])
  }

  // ----- Its text -----

  const END := Named("main_end")

  function DeclCode(): seq<Line> {
    [Li(7, 3), Op(Sw(7, 2, 132))]
  }

  function LoopCode(): seq<Line> {
    [Mark(Numbered("loop_start", 0)), Op(Lw(7, 2, 132)), BeqzTo(7, Numbered("loop_end", 1)),
     Op(Lw(8, 2, 132)), Op(AluImm(ADDI, 9, 8, -1)), Op(Sw(9, 2, 132)),
     JumpTo(Numbered("loop_start", 0)), Mark(Numbered("loop_end", 1))]
  }

  function ReturnCode(): seq<Line> {
    [Op(Lw(6, 2, 132)), JumpTo(END)]
  }

  /** The whole text, with register numbers: x1 is ra, x2 sp, x5 s0 and x6 s1. */
  function Text(): seq<Line> {
    [Li(5, 4144), Li(2, 4144), Op(AluImm(ADDI, 2, 2, -144)),
     Op(Sw(1, 2, 140)), Op(Sw(5, 2, 136)), Op(AluImm(ADDI, 5, 2, 144))]
    + (DeclCode() + (LoopCode() + ReturnCode()))
    + [Mark(END), Op(Lw(5, 2, 136)), Op(Lw(1, 2, 140)), Op(AluImm(ADDI, 2, 2, 144)), Op(Instruction.Exit)]
  }

  /** The context after the declaration, `free` being what is left of the pool. */
  function Declared(free: set<Reg>): Gen {
    Gen(free, 0, [], [], [0, 0, 8, 12], 144, [map[], map["x" := Variable(136, false, [])]], END)
  }

  lemma TakeIs(g: Gen, r: Reg)
    requires 5 <= r && r in g.free && forall k: Reg :: 5 <= k < r ==> k !in g.free
    ensures Take(g) == Success(Taken(r, g.(free := g.free - {r})))
  {
  }

  lemma LookupX(g: Gen)
    requires g.scopes == Declared({}).scopes
    ensures Lookup(g, "x") == Success(Variable(136, false, []))
  {
  }

  lemma DeclText()
    ensures GenDecls(Enter(Opening(Countdown(), 144)).value, Flatten(Countdown().decls))
         == Success(Emitted(DeclCode(), Declared(POOL)))
  {
    var g, decls := Enter(Opening(Countdown(), 144)).value, Countdown().decls;
    var d, h := decls[0][0], Declared(POOL);
    assert Flatten(decls) == [d] by {
      assert decls[1..] == [] && Flatten(decls[1..]) == [] && decls[0] + [] == [d];
    }
    assert "main" + "_end" == "main_end";
    assert Allocate(g, d) == h;
    LookupX(h);
    TakeIs(h, 7);
    assert POOL - {7} + {7} == POOL;
    assert GenAssign(h, X, Const(3)) == Success(Emitted(DeclCode(), h)) by {
      assert [Li(7, 3)] + [Op(Sw(7, 2, 132))] == DeclCode();
    }
    assert [d][1..] == [] && DeclCode() + [] == DeclCode();
    assert GenDecls(h, []) == Success(Emitted([], h));
  }

  lemma BodyText(g: Gen)
    requires g.free == POOL - {7} && g.scopes == Declared({}).scopes
    ensures GenBump(g, "x", false) == Success(Emitted(
              [Op(Lw(8, 2, 132)), Op(AluImm(ADDI, 9, 8, -1)), Op(Sw(9, 2, 132))],
              g.(free := POOL - {7, 9})))
  {
    LookupX(g);
    TakeIs(g, 8);
    TakeIs(g.(free := g.free - {8}), 9);
    assert POOL - {7} - {8} - {9} + {8} == POOL - {7, 9};
  }

  lemma LoopText()
    ensures GenStmt(Declared(POOL), LOOP)
         == Success(Emitted(LoopCode(), Declared(POOL - {9}).(counter := 2)))
  {
    hide Take, GenExpr, GenBump, GenSimple, PopLoop;
    var g := WhileOpen(Declared(POOL));
    var held := g.(free := POOL - {7});
    var start, end := Numbered("loop_start", 0), Numbered("loop_end", 1);
    var bc := [Op(Lw(8, 2, 132)), Op(AluImm(ADDI, 9, 8, -1)), Op(Sw(9, 2, 132))];
    TakeIs(g, 7);
    CondText(held);
    BodyText(held);
    LoopBody(held);
    assert GenStmt(Declared(POOL), LOOP) == GenWhile(Declared(POOL), LOOP);
    assert LoopCode() == WhileCode(start, end, [Op(Lw(7, 2, 132))], 7, bc);
    LoopLeft();
  }

  lemma CondText(g: Gen)
    requires g.scopes == Declared({}).scopes
    ensures GenExpr(g, LOOP.cond, 7) == Success(Emitted([Op(Lw(7, 2, 132))], g))
  {
    LookupX(g);
  }

  lemma LoopBody(g: Gen)
    ensures GenStmt(g, LOOP.loop) == GenBump(g, "x", false)
  {
  }

  lemma LoopLeft()
    ensures PopLoop(Release(WhileOpen(Declared(POOL)).(free := POOL - {7, 9}), 7))
         == Declared(POOL - {9}).(counter := 2)
  {
    assert POOL - {7, 9} + {7} == POOL - {9};
  }

  lemma ReturnText(g: Gen)
    requires g == Declared(POOL - {9}).(counter := 2)
    ensures GenStmt(g, Countdown().body[1]) == Success(Emitted(ReturnCode(), g))
  {
    LookupX(g);
    assert GenExpr(g, Read(X), S1) == Success(Emitted([Op(Lw(6, 2, 132))], g));
    assert [Op(Lw(6, 2, 132))] + [JumpTo(END)] == ReturnCode();
  }

  lemma FrameIs()
    ensures FrameBytes(Countdown().decls) == 144
  {
    var decls := Countdown().decls;
    assert decls[1..] == [] && decls[0][1..] == [];
    assert Size([]) == 1;
    assert DeclarationBytes(decls[0], 4, 0) == 4;
    assert ListBytes(decls, 0) == ListBytes([], 4) == 4;
  }

  lemma Ends()
    ensures Text() == Prologue(144) + (DeclCode() + (LoopCode() + ReturnCode())) + [Mark(END)] + Epilogue(144)
  {
    hide DeclCode, LoopCode, ReturnCode;
  }

  lemma WholeText()
    ensures GenFunction(Countdown()) == Success(Text())
  {
    Ends();
    hide Text, GenDecls, FrameBytes, Prologue, Epilogue, LoopCode, DeclCode, ReturnCode, Declared, PopLoop, GenExpr;
    var f, g := Countdown(), Opening(Countdown(), 144);
    var h, k := Declared(POOL), Declared(POOL - {9}).(counter := 2);
    FrameIs();
    DeclText();
    LoopText();
    ReturnText(k);
    assert f.body[1..][1..] == [] && f.body[1..][0] == f.body[1];
    assert ReturnCode() + [] == ReturnCode();
    assert GenAll(k, f.body[1..]) == Success(Emitted(ReturnCode(), k)) by {
      assert GenAll(k, []) == Success(Emitted([], k));
    }
    assert GenAll(h, f.body) == Success(Emitted(LoopCode() + ReturnCode(), k));
    assert GenStmt(g, Block(f.decls, f.body)) == GenBlock(g, Block(f.decls, f.body));
    assert EndLabel(f) == END by {
      assert "main" + "_end" == "main_end";
    }
  }

  // ----- Its words -----

  lemma {:induction false} IndexStep(text: seq<Line>, m: nat, n: nat)
    requires m <= n <= |text|
    ensures 0 <= Index(text, n) - Index(text, m) <= n - m
    decreases n
  {
    if m < n {
      IndexStep(text, m, n - 1);
    }
  }

  /** Everything but a jump is encodable as it stands. */
  lemma StraightLines(text: seq<Line>, k: nat)
    requires text == Text() && k < |text| && k != 10 && k != 14 && k != 17
    ensures EncodableLine(text, k)
  {
    hide Find, Index;
  }

  /** The branch goes 5 lines ahead, the jumps less than 2^25 either way. */
  lemma JumpLines(text: seq<Line>)
    requires text == Text() && Unique(text)
    ensures EncodableLine(text, 10) && EncodableLine(text, 14) && EncodableLine(text, 17)
  {
    hide Find, Index, Unique;
    assert text[8] == Mark(Numbered("loop_start", 0)) && text[15] == Mark(Numbered("loop_end", 1));
    assert text[18] == Mark(END);
    assert text[10] == BeqzTo(7, Numbered("loop_end", 1)) && text[14] == JumpTo(Numbered("loop_start", 0));
    assert text[17] == JumpTo(END);
    FindUnique(text, Numbered("loop_start", 0), 8);
    FindUnique(text, Numbered("loop_end", 1), 15);
    FindUnique(text, END, 18);
    IndexStep(text, 10, 15);
    IndexStep(text, 8, 14);
    IndexStep(text, 17, 18);
  }

  lemma TextEncodable()
    ensures Encodable(Text()) && GenFunction(Countdown()) == Success(Text())
  {
    hide GenFunction, EncodableLine, Encodable, Unique;
    var text := Text();
    WholeText();
    F.FunctionUnique(Countdown());
    JumpLines(text);
    forall k | 0 <= k < |text| ensures EncodableLine(text, k) {
      if k != 10 && k != 14 && k != 17 {
        StraightLines(text, k);
      }
    }
    EncodableFunction(Countdown());
  }

  /** Wherever its words are, the function is installed. */
  lemma CountdownInstalled(imem: Memory, base: nat)
    requires Loaded(imem, Program(Text()), base)
    ensures Installed(Countdown(), imem, base)
  {
    hide GenFunction, Encodable, Loaded, Program, FrameBytes, Depth;
    TextEncodable();
    FrameIs();
    CountdownDepth();
  }

  lemma CountdownDepth()
    ensures Depth(Block(Countdown().decls, Countdown().body)) == 1
  {
    var f := Countdown();
    assert f.decls[1..] == [] && Flatten(f.decls[1..]) == [] && f.decls[0] + [] == f.decls[0];
    assert f.decls[0][1..] == [] && Size([]) == 1;
    assert f.body[1..][1..] == [] && DepthAll(f.body[1..][1..]) == 0;
  }

  /** There is such a memory. */
  lemma CountdownLoaded() returns (imem: Memory)
    ensures Loaded(imem, Program(Text()), 0)
  {
    hide Text, Encodable, Program, Index;
    TextEncodable();
    TextLength();
    WordOfLine(Text(), 0);
    imem := FromZero(Program(Text()));
  }

  lemma TextLength()
    ensures |Text()| == 23 && !Text()[0].Mark?
  {
  }

  function FromZero(words: seq<Word>): Memory {
    map k: Word | 0 <= k < |words| :: words[k]
  }

  // ----- What it returns -----

  function Holding(cell: Option<Word>): Env {
    [map[], map["x" := Object([], [cell])]]
  }

  lemma ReadX(w: Word)
    ensures ReadPlace(Holding(Some(w)), X) == Some(w)
  {
    assert Size([]) == 1;
  }

  lemma WriteX(cell: Option<Word>, v: Word)
    ensures WritePlace(Holding(cell), X, v) == Some(Holding(Some(v)))
  {
    assert Size([]) == 1;
    var o := Object([], [Some(v)]);
    assert [cell][0 := Some(v)] == [Some(v)];
    assert Holding(cell)[1]["x" := o] == map["x" := o];
    assert Holding(cell)[1 := map["x" := o]] == Holding(Some(v));
  }

  lemma {:induction false} LoopRuns(order: Order, w: Word, fuel: nat)
    requires w < fuel
    ensures ExecLoop(order, Some(LOOP.cond), None, LOOP.loop, Holding(Some(w)), fuel) == Done(Normal, Holding(Some(0)))
    decreases fuel
  {
    ReadX(w);
    if w > 0 {
      assert Wrap(w - 1) == w - 1;
      WriteX(Some(w), w - 1);
      assert Exec(order, LOOP.loop, Holding(Some(w)), fuel) == Done(Normal, Holding(Some(w - 1)));
      LoopRuns(order, w - 1, fuel - 1);
    }
  }

  lemma DeclRuns(order: Order)
    ensures RunDecls(order, Flatten(Countdown().decls), [map[], map[]]) == Some(Holding(Some(3)))
  {
    var decls := Countdown().decls;
    var d := decls[0][0];
    assert Flatten(decls) == [d] by {
      assert decls[1..] == [] && Flatten(decls[1..]) == [] && decls[0] + [] == [d];
    }
    assert Size([]) == 1 && Fresh([]) == Object([], [None]);
    assert Declare(d, [map[], map[]]) == Holding(None);
    WriteX(None, 3);
    assert [d][1..] == [] && RunDecls(order, [], Holding(Some(3))) == Some(Holding(Some(3)));
  }

  /** The loop ends after three turns, and no comparison crosses the sign bit. */
  lemma CountdownReturns(order: Order)
    ensures RunFunction(order, Countdown(), 4) == Done(Returned(Some(0)), [map[]])
  {
    hide ExecLoop, RunDecls, ReadPlace, Flatten;
    var f := Countdown();
    var outer: Env := [map[]];
    assert outer + [map[]] == [map[], map[]];
    DeclRuns(order);
    LoopRuns(order, 3, 4);
    ReadX(0);
    var rest := f.body[1..];
    assert Exec(order, f.body[1], Holding(Some(0)), 4) == Done(Returned(Some(0)), Holding(Some(0)));
    assert ExecAll(order, rest, Holding(Some(0)), 4) == Done(Returned(Some(0)), Holding(Some(0)));
    assert ExecAll(order, f.body, Holding(Some(3)), 4) == Done(Returned(Some(0)), Holding(Some(0)));
    assert Holding(Some(0))[..1] == [map[]];
  }

  // ----- On the core -----

  /** From reset, with memories of any speed: when the core is done, s1 is 0. */
  lemma CountdownOnCore(imem: Memory, s: R.System, io: C.Inputs, ins: seq<C.Inputs>)
    requires Loaded(imem, Program(Text()), io.base) && Reset(s) && !io.reset && io.start
    requires R.HonestRun(R.SystemEdge(s, io), imem, ins)
    ensures var end := R.Run(R.SystemEdge(s, io), ins);
            end.core.warp.WarpDone? ==> end.core.file.regs[6] == 0 && end.core.file.regs[2] == 4144
  {
    hide Loaded, Program, Text, Installed, RunFunction, R.HonestRun, R.Run, Reset, R.SystemEdge;
    CountdownInstalled(imem, io.base);
    CountdownReturns(AgreedOrder);
    CountdownReturns(SignedOrder);
    FrameIs();
    FromReset(Countdown(), 4, imem, s, io, ins);
  }
}
