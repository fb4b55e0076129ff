/**
 The text of a larger function, line by line and in register numbers, and what the function returns: an
 array, a `for`, an `if` with `else`, and every operator. Registers that `++` and `==` keep are missing
 later on.
 */
module Sampler {
  import opened Words
  import opened Wrappers
  import opened Isa
  import opened Asm
  import opened Source
  import opened Generator
  import opened Example

  const I := Place("i", [])

  const CELL := Place("a", [1, 2])

  const SUM := Bin(Minus, Bin(Plus, Bin(Times, Read(I), Const(3)), Const(4)), Const(3))

  const COUNT := For(Assign(I, Const(0)), Some(Bin(Less, Read(I), Const(2))), Some(Bump("i", true)),
                     Block([], [Do(Assign(CELL, SUM))]))

  const CHOICE := If(Bin(Equal, Read(CELL), Const(4)), Return(Some(Const(1))),
                     Some(Return(Some(Bin(ShiftLeft, Read(I), Const(2))))))

  /**
   `int main() { int a[2][3]; int i; for (i = 0; i < 2; i++) { a[1][2] = i * 3 + 4 - 3; }
   if (a[1][2] == 4) return 1; else return i << 2; }`
   */
  function Program(): Function {
    Function("main", [[Array("a", [2, 3])], [Scalar("i", None)]], [COUNT, CHOICE])
  }

  // ----- Its text -----

  function TestLines(): seq<Line> {
    [Op(Lw(8, 2, 128)), Li(9, 2), Op(Alu(SLT, 7, 8, 9)), BeqzTo(7, Numbered("for_end", 1))]
  }

  function SumLines(): seq<Line> {
    [Op(Lw(10, 2, 128)), Li(11, 3), Op(Alu(MUL, 9, 10, 11)), Li(10, 4), Op(Alu(ADD, 8, 9, 10)),
     Li(9, 3), Op(Alu(SUB, 7, 8, 9))]
  }

  function StoreLines(): seq<Line> {
    [Li(8, 6), Op(AluImm(SLLI, 8, 8, 2)), Li(9, 156), Op(Alu(SUB, 8, 9, 8)), Op(Alu(ADD, 8, 8, 2)), Op(Sw(7, 8, 0))]
  }

  function UpdateLines(): seq<Line> {
    [Op(Lw(7, 2, 128)), Op(AluImm(ADDI, 8, 7, 1)), Op(Sw(8, 2, 128))]
  }

  function CountLines(): seq<Line> {
    [Li(7, 0), Op(Sw(7, 2, 128)), Mark(Numbered("for_start", 0))]
    + TestLines() + (SumLines() + StoreLines()) + [Mark(Numbered("for_update", 2))] + UpdateLines()
    + [JumpTo(Numbered("for_start", 0)), Mark(Numbered("for_end", 1))]
  }

  function CondLines(): seq<Line> {
    [Li(10, 6), Op(AluImm(SLLI, 10, 10, 2)), Li(11, 156), Op(Alu(SUB, 10, 11, 10)), Op(Alu(ADD, 10, 10, 2)),
     Op(Lw(9, 10, 0)), Li(10, 4), Op(Alu(SEQ, 7, 9, 10))]
  }

  function ThenLines(): seq<Line> {
    [Li(6, 1), JumpTo(END)]
  }

  function ElseLines(): seq<Line> {
    [Op(Lw(9, 2, 128)), Li(10, 2), Op(Alu(SLL, 6, 9, 10)), JumpTo(END)]
  }

  function ChoiceLines(): seq<Line> {
    CondLines() + [BeqzTo(7, Numbered("else", 3))] + ThenLines()
    + [JumpTo(Numbered("end_if", 4)), Mark(Numbered("else", 3))] + ElseLines() + [Mark(Numbered("end_if", 4))]
  }

  function ProgramText(): seq<Line> {
    [Li(5, 4164), Li(2, 4164), Op(AluImm(ADDI, 2, 2, -164)),
     Op(Sw(1, 2, 160)), Op(Sw(5, 2, 156)), Op(AluImm(ADDI, 5, 2, 164))]
    + (CountLines() + ChoiceLines())
    + [Mark(END), Op(Lw(5, 2, 156)), Op(Lw(1, 2, 160)), Op(AluImm(ADDI, 2, 2, 164)), Op(Instruction.Exit)]
  }

  const SCOPES: Scopes := [map[], map["a" := Variable(156, true, [2, 3]), "i" := Variable(132, false, [])]]

  /** The context in the outermost block. */
  function Base(free: set<Reg>, counter: nat): Gen {
    Gen(free, counter, [], [], [0, 0, 8, 36], 164, SCOPES, END)
  }

  predicate Sees(g: Gen) {
    g.scopes == SCOPES || g.scopes == SCOPES + [map[]]
  }

  predicate IsFirst(free: set<Reg>, r: Reg) {
    5 <= r && r in free && forall k: Reg :: 5 <= k < r ==> k !in free
  }

  lemma Lookups(g: Gen)
    requires Sees(g)
    ensures Lookup(g, "a") == Success(Variable(156, true, [2, 3]))
    ensures Lookup(g, "i") == Success(Variable(132, false, []))
  {
    assert (SCOPES + [map[]])[..2] == SCOPES;
    assert FindScope(SCOPES, "a") == FindScope(SCOPES, "i") == 1;
    assert FindScope(SCOPES + [map[]], "a") == 1 && FindScope(SCOPES + [map[]], "i") == 1;
  }

  lemma ReadI(g: Gen, dest: Reg)
    requires Sees(g)
    ensures GenExpr(g, Read(I), dest) == Success(Emitted([Op(Lw(dest, 2, 128))], g))
  {
    Lookups(g);
  }

  lemma BinIs(g: Gen, e: Expr, dest: Reg, l: Reg, lc: seq<Line>, r: Reg, rc: seq<Line>)
    requires e.Bin? && !e.op.Equal? && IsFirst(g.free, l) && IsFirst(g.free - {l}, r)
    requires GenExpr(g.(free := g.free - {l}), e.left, l) == Success(Emitted(lc, g.(free := g.free - {l})))
    requires GenExpr(g.(free := g.free - {l} - {r}), e.right, r)
          == Success(Emitted(rc, g.(free := g.free - {l} - {r})))
    ensures GenExpr(g, e, dest) == Success(Emitted(lc + rc + [Op(Alu(OpOf(e.op), dest, l, r))], g))
  {
    TakeIs(g, l);
    TakeIs(g.(free := g.free - {l}), r);
    assert g.free - {l} - {r} + {r} + {l} == g.free;
  }

  lemma ConstCode(g: Gen, n: int, dest: Reg)
    ensures GenExpr(g, Const(n), dest) == Success(Emitted([Li(dest, n)], g))
  {
  }

  lemma TimesCode(g: Gen)
    requires Sees(g) && g.free == POOL - {7} - {8} - {9}
    ensures GenExpr(g, SUM.left.left, 9)
         == Success(Emitted([Op(Lw(10, 2, 128))] + [Li(11, 3)] + [Op(Alu(MUL, 9, 10, 11))], g))
  {
    hide GenExpr;
    ReadI(g.(free := g.free - {10}), 10);
    ConstCode(g.(free := g.free - {10} - {11}), 3, 11);
    BinIs(g, SUM.left.left, 9, 10, [Op(Lw(10, 2, 128))], 11, [Li(11, 3)]);
  }

  lemma PlusCode(g: Gen, times: seq<Line>)
    requires Sees(g) && g.free == POOL - {7} - {8}
    requires times == [Op(Lw(10, 2, 128))] + [Li(11, 3)] + [Op(Alu(MUL, 9, 10, 11))]
    ensures GenExpr(g, SUM.left, 8) == Success(Emitted(times + [Li(10, 4)] + [Op(Alu(ADD, 8, 9, 10))], g))
  {
    hide GenExpr;
    TimesCode(g.(free := g.free - {9}));
    ConstCode(g.(free := g.free - {9} - {10}), 4, 10);
    BinIs(g, SUM.left, 8, 9, times, 10, [Li(10, 4)]);
  }

  lemma SumCode(g: Gen)
    requires Sees(g) && g.free == POOL - {7}
    ensures GenExpr(g, SUM, 7) == Success(Emitted(SumLines(), g))
  {
    hide GenExpr;
    var times := [Op(Lw(10, 2, 128))] + [Li(11, 3)] + [Op(Alu(MUL, 9, 10, 11))];
    var plus := times + [Li(10, 4)] + [Op(Alu(ADD, 8, 9, 10))];
    PlusCode(g.(free := g.free - {8}), times);
    ConstCode(g.(free := g.free - {8} - {9}), 3, 9);
    BinIs(g, SUM, 7, 8, plus, 9, [Li(9, 3)]);
    assert SumLines() == plus + [Li(9, 3)] + [Op(Alu(SUB, 7, 8, 9))];
  }

  function ElementLines(ir: Reg, tr: Reg): seq<Line> {
    [Li(ir, 6), Op(AluImm(SLLI, ir, ir, 2)), Li(tr, 156), Op(Alu(SUB, ir, tr, ir)), Op(Alu(ADD, ir, ir, 2))]
  }

  lemma ElementCode(g: Gen, ir: Reg, tr: Reg)
    requires Sees(g) && IsFirst(g.free, tr)
    ensures GenAddress(g, CELL, ir) == Success(ElementLines(ir, tr))
  {
    Lookups(g);
    TakeIs(g, tr);
    assert Linear([2, 3], [1, 2]) == 5;
    assert AddressCode(Variable(156, true, [2, 3]), 5, ir, tr) == ElementLines(ir, tr);
  }

  /** Element [1][2] read into x9, with x10 and x11 for its address. */
  lemma ElementRead(g: Gen)
    requires Sees(g) && g.free == POOL - {8} - {7} - {9}
    ensures GenExpr(g, Read(CELL), 9) == Success(Emitted(ElementLines(10, 11) + [Op(Lw(9, 10, 0))], g))
  {
    hide GenAddress, Sees, ElementLines;
    TakeIs(g, 10);
    assert Sees(g.(free := g.free - {10})) by {
      SeesKept(g, g.free - {10});
    }
    ElementCode(g.(free := g.free - {10}), 10, 11);
    assert g.free - {10} + {10} == g.free;
  }

  lemma SeesKept(g: Gen, free: set<Reg>)
    requires Sees(g)
    ensures Sees(g.(free := free))
  {
  }

  lemma StoreCode(g: Gen)
    requires Sees(g) && g.free == POOL
    ensures GenAssign(g, CELL, SUM) == Success(Emitted((SumLines() + StoreLines()), g))
  {
    hide GenExpr, GenAddress, FindScope;
    Lookups(g);
    TakeIs(g, 7);
    var value := g.(free := POOL - {7});
    SumCode(value);
    TakeIs(value, 8);
    ElementCode(value.(free := POOL - {7} - {8}), 8, 9);
    assert POOL - {7} - {8} + {8} + {7} == POOL;
    assert SumLines() + StoreLines() == SumLines() + ElementLines(8, 9) + [Op(Sw(7, 8, 0))];
  }

  lemma BodyCode(g: Gen)
    requires g.scopes == SCOPES && g.free == POOL && g.offsets != []
    ensures GenStmt(g, COUNT.loop) == Success(Emitted((SumLines() + StoreLines()), g))
  {
    hide GenAssign, SumLines, StoreLines;
    var inner, body := Enter(g).value, COUNT.loop.body;
    StoreCode(inner);
    var code := SumLines() + StoreLines();
    assert GenStmt(inner, body[0]) == GenAssign(inner, CELL, SUM);
    assert body[1..] == [] && GenAll(inner, []) == Success(Emitted([], inner));
    assert code + [] == code && [] + code == code;
    assert GenAll(inner, body) == Success(Emitted(code, inner));
    assert GenDecls(inner, Flatten([])) == Success(Emitted([], inner));
    assert GenStmt(g, COUNT.loop) == GenBlock(g, COUNT.loop);
    assert Pop(g.scopes + [map[]]) == g.scopes && Pop(g.offsets + [g.offsets[|g.offsets| - 1]]) == g.offsets;
  }

  lemma InitCode(g: Gen)
    requires Sees(g) && g.free == POOL
    ensures GenSimple(g, COUNT.init) == Success(Emitted([Li(7, 0), Op(Sw(7, 2, 128))], g))
  {
    Lookups(g);
    TakeIs(g, 7);
    assert POOL - {7} + {7} == POOL;
    assert [Li(7, 0)] + [Op(Sw(7, 2, 128))] == [Li(7, 0), Op(Sw(7, 2, 128))];
  }

  lemma TestCode(g: Gen)
    requires Sees(g) && g.free == POOL
    ensures GenTest(g, COUNT.test, Numbered("for_end", 1)) == Success(Emitted(TestLines(), g))
  {
    hide GenExpr;
    var held := g.(free := POOL - {7});
    TakeIs(g, 7);
    ReadI(held.(free := POOL - {7} - {8}), 8);
    ConstCode(held.(free := POOL - {7} - {8} - {9}), 2, 9);
    BinIs(held, COUNT.test.value, 7, 8, [Op(Lw(8, 2, 128))], 9, [Li(9, 2)]);
    assert POOL - {7} + {7} == POOL;
    assert TestLines() == [Op(Lw(8, 2, 128))] + [Li(9, 2)] + [Op(Alu(SLT, 7, 8, 9))]
                                 + [BeqzTo(7, Numbered("for_end", 1))];
  }

  lemma UpdateCode(g: Gen)
    requires Sees(g) && g.free == POOL
    ensures GenUpdate(g, COUNT.update) == Success(Emitted(UpdateLines(), g.(free := POOL - {8})))
  {
    Lookups(g);
    TakeIs(g, 7);
    TakeIs(g.(free := POOL - {7}), 8);
    assert POOL - {7} - {8} + {7} == POOL - {8};
  }

  lemma CountCode()
    ensures GenStmt(Base(POOL, 0), COUNT) == Success(Emitted(CountLines(), Base(POOL - {8}, 3)))
  {
    hide GenSimple, GenTest, GenUpdate, Pop;
    var g := Base(POOL, 0);
    var inside := ForOpen(g);
    InitCode(inside);
    TestCode(inside);
    BodyCode(inside);
    UpdateCode(inside);
    hide GenStmt, GenBlock, GenIf, GenWhile;
    assert GenTurns(inside, COUNT, 0) == Success(Emitted(
             ForCode(0, TestLines(), (SumLines() + StoreLines()), UpdateLines()), inside.(free := POOL - {8})));
    assert CountLines() == [Li(7, 0), Op(Sw(7, 2, 128))]
                           + ForCode(0, TestLines(), (SumLines() + StoreLines()), UpdateLines());
    Popped();
    GenForIs(g);
  }

  lemma Popped()
    ensures PopLoop(ForOpen(Base(POOL, 0)).(free := POOL - {8})) == Base(POOL - {8}, 3)
  {
  }

  lemma GenForIs(g: Gen)
    ensures GenStmt(g, COUNT) == GenFor(g, COUNT)
  {
  }

  lemma CondCode(g: Gen)
    requires Sees(g) && g.free == POOL - {8} - {7}
    ensures GenExpr(g, CHOICE.cond, 7) == Success(Emitted(CondLines(), g.(free := POOL - {8} - {7} - {11})))
  {
    hide GenRead, Take, Sees;
    var g9 := g.(free := g.free - {9});
    var g10 := g9.(free := g9.free - {10});
    var left := ElementLines(10, 11) + [Op(Lw(9, 10, 0))];
    TakeIs(g, 9);
    SeesKept(g, g.free - {9});
    ElementRead(g9);
    TakeIs(g9, 10);
    ConstCode(g10, 4, 10);
    TakeIs(g10, 11);
    assert g10.free - {11} + {10} + {9} == POOL - {8} - {7} - {11};
    EqualCode(g, left);
    assert CondLines() == left + [Li(10, 4)] + [Op(Alu(SEQ, 7, 9, 10))];
  }

  lemma EqualCode(g: Gen, left: seq<Line>)
    requires Take(g) == Success(Taken(9, g.(free := g.free - {9})))
    requires var g9 := g.(free := g.free - {9});
             var g10 := g9.(free := g9.free - {10});
             && GenExpr(g9, Read(CELL), 9) == Success(Emitted(left, g9)) && Take(g9) == Success(Taken(10, g10))
             && GenExpr(g10, Const(4), 10) == Success(Emitted([Li(10, 4)], g10))
             && Take(g10) == Success(Taken(11, g10.(free := g10.free - {11})))
    ensures GenExpr(g, CHOICE.cond, 7) == Success(Emitted(
              left + [Li(10, 4)] + [Op(Alu(SEQ, 7, 9, 10))],
              g.(free := g.free - {9} - {10} - {11} + {10} + {9})))
  {
    hide Take, GenRead;
  }

  lemma ElseCode(g: Gen)
    requires Sees(g) && g.free == POOL - {8} - {7} - {11} && g.functionEnd == END
    ensures GenStmt(g, CHOICE.els.value) == Success(Emitted(ElseLines(), g))
    ensures GenStmt(g, CHOICE.thn) == Success(Emitted(ThenLines(), g))
  {
    hide GenExpr;
    var e := CHOICE.els.value.e.value;
    ReadI(g.(free := g.free - {9}), 9);
    ConstCode(g.(free := g.free - {9} - {10}), 2, 10);
    ConstCode(g, 1, S1);
    BinIs(g, e, S1, 9, [Op(Lw(9, 2, 128))], 10, [Li(10, 2)]);
    assert [Li(6, 1)] + [JumpTo(END)] == ThenLines();
    assert [Op(Lw(9, 2, 128))] + [Li(10, 2)] + [Op(Alu(SLL, 6, 9, 10))] + [JumpTo(END)] == ElseLines();
  }

  lemma ChoiceCode()
    ensures GenStmt(Base(POOL - {8}, 3), CHOICE) == Success(Emitted(ChoiceLines(), Base(POOL - {8} - {11}, 5)))
  {
    hide GenExpr, Take;
    var g := Base(POOL - {8}, 3);
    var held := g.(free := POOL - {8} - {7});
    TakeIs(g, 7);
    CondCode(held);
    var after := held.(free := POOL - {8} - {7} - {11}, counter := 5);
    ElseCode(after);
    assert POOL - {8} - {7} - {11} + {7} == POOL - {8} - {11};
    assert GenElse(after, CHOICE.els) == GenStmt(after, CHOICE.els.value);
    hide GenStmt, GenElse, GenBlock, GenWhile, GenFor;
    assert IfCode(CondLines(), 7, 3, ThenLines(), ElseLines()) == ChoiceLines();
    GenIfIs(g);
  }

  lemma GenIfIs(g: Gen)
    ensures GenStmt(g, CHOICE) == GenIf(g, CHOICE)
  {
  }

  lemma DeclCode()
    ensures GenDecls(Enter(Opening(Program(), 164)).value, Flatten(Program().decls))
         == Success(Emitted([], Base(POOL, 0)))
  {
    var g, decls := Enter(Opening(Program(), 164)).value, Program().decls;
    var a, i := decls[0][0], decls[1][0];
    assert Flatten(decls) == [a, i] by {
      assert decls[1..][1..] == [] && Flatten(decls[1..][1..]) == [];
      assert Flatten(decls[1..]) == [i] + [];
    }
    assert "main" + "_end" == "main_end";
    SizeOfTwo(2, 3);
    assert Size([]) == 1;
    var h := Allocate(g, a);
    assert Allocate(h, i) == Base(POOL, 0);
    assert [a, i][1..] == [i] && [i][1..] == [];
    assert GenDecls(Base(POOL, 0), []) == Success(Emitted([], Base(POOL, 0)));
    var none: seq<Line> := [];
    assert none + none == none;
    assert GenDecls(h, [i]) == Success(Emitted(none, Base(POOL, 0)));
  }

  lemma FrameIs164()
    ensures FrameBytes(Program().decls) == 164
  {
    var decls := Program().decls;
    SizeOfTwo(2, 3);
    assert Size([]) == 1;
    assert decls[0][1..] == [] && decls[1][1..] == [] && decls[1..][1..] == [];
    assert DeclarationBytes(decls[0], 4, 0) == 24 && DeclarationBytes(decls[1], 4, 0) == 0;
    assert ListBytes(decls, 0) == ListBytes(decls[1..], 24) == ListBytes([], 24) == 24;
  }

  /** The whole text of the function. */
  lemma ProgramCode()
    ensures GenFunction(Program()) == Success(ProgramText())
  {
    hide GenDecls, FrameBytes, CountLines, ChoiceLines, Base, GenExpr;
    var f, g := Program(), Opening(Program(), 164);
    var h, k, m := Base(POOL, 0), Base(POOL - {8}, 3), Base(POOL - {8} - {11}, 5);
    FrameIs164();
    DeclCode();
    CountCode();
    ChoiceCode();
    assert f.body[1..][1..] == [] && f.body[1..][0] == f.body[1];
    assert ChoiceLines() + [] == ChoiceLines();
    assert GenAll(m, []) == Success(Emitted([], m));
    assert GenAll(k, f.body[1..]) == Success(Emitted(ChoiceLines(), m));
    assert GenAll(h, f.body) == Success(Emitted(CountLines() + ChoiceLines(), m));
    assert GenStmt(g, Block(f.decls, f.body)) == GenBlock(g, Block(f.decls, f.body));
    assert [] + (CountLines() + ChoiceLines()) == CountLines() + ChoiceLines();
    assert GenBlock(g, Block(f.decls, f.body)) == Success(Emitted(CountLines() + ChoiceLines(), Generator.Exit(m)));
    ProgramEnds();
  }

  lemma ProgramEnds()
    ensures EndLabel(Program()) == END
    ensures ProgramText() == Prologue(164) + (CountLines() + ChoiceLines()) + [Mark(END)] + Epilogue(164)
  {
    hide CountLines, ChoiceLines;
    assert "main" + "_end" == "main_end";
  }

  // ----- What it returns -----

  /** The variables, with `c` in a[1][2] and `v` in i. */
  function At(c: Option<Word>, v: Option<Word>): Env {
    [map[], map["a" := Object([2, 3], [None, None, None, None, None, c]), "i" := Object([], [v])]]
  }

  lemma Cells(c: Option<Word>, v: Option<Word>, inner: Env)
    requires inner == At(c, v) || inner == At(c, v) + [map[]]
    ensures ReadPlace(inner, I) == v && ReadPlace(inner, CELL) == c
    ensures FindScope(inner, "a") == 1 == FindScope(inner, "i") && Resolves(inner, I) && Resolves(inner, CELL)
  {
    assert (At(c, v) + [map[]])[..2] == At(c, v);
    SizeOfTwo(2, 3);
    assert Size([]) == 1;
    assert Linear([2, 3], [1, 2]) == 5;
  }

  lemma SetI(c: Option<Word>, v: Option<Word>, w: Word)
    ensures WritePlace(At(c, v), I, w) == Some(At(c, Some(w)))
  {
    Cells(c, v, At(c, v));
    assert [v][0 := Some(w)] == [Some(w)];
    var o := Object([], [Some(w)]);
    assert At(c, v)[1]["i" := o] == At(c, Some(w))[1];
    assert At(c, v)[1 := At(c, v)[1]["i" := o]] == At(c, Some(w));
  }

  lemma SetCell(c: Option<Word>, v: Option<Word>, w: Word)
    ensures WritePlace(At(c, v) + [map[]], CELL, w) == Some(At(Some(w), v) + [map[]])
  {
    var inner: Env := At(c, v) + [map[]];
    Cells(c, v, inner);
    SizeOfTwo(2, 3);
    assert Linear([2, 3], [1, 2]) == 5;
    var o := Object([2, 3], [None, None, None, None, None, Some(w)]);
    assert inner[1]["a"].cells[5 := Some(w)] == o.cells;
    assert inner[1]["a" := o] == At(Some(w), v)[1];
    assert inner[1 := inner[1]["a" := o]] == At(Some(w), v) + [map[]];
  }

  lemma SumValue(order: Order, c: Option<Word>, v: Word)
    requires v < 2
    ensures Value(order, SUM, At(c, Some(v)) + [map[]]) == Some(if v == 0 then 1 else 4)
  {
    var inner: Env := At(c, Some(v)) + [map[]];
    Cells(c, Some(v), inner);
    assert Value(order, Read(I), inner) == Some(v);
    assert Value(order, SUM.left.left, inner) == Some(v * 3);
    assert Value(order, SUM.left, inner) == Some(v * 3 + 4);
  }

  lemma TurnRuns(order: Order, c: Option<Word>, v: Word, fuel: nat)
    requires v < 2
    ensures Exec(order, COUNT.loop, At(c, Some(v)), fuel) == Done(Normal, At(Some(if v == 0 then 1 else 4), Some(v)))
  {
    hide ReadPlace, WritePlace, Value;
    var env := At(c, Some(v));
    var inner: Env := env + [map[]];
    var w: Word := if v == 0 then 1 else 4;
    SumValue(order, c, v);
    SetCell(c, Some(v), w);
    var body := COUNT.loop.body;
    assert RunSimple(order, Assign(CELL, SUM), inner) == Some(At(Some(w), Some(v)) + [map[]]);
    assert Exec(order, body[0], inner, fuel) == Done(Normal, At(Some(w), Some(v)) + [map[]]);
    assert body[1..] == [];
    assert ExecAll(order, body, inner, fuel) == Done(Normal, At(Some(w), Some(v)) + [map[]]);
    assert Flatten([]) == [] && RunDecls(order, [], inner) == Some(inner);
    assert (At(Some(w), Some(v)) + [map[]])[..2] == At(Some(w), Some(v));
  }

  lemma TestRuns(order: Order, c: Option<Word>, v: Word)
    requires v <= 2
    ensures Value(order, COUNT.test.value, At(c, Some(v))) == Some(if v < 2 then 1 else 0)
  {
    Cells(c, Some(v), At(c, Some(v)));
    assert Value(order, Read(I), At(c, Some(v))) == Some(v);
  }

  lemma UpdateRuns(order: Order, c: Option<Word>, v: Word)
    requires v < 2
    ensures RunSimple(order, COUNT.update.value, At(c, Some(v))) == Some(At(c, Some(v + 1)))
  {
    hide WritePlace;
    Cells(c, Some(v), At(c, Some(v)));
    SetI(c, Some(v), v + 1);
  }

  lemma {:induction false} LoopRuns(order: Order, c: Option<Word>, v: Word, fuel: nat)
    requires v <= 2 && 2 - v < fuel && (v == 2 ==> c == Some(4))
    ensures ExecLoop(order, COUNT.test, COUNT.update, COUNT.loop, At(c, Some(v)), fuel)
         == Done(Normal, At(Some(4), Some(2)))
    decreases 2 - v
  {
    hide Exec, RunSimple, Value;
    TestRuns(order, c, v);
    if v < 2 {
      var w: Word := if v == 0 then 1 else 4;
      TurnRuns(order, c, v, fuel);
      UpdateRuns(order, Some(w), v);
      LoopRuns(order, Some(w), v + 1, fuel - 1);
    }
  }

  lemma DeclsRun(order: Order)
    ensures RunDecls(order, Flatten(Program().decls), [map[], map[]]) == Some(At(None, None))
  {
    var decls := Program().decls;
    var a, i := decls[0][0], decls[1][0];
    assert Flatten(decls) == [a, i] by {
      assert decls[1..][1..] == [] && Flatten(decls[1..][1..]) == [];
      assert Flatten(decls[1..]) == [i] + [];
    }
    SizeOfTwo(2, 3);
    assert Size([]) == 1;
    var start: Env := [map[], map[]];
    var one := Declare(a, start);
    assert Fresh([2, 3]) == Object([2, 3], [None, None, None, None, None, None]) && Fresh([]) == Object([], [None]);
    assert one == [map[], map["a" := Object([2, 3], [None, None, None, None, None, None])]];
    assert Declare(i, one) == At(None, None);
    assert [a, i][1..] == [i] && [i][1..] == [];
    assert RunDecls(order, [], At(None, None)) == Some(At(None, None));
    assert RunDecls(order, [i], one) == Some(At(None, None));
  }

  lemma ChoiceRuns(order: Order, fuel: nat)
    ensures Exec(order, CHOICE, At(Some(4), Some(2)), fuel) == Done(Returned(Some(1)), At(Some(4), Some(2)))
  {
    var env := At(Some(4), Some(2));
    Cells(Some(4), Some(2), env);
    assert Value(order, Read(CELL), env) == Some(4) && Value(order, Const(4), env) == Some(4);
    assert Value(order, CHOICE.cond, env) == Some(1);
    assert Exec(order, CHOICE.thn, env, fuel) == Done(Returned(Some(1)), env);
  }

  /** It returns 1, whichever way words are compared. */
  lemma ProgramReturns(order: Order)
    ensures RunFunction(order, Program(), 3) == Done(Returned(Some(1)), [map[]])
  {
    hide RunDecls, Flatten, At, ExecLoop;
    var f := Program();
    var outer: Env := [map[]];
    assert outer + [map[]] == [map[], map[]];
    DeclsRun(order);
    InitRuns(order);
    LoopRuns(order, None, 0, 3);
    ChoiceRuns(order, 3);
    var end := At(Some(4), Some(2));
    assert Exec(order, COUNT, At(None, None), 3) == Done(Normal, end);
    hide Exec;
    assert f.body[1..][0] == CHOICE && f.body[0] == COUNT;
    assert ExecAll(order, f.body[1..], end, 3) == Done(Returned(Some(1)), end);
    assert ExecAll(order, f.body, At(None, None), 3) == Done(Returned(Some(1)), end);
    BlockRuns(order, end);
  }

  lemma InitRuns(order: Order)
    ensures RunSimple(order, COUNT.init, At(None, None)) == Some(At(None, Some(0)))
  {
    hide WritePlace;
    assert Value(order, Const(0), At(None, None)) == Some(0);
    SetI(None, None, 0);
  }

  lemma BlockRuns(order: Order, end: Env)
    requires end == At(Some(4), Some(2))
    requires RunDecls(order, Flatten(Program().decls), [map[]] + [map[]]) == Some(At(None, None))
    requires ExecAll(order, Program().body, At(None, None), 3) == Done(Returned(Some(1)), end)
    ensures Exec(order, Block(Program().decls, Program().body), [map[]], 3) == Done(Returned(Some(1)), [map[]])
  {
    hide RunDecls, ExecAll, Flatten;
    assert end[..1] == [map[]];
  }
}
