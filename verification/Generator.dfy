/**
 What the scalar code generator emits, as a function of the syntax tree and of the state of its
 `Context`. The class in CodeGenerator.dfy computes this by mutation; the theorems are about this
 function. `Failure` is an exception: no register left, an unknown name, an index on a scalar.
 */
module Generator {
  import opened Wrappers
  import opened Isa
  import opened Asm
  import opened Source

  const SP: Reg := 2
  const RA: Reg := 1
  const S0: Reg := 5
  const S1: Reg := 6

  /** A local: the offset below the top of the frame that Declaration::EmitElsonV recorded. */
  datatype Variable = Variable(offset: int, isArray: bool, dims: seq<nat>)

  type Scopes = seq<map<string, Variable>>

  datatype Gen = Gen(
    free: set<Reg>,        // the available registers
    counter: nat,          // label_counter
    starts: seq<Label>,    // start_labels, innermost last
    ends: seq<Label>,      // end_labels, innermost last
    offsets: seq<int>,     // current_stack_offset, innermost last
    total: int,            // total_offset, the frame size
    scopes: Scopes,        // variableMap, innermost last
    functionEnd: Label)    // last_function_end_statement

  datatype Emitted = Emitted(code: seq<Line>, gen: Gen)

  function Top<T>(stack: seq<T>): Option<T> {
    if stack == [] then None else Some(stack[|stack| - 1])
  }

  function Pop<T>(stack: seq<T>): seq<T> {
    if stack == [] then [] else stack[..|stack| - 1]
  }

  // ----- Registers -----

  /** The registers that are available before any code is emitted: s2 to s24. */
  const POOL: set<Reg> := set r: Reg | 7 <= r <= 29

  /** The first available register from `i` up. */
  function FirstFree(free: set<Reg>, i: nat): (r: Option<Reg>)
    ensures r.Some? ==> i <= r.value && r.value in free
    ensures r.Some? ==> forall k: Reg :: i <= k < r.value ==> k !in free
    ensures r.None? ==> forall k: Reg :: i <= k ==> k !in free
    decreases 32 - i
  {
    if i >= 32 then None else if i in free then Some(i) else FirstFree(free, i + 1)
  }

  datatype Taken = Taken(reg: Reg, gen: Gen)

  /** RegisterFile::get_register for an integer: scan registers 5 to 31. */
  function Take(g: Gen): Result<Taken> {
    match FirstFree(g.free, 5)
    case None => Failure
    case Some(r) => Success(Taken(r, g.(free := g.free - {r})))
  }

  function Release(g: Gen, r: Reg): Gen {
    g.(free := g.free + {r})
  }

  // ----- Variables -----

  function Lookup(g: Gen, x: string): Result<Variable> {
    var i := FindScope(g.scopes, x);
    if i < 0 then Failure else Success(g.scopes[i][x])
  }

  function Abs(x: int): nat {
    if x < 0 then -x else x
  }

  /** Context::increase_stack_offset, with its rounding up to a word. */
  function Raise(offset: int, bytes: int): int {
    var n := offset + bytes;
    if Remainder(n) != 0 then n + 4 - Remainder(n) else n
  }

  /** C++ `n % 4`, which takes the sign of `n`. */
  function Remainder(n: int): int {
    if n >= 0 then n % 4 else -((-n) % 4)
  }

  // ----- Expressions -----

  function OpOf(op: BinOp): AluOp {
    match op
    case Plus => ADD
    case Minus => SUB
    case Times => MUL
    case ShiftLeft => SLL
    case Less => SLT
    case Equal => SEQ
  }

  /** Four times one more than the element number. */
  function PositionCode(linear: nat, ir: Reg): seq<Line> {
    [Li(ir, linear + 1), Op(AluImm(SLLI, ir, ir, 2))]
  }

  /** The address of an array element left in `ir`, with `tr` as scratch. */
  function AddressCode(v: Variable, linear: nat, ir: Reg, tr: Reg): seq<Line> {
    PositionCode(linear, ir) + [Li(tr, v.offset), Op(Alu(SUB, ir, tr, ir)), Op(Alu(ADD, ir, ir, SP))]
  }

  /**
   get_position and the address arithmetic after it. Each of its scratch registers is taken while
   the index register is held and given back at once, so it is the same register both times.
   */
  function GenAddress(g: Gen, p: Place, ir: Reg): Result<seq<Line>> {
    var v :- Lookup(g, p.name);
    var scratch :- Take(g);
    if !v.isArray || (|p.idx| == 2 && |v.dims| < 2) then Failure
    else Success(AddressCode(v, Linear(v.dims, p.idx), ir, scratch.reg))
  }

  function GenRead(g: Gen, p: Place, dest: Reg): Result<Emitted> {
    if p.idx == [] then
      var v :- Lookup(g, p.name);
      Success(Emitted([Op(Lw(dest, SP, v.offset - 4))], g))
    else
      var index :- Take(g);
      var address :- GenAddress(index.gen, p, index.reg);
      Success(Emitted(address + [Op(Lw(dest, index.reg, 0))], Release(index.gen, index.reg)))
  }

  /** An `==` takes a third register and never gives it back. */
  function GenExpr(g: Gen, e: Expr, dest: Reg): Result<Emitted>
    decreases e
  {
    match e
    case Const(n) => Success(Emitted([Li(dest, n)], g))
    case Read(p) => GenRead(g, p, dest)
    case Bin(op, l, r) =>
      var left :- Take(g);
      var lc :- GenExpr(left.gen, l, left.reg);
      var right :- Take(lc.gen);
      var rc :- GenExpr(right.gen, r, right.reg);
      var last :- if op.Equal? then Take(rc.gen) else Success(Taken(0, rc.gen));
      Success(Emitted(lc.code + rc.code + [Op(Alu(OpOf(op), dest, left.reg, right.reg))],
                      Release(Release(last.gen, right.reg), left.reg)))
  }

  // ----- Expression statements and declarations -----

  function GenAssign(g: Gen, p: Place, e: Expr): Result<Emitted> {
    var v :- Lookup(g, p.name);
    var value :- Take(g);
    var ec :- GenExpr(value.gen, e, value.reg);
    if p.idx == [] then
      Success(Emitted(ec.code + [Op(Sw(value.reg, SP, v.offset - 4))],
                      Release(ec.gen, value.reg)))
    else
      var index :- Take(ec.gen);
      var address :- GenAddress(index.gen, p, index.reg);
      Success(Emitted(ec.code + address + [Op(Sw(value.reg, index.reg, 0))],
                      Release(Release(index.gen, index.reg), value.reg)))
  }

  /** The destination of a statement is x0, so `x++` takes a second register, and keeps it. */
  function GenBump(g: Gen, x: string, up: bool): Result<Emitted> {
    var v :- Lookup(g, x);
    var operand :- Take(g);
    var dest :- Take(operand.gen);
    Success(Emitted([Op(Lw(operand.reg, SP, v.offset - 4)),
                     Op(AluImm(ADDI, dest.reg, operand.reg, if up then 1 else -1)),
                     Op(Sw(dest.reg, SP, v.offset - 4))],
                    Release(dest.gen, operand.reg)))
  }

  function GenSimple(g: Gen, s: Simple): Result<Emitted> {
    match s
    case Nop => Success(Emitted([], g))
    case Eval(e) => GenExpr(g, e, 0)
    case Assign(p, e) => GenAssign(g, p, e)
    case Bump(x, up) => GenBump(g, x, up)
  }

  function Dims(d: Declarator): seq<nat> {
    if d.Array? then d.dims else []
  }

  /** Records the variable at the current offset and moves the offset past it. */
  function Allocate(g: Gen, d: Declarator): Gen
    requires g.scopes != [] && g.offsets != []
  {
    var k, top := |g.scopes| - 1, |g.offsets| - 1;
    var v := Variable(Abs(g.offsets[top] - g.total), d.Array?, Dims(d));
    g.(offsets := g.offsets[top := Raise(g.offsets[top], 4 * Size(Dims(d)))],
       scopes := g.scopes[k := g.scopes[k][d.name := v]])
  }

  function GenDecl(g: Gen, d: Declarator): Result<Emitted> {
    if g.scopes == [] || g.offsets == [] then Failure else
    if d.Scalar? && d.init.Some?
    then GenAssign(Allocate(g, d), Place(d.name, []), d.init.value)
    else Success(Emitted([], Allocate(g, d)))
  }

  function GenDecls(g: Gen, ds: seq<Declarator>): Result<Emitted>
    decreases ds
  {
    if ds == [] then Success(Emitted([], g)) else
    var first :- GenDecl(g, ds[0]);
    var rest :- GenDecls(first.gen, ds[1..]);
    Success(Emitted(first.code + rest.code, rest.gen))
  }

  // ----- Scopes and labels -----

  function Enter(g: Gen): Result<Gen> {
    if g.offsets == [] then Failure else
    Success(g.(scopes := g.scopes + [map[]], offsets := g.offsets + [g.offsets[|g.offsets| - 1]]))
  }

  function Exit(g: Gen): Gen {
    g.(scopes := Pop(g.scopes), offsets := Pop(g.offsets))
  }

  function PushLoop(g: Gen, start: Label, end: Label, labels: nat): Gen {
    g.(counter := g.counter + labels, starts := g.starts + [start], ends := g.ends + [end])
  }

  function PopLoop(g: Gen): Gen {
    g.(starts := Pop(g.starts), ends := Pop(g.ends))
  }

  function WhileOpen(g: Gen): Gen {
    PushLoop(g, Numbered("loop_start", g.counter), Numbered("loop_end", g.counter + 1), 2)
  }

  function ForOpen(g: Gen): Gen {
    PushLoop(g, Numbered("for_update", g.counter + 2), Numbered("for_end", g.counter + 1), 3)
  }

  // ----- Statements -----

  function IfCode(cond: seq<Line>, r: Reg, n: nat, thn: seq<Line>, els: seq<Line>): seq<Line> {
    cond + [BeqzTo(r, Numbered("else", n))] + thn
    + [JumpTo(Numbered("end_if", n + 1)), Mark(Numbered("else", n))]
    + els + [Mark(Numbered("end_if", n + 1))]
  }

  function WhileCode(start: Label, end: Label, cond: seq<Line>, r: Reg, loop: seq<Line>): seq<Line> {
    [Mark(start)] + cond + [BeqzTo(r, end)] + loop + [JumpTo(start), Mark(end)]
  }

  function ForCode(n: nat, test: seq<Line>, loop: seq<Line>, update: seq<Line>): seq<Line> {
    [Mark(Numbered("for_start", n))] + test + loop + [Mark(Numbered("for_update", n + 2))] + update
    + [JumpTo(Numbered("for_start", n)), Mark(Numbered("for_end", n + 1))]
  }

  function GenStmt(g: Gen, s: Stmt): Result<Emitted>
    decreases s, 2
  {
    match s
    case Do(simple) => GenSimple(g, simple)
    case Block(_, _) => GenBlock(g, s)
    case If(_, _, _) => GenIf(g, s)
    case While(_, _) => GenWhile(g, s)
    case For(_, _, _, _) => GenFor(g, s)
    case Break => GenJump(g, g.ends)
    case Continue => GenJump(g, g.starts)
    case Return(e) => GenReturn(g, e)
  }

  function GenJump(g: Gen, stack: seq<Label>): Result<Emitted> {
    match Top(stack)
    case None => Failure
    case Some(l) => Success(Emitted([JumpTo(l)], g))
  }

  function GenReturn(g: Gen, e: Option<Expr>): Result<Emitted> {
    var ec :- if e.Some? then GenExpr(g, e.value, S1) else Success(Emitted([], g));
    Success(Emitted(ec.code + [JumpTo(g.functionEnd)], ec.gen))
  }

  function GenBlock(g: Gen, s: Stmt): Result<Emitted>
    requires s.Block?
    decreases s, 0
  {
    var inner :- Enter(g);
    var dc :- GenDecls(inner, Flatten(s.decls));
    var bc :- GenAll(dc.gen, s.body);
    Success(Emitted(dc.code + bc.code, Exit(bc.gen)))
  }

  /** The condition register stays taken over both branches. */
  function GenIf(g: Gen, s: Stmt): Result<Emitted>
    requires s.If?
    decreases s, 0
  {
    var c :- Take(g);
    var cc :- GenExpr(c.gen, s.cond, c.reg);
    var n := cc.gen.counter;
    var tc :- GenStmt(cc.gen.(counter := n + 2), s.thn);
    var ec :- GenElse(tc.gen, s.els);
    Success(Emitted(IfCode(cc.code, c.reg, n, tc.code, ec.code), Release(ec.gen, c.reg)))
  }

  function GenElse(g: Gen, els: Option<Stmt>): Result<Emitted>
    decreases els, 2
  {
    if els.Some? then GenStmt(g, els.value) else Success(Emitted([], g))
  }

  /** The condition register stays taken over the body. */
  function GenWhile(g: Gen, s: Stmt): Result<Emitted>
    requires s.While?
    decreases s, 0
  {
    var start, end := Numbered("loop_start", g.counter), Numbered("loop_end", g.counter + 1);
    var c :- Take(WhileOpen(g));
    var cc :- GenExpr(c.gen, s.cond, c.reg);
    var bc :- GenStmt(cc.gen, s.loop);
    Success(Emitted(WhileCode(start, end, cc.code, c.reg, bc.code),
                    PopLoop(Release(bc.gen, c.reg))))
  }

  function GenFor(g: Gen, s: Stmt): Result<Emitted>
    requires s.For?
    decreases s, 1
  {
    var ic :- GenSimple(ForOpen(g), s.init);
    var rest :- GenTurns(ic.gen, s, g.counter);
    Success(Emitted(ic.code + rest.code, PopLoop(rest.gen)))
  }

  /** A `for` from its start label on, `n` being the number of that label. */
  function GenTurns(g: Gen, s: Stmt, n: nat): Result<Emitted>
    requires s.For?
    decreases s, 0
  {
    var tc :- GenTest(g, s.test, Numbered("for_end", n + 1));
    var bc :- GenStmt(tc.gen, s.loop);
    var uc :- GenUpdate(bc.gen, s.update);
    Success(Emitted(ForCode(n, tc.code, bc.code, uc.code), uc.gen))
  }

  function GenAll(g: Gen, ss: seq<Stmt>): Result<Emitted>
    decreases ss, 0
  {
    if ss == [] then Success(Emitted([], g)) else
    var first :- GenStmt(g, ss[0]);
    var rest :- GenAll(first.gen, ss[1..]);
    Success(Emitted(first.code + rest.code, rest.gen))
  }

  /** The test of a `for`; its register is free again before the body. */
  function GenTest(g: Gen, test: Option<Expr>, end: Label): Result<Emitted> {
    if test.None? then Success(Emitted([], g)) else
    var c :- Take(g);
    var cc :- GenExpr(c.gen, test.value, c.reg);
    Success(Emitted(cc.code + [BeqzTo(c.reg, end)], Release(cc.gen, c.reg)))
  }

  function GenUpdate(g: Gen, update: Option<Simple>): Result<Emitted> {
    if update.Some? then GenSimple(g, update.value) else Success(Emitted([], g))
  }

  // ----- The parts of an emitted statement -----

  lemma BlockParts(g: Gen, s: Stmt) returns (inner: Gen, dc: Emitted, bc: Emitted)
    requires s.Block? && GenStmt(g, s).Success?
    ensures Enter(g) == Success(inner) && GenDecls(inner, Flatten(s.decls)) == Success(dc)
    ensures GenAll(dc.gen, s.body) == Success(bc)
    ensures GenStmt(g, s) == Success(Emitted(dc.code + bc.code, Exit(bc.gen)))
  {
    inner := Enter(g).value;
    dc := GenDecls(inner, Flatten(s.decls)).value;
    bc := GenAll(dc.gen, s.body).value;
  }

  lemma IfParts(g: Gen, s: Stmt) returns (c: Taken, cc: Emitted, tc: Emitted, ec: Emitted)
    requires s.If? && GenStmt(g, s).Success?
    ensures Take(g) == Success(c) && GenExpr(c.gen, s.cond, c.reg) == Success(cc)
    ensures GenStmt(cc.gen.(counter := cc.gen.counter + 2), s.thn) == Success(tc)
    ensures GenElse(tc.gen, s.els) == Success(ec)
    ensures GenStmt(g, s) == Success(Emitted(
              IfCode(cc.code, c.reg, cc.gen.counter, tc.code, ec.code), Release(ec.gen, c.reg)))
  {
    hide GenExpr, Take, GenBlock, GenWhile, GenFor;
    c := Take(g).value;
    cc := GenExpr(c.gen, s.cond, c.reg).value;
    tc := GenStmt(cc.gen.(counter := cc.gen.counter + 2), s.thn).value;
    ec := GenElse(tc.gen, s.els).value;
  }

  lemma WhileParts(g: Gen, s: Stmt) returns (c: Taken, cc: Emitted, bc: Emitted)
    requires s.While? && GenStmt(g, s).Success?
    ensures Take(WhileOpen(g)) == Success(c) && GenExpr(c.gen, s.cond, c.reg) == Success(cc)
    ensures GenStmt(cc.gen, s.loop) == Success(bc)
    ensures GenStmt(g, s) == Success(Emitted(
              WhileCode(Numbered("loop_start", g.counter), Numbered("loop_end", g.counter + 1),
                        cc.code, c.reg, bc.code), PopLoop(Release(bc.gen, c.reg))))
  {
    hide GenExpr, Take, GenBlock, GenIf, GenFor, Pop;
    c := Take(WhileOpen(g)).value;
    cc := GenExpr(c.gen, s.cond, c.reg).value;
    bc := GenStmt(cc.gen, s.loop).value;
  }

  lemma ForParts(g: Gen, s: Stmt) returns (ic: Emitted, tc: Emitted, bc: Emitted, uc: Emitted)
    requires s.For? && GenStmt(g, s).Success?
    ensures GenSimple(ForOpen(g), s.init) == Success(ic)
    ensures GenTest(ic.gen, s.test, Numbered("for_end", g.counter + 1)) == Success(tc)
    ensures GenStmt(tc.gen, s.loop) == Success(bc) && GenUpdate(bc.gen, s.update) == Success(uc)
    ensures GenStmt(g, s) == Success(Emitted(
              ic.code + ForCode(g.counter, tc.code, bc.code, uc.code), PopLoop(uc.gen)))
  {
    hide GenSimple, GenTest, GenUpdate, GenBlock, GenIf, GenWhile, Pop;
    ic := GenSimple(ForOpen(g), s.init).value;
    var turns := GenTurns(ic.gen, s, g.counter);
    assert GenStmt(g, s) == GenFor(g, s);
    tc := GenTest(ic.gen, s.test, Numbered("for_end", g.counter + 1)).value;
    bc := GenStmt(tc.gen, s.loop).value;
    uc := GenUpdate(bc.gen, s.update).value;
  }

  lemma BinParts(g: Gen, e: Expr, dest: Reg)
    returns (left: Taken, lc: Emitted, right: Taken, rc: Emitted, last: Gen)
    requires e.Bin? && GenExpr(g, e, dest).Success?
    ensures Take(g) == Success(left) && GenExpr(left.gen, e.left, left.reg) == Success(lc)
    ensures Take(lc.gen) == Success(right) && GenExpr(right.gen, e.right, right.reg) == Success(rc)
    ensures if e.op.Equal? then Take(rc.gen).Success? && last == Take(rc.gen).value.gen
            else last == rc.gen
    ensures GenExpr(g, e, dest) == Success(Emitted(
              lc.code + rc.code + [Op(Alu(OpOf(e.op), dest, left.reg, right.reg))],
              Release(Release(last, right.reg), left.reg)))
  {
    left := Take(g).value;
    lc := GenExpr(left.gen, e.left, left.reg).value;
    right := Take(lc.gen).value;
    rc := GenExpr(right.gen, e.right, right.reg).value;
    last := if e.op.Equal? then Take(rc.gen).value.gen else rc.gen;
  }

  // ----- Functions -----

  /**
   Declaration::get_offset. A plain identifier does not add to the sum; it enlarges the size
   charged to each later declarator of the same declaration.
   */
  function DeclarationBytes(ds: seq<Declarator>, size: int, sum: int): int {
    if ds == [] then sum else
    var charged := if Charged(ds[0]) then sum + size * Size(Dims(ds[0])) else sum;
    var next := if Charged(ds[0]) then size else sum + size;
    DeclarationBytes(ds[1..], Raise(next, 0), charged)
  }

  /** Arrays and initialised scalars enter the sum. */
  predicate Charged(d: Declarator) {
    d.Array? || d.init.Some?
  }

  /** DeclarationList::get_offset. */
  function ListBytes(decls: seq<seq<Declarator>>, sum: int): int {
    if decls == [] then sum
    else ListBytes(decls[1..], Raise(sum, DeclarationBytes(decls[0], 4, 0)))
  }

  /** The frame: 8 bytes for ra and s0, 128 spare, and always at least 1 up to a word. */
  function FrameBytes(decls: seq<seq<Declarator>>): int {
    var n := ListBytes(decls, 0) + 8 + 128;
    n + (4 - Remainder(n))
  }

  const FRAME_BASE := 4000

  function Prologue(total: int): seq<Line> {
    [Li(S0, total + FRAME_BASE), Li(SP, total + FRAME_BASE), Op(AluImm(ADDI, SP, SP, -total)),
     Op(Sw(RA, SP, total - 4)), Op(Sw(S0, SP, total - 8)), Op(AluImm(ADDI, S0, SP, total))]
  }

  function Epilogue(total: int): seq<Line> {
    [Op(Lw(S0, SP, total - 8)), Op(Lw(RA, SP, total - 4)), Op(AluImm(ADDI, SP, SP, total)),
     Op(Instruction.Exit)]
  }

  function EndLabel(f: Function): Label {
    Named(f.name + "_end")
  }

  /** What one function leaves to the next: the registers that it has not kept, and the counter. */
  datatype Left = Left(free: set<Reg>, counter: nat)

  const UNTOUCHED := Left(POOL, 0)

  /** The context when the body of a function is about to be emitted. */
  function OpeningAfter(left: Left, f: Function, total: int): Gen {
    Gen(left.free, left.counter, [], [], [0, 0, 8], total, [map[]], EndLabel(f))
  }

  function Opening(f: Function, total: int): Gen {
    OpeningAfter(UNTOUCHED, f, total)
  }

  datatype Compiled = Compiled(text: seq<Line>, left: Left)

  function GenNext(left: Left, f: Function): Result<Compiled> {
    var total := FrameBytes(f.decls);
    var body :- GenStmt(OpeningAfter(left, f, total), Block(f.decls, f.body));
    Success(Compiled(Prologue(total) + body.code + [Mark(EndLabel(f))] + Epilogue(total),
                     Left(body.gen.free, body.gen.counter)))
  }

  /** The first function of a translation unit, and all of them one after another. */
  function GenFunction(f: Function): Result<seq<Line>> {
    var compiled :- GenNext(UNTOUCHED, f);
    Success(compiled.text)
  }

  function GenUnit(left: Left, fs: seq<Function>): Result<Compiled>
    decreases fs
  {
    if fs == [] then Success(Compiled([], left)) else
    var first :- GenNext(left, fs[0]);
    var rest :- GenUnit(first.left, fs[1..]);
    Success(Compiled(first.text + rest.text, rest.left))
  }
}
