/**
 The code generator as the compiler runs it: one `Context` whose register flags, label counter,
 label stacks, scopes and stack offsets are updated in place while lines go to an output stream.
 Every method is proved to do what the functions of module Generator say.
 */
module CodeGenerator {
  import opened Wrappers
  import opened Isa
  import opened Asm
  import opened Source
  import opened Generator
  import opened Accounting

  /** An array access as the parser nests it: `a[i][j]` indexes `a[i]`, which indexes `a`. */
  datatype Access = Name(name: string) | Index(base: Access, index: nat)

  function AccessOf(name: string, idx: seq<nat>): Access {
    if idx == [] then Name(name) else Index(AccessOf(name, idx[..|idx| - 1]), idx[|idx| - 1])
  }

  function Indices(access: Access): seq<nat> {
    match access
    case Name(_) => []
    case Index(base, i) => Indices(base) + [i]
  }

  lemma {:induction false} IndicesOfAccess(name: string, idx: seq<nat>)
    ensures Indices(AccessOf(name, idx)) == idx
  {
    if idx != [] {
      IndicesOfAccess(name, idx[..|idx| - 1]);
    }
  }

  /** `a[i][j]` is the element j of the row i of a. */
  lemma AccessNests(name: string, i: nat, j: nat)
    ensures AccessOf(name, []) == Name(name) && AccessOf(name, [i]) == Index(Name(name), i)
    ensures AccessOf(name, [i, j]) == Index(Index(Name(name), i), j)
    ensures Indices(Index(Index(Name(name), i), j)) == [i, j]
  {
    var none: seq<nat> := [];
    assert [i, j][..1] == [i] && [i][..0] == none;
    assert Indices(Name(name)) == none && none + [i] == [i] && [i] + [j] == [i, j];
    assert Indices(Index(Name(name), i)) == [i];
  }

  function Reversed(s: seq<nat>): seq<nat> {
    if s == [] then [] else [s[|s| - 1]] + Reversed(s[..|s| - 1])
  }

  lemma ReversedPush(s: seq<nat>, x: nat)
    ensures Reversed(s + [x]) == [x] + Reversed(s)
  {
    assert (s + [x])[..|s|] == s;
  }

  /** ArrayIndexAccess::get_linear_index: the last index first, then the vector is reversed. */
  method GetLinearIndex(access: Access) returns (indexes: seq<nat>)
    ensures indexes == Indices(access)
  {
    var pushed := [];
    var node := access;
    while node.Index?
      invariant Indices(node) + Reversed(pushed) == Indices(access)
      decreases node
    {
      ReversedPush(pushed, node.index);
      pushed := pushed + [node.index];
      node := node.base;
    }
    indexes := [];
    for i := 0 to |pushed|
      invariant indexes == Reversed(pushed[..i])
    {
      assert pushed[..i + 1] == pushed[..i] + [pushed[i]];
      ReversedPush(pushed[..i], pushed[i]);
      indexes := [pushed[i]] + indexes;
    }
    assert pushed[..|pushed|] == pushed;
  }

  /** collect_dims recurses to the innermost declarator first: `int a[m][n]` nests `a[m]` in `[n]`. */
  method CollectDims(declarator: Access) returns (dim: seq<nat>)
    ensures dim == Indices(declarator)
  {
    dim := [];
    if declarator.Index? {
      dim := CollectDims(declarator.base);
      dim := dim + [declarator.index];
    }
  }

  /** Declaration::get_offset, with its running type size. */
  method DeclarationOffset(ds: seq<Declarator>) returns (totalSize: int)
    ensures totalSize == DeclarationBytes(ds, 4, 0)
  {
    totalSize := 0;
    var typeSize := 4;
    for i := 0 to |ds|
      invariant DeclarationBytes(ds[i..], typeSize, totalSize) == DeclarationBytes(ds, 4, 0)
    {
      var d := ds[i];
      assert ds[i..][0] == d && ds[i..][1..] == ds[i + 1..];
      if d.Array? || d.init.Some? {
        totalSize := totalSize + typeSize * Size(Dims(d));
      } else {
        typeSize := totalSize + typeSize;
      }
      if Remainder(typeSize) != 0 {
        typeSize := typeSize + 4 - Remainder(typeSize);
      }
    }
  }

  /** DeclarationList::get_offset. */
  method ListOffset(decls: seq<seq<Declarator>>) returns (offset: int)
    ensures offset == ListBytes(decls, 0)
  {
    offset := 0;
    for i := 0 to |decls|
      invariant ListBytes(decls[i..], offset) == ListBytes(decls, 0)
    {
      assert decls[i..][0] == decls[i] && decls[i..][1..] == decls[i + 1..];
      var size := DeclarationOffset(decls[i]);
      offset := offset + size;
      if Remainder(offset) != 0 {
        offset := offset + 4 - Remainder(offset);
      }
    }
  }

  class Context {
    var available: seq<bool>          // by register number
    var labelCounter: nat
    var startLabels: seq<Label>
    var endLabels: seq<Label>
    var stackOffsets: seq<int>        // current_stack_offset, a stack
    var totalOffset: int
    var variables: Scopes             // variableMap
    var functionEnd: Label
    var stream: seq<Line>

    ghost predicate Valid()
      reads this
    {
      |available| == 32
    }

    ghost function State(): Gen
      reads this
      requires Valid()
    {
      Gen(FreeSet(available), labelCounter, startLabels, endLabels, stackOffsets, totalOffset,
          variables, functionEnd)
    }

    /** What an emitting method does: what the specification says, or an exception where it says so. */
    ghost predicate Did(spec: Result<Emitted>, r: Result<()>, was: seq<Line>)
      reads this
    {
      && Valid()
      && match spec
         case Failure => r.Failure?
         case Success(e) => r.Success? && State() == e.gen && stream == was + e.code
    }

    constructor ()
      ensures Valid() && stream == []
      ensures State() == Gen(POOL, 0, [], [], [0], 0, [], Named(""))
    {
      available := seq(32, i => 7 <= i <= 29);
      labelCounter := 0;
      startLabels, endLabels := [], [];
      stackOffsets, totalOffset := [0], 0;
      variables := [];
      functionEnd := Named("");
      stream := [];
      new;
      assert FreeSet(available) == POOL;
    }

    // ----- Registers -----

    method GetRegister() returns (r: Result<Reg>)
      requires Valid()
      modifies this`available
      ensures Valid()
      ensures match Take(old(State()))
              case Failure => r.Failure? && State() == old(State())
              case Success(t) => r == Success(t.reg) && State() == t.gen
    {
      ghost var g := State();
      var i := 5;
      while i <= 31
        invariant 5 <= i <= 32 && State() == g
        invariant FirstFree(g.free, i) == FirstFree(g.free, 5)
      {
        if available[i] {
          available := available[i := false];
          FreeSetTaken(old(available), i);
          return Success(i);
        }
        i := i + 1;
      }
      return Failure;
    }

    method DeallocateRegister(r: Reg)
      requires Valid()
      modifies this`available
      ensures Valid() && State() == Release(old(State()), r)
    {
      available := available[r := true];
      FreeSetReleased(old(available), r);
    }

    // ----- Labels -----

    method CreateLabel(prefix: string) returns (l: Label)
      requires Valid()
      modifies this`labelCounter
      ensures l == Numbered(prefix, old(labelCounter))
      ensures Valid() && State() == old(State()).(counter := old(labelCounter) + 1)
    {
      l := Numbered(prefix, labelCounter);
      labelCounter := labelCounter + 1;
    }

    method PushLabels(start: Label, end: Label)
      requires Valid()
      modifies this`startLabels, this`endLabels
      ensures State() == PushLoop(old(State()), start, end, 0)
    {
      startLabels := startLabels + [start];
      endLabels := endLabels + [end];
    }

    method PopLabels()
      requires Valid() && startLabels != [] && endLabels != []
      modifies this`startLabels, this`endLabels
      ensures State() == PopLoop(old(State()))
    {
      startLabels := startLabels[..|startLabels| - 1];
      endLabels := endLabels[..|endLabels| - 1];
    }

    // ----- Scopes and offsets -----

    method CreateScope() returns (r: Result<()>)
      requires Valid()
      modifies this`variables, this`stackOffsets
      ensures match Enter(old(State()))
              case Failure => r.Failure?
              case Success(g) => r.Success? && State() == g
    {
      if stackOffsets == [] {
        return Failure;
      }
      variables := variables + [map[]];
      stackOffsets := stackOffsets + [stackOffsets[|stackOffsets| - 1]];
      return Success(());
    }

    method PopScope()
      requires Valid()
      modifies this`variables, this`stackOffsets
      ensures State() == Generator.Exit(old(State()))
    {
      if variables != [] {
        variables := variables[..|variables| - 1];
      }
      if stackOffsets != [] {
        stackOffsets := stackOffsets[..|stackOffsets| - 1];
      }
    }

    method IncreaseStackOffset(bytes: int)
      requires Valid() && stackOffsets != []
      modifies this`stackOffsets
      ensures stackOffsets == old(stackOffsets)[|old(stackOffsets)| - 1 :=
                Raise(old(stackOffsets)[|old(stackOffsets)| - 1], bytes)]
    {
      var top := |stackOffsets| - 1;
      stackOffsets := stackOffsets[top := stackOffsets[top] + bytes];
      if Remainder(stackOffsets[top]) != 0 {
        stackOffsets := stackOffsets[top := stackOffsets[top] + 4 - Remainder(stackOffsets[top])];
      }
    }

    method DefineVariable(name: string, v: Variable)
      requires Valid() && variables != []
      modifies this`variables
      ensures variables == old(variables)[|old(variables)| - 1 :=
                old(variables)[|old(variables)| - 1][name := v]]
    {
      var k := |variables| - 1;
      variables := variables[k := variables[k][name := v]];
    }

    /** The search goes from the innermost scope outward. */
    method GetVariable(name: string) returns (r: Result<Variable>)
      requires Valid()
      ensures r == Lookup(State(), name)
    {
      var i := |variables|;
      while i > 0
        invariant 0 <= i <= |variables|
        invariant FindScope(variables[..i], name) == FindScope(variables, name)
      {
        assert variables[..i][..i - 1] == variables[..i - 1];
        i := i - 1;
        if name in variables[i] {
          return Success(variables[i][name]);
        }
      }
      return Failure;
    }

    method Write(code: seq<Line>)
      requires Valid()
      modifies this`stream
      ensures Valid() && State() == old(State()) && stream == old(stream) + code
    {
      stream := stream + code;
    }

    // ----- Expressions -----

    /** The element number of an access; two indices need a second bound. */
    method ElementNumber(access: Access, dims: seq<nat>) returns (r: Result<nat>)
      ensures var idx := Indices(access);
              r == if |idx| == 2 && |dims| < 2 then Failure else Success(Linear(dims, idx))
    {
      var indexes := GetLinearIndex(access);
      if |indexes| == 2 {
        if |dims| < 2 {
          return Failure;
        }
        return Success(indexes[0] * dims[1] + indexes[1]);
      }
      return Success(if |indexes| > 0 then indexes[0] else 0);
    }

    /** get_position: four times one more than the element number, into `dest`. */
    method EmitPosition(p: Place, dims: seq<nat>, dest: Reg) returns (r: Result<()>)
      requires Valid()
      modifies this
      ensures Valid()
      ensures if Take(old(State())).Failure? || (|p.idx| == 2 && |dims| < 2) then r.Failure?
              else r.Success? && State() == old(State())
                   && stream == old(stream) + PositionCode(Linear(dims, p.idx), dest)
    {
      hide FreeSet, Take, Linear;
      ghost var g := State();
      var indexReg :- GetRegister();
      IndicesOfAccess(p.name, p.idx);
      var linear :- ElementNumber(AccessOf(p.name, p.idx), dims);
      Write(PositionCode(linear, dest));
      DeallocateRegister(indexReg);
      TakeRelease(g);
      return Success(());
    }

    /** The address of an array element, into `ir`. */
    method EmitAddress(p: Place, ir: Reg) returns (r: Result<()>)
      requires Valid()
      modifies this
      ensures Valid()
      ensures match GenAddress(old(State()), p, ir)
              case Failure => r.Failure?
              case Success(code) => r.Success? && State() == old(State()) && stream == old(stream) + code
    {
      hide FreeSet, FindScope, Take, Linear;
      ghost var g, was := State(), stream;
      var v :- GetVariable(p.name);
      var _ :- EmitPosition(p, v.dims, ir);
      if !v.isArray {
        return Failure;
      }
      var again := GetRegister();
      var temp := again.value;
      Write([Li(temp, v.offset), Op(Alu(SUB, ir, temp, ir)), Op(Alu(ADD, ir, ir, SP))]);
      DeallocateRegister(temp);
      TakeRelease(g);
      Join(was, PositionCode(Linear(v.dims, p.idx), ir),
           [Li(temp, v.offset), Op(Alu(SUB, ir, temp, ir)), Op(Alu(ADD, ir, ir, SP))]);
      return Success(());
    }

    method EmitRead(p: Place, dest: Reg) returns (r: Result<()>)
      requires Valid()
      modifies this
      ensures Did(GenRead(old(State()), p, dest), r, old(stream))
    {
      if p.idx == [] {
        var v :- GetVariable(p.name);
        Write([Op(Lw(dest, SP, v.offset - 4))]);
      } else {
        var index :- GetRegister();
        var _ :- EmitAddress(p, index);
        Write([Op(Lw(dest, index, 0))]);
        DeallocateRegister(index);
      }
      return Success(());
    }

    method EmitExpr(e: Expr, dest: Reg) returns (r: Result<()>)
      requires Valid()
      modifies this
      ensures Did(GenExpr(old(State()), e, dest), r, old(stream))
      decreases e, 1
    {
      match e {
        case Const(n) =>
          Write([Li(dest, n)]);
          r := Success(());
        case Read(p) =>
          r := EmitRead(p, dest);
        case Bin(_, _, _) =>
          r := EmitBin(e, dest);
      }
    }

    method EmitBin(e: Expr, dest: Reg) returns (r: Result<()>)
      requires Valid() && e.Bin?
      modifies this
      ensures Did(GenExpr(old(State()), e, dest), r, old(stream))
      decreases e, 0
    {
      hide FreeSet, Take, GenRead, OpOf;
      ghost var g, was := State(), stream;
      var leftReg :- GetRegister();
      ghost var left := Taken(leftReg, State());
      var _ :- EmitExpr(e.left, leftReg);
      ghost var lc := GenExpr(left.gen, e.left, leftReg).value;
      var rightReg :- GetRegister();
      ghost var right := Taken(rightReg, State());
      var _ :- EmitExpr(e.right, rightReg);
      ghost var rc := GenExpr(right.gen, e.right, rightReg).value;
      if e.op.Equal? {
        var tempReg :- GetRegister();
      }
      ghost var last := State();
      var _, _, _, _, _ := BinParts(g, e, dest);
      hide GenExpr;
      Write([Op(Alu(OpOf(e.op), dest, leftReg, rightReg))]);
      assert stream == was + (lc.code + rc.code + [Op(Alu(OpOf(e.op), dest, leftReg, rightReg))]);
      DeallocateRegister(rightReg);
      DeallocateRegister(leftReg);
      assert State() == Release(Release(last, rightReg), leftReg);
      return Success(());
    }

    // ----- Expression statements and declarations -----

    method EmitAssign(p: Place, e: Expr) returns (r: Result<()>)
      requires Valid()
      modifies this
      ensures Did(GenAssign(old(State()), p, e), r, old(stream))
    {
      hide FreeSet, Take, GenExpr, GenAddress, FindScope;
      ghost var g, was := State(), stream;
      var v :- GetVariable(p.name);
      var reg :- GetRegister();
      ghost var value := State();
      var _ :- EmitExpr(e, reg);
      ghost var code := GenExpr(value, e, reg).value.code;
      if p.idx == [] {
        Write([Op(Sw(reg, SP, v.offset - 4))]);
        assert stream == was + (code + [Op(Sw(reg, SP, v.offset - 4))]);
      } else {
        var index :- GetRegister();
        ghost var held := State();
        var _ :- EmitAddress(p, index);
        ghost var address := GenAddress(held, p, index).value;
        Write([Op(Sw(reg, index, 0))]);
        assert stream == was + (code + address + [Op(Sw(reg, index, 0))]);
        DeallocateRegister(index);
      }
      DeallocateRegister(reg);
      return Success(());
    }

    /** `x++` and `x--` as statements: the destination is x0, so another register is taken and kept. */
    method EmitBump(x: string, up: bool) returns (r: Result<()>)
      requires Valid()
      modifies this
      ensures Did(GenBump(old(State()), x, up), r, old(stream))
    {
      hide FreeSet, Take, FindScope;
      ghost var was := stream;
      var v :- GetVariable(x);
      var operand :- GetRegister();
      Write([Op(Lw(operand, SP, v.offset - 4))]);
      var dest :- GetRegister();
      Write([Op(AluImm(ADDI, dest, operand, if up then 1 else -1))]);
      Write([Op(Sw(dest, SP, v.offset - 4))]);
      assert stream == was + [Op(Lw(operand, SP, v.offset - 4)),
                              Op(AluImm(ADDI, dest, operand, if up then 1 else -1)),
                              Op(Sw(dest, SP, v.offset - 4))];
      DeallocateRegister(operand);
      return Success(());
    }

    method EmitSimple(x: Simple) returns (r: Result<()>)
      requires Valid()
      modifies this
      ensures Did(GenSimple(old(State()), x), r, old(stream))
    {
      match x {
        case Nop => r := Success(());
        case Eval(e) => r := EmitExpr(e, 0);
        case Assign(p, e) => r := EmitAssign(p, e);
        case Bump(name, up) => r := EmitBump(name, up);
      }
    }

    /** One declarator: its slot, its variable, and its initialiser. */
    method EmitDeclarator(d: Declarator) returns (r: Result<()>)
      requires Valid()
      modifies this
      ensures Did(GenDecl(old(State()), d), r, old(stream))
    {
      hide FreeSet, GenAssign, Raise;
      ghost var g, was := State(), stream;
      if variables == [] || stackOffsets == [] {
        return Failure;
      }
      var offset := Abs(stackOffsets[|stackOffsets| - 1] - totalOffset);
      IncreaseStackOffset(4 * Size(Dims(d)));
      DefineVariable(d.name, Variable(offset, d.Array?, Dims(d)));
      assert State() == Allocate(g, d);
      if d.Scalar? && d.init.Some? {
        r := EmitAssign(Place(d.name, []), d.init.value);
      } else {
        r := Success(());
      }
    }

    /** Declaration::EmitElsonV: the declarators from left to right. */
    method EmitDeclaration(ds: seq<Declarator>) returns (r: Result<()>)
      requires Valid()
      modifies this
      ensures Did(GenDecls(old(State()), ds), r, old(stream))
    {
      hide FreeSet, GenDecl;
      ghost var g, was := State(), stream;
      ghost var done := [];
      AfterNothing(GenDecls(g, ds));
      assert ds[0..] == ds;
      for i := 0 to |ds|
        invariant Valid() && stream == was + done
        invariant GenDecls(g, ds) == After(done, GenDecls(State(), ds[i..]))
      {
        assert ds[i..][0] == ds[i] && ds[i..][1..] == ds[i + 1..];
        ghost var code := GenDecl(State(), ds[i]);
        var _ :- EmitDeclarator(ds[i]);
        AfterAfter(done, code.value.code, GenDecls(State(), ds[i + 1..]));
        done := done + code.value.code;
      }
      return Success(());
    }

    method EmitDeclarationList(decls: seq<seq<Declarator>>) returns (r: Result<()>)
      requires Valid()
      modifies this
      ensures Did(GenDecls(old(State()), Flatten(decls)), r, old(stream))
    {
      hide FreeSet, GenDecls;
      ghost var g, was := State(), stream;
      ghost var done := [];
      AfterNothing(GenDecls(g, Flatten(decls)));
      assert decls[0..] == decls;
      for i := 0 to |decls|
        invariant Valid() && stream == was + done
        invariant GenDecls(g, Flatten(decls)) == After(done, GenDecls(State(), Flatten(decls[i..])))
      {
        assert decls[i..][0] == decls[i] && decls[i..][1..] == decls[i + 1..];
        ghost var code := GenDecls(State(), decls[i]);
        DeclsConcat(State(), decls[i], Flatten(decls[i + 1..]));
        var _ :- EmitDeclaration(decls[i]);
        AfterAfter(done, code.value.code, GenDecls(State(), Flatten(decls[i + 1..])));
        done := done + code.value.code;
      }
      DeclsNone(State());
      return Success(());
    }

    // ----- Statements -----

    method EmitStmt(s: Stmt) returns (r: Result<()>)
      requires Valid()
      modifies this
      ensures Did(GenStmt(old(State()), s), r, old(stream))
      decreases s, 2
    {
      hide FreeSet, GenSimple, GenBlock, GenIf, GenWhile, GenFor, GenExpr;
      match s {
        case Do(simple) => r := EmitSimple(simple);
        case Block(_, _) => r := EmitBlock(s);
        case If(_, _, _) => r := EmitIf(s);
        case While(_, _) => r := EmitWhile(s);
        case For(_, _, _, _) => r := EmitFor(s);
        case Break => r := EmitJump(endLabels);
        case Continue => r := EmitJump(startLabels);
        case Return(e) => r := EmitReturn(e);
      }
    }

    /** A jump to the label on top of a stack. */
    method EmitJump(stack: seq<Label>) returns (r: Result<()>)
      requires Valid()
      modifies this`stream
      ensures Did(GenJump(old(State()), stack), r, old(stream))
    {
      if stack == [] {
        return Failure;
      }
      Write([JumpTo(stack[|stack| - 1])]);
      return Success(());
    }

    method EmitReturn(e: Option<Expr>) returns (r: Result<()>)
      requires Valid()
      modifies this
      ensures Did(GenReturn(old(State()), e), r, old(stream))
    {
      hide FreeSet, GenExpr;
      ghost var g, was := State(), stream;
      ghost var ec := Emitted([], g);
      if e.Some? {
        var _ :- EmitExpr(e.value, S1);
        ec := GenExpr(g, e.value, S1).value;
        ExprKept(g, e.value, S1);
      }
      Write([JumpTo(functionEnd)]);
      assert stream == was + (ec.code + [JumpTo(functionEnd)]);
      return Success(());
    }

    /** CompoundStatement::EmitElsonV. */
    method EmitBlock(s: Stmt) returns (r: Result<()>)
      requires Valid() && s.Block?
      modifies this
      ensures Did(GenBlock(old(State()), s), r, old(stream))
      decreases s, 0
    {
      hide FreeSet, GenDecls, GenAll, Flatten;
      ghost var was := stream;
      var _ :- CreateScope();
      ghost var inner := State();
      var _ :- EmitDeclarationList(s.decls);
      ghost var dc := GenDecls(inner, Flatten(s.decls)).value;
      var _ :- EmitAll(s.body);
      ghost var bc := GenAll(dc.gen, s.body).value;
      assert stream == was + (dc.code + bc.code);
      PopScope();
      return Success(());
    }

    /** StatementList::EmitElsonV. */
    method EmitAll(ss: seq<Stmt>) returns (r: Result<()>)
      requires Valid()
      modifies this
      ensures Did(GenAll(old(State()), ss), r, old(stream))
      decreases ss, 0
    {
      hide FreeSet, GenStmt;
      ghost var g, was := State(), stream;
      ghost var done := [];
      AfterNothing(GenAll(g, ss));
      assert ss[0..] == ss;
      for i := 0 to |ss|
        invariant Valid() && stream == was + done
        invariant GenAll(g, ss) == After(done, GenAll(State(), ss[i..]))
      {
        assert ss[i..][0] == ss[i] && ss[i..][1..] == ss[i + 1..];
        ghost var code := GenStmt(State(), ss[i]);
        var _ :- EmitStmt(ss[i]);
        AfterAfter(done, code.value.code, GenAll(State(), ss[i + 1..]));
        done := done + code.value.code;
      }
      return Success(());
    }

    method EmitIf(s: Stmt) returns (r: Result<()>)
      requires Valid() && s.If?
      modifies this
      ensures Did(GenIf(old(State()), s), r, old(stream))
      decreases s, 0
    {
      hide FreeSet, Take, GenExpr, GenStmt, GenElse;
      ghost var was := stream;
      var c :- GetRegister();
      ghost var held := State();
      var _ :- EmitExpr(s.cond, c);
      ghost var cc := GenExpr(held, s.cond, c).value;
      var elseLabel := CreateLabel("else");
      var endLabel := CreateLabel("end_if");
      ghost var linked := State();
      Write([BeqzTo(c, elseLabel)]);
      Join(was, cc.code, [BeqzTo(c, elseLabel)]);
      ghost var done := cc.code + [BeqzTo(c, elseLabel)];
      var _ :- EmitStmt(s.thn);
      ghost var tc := GenStmt(linked, s.thn).value;
      Join(was, done, tc.code);
      done := done + tc.code;
      Write([JumpTo(endLabel), Mark(elseLabel)]);
      Join(was, done, [JumpTo(endLabel), Mark(elseLabel)]);
      done := done + [JumpTo(endLabel), Mark(elseLabel)];
      var _ :- EmitElse(s.els);
      ghost var ec := GenElse(tc.gen, s.els).value;
      Join(was, done, ec.code);
      done := done + ec.code;
      Write([Mark(endLabel)]);
      Join(was, done, [Mark(endLabel)]);
      DeallocateRegister(c);
      return Success(());
    }

    method EmitElse(els: Option<Stmt>) returns (r: Result<()>)
      requires Valid()
      modifies this
      ensures Did(GenElse(old(State()), els), r, old(stream))
      decreases els, 2
    {
      r := Success(());
      if els.Some? {
        r := EmitStmt(els.value);
      }
    }

    method EmitWhile(s: Stmt) returns (r: Result<()>)
      requires Valid() && s.While?
      modifies this
      ensures Did(GenWhile(old(State()), s), r, old(stream))
      decreases s, 0
    {
      hide FreeSet, Take, GenExpr, GenStmt;
      ghost var g, was := State(), stream;
      var start := CreateLabel("loop_start");
      var end := CreateLabel("loop_end");
      PushLabels(start, end);
      assert State() == WhileOpen(g);
      Write([Mark(start)]);
      var c :- GetRegister();
      ghost var held := State();
      var _ :- EmitExpr(s.cond, c);
      ghost var cc := GenExpr(held, s.cond, c).value;
      ExprKept(held, s.cond, c);
      Write([BeqzTo(c, end)]);
      var _ :- EmitStmt(s.loop);
      ghost var bc := GenStmt(cc.gen, s.loop).value;
      StacksKept(cc.gen, s.loop);
      Write([JumpTo(start), Mark(end)]);
      assert stream == was + WhileCode(start, end, cc.code, c, bc.code);
      DeallocateRegister(c);
      assert State() == Release(bc.gen, c);
      PopLabels();
      return Success(());
    }

    /** `continue` goes to the update. */
    method EmitFor(s: Stmt) returns (r: Result<()>)
      requires Valid() && s.For?
      modifies this
      ensures Did(GenFor(old(State()), s), r, old(stream))
      decreases s, 1
    {
      hide FreeSet, GenSimple, GenTurns;
      ghost var g, was := State(), stream;
      var start := CreateLabel("for_start");
      var end := CreateLabel("for_end");
      var update := CreateLabel("for_update");
      PushLabels(update, end);
      assert State() == ForOpen(g);
      var _ :- EmitSimple(s.init);
      ghost var ic := GenSimple(ForOpen(g), s.init).value;
      SimpleKept(ForOpen(g), s.init);
      var _ :- EmitTurns(s, start, end, update);
      ghost var rest := GenTurns(ic.gen, s, g.counter).value;
      TurnsKept(ic.gen, s, g.counter);
      Join(was, ic.code, rest.code);
      PopLabels();
      return Success(());
    }

    /** The test, the body and the update; the test's register is free again before the body. */
    method EmitTurns(s: Stmt, start: Label, end: Label, update: Label) returns (r: Result<()>)
      requires Valid() && s.For? && start.Numbered? && start == Numbered("for_start", start.number)
      requires end == Numbered("for_end", start.number + 1) && update == Numbered("for_update", start.number + 2)
      modifies this
      ensures Did(GenTurns(old(State()), s, start.number), r, old(stream))
      decreases s, 0
    {
      hide FreeSet, GenStmt, GenTest, GenUpdate;
      ghost var g, was := State(), stream;
      Write([Mark(start)]);
      ghost var done := [Mark(start)];
      var _ :- EmitTest(s.test, end);
      ghost var tc := GenTest(g, s.test, end).value;
      Join(was, done, tc.code);
      done := done + tc.code;
      var _ :- EmitStmt(s.loop);
      ghost var bc := GenStmt(tc.gen, s.loop).value;
      Join(was, done, bc.code);
      done := done + bc.code;
      Write([Mark(update)]);
      Join(was, done, [Mark(update)]);
      done := done + [Mark(update)];
      var _ :- EmitUpdate(s.update);
      ghost var uc := GenUpdate(bc.gen, s.update).value;
      Join(was, done, uc.code);
      done := done + uc.code;
      Write([JumpTo(start), Mark(end)]);
      Join(was, done, [JumpTo(start), Mark(end)]);
      return Success(());
    }

    method EmitUpdate(update: Option<Simple>) returns (r: Result<()>)
      requires Valid()
      modifies this
      ensures Did(GenUpdate(old(State()), update), r, old(stream))
    {
      r := Success(());
      if update.Some? {
        r := EmitSimple(update.value);
      }
    }

    method EmitTest(test: Option<Expr>, end: Label) returns (r: Result<()>)
      requires Valid()
      modifies this
      ensures Did(GenTest(old(State()), test, end), r, old(stream))
    {
      hide FreeSet, Take, GenExpr;
      ghost var was := stream;
      if test.Some? {
        var c :- GetRegister();
        ghost var held := State();
        var _ :- EmitExpr(test.value, c);
        ghost var cc := GenExpr(held, test.value, c).value;
        Write([BeqzTo(c, end)]);
        assert stream == was + (cc.code + [BeqzTo(c, end)]);
        DeallocateRegister(c);
      }
      return Success(());
    }

    // ----- Functions -----

    /** The context between two functions. */
    ghost predicate Between(left: Left)
      reads this
    {
      && Valid() && FreeSet(available) == left.free && labelCounter == left.counter
      && startLabels == [] && endLabels == [] && stackOffsets == [0] && variables == []
    }

    /** The scope, the end label and the frame of a function about to be emitted. */
    method EnterFunction(ghost left: Left, f: Function)
      requires Between(left)
      modifies this
      ensures Valid() && State() == OpeningAfter(left, f, FrameBytes(f.decls)) && stream == old(stream)
    {
      hide FreeSet, FrameBytes;
      functionEnd := EndLabel(f);
      stackOffsets := stackOffsets + [0];
      var scope := CreateScope();
      IncreaseStackOffset(8);
      var offset := ListOffset(f.decls);
      var space := offset + 8 + 128;
      totalOffset := space + (4 - Remainder(space));
      assert totalOffset == FrameBytes(f.decls) by {
        FrameBytesAre(f.decls, offset);
      }
    }

    /** FunctionDefinition::EmitElsonV. */
    method EmitFunction(ghost left: Left, f: Function) returns (r: Result<()>)
      requires Between(left)
      modifies this
      ensures Valid()
      ensures match GenNext(left, f)
              case Failure => r.Failure?
              case Success(c) => r.Success? && Between(c.left) && stream == old(stream) + c.text
    {
      hide FreeSet, GenBlock, FrameBytes, Prologue, Epilogue;
      ghost var was := stream;
      EnterFunction(left, f);
      ghost var g := State();
      Write(Prologue(totalOffset));
      var _ :- EmitStmt(Block(f.decls, f.body));
      ghost var body := GenStmt(g, Block(f.decls, f.body)).value;
      BodyKept(g, Block(f.decls, f.body));
      hide GenStmt;
      Join(was, Prologue(g.total), body.code);
      Write([Mark(functionEnd)]);
      Join(was, Prologue(g.total) + body.code, [Mark(EndLabel(f))]);
      Write(Epilogue(totalOffset));
      Join(was, Prologue(g.total) + body.code + [Mark(EndLabel(f))], Epilogue(g.total));
      PopScope();
      stackOffsets := stackOffsets[..|stackOffsets| - 1];
      return Success(());
    }

    /** TranslationUnit::EmitElsonV: nothing is reset between two functions. */
    method EmitUnit(ghost left: Left, fs: seq<Function>) returns (r: Result<()>)
      requires Between(left)
      modifies this
      ensures match GenUnit(left, fs)
              case Failure => r.Failure?
              case Success(c) => r.Success? && Between(c.left) && stream == old(stream) + c.text
    {
      hide FreeSet, GenNext, Between;
      ghost var was := stream;
      ghost var done, now := [], left;
      assert fs[0..] == fs;
      UnitNothing(GenUnit(left, fs));
      for i := 0 to |fs|
        invariant Between(now) && stream == was + done
        invariant GenUnit(left, fs) == UnitAfter(done, GenUnit(now, fs[i..]))
      {
        assert fs[i..][0] == fs[i] && fs[i..][1..] == fs[i + 1..];
        ghost var first := GenNext(now, fs[i]);
        var _ :- EmitFunction(now, fs[i]);
        UnitAfterAfter(done, first.value.text, GenUnit(first.value.left, fs[i + 1..]));
        done, now := done + first.value.text, first.value.left;
      }
      return Success(());
    }
  }

  function UnitAfter(done: seq<Line>, rest: Result<Compiled>): Result<Compiled> {
    match rest
    case Failure => Failure
    case Success(c) => Success(Compiled(done + c.text, c.left))
  }

  lemma UnitAfterAfter(a: seq<Line>, b: seq<Line>, rest: Result<Compiled>)
    ensures UnitAfter(a, UnitAfter(b, rest)) == UnitAfter(a + b, rest)
  {
    if rest.Success? {
      assert a + (b + rest.value.text) == a + b + rest.value.text;
    }
  }

  lemma UnitNothing(rest: Result<Compiled>)
    ensures UnitAfter([], rest) == rest
  {
    if rest.Success? {
      assert [] + rest.value.text == rest.value.text;
    }
  }

  lemma FrameBytesAre(decls: seq<seq<Declarator>>, offset: int)
    requires offset == ListBytes(decls, 0)
    ensures FrameBytes(decls) == offset + 8 + 128 + (4 - Remainder(offset + 8 + 128))
  {
  }

  lemma BodyKept(g: Gen, s: Stmt)
    requires GenStmt(g, s).Success?
    ensures var h := GenStmt(g, s).value.gen;
            h == g.(free := h.free, counter := h.counter)
  {
    StmtAccounts(g, s);
  }

  lemma SimpleKept(g: Gen, x: Simple)
    requires GenSimple(g, x).Success?
    ensures var h := GenSimple(g, x).value.gen; h.starts == g.starts && h.ends == g.ends
  {
    SimpleAccounts(g, x);
  }

  lemma TurnsKept(g: Gen, s: Stmt, n: nat)
    requires s.For? && GenTurns(g, s, n).Success?
    ensures var h := GenTurns(g, s, n).value.gen; h.starts == g.starts && h.ends == g.ends
  {
    var end := Numbered("for_end", n + 1);
    var tc := GenTest(g, s.test, end).value;
    var bc := GenStmt(tc.gen, s.loop).value;
    TestAccounts(g, s.test, end);
    StmtAccounts(tc.gen, s.loop);
    UpdateAccounts(bc.gen, s.update);
  }

  /** An expression leaves everything but the pool as it was. */
  lemma ExprKept(g: Gen, e: Expr, dest: Reg)
    requires GenExpr(g, e, dest).Success?
    ensures GenExpr(g, e, dest).value.gen == g.(free := GenExpr(g, e, dest).value.gen.free)
  {
    ExprAccounts(g, e, dest);
  }

  // ----- The set of free registers -----

  ghost function FreeSet(available: seq<bool>): set<Reg>
    requires |available| == 32
  {
    set r: Reg | available[r]
  }

  lemma FreeSetTaken(available: seq<bool>, r: Reg)
    requires |available| == 32
    ensures FreeSet(available[r := false]) == FreeSet(available) - {r}
  {
  }

  lemma FreeSetReleased(available: seq<bool>, r: Reg)
    requires |available| == 32
    ensures FreeSet(available[r := true]) == FreeSet(available) + {r}
  {
  }

  // ----- Sequences of emissions -----

  lemma Join(was: seq<Line>, done: seq<Line>, code: seq<Line>)
    ensures was + done + code == was + (done + code)
  {
  }

  /** Code already written, followed by the rest of an emission. */
  function After(done: seq<Line>, rest: Result<Emitted>): Result<Emitted> {
    match rest
    case Failure => Failure
    case Success(e) => Success(Emitted(done + e.code, e.gen))
  }

  lemma AfterAfter(a: seq<Line>, b: seq<Line>, rest: Result<Emitted>)
    ensures After(a, After(b, rest)) == After(a + b, rest)
  {
    if rest.Success? {
      assert a + (b + rest.value.code) == a + b + rest.value.code;
    }
  }

  lemma AfterNothing(rest: Result<Emitted>)
    ensures After([], rest) == rest
  {
    if rest.Success? {
      assert [] + rest.value.code == rest.value.code;
    }
  }

  lemma DeclsNone(g: Gen)
    ensures GenDecls(g, Flatten([])) == Success(Emitted([], g))
  {
  }

  lemma {:induction false} DeclsConcat(g: Gen, a: seq<Declarator>, b: seq<Declarator>)
    ensures GenDecls(g, a + b) == match GenDecls(g, a)
                                  case Failure => Failure
                                  case Success(e) => After(e.code, GenDecls(e.gen, b))
    decreases a
  {
    hide GenDecl;
    if a == [] {
      assert a + b == b;
      AfterNothing(GenDecls(g, b));
    } else {
      assert (a + b)[0] == a[0] && (a + b)[1..] == a[1..] + b;
      if GenDecl(g, a[0]).Success? {
        var first := GenDecl(g, a[0]).value;
        DeclsConcat(first.gen, a[1..], b);
        if GenDecls(first.gen, a[1..]).Success? {
          var rest := GenDecls(first.gen, a[1..]).value;
          AfterAfter(first.code, rest.code, GenDecls(rest.gen, b));
        }
      }
    }
  }

  /** The label stacks are as they were after any statement. */
  lemma StacksKept(g: Gen, s: Stmt)
    requires GenStmt(g, s).Success?
    ensures GenStmt(g, s).value.gen.starts == g.starts && GenStmt(g, s).value.gen.ends == g.ends
  {
    StmtAccounts(g, s);
  }
}
