/** The code of an expression or of an expression statement computes what the source means. */
module Expressions {
  import opened Words
  import opened Wrappers
  import opened Isa
  import opened Asm
  import opened Source
  import opened Generator
  import opened Accounting
  import opened Layout

  /** Registers outside a set are unchanged. */
  predicate Same(a: Regs, b: Regs, changed: set<Reg>) {
    forall r: Reg :: r !in changed ==> a[r] == b[r]
  }

  /** The frame is at the stack pointer and holds the environment. */
  ghost predicate Holds(g: Gen, env: Env, base: int, s: Store) {
    Laid(g, base) && s.regs[SP] == base && Matches(g.scopes, env, base, s.mem)
  }

  lemma RunOne(line: Line, s: Store)
    ensures RunStraight([line], s) == LineEffect(line, s)
  {
    assert [line][1..] == [];
  }

  lemma RunCons(line: Line, code: seq<Line>, s: Store)
    ensures RunStraight([line] + code, s) == RunStraight(code, LineEffect(line, s))
  {
    RunConcat([line], code, s);
    RunOne(line, s);
  }

  /** `slli` by 2 of an element number plus one, subtracted from the offset and added to sp. */
  lemma ElementAddress(linear: nat, offset: int, base: int)
    requires 0 <= base + offset - 4 * (linear + 1) < MODULUS
    ensures var scaled := Wrap(Wrap(linear + 1) * Pow2(2));
            Wrap(Wrap(Wrap(offset) - scaled) + base) == base + offset - 4 * (linear + 1)
  {
    assert Pow2(2) == 4 by { assert Pow2(1) == 2; }
    WrapMul(linear + 1, 4);
    WrapSub(offset, (linear + 1) * 4);
    WrapAdd(offset - (linear + 1) * 4, base);
  }

  lemma AddressRuns(v: Variable, linear: nat, ir: Reg, tr: Reg, base: int, s: Store)
    requires ir != 0 && tr != 0 && ir != tr && ir != SP && tr != SP && s.regs[SP] == base
    requires 0 <= base + v.offset - 4 * (linear + 1) < MODULUS
    ensures var s2 := RunStraight(AddressCode(v, linear, ir, tr), s);
            && s2.regs[ir] == base + v.offset - 4 * (linear + 1) && s2.mem == s.mem
            && Same(s.regs, s2.regs, {ir, tr})
  {
    var code := AddressCode(v, linear, ir, tr);
    var s1 := LineEffect(code[0], s);
    var s2 := LineEffect(code[1], s1);
    var s3 := LineEffect(code[2], s2);
    var s4 := LineEffect(code[3], s3);
    RunCons(code[0], code[1..], s);
    assert code == [code[0]] + code[1..];
    RunCons(code[1], code[2..], s1);
    assert code[1..] == [code[1]] + code[2..];
    RunCons(code[2], code[3..], s2);
    assert code[2..] == [code[2]] + code[3..];
    RunCons(code[3], code[4..], s3);
    assert code[3..] == [code[3]] + code[4..];
    RunOne(code[4], s4);
    assert code[4..] == [code[4]];
    ElementAddress(linear, v.offset, base);
  }

  /** The address of a place under a layout of the scopes. */
  ghost function AddressOf(scopes: Scopes, p: Place, base: int): int {
    var i := FindScope(scopes, p.name);
    if i >= 0 && InRange(scopes[i][p.name].dims, p.idx)
    then CellAddress(base, scopes[i][p.name], Linear(scopes[i][p.name].dims, p.idx))
    else 0
  }

  lemma HoldsBasics(g: Gen, env: Env, base: int, s: Store)
    requires Holds(g, env, base, s)
    ensures s.regs[SP] == base && g.free <= POOL && 0 <= base && base + g.total < MODULUS
  {
  }

  lemma AddressOfInFrame(g: Gen, p: Place, env: Env, base: int, s: Store)
    requires Holds(g, env, base, s) && Resolves(env, p)
    ensures 0 <= base <= AddressOf(g.scopes, p, base) < base + g.total - 8 < MODULUS
    ensures Lookup(g, p.name).Success?
    ensures p.idx == [] ==> AddressOf(g.scopes, p, base) == base + Lookup(g, p.name).value.offset - 4
  {
    StoreMatches(g.scopes, env, TopOf(g), g.total, base, s.mem, p, 0);
  }

  /** A place that has a value holds it at its address. */
  lemma ReadAddress(g: Gen, p: Place, env: Env, base: int, s: Store)
    requires Holds(g, env, base, s) && ReadPlace(env, p).Some?
    ensures 0 <= AddressOf(g.scopes, p, base) < MODULUS
    ensures Load(s.mem, AddressOf(g.scopes, p, base)) == ReadPlace(env, p).value
    ensures Resolves(env, p) && Lookup(g, p.name).Success?
    ensures p.idx == [] ==> AddressOf(g.scopes, p, base) == base + Lookup(g, p.name).value.offset - 4
  {
    AddressOfInFrame(g, p, env, base, s);
    LoadMatches(g.scopes, env, TopOf(g), g.total, base, s.mem, p);
  }

  /** The address left by `GenAddress` is that of the cell. */
  lemma AddressCorrect(g: Gen, p: Place, ir: Reg, env: Env, base: int, s: Store)
    returns (address: int)
    requires GenAddress(g, p, ir).Success? && Holds(g, env, base, s) && Resolves(env, p)
    requires ir in POOL && ir !in g.free && p.idx != []
    ensures address == AddressOf(g.scopes, p, base)
    ensures var s2 := RunStraight(GenAddress(g, p, ir).value, s);
            && s2.regs[ir] == address && s2.mem == s.mem && Same(s.regs, s2.regs, g.free + {ir})
  {
    var i, v, k := PlaceCell(g.scopes, env, base, s.mem, p);
    assert Inside(v, TopOf(g), g.total);
    CellInFrame(v, k, TopOf(g), g.total, base);
    AddressRuns(v, k, ir, Take(g).value.reg, base, s);
    address := CellAddress(base, v, k);
  }

  /** A load at the end of straight-line code that left the address in `ir`. */
  lemma ThenLoad(code: seq<Line>, dest: Reg, ir: Reg, imm: int, address: Word, changed: set<Reg>, s: Store)
    requires var s1 := RunStraight(code, s);
             s1.mem == s.mem && Same(s.regs, s1.regs, changed) && s1.regs[ir] + imm == address
    ensures var s2 := RunStraight(code + [Op(Lw(dest, ir, imm))], s);
            && s2.mem == s.mem && Same(s.regs, s2.regs, changed + {dest})
            && (dest != 0 ==> s2.regs[dest] == Load(s.mem, address))
  {
    RunConcat(code, [Op(Lw(dest, ir, imm))], s);
    RunOne(Op(Lw(dest, ir, imm)), RunStraight(code, s));
  }

  lemma ThenStore(code: seq<Line>, vr: Reg, ir: Reg, imm: int, address: Word, w: Word,
                  changed: set<Reg>, s: Store)
    requires var s1 := RunStraight(code, s);
             && s1.mem == s.mem && Same(s.regs, s1.regs, changed)
             && s1.regs[ir] + imm == address && s1.regs[vr] == w
    ensures var s2 := RunStraight(code + [Op(Sw(vr, ir, imm))], s);
            Same(s.regs, s2.regs, changed) && s2.mem == s.mem[address := w]
  {
    RunConcat(code, [Op(Sw(vr, ir, imm))], s);
    RunOne(Op(Sw(vr, ir, imm)), RunStraight(code, s));
  }

  lemma ReadScalar(g: Gen, p: Place, dest: Reg, env: Env, base: int, s: Store)
    requires GenRead(g, p, dest).Success? && Holds(g, env, base, s) && p.idx == []
    requires ReadPlace(env, p).Some?
    ensures var s2 := RunStraight(GenRead(g, p, dest).value.code, s);
            && s2.mem == s.mem && Same(s.regs, s2.regs, {dest})
            && (dest != 0 ==> s2.regs[dest] == ReadPlace(env, p).value)
  {
    hide Holds, AddressOf, ReadPlace;
    HoldsBasics(g, env, base, s);
    ReadAddress(g, p, env, base, s);
    var v := Lookup(g, p.name).value;
    ThenLoad([], dest, SP, v.offset - 4, base + v.offset - 4, {}, s);
    assert [] + GenRead(g, p, dest).value.code == GenRead(g, p, dest).value.code;
  }

  lemma ReadElement(g: Gen, p: Place, dest: Reg, env: Env, base: int, s: Store)
    requires GenRead(g, p, dest).Success? && Holds(g, env, base, s) && p.idx != []
    requires ReadPlace(env, p).Some?
    ensures var s2 := RunStraight(GenRead(g, p, dest).value.code, s);
            && s2.mem == s.mem && Same(s.regs, s2.regs, g.free + {dest})
            && (dest != 0 ==> s2.regs[dest] == ReadPlace(env, p).value)
  {
    hide Holds, AddressOf, ReadPlace;
    HoldsBasics(g, env, base, s);
    ReadAddress(g, p, env, base, s);
    var index := Take(g).value;
    HoldsKept(g, index.gen, env, base, s, s, {});
    var address := AddressCorrect(index.gen, p, index.reg, env, base, s);
    var code := GenAddress(index.gen, p, index.reg).value;
    ThenLoad(code, dest, index.reg, 0, address, g.free, s);
  }

  lemma ReadCorrect(g: Gen, p: Place, dest: Reg, env: Env, base: int, s: Store)
    requires GenRead(g, p, dest).Success? && Holds(g, env, base, s)
    requires ReadPlace(env, p).Some?
    ensures var s2 := RunStraight(GenRead(g, p, dest).value.code, s);
            && s2.mem == s.mem && Same(s.regs, s2.regs, g.free + {dest})
            && (dest != 0 ==> s2.regs[dest] == ReadPlace(env, p).value)
  {
    if p.idx == [] {
      ReadScalar(g, p, dest, env, base, s);
    } else {
      ReadElement(g, p, dest, env, base, s);
    }
  }

  lemma OpCorrect(op: BinOp, a: Word, b: Word)
    ensures Compute(UnsignedOrder, op, a, b) == Some(AluResult(OpOf(op), a, b, 0, 0))
  {
  }

  /** Running code that leaves memory and sp alone keeps the frame, with fewer registers free. */
  lemma HoldsKept(g: Gen, h: Gen, env: Env, base: int, s: Store, s2: Store, changed: set<Reg>)
    requires Holds(g, env, base, s) && h == g.(free := h.free) && h.free <= g.free
    requires s2.mem == s.mem && Same(s.regs, s2.regs, changed) && SP !in changed
    ensures Holds(h, env, base, s2)
  {
  }

  /** `r` may change only registers of a set, and ends with a value in its destination. */
  predicate Computes(code: seq<Line>, s: Store, dest: Reg, w: Word, changed: set<Reg>) {
    var s2 := RunStraight(code, s);
    s2.mem == s.mem && Same(s.regs, s2.regs, changed + {dest}) && (dest != 0 ==> s2.regs[dest] == w)
  }

  lemma BinRuns(lc: seq<Line>, rc: seq<Line>, op: BinOp, dest: Reg, l: Reg, r: Reg, s: Store,
                a: Word, b: Word, left: set<Reg>, right: set<Reg>, free: set<Reg>)
    requires l != 0 && r != 0 && l in free && r in free && left <= free && right <= free
    requires Computes(lc, s, l, a, left) && Computes(rc, RunStraight(lc, s), r, b, right)
    requires l !in right && l != r
    ensures Computes(lc + rc + [Op(Alu(OpOf(op), dest, l, r))], s, dest,
                     AluResult(OpOf(op), a, b, 0, 0), free)
  {
    var line := Op(Alu(OpOf(op), dest, l, r));
    RunConcat(lc, rc, s);
    RunConcat(lc + rc, [line], s);
    RunOne(line, RunStraight(lc + rc, s));
  }

  /**
   The code of an expression leaves its value, modulo 2^32 and with `<` as the ALU compares, in the
   destination; it changes no memory and, besides the destination, only registers that were free.
   */
  lemma {:induction false} ExprCorrect(g: Gen, e: Expr, dest: Reg, env: Env, base: int, s: Store)
    requires GenExpr(g, e, dest).Success? && Holds(g, env, base, s)
    requires Value(UnsignedOrder, e, env).Some?
    ensures Computes(GenExpr(g, e, dest).value.code, s, dest, Value(UnsignedOrder, e, env).value, g.free)
    decreases e
  {
    match e
    case Const(n) =>
      RunOne(Li(dest, n), s);
    case Read(p) =>
      ReadCorrect(g, p, dest, env, base, s);
    case Bin(op, l, r) =>
      BinCorrect(g, e, dest, env, base, s);
  }

  lemma {:induction false} BinCorrect(g: Gen, e: Expr, dest: Reg, env: Env, base: int, s: Store)
    requires e.Bin? && GenExpr(g, e, dest).Success? && Holds(g, env, base, s)
    requires Value(UnsignedOrder, e, env).Some?
    ensures Computes(GenExpr(g, e, dest).value.code, s, dest, Value(UnsignedOrder, e, env).value, g.free)
    decreases e, 0
  {
    var left, lc, right, rc, last := BinParts(g, e, dest);
    var a, b := Value(UnsignedOrder, e.left, env), Value(UnsignedOrder, e.right, env);
    assert Value(UnsignedOrder, e, env) == Compute(UnsignedOrder, e.op, a.value, b.value);
    ExprAccounts(left.gen, e.left, left.reg);
    HoldsKept(g, left.gen, env, base, s, s, {});
    ExprCorrect(left.gen, e.left, left.reg, env, base, s);
    var s1 := RunStraight(lc.code, s);
    HoldsKept(g, right.gen, env, base, s, s1, left.gen.free + {left.reg});
    ExprCorrect(right.gen, e.right, right.reg, env, base, s1);
    OpCorrect(e.op, a.value, b.value);
    BinRuns(lc.code, rc.code, e.op, dest, left.reg, right.reg, s, a.value, b.value,
            left.gen.free, right.gen.free, g.free);
  }

  // ----- Expression statements -----

  /** Memory outside the part of the frame that holds locals is unchanged. */
  ghost predicate Local(a: Memory, b: Memory, base: int, total: int) {
    forall w: Word :: !(base <= w < base + total - 8) ==> Load(a, w) == Load(b, w)
  }

  /** What running a piece of straight-line code is to achieve. */
  ghost predicate Reaches(g: Gen, h: Gen, code: seq<Line>, env: Env, base: int, s: Store) {
    var s2 := RunStraight(code, s);
    && Holds(h, env, base, s2) && Same(s.regs, s2.regs, g.free) && Local(s.mem, s2.mem, base, g.total)
  }

  /** A store of `w` to the address of a place performs the assignment. */
  lemma StoreReaches(g: Gen, h: Gen, code: seq<Line>, env: Env, p: Place, w: Word, address: int,
                     base: int, s: Store)
    requires Holds(g, env, base, s) && h == g.(free := h.free) && h.free <= g.free
    requires Resolves(env, p) && AddressOf(g.scopes, p, base) == address
    requires var s2 := RunStraight(code, s);
             Same(s.regs, s2.regs, g.free) && 0 <= address < MODULUS && s2.mem == s.mem[address := w]
    ensures Reaches(g, h, code, WritePlace(env, p, w).value, base, s)
  {
    hide RunStraight, Matches, WritePlace, Resolves, FindScope, Linear;
    StoreMatches(g.scopes, env, TopOf(g), g.total, base, s.mem, p, w);
  }

  lemma AssignScalar(g: Gen, p: Place, e: Expr, env: Env, base: int, s: Store)
    requires GenAssign(g, p, e).Success? && Holds(g, env, base, s) && p.idx == []
    requires RunSimple(UnsignedOrder, Assign(p, e), env).Some?
    ensures var r := GenAssign(g, p, e).value;
            Reaches(g, r.gen, r.code, RunSimple(UnsignedOrder, Assign(p, e), env).value, base, s)
  {
    hide Holds, Reaches, AddressOf, Laid, FindScope, Resolves, Take;
    HoldsBasics(g, env, base, s);
    TakeShrinks(g);
    var value := Take(g).value;
    var ec := GenExpr(value.gen, e, value.reg).value;
    var w := Value(UnsignedOrder, e, env).value;
    AssignAccounts(g, p, e);
    HoldsKept(g, value.gen, env, base, s, s, {});
    ExprCorrect(value.gen, e, value.reg, env, base, s);
    AddressOfInFrame(g, p, env, base, s);
    var address := AddressOf(g.scopes, p, base);
    assert RunStraight(ec.code, s).regs[SP] == base;
    assert value.gen.free + {value.reg} == g.free;
    ThenStore(ec.code, value.reg, SP, Lookup(g, p.name).value.offset - 4, address, w, g.free, s);
    StoreReaches(g, GenAssign(g, p, e).value.gen, GenAssign(g, p, e).value.code, env, p, w, address, base, s);
  }

  lemma AssignElement(g: Gen, p: Place, e: Expr, env: Env, base: int, s: Store)
    requires GenAssign(g, p, e).Success? && Holds(g, env, base, s) && p.idx != []
    requires RunSimple(UnsignedOrder, Assign(p, e), env).Some?
    ensures var r := GenAssign(g, p, e).value;
            Reaches(g, r.gen, r.code, RunSimple(UnsignedOrder, Assign(p, e), env).value, base, s)
  {
    hide Holds, Reaches, AddressOf, Laid, FindScope, Resolves, Take;
    HoldsBasics(g, env, base, s);
    TakeShrinks(g);
    var value := Take(g).value;
    var ec := GenExpr(value.gen, e, value.reg).value;
    var w := Value(UnsignedOrder, e, env).value;
    AssignAccounts(g, p, e);
    ExprAccounts(value.gen, e, value.reg);
    HoldsKept(g, value.gen, env, base, s, s, {});
    ExprCorrect(value.gen, e, value.reg, env, base, s);
    var s1 := RunStraight(ec.code, s);
    var index := Take(ec.gen).value;
    TakeShrinks(ec.gen);
    HoldsKept(g, index.gen, env, base, s, s1, value.gen.free + {value.reg});
    var address := AddressCorrect(index.gen, p, index.reg, env, base, s1);
    AddressOfInFrame(g, p, env, base, s);
    var ac := GenAddress(index.gen, p, index.reg).value;
    RunConcat(ec.code, ac, s);
    ThenStore(ec.code + ac, value.reg, index.reg, 0, address, w, g.free, s);
    StoreReaches(g, GenAssign(g, p, e).value.gen, GenAssign(g, p, e).value.code, env, p, w, address, base, s);
  }

  /** Load, add one or subtract one, store. */
  lemma BumpRuns(operand: Reg, dest: Reg, imm: int, up: bool, address: Word, free: set<Reg>, s: Store)
    requires operand in free && dest in free && operand != 0 && dest != 0 && SP !in free
    requires s.regs[SP] + imm == address
    ensures var step := if up then 1 else -1;
            var s2 := RunStraight([Op(Lw(operand, SP, imm)), Op(AluImm(ADDI, dest, operand, step)),
                                   Op(Sw(dest, SP, imm))], s);
            Same(s.regs, s2.regs, free) && s2.mem == s.mem[address := Wrap(Load(s.mem, address) + step)]
  {
    var a, b := Op(Lw(operand, SP, imm)), Op(AluImm(ADDI, dest, operand, if up then 1 else -1));
    var c := Op(Sw(dest, SP, imm));
    RunCons(a, [b] + [c], s);
    RunCons(b, [c], LineEffect(a, s));
    RunOne(c, LineEffect(b, LineEffect(a, s)));
    assert [a, b, c] == [a] + ([b] + [c]);
  }

  lemma BumpCorrect(g: Gen, x: string, up: bool, env: Env, base: int, s: Store)
    requires GenBump(g, x, up).Success? && Holds(g, env, base, s)
    requires RunSimple(UnsignedOrder, Bump(x, up), env).Some?
    ensures var r := GenBump(g, x, up).value;
            Reaches(g, r.gen, r.code, RunSimple(UnsignedOrder, Bump(x, up), env).value, base, s)
  {
    hide Holds, Reaches, AddressOf, Laid, FindScope, Resolves, Take;
    HoldsBasics(g, env, base, s);
    TakeShrinks(g);
    var operand := Take(g).value;
    TakeShrinks(operand.gen);
    var dest := Take(operand.gen).value;
    var r := GenBump(g, x, up).value;
    var p := Place(x, []);
    var w := Wrap(ReadPlace(env, p).value + if up then 1 else -1);
    SimpleAccounts(g, Bump(x, up));
    ReadAddress(g, p, env, base, s);
    AddressOfInFrame(g, p, env, base, s);
    var address := AddressOf(g.scopes, p, base);
    BumpRuns(operand.reg, dest.reg, Lookup(g, x).value.offset - 4, up, address, g.free, s);
    StoreReaches(g, r.gen, r.code, env, p, w, address, base, s);
  }

  /** An expression statement turns memory that holds `env` into memory that holds its outcome. */
  lemma SimpleCorrect(g: Gen, x: Simple, env: Env, base: int, s: Store)
    requires GenSimple(g, x).Success? && Holds(g, env, base, s)
    requires RunSimple(UnsignedOrder, x, env).Some?
    ensures var r := GenSimple(g, x).value;
            Reaches(g, r.gen, r.code, RunSimple(UnsignedOrder, x, env).value, base, s)
  {
    match x
    case Nop =>
    case Eval(e) =>
      SimpleAccounts(g, x);
      ExprCorrect(g, e, 0, env, base, s);
    case Assign(p, e) =>
      if p.idx == [] {
        AssignScalar(g, p, e, env, base, s);
      } else {
        AssignElement(g, p, e, env, base, s);
      }
    case Bump(name, up) =>
      BumpCorrect(g, name, up, env, base, s);
  }

  // ----- Declarations -----

  lemma DeclCorrect(g: Gen, d: Declarator, env: Env, base: int, s: Store)
    requires GenDecl(g, d).Success? && Holds(g, env, base, s)
    requires TopOf(g) + 4 * Size(Dims(d)) <= g.total
    requires RunDecl(UnsignedOrder, d, env).Some?
    ensures var r := GenDecl(g, d).value;
            && Reaches(g, r.gen, r.code, RunDecl(UnsignedOrder, d, env).value, base, s)
            && TopOf(r.gen) == TopOf(g) + 4 * Size(Dims(d))
  {
    var h := Allocate(g, d);
    AllocateLaid(g, d, base);
    AllocateMatches(g, d, env, base, s.mem);
    assert Holds(h, Declare(d, env), base, s);
    if d.Scalar? && d.init.Some? {
      AssignAccounts(h, Place(d.name, []), d.init.value);
      AssignScalar(h, Place(d.name, []), d.init.value, Declare(d, env), base, s);
    }
  }

  lemma {:induction false} DeclsCorrect(g: Gen, ds: seq<Declarator>, env: Env, base: int, s: Store)
    requires GenDecls(g, ds).Success? && Holds(g, env, base, s)
    requires TopOf(g) + 4 * DeclWords(ds) <= g.total
    requires RunDecls(UnsignedOrder, ds, env).Some?
    ensures var r := GenDecls(g, ds).value;
            && Reaches(g, r.gen, r.code, RunDecls(UnsignedOrder, ds, env).value, base, s)
            && TopOf(r.gen) == TopOf(g) + 4 * DeclWords(ds)
    decreases ds
  {
    if ds != [] {
      var first := GenDecl(g, ds[0]).value;
      DeclAccounts(g, ds[0]);
      DeclCorrect(g, ds[0], env, base, s);
      var next := RunDecl(UnsignedOrder, ds[0], env).value;
      DeclsCorrect(first.gen, ds[1..], next, base, RunStraight(first.code, s));
      RunConcat(first.code, GenDecls(first.gen, ds[1..]).value.code, s);
    }
  }
}
