/**
 What emission does to the generator's own state: registers, labels and label stacks.
 */
module Accounting {
  import opened Wrappers
  import opened Isa
  import opened Asm
  import opened Source
  import opened Generator

  // ----- Registers -----

  /** Registers an expression never gives back: one for each `==`. */
  function ExprLeaks(e: Expr): nat {
    match e
    case Bin(op, l, r) => ExprLeaks(l) + ExprLeaks(r) + if op.Equal? then 1 else 0
    case _ => 0
  }

  function SimpleLeaks(s: Simple): nat {
    match s
    case Assign(_, e) => ExprLeaks(e)
    case Eval(e) => ExprLeaks(e)
    case Bump(_, _) => 1
    case Nop => 0
  }

  function DeclLeaks(d: Declarator): nat {
    if d.Scalar? && d.init.Some? then ExprLeaks(d.init.value) else 0
  }

  function DeclsLeaks(ds: seq<Declarator>): nat {
    if ds == [] then 0 else DeclLeaks(ds[0]) + DeclsLeaks(ds[1..])
  }

  /** One register for each `==` and one for each `++` or `--` in a statement. */
  function Leaks(s: Stmt): nat
    decreases s, 1
  {
    match s
    case Do(simple) => SimpleLeaks(simple)
    case Block(decls, body) => DeclsLeaks(Flatten(decls)) + AllLeaks(body)
    case If(cond, thn, els) =>
      ExprLeaks(cond) + Leaks(thn) + if els.Some? then Leaks(els.value) else 0
    case While(cond, loop) => ExprLeaks(cond) + Leaks(loop)
    case For(init, test, update, loop) =>
      SimpleLeaks(init) + (if test.Some? then ExprLeaks(test.value) else 0) + Leaks(loop)
      + if update.Some? then SimpleLeaks(update.value) else 0
    case Return(e) => if e.Some? then ExprLeaks(e.value) else 0
    case _ => 0
  }

  function AllLeaks(ss: seq<Stmt>): nat
    decreases ss, 0
  {
    if ss == [] then 0 else Leaks(ss[0]) + AllLeaks(ss[1..])
  }

  /** `g2` is `g` with some registers taken for good and `leaks` of them. */
  predicate Shrunk(g: Gen, g2: Gen, leaks: nat) {
    g2.free <= g.free && |g2.free| + leaks == |g.free|
  }

  lemma TakeShrinks(g: Gen)
    requires Take(g).Success?
    ensures Shrunk(g, Take(g).value.gen, 1)
    ensures Take(g).value.reg in g.free && Take(g).value.reg !in Take(g).value.gen.free
    ensures Take(g).value.gen == g.(free := g.free - {Take(g).value.reg})
  {
  }

  /** Giving back a register taken from `g` undoes that taking, whatever else was kept. */
  lemma ReleaseRestores(g: Gen, r: Reg, g2: Gen, leaks: nat)
    requires r in g.free && Shrunk(g.(free := g.free - {r}), g2, leaks)
    ensures Shrunk(g, Release(g2, r), leaks)
  {
    assert |g.free - {r}| == |g.free| - 1;
    assert r !in g2.free;
  }

  lemma ConcatStraight(a: seq<Line>, b: seq<Line>)
    requires AllStraight(a) && AllStraight(b)
    ensures AllStraight(a + b)
  {
  }

  lemma ReadAccounts(g: Gen, p: Place, dest: Reg)
    requires GenRead(g, p, dest).Success?
    ensures var r := GenRead(g, p, dest).value; r.gen == g && AllStraight(r.code)
  {
    if p.idx != [] {
      var index := Take(g).value;
      assert Release(index.gen, index.reg).free == g.free;
    }
  }

  /**
   An expression changes nothing of the context but the pool: the registers it keeps are taken
   from the free ones, exactly one for each `==`. Its code has no label and no jump.
   */
  lemma {:induction false} ExprAccounts(g: Gen, e: Expr, dest: Reg)
    requires GenExpr(g, e, dest).Success?
    ensures var r := GenExpr(g, e, dest).value;
            r.gen == g.(free := r.gen.free) && Shrunk(g, r.gen, ExprLeaks(e)) && AllStraight(r.code)
    decreases e
  {
    match e
    case Const(_) =>
    case Read(p) => ReadAccounts(g, p, dest);
    case Bin(op, l, r) =>
      var left, lc, right, rc, last := BinParts(g, e, dest);
      ExprAccounts(left.gen, l, left.reg);
      ExprAccounts(right.gen, r, right.reg);
      BinCombine(g, left.reg, lc, right.reg, rc, last, ExprLeaks(l),
                 ExprLeaks(r), if op.Equal? then 1 else 0);
      ConcatStraight(lc.code, rc.code);
      ConcatStraight(lc.code + rc.code, [Op(Alu(OpOf(op), dest, left.reg, right.reg))]);
  }

  lemma BinCombine(g: Gen, l: Reg, lc: Emitted, r: Reg, rc: Emitted, last: Gen,
                   i: nat, j: nat, k: nat)
    requires l in g.free && lc.gen == g.(free := lc.gen.free)
    requires Shrunk(g.(free := g.free - {l}), lc.gen, i)
    requires r in lc.gen.free && rc.gen == g.(free := rc.gen.free)
    requires Shrunk(lc.gen.(free := lc.gen.free - {r}), rc.gen, j)
    requires last == g.(free := last.free) && Shrunk(rc.gen, last, k)
    ensures var done := Release(Release(last, r), l);
            done == g.(free := done.free) && Shrunk(g, done, i + j + k)
  {
    ReleaseRestores(lc.gen, r, last, j + k);
    ReleaseRestores(g, l, Release(last, r), i + (j + k));
  }

  lemma AddressStraight(g: Gen, p: Place, ir: Reg)
    requires GenAddress(g, p, ir).Success?
    ensures AllStraight(GenAddress(g, p, ir).value)
  {
  }

  lemma AssignAccounts(g: Gen, p: Place, e: Expr)
    requires GenAssign(g, p, e).Success?
    ensures var r := GenAssign(g, p, e).value;
            r.gen == g.(free := r.gen.free) && Shrunk(g, r.gen, ExprLeaks(e)) && AllStraight(r.code)
  {
    hide FirstFree, FindScope, GenAddress, GenExpr;
    var value := Take(g).value;
    var ec := GenExpr(value.gen, e, value.reg).value;
    ExprAccounts(value.gen, e, value.reg);
    ReleaseRestores(g, value.reg, ec.gen, ExprLeaks(e));
    if p.idx == [] {
      ConcatStraight(ec.code, [Op(Sw(value.reg, SP, Lookup(g, p.name).value.offset - 4))]);
    } else {
      var index := Take(ec.gen).value;
      TakeRelease(ec.gen);
      var address := GenAddress(index.gen, p, index.reg).value;
      AddressStraight(index.gen, p, index.reg);
      ConcatStraight(ec.code, address);
      ConcatStraight(ec.code + address, [Op(Sw(value.reg, index.reg, 0))]);
    }
  }

  lemma TakeRelease(g: Gen)
    requires Take(g).Success?
    ensures Release(Take(g).value.gen, Take(g).value.reg) == g
  {
    assert g.free - {Take(g).value.reg} + {Take(g).value.reg} == g.free;
  }

  lemma SimpleAccounts(g: Gen, s: Simple)
    requires GenSimple(g, s).Success?
    ensures var r := GenSimple(g, s).value;
            r.gen == g.(free := r.gen.free) && Shrunk(g, r.gen, SimpleLeaks(s)) && AllStraight(r.code)
  {
    match s
    case Nop =>
    case Eval(e) => ExprAccounts(g, e, 0);
    case Assign(p, e) => AssignAccounts(g, p, e);
    case Bump(x, up) =>
      var operand := Take(g).value;
      var dest := Take(operand.gen).value;
      TakeShrinks(operand.gen);
      ReleaseRestores(g, operand.reg, dest.gen, 1);
  }

  // ----- Labels -----

  /** How many lines define a label. */
  function Count(code: seq<Line>, l: Label): nat {
    if code == [] then 0 else (if code[0] == Mark(l) then 1 else 0) + Count(code[1..], l)
  }

  lemma {:induction false} CountConcat(a: seq<Line>, b: seq<Line>, l: Label)
    ensures Count(a + b, l) == Count(a, l) + Count(b, l)
  {
    if a == [] {
      assert a + b == b;
    } else {
      assert (a + b)[0] == a[0] && (a + b)[1..] == a[1..] + b;
      CountConcat(a[1..], b, l);
    }
  }

  lemma {:induction false} CountStraight(code: seq<Line>, l: Label)
    requires AllStraight(code)
    ensures Count(code, l) == 0
  {
    if code != [] {
      assert Straight(code[0]);
      CountStraight(code[1..], l);
    }
  }

  lemma CountOne(line: Line, l: Label)
    ensures Count([line], l) == if line == Mark(l) then 1 else 0
  {
    assert [line][1..] == [];
  }

  lemma CountTwo(line: Line, next: Line, l: Label)
    ensures Count([line, next], l)
         == (if line == Mark(l) then 1 else 0) + (if next == Mark(l) then 1 else 0)
  {
    assert [line, next] == [line] + [next];
    CountConcat([line], [next], l);
    CountOne(line, l);
    CountOne(next, l);
  }

  /** Each label defined is defined once and carries a number in a range of the counter. */
  ghost predicate Within(code: seq<Line>, lo: nat, hi: nat) {
    forall l :: Count(code, l) > 0 ==> Count(code, l) == 1 && l.Numbered? && lo <= l.number < hi
  }

  lemma WithinConcat(a: seq<Line>, b: seq<Line>, lo: nat, mid: nat, hi: nat)
    requires Within(a, lo, mid) && Within(b, mid, hi) && lo <= mid <= hi
    ensures Within(a + b, lo, hi)
  {
    forall l | Count(a + b, l) > 0
      ensures Count(a + b, l) == 1 && l.Numbered? && lo <= l.number < hi
    {
      CountConcat(a, b, l);
    }
  }

  lemma WithinStraight(code: seq<Line>, lo: nat, hi: nat)
    requires AllStraight(code)
    ensures Within(code, lo, hi)
  {
    forall l ensures Count(code, l) == 0 {
      CountStraight(code, l);
    }
  }

  lemma IfCount(cond: seq<Line>, r: Reg, n: nat, thn: seq<Line>, els: seq<Line>, l: Label)
    requires AllStraight(cond)
    ensures Count(IfCode(cond, r, n, thn, els), l)
         == Count(thn, l) + Count(els, l) + (if l == Numbered("else", n) then 1 else 0)
            + (if l == Numbered("end_if", n + 1) then 1 else 0)
  {
    var branch := [BeqzTo(r, Numbered("else", n))];
    var mid := [JumpTo(Numbered("end_if", n + 1)), Mark(Numbered("else", n))];
    var end := [Mark(Numbered("end_if", n + 1))];
    CountStraight(cond, l);
    CountOne(branch[0], l);
    CountTwo(mid[0], mid[1], l);
    CountOne(end[0], l);
    CountConcat(cond, branch, l);
    CountConcat(cond + branch, thn, l);
    CountConcat(cond + branch + thn, mid, l);
    CountConcat(cond + branch + thn + mid, els, l);
    CountConcat(cond + branch + thn + mid + els, end, l);
  }

  lemma WhileCount(start: Label, end: Label, cond: seq<Line>, r: Reg, loop: seq<Line>, l: Label)
    requires AllStraight(cond)
    ensures Count(WhileCode(start, end, cond, r, loop), l)
         == Count(loop, l) + (if l == start then 1 else 0) + (if l == end then 1 else 0)
  {
    var first, branch, last := [Mark(start)], [BeqzTo(r, end)], [JumpTo(start), Mark(end)];
    CountStraight(cond, l);
    CountOne(first[0], l);
    CountOne(branch[0], l);
    CountTwo(last[0], last[1], l);
    CountConcat(first, cond, l);
    CountConcat(first + cond, branch, l);
    CountConcat(first + cond + branch, loop, l);
    CountConcat(first + cond + branch + loop, last, l);
  }

  lemma ForCount(n: nat, test: seq<Line>, loop: seq<Line>, update: seq<Line>, l: Label)
    requires Count(test, l) == 0 && AllStraight(update)
    ensures Count(ForCode(n, test, loop, update), l)
         == Count(loop, l) + (if l == Numbered("for_start", n) then 1 else 0)
            + (if l == Numbered("for_end", n + 1) then 1 else 0)
            + (if l == Numbered("for_update", n + 2) then 1 else 0)
  {
    var first, mid := [Mark(Numbered("for_start", n))], [Mark(Numbered("for_update", n + 2))];
    var last := [JumpTo(Numbered("for_start", n)), Mark(Numbered("for_end", n + 1))];
    CountStraight(update, l);
    CountOne(first[0], l);
    CountOne(mid[0], l);
    CountTwo(last[0], last[1], l);
    CountConcat(first, test, l);
    CountConcat(first + test, loop, l);
    CountConcat(first + test + loop, mid, l);
    CountConcat(first + test + loop + mid, update, l);
    CountConcat(first + test + loop + mid + update, last, l);
  }

  // ----- Declarations -----

  /** Outer scopes and offsets are untouched; only the innermost ones may differ. */
  predicate SameOuter(g: Gen, g2: Gen) {
    && |g.scopes| == |g2.scopes| && |g.offsets| == |g2.offsets|
    && Pop(g.scopes) == Pop(g2.scopes) && Pop(g.offsets) == Pop(g2.offsets)
    && g2 == g.(free := g2.free, scopes := g2.scopes, offsets := g2.offsets)
  }

  lemma DeclAccounts(g: Gen, d: Declarator)
    requires GenDecl(g, d).Success?
    ensures var r := GenDecl(g, d).value;
            SameOuter(g, r.gen) && Shrunk(g, r.gen, DeclLeaks(d)) && AllStraight(r.code)
  {
    if d.Scalar? && d.init.Some? {
      AssignAccounts(Allocate(g, d), Place(d.name, []), d.init.value);
    }
  }

  lemma {:induction false} DeclsAccounts(g: Gen, ds: seq<Declarator>)
    requires GenDecls(g, ds).Success?
    ensures var r := GenDecls(g, ds).value;
            SameOuter(g, r.gen) && Shrunk(g, r.gen, DeclsLeaks(ds)) && AllStraight(r.code)
    decreases ds
  {
    if ds != [] {
      var first := GenDecl(g, ds[0]).value;
      DeclAccounts(g, ds[0]);
      DeclsAccounts(first.gen, ds[1..]);
      ConcatStraight(first.code, GenDecls(first.gen, ds[1..]).value.code);
    }
  }

  // ----- Statements -----

  /** Everything of the context but the pool and the label counter is as before. */
  predicate Kept(g: Gen, g2: Gen) {
    g2 == g.(free := g2.free, counter := g2.counter) && g.counter <= g2.counter
  }

  ghost predicate Accounted(g: Gen, r: Emitted, leaks: nat) {
    Kept(g, r.gen) && Shrunk(g, r.gen, leaks) && Within(r.code, g.counter, r.gen.counter)
  }

  lemma StraightAccounted(g: Gen, r: Emitted, leaks: nat)
    requires r.gen == g.(free := r.gen.free) && Shrunk(g, r.gen, leaks) && AllStraight(r.code)
    ensures Accounted(g, r, leaks)
  {
    WithinStraight(r.code, g.counter, g.counter);
  }

  lemma JumpAccounted(g: Gen, e: Emitted, l: Label, leaks: nat)
    requires e.gen == g.(free := e.gen.free) && Shrunk(g, e.gen, leaks) && AllStraight(e.code)
    ensures Accounted(g, Emitted(e.code + [JumpTo(l)], e.gen), leaks)
  {
    forall m ensures Count(e.code + [JumpTo(l)], m) == 0 {
      CountConcat(e.code, [JumpTo(l)], m);
      CountStraight(e.code, m);
      CountOne(JumpTo(l), m);
    }
  }

  function TestLeaks(test: Option<Expr>): nat {
    if test.Some? then ExprLeaks(test.value) else 0
  }

  lemma TestAccounts(g: Gen, test: Option<Expr>, end: Label)
    requires GenTest(g, test, end).Success?
    ensures var r := GenTest(g, test, end).value;
            && r.gen == g.(free := r.gen.free) && Shrunk(g, r.gen, TestLeaks(test))
            && forall l :: Count(r.code, l) == 0
  {
    if test.Some? {
      var c := Take(g).value;
      var cc := GenExpr(c.gen, test.value, c.reg).value;
      ExprAccounts(c.gen, test.value, c.reg);
      ReleaseRestores(g, c.reg, cc.gen, ExprLeaks(test.value));
      forall l ensures Count(cc.code + [BeqzTo(c.reg, end)], l) == 0 {
        CountConcat(cc.code, [BeqzTo(c.reg, end)], l);
        CountStraight(cc.code, l);
        CountOne(BeqzTo(c.reg, end), l);
      }
    }
  }

  lemma UpdateAccounts(g: Gen, update: Option<Simple>)
    requires GenUpdate(g, update).Success?
    ensures var r := GenUpdate(g, update).value;
            && r.gen == g.(free := r.gen.free) && AllStraight(r.code)
            && Shrunk(g, r.gen, if update.Some? then SimpleLeaks(update.value) else 0)
  {
    if update.Some? {
      SimpleAccounts(g, update.value);
    }
  }

  /** `break`, `continue` and a bare `return` are one jump each, and take nothing. */
  lemma JumpsAlone(g: Gen, s: Stmt)
    requires s == Break || s == Continue || s == Return(None)
    ensures GenStmt(g, s).Success? ==>
              GenStmt(g, s).value.gen == g && |GenStmt(g, s).value.code| == 1 && GenStmt(g, s).value.code[0].JumpTo?
    ensures GenStmt(g, Return(None)) == Success(Emitted([JumpTo(g.functionEnd)], g))
  {
    assert [] + [JumpTo(g.functionEnd)] == [JumpTo(g.functionEnd)];
  }

  /**
   Every statement restores both label stacks, the scopes and the stack offsets; keeps exactly one
   register for each `==`, `++` and `--`; and defines each of its labels once, with numbers from
   its own stretch of the counter.
   */
  lemma {:induction false} StmtAccounts(g: Gen, s: Stmt)
    requires GenStmt(g, s).Success?
    ensures Accounted(g, GenStmt(g, s).value, Leaks(s))
    decreases s, 1
  {
    match s
    case Do(simple) =>
      SimpleAccounts(g, simple);
      StraightAccounted(g, GenStmt(g, s).value, Leaks(s));
    case Block(decls, body) => BlockAccounts(g, s);
    case If(cond, thn, els) => IfAccounts(g, s);
    case While(cond, loop) => WhileAccounts(g, s);
    case For(init, test, update, loop) => ForAccounts(g, s);
    case Break =>
      JumpAccounted(g, Emitted([], g), g.ends[|g.ends| - 1], 0);
      assert [] + [JumpTo(g.ends[|g.ends| - 1])] == [JumpTo(g.ends[|g.ends| - 1])];
    case Continue =>
      JumpAccounted(g, Emitted([], g), g.starts[|g.starts| - 1], 0);
      assert [] + [JumpTo(g.starts[|g.starts| - 1])] == [JumpTo(g.starts[|g.starts| - 1])];
    case Return(e) =>
      if e.Some? {
        ExprAccounts(g, e.value, S1);
        JumpAccounted(g, GenExpr(g, e.value, S1).value, g.functionEnd, Leaks(s));
      } else {
        JumpAccounted(g, Emitted([], g), g.functionEnd, 0);
      }
  }

  lemma {:induction false} AllAccounts(g: Gen, ss: seq<Stmt>)
    requires GenAll(g, ss).Success?
    ensures Accounted(g, GenAll(g, ss).value, AllLeaks(ss))
    decreases ss, 0
  {
    if ss == [] {
      StraightAccounted(g, Emitted([], g), 0);
    } else {
      var first := GenStmt(g, ss[0]).value;
      StmtAccounts(g, ss[0]);
      AllAccounts(first.gen, ss[1..]);
      var rest := GenAll(first.gen, ss[1..]).value;
      WithinConcat(first.code, rest.code, g.counter, first.gen.counter, rest.gen.counter);
    }
  }

  lemma {:induction false} BlockAccounts(g: Gen, s: Stmt)
    requires s.Block? && GenStmt(g, s).Success?
    ensures Accounted(g, GenStmt(g, s).value, Leaks(s))
    decreases s, 0
  {
    var inner, dc, bc := BlockParts(g, s);
    DeclsAccounts(inner, Flatten(s.decls));
    AllAccounts(dc.gen, s.body);
    WithinStraight(dc.code, g.counter, g.counter);
    WithinConcat(dc.code, bc.code, g.counter, g.counter, bc.gen.counter);
    assert Pop(inner.scopes) == g.scopes && Pop(inner.offsets) == g.offsets;
  }

  lemma {:induction false} ElseAccounts(g: Gen, els: Option<Stmt>)
    requires GenElse(g, els).Success?
    ensures Accounted(g, GenElse(g, els).value, if els.Some? then Leaks(els.value) else 0)
    decreases els, 2
  {
    if els.Some? {
      StmtAccounts(g, els.value);
    } else {
      StraightAccounted(g, Emitted([], g), 0);
    }
  }

  lemma IfWithin(cond: seq<Line>, r: Reg, n: nat, thn: seq<Line>, els: seq<Line>, mid: nat, hi: nat)
    requires AllStraight(cond) && n + 2 <= mid <= hi
    requires Within(thn, n + 2, mid) && Within(els, mid, hi)
    ensures Within(IfCode(cond, r, n, thn, els), n, hi)
  {
    var code := IfCode(cond, r, n, thn, els);
    forall l | Count(code, l) > 0
      ensures Count(code, l) == 1 && l.Numbered? && n <= l.number < hi
    {
      IfCount(cond, r, n, thn, els, l);
    }
  }

  /** Kept and Shrunk compose along a statement that holds one register throughout. */
  lemma HeldAccounts(g: Gen, r: Reg, first: Gen, last: Gen, m: nat, n: nat)
    requires r in g.free && Kept(g, first) && Shrunk(g.(free := g.free - {r}), first, m)
    requires Kept(first, last) && Shrunk(first, last, n)
    ensures Kept(g, Release(last, r)) && Shrunk(g, Release(last, r), m + n)
  {
    ReleaseRestores(g, r, last, m + n);
  }

  lemma {:induction false} IfAccounts(g: Gen, s: Stmt)
    requires s.If? && GenStmt(g, s).Success?
    ensures Accounted(g, GenStmt(g, s).value, Leaks(s))
    decreases s, 0
  {
    var c, cc, tc, ec := IfParts(g, s);
    ExprAccounts(c.gen, s.cond, c.reg);
    StmtAccounts(cc.gen.(counter := cc.gen.counter + 2), s.thn);
    ElseAccounts(tc.gen, s.els);
    IfCombine(g, c.reg, cc, tc, ec, ExprLeaks(s.cond), Leaks(s.thn),
              if s.els.Some? then Leaks(s.els.value) else 0);
  }

  lemma IfCombine(g: Gen, r: Reg, cc: Emitted, tc: Emitted, ec: Emitted, i: nat, j: nat, k: nat)
    requires r in g.free && cc.gen == g.(free := cc.gen.free) && AllStraight(cc.code)
    requires Shrunk(g.(free := g.free - {r}), cc.gen, i)
    requires Accounted(cc.gen.(counter := g.counter + 2), tc, j) && Accounted(tc.gen, ec, k)
    ensures Accounted(g, Emitted(IfCode(cc.code, r, g.counter, tc.code, ec.code),
                                 Release(ec.gen, r)), i + j + k)
  {
    HeldAccounts(g, r, cc.gen, ec.gen, i, j + k);
    IfWithin(cc.code, r, g.counter, tc.code, ec.code, tc.gen.counter, ec.gen.counter);
  }

  lemma WhileWithin(n: nat, cond: seq<Line>, r: Reg, loop: seq<Line>, hi: nat)
    requires AllStraight(cond) && n + 2 <= hi && Within(loop, n + 2, hi)
    ensures Within(WhileCode(Numbered("loop_start", n), Numbered("loop_end", n + 1), cond, r, loop),
                   n, hi)
  {
    var start, end := Numbered("loop_start", n), Numbered("loop_end", n + 1);
    var code := WhileCode(start, end, cond, r, loop);
    forall l | Count(code, l) > 0
      ensures Count(code, l) == 1 && l.Numbered? && n <= l.number < hi
    {
      WhileCount(start, end, cond, r, loop, l);
    }
  }

  lemma {:induction false} WhileAccounts(g: Gen, s: Stmt)
    requires s.While? && GenStmt(g, s).Success?
    ensures Accounted(g, GenStmt(g, s).value, Leaks(s))
    decreases s, 0
  {
    var c, cc, bc := WhileParts(g, s);
    ExprAccounts(c.gen, s.cond, c.reg);
    StmtAccounts(cc.gen, s.loop);
    WhileCombine(g, c.reg, cc, bc, ExprLeaks(s.cond), Leaks(s.loop));
  }

  lemma WhileCombine(g: Gen, r: Reg, cc: Emitted, bc: Emitted, i: nat, j: nat)
    requires r in g.free && cc.gen == WhileOpen(g).(free := cc.gen.free) && AllStraight(cc.code)
    requires Shrunk(g.(free := g.free - {r}), cc.gen, i) && Accounted(cc.gen, bc, j)
    ensures Accounted(g, Emitted(
              WhileCode(Numbered("loop_start", g.counter), Numbered("loop_end", g.counter + 1),
                        cc.code, r, bc.code), PopLoop(Release(bc.gen, r))), i + j)
  {
    HeldAccounts(WhileOpen(g), r, cc.gen, bc.gen, i, j);
    WhileWithin(g.counter, cc.code, r, bc.code, bc.gen.counter);
    assert Pop(WhileOpen(g).starts) == g.starts && Pop(WhileOpen(g).ends) == g.ends;
  }

  lemma ForWithin(n: nat, init: seq<Line>, test: seq<Line>, loop: seq<Line>, update: seq<Line>, hi: nat)
    requires AllStraight(init) && AllStraight(update) && forall l :: Count(test, l) == 0
    requires n + 3 <= hi && Within(loop, n + 3, hi)
    ensures Within(init + ForCode(n, test, loop, update), n, hi)
  {
    var code := ForCode(n, test, loop, update);
    forall l | Count(code, l) > 0
      ensures Count(code, l) == 1 && l.Numbered? && n <= l.number < hi
    {
      ForCount(n, test, loop, update, l);
    }
    WithinStraight(init, n, n);
    WithinConcat(init, code, n, n, hi);
  }

  lemma {:induction false} ForAccounts(g: Gen, s: Stmt)
    requires s.For? && GenStmt(g, s).Success?
    ensures Accounted(g, GenStmt(g, s).value, Leaks(s))
    decreases s, 0
  {
    var ic, tc, bc, uc := ForParts(g, s);
    SimpleAccounts(ForOpen(g), s.init);
    TestAccounts(ic.gen, s.test, Numbered("for_end", g.counter + 1));
    StmtAccounts(tc.gen, s.loop);
    UpdateAccounts(bc.gen, s.update);
    ForCombine(g, ic, tc, bc, uc, SimpleLeaks(s.init), TestLeaks(s.test), Leaks(s.loop),
               if s.update.Some? then SimpleLeaks(s.update.value) else 0);
  }

  lemma ForCombine(g: Gen, ic: Emitted, tc: Emitted, bc: Emitted, uc: Emitted,
                   i: nat, j: nat, k: nat, m: nat)
    requires ic.gen == ForOpen(g).(free := ic.gen.free) && Shrunk(ForOpen(g), ic.gen, i)
    requires tc.gen == ic.gen.(free := tc.gen.free) && Shrunk(ic.gen, tc.gen, j)
    requires Accounted(tc.gen, bc, k)
    requires uc.gen == bc.gen.(free := uc.gen.free) && Shrunk(bc.gen, uc.gen, m)
    requires AllStraight(ic.code) && AllStraight(uc.code) && forall l :: Count(tc.code, l) == 0
    ensures Accounted(g, Emitted(ic.code + ForCode(g.counter, tc.code, bc.code, uc.code),
                                 PopLoop(uc.gen)), i + j + k + m)
  {
    ForWithin(g.counter, ic.code, tc.code, bc.code, uc.code, uc.gen.counter);
    assert Pop(ic.gen.starts) == g.starts && Pop(ic.gen.ends) == g.ends;
  }
}
