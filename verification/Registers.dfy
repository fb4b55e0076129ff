/**
 Exactly when code can be emitted: every name is known and the register pool is large enough. For
 expressions, for statements, and for whole functions.
 */
module Registers {
  import opened Words
  import opened Wrappers
  import opened Isa
  import opened Asm
  import opened Source
  import opened Generator
  import opened Accounting

  // ----- Names -----

  /** What emission has to know of a visible name: nothing of a scalar, of an array how many bounds. */
  datatype Kind = IsScalar | IsArray(bounds: nat)

  type Names = seq<map<string, Kind>>

  function KindOf(v: Variable): Kind {
    if v.isArray then IsArray(|v.dims|) else IsScalar
  }

  function Scope(m: map<string, Variable>): map<string, Kind> {
    map x | x in m :: KindOf(m[x])
  }

  function NamesOf(scopes: Scopes): (names: Names)
    ensures |names| == |scopes|
  {
    seq(|scopes|, i requires 0 <= i < |scopes| => Scope(scopes[i]))
  }

  lemma {:induction false} SameIndex(scopes: Scopes, x: string)
    ensures FindScope(NamesOf(scopes), x) == FindScope(scopes, x)
    decreases |scopes|
  {
    if scopes != [] {
      assert NamesOf(scopes)[..|scopes| - 1] == NamesOf(scopes[..|scopes| - 1]);
      SameIndex(scopes[..|scopes| - 1], x);
    }
  }

  /** The name is declared, and indices are put to arrays with enough bounds. */
  predicate Known(names: Names, p: Place) {
    var i := FindScope(names, p.name);
    && i >= 0
    && (p.idx != [] ==> names[i][p.name].IsArray? && (|p.idx| == 2 ==> names[i][p.name].bounds >= 2))
  }

  predicate Resolvable(names: Names, e: Expr) {
    match e
    case Const(_) => true
    case Read(p) => Known(names, p)
    case Bin(_, l, r) => Resolvable(names, l) && Resolvable(names, r)
  }

  // ----- Expressions -----

  /**
   The registers an expression needs free besides its destination. Every `==` inside the left
   operand is still holding a register when the right one is emitted.
   */
  function Need(e: Expr): nat {
    match e
    case Const(_) => 0
    case Read(p) => if p.idx == [] then 0 else 2
    case Bin(op, l, r) =>
      var operands := Max(1 + Need(l), 2 + ExprLeaks(l) + Need(r));
      if op.Equal? then Max(operands, 3 + ExprLeaks(l) + ExprLeaks(r)) else operands
  }

  lemma TakeExact(g: Gen)
    requires g.free <= POOL
    ensures Take(g).Success? <==> |g.free| > 0
    ensures Take(g).Success? ==>
              Take(g).value.gen == g.(free := Take(g).value.gen.free)
              && |Take(g).value.gen.free| == |g.free| - 1 && Take(g).value.gen.free <= POOL
  {
    if |g.free| > 0 {
      var r :| r in g.free;
      assert r in POOL;
    } else {
      assert g.free == {};
    }
  }

  lemma LookupExact(g: Gen, p: Place)
    ensures Lookup(g, p.name).Success? <==> Known(NamesOf(g.scopes), Place(p.name, []))
    ensures Known(NamesOf(g.scopes), p) <==>
              && Lookup(g, p.name).Success?
              && var v := Lookup(g, p.name).value;
              p.idx != [] ==> v.isArray && (|p.idx| == 2 ==> |v.dims| >= 2)
  {
    SameIndex(g.scopes, p.name);
  }

  lemma ReadExact(g: Gen, p: Place, dest: Reg)
    requires g.free <= POOL
    ensures GenRead(g, p, dest).Success? <==> Resolvable(NamesOf(g.scopes), Read(p)) && Need(Read(p)) <= |g.free|
  {
    hide Known, FirstFree, FindScope;
    LookupExact(g, p);
    TakeExact(g);
    if p.idx != [] && Take(g).Success? {
      TakeExact(Take(g).value.gen);
    }
  }

  /** Emission of an expression succeeds exactly when its names resolve and the pool suffices. */
  lemma {:induction false} NeedExact(g: Gen, e: Expr, dest: Reg)
    requires g.free <= POOL
    ensures GenExpr(g, e, dest).Success? <==> Resolvable(NamesOf(g.scopes), e) && Need(e) <= |g.free|
    decreases e
  {
    match e
    case Const(_) =>
    case Read(p) => ReadExact(g, p, dest);
    case Bin(op, l, r) =>
      TakeExact(g);
      if Take(g).Success? {
        var left := Take(g).value;
        NeedExact(left.gen, l, left.reg);
        if GenExpr(left.gen, l, left.reg).Success? {
          RightExact(g, left, e, dest);
        }
      }
  }

  lemma {:induction false} RightExact(g: Gen, left: Taken, e: Expr, dest: Reg)
    requires g.free <= POOL && e.Bin? && Take(g) == Success(left)
    requires GenExpr(left.gen, e.left, left.reg).Success?
    requires Resolvable(NamesOf(g.scopes), e.left) && 1 + Need(e.left) <= |g.free|
    ensures GenExpr(g, e, dest).Success? <==> Resolvable(NamesOf(g.scopes), e) && Need(e) <= |g.free|
    decreases e, 0
  {
    hide Resolvable, FirstFree;
    TakeExact(g);
    var lc := GenExpr(left.gen, e.left, left.reg).value;
    ExprAccounts(left.gen, e.left, left.reg);
    TakeExact(lc.gen);
    assert Resolvable(NamesOf(g.scopes), e) == Resolvable(NamesOf(g.scopes), e.right) by {
      ResolvableBin(NamesOf(g.scopes), e);
    }
    if Take(lc.gen).Success? {
      var right := Take(lc.gen).value;
      NeedExact(right.gen, e.right, right.reg);
      if GenExpr(right.gen, e.right, right.reg).Success? {
        ExprAccounts(right.gen, e.right, right.reg);
        TakeExact(GenExpr(right.gen, e.right, right.reg).value.gen);
      }
    }
  }

  lemma ResolvableBin(names: Names, e: Expr)
    requires e.Bin?
    ensures Resolvable(names, e) <==> Resolvable(names, e.left) && Resolvable(names, e.right)
  {
  }

  /** Scalars and constants only, and no `==`: the height of a left-leaning evaluation. */
  predicate Plain(e: Expr) {
    match e
    case Const(_) => true
    case Read(p) => p.idx == []
    case Bin(op, l, r) => !op.Equal? && Plain(l) && Plain(r)
  }

  lemma {:induction false} PlainNeed(e: Expr)
    requires Plain(e)
    ensures ExprLeaks(e) == 0
    ensures Need(e) == if e.Bin? then Max(1 + Need(e.left), 2 + Need(e.right)) else 0
  {
    if e.Bin? {
      PlainNeed(e.left);
      PlainNeed(e.right);
    }
  }

  // ----- Expression statements and declarations -----

  predicate SimpleResolvable(names: Names, s: Simple) {
    match s
    case Nop => true
    case Eval(e) => Resolvable(names, e)
    case Assign(p, e) => Known(names, p) && Resolvable(names, e)
    case Bump(x, _) => Known(names, Place(x, []))
  }

  /** An element store takes two more registers while the value is held. */
  function SimpleNeed(s: Simple): nat {
    match s
    case Nop => 0
    case Eval(e) => Need(e)
    case Assign(p, e) => Max(1 + Need(e), if p.idx == [] then 0 else 3 + ExprLeaks(e))
    case Bump(_, _) => 2
  }

  lemma AssignExact(g: Gen, p: Place, e: Expr)
    requires g.free <= POOL
    ensures GenAssign(g, p, e).Success?
            <==> SimpleResolvable(NamesOf(g.scopes), Assign(p, e)) && SimpleNeed(Assign(p, e)) <= |g.free|
  {
    hide Known, FirstFree, FindScope, GenExpr, Need, Resolvable;
    LookupExact(g, p);
    TakeExact(g);
    if Take(g).Success? {
      var value := Take(g).value;
      NeedExact(value.gen, e, value.reg);
      if GenExpr(value.gen, e, value.reg).Success? {
        var ec := GenExpr(value.gen, e, value.reg).value;
        ExprAccounts(value.gen, e, value.reg);
        TakeExact(ec.gen);
        if Take(ec.gen).Success? {
          TakeExact(Take(ec.gen).value.gen);
        }
      }
    }
  }

  lemma BumpExact(g: Gen, x: string, up: bool)
    requires g.free <= POOL
    ensures GenBump(g, x, up).Success? <==> Known(NamesOf(g.scopes), Place(x, [])) && 2 <= |g.free|
  {
    hide Known, FirstFree, FindScope;
    LookupExact(g, Place(x, []));
    TakeExact(g);
    if Take(g).Success? {
      TakeExact(Take(g).value.gen);
    }
  }

  lemma SimpleExact(g: Gen, s: Simple)
    requires g.free <= POOL
    ensures GenSimple(g, s).Success? <==> SimpleResolvable(NamesOf(g.scopes), s) && SimpleNeed(s) <= |g.free|
  {
    match s
    case Nop =>
    case Eval(e) => NeedExact(g, e, 0);
    case Assign(p, e) => AssignExact(g, p, e);
    case Bump(x, up) => BumpExact(g, x, up);
  }

  function DeclKind(d: Declarator): Kind {
    if d.Array? then IsArray(|d.dims|) else IsScalar
  }

  /** The names once a declarator is among them. */
  function With(names: Names, d: Declarator): (more: Names)
    requires names != []
    ensures |more| == |names|
  {
    names[|names| - 1 := names[|names| - 1][d.name := DeclKind(d)]]
  }

  function WithAll(names: Names, ds: seq<Declarator>): (more: Names)
    requires names != []
    ensures |more| == |names|
    decreases ds
  {
    if ds == [] then names else WithAll(With(names, ds[0]), ds[1..])
  }

  /** An initialiser may use the name that it initialises. */
  predicate DeclsResolvable(names: Names, ds: seq<Declarator>)
    requires names != []
    decreases ds
  {
    ds != [] ==>
      && (ds[0].Scalar? && ds[0].init.Some? ==> Resolvable(With(names, ds[0]), ds[0].init.value))
      && DeclsResolvable(With(names, ds[0]), ds[1..])
  }

  function DeclNeed(d: Declarator): nat {
    if d.Scalar? && d.init.Some? then 1 + Need(d.init.value) else 0
  }

  function DeclsNeed(ds: seq<Declarator>): nat {
    if ds == [] then 0 else Max(DeclNeed(ds[0]), DeclLeaks(ds[0]) + DeclsNeed(ds[1..]))
  }

  lemma NamesAllocate(g: Gen, d: Declarator)
    requires g.scopes != [] && g.offsets != []
    ensures NamesOf(Allocate(g, d).scopes) == With(NamesOf(g.scopes), d)
  {
    var k, h := |g.scopes| - 1, Allocate(g, d);
    assert h.scopes[k] == g.scopes[k][d.name := h.scopes[k][d.name]];
    assert Scope(h.scopes[k]) == Scope(g.scopes[k])[d.name := DeclKind(d)];
  }

  lemma DeclExact(g: Gen, d: Declarator)
    requires g.free <= POOL && g.scopes != [] && g.offsets != []
    ensures GenDecl(g, d).Success?
            <==> DeclsResolvable(NamesOf(g.scopes), [d]) && DeclNeed(d) <= |g.free|
    ensures GenDecl(g, d).Success? ==>
              var h := GenDecl(g, d).value.gen;
              && h.free <= POOL && h.scopes != [] && h.offsets != []
              && |h.free| == |g.free| - DeclLeaks(d) && NamesOf(h.scopes) == With(NamesOf(g.scopes), d)
  {
    hide GenAssign, Allocate, Need, Resolvable;
    var h := Allocate(g, d);
    NamesAllocate(g, d);
    AllocateKeeps(g, d);
    assert DeclsResolvable(With(NamesOf(g.scopes), d), [d][1..]);
    if d.Scalar? && d.init.Some? {
      AssignExact(h, Place(d.name, []), d.init.value);
      if GenDecl(g, d).Success? {
        AssignAccounts(h, Place(d.name, []), d.init.value);
      }
    }
  }

  lemma AllocateKeeps(g: Gen, d: Declarator)
    requires g.scopes != [] && g.offsets != []
    ensures var h := Allocate(g, d);
            h.scopes != [] && h.offsets != [] && h.free == g.free
            && FindScope(With(NamesOf(g.scopes), d), d.name) == |g.scopes| - 1
  {
  }

  lemma {:induction false} DeclsExact(g: Gen, ds: seq<Declarator>)
    requires g.free <= POOL && g.scopes != [] && g.offsets != []
    ensures GenDecls(g, ds).Success?
            <==> DeclsResolvable(NamesOf(g.scopes), ds) && DeclsNeed(ds) <= |g.free|
    ensures GenDecls(g, ds).Success? ==>
              NamesOf(GenDecls(g, ds).value.gen.scopes) == WithAll(NamesOf(g.scopes), ds)
    decreases ds
  {
    hide GenDecl, Resolvable, Need, NamesOf, With;
    if ds != [] {
      DeclExact(g, ds[0]);
      OneResolvable(NamesOf(g.scopes), ds);
      if GenDecl(g, ds[0]).Success? {
        DeclsExact(GenDecl(g, ds[0]).value.gen, ds[1..]);
      }
    }
  }

  lemma OneResolvable(names: Names, ds: seq<Declarator>)
    requires names != [] && ds != []
    ensures DeclsResolvable(names, ds)
            <==> DeclsResolvable(names, [ds[0]]) && DeclsResolvable(With(names, ds[0]), ds[1..])
  {
    hide Resolvable;
    assert [ds[0]][1..] == [];
  }

  // ----- Statements -----

  /** Every name is declared where it is used; `break` and `continue` are inside a loop. */
  predicate StmtResolvable(names: Names, inLoop: bool, s: Stmt)
    decreases s, 1
  {
    match s
    case Do(simple) => SimpleResolvable(names, simple)
    case Block(decls, body) =>
      DeclsResolvable(names + [map[]], Flatten(decls))
      && AllResolvable(WithAll(names + [map[]], Flatten(decls)), inLoop, body)
    case If(cond, thn, els) =>
      Resolvable(names, cond) && StmtResolvable(names, inLoop, thn)
      && (els.Some? ==> StmtResolvable(names, inLoop, els.value))
    case While(cond, loop) => Resolvable(names, cond) && StmtResolvable(names, true, loop)
    case For(init, test, update, loop) =>
      SimpleResolvable(names, init) && (test.Some? ==> Resolvable(names, test.value))
      && StmtResolvable(names, true, loop) && (update.Some? ==> SimpleResolvable(names, update.value))
    case Break => inLoop
    case Continue => inLoop
    case Return(e) => e.Some? ==> Resolvable(names, e.value)
  }

  predicate AllResolvable(names: Names, inLoop: bool, ss: seq<Stmt>)
    decreases ss, 0
  {
    ss != [] ==> StmtResolvable(names, inLoop, ss[0]) && AllResolvable(names, inLoop, ss[1..])
  }

  /**
   The registers a statement needs free. The condition of an `if` or a `while` holds one throughout;
   whatever an earlier part keeps for good is missing in a later one.
   */
  function StmtNeed(s: Stmt): nat
    decreases s, 1
  {
    match s
    case Do(simple) => SimpleNeed(simple)
    case Block(decls, body) => Max(DeclsNeed(Flatten(decls)), DeclsLeaks(Flatten(decls)) + AllNeed(body))
    case If(cond, thn, els) =>
      var held := 1 + ExprLeaks(cond);
      Max(1 + Need(cond), Max(held + StmtNeed(thn),
                              held + Leaks(thn) + if els.Some? then StmtNeed(els.value) else 0))
    case While(cond, loop) => Max(1 + Need(cond), 1 + ExprLeaks(cond) + StmtNeed(loop))
    case For(init, test, update, loop) =>
      var tested := SimpleLeaks(init) + TestLeaks(test);
      Max(Max(SimpleNeed(init), SimpleLeaks(init) + TestNeed(test)),
          Max(tested + StmtNeed(loop), tested + Leaks(loop) + UpdateNeed(update)))
    case Return(e) => if e.Some? then Need(e.value) else 0
    case _ => 0
  }

  function TestNeed(test: Option<Expr>): nat {
    if test.Some? then 1 + Need(test.value) else 0
  }

  function UpdateNeed(update: Option<Simple>): nat {
    if update.Some? then SimpleNeed(update.value) else 0
  }

  function AllNeed(ss: seq<Stmt>): nat
    decreases ss, 0
  {
    if ss == [] then 0 else Max(StmtNeed(ss[0]), Leaks(ss[0]) + AllNeed(ss[1..]))
  }

  /** The context inside a function: label stacks are filled exactly in loops. */
  predicate Inside(g: Gen, inLoop: bool) {
    g.free <= POOL && g.offsets != [] && (g.starts != []) == inLoop == (g.ends != [])
  }

  /**
   Emission of a statement succeeds exactly when its names resolve and as many registers are free as
   it needs.
   */
  lemma {:induction false} StmtExact(g: Gen, inLoop: bool, s: Stmt)
    requires Inside(g, inLoop)
    ensures GenStmt(g, s).Success?
            <==> StmtResolvable(NamesOf(g.scopes), inLoop, s) && StmtNeed(s) <= |g.free|
    decreases s, 2
  {
    hide GenExpr, GenSimple, GenBlock, GenIf, GenWhile, GenFor, Need, SimpleNeed, Resolvable, SimpleResolvable;
    match s
    case Do(simple) => SimpleExact(g, simple);
    case Block(_, _) => BlockExact(g, inLoop, s);
    case If(_, _, _) => IfExact(g, inLoop, s);
    case While(_, _) => WhileExact(g, inLoop, s);
    case For(_, _, _, _) => ForExact(g, inLoop, s);
    case Break =>
    case Continue =>
    case Return(e) =>
      if e.Some? {
        NeedExact(g, e.value, S1);
      }
  }

  lemma {:induction false} AllExact(g: Gen, inLoop: bool, ss: seq<Stmt>)
    requires Inside(g, inLoop)
    ensures GenAll(g, ss).Success?
            <==> AllResolvable(NamesOf(g.scopes), inLoop, ss) && AllNeed(ss) <= |g.free|
    decreases ss, 0
  {
    hide GenStmt, StmtResolvable, StmtNeed;
    if ss != [] {
      StmtExact(g, inLoop, ss[0]);
      if GenStmt(g, ss[0]).Success? {
        StmtAccounts(g, ss[0]);
        AllExact(GenStmt(g, ss[0]).value.gen, inLoop, ss[1..]);
      }
    }
  }

  lemma {:induction false} BlockExact(g: Gen, inLoop: bool, s: Stmt)
    requires Inside(g, inLoop) && s.Block?
    ensures GenBlock(g, s).Success?
            <==> StmtResolvable(NamesOf(g.scopes), inLoop, s) && StmtNeed(s) <= |g.free|
    decreases s, 1
  {
    hide GenDecls, GenAll, DeclsResolvable, AllResolvable, DeclsNeed, AllNeed;
    var inner := Enter(g).value;
    assert NamesOf(inner.scopes) == NamesOf(g.scopes) + [map[]];
    DeclsExact(inner, Flatten(s.decls));
    if GenDecls(inner, Flatten(s.decls)).Success? {
      var dc := GenDecls(inner, Flatten(s.decls)).value;
      DeclsAccounts(inner, Flatten(s.decls));
      AllExact(dc.gen, inLoop, s.body);
    }
  }

  lemma {:induction false} IfExact(g: Gen, inLoop: bool, s: Stmt)
    requires Inside(g, inLoop) && s.If?
    ensures GenIf(g, s).Success?
            <==> StmtResolvable(NamesOf(g.scopes), inLoop, s) && StmtNeed(s) <= |g.free|
    decreases s, 1
  {
    hide Take, GenExpr, GenStmt, Need, Resolvable;
    TakeExact(g);
    if Take(g).Success? {
      var c := Take(g).value;
      NeedExact(c.gen, s.cond, c.reg);
      if GenExpr(c.gen, s.cond, c.reg).Success? {
        var cc := GenExpr(c.gen, s.cond, c.reg).value;
        ExprAccounts(c.gen, s.cond, c.reg);
        BranchesExact(cc.gen.(counter := cc.gen.counter + 2), inLoop, s);
      }
    }
  }

  lemma {:induction false} BranchesExact(g: Gen, inLoop: bool, s: Stmt)
    requires Inside(g, inLoop) && s.If?
    ensures GenStmt(g, s.thn).Success? && GenElse(GenStmt(g, s.thn).value.gen, s.els).Success?
            <==> && StmtResolvable(NamesOf(g.scopes), inLoop, s.thn) && StmtNeed(s.thn) <= |g.free|
                 && (s.els.Some? ==> StmtResolvable(NamesOf(g.scopes), inLoop, s.els.value))
                 && Leaks(s.thn) + (if s.els.Some? then StmtNeed(s.els.value) else 0) <= |g.free|
    decreases s, 0
  {
    hide GenStmt, StmtResolvable, StmtNeed;
    StmtExact(g, inLoop, s.thn);
    if GenStmt(g, s.thn).Success? {
      StmtAccounts(g, s.thn);
      if s.els.Some? {
        StmtExact(GenStmt(g, s.thn).value.gen, inLoop, s.els.value);
      }
    }
  }

  lemma {:induction false} WhileExact(g: Gen, inLoop: bool, s: Stmt)
    requires Inside(g, inLoop) && s.While?
    ensures GenWhile(g, s).Success?
            <==> StmtResolvable(NamesOf(g.scopes), inLoop, s) && StmtNeed(s) <= |g.free|
    decreases s, 1
  {
    hide Take, GenExpr, GenStmt, Need, Resolvable;
    TakeExact(WhileOpen(g));
    if Take(WhileOpen(g)).Success? {
      var c := Take(WhileOpen(g)).value;
      NeedExact(c.gen, s.cond, c.reg);
      if GenExpr(c.gen, s.cond, c.reg).Success? {
        var cc := GenExpr(c.gen, s.cond, c.reg).value;
        ExprAccounts(c.gen, s.cond, c.reg);
        StmtExact(cc.gen, true, s.loop);
      }
    }
  }

  lemma TestExact(g: Gen, test: Option<Expr>, end: Label)
    requires g.free <= POOL
    ensures GenTest(g, test, end).Success?
            <==> (test.Some? ==> Resolvable(NamesOf(g.scopes), test.value)) && TestNeed(test) <= |g.free|
  {
    hide Take, GenExpr, Need, Resolvable;
    if test.Some? {
      TakeExact(g);
      if Take(g).Success? {
        NeedExact(Take(g).value.gen, test.value, Take(g).value.reg);
      }
    }
  }

  lemma {:induction false} ForExact(g: Gen, inLoop: bool, s: Stmt)
    requires Inside(g, inLoop) && s.For?
    ensures GenFor(g, s).Success?
            <==> StmtResolvable(NamesOf(g.scopes), inLoop, s) && StmtNeed(s) <= |g.free|
    decreases s, 1
  {
    hide GenSimple, GenTurns, Need, SimpleNeed, Resolvable, SimpleResolvable, TestNeed, UpdateNeed;
    SimpleExact(ForOpen(g), s.init);
    if GenSimple(ForOpen(g), s.init).Success? {
      SimpleAccounts(ForOpen(g), s.init);
      TurnsExact(GenSimple(ForOpen(g), s.init).value.gen, s, g.counter);
    }
  }

  lemma {:induction false} TurnsExact(g: Gen, s: Stmt, n: nat)
    requires Inside(g, true) && s.For?
    ensures GenTurns(g, s, n).Success?
            <==> && (s.test.Some? ==> Resolvable(NamesOf(g.scopes), s.test.value))
                 && StmtResolvable(NamesOf(g.scopes), true, s.loop)
                 && (s.update.Some? ==> SimpleResolvable(NamesOf(g.scopes), s.update.value))
                 && TestNeed(s.test) <= |g.free| && TestLeaks(s.test) + StmtNeed(s.loop) <= |g.free|
                 && TestLeaks(s.test) + Leaks(s.loop) + UpdateNeed(s.update) <= |g.free|
    decreases s, 0
  {
    hide GenTest, GenStmt, GenSimple, StmtResolvable, StmtNeed, Resolvable, SimpleResolvable, TestNeed, TestLeaks;
    var end := Numbered("for_end", n + 1);
    TestExact(g, s.test, end);
    if GenTest(g, s.test, end).Success? {
      var tc := GenTest(g, s.test, end).value;
      TestAccounts(g, s.test, end);
      StmtExact(tc.gen, true, s.loop);
      if GenStmt(tc.gen, s.loop).Success? {
        StmtAccounts(tc.gen, s.loop);
        if s.update.Some? {
          SimpleExact(GenStmt(tc.gen, s.loop).value.gen, s.update.value);
        }
      }
    }
  }

  // ----- Functions -----

  /** Registers 7 to `n` - 1. */
  function Pool(n: nat): (pool: set<Reg>)
    requires 7 <= n <= 30
    ensures |pool| == n - 7 && forall r: Reg :: r in pool <==> 7 <= r < n
  {
    if n == 7 then {} else Pool(n - 1) + {n - 1}
  }

  predicate FunctionResolvable(f: Function) {
    StmtResolvable([map[]], false, Block(f.decls, f.body))
  }

  function FunctionNeed(f: Function): nat {
    StmtNeed(Block(f.decls, f.body))
  }

  function FunctionLeaks(f: Function): nat {
    Leaks(Block(f.decls, f.body))
  }

  lemma NextExact(left: Left, f: Function)
    requires left.free <= POOL
    ensures GenNext(left, f).Success? <==> FunctionResolvable(f) && FunctionNeed(f) <= |left.free|
    ensures GenNext(left, f).Success? ==>
              var after := GenNext(left, f).value.left;
              after.free <= POOL && |after.free| == |left.free| - FunctionLeaks(f)
  {
    hide GenStmt, StmtResolvable, StmtNeed, FrameBytes, Leaks;
    var g, body := OpeningAfter(left, f, FrameBytes(f.decls)), Block(f.decls, f.body);
    assert NamesOf(g.scopes) == [map[]];
    StmtExact(g, false, body);
    if GenStmt(g, body).Success? {
      StmtAccounts(g, body);
    }
  }

  /** A function can be emitted exactly when its names resolve and its body needs at most 23 registers. */
  lemma FunctionExact(f: Function)
    ensures GenFunction(f).Success? <==> FunctionResolvable(f) && FunctionNeed(f) <= 23
  {
    hide FunctionResolvable, FunctionNeed, GenNext;
    assert POOL == Pool(30);
    NextExact(UNTOUCHED, f);
  }

  /** What the functions of a unit need together: a later one lacks what the earlier ones have kept. */
  function UnitNeed(fs: seq<Function>): nat {
    if fs == [] then 0 else Max(FunctionNeed(fs[0]), FunctionLeaks(fs[0]) + UnitNeed(fs[1..]))
  }

  /** A unit can be emitted exactly when each function's names resolve and the registers last. */
  lemma {:induction false} UnitExact(left: Left, fs: seq<Function>)
    requires left.free <= POOL
    ensures GenUnit(left, fs).Success?
            <==> (forall i :: 0 <= i < |fs| ==> FunctionResolvable(fs[i])) && UnitNeed(fs) <= |left.free|
    decreases fs
  {
    hide FunctionResolvable, FunctionNeed, FunctionLeaks, GenNext;
    if fs != [] {
      NextExact(left, fs[0]);
      if GenNext(left, fs[0]).Success? {
        UnitExact(GenNext(left, fs[0]).value.left, fs[1..]);
      }
    }
  }

  // ----- Running out of registers -----

  /** `int main() { int x; x++; x++; ... }` with `n` increments. */
  function Bumps(n: nat): Function {
    Function("main", [[Scalar("x", None)]], Increments(n))
  }

  function Increments(n: nat): seq<Stmt> {
    if n == 0 then [] else [Do(Bump("x", true))] + Increments(n - 1)
  }

  lemma {:induction false} IncrementsNeed(names: Names, n: nat)
    requires Known(names, Place("x", []))
    ensures AllResolvable(names, false, Increments(n))
    ensures AllNeed(Increments(n)) == if n == 0 then 0 else n + 1
  {
    hide Known;
    if n > 0 {
      assert Increments(n)[1..] == Increments(n - 1);
      IncrementsNeed(names, n - 1);
    }
  }

  /** Each `++` keeps a register: the 23rd finds only one left. */
  lemma BumpsRunOut(n: nat)
    ensures GenFunction(Bumps(n)).Success? <==> n <= 22
  {
    var ds := [Scalar("x", None)];
    var decls := Bumps(n).decls;
    assert Flatten(decls) == ds by {
      assert decls[1..] == [] && Flatten(decls[1..]) == [] && ds + [] == ds;
    }
    assert ds[1..] == [];
    var outer: Names := [map[]];
    IncrementsNeed(WithAll(outer + [map[]], ds), n);
    FunctionExact(Bumps(n));
  }

  /** `int main() { int x; x == x; x == x; ... }` with `n` comparisons. */
  function Equals(n: nat): Function {
    Function("main", [[Scalar("x", None)]], Comparisons(n))
  }

  function Comparisons(n: nat): seq<Stmt> {
    if n == 0 then []
    else [Do(Eval(Bin(Equal, Read(Place("x", [])), Read(Place("x", [])))))] + Comparisons(n - 1)
  }

  lemma {:induction false} ComparisonsNeed(names: Names, n: nat)
    requires Known(names, Place("x", []))
    ensures AllResolvable(names, false, Comparisons(n))
    ensures AllNeed(Comparisons(n)) == if n == 0 then 0 else n + 2
  {
    hide Known;
    if n > 0 {
      var x := Place("x", []);
      assert Resolvable(names, Read(x)) && Resolvable(names, Bin(Equal, Read(x), Read(x)));
      assert Need(Read(x)) == 0 && Need(Bin(Equal, Read(x), Read(x))) == 3;
      assert Comparisons(n)[1..] == Comparisons(n - 1);
      ComparisonsNeed(names, n - 1);
    }
  }

  /** Each `==` keeps one of the three registers it takes: the 22nd finds only two. */
  lemma EqualsRunOut(n: nat)
    ensures GenFunction(Equals(n)).Success? <==> n <= 21
  {
    var ds := [Scalar("x", None)];
    var decls := Equals(n).decls;
    assert Flatten(decls) == ds by {
      assert decls[1..] == [] && Flatten(decls[1..]) == [] && ds + [] == ds;
    }
    assert ds[1..] == [];
    var outer: Names := [map[]];
    ComparisonsNeed(WithAll(outer + [map[]], ds), n);
    FunctionExact(Equals(n));
  }
}
