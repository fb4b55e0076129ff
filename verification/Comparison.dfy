/**
 `slt` in the ALU compares unsigned words, C's `<` signed ones. A run in which no comparison has
 operands of opposite sign means the same under both, so the emitted code computes what C says.
 */
module Comparison {
  import opened Words
  import opened Wrappers
  import opened Isa
  import opened Asm
  import opened Source
  import opened Generator
  import opened Functions

  /** Two words compare alike as signed and as unsigned numbers exactly when their signs agree. */
  lemma LessAgrees(a: Word, b: Word)
    ensures Compute(UnsignedOrder, Less, a, b) == Compute(SignedOrder, Less, a, b)
            <==> (a < HALF) == (b < HALF)
    ensures Compute(AgreedOrder, Less, a, b).Some? <==> (a < HALF) == (b < HALF)
  {
  }

  lemma {:induction false} ValueAgrees(order: Order, e: Expr, env: Env)
    requires Value(AgreedOrder, e, env).Some?
    ensures Value(order, e, env) == Value(AgreedOrder, e, env)
  {
    if e.Bin? {
      ValueAgrees(order, e.left, env);
      ValueAgrees(order, e.right, env);
    }
  }

  lemma SimpleAgrees(order: Order, x: Simple, env: Env)
    requires RunSimple(AgreedOrder, x, env).Some?
    ensures RunSimple(order, x, env) == RunSimple(AgreedOrder, x, env)
  {
    match x
    case Eval(e) => ValueAgrees(order, e, env);
    case Assign(p, e) => ValueAgrees(order, e, env);
    case _ =>
  }

  lemma {:induction false} DeclsAgree(order: Order, ds: seq<Declarator>, env: Env)
    requires RunDecls(AgreedOrder, ds, env).Some?
    ensures RunDecls(order, ds, env) == RunDecls(AgreedOrder, ds, env)
    decreases ds
  {
    if ds != [] {
      if env != [] && ds[0].Scalar? && ds[0].init.Some? {
        SimpleAgrees(order, Assign(Place(ds[0].name, []), ds[0].init.value), Declare(ds[0], env));
      }
      DeclsAgree(order, ds[1..], RunDecl(AgreedOrder, ds[0], env).value);
    }
  }

  /** Without a comparison across the sign bit, all three orders give the same run. */
  lemma {:induction false} ExecAgrees(order: Order, s: Stmt, env: Env, fuel: nat)
    requires !Exec(AgreedOrder, s, env, fuel).Stuck?
    ensures Exec(order, s, env, fuel) == Exec(AgreedOrder, s, env, fuel)
    decreases fuel, s, 1
  {
    match s
    case Do(simple) => SimpleAgrees(order, simple, env);
    case Block(decls, body) =>
      DeclsAgree(order, Flatten(decls), env + [map[]]);
      AllAgree(order, body, RunDecls(AgreedOrder, Flatten(decls), env + [map[]]).value, fuel);
    case If(cond, thn, els) =>
      ValueAgrees(order, cond, env);
      if Value(AgreedOrder, cond, env).value != 0 {
        ExecAgrees(order, thn, env, fuel);
      } else if els.Some? {
        ExecAgrees(order, els.value, env, fuel);
      }
    case While(cond, loop) => LoopAgrees(order, Some(cond), None, loop, env, fuel);
    case For(init, test, update, loop) =>
      SimpleAgrees(order, init, env);
      LoopAgrees(order, test, update, loop, RunSimple(AgreedOrder, init, env).value, fuel);
    case Return(e) =>
      if e.Some? {
        ValueAgrees(order, e.value, env);
      }
    case _ =>
  }

  lemma {:induction false} AllAgree(order: Order, ss: seq<Stmt>, env: Env, fuel: nat)
    requires !ExecAll(AgreedOrder, ss, env, fuel).Stuck?
    ensures ExecAll(order, ss, env, fuel) == ExecAll(AgreedOrder, ss, env, fuel)
    decreases fuel, ss, 0
  {
    if ss != [] {
      ExecAgrees(order, ss[0], env, fuel);
      var r := Exec(AgreedOrder, ss[0], env, fuel);
      if r.Done? && r.flow.Normal? {
        AllAgree(order, ss[1..], r.env, fuel);
      }
    }
  }

  lemma {:induction false} LoopAgrees(order: Order, test: Option<Expr>, update: Option<Simple>, loop: Stmt,
                                      env: Env, fuel: nat)
    requires !ExecLoop(AgreedOrder, test, update, loop, env, fuel).Stuck?
    ensures ExecLoop(order, test, update, loop, env, fuel)
         == ExecLoop(AgreedOrder, test, update, loop, env, fuel)
    decreases fuel, loop, 2
  {
    hide Value, RunSimple, Exec;
    if fuel > 0 {
      if test.Some? {
        ValueAgrees(order, test.value, env);
      }
      if test.None? || Value(AgreedOrder, test.value, env).value != 0 {
        ExecAgrees(order, loop, env, fuel);
        var r := Exec(AgreedOrder, loop, env, fuel);
        if r.Done? && (r.flow.Normal? || r.flow.Continued?) {
          if update.Some? {
            SimpleAgrees(order, update.value, r.env);
          }
          LoopAgrees(order, test, update, loop, AfterIteration(AgreedOrder, update, r.env).value, fuel - 1);
        }
      }
    }
  }

  /** A whole function means the same under both orders if no comparison is across the sign bit. */
  lemma FunctionAgrees(f: Function, fuel: nat)
    requires !RunFunction(AgreedOrder, f, fuel).Stuck?
    ensures RunFunction(UnsignedOrder, f, fuel) == RunFunction(AgreedOrder, f, fuel)
    ensures RunFunction(SignedOrder, f, fuel) == RunFunction(AgreedOrder, f, fuel)
  {
    hide Exec;
    ExecAgrees(SignedOrder, Block(f.decls, f.body), [map[]], fuel);
    ExecAgrees(UnsignedOrder, Block(f.decls, f.body), [map[]], fuel);
  }

  /** Compiler correctness against C's signed `<`, for runs that never compare across the sign bit. */
  lemma SignedFunctionCorrect(f: Function, fuel: nat, s: Store) returns (n: nat, s2: Store)
    requires GenFunction(f).Success? && Fits(f) && FRAME_BASE + FrameBytes(f.decls) < MODULUS
    requires !RunFunction(AgreedOrder, f, fuel).Stuck?
    ensures var text, r := GenFunction(f).value, RunFunction(SignedOrder, f, fuel);
            && !r.Stuck?
            && (r.Done? ==> Returns(f, text, s, r, n, s2))
            && (r.Timeout? ==> fuel <= n && Steps(text, Config(0, s), n).Some?)
  {
    hide GenFunction, FrameBytes, Fits, Returns, Steps, RunFunction;
    FunctionAgrees(f, fuel);
    n, s2 := FunctionCorrect(f, fuel, s);
  }
}
