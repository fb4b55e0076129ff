/**
 What source programs mean, said by laws that do not unfold the definitions of module Source: operators
 on signed numbers, what is read after a write, and what each statement does.
 */
module SourceLaws {
  import opened Words
  import opened Wrappers
  import opened Source
  import opened AluLaws

  // ----- Operators -----

  /** The value of an operator on `int` operands, up to a multiple of 2^32. */
  predicate Yields(order: Order, op: BinOp, a: Word, b: Word, r: Option<Word>) {
    match op
    case Plus => r.Some? && Agree(Signed(r.value), Signed(a) + Signed(b))
    case Minus => r.Some? && Agree(Signed(r.value) + Signed(b), Signed(a))
    case Times => r.Some? && Agree(Signed(r.value), Signed(a) * Signed(b))
    case ShiftLeft => r.Some? && r.value == Doubled(a, b % 32)
    case Equal => r.Some? && Flag(r.value, Signed(a) == Signed(b))
    case Less =>
      match order
      case SignedOrder => r.Some? && Flag(r.value, Signed(a) < Signed(b))
      case UnsignedOrder => r.Some? && Flag(r.value, a < b)
      case AgreedOrder =>
        if (Signed(a) < 0) == (Signed(b) < 0) then r.Some? && Flag(r.value, Signed(a) < Signed(b)) else r.None?
  }

  lemma OperatorExact(order: Order, op: BinOp, a: Word, b: Word, r: Option<Word>)
    ensures Yields(order, op, a, b, r) <==> r == Compute(order, op, a, b)
  {
    hide Agree, Wrap, Pow2, Doubled;
    if r.Some? {
      SumAgrees(r.value, a, Signed(b));
      WrapSigned(a, b);
      DifferenceAgrees(r.value, a, b);
      ProductAgrees(r.value, a, Signed(b));
      ProductSigned(a, b);
      DoubledIsShift(a, b % 32);
    }
  }

  // ----- Reading and writing -----

  /** Two places name the same cell. */
  predicate SameCell(env: Env, p: Place, q: Place) {
    FindScope(env, p.name) == FindScope(env, q.name) && p.name == q.name && p.idx == q.idx
  }

  /** A write is seen by a read of its own cell and of no other, and no place comes or goes. */
  lemma WriteRead(env: Env, p: Place, w: Word, q: Place)
    requires Resolves(env, p)
    ensures WritePlace(env, p, w).Some?
    ensures var next := WritePlace(env, p, w).value;
            && |next| == |env| && FindScope(next, q.name) == FindScope(env, q.name)
            && (Resolves(next, q) <==> Resolves(env, q))
            && ReadPlace(next, q) == if SameCell(env, p, q) then Some(w) else ReadPlace(env, q)
  {
    var next, i := WritePlace(env, p, w).value, FindScope(env, p.name);
    forall k | 0 <= k < |env| ensures next[k].Keys == env[k].Keys {
    }
    KeysDecide(env, next, q.name);
    LinearInRange(env[i][p.name].dims, p.idx);
    if Resolves(env, q) && q.name == p.name {
      LinearInRange(env[i][q.name].dims, q.idx);
      if q.idx != p.idx && Linear(env[i][q.name].dims, p.idx) == Linear(env[i][q.name].dims, q.idx) {
        LinearInjective(env[i][q.name].dims, p.idx, q.idx);
      }
    }
  }

  lemma {:induction false} KeysDecide(env: Env, next: Env, x: string)
    requires |env| == |next| && forall k :: 0 <= k < |env| ==> env[k].Keys == next[k].Keys
    ensures FindScope(env, x) == FindScope(next, x)
    decreases |env|
  {
    if env != [] {
      var k := |env| - 1;
      assert x in env[k] <==> x in env[k].Keys;
      assert x in next[k] <==> x in next[k].Keys;
      KeysDecide(env[..k], next[..k], x);
    }
  }

  /** Elements of a row lie next to each other, and rows after one another. */
  lemma RowMajor(m: nat, n: nat, i: nat, j: nat)
    ensures Linear([m, n], [0, 0]) == 0 && Linear([m], [i]) == i
    ensures Linear([m, n], [i, j + 1]) == Linear([m, n], [i, j]) + 1
    ensures Linear([m, n], [i + 1, j]) == Linear([m, n], [i, j]) + n
    ensures Size([m, n]) == m * n && Size([m]) == m && Size([]) == 1
  {
    SizeOfTwo(m, n);
    SizeOfOne(m);
    assert (i + 1) * n == i * n + n;
  }

  // ----- Expression statements and declarations -----

  /** Two reads of an `int` that has been counted up or down. */
  predicate Counted(was: Option<Word>, now: Option<Word>, up: bool) {
    was.Some? && now.Some?
    && if up then Agree(Signed(now.value), Signed(was.value) + 1) else Agree(Signed(now.value) + 1, Signed(was.value))
  }

  /**
   What place `q` holds after a statement that leads from `env` to `next`: an assignment gives its place the
   value of the expression, `x++` and `x--` count, and nothing else changes.
   */
  predicate SimpleDid(order: Order, s: Simple, env: Env, next: Env, q: Place) {
    match s
    case Nop => next == env
    case Eval(e) => next == env && Value(order, e, env).Some?
    case Assign(p, e) =>
      && Value(order, e, env).Some?
      && ReadPlace(next, q) == if SameCell(env, p, q) then Value(order, e, env) else ReadPlace(env, q)
    case Bump(x, up) =>
      if SameCell(env, Place(x, []), q) then Counted(ReadPlace(env, q), ReadPlace(next, q), up)
      else ReadPlace(next, q) == ReadPlace(env, q)
  }

  lemma SimpleMeans(order: Order, s: Simple, env: Env, q: Place)
    requires RunSimple(order, s, env).Some?
    ensures SimpleDid(order, s, env, RunSimple(order, s, env).value, q)
  {
    hide ReadPlace, WritePlace, Agree, Wrap, FindScope;
    match s
    case Assign(p, e) =>
      WritesResolve(env, p, Value(order, e, env).value);
      WriteRead(env, p, Value(order, e, env).value, q);
    case Bump(x, up) =>
      var p := Place(x, []);
      var w: int := ReadPlace(env, p).value;
      WritesResolve(env, p, Wrap(w + if up then 1 else -1));
      WriteRead(env, p, Wrap(w + if up then 1 else -1), q);
      SumAgrees(Wrap(w + 1), w, 1);
      CountsDown(w);
    case _ =>
  }

  lemma CountsDown(w: Word)
    ensures Agree(Signed(Wrap(w - 1)) + 1, Signed(w))
  {
    DifferenceAgrees(Wrap(w - 1), w, 1);
    assert Signed(1) == 1;
  }

  /** It has no meaning exactly when its place is none, or what it reads has no value. */
  lemma SimpleStuck(order: Order, s: Simple, env: Env)
    ensures RunSimple(order, s, env).None? <==> SimpleFails(order, s, env)
  {
    hide FindScope, Value;
  }

  predicate SimpleFails(order: Order, s: Simple, env: Env) {
    match s
    case Nop => false
    case Eval(e) => Value(order, e, env).None?
    case Assign(p, e) => Value(order, e, env).None? || !Resolves(env, p)
    case Bump(x, _) => ReadPlace(env, Place(x, [])).None?
  }

  lemma WritesResolve(env: Env, p: Place, w: Word)
    ensures WritePlace(env, p, w).Some? <==> Resolves(env, p)
  {
  }

  /** A declaration hides what had its name, with cells that have no value; other names keep theirs. */
  lemma DeclareHides(d: Declarator, env: Env, q: Place)
    requires env != []
    ensures var next := Declare(d, env);
            && |next| == |env|
            && (q.name == d.name ==>
                  && FindScope(next, q.name) == |env| - 1 && ReadPlace(next, q).None?
                  && (Resolves(next, q) <==> InRange(if d.Array? then d.dims else [], q.idx)))
            && (q.name != d.name ==> ReadPlace(next, q) == ReadPlace(env, q))
  {
    var next, k := Declare(d, env), |env| - 1;
    if q.name == d.name {
      if InRange(if d.Array? then d.dims else [], q.idx) {
        LinearInRange(if d.Array? then d.dims else [], q.idx);
      }
    } else {
      assert next[..k] == env[..k];
      var i := FindScope(env, q.name);
      assert FindScope(next, q.name) == i;
    }
  }

  /** An initialiser sees the variable it initialises, which has no value yet. */
  lemma InitSeesItself(order: Order, x: string, env: Env)
    ensures RunDecl(order, Scalar(x, Some(Read(Place(x, [])))), env) == None
  {
    if env != [] {
      DeclareHides(Scalar(x, Some(Read(Place(x, [])))), env, Place(x, []));
    }
  }

  /** Otherwise the variable has the initialiser's value, worked out among the names after it is declared. */
  lemma InitGives(order: Order, d: Declarator, env: Env)
    requires env != [] && d.Scalar? && d.init.Some?
    ensures var r := RunDecl(order, d, env);
            && (r.Some? <==> Value(order, d.init.value, Declare(d, env)).Some?)
            && (r.Some? ==> ReadPlace(r.value, Place(d.name, [])) == Value(order, d.init.value, Declare(d, env)))
  {
    var p, inner := Place(d.name, []), Declare(d, env);
    DeclareHides(d, env, p);
    if Value(order, d.init.value, inner).Some? {
      WriteRead(inner, p, Value(order, d.init.value, inner).value, p);
    }
  }

  // ----- Statements -----

  /** A condition that is zero selects the `else` part, any other the `if` part; a missing part does nothing. */
  lemma IfMeans(order: Order, n: int, thn: Stmt, els: Option<Stmt>, env: Env, fuel: nat)
    ensures Exec(order, If(Const(n), thn, els), env, fuel)
         == if !Agree(n, 0) then Exec(order, thn, env, fuel)
            else if els.Some? then Exec(order, els.value, env, fuel)
            else Done(Normal, env)
  {
    hide Exec;
    ZeroAgrees(n);
    IfConst(order, n, thn, els, env, fuel);
  }

  lemma IfConst(order: Order, n: int, thn: Stmt, els: Option<Stmt>, env: Env, fuel: nat)
    ensures Exec(order, If(Const(n), thn, els), env, fuel)
         == if Wrap(n) != 0 then Exec(order, thn, env, fuel)
            else if els.Some? then Exec(order, els.value, env, fuel)
            else Done(Normal, env)
  {
    assert Value(order, Const(n), env) == Some(Wrap(n));
  }

  lemma ZeroAgrees(n: int)
    ensures Wrap(n) == 0 <==> Agree(n, 0)
  {
  }

  /** What follows a `return`, `break` or `continue` in a block is not run. */
  lemma RestSkipped(order: Order, jump: Stmt, rest: seq<Stmt>, env: Env, fuel: nat)
    requires jump.Return? || jump.Break? || jump.Continue?
    ensures Exec(order, Block([], [jump] + rest), env, fuel) == Exec(order, jump, env, fuel)
  {
    var inner: Env := env + [map[]];
    var ss := [jump] + rest;
    assert Flatten([]) == [] && RunDecls(order, [], inner) == Some(inner);
    if jump.Return? && jump.e.Some? {
      InnerValue(order, jump.e.value, env);
    }
    var r := Exec(order, jump, inner, fuel);
    assert ExecAll(order, ss, inner, fuel) == r;
    assert inner[..|inner| - 1] == env;
  }

  lemma {:induction false} InnerValue(order: Order, e: Expr, env: Env)
    ensures Value(order, e, env + [map[]]) == Value(order, e, env)
  {
    match e
    case Const(_) =>
    case Read(p) =>
      assert (env + [map[]])[..|env|] == env;
      assert FindScope(env + [map[]], p.name) == FindScope(env, p.name);
    case Bin(_, l, r) =>
      InnerValue(order, l, env);
      InnerValue(order, r, env);
  }

  /** `break` ends its loop, `return` the function; `continue` alone goes round for ever. */
  lemma {:induction false} LoopJumps(order: Order, n: int, e: Option<Expr>, env: Env, fuel: nat)
    requires !Agree(n, 0)
    ensures fuel > 0 ==> Exec(order, While(Const(n), Break), env, fuel) == Done(Normal, env)
    ensures fuel > 0 ==> Exec(order, While(Const(n), Return(e)), env, fuel) == Exec(order, Return(e), env, fuel)
    ensures Exec(order, While(Const(n), Continue), env, fuel) == Timeout
    ensures Exec(order, While(Const(0), Continue), env, fuel) == if fuel == 0 then Timeout else Done(Normal, env)
  {
    ZeroAgrees(n);
    assert Value(order, Const(n), env) == Some(Wrap(n)) && Value(order, Const(0), env) == Some(0);
    assert Exec(order, Break, env, fuel) == Done(Broke, env);
    assert Exec(order, Continue, env, fuel) == Done(Continued, env);
    if fuel > 0 {
      LoopJumps(order, n, e, env, fuel - 1);
      assert Exec(order, While(Const(n), Continue), env, fuel - 1)
          == ExecLoop(order, Some(Const(n)), None, Continue, env, fuel - 1);
    }
  }

  /** A `for` without a test goes on until its body leaves it. */
  lemma {:induction false} ForEver(order: Order, env: Env, fuel: nat)
    ensures Exec(order, For(Nop, None, None, Continue), env, fuel) == Timeout
    ensures fuel > 0 ==> Exec(order, For(Nop, None, None, Break), env, fuel) == Done(Normal, env)
  {
    assert Exec(order, Break, env, fuel) == Done(Broke, env);
    assert Exec(order, Continue, env, fuel) == Done(Continued, env);
    if fuel > 0 {
      ForEver(order, env, fuel - 1);
      assert Exec(order, For(Nop, None, None, Continue), env, fuel - 1)
          == ExecLoop(order, None, None, Continue, env, fuel - 1);
    }
  }

  function Up(x: string, n: int, loop: Stmt): Stmt {
    For(Assign(Place(x, []), Const(0)), Some(Bin(Less, Read(Place(x, [])), Const(n))), Some(Bump(x, true)), loop)
  }

  /** `for (x = 0; x < n; x++)` leaves n in x, also if its body is `continue`; with `break` it leaves 0. */
  lemma ForCounts(order: Order, x: string, n: nat, env: Env, fuel: nat)
    requires Resolves(env, Place(x, [])) && n < HALF && n < fuel
    ensures var p := Place(x, []);
            && Exec(order, Up(x, n, Do(Nop)), env, fuel) == Done(Normal, WritePlace(env, p, n).value)
            && Exec(order, Up(x, n, Continue), env, fuel) == Done(Normal, WritePlace(env, p, n).value)
            && Exec(order, Up(x, n, Break), env, fuel) == Done(Normal, WritePlace(env, p, 0).value)
  {
    var p := Place(x, []);
    hide WritePlace, ReadPlace, Resolves;
    WriteRead(env, p, 0, p);
    assert RunSimple(order, Assign(p, Const(0)), env) == WritePlace(env, p, 0);
    LoopCounts(order, x, n, 0, Do(Nop), env, fuel);
    LoopCounts(order, x, n, 0, Continue, env, fuel);
    var first := WritePlace(env, p, 0).value;
    TestValue(order, p, n, 0, first);
    assert Exec(order, Break, first, fuel) == Done(Broke, first);
  }

  lemma TestValue(order: Order, p: Place, n: nat, k: nat, env: Env)
    requires n < HALF && k <= n && ReadPlace(env, p) == Some(k)
    ensures Value(order, Bin(Less, Read(p), Const(n)), env) == Some(if k < n then 1 else 0)
  {
    assert Wrap(n) == n;
    assert Value(order, Read(p), env) == Some(k) && Value(order, Const(n), env) == Some(n);
  }

  lemma {:induction false} LoopCounts(order: Order, x: string, n: nat, k: nat, loop: Stmt, env: Env, fuel: nat)
    requires Resolves(env, Place(x, [])) && k <= n < HALF && n - k < fuel && (loop == Do(Nop) || loop == Continue)
    ensures var p := Place(x, []);
            && WritePlace(env, p, k).Some?
            && ExecLoop(order, Some(Bin(Less, Read(p), Const(n))), Some(Bump(x, true)), loop,
                        WritePlace(env, p, k).value, fuel)
               == Done(Normal, WritePlace(env, p, n).value)
    decreases n - k
  {
    var p := Place(x, []);
    hide WritePlace, ReadPlace, Resolves;
    WriteRead(env, p, k, p);
    var now := WritePlace(env, p, k).value;
    TestValue(order, p, n, k, now);
    if k < n {
      WriteTwice(env, p, k, k + 1);
      NextWord(k);
      assert RunSimple(order, Bump(x, true), now) == WritePlace(env, p, k + 1);
      LoopCounts(order, x, n, k + 1, loop, env, fuel - 1);
      assert Exec(order, loop, now, fuel) == Done(if loop.Continue? then Continued else Normal, now);
    }
  }

  lemma NextWord(k: nat)
    requires k < HALF
    ensures Wrap(k + 1) == k + 1
  {
  }

  lemma WriteTwice(env: Env, p: Place, v: Word, w: Word)
    requires Resolves(env, p)
    ensures WritePlace(env, p, v).Some? && WritePlace(env, p, w).Some?
    ensures WritePlace(WritePlace(env, p, v).value, p, w) == WritePlace(env, p, w)
  {
    var i := FindScope(env, p.name);
    var o := env[i][p.name];
    LinearInRange(o.dims, p.idx);
    WriteRead(env, p, v, p);
    var k := Linear(o.dims, p.idx);
    var next := WritePlace(env, p, v).value;
    assert o.cells[k := Some(v)][k := Some(w)] == o.cells[k := Some(w)];
    var last := env[i][p.name := o.(cells := o.cells[k := Some(w)])];
    assert next[i][p.name := o.(cells := o.cells[k := Some(w)])] == last;
    assert next[i := last] == env[i := last];
  }
}
