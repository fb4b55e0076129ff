/**
 The scalar `int` fragment of the C-like input language, and what its programs mean.

 A variable's cells start indeterminate; reading an indeterminate cell, an array element out of
 range or an unknown name has no meaning, and such a run is `Stuck`. Loops use up fuel: a run that
 exhausts it is a `Timeout`.
 */
module Source {
  import opened Words
  import opened Wrappers

  datatype BinOp = Plus | Minus | Times | ShiftLeft | Less | Equal

  /** A scalar (no indices) or an array element with constant indices. */
  datatype Place = Place(name: string, idx: seq<nat>)

  datatype Expr =
    | Const(n: int)
    | Read(place: Place)
    | Bin(op: BinOp, left: Expr, right: Expr)

  /** Expression statements; `Bump` is `x++` or `x--`. */
  datatype Simple =
    | Assign(place: Place, e: Expr)
    | Bump(name: string, up: bool)
    | Eval(e: Expr)
    | Nop

  datatype Declarator =
    | Scalar(name: string, init: Option<Expr>)
    | Array(name: string, dims: seq<nat>)

  datatype Stmt =
    | Do(simple: Simple)
    | Block(decls: seq<seq<Declarator>>, body: seq<Stmt>)
    | If(cond: Expr, thn: Stmt, els: Option<Stmt>)
    | While(cond: Expr, loop: Stmt)
    | For(init: Simple, test: Option<Expr>, update: Option<Simple>, loop: Stmt)
    | Break
    | Continue
    | Return(e: Option<Expr>)

  /** A function without parameters that returns `int`; its body is a block. */
  datatype Function = Function(name: string, decls: seq<seq<Declarator>>, body: seq<Stmt>)

  // ----- Arrays -----

  /** ArrayDeclaration::GetArraySize: each bound times the size of the nested declaration. */
  function Size(dims: seq<nat>): nat {
    if dims == [] then 1 else dims[|dims| - 1] * Size(dims[..|dims| - 1])
  }

  predicate InRange(dims: seq<nat>, idx: seq<nat>) {
    |idx| == |dims| <= 2 && forall k :: 0 <= k < |idx| ==> idx[k] < dims[k]
  }

  /** ArrayIndexAccess::get_position: row-major for two indices, else the first index. */
  function Linear(dims: seq<nat>, idx: seq<nat>): nat
    requires |idx| == 2 ==> |dims| >= 2
  {
    if |idx| == 2 then idx[0] * dims[1] + idx[1]
    else if |idx| == 0 then 0
    else idx[0]
  }

  lemma MulMonotone(a: nat, b: nat, c: nat)
    requires a <= b
    ensures a * c <= b * c
  {
  }

  lemma SizeOfOne(n: nat)
    ensures Size([n]) == n
  {
    assert [n][..0] == [];
    assert Size([]) == 1;
  }

  lemma SizeOfTwo(m: nat, n: nat)
    ensures Size([m, n]) == m * n
  {
    assert [m, n][..1] == [m];
    SizeOfOne(m);
  }

  /** Element numbers of an array in range are below its size. */
  lemma LinearInRange(dims: seq<nat>, idx: seq<nat>)
    requires InRange(dims, idx)
    ensures Linear(dims, idx) < Size(dims)
  {
    if |dims| == 1 {
      assert dims == [dims[0]];
      SizeOfOne(dims[0]);
    } else if |dims| == 2 {
      assert dims == [dims[0], dims[1]];
      SizeOfTwo(dims[0], dims[1]);
      MulMonotone(idx[0] + 1, dims[0], dims[1]);
    }
  }

  lemma RowMajorInjective(a: nat, b: nat, c: nat, d: nat, n: nat)
    requires b < n && d < n && a * n + b == c * n + d
    ensures a == c && b == d
  {
    if a < c {
      MulMonotone(a + 1, c, n);
    } else if c < a {
      MulMonotone(c + 1, a, n);
    }
  }

  /** Two in-range accesses to one array name the same element only with the same indices. */
  lemma LinearInjective(dims: seq<nat>, i: seq<nat>, j: seq<nat>)
    requires InRange(dims, i) && InRange(dims, j)
    requires Linear(dims, i) == Linear(dims, j)
    ensures i == j
  {
    if |dims| == 2 {
      RowMajorInjective(i[0], i[1], j[0], j[1], dims[1]);
    }
  }

  // ----- Scopes -----

  /** The innermost scope that holds a name, or -1. */
  function FindScope<T>(scopes: seq<map<string, T>>, x: string): (i: int)
    ensures -1 <= i < |scopes|
    ensures i >= 0 ==> x in scopes[i]
    ensures forall j :: i < j < |scopes| ==> x !in scopes[j]
  {
    if scopes == [] then -1
    else if x in scopes[|scopes| - 1] then |scopes| - 1
    else FindScope(scopes[..|scopes| - 1], x)
  }

  /** The cells of one variable; a scalar has no dimensions and one cell. */
  datatype Object = Object(dims: seq<nat>, cells: seq<Option<Word>>) {
    predicate Valid() {
      |cells| == Size(dims)
    }
  }

  function Fresh(dims: seq<nat>): (o: Object)
    ensures o.Valid()
  {
    Object(dims, seq(Size(dims), i => None))
  }

  type Env = seq<map<string, Object>>

  /** The scope and object a place refers to, when it names a cell that exists. */
  predicate Resolves(env: Env, p: Place) {
    var i := FindScope(env, p.name);
    i >= 0 && InRange(env[i][p.name].dims, p.idx) && env[i][p.name].Valid()
  }

  function ReadPlace(env: Env, p: Place): Option<Word> {
    if !Resolves(env, p) then None else
    var o := env[FindScope(env, p.name)][p.name];
    LinearInRange(o.dims, p.idx);
    o.cells[Linear(o.dims, p.idx)]
  }

  function WritePlace(env: Env, p: Place, w: Word): Option<Env> {
    if !Resolves(env, p) then None else
    var i := FindScope(env, p.name);
    var o := env[i][p.name];
    LinearInRange(o.dims, p.idx);
    Some(env[i := env[i][p.name := o.(cells := o.cells[Linear(o.dims, p.idx) := Some(w)])]])
  }

  // ----- Expressions -----

  /**
   How `<` compares: as the ALU does, as C does, or only where the two cannot differ
   (operands of opposite sign then have no meaning).
   */
  datatype Order = UnsignedOrder | SignedOrder | AgreedOrder

  function Compute(order: Order, op: BinOp, a: Word, b: Word): Option<Word> {
    match op
    case Plus => Some(Wrap(a + b))
    case Minus => Some(Wrap(a - b))
    case Times => Some(Wrap(a * b))
    case ShiftLeft => Some(Wrap(a * Pow2(b % 32)))
    case Equal => Some(if a == b then 1 else 0)
    case Less =>
      match order
      case UnsignedOrder => Some(if a < b then 1 else 0)
      case SignedOrder => Some(if Signed(a) < Signed(b) then 1 else 0)
      case AgreedOrder => if (a < HALF) == (b < HALF) then Some(if a < b then 1 else 0) else None
  }

  function Value(order: Order, e: Expr, env: Env): Option<Word> {
    match e
    case Const(n) => Some(Wrap(n))
    case Read(p) => ReadPlace(env, p)
    case Bin(op, l, r) =>
      match (Value(order, l, env), Value(order, r, env))
      case (Some(a), Some(b)) => Compute(order, op, a, b)
      case _ => None
  }

  // ----- Statements -----

  datatype Flow = Normal | Broke | Continued | Returned(value: Option<Word>)

  datatype Run = Done(flow: Flow, env: Env) | Timeout | Stuck

  function RunSimple(order: Order, s: Simple, env: Env): Option<Env> {
    match s
    case Nop => Some(env)
    case Eval(e) => if Value(order, e, env).Some? then Some(env) else None
    case Assign(p, e) =>
      (match Value(order, e, env)
       case None => None
       case Some(w) => WritePlace(env, p, w))
    case Bump(x, up) =>
      match ReadPlace(env, Place(x, []))
      case None => None
      case Some(w) => WritePlace(env, Place(x, []), Wrap(w + if up then 1 else -1))
  }

  function Flatten(decls: seq<seq<Declarator>>): seq<Declarator> {
    if decls == [] then [] else decls[0] + Flatten(decls[1..])
  }

  function Declare(d: Declarator, env: Env): Env
    requires env != []
  {
    var k := |env| - 1;
    env[k := env[k][d.name := Fresh(if d.Array? then d.dims else [])]]
  }

  /** The cells appear before the initialiser is evaluated. */
  function RunDecl(order: Order, d: Declarator, env: Env): Option<Env> {
    if env == [] then None else
    if d.Scalar? && d.init.Some?
    then RunSimple(order, Assign(Place(d.name, []), d.init.value), Declare(d, env))
    else Some(Declare(d, env))
  }

  function RunDecls(order: Order, ds: seq<Declarator>, env: Env): Option<Env> {
    if ds == [] then Some(env) else
    match RunDecl(order, ds[0], env)
    case None => None
    case Some(next) => RunDecls(order, ds[1..], next)
  }

  /** Leaving a block drops its scope, whichever way it is left. */
  function Leave(r: Run): Run {
    if r.Done? && r.env != [] then r.(env := r.env[..|r.env| - 1]) else r
  }

  function Exec(order: Order, s: Stmt, env: Env, fuel: nat): Run
    decreases fuel, s, 1
  {
    match s
    case Do(simple) =>
      (match RunSimple(order, simple, env)
       case None => Stuck
       case Some(next) => Done(Normal, next))
    case Block(decls, body) =>
      (match RunDecls(order, Flatten(decls), env + [map[]])
       case None => Stuck
       case Some(inner) => Leave(ExecAll(order, body, inner, fuel)))
    case If(cond, thn, els) =>
      (match Value(order, cond, env)
       case None => Stuck
       case Some(w) =>
         if w != 0 then Exec(order, thn, env, fuel)
         else if els.Some? then Exec(order, els.value, env, fuel)
         else Done(Normal, env))
    case While(cond, loop) =>
      ExecLoop(order, Some(cond), None, loop, env, fuel)
    case For(init, test, update, loop) =>
      (match RunSimple(order, init, env)
       case None => Stuck
       case Some(next) => ExecLoop(order, test, update, loop, next, fuel))
    case Break => Done(Broke, env)
    case Continue => Done(Continued, env)
    case Return(e) =>
      if e.None? then Done(Returned(None), env) else
      match Value(order, e.value, env)
      case None => Stuck
      case Some(w) => Done(Returned(Some(w)), env)
  }

  function ExecAll(order: Order, ss: seq<Stmt>, env: Env, fuel: nat): Run
    decreases fuel, ss, 0
  {
    if ss == [] then Done(Normal, env) else
    match Exec(order, ss[0], env, fuel)
    case Done(Normal, next) => ExecAll(order, ss[1..], next, fuel)
    case r => r
  }

  /** A loop from its test on; a missing test counts as true. */
  function ExecLoop(order: Order, test: Option<Expr>, update: Option<Simple>, loop: Stmt,
                    env: Env, fuel: nat): Run
    decreases fuel, loop, 2
  {
    if fuel == 0 then Timeout else
    var t := if test.Some? then Value(order, test.value, env) else Some(1);
    match t
    case None => Stuck
    case Some(w) =>
      if w == 0 then Done(Normal, env) else
      match Exec(order, loop, env, fuel)
      case Done(Broke, next) => Done(Normal, next)
      case Done(Returned(v), next) => Done(Returned(v), next)
      case Done(_, next) =>
        (match AfterIteration(order, update, next)
         case None => Stuck
         case Some(again) => ExecLoop(order, test, update, loop, again, fuel - 1))
      case r => r
  }

  function AfterIteration(order: Order, update: Option<Simple>, env: Env): Option<Env> {
    if update.Some? then RunSimple(order, update.value, env) else Some(env)
  }

  /** A whole function: a break or continue outside a loop has no meaning. */
  function RunFunction(order: Order, f: Function, fuel: nat): Run {
    match Exec(order, Block(f.decls, f.body), [map[]], fuel)
    case Done(Broke, _) => Stuck
    case Done(Continued, _) => Stuck
    case r => r
  }
}
