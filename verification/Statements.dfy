/**
 Compiler correctness for statements: the emitted code, wherever it sits in a text whose labels are
 unique, follows the source run to the matching exit with the same variables in memory.
 */
module Statements {
  import opened Wrappers
  import opened Isa
  import opened Asm
  import opened Source
  import opened Generator
  import opened Accounting
  import opened Layout
  import opened Expressions

  /** Every label that the code may jump to is defined, once. */
  ghost predicate Linked(text: seq<Line>, g: Gen) {
    && Unique(text) && Defines(text, g.functionEnd)
    && (g.starts != [] ==> Defines(text, g.starts[|g.starts| - 1]))
    && (g.ends != [] ==> Defines(text, g.ends[|g.ends| - 1]))
  }

  /** The machine goes from one line to another; what it changes is the generator's to change. */
  ghost predicate Travels(text: seq<Line>, g: Gen, base: int, pc: nat, s: Store, n: nat,
                          pc2: nat, s2: Store) {
    && Steps(text, Config(pc, s), n) == Some(Config(pc2, s2))
    && Same(s.regs, s2.regs, g.free + {S1}) && Local(s.mem, s2.mem, base, g.total)
  }

  /** The line at which a run leaves a statement whose code ends just before line `after`. */
  function ExitLine(text: seq<Line>, g: Gen, flow: Flow, after: nat): nat {
    match flow
    case Normal => after
    case Broke => if g.ends == [] then |text| else Find(text, g.ends[|g.ends| - 1])
    case Continued => if g.starts == [] then |text| else Find(text, g.starts[|g.starts| - 1])
    case Returned(_) => Find(text, g.functionEnd)
  }

  /**
   What `n` steps from (pc, s) to `c` have to do with a source run: a run that finishes ends at its
   exit line, memory holding its variables and s1 its result; a run that exhausts its fuel means
   at least as many steps of the machine.
   */
  ghost predicate Follows(text: seq<Line>, g: Gen, r: Run, base: int, pc: nat, s: Store, after: nat,
                          fuel: nat, n: nat, c: Config) {
    match r
    case Done(flow, env) =>
      && Travels(text, g, base, pc, s, n, ExitLine(text, g, flow, after), c.store)
      && Holds(g, env, base, c.store)
      && (flow.Returned? && flow.value.Some? ==> c.store.regs[S1] == flow.value.value)
    case Timeout => fuel <= n && Steps(text, Config(pc, s), n) == Some(c)
    case Stuck => true
  }

  // ----- Travelling -----

  lemma TravelsTrans(text: seq<Line>, g: Gen, h: Gen, base: int, pc: nat, s: Store, m: nat,
                     pc2: nat, s2: Store, n: nat, pc3: nat, s3: Store)
    requires h.free <= g.free && h.total == g.total
    requires Travels(text, g, base, pc, s, m, pc2, s2) && Travels(text, h, base, pc2, s2, n, pc3, s3)
    ensures Travels(text, g, base, pc, s, m + n, pc3, s3)
  {
    StepsAdd(text, Config(pc, s), m, n);
  }

  lemma TravelsStep(text: seq<Line>, g: Gen, base: int, pc: nat, s: Store, pc2: nat)
    requires Step(text, Config(pc, s)) == Some(Config(pc2, s))
    ensures Travels(text, g, base, pc, s, 1, pc2, s)
  {
    assert Steps(text, Config(pc2, s), 0) == Some(Config(pc2, s));
  }

  /** Code that ran to line `pc2` followed by code that follows a source run. */
  lemma Chain(text: seq<Line>, g: Gen, h: Gen, r: Run, base: int, pc: nat, s: Store, m: nat,
              pc2: nat, s2: Store, after: nat, fuel: nat, n: nat, c: Config)
    requires h == g.(free := h.free, counter := h.counter) && h.free <= g.free && Laid(g, base)
    requires Travels(text, g, base, pc, s, m, pc2, s2)
    requires Follows(text, h, r, base, pc2, s2, after, fuel, n, c)
    ensures Follows(text, g, r, base, pc, s, after, fuel, m + n, c)
  {
    if r.Done? {
      TravelsTrans(text, g, h, base, pc, s, m, pc2, s2, n, ExitLine(text, h, r.flow, after), c.store);
    } else if r.Timeout? {
      StepsAdd(text, Config(pc, s), m, n);
    }
  }

  /** The frame does not depend on the counter, the label stacks or how many registers are free. */
  lemma HoldsFor(g: Gen, h: Gen, env: Env, base: int, s: Store)
    requires Holds(g, env, base, s) && h.free <= POOL
    requires h.scopes == g.scopes && h.offsets == g.offsets && h.total == g.total
    ensures Holds(h, env, base, s)
  {
  }

  lemma StraightTravels(text: seq<Line>, g: Gen, base: int, pc: nat, code: seq<Line>, s: Store)
    requires At(text, pc, code) && AllStraight(code)
    requires Same(s.regs, RunStraight(code, s).regs, g.free + {S1})
    requires Local(s.mem, RunStraight(code, s).mem, base, g.total)
    ensures Travels(text, g, base, pc, s, |code|, pc + |code|, RunStraight(code, s))
  {
    RunAt(text, pc, code, s);
  }

  /** The code of a condition leaves its value in the register that the branch tests. */
  lemma CondValue(g: Gen, c: Taken, cc: Emitted, cond: Expr, env: Env, base: int, s: Store)
    requires Take(g) == Success(c) && GenExpr(c.gen, cond, c.reg) == Success(cc)
    requires Holds(g, env, base, s) && Value(UnsignedOrder, cond, env).Some?
    ensures var s2 := RunStraight(cc.code, s);
            && Holds(g, env, base, s2) && AllStraight(cc.code)
            && s2.regs[c.reg] == Value(UnsignedOrder, cond, env).value
            && Same(s.regs, s2.regs, g.free + {S1}) && s2.mem == s.mem
  {
    hide Holds, Value, Take, GenExpr, RunStraight;
    HoldsBasics(g, env, base, s);
    TakeShrinks(g);
    ExprAccounts(c.gen, cond, c.reg);
    HoldsKept(g, c.gen, env, base, s, s, {});
    ExprCorrect(c.gen, cond, c.reg, env, base, s);
    HoldsKept(g, g, env, base, s, RunStraight(cc.code, s), c.gen.free + {c.reg});
  }

  /** A condition and the branch on it: on zero to the label, else past the branch. */
  lemma CondCorrect(text: seq<Line>, pc: nat, g: Gen, c: Taken, cc: Emitted, cond: Expr, l: Label,
                    env: Env, base: int, s: Store)
    returns (s2: Store)
    requires Take(g) == Success(c) && GenExpr(c.gen, cond, c.reg) == Success(cc)
    requires At(text, pc, cc.code + [BeqzTo(c.reg, l)]) && Defines(text, l)
    requires Holds(g, env, base, s) && Value(UnsignedOrder, cond, env).Some?
    ensures var w := Value(UnsignedOrder, cond, env).value;
            Travels(text, g, base, pc, s, |cc.code| + 1,
                    if w == 0 then Find(text, l) else pc + |cc.code| + 1, s2)
    ensures Holds(g, env, base, s2)
  {
    hide Holds, Value, Take, GenExpr, RunStraight, Travels;
    CondValue(g, c, cc, cond, env, base, s);
    s2 := RunStraight(cc.code, s);
    AtSplit(text, pc, cc.code, [BeqzTo(c.reg, l)]);
    AtLine(text, pc + |cc.code|, [BeqzTo(c.reg, l)], 0);
    StraightTravels(text, g, base, pc, cc.code, s);
    FindDefined(text, l);
    var w := Value(UnsignedOrder, cond, env).value;
    var next := if w == 0 then Find(text, l) else pc + |cc.code| + 1;
    TravelsStep(text, g, base, pc + |cc.code|, s2, next);
    TravelsTrans(text, g, g, base, pc, s, |cc.code|, pc + |cc.code|, s2, 1, next, s2);
  }

  // ----- Blocks -----

  lemma EnterHolds(g: Gen, env: Env, base: int, s: Store)
    requires Holds(g, env, base, s)
    ensures Enter(g).Success? && Holds(Enter(g).value, env + [map[]], base, s)
    ensures TopOf(Enter(g).value) == TopOf(g)
  {
    var h := Enter(g).value;
    var e2: Env := env + [map[]];
    forall i, x | 0 <= i < |h.scopes| && x in h.scopes[i]
      ensures i < |g.scopes| && x in g.scopes[i] && h.scopes[i][x] == g.scopes[i][x]
    {
    }
    forall i | 0 <= i < |e2| ensures h.scopes[i].Keys == e2[i].Keys {
      assert i < |env| ==> g.scopes[i].Keys == env[i].Keys;
    }
    forall i, x | 0 <= i < |e2| && x in e2[i]
      ensures Agrees(h.scopes[i][x], e2[i][x], base, s.mem)
    {
      assert x in env[i];
    }
  }

  /** Leaving a scope keeps the outer variables where they were. */
  lemma LeaveMatches(scopes: Scopes, env: Env, base: int, mem: Memory)
    requires Matches(scopes, env, base, mem) && env != []
    ensures Matches(Pop(scopes), env[..|env| - 1], base, mem)
  {
    var outer := env[..|env| - 1];
    forall i | 0 <= i < |outer| ensures Pop(scopes)[i].Keys == outer[i].Keys {
      assert scopes[i].Keys == env[i].Keys;
    }
    forall i, x | 0 <= i < |outer| && x in outer[i]
      ensures Agrees(Pop(scopes)[i][x], outer[i][x], base, mem)
    {
      assert x in env[i];
    }
  }

  lemma LeaveFollows(text: seq<Line>, g: Gen, h: Gen, r: Run, base: int, pc: nat, s: Store,
                     after: nat, fuel: nat, n: nat, c: Config)
    requires Laid(g, base) && Pop(h.scopes) == g.scopes
    requires h == g.(free := h.free, counter := h.counter, scopes := h.scopes, offsets := h.offsets)
    requires h.free <= g.free && h.scopes != []
    requires Follows(text, h, r, base, pc, s, after, fuel, n, c)
    ensures Follows(text, g, Leave(r), base, pc, s, after, fuel, n, c)
  {
    if r.Done? {
      assert r.env != [];
      LeaveMatches(h.scopes, r.env, base, c.store.mem);
    }
  }

  // ----- The theorem -----

  /** What the theorem asks: code in place, labels linked, the frame holding, and room for locals. */
  ghost predicate Ready(text: seq<Line>, pc: nat, code: seq<Line>, g: Gen, env: Env, base: int,
                        s: Store, depth: nat) {
    && At(text, pc, code) && Linked(text, g) && Holds(g, env, base, s)
    && TopOf(g) + 4 * depth <= g.total
  }

  /**
   Running the code of a statement from its first line follows the source run: it falls through,
   or reaches the innermost loop's end, its start or update, or the function's end, as the source
   does; if the source does not stop within `fuel` iterations, the machine runs `fuel` steps.
   */
  lemma {:induction false} StmtCorrect(text: seq<Line>, pc: nat, g: Gen, x: Stmt, env: Env,
                                       fuel: nat, base: int, s: Store)
    returns (n: nat, c: Config)
    requires GenStmt(g, x).Success?
    requires Ready(text, pc, GenStmt(g, x).value.code, g, env, base, s, Depth(x))
    ensures Follows(text, g, Exec(UnsignedOrder, x, env, fuel), base, pc, s,
                    pc + |GenStmt(g, x).value.code|, fuel, n, c)
    decreases fuel, x, 3
  {
    hide Holds, Travels, Follows, At, Unique, Linked, GenSimple, GenBlock, GenIf, GenWhile, GenFor;
    hide GenExpr, Exec, RunSimple, Value, Find;
    match x
    case Do(simple) =>
      n, c := SimpleFollows(text, pc, g, simple, env, fuel, base, s);
    case Block(_, _) =>
      n, c := BlockCorrect(text, pc, g, x, env, fuel, base, s);
    case If(_, _, _) =>
      n, c := IfCorrect(text, pc, g, x, env, fuel, base, s);
    case While(_, _) =>
      n, c := WhileCorrect(text, pc, g, x, env, fuel, base, s);
    case For(_, _, _, _) =>
      n, c := ForCorrect(text, pc, g, x, env, fuel, base, s);
    case Break =>
      n, c := BreakFollows(text, pc, g, x, env, fuel, base, s);
    case Continue =>
      n, c := BreakFollows(text, pc, g, x, env, fuel, base, s);
    case Return(e) =>
      n, c := ReturnFollows(text, pc, g, e, env, fuel, base, s);
  }

  lemma SimpleFollows(text: seq<Line>, pc: nat, g: Gen, x: Simple, env: Env, fuel: nat,
                      base: int, s: Store)
    returns (n: nat, c: Config)
    requires GenSimple(g, x).Success?
    requires Ready(text, pc, GenSimple(g, x).value.code, g, env, base, s, 0)
    ensures Follows(text, g, Exec(UnsignedOrder, Do(x), env, fuel), base, pc, s,
                    pc + |GenSimple(g, x).value.code|, fuel, n, c)
  {
    n, c := 0, Config(pc, s);
    if RunSimple(UnsignedOrder, x, env).Some? {
      c := SimpleTravels(text, pc, g, x, env, base, s);
      n := |GenSimple(g, x).value.code|;
    }
  }

  lemma SimpleTravels(text: seq<Line>, pc: nat, g: Gen, x: Simple, env: Env, base: int, s: Store)
    returns (c: Config)
    requires GenSimple(g, x).Success? && At(text, pc, GenSimple(g, x).value.code)
    requires Holds(g, env, base, s) && RunSimple(UnsignedOrder, x, env).Some?
    ensures var r := GenSimple(g, x).value;
            && Travels(text, g, base, pc, s, |r.code|, pc + |r.code|, c.store)
            && Holds(g, RunSimple(UnsignedOrder, x, env).value, base, c.store)
            && r.gen == g.(free := r.gen.free) && r.gen.free <= g.free
  {
    hide Holds, RunSimple, GenSimple, Travels, RunStraight;
    var r := GenSimple(g, x).value;
    SimpleAccounts(g, x);
    SimpleCorrect(g, x, env, base, s);
    var s2 := RunStraight(r.code, s);
    c := Config(pc + |r.code|, s2);
    StraightTravels(text, g, base, pc, r.code, s);
    HoldsBasics(g, env, base, s);
    HoldsFor(r.gen, g, RunSimple(UnsignedOrder, x, env).value, base, s2);
  }

  lemma JumpFollows(text: seq<Line>, pc: nat, g: Gen, l: Label, flow: Flow, env: Env, fuel: nat,
                    base: int, s: Store)
    returns (n: nat, c: Config)
    requires At(text, pc, [JumpTo(l)]) && Holds(g, env, base, s)
    requires Find(text, l) < |text| && Find(text, l) == ExitLine(text, g, flow, pc + 1)
    requires flow.Returned? && flow.value.Some? ==> s.regs[S1] == flow.value.value
    ensures Follows(text, g, Done(flow, env), base, pc, s, pc + 1, fuel, n, c)
    ensures n == 1
  {
    AtLine(text, pc, [JumpTo(l)], 0);
    n, c := 1, Config(Find(text, l), s);
    TravelsStep(text, g, base, pc, s, Find(text, l));
  }

  lemma BreakFollows(text: seq<Line>, pc: nat, g: Gen, x: Stmt, env: Env, fuel: nat,
                     base: int, s: Store)
    returns (n: nat, c: Config)
    requires (x.Break? || x.Continue?) && GenStmt(g, x).Success?
    requires Ready(text, pc, GenStmt(g, x).value.code, g, env, base, s, 0)
    ensures Follows(text, g, Exec(UnsignedOrder, x, env, fuel), base, pc, s,
                    pc + |GenStmt(g, x).value.code|, fuel, n, c)
  {
    hide Holds, Travels, Follows, At, Unique, Find, Defines;
    var l := if x.Break? then g.ends[|g.ends| - 1] else g.starts[|g.starts| - 1];
    FindDefined(text, l);
    n, c := JumpFollows(text, pc, g, l, if x.Break? then Broke else Continued, env, fuel, base, s);
  }

  lemma ReturnFollows(text: seq<Line>, pc: nat, g: Gen, e: Option<Expr>, env: Env, fuel: nat,
                      base: int, s: Store)
    returns (n: nat, c: Config)
    requires GenReturn(g, e).Success?
    requires Ready(text, pc, GenReturn(g, e).value.code, g, env, base, s, 0)
    ensures Follows(text, g, Exec(UnsignedOrder, Return(e), env, fuel), base, pc, s,
                    pc + |GenReturn(g, e).value.code|, fuel, n, c)
  {
    hide Holds, Travels, At, Unique, Find, Defines, Value, GenExpr, RunStraight;
    n, c := 0, Config(pc, s);
    FindDefined(text, g.functionEnd);
    if e.None? {
      assert [] + [JumpTo(g.functionEnd)] == [JumpTo(g.functionEnd)];
      n, c := JumpFollows(text, pc, g, g.functionEnd, Returned(None), env, fuel, base, s);
    } else if Value(UnsignedOrder, e.value, env).Some? {
      n, c := ResultFollows(text, pc, g, e.value, GenExpr(g, e.value, S1).value, env, fuel, base, s);
    }
  }

  lemma ResultFollows(text: seq<Line>, pc: nat, g: Gen, e: Expr, ec: Emitted, env: Env, fuel: nat,
                      base: int, s: Store)
    returns (n: nat, c: Config)
    requires GenExpr(g, e, S1) == Success(ec) && Value(UnsignedOrder, e, env).Some?
    requires Ready(text, pc, ec.code + [JumpTo(g.functionEnd)], g, env, base, s, 0)
    ensures Follows(text, g, Done(Returned(Value(UnsignedOrder, e, env)), env), base, pc, s,
                    pc + |ec.code| + 1, fuel, n, c)
  {
    hide Holds, Travels, At, Unique, Find, Defines, Value, GenExpr, RunStraight, Follows, Laid;
    var s2 := ResultValue(g, e, env, base, s);
    HoldsLaid(g, env, base, s);
    AtSplit(text, pc, ec.code, [JumpTo(g.functionEnd)]);
    StraightTravels(text, g, base, pc, ec.code, s);
    FindDefined(text, g.functionEnd);
    var flow := Returned(Value(UnsignedOrder, e, env));
    n, c := JumpFollows(text, pc + |ec.code|, g, g.functionEnd, flow, env, fuel, base, s2);
    Chain(text, g, g, Done(flow, env), base, pc, s, |ec.code|, pc + |ec.code|, s2,
          pc + |ec.code| + 1, fuel, n, c);
    n := |ec.code| + n;
  }

  lemma ResultValue(g: Gen, e: Expr, env: Env, base: int, s: Store) returns (s2: Store)
    requires GenExpr(g, e, S1).Success? && Holds(g, env, base, s)
    requires Value(UnsignedOrder, e, env).Some?
    ensures s2 == RunStraight(GenExpr(g, e, S1).value.code, s)
    ensures Holds(g, env, base, s2) && AllStraight(GenExpr(g, e, S1).value.code)
    ensures s2.regs[S1] == Value(UnsignedOrder, e, env).value
    ensures Same(s.regs, s2.regs, g.free + {S1}) && s2.mem == s.mem
  {
    hide Holds, Value, GenExpr, RunStraight;
    HoldsBasics(g, env, base, s);
    ExprAccounts(g, e, S1);
    ExprCorrect(g, e, S1, env, base, s);
    s2 := RunStraight(GenExpr(g, e, S1).value.code, s);
    HoldsKept(g, g, env, base, s, s2, g.free + {S1});
  }

  // ----- Sequences -----

  lemma {:induction false} AllCorrect(text: seq<Line>, pc: nat, g: Gen, xs: seq<Stmt>, env: Env,
                                      fuel: nat, base: int, s: Store)
    returns (n: nat, c: Config)
    requires GenAll(g, xs).Success?
    requires Ready(text, pc, GenAll(g, xs).value.code, g, env, base, s, DepthAll(xs))
    ensures Follows(text, g, ExecAll(UnsignedOrder, xs, env, fuel), base, pc, s,
                    pc + |GenAll(g, xs).value.code|, fuel, n, c)
    decreases fuel, xs, 1
  {
    hide Holds, At, Unique, Defines, GenStmt, Exec, Depth, Local, Find, Travels, Laid;
    n, c := 0, Config(pc, s);
    if xs == [] {
      TravelsNowhere(text, g, base, pc, s);
    } else {
      HoldsLaid(g, env, base, s);
      var first, rest := AllParts(g, xs);
      AtSplit(text, pc, first.code, rest.code);
      n, c := StmtCorrect(text, pc, g, xs[0], env, fuel, base, s);
      n, c := RestCorrect(text, pc, g, xs, first, rest, env, fuel, base, s, n, c);
    }
  }

  lemma TravelsNowhere(text: seq<Line>, g: Gen, base: int, pc: nat, s: Store)
    ensures Travels(text, g, base, pc, s, 0, pc, s)
  {
  }

  lemma AllParts(g: Gen, xs: seq<Stmt>) returns (first: Emitted, rest: Emitted)
    requires xs != [] && GenAll(g, xs).Success?
    ensures GenStmt(g, xs[0]) == Success(first) && GenAll(first.gen, xs[1..]) == Success(rest)
    ensures GenAll(g, xs) == Success(Emitted(first.code + rest.code, rest.gen))
  {
    first := GenStmt(g, xs[0]).value;
    rest := GenAll(first.gen, xs[1..]).value;
  }

  /** A run that is not normal is not affected by where the code ends. */
  lemma FollowsAway(text: seq<Line>, g: Gen, r: Run, base: int, pc: nat, s: Store, after: nat,
                    after2: nat, fuel: nat, n: nat, c: Config)
    requires Follows(text, g, r, base, pc, s, after, fuel, n, c)
    requires !(r.Done? && r.flow.Normal?)
    ensures Follows(text, g, r, base, pc, s, after2, fuel, n, c)
  {
  }

  lemma FollowsNormal(text: seq<Line>, g: Gen, r: Run, base: int, pc: nat, s: Store, after: nat,
                      fuel: nat, n: nat, c: Config)
    requires Follows(text, g, r, base, pc, s, after, fuel, n, c)
    requires r.Done? && r.flow.Normal?
    ensures Travels(text, g, base, pc, s, n, after, c.store) && Holds(g, r.env, base, c.store)
  {
  }

  lemma {:induction false} RestCorrect(text: seq<Line>, pc: nat, g: Gen, xs: seq<Stmt>,
                                       first: Emitted, rest: Emitted, env: Env, fuel: nat,
                                       base: int, s: Store, m: nat, d: Config)
    returns (n: nat, c: Config)
    requires xs != [] && GenStmt(g, xs[0]) == Success(first) && GenAll(first.gen, xs[1..]) == Success(rest)
    requires At(text, pc + |first.code|, rest.code) && Linked(text, g) && Laid(g, base)
    requires TopOf(g) + 4 * DepthAll(xs) <= g.total
    requires Follows(text, g, Exec(UnsignedOrder, xs[0], env, fuel), base, pc, s,
                     pc + |first.code|, fuel, m, d)
    ensures Follows(text, g, ExecAll(UnsignedOrder, xs, env, fuel), base, pc, s,
                    pc + |first.code + rest.code|, fuel, n, c)
    decreases fuel, xs, 0
  {
    hide Holds, Travels, GenStmt, GenAll, Follows, Exec, Laid, At;
    var r := Exec(UnsignedOrder, xs[0], env, fuel);
    var after := pc + |first.code + rest.code|;
    if r.Done? && r.flow.Normal? {
      FollowsNormal(text, g, r, base, pc, s, pc + |first.code|, fuel, m, d);
      StmtKeeps(g, xs[0]);
      HoldsLaid(g, r.env, base, d.store);
      HoldsFor(g, first.gen, r.env, base, d.store);
      n, c := AllCorrect(text, pc + |first.code|, first.gen, xs[1..], r.env, fuel, base, d.store);
      Chain(text, g, first.gen, ExecAll(UnsignedOrder, xs[1..], r.env, fuel), base, pc, s, m,
            pc + |first.code|, d.store, after, fuel, n, c);
      n := m + n;
    } else {
      n, c := m, d;
      FollowsAway(text, g, r, base, pc, s, pc + |first.code|, after, fuel, n, c);
    }
  }

  lemma StmtKeeps(g: Gen, x: Stmt)
    requires GenStmt(g, x).Success?
    ensures var h := GenStmt(g, x).value.gen;
            h == g.(free := h.free, counter := h.counter) && h.free <= g.free
  {
    StmtAccounts(g, x);
  }

  lemma HoldsLaid(g: Gen, env: Env, base: int, s: Store)
    requires Holds(g, env, base, s)
    ensures Laid(g, base) && g.free <= POOL
  {
  }

  // ----- Blocks -----

  lemma {:induction false} BlockCorrect(text: seq<Line>, pc: nat, g: Gen, x: Stmt, env: Env,
                                        fuel: nat, base: int, s: Store)
    returns (n: nat, c: Config)
    requires x.Block? && GenStmt(g, x).Success?
    requires Ready(text, pc, GenStmt(g, x).value.code, g, env, base, s, Depth(x))
    ensures Follows(text, g, Exec(UnsignedOrder, x, env, fuel), base, pc, s,
                    pc + |GenStmt(g, x).value.code|, fuel, n, c)
    decreases fuel, x, 2
  {
    hide Holds, Travels, At, Linked, GenStmt, GenDecls, GenAll, ExecAll, RunDecls, Leave, Enter, Depth;
    n, c := 0, Config(pc, s);
    var inner, dc, bc := BlockParts(g, x);
    var begun := RunDecls(UnsignedOrder, Flatten(x.decls), env + [map[]]);
    if begun.Some? {
      n, c := BodyCorrect(text, pc, g, x, inner, dc, bc, env, begun.value, fuel, base, s);
    }
  }

  lemma {:induction false} BodyCorrect(text: seq<Line>, pc: nat, g: Gen, x: Stmt, inner: Gen,
                                       dc: Emitted, bc: Emitted, env: Env, begun: Env,
                                       fuel: nat, base: int, s: Store)
    returns (n: nat, c: Config)
    requires x.Block? && Enter(g) == Success(inner)
    requires GenDecls(inner, Flatten(x.decls)) == Success(dc) && GenAll(dc.gen, x.body) == Success(bc)
    requires RunDecls(UnsignedOrder, Flatten(x.decls), env + [map[]]) == Some(begun)
    requires Ready(text, pc, dc.code + bc.code, g, env, base, s, Depth(x))
    ensures Follows(text, g, Leave(ExecAll(UnsignedOrder, x.body, begun, fuel)), base, pc, s,
                    pc + |dc.code + bc.code|, fuel, n, c)
    decreases fuel, x, 1
  {
    hide Holds, Travels, GenDecls, GenAll, Follows, ExecAll, RunDecls, RunStraight, Leave, Reaches;
    hide Unique, Defines, Laid, Flatten, DeclWords, At;
    EnterHolds(g, env, base, s);
    HoldsLaid(g, env, base, s);
    var s2 := DeclsTravel(text, pc, g, inner, Flatten(x.decls), dc, env + [map[]], base, s) by {
      AtSplit(text, pc, dc.code, bc.code);
    }
    AtSplit(text, pc, dc.code, bc.code);
    n, c := AllCorrect(text, pc + |dc.code|, dc.gen, x.body, begun, fuel, base, s2);
    var r := ExecAll(UnsignedOrder, x.body, begun, fuel);
    var after := pc + |dc.code + bc.code|;
    LeaveFollows(text, g, dc.gen, r, base, pc + |dc.code|, s2, after, fuel, n, c);
    Chain(text, g, g, Leave(r), base, pc, s, |dc.code|, pc + |dc.code|, s2, after, fuel, n, c);
    n := |dc.code| + n;
  }

  lemma DeclsTravel(text: seq<Line>, pc: nat, g: Gen, inner: Gen, ds: seq<Declarator>, dc: Emitted,
                    env: Env, base: int, s: Store)
    returns (s2: Store)
    requires Enter(g) == Success(inner) && GenDecls(inner, ds) == Success(dc)
    requires At(text, pc, dc.code) && Holds(inner, env, base, s)
    requires TopOf(inner) + 4 * DeclWords(ds) <= inner.total
    requires RunDecls(UnsignedOrder, ds, env).Some?
    ensures Travels(text, g, base, pc, s, |dc.code|, pc + |dc.code|, s2)
    ensures Holds(dc.gen, RunDecls(UnsignedOrder, ds, env).value, base, s2)
    ensures TopOf(dc.gen) == TopOf(inner) + 4 * DeclWords(ds) && dc.gen.free <= g.free
    ensures Pop(dc.gen.scopes) == g.scopes && dc.gen.scopes != []
    ensures dc.gen == g.(free := dc.gen.free, scopes := dc.gen.scopes, offsets := dc.gen.offsets)
  {
    hide Holds, Travels, GenDecls, RunDecls, RunStraight;
    DeclsAccounts(inner, ds);
    DeclsCorrect(inner, ds, env, base, s);
    s2 := RunStraight(dc.code, s);
    StraightTravels(text, g, base, pc, dc.code, s);
    assert Pop(inner.scopes) == g.scopes;
  }

  // ----- Conditionals -----

  /** A run that falls through onto a label goes past it. */
  lemma ThenMark(text: seq<Line>, g: Gen, r: Run, base: int, pc: nat, s: Store, after: nat,
                 fuel: nat, n: nat, c: Config)
    returns (m: nat, d: Config)
    requires Follows(text, g, r, base, pc, s, after, fuel, n, c)
    requires after < |text| && text[after].Mark?
    ensures Follows(text, g, r, base, pc, s, after + 1, fuel, m, d)
  {
    hide Holds, Same, Local;
    m, d := n, c;
    if r.Done? && r.flow.Normal? {
      m, d := n + 1, Config(after + 1, c.store);
      TravelsStep(text, g, base, after, c.store, after + 1);
      TravelsTrans(text, g, g, base, pc, s, n, after, c.store, 1, after + 1, c.store);
    }
  }

  /** A run that falls through onto a jump goes to its label. */
  lemma ThenJump(text: seq<Line>, g: Gen, r: Run, base: int, pc: nat, s: Store, after: nat,
                 l: Label, fuel: nat, n: nat, c: Config)
    returns (m: nat, d: Config)
    requires Follows(text, g, r, base, pc, s, after, fuel, n, c)
    requires after < |text| && text[after] == JumpTo(l) && Find(text, l) < |text|
    ensures Follows(text, g, r, base, pc, s, Find(text, l), fuel, m, d)
  {
    hide Holds, Same, Local, Find;
    m, d := n, c;
    if r.Done? && r.flow.Normal? {
      var to := Find(text, l);
      m, d := n + 1, Config(to, c.store);
      TravelsStep(text, g, base, after, c.store, to);
      TravelsTrans(text, g, g, base, pc, s, n, after, c.store, 1, to, c.store);
    }
  }

  /** Where the parts of an `if` lie when its code is in the text. */
  lemma IfPlaced(text: seq<Line>, pc: nat, cond: seq<Line>, r: Reg, n: nat,
                 thn: seq<Line>, els: seq<Line>)
    returns (a: nat, b: nat)
    requires At(text, pc, IfCode(cond, r, n, thn, els)) && Unique(text)
    ensures a == pc + |cond| + 1 + |thn| && b == a + 2 + |els|
    ensures b + 1 == pc + |IfCode(cond, r, n, thn, els)| <= |text|
    ensures At(text, pc, cond + [BeqzTo(r, Numbered("else", n))])
    ensures At(text, pc + |cond| + 1, thn) && At(text, a + 2, els)
    ensures text[a] == JumpTo(Numbered("end_if", n + 1)) && text[a + 1] == Mark(Numbered("else", n))
    ensures text[b] == Mark(Numbered("end_if", n + 1))
    ensures Find(text, Numbered("else", n)) == a + 1 && Find(text, Numbered("end_if", n + 1)) == b
    ensures Defines(text, Numbered("else", n))
  {
    hide Find, Unique;
    var test := cond + [BeqzTo(r, Numbered("else", n))];
    var mid := [JumpTo(Numbered("end_if", n + 1)), Mark(Numbered("else", n))];
    var last := [Mark(Numbered("end_if", n + 1))];
    a := pc + |cond| + 1 + |thn|;
    b := a + 2 + |els|;
    AtSplit(text, pc, test + thn + mid + els, last);
    AtSplit(text, pc, test + thn + mid, els);
    AtSplit(text, pc, test + thn, mid);
    AtSplit(text, pc, test, thn);
    AtLine(text, a, mid, 0);
    AtLine(text, a, mid, 1);
    AtLine(text, b, last, 0);
    FindUnique(text, Numbered("else", n), a + 1);
    FindUnique(text, Numbered("end_if", n + 1), b);
  }

  lemma {:induction false} IfCorrect(text: seq<Line>, pc: nat, g: Gen, x: Stmt, env: Env,
                                     fuel: nat, base: int, s: Store)
    returns (n: nat, c: Config)
    requires x.If? && GenStmt(g, x).Success?
    requires Ready(text, pc, GenStmt(g, x).value.code, g, env, base, s, Depth(x))
    ensures Follows(text, g, Exec(UnsignedOrder, x, env, fuel), base, pc, s,
                    pc + |GenStmt(g, x).value.code|, fuel, n, c)
    decreases fuel, x, 2
  {
    hide Holds, Travels, At, Linked, GenStmt, GenExpr, GenElse, Take, Value, IfCode, RunStraight;
    n, c := 0, Config(pc, s);
    var t, cc, tc, ec := IfParts(g, x);
    if Value(UnsignedOrder, x.cond, env).Some? {
      ExprAccounts(t.gen, x.cond, t.reg);
      StmtKeeps(cc.gen.(counter := cc.gen.counter + 2), x.thn);
      TakeShrinks(g);
      if Value(UnsignedOrder, x.cond, env).value != 0 {
        n, c := ThenBranch(text, pc, g, x, t, cc, tc, ec, env, fuel, base, s);
      } else {
        n, c := ElseBranch(text, pc, g, x, t, cc, tc, ec, env, fuel, base, s);
      }
    }
  }

  lemma {:induction false} ThenBranch(text: seq<Line>, pc: nat, g: Gen, x: Stmt, t: Taken,
                                      cc: Emitted, tc: Emitted, ec: Emitted, env: Env,
                                      fuel: nat, base: int, s: Store)
    returns (n: nat, c: Config)
    requires x.If? && Take(g) == Success(t) && GenExpr(t.gen, x.cond, t.reg) == Success(cc)
    requires GenStmt(cc.gen.(counter := cc.gen.counter + 2), x.thn) == Success(tc)
    requires cc.gen == g.(free := cc.gen.free) && cc.gen.free <= g.free
    requires Ready(text, pc, IfCode(cc.code, t.reg, cc.gen.counter, tc.code, ec.code), g, env, base,
                   s, Depth(x.thn))
    requires Value(UnsignedOrder, x.cond, env).Some? && Value(UnsignedOrder, x.cond, env).value != 0
    ensures Follows(text, g, Exec(UnsignedOrder, x.thn, env, fuel), base, pc, s,
                    pc + |IfCode(cc.code, t.reg, cc.gen.counter, tc.code, ec.code)|, fuel, n, c)
    decreases fuel, x, 1
  {
    hide Holds, Travels, At, Follows, GenStmt, GenExpr, Take, Value, IfCode, Laid, Unique, Find, Defines;
    hide Exec, Depth;
    var k := cc.gen.counter;
    HoldsLaid(g, env, base, s);
    var a, b := IfPlaced(text, pc, cc.code, t.reg, k, tc.code, ec.code);
    var s2 := CondCorrect(text, pc, g, t, cc, x.cond, Numbered("else", k), env, base, s);
    var start, h := pc + |cc.code| + 1, cc.gen.(counter := k + 2);
    HoldsFor(g, h, env, base, s2);
    n, c := StmtCorrect(text, start, h, x.thn, env, fuel, base, s2);
    var r := Exec(UnsignedOrder, x.thn, env, fuel);
    n, c := ThenJump(text, h, r, base, start, s2, a, Numbered("end_if", k + 1), fuel, n, c);
    n, c := ThenMark(text, h, r, base, start, s2, b, fuel, n, c);
    Chain(text, g, h, r, base, pc, s, |cc.code| + 1, start, s2, b + 1, fuel, n, c);
    n := |cc.code| + 1 + n;
  }

  lemma {:induction false} ElseBranch(text: seq<Line>, pc: nat, g: Gen, x: Stmt, t: Taken,
                                      cc: Emitted, tc: Emitted, ec: Emitted, env: Env,
                                      fuel: nat, base: int, s: Store)
    returns (n: nat, c: Config)
    requires x.If? && Take(g) == Success(t) && GenExpr(t.gen, x.cond, t.reg) == Success(cc)
    requires GenElse(tc.gen, x.els) == Success(ec) && tc.gen.free <= g.free
    requires tc.gen == g.(free := tc.gen.free, counter := tc.gen.counter)
    requires Ready(text, pc, IfCode(cc.code, t.reg, cc.gen.counter, tc.code, ec.code), g, env, base,
                   s, if x.els.Some? then Depth(x.els.value) else 0)
    requires Value(UnsignedOrder, x.cond, env) == Some(0)
    ensures Follows(text, g, if x.els.Some? then Exec(UnsignedOrder, x.els.value, env, fuel)
                             else Done(Normal, env), base, pc, s,
                    pc + |IfCode(cc.code, t.reg, cc.gen.counter, tc.code, ec.code)|, fuel, n, c)
    decreases fuel, x, 1
  {
    hide Holds, Travels, At, GenStmt, GenExpr, Take, Value, IfCode, Laid, Unique, Find, Defines;
    hide Exec, Depth;
    var k := cc.gen.counter;
    HoldsLaid(g, env, base, s);
    var a, b := IfPlaced(text, pc, cc.code, t.reg, k, tc.code, ec.code);
    var s2 := CondCorrect(text, pc, g, t, cc, x.cond, Numbered("else", k), env, base, s);
    TravelsStep(text, g, base, a + 1, s2, a + 2);
    TravelsTrans(text, g, g, base, pc, s, |cc.code| + 1, a + 1, s2, 1, a + 2, s2);
    HoldsFor(g, tc.gen, env, base, s2);
    var r := Done(Normal, env);
    if x.els.Some? {
      r := Exec(UnsignedOrder, x.els.value, env, fuel);
      n, c := StmtCorrect(text, a + 2, tc.gen, x.els.value, env, fuel, base, s2);
    } else {
      n, c := 0, Config(a + 2, s2);
      TravelsNowhere(text, tc.gen, base, a + 2, s2);
    }
    n, c := ThenMark(text, tc.gen, r, base, a + 2, s2, b, fuel, n, c);
    Chain(text, g, tc.gen, r, base, pc, s, |cc.code| + 2, a + 2, s2, b + 1, fuel, n, c);
    n := |cc.code| + 2 + n;
  }

  // ----- Loops -----

  /** The source run of a loop whose body ended other than by going round again. */
  function LoopExit(r: Run): Run {
    if r.Done? && r.flow.Broke? then Done(Normal, r.env) else r
  }

  predicate GoesRound(r: Run) {
    r.Done? && (r.flow.Normal? || r.flow.Continued?)
  }

  /** Outside the loop the label stacks are shorter; the rest of the frame is the same. */
  predicate InLoop(g: Gen, h: Gen) {
    h == g.(free := h.free, counter := h.counter, starts := h.starts, ends := h.ends)
    && h.free <= g.free
  }

  /** A body that breaks, returns, or does not stop leaves the loop. */
  lemma LoopLeft(text: seq<Line>, g: Gen, h: Gen, r: Run, base: int, pc: nat, s: Store, m: nat,
                 start: nat, s2: Store, after: nat, stop: nat, fuel: nat, n: nat, c: Config)
    returns (k: nat, d: Config)
    requires InLoop(g, h) && Laid(g, base) && !GoesRound(r)
    requires Travels(text, g, base, pc, s, m, start, s2)
    requires Follows(text, h, r, base, start, s2, after, fuel, n, c)
    requires h.ends != [] && stop < |text| && Find(text, h.ends[|h.ends| - 1]) == stop
    ensures Follows(text, g, LoopExit(r), base, pc, s, stop + 1, fuel, k, d)
  {
    hide Holds, Laid, Local, Same;
    k, d := m + n, c;
    if r.Timeout? {
      StepsAdd(text, Config(pc, s), m, n);
    } else if r.Done? {
      HoldsLaid(h, r.env, base, c.store);
      LaidPool(g, base);
      HoldsFor(h, g, r.env, base, c.store);
      var to := ExitLine(text, h, r.flow, after);
      TravelsTrans(text, g, h, base, pc, s, m, start, s2, n, to, c.store);
      if r.flow.Broke? {
        TravelsStep(text, g, base, stop, c.store, stop + 1);
        TravelsTrans(text, g, g, base, pc, s, m + n, stop, c.store, 1, stop + 1, c.store);
        k, d := m + n + 1, Config(stop + 1, c.store);
      }
    }
  }

  lemma LaidPool(g: Gen, base: int)
    requires Laid(g, base)
    ensures g.free <= POOL
  {
  }

  /** One more turn of a loop uses at least one step. */
  lemma LoopTurned(text: seq<Line>, g: Gen, r: Run, base: int, pc: nat, s: Store, m: nat,
                   s2: Store, after: nat, fuel: nat, n: nat, c: Config)
    requires Laid(g, base) && 0 < m && 0 < fuel
    requires Travels(text, g, base, pc, s, m, pc, s2)
    requires Follows(text, g, r, base, pc, s2, after, fuel - 1, n, c)
    ensures Follows(text, g, r, base, pc, s, after, fuel, m + n, c)
  {
    hide Holds, Laid, Local, Same;
    if r.Done? {
      TravelsTrans(text, g, g, base, pc, s, m, pc, s2, n, ExitLine(text, g, r.flow, after), c.store);
    } else if r.Timeout? {
      StepsAdd(text, Config(pc, s), m, n);
    }
  }

  lemma WhilePlaced(text: seq<Line>, pc: nat, start: Label, end: Label, cond: seq<Line>, r: Reg,
                    loop: seq<Line>)
    returns (a: nat)
    requires At(text, pc, WhileCode(start, end, cond, r, loop)) && Unique(text)
    ensures a == pc + |cond| + 2 + |loop| && a + 2 == pc + |WhileCode(start, end, cond, r, loop)| <= |text|
    ensures text[pc] == Mark(start) && Find(text, start) == pc
    ensures At(text, pc + 1, cond + [BeqzTo(r, end)]) && At(text, pc + |cond| + 2, loop)
    ensures text[a] == JumpTo(start) && text[a + 1] == Mark(end) && Find(text, end) == a + 1
    ensures Defines(text, start) && Defines(text, end)
  {
    hide Find, Unique;
    var test, last := cond + [BeqzTo(r, end)], [JumpTo(start), Mark(end)];
    a := pc + |cond| + 2 + |loop|;
    assert WhileCode(start, end, cond, r, loop) == [Mark(start)] + (test + (loop + last));
    AtSplit(text, pc, [Mark(start)], test + (loop + last));
    AtSplit(text, pc + 1, test, loop + last);
    AtSplit(text, pc + |cond| + 2, loop, last);
    AtLine(text, pc, [Mark(start)], 0);
    AtLine(text, a, last, 0);
    AtLine(text, a, last, 1);
    FindUnique(text, start, pc);
    FindUnique(text, end, a + 1);
  }

  /** The pieces of a `while` whose code sits at `pc`. */
  ghost predicate WhileAt(text: seq<Line>, pc: nat, g: Gen, x: Stmt, t: Taken, cc: Emitted, bc: Emitted) {
    && x.While? && Take(WhileOpen(g)) == Success(t)
    && GenExpr(t.gen, x.cond, t.reg) == Success(cc) && GenStmt(cc.gen, x.loop) == Success(bc)
    && InLoop(g, WhileOpen(g)) && InLoop(g, cc.gen) && cc.gen.ends == WhileOpen(g).ends
    && cc.gen.starts == WhileOpen(g).starts
    && At(text, pc, WhileCode(Numbered("loop_start", g.counter), Numbered("loop_end", g.counter + 1),
                              cc.code, t.reg, bc.code))
  }

  lemma {:induction false} WhileCorrect(text: seq<Line>, pc: nat, g: Gen, x: Stmt, env: Env,
                                        fuel: nat, base: int, s: Store)
    returns (n: nat, c: Config)
    requires x.While? && GenStmt(g, x).Success?
    requires Ready(text, pc, GenStmt(g, x).value.code, g, env, base, s, Depth(x))
    ensures Follows(text, g, Exec(UnsignedOrder, x, env, fuel), base, pc, s,
                    pc + |GenStmt(g, x).value.code|, fuel, n, c)
    decreases fuel, x, 2
  {
    hide Holds, Travels, At, Linked, GenStmt, GenExpr, Take, Value, ExecLoop, Follows;
    var t, cc, bc := WhileParts(g, x);
    ExprAccounts(t.gen, x.cond, t.reg);
    TakeShrinks(WhileOpen(g));
    n, c := WhileLoop(text, pc, g, x, t, cc, bc, env, fuel, base, s);
  }

  lemma {:induction false} WhileLoop(text: seq<Line>, pc: nat, g: Gen, x: Stmt, t: Taken,
                                     cc: Emitted, bc: Emitted, env: Env, fuel: nat,
                                     base: int, s: Store)
    returns (n: nat, c: Config)
    requires WhileAt(text, pc, g, x, t, cc, bc) && Linked(text, g) && Holds(g, env, base, s)
    requires TopOf(g) + 4 * Depth(x.loop) <= g.total
    ensures Follows(text, g, ExecLoop(UnsignedOrder, Some(x.cond), None, x.loop, env, fuel), base,
                    pc, s, pc + |cc.code| + |bc.code| + 4, fuel, n, c)
    decreases fuel, x, 1
  {
    hide Holds, Travels, At, Linked, GenStmt, GenExpr, Take, Value, WhileCode, WhileOpen, Exec, Depth, Laid;
    n, c := 0, Config(pc, s);
    if fuel > 0 && Value(UnsignedOrder, x.cond, env).Some? {
      var w := Value(UnsignedOrder, x.cond, env).value;
      var s2 := WhileTest(text, pc, g, x, t, cc, bc, env, base, s);
      if w == 0 {
        n, c := |cc.code| + 3, Config(pc + |cc.code| + |bc.code| + 4, s2);
      } else {
        n, c := WhileBody(text, pc, g, x, t, cc, bc, env, fuel, base, s, s2);
      }
    }
  }

  lemma WhileTest(text: seq<Line>, pc: nat, g: Gen, x: Stmt, t: Taken, cc: Emitted, bc: Emitted,
                  env: Env, base: int, s: Store)
    returns (s2: Store)
    requires WhileAt(text, pc, g, x, t, cc, bc) && Linked(text, g) && Holds(g, env, base, s)
    requires Value(UnsignedOrder, x.cond, env).Some?
    ensures Holds(g, env, base, s2)
    ensures if Value(UnsignedOrder, x.cond, env).value == 0
            then Travels(text, g, base, pc, s, |cc.code| + 3, pc + |cc.code| + |bc.code| + 4, s2)
            else Travels(text, g, base, pc, s, |cc.code| + 2, pc + |cc.code| + 2, s2)
  {
    hide Holds, Travels, At, GenStmt, GenExpr, Take, Value, WhileCode, Find, Defines, Unique;
    var start, end := Numbered("loop_start", g.counter), Numbered("loop_end", g.counter + 1);
    var h := WhileOpen(g);
    var a := WhilePlaced(text, pc, start, end, cc.code, t.reg, bc.code);
    HoldsLaid(g, env, base, s);
    HoldsFor(g, h, env, base, s);
    s2 := CondCorrect(text, pc + 1, h, t, cc, x.cond, end, env, base, s);
    HoldsFor(h, g, env, base, s2);
    var zero := Value(UnsignedOrder, x.cond, env).value == 0;
    var to := if zero then a + 1 else pc + |cc.code| + 2;
    TravelsStep(text, g, base, pc, s, pc + 1);
    TravelsTrans(text, g, h, base, pc, s, 1, pc + 1, s, |cc.code| + 1, to, s2);
    if zero {
      TravelsStep(text, g, base, a + 1, s2, a + 2);
      TravelsTrans(text, g, g, base, pc, s, |cc.code| + 2, a + 1, s2, 1, a + 2, s2);
    }
  }

  lemma {:induction false} WhileBody(text: seq<Line>, pc: nat, g: Gen, x: Stmt, t: Taken,
                                     cc: Emitted, bc: Emitted, env: Env, fuel: nat,
                                     base: int, s: Store, s2: Store)
    returns (n: nat, c: Config)
    requires WhileAt(text, pc, g, x, t, cc, bc) && Linked(text, g) && Holds(g, env, base, s2)
    requires TopOf(g) + 4 * Depth(x.loop) <= g.total && fuel > 0
    requires Travels(text, g, base, pc, s, |cc.code| + 2, pc + |cc.code| + 2, s2)
    requires Value(UnsignedOrder, x.cond, env).Some? && Value(UnsignedOrder, x.cond, env).value != 0
    ensures Follows(text, g, ExecLoop(UnsignedOrder, Some(x.cond), None, x.loop, env, fuel), base,
                    pc, s, pc + |cc.code| + |bc.code| + 4, fuel, n, c)
    decreases fuel, x, 0
  {
    hide Holds, Travels, At, GenStmt, GenExpr, Take, Value, WhileCode, Find, Defines, Unique;
    hide Exec, Depth, Laid, Follows;
    var start, end := Numbered("loop_start", g.counter), Numbered("loop_end", g.counter + 1);
    var a := WhilePlaced(text, pc, start, end, cc.code, t.reg, bc.code);
    var body, h := pc + |cc.code| + 2, cc.gen;
    HoldsLaid(g, env, base, s2);
    HoldsFor(g, h, env, base, s2);
    n, c := StmtCorrect(text, body, h, x.loop, env, fuel, base, s2);
    var r := Exec(UnsignedOrder, x.loop, env, fuel);
    if GoesRound(r) {
      n, c := ThenJump(text, h, r, base, body, s2, a, start, fuel, n, c);
      RoundFollows(text, h, r, base, body, s2, pc, fuel, n, c);
      TravelsTrans(text, g, h, base, pc, s, |cc.code| + 2, body, s2, n, pc, c.store);
      HoldsLaid(h, r.env, base, c.store);
      HoldsFor(h, g, r.env, base, c.store);
      var m, s3 := |cc.code| + 2 + n, c.store;
      n, c := WhileLoop(text, pc, g, x, t, cc, bc, r.env, fuel - 1, base, s3);
      LoopTurned(text, g, ExecLoop(UnsignedOrder, Some(x.cond), None, x.loop, r.env, fuel - 1),
                 base, pc, s, m, s3, a + 2, fuel, n, c);
      n := m + n;
    } else {
      n, c := LoopLeft(text, g, h, r, base, pc, s, |cc.code| + 2, body, s2, a, a + 1, fuel, n, c);
    }
  }

  /** A body that falls through to, or continues at, the same line. */
  lemma RoundFollows(text: seq<Line>, h: Gen, r: Run, base: int, pc: nat, s: Store, after: nat,
                     fuel: nat, n: nat, c: Config)
    requires Follows(text, h, r, base, pc, s, after, fuel, n, c) && GoesRound(r)
    requires h.starts != [] && Find(text, h.starts[|h.starts| - 1]) == after
    ensures Travels(text, h, base, pc, s, n, after, c.store) && Holds(h, r.env, base, c.store)
  {
    hide Holds, Travels, Find;
  }

  lemma ForPlaced(text: seq<Line>, pc: nat, n: nat, test: seq<Line>, loop: seq<Line>, update: seq<Line>)
    returns (a: nat, b: nat)
    requires At(text, pc, ForCode(n, test, loop, update)) && Unique(text)
    ensures a == pc + 1 + |test| + |loop| && b == a + 1 + |update|
    ensures b + 2 == pc + |ForCode(n, test, loop, update)| <= |text|
    ensures text[pc] == Mark(Numbered("for_start", n)) && Find(text, Numbered("for_start", n)) == pc
    ensures At(text, pc + 1, test) && At(text, pc + 1 + |test|, loop) && At(text, a + 1, update)
    ensures text[a] == Mark(Numbered("for_update", n + 2)) && Find(text, Numbered("for_update", n + 2)) == a
    ensures text[b] == JumpTo(Numbered("for_start", n)) && text[b + 1] == Mark(Numbered("for_end", n + 1))
    ensures Find(text, Numbered("for_end", n + 1)) == b + 1
    ensures Defines(text, Numbered("for_update", n + 2)) && Defines(text, Numbered("for_end", n + 1))
  {
    hide Find, Unique;
    var start, end, next := Numbered("for_start", n), Numbered("for_end", n + 1), Numbered("for_update", n + 2);
    var last := [JumpTo(start), Mark(end)];
    a := pc + 1 + |test| + |loop|;
    b := a + 1 + |update|;
    AtSplit(text, pc, [Mark(start)] + test + loop + [Mark(next)] + update, last);
    AtSplit(text, pc, [Mark(start)] + test + loop + [Mark(next)], update);
    AtSplit(text, pc, [Mark(start)] + test + loop, [Mark(next)]);
    AtSplit(text, pc, [Mark(start)] + test, loop);
    AtSplit(text, pc, [Mark(start)], test);
    AtLine(text, pc, [Mark(start)], 0);
    AtLine(text, a, [Mark(next)], 0);
    AtLine(text, b, last, 0);
    AtLine(text, b, last, 1);
    FindUnique(text, start, pc);
    FindUnique(text, next, a);
    FindUnique(text, end, b + 1);
  }

  /** The pieces of a `for`, after its initialisation, whose code sits at `pc`. */
  ghost predicate ForAt(text: seq<Line>, pc: nat, g: Gen, ic: Gen, x: Stmt, tc: Emitted, bc: Emitted,
                        uc: Emitted) {
    && x.For? && InLoop(g, ic) && InLoop(g, tc.gen) && InLoop(g, bc.gen)
    && ic.ends == tc.gen.ends == ForOpen(g).ends && ic.starts == tc.gen.starts == ForOpen(g).starts
    && GenTest(ic, x.test, Numbered("for_end", g.counter + 1)) == Success(tc)
    && GenStmt(tc.gen, x.loop) == Success(bc) && GenUpdate(bc.gen, x.update) == Success(uc)
    && At(text, pc, ForCode(g.counter, tc.code, bc.code, uc.code))
  }

  lemma {:induction false} ForCorrect(text: seq<Line>, pc: nat, g: Gen, x: Stmt, env: Env,
                                      fuel: nat, base: int, s: Store)
    returns (n: nat, c: Config)
    requires x.For? && GenStmt(g, x).Success?
    requires Ready(text, pc, GenStmt(g, x).value.code, g, env, base, s, Depth(x))
    ensures Follows(text, g, Exec(UnsignedOrder, x, env, fuel), base, pc, s,
                    pc + |GenStmt(g, x).value.code|, fuel, n, c)
    decreases fuel, x, 2
  {
    hide Holds, Travels, At, Linked, GenStmt, GenTest, GenSimple, GenUpdate, RunSimple, ExecLoop, Follows, Laid;
    n, c := 0, Config(pc, s);
    var ic, tc, bc, uc := ForParts(g, x);
    if RunSimple(UnsignedOrder, x.init, env).Some? {
      var next := RunSimple(UnsignedOrder, x.init, env).value;
      var code := ForCode(g.counter, tc.code, bc.code, uc.code);
      AtSplit(text, pc, ic.code, code);
      SimpleAccounts(ForOpen(g), x.init);
      TestAccounts(ic.gen, x.test, Numbered("for_end", g.counter + 1));
      StmtKeeps(tc.gen, x.loop);
      HoldsLaid(g, env, base, s);
      HoldsFor(g, ForOpen(g), env, base, s);
      var d := SimpleTravels(text, pc, ForOpen(g), x.init, env, base, s);
      HoldsFor(ForOpen(g), g, next, base, d.store);
      TravelsAs(text, g, ForOpen(g), base, pc, s, |ic.code|, pc + |ic.code|, d.store);
      n, c := ForLoop(text, pc + |ic.code|, g, ic.gen, x, tc, bc, uc, next, fuel, base, d.store);
      Chain(text, g, g, ExecLoop(UnsignedOrder, x.test, x.update, x.loop, next, fuel), base, pc, s,
            |ic.code|, pc + |ic.code|, d.store, pc + |ic.code + code|, fuel, n, c);
      n := |ic.code| + n;
    } else {
      FollowsStuck(text, g, base, pc, s, pc + |GenStmt(g, x).value.code|, fuel, n, c);
    }
  }

  lemma TravelsAs(text: seq<Line>, g: Gen, h: Gen, base: int, pc: nat, s: Store, m: nat, pc2: nat, s2: Store)
    requires h.free <= g.free && h.total == g.total && Travels(text, h, base, pc, s, m, pc2, s2)
    ensures Travels(text, g, base, pc, s, m, pc2, s2)
  {
  }

  lemma {:induction false} ForLoop(text: seq<Line>, pc: nat, g: Gen, ic: Gen, x: Stmt, tc: Emitted,
                                   bc: Emitted, uc: Emitted, env: Env, fuel: nat, base: int, s: Store)
    returns (n: nat, c: Config)
    requires ForAt(text, pc, g, ic, x, tc, bc, uc) && Linked(text, g) && Holds(g, env, base, s)
    requires TopOf(g) + 4 * Depth(x.loop) <= g.total
    ensures Follows(text, g, ExecLoop(UnsignedOrder, x.test, x.update, x.loop, env, fuel), base,
                    pc, s, pc + |ForCode(g.counter, tc.code, bc.code, uc.code)|, fuel, n, c)
    decreases fuel, x, 1
  {
    hide Holds, Travels, At, Linked, GenStmt, GenTest, GenUpdate, Value, ForCode, ForOpen, Exec, Depth, Laid;
    n, c := 0, Config(pc, s);
    var t := if x.test.Some? then Value(UnsignedOrder, x.test.value, env) else Some(1);
    if fuel > 0 && t.Some? {
      var m, s2 := ForTest(text, pc, g, ic, x, tc, bc, uc, env, base, s);
      if t.value == 0 {
        n, c := m, Config(pc + |ForCode(g.counter, tc.code, bc.code, uc.code)|, s2);
      } else {
        n, c := ForBody(text, pc, g, ic, x, tc, bc, uc, env, fuel, base, s, m, s2);
      }
    }
  }

  /** From the loop's head: past the loop when the test is zero, else to the body. */
  lemma ForTest(text: seq<Line>, pc: nat, g: Gen, ic: Gen, x: Stmt, tc: Emitted, bc: Emitted,
                uc: Emitted, env: Env, base: int, s: Store)
    returns (m: nat, s2: Store)
    requires ForAt(text, pc, g, ic, x, tc, bc, uc) && Linked(text, g) && Holds(g, env, base, s)
    requires x.test.Some? ==> Value(UnsignedOrder, x.test.value, env).Some?
    ensures Holds(g, env, base, s2) && m > 0
    ensures Travels(text, g, base, pc, s, m,
                    if x.test.Some? && Value(UnsignedOrder, x.test.value, env).value == 0
                    then pc + |ForCode(g.counter, tc.code, bc.code, uc.code)|
                    else pc + 1 + |tc.code|, s2)
  {
    hide Holds, Travels, At, GenStmt, GenExpr, GenUpdate, Take, Value, ForCode, Find, Defines, Unique, Laid;
    var a, b := ForPlaced(text, pc, g.counter, tc.code, bc.code, uc.code);
    TravelsStep(text, g, base, pc, s, pc + 1);
    m, s2 := 1, s;
    if x.test.Some? {
      var end := Numbered("for_end", g.counter + 1);
      var t := Take(ic).value;
      var cc := GenExpr(t.gen, x.test.value, t.reg).value;
      HoldsLaid(g, env, base, s);
      HoldsFor(g, ic, env, base, s);
      s2 := CondCorrect(text, pc + 1, ic, t, cc, x.test.value, end, env, base, s);
      HoldsFor(ic, g, env, base, s2);
      m := |tc.code| + 1;
      var zero := Value(UnsignedOrder, x.test.value, env).value == 0;
      var to := if zero then b + 1 else pc + 1 + |tc.code|;
      TravelsTrans(text, g, ic, base, pc, s, 1, pc + 1, s, |tc.code|, to, s2);
      if zero {
        TravelsStep(text, g, base, b + 1, s2, b + 2);
        TravelsTrans(text, g, g, base, pc, s, m, b + 1, s2, 1, b + 2, s2);
        m := m + 1;
      }
    }
  }

  lemma {:induction false} ForBody(text: seq<Line>, pc: nat, g: Gen, ic: Gen, x: Stmt, tc: Emitted,
                                   bc: Emitted, uc: Emitted, env: Env, fuel: nat, base: int,
                                   s: Store, m: nat, s2: Store)
    returns (n: nat, c: Config)
    requires ForAt(text, pc, g, ic, x, tc, bc, uc) && Linked(text, g) && Holds(g, env, base, s2)
    requires TopOf(g) + 4 * Depth(x.loop) <= g.total && fuel > 0 && m > 0
    requires Travels(text, g, base, pc, s, m, pc + 1 + |tc.code|, s2)
    requires x.test.Some? ==>
               Value(UnsignedOrder, x.test.value, env).Some? && Value(UnsignedOrder, x.test.value, env).value != 0
    ensures Follows(text, g, ExecLoop(UnsignedOrder, x.test, x.update, x.loop, env, fuel), base,
                    pc, s, pc + |ForCode(g.counter, tc.code, bc.code, uc.code)|, fuel, n, c)
    decreases fuel, x, 0
  {
    hide Holds, Travels, At, GenStmt, GenTest, GenUpdate, Value, ForCode, Find, Defines, Unique;
    hide Exec, Depth, Laid, Follows, AfterIteration;
    var a, b := ForPlaced(text, pc, g.counter, tc.code, bc.code, uc.code);
    var body, h := pc + 1 + |tc.code|, tc.gen;
    HoldsLaid(g, env, base, s2);
    HoldsFor(g, h, env, base, s2);
    n, c := StmtCorrect(text, body, h, x.loop, env, fuel, base, s2);
    var r := Exec(UnsignedOrder, x.loop, env, fuel);
    if !GoesRound(r) {
      n, c := LoopLeft(text, g, h, r, base, pc, s, m, body, s2, a, b + 1, fuel, n, c);
    } else if AfterIteration(UnsignedOrder, x.update, r.env).Some? {
      RoundFollows(text, h, r, base, body, s2, a, fuel, n, c);
      TravelsTrans(text, g, h, base, pc, s, m, body, s2, n, a, c.store);
      HoldsLaid(h, r.env, base, c.store);
      HoldsFor(h, g, r.env, base, c.store);
      var k, s3 := UpdateTravels(text, pc, g, ic, x, tc, bc, uc, r.env, base, c.store);
      var total := m + n + k;
      TravelsTrans(text, g, g, base, pc, s, m + n, a, c.store, k, pc, s3);
      var again := AfterIteration(UnsignedOrder, x.update, r.env).value;
      n, c := ForLoop(text, pc, g, ic, x, tc, bc, uc, again, fuel - 1, base, s3);
      LoopTurned(text, g, ExecLoop(UnsignedOrder, x.test, x.update, x.loop, again, fuel - 1),
                 base, pc, s, total, s3, b + 2, fuel, n, c);
      n := total + n;
    } else {
      n, c := 0, Config(pc, s);
      assert ExecLoop(UnsignedOrder, x.test, x.update, x.loop, env, fuel) == Stuck;
      FollowsStuck(text, g, base, pc, s, b + 2, fuel, n, c);
    }
  }

  lemma FollowsStuck(text: seq<Line>, g: Gen, base: int, pc: nat, s: Store, after: nat, fuel: nat,
                     n: nat, c: Config)
    ensures Follows(text, g, Stuck, base, pc, s, after, fuel, n, c)
  {
  }

  /** From the update label, over the update, back to the head of the loop. */
  lemma UpdateTravels(text: seq<Line>, pc: nat, g: Gen, ic: Gen, x: Stmt, tc: Emitted, bc: Emitted,
                      uc: Emitted, env: Env, base: int, s: Store)
    returns (n: nat, s2: Store)
    requires ForAt(text, pc, g, ic, x, tc, bc, uc) && Unique(text) && Holds(g, env, base, s)
    requires AfterIteration(UnsignedOrder, x.update, env).Some?
    ensures n > 0 && Travels(text, g, base, pc + 1 + |tc.code| + |bc.code|, s, n, pc, s2)
    ensures Holds(g, AfterIteration(UnsignedOrder, x.update, env).value, base, s2)
  {
    hide Holds, Travels, At, GenStmt, GenTest, GenSimple, RunSimple, ForCode, Find, Defines, Unique, Laid;
    var a, b := ForPlaced(text, pc, g.counter, tc.code, bc.code, uc.code);
    TravelsStep(text, g, base, a, s, a + 1);
    n, s2 := 1, s;
    if x.update.Some? {
      HoldsLaid(g, env, base, s);
      HoldsFor(g, bc.gen, env, base, s);
      var d := SimpleTravels(text, a + 1, bc.gen, x.update.value, env, base, s);
      s2 := d.store;
      HoldsFor(bc.gen, g, RunSimple(UnsignedOrder, x.update.value, env).value, base, s2);
      TravelsTrans(text, g, bc.gen, base, a, s, 1, a + 1, s, |uc.code|, b, s2);
      n := |uc.code| + 1;
    }
    TravelsStep(text, g, base, b, s2, pc);
    TravelsTrans(text, g, g, base, a, s, n, b, s2, 1, pc, s2);
    n := n + 1;
  }
}
