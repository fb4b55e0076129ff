/**
 Where the locals of a function lie, over any nesting of scopes: disjoint words of the frame, clear
 of the saved ra and s0, as long as the frame has room; and what happens when it has not.
 */
module Locals {
  import opened Words
  import opened Wrappers
  import opened Isa
  import opened Source
  import opened Generator
  import opened Accounting
  import opened Layout
  import opened Functions

  /**
   A way down through nested blocks: the declarators met on it, one list a block, where the last
   block may have been left off in the middle of its declarations.
   */
  predicate Opens(s: Stmt, path: seq<seq<Declarator>>)
    decreases s, 1
  {
    match s
    case Block(decls, body) =>
      path != [] && if |path| == 1 then path[0] <= Flatten(decls)
                    else path[0] == Flatten(decls) && OpensIn(body, path[1..])
    case If(_, thn, els) => Opens(thn, path) || (els.Some? && Opens(els.value, path))
    case While(_, loop) => Opens(loop, path)
    case For(_, _, _, loop) => Opens(loop, path)
    case _ => false
  }

  predicate OpensIn(ss: seq<Stmt>, path: seq<seq<Declarator>>)
    decreases ss, 0
  {
    ss != [] && (Opens(ss[0], path) || OpensIn(ss[1..], path))
  }

  /** The scopes and offsets on the way: a scope entered for each block, a slot for each declarator. */
  function AllocateAll(g: Gen, ds: seq<Declarator>): (h: Gen)
    requires g.scopes != [] && g.offsets != []
    ensures h.scopes != [] && h.offsets != [] && h.total == g.total
    decreases ds
  {
    if ds == [] then g else AllocateAll(Allocate(g, ds[0]), ds[1..])
  }

  function Descend(g: Gen, path: seq<seq<Declarator>>): (h: Gen)
    requires g.scopes != [] && g.offsets != []
    ensures h.scopes != [] && h.offsets != [] && h.total == g.total
    decreases path
  {
    if path == [] then g else Descend(AllocateAll(Enter(g).value, path[0]), path[1..])
  }

  function PathWords(path: seq<seq<Declarator>>): nat {
    if path == [] then 0 else DeclWords(path[0]) + PathWords(path[1..])
  }

  lemma {:induction false} PrefixWords(ds: seq<Declarator>, es: seq<Declarator>)
    requires ds <= es
    ensures DeclWords(ds) <= DeclWords(es)
  {
    if ds != [] {
      assert ds[0] == es[0] && ds[1..] <= es[1..];
      PrefixWords(ds[1..], es[1..]);
    }
  }

  /** No way down holds more words than `Depth` says. */
  lemma {:induction false} PathDepth(s: Stmt, path: seq<seq<Declarator>>)
    requires Opens(s, path)
    ensures PathWords(path) <= Depth(s)
    decreases s, 1
  {
    match s
    case Block(decls, body) =>
      if |path| == 1 {
        PrefixWords(path[0], Flatten(decls));
        assert PathWords(path[1..]) == 0;
      } else {
        PathDepthIn(body, path[1..]);
      }
    case If(_, thn, els) =>
      if Opens(thn, path) {
        PathDepth(thn, path);
      } else {
        PathDepth(els.value, path);
      }
    case While(_, loop) => PathDepth(loop, path);
    case For(_, _, _, loop) => PathDepth(loop, path);
  }

  lemma {:induction false} PathDepthIn(ss: seq<Stmt>, path: seq<seq<Declarator>>)
    requires OpensIn(ss, path)
    ensures PathWords(path) <= DepthAll(ss)
    decreases ss, 0
  {
    if Opens(ss[0], path) {
      PathDepth(ss[0], path);
    } else {
      PathDepthIn(ss[1..], path);
    }
  }

  lemma {:induction false} AllocateAllLaid(g: Gen, ds: seq<Declarator>, base: int)
    requires Laid(g, base) && TopOf(g) + 4 * DeclWords(ds) <= g.total
    ensures Laid(AllocateAll(g, ds), base)
    ensures TopOf(AllocateAll(g, ds)) == TopOf(g) + 4 * DeclWords(ds)
    decreases ds
  {
    hide Laid, TopOf, Allocate;
    LaidBasics(g, base);
    if ds != [] {
      AllocateLaid(g, ds[0], base);
      LaidBasics(Allocate(g, ds[0]), base);
      AllocateTotal(g, ds[0]);
      AllocateAllLaid(Allocate(g, ds[0]), ds[1..], base);
    }
  }

  lemma AllocateTotal(g: Gen, d: Declarator)
    requires g.scopes != [] && g.offsets != []
    ensures Allocate(g, d).total == g.total
  {
  }

  lemma LaidBasics(g: Gen, base: int)
    requires Laid(g, base)
    ensures g.scopes != [] && g.offsets != []
  {
  }

  lemma EnterLaid(g: Gen, base: int)
    requires Laid(g, base)
    ensures Laid(Enter(g).value, base) && TopOf(Enter(g).value) == TopOf(g)
  {
    var h := Enter(g).value;
    forall i, x | 0 <= i < |h.scopes| && x in h.scopes[i]
      ensures i < |g.scopes| && x in g.scopes[i] && h.scopes[i][x] == g.scopes[i][x]
    {
    }
  }

  lemma {:induction false} DescendLaid(g: Gen, path: seq<seq<Declarator>>, base: int)
    requires Laid(g, base) && TopOf(g) + 4 * PathWords(path) <= g.total
    ensures Laid(Descend(g, path), base)
    decreases path
  {
    hide Laid, TopOf, AllocateAll;
    if path != [] {
      LaidBasics(g, base);
      EnterLaid(g, base);
      LaidBasics(Enter(g).value, base);
      AllocateAllLaid(Enter(g).value, path[0], base);
      DescendLaid(AllocateAll(Enter(g).value, path[0]), path[1..], base);
    }
  }

  /** A cell of a visible variable, shadowed or not. */
  predicate Cell(scopes: Scopes, i: nat, x: string, k: nat) {
    i < |scopes| && x in scopes[i] && k < Size(scopes[i][x].dims)
  }

  lemma CellsApart(g: Gen, base: int, i: nat, x: string, k: nat, j: nat, y: string, l: nat)
    requires Laid(g, base) && Cell(g.scopes, i, x, k) && Cell(g.scopes, j, y, l)
    ensures var a := CellAddress(base, g.scopes[i][x], k);
            && base <= a <= base + g.total - 12
            && ((i, x, k) != (j, y, l) ==> Gap(a - CellAddress(base, g.scopes[j][y], l)) >= 4)
  {
    hide Size;
    var v, w := g.scopes[i][x], g.scopes[j][y];
    assert Inside(v, TopOf(g), g.total);
    if !(i == j && x == y) {
      assert Apart(v, w);
    }
  }

  function Gap(x: int): int {
    if x < 0 then -x else x
  }

  /** The scopes seen at the end of a way down through a function's blocks. */
  function Live(f: Function, path: seq<seq<Declarator>>): Scopes {
    Descend(Opening(f, FrameBytes(f.decls)), path).scopes
  }

  /** A cell is a word of the frame below the saved ra and s0, and overlaps no other cell. */
  predicate OwnWord(total: int, base: int, scopes: Scopes, i: nat, x: string, k: nat, j: nat, y: string, l: nat)
    requires Cell(scopes, i, x, k) && Cell(scopes, j, y, l)
  {
    var a := CellAddress(base, scopes[i][x], k);
    && base <= a <= base + total - 12
    && ((i, x, k) != (j, y, l) ==> Gap(a - CellAddress(base, scopes[j][y], l)) >= 4)
  }

  /**
   In a function that fits its frame, on every way down through its blocks, any two cells of live
   variables are words that do not overlap, inside the frame and below the saved ra and s0.
   */
  lemma LocalsApart(f: Function, path: seq<seq<Declarator>>, base: int,
                    i: nat, x: string, k: nat, j: nat, y: string, l: nat)
    requires Fits(f) && Opens(Block(f.decls, f.body), path)
    requires 0 <= base && base + FrameBytes(f.decls) < MODULUS
    requires Cell(Live(f, path), i, x, k) && Cell(Live(f, path), j, y, l)
    ensures OwnWord(FrameBytes(f.decls), base, Live(f, path), i, x, k, j, y, l)
  {
    hide FrameBytes, Descend, Depth, Opens;
    FrameLow(f);
    var g := Opening(f, FrameBytes(f.decls));
    PathDepth(Block(f.decls, f.body), path);
    assert Laid(g, base);
    DescendLaid(g, path, base);
    CellsApart(Descend(g, path), base, i, x, k, j, y, l);
  }

  // ----- When the frame is too small -----

  /** `cut` goes the same way down as `path` and stops somewhere on it. */
  predicate Cuts(cut: seq<seq<Declarator>>, path: seq<seq<Declarator>>) {
    && 0 < |cut| <= |path| && cut[|cut| - 1] <= path[|cut| - 1]
    && cut[..|cut| - 1] == path[..|cut| - 1]
  }

  lemma {:induction false} OpensCut(s: Stmt, path: seq<seq<Declarator>>, cut: seq<seq<Declarator>>)
    requires Opens(s, path) && Cuts(cut, path)
    ensures Opens(s, cut)
    decreases s, 1
  {
    match s
    case Block(decls, body) =>
      if |cut| > 1 {
        assert cut[0] == cut[..|cut| - 1][0] == path[0];
        assert Cuts(cut[1..], path[1..]) by {
          assert cut[1..][..|cut| - 2] == cut[..|cut| - 1][1..];
          assert path[1..][..|cut| - 2] == path[..|cut| - 1][1..];
        }
        OpensCutIn(body, path[1..], cut[1..]);
      }
    case If(_, thn, els) =>
      if Opens(thn, path) {
        OpensCut(thn, path, cut);
      } else {
        OpensCut(els.value, path, cut);
      }
    case While(_, loop) => OpensCut(loop, path, cut);
    case For(_, _, _, loop) => OpensCut(loop, path, cut);
  }

  lemma {:induction false} OpensCutIn(ss: seq<Stmt>, path: seq<seq<Declarator>>, cut: seq<seq<Declarator>>)
    requires OpensIn(ss, path) && Cuts(cut, path)
    ensures OpensIn(ss, cut)
    decreases ss, 0
  {
    if Opens(ss[0], path) {
      OpensCut(ss[0], path, cut);
    } else {
      OpensCutIn(ss[1..], path, cut);
    }
  }

  /** `Depth` is attained: some way down holds that many words. */
  lemma {:induction false} Deepest(s: Stmt) returns (path: seq<seq<Declarator>>)
    requires Depth(s) > 0
    ensures Opens(s, path) && PathWords(path) == Depth(s)
    decreases s, 1
  {
    match s
    case Block(decls, body) =>
      path := [Flatten(decls)];
      if DepthAll(body) > 0 {
        var rest := DeepestIn(body);
        assert (path + rest)[1..] == rest;
        path := path + rest;
      } else {
        assert path[1..] == [];
      }
    case If(_, thn, els) =>
      if els.Some? && Depth(thn) < Depth(els.value) {
        path := Deepest(els.value);
      } else {
        path := Deepest(thn);
      }
    case While(_, loop) => path := Deepest(loop);
    case For(_, _, _, loop) => path := Deepest(loop);
  }

  lemma {:induction false} DeepestIn(ss: seq<Stmt>) returns (path: seq<seq<Declarator>>)
    requires DepthAll(ss) > 0
    ensures path != [] && OpensIn(ss, path) && PathWords(path) == DepthAll(ss)
    decreases ss, 0
  {
    if Depth(ss[0]) < DepthAll(ss[1..]) {
      path := DeepestIn(ss[1..]);
    } else {
      path := Deepest(ss[0]);
    }
  }

  /** Some live variable has the word just below the frame. */
  ghost predicate Spills(scopes: Scopes, base: int) {
    exists i: nat, x, k: nat :: Cell(scopes, i, x, k) && CellAddress(base, scopes[i][x], k) == base - 4
  }

  lemma AllocateSpills(g: Gen, d: Declarator, base: int)
    requires g.scopes != [] && g.offsets != [] && TopOf(g) % 4 == 0 && g.total % 4 == 0
    requires 0 <= TopOf(g) <= g.total < TopOf(g) + 4 * Size(Dims(d))
    ensures Spills(Allocate(g, d).scopes, base)
  {
    var scopes, i, k := Allocate(g, d).scopes, |g.scopes| - 1, (g.total - TopOf(g)) / 4;
    assert scopes[i][d.name] == Variable(g.total - TopOf(g), d.Array?, Dims(d));
    assert Cell(scopes, i, d.name, k) && CellAddress(base, scopes[i][d.name], k) == base - 4;
  }

  /** The first declarator that passes the end of the frame takes the word below it. */
  lemma {:induction false} ListSpills(g: Gen, ds: seq<Declarator>, base: int) returns (n: nat)
    requires g.scopes != [] && g.offsets != [] && TopOf(g) % 4 == 0 && g.total % 4 == 0
    requires 0 <= TopOf(g) <= g.total < TopOf(g) + 4 * DeclWords(ds)
    ensures n <= |ds| && Spills(AllocateAll(g, ds[..n]).scopes, base)
    decreases ds
  {
    hide Spills, Allocate, TopOf;
    var h := Allocate(g, ds[0]);
    AllocateTop(g, ds[0]);
    if g.total < TopOf(h) {
      n := 1;
      AllocateSpills(g, ds[0], base);
      assert ds[..1][1..] == [];
    } else {
      n := ListSpills(h, ds[1..], base);
      assert ds[..n + 1][1..] == ds[1..][..n];
      n := n + 1;
    }
  }

  lemma AllocateTop(g: Gen, d: Declarator)
    requires g.scopes != [] && g.offsets != [] && TopOf(g) % 4 == 0 && 0 <= TopOf(g)
    ensures var h := Allocate(g, d);
            && h.scopes != [] && h.offsets != [] && h.total == g.total
            && TopOf(h) == TopOf(g) + 4 * Size(Dims(d))
  {
  }

  lemma {:induction false} AllocateAllTop(g: Gen, ds: seq<Declarator>)
    requires g.scopes != [] && g.offsets != [] && TopOf(g) % 4 == 0 && 0 <= TopOf(g)
    ensures TopOf(AllocateAll(g, ds)) == TopOf(g) + 4 * DeclWords(ds)
    decreases ds
  {
    if ds != [] {
      AllocateAllTop(Allocate(g, ds[0]), ds[1..]);
    }
  }

  lemma EnterTop(g: Gen)
    requires g.scopes != [] && g.offsets != []
    ensures Enter(g).Success? && TopOf(Enter(g).value) == TopOf(g) && Enter(g).value.total == g.total
    ensures Enter(g).value.scopes != [] && Enter(g).value.offsets != []
  {
  }

  lemma CutsFirst(path: seq<seq<Declarator>>, n: nat)
    requires path != [] && n <= |path[0]|
    ensures Cuts([path[0][..n]], path)
  {
  }

  lemma CutsLater(path: seq<seq<Declarator>>, rest: seq<seq<Declarator>>)
    requires path != [] && Cuts(rest, path[1..])
    ensures Cuts([path[0]] + rest, path)
  {
    var cut := [path[0]] + rest;
    assert cut[..|cut| - 1] == [path[0]] + rest[..|rest| - 1];
    assert path[..|cut| - 1] == [path[0]] + path[1..][..|rest| - 1];
  }

  lemma {:induction false} PathSpills(g: Gen, path: seq<seq<Declarator>>, base: int)
    returns (cut: seq<seq<Declarator>>)
    requires g.scopes != [] && g.offsets != [] && TopOf(g) % 4 == 0 && g.total % 4 == 0
    requires 0 <= TopOf(g) <= g.total < TopOf(g) + 4 * PathWords(path)
    ensures Cuts(cut, path) && Spills(Descend(g, cut).scopes, base)
    decreases path
  {
    hide Spills, AllocateAll, TopOf, Cuts;
    var inner := Enter(g).value;
    var h := AllocateAll(inner, path[0]);
    EnterTop(g);
    AllocateAllTop(inner, path[0]);
    if g.total < TopOf(h) {
      var n := ListSpills(inner, path[0], base);
      cut := [path[0][..n]];
      assert cut[1..] == [];
      assert Descend(AllocateAll(inner, cut[0]), []) == AllocateAll(inner, cut[0]);
      assert Cuts(cut, path) by {
        CutsFirst(path, n);
      }
    } else {
      var rest := PathSpills(h, path[1..], base);
      cut := [path[0]] + rest;
      assert cut[1..] == rest;
      CutsLater(path, rest);
    }
  }

  /** Every function that does not fit its frame has a local in the word below the stack pointer. */
  lemma Overflows(f: Function, base: int) returns (path: seq<seq<Declarator>>)
    requires !Fits(f)
    ensures Opens(Block(f.decls, f.body), path)
    ensures Spills(Live(f, path), base)
  {
    hide FrameBytes, Descend, Depth, Opens, Spills;
    FrameLow(f);
    var g, body := Opening(f, FrameBytes(f.decls)), Block(f.decls, f.body);
    var deep := Deepest(body);
    assert TopOf(g) == 8;
    path := PathSpills(g, deep, base);
    OpensCut(body, deep, path);
  }

  /** Wherever in the body, any two cells of live variables are separate words of the frame. */
  ghost predicate Separate(f: Function, base: int) {
    forall path, i: nat, x, k: nat, j: nat, y, l: nat ::
      Opens(Block(f.decls, f.body), path) && Cell(Live(f, path), i, x, k) && Cell(Live(f, path), j, y, l)
      ==> OwnWord(FrameBytes(f.decls), base, Live(f, path), i, x, k, j, y, l)
  }

  /** The frame keeps all locals apart and inside it if and only if it has room for the deepest block. */
  lemma FrameExact(f: Function, base: int)
    requires 0 <= base && base + FrameBytes(f.decls) < MODULUS
    ensures Separate(f, base) <==> Fits(f)
  {
    hide FrameBytes, Live, Opens, Fits, CellAddress;
    if Fits(f) {
      forall path, i: nat, x, k: nat, j: nat, y, l: nat |
        Opens(Block(f.decls, f.body), path) && Cell(Live(f, path), i, x, k) && Cell(Live(f, path), j, y, l)
        ensures OwnWord(FrameBytes(f.decls), base, Live(f, path), i, x, k, j, y, l)
      {
        LocalsApart(f, path, base, i, x, k, j, y, l);
      }
    } else {
      var path := Overflows(f, base);
      var i: nat, x, k: nat :| Cell(Live(f, path), i, x, k)
                     && CellAddress(base, Live(f, path)[i][x], k) == base - 4;
      assert !OwnWord(FrameBytes(f.decls), base, Live(f, path), i, x, k, i, x, k);
    }
  }

  // ----- What emission does with declarations -----

  /** Emitting declarations allocates them one after another; what is emitted does not matter. */
  lemma {:induction false} DeclsAllocate(g: Gen, ds: seq<Declarator>)
    requires GenDecls(g, ds).Success? && g.scopes != [] && g.offsets != []
    ensures GenDecls(g, ds).value.gen == AllocateAll(g, ds).(free := GenDecls(g, ds).value.gen.free)
    decreases ds
  {
    if ds != [] {
      var first := GenDecl(g, ds[0]).value;
      var h := Allocate(g, ds[0]);
      if ds[0].Scalar? && ds[0].init.Some? {
        AssignAccounts(h, Place(ds[0].name, []), ds[0].init.value);
      }
      DeclsAllocate(first.gen, ds[1..]);
      AllocateAllFree(h, ds[1..], first.gen.free);
    }
  }

  lemma {:induction false} AllocateAllFree(g: Gen, ds: seq<Declarator>, free: set<Reg>)
    requires g.scopes != [] && g.offsets != []
    ensures AllocateAll(g.(free := free), ds) == AllocateAll(g, ds).(free := free)
    decreases ds
  {
    if ds != [] {
      assert Allocate(g.(free := free), ds[0]) == Allocate(g, ds[0]).(free := free);
      AllocateAllFree(Allocate(g, ds[0]), ds[1..], free);
    }
  }

  // ----- Running out of frame -----

  function Xs(n: nat): string {
    seq(n, i => 'x')
  }

  /** The uninitialised scalars number `m` to `n - 1` of `int , x, xx, xxx, ...;`. */
  function Plain(m: nat, n: nat): (ds: seq<Declarator>)
    requires m <= n
    decreases n - m
  {
    if m == n then [] else [Scalar(Xs(m), None)] + Plain(m + 1, n)
  }

  ghost predicate Placed(scope: map<string, Variable>, m: nat, n: nat, top: int, total: int) {
    forall k: nat :: m <= k < n ==>
      Xs(k) in scope && scope[Xs(k)] == Variable(Abs(top + 4 * (k - m) - total), false, [])
  }

  lemma XsDiffer(m: nat, n: nat)
    requires m != n
    ensures Xs(m) != Xs(n)
  {
    assert |Xs(m)| != |Xs(n)|;
  }

  /** Each scalar is 4 bytes below the one before, until the offset passes the frame and comes back. */
  lemma {:induction false} PlainOffsets(g: Gen, m: nat, n: nat)
    requires g.scopes != [] && g.offsets != [] && TopOf(g) % 4 == 0 && TopOf(g) >= 0 && m <= n
    ensures var h, top := AllocateAll(g, Plain(m, n)), |g.scopes| - 1;
            && |h.scopes| == |g.scopes| && Placed(h.scopes[top], m, n, TopOf(g), g.total)
            && forall k: nat :: k < m && Xs(k) in g.scopes[top] ==>
                 Xs(k) in h.scopes[top] && h.scopes[top][Xs(k)] == g.scopes[top][Xs(k)]
    decreases n - m
  {
    if m < n {
      hide Abs;
      var d := Scalar(Xs(m), None);
      var g2, top := Allocate(g, d), |g.scopes| - 1;
      assert TopOf(g2) == TopOf(g) + 4;
      forall k: nat | k != m ensures Xs(k) != Xs(m) {
        XsDiffer(k, m);
      }
      PlainOffsets(g2, m + 1, n);
      assert Plain(m, n)[1..] == Plain(m + 1, n);
    }
  }

  lemma {:induction false} PlainCounts(m: nat, n: nat)
    requires m <= n
    ensures forall k :: 0 <= k < |Plain(m, n)| ==> !Charged(Plain(m, n)[k])
    ensures DeclWords(Plain(m, n)) == n - m
    decreases n - m
  {
    if m < n {
      assert Plain(m, n)[1..] == Plain(m + 1, n);
      assert Size([]) == 1;
      PlainCounts(m + 1, n);
    }
  }

  function Plains(n: nat): Function {
    Function("main", [Plain(0, n)], [])
  }

  /** The frame has 140 bytes however many uninitialised scalars are declared: 33 of them fit. */
  lemma PlainFits(n: nat)
    ensures FrameBytes(Plains(n).decls) == 140 && (Fits(Plains(n)) <==> n <= 33)
    ensures Separate(Plains(n), FRAME_BASE) <==> n <= 33
  {
    var decls := [Plain(0, n)];
    PlainCounts(0, n);
    PlainBytes(Plain(0, n), 4, 0);
    assert decls[1..] == [];
    assert Flatten(decls) == Plain(0, n) by {
      assert Flatten([]) == [];
      assert Plain(0, n) + [] == Plain(0, n);
    }
    assert DepthAll([]) == 0;
    assert Depth(Block(decls, [])) == DeclWords(Flatten(decls)) + DepthAll([]) == n;
    assert ListBytes(decls, 0) == ListBytes([], 0) == 0;
    FrameExact(Plains(n), FRAME_BASE);
  }

  /** With 34, the last lies below the stack pointer; with 35, the last is in the word of number 32. */
  lemma PlainOverflow(n: nat)
    requires 34 <= n
    ensures var path := [Plain(0, n)];
            var scopes := Live(Plains(n), path);
            && Opens(Block(Plains(n).decls, []), path) && |scopes| == 2 && Cell(scopes, 1, Xs(33), 0)
            && CellAddress(FRAME_BASE, scopes[1][Xs(33)], 0) == FRAME_BASE - 4
            && (n >= 35 ==>
                  && Cell(scopes, 1, Xs(32), 0) && Cell(scopes, 1, Xs(34), 0)
                  && CellAddress(FRAME_BASE, scopes[1][Xs(34)], 0) == CellAddress(FRAME_BASE, scopes[1][Xs(32)], 0))
  {
    hide AllocateAll, Plain, FrameBytes;
    PlainFits(n);
    var path, f := [Plain(0, n)], Plains(n);
    var g := Enter(Opening(f, 140)).value;
    var h := AllocateAll(g, Plain(0, n));
    PlainOffsets(g, 0, n);
    assert path[1..] == [] && Descend(h, []) == h;
    assert Live(f, path) == h.scopes;
    assert TopOf(g) == 8;
    var top := h.scopes[1];
    assert Xs(33) in top && (n >= 35 ==> Xs(32) in top && Xs(34) in top);
    assert Flatten(f.decls) == Plain(0, n) by {
      assert f.decls[1..] == [] && Flatten([]) == [] && Plain(0, n) + [] == Plain(0, n);
    }
  }
}
