/**
 Where locals live: each visible variable owns the words below its recorded offset, the words of
 different variables are apart, and all lie in the frame below the saved ra and s0.
 */
module Layout {
  import opened Words
  import opened Wrappers
  import opened Isa
  import opened Source
  import opened Generator

  /** The address of cell `k` of a variable, in a frame at `base`. */
  function CellAddress(base: int, v: Variable, k: nat): int {
    base + v.offset - 4 * (k + 1)
  }

  /** The words of `v` lie between the frame's bottom and its saved registers, above `top`. */
  predicate Inside(v: Variable, top: int, total: int) {
    v.offset <= total - 8 && total - top <= v.offset - 4 * Size(v.dims)
  }

  predicate Apart(v: Variable, w: Variable) {
    v.offset - 4 * Size(v.dims) >= w.offset || w.offset - 4 * Size(w.dims) >= v.offset
  }

  ghost predicate AllInside(scopes: Scopes, top: int, total: int) {
    forall i, x :: 0 <= i < |scopes| && x in scopes[i] ==> Inside(scopes[i][x], top, total)
  }

  ghost predicate AllApart(scopes: Scopes) {
    forall i, x, j, y :: 0 <= i < |scopes| && x in scopes[i] && 0 <= j < |scopes| && y in scopes[j]
      ==> (i == j && x == y) || Apart(scopes[i][x], scopes[j][y])
  }

  /** A frame of `total` bytes at `base`, of which the first `top` from above are in use. */
  ghost predicate Frame(scopes: Scopes, top: int, total: int, base: int) {
    && 8 <= top <= total && 0 <= base && base + total < MODULUS
    && AllInside(scopes, top, total) && AllApart(scopes)
  }

  /** Every defined cell of the object is in memory. */
  ghost predicate Agrees(v: Variable, o: Object, base: int, mem: Memory) {
    && v.dims == o.dims && o.Valid()
    && forall k :: 0 <= k < |o.cells| && o.cells[k].Some?
         ==> Load(mem, Wrap(CellAddress(base, v, k))) == o.cells[k].value
  }

  ghost predicate Matches(scopes: Scopes, env: Env, base: int, mem: Memory) {
    && |scopes| == |env|
    && (forall i :: 0 <= i < |env| ==> scopes[i].Keys == env[i].Keys)
    && forall i, x :: 0 <= i < |env| && x in env[i] ==> Agrees(scopes[i][x], env[i][x], base, mem)
  }

  lemma SameScope(scopes: Scopes, env: Env, x: string)
    requires |scopes| == |env| && forall i :: 0 <= i < |env| ==> scopes[i].Keys == env[i].Keys
    ensures FindScope(scopes, x) == FindScope(env, x)
  {
    forall i | 0 <= i < |env| ensures x in scopes[i] <==> x in env[i] {
      assert scopes[i].Keys == env[i].Keys;
    }
  }

  /** The variable and cell number of a place that resolves. */
  lemma PlaceCell(scopes: Scopes, env: Env, base: int, mem: Memory, p: Place)
    returns (i: nat, v: Variable, k: nat)
    requires Matches(scopes, env, base, mem) && Resolves(env, p)
    ensures i < |env| && i == FindScope(env, p.name) == FindScope(scopes, p.name)
    ensures p.name in scopes[i] && p.name in env[i] && v == scopes[i][p.name]
    ensures v.dims == env[i][p.name].dims && InRange(v.dims, p.idx)
    ensures k == Linear(v.dims, p.idx) && k < Size(v.dims) == |env[i][p.name].cells|
  {
    SameScope(scopes, env, p.name);
    i := FindScope(env, p.name);
    v := scopes[i][p.name];
    assert Agrees(v, env[i][p.name], base, mem);
    LinearInRange(v.dims, p.idx);
    k := Linear(v.dims, p.idx);
  }

  /** A cell's address needs no wrap-around and lies in the frame. */
  lemma CellInFrame(v: Variable, k: nat, top: int, total: int, base: int)
    requires Inside(v, top, total) && k < Size(v.dims) && top <= total
    requires 0 <= base && base + total < MODULUS
    ensures base <= CellAddress(base, v, k) < base + total - 8
    ensures Wrap(CellAddress(base, v, k)) == CellAddress(base, v, k)
  {
  }

  lemma CellsDiffer(v: Variable, w: Variable, k: nat, l: nat, base: int)
    requires k < Size(v.dims) && l < Size(w.dims)
    requires Apart(v, w) || (v == w && k != l)
    ensures CellAddress(base, v, k) != CellAddress(base, w, l)
  {
  }

  /** Writing a cell of one variable leaves the cells of every other variable alone. */
  lemma WriteElsewhere(scopes: Scopes, top: int, total: int, base: int,
                       i: nat, x: string, k: nat, j: nat, y: string, o: Object, mem: Memory, w: Word)
    requires Frame(scopes, top, total, base)
    requires i < |scopes| && x in scopes[i] && k < Size(scopes[i][x].dims)
    requires j < |scopes| && y in scopes[j] && !(i == j && x == y)
    requires Agrees(scopes[j][y], o, base, mem)
    ensures Agrees(scopes[j][y], o, base, mem[Wrap(CellAddress(base, scopes[i][x], k)) := w])
  {
    var a, b := scopes[i][x], scopes[j][y];
    assert Apart(a, b) && Inside(a, top, total) && Inside(b, top, total);
    CellInFrame(a, k, top, total, base);
    forall l | 0 <= l < |o.cells|
      ensures Wrap(CellAddress(base, b, l)) != Wrap(CellAddress(base, a, k))
    {
      CellInFrame(b, l, top, total, base);
      CellsDiffer(a, b, k, l, base);
    }
  }

  lemma WriteHere(v: Variable, o: Object, top: int, total: int, base: int, k: nat, mem: Memory, w: Word)
    requires Inside(v, top, total) && top <= total && 0 <= base && base + total < MODULUS
    requires Agrees(v, o, base, mem) && k < Size(v.dims)
    ensures Agrees(v, o.(cells := o.cells[k := Some(w)]), base, mem[Wrap(CellAddress(base, v, k)) := w])
  {
    CellInFrame(v, k, top, total, base);
    forall l | 0 <= l < |o.cells| && l != k
      ensures Wrap(CellAddress(base, v, l)) != Wrap(CellAddress(base, v, k))
    {
      CellInFrame(v, l, top, total, base);
    }
  }

  /** A store to the address of a place is an assignment to that place and to nothing else. */
  lemma StoreMatches(scopes: Scopes, env: Env, top: int, total: int, base: int, mem: Memory,
                     p: Place, w: Word)
    requires Frame(scopes, top, total, base) && Matches(scopes, env, base, mem) && Resolves(env, p)
    ensures var i := FindScope(scopes, p.name);
            && i >= 0 && InRange(scopes[i][p.name].dims, p.idx)
            && var v := scopes[i][p.name];
            && var address := CellAddress(base, v, Linear(v.dims, p.idx));
            && base <= address < base + total - 8
            && Matches(scopes, WritePlace(env, p, w).value, base, mem[address := w])
  {
    var i, v, k := PlaceCell(scopes, env, base, mem, p);
    var next, mem2 := WritePlace(env, p, w).value, mem[Wrap(CellAddress(base, v, k)) := w];
    assert Inside(v, top, total);
    CellInFrame(v, k, top, total, base);
    forall j, y | 0 <= j < |next| && y in next[j]
      ensures Agrees(scopes[j][y], next[j][y], base, mem2)
    {
      if j == i && y == p.name {
        WriteHere(v, env[i][y], top, total, base, k, mem, w);
      } else {
        assert y in env[j] && next[j][y] == env[j][y];
        WriteElsewhere(scopes, top, total, base, i, p.name, k, j, y, env[j][y], mem, w);
      }
    }
  }

  /** Reading a place that has a value finds it in memory at the place's address. */
  lemma LoadMatches(scopes: Scopes, env: Env, top: int, total: int, base: int, mem: Memory, p: Place)
    requires Frame(scopes, top, total, base) && Matches(scopes, env, base, mem)
    requires ReadPlace(env, p).Some?
    ensures var i := FindScope(scopes, p.name);
            && i >= 0 && InRange(scopes[i][p.name].dims, p.idx)
            && var v := scopes[i][p.name];
            && var address := CellAddress(base, v, Linear(v.dims, p.idx));
            && base <= address < base + total - 8
            && Load(mem, address) == ReadPlace(env, p).value
  {
    var i, v, k := PlaceCell(scopes, env, base, mem, p);
    assert Inside(v, top, total);
    CellInFrame(v, k, top, total, base);
    assert Agrees(v, env[i][p.name], base, mem);
  }

  // ----- Declarations -----

  /** The bytes a list of declarators takes, every one a whole number of words. */
  function DeclWords(ds: seq<Declarator>): nat {
    if ds == [] then 0 else Size(Dims(ds[0])) + DeclWords(ds[1..])
  }

  /** The most words in use at once inside a statement, beyond those already in use. */
  function Depth(s: Stmt): nat
    decreases s, 1
  {
    match s
    case Block(decls, body) => DeclWords(Flatten(decls)) + DepthAll(body)
    case If(_, thn, els) => Max(Depth(thn), if els.Some? then Depth(els.value) else 0)
    case While(_, loop) => Depth(loop)
    case For(_, _, _, loop) => Depth(loop)
    case _ => 0
  }

  function DepthAll(ss: seq<Stmt>): nat
    decreases ss, 0
  {
    if ss == [] then 0 else Max(Depth(ss[0]), DepthAll(ss[1..]))
  }

  function TopOf(g: Gen): int {
    if g.offsets == [] then 0 else g.offsets[|g.offsets| - 1]
  }

  /** The generator's layout together with a frame address. */
  ghost predicate Laid(g: Gen, base: int) {
    && g.free <= POOL && g.offsets != [] && g.scopes != [] && TopOf(g) % 4 == 0
    && Frame(g.scopes, TopOf(g), g.total, base)
  }

  /** A new variable goes just below the words in use, apart from every visible variable. */
  lemma AllocateLaid(g: Gen, d: Declarator, base: int)
    requires Laid(g, base) && TopOf(g) + 4 * Size(Dims(d)) <= g.total
    ensures Laid(Allocate(g, d), base)
    ensures TopOf(Allocate(g, d)) == TopOf(g) + 4 * Size(Dims(d))
  {
    var h, k := Allocate(g, d), |g.scopes| - 1;
    var v := h.scopes[k][d.name];
    assert v.offset == g.total - TopOf(g);
    assert TopOf(h) == TopOf(g) + 4 * Size(Dims(d));
    forall i, x | 0 <= i < |h.scopes| && x in h.scopes[i] && !(i == k && x == d.name)
      ensures x in g.scopes[i] && h.scopes[i][x] == g.scopes[i][x]
      ensures Inside(h.scopes[i][x], TopOf(h), g.total) && Apart(h.scopes[i][x], v)
    {
      assert Inside(g.scopes[i][x], TopOf(g), g.total);
    }
    assert Inside(v, TopOf(h), g.total);
    forall i, x, j, y | 0 <= i < |h.scopes| && x in h.scopes[i] && 0 <= j < |h.scopes| && y in h.scopes[j]
      ensures (i == j && x == y) || Apart(h.scopes[i][x], h.scopes[j][y])
    {
      if !(i == k && x == d.name) && !(j == k && y == d.name) && !(i == j && x == y) {
        assert Apart(g.scopes[i][x], g.scopes[j][y]);
      }
    }
  }

  lemma AllocateMatches(g: Gen, d: Declarator, env: Env, base: int, mem: Memory)
    requires g.scopes != [] && g.offsets != [] && Matches(g.scopes, env, base, mem)
    ensures env != [] && Matches(Allocate(g, d).scopes, Declare(d, env), base, mem)
  {
    var h, next := Allocate(g, d).scopes, Declare(d, env);
    var k := |env| - 1;
    forall i | 0 <= i < |next| ensures h[i].Keys == next[i].Keys {
      assert g.scopes[i].Keys == env[i].Keys;
    }
    forall i, x | 0 <= i < |next| && x in next[i]
      ensures Agrees(h[i][x], next[i][x], base, mem)
    {
      if i == k && x == d.name {
      } else {
        assert x in env[i];
      }
    }
  }
}
