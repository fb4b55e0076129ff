/**
 Whole functions: run from its first line, the text of a function reaches `exit` with the result in
 s1 exactly as the source run returns, and never stops when the source run never does.
 */
module Functions {
  import opened Words
  import opened Wrappers
  import opened Isa
  import opened Asm
  import opened Source
  import opened Generator
  import opened Accounting
  import opened Layout
  import opened Expressions
  import opened Statements

  /** Room in the frame for ra, s0 and every local that is ever live at once. */
  predicate Fits(f: Function) {
    8 + 4 * Depth(Block(f.decls, f.body)) <= FrameBytes(f.decls)
  }

  // ----- Labels of the whole text -----

  lemma {:induction false} CountPositive(text: seq<Line>, l: Label, i: nat)
    requires i < |text| && text[i] == Mark(l)
    ensures Count(text, l) > 0
  {
    if i > 0 {
      CountPositive(text[1..], l, i - 1);
    }
  }

  lemma CountTwice(text: seq<Line>, l: Label, i: nat, j: nat)
    requires i < j < |text| && text[i] == Mark(l) && text[j] == Mark(l)
    ensures Count(text, l) > 1
  {
    assert text == text[..j] + text[j..];
    CountConcat(text[..j], text[j..], l);
    CountPositive(text[..j], l, i);
    CountPositive(text[j..], l, 0);
  }

  lemma CountedUnique(text: seq<Line>)
    requires forall l :: Count(text, l) <= 1
    ensures Unique(text)
  {
    forall i, j | 0 <= i < j < |text| && text[i].Mark? && text[j] == text[i]
      ensures Count(text, text[i].target) > 1
    {
      CountTwice(text, text[i].target, i, j);
    }
  }

  lemma EpilogueCount(total: int, l: Label)
    ensures Count(Epilogue(total), l) == 0
  {
    var code := Epilogue(total);
    assert code == code[..3] + [code[3]];
    CountConcat(code[..3], [code[3]], l);
    CountStraight(code[..3], l);
    CountOne(code[3], l);
  }

  /** A label of a function's text is its end label, or has a number from its stretch of the counter. */
  lemma NextCount(left: Left, f: Function, l: Label)
    requires GenNext(left, f).Success?
    ensures var c := GenNext(left, f).value;
            && left.counter <= c.left.counter && Count(c.text, l) <= 1
            && (Count(c.text, l) > 0 ==>
                  if l.Named? then l == EndLabel(f) else left.counter <= l.number < c.left.counter)
  {
    hide GenStmt, FrameBytes;
    var total, end := FrameBytes(f.decls), EndLabel(f);
    var g := OpeningAfter(left, f, total);
    var body := GenStmt(g, Block(f.decls, f.body)).value;
    StmtAccounts(g, Block(f.decls, f.body));
    CountConcat(Prologue(total) + body.code + [Mark(end)], Epilogue(total), l);
    CountConcat(Prologue(total) + body.code, [Mark(end)], l);
    CountConcat(Prologue(total), body.code, l);
    CountStraight(Prologue(total), l);
    EpilogueCount(total, l);
    CountOne(Mark(end), l);
  }

  /** Every label of a function's text is defined exactly once. */
  lemma FunctionUnique(f: Function)
    requires GenFunction(f).Success?
    ensures Unique(GenFunction(f).value)
  {
    hide GenNext;
    forall l ensures Count(GenFunction(f).value, l) <= 1 {
      NextCount(UNTOUCHED, f, l);
    }
    CountedUnique(GenFunction(f).value);
  }

  predicate DistinctNames(fs: seq<Function>) {
    forall i, j :: 0 <= i < j < |fs| ==> fs[i].name != fs[j].name
  }

  lemma SameEndLabel(f: Function, g: Function)
    ensures EndLabel(f) == EndLabel(g) ==> f.name == g.name
  {
    assert f.name == (f.name + "_end")[..|f.name|];
    assert g.name == (g.name + "_end")[..|g.name|];
  }

  lemma {:induction false} UnitCount(left: Left, fs: seq<Function>, l: Label)
    requires GenUnit(left, fs).Success? && DistinctNames(fs)
    ensures var c := GenUnit(left, fs).value;
            && left.counter <= c.left.counter && Count(c.text, l) <= 1
            && (Count(c.text, l) > 0 ==>
                  if l.Named? then exists i :: 0 <= i < |fs| && l == EndLabel(fs[i])
                  else left.counter <= l.number < c.left.counter)
    decreases fs
  {
    hide GenNext, EndLabel;
    if fs != [] {
      var first := GenNext(left, fs[0]).value;
      var rest := GenUnit(first.left, fs[1..]).value;
      NextCount(left, fs[0], l);
      UnitCount(first.left, fs[1..], l);
      CountConcat(first.text, rest.text, l);
      forall i | 0 <= i < |fs| - 1 ensures EndLabel(fs[1..][i]) != EndLabel(fs[0]) {
        SameEndLabel(fs[i + 1], fs[0]);
      }
    }
  }

  /** Nor is a label defined twice in a translation unit whose functions have different names. */
  lemma UnitUnique(left: Left, fs: seq<Function>)
    requires GenUnit(left, fs).Success? && DistinctNames(fs)
    ensures Unique(GenUnit(left, fs).value.text)
  {
    forall l ensures Count(GenUnit(left, fs).value.text, l) <= 1 {
      UnitCount(left, fs, l);
    }
    CountedUnique(GenUnit(left, fs).value.text);
  }

  /** The texts follow one another, each function starting with what those before it have left. */
  lemma {:induction false} UnitInOrder(left: Left, fs: seq<Function>, gs: seq<Function>)
    ensures GenUnit(left, fs + gs).Success?
            <==> GenUnit(left, fs).Success? && GenUnit(GenUnit(left, fs).value.left, gs).Success?
    ensures GenUnit(left, fs + gs).Success? ==>
              var first, all := GenUnit(left, fs).value, GenUnit(left, fs + gs).value;
              var rest := GenUnit(first.left, gs).value;
              all.text == first.text + rest.text && all.left == rest.left
    decreases fs
  {
    hide GenNext;
    if fs == [] {
      assert fs + gs == gs;
    } else {
      assert (fs + gs)[0] == fs[0] && (fs + gs)[1..] == fs[1..] + gs;
      if GenNext(left, fs[0]).Success? {
        UnitInOrder(GenNext(left, fs[0]).value.left, fs[1..], gs);
      }
    }
  }

  // ----- Prologue and epilogue -----

  lemma FrameMade(total: int, s: Store)
    requires 8 <= total && FRAME_BASE + total < MODULUS
    ensures var s2 := RunStraight(Prologue(total)[..3], s);
            && Same(s.regs, s2.regs, {S0, SP}) && s2.mem == s.mem
            && s2.regs[S0] == FRAME_BASE + total && s2.regs[SP] == FRAME_BASE
  {
    var p := Prologue(total);
    var s1 := LineEffect(p[0], s);
    assert p[..3] == [p[0]] + ([p[1]] + [p[2]]);
    RunCons(p[0], [p[1]] + [p[2]], s);
    RunCons(p[1], [p[2]], s1);
    RunOne(p[2], LineEffect(p[1], s1));
  }

  lemma FrameSaves(total: int, s: Store)
    requires 8 <= total && FRAME_BASE + total < MODULUS
    requires s.regs[S0] == FRAME_BASE + total && s.regs[SP] == FRAME_BASE
    ensures var s2 := RunStraight(Prologue(total)[3..], s);
            && s2.regs == s.regs
            && s2.mem == s.mem[FRAME_BASE + total - 4 := s.regs[RA]]
                              [FRAME_BASE + total - 8 := FRAME_BASE + total]
  {
    var p := Prologue(total);
    var s1 := LineEffect(p[3], s);
    var s2 := LineEffect(p[4], s1);
    assert p[3..] == [p[3]] + ([p[4]] + [p[5]]);
    RunCons(p[3], [p[4]] + [p[5]], s);
    RunCons(p[4], [p[5]], s1);
    RunOne(p[5], s2);
    assert SetReg(s2.regs, S0, FRAME_BASE + total) == s2.regs;
  }

  /** The state of the frame when the body begins: it is at 4000 and holds ra and s0. */
  lemma PrologueRuns(total: int, s: Store)
    requires 8 <= total && FRAME_BASE + total < MODULUS
    ensures var s2 := RunStraight(Prologue(total), s);
            && Same(s.regs, s2.regs, {S0, SP})
            && s2.regs[S0] == FRAME_BASE + total && s2.regs[SP] == FRAME_BASE
            && s2.mem == s.mem[FRAME_BASE + total - 4 := s.regs[RA]]
                              [FRAME_BASE + total - 8 := FRAME_BASE + total]
  {
    hide RunStraight, Prologue;
    var p := Prologue(total);
    PrologueStraight(total);
    FrameMade(total, s);
    FrameSaves(total, RunStraight(p[..3], s));
    RunConcat(p[..3], p[3..], s);
    assert p == p[..3] + p[3..];
  }

  lemma EpilogueRuns(total: int, s: Store)
    requires 8 <= total && FRAME_BASE + total < MODULUS && s.regs[SP] == FRAME_BASE
    ensures var s2 := RunStraight(Epilogue(total)[..3], s);
            && s2.mem == s.mem && Same(s.regs, s2.regs, {S0, RA, SP})
            && s2.regs[SP] == FRAME_BASE + total
            && s2.regs[RA] == Load(s.mem, FRAME_BASE + total - 4)
            && s2.regs[S0] == Load(s.mem, FRAME_BASE + total - 8)
  {
    var e := Epilogue(total);
    var s1 := LineEffect(e[0], s);
    assert e[..3] == [e[0]] + ([e[1]] + [e[2]]);
    RunCons(e[0], [e[1]] + [e[2]], s);
    RunCons(e[1], [e[2]], s1);
    RunOne(e[2], LineEffect(e[1], s1));
  }

  // ----- The body in its frame -----

  lemma OpeningHolds(f: Function, total: int, s: Store)
    requires 8 <= total && FRAME_BASE + total < MODULUS && s.regs[SP] == FRAME_BASE
    ensures Holds(Opening(f, total), [map[]], FRAME_BASE, s)
  {
  }

  lemma {:induction false} ListBytesLow(decls: seq<seq<Declarator>>, sum: int)
    requires 0 <= sum && sum % 4 == 0
    ensures ListBytes(decls, sum) >= sum + 4 * ChargedWords(decls)
    ensures ListBytes(decls, sum) % 4 == 0
  {
    if decls != [] {
      DeclarationBytesLow(decls[0], 4, 0);
      ListBytesLow(decls[1..], Raise(sum, DeclarationBytes(decls[0], 4, 0)));
    }
  }

  /** Words of the arrays and initialised scalars of one declaration. */
  function ChargedIn(ds: seq<Declarator>): nat {
    if ds == [] then 0 else (if Charged(ds[0]) then Size(Dims(ds[0])) else 0) + ChargedIn(ds[1..])
  }

  function ChargedWords(decls: seq<seq<Declarator>>): nat {
    if decls == [] then 0 else ChargedIn(decls[0]) + ChargedWords(decls[1..])
  }

  lemma {:induction false} DeclarationBytesLow(ds: seq<Declarator>, size: int, sum: int)
    requires size >= 4 && size % 4 == 0 && sum >= 0 && sum % 4 == 0
    ensures DeclarationBytes(ds, size, sum) >= sum + 4 * ChargedIn(ds)
    ensures DeclarationBytes(ds, size, sum) % 4 == 0
  {
    if ds != [] {
      var n := Size(Dims(ds[0]));
      var charged := if Charged(ds[0]) then sum + size * n else sum;
      var next := if Charged(ds[0]) then size else sum + size;
      MulMonotone(4, size, n);
      assert size * n == 4 * ((size / 4) * n) by { assert size == 4 * (size / 4); }
      DeclarationBytesLow(ds[1..], Raise(next, 0), charged);
    }
  }

  /** Uninitialised scalars, the locals of the outermost block that the frame size misses. */
  function UnchargedIn(ds: seq<Declarator>): nat {
    if ds == [] then 0 else (if Charged(ds[0]) then 0 else 1) + UnchargedIn(ds[1..])
  }

  function UnchargedWords(decls: seq<seq<Declarator>>): nat {
    if decls == [] then 0 else UnchargedIn(decls[0]) + UnchargedWords(decls[1..])
  }

  /** Words that the frame size does not account for. */
  function Missed(f: Function): nat {
    UnchargedWords(f.decls) + DepthAll(f.body)
  }

  lemma {:induction false} WordsConcat(a: seq<Declarator>, b: seq<Declarator>)
    ensures DeclWords(a + b) == DeclWords(a) + DeclWords(b)
  {
    if a == [] {
      assert a + b == b;
    } else {
      assert (a + b)[0] == a[0] && (a + b)[1..] == a[1..] + b;
      WordsConcat(a[1..], b);
    }
  }

  lemma {:induction false} WordsSplit(ds: seq<Declarator>)
    ensures DeclWords(ds) == ChargedIn(ds) + UnchargedIn(ds)
  {
    if ds != [] {
      WordsSplit(ds[1..]);
    }
  }

  lemma {:induction false} FlattenSplit(decls: seq<seq<Declarator>>)
    ensures DeclWords(Flatten(decls)) == ChargedWords(decls) + UnchargedWords(decls)
  {
    if decls != [] {
      WordsConcat(decls[0], Flatten(decls[1..]));
      WordsSplit(decls[0]);
      FlattenSplit(decls[1..]);
    }
  }

  lemma FrameLow(f: Function)
    ensures FrameBytes(f.decls) >= 140 + 4 * ChargedWords(f.decls) && FrameBytes(f.decls) % 4 == 0
  {
    ListBytesLow(f.decls, 0);
  }

  /** Up to 132 bytes of locals outside the size sum are covered by the spare part of the frame. */
  lemma MissedFits(f: Function)
    requires 4 * Missed(f) <= 132
    ensures Fits(f)
  {
    FrameLow(f);
    FlattenSplit(f.decls);
  }

  /** In each declaration the plain identifiers come after the arrays and initialised scalars. */
  predicate PlainLast(decls: seq<seq<Declarator>>) {
    forall i, j, k :: 0 <= i < |decls| && 0 <= j < k < |decls[i]| && Charged(decls[i][k])
      ==> Charged(decls[i][j])
  }

  lemma {:induction false} PlainBytes(ds: seq<Declarator>, size: int, sum: int)
    requires forall k :: 0 <= k < |ds| ==> !Charged(ds[k])
    ensures DeclarationBytes(ds, size, sum) == sum && ChargedIn(ds) == 0
  {
    if ds != [] {
      var next := if Charged(ds[0]) then size else sum + size;
      PlainBytes(ds[1..], Raise(next, 0), sum);
    }
  }

  /** Offsets are rounded up to the next word, if they are not at one. */
  lemma RaiseExact(offset: nat, bytes: nat, to: int)
    ensures to == Raise(offset, bytes) <==> offset + bytes <= to < offset + bytes + 4 && to % 4 == 0
  {
  }

  /** A charged declarator adds its words times the running size; a plain one adds the sum to that size. */
  lemma DeclarationStep(d: Declarator, ds: seq<Declarator>, size: nat, sum: nat)
    requires size % 4 == 0 && sum % 4 == 0
    ensures Charged(d) ==>
              DeclarationBytes([d] + ds, size, sum) == DeclarationBytes(ds, size, sum + size * Size(Dims(d)))
    ensures !Charged(d) ==> DeclarationBytes([d] + ds, size, sum) == DeclarationBytes(ds, size + sum, sum)
  {
    hide Raise, Size, Charged;
    assert ([d] + ds)[0] == d && ([d] + ds)[1..] == ds;
    RaisedAlready(size);
    RaisedAlready(size + sum);
  }

  lemma RaisedAlready(n: nat)
    requires n % 4 == 0
    ensures Raise(n, 0) == n
  {
  }

  lemma {:induction false} PlainRun(plain: seq<Declarator>, ds: seq<Declarator>, size: nat, sum: nat)
    requires size % 4 == 0 && sum % 4 == 0 && forall k :: 0 <= k < |plain| ==> !Charged(plain[k])
    ensures DeclarationBytes(plain + ds, size, sum) == DeclarationBytes(ds, size + |plain| * sum, sum)
    decreases plain
  {
    hide DeclarationBytes, Charged;
    if plain == [] {
      assert plain + ds == ds;
    } else {
      assert plain + ds == [plain[0]] + (plain[1..] + ds);
      DeclarationStep(plain[0], plain[1..] + ds, size, sum);
      PlainRun(plain[1..], ds, size + sum, sum);
      assert size + sum + (|plain| - 1) * sum == size + |plain| * sum;
    }
  }

  /**
   With n plain identifiers between two charged declarators each word of the second counts for four bytes
   and, for every one of the n, for all the bytes of the first again. Before the first they cost nothing.
   */
  lemma PlainBetween(lead: seq<Declarator>, c: Declarator, plain: seq<Declarator>, d: Declarator)
    requires Charged(c) && Charged(d)
    requires (forall k :: 0 <= k < |lead| ==> !Charged(lead[k])) && forall k :: 0 <= k < |plain| ==> !Charged(plain[k])
    ensures var first := 4 * Size(Dims(c));
            DeclarationBytes(lead + ([c] + (plain + [d])), 4, 0)
            == first + (4 + |plain| * first) * Size(Dims(d))
  {
    hide DeclarationBytes, Charged, Size;
    var m := Size(Dims(c));
    var first: nat := 4 * m;
    var size: nat := 4 * (1 + |plain| * m);
    FourTimes(|plain|, m);
    PlainRun(lead, [c] + (plain + [d]), 4, 0);
    DeclarationStep(c, plain + [d], 4, 0);
    PlainRun(plain, [d], 4, first);
    assert [d] + [] == [d];
    DeclarationStep(d, [], size, first);
    NoBytes(size, first + size * Size(Dims(d)));
  }

  lemma FourTimes(n: nat, m: nat)
    ensures 4 + n * (4 * m) == 4 * (1 + n * m) && n * 0 == 0
  {
  }

  lemma NoBytes(size: int, sum: int)
    ensures DeclarationBytes([], size, sum) == sum
  {
  }

  /** `int a = 1, b, c = 2;` counts for 12 bytes, and the frame of a function with it has 152. */
  lemma PlainBetweenExample(a: Expr, c: Expr)
    ensures var ds := [Scalar("a", Some(a)), Scalar("b", None), Scalar("c", Some(c))];
            DeclarationBytes(ds, 4, 0) == 12 && FrameBytes([ds]) == 152
  {
    var first, plain, last := Scalar("a", Some(a)), [Scalar("b", None)], Scalar("c", Some(c));
    var ds := [first, plain[0], last];
    PlainBetween([], first, plain, last);
    assert [] + ([first] + (plain + [last])) == ds;
    assert Size([]) == 1;
    assert [ds][1..] == [];
    assert ListBytes([ds], 0) == ListBytes([], 12) == 12;
  }

  lemma {:induction false} DeclarationBytesExact(ds: seq<Declarator>, sum: int)
    requires forall j, k :: 0 <= j < k < |ds| && Charged(ds[k]) ==> Charged(ds[j])
    ensures DeclarationBytes(ds, 4, sum) == sum + 4 * ChargedIn(ds)
  {
    if ds != [] {
      if Charged(ds[0]) {
        assert forall j, k :: 0 <= j < k < |ds[1..]| && Charged(ds[1..][k]) ==> Charged(ds[1..][j]);
        DeclarationBytesExact(ds[1..], sum + 4 * Size(Dims(ds[0])));
      } else {
        PlainBytes(ds, 4, sum);
      }
    }
  }

  lemma {:induction false} ListBytesExact(decls: seq<seq<Declarator>>, sum: int)
    requires PlainLast(decls) && 0 <= sum && sum % 4 == 0
    ensures ListBytes(decls, sum) == sum + 4 * ChargedWords(decls)
  {
    if decls != [] {
      DeclarationBytesExact(decls[0], 0);
      assert PlainLast(decls[1..]);
      ListBytesExact(decls[1..], Raise(sum, DeclarationBytes(decls[0], 4, 0)));
    }
  }

  /** With plain identifiers last in each declaration, 132 missed bytes are exactly the limit. */
  lemma FitsExactly(f: Function)
    requires PlainLast(f.decls)
    ensures Fits(f) <==> 4 * Missed(f) <= 132
  {
    ListBytesExact(f.decls, 0);
    FlattenSplit(f.decls);
  }

  // ----- The theorem -----

  /** What a finished source run means for the machine, started at line 0 in store `s`. */
  ghost predicate Returns(f: Function, text: seq<Line>, s: Store, r: Run, n: nat, s2: Store) {
    var total := FrameBytes(f.decls);
    && text != [] && text[|text| - 1] == Op(Instruction.Exit)
    && Steps(text, Config(0, s), n) == Some(Config(|text| - 1, s2))
    && s2.regs[SP] == FRAME_BASE + total == s2.regs[S0] && s2.regs[RA] == s.regs[RA]
    && Same(s.regs, s2.regs, POOL + {S0, S1, SP})
    && (forall w: Word :: !(FRAME_BASE <= w < FRAME_BASE + total) ==> Load(s2.mem, w) == Load(s.mem, w))
    && (r.Done? && r.flow.Returned? && r.flow.value.Some? ==> s2.regs[S1] == r.flow.value.value)
  }

  /** The same by register number: x6 is s1, x2 the stack pointer, x5 is s0 and x1 is ra. */
  lemma ReturnsNumbers(f: Function, text: seq<Line>, s: Store, r: Run, n: nat, s2: Store)
    requires Returns(f, text, s, r, n, s2)
    ensures r.Done? && r.flow.Returned? && r.flow.value.Some? ==> s2.regs[6] == r.flow.value.value
    ensures s2.regs[2] == s2.regs[5] == 4000 + FrameBytes(f.decls) && s2.regs[1] == s.regs[1]
    ensures s2.regs[3] == s.regs[3] && s2.regs[4] == s.regs[4] && s2.regs[30] == s.regs[30] && s2.regs[31] == s.regs[31]
    ensures forall w: Word :: !(4000 <= w < 4000 + FrameBytes(f.decls)) ==> Load(s2.mem, w) == Load(s.mem, w)
  {
    hide FrameBytes, Steps;
  }

  lemma TextPlaced(f: Function) returns (body: Emitted, end: nat)
    requires GenFunction(f).Success?
    ensures var text, total := GenFunction(f).value, FrameBytes(f.decls);
            && GenStmt(Opening(f, total), Block(f.decls, f.body)) == Success(body)
            && end == 6 + |body.code| && |text| == end + 5
            && At(text, 0, Prologue(total)) && At(text, 6, body.code)
            && text[end] == Mark(EndLabel(f)) && At(text, end + 1, Epilogue(total)[..3])
            && text[end + 4] == Op(Instruction.Exit)
            && Defines(text, EndLabel(f))
  {
    hide GenStmt, FrameBytes;
    var text, total := GenFunction(f).value, FrameBytes(f.decls);
    var mark, last := [Mark(EndLabel(f))], Epilogue(total);
    body := GenStmt(Opening(f, total), Block(f.decls, f.body)).value;
    end := 6 + |body.code|;
    assert At(text, 0, text);
    AtSplit(text, 0, Prologue(total) + body.code + mark, last);
    AtSplit(text, 0, Prologue(total) + body.code, mark);
    AtSplit(text, 0, Prologue(total), body.code);
    AtLine(text, end, mark, 0);
    AtLine(text, end + 1, last, 3);
    assert last == last[..3] + last[3..];
    AtSplit(text, end + 1, last[..3], last[3..]);
  }

  /** From the function's end label: the frame is taken down and `exit` reached. */
  lemma EndReached(f: Function, text: seq<Line>, end: nat, s: Store) returns (s2: Store)
    requires GenFunction(f) == Success(text) && |text| == end + 5
    requires FRAME_BASE + FrameBytes(f.decls) < MODULUS && s.regs[SP] == FRAME_BASE
    requires text[end] == Mark(EndLabel(f)) && At(text, end + 1, Epilogue(FrameBytes(f.decls))[..3])
    ensures Steps(text, Config(end, s), 4) == Some(Config(end + 4, s2))
    ensures s2 == RunStraight(Epilogue(FrameBytes(f.decls))[..3], s)
  {
    var code := Epilogue(FrameBytes(f.decls))[..3];
    s2 := RunStraight(code, s);
    assert Step(text, Config(end, s)) == Some(Config(end + 1, s));
    assert Steps(text, Config(end + 1, s), 0) == Some(Config(end + 1, s));
    RunAt(text, end + 1, code, s);
    StepsAdd(text, Config(end, s), 1, 3);
  }

  /**
   Compiler correctness. For every function whose emission succeeds and whose locals fit: a source
   run that returns, or falls off the end, is matched by a machine run that reaches `exit` with the
   returned value in s1, the stack pointer and ra as they should be, and nothing outside the frame
   touched; a source run that has not finished within `fuel` iterations means at least `fuel` steps.
   */
  lemma FunctionCorrect(f: Function, fuel: nat, s: Store) returns (n: nat, s2: Store)
    requires GenFunction(f).Success? && Fits(f) && FRAME_BASE + FrameBytes(f.decls) < MODULUS
    ensures var text, r := GenFunction(f).value, RunFunction(UnsignedOrder, f, fuel);
            && (r.Done? ==> Returns(f, text, s, r, n, s2))
            && (r.Timeout? ==> fuel <= n && Steps(text, Config(0, s), n).Some?)
  {
    hide GenFunction, GenStmt, FrameBytes, Unique, Defines, Find, At, RunStraight, Prologue, Epilogue;
    hide Exec, Load, Same, Local, Follows, Returns, Steps;
    var text, total := GenFunction(f).value, FrameBytes(f.decls);
    var g := Opening(f, total);
    var m, c, end := BodyFollows(f, fuel, s);
    var s1 := RunStraight(Prologue(total), s);
    var r := Exec(UnsignedOrder, Block(f.decls, f.body), [map[]], fuel);
    n, s2 := 6 + m, s;
    if r.Timeout? {
      BodyGoesOn(text, g, 6, s1, end, fuel, m, c);
      StepsAdd(text, Config(0, s), 6, m);
    } else if r.Done? && (r.flow.Normal? || r.flow.Returned?) {
      BodyEnds(text, g, r, 6, s1, end, fuel, m, c);
      StepsAdd(text, Config(0, s), 6, m);
      s2 := FrameLeft(f, text, end, s, s1, c.store, 6 + m);
      n := 6 + m + 4;
      SameResult(f, text, s, r, n, s2);
    }
  }

  lemma BodyGoesOn(text: seq<Line>, g: Gen, pc: nat, s: Store, end: nat, fuel: nat, n: nat, c: Config)
    requires Follows(text, g, Timeout, FRAME_BASE, pc, s, end, fuel, n, c)
    ensures fuel <= n && Steps(text, Config(pc, s), n) == Some(c)
  {
  }

  /** The prologue reaches the body, and the body follows its source run from there. */
  lemma BodyFollows(f: Function, fuel: nat, s: Store) returns (m: nat, c: Config, end: nat)
    requires GenFunction(f).Success? && Fits(f) && FRAME_BASE + FrameBytes(f.decls) < MODULUS
    ensures var text, total := GenFunction(f).value, FrameBytes(f.decls);
            var s1 := RunStraight(Prologue(total), s);
            && Steps(text, Config(0, s), 6) == Some(Config(6, s1))
            && Follows(text, Opening(f, total), Exec(UnsignedOrder, Block(f.decls, f.body), [map[]], fuel),
                       FRAME_BASE, 6, s1, end, fuel, m, c)
            && 8 <= total && |text| == end + 5 && text[end] == Mark(EndLabel(f))
            && Find(text, EndLabel(f)) == end && At(text, end + 1, Epilogue(total)[..3])
            && text[end + 4] == Op(Instruction.Exit)
  {
    hide GenFunction, GenStmt, Holds, FrameBytes, Unique, Defines, Find, At, RunStraight, Prologue, Epilogue;
    hide Exec, Depth, Follows;
    var text, total := GenFunction(f).value, FrameBytes(f.decls);
    var body;
    body, end := TextPlaced(f);
    FrameLow(f);
    FunctionUnique(f);
    FindUnique(text, EndLabel(f), end);
    var s1 := RunStraight(Prologue(total), s);
    PrologueRuns(total, s);
    PrologueStraight(total);
    RunAt(text, 0, Prologue(total), s);
    OpeningHolds(f, total, s1);
    m, c := StmtCorrect(text, 6, Opening(f, total), Block(f.decls, f.body), [map[]], fuel, FRAME_BASE, s1);
  }

  lemma SameResult(f: Function, text: seq<Line>, s: Store, r: Run, n: nat, s2: Store)
    requires Returns(f, text, s, Done(Normal, []), n, s2)
    requires r.Done? && r.flow.Returned? && r.flow.value.Some? ==> s2.regs[S1] == r.flow.value.value
    ensures Returns(f, text, s, r, n, s2)
  {
    hide Same, Load, Steps, FrameBytes;
  }

  /** From the end label on, with the frame as the prologue made it and the body kept it. */
  lemma FrameLeft(f: Function, text: seq<Line>, end: nat, s: Store, s1: Store, c: Store, m: nat)
    returns (s2: Store)
    requires GenFunction(f) == Success(text) && |text| == end + 5
    requires FRAME_BASE + FrameBytes(f.decls) < MODULUS && 8 <= FrameBytes(f.decls)
    requires text[end] == Mark(EndLabel(f)) && At(text, end + 1, Epilogue(FrameBytes(f.decls))[..3])
    requires text[end + 4] == Op(Instruction.Exit)
    requires s1 == RunStraight(Prologue(FrameBytes(f.decls)), s)
    requires Same(s1.regs, c.regs, POOL + {S1}) && Local(s1.mem, c.mem, FRAME_BASE, FrameBytes(f.decls))
    requires c.regs[SP] == FRAME_BASE && Steps(text, Config(0, s), m) == Some(Config(end, c))
    ensures Returns(f, text, s, Done(Normal, []), m + 4, s2) && s2.regs[S1] == c.regs[S1]
  {
    hide GenFunction, FrameBytes, At, RunStraight, Prologue, Epilogue, Same, Load, Local, Steps;
    var total := FrameBytes(f.decls);
    PrologueRuns(total, s);
    EpilogueRuns(total, c);
    s2 := EndReached(f, text, end, c);
    StepsAdd(text, Config(0, s), m, 4);
    Restored(total, s, s1, c, s2, POOL);
  }

  lemma PrologueStraight(total: int)
    ensures |Prologue(total)| == 6 && AllStraight(Prologue(total))
  {
  }

  /** A body that returns or falls through is at the function's end label. */
  lemma BodyEnds(text: seq<Line>, g: Gen, r: Run, pc: nat, s: Store, end: nat, fuel: nat, n: nat, c: Config)
    requires Follows(text, g, r, FRAME_BASE, pc, s, end, fuel, n, c)
    requires r.Done? && (r.flow.Normal? || r.flow.Returned?) && Find(text, g.functionEnd) == end
    ensures Steps(text, Config(pc, s), n) == Some(Config(end, c.store)) && c.store.regs[SP] == FRAME_BASE
    ensures Same(s.regs, c.store.regs, g.free + {S1}) && Local(s.mem, c.store.mem, FRAME_BASE, g.total)
    ensures r.flow.Returned? && r.flow.value.Some? ==> c.store.regs[S1] == r.flow.value.value
  {
    hide Find, Steps;
  }

  lemma Restored(total: int, s: Store, s1: Store, s2: Store, s3: Store, free: set<Reg>)
    requires 8 <= total && FRAME_BASE + total < MODULUS && free == POOL
    requires Same(s.regs, s1.regs, {S0, SP})
    requires s1.mem == s.mem[FRAME_BASE + total - 4 := s.regs[RA]][FRAME_BASE + total - 8 := FRAME_BASE + total]
    requires Same(s1.regs, s2.regs, free + {S1}) && Local(s1.mem, s2.mem, FRAME_BASE, total)
    requires s3.mem == s2.mem && Same(s2.regs, s3.regs, {S0, RA, SP})
    requires s3.regs[RA] == Load(s2.mem, FRAME_BASE + total - 4)
    requires s3.regs[S0] == Load(s2.mem, FRAME_BASE + total - 8)
    ensures s3.regs[RA] == s.regs[RA] && s3.regs[S0] == FRAME_BASE + total && s3.regs[S1] == s2.regs[S1]
    ensures Same(s.regs, s3.regs, POOL + {S0, S1, SP})
    ensures forall w: Word :: !(FRAME_BASE <= w < FRAME_BASE + total) ==> Load(s3.mem, w) == Load(s.mem, w)
  {
    assert Load(s2.mem, FRAME_BASE + total - 4) == s.regs[RA];
    assert Load(s2.mem, FRAME_BASE + total - 8) == FRAME_BASE + total;
  }

  /** A source run that never finishes is a machine run that never stops. */
  lemma NeverStops(f: Function, s: Store, n: nat)
    requires GenFunction(f).Success? && Fits(f) && FRAME_BASE + FrameBytes(f.decls) < MODULUS
    requires RunFunction(UnsignedOrder, f, n).Timeout?
    ensures Steps(GenFunction(f).value, Config(0, s), n).Some?
  {
    var m, s2 := FunctionCorrect(f, n, s);
    StepsPrefix(GenFunction(f).value, Config(0, s), n, m);
  }

  /** A source run that finishes is a machine run that stops, at the last line. */
  lemma Stops(f: Function, fuel: nat, s: Store)
    requires GenFunction(f).Success? && Fits(f) && FRAME_BASE + FrameBytes(f.decls) < MODULUS
    requires RunFunction(UnsignedOrder, f, fuel).Done?
    ensures exists m: nat :: Steps(GenFunction(f).value, Config(0, s), m).None?
  {
    var m, s2 := FunctionCorrect(f, fuel, s);
    var text := GenFunction(f).value;
    var last := Config(|text| - 1, s2);
    assert Steps(text, last, 1).None?;
    StepsAdd(text, Config(0, s), m, 1);
  }

  /**
   For a program with no meaningless run, the machine runs for ever exactly when no amount of fuel
   is enough for the source.
   */
  lemma DivergesTogether(f: Function, s: Store)
    requires GenFunction(f).Success? && Fits(f) && FRAME_BASE + FrameBytes(f.decls) < MODULUS
    requires forall fuel: nat :: !RunFunction(UnsignedOrder, f, fuel).Stuck?
    ensures (forall fuel: nat :: RunFunction(UnsignedOrder, f, fuel).Timeout?)
            <==> (forall n: nat :: Steps(GenFunction(f).value, Config(0, s), n).Some?)
  {
    if forall fuel: nat :: RunFunction(UnsignedOrder, f, fuel).Timeout? {
      forall n: nat ensures Steps(GenFunction(f).value, Config(0, s), n).Some? {
        NeverStops(f, s, n);
      }
    } else {
      var fuel: nat :| RunFunction(UnsignedOrder, f, fuel).Done?;
      Stops(f, fuel, s);
    }
  }
}
