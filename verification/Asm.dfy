/**
 Assembly text as the code generator writes it, one entry a line, and a machine that runs it
 with labels still symbolic. A label line does nothing; a jump goes to the line of its label.
 */
module Asm {
  import opened Wrappers
  import opened Isa

  datatype Label =
    | Numbered(prefix: string, number: nat)   // Context::create_label
    | Named(text: string)                     // the end label of a function

  datatype Line =
    | Mark(target: Label)
    | Op(i: Instruction)
    | Li(rd: Reg, n: int)
    | JumpTo(target: Label)
    | BeqzTo(rs: Reg, target: Label)

  datatype Config = Config(pc: nat, store: Store)

  /** The line that first defines a label, or the length of the text. */
  function Find(text: seq<Line>, l: Label): (i: nat)
    ensures i <= |text|
    ensures i < |text| ==> text[i] == Mark(l)
    ensures forall j :: 0 <= j < i ==> text[j] != Mark(l)
  {
    if text == [] then 0 else if text[0] == Mark(l) then 0 else 1 + Find(text[1..], l)
  }

  /** Registers and memory after a line that does not branch. */
  function LineEffect(line: Line, s: Store): Store {
    match line
    case Op(i) => Effect(i, s)
    case Li(rd, n) => Effect(AluImm(ADDI, rd, 0, n), s)
    case _ => s
  }

  predicate Straight(line: Line) {
    line.Li? || (line.Op? && (line.i.Alu? || line.i.AluImm? || line.i.Lw? || line.i.Sw?))
  }

  /** One step; none from `exit`, past the end, to a missing label, or at a raw branch. */
  function Step(text: seq<Line>, c: Config): Option<Config> {
    if c.pc >= |text| then None else
    match text[c.pc]
    case Mark(_) => Some(Config(c.pc + 1, c.store))
    case JumpTo(l) => Goto(text, l, c.store)
    case BeqzTo(rs, l) =>
      if c.store.regs[rs] == 0 then Goto(text, l, c.store) else Some(Config(c.pc + 1, c.store))
    case line =>
      if Straight(line) then Some(Config(c.pc + 1, LineEffect(line, c.store))) else None
  }

  function Goto(text: seq<Line>, l: Label, s: Store): Option<Config> {
    if Find(text, l) < |text| then Some(Config(Find(text, l), s)) else None
  }

  function Steps(text: seq<Line>, c: Config, n: nat): Option<Config>
    decreases n
  {
    if n == 0 then Some(c) else
    match Step(text, c)
    case None => None
    case Some(next) => Steps(text, next, n - 1)
  }

  lemma {:induction false} StepsAdd(text: seq<Line>, c: Config, m: nat, n: nat)
    requires Steps(text, c, m).Some?
    ensures Steps(text, c, m + n) == Steps(text, Steps(text, c, m).value, n)
    decreases m
  {
    if m > 0 {
      StepsAdd(text, Step(text, c).value, m - 1, n);
    }
  }

  lemma {:induction false} StepsPrefix(text: seq<Line>, c: Config, m: nat, n: nat)
    requires m <= n && Steps(text, c, n).Some?
    ensures Steps(text, c, m).Some?
    decreases m
  {
    if m > 0 {
      StepsPrefix(text, Step(text, c).value, m - 1, n - 1);
    }
  }

  /** A fragment of code sits in the text at a given line. */
  predicate At(text: seq<Line>, pc: nat, code: seq<Line>) {
    pc + |code| <= |text| && text[pc..pc + |code|] == code
  }

  lemma AtSplit(text: seq<Line>, pc: nat, a: seq<Line>, b: seq<Line>)
    requires At(text, pc, a + b)
    ensures At(text, pc, a) && At(text, pc + |a|, b)
  {
    assert (a + b)[..|a|] == a;
    assert (a + b)[|a|..] == b;
    assert text[pc..pc + |a|] == text[pc..pc + |a + b|][..|a|];
    assert text[pc + |a|..pc + |a| + |b|] == text[pc..pc + |a + b|][|a|..];
  }

  lemma AtLine(text: seq<Line>, pc: nat, code: seq<Line>, k: nat)
    requires At(text, pc, code) && k < |code|
    ensures pc + k < |text| && text[pc + k] == code[k]
  {
    assert text[pc..pc + |code|][k] == text[pc + k];
  }

  /** No label is defined twice. */
  predicate Unique(text: seq<Line>) {
    forall i, j :: 0 <= i < j < |text| && text[i].Mark? && text[j].Mark? ==> text[i] != text[j]
  }

  predicate Defines(text: seq<Line>, l: Label) {
    Mark(l) in text
  }

  lemma FindUnique(text: seq<Line>, l: Label, i: nat)
    requires Unique(text) && i < |text| && text[i] == Mark(l)
    ensures Find(text, l) == i
  {
    var k := Find(text, l);
    assert k <= i;
  }

  lemma FindDefined(text: seq<Line>, l: Label)
    requires Defines(text, l)
    ensures Find(text, l) < |text|
  {
    var i :| 0 <= i < |text| && text[i] == Mark(l);
  }

  /** The effect of a run of lines that do not branch. */
  function RunStraight(code: seq<Line>, s: Store): Store {
    if code == [] then s else RunStraight(code[1..], LineEffect(code[0], s))
  }

  predicate AllStraight(code: seq<Line>) {
    forall k :: 0 <= k < |code| ==> Straight(code[k])
  }

  lemma {:induction false} RunConcat(a: seq<Line>, b: seq<Line>, s: Store)
    ensures RunStraight(a + b, s) == RunStraight(b, RunStraight(a, s))
  {
    if a == [] {
      assert a + b == b;
    } else {
      assert (a + b)[0] == a[0] && (a + b)[1..] == a[1..] + b;
      RunConcat(a[1..], b, LineEffect(a[0], s));
    }
  }

  lemma {:induction false} RunAt(text: seq<Line>, pc: nat, code: seq<Line>, s: Store)
    requires At(text, pc, code) && AllStraight(code)
    ensures Steps(text, Config(pc, s), |code|) == Some(Config(pc + |code|, RunStraight(code, s)))
    decreases |code|
  {
    if code != [] {
      AtLine(text, pc, code, 0);
      assert code == [code[0]] + code[1..];
      AtSplit(text, pc, [code[0]], code[1..]);
      assert Straight(code[0]);
      RunAt(text, pc + 1, code[1..], LineEffect(code[0], s));
    }
  }
}
