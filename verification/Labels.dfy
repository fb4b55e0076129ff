/** The text of a label: a prefix and a decimal counter, or a function's name and `_end`. */
module Labels {
  import opened Asm

  predicate IsDigit(c: char) {
    '0' <= c <= '9'
  }

  function Digit(n: nat): (c: char)
    requires n < 10
    ensures IsDigit(c)
  {
    '0' + n as char
  }

  function Decimal(n: nat): (s: string)
    ensures s != [] && forall k :: 0 <= k < |s| ==> IsDigit(s[k])
  {
    if n < 10 then [Digit(n)] else Decimal(n / 10) + [Digit(n % 10)]
  }

  function Text(l: Label): string {
    match l
    case Numbered(prefix, n) => prefix + Decimal(n)
    case Named(text) => text
  }

  lemma {:induction false} DecimalInjective(m: nat, n: nat)
    requires Decimal(m) == Decimal(n)
    ensures m == n
  {
    var s := Decimal(m);
    assert s[|s| - 1] == Digit(m % 10) == Digit(n % 10);
    if m >= 10 && n >= 10 {
      assert s[..|s| - 1] == Decimal(m / 10) == Decimal(n / 10);
      DecimalInjective(m / 10, n / 10);
    }
  }

  /** What a string of digits reads as. */
  function Reads(s: string): nat
    requires forall k :: 0 <= k < |s| ==> IsDigit(s[k])
  {
    if s == [] then 0 else
    assert IsDigit(s[|s| - 1]);
    10 * Reads(s[..|s| - 1]) + (s[|s| - 1] as int - '0' as int)
  }

  /** The decimal of a number reads as that number, and has no leading zero. */
  lemma {:induction false} DecimalReads(n: nat)
    ensures Reads(Decimal(n)) == n && (Decimal(n)[0] == '0' ==> n == 0 && |Decimal(n)| == 1)
  {
    if n < 10 {
      assert [Digit(n)][..0] == [];
    } else {
      DecimalReads(n / 10);
      var s := Decimal(n / 10) + [Digit(n % 10)];
      assert s[..|s| - 1] == Decimal(n / 10);
    }
  }

  lemma TextExample()
    ensures Text(Numbered("for_end", 1)) == "for_end1" && Text(Named("main_end")) == "main_end"
  {
    assert Decimal(1) == "1";
  }

  predicate EndsInDigit(s: string) {
    s != [] && IsDigit(s[|s| - 1])
  }

  lemma LongerPrefix(p: string, m: nat, q: string, t: string)
    requires |p| < |q| && !EndsInDigit(q)
    ensures p + Decimal(m) != q + t
  {
    var s := p + Decimal(m);
    assert (q + t)[|q| - 1] == q[|q| - 1];
    if |q| <= |s| {
      assert s[|q| - 1] == Decimal(m)[|q| - 1 - |p|];
    }
  }

  /** Prefixes that do not end in a digit keep their counters apart. */
  lemma NumberedApart(p: string, m: nat, q: string, n: nat)
    requires !EndsInDigit(p) && !EndsInDigit(q)
    requires Text(Numbered(p, m)) == Text(Numbered(q, n))
    ensures p == q && m == n
  {
    var s := p + Decimal(m);
    if |p| == |q| {
      assert s[..|p|] == p == q && s[|p|..] == Decimal(m) == Decimal(n);
      DecimalInjective(m, n);
    } else if |p| < |q| {
      LongerPrefix(p, m, q, Decimal(n));
    } else {
      LongerPrefix(q, n, p, Decimal(m));
    }
  }

  /** The labels that the generator makes. */
  ghost predicate Made(l: Label) {
    match l
    case Numbered(prefix, _) =>
      prefix in {"else", "end_if", "loop_start", "loop_end", "for_start", "for_end", "for_update"}
    case Named(text) => exists name: string :: text == name + "_end"
  }

  lemma MadePrefix(l: Label)
    requires Made(l)
    ensures l.Numbered? ==> !EndsInDigit(l.prefix)
    ensures EndsInDigit(Text(l)) == l.Numbered?
  {
    if l.Named? {
      var name: string :| l.text == name + "_end";
      assert l.text[|l.text| - 1] == 'd';
    }
  }

  /** Different labels of the generator are different texts. */
  lemma TextInjective(l: Label, m: Label)
    requires Made(l) && Made(m) && Text(l) == Text(m)
    ensures l == m
  {
    MadePrefix(l);
    MadePrefix(m);
    if l.Numbered? && m.Numbered? {
      NumberedApart(l.prefix, l.number, m.prefix, m.number);
    }
  }

  /** A prefix that ends in a digit would break this: `l1` and 0 read like `l` and 10. */
  lemma DigitPrefixClashes()
    ensures Text(Numbered("l1", 0)) == Text(Numbered("l", 10))
  {
    assert Decimal(10) == Decimal(1) + [Digit(0)];
  }
}
