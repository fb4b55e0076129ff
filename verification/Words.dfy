/** 32-bit data words, as the core's `data_t` and the compiler's `int` both see them, and arithmetic. */
module Words {

  const MODULUS := 0x1_0000_0000
  const HALF := 0x8000_0000

  type Word = x: int | 0 <= x < MODULUS

  /** The residue of an integer at 32 bits: every adder and multiplier in the core keeps this. */
  function Wrap(x: int): (w: Word)
  {
    x % MODULUS
  }

  function Pow2(n: nat): (p: nat)
    ensures p > 0
  {
    if n == 0 then 1 else 2 * Pow2(n - 1)
  }

  /** The value of a word read as a signed 32-bit integer. */
  function Signed(w: Word): (x: int)
    ensures -HALF <= x < HALF && Wrap(x) == w
  {
    if w < HALF then w else w - MODULUS
  }

  function Max(a: nat, b: nat): nat {
    if a < b then b else a
  }

  lemma WrapShift(x: int, y: int, k: int)
    requires y == x + k * MODULUS
    ensures Wrap(x) == Wrap(y)
  {
    assert x == MODULUS * (x / MODULUS) + Wrap(x);
    assert y == MODULUS * (x / MODULUS + k) + Wrap(x);
  }

  lemma WrapAdd(x: int, y: int)
    ensures Wrap(Wrap(x) + y) == Wrap(x + y)
    ensures Wrap(x + Wrap(y)) == Wrap(x + y)
  {
    WrapShift(Wrap(x) + y, x + y, x / MODULUS);
    WrapShift(x + Wrap(y), x + y, y / MODULUS);
  }

  lemma WrapSub(x: int, y: int)
    ensures Wrap(Wrap(x) - Wrap(y)) == Wrap(x - y)
  {
    WrapShift(Wrap(x) - Wrap(y), x - y, x / MODULUS - y / MODULUS);
  }

  lemma WrapMul(x: int, y: int)
    ensures Wrap(Wrap(x) * y) == Wrap(x * y)
    ensures Wrap(x * Wrap(y)) == Wrap(x * y)
  {
    var q, r := x / MODULUS, y / MODULUS;
    assert x * y == Wrap(x) * y + (q * y) * MODULUS;
    WrapShift(Wrap(x) * y, x * y, q * y);
    assert x * y == x * Wrap(y) + (x * r) * MODULUS;
    WrapShift(x * Wrap(y), x * y, x * r);
  }

  /** Quotient and remainder are determined by the sum they make. */
  lemma QuotientUnique(w: int, m: nat, x: int, low: nat)
    requires low < m && w == x * m + low
    ensures w / m == x && w % m == low
  {
    var q, r := w / m, w % m;
    assert w == m * q + r;
    assert (x - q) * m == r - low;
    if x > q {
      Scale(1, x - q, m);
    } else if x < q {
      Scale(1, q - x, m);
    }
  }

  lemma Scale(a: int, b: int, m: nat)
    requires a <= b
    ensures a * m <= b * m
  {
  }
}
