/** Unsigned 32-bit arithmetic as Go defines it, and the usual option type. */
module Words {
  const TWO32: int := 0x1_0000_0000
  const TWO31: int := 0x8000_0000

  type u32 = x: int | 0 <= x < 0x1_0000_0000

  type byte = x: int | 0 <= x < 0x100

  type Bytes = seq<byte>

  datatype Option<+T> = None | Some(value: T)

  /** One byte list after the other. */
  function Join(es: seq<Bytes>): Bytes { if es == [] then [] else es[0] + Join(es[1..]) }

  function Pow2(k: nat): (p: nat)
    ensures 0 < p
  {
    if k == 0 then 1 else 2 * Pow2(k - 1)
  }

  /** Reduces an integer to the uint32 that Go stores for it. */
  function Wrap(x: int): u32 { x % 0x1_0000_0000 }

  function Add(a: int, b: int): u32 { Wrap(a + b) }

  function Sub(a: int, b: int): u32 { Wrap(a - b) }

  /** `r` is the residue of `x` as soon as they differ by a multiple of 2^32. */
  lemma ResidueIs(x: int, r: int, k: int)
    requires x == r + k * TWO32 && 0 <= r < TWO32
    ensures Wrap(x) == r
  {
  }

  lemma WrapSplit(x: int) returns (k: int)
    ensures x == Wrap(x) + k * TWO32
  {
    k := x / 0x1_0000_0000;
  }

  /** Subtraction of wrapped numbers is the wrapped difference. */
  lemma SubOfWraps(a: int, b: int)
    ensures Sub(Wrap(a), Wrap(b)) == Wrap(a - b)
  {
    var i := WrapSplit(a);
    var j := WrapSplit(b);
    var k := WrapSplit(a - b);
    assert Wrap(a) - Wrap(b) == Wrap(a - b) + (k - i + j) * TWO32 by {
      assert k * TWO32 - i * TWO32 + j * TWO32 == (k - i + j) * TWO32;
    }
    ResidueIs(Wrap(a) - Wrap(b), Wrap(a - b), k - i + j);
  }

  lemma AddOfWrap(a: int, b: int)
    ensures Add(Wrap(a), b) == Wrap(a + b)
  {
    var i := WrapSplit(a);
    var k := WrapSplit(a + b);
    assert Wrap(a) + b == Wrap(a + b) + (k - i) * TWO32 by {
      assert k * TWO32 - i * TWO32 == (k - i) * TWO32;
    }
    ResidueIs(Wrap(a) + b, Wrap(a + b), k - i);
  }

  /** Two numbers less than 2^32 apart have the same residue only if they are equal. */
  lemma WrapInjective(a: int, b: int)
    requires Wrap(a) == Wrap(b) && -TWO32 < a - b < TWO32
    ensures a == b
  {
    var i := WrapSplit(a);
    var j := WrapSplit(b);
    assert a - b == (i - j) * TWO32;
  }

  /** The wrapped difference of two numbers at most one period apart. */
  lemma SubExact(a: int, b: int)
    ensures 0 <= a - b < TWO32 ==> Sub(Wrap(a), Wrap(b)) == a - b
    ensures -TWO32 <= a - b < 0 ==> Sub(Wrap(a), Wrap(b)) == a - b + TWO32
  {
    SubOfWraps(a, b);
    if 0 <= a - b < TWO32 { ResidueIs(a - b, a - b, 0); }
    if -TWO32 <= a - b < 0 { ResidueIs(a - b, a - b + TWO32, -1); }
  }

  /** Reduction of an index that has run at most once round a ring of `n` slots. */
  lemma RingMod(x: int, n: int)
    requires 0 < n && 0 <= x < 2 * n
    ensures x % n == if x < n then x else x - n
  {
    if x < n {
      assert x % n == x;
    } else {
      assert x == n * 1 + (x - n);
      DivModUnique(x, n, 1, x - n);
    }
  }

  lemma DivModUnique(x: int, n: int, q: int, r: int)
    requires 0 <= r < n && x == n * q + r
    ensures x % n == r && x / n == q
  {
    var q', r' := x / n, x % n;
    assert n * q' + r' == x;
    assert n * (q - q') == r' - r by { MulSub(n, q, q'); }
    SmallMultiple(n, q - q');
  }

  lemma MulSub(n: int, a: int, b: int)
    ensures n * (a - b) == n * a - n * b
  {}

  lemma MulNonNegative(a: int, b: int)
    requires 0 <= a && 0 <= b
    ensures 0 <= a * b
  {}

  /** A multiple of `n` strictly between `-n` and `n` is zero. */
  lemma SmallMultiple(n: int, k: int)
    requires 0 < n
    ensures -n < n * k < n ==> k == 0
  {
    if k >= 1 {
      MulNonNegative(n, k - 1);
      MulSub(n, k, 1);
    } else if k <= -1 {
      MulNonNegative(n, -1 - k);
      MulSub(n, -1, k);
    }
  }
}
