/** The bucket distance of two node ids (`getKDist`, src/net/kad.go:37-53). */
module KadDistance {
  import opened Words

  /** 20 bytes, the least significant first. */
  type KadID = s: seq<bv8> | |s| == 20 witness seq(20, _ => 0)

  const BITS: nat := 160

  /** `1 << j`. */
  function Mask(j: nat): bv8
    requires j < 8
  {
    if j == 0 then 1 else if j == 1 then 2 else if j == 2 then 4 else if j == 3 then 8
    else if j == 4 then 16 else if j == 5 then 32 else if j == 6 then 64 else 128
  }

  predicate ByteBit(b: bv8, j: nat)
    requires j < 8
  {
    b & Mask(j) != 0
  }

  predicate Bit(id: KadID, n: nat)
    requires n < BITS
  {
    ByteBit(id[n / 8], n % 8)
  }

  predicate Differ(a: KadID, b: KadID, n: nat)
    requires n < BITS
  {
    Bit(a, n) != Bit(b, n)
  }

  lemma XorMask(a: bv8, b: bv8, m: bv8)
    requires m & (m - 1) == 0
    ensures (a ^ b) & m != 0 <==> (a & m != 0) != (b & m != 0)
  {}

  lemma XorBit(a: bv8, b: bv8, j: nat)
    requires j < 8
    ensures ByteBit(a ^ b, j) <==> ByteBit(a, j) != ByteBit(b, j)
  {
    XorMask(a, b, Mask(j));
  }

  lemma ZeroByte(d: bv8)
    ensures d == 0 <==> forall j: nat | j < 8 :: !ByteBit(d, j)
  {
    if d != 0 {
      assert ByteBit(d, 0) || ByteBit(d, 1) || ByteBit(d, 2) || ByteBit(d, 3)
          || ByteBit(d, 4) || ByteBit(d, 5) || ByteBit(d, 6) || ByteBit(d, 7);
    }
  }

  /** One more than the highest of the first `n` bits in which `a` and `b` differ, or 0. */
  function TopDiff(a: KadID, b: KadID, n: nat): (d: nat)
    requires n <= BITS
    ensures d <= n
  {
    if n == 0 then 0 else if Differ(a, b, n - 1) then n else TopDiff(a, b, n - 1)
  }

  function Dist(a: KadID, b: KadID): (d: nat)
    ensures d <= BITS
  {
    TopDiff(a, b, BITS)
  }

  ghost predicate IsDist(a: KadID, b: KadID, d: nat) {
    && d <= BITS
    && (0 < d ==> Differ(a, b, d - 1))
    && forall n: nat | d <= n < BITS :: !Differ(a, b, n)
  }

  lemma {:induction false} TopDiffIs(a: KadID, b: KadID, n: nat)
    requires n <= BITS && forall k: nat | n <= k < BITS :: !Differ(a, b, k)
    ensures IsDist(a, b, TopDiff(a, b, n))
  {
    if n > 0 && !Differ(a, b, n - 1) { TopDiffIs(a, b, n - 1); }
  }

  lemma DistUnique(a: KadID, b: KadID, d: nat, e: nat)
    requires IsDist(a, b, d) && IsDist(a, b, e)
    ensures d == e
  {}

  /** `Dist` is the only number with the differing bit just below it and no differing bit above. */
  lemma DistExact(a: KadID, b: KadID, d: nat)
    ensures IsDist(a, b, d) <==> d == Dist(a, b)
  {
    TopDiffIs(a, b, BITS);
    if IsDist(a, b, d) { DistUnique(a, b, d, Dist(a, b)); }
  }

  lemma DistAtMost(a: KadID, b: KadID, m: nat)
    requires m <= BITS && forall n: nat | m <= n < BITS :: !Differ(a, b, n)
    ensures Dist(a, b) <= m
  {
    DistExact(a, b, Dist(a, b));
  }

  /** The two loops of the source: the XOR byte by byte, then its highest set bit from the last byte
      down. */
  method GetKDist(id1: KadID, id2: KadID) returns (d: nat)
    ensures d == Dist(id1, id2)
  {
    var diff := new bv8[20](_ => 0);
    for i := 0 to 20
      invariant forall k | 0 <= k < i :: diff[k] == id1[k] ^ id2[k]
    {
      diff[i] := id1[i] ^ id2[i];
    }
    var i := 19;
    while i >= 0
      invariant -1 <= i <= 19
      invariant forall k | 0 <= k < 20 :: diff[k] == id1[k] ^ id2[k]
      invariant forall n: nat | 8 * (i + 1) <= n < BITS :: !Differ(id1, id2, n)
    {
      var diffByte := diff[i];
      ZeroByte(diffByte);
      if diffByte > 0 {
        var j := 7;
        while j >= 0
          invariant -1 <= j <= 7
          invariant forall k: nat | j < k < 8 :: !ByteBit(diffByte, k)
        {
          if ByteBit(diffByte, j) {
            SameByte(id1, id2, i, j, diffByte);
            d := i * 8 + j + 1;
            XorBit(id1[i], id2[i], j);
            DistExact(id1, id2, d);
            return;
          }
          j := j - 1;
        }
        assert false;
      }
      NoDifference(id1, id2, i);
      i := i - 1;
    }
    d := 0;
    DistExact(id1, id2, 0);
  }

  /** The differences in byte `i` above bit `j`, read as bits of the whole id. */
  lemma SameByte(a: KadID, b: KadID, i: nat, j: nat, diffByte: bv8)
    requires i < 20 && j < 8 && diffByte == a[i] ^ b[i]
    requires forall k: nat | j < k < 8 :: !ByteBit(diffByte, k)
    ensures forall n: nat | 8 * i + j < n < 8 * i + 8 :: !Differ(a, b, n)
    ensures (8 * i + j) / 8 == i && (8 * i + j) % 8 == j
  {
    forall n: nat | 8 * i + j < n < 8 * i + 8 ensures !Differ(a, b, n) {
      assert n / 8 == i && n % 8 == n - 8 * i;
      var k: nat := n - 8 * i;
      assert !ByteBit(diffByte, k);
      XorBit(a[i], b[i], k);
    }
  }

  lemma NoDifference(a: KadID, b: KadID, i: nat)
    requires i < 20 && a[i] ^ b[i] == 0
    ensures forall n: nat | 8 * i <= n < 8 * i + 8 :: !Differ(a, b, n)
  {
    forall n: nat | 8 * i <= n < 8 * i + 8 ensures !Differ(a, b, n) {
      assert n / 8 == i && n % 8 == n - 8 * i;
      XorBit(a[i], b[i], n - 8 * i);
    }
  }

  // ---- What kind of distance it is ----

  lemma Symmetric(a: KadID, b: KadID)
    ensures Dist(a, b) == Dist(b, a)
  {
    DistExact(a, b, Dist(a, b));
    forall n: nat | n < BITS ensures Differ(b, a, n) == Differ(a, b, n) {}
    DistExact(b, a, Dist(a, b));
  }

  lemma ZeroExact(a: KadID, b: KadID)
    ensures Dist(a, b) == 0 <==> a == b
  {
    DistExact(a, b, Dist(a, b));
    DistExact(a, b, 0);
    if Dist(a, b) == 0 {
      forall i | 0 <= i < 20 ensures a[i] == b[i] {
        var x := a[i] ^ b[i];
        ZeroByte(x);
        forall j: nat | j < 8 ensures !ByteBit(x, j) {
          assert (8 * i + j) / 8 == i && (8 * i + j) % 8 == j;
          assert !Differ(a, b, 8 * i + j);
          XorBit(a[i], b[i], j);
        }
        XorZero(a[i], b[i]);
      }
    }
  }

  lemma XorZero(a: bv8, b: bv8)
    ensures a ^ b == 0 <==> a == b
  {}

  /** Ultrametric: of the three distances of three ids the two largest are equal. */
  lemma Ultrametric(a: KadID, b: KadID, c: KadID)
    ensures Dist(a, c) <= if Dist(a, b) < Dist(b, c) then Dist(b, c) else Dist(a, b)
    ensures Dist(a, b) < Dist(b, c) ==> Dist(a, c) == Dist(b, c)
    ensures Dist(b, c) < Dist(a, b) ==> Dist(a, c) == Dist(a, b)
    ensures 0 < Dist(a, b) == Dist(b, c) ==> Dist(a, c) < Dist(a, b)
  {
    var x, y := Dist(a, b), Dist(b, c);
    var m := if x < y then y else x;
    DistExact(a, b, x);
    DistExact(b, c, y);
    forall n: nat | n < BITS ensures Differ(a, c, n) <==> Differ(a, b, n) != Differ(b, c, n) {}
    DistAtMost(a, c, m);
    DistExact(a, c, m);
    if 0 < x == y {
      assert !Differ(a, c, x - 1);
      DistAtMost(a, c, x - 1);
    }
  }

  // ---- The distance is the bit length of the XOR ----

  /** The number the first `n` bits of the XOR of two ids stand for. */
  function XorValue(a: KadID, b: KadID, n: nat): nat
    requires n <= BITS
  {
    if n == 0 then 0
    else XorValue(a, b, n - 1) + (if Differ(a, b, n - 1) then Pow2(n - 1) else 0)
  }

  lemma {:induction false} ValueBelow(a: KadID, b: KadID, n: nat)
    requires n <= BITS
    ensures XorValue(a, b, n) < Pow2(n)
  {
    if n > 0 { ValueBelow(a, b, n - 1); }
  }

  lemma {:induction false} ValueAbove(a: KadID, b: KadID, d: nat, n: nat)
    requires d <= n <= BITS && forall k: nat | d <= k < n :: !Differ(a, b, k)
    ensures XorValue(a, b, n) == XorValue(a, b, d)
    decreases n
  {
    if d < n { ValueAbove(a, b, d, n - 1); }
  }

  lemma DistIsBitLength(a: KadID, b: KadID)
    ensures var d, x := Dist(a, b), XorValue(a, b, BITS);
      if d == 0 then x == 0 else Pow2(d - 1) <= x < Pow2(d)
  {
    var d := Dist(a, b);
    DistExact(a, b, d);
    ValueAbove(a, b, d, BITS);
    ValueBelow(a, b, d);
    if d > 0 { assert XorValue(a, b, d) == XorValue(a, b, d - 1) + Pow2(d - 1); }
  }
}
