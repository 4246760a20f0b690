/** Blinding told byte by byte, and what a blinded answer gives away. */
module BlindingBytes {
  import opened Words
  import opened Codec
  import opened Blinding

  /** Addition with carry from the last byte to the first; a carry out of the first byte is dropped. */
  function Sum(xs: Bytes, ys: Bytes, carry: nat): (s: Bytes)
    requires |xs| == |ys|
    ensures |s| == |xs|
  {
    if xs == [] then []
    else
      var n := |xs| - 1;
      var last := xs[n] + ys[n] + carry;
      Sum(xs[..n], ys[..n], last / 0x100) + [last % 0x100]
  }

  /** The sum of the numbers is the number of the sum, up to the dropped carry. */
  lemma {:induction false} SumIs(xs: Bytes, ys: Bytes, carry: nat) returns (over: nat)
    requires |xs| == |ys|
    ensures FromBig(xs) + FromBig(ys) + carry == FromBig(Sum(xs, ys, carry)) + Pow256(|xs|) * over
  {
    if xs == [] {
      over := carry;
    } else {
      var n := |xs| - 1;
      var last := xs[n] + ys[n] + carry;
      over := SumIs(xs[..n], ys[..n], last / 0x100);
      var s := Sum(xs, ys, carry);
      assert s[..n] == Sum(xs[..n], ys[..n], last / 0x100) && s[n] == last % 0x100;
      var p := Pow256(n) * over;
      assert Pow256(n + 1) * over == 0x100 * p by { Shifted(Pow256(n), over); }
    }
  }

  lemma Shifted(p: nat, k: nat)
    ensures (0x100 * p) * k == 0x100 * (p * k)
  {
  }

  lemma TwentyBytes()
    ensures Pow256(19) == M152 && Pow256(20) == M160 && Pow256(21) == 0x100 * M160
  {
    RangeIsPow(W8);
    assert Pow256(10) == 0x1_0000000000_0000000000 by { assert Pow256(9) == 0x100 * Pow256(8); }
    assert Pow256(12) == 0x1_0000_0000000000_0000000000 by { assert Pow256(11) == 0x100 * Pow256(10); }
    assert Pow256(14) == 0x1_00000000_0000000000_0000000000 by { assert Pow256(13) == 0x100 * Pow256(12); }
    assert Pow256(16) == 0x1_000000000000_0000000000_0000000000 by { assert Pow256(15) == 0x100 * Pow256(14); }
    assert Pow256(18) == 0x1_000000_0000000000_0000000000_0000000000 by { assert Pow256(17) == 0x100 * Pow256(16); }
    assert Pow256(19) == 0x100 * Pow256(18) && Pow256(20) == 0x100 * Pow256(19) && Pow256(21) == 0x100 * Pow256(20);
  }

  /** With the fixed-width form the blinded bytes are those of the answer plus those of the key, added byte
      by byte with carry. */
  lemma FixedWidthAdds(answer: Bytes, key: Bytes)
    requires |answer| == |key| == 20
    ensures FromBig(answer) < M160 && FromBig(key) < M160
    ensures Blind(FixedWidth, FromBig(answer), FromBig(key)) == Some(FromBig(Sum(answer, key, 0)))
  {
    TwentyBytes();
    FromBigBound(answer);
    FromBigBound(key);
    var s := Sum(answer, key, 0);
    FromBigBound(s);
    var over := SumIs(answer, key, 0);
    DivModUnique(FromBig(answer) + FromBig(key), M160, over, FromBig(s));
  }

  /** For a fixed answer every value is the blinded answer under exactly one key, so that it says nothing
      about the answer to somebody who does not know the key. */
  lemma OneKeyEach(answer: HashVal, blinded: HashVal) returns (key: HashVal)
    ensures forall k: HashVal :: Blind(FixedWidth, answer, k) == Some(blinded) <==> k == key
  {
    key := (blinded - answer) % M160;
    forall k: HashVal ensures Blind(FixedWidth, answer, k) == Some(blinded) <==> k == key {
      if answer + k < M160 {
        assert (answer + k) % M160 == answer + k;
      } else {
        DivModUnique(answer + k, M160, 1, answer + k - M160);
      }
      if answer <= blinded {
        DivModUnique(blinded - answer, M160, 0, blinded - answer);
      } else {
        DivModUnique(blinded - answer, M160, -1, blinded - answer + M160);
      }
    }
  }

  /** Without leading zero bytes. */
  predicate Minimal(b: Bytes) { b == [] || b[0] != 0 }

  lemma {:induction false} AtLeast(b: Bytes)
    requires b != [] && b[0] != 0
    ensures Pow256(|b| - 1) <= FromBig(b)
  {
    if |b| > 1 { AtLeast(b[..|b| - 1]); } else { assert FromBig(b[..0]) == 0; }
  }

  /** How long the minimal form is. */
  lemma LengthOf(b: Bytes)
    requires Minimal(b) && FromBig(b) < 0x100 * M160
    ensures |b| <= 21
    ensures |b| < 20 <==> FromBig(b) < M152
    ensures |b| < 21 <==> FromBig(b) < M160
  {
    TwentyBytes();
    FromBigBound(b);
    if b != [] { AtLeast(b); }
    hide FromBig, Pow256;
    if |b| < 20 { Grows(|b|, 19); } else { Grows(19, |b| - 1); }
    if |b| < 21 { Grows(|b|, 20); } else { Grows(20, |b| - 1); }
    if 21 < |b| { Grows(21, |b| - 1); }
  }

  /** `First20` takes the first twenty bytes of the minimal big-endian form, and fails if there are fewer. */
  lemma First20Exact(b: Bytes)
    requires Minimal(b) && FromBig(b) < 0x100 * M160
    ensures First20(FromBig(b)) == if |b| < 20 then None else Some(FromBig(b[..20]))
    ensures |b| >= 20 ==> FromBig(b[..20]) < M160
  {
    LengthOf(b);
    if |b| == 20 { assert b[..20] == b; }
    if |b| == 21 { LastCut(b); }
    hide FromBig, Minimal;
  }

  lemma LastCut(b: Bytes)
    requires b != []
    ensures FromBig(b) / 0x100 == FromBig(b[..|b| - 1])
  {
  }

  lemma {:induction false} Grows(m: nat, n: nat)
    requires m <= n
    ensures Pow256(m) <= Pow256(n)
    decreases n - m
  {
    if m < n { Grows(m, n - 1); }
  }

  /** The form of the source: the first twenty bytes of the minimal form of the sum, and of that of the
      absolute difference; both fail if that has fewer. */
  lemma MinimalLengthIs(answer: HashVal, key: HashVal, blinded: HashVal, sum: Bytes, diff: Bytes)
    requires Minimal(sum) && FromBig(sum) == answer + key
    requires Minimal(diff) && (FromBig(diff) == blinded - key || FromBig(diff) == key - blinded)
    ensures Blind(MinimalLength, answer, key) == if |sum| < 20 then None else Some(FromBig(sum[..20]))
    ensures Unblind(MinimalLength, blinded, key) == if |diff| < 20 then None else Some(FromBig(diff[..20]))
    ensures (20 <= |sum| ==> FromBig(sum[..20]) < M160) && (20 <= |diff| ==> FromBig(diff[..20]) < M160)
  {
    First20Exact(sum);
    First20Exact(diff);
    hide First20, Minimal, FromBig;
  }
}
