/** The bytes the codec writes, one by one: what each of them is, and where. */
module CodecBytes {
  import opened Words
  import opened Codec

  // ---- Big-endian integers ----

  lemma DivDiv(n: nat, p: nat)
    requires 0 < p
    ensures n / 0x100 / p == n / (0x100 * p)
  {
    var a := n / 0x100;
    var q, r := a / p, a % p;
    var s := n % 0x100;
    assert n == 0x100 * p * q + (0x100 * r + s) by {
      assert a == p * q + r;
      assert 0x100 * (p * q) == 0x100 * p * q;
    }
    assert 0x100 * r + s < 0x100 * p;
    DivModUnique(n, 0x100 * p, q, 0x100 * r + s);
  }

  lemma {:induction false} Pow256Positive(k: nat)
    ensures 0 < Pow256(k)
  {
    if k > 0 { Pow256Positive(k - 1); }
  }

  /** Byte `j` counts multiples of the power of 256 that belongs to its place from the end. */
  lemma {:induction false} BigByte(k: nat, n: nat, j: nat)
    requires j < k
    ensures 0 < Pow256(k - 1 - j) && Big(k, n)[j] == n / Pow256(k - 1 - j) % 0x100
  {
    Pow256Positive(k - 1 - j);
    if j == k - 1 {
      assert Pow256(0) == 1;
    } else {
      BigByte(k - 1, n / 0x100, j);
      DivDiv(n, Pow256(k - 2 - j));
      assert Pow256(k - 1 - j) == 0x100 * Pow256(k - 2 - j);
    }
  }

  /** Reading gives the number that has these bytes. */
  lemma {:induction false} FromBigByte(b: Bytes, j: nat)
    requires j < |b|
    ensures 0 < Pow256(|b| - 1 - j) && FromBig(b) / Pow256(|b| - 1 - j) % 0x100 == b[j]
  {
    Pow256Positive(|b| - 1 - j);
    var front := b[..|b| - 1];
    if j == |b| - 1 {
      assert Pow256(0) == 1;
    } else {
      FromBigByte(front, j);
      DivDiv(FromBig(b), Pow256(|b| - 2 - j));
      assert FromBig(b) / 0x100 == FromBig(front);
      assert Pow256(|b| - 1 - j) == 0x100 * Pow256(|b| - 2 - j);
    }
  }

  /** At `off` lies the big-endian number `n` of width `w`. */
  ghost predicate NumberAt(b: Bytes, off: nat, w: Width, n: int) {
    && off + Size(w) <= |b|
    && forall j: nat | j < Size(w) :: b[off + j] == ByteOf(w, n, j)
  }

  /** Byte `j`, counted from the most significant, of `n` reduced to the width. */
  function ByteOf(w: Width, n: int, j: nat): byte
    requires j < Size(w)
  {
    Pow256Positive(Size(w) - 1 - j);
    n % Range(w) / Pow256(Size(w) - 1 - j) % 0x100
  }

  lemma IntIs(w: Width, n: int)
    ensures |Int(w, n)| == Size(w) && NumberAt(Int(w, n), 0, w, n)
  {
    forall j: nat | j < Size(w) ensures Int(w, n)[j] == ByteOf(w, n, j) {
      BigByte(Size(w), n % Range(w), j);
    }
  }

  lemma NumberIn(pre: Bytes, w: Width, n: int, post: Bytes)
    ensures NumberAt(pre + Int(w, n) + post, |pre|, w, n)
  {
    IntIs(w, n);
    forall j: nat | j < Size(w) ensures (pre + Int(w, n) + post)[|pre| + j] == ByteOf(w, n, j) {
      assert (pre + Int(w, n) + post)[|pre| + j] == Int(w, n)[j] == Int(w, n)[0 + j];
    }
  }

  /** The bytes of 0x01020304 come in this order. */
  lemma MostSignificantFirst()
    ensures Int(W4, 0x0102_0304) == [1, 2, 3, 4]
  {
    var n := 0x0102_0304;
    assert Pow256(0) == 1 && Pow256(1) == 0x100 && Pow256(2) == 0x1_0000 && Pow256(3) == 0x100_0000;
    BigByte(4, n, 0);
    BigByte(4, n, 1);
    BigByte(4, n, 2);
    BigByte(4, n, 3);
  }

  // ---- Values ----

  /** The width of a type that is encoded as one number. */
  function NumberWidth(t: Type): Option<Width> {
    match t
    case Signed(w) => Some(w)
    case Unsigned(w) => Some(w)
    case Float(w) => Some(w)
    case Uintptr => Some(W8)
    case _ => None
  }

  /** The parts of a list value, each encoded with the type of its place. */
  ghost predicate Parts(ts: seq<Type>, vs: seq<Value>, es: seq<Bytes>) {
    && |ts| == |vs| == |es|
    && forall k | 0 <= k < |ts| :: WellTyped(ts[k], vs[k]) && es[k] == Encode(ts[k], vs[k])
  }

  lemma {:induction false} AllIsJoin(elem: Type, vs: seq<Value>, es: seq<Bytes>)
    requires Parts(seq(|vs|, _ => elem), vs, es)
    ensures AllTyped(elem, vs) && EncodeAll(elem, vs) == Join(es)
    decreases |vs|
  {
    if vs != [] {
      var ts := seq(|vs|, _ => elem);
      assert ts[0] == elem && ts[1..] == seq(|vs| - 1, _ => elem);
      PartsRest(ts, vs, es);
      AllIsJoin(elem, vs[1..], es[1..]);
    }
  }

  lemma PartsRest(ts: seq<Type>, vs: seq<Value>, es: seq<Bytes>)
    requires Parts(ts, vs, es) && ts != []
    ensures Parts(ts[1..], vs[1..], es[1..])
    ensures WellTyped(ts[0], vs[0]) && es[0] == Encode(ts[0], vs[0])
  {
    hide WellTyped, Encode;
  }

  lemma {:induction false} FieldsAreJoin(ts: seq<Type>, vs: seq<Value>, es: seq<Bytes>)
    requires Parts(ts, vs, es)
    ensures FieldsTyped(ts, vs) && EncodeFields(ts, vs) == Join(es)
    decreases |ts|
  {
    if ts != [] {
      PartsRest(ts, vs, es);
      FieldsAreJoin(ts[1..], vs[1..], es[1..]);
    }
  }

  lemma {:induction false} TypedAt(elem: Type, vs: seq<Value>, k: nat)
    requires AllTyped(elem, vs) && k < |vs|
    ensures WellTyped(elem, vs[k])
    decreases k
  {
    if k > 0 { TypedAt(elem, vs[1..], k - 1); }
  }

  lemma {:induction false} FieldTypedAt(ts: seq<Type>, vs: seq<Value>, k: nat)
    requires FieldsTyped(ts, vs) && k < |ts|
    ensures |vs| == |ts| && WellTyped(ts[k], vs[k])
    decreases |ts|
  {
    FieldsMatch(ts, vs);
    if k > 0 { FieldTypedAt(ts[1..], vs[1..], k - 1); }
  }

  lemma {:induction false} FieldsMatch(ts: seq<Type>, vs: seq<Value>)
    requires FieldsTyped(ts, vs)
    ensures |vs| == |ts|
    decreases |ts|
  {
    if ts != [] { FieldsMatch(ts[1..], vs[1..]); }
  }

  /** Every encoding byte by byte. A number takes its width, most significant byte first, negative ones
      as two's complement; a truth value is one byte, 1 or 0; a string or slice starts with its length in
      four bytes; the parts of a list follow one another in order, with nothing between. */
  ghost predicate EncodedAs(t: Type, v: Value, e: Bytes)
    requires WellTyped(t, v)
  {
    match t
    case Bool => e == [if v.b then 1 else 0]
    case Str => NumberAt(e, 0, W4, |v.s|) && e[4..] == v.s
    case Array(_, elem) => exists es :: Parts(seq(|v.vs|, _ => elem), v.vs, es) && e == Join(es)
    case Slice(elem) =>
      NumberAt(e, 0, W4, |v.vs|) && exists es :: Parts(seq(|v.vs|, _ => elem), v.vs, es) && e[4..] == Join(es)
    case Struct(fields) => exists es :: Parts(fields, v.vs, es) && e == Join(es)
    case _ => |e| == Size(NumberWidth(t).value) && NumberAt(e, 0, NumberWidth(t).value, v.i)
  }

  lemma EncodeExact(t: Type, v: Value)
    requires WellTyped(t, v)
    ensures EncodedAs(t, v, Encode(t, v))
  {
    match t
    case Bool =>
    case Str =>
      LengthFirst(|v.s|, v.s);
    case Array(_, elem) =>
      var es := ListParts(elem, v.vs);
    case Slice(elem) =>
      var es := ListParts(elem, v.vs);
      LengthFirst(|v.vs|, Join(es));
    case Struct(fields) =>
      var es := FieldParts(fields, v.vs);
    case _ =>
      IntIs(NumberWidth(t).value, v.i);
  }

  lemma LengthFirst(n: nat, rest: Bytes)
    ensures NumberAt(Int(W4, n) + rest, 0, W4, n) && (Int(W4, n) + rest)[4..] == rest
  {
    IntIs(W4, n);
    NumberIn([], W4, n, rest);
    assert [] + Int(W4, n) + rest == Int(W4, n) + rest;
  }

  lemma ListParts(elem: Type, vs: seq<Value>) returns (es: seq<Bytes>)
    requires AllTyped(elem, vs)
    ensures Parts(seq(|vs|, _ => elem), vs, es) && EncodeAll(elem, vs) == Join(es)
  {
    forall k: nat | k < |vs| ensures WellTyped(elem, vs[k]) { TypedAt(elem, vs, k); }
    es := seq(|vs|, k requires 0 <= k < |vs| && WellTyped(elem, vs[k]) => Encode(elem, vs[k]));
    AllIsJoin(elem, vs, es);
  }

  lemma FieldParts(ts: seq<Type>, vs: seq<Value>) returns (es: seq<Bytes>)
    requires FieldsTyped(ts, vs)
    ensures Parts(ts, vs, es) && EncodeFields(ts, vs) == Join(es)
  {
    FieldsMatch(ts, vs);
    forall k: nat | k < |vs| ensures WellTyped(ts[k], vs[k]) { FieldTypedAt(ts, vs, k); }
    es := seq(|vs|, k requires 0 <= k < |vs| && WellTyped(ts[k], vs[k]) => Encode(ts[k], vs[k]));
    FieldsAreJoin(ts, vs, es);
  }
}
