/**
  The round trip holds for exactly the types without a reachable `uintptr`. For every other type a
  concrete value fails: its encoding is decoded with bytes to spare.
*/
module CodecExact {
  import opened Words
  import opened Codec
  import opened CodecRoundTrip

  ghost predicate AllZero(b: Bytes) { forall k | 0 <= k < |b| :: b[k] == 0 }

  lemma {:induction false} FromBigZero(b: Bytes)
    requires AllZero(b)
    ensures FromBig(b) == 0
  {
    if b != [] { FromBigZero(b[..|b| - 1]); }
  }

  lemma {:induction false} BigZero(k: nat)
    ensures AllZero(Big(k, 0))
  {
    if k > 0 { BigZero(k - 1); }
  }

  lemma IntZero(w: Width)
    ensures Int(w, 0) == Big(Size(w), 0) && AllZero(Int(w, 0))
  {
    BigZero(Size(w));
    match w case W1 => case W2 => case W4 => case W8 =>
  }

  // ---- The zero value and its encoding ----

  lemma {:induction false} ZeroTyped(t: Type)
    ensures WellTyped(t, Zero(t)) && AllZero(Encode(t, Zero(t)))
    decreases t, 0
  {
    match t
    case Signed(w) => IntZero(w);
    case Unsigned(w) => IntZero(w);
    case Float(w) => IntZero(w);
    case Uintptr => IntZero(W8);
    case Str => IntZero(W4);
    case Array(n, elem) => ZeroTyped(elem); RepeatTyped(elem, n);
    case Slice(_) => IntZero(W4);
    case Struct(fields) => ZeroFieldsTyped(fields);
    case Bool =>
  }

  lemma {:induction false} RepeatTyped(elem: Type, n: nat)
    requires WellTyped(elem, Zero(elem)) && AllZero(Encode(elem, Zero(elem)))
    ensures AllTyped(elem, seq(n, _ => Zero(elem))) && AllZero(EncodeAll(elem, seq(n, _ => Zero(elem))))
  {
    if n > 0 {
      RepeatTyped(elem, n - 1);
      assert seq(n, _ => Zero(elem))[1..] == seq(n - 1, _ => Zero(elem));
    }
  }

  lemma {:induction false} ZeroFieldsTyped(fields: seq<Type>)
    ensures FieldsTyped(fields, ZeroFields(fields)) && AllZero(EncodeFields(fields, ZeroFields(fields)))
    decreases fields, 0
  {
    if fields != [] {
      ZeroTyped(fields[0]);
      ZeroFieldsTyped(fields[1..]);
      assert ZeroFields(fields)[1..] == ZeroFields(fields[1..]);
    }
  }

  /** The least number of bytes an encoding of the type has. */
  ghost function Least(t: Type): nat {
    ZeroTyped(t);
    |Encode(t, Zero(t))|
  }

  ghost function LeastFields(fields: seq<Type>): nat {
    ZeroFieldsTyped(fields);
    |EncodeFields(fields, ZeroFields(fields))|
  }

  ghost function LeastMany(elem: Type, n: nat): nat { if n == 0 then 0 else Least(elem) + LeastMany(elem, n - 1) }

  lemma {:induction false} LeastRepeat(elem: Type, n: nat)
    ensures AllTyped(elem, seq(n, _ => Zero(elem)))
    ensures |EncodeAll(elem, seq(n, _ => Zero(elem)))| == LeastMany(elem, n)
  {
    ZeroTyped(elem);
    RepeatTyped(elem, n);
    if n > 0 {
      LeastRepeat(elem, n - 1);
      assert seq(n, _ => Zero(elem))[1..] == seq(n - 1, _ => Zero(elem));
    }
  }

  lemma LeastStep(fields: seq<Type>)
    requires fields != []
    ensures LeastFields(fields) == Least(fields[0]) + LeastFields(fields[1..])
  {
    ZeroFieldsTyped(fields);
    assert ZeroFields(fields)[1..] == ZeroFields(fields[1..]);
  }

  // ---- Decoding zeros consumes no more than the least encoding ----

  lemma ReadZeros(k: nat, inp: Bytes)
    requires AllZero(inp)
    ensures ReadBig(k, inp).0 == 0 && AllZero(ReadBig(k, inp).1) && |inp| <= |ReadBig(k, inp).1| + k
  {
    if k <= |inp| { FromBigZero(inp[..k]); }
  }

  lemma {:induction false} DecodeZeros(t: Type, inp: Bytes)
    requires AllZero(inp)
    ensures var out := Decode(t, inp).1; AllZero(out) && |inp| <= |out| + Least(t)
    decreases t, 0
  {
    ZeroShaped(t);
    match t
    case Bool => ReadZeros(1, inp);
    case Signed(w) => ReadZeros(Size(w), inp);
    case Unsigned(w) => ReadZeros(Size(w), inp);
    case Float(w) => ReadZeros(Size(w), inp);
    case Uintptr =>
    case Str => ReadZeros(4, inp);
    case Slice(elem) =>
      ReadZeros(4, inp);
      var rest := ReadBig(4, inp).1;
      assert DecodeNew(elem, 0, rest) == ([], rest);
    case Array(n, elem) =>
      ZeroShaped(elem);
      RepeatShaped(elem, n);
      LeastRepeat(elem, n);
      DecodeZerosEach(elem, n, inp);
    case Struct(fields) =>
      ZeroFieldsShaped(fields);
      DecodeZerosFields(fields, inp);
  }

  lemma {:induction false} DecodeZerosEach(elem: Type, n: nat, inp: Bytes)
    requires AllZero(inp)
    ensures Shaped(elem, Zero(elem)) && AllShaped(elem, seq(n, _ => Zero(elem)))
    ensures var out := DecodeEach(elem, seq(n, _ => Zero(elem)), inp).1;
      AllZero(out) && |inp| <= |out| + LeastMany(elem, n)
    decreases elem, n + 1
  {
    ZeroShaped(elem);
    RepeatShaped(elem, n);
    if n > 0 {
      assert seq(n, _ => Zero(elem))[1..] == seq(n - 1, _ => Zero(elem));
      DecodeZeros(elem, inp);
      DecodeZerosEach(elem, n - 1, Decode(elem, inp).1);
    }
  }

  lemma {:induction false} DecodeZerosFields(fields: seq<Type>, inp: Bytes)
    requires AllZero(inp)
    ensures FieldsShaped(fields, ZeroFields(fields))
    ensures var out := DecodeFields(fields, ZeroFields(fields), inp).1;
      AllZero(out) && |inp| <= |out| + LeastFields(fields)
    decreases fields, 0
  {
    ZeroFieldsShaped(fields);
    if fields != [] {
      assert ZeroFields(fields)[1..] == ZeroFields(fields[1..]);
      DecodeZeros(fields[0], inp);
      DecodeZerosFields(fields[1..], Decode(fields[0], inp).1);
      LeastStep(fields);
    }
  }

  // ---- The value that fails ----

  /** Zero everywhere, except that the slices on the way to the first `uintptr` have one element. */
  ghost function Culprit(t: Type): Value
    requires !Sound(t)
    decreases t, 0
  {
    match t
    case Uintptr => VInt(0)
    case Array(n, elem) => VList([Culprit(elem)] + seq(n - 1, _ => Zero(elem)))
    case Slice(elem) => VList([Culprit(elem)])
    case Struct(fields) => VList(CulpritFields(fields))
  }

  ghost function CulpritFields(fields: seq<Type>): seq<Value>
    requires !FieldsSound(fields)
    decreases fields, 0
  {
    if Sound(fields[0]) then [Zero(fields[0])] + CulpritFields(fields[1..])
    else [Culprit(fields[0])] + ZeroFields(fields[1..])
  }

  lemma {:induction false} CulpritTyped(t: Type)
    requires !Sound(t)
    ensures WellTyped(t, Culprit(t))
    decreases t, 0
  {
    match t
    case Uintptr =>
    case Array(n, elem) =>
      CulpritTyped(elem);
      ZeroTyped(elem);
      RepeatTyped(elem, n - 1);
      assert Culprit(t).vs[1..] == seq(n - 1, _ => Zero(elem));
    case Slice(elem) =>
      CulpritTyped(elem);
      assert [Culprit(elem)][1..] == [];
    case Struct(fields) => CulpritFieldsTyped(fields);
  }

  lemma {:induction false} CulpritFieldsTyped(fields: seq<Type>)
    requires !FieldsSound(fields)
    ensures FieldsTyped(fields, CulpritFields(fields))
    decreases fields, 0
  {
    if Sound(fields[0]) {
      ZeroTyped(fields[0]);
      CulpritFieldsTyped(fields[1..]);
      assert CulpritFields(fields)[1..] == CulpritFields(fields[1..]);
    } else {
      CulpritTyped(fields[0]);
      ZeroFieldsTyped(fields[1..]);
      assert CulpritFields(fields)[1..] == ZeroFields(fields[1..]);
    }
  }

  /** Decoding the culprit's encoding leaves more than was put behind it. */
  lemma {:induction false} BytesToSpare(t: Type, tail: Bytes)
    requires !Sound(t) && AllZero(tail)
    ensures WellTyped(t, Culprit(t))
    ensures var out := Decode(t, Encode(t, Culprit(t)) + tail).1; AllZero(out) && |out| > |tail|
    decreases t, 0
  {
    CulpritTyped(t);
    ZeroShaped(t);
    match t
    case Uintptr => IntZero(W8);
    case Array(n, elem) =>
      CulpritTyped(elem);
      BytesToSpareLater(elem, n, tail);
      var tail1 := EncodeAll(elem, seq(n - 1, _ => Zero(elem))) + tail;
      BytesToSpare(elem, tail1);
      SpareArray(n, elem, tail, tail1);
    case Slice(elem) =>
      CulpritTyped(elem);
      assert [Culprit(elem)][1..] == [];
      var body := Encode(elem, Culprit(elem));
      assert EncodeAll(elem, [Culprit(elem)]) == body + [];
      assert Encode(t, Culprit(t)) + tail == Int(W4, 1) + (body + tail);
      LengthBack(1, body + tail);
      BytesToSpare(elem, tail);
      OneElement(elem, body + tail);
    case Struct(fields) => SpareFields(fields, tail);
  }

  lemma BytesToSpareLater(elem: Type, n: nat, tail: Bytes)
    requires 0 < n && AllZero(tail)
    ensures AllTyped(elem, seq(n - 1, _ => Zero(elem)))
    ensures AllZero(EncodeAll(elem, seq(n - 1, _ => Zero(elem))) + tail)
    ensures |EncodeAll(elem, seq(n - 1, _ => Zero(elem)))| == LeastMany(elem, n - 1)
  {
    ZeroTyped(elem);
    RepeatTyped(elem, n - 1);
    LeastRepeat(elem, n - 1);
  }

  lemma SpareArray(n: nat, elem: Type, tail: Bytes, tail1: Bytes)
    requires 0 < n && !Sound(elem) && AllZero(tail)
    requires WellTyped(elem, Culprit(elem)) && AllTyped(elem, seq(n - 1, _ => Zero(elem)))
    requires tail1 == EncodeAll(elem, seq(n - 1, _ => Zero(elem))) + tail
    requires |tail1| == LeastMany(elem, n - 1) + |tail|
    requires var out1 := Decode(elem, Encode(elem, Culprit(elem)) + tail1).1; AllZero(out1) && |out1| > |tail1|
    ensures WellTyped(Array(n, elem), Culprit(Array(n, elem)))
    ensures var out := Decode(Array(n, elem), Encode(Array(n, elem), Culprit(Array(n, elem))) + tail).1;
      AllZero(out) && |out| > |tail|
  {
    var inp := Encode(elem, Culprit(elem)) + tail1;
    CulpritArray(n, elem, tail, tail1);
    DecodeArray(n, elem, inp);
    hide Encode, Decode, DecodeEach, Culprit, Zero, WellTyped, Sound, AllTyped, LeastMany;
    DecodeZerosEach(elem, n - 1, Decode(elem, inp).1);
  }

  lemma CulpritArray(n: nat, elem: Type, tail: Bytes, tail1: Bytes)
    requires 0 < n && !Sound(elem)
    requires WellTyped(elem, Culprit(elem)) && AllTyped(elem, seq(n - 1, _ => Zero(elem)))
    requires tail1 == EncodeAll(elem, seq(n - 1, _ => Zero(elem))) + tail
    ensures WellTyped(Array(n, elem), Culprit(Array(n, elem)))
    ensures Encode(Array(n, elem), Culprit(Array(n, elem))) + tail == Encode(elem, Culprit(elem)) + tail1
  {
    var more := seq(n - 1, _ => Zero(elem));
    var vs := [Culprit(elem)] + more;
    assert vs[1..] == more;
    assert EncodeAll(elem, vs) + tail == Encode(elem, Culprit(elem)) + tail1;
  }

  lemma DecodeArray(n: nat, elem: Type, inp: Bytes)
    requires 0 < n
    ensures AllShaped(elem, seq(n - 1, _ => Zero(elem)))
    ensures Decode(Array(n, elem), inp).1 == DecodeEach(elem, seq(n - 1, _ => Zero(elem)), Decode(elem, inp).1).1
  {
    var ds := seq(n, _ => Zero(elem));
    ZeroShaped(elem);
    RepeatShaped(elem, n);
    RepeatShaped(elem, n - 1);
    assert ds[0] == Zero(elem) && ds[1..] == seq(n - 1, _ => Zero(elem));
    assert DecodeEach(elem, ds, inp).1 == DecodeEach(elem, ds[1..], Decode(elem, inp).1).1;
    ZeroShaped(Array(n, elem));
  }

  lemma OneElement(elem: Type, inp: Bytes)
    ensures DecodeNew(elem, 1, inp).1 == Decode(elem, inp).1
  {
    ZeroShaped(elem);
    assert DecodeNew(elem, 0, Decode(elem, inp).1).1 == Decode(elem, inp).1;
  }

  lemma {:induction false} SpareFields(fields: seq<Type>, tail: Bytes)
    requires !FieldsSound(fields) && AllZero(tail)
    ensures FieldsTyped(fields, CulpritFields(fields)) && FieldsShaped(fields, ZeroFields(fields))
    ensures var out := DecodeFields(fields, ZeroFields(fields), EncodeFields(fields, CulpritFields(fields)) + tail).1;
      AllZero(out) && |out| > |tail|
    decreases fields, 0
  {
    CulpritFieldsTyped(fields);
    ZeroFieldsShaped(fields);
    assert ZeroFields(fields)[1..] == ZeroFields(fields[1..]);
    var vs := CulpritFields(fields);
    var tail1 := EncodeFields(fields[1..], vs[1..]) + tail;
    assert EncodeFields(fields, vs) + tail == Encode(fields[0], vs[0]) + tail1;
    if Sound(fields[0]) {
      assert vs[1..] == CulpritFields(fields[1..]);
      ZeroTyped(fields[0]);
      RoundTrip(fields[0], vs[0], tail1);
      SpareFields(fields[1..], tail);
    } else {
      assert vs[1..] == ZeroFields(fields[1..]);
      ZeroFieldsTyped(fields[1..]);
      BytesToSpare(fields[0], tail1);
      DecodeZerosFields(fields[1..], Decode(fields[0], Encode(fields[0], vs[0]) + tail1).1);
    }
  }

  /** Every value of the type comes back, whatever follows it, exactly when no `uintptr` can occur. */
  lemma RoundTripExact(t: Type)
    ensures Sound(t) <==>
      forall v, rest | WellTyped(t, v) :: Decode(t, Encode(t, v) + rest) == (v, rest)
  {
    if Sound(t) {
      forall v, rest | WellTyped(t, v) ensures Decode(t, Encode(t, v) + rest) == (v, rest) {
        RoundTrip(t, v, rest);
      }
    } else {
      BytesToSpare(t, []);
      assert Decode(t, Encode(t, Culprit(t)) + []) != (Culprit(t), []);
    }
  }
}
