/** What decoding gives back of an encoding, for every type descriptor, value and destination. */
module CodecRoundTrip {
  import opened Words
  import opened Codec

  /** No `uintptr` can occur inside a value of the type. */
  ghost predicate Sound(t: Type)
    decreases t, 0
  {
    match t
    case Uintptr => false
    case Array(n, elem) => n == 0 || Sound(elem)
    case Slice(elem) => Sound(elem)
    case Struct(fields) => FieldsSound(fields)
    case _ => true
  }

  ghost predicate FieldsSound(fields: seq<Type>)
    decreases fields, 0
  {
    fields == [] || (Sound(fields[0]) && FieldsSound(fields[1..]))
  }

  /** What a destination `d` holds after `v` was decoded into it: slices grow, the rest is replaced. */
  ghost function Merge(t: Type, d: Value, v: Value): Value
    requires Shaped(t, d) && WellTyped(t, v)
    decreases t, 0
  {
    match t
    case Array(n, elem) => VList(MergeEach(elem, d.vs, v.vs))
    case Slice(_) => VList(d.vs + v.vs)
    case Struct(fields) => VList(MergeFields(fields, d.vs, v.vs))
    case _ => v
  }

  ghost function MergeEach(elem: Type, ds: seq<Value>, vs: seq<Value>): seq<Value>
    requires |ds| == |vs| && AllShaped(elem, ds) && AllTyped(elem, vs)
    decreases elem, |vs| + 1
  {
    if vs == [] then [] else [Merge(elem, ds[0], vs[0])] + MergeEach(elem, ds[1..], vs[1..])
  }

  ghost function MergeFields(fields: seq<Type>, ds: seq<Value>, vs: seq<Value>): seq<Value>
    requires FieldsShaped(fields, ds) && FieldsTyped(fields, vs)
    decreases fields, 0
  {
    if fields == [] then []
    else [Merge(fields[0], ds[0], vs[0])] + MergeFields(fields[1..], ds[1..], vs[1..])
  }

  // ---- Integers ----

  lemma ReadBack(w: Width, i: int, rest: Bytes)
    ensures ReadBig(Size(w), Int(w, i) + rest) == (i % Range(w), rest)
  {
    RangeIsPow(w);
    FromBigOfBig(Size(w), i % Range(w));
    assert (Int(w, i) + rest)[..Size(w)] == Int(w, i);
    assert (Int(w, i) + rest)[Size(w)..] == rest;
  }

  /** Two's complement: signed numbers of every width come back with their sign. */
  lemma SignedBack(w: Width, i: int)
    requires -(Range(w) / 2) <= i < Range(w) / 2
    ensures ToSigned(w, i % Range(w)) == i
  {
    match w case W1 => case W2 => case W4 => case W8 =>
  }

  lemma UnsignedBack(w: Width, i: int)
    requires 0 <= i < Range(w)
    ensures i % Range(w) == i
  {
    match w case W1 => case W2 => case W4 => case W8 =>
  }

  lemma {:induction false} BytesBack(s: Bytes, rest: Bytes)
    ensures ReadBytes(|s|, s + rest) == (s, rest)
    decreases |s|
  {
    if s == [] {
      assert s + rest == rest;
    } else {
      assert (s + rest)[..1] == [s[0]] && (s + rest)[1..] == s[1..] + rest;
      assert FromBig([s[0]]) == s[0] by { assert [s[0]][..0] == []; }
      BytesBack(s[1..], rest);
      assert [s[0]] + s[1..] == s;
    }
  }

  /** The length prefix of a string or slice comes back in front of anything. */
  lemma LengthBack(n: nat, rest: Bytes)
    requires n < TWO32
    ensures ReadBig(4, Int(W4, n) + rest) == (n, rest)
  {
    ReadBack(W4, n, rest);
    UnsignedBack(W4, n);
  }

  lemma ScalarBack(t: Type, d: Value, v: Value, rest: Bytes)
    requires t.Bool? || t.Signed? || t.Unsigned? || t.Float? || t.Str?
    requires WellTyped(t, v)
    ensures DecodeInto(t, d, Encode(t, v) + rest) == (v, rest)
  {
    match t
    case Bool =>
      var e: Bytes := [if v.b then 1 else 0];
      assert (e + rest)[..1] == e && (e + rest)[1..] == rest && e[..0] == [];
      assert FromBig(e) == e[0];
    case Signed(w) => ReadBack(w, v.i, rest); SignedBack(w, v.i);
    case Unsigned(w) => ReadBack(w, v.i, rest); UnsignedBack(w, v.i);
    case Float(w) => ReadBack(w, v.i, rest); UnsignedBack(w, v.i);
    case Str =>
      assert Int(W4, |v.s|) + v.s + rest == Int(W4, |v.s|) + (v.s + rest);
      LengthBack(|v.s|, v.s + rest);
      BytesBack(v.s, rest);
  }

  // ---- Round trip, with the remainder and into any destination ----

  /** Decoding `Encode(v) + rest` into `d` gives `Merge(d, v)` and leaves exactly `rest`. */
  lemma {:induction false} RoundTripInto(t: Type, d: Value, v: Value, rest: Bytes)
    requires Sound(t) && Shaped(t, d) && WellTyped(t, v)
    ensures DecodeInto(t, d, Encode(t, v) + rest) == (Merge(t, d, v), rest)
    decreases t, 0
  {
    hide Int, ReadBig, Size, Range;
    match t
    case Array(_, elem) =>
      if v.vs != [] { RoundTripEach(elem, d.vs, v.vs, rest); } else { assert [] + rest == rest; }
    case Slice(elem) =>
      var body := EncodeAll(elem, v.vs);
      assert Int(W4, |v.vs|) + body + rest == Int(W4, |v.vs|) + (body + rest);
      LengthBack(|v.vs|, body + rest);
      RoundTripNew(elem, v.vs, rest);
    case Struct(fields) => RoundTripFields(fields, d.vs, v.vs, rest);
    case _ => ScalarBack(t, d, v, rest);
  }

  lemma {:induction false} RoundTripEach(elem: Type, ds: seq<Value>, vs: seq<Value>, rest: Bytes)
    requires Sound(elem) && |ds| == |vs| && AllShaped(elem, ds) && AllTyped(elem, vs)
    ensures DecodeEach(elem, ds, EncodeAll(elem, vs) + rest) == (MergeEach(elem, ds, vs), rest)
    decreases elem, |vs| + 1
  {
    hide Encode, DecodeInto, Shaped, Merge, WellTyped, Sound;
    if vs == [] {
      assert [] + rest == rest;
    } else {
      var tail := EncodeAll(elem, vs[1..]);
      assert EncodeAll(elem, vs) + rest == Encode(elem, vs[0]) + (tail + rest);
      RoundTripInto(elem, ds[0], vs[0], tail + rest);
      RoundTripEach(elem, ds[1..], vs[1..], rest);
    }
  }

  lemma {:induction false} RoundTripNew(elem: Type, vs: seq<Value>, rest: Bytes)
    requires Sound(elem) && AllTyped(elem, vs)
    ensures DecodeNew(elem, |vs|, EncodeAll(elem, vs) + rest) == (vs, rest)
    decreases elem, |vs| + 1
  {
    hide Encode, DecodeInto, Zero, Shaped, Merge, NoElements, WellTyped, Sound;
    if vs == [] {
      assert [] + rest == rest;
    } else {
      var tail := EncodeAll(elem, vs[1..]);
      assert EncodeAll(elem, vs) + rest == Encode(elem, vs[0]) + (tail + rest);
      ZeroShaped(elem);
      RoundTripInto(elem, Zero(elem), vs[0], tail + rest);
      ZeroHasNoElements(elem);
      MergeExact(elem, Zero(elem), vs[0]);
      RoundTripNew(elem, vs[1..], rest);
      assert [vs[0]] + vs[1..] == vs;
    }
  }

  lemma {:induction false} RoundTripFields(fields: seq<Type>, ds: seq<Value>, vs: seq<Value>, rest: Bytes)
    requires FieldsSound(fields) && FieldsShaped(fields, ds) && FieldsTyped(fields, vs)
    ensures DecodeFields(fields, ds, EncodeFields(fields, vs) + rest) == (MergeFields(fields, ds, vs), rest)
    decreases fields, 0
  {
    if fields == [] {
      assert [] + rest == rest;
    } else {
      var tail := EncodeFields(fields[1..], vs[1..]);
      assert EncodeFields(fields, vs) + rest == Encode(fields[0], vs[0]) + (tail + rest);
      RoundTripInto(fields[0], ds[0], vs[0], tail + rest);
      RoundTripFields(fields[1..], ds[1..], vs[1..], rest);
    }
  }

  // ---- When the destination does not matter ----

  /** Every slice inside the destination is empty. */
  ghost predicate NoElements(t: Type, d: Value)
    requires Shaped(t, d)
    decreases t, 0
  {
    match t
    case Array(_, elem) => EachNoElements(elem, d.vs)
    case Slice(_) => d.vs == []
    case Struct(fields) => FieldsNoElements(fields, d.vs)
    case _ => true
  }

  ghost predicate EachNoElements(elem: Type, ds: seq<Value>)
    requires AllShaped(elem, ds)
    decreases elem, |ds| + 1
  {
    ds == [] || (NoElements(elem, ds[0]) && EachNoElements(elem, ds[1..]))
  }

  ghost predicate FieldsNoElements(fields: seq<Type>, ds: seq<Value>)
    requires FieldsShaped(fields, ds)
    decreases fields, 0
  {
    fields == [] || (NoElements(fields[0], ds[0]) && FieldsNoElements(fields[1..], ds[1..]))
  }

  lemma {:induction false} MergeExact(t: Type, d: Value, v: Value)
    requires Shaped(t, d) && WellTyped(t, v)
    ensures Merge(t, d, v) == v <==> NoElements(t, d)
    decreases t, 0
  {
    match t
    case Array(_, elem) => MergeEachExact(elem, d.vs, v.vs);
    case Slice(_) => assert |d.vs + v.vs| == |d.vs| + |v.vs|;
    case Struct(fields) => MergeFieldsExact(fields, d.vs, v.vs);
    case _ =>
  }

  lemma {:induction false} MergeEachExact(elem: Type, ds: seq<Value>, vs: seq<Value>)
    requires |ds| == |vs| && AllShaped(elem, ds) && AllTyped(elem, vs)
    ensures MergeEach(elem, ds, vs) == vs <==> EachNoElements(elem, ds)
    decreases elem, |vs| + 1
  {
    if vs != [] {
      MergeExact(elem, ds[0], vs[0]);
      MergeEachExact(elem, ds[1..], vs[1..]);
      var m := MergeEach(elem, ds, vs);
      assert m[0] == Merge(elem, ds[0], vs[0]) && m[1..] == MergeEach(elem, ds[1..], vs[1..]);
      assert vs == [vs[0]] + vs[1..];
    }
  }

  lemma {:induction false} MergeFieldsExact(fields: seq<Type>, ds: seq<Value>, vs: seq<Value>)
    requires FieldsShaped(fields, ds) && FieldsTyped(fields, vs)
    ensures MergeFields(fields, ds, vs) == vs <==> FieldsNoElements(fields, ds)
    decreases fields, 0
  {
    if fields != [] {
      MergeExact(fields[0], ds[0], vs[0]);
      MergeFieldsExact(fields[1..], ds[1..], vs[1..]);
      var m := MergeFields(fields, ds, vs);
      assert m[0] == Merge(fields[0], ds[0], vs[0]) && m[1..] == MergeFields(fields[1..], ds[1..], vs[1..]);
      assert vs == [vs[0]] + vs[1..];
    }
  }

  lemma {:induction false} ZeroHasNoElements(t: Type)
    ensures Shaped(t, Zero(t)) && NoElements(t, Zero(t))
    decreases t, 0
  {
    ZeroShaped(t);
    match t
    case Array(n, elem) => ZeroHasNoElements(elem); RepeatNoElements(elem, n);
    case Struct(fields) => ZeroFieldsNoElements(fields);
    case _ =>
  }

  lemma {:induction false} RepeatNoElements(elem: Type, n: nat)
    requires Shaped(elem, Zero(elem)) && NoElements(elem, Zero(elem))
    ensures AllShaped(elem, seq(n, _ => Zero(elem))) && EachNoElements(elem, seq(n, _ => Zero(elem)))
  {
    RepeatShaped(elem, n);
    if n > 0 {
      RepeatNoElements(elem, n - 1);
      assert seq(n, _ => Zero(elem))[1..] == seq(n - 1, _ => Zero(elem));
    }
  }

  lemma {:induction false} ZeroFieldsNoElements(fields: seq<Type>)
    ensures FieldsShaped(fields, ZeroFields(fields)) && FieldsNoElements(fields, ZeroFields(fields))
    decreases fields, 0
  {
    ZeroFieldsShaped(fields);
    if fields != [] {
      ZeroHasNoElements(fields[0]);
      ZeroFieldsNoElements(fields[1..]);
      assert ZeroFields(fields)[1..] == ZeroFields(fields[1..]);
    }
  }

  /** The value comes back exactly when no slice of the destination has elements already. */
  lemma DestinationExact(t: Type, d: Value, v: Value, rest: Bytes)
    requires Sound(t) && Shaped(t, d) && WellTyped(t, v)
    ensures DecodeInto(t, d, Encode(t, v) + rest) == (v, rest) <==> NoElements(t, d)
  {
    RoundTripInto(t, d, v, rest);
    MergeExact(t, d, v);
  }

  /** Decoding into a fresh zero value is the inverse of encoding, and leaves the remainder. */
  lemma RoundTrip(t: Type, v: Value, rest: Bytes)
    requires Sound(t) && WellTyped(t, v)
    ensures Decode(t, Encode(t, v) + rest) == (v, rest)
  {
    ZeroHasNoElements(t);
    DestinationExact(t, Zero(t), v, rest);
  }

  /** Encodings of a type are injective and none is a proper prefix of another. */
  lemma PrefixFree(t: Type, v: Value, w: Value, r: Bytes, s: Bytes)
    requires Sound(t) && WellTyped(t, v) && WellTyped(t, w)
    requires Encode(t, v) + r == Encode(t, w) + s
    ensures v == w && r == s
  {
    RoundTrip(t, v, r);
    RoundTrip(t, w, s);
  }
}
