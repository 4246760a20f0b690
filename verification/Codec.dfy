/**
  The reflective wire codec of src/common/encoder.go. `reflect.Type` becomes a type descriptor and
  `reflect.Value` a value tree; floating-point numbers are their bit patterns. Encoding writes to a
  buffer, decoding consumes a reader and fills a destination; a read past the end leaves a zero,
  as `binary.Read` does when its error is ignored.
*/
module Codec {
  import opened Words

  datatype Width = W1 | W2 | W4 | W8

  datatype Type =
    | Bool
    | Signed(w: Width)
    | Unsigned(w: Width)
    | Float(w: Width)
    | Uintptr
    | Str
    | Array(len: nat, elem: Type)
    | Slice(elem: Type)
    | Struct(fields: seq<Type>)

  datatype Value =
    | VBool(b: bool)
    | VInt(i: int)
    | VStr(s: Bytes)
    | VList(vs: seq<Value>)

  function Size(w: Width): nat {
    match w case W1 => 1 case W2 => 2 case W4 => 4 case W8 => 8
  }

  function Range(w: Width): nat {
    match w case W1 => 0x100 case W2 => 0x1_0000 case W4 => 0x1_0000_0000 case W8 => 0x1_0000_0000_0000_0000
  }

  // ---- Values of a type ----

  ghost predicate WellTyped(t: Type, v: Value)
    decreases t, 0
  {
    match t
    case Bool => v.VBool?
    case Signed(w) => v.VInt? && -(Range(w) / 2) <= v.i < Range(w) / 2
    case Unsigned(w) => v.VInt? && 0 <= v.i < Range(w)
    case Float(w) => v.VInt? && 0 <= v.i < Range(w)
    case Uintptr => v.VInt? && 0 <= v.i < Range(W8)
    case Str => v.VStr? && |v.s| < TWO32
    case Array(n, elem) => v.VList? && |v.vs| == n && AllTyped(elem, v.vs)
    case Slice(elem) => v.VList? && |v.vs| < TWO32 && AllTyped(elem, v.vs)
    case Struct(fields) => v.VList? && FieldsTyped(fields, v.vs)
  }

  ghost predicate AllTyped(elem: Type, vs: seq<Value>)
    decreases elem, |vs| + 1
  {
    vs == [] || (WellTyped(elem, vs[0]) && AllTyped(elem, vs[1..]))
  }

  ghost predicate FieldsTyped(fields: seq<Type>, vs: seq<Value>)
    decreases fields, 0
  {
    if fields == [] then vs == []
    else vs != [] && WellTyped(fields[0], vs[0]) && FieldsTyped(fields[1..], vs[1..])
  }

  // ---- Big-endian integers ----

  function Big(k: nat, n: nat): (b: Bytes)
    ensures |b| == k
  {
    if k == 0 then [] else Big(k - 1, n / 0x100) + [n % 0x100]
  }

  function FromBig(b: Bytes): nat {
    if b == [] then 0 else FromBig(b[..|b| - 1]) * 0x100 + b[|b| - 1]
  }

  function Pow256(k: nat): nat { if k == 0 then 1 else 0x100 * Pow256(k - 1) }

  lemma {:induction false} FromBigOfBig(k: nat, n: nat)
    requires n < Pow256(k)
    ensures FromBig(Big(k, n)) == n
  {
    if k > 0 {
      FromBigOfBig(k - 1, n / 0x100);
      assert Big(k, n)[..k - 1] == Big(k - 1, n / 0x100);
    }
  }

  lemma {:induction false} FromBigBound(b: Bytes)
    ensures FromBig(b) < Pow256(|b|)
  {
    if b != [] { FromBigBound(b[..|b| - 1]); }
  }

  lemma RangeIsPow(w: Width)
    ensures Range(w) == Pow256(Size(w))
  {
    assert Pow256(1) == 0x100 && Pow256(2) == 0x1_0000;
    assert Pow256(4) == 0x1_0000_0000 by { assert Pow256(3) == 0x100_0000; }
    assert Pow256(8) == 0x1_0000_0000_0000_0000 by {
      assert Pow256(6) == 0x1_0000_0000_0000;
      assert Pow256(7) == 0x100_0000_0000_0000;
    }
  }

  function Int(w: Width, i: int): Bytes { Big(Size(w), i % Range(w)) }

  // ---- Encoding ----

  function Encode(t: Type, v: Value): Bytes
    requires WellTyped(t, v)
    decreases t, 0
  {
    match t
    case Bool => [if v.b then 1 else 0]
    case Signed(w) => Int(w, v.i)
    case Unsigned(w) => Int(w, v.i)
    case Float(w) => Int(w, v.i)
    case Uintptr => Int(W8, v.i)
    case Str => Int(W4, |v.s|) + v.s
    case Array(_, elem) => EncodeAll(elem, v.vs)
    case Slice(elem) => Int(W4, |v.vs|) + EncodeAll(elem, v.vs)
    case Struct(fields) => EncodeFields(fields, v.vs)
  }

  function EncodeAll(elem: Type, vs: seq<Value>): Bytes
    requires AllTyped(elem, vs)
    decreases elem, |vs| + 1
  {
    if vs == [] then [] else Encode(elem, vs[0]) + EncodeAll(elem, vs[1..])
  }

  function EncodeFields(fields: seq<Type>, vs: seq<Value>): Bytes
    requires FieldsTyped(fields, vs)
    decreases fields, 0
  {
    if fields == [] then [] else Encode(fields[0], vs[0]) + EncodeFields(fields[1..], vs[1..])
  }

  // ---- Decoding ----

  /** `binary.Read` of `k` bytes: on a short input it takes what is left and the value stays zero. */
  function ReadBig(k: nat, inp: Bytes): (r: (nat, Bytes))
    ensures |r.1| <= |inp|
  {
    if k <= |inp| then (FromBig(inp[..k]), inp[k..]) else (0, [])
  }

  function ReadBytes(l: nat, inp: Bytes): (r: (Bytes, Bytes))
    ensures |r.1| <= |inp|
    decreases l
  {
    if l == 0 then ([], inp)
    else
      var (b, rest) := ReadBig(1, inp);
      var (bs, out) := ReadBytes(l - 1, rest);
      ([b % 0x100] + bs, out)
  }

  function ToSigned(w: Width, n: nat): int { if n < Range(w) / 2 then n else n - Range(w) }

  /** The value every destination starts from. */
  function Zero(t: Type): Value
    decreases t, 0
  {
    match t
    case Bool => VBool(false)
    case Signed(_) => VInt(0)
    case Unsigned(_) => VInt(0)
    case Float(_) => VInt(0)
    case Uintptr => VInt(0)
    case Str => VStr([])
    case Array(n, elem) => VList(seq(n, _ => Zero(elem)))
    case Slice(_) => VList([])
    case Struct(fields) => VList(ZeroFields(fields))
  }

  function ZeroFields(fields: seq<Type>): (vs: seq<Value>)
    ensures |vs| == |fields|
    decreases fields, 0
  {
    if fields == [] then [] else [Zero(fields[0])] + ZeroFields(fields[1..])
  }

  /** `d` has the shape of a destination of type `t`. */
  ghost predicate Shaped(t: Type, d: Value)
    decreases t, 0
  {
    match t
    case Array(n, elem) => d.VList? && |d.vs| == n && AllShaped(elem, d.vs)
    case Slice(_) => d.VList?
    case Struct(fields) => d.VList? && FieldsShaped(fields, d.vs)
    case _ => true
  }

  ghost predicate AllShaped(elem: Type, ds: seq<Value>)
    decreases elem, |ds| + 1
  {
    ds == [] || (Shaped(elem, ds[0]) && AllShaped(elem, ds[1..]))
  }

  ghost predicate FieldsShaped(fields: seq<Type>, ds: seq<Value>)
    decreases fields, 0
  {
    if fields == [] then ds == []
    else ds != [] && Shaped(fields[0], ds[0]) && FieldsShaped(fields[1..], ds[1..])
  }

  lemma {:induction false} ZeroShaped(t: Type)
    ensures Shaped(t, Zero(t))
    decreases t, 0
  {
    match t
    case Array(n, elem) => ZeroShaped(elem); RepeatShaped(elem, n);
    case Struct(fields) => ZeroFieldsShaped(fields);
    case _ =>
  }

  lemma {:induction false} RepeatShaped(elem: Type, n: nat)
    requires Shaped(elem, Zero(elem))
    ensures AllShaped(elem, seq(n, _ => Zero(elem)))
  {
    if n > 0 {
      RepeatShaped(elem, n - 1);
      assert seq(n, _ => Zero(elem))[1..] == seq(n - 1, _ => Zero(elem));
    }
  }

  lemma {:induction false} ZeroFieldsShaped(fields: seq<Type>)
    ensures FieldsShaped(fields, ZeroFields(fields))
    decreases fields, 0
  {
    if fields != [] {
      ZeroShaped(fields[0]);
      ZeroFieldsShaped(fields[1..]);
      assert ZeroFields(fields)[1..] == ZeroFields(fields[1..]);
    }
  }

  /** Decoding into `d`. A slice is appended to, everything else is overwritten. A `uintptr` is
      encoded in 8 bytes but read into a type `binary.Read` does not support: nothing is consumed. */
  function DecodeInto(t: Type, d: Value, inp: Bytes): (r: (Value, Bytes))
    requires Shaped(t, d)
    ensures |r.1| <= |inp|
    decreases t, 0
  {
    match t
    case Bool => var (n, rest) := ReadBig(1, inp); (VBool(n != 0), rest)
    case Signed(w) => var (n, rest) := ReadBig(Size(w), inp); (VInt(ToSigned(w, n)), rest)
    case Unsigned(w) => var (n, rest) := ReadBig(Size(w), inp); (VInt(n), rest)
    case Float(w) => var (n, rest) := ReadBig(Size(w), inp); (VInt(n), rest)
    case Uintptr => (VInt(0), inp)
    case Str =>
      var (l, rest) := ReadBig(4, inp);
      var (bs, out) := ReadBytes(l, rest);
      (VStr(bs), out)
    case Array(_, elem) => var (vs, out) := DecodeEach(elem, d.vs, inp); (VList(vs), out)
    case Slice(elem) =>
      var (l, rest) := ReadBig(4, inp);
      var (vs, out) := DecodeNew(elem, l, rest);
      (VList(d.vs + vs), out)
    case Struct(fields) => var (vs, out) := DecodeFields(fields, d.vs, inp); (VList(vs), out)
  }

  function DecodeEach(elem: Type, ds: seq<Value>, inp: Bytes): (r: (seq<Value>, Bytes))
    requires AllShaped(elem, ds)
    ensures |r.1| <= |inp| && |r.0| == |ds|
    decreases elem, |ds| + 1
  {
    if ds == [] then ([], inp)
    else
      var (v, rest) := DecodeInto(elem, ds[0], inp);
      var (vs, out) := DecodeEach(elem, ds[1..], rest);
      ([v] + vs, out)
  }

  /** The elements of a slice, each decoded into a fresh zero value. */
  function DecodeNew(elem: Type, n: nat, inp: Bytes): (r: (seq<Value>, Bytes))
    ensures |r.1| <= |inp| && |r.0| == n
    decreases elem, n + 1
  {
    if n == 0 then ([], inp)
    else
      ZeroShaped(elem);
      var (v, rest) := DecodeInto(elem, Zero(elem), inp);
      var (vs, out) := DecodeNew(elem, n - 1, rest);
      ([v] + vs, out)
  }

  function DecodeFields(fields: seq<Type>, ds: seq<Value>, inp: Bytes): (r: (seq<Value>, Bytes))
    requires FieldsShaped(fields, ds)
    ensures |r.1| <= |inp| && |r.0| == |fields|
    decreases fields, 0
  {
    if fields == [] then ([], inp)
    else
      var (v, rest) := DecodeInto(fields[0], ds[0], inp);
      var (vs, out) := DecodeFields(fields[1..], ds[1..], rest);
      ([v] + vs, out)
  }

  function Decode(t: Type, inp: Bytes): (Value, Bytes) {
    ZeroShaped(t);
    DecodeInto(t, Zero(t), inp)
  }

  // ---- The recursive descent of the source ----

  class Buffer {
    var bytes: Bytes

    constructor ()
      ensures bytes == []
    {
      bytes := [];
    }

    method Write(b: Bytes)
      modifies this
      ensures bytes == old(bytes) + b
    {
      bytes := bytes + b;
    }
  }

  /** `encodeTypes`: a loop over the elements of an array, string or slice, and over the fields. */
  method EncodeTypes(buf: Buffer, t: Type, v: Value)
    requires WellTyped(t, v)
    modifies buf
    ensures buf.bytes == old(buf.bytes) + Encode(t, v)
    decreases t, 0
  {
    match t
    case Bool => buf.Write([if v.b then 1 else 0]);
    case Signed(w) => buf.Write(Int(w, v.i));
    case Unsigned(w) => buf.Write(Int(w, v.i));
    case Float(w) => buf.Write(Int(w, v.i));
    case Uintptr => buf.Write(Int(W8, v.i));
    case Str =>
      buf.Write(Int(W4, |v.s|));
      for i := 0 to |v.s|
        invariant buf.bytes == old(buf.bytes) + Int(W4, |v.s|) + v.s[..i]
      {
        buf.Write([v.s[i]]);
      }
    case Array(_, elem) =>
      EncodeElements(buf, elem, v.vs);
    case Slice(elem) =>
      buf.Write(Int(W4, |v.vs|));
      EncodeElements(buf, elem, v.vs);
    case Struct(fields) =>
      EncodeStruct(buf, fields, v.vs);
  }

  method EncodeStruct(buf: Buffer, fields: seq<Type>, vs: seq<Value>)
    requires FieldsTyped(fields, vs)
    modifies buf
    ensures buf.bytes == old(buf.bytes) + EncodeFields(fields, vs)
    decreases fields, 0
  {
    AllFields(fields, vs);
    var i := 0;
    while i < |fields|
      invariant i <= |fields| == |vs| && FieldsTyped(fields[i..], vs[i..])
      invariant buf.bytes + EncodeFields(fields[i..], vs[i..]) == old(buf.bytes) + EncodeFields(fields, vs)
    {
      assert fields[i..][1..] == fields[i + 1..] && vs[i..][1..] == vs[i + 1..];
      EncodeTypes(buf, fields[i], vs[i]);
      i := i + 1;
    }
  }

  method EncodeElements(buf: Buffer, elem: Type, vs: seq<Value>)
    requires AllTyped(elem, vs)
    modifies buf
    ensures buf.bytes == old(buf.bytes) + EncodeAll(elem, vs)
    decreases elem, 1
  {
    var i := 0;
    while i < |vs|
      invariant i <= |vs| && AllTyped(elem, vs[i..])
      invariant buf.bytes + EncodeAll(elem, vs[i..]) == old(buf.bytes) + EncodeAll(elem, vs)
    {
      assert vs[i..][1..] == vs[i + 1..];
      EncodeTypes(buf, elem, vs[i]);
      i := i + 1;
    }
  }

  lemma {:induction false} AllFields(fields: seq<Type>, vs: seq<Value>)
    requires FieldsTyped(fields, vs)
    ensures |fields| == |vs|
    decreases |fields|
  {
    if fields != [] { AllFields(fields[1..], vs[1..]); }
  }

  lemma {:induction false} AllFieldsShaped(fields: seq<Type>, ds: seq<Value>)
    requires FieldsShaped(fields, ds)
    ensures |fields| == |ds|
    decreases |fields|
  {
    if fields != [] { AllFieldsShaped(fields[1..], ds[1..]); }
  }

  class Reader {
    var rest: Bytes

    constructor (data: Bytes)
      ensures rest == data
    {
      rest := data;
    }

    method ReadInt(k: nat) returns (n: nat)
      modifies this
      ensures (n, rest) == ReadBig(k, old(rest))
    {
      if k <= |rest| {
        n, rest := FromBig(rest[..k]), rest[k..];
      } else {
        n, rest := 0, [];
      }
    }
  }

  /** `decodeTypes`: the new value of the destination `d`, and what it leaves in the reader. */
  method DecodeTypes(rd: Reader, t: Type, d: Value) returns (v: Value)
    requires Shaped(t, d)
    modifies rd
    ensures (v, rd.rest) == DecodeInto(t, d, old(rd.rest))
    decreases t, 0
  {
    match t
    case Bool => var n := rd.ReadInt(1); v := VBool(n != 0);
    case Signed(w) => var n := rd.ReadInt(Size(w)); v := VInt(ToSigned(w, n));
    case Unsigned(w) => var n := rd.ReadInt(Size(w)); v := VInt(n);
    case Float(w) => var n := rd.ReadInt(Size(w)); v := VInt(n);
    case Uintptr => v := VInt(0);
    case Str => var bts := DecodeString(rd); v := VStr(bts);
    case Array(_, elem) => var vs := DecodeElements(rd, elem, d.vs); v := VList(vs);
    case Slice(elem) => var vs := DecodeSlice(rd, elem, d.vs); v := VList(vs);
    case Struct(fields) => var vs := DecodeStruct(rd, fields, d.vs); v := VList(vs);
  }

  method DecodeString(rd: Reader) returns (bts: Bytes)
    modifies rd
    ensures var (l, rest) := ReadBig(4, old(rd.rest)); (bts, rd.rest) == ReadBytes(l, rest)
  {
    var l := rd.ReadInt(4);
    ghost var all := ReadBytes(l, rd.rest);
    bts := [];
    assert [] + all.0 == all.0;
    for i := 0 to l
      invariant Prepend(bts, ReadBytes(l - i, rd.rest)) == all
    {
      ghost var (n, rest) := ReadBig(1, rd.rest);
      PrependOne(bts, (n % 0x100) as byte, ReadBytes(l - i - 1, rest));
      hide ReadBig, Prepend;
      var b := rd.ReadInt(1);
      bts := bts + [b % 0x100];
    }
    assert bts + [] == bts;
  }

  method DecodeElements(rd: Reader, elem: Type, ds: seq<Value>) returns (vs: seq<Value>)
    requires AllShaped(elem, ds)
    modifies rd
    ensures (vs, rd.rest) == DecodeEach(elem, ds, old(rd.rest))
    decreases elem, 1
  {
    ghost var all := DecodeEach(elem, ds, rd.rest);
    vs := [];
    var i := 0;
    assert ds[0..] == ds && [] + all.0 == all.0;
    while i < |ds|
      invariant i <= |ds| && AllShaped(elem, ds[i..])
      invariant Prepend(vs, DecodeEach(elem, ds[i..], rd.rest)) == all
    {
      assert ds[i..][0] == ds[i] && ds[i..][1..] == ds[i + 1..];
      ghost var (v, rest) := DecodeInto(elem, ds[i], rd.rest);
      PrependOne(vs, v, DecodeEach(elem, ds[i + 1..], rest));
      hide DecodeInto, Prepend;
      var e := DecodeTypes(rd, elem, ds[i]);
      vs := vs + [e];
      i := i + 1;
    }
    assert ds[i..] == [] && vs + [] == vs;
  }

  /** Elements decoded before, put in front of what the rest of the loop decodes. */
  ghost function Prepend<T>(vs: seq<T>, r: (seq<T>, Bytes)): (seq<T>, Bytes) { (vs + r.0, r.1) }

  lemma PrependOne<T>(vs: seq<T>, v: T, r: (seq<T>, Bytes))
    ensures Prepend(vs, Prepend([v], r)) == Prepend(vs + [v], r)
  {
    assert vs + ([v] + r.0) == vs + [v] + r.0;
  }

  method DecodeSlice(rd: Reader, elem: Type, before: seq<Value>) returns (vs: seq<Value>)
    modifies rd
    ensures var (l, rest) := ReadBig(4, old(rd.rest));
      vs == before + DecodeNew(elem, l, rest).0 && rd.rest == DecodeNew(elem, l, rest).1
    decreases elem, 1
  {
    var l := rd.ReadInt(4);
    ghost var all := DecodeNew(elem, l, rd.rest);
    vs := before;
    for i := 0 to l
      invariant Prepend(vs, DecodeNew(elem, l - i, rd.rest)) == Prepend(before, all)
    {
      ZeroShaped(elem);
      ghost var (v, rest) := DecodeInto(elem, Zero(elem), rd.rest);
      PrependOne(vs, v, DecodeNew(elem, l - i - 1, rest));
      hide DecodeInto, Prepend;
      var nval := DecodeTypes(rd, elem, Zero(elem));
      vs := vs + [nval];
    }
  }

  method DecodeStruct(rd: Reader, fields: seq<Type>, ds: seq<Value>) returns (vs: seq<Value>)
    requires FieldsShaped(fields, ds)
    modifies rd
    ensures (vs, rd.rest) == DecodeFields(fields, ds, old(rd.rest))
    decreases fields, 0
  {
    ghost var start := rd.rest;
    vs := [];
    AllFieldsShaped(fields, ds);
    var i := 0;
    while i < |fields|
      invariant i <= |fields| == |ds| && FieldsShaped(fields[i..], ds[i..])
      invariant vs + DecodeFields(fields[i..], ds[i..], rd.rest).0 == DecodeFields(fields, ds, start).0
      invariant DecodeFields(fields[i..], ds[i..], rd.rest).1 == DecodeFields(fields, ds, start).1
    {
      assert fields[i..][1..] == fields[i + 1..] && ds[i..][1..] == ds[i + 1..];
      var e := DecodeTypes(rd, fields[i], ds[i]);
      vs := vs + [e];
      i := i + 1;
    }
    assert fields[i..] == [] && ds[i..] == [] && vs + [] == vs;
  }
}
