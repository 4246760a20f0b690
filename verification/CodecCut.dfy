/**
  Decoding what was cut off. The decoder does not look at the errors of `binary.Read`
  (src/common/encoder.go:79-172): it takes what is left, and values it finds no bytes for are zero.
*/
module CodecCut {
  import opened Words
  import opened Codec
  import opened CodecBytes
  import opened CodecRoundTrip

  // ---- Nothing left ----

  /** From nothing every type decodes to its zero value. */
  lemma {:induction false} EmptyIsZero(t: Type)
    ensures Shaped(t, Zero(t)) && DecodeInto(t, Zero(t), []) == (Zero(t), [])
    decreases t, 0
  {
    ZeroShaped(t);
    match t
    case Array(n, elem) => EmptyIsZero(elem); RepeatIsZero(elem, n);
    case Slice(elem) => assert Zero(t).vs + DecodeNew(elem, 0, []).0 == [];
    case Struct(fields) => FieldsAreZero(fields);
    case _ =>
  }

  lemma {:induction false} RepeatIsZero(elem: Type, n: nat)
    requires Shaped(elem, Zero(elem)) && DecodeInto(elem, Zero(elem), []) == (Zero(elem), [])
    ensures AllShaped(elem, seq(n, _ => Zero(elem)))
    ensures DecodeEach(elem, seq(n, _ => Zero(elem)), []) == (seq(n, _ => Zero(elem)), [])
  {
    RepeatShaped(elem, n);
    if n > 0 {
      var zs := seq(n, _ => Zero(elem));
      RepeatIsZero(elem, n - 1);
      assert zs[1..] == seq(n - 1, _ => Zero(elem));
      assert zs == [zs[0]] + zs[1..];
    }
  }

  lemma {:induction false} FieldsAreZero(ts: seq<Type>)
    ensures FieldsShaped(ts, ZeroFields(ts)) && DecodeFields(ts, ZeroFields(ts), []) == (ZeroFields(ts), [])
    decreases ts, 0
  {
    ZeroFieldsShaped(ts);
    if ts != [] {
      EmptyIsZero(ts[0]);
      FieldsAreZero(ts[1..]);
      assert ZeroFields(ts)[1..] == ZeroFields(ts[1..]);
    }
  }

  // ---- A number or a text cut off ----

  /** A number cut anywhere reads as zero, a truth value as false, and nothing is left. */
  lemma CutNumber(t: Type, v: Value, n: nat)
    requires t.Bool? || t.Signed? || t.Unsigned? || t.Float?
    requires WellTyped(t, v) && n < |Encode(t, v)|
    ensures Decode(t, Encode(t, v)[..n]) == (Zero(t), [])
  {
  }

  lemma {:induction false} ReadCut(b: Bytes, l: nat)
    requires |b| <= l
    ensures ReadBytes(l, b) == (b + seq(l - |b|, _ => 0), [])
    decreases l
  {
    if l > 0 {
      var (x, rest) := ReadBig(1, b);
      if b == [] {
        assert x == 0 && rest == [];
      } else {
        assert b[..1] == [b[0]] && [b[0]][..0] == [];
        assert x == FromBig([b[0]]) == b[0];
      }
      ReadCut(rest, l - 1);
      assert [x % 0x100] + (rest + seq(l - 1 - |rest|, _ => 0)) == b + seq(l - |b|, _ => 0);
    } else {
      assert b + seq(0, _ => 0) == [];
    }
  }

  /** A text cut in its length is empty; cut later it keeps its length, with zero bytes for what is gone. */
  lemma CutText(s: Bytes, n: nat)
    requires |s| < TWO32 && n < 4 + |s|
    ensures WellTyped(Str, VStr(s)) && |Encode(Str, VStr(s))| == 4 + |s|
    ensures Decode(Str, Encode(Str, VStr(s))[..n]) ==
            (VStr(if n < 4 then [] else s[..n - 4] + seq(4 + |s| - n, _ => 0)), [])
  {
    var cut := Encode(Str, VStr(s))[..n];
    LengthCut(|s|, s, n);
    if n >= 4 { ReadCut(s[..n - 4], |s|); }
    hide ReadBig, Int;
    assert ReadBytes(0, []) == ([], []);
  }

  /** A length, and what follows, cut at byte `n`. */
  lemma LengthCut(l: nat, rest: Bytes, n: nat)
    requires l < TWO32 && n < 4 + |rest|
    ensures |Int(W4, l) + rest| == 4 + |rest|
    ensures ReadBig(4, (Int(W4, l) + rest)[..n]) == if n < 4 then (0, []) else (l, rest[..n - 4])
  {
    CutOf(Int(W4, l), rest, n);
    if n >= 4 { LengthBack(l, rest[..n - 4]); }
  }

  // ---- A message cut off ----

  /** Where the encodings of the first `j` fields end. */
  ghost function EndOf(ts: seq<Type>, vs: seq<Value>, j: nat): nat
    requires FieldsTyped(ts, vs) && j <= |ts|
  {
    if j == 0 then 0 else |Encode(ts[0], vs[0])| + EndOf(ts[1..], vs[1..], j - 1)
  }

  /** The cut at byte `n` falls into field `j`: `ws` are the fields before it, this field decoded from the
      bytes it has left, and zeros. */
  ghost predicate CutAt(ts: seq<Type>, vs: seq<Value>, n: nat, j: nat, ws: seq<Value>)
    requires FieldsTyped(ts, vs)
  {
    && j < |ts| == |ws| == |vs| && WellTyped(ts[j], vs[j])
    && EndOf(ts, vs, j) <= n < EndOf(ts, vs, j) + |Encode(ts[j], vs[j])|
    && ws[..j] == vs[..j]
    && ws[j] == Decode(ts[j], Encode(ts[j], vs[j])[..n - EndOf(ts, vs, j)]).0
    && forall i | j < i < |ts| :: ws[i] == Zero(ts[i])
  }

  lemma {:induction false} ZeroAt(ts: seq<Type>, i: nat)
    requires i < |ts|
    ensures ZeroFields(ts)[i] == Zero(ts[i])
  {
    if i > 0 { ZeroAt(ts[1..], i - 1); }
  }

  /** The cut lies behind the first field. */
  lemma LaterCut(ts: seq<Type>, vs: seq<Value>, n: nat, j: nat, ws: seq<Value>)
    requires ts != [] && FieldsTyped(ts, vs) && |Encode(ts[0], vs[0])| <= n
    requires CutAt(ts[1..], vs[1..], n - |Encode(ts[0], vs[0])|, j, ws)
    ensures CutAt(ts, vs, n, j + 1, [vs[0]] + ws)
  {
    hide Encode, Decode, Zero, WellTyped;
    assert ts[1..][j] == ts[j + 1] && vs[1..][j] == vs[j + 1];
    assert vs[..j + 1] == [vs[0]] + vs[1..][..j];
    assert ([vs[0]] + ws)[..j + 1] == [vs[0]] + ws[..j];
    forall i | j + 1 < i < |ts| ensures ([vs[0]] + ws)[i] == Zero(ts[i]) { assert ts[1..][i - 1] == ts[i]; }
  }

  lemma FirstCut(ts: seq<Type>, vs: seq<Value>, n: nat)
    requires ts != [] && FieldsTyped(ts, vs) && n < |Encode(ts[0], vs[0])|
    ensures CutAt(ts, vs, n, 0, [Decode(ts[0], Encode(ts[0], vs[0])[..n]).0] + ZeroFields(ts[1..]))
  {
    hide Encode, Decode, Zero, WellTyped;
    FieldsMatch(ts, vs);
    forall i | 0 < i < |ts| ensures ZeroFields(ts[1..])[i - 1] == Zero(ts[i]) { ZeroAt(ts[1..], i - 1); }
  }

  /** The first `n` bytes of two pieces. */
  lemma CutOf(a: Bytes, b: Bytes, n: nat)
    requires n <= |a + b|
    ensures (a + b)[..n] == if n < |a| then a[..n] else a + b[..n - |a|]
  {
  }

  /** A struct cut off anywhere decodes to its fields up to the cut, the field the cut falls into decoded
      from what is left of it, and zeros; nothing is left. */
  lemma {:induction false} FieldsCut(ts: seq<Type>, vs: seq<Value>, n: nat) returns (j: nat)
    requires FieldsTyped(ts, vs) && FieldsSound(ts) && n < |EncodeFields(ts, vs)|
    ensures FieldsShaped(ts, ZeroFields(ts))
    ensures DecodeFields(ts, ZeroFields(ts), EncodeFields(ts, vs)[..n]).1 == []
    ensures CutAt(ts, vs, n, j, DecodeFields(ts, ZeroFields(ts), EncodeFields(ts, vs)[..n]).0)
    decreases ts, 0
  {
    ZeroFieldsShaped(ts);
    var e, more := Encode(ts[0], vs[0]), EncodeFields(ts[1..], vs[1..]);
    CutOf(e, more, n);
    assert ZeroFields(ts)[0] == Zero(ts[0]) && ZeroFields(ts)[1..] == ZeroFields(ts[1..]);
    if n < |e| {
      j := 0;
      CutConsumed(ts[0], vs[0], n);
      FieldsAreZero(ts[1..]);
      hide Encode, EncodeFields, DecodeInto, Zero, ZeroFields, WellTyped, Sound, Shaped, CutAt;
      FirstCut(ts, vs, n);
    } else {
      RoundTrip(ts[0], vs[0], more[..n - |e|]);
      hide Encode, EncodeFields, DecodeInto, Zero, ZeroFields, WellTyped, Sound, Shaped, CutAt;
      var i := FieldsCut(ts[1..], vs[1..], n - |e|);
      j := i + 1;
      LaterCut(ts, vs, n, i, DecodeFields(ts[1..], ZeroFields(ts[1..]), more[..n - |e|]).0);
    }
  }

  /** Every message that is cut off is read to its end. */
  lemma {:induction false} CutConsumed(t: Type, v: Value, n: nat)
    requires Sound(t) && WellTyped(t, v) && n < |Encode(t, v)|
    ensures Shaped(t, Zero(t)) && Decode(t, Encode(t, v)[..n]).1 == []
    decreases t, 0
  {
    ZeroShaped(t);
    match t
    case Str => CutText(v.s, n);
    case Array(k, elem) => EachCut(elem, v.vs, n);
    case Slice(elem) => SliceCut(elem, v.vs, n);
    case Struct(ts) => var j := FieldsCut(ts, v.vs, n);
    case _ => CutNumber(t, v, n);
  }

  lemma {:induction false} EachCut(elem: Type, vs: seq<Value>, n: nat)
    requires Sound(elem) && AllTyped(elem, vs) && n < |EncodeAll(elem, vs)|
    ensures AllShaped(elem, seq(|vs|, _ => Zero(elem)))
    ensures DecodeEach(elem, seq(|vs|, _ => Zero(elem)), EncodeAll(elem, vs)[..n]).1 == []
    decreases elem, |vs| + 1
  {
    ZeroShaped(elem);
    RepeatShaped(elem, |vs|);
    var e, more := Encode(elem, vs[0]), EncodeAll(elem, vs[1..]);
    var zs := seq(|vs|, _ => Zero(elem));
    CutOf(e, more, n);
    assert zs[1..] == seq(|vs| - 1, _ => Zero(elem));
    if n < |e| {
      CutConsumed(elem, vs[0], n);
    } else {
      RoundTrip(elem, vs[0], more[..n - |e|]);
      EachCut(elem, vs[1..], n - |e|);
    }
  }

  lemma {:induction false} NewCut(elem: Type, vs: seq<Value>, n: nat)
    requires Sound(elem) && AllTyped(elem, vs) && n < |EncodeAll(elem, vs)|
    ensures DecodeNew(elem, |vs|, EncodeAll(elem, vs)[..n]).1 == []
    decreases elem, |vs| + 1
  {
    ZeroShaped(elem);
    var e, more := Encode(elem, vs[0]), EncodeAll(elem, vs[1..]);
    CutOf(e, more, n);
    if n < |e| {
      CutConsumed(elem, vs[0], n);
    } else {
      RoundTrip(elem, vs[0], more[..n - |e|]);
      NewCut(elem, vs[1..], n - |e|);
    }
  }

  lemma SliceCut(elem: Type, vs: seq<Value>, n: nat)
    requires Sound(elem) && AllTyped(elem, vs) && |vs| < TWO32
    requires n < 4 + |EncodeAll(elem, vs)|
    ensures |Int(W4, |vs|) + EncodeAll(elem, vs)| == 4 + |EncodeAll(elem, vs)|
    ensures DecodeInto(Slice(elem), VList([]), (Int(W4, |vs|) + EncodeAll(elem, vs))[..n]).1 == []
    decreases elem, |vs| + 2
  {
    LengthCut(|vs|, EncodeAll(elem, vs), n);
    if n >= 4 { NewCut(elem, vs, n - 4); }
    hide Encode, EncodeAll, Int, ReadBig;
  }
}
