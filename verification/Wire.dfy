/**
  The three nested messages of a reliable packet (multipack in net in p2p), their sizes, and what
  survives the 1024-byte read of the receiving socket.
*/
module Wire {
  import opened Words
  import opened Codec
  import opened CodecRoundTrip
  import opened Endpoints
  import opened Fragments

  const P2P_PACK_SIZE := 1024
  const NETMSG_PACK_SIZE := P2P_PACK_SIZE - 40 - 1 - 4 * 3
  const NETMSG_DATA_SIZE := NETMSG_PACK_SIZE - 40 - 1 - 4 - 4
  const MP_STATE_SIZE := 1 + 4 * 3
  /** As in the source: `PackInfo` counted without its 8-byte `SendTime`. */
  const MP_INFO_SIZE := 4 * 4
  const MULTIPACK_DATA_SIZE := NETMSG_DATA_SIZE - MP_STATE_SIZE - MP_INFO_SIZE - 4
  const MSG_MULTI := 2

  // ---- Type descriptors ----

  const U8 := Unsigned(W1)
  const U32 := Unsigned(W4)
  const NODE_ID_T := Array(20, U8)
  const BYTES_T := Slice(U8)
  const STATE_T := Struct([U8, U32, U32, U32])
  const INFO_T := Struct([U32, U32, U32, U32, Signed(W8)])
  const DATA_T := Struct([STATE_T, INFO_T, BYTES_T])
  const NET_T := Struct([NODE_ID_T, NODE_ID_T, U8, BYTES_T, U32])
  const P2P_T := Struct([NODE_ID_T, NODE_ID_T, U8, BYTES_T, BYTES_T, BYTES_T])

  type IdBytes = id: seq<byte> | |id| == 20 witness seq(20, _ => 0)

  // ---- Values ----

  function ByteList(b: seq<byte>): (v: Value)
    ensures v.VList? && |v.vs| == |b|
  {
    VList(seq(|b|, k requires 0 <= k < |b| => VInt(b[k])))
  }

  function StateValue(s: StateMsg): Value {
    VList([VInt(s.stateMap), VInt(s.mapStSeq), VInt(s.expectSeq), VInt(s.maxExpectCnt)])
  }

  function InfoValue(f: Frag, n: u32, sendTime: int): Value {
    VList([VInt(f.packID), VInt(f.packSeq), VInt(f.subPackCnt), VInt(n), VInt(sendTime)])
  }

  function DataValue(p: Packet, sendTime: int): Value
    requires p.Data?
  {
    VList([StateValue(p.state), InfoValue(p.em.frag, p.em.seqNo, sendTime), ByteList(p.em.frag.data)])
  }

  function NetValue(src: IdBytes, dst: IdBytes, data: seq<byte>, ttl: u32): Value {
    VList([ByteList(src), ByteList(dst), VInt(MSG_MULTI), ByteList(data), VInt(ttl)])
  }

  function P2PValue(src: IdBytes, dst: IdBytes, tp: byte, data: seq<byte>): Value {
    VList([ByteList(src), ByteList(dst), VInt(tp), ByteList(data), VList([]), VList([])])
  }

  predicate IsTime(i: int) { -0x8000_0000_0000_0000 <= i < 0x8000_0000_0000_0000 }

  // ---- Structs field by field ----

  lemma Join3(a: seq<byte>, b: seq<byte>, c: seq<byte>)
    ensures Join([a, b, c]) == a + b + c
  {
    var l := [a, b, c];
    assert l[1..] == [b, c] && l[1..][1..] == [c];
    assert Join([c]) == c + [] && Join([b, c]) == b + Join([c]);
  }

  lemma Join6(a: seq<byte>, b: seq<byte>, c: seq<byte>, d: seq<byte>, e: seq<byte>, f: seq<byte>)
    ensures Join([a, b, c, d, e, f]) == a + b + c + d + e + f
  {
    var l := [a, b, c, d, e, f];
    assert l[1..][1..][1..] == [d, e, f];
    assert Join(l) == a + Join(l[1..]) && Join(l[1..]) == b + Join(l[1..][1..]);
    assert Join(l[1..][1..]) == c + Join([d, e, f]);
    Join3(d, e, f);
  }

  lemma Join5(a: seq<byte>, b: seq<byte>, c: seq<byte>, d: seq<byte>, e: seq<byte>)
    ensures Join([a, b, c, d, e]) == a + b + c + d + e
  {
    var l := [a, b, c, d, e];
    assert l[1..][1..] == [c, d, e];
    assert Join(l) == a + Join(l[1..]) && Join(l[1..]) == b + Join([c, d, e]);
    Join3(c, d, e);
  }

  lemma Join4(a: seq<byte>, b: seq<byte>, c: seq<byte>, d: seq<byte>)
    ensures Join([a, b, c, d]) == a + b + c + d
  {
    assert [a, b, c, d][1..] == [b, c, d];
    Join3(b, c, d);
  }

  ghost predicate Encodes(t: Type, v: Value, e: seq<byte>) { WellTyped(t, v) && Sound(t) && Encode(t, v) == e }

  /** The encoding of a struct is the encodings of its fields, one after the other. */
  lemma {:induction false} FieldsEncode(ts: seq<Type>, vs: seq<Value>, es: seq<seq<byte>>)
    requires |ts| == |vs| == |es| && forall k | 0 <= k < |ts| :: Encodes(ts[k], vs[k], es[k])
    ensures FieldsTyped(ts, vs) && FieldsSound(ts) && EncodeFields(ts, vs) == Join(es)
    decreases |ts|
  {
    if ts != [] { FieldsEncode(ts[1..], vs[1..], es[1..]); }
  }

  lemma StructEncodes(ts: seq<Type>, vs: seq<Value>, es: seq<seq<byte>>)
    requires |ts| == |vs| == |es| && forall k | 0 <= k < |ts| :: Encodes(ts[k], vs[k], es[k])
    ensures Encodes(Struct(ts), VList(vs), Join(es))
  {
    FieldsEncode(ts, vs, es);
  }

  lemma IntEncodes(w: Width, i: int)
    requires 0 <= i < Range(w)
    ensures Encodes(Unsigned(w), VInt(i), Int(w, i)) && |Int(w, i)| == Size(w)
  {}

  /** A byte list encodes to its bytes. */
  lemma {:induction false} BytesEncode(b: seq<byte>)
    ensures AllTyped(U8, ByteList(b).vs) && EncodeAll(U8, ByteList(b).vs) == b
    decreases |b|
  {
    if b != [] {
      BytesEncode(b[1..]);
      assert ByteList(b).vs[1..] == ByteList(b[1..]).vs;
      assert Encode(U8, VInt(b[0])) == [b[0]] by {
        assert Big(1, b[0]) == Big(0, b[0] / 0x100) + [b[0] % 0x100];
      }
      assert [b[0]] + b[1..] == b;
    }
  }

  lemma NodeIdEncodes(id: IdBytes)
    ensures Encodes(NODE_ID_T, ByteList(id), id)
  {
    BytesEncode(id);
  }

  lemma BytesEncodes(b: seq<byte>)
    requires |b| < TWO32
    ensures Encodes(BYTES_T, ByteList(b), Int(W4, |b|) + b)
  {
    BytesEncode(b);
  }

  lemma StateEncodes(s: StateMsg)
    ensures WellTyped(STATE_T, StateValue(s)) && Sound(STATE_T)
    ensures |Encode(STATE_T, StateValue(s))| == MP_STATE_SIZE == 13
    ensures Encode(STATE_T, StateValue(s)) ==
            Int(W1, s.stateMap) + Int(W4, s.mapStSeq) + Int(W4, s.expectSeq) + Int(W4, s.maxExpectCnt)
  {
    IntEncodes(W1, s.stateMap);
    IntEncodes(W4, s.mapStSeq);
    IntEncodes(W4, s.expectSeq);
    IntEncodes(W4, s.maxExpectCnt);
    hide Encodes, Int, Join;
    var es := [Int(W1, s.stateMap), Int(W4, s.mapStSeq), Int(W4, s.expectSeq), Int(W4, s.maxExpectCnt)];
    StructEncodes(STATE_T.fields, StateValue(s).vs, es);
    Join4(es[0], es[1], es[2], es[3]);
    Unfolded(STATE_T, StateValue(s), Join(es));
  }

  lemma Unfolded(t: Type, v: Value, e: seq<byte>)
    requires Encodes(t, v, e)
    ensures WellTyped(t, v) && Sound(t) && Encode(t, v) == e
  {}

  lemma InfoEncodes(f: Frag, n: u32, sendTime: int)
    requires IsTime(sendTime)
    ensures WellTyped(INFO_T, InfoValue(f, n, sendTime)) && Sound(INFO_T)
    ensures |Encode(INFO_T, InfoValue(f, n, sendTime))| == 24
    ensures Encode(INFO_T, InfoValue(f, n, sendTime)) ==
            Int(W4, f.packID) + Int(W4, f.packSeq) + Int(W4, f.subPackCnt) + Int(W4, n) + Int(W8, sendTime)
  {
    IntEncodes(W4, f.packID);
    IntEncodes(W4, f.packSeq);
    IntEncodes(W4, f.subPackCnt);
    IntEncodes(W4, n);
    assert Encodes(Signed(W8), VInt(sendTime), Int(W8, sendTime)) && |Int(W8, sendTime)| == 8;
    hide Encodes, Int, Join;
    var es := [Int(W4, f.packID), Int(W4, f.packSeq), Int(W4, f.subPackCnt), Int(W4, n), Int(W8, sendTime)];
    StructEncodes(INFO_T.fields, InfoValue(f, n, sendTime).vs, es);
    Join5(es[0], es[1], es[2], es[3], es[4]);
    Unfolded(INFO_T, InfoValue(f, n, sendTime), Join(es));
  }

  lemma DataEncodes(p: Packet, sendTime: int)
    requires p.Data? && IsTime(sendTime) && |p.em.frag.data| < TWO32
    ensures WellTyped(DATA_T, DataValue(p, sendTime)) && Sound(DATA_T)
    ensures |Encode(DATA_T, DataValue(p, sendTime))| == 41 + |p.em.frag.data|
    ensures WellTyped(STATE_T, StateValue(p.state)) && WellTyped(INFO_T, InfoValue(p.em.frag, p.em.seqNo, sendTime))
    ensures Encode(DATA_T, DataValue(p, sendTime)) ==
            Encode(STATE_T, StateValue(p.state)) + Encode(INFO_T, InfoValue(p.em.frag, p.em.seqNo, sendTime))
            + (Int(W4, |p.em.frag.data|) + p.em.frag.data)
  {
    StateEncodes(p.state);
    InfoEncodes(p.em.frag, p.em.seqNo, sendTime);
    BytesEncodes(p.em.frag.data);
    var es := [Encode(STATE_T, StateValue(p.state)),
               Encode(INFO_T, InfoValue(p.em.frag, p.em.seqNo, sendTime)),
               Int(W4, |p.em.frag.data|) + p.em.frag.data];
    assert Encodes(STATE_T, StateValue(p.state), es[0]);
    assert Encodes(INFO_T, InfoValue(p.em.frag, p.em.seqNo, sendTime), es[1]);
    hide Encodes, Join, StateValue, InfoValue, WellTyped, Sound, Encode;
    StructEncodes(DATA_T.fields, DataValue(p, sendTime).vs, es);
    Join3(es[0], es[1], es[2]);
    Unfolded(DATA_T, DataValue(p, sendTime), Join(es));
  }

  // ---- The reliable layer's packets, and the dispatch on their length ----

  ghost predicate Encodable(p: Packet) { p.Data? ==> |p.em.frag.data| < TWO32 }

  function EncodePacket(p: Packet, sendTime: int): seq<byte>
    requires Encodable(p) && IsTime(sendTime)
  {
    match p
    case StateOnly(st) => StateEncodes(st); Encode(STATE_T, StateValue(st))
    case Data(_, _) => DataEncodes(p, sendTime); Encode(DATA_T, DataValue(p, sendTime))
  }

  /** What `run` makes of the bytes: a state if there are 13 of them, a data message otherwise. The
      value decoded is returned with the kind. */
  function Dispatch(bytes: seq<byte>): (bool, Value) {
    if |bytes| == MP_STATE_SIZE then (true, Decode(STATE_T, bytes).0) else (false, Decode(DATA_T, bytes).0)
  }

  /** Dispatch on length is always right: a state is 13 bytes, a data message at least 41, and each
      decodes to exactly what was sent. */
  lemma DispatchIsRight(p: Packet, sendTime: int)
    requires Encodable(p) && IsTime(sendTime)
    ensures var bytes := EncodePacket(p, sendTime);
      && (|bytes| == MP_STATE_SIZE <==> p.StateOnly?)
      && |bytes| == (if p.StateOnly? then 13 else 41 + |p.em.frag.data|)
      && Dispatch(bytes) == (p.StateOnly?, if p.StateOnly? then StateValue(p.state) else DataValue(p, sendTime))
  {
    var bytes := EncodePacket(p, sendTime);
    assert bytes + [] == bytes;
    match p
    case StateOnly(st) =>
      StateEncodes(st);
      RoundTrip(STATE_T, StateValue(st), []);
    case Data(_, _) =>
      DataEncodes(p, sendTime);
      RoundTrip(DATA_T, DataValue(p, sendTime), []);
  }

  /** The value determines the packet, up to the time stamp. */
  lemma ValueDeterminesPacket(p: Packet, q: Packet, t: int, u: int)
    requires p.Data? && q.Data? && DataValue(p, t) == DataValue(q, u)
    ensures p == q && t == u
  {
    var a, b := DataValue(p, t).vs, DataValue(q, u).vs;
    assert a[0] == b[0] && a[1] == b[1] && a[2] == b[2];
    assert a[0].vs[0] == b[0].vs[0] && a[0].vs[1] == b[0].vs[1] && a[0].vs[2] == b[0].vs[2] && a[0].vs[3] == b[0].vs[3];
    assert a[1].vs[0] == b[1].vs[0] && a[1].vs[1] == b[1].vs[1] && a[1].vs[2] == b[1].vs[2];
    assert a[1].vs[3] == b[1].vs[3] && a[1].vs[4] == b[1].vs[4];
    ByteListInjective(p.em.frag.data, q.em.frag.data);
  }

  lemma ByteListInjective(a: seq<byte>, b: seq<byte>)
    requires ByteList(a) == ByteList(b)
    ensures a == b
  {
    forall k | 0 <= k < |a| ensures a[k] == b[k] {
      assert ByteList(a).vs[k] == ByteList(b).vs[k];
    }
  }

  // ---- The enclosing messages ----

  lemma NetEncodes(src: IdBytes, dst: IdBytes, data: seq<byte>, ttl: u32)
    requires |data| < TWO32
    ensures WellTyped(NET_T, NetValue(src, dst, data, ttl)) && Sound(NET_T)
    ensures |Encode(NET_T, NetValue(src, dst, data, ttl))| == 49 + |data|
    ensures Encode(NET_T, NetValue(src, dst, data, ttl))[48 + |data|] == ttl % 0x100
    ensures Encode(NET_T, NetValue(src, dst, data, ttl)) ==
            src + dst + Int(W1, MSG_MULTI) + (Int(W4, |data|) + data) + Int(W4, ttl)
  {
    LastByte(ttl);
    IntEncodes(W1, MSG_MULTI);
    IntEncodes(W4, ttl);
    NodeIdEncodes(src);
    NodeIdEncodes(dst);
    BytesEncodes(data);
    hide Encodes, Int, Join, ByteList;
    var es := [src, dst, Int(W1, MSG_MULTI), Int(W4, |data|) + data, Int(W4, ttl)];
    StructEncodes(NET_T.fields, NetValue(src, dst, data, ttl).vs, es);
    Join5(es[0], es[1], es[2], es[3], es[4]);
    Unfolded(NET_T, NetValue(src, dst, data, ttl), Join(es));
  }

  lemma LastByte(n: u32)
    ensures |Int(W4, n)| == 4 && Int(W4, n)[3] == n % 0x100
  {
    assert Int(W4, n) == Big(3, (n % Range(W4)) / 0x100) + [n % 0x100];
  }

  /** The first four fields of a p2p message; the empty digest and signature follow. */
  function P2PHead(src: IdBytes, dst: IdBytes, tp: byte, data: seq<byte>): seq<byte>
    requires |data| < TWO32
  {
    src + dst + Int(W1, tp) + Int(W4, |data|) + data
  }

  const EMPTIES := [BYTES_T, BYTES_T]

  lemma P2PEncodes(src: IdBytes, dst: IdBytes, tp: byte, data: seq<byte>)
    requires |data| < TWO32
    ensures WellTyped(P2P_T, P2PValue(src, dst, tp, data)) && Sound(P2P_T)
    ensures var e := Encode(P2P_T, P2PValue(src, dst, tp, data));
      e == P2PHead(src, dst, tp, data) + seq(8, _ => 0) && |e| == 53 + |data|
  {
    IntEncodes(W1, tp);
    NodeIdEncodes(src);
    NodeIdEncodes(dst);
    BytesEncodes(data);
    BytesEncodes([]);
    assert ByteList([]) == VList([]);
    ZeroLength();
    hide Encodes, Int, Join, ByteList;
    var es := [src, dst, Int(W1, tp), Int(W4, |data|) + data, Int(W4, 0) + [], Int(W4, 0) + []];
    StructEncodes(P2P_T.fields, P2PValue(src, dst, tp, data).vs, es);
    Join6(es[0], es[1], es[2], es[3], es[4], es[5]);
    Unfolded(P2P_T, P2PValue(src, dst, tp, data), Join(es));
    assert Int(W4, 0) + [] + (Int(W4, 0) + []) == seq(8, _ => 0);
    assert |Int(W4, |data|)| == 4 by { IntEncodes(W4, |data|); }
    assert Join(es) == P2PHead(src, dst, tp, data) + (Int(W4, 0) + [] + (Int(W4, 0) + []));
  }

  lemma ZeroLength()
    ensures Int(W4, 0) == [0, 0, 0, 0]
  {
    assert Big(1, 0) == [0] && Big(2, 0) == Big(1, 0) + [0] && Big(3, 0) == Big(2, 0) + [0];
    assert Big(4, 0) == Big(3, 0) + [0];
  }

  /** With the header constant of the source a full fragment makes a 1032-byte datagram; counting
      `SendTime` in it would make it exactly 1024. */
  lemma DatagramSize(src: IdBytes, dst: IdBytes, p: Packet, sendTime: int, ttl: u32, tp: byte)
    requires p.Data? && IsTime(sendTime) && |p.em.frag.data| < 0xFFFF_0000
    ensures var inner := EncodePacket(p, sendTime);
      && WellTyped(NET_T, NetValue(src, dst, inner, ttl))
      && var net := Encode(NET_T, NetValue(src, dst, inner, ttl));
      && |net| < TWO32 && WellTyped(P2P_T, P2PValue(src, dst, tp, net))
      && |Encode(P2P_T, P2PValue(src, dst, tp, net))| == 143 + |p.em.frag.data|
    ensures MULTIPACK_DATA_SIZE == 889 && 143 + MULTIPACK_DATA_SIZE == P2P_PACK_SIZE + 8
    ensures 143 + (NETMSG_DATA_SIZE - MP_STATE_SIZE - 24 - 4) == P2P_PACK_SIZE
  {
    DispatchIsRight(p, sendTime);
    var inner := EncodePacket(p, sendTime);
    NetEncodes(src, dst, inner, ttl);
    P2PEncodes(src, dst, tp, Encode(NET_T, NetValue(src, dst, inner, ttl)));
  }

  // ---- Truncation at the socket ----

  /** `ReadFromUDP` into a buffer of 1024 bytes. */
  function Received(datagram: seq<byte>): seq<byte> {
    if |datagram| <= P2P_PACK_SIZE then datagram else datagram[..P2P_PACK_SIZE]
  }

  /** A struct decoded from the encoding of its first fields and anything after it. */
  lemma {:induction false} DecodePrefix(ts: seq<Type>, us: seq<Type>, vs: seq<Value>, rest: seq<byte>)
    requires FieldsTyped(ts, vs) && FieldsSound(ts)
    ensures FieldsShaped(ts + us, ZeroFields(ts + us)) && FieldsShaped(us, ZeroFields(us))
    ensures DecodeFields(ts + us, ZeroFields(ts + us), EncodeFields(ts, vs) + rest) ==
      (vs + DecodeFields(us, ZeroFields(us), rest).0, DecodeFields(us, ZeroFields(us), rest).1)
    decreases |ts|
  {
    ZeroFieldsShaped(ts + us);
    ZeroFieldsShaped(us);
    hide DecodeInto, Encode, WellTyped, Sound, Shaped, Zero;
    if ts == [] {
      assert ts + us == us;
      assert [] + rest == rest;
      assert [] + DecodeFields(us, ZeroFields(us), rest).0 == DecodeFields(us, ZeroFields(us), rest).0;
    } else {
      var all := ts + us;
      assert all[0] == ts[0] && all[1..] == ts[1..] + us;
      var more := EncodeFields(ts[1..], vs[1..]) + rest;
      assert EncodeFields(ts, vs) + rest == Encode(ts[0], vs[0]) + more;
      RoundTrip(ts[0], vs[0], more);
      DecodePrefix(ts[1..], us, vs[1..], rest);
      assert ZeroFields(all)[0] == Zero(ts[0]) && ZeroFields(all)[1..] == ZeroFields(all[1..]);
      var tail := DecodeFields(us, ZeroFields(us), rest).0;
      assert [vs[0]] + (vs[1..] + tail) == vs + tail;
    }
  }

  /** Two byte slices read from at most eight zeros, or from nothing, are both empty. */
  lemma EmptiesFromZeros(z: seq<byte>)
    requires |z| <= 8 && forall k | 0 <= k < |z| :: z[k] == 0
    ensures FieldsShaped(EMPTIES, ZeroFields(EMPTIES))
    ensures DecodeFields(EMPTIES, ZeroFields(EMPTIES), z).0 == [VList([]), VList([])]
  {
    ZeroFieldsShaped(EMPTIES);
    EmptyFromZeros(z);
    var z1 := ReadBig(4, z).1;
    EmptyFromZeros(z1);
    var ds := ZeroFields(EMPTIES);
    assert EMPTIES[1..] == [BYTES_T] && EMPTIES[1..][1..] == [];
    assert ds[0] == VList([]) && ds[1..] == ZeroFields([BYTES_T]) && ds[1..][0] == VList([]);
    assert DecodeFields([BYTES_T], ds[1..], z1).0 == [VList([])] + DecodeFields([], ds[1..][1..], ReadBig(4, z1).1).0;
  }

  lemma EmptyFromZeros(z: seq<byte>)
    requires forall k | 0 <= k < |z| :: z[k] == 0
    ensures ReadBig(4, z).0 == 0
    ensures DecodeInto(BYTES_T, VList([]), z) == (VList([]), ReadBig(4, z).1)
    ensures forall k | 0 <= k < |ReadBig(4, z).1| :: ReadBig(4, z).1[k] == 0
  {
    if 4 <= |z| {
      assert z[..4] == [0, 0, 0, 0];
      var q: seq<byte> := [0, 0, 0, 0];
      assert q[..3] == [0, 0, 0] && q[..3][..2] == [0, 0] && q[..3][..2][..1] == [0];
      assert FromBig(q[..3][..2][..1]) == 0;
      assert FromBig(q) == 0;
    }
    assert DecodeNew(U8, 0, ReadBig(4, z).1) == ([], ReadBig(4, z).1);
    assert VList([]).vs + [] == [];
  }

  /** Bytes that are missing are read as zeros. */
  lemma {:induction false} ShortBytes(n: nat, inp: seq<byte>)
    requires |inp| <= n
    ensures DecodeNew(U8, n, inp) == (ByteList(inp + seq(n - |inp|, _ => 0)).vs, [])
    decreases n
  {
    if n > 0 {
      var (b, rest) := ReadBig(1, inp);
      if inp == [] {
        assert b == 0 && rest == [];
      } else {
        assert inp[..1] == [inp[0]] && [inp[0]][..0] == [];
        assert b == FromBig([inp[0]]) == inp[0];
      }
      ShortBytes(n - 1, rest);
      assert DecodeInto(U8, Zero(U8), inp) == (VInt(b), rest);
      var padded := inp + seq(n - |inp|, _ => 0);
      assert ByteList(padded).vs == [VInt(b)] + ByteList(rest + seq(n - 1 - |rest|, _ => 0)).vs;
    }
  }

  /** Of a payload only zeros are cut off by the 1024-byte read. */
  predicate OnlyZerosCut(data: seq<byte>) { forall k | 979 <= k < |data| :: data[k] == 0 }

  /** A p2p message with empty digest and signature comes through the 1024-byte read intact exactly
      when its payload has only zeros after its first 979 bytes: the eight bytes behind the payload
      that may be cut as well are zero lengths. */
  lemma TruncationExact(src: IdBytes, dst: IdBytes, tp: byte, data: seq<byte>)
    requires |data| < TWO32
    ensures WellTyped(P2P_T, P2PValue(src, dst, tp, data))
    ensures Decode(P2P_T, Received(Encode(P2P_T, P2PValue(src, dst, tp, data)))).0 == P2PValue(src, dst, tp, data)
            <==> OnlyZerosCut(data)
  {
    P2PEncodes(src, dst, tp, data);
    var got := Received(Encode(P2P_T, P2PValue(src, dst, tp, data)));
    if |data| <= 979 {
      TruncationHarmless(src, dst, tp, data, got);
    } else {
      TruncationPads(src, dst, tp, data, got);
      var padded := data[..979] + seq(|data| - 979, _ => 0);
      if P2PValue(src, dst, tp, padded) == P2PValue(src, dst, tp, data) {
        assert ByteList(padded) == P2PValue(src, dst, tp, padded).vs[3];
        ByteListInjective(padded, data);
      }
      assert OnlyZerosCut(data) ==> padded == data;
    }
  }

  lemma HeadFields(src: IdBytes, dst: IdBytes, tp: byte)
    ensures var ts, vs := [NODE_ID_T, NODE_ID_T, U8], [ByteList(src), ByteList(dst), VInt(tp)];
      FieldsTyped(ts, vs) && FieldsSound(ts) && EncodeFields(ts, vs) == src + dst + Int(W1, tp)
  {
    NodeIdEncodes(src);
    NodeIdEncodes(dst);
    IntEncodes(W1, tp);
    hide Encodes, Int, Join, ByteList;
    var es := [src, dst, Int(W1, tp)];
    FieldsEncode([NODE_ID_T, NODE_ID_T, U8], [ByteList(src), ByteList(dst), VInt(tp)], es);
    Join3(src, dst, Int(W1, tp));
  }

  lemma HeadAndData(src: IdBytes, dst: IdBytes, tp: byte, data: seq<byte>)
    requires |data| < TWO32
    ensures var ts, vs := [NODE_ID_T, NODE_ID_T, U8, BYTES_T], [ByteList(src), ByteList(dst), VInt(tp), ByteList(data)];
      FieldsTyped(ts, vs) && FieldsSound(ts) && EncodeFields(ts, vs) == P2PHead(src, dst, tp, data)
    ensures |P2PHead(src, dst, tp, data)| == 45 + |data|
  {
    NodeIdEncodes(src);
    NodeIdEncodes(dst);
    IntEncodes(W1, tp);
    IntEncodes(W4, |data|);
    BytesEncodes(data);
    hide Encodes, Int, Join, ByteList;
    var es := [src, dst, Int(W1, tp), Int(W4, |data|) + data];
    FieldsEncode([NODE_ID_T, NODE_ID_T, U8, BYTES_T], [ByteList(src), ByteList(dst), VInt(tp), ByteList(data)], es);
    Join4(es[0], es[1], es[2], es[3]);
  }

  lemma TruncationHarmless(src: IdBytes, dst: IdBytes, tp: byte, data: seq<byte>, got: seq<byte>)
    requires |data| <= 979
    requires got == Received(P2PHead(src, dst, tp, data) + seq(8, _ => 0))
    ensures Decode(P2P_T, got).0 == P2PValue(src, dst, tp, data)
  {
    var head := P2PHead(src, dst, tp, data);
    HeadAndData(src, dst, tp, data);
    var z := got[|head|..];
    assert got == head + z;
    EmptiesFromZeros(z);
    hide EncodeFields, FieldsTyped, FieldsSound, DecodeFields, ByteList, P2PHead, ZeroFields;
    var ts, vs := [NODE_ID_T, NODE_ID_T, U8, BYTES_T], [ByteList(src), ByteList(dst), VInt(tp), ByteList(data)];
    DecodePrefix(ts, EMPTIES, vs, z);
    DecodeStruct(P2P_T, ts + EMPTIES, got);
    assert ts + EMPTIES == P2P_T.fields;
    assert vs + [VList([]), VList([])] == P2PValue(src, dst, tp, data).vs;
  }

  lemma DecodeStruct(t: Type, fields: seq<Type>, inp: seq<byte>)
    requires t == Struct(fields)
    ensures FieldsShaped(fields, ZeroFields(fields))
    ensures Decode(t, inp).0 == VList(DecodeFields(fields, ZeroFields(fields), inp).0)
  {
    ZeroShaped(t);
  }

  /** A payload that is cut comes out with zeros in place of what was cut. */
  lemma TruncationPads(src: IdBytes, dst: IdBytes, tp: byte, data: seq<byte>, got: seq<byte>)
    requires 979 < |data| < TWO32
    requires got == Received(P2PHead(src, dst, tp, data) + seq(8, _ => 0))
    ensures Decode(P2P_T, got).0 == P2PValue(src, dst, tp, data[..979] + seq(|data| - 979, _ => 0))
  {
    HeadFields(src, dst, tp);
    var ts, vs := [NODE_ID_T, NODE_ID_T, U8], [ByteList(src), ByteList(dst), VInt(tp)];
    var us := [BYTES_T] + EMPTIES;
    var body := data[..979];
    var padded := body + seq(|data| - 979, _ => 0);
    assert P2PHead(src, dst, tp, data) == (src + dst + Int(W1, tp) + Int(W4, |data|)) + data;
    assert got == EncodeFields(ts, vs) + (Int(W4, |data|) + body);
    DecodePrefix(ts, us, vs, Int(W4, |data|) + body);
    LengthBack(|data|, body);
    ShortBytes(|data|, body);
    EmptiesFromZeros([]);
    ZeroFieldsShaped(us);
    assert us[0] == BYTES_T && us[1..] == EMPTIES;
    assert ZeroFields(us)[0] == VList([]) && ZeroFields(us)[1..] == ZeroFields(EMPTIES);
    assert DecodeInto(BYTES_T, VList([]), Int(W4, |data|) + body) == (ByteList(padded), []) by {
      assert [] + ByteList(padded).vs == ByteList(padded).vs;
    }
    assert DecodeFields(us, ZeroFields(us), Int(W4, |data|) + body).0 == [ByteList(padded)] + [VList([]), VList([])];
    DecodeStruct(P2P_T, ts + us, got);
    assert P2P_T.fields == ts + us;
    assert vs + ([ByteList(padded)] + [VList([]), VList([])]) == P2PValue(src, dst, tp, padded).vs;
  }

  /** Every packet of at most 889 payload bytes, the fragment size of the source, comes out of the
      three layers and the truncating socket as it went in. A longer one does exactly if only zeros
      are cut off its net message, which is never so if the last byte of the time to live is not
      zero. */
  lemma PacketSurvivesExact(src: IdBytes, dst: IdBytes, p: Packet, sendTime: int, ttl: u32, tp: byte)
    requires Encodable(p) && IsTime(sendTime) && (p.Data? ==> |p.em.frag.data| < 0xFFFF_0000)
    ensures var inner := EncodePacket(p, sendTime);
      && |inner| < TWO32 && WellTyped(NET_T, NetValue(src, dst, inner, ttl))
      && var net := Encode(NET_T, NetValue(src, dst, inner, ttl));
      && |net| < TWO32 && WellTyped(P2P_T, P2PValue(src, dst, tp, net))
      && var got := Decode(P2P_T, Received(Encode(P2P_T, P2PValue(src, dst, tp, net)))).0;
      && var short := p.StateOnly? || |p.em.frag.data| <= MULTIPACK_DATA_SIZE;
      && (short ==> got == P2PValue(src, dst, tp, net))
      && (!short ==> (got == P2PValue(src, dst, tp, net) <==> OnlyZerosCut(net)))
      && (!short && ttl % 0x100 != 0 ==> got != P2PValue(src, dst, tp, net))
      && Decode(NET_T, net).0 == NetValue(src, dst, inner, ttl)
      && Dispatch(inner) == (p.StateOnly?, if p.StateOnly? then StateValue(p.state) else DataValue(p, sendTime))
  {
    DispatchIsRight(p, sendTime);
    var inner := EncodePacket(p, sendTime);
    NetEncodes(src, dst, inner, ttl);
    var net := Encode(NET_T, NetValue(src, dst, inner, ttl));
    RoundTrip(NET_T, NetValue(src, dst, inner, ttl), []);
    assert net + [] == net;
    P2PEncodes(src, dst, tp, net);
    TruncationExact(src, dst, tp, net);
    assert |net| > 979 && ttl % 0x100 != 0 ==> net[|net| - 1] != 0;
  }
}
