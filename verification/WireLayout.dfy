/** Where each field of a packet and of the two messages around it lies in the datagram. */
module WireLayout {
  import opened Words
  import opened Codec
  import opened CodecBytes
  import opened Endpoints
  import opened Fragments
  import opened Wire

  lemma Inside(pre: Bytes, mid: Bytes, post: Bytes, off: nat, w: Width, n: int)
    requires NumberAt(mid, off, w, n)
    ensures NumberAt(pre + mid + post, |pre| + off, w, n)
  {
    hide ByteOf;
    forall j: nat | j < Size(w) ensures (pre + mid + post)[|pre| + off + j] == ByteOf(w, n, j) {
      assert (pre + mid + post)[|pre| + off + j] == mid[off + j];
    }
  }

  /** The 13 bytes of a state. */
  ghost predicate StateAt(b: Bytes, off: nat, s: StateMsg) {
    && NumberAt(b, off, W1, s.stateMap)
    && NumberAt(b, off + 1, W4, s.mapStSeq)
    && NumberAt(b, off + 5, W4, s.expectSeq)
    && NumberAt(b, off + 9, W4, s.maxExpectCnt)
  }

  /** The 24 bytes that say which fragment of which message this is, its number, and when it was sent. */
  ghost predicate InfoAt(b: Bytes, off: nat, f: Frag, n: u32, sendTime: int) {
    && NumberAt(b, off, W4, f.packID)
    && NumberAt(b, off + 4, W4, f.packSeq)
    && NumberAt(b, off + 8, W4, f.subPackCnt)
    && NumberAt(b, off + 12, W4, n)
    && NumberAt(b, off + 16, W8, sendTime)
  }

  lemma StateLayout(s: StateMsg)
    ensures WellTyped(STATE_T, StateValue(s)) && StateAt(Encode(STATE_T, StateValue(s)), 0, s)
  {
    StateEncodes(s);
    var a, b, c, d := Int(W1, s.stateMap), Int(W4, s.mapStSeq), Int(W4, s.expectSeq), Int(W4, s.maxExpectCnt);
    var e := Encode(STATE_T, StateValue(s));
    IntIs(W1, s.stateMap);
    IntIs(W4, s.mapStSeq);
    IntIs(W4, s.expectSeq);
    IntIs(W4, s.maxExpectCnt);
    hide Int, NumberAt, Encode, WellTyped, StateValue;
    assert e == [] + a + (b + c + d) == a + b + (c + d) == (a + b) + c + d == (a + b + c) + d + [];
    NumberIn([], W1, s.stateMap, b + c + d);
    NumberIn(a, W4, s.mapStSeq, c + d);
    NumberIn(a + b, W4, s.expectSeq, d);
    NumberIn(a + b + c, W4, s.maxExpectCnt, []);
  }

  lemma InfoLayout(f: Frag, n: u32, sendTime: int)
    requires IsTime(sendTime)
    ensures WellTyped(INFO_T, InfoValue(f, n, sendTime))
    ensures InfoAt(Encode(INFO_T, InfoValue(f, n, sendTime)), 0, f, n, sendTime)
  {
    InfoEncodes(f, n, sendTime);
    var a, b, c, d, t := Int(W4, f.packID), Int(W4, f.packSeq), Int(W4, f.subPackCnt), Int(W4, n), Int(W8, sendTime);
    var e := Encode(INFO_T, InfoValue(f, n, sendTime));
    IntIs(W4, f.packID);
    IntIs(W4, f.packSeq);
    IntIs(W4, f.subPackCnt);
    IntIs(W4, n);
    hide Int, NumberAt, Encode, WellTyped, InfoValue;
    assert e == [] + a + (b + c + d + t) == a + b + (c + d + t) == (a + b) + c + (d + t);
    assert e == (a + b + c) + d + t == (a + b + c + d) + t + [];
    NumberIn([], W4, f.packID, b + c + d + t);
    NumberIn(a, W4, f.packSeq, c + d + t);
    NumberIn(a + b, W4, f.subPackCnt, d + t);
    NumberIn(a + b + c, W4, n, t);
    NumberIn(a + b + c + d, W8, sendTime, []);
  }

  /** A bare state is its 13 bytes; a data packet is the state, the description of the fragment, the length
      of the payload and the payload. */
  lemma PacketLayout(p: Packet, sendTime: int)
    requires Encodable(p) && IsTime(sendTime)
    ensures var b := EncodePacket(p, sendTime);
      && StateAt(b, 0, p.state)
      && (p.StateOnly? ==> |b| == 13)
      && (p.Data? ==>
            && InfoAt(b, 13, p.em.frag, p.em.seqNo, sendTime)
            && NumberAt(b, 37, W4, |p.em.frag.data|)
            && b[41..] == p.em.frag.data)
  {
    StateLayout(p.state);
    StateEncodes(p.state);
    if p.Data? {
      DataEncodes(p, sendTime);
      InfoLayout(p.em.frag, p.em.seqNo, sendTime);
      InfoEncodes(p.em.frag, p.em.seqNo, sendTime);
      IntIs(W4, |p.em.frag.data|);
      DataLayout(p, sendTime, Encode(STATE_T, StateValue(p.state)),
                 Encode(INFO_T, InfoValue(p.em.frag, p.em.seqNo, sendTime)));
    }
  }

  lemma DataLayout(p: Packet, sendTime: int, st: Bytes, info: Bytes)
    requires p.Data? && |st| == 13 && |info| == 24 && StateAt(st, 0, p.state)
    requires InfoAt(info, 0, p.em.frag, p.em.seqNo, sendTime)
    ensures var data := p.em.frag.data;
      var b := st + info + (Int(W4, |data|) + data);
      && StateAt(b, 0, p.state) && InfoAt(b, 13, p.em.frag, p.em.seqNo, sendTime)
      && NumberAt(b, 37, W4, |data|) && b[41..] == data
  {
    var data, f := p.em.frag.data, p.em.frag;
    var len := Int(W4, |data|);
    IntIs(W4, |data|);
    hide Int, NumberAt;
    var b := st + info + (len + data);
    assert b == [] + st + (info + (len + data));
    Inside([], st, info + (len + data), 0, W1, p.state.stateMap);
    Inside([], st, info + (len + data), 1, W4, p.state.mapStSeq);
    Inside([], st, info + (len + data), 5, W4, p.state.expectSeq);
    Inside([], st, info + (len + data), 9, W4, p.state.maxExpectCnt);
    Inside(st, info, len + data, 0, W4, f.packID);
    Inside(st, info, len + data, 4, W4, f.packSeq);
    Inside(st, info, len + data, 8, W4, f.subPackCnt);
    Inside(st, info, len + data, 12, W4, p.em.seqNo);
    Inside(st, info, len + data, 16, W8, sendTime);
    assert b == (st + info) + len + data;
    NumberIn(st + info, W4, |data|, data);
  }

  /** The net message: both ids, the kind, the payload behind its length, the time to live. */
  lemma NetLayout(src: IdBytes, dst: IdBytes, data: Bytes, ttl: u32)
    requires |data| < TWO32
    ensures WellTyped(NET_T, NetValue(src, dst, data, ttl))
    ensures var b := Encode(NET_T, NetValue(src, dst, data, ttl));
      && |b| == 49 + |data|
      && b[..20] == src && b[20..40] == dst && b[40] == MSG_MULTI
      && NumberAt(b, 41, W4, |data|) && b[45..45 + |data|] == data
      && NumberAt(b, 45 + |data|, W4, ttl)
  {
    NetEncodes(src, dst, data, ttl);
    var b := Encode(NET_T, NetValue(src, dst, data, ttl));
    var kind, len, last := Int(W1, MSG_MULTI), Int(W4, |data|), Int(W4, ttl);
    IntIs(W4, |data|);
    OneByte(MSG_MULTI);
    hide Int, NumberAt, Encode, WellTyped, NetValue;
    assert b == (src + dst + kind) + len + (data + last) == (src + dst + kind + len + data) + last + [];
    NumberIn(src + dst + kind, W4, |data|, data + last);
    NumberIn(src + dst + kind + len + data, W4, ttl, []);
  }

  lemma OneByte(n: byte)
    ensures Int(W1, n) == [n]
  {
    BigByte(1, n, 0);
  }

  /** The p2p message: both ids, the type, the payload behind its length, and the two empty fields. */
  lemma P2PLayout(src: IdBytes, dst: IdBytes, tp: byte, data: Bytes)
    requires |data| < TWO32
    ensures WellTyped(P2P_T, P2PValue(src, dst, tp, data))
    ensures var b := Encode(P2P_T, P2PValue(src, dst, tp, data));
      && |b| == 53 + |data|
      && b[..20] == src && b[20..40] == dst && b[40] == tp
      && NumberAt(b, 41, W4, |data|) && b[45..45 + |data|] == data
      && b[45 + |data|..] == [0, 0, 0, 0, 0, 0, 0, 0]
  {
    P2PEncodes(src, dst, tp, data);
    var b := Encode(P2P_T, P2PValue(src, dst, tp, data));
    var kind, len, last := Int(W1, tp), Int(W4, |data|), seq(8, _ => 0);
    IntIs(W4, |data|);
    OneByte(tp);
    hide Int, NumberAt, Encode, WellTyped, P2PValue;
    assert b == (src + dst + kind) + len + (data + last);
    NumberIn(src + dst + kind, W4, |data|, data + last);
    assert b == (src + dst + kind + len + data) + last;
  }
}
