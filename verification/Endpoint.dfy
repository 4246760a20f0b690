/**
  One end of the reliable transport as pure functions over its state (src/net/multipack.go:169-405).
  `MultiPackHandler.dfy` proves that the imperative handler computes these functions;
  `Transport.dfy` and `TransportTheorems.dfy` prove what they guarantee over every run.

  Three repairs are built in, because the source as it stands crashes on the first packet: the
  queues exist, the head of the receive queue is read at its front and a hole ends the drain, and
  a timeout for a number that was already released is ignored. Two further departures are flags, so
  that both readings are covered: `inclusiveAck` accepts an acknowledgement of the whole window
  (the source ignores it), `checkFirst` completes one-fragment messages (the source does not).
*/
module Endpoints {
  import opened Words
  import opened Fragments
  import opened LoopedQueues

  datatype Config = Config(inclusiveAck: bool, checkFirst: bool)

  datatype StateMsg = StateMsg(stateMap: byte, mapStSeq: u32, expectSeq: u32, maxExpectCnt: u32)

  datatype Emission = Emission(seqNo: u32, frag: Frag)

  datatype Packet =
    | StateOnly(state: StateMsg)
    | Data(state: StateMsg, em: Emission)

  /** Sending queue, waiting list, send channel, and the keys of the retransmit timer map. */
  datatype SendSide = SendSide(q: Fifo<Frag>, waiting: seq<Frag>, chan: seq<Frag>, timers: set<u32>)

  /** Receive queue (a slot may be a hole), reassembly, and whether the drain loop hangs. */
  datatype RecvSide = RecvSide(q: Fifo<Option<Frag>>, asm: Assembly, hung: bool)

  datatype Endpoint = Endpoint(send: SendSide, recv: RecvSide, packID: u32)

  // ---- getState ----

  predicate BitSet(m: byte, k: nat)
    requires k < 8
  {
    (m / Pow2(k)) % 2 == 1
  }

  /** The bitmap of the first `n` slots: bit `k` for slot `k`. */
  function MapOf(items: seq<Option<Frag>>, n: nat): (m: byte)
    requires n <= 8
    ensures m < Pow2(n)
  {
    if n == 0 then 0
    else
      assert Pow2(n) <= 256 by { Pow2Bound(n); }
      MapOf(items, n - 1) + (if n - 1 < |items| && items[n - 1].Some? then Pow2(n - 1) else 0)
  }

  lemma Pow2Bound(n: nat)
    requires n <= 8
    ensures Pow2(n) <= 256
  {
    assert Pow2(4) == 16 && Pow2(8) == 256;
    assert Pow2(0) == 1 && Pow2(1) == 2 && Pow2(2) == 4 && Pow2(3) == 8;
    assert Pow2(5) == 32 && Pow2(6) == 64 && Pow2(7) == 128;
  }

  lemma AddTopBit(v: nat, n: nat, k: nat)
    requires k <= n < 8 && v < Pow2(n) && v + Pow2(n) < 0x100
    ensures BitSet(v + Pow2(n), k) <==> k == n || BitSet(v, k)
  {
    if k == n {
      DivModUnique(v + Pow2(n), Pow2(n), 1, v);
    } else {
      var h := HalfSplit(n, k);
      AddEvenMultiple(v, Pow2(k), h);
    }
  }

  lemma AddEvenMultiple(v: nat, p: nat, h: nat)
    requires 0 < p
    ensures ((v + p * (2 * h)) / p) % 2 == (v / p) % 2
  {
    var a, b := v / p, v % p;
    assert p * (a + 2 * h) == p * a + p * (2 * h) by { MulSub(p, a, -(2 * h)); MulSub(p, 0, 2 * h); }
    DivModUnique(v + p * (2 * h), p, a + 2 * h, b);
  }

  lemma HalfSplit(n: nat, k: nat) returns (h: nat)
    requires k < n <= 8
    ensures Pow2(n) == Pow2(k) * (2 * h)
  {
    if n == k + 1 {
      h := 1;
    } else {
      var g := HalfSplit(n - 1, k);
      h := 2 * g;
      assert Pow2(k) * (2 * h) == 2 * (Pow2(k) * (2 * g));
    }
  }

  /** The bitmap means exactly "this slot is filled". */
  lemma {:induction false} MapBit(items: seq<Option<Frag>>, n: nat, k: nat)
    requires k < 8 && n <= 8
    ensures BitSet(MapOf(items, n), k) <==> k < n && k < |items| && items[k].Some?
  {
    Pow2Bound(n);
    if n == 0 {
      assert 0 / Pow2(k) == 0 by { Pow2Bound(k); DivModUnique(0, Pow2(k), 0, 0); }
    } else if n - 1 < |items| && items[n - 1].Some? {
      if k < n {
        AddTopBit(MapOf(items, n - 1), n - 1, k);
        if k < n - 1 { MapBit(items, n - 1, k); }
      } else {
        HighBitClear(MapOf(items, n), n, k);
      }
    } else if k < n - 1 {
      MapBit(items, n - 1, k);
    } else {
      HighBitClear(MapOf(items, n - 1), n - 1, k);
    }
  }

  lemma HighBitClear(v: byte, n: nat, k: nat)
    requires n <= k < 8 && v < Pow2(n)
    ensures !BitSet(v, k)
  {
    Monotone(n, k);
    DivModUnique(v, Pow2(k), 0, v);
  }

  lemma Monotone(n: nat, k: nat)
    requires n <= k <= 8
    ensures Pow2(n) <= Pow2(k)
  {
    if n < k { Monotone(n, k - 1); }
  }

  function GetState(q: Fifo<Option<Frag>>): StateMsg
    requires |q.items| <= q.size
  {
    StateMsg(MapOf(q.items, 8), q.stSeq, q.EnSeq(), q.size - |q.items|)
  }

  // ---- syncState ----

  datatype SyncOut = SyncOut(s: SendSide, sent: seq<Emission>)

  /** `send` with a data message: one emission, and a timer for its number. */
  function Emit(s: SendSide, n: u32): SyncOut
    requires s.q.Holds(n)
  {
    SyncOut(s.(timers := s.timers + {n}), [Emission(n, s.q.items[s.q.Offset(n)])])
  }

  predicate Acknowledges(cfg: Config, s: SendSide, stSeq: u32) {
    s.q.Holds(stSeq) || (cfg.inclusiveAck && stSeq == s.q.EnSeq())
  }

  /** The loop at 228: pop, and stop the timer of what was popped, up to `stSeq`. */
  function ReleaseTo(s: SendSide, stSeq: u32): (r: SendSide)
    ensures r.q.size == s.q.size && |r.q.items| <= |s.q.items|
    decreases |s.q.items|
  {
    if s.q.stSeq == stSeq || s.q.items == [] then s
    else ReleaseTo(s.(q := s.q.Pop(), timers := s.timers - {s.q.stSeq}), stSeq)
  }

  function Release(cfg: Config, s: SendSide, stSeq: u32): SendSide {
    if Acknowledges(cfg, s, stSeq) then ReleaseTo(s, stSeq) else s
  }

  function Then(first: seq<Emission>, rest: SyncOut): SyncOut { SyncOut(rest.s, first + rest.sent) }

  /** The loop at 240, from bit `k` on: resend holes, stop the timers of stored fragments. */
  function MapLoop(s: SendSide, st: StateMsg, k: nat): (o: SyncOut)
    requires k <= 8
    ensures o.s.q == s.q && o.s.waiting == s.waiting && o.s.chan == s.chan
    decreases 8 - k
  {
    var i := Add(st.mapStSeq, k);
    if k == 8 || i == st.expectSeq || !s.q.Holds(i) then SyncOut(s, [])
    else if BitSet(st.stateMap, k) then MapLoop(s.(timers := s.timers - {i}), st, k + 1)
    else
      var o := Emit(s, i);
      Then(o.sent, MapLoop(o.s, st, k + 1))
  }

  /** Takes the next fragment for the sending queue: from the waiting list, or else the channel. */
  function TakeNext(s: SendSide): (SendSide, Frag)
    requires s.waiting + s.chan != []
  {
    if s.waiting != [] then (s.(waiting := s.waiting[1..]), s.waiting[0])
    else (s.(chan := s.chan[1..]), s.chan[0])
  }

  /** The loop at 258, from `i` on. `due` holds the numbers old enough to be sent again. */
  function ExpectLoop(s: SendSide, st: StateMsg, due: set<u32>, i: nat): SyncOut
    requires |s.q.items| <= s.q.size < TWO31
    decreases st.maxExpectCnt - i
  {
    var n := Add(st.expectSeq, i);
    if i >= st.maxExpectCnt then SyncOut(s, [])
    else if s.q.Holds(n) then
      var o := if n in due then Emit(s, n) else SyncOut(s, []);
      Then(o.sent, ExpectLoop(o.s, st, due, i + 1))
    else if n != s.q.EnSeq() || s.q.Full() || s.waiting + s.chan == [] then SyncOut(s, [])
    else
      var (s1, f) := TakeNext(s);
      var s2 := s1.(q := s1.q.Push(f));
      PushedIsHeld(s.q, f);
      var o := Emit(s2, n);
      Then(o.sent, ExpectLoop(o.s, st, due, i + 1))
  }

  /** The loop at 292: fill the waiting list up to the congestion window. */
  function Refill(s: SendSide, window: nat): SendSide
    decreases |s.chan|
  {
    if |s.waiting| < window && s.chan != []
    then Refill(s.(waiting := s.waiting + [s.chan[0]], chan := s.chan[1..]), window)
    else s
  }

  function SyncState(cfg: Config, s: SendSide, st: StateMsg, due: set<u32>, window: nat): SyncOut
    requires |s.q.items| <= s.q.size < TWO31
  {
    var m := MapLoop(Release(cfg, s, st.mapStSeq), st, 0);
    var e := ExpectLoop(m.s, st, due, 0);
    SyncOut(Refill(e.s, window), m.sent + e.sent)
  }

  // ---- handlePackReceive ----

  /** The drain loop at 314 with the repaired head and the hole that ends it. */
  function Drain(checkFirst: bool, r: RecvSide): RecvSide
    decreases |r.q.items|
  {
    if r.q.items == [] || r.q.items[0].None? then r
    else match Feed(checkFirst, r.asm, r.q.items[0].value)
      case None => r.(hung := true, asm := Assembly([], r.asm.delivered))
      case Some(a) => Drain(checkFirst, r.(q := r.q.Pop(), asm := a))
  }

  function Holes(n: nat): (h: seq<Option<Frag>>)
    ensures |h| == n && forall k :: 0 <= k < n ==> h[k] == None
  {
    seq(n, _ => None)
  }

  /** Puts a fragment in its slot; numbers outside the window are discarded. */
  function Store(q: Fifo<Option<Frag>>, em: Emission): Option<Fifo<Option<Frag>>> {
    var off := q.Offset(em.seqNo);
    if off < |q.items| then Some(q.(items := q.items[off := Some(em.frag)]))
    else if off >= q.size then None
    else Some(q.(items := q.items + Holes(off - |q.items|) + [Some(em.frag)]))
  }

  function Receive(cfg: Config, r: RecvSide, em: Emission): RecvSide {
    match Store(r.q, em)
    case None => r
    case Some(q) => Drain(cfg.checkFirst, r.(q := q))
  }

  // ---- The same without two of the repairs ----

  /** The drain loop of the source, reading the right head: the type assertion fails on a hole. */
  function LiteralDrain(checkFirst: bool, r: RecvSide): Option<RecvSide>
    decreases |r.q.items|
  {
    if r.q.items == [] then Some(r)
    else match r.q.items[0]
      case None => None
      case Some(f) =>
        match Feed(checkFirst, r.asm, f)
        case None => Some(r.(hung := true, asm := Assembly([], r.asm.delivered)))
        case Some(a) => LiteralDrain(checkFirst, r.(q := r.q.Pop(), asm := a))
  }

  function LiteralReceive(cfg: Config, r: RecvSide, em: Emission): Option<RecvSide> {
    match Store(r.q, em)
    case None => Some(r)
    case Some(q) => LiteralDrain(cfg.checkFirst, r.(q := q))
  }

  /** The literal drain panics exactly if the repaired one stops at a hole, and agrees with it
      otherwise. */
  lemma {:induction false} LiteralDrainExact(checkFirst: bool, r: RecvSide)
    requires !r.hung
    ensures var r' := Drain(checkFirst, r);
      LiteralDrain(checkFirst, r) == if r'.q.items != [] && !r'.hung then None else Some(r')
    decreases |r.q.items|
  {
    if r.q.items != [] && r.q.items[0].Some? {
      var fed := Feed(checkFirst, r.asm, r.q.items[0].value);
      hide Feed;
      if fed.Some? { LiteralDrainExact(checkFirst, r.(q := r.q.Pop(), asm := fed.value)); }
    }
  }

  // ---- The events of `run` and `Send` ----

  function Stamp(st: StateMsg, ems: seq<Emission>): (ps: seq<Packet>)
    ensures |ps| == |ems|
  {
    seq(|ems|, k requires 0 <= k < |ems| => Data(st, ems[k]))
  }

  /** Every packet carries the receive state of the moment it is sent. */
  function OnPacket(cfg: Config, e: Endpoint, p: Packet, due: set<u32>, window: nat): (Endpoint, seq<Packet>)
    requires |e.recv.q.items| <= e.recv.q.size && |e.send.q.items| <= e.send.q.size < TWO31
  {
    var o := SyncState(cfg, e.send, p.state, due, window);
    var e1 := e.(send := o.s);
    var out := Stamp(GetState(e.recv.q), o.sent);
    match p
    case StateOnly(_) => (e1, out)
    case Data(_, em) => (e1.(recv := Receive(cfg, e.recv, em)), out)
  }

  function OnTimeout(e: Endpoint, n: u32): (Endpoint, seq<Packet>)
    requires |e.recv.q.items| <= e.recv.q.size
  {
    if e.send.q.Holds(n) then
      var o := Emit(e.send, n);
      (e.(send := o.s), Stamp(GetState(e.recv.q), o.sent))
    else (e, [])
  }

  /** The timeout handler of the source: the type assertion fails if the number is not held. */
  function LiteralOnTimeout(e: Endpoint, n: u32): Option<(Endpoint, seq<Packet>)>
    requires |e.recv.q.items| <= e.recv.q.size
  {
    if e.send.q.At(n) == None then None else Some(OnTimeout(e, n))
  }

  function OnStatus(e: Endpoint): seq<Packet>
    requires |e.recv.q.items| <= e.recv.q.size
  {
    [StateOnly(GetState(e.recv.q))]
  }

  function OnSend(m: nat, e: Endpoint, d: Bytes): Endpoint
    requires 0 < m
  {
    var id := Add(e.packID, 1);
    e.(packID := id, send := e.send.(chan := e.send.chan + FragsOf(m, id, d)))
  }

  /** A fragment just pushed under the end number is held under that number. */
  lemma PushedIsHeld(q: Fifo<Frag>, f: Frag)
    requires |q.items| < q.size < TWO31
    ensures q.Push(f).Holds(q.EnSeq()) && q.Push(f).Offset(q.EnSeq()) == |q.items|
  {
    ResidueIs(q.stSeq, q.stSeq, 0);
    SubExact(q.stSeq + |q.items|, q.stSeq);
  }
}
