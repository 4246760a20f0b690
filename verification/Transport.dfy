/**
  Two endpoints over a network that keeps every packet ever sent and may deliver any of them at any
  time, any number of times, or never: loss, duplication and reordering. Each `select` case of
  `run` (src/net/multipack.go:379-405) and each call of `Send` is one step.
*/
module Transport {
  import opened Words
  import opened Fragments
  import opened LoopedQueues
  import opened Endpoints
  import opened Links

  /** A packet on the wire together with the absolute positions its numbers stood for when it was
      sent. No step reads `pos`, `mapPos` or `expPos` to decide what an endpoint does. */
  datatype Sent = Sent(pkt: Packet, pos: nat, mapPos: nat, expPos: nat)

  /** An endpoint with its history: fragments released and drained, messages sent, packets sent. */
  datatype Peer = Peer(ep: Endpoint, released: nat, drained: nat, lane: Lane, net: set<Sent>)

  datatype Sys = Sys(cfg: Config, a: Peer, b: Peer)

  datatype Action =
    | SendMsg(d: Bytes)
    | Deliver(t: Sent, due: set<u32>, window: nat)
    | Timeout(n: u32)
    | Status

  datatype Step = Step(byA: bool, action: Action)

  /** Both queues of a lane start empty at the same sequence number. */
  ghost predicate Start(x: Peer, y: Peer) {
    && 0 < x.lane.m && x.lane.msgs == []
    && x.ep.send.q.size < TWO31 && y.ep.recv.q.size < TWO31
    && x.ep.send == SendSide(Fifo(x.ep.send.q.size, Wrap(x.lane.base), []), [], [], {})
    && y.ep.recv == RecvSide(Fifo(y.ep.recv.q.size, Wrap(x.lane.base), []), Assembly([], []), false)
    && x.ep.packID == 0 && x.released == 0 && y.drained == 0 && x.net == {}
  }

  ghost predicate Init(s: Sys) { Start(s.a, s.b) && Start(s.b, s.a) }

  /** What may happen to `x`: it may send what fits the counters, and receive anything `y` ever sent
      that does not lag by almost 2^32. */
  ghost predicate Enabled(cfg: Config, x: Peer, y: Peer, action: Action) {
    match action
    case SendMsg(d) => 0 < x.lane.m && Sendable(x.lane.m, d)
    case Deliver(t, _, _) =>
      && t in y.net
      && FreshState(cfg, x.ep.send, x.released, t.mapPos)
      && (t.pkt.Data? ==> FreshData(x.ep.recv, x.drained, t.pos))
    case Timeout(_) => true
    case Status => true
  }

  ghost predicate Fits(x: Peer) {
    && 0 < x.lane.m
    && |x.ep.recv.q.items| <= x.ep.recv.q.size
    && |x.ep.send.q.items| <= x.ep.send.q.size < TWO31
  }

  ghost function PositionOf(ep: Endpoint, released: nat, p: Packet): nat {
    match p
    case StateOnly(_) => 0
    case Data(_, em) => released + ep.send.q.Offset(em.seqNo)
  }

  /** What `x` put on the wire, with the positions recorded. */
  ghost function Record(x: Peer, ep: Endpoint, released: nat, out: seq<Packet>): set<Sent> {
    set p | p in out :: Sent(p, PositionOf(ep, released, p), x.drained, x.drained + |x.ep.recv.q.items|)
  }

  /** The step of `x`: the endpoint function, with the history brought up to date. */
  ghost function Act(cfg: Config, x: Peer, action: Action): Peer
    requires Fits(x)
  {
    match action
    case SendMsg(d) => x.(ep := OnSend(x.lane.m, x.ep, d), lane := x.lane.(msgs := x.lane.msgs + [d]))
    case Deliver(t, due, window) =>
      var (ep, out) := OnPacket(cfg, x.ep, t.pkt, due, window);
      var released := ReleasedAfter(cfg, x.ep.send, x.released, t.mapPos);
      var drained := if t.pkt.Data? then DrainedAfterReceive(cfg, x.ep.recv, t.pkt.em, x.drained) else x.drained;
      Peer(ep, released, drained, x.lane, x.net + Record(x, ep, released, out))
    case Timeout(n) =>
      var (ep, out) := OnTimeout(x.ep, n);
      x.(ep := ep, net := x.net + Record(x, ep, x.released, out))
    case Status =>
      x.(net := x.net + Record(x, x.ep, x.released, OnStatus(x.ep)))
  }

  ghost predicate CanStep(s: Sys, step: Step) {
    if step.byA then Enabled(s.cfg, s.a, s.b, step.action) && Fits(s.a)
    else Enabled(s.cfg, s.b, s.a, step.action) && Fits(s.b)
  }

  ghost function Next(s: Sys, step: Step): Sys
    requires CanStep(s, step)
  {
    if step.byA then s.(a := Act(s.cfg, s.a, step.action)) else s.(b := Act(s.cfg, s.b, step.action))
  }

  /** `run` is a run from `s` to `t`. */
  ghost predicate Leads(s: Sys, run: seq<Step>, t: Sys)
    decreases |run|
  {
    if run == [] then s == t
    else CanStep(s, run[0]) && Leads(Next(s, run[0]), run[1..], t)
  }

  // ---- The invariant ----

  ghost predicate DataOk(lane: Lane, end: nat, t: Sent)
    requires 0 < lane.m
  {
    t.pkt.Data? ==>
      && t.pos < end && t.pos < |lane.Frags()|
      && t.pkt.em.seqNo == Wrap(lane.base + t.pos)
      && t.pkt.em.frag == lane.Frags()[t.pos]
  }

  /** Everything known of the direction from `x` to `y`. */
  ghost predicate Flow(cfg: Config, x: Peer, y: Peer) {
    && Sender(x.lane, x.ep.send, x.released)
    && Receiver(cfg, x.lane, y.ep.recv, y.drained)
    && Drained(y.ep.recv)
    && Link(x.lane, x.ep.send, x.released, y.ep.recv, y.drained)
    && x.ep.packID == Wrap(|x.lane.msgs|)
    && (forall t | t in x.net :: DataOk(x.lane, End(x.ep.send, x.released), t))
    && (forall t | t in y.net :: StateOk(x.lane, y.ep.recv, y.drained, t.pkt.state, t.mapPos, t.expPos))
  }

  ghost predicate Inv(s: Sys) { Flow(s.cfg, s.a, s.b) && Flow(s.cfg, s.b, s.a) }

  lemma StartFlows(cfg: Config, x: Peer, y: Peer)
    requires Start(x, y) && Start(y, x)
    ensures Flow(cfg, x, y)
  {
    assert x.lane.Frags() == [];
    ResidueIs(0, 0, 0);
  }

  // ---- What `x` sends is sound ----

  lemma RecordedData(lane: Lane, x: Peer, ep: Endpoint, released: nat, st: StateMsg, ems: seq<Emission>)
    requires Sender(lane, ep.send, released) && (forall e | e in ems :: Emitted(lane, ep.send, released, e))
    ensures forall t | t in Record(x, ep, released, Stamp(st, ems)) ::
      DataOk(lane, End(ep.send, released), t) && t.pkt.state == st
  {
    forall t | t in Record(x, ep, released, Stamp(st, ems))
      ensures DataOk(lane, End(ep.send, released), t) && t.pkt.state == st
    {
      var k :| 0 <= k < |Stamp(st, ems)| && t.pkt == Stamp(st, ems)[k];
      assert ems[k] in ems;
      HeldPosition(ep.send.q, lane.base, released, ems[k].seqNo);
      assert lane.base + released + ep.send.q.Offset(ems[k].seqNo) == lane.base + t.pos;
    }
  }

  lemma RecordedState(cfg: Config, x: Peer, y: Peer, ep: Endpoint, released: nat, out: seq<Packet>)
    requires Receiver(cfg, y.lane, x.ep.recv, x.drained)
    requires forall p | p in out :: p.state == GetState(x.ep.recv.q)
    ensures forall t | t in Record(x, ep, released, out) ::
      StateOk(y.lane, x.ep.recv, x.drained, t.pkt.state, t.mapPos, t.expPos)
  {
    GetStateOk(cfg, y.lane, x.ep.recv, x.drained);
  }

  lemma DataStays(lane: Lane, lane': Lane, end: nat, end': nat, net: set<Sent>)
    requires 0 < lane.m == lane'.m && lane.base == lane'.base && lane.Frags() <= lane'.Frags() && end <= end'
    requires forall t | t in net :: DataOk(lane, end, t)
    ensures forall t | t in net :: DataOk(lane', end', t)
  {}

  lemma StatesStay(lane: Lane, r: RecvSide, drained: nat, r': RecvSide, drained': nat, net: set<Sent>)
    requires Advanced(r, drained, r', drained')
    requires forall t | t in net :: StateOk(lane, r, drained, t.pkt.state, t.mapPos, t.expPos)
    ensures forall t | t in net :: StateOk(lane, r', drained', t.pkt.state, t.mapPos, t.expPos)
  {
    forall t | t in net ensures StateOk(lane, r', drained', t.pkt.state, t.mapPos, t.expPos) {
      StateStays(lane, r, drained, r', drained', t.pkt.state, t.mapPos, t.expPos);
    }
  }

  // ---- Every step keeps both directions ----

  lemma SendStep(cfg: Config, x: Peer, y: Peer, d: Bytes)
    requires Flow(cfg, x, y) && Flow(cfg, y, x) && Sendable(x.lane.m, d)
    ensures var x' := Act(cfg, x, SendMsg(d)); Flow(cfg, x', y) && Flow(cfg, y, x')
  {
    SendKeeps(cfg, x.lane, x.ep, x.released, y.ep.recv, y.drained, d);
    var x' := Act(cfg, x, SendMsg(d));
    var end := End(x.ep.send, x.released);
    DataStays(x.lane, x'.lane, end, end, x.net);
    StatesSameBase(x.lane, x'.lane, y.ep.recv, y.drained, y.net);
  }

  lemma StatesSameBase(lane: Lane, lane': Lane, r: RecvSide, drained: nat, net: set<Sent>)
    requires lane.base == lane'.base
    requires forall t | t in net :: StateOk(lane, r, drained, t.pkt.state, t.mapPos, t.expPos)
    ensures forall t | t in net :: StateOk(lane', r, drained, t.pkt.state, t.mapPos, t.expPos)
  {
    forall t | t in net ensures StateOk(lane', r, drained, t.pkt.state, t.mapPos, t.expPos) {
      assert StateOk(lane, r, drained, t.pkt.state, t.mapPos, t.expPos);
    }
  }

  /** The sending direction of a step of `x` that ran `syncState` or a timeout. */
  lemma OutgoingKept(cfg: Config, x: Peer, y: Peer, x': Peer, o: SyncOut)
    requires Flow(cfg, x, y) && |x.ep.recv.q.items| <= x.ep.recv.q.size
    requires x'.lane == x.lane && x'.ep.packID == x.ep.packID && x'.ep.send == o.s
    requires Sound(x.lane, o, x'.released, y.ep.recv, y.drained)
    requires End(x.ep.send, x.released) <= End(o.s, x'.released)
    requires x'.net == x.net + Record(x, x'.ep, x'.released, Stamp(GetState(x.ep.recv.q), o.sent))
    ensures Flow(cfg, x', y)
  {
    RecordedData(x.lane, x, x'.ep, x'.released, GetState(x.ep.recv.q), o.sent);
    DataStays(x.lane, x.lane, End(x.ep.send, x.released), End(o.s, x'.released), x.net);
    hide Sender, Receiver, Link, DataOk, StateOk, Drained;
  }

  /** The receiving direction: new states describe the receiver before the step, and stay true. */
  lemma IncomingKept(cfg: Config, x: Peer, y: Peer, x': Peer, out: seq<Packet>)
    requires Flow(cfg, y, x)
    requires Receiver(cfg, y.lane, x'.ep.recv, x'.drained) && Drained(x'.ep.recv)
    requires Link(y.lane, y.ep.send, y.released, x'.ep.recv, x'.drained)
    requires Advanced(x.ep.recv, x.drained, x'.ep.recv, x'.drained)
    requires forall p | p in out :: p.state == GetState(x.ep.recv.q)
    requires exists ep, released :: x'.net == x.net + Record(x, ep, released, out)
    ensures Flow(cfg, y, x')
  {
    var ep, released :| x'.net == x.net + Record(x, ep, released, out);
    RecordedState(cfg, x, y, ep, released, out);
    hide Sender, Receiver, Link, DataOk, StateOk, Drained;
    StatesStay(y.lane, x.ep.recv, x.drained, x'.ep.recv, x'.drained, x'.net);
  }

  lemma FlowFits(cfg: Config, x: Peer, y: Peer)
    requires Flow(cfg, x, y) && Flow(cfg, y, x)
    ensures Fits(x)
  {}

  lemma DeliverOutgoing(cfg: Config, x: Peer, y: Peer, t: Sent, due: set<u32>, window: nat)
    requires Fits(x) && Flow(cfg, x, y) && Enabled(cfg, x, y, Deliver(t, due, window))
    ensures Flow(cfg, Act(cfg, x, Deliver(t, due, window)), y)
  {
    DeliverShape(cfg, x, t, due, window);
    assert StateOk(x.lane, y.ep.recv, y.drained, t.pkt.state, t.mapPos, t.expPos);
    hide Act, SyncState, StateOk, DataOk, Wrap, Sub, ReleasedAfter, DrainedAfterReceive, Receive, GetState;
    SyncKeeps(cfg, x.lane, x.ep.send, x.released, y.ep.recv, y.drained, t.pkt.state, t.mapPos, t.expPos, due, window);
    var x' := Act(cfg, x, Deliver(t, due, window));
    OutgoingKept(cfg, x, y, x', SyncState(cfg, x.ep.send, t.pkt.state, due, window));
  }

  lemma DeliverReceives(cfg: Config, x: Peer, y: Peer, t: Sent, due: set<u32>, window: nat)
    requires Fits(x) && Flow(cfg, y, x) && Enabled(cfg, x, y, Deliver(t, due, window))
    ensures var x' := Act(cfg, x, Deliver(t, due, window));
      && Receiver(cfg, y.lane, x'.ep.recv, x'.drained) && Drained(x'.ep.recv)
      && Link(y.lane, y.ep.send, y.released, x'.ep.recv, x'.drained)
      && Advanced(x.ep.recv, x.drained, x'.ep.recv, x'.drained)
  {
    hide Flow, Enabled, Act, SyncState, StateOk, Sender, Receiver, Link, Wrap, ReleasedAfter, DrainedAfterReceive,
         Receive, Drained, Advanced, GetState, Record, Stamp;
    DeliverShape(cfg, x, t, due, window);
    Incoming(cfg, x, y, t, due, window);
    if t.pkt.Data? {
      ReceiveKeeps(cfg, y.lane, y.ep.send, y.released, x.ep.recv, x.drained, t.pkt.em, t.pos);
    }
  }

  /** What is known of a packet that is delivered, and of the receiver it comes to. */
  lemma Incoming(cfg: Config, x: Peer, y: Peer, t: Sent, due: set<u32>, window: nat)
    requires Flow(cfg, y, x) && Enabled(cfg, x, y, Deliver(t, due, window))
    ensures Sender(y.lane, y.ep.send, y.released) && Receiver(cfg, y.lane, x.ep.recv, x.drained)
    ensures Link(y.lane, y.ep.send, y.released, x.ep.recv, x.drained) && Drained(x.ep.recv)
    ensures Advanced(x.ep.recv, x.drained, x.ep.recv, x.drained)
    ensures 0 < y.lane.m
    ensures t.pkt.Data? ==>
      && FreshData(x.ep.recv, x.drained, t.pos)
      && t.pos < End(y.ep.send, y.released) && t.pos < |y.lane.Frags()|
      && t.pkt.em.seqNo == Wrap(y.lane.base + t.pos) && t.pkt.em.frag == y.lane.Frags()[t.pos]
  {
    assert DataOk(y.lane, End(y.ep.send, y.released), t);
  }

  lemma DeliverIncoming(cfg: Config, x: Peer, y: Peer, t: Sent, due: set<u32>, window: nat)
    requires Fits(x) && Flow(cfg, y, x) && Enabled(cfg, x, y, Deliver(t, due, window))
    ensures Flow(cfg, y, Act(cfg, x, Deliver(t, due, window)))
  {
    hide Flow, Enabled, Act, SyncState, StateOk, DataOk, Sender, Receiver, Link, Wrap, Sub, ReleasedAfter,
         DrainedAfterReceive, Receive, GetState, Record, Drained, Advanced;
    DeliverShape(cfg, x, t, due, window);
    DeliverReceives(cfg, x, y, t, due, window);
    var x' := Act(cfg, x, Deliver(t, due, window));
    IncomingKept(cfg, x, y, x', Stamp(GetState(x.ep.recv.q), SyncState(cfg, x.ep.send, t.pkt.state, due, window).sent));
  }

  lemma DeliverStep(cfg: Config, x: Peer, y: Peer, t: Sent, due: set<u32>, window: nat)
    requires Flow(cfg, x, y) && Flow(cfg, y, x) && Enabled(cfg, x, y, Deliver(t, due, window))
    ensures Fits(x) && var x' := Act(cfg, x, Deliver(t, due, window)); Flow(cfg, x', y) && Flow(cfg, y, x')
  {
    FlowFits(cfg, x, y);
    DeliverOutgoing(cfg, x, y, t, due, window);
    DeliverIncoming(cfg, x, y, t, due, window);
  }

  lemma DeliverShape(cfg: Config, x: Peer, t: Sent, due: set<u32>, window: nat)
    requires Fits(x)
    ensures var x' := Act(cfg, x, Deliver(t, due, window));
      var o := SyncState(cfg, x.ep.send, t.pkt.state, due, window);
      && x'.lane == x.lane && x'.ep.packID == x.ep.packID
      && x'.ep.send == o.s && x'.released == ReleasedAfter(cfg, x.ep.send, x.released, t.mapPos)
      && x'.net == x.net + Record(x, x'.ep, x'.released, Stamp(GetState(x.ep.recv.q), o.sent))
      && x'.ep.recv == (if t.pkt.Data? then Receive(cfg, x.ep.recv, t.pkt.em) else x.ep.recv)
      && x'.drained == (if t.pkt.Data? then DrainedAfterReceive(cfg, x.ep.recv, t.pkt.em, x.drained) else x.drained)
  {
    hide SyncState, Receive, DrainedAfterReceive, ReleasedAfter, Record, Stamp, GetState;
  }

  lemma QuietStep(cfg: Config, x: Peer, y: Peer, action: Action)
    requires Flow(cfg, x, y) && Flow(cfg, y, x) && (action.Timeout? || action.Status?)
    ensures var x' := Act(cfg, x, action); Flow(cfg, x', y) && Flow(cfg, y, x')
  {
    var x' := Act(cfg, x, action);
    match action
    case Timeout(n) =>
      if x.ep.send.q.Holds(n) {
        EmitKeeps(x.lane, x.ep.send, x.released, y.ep.recv, y.drained, n);
        OutgoingKept(cfg, x, y, x', Emit(x.ep.send, n));
        IncomingKept(cfg, x, y, x', Stamp(GetState(x.ep.recv.q), Emit(x.ep.send, n).sent));
      } else {
        assert x' == x;
      }
    case Status =>
      assert forall t | t in x'.net :: t in x.net || t.pkt.StateOnly?;
      IncomingKept(cfg, x, y, x', OnStatus(x.ep));
  }

  lemma StepKeeps(cfg: Config, x: Peer, y: Peer, action: Action)
    requires Flow(cfg, x, y) && Flow(cfg, y, x) && Enabled(cfg, x, y, action)
    ensures Fits(x) && var x' := Act(cfg, x, action); Flow(cfg, x', y) && Flow(cfg, y, x')
  {
    match action
    case SendMsg(d) => SendStep(cfg, x, y, d);
    case Deliver(t, due, window) => DeliverStep(cfg, x, y, t, due, window);
    case Timeout(_) => QuietStep(cfg, x, y, action);
    case Status => QuietStep(cfg, x, y, action);
  }

  /** The invariant holds in every state of every run. */
  lemma {:induction false} RunKeepsInv(s: Sys, run: seq<Step>, t: Sys)
    requires Inv(s) && Leads(s, run, t)
    ensures Inv(t) && t.cfg == s.cfg
    decreases |run|
  {
    if run != [] {
      var step := run[0];
      if step.byA { StepKeeps(s.cfg, s.a, s.b, step.action); } else { StepKeeps(s.cfg, s.b, s.a, step.action); }
      RunKeepsInv(Next(s, step), run[1..], t);
    }
  }

  lemma ReachableInv(s: Sys, run: seq<Step>, t: Sys)
    requires Init(s) && Leads(s, run, t)
    ensures Inv(t)
  {
    StartFlows(s.cfg, s.a, s.b);
    StartFlows(s.cfg, s.b, s.a);
    RunKeepsInv(s, run, t);
  }
}
