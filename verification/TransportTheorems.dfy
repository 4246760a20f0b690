/** What every run of the transport guarantees, and where the acknowledgement rule of the source
    brings it to a halt. */
module TransportTheorems {
  import opened Words
  import opened Fragments
  import opened LoopedQueues
  import opened Endpoints
  import opened Links
  import opened Transport

  /** The messages `y` handed to its application are a prefix of the deliverable messages `x` sent,
      in order, and all of them once every fragment is drained; the drain loop never hangs. */
  ghost predicate DeliversInOrder(cfg: Config, x: Peer, y: Peer) {
    && 0 < x.lane.m
    && !y.ep.recv.hung
    && y.drained <= |x.lane.Frags()|
    && y.ep.recv.asm.delivered <= WantedOf(cfg.checkFirst, x.lane.m, x.lane.msgs)
    && (y.drained == |x.lane.Frags()| ==>
          y.ep.recv.asm.delivered == WantedOf(cfg.checkFirst, x.lane.m, x.lane.msgs))
  }

  /** Windows are nested, and every filled slot holds the fragment sent under its number. */
  ghost predicate WindowsNested(x: Peer, y: Peer) {
    && 0 < x.lane.m
    && x.released <= y.drained
    && y.drained + |y.ep.recv.q.items| <= End(x.ep.send, x.released) <= |x.lane.Frags()|
    && End(x.ep.send, x.released) <= y.drained + y.ep.recv.q.size
    && (forall k | 0 <= k < |y.ep.recv.q.items| && y.ep.recv.q.items[k].Some? ::
          y.ep.recv.q.items[k].value == x.lane.Frags()[y.drained + k])
  }

  /** Timers are for numbers in the window; what has no timer needs none. */
  ghost predicate DutyKept(x: Peer, y: Peer) {
    && (forall t | t in x.ep.send.timers :: x.ep.send.q.Holds(t))
    && (forall p: nat | x.released <= p < End(x.ep.send, x.released)
          && Wrap(x.lane.base + p) !in x.ep.send.timers :: Has(y.ep.recv, y.drained, p))
  }

  /** No packet ever sent is beyond the receiver's window, and the receiver's size check discards
      exactly the fresh ones it has already drained. */
  ghost predicate NeverOverruns(x: Peer, y: Peer) {
    forall t | t in x.net && t.pkt.Data? ::
      && t.pos < y.drained + y.ep.recv.q.size
      && (FreshData(y.ep.recv, y.drained, t.pos) ==>
            (Store(y.ep.recv.q, t.pkt.em).None? <==> t.pos < y.drained))
  }

  ghost predicate Guaranteed(cfg: Config, x: Peer, y: Peer) {
    DeliversInOrder(cfg, x, y) && WindowsNested(x, y) && DutyKept(x, y) && NeverOverruns(x, y)
  }

  lemma DeliveredPrefix(cfg: Config, x: Peer, y: Peer)
    requires Receiver(cfg, x.lane, y.ep.recv, y.drained)
    ensures DeliversInOrder(cfg, x, y)
  {
    FeedStream(cfg.checkFirst, Assembly([], []), x.lane.m, 0, x.lane.msgs, y.drained);
    assert [] + WantedOf(cfg.checkFirst, x.lane.m, x.lane.msgs) == WantedOf(cfg.checkFirst, x.lane.m, x.lane.msgs);
  }

  lemma FlowGuarantees(cfg: Config, x: Peer, y: Peer)
    requires Flow(cfg, x, y)
    ensures Guaranteed(cfg, x, y)
  {
    DeliveredPrefix(cfg, x, y);
    forall t | t in x.net && t.pkt.Data?
      ensures t.pos < y.drained + y.ep.recv.q.size
      ensures FreshData(y.ep.recv, y.drained, t.pos) ==>
                (Store(y.ep.recv.q, t.pkt.em).None? <==> t.pos < y.drained)
    {
      assert DataOk(x.lane, End(x.ep.send, x.released), t);
      if FreshData(y.ep.recv, y.drained, t.pos) {
        StoreExact(cfg, x.lane, x.ep.send, x.released, y.ep.recv, y.drained, t.pkt.em, t.pos);
      }
    }
  }

  /** End-to-end safety in both directions, over every run of the lossy, duplicating, reordering
      network, under either acknowledgement rule and either completeness check. */
  lemma EndToEndSafety(s: Sys, run: seq<Step>, t: Sys)
    requires Init(s) && Leads(s, run, t)
    ensures Guaranteed(s.cfg, t.a, t.b) && Guaranteed(s.cfg, t.b, t.a)
  {
    StartFlows(s.cfg, s.a, s.b);
    StartFlows(s.cfg, s.b, s.a);
    RunKeepsInv(s, run, t);
    FlowGuarantees(t.cfg, t.a, t.b);
    FlowGuarantees(t.cfg, t.b, t.a);
  }

  // ---- The literal acknowledgement rule ----

  lemma {:induction false} FullWindowAssignsNothing(s: SendSide, st: StateMsg, due: set<u32>, i: nat)
    requires |s.q.items| == s.q.size < TWO31
    ensures ExpectLoop(s, st, due, i).s.q == s.q
    decreases st.maxExpectCnt - i
  {
    var n := Add(st.expectSeq, i);
    if i < st.maxExpectCnt && s.q.Holds(n) {
      FullWindowAssignsNothing(if n in due then Emit(s, n).s else s, st, due, i + 1);
    }
  }

  lemma {:induction false} RefillLeavesQueue(s: SendSide, window: nat)
    ensures Refill(s, window).q == s.q
    decreases |s.chan|
  {
    if |s.waiting| < window && s.chan != [] {
      RefillLeavesQueue(s.(waiting := s.waiting + [s.chan[0]], chan := s.chan[1..]), window);
    }
  }

  /** The sender's window is full and the receiver has drained all of it. */
  ghost predicate FullAndDrained(x: Peer, y: Peer) {
    x.ep.send.q.items != [] && x.ep.send.q.Full() && y.drained == End(x.ep.send, x.released)
  }

  /** A packet for `x` that is not too stale to be told from a new one. */
  ghost predicate Deliverable(x: Peer, t: Sent) { t.pkt.Data? ==> FreshData(x.ep.recv, x.drained, t.pos) }

  /** The state of the packet acknowledges a part of the window, but not all of it. */
  ghost predicate AcksPart(x: Peer, y: Peer, t: Sent) { x.released < t.mapPos < y.drained }

  /** With the rule of the source: a full and drained window, and no packet that can still be delivered
      acknowledges a part of it. */
  ghost predicate Stalled(cfg: Config, x: Peer, y: Peer) {
    && !cfg.inclusiveAck && FullAndDrained(x, y)
    && forall t | t in y.net && Deliverable(x, t) :: !AcksPart(x, y, t)
  }

  lemma NothingReleased(cfg: Config, x: Peer, y: Peer, st: StateMsg, mapPos: nat)
    requires Flow(cfg, x, y) && !cfg.inclusiveAck && FreshState(cfg, x.ep.send, x.released, mapPos)
    requires mapPos <= x.released || mapPos == End(x.ep.send, x.released)
    requires st.mapStSeq == Wrap(x.lane.base + mapPos) && mapPos <= y.drained
    ensures Release(cfg, x.ep.send, st.mapStSeq) == x.ep.send
    ensures ReleasedAfter(cfg, x.ep.send, x.released, mapPos) == x.released
  {
    HoldsExact(x.ep.send.q, x.lane.base, x.released, mapPos);
    if mapPos == x.released {
      assert ReleaseTo(x.ep.send, st.mapStSeq) == x.ep.send;
    }
  }

  lemma StalledQueue(cfg: Config, x: Peer, y: Peer, action: Action)
    requires Flow(cfg, x, y) && Stalled(cfg, x, y) && Enabled(cfg, x, y, action) && Fits(x)
    ensures var x' := Act(cfg, x, action); x'.ep.send.q == x.ep.send.q && x'.released == x.released
  {
    if action.Deliver? {
      var t := action.t;
      assert StateOk(x.lane, y.ep.recv, y.drained, t.pkt.state, t.mapPos, t.expPos);
      NothingReleased(cfg, x, y, t.pkt.state, t.mapPos);
      hide Flow, StateOk, Act, Enabled, SyncState, Release;
      DeliverShape(cfg, x, t, action.due, action.window);
      SyncLeavesQueue(cfg, x.ep.send, t.pkt.state, action.due, action.window);
    }
  }

  lemma SyncLeavesQueue(cfg: Config, s: SendSide, st: StateMsg, due: set<u32>, window: nat)
    requires |s.q.items| == s.q.size < TWO31 && Release(cfg, s, st.mapStSeq) == s
    ensures SyncState(cfg, s, st, due, window).s.q == s.q
  {
    hide Release, MapLoop, ExpectLoop, Refill;
    var m := MapLoop(s, st, 0);
    FullWindowAssignsNothing(m.s, st, due, 0);
    RefillLeavesQueue(ExpectLoop(m.s, st, due, 0).s, window);
  }

  lemma ReceiverMovesOn(cfg: Config, x: Peer, y: Peer, action: Action)
    requires Flow(cfg, y, x) && Enabled(cfg, x, y, action) && Fits(x)
    ensures var x' := Act(cfg, x, action);
      x.drained <= x'.drained && x'.ep.recv.q.size == x.ep.recv.q.size && x'.lane.base == x.lane.base
  {
    if action.Deliver? {
      DeliverReceives(cfg, x, y, action.t, action.due, action.window);
      DeliverShape(cfg, x, action.t, action.due, action.window);
    }
    hide Flow, SyncState, Sender, Receiver, Link, Receive;
  }

  lemma StalledSender(cfg: Config, x: Peer, y: Peer, action: Action)
    requires Flow(cfg, x, y) && Flow(cfg, y, x) && Stalled(cfg, x, y)
    requires Enabled(cfg, x, y, action) && Fits(x)
    ensures var x' := Act(cfg, x, action);
      x'.ep.send.q == x.ep.send.q && x'.released == x.released && Stalled(cfg, x', y)
  {
    StalledQueue(cfg, x, y, action);
    ReceiverMovesOn(cfg, x, y, action);
    var x' := Act(cfg, x, action);
    hide Flow, Act, Enabled;
    assert forall t | Deliverable(x', t) :: Deliverable(x, t);
  }

  lemma StalledReceiver(cfg: Config, x: Peer, y: Peer, action: Action)
    requires Flow(cfg, x, y) && Flow(cfg, y, x) && Stalled(cfg, x, y)
    requires Enabled(cfg, y, x, action) && Fits(y)
    ensures var y' := Act(cfg, y, action); y'.drained == y.drained && Stalled(cfg, x, y')
  {
    if action.Deliver? && action.t.pkt.Data? {
      var t := action.t;
      assert DataOk(x.lane, End(x.ep.send, x.released), t);
      StoreExact(cfg, x.lane, x.ep.send, x.released, y.ep.recv, y.drained, t.pkt.em, t.pos);
    }
    hide Flow, Fits, Enabled, SyncState, StateOk, DataOk, Sub;
    NewStatesAreCurrent(cfg, y, action);
  }

  lemma NewStatesAreCurrent(cfg: Config, y: Peer, action: Action)
    requires Fits(y)
    ensures forall t | t in Act(cfg, y, action).net :: t in y.net || t.mapPos == y.drained
  {
    hide SyncState, OnTimeout, OnStatus, DrainedAfterReceive, ReleasedAfter;
  }

  /** With the rule of the source a stalled direction stays stalled: whatever either side does, and
      whatever the network delivers, the sender's queue never changes again. */
  lemma {:induction false} LiteralAckDeadlock(s: Sys, run: seq<Step>, t: Sys)
    requires Inv(s) && Stalled(s.cfg, s.a, s.b) && Leads(s, run, t)
    ensures t.a.ep.send.q == s.a.ep.send.q && t.b.drained == s.b.drained
    ensures Stalled(t.cfg, t.a, t.b)
    decreases |run|
  {
    if run != [] {
      var step := run[0];
      if step.byA {
        StepKeeps(s.cfg, s.a, s.b, step.action);
        StalledSender(s.cfg, s.a, s.b, step.action);
      } else {
        StepKeeps(s.cfg, s.b, s.a, step.action);
        StalledReceiver(s.cfg, s.a, s.b, step.action);
      }
      LiteralAckDeadlock(Next(s, step), run[1..], t);
    }
  }

  /** With the rule of the source and a sending queue of one slot, every run stalls after the first
      fragment: nothing is ever released and no second fragment ever gets a number. */
  lemma LiteralOneSlotSendsOnce(s: Sys, run: seq<Step>, t: Sys)
    requires Init(s) && Leads(s, run, t) && !s.cfg.inclusiveAck && s.a.ep.send.q.size == 1
    ensures t.a.released == 0 && End(t.a.ep.send, 0) <= 1 && t.b.drained <= 1
    ensures t.b.drained == 1 ==> Stalled(t.cfg, t.a, t.b)
  {
    StartFlows(s.cfg, s.a, s.b);
    StartFlows(s.cfg, s.b, s.a);
    OneSlotRun(s, run, t);
    forall x | x in t.b.net ensures x.mapPos <= t.b.drained {
      assert StateOk(t.a.lane, t.b.ep.recv, t.b.drained, x.pkt.state, x.mapPos, x.expPos);
    }
  }

  lemma {:induction false} OneSlotRun(s: Sys, run: seq<Step>, t: Sys)
    requires Inv(s) && Leads(s, run, t) && !s.cfg.inclusiveAck
    requires s.a.ep.send.q.size == 1 && s.a.released == 0
    ensures Inv(t) && t.cfg == s.cfg && t.a.released == 0 && t.a.ep.send.q.size == 1
    decreases |run|
  {
    if run != [] {
      var step := run[0];
      if step.byA {
        StepKeeps(s.cfg, s.a, s.b, step.action);
        SizeStays(s.cfg, s.a, step.action);
      } else {
        StepKeeps(s.cfg, s.b, s.a, step.action);
      }
      OneSlotRun(Next(s, step), run[1..], t);
    }
  }

  lemma {:induction false} ExpectLoopSize(s: SendSide, st: StateMsg, due: set<u32>, i: nat)
    requires |s.q.items| <= s.q.size < TWO31
    ensures ExpectLoop(s, st, due, i).s.q.size == s.q.size
    ensures |s.q.items| <= |ExpectLoop(s, st, due, i).s.q.items|
    decreases st.maxExpectCnt - i
  {
    var n := Add(st.expectSeq, i);
    if i < st.maxExpectCnt {
      if s.q.Holds(n) {
        ExpectLoopSize(if n in due then Emit(s, n).s else s, st, due, i + 1);
      } else if n == s.q.EnSeq() && !s.q.Full() && s.waiting + s.chan != [] {
        var (s1, f) := TakeNext(s);
        PushedIsHeld(s.q, f);
        ExpectLoopSize(Emit(s1.(q := s1.q.Push(f)), n).s, st, due, i + 1);
      }
    }
  }

  lemma SizeStays(cfg: Config, x: Peer, action: Action)
    requires Fits(x)
    ensures Act(cfg, x, action).ep.send.q.size == x.ep.send.q.size
  {
    if action.Deliver? {
      var m := MapLoop(Release(cfg, x.ep.send, action.t.pkt.state.mapStSeq), action.t.pkt.state, 0);
      ExpectLoopSize(m.s, action.t.pkt.state, action.due, 0);
      RefillLeavesQueue(ExpectLoop(m.s, action.t.pkt.state, action.due, 0).s, action.window);
    }
  }

  /** With the inclusive rule the same situation makes progress: a current state of a receiver that
      has drained everything releases the whole window and the next fragment gets a number. */
  lemma InclusiveAckProgress(cfg: Config, x: Peer, y: Peer, due: set<u32>, window: nat)
    requires Flow(cfg, x, y) && cfg.inclusiveAck
    requires y.drained == End(x.ep.send, x.released)
    requires x.ep.send.waiting + x.ep.send.chan != [] && 0 < x.ep.send.q.size && 0 < y.ep.recv.q.size
    ensures var o := SyncState(cfg, x.ep.send, GetState(y.ep.recv.q), due, window);
      && ReleasedAfter(cfg, x.ep.send, x.released, y.drained) == y.drained
      && y.drained < End(o.s, y.drained)
      && o.sent != []
  {
    var st := GetState(y.ep.recv.q);
    GetStateOk(cfg, x.lane, y.ep.recv, y.drained);
    ReleaseKeeps(cfg, x.lane, x.ep.send, x.released, y.ep.recv, y.drained, y.drained);
    var s1 := Release(cfg, x.ep.send, st.mapStSeq);
    assert s1.q.items == [];
    assert st.expectSeq == st.mapStSeq == s1.q.EnSeq();
    assert MapLoop(s1, st, 0) == SyncOut(s1, []) by { AddOfWrap(x.lane.base + y.drained, 0); }
    AddOfWrap(x.lane.base + y.drained, 0);
    ReleaseLeavesPending(x.ep.send, st.mapStSeq);
    var (s2, f) := TakeNext(s1);
    PushedIsHeld(s1.q, f);
    var o1 := Emit(s2.(q := s2.q.Push(f)), st.expectSeq);
    ExpectLoopSize(o1.s, st, due, 1);
    var e := ExpectLoop(s1, st, due, 0);
    assert e == Then(o1.sent, ExpectLoop(o1.s, st, due, 1));
    RefillLeavesQueue(e.s, window);
  }

  lemma {:induction false} ReleaseLeavesPending(s: SendSide, stSeq: u32)
    ensures ReleaseTo(s, stSeq).waiting == s.waiting && ReleaseTo(s, stSeq).chan == s.chan
    decreases |s.q.items|
  {
    if s.q.stSeq != stSeq && s.q.items != [] {
      ReleaseLeavesPending(s.(q := s.q.Pop(), timers := s.timers - {s.q.stSeq}), stSeq);
    }
  }
}
