/**
  Every reachable state of the transport can still deliver everything: the moves that bring a
  direction forward, and a run made of them.

  No claim is made that a network lets such a run happen; what is excluded is a state from which none
  exists.
*/
module Completion {
  import opened Words
  import opened Fragments
  import opened LoopedQueues
  import opened Endpoints
  import opened Links
  import opened Transport
  import opened TransportTheorems

  // ---- Runs ----

  lemma {:induction false} LeadsConcat(s: Sys, run: seq<Step>, t: Sys, more: seq<Step>, u: Sys)
    requires Leads(s, run, t) && Leads(t, more, u)
    ensures Leads(s, run + more, u)
    decreases |run|
  {
    if run == [] {
      assert run + more == more;
    } else {
      assert (run + more)[0] == run[0] && (run + more)[1..] == run[1..] + more;
      LeadsConcat(Next(s, run[0]), run[1..], t, more, u);
    }
  }

  function Swap(s: Sys): Sys { Sys(s.cfg, s.b, s.a) }

  function SwapRun(run: seq<Step>): (r: seq<Step>)
    ensures |r| == |run| && forall i | 0 <= i < |r| :: r[i] == Step(!run[i].byA, run[i].action)
  {
    seq(|run|, i requires 0 <= i < |run| => Step(!run[i].byA, run[i].action))
  }

  /** The two ends are alike. */
  lemma {:induction false} SwapLeads(s: Sys, run: seq<Step>, t: Sys)
    requires Leads(s, run, t)
    ensures Leads(Swap(s), SwapRun(run), Swap(t))
    decreases |run|
  {
    if run != [] {
      hide Act, Enabled;
      assert SwapRun(run)[1..] == SwapRun(run[1..]);
      SwapLeads(Next(s, run[0]), run[1..], t);
    }
  }

  /** What the moves leave alone. */
  ghost predicate Kept(s: Sys, t: Sys) {
    && t.cfg == s.cfg && t.a.lane == s.a.lane && t.b.lane == s.b.lane
    && t.a.ep.send.q.size == s.a.ep.send.q.size && t.b.ep.send.q.size == s.b.ep.send.q.size
    && t.a.ep.recv.q.size == s.a.ep.recv.q.size && t.b.ep.recv.q.size == s.b.ep.recv.q.size
    && s.a.drained <= t.a.drained && s.b.drained <= t.b.drained
  }

  lemma ActKept(cfg: Config, x: Peer, y: Peer, action: Action)
    requires Flow(cfg, x, y) && Flow(cfg, y, x) && Enabled(cfg, x, y, action) && !action.SendMsg? && Fits(x)
    ensures var x' := Act(cfg, x, action);
      && x'.lane == x.lane && x'.ep.send.q.size == x.ep.send.q.size
      && x'.ep.recv.q.size == x.ep.recv.q.size && x.drained <= x'.drained
  {
    SizeStays(cfg, x, action);
    ReceiverMovesOn(cfg, x, y, action);
    hide Flow, Enabled, SyncState, Receive, Fits, DrainedAfterReceive;
  }

  /** One step, with what it keeps. */
  lemma OneStep(s: Sys, step: Step) returns (t: Sys)
    requires Inv(s) && !step.action.SendMsg?
    requires if step.byA then Enabled(s.cfg, s.a, s.b, step.action) else Enabled(s.cfg, s.b, s.a, step.action)
    ensures CanStep(s, step) && t == Next(s, step) && Leads(s, [step], t)
    ensures Inv(t) && Kept(s, t)
  {
    if step.byA {
      StepKeeps(s.cfg, s.a, s.b, step.action);
      ActKept(s.cfg, s.a, s.b, step.action);
    } else {
      StepKeeps(s.cfg, s.b, s.a, step.action);
      ActKept(s.cfg, s.b, s.a, step.action);
    }
    hide Flow, Act, Enabled, Fits;
    t := Next(s, step);
    assert [step][1..] == [];
  }

  /** Whatever one end has just put on the wire can be delivered to the other. */
  lemma FreshIsEnabled(cfg: Config, x: Peer, y: Peer, t: Sent, due: set<u32>, window: nat)
    requires Flow(cfg, x, y) && Flow(cfg, y, x) && t in y.net && t.mapPos == y.drained
    requires t.pkt.Data? ==> x.drained <= t.pos
    ensures Enabled(cfg, x, y, Deliver(t, due, window))
  {
  }

  // ---- The moves ----

  lemma OnTheWire(x: Peer, ep: Endpoint, released: nat, out: seq<Packet>, p: Packet)
    requires p in out
    ensures Sent(p, PositionOf(ep, released, p), x.drained, x.drained + |x.ep.recv.q.items|)
            in Record(x, ep, released, out)
  {
  }

  /** The packet a timeout for the first fragment the receiver lacks puts on the wire. */
  lemma Resent(cfg: Config, x: Peer, y: Peer) returns (n: u32, t: Sent)
    requires Flow(cfg, x, y) && Flow(cfg, y, x) && y.drained < End(x.ep.send, x.released) && Fits(x)
    ensures var x' := Act(cfg, x, Timeout(n));
      && t in x'.net && t.pkt.Data? && t.pos == y.drained && t.mapPos == x.drained
      && x'.drained == x.drained && x'.ep.send.q == x.ep.send.q && x'.released == x.released
  {
    n := Wrap(x.lane.base + y.drained);
    HoldsExact(x.ep.send.q, x.lane.base, x.released, y.drained);
    assert x.released <= y.drained && x.ep.send.q.Offset(n) == y.drained - x.released;
    var o := Emit(x.ep.send, n);
    var p := Data(GetState(x.ep.recv.q), o.sent[0]);
    var out := Stamp(GetState(x.ep.recv.q), o.sent);
    assert out[0] == p;
    hide Flow, GetState, Wrap, Sub;
    var ep := x.ep.(send := o.s);
    t := Sent(p, y.drained, x.drained, x.drained + |x.ep.recv.q.items|);
    assert p in out && PositionOf(ep, x.released, p) == y.drained;
    OnTheWire(x, ep, x.released, out, p);
  }

  /** A fragment that the receiver lacks at its front makes it drain. */
  lemma FrontDrains(cfg: Config, x: Peer, y: Peer, t: Sent, due: set<u32>, window: nat)
    requires Flow(cfg, y, x) && Fits(x) && Enabled(cfg, x, y, Deliver(t, due, window))
    requires t.pkt.Data? && t.pos == x.drained
    ensures x.drained < Act(cfg, x, Deliver(t, due, window)).drained
  {
    hide Flow, Enabled, Act, SyncState, Sender, Receiver, Link, Wrap, DrainedAfterReceive, Receive, Fits,
         GetState, Record, Stamp;
    DeliverShape(cfg, x, t, due, window);
    Incoming(cfg, x, y, t, due, window);
    ReceiveKeeps(cfg, y.lane, y.ep.send, y.released, x.ep.recv, x.drained, t.pkt.em, t.pos);
    var r' := Receive(cfg, x.ep.recv, t.pkt.em);
    var drained' := DrainedAfterReceive(cfg, x.ep.recv, t.pkt.em, x.drained);
    assert Has(r', drained', x.drained) && Drained(r');
  }

  /** If a numbered fragment is missing at the receiver's front, two steps bring it there. */
  lemma Retransmit(s: Sys) returns (run: seq<Step>, t: Sys)
    requires Inv(s) && s.b.drained < End(s.a.ep.send, s.a.released)
    ensures Leads(s, run, t) && Inv(t) && Kept(s, t) && s.b.drained < t.b.drained
    ensures t.a.ep.send.q == s.a.ep.send.q && t.a.released == s.a.released && t.a.drained == s.a.drained
    ensures SilentSender(s.b) ==> t.b.net == s.b.net && SilentSender(t.b)
  {
    FlowFits(s.cfg, s.a, s.b);
    FlowFits(s.cfg, s.b, s.a);
    var n, p := Resent(s.cfg, s.a, s.b);
    var step1 := Step(true, Timeout(n));
    var s1 := OneStep(s, step1);
    FreshIsEnabled(s1.cfg, s1.b, s1.a, p, {}, 0);
    FlowFits(s1.cfg, s1.b, s1.a);
    FrontDrains(s1.cfg, s1.b, s1.a, p, {}, 0);
    if SilentSender(s.b) { SilentDeliver(s1.cfg, s1.b, p, {}, 0); }
    var step2 := Step(false, Deliver(p, {}, 0));
    t := OneStep(s1, step2);
    hide Inv, Act, Flow, Fits, SilentSender, Leads, Enabled;
    run := [step1] + [step2];
    LeadsConcat(s, [step1], s1, [step2], t);
  }

  /** An end that never sent anything and has nothing to send. */
  ghost predicate SilentSender(x: Peer) { x.ep.send.q.items == [] && x.ep.send.waiting + x.ep.send.chan == [] }

  lemma SilentDeliver(cfg: Config, x: Peer, t: Sent, due: set<u32>, window: nat)
    requires Fits(x) && SilentSender(x)
    ensures var x' := Act(cfg, x, Deliver(t, due, window)); x'.net == x.net && SilentSender(x')
  {
    DeliverShape(cfg, x, t, due, window);
    var s := x.ep.send;
    assert s.waiting == [] && s.chan == [];
    assert Release(cfg, s, t.pkt.state.mapStSeq) == s;
    assert MapLoop(s, t.pkt.state, 0) == SyncOut(s, []);
    assert ExpectLoop(s, t.pkt.state, due, 0) == SyncOut(s, []);
    assert Refill(s, window) == s;
    assert SyncState(cfg, s, t.pkt.state, due, window) == SyncOut(s, []);
    assert Stamp(GetState(x.ep.recv.q), []) == [];
  }

  /** The packet a status report puts on the wire. */
  lemma Reported(cfg: Config, y: Peer) returns (t: Sent)
    requires Fits(y)
    ensures var y' := Act(cfg, y, Status);
      && t in y'.net && t.pkt == StateOnly(GetState(y.ep.recv.q)) && t.mapPos == y.drained
      && y' == y.(net := y'.net)
  {
    t := Sent(StateOnly(GetState(y.ep.recv.q)), 0, y.drained, y.drained + |y.ep.recv.q.items|);
    assert OnStatus(y.ep)[0] == t.pkt;
    OnTheWire(y, y.ep, y.released, OnStatus(y.ep), t.pkt);
  }

  /** The receiver reports and the sender reads the report. */
  lemma Report(s: Sys, due: set<u32>, window: nat) returns (run: seq<Step>, t: Sys)
    requires Inv(s)
    ensures Leads(s, run, t) && Inv(t) && Kept(s, t) && t.a.drained == s.a.drained && t.b.drained == s.b.drained
    ensures t.b.ep == s.b.ep && t.b.released == s.b.released
    ensures Fits(s.a) && Fits(s.b)
    ensures t.a.ep.send == SyncState(s.cfg, s.a.ep.send, GetState(s.b.ep.recv.q), due, window).s
    ensures t.a.released == ReleasedAfter(s.cfg, s.a.ep.send, s.a.released, s.b.drained)
    ensures forall p | p in t.b.net :: p in s.b.net || p.mapPos == s.b.drained
  {
    FlowFits(s.cfg, s.a, s.b);
    FlowFits(s.cfg, s.b, s.a);
    var p := Reported(s.cfg, s.b);
    var step1, step2 := Step(false, Status), Step(true, Deliver(p, due, window));
    var s1 := OneStep(s, step1);
    NewStatesAreCurrent(s.cfg, s.b, Status);
    FreshIsEnabled(s1.cfg, s1.a, s1.b, p, due, window);
    DeliverShape(s1.cfg, s1.a, p, due, window);
    t := OneStep(s1, step2);
    hide Inv, Act, Flow, Leads, Enabled, SyncState, GetState, ReleasedAfter;
    run := [step1] + [step2];
    LeadsConcat(s, [step1], s1, [step2], t);
  }

  /** With the inclusive rule, if the receiver has all that is numbered and more is to come, a report
      gives numbers to more. */
  lemma NumberMore(s: Sys) returns (run: seq<Step>, t: Sys)
    requires Inv(s) && s.cfg.inclusiveAck && 0 < s.a.ep.send.q.size && 0 < s.b.ep.recv.q.size
    requires s.b.drained == End(s.a.ep.send, s.a.released) < |s.a.lane.Frags()|
    ensures Leads(s, run, t) && Inv(t) && Kept(s, t) && t.b.drained == s.b.drained
    ensures t.b.drained < End(t.a.ep.send, t.a.released)
  {
    run, t := Report(s, {}, 0);
    assert s.a.ep.send.waiting + s.a.ep.send.chan != [];
    InclusiveAckProgress(s.cfg, s.a, s.b, {}, 0);
  }

  // ---- All of a direction ----

  /** The receiver can be brought to have the whole stream. */
  lemma {:induction false} DrainAll(s: Sys) returns (run: seq<Step>, t: Sys)
    requires Inv(s) && s.cfg.inclusiveAck && 0 < s.a.ep.send.q.size && 0 < s.b.ep.recv.q.size
    ensures Leads(s, run, t) && Inv(t) && Kept(s, t) && t.b.drained == |s.a.lane.Frags()|
    decreases |s.a.lane.Frags()| - s.b.drained, if s.b.drained < End(s.a.ep.send, s.a.released) then 0 else 1
  {
    Nested(s.cfg, s.a, s.b);
    hide Inv, Flow, Leads;
    if s.b.drained == |s.a.lane.Frags()| {
      run, t := [], s;
      assert Leads(s, [], s) by { NoSteps(s); }
    } else {
      var run1, s1;
      if s.b.drained < End(s.a.ep.send, s.a.released) {
        run1, s1 := Retransmit(s);
      } else {
        run1, s1 := NumberMore(s);
      }
      Nested(s1.cfg, s1.a, s1.b);
      var run2;
      run2, t := DrainAll(s1);
      run := run1 + run2;
      LeadsConcat(s, run1, s1, run2, t);
    }
  }

  lemma NoSteps(s: Sys)
    ensures Leads(s, [], s)
  {
  }

  lemma Nested(cfg: Config, x: Peer, y: Peer)
    requires Flow(cfg, x, y)
    ensures x.released <= y.drained <= End(x.ep.send, x.released) <= |x.lane.Frags()|
    ensures 0 < x.lane.m
  {
  }

  /** Once the receiver has the whole stream, a report empties the sender's window. */
  lemma EmptyWindow(s: Sys) returns (run: seq<Step>, t: Sys)
    requires Inv(s) && s.cfg.inclusiveAck && s.b.drained == |s.a.lane.Frags()|
    ensures Leads(s, run, t) && Inv(t) && Kept(s, t) && t.b.ep == s.b.ep && t.a.ep.send.q.items == []
    ensures t.b.drained == s.b.drained && t.a.drained == s.a.drained
  {
    Nested(s.cfg, s.a, s.b);
    run, t := Report(s, {}, 0);
    Nested(t.cfg, t.a, t.b);
    hide Inv, Flow, Leads, SyncState, GetState;
  }

  /** Both ends have everything that was sent to them, in order, and both windows are empty. */
  ghost predicate Complete(s: Sys) {
    && 0 < s.a.lane.m && 0 < s.b.lane.m
    && s.b.ep.recv.asm.delivered == WantedOf(s.cfg.checkFirst, s.a.lane.m, s.a.lane.msgs)
    && s.a.ep.recv.asm.delivered == WantedOf(s.cfg.checkFirst, s.b.lane.m, s.b.lane.msgs)
    && s.a.ep.send.q.items == [] && s.b.ep.send.q.items == []
  }

  /** With the inclusive rule and queues of at least one slot, every reachable state has a continuation
      after which every wanted message was delivered, in both directions, and both windows are
      released. */
  lemma CanComplete(s0: Sys, run0: seq<Step>, s: Sys) returns (run: seq<Step>, t: Sys)
    requires Init(s0) && Leads(s0, run0, s) && s.cfg.inclusiveAck
    requires 0 < s.a.ep.send.q.size && 0 < s.b.ep.send.q.size && 0 < s.a.ep.recv.q.size && 0 < s.b.ep.recv.q.size
    ensures Leads(s, run, t) && t.a.lane == s.a.lane && t.b.lane == s.b.lane && Complete(t)
  {
    ReachableInv(s0, run0, s);
    hide Inv, Flow, Leads;
    var run1, s1 := DrainAll(s);
    var run2, s2 := DrainOther(s1);
    Nested2(s2);
    var run3, s3 := EmptyWindow(s2);
    var run4;
    run4, t := EmptyOther(s3);
    Nested2(t);
    LeadsConcat(s, run1, s1, run2, s2);
    LeadsConcat(s, run1 + run2, s2, run3, s3);
    LeadsConcat(s, run1 + run2 + run3, s3, run4, t);
    run := run1 + run2 + run3 + run4;
    AllDelivered(t);
  }

  lemma Nested2(s: Sys)
    requires Inv(s)
    ensures s.b.drained <= |s.a.lane.Frags()| && s.a.drained <= |s.b.lane.Frags()|
  {
    Nested(s.cfg, s.a, s.b);
    Nested(s.cfg, s.b, s.a);
  }

  lemma DrainOther(s: Sys) returns (run: seq<Step>, t: Sys)
    requires Inv(s) && s.cfg.inclusiveAck && 0 < s.b.ep.send.q.size && 0 < s.a.ep.recv.q.size
    ensures Leads(s, run, t) && Inv(t) && Kept(s, t) && t.a.drained == |s.b.lane.Frags()|
  {
    hide Flow, Leads;
    var run', t' := DrainAll(Swap(s));
    SwapLeads(Swap(s), run', t');
    run, t := SwapRun(run'), Swap(t');
  }

  lemma EmptyOther(s: Sys) returns (run: seq<Step>, t: Sys)
    requires Inv(s) && s.cfg.inclusiveAck && s.a.drained == |s.b.lane.Frags()|
    ensures Leads(s, run, t) && Inv(t) && Kept(s, t) && t.a.ep == s.a.ep && t.b.ep.send.q.items == []
    ensures t.b.drained == s.b.drained && t.a.drained == s.a.drained
  {
    hide Flow, Leads;
    var run', t' := EmptyWindow(Swap(s));
    SwapLeads(Swap(s), run', t');
    run, t := SwapRun(run'), Swap(t');
  }

  lemma AllDelivered(t: Sys)
    requires Inv(t) && t.a.ep.send.q.items == [] && t.b.ep.send.q.items == []
    requires t.b.drained == |t.a.lane.Frags()| && t.a.drained == |t.b.lane.Frags()|
    ensures Complete(t)
  {
    DeliveredPrefix(t.cfg, t.a, t.b);
    DeliveredPrefix(t.cfg, t.b, t.a);
  }
}
