/**
  When the acknowledgement rule of the source (src/net/multipack.go:227) stops a direction for good:
  exactly in which states, and from which sizes such a state can be reached.
*/
module Stalls {
  import opened Words
  import opened Fragments
  import opened LoopedQueues
  import opened Endpoints
  import opened Links
  import opened Transport
  import opened TransportTheorems
  import opened Completion

  // ---- A full and drained window: exactly when it moves ----

  /** A packet that acknowledges a part of the window releases it. */
  lemma PartReleases(s: Sys, t: Sent) returns (s': Sys)
    requires Inv(s) && !s.cfg.inclusiveAck && FullAndDrained(s.a, s.b)
    requires t in s.b.net && Deliverable(s.a, t) && AcksPart(s.a, s.b, t)
    ensures Leads(s, [Step(true, Deliver(t, {}, 0))], s') && s'.a.ep.send.q != s.a.ep.send.q
  {
    hide Flow, Act, Enabled, Fits, FullAndDrained, Deliverable, AcksPart;
    PartMoves(s.cfg, s.a, s.b, t);
    s' := OneStep(s, Step(true, Deliver(t, {}, 0)));
  }

  lemma PartMoves(cfg: Config, x: Peer, y: Peer, t: Sent)
    requires Flow(cfg, x, y) && Flow(cfg, y, x) && !cfg.inclusiveAck && FullAndDrained(x, y)
    requires t in y.net && Deliverable(x, t) && AcksPart(x, y, t)
    ensures Fits(x) && Enabled(cfg, x, y, Deliver(t, {}, 0))
    ensures Act(cfg, x, Deliver(t, {}, 0)).ep.send.q != x.ep.send.q
  {
    hide Flow, Act, Enabled, Fits, ReleasedAfter, Wrap, FullAndDrained, Deliverable, FreshState, FreshData;
    PartIsEnabled(cfg, x, y, t);
    NewStart(cfg, x, y, t);
    StartOf(cfg, x, y);
    WrapInjectiveNot(x.lane.base + x.released, x.lane.base + t.mapPos);
  }

  lemma NewStart(cfg: Config, x: Peer, y: Peer, t: Sent)
    requires Fits(x) && Flow(cfg, x, y) && Flow(cfg, y, x) && Enabled(cfg, x, y, Deliver(t, {}, 0))
    ensures Act(cfg, x, Deliver(t, {}, 0)).ep.send.q.stSeq ==
            Wrap(x.lane.base + ReleasedAfter(cfg, x.ep.send, x.released, t.mapPos))
  {
    hide Flow, Act, Enabled, Fits;
    DeliverOutgoing(cfg, x, y, t, {}, 0);
    DeliverShape(cfg, x, t, {}, 0);
    StartOf(cfg, Act(cfg, x, Deliver(t, {}, 0)), y);
  }

  lemma PartIsEnabled(cfg: Config, x: Peer, y: Peer, t: Sent)
    requires Flow(cfg, x, y) && Flow(cfg, y, x) && !cfg.inclusiveAck && FullAndDrained(x, y)
    requires t in y.net && Deliverable(x, t) && AcksPart(x, y, t)
    ensures Fits(x) && Enabled(cfg, x, y, Deliver(t, {}, 0))
    ensures ReleasedAfter(cfg, x.ep.send, x.released, t.mapPos) == t.mapPos
    ensures t.mapPos < x.released + x.ep.send.q.size
  {
    FlowFits(cfg, x, y);
  }

  lemma StartOf(cfg: Config, x: Peer, y: Peer)
    requires Flow(cfg, x, y)
    ensures x.ep.send.q.stSeq == Wrap(x.lane.base + x.released)
    ensures x.released <= y.drained <= x.released + x.ep.send.q.size && x.ep.send.q.size < TWO31
  {
  }

  /** With the rule of the source, a full and drained window in any state that keeps the invariant, so in
      any reachable one, can change if and only if a packet that can still be delivered acknowledges a
      part of it. */
  lemma StallExact(s: Sys)
    requires Inv(s) && !s.cfg.inclusiveAck && FullAndDrained(s.a, s.b)
    ensures (exists run, t :: Leads(s, run, t) && t.a.ep.send.q != s.a.ep.send.q) <==>
      exists p :: p in s.b.net && Deliverable(s.a, p) && AcksPart(s.a, s.b, p)
  {
    if p :| p in s.b.net && Deliverable(s.a, p) && AcksPart(s.a, s.b, p) {
      var t := PartReleases(s, p);
    } else {
      forall run, t | Leads(s, run, t) ensures t.a.ep.send.q == s.a.ep.send.q {
        LiteralAckDeadlock(s, run, t);
      }
    }
  }

  // ---- A window no larger than the receiver's can stall ----

  /** Handing over enough fragments and reading one report fills the window. */
  lemma {:induction false} ExpectFills(s: SendSide, st: StateMsg, due: set<u32>, i: nat)
    requires |s.q.items| <= s.q.size < TWO31 && i <= st.maxExpectCnt
    requires Add(st.expectSeq, i) == s.q.EnSeq()
    requires s.q.size - |s.q.items| <= st.maxExpectCnt - i
    requires s.q.size - |s.q.items| <= |s.waiting + s.chan|
    ensures |ExpectLoop(s, st, due, i).s.q.items| == s.q.size
    decreases st.maxExpectCnt - i
  {
    hide Wrap, TakeNext;
    var n := Add(st.expectSeq, i);
    EndNotHeld(s.q);
    if !s.q.Full() {
      var (s1, f) := TakeNext(s);
      TakeNextTakes(s);
      PushedIsHeld(s.q, f);
      var o := Emit(s1.(q := s1.q.Push(f)), n);
      NextEnd(s.q, f, st.expectSeq, i);
      ExpectFills(o.s, st, due, i + 1);
    }
  }

  lemma NextEnd(q: Fifo<Frag>, f: Frag, expectSeq: u32, i: nat)
    requires !q.Full() && Add(expectSeq, i) == q.EnSeq()
    ensures Add(expectSeq, i + 1) == q.Push(f).EnSeq()
  {
    AddOfWrap(expectSeq + i, 1);
    AddOfWrap(q.stSeq + |q.items|, 1);
  }

  lemma EndNotHeld<T>(q: Fifo<T>)
    requires |q.items| < TWO32
    ensures !q.Holds(q.EnSeq())
  {
    ResidueIs(q.stSeq, q.stSeq, 0);
    SubExact(q.stSeq + |q.items|, q.stSeq);
  }

  /** A message of exactly as many fragments as the sender's queue has slots. */
  function Filling(m: nat, size: u32): (d: Bytes)
    requires 0 < m
    ensures |d| == size * m
  {
    MulNonNegative(size, m);
    seq(size * m, _ => 0)
  }

  lemma FillingFrags(m: nat, size: u32)
    requires 0 < m
    ensures Sendable(m, Filling(m, size)) && CeilDiv(|Filling(m, size)|, m) == size
  {
    var n := size * m;
    assert n + m - 1 == m * size + (m - 1);
    DivModUnique(n + m - 1, m, size, m - 1);
  }

  /** The window is full, nothing of it was released, and the only states on their way are those of an
      empty receiver. */
  ghost predicate Filled(s: Sys) {
    && !s.cfg.inclusiveAck && s.a.released == 0 && s.a.ep.send.q.Full()
    && SilentSender(s.b) && forall t | t in s.b.net :: t.mapPos == 0
  }

  /** Fills the sender's window from the start. */
  lemma Fill(s: Sys) returns (run: seq<Step>, t: Sys)
    requires Init(s) && !s.cfg.inclusiveAck && s.a.ep.send.q.size <= s.b.ep.recv.q.size
    ensures Leads(s, run, t) && Inv(t) && Filled(t)
    ensures t.a.ep.send.q.size == s.a.ep.send.q.size
  {
    StartFlows(s.cfg, s.a, s.b);
    StartFlows(s.cfg, s.b, s.a);
    FlowFits(s.cfg, s.a, s.b);
    var d := Filling(s.a.lane.m, s.a.ep.send.q.size);
    FillingFrags(s.a.lane.m, s.a.ep.send.q.size);
    var step := Step(true, SendMsg(d));
    StepKeeps(s.cfg, s.a, s.b, SendMsg(d));
    var s1 := Next(s, step);
    FragmentationIsPartition(s.a.lane.m, Add(s.a.ep.packID, 1), d);
    assert |s1.a.ep.send.chan| == s.a.ep.send.q.size;
    assert [step][1..] == [];
    assert Leads(s, [step], s1);
    AfterMessage(s, s1);
    var run2;
    run2, t := Report(s1, {}, 0);
    FilledByReport(s1, t);
    hide Inv, Leads, Init, Next, SyncState;
    run := [step] + run2;
    LeadsConcat(s, [step], s1, run2, t);
  }

  /** One message was handed over, and nothing else happened. */
  ghost predicate OneMessage(s: Sys) {
    && !s.cfg.inclusiveAck && s.a.ep.send.q.size <= s.b.ep.recv.q.size && s.a.ep.send.q.size < TWO31
    && s.a.ep.send.q.items == [] && s.a.released == 0 && s.b.drained == 0
    && s.b.ep.recv.q.items == [] && s.b.ep.recv.q.stSeq == s.a.ep.send.q.stSeq
    && s.a.ep.send.waiting == [] && |s.a.ep.send.chan| == s.a.ep.send.q.size
    && s.b.net == {} && SilentSender(s.b)
  }

  lemma AfterMessage(s: Sys, s1: Sys)
    requires Init(s) && !s.cfg.inclusiveAck && s.a.ep.send.q.size <= s.b.ep.recv.q.size && Fits(s.a)
    requires exists d :: s1 == s.(a := Act(s.cfg, s.a, SendMsg(d)))
    requires |s1.a.ep.send.chan| == s.a.ep.send.q.size
    ensures OneMessage(s1)
  {
  }

  lemma FilledByReport(s: Sys, t: Sys)
    requires OneMessage(s) && t.cfg == s.cfg && t.b.ep == s.b.ep
    requires t.a.ep.send == SyncState(s.cfg, s.a.ep.send, GetState(s.b.ep.recv.q), {}, 0).s
    requires t.a.released == ReleasedAfter(s.cfg, s.a.ep.send, s.a.released, s.b.drained)
    requires forall p | p in t.b.net :: p in s.b.net || p.mapPos == s.b.drained
    ensures Filled(t) && t.a.ep.send.q.size == s.a.ep.send.q.size
  {
    var q, st := s.a.ep.send, GetState(s.b.ep.recv.q);
    EndNotHeld(q.q);
    assert !q.q.Holds(st.mapStSeq);
    AddOfWrap(q.q.stSeq, 0);
    ResidueIs(q.q.stSeq, q.q.stSeq, 0);
    assert MapLoop(q, st, 0) == SyncOut(q, []);
    assert q.waiting + q.chan == q.chan;
    ExpectFills(q, st, {}, 0);
    ExpectLoopSize(q, st, {}, 0);
    RefillLeavesQueue(ExpectLoop(q, st, {}, 0).s, 0);
  }

  /** The receiver takes everything, with no report in between. */
  lemma {:induction false} DrainFilled(s: Sys) returns (run: seq<Step>, t: Sys)
    requires Inv(s) && Filled(s) && 0 < s.a.ep.send.q.size
    ensures Leads(s, run, t) && Stalled(t.cfg, t.a, t.b)
    decreases End(s.a.ep.send, s.a.released) - s.b.drained
  {
    Nested(s.cfg, s.a, s.b);
    if s.b.drained == End(s.a.ep.send, s.a.released) {
      run, t := [], s;
    } else {
      var run1, s1 := Retransmit(s);
      Nested(s1.cfg, s1.a, s1.b);
      hide Inv, Leads, Stalled;
      var run2;
      run2, t := DrainFilled(s1);
      run := run1 + run2;
      LeadsConcat(s, run1, s1, run2, t);
    }
  }

  /** With the rule of the source and a sender's queue that is not empty and not larger than the
      receiver's, a stalled state can be reached from the start. */
  lemma StallReachable(s: Sys) returns (run: seq<Step>, t: Sys)
    requires Init(s) && !s.cfg.inclusiveAck && 0 < s.a.ep.send.q.size <= s.b.ep.recv.q.size
    ensures Leads(s, run, t) && Stalled(t.cfg, t.a, t.b)
  {
    var run1, s1 := Fill(s);
    hide Init, Inv, Leads, Stalled;
    var run2;
    run2, t := DrainFilled(s1);
    run := run1 + run2;
    LeadsConcat(s, run1, s1, run2, t);
  }

  // ---- A larger window always has a partial acknowledgement on its way ----

  /** The last numbered fragment was allowed by a state from before it was numbered. */
  ghost predicate Allowed(x: Peer, y: Peer) {
    var end := End(x.ep.send, x.released);
    end == 0 || exists t :: t in y.net && t.mapPos < end <= t.mapPos + y.ep.recv.q.size
  }

  lemma SenderAllowed(cfg: Config, x: Peer, y: Peer, action: Action)
    requires Flow(cfg, x, y) && Allowed(x, y) && Enabled(cfg, x, y, action) && Fits(x)
    ensures Allowed(Act(cfg, x, action), y)
  {
    if action.Deliver? {
      var t := action.t;
      DeliverShape(cfg, x, t, action.due, action.window);
      assert StateOk(x.lane, y.ep.recv, y.drained, t.pkt.state, t.mapPos, t.expPos);
      SyncKeeps(cfg, x.lane, x.ep.send, x.released, y.ep.recv, y.drained, t.pkt.state, t.mapPos, t.expPos,
                action.due, action.window);
      Nested(cfg, x, y);
      hide Flow, Act, SyncState, Sound, StateOk, Enabled;
    }
  }

  lemma ReceiverAllowed(cfg: Config, x: Peer, y: Peer, action: Action)
    requires Flow(cfg, x, y) && Allowed(x, y) && Enabled(cfg, y, x, action) && Fits(y)
    ensures Allowed(x, Act(cfg, y, action))
  {
    ReceiverMovesOn(cfg, y, x, action);
    NetGrows(cfg, y, action);
    hide Flow, Act, Enabled;
  }

  lemma NetGrows(cfg: Config, y: Peer, action: Action)
    requires Fits(y)
    ensures forall t | t in y.net :: t in Act(cfg, y, action).net
  {
    hide SyncState, Receive, DrainedAfterReceive, ReleasedAfter;
  }

  lemma {:induction false} RunAllowed(s: Sys, run: seq<Step>, t: Sys)
    requires Inv(s) && Allowed(s.a, s.b) && Leads(s, run, t)
    ensures Inv(t) && Allowed(t.a, t.b)
    decreases |run|
  {
    if run != [] {
      var step := run[0];
      if step.byA {
        StepKeeps(s.cfg, s.a, s.b, step.action);
        SenderAllowed(s.cfg, s.a, s.b, step.action);
      } else {
        StepKeeps(s.cfg, s.b, s.a, step.action);
        ReceiverAllowed(s.cfg, s.a, s.b, step.action);
      }
      hide Flow, Allowed, Act, Enabled, Fits;
      RunAllowed(Next(s, step), run[1..], t);
    }
  }

  /** With a sender's queue larger than the receiver's, whenever the window is full and drained a packet
      that acknowledges a part of it was sent before: only losing it for good, or letting it grow
      stale, stalls the sender. */
  lemma LargerWindowHasAck(s: Sys, run: seq<Step>, t: Sys)
    requires Init(s) && Leads(s, run, t)
    requires t.b.ep.recv.q.size < t.a.ep.send.q.size && FullAndDrained(t.a, t.b)
    ensures exists p :: p in t.b.net && AcksPart(t.a, t.b, p)
  {
    StartFlows(s.cfg, s.a, s.b);
    StartFlows(s.cfg, s.b, s.a);
    RunAllowed(s, run, t);
  }
}
