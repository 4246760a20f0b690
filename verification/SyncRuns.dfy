/**
  The exact effect of a packet or a timeout on a running connection: what goes on the wire, and what the
  receiving end holds afterwards.
*/
module SyncRuns {
  import opened Words
  import opened Fragments
  import opened LoopedQueues
  import opened Endpoints
  import opened Links
  import opened Transport
  import opened SyncExact

  /** The fragment at `p` as `x` puts it on the wire, with the state of its receiving side. */
  ghost function Wired(x: Peer, p: nat): Sent
    requires Fits(x) && p < |x.lane.Frags()|
  {
    Sent(Data(GetState(x.ep.recv.q), EmissionAt(x.lane, p)), p, x.drained, x.drained + |x.ep.recv.q.items|)
  }

  lemma SentPosition(lane: Lane, ep: Endpoint, released: nat, p: nat, st: StateMsg)
    requires Sender(lane, ep.send, released) && 0 < lane.m
    requires released <= p < End(ep.send, released)
    ensures p < |lane.Frags()| && PositionOf(ep, released, Data(st, EmissionAt(lane, p))) == p
  {
    HoldsExact(ep.send.q, lane.base, released, p);
  }

  /** If the emissions are those at `ps`, and all of these are in the window, then so are the records. */
  lemma RecordsAre(x: Peer, ep: Endpoint, released: nat, sent: seq<Emission>, ps: seq<nat>)
    requires Fits(x) && Sender(x.lane, ep.send, released) && Sends(x.lane, sent, ps)
    requires forall p | p in ps :: released <= p < End(ep.send, released)
    ensures forall p | p in ps :: p < |x.lane.Frags()|
    ensures Record(x, ep, released, Stamp(GetState(x.ep.recv.q), sent)) == set p | p in ps :: Wired(x, p)
  {
    var st := GetState(x.ep.recv.q);
    var out := Stamp(st, sent);
    hide GetState, Sender, EmissionAt, PositionOf;
    forall p | p in ps
      ensures p < |x.lane.Frags()| && PositionOf(ep, released, Data(st, EmissionAt(x.lane, p))) == p
    {
      SentPosition(x.lane, ep, released, p, st);
    }
    var record, wired := Record(x, ep, released, out), set p | p in ps :: Wired(x, p);
    forall t | t in record ensures t in wired {
      var k :| 0 <= k < |out| && t.pkt == out[k];
      assert ps[k] in ps && t == Wired(x, ps[k]);
    }
    forall t | t in wired ensures t in record {
      var p :| p in ps && t == Wired(x, p);
      var k :| 0 <= k < |ps| && ps[k] == p;
      assert out[k] in out && out[k] == t.pkt;
    }
  }

  /** `p` goes out again when `x` reads the state of `t`. */
  ghost predicate Repeated(x: Peer, t: Sent, p: nat) {
    Current(x.released, t.mapPos) && Missing(t.pkt.state, t.mapPos, t.expPos, 0, p)
  }

  /** What a packet from `y` makes `x` put on the wire: exactly the fragments at `ps`. Those are the
      numbers among the first eight below the expected one that the map says are missing, and from the
      expected number on those that are due and all that now enter the window. */
  lemma DeliveryExact(cfg: Config, x: Peer, y: Peer, t: Sent, due: set<u32>, window: nat) returns (ps: seq<nat>)
    requires Flow(cfg, x, y) && Flow(cfg, y, x) && Enabled(cfg, x, y, Deliver(t, due, window))
    ensures Fits(x)
    ensures var x' := Act(cfg, x, Deliver(t, due, window));
      var end, end', limit := End(x.ep.send, x.released), End(x'.ep.send, x'.released), t.mapPos + y.ep.recv.q.size;
      && Ascends(ps)
      && (forall p | p in ps :: p < |x.lane.Frags()|)
      && x'.net == x.net + (set p | p in ps :: Wired(x, p))
      && end <= end' == NewEnd(x.ep.send, x.released, x'.released, t.expPos, limit)
      && forall p: nat :: p in ps <==>
           Repeated(x, t, p) || Taken(x.lane, due, x'.released, end, end', limit, t.expPos, p)
  {
    FlowFits(cfg, x, y);
    FlowKnows(cfg, x, y, t);
    hide Flow, Enabled, Act, SyncState, StateOk, Sender, Receiver, Link, Wrap, Record, Stamp, GetState, Wired;
    hide NewEnd, Sends, Ascends, Taken, Missing, FreshState, ReleasedAfter, InMap, Timer, Waits;
    DeliverShape(cfg, x, t, due, window);
    var s, st := x.ep.send, t.pkt.state;
    ps := SyncExactly(cfg, x.lane, s, x.released, y.ep.recv, y.drained, st, t.mapPos, t.expPos, due, window);
    SyncKeeps(cfg, x.lane, s, x.released, y.ep.recv, y.drained, st, t.mapPos, t.expPos, due, window);
    var x' := Act(cfg, x, Deliver(t, due, window));
    SoundParts(x.lane, SyncState(cfg, s, st, due, window), x'.released, y.ep.recv, y.drained);
    forall p | p in ps ensures x'.released <= p < End(x'.ep.send, x'.released) {
      InWindow(cfg, x, t, x'.released, End(s, x.released), End(x'.ep.send, x'.released), due,
               t.mapPos + y.ep.recv.q.size, p);
    }
    RecordsAre(x, x'.ep, x'.released, SyncState(cfg, s, st, due, window).sent, ps);
  }

  lemma FlowKnows(cfg: Config, x: Peer, y: Peer, t: Sent)
    requires Flow(cfg, x, y) && t in y.net
    ensures Sender(x.lane, x.ep.send, x.released) && Link(x.lane, x.ep.send, x.released, y.ep.recv, y.drained)
    ensures StateOk(x.lane, y.ep.recv, y.drained, t.pkt.state, t.mapPos, t.expPos)
    ensures t.expPos <= End(x.ep.send, x.released)
  {
  }

  lemma InWindow(cfg: Config, x: Peer, t: Sent, released': nat, end: nat, end': nat, due: set<u32>, limit: nat, p: nat)
    requires released' == ReleasedAfter(cfg, x.ep.send, x.released, t.mapPos) && t.expPos <= end <= end'
    requires Repeated(x, t, p) || Taken(x.lane, due, released', end, end', limit, t.expPos, p)
    ensures released' <= p < end'
  {
  }

  /** A timeout sends the fragment of its number again if that is still in the window, and is ignored
      otherwise. */
  lemma TimeoutExact(cfg: Config, x: Peer, y: Peer, p: nat)
    requires Flow(cfg, x, y) && Flow(cfg, y, x)
    requires p < End(x.ep.send, x.released) && x.released + x.ep.send.q.size <= p + TWO32
    ensures Fits(x) && p < |x.lane.Frags()|
    ensures var n := Wrap(x.lane.base + p);
      Act(cfg, x, Timeout(n)) ==
        if p < x.released then x
        else x.(ep := x.ep.(send := x.ep.send.(timers := x.ep.send.timers + {n})), net := x.net + {Wired(x, p)})
  {
    FlowFits(cfg, x, y);
    assert Sender(x.lane, x.ep.send, x.released);
    hide Flow, Sender, GetState, Record, Wired, EmissionAt, Wrap;
    Room(x.lane, x.ep.send, x.released);
    HoldsExact(x.ep.send.q, x.lane.base, x.released, p);
    if x.released <= p {
      EmitsAt(x.lane, x.ep.send, x.released, p);
      HeldTimeout(cfg, x, p);
    } else {
      SenderFits(x.lane, x.ep.send, x.released);
    }
  }

  lemma SenderFits(lane: Lane, s: SendSide, released: nat)
    requires Sender(lane, s, released)
    ensures End(s, released) <= |lane.Frags()|
  {
  }

  lemma HeldTimeout(cfg: Config, x: Peer, p: nat)
    requires Fits(x) && Sender(x.lane, x.ep.send, x.released)
    requires x.released <= p < End(x.ep.send, x.released) && p < |x.lane.Frags()|
    ensures var n := Wrap(x.lane.base + p);
      Act(cfg, x, Timeout(n)) ==
        x.(ep := x.ep.(send := x.ep.send.(timers := x.ep.send.timers + {n})), net := x.net + {Wired(x, p)})
  {
    var n := Wrap(x.lane.base + p);
    EmitsAt(x.lane, x.ep.send, x.released, p);
    var o := Emit(x.ep.send, n);
    assert Sender(x.lane, o.s, x.released);
    hide Sender, GetState, Stamp, Record, Wired, EmissionAt, Wrap;
    RecordsAre(x, x.ep.(send := o.s), x.released, o.sent, [p]);
    assert (set q | q in [p] :: Wired(x, q)) == {Wired(x, p)};
  }

  // ---- The receiving end ----

  lemma StoreExactly(q: Fifo<Option<Frag>>, e: Emission)
    requires Store(q, e).Some?
    ensures var items', off := Store(q, e).value.items, q.Offset(e.seqNo);
      && |items'| == Later(|q.items|, off + 1)
      && forall k: nat | k < |items'| :: items'[k].Some? <==> k == off || (k < |q.items| && q.items[k].Some?)
  {
  }

  lemma {:induction false} DrainForgets(checkFirst: bool, r: RecvSide, drained: nat)
    ensures var r' := Drain(checkFirst, r);
      && |r'.q.items| <= |r.q.items|
      && forall p: nat | Has(r', DrainedAfter(r, r', drained), p) :: Has(r, drained, p)
    decreases |r.q.items|
  {
    if r.q.items != [] && r.q.items[0].Some? {
      var fed := Feed(checkFirst, r.asm, r.q.items[0].value);
      hide Feed;
      if fed.Some? {
        var r1 := r.(q := r.q.Pop(), asm := fed.value);
        DrainForgets(checkFirst, r1, drained + 1);
        var r' := Drain(checkFirst, r);
        assert r' == Drain(checkFirst, r1);
        assert DrainedAfter(r, r', drained) == DrainedAfter(r1, r', drained + 1);
        assert forall p: nat | Has(r1, drained + 1, p) :: Has(r, drained, p);
      }
    }
  }

  /** After a fresh fragment the receiver holds or has drained what it had before and this fragment, and
      nothing else; its window reaches the fragment, and starts at the first one it lacks. */
  lemma ReceivedExactly(cfg: Config, lane: Lane, s: SendSide, released: nat, r: RecvSide, drained: nat,
                        e: Emission, pos: nat)
    requires Sender(lane, s, released) && Receiver(cfg, lane, r, drained) && Link(lane, s, released, r, drained)
    requires Drained(r)
    requires pos < End(s, released) && e.seqNo == Wrap(lane.base + pos) && e.frag == lane.Frags()[pos]
    requires FreshData(r, drained, pos)
    ensures var r' := Receive(cfg, r, e);
      var drained' := DrainedAfterReceive(cfg, r, e, drained);
      && (forall p: nat :: Has(r', drained', p) <==> Has(r, drained, p) || p == pos)
      && drained' + |r'.q.items| == Later(drained + |r.q.items|, pos + 1)
      && !Has(r', drained', drained')
  {
    StoreExact(cfg, lane, s, released, r, drained, e, pos);
    ReceiveKeeps(cfg, lane, s, released, r, drained, e, pos);
    hide Sender, Receiver, Link, FreshData, Wrap;
    if drained <= pos {
      var r1 := r.(q := Store(r.q, e).value);
      ReceiveIsDrain(cfg, r, e, drained);
      StoreExactly(r.q, e);
      hide Store, Receive, DrainedAfterReceive, Drain;
      DrainForgets(cfg.checkFirst, r1, drained);
    }
  }
}
