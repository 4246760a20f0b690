/**
  Routing of messages (`NaiveP2PServer.send` and the routing branch of `run`, src/net/p2p.go:157-176
  and 208-254): how many copies one `Send` can cause, in any topology.
*/
module Flooding {
  import opened Words
  import opened KadDistance
  import opened Kademlia

  datatype Msg = Msg(dst: KadID, ttl: u32)

  /** A node: its table, its static peers, and which handlers are ready to send or connected. */
  datatype Node = Node(table: Dht, staticPeers: set<KadID>, ready: set<Handler>, connected: set<Handler>)

  function Connected(n: Node, hs: seq<Handler>): (r: seq<KadID>)
    ensures |r| <= |hs|
  {
    if hs == [] then []
    else (if hs[0] in n.connected then [hs[0].dst] else []) + Connected(n, hs[1..])
  }

  /** `send`: where the copies go. `None` is a panic: an index out of range, or, if `logsState` as in
      the source, the state of a nil handler read for the log line before the nil test. */
  function Targets(n: Node, dst: KadID, logsState: bool): Option<seq<KadID>> {
    match Get(n.table, dst)
    case None => None
    case Some(handler) =>
      if logsState && handler == None then None
      else if handler.Some? && handler.value in n.ready then Some([handler.value.dst])
      else if dst in n.staticPeers then Some([dst])
      else match GetK(n.table, dst)
        case None => None
        case Some(hs) => Some(Connected(n, hs))
  }

  /** Sending fails in the source exactly if the table has no handler for the destination (or too few
      buckets): the fallback to the nearest handlers is reached only with a handler that is not ready. */
  lemma LiteralSendExact(n: Node, dst: KadID)
    ensures Targets(n, dst, true) == None <==> Get(n.table, dst) == None || Get(n.table, dst) == Some(None)
  {}

  /** The most copies one call of `send` can make: `K`, or with `K == 0` the whole table. */
  function Fan(n: Node): nat {
    if 0 < n.table.k then n.table.k
    else
      var total := |Flat(n.table.buckets)|;
      if total == 0 then 1 else total
  }

  lemma FanOut(n: Node, dst: KadID, logsState: bool)
    requires Targets(n, dst, logsState).Some?
    ensures |Targets(n, dst, logsState).value| <= Fan(n)
  {
    var d := Dist(dst, n.table.id);
    hide Dist;
    DownwardLength(n.table.buckets, d + 1, |n.table.buckets|);
  }

  lemma {:induction false} DownwardLength(bs: seq<seq<Handler>>, m: nat, n: nat)
    requires m <= n <= |bs|
    ensures |Downward(bs, m)| <= |Downward(bs, n)|
    decreases n
  {
    if m < n { DownwardLength(bs, m, n - 1); }
  }

  /** A copy on its way: the peer it was sent to, and the message. */
  datatype Flight = Flight(to: KadID, msg: Msg)

  function Copies(targets: seq<KadID>, msg: Msg): (fs: seq<Flight>)
    ensures |fs| == |targets|
    ensures forall i | 0 <= i < |fs| :: fs[i].msg == msg
  {
    seq(|targets|, i requires 0 <= i < |targets| => Flight(targets[i], msg))
  }

  /** What the arrival of a copy makes a node send: nothing if it is the destination or the time to
      live is used up, else copies with one less. A crashed node sends nothing. */
  function Arrive(n: Node, msg: Msg, logsState: bool): seq<Flight> {
    if msg.dst == n.table.id || msg.ttl == 0 then []
    else match Targets(n, msg.dst, logsState)
      case None => []
      case Some(ts) => Copies(ts, msg.(ttl := msg.ttl - 1))
  }

  // ---- The potential ----

  /** The most transmissions the arrival of a copy with this time to live can cause. */
  function Bound(c: nat, ttl: nat): nat { if ttl == 0 then 0 else c * (1 + Bound(c, ttl - 1)) }

  function Power(c: nat, n: nat): nat { if n == 0 then 1 else c * Power(c, n - 1) }

  function Geometric(c: nat, n: nat): nat { if n == 0 then 0 else Power(c, n) + Geometric(c, n - 1) }

  lemma {:induction false} BoundIsGeometric(c: nat, n: nat)
    ensures Bound(c, n) == Geometric(c, n)
  {
    if n > 0 {
      BoundIsGeometric(c, n - 1);
      GeometricStep(c, n);
    }
  }

  lemma {:induction false} GeometricStep(c: nat, n: nat)
    requires 0 < n
    ensures Geometric(c, n) == c * (1 + Geometric(c, n - 1))
  {
    if n > 1 {
      GeometricStep(c, n - 1);
      var g, p := 1 + Geometric(c, n - 2), Power(c, n - 1);
      assert 1 + Geometric(c, n - 1) == g + p;
      MulSub(c, g + p, p);
    } else {
      assert Power(c, 1) == c * Power(c, 0);
    }
  }

  /** Transmissions still to come from copies in flight, at most. */
  function Potential(c: nat, fs: seq<Flight>): nat {
    if fs == [] then 0 else Bound(c, fs[0].msg.ttl) + Potential(c, fs[1..])
  }

  lemma {:induction false} PotentialConcat(c: nat, xs: seq<Flight>, ys: seq<Flight>)
    ensures Potential(c, xs + ys) == Potential(c, xs) + Potential(c, ys)
    decreases |xs|
  {
    if xs == [] {
      assert xs + ys == ys;
    } else {
      assert (xs + ys)[1..] == xs[1..] + ys;
      PotentialConcat(c, xs[1..], ys);
    }
  }

  lemma {:induction false} PotentialOfCopies(c: nat, fs: seq<Flight>, ttl: nat)
    requires forall i | 0 <= i < |fs| :: fs[i].msg.ttl == ttl
    ensures Potential(c, fs) == |fs| * Bound(c, ttl)
    decreases |fs|
  {
    if fs != [] {
      PotentialOfCopies(c, fs[1..], ttl);
      MulSub(Bound(c, ttl), |fs|, 1);
    }
  }

  /** An arrival pays for what it sends out of its own bound. */
  lemma ArrivalPays(c: nat, n: Node, msg: Msg, logsState: bool)
    requires Fan(n) <= c
    ensures var out := Arrive(n, msg, logsState); |out| + Potential(c, out) <= Bound(c, msg.ttl)
  {
    var out := Arrive(n, msg, logsState);
    if out != [] {
      FanOut(n, msg.dst, logsState);
      CopiesOfOne(c, out, msg.ttl - 1);
    }
  }

  lemma CopiesPay(c: nat, n: nat, b: nat)
    requires n <= c
    ensures n + n * b <= c * (1 + b)
  {
    MulSub(n, 1 + b, b);
    MulNonNegative(1 + b, c - n);
    MulSub(1 + b, c, n);
  }

  // ---- Runs ----

  /** Copies in flight, transmissions so far, and answers given. */
  datatype World = World(flights: seq<Flight>, sent: nat, answers: nat)

  /** The `i`-th copy is lost, or arrives at a node, whose tables may be anything at that moment. A
      connection message that arrives where it should can make the node answer `back` with a new
      message. */
  datatype Step = Lose(i: nat) | Reach(i: nat, at: Node) | Answer(i: nat, at: Node, back: KadID)

  ghost predicate Enabled(c: nat, w: World, s: Step) {
    && s.i < |w.flights|
    && (!s.Lose? ==> Fan(s.at) <= c && s.at.table.id == w.flights[s.i].to)
    && (s.Answer? ==> s.at.table.id == w.flights[s.i].msg.dst)
  }

  /** The new message of an answer, with a fresh time to live. */
  function Answered(n: Node, back: KadID, maxTTL: u32, logsState: bool): seq<Flight> {
    match Targets(n, back, logsState)
    case None => []
    case Some(ts) => Copies(ts, Msg(back, maxTTL))
  }

  ghost function Next(w: World, s: Step, maxTTL: u32, logsState: bool): World
    requires s.i < |w.flights|
  {
    var rest := w.flights[..s.i] + w.flights[s.i + 1..];
    match s
    case Lose(_) => World(rest, w.sent, w.answers)
    case Reach(i, at) =>
      var out := Arrive(at, w.flights[i].msg, logsState);
      World(rest + out, w.sent + |out|, w.answers)
    case Answer(_, at, back) =>
      var out := Answered(at, back, maxTTL, logsState);
      World(rest + out, w.sent + |out|, w.answers + 1)
  }

  ghost predicate Leads(c: nat, w: World, run: seq<Step>, v: World, maxTTL: u32, logsState: bool)
    decreases |run|
  {
    if run == [] then w == v
    else Enabled(c, w, run[0]) && Leads(c, Next(w, run[0], maxTTL, logsState), run[1..], v, maxTTL, logsState)
  }

  lemma AnswerPays(c: nat, n: Node, back: KadID, maxTTL: u32, logsState: bool)
    requires Fan(n) <= c
    ensures var out := Answered(n, back, maxTTL, logsState); |out| + Potential(c, out) <= Bound(c, maxTTL + 1)
  {
    var out := Answered(n, back, maxTTL, logsState);
    hide Fan, Bound, Targets, Potential;
    if Targets(n, back, logsState).Some? {
      FanOut(n, back, logsState);
      CopiesOfOne(c, out, maxTTL);
    } else {
      assert out == [] && Potential(c, []) == 0 by { NothingFlies(c); }
    }
  }

  lemma NothingFlies(c: nat)
    ensures Potential(c, []) == 0
  {
  }

  /** A step costs no more than the potential it uses up; an answer brings the bound of a new
      message. */
  lemma StepPays(c: nat, w: World, s: Step, maxTTL: u32, logsState: bool)
    requires Enabled(c, w, s)
    ensures var v := Next(w, s, maxTTL, logsState);
      var gain := if s.Answer? then Bound(c, maxTTL + 1) else 0;
      && v.answers == w.answers + (if s.Answer? then 1 else 0)
      && v.sent + Potential(c, v.flights) <= w.sent + Potential(c, w.flights) + gain
      && |v.flights| + Potential(c, v.flights) < |w.flights| + Potential(c, w.flights) + gain
  {
    var f := w.flights[s.i];
    var pre, post := w.flights[..s.i], w.flights[s.i + 1..];
    assert w.flights == pre + ([f] + post);
    PotentialConcat(c, pre, [f] + post);
    PotentialConcat(c, [f], post);
    PotentialConcat(c, pre, post);
    assert [f][1..] == [];
    assert Potential(c, [f]) == Bound(c, f.msg.ttl);
    hide Potential, Bound, Fan, Arrive, Answered;
    match s {
      case Lose(_) =>
      case Reach(_, at) =>
        ArrivalPays(c, at, f.msg, logsState);
        PotentialConcat(c, pre + post, Arrive(at, f.msg, logsState));
      case Answer(_, at, back) =>
        AnswerPays(c, at, back, maxTTL, logsState);
        PotentialConcat(c, pre + post, Answered(at, back, maxTTL, logsState));
    }
  }

  /** What `n` answers can cost. */
  function Answers(c: nat, n: nat, maxTTL: u32): nat { n * Bound(c, maxTTL + 1) }

  lemma OneMore(c: nat, n: nat, maxTTL: u32)
    ensures Answers(c, 0, maxTTL) == 0
    ensures Answers(c, n + 1, maxTTL) == Answers(c, n, maxTTL) + Bound(c, maxTTL + 1)
  {
    MulSub(Bound(c, maxTTL + 1), n + 1, 1);
  }

  lemma {:induction false} RunPays(c: nat, w: World, run: seq<Step>, v: World, maxTTL: u32, logsState: bool)
    requires Leads(c, w, run, v, maxTTL, logsState)
    ensures w.answers <= v.answers
    ensures v.sent + Potential(c, v.flights) <=
            w.sent + Potential(c, w.flights) + Answers(c, v.answers - w.answers, maxTTL)
    ensures |run| + |v.flights| + Potential(c, v.flights) <=
            |w.flights| + Potential(c, w.flights) + Answers(c, v.answers - w.answers, maxTTL)
    decreases |run|
  {
    hide Potential, Bound, Next, Fan, Answers;
    if run == [] {
      OneMore(c, 0, maxTTL);
    } else {
      var u := Next(w, run[0], maxTTL, logsState);
      StepPays(c, w, run[0], maxTTL, logsState);
      RunPays(c, u, run[1..], v, maxTTL, logsState);
      OneMore(c, v.answers - u.answers, maxTTL);
      assert v.answers - w.answers == v.answers - u.answers + if run[0].Answer? then 1 else 0;
    }
  }

  /** One `Send` at any node, in any topology that may change at every step, with fan-out at most `c`:
      without answers the transmissions it causes never exceed c + c^2 + ... + c^(ttl+1), and every run
      of arrivals and losses is no longer than that. Each answer to a connection message adds at most
      the same sum for the time to live of a new message. */
  lemma FloodTerminates(c: nat, origin: Node, msg: Msg, run: seq<Step>, v: World, maxTTL: u32, logsState: bool)
    requires Fan(origin) <= c && Targets(origin, msg.dst, logsState).Some?
    requires var fs := Copies(Targets(origin, msg.dst, logsState).value, msg);
      Leads(c, World(fs, |fs|, 0), run, v, maxTTL, logsState)
    ensures v.sent <= Geometric(c, msg.ttl + 1) + v.answers * Geometric(c, maxTTL + 1)
    ensures |run| <= Geometric(c, msg.ttl + 1) + v.answers * Geometric(c, maxTTL + 1)
  {
    hide Fan, Bound, Geometric, Targets, Copies, Leads, Potential;
    var fs := Copies(Targets(origin, msg.dst, logsState).value, msg);
    FanOut(origin, msg.dst, logsState);
    CopiesOfOne(c, fs, msg.ttl);
    BoundIsGeometric(c, msg.ttl + 1);
    BoundIsGeometric(c, maxTTL + 1);
    RunPays(c, World(fs, |fs|, 0), run, v, maxTTL, logsState);
  }

  lemma CopiesOfOne(c: nat, fs: seq<Flight>, ttl: nat)
    requires |fs| <= c && forall i | 0 <= i < |fs| :: fs[i].msg.ttl == ttl
    ensures |fs| + Potential(c, fs) <= Bound(c, ttl + 1)
  {
    PotentialOfCopies(c, fs, ttl);
    CopiesPay(c, |fs|, Bound(c, ttl));
  }

  // ---- The server object ----

  class P2PServer {
    const SelfId: KadID
    const DHT: KadDHT
    const staticPeers: set<KadID>
    const logsState: bool
    var ready: set<Handler>
    var connected: set<Handler>

    ghost predicate Valid() { DHT.Id == SelfId }

    ghost function View(): Node
      reads this, DHT.KBucket
    {
      Node(DHT.View(), staticPeers, ready, connected)
    }

    constructor (self: KadID, k: u32, bucketCnt: nat, staticPeers: set<KadID>, logsState: bool)
      ensures Valid() && SelfId == self && this.logsState == logsState
      ensures View() == Node(Dht(self, k, seq(bucketCnt, _ => [])), staticPeers, {}, {})
    {
      SelfId, this.staticPeers, this.logsState, ready, connected := self, staticPeers, logsState, {}, {};
      DHT := new KadDHT(self, k, bucketCnt);
    }

    /** The loop at the end of `send`. */
    method ConnectedOf(handlers: seq<Handler>) returns (targets: seq<KadID>)
      ensures targets == Connected(View(), handlers)
    {
      targets := [];
      for i := 0 to |handlers|
        invariant targets + Connected(View(), handlers[i..]) == Connected(View(), handlers)
      {
        assert handlers[i..][0] == handlers[i] && handlers[i..][1..] == handlers[i + 1..];
        if handlers[i] in connected {
          targets := targets + [handlers[i].dst];
        }
      }
      assert handlers[|handlers|..] == [];
    }

    /** `send`: the peers that get a copy; `ok` is false where the source panics. */
    method Send(dst: KadID) returns (ok: bool, targets: seq<KadID>)
      requires Valid()
      ensures Targets(View(), dst, logsState) == if ok then Some(targets) else None
    {
      hide Get, GetK, Connected;
      targets := [];
      var handler;
      ok, handler := DHT.GetHandler(dst);
      if !ok || (logsState && handler == None) {
        ok := false;
      } else if handler.Some? && handler.value in ready {
        targets := [handler.value.dst];
      } else if dst in staticPeers {
        targets := [dst];
      } else {
        var handlers;
        ok, handlers := DHT.Nearest(dst);
        if ok {
          targets := ConnectedOf(handlers);
        }
      }
    }

    /** The `handlerChan` case of `run` for a message of somebody else: the copies it sends on. */
    method Forward(from: KadID, msg: Msg) returns (ok: bool, copies: seq<Flight>)
      requires Valid() && msg.dst != SelfId
      modifies DHT.KBucket
      ensures ok <==>
        && Update(old(DHT.View()), from).Some?
        && (0 < msg.ttl ==> Targets(View(), msg.dst, logsState).Some?)
      ensures ok ==> Update(old(DHT.View()), from) == Some(DHT.View())
      ensures ok ==> copies == Arrive(View(), msg, logsState)
    {
      copies := [];
      ok := DHT.Touch(from);
      if ok && msg.ttl > 0 {
        var targets;
        ok, targets := Send(msg.dst);
        copies := Copies(targets, msg.(ttl := msg.ttl - 1));
      }
    }
  }
}
