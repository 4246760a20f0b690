/**
  Runs of the server loop of src/net/p2p.go:192-281 with all its uses of the routing table: the steps
  that change it, and the sends that look a handler up in it. A message that a peer wants forwarded is
  sent on with a destination of that peer's choice.
*/
module ServerRuns {
  import opened Words
  import opened KadDistance
  import opened Kademlia
  import opened Flooding

  /** A send names its destination; which handlers are ready or connected by then may be anything. */
  datatype ServerStep =
    | Table(step: TableStep)
    | Send(dst: KadID, ready: set<Handler>, connected: set<Handler>)

  /** The id a step looks up. */
  function Named(s: ServerStep): KadID {
    match s case Table(step) => IdOf(step) case Send(dst, _, _) => dst
  }

  /** One case of the loop; `None` is a panic. */
  function Serve(t: Dht, staticPeers: set<KadID>, s: ServerStep, logsState: bool): Option<Dht> {
    match s
    case Table(step) => Kademlia.Step(t, step)
    case Send(dst, ready, connected) =>
      if Targets(Node(t, staticPeers, ready, connected), dst, logsState) == None then None else Some(t)
  }

  function ServeAll(t: Dht, staticPeers: set<KadID>, steps: seq<ServerStep>, logsState: bool): Option<Dht>
    decreases |steps|
  {
    if steps == [] then Some(t)
    else match Serve(t, staticPeers, steps[0], logsState)
      case None => None
      case Some(t') => ServeAll(t', staticPeers, steps[1..], logsState)
  }

  /** The peers that have a handler, after the steps so far: connected to, and not gone since. */
  function Knows(m: map<KadID, Handler>, steps: seq<ServerStep>): map<KadID, Handler>
    decreases |steps|
  {
    if steps == [] then m
    else Knows(if steps[0].Table? then Learn(m, steps[0].step) else m, steps[1..])
  }

  /** Why a step panics: the bucket of the id it names does not exist, or, as long as the state of the
      handler is logged before the nil test, it sends to a peer without a handler. */
  predicate Panics(own: KadID, bucketCnt: nat, m: map<KadID, Handler>, s: ServerStep, logsState: bool) {
    || Dist(Named(s), own) >= bucketCnt
    || (logsState && s.Send? && s.dst !in m)
  }

  lemma ServePanics(t: Dht, m: map<KadID, Handler>, staticPeers: set<KadID>, s: ServerStep, logsState: bool)
    requires Represents(t, m)
    ensures Serve(t, staticPeers, s, logsState) == None <==> Panics(t.id, |t.buckets|, m, s, logsState)
  {
    hide Dist, First, Downward, Without, ToFront;
  }

  lemma ServeRepresents(t: Dht, m: map<KadID, Handler>, staticPeers: set<KadID>, s: ServerStep, logsState: bool)
    requires Represents(t, m) && Serve(t, staticPeers, s, logsState).Some?
    ensures var t' := Serve(t, staticPeers, s, logsState).value;
      && Represents(t', if s.Table? then Learn(m, s.step) else m)
      && t'.id == t.id && |t'.buckets| == |t.buckets|
  {
    hide Represents, Targets, Learn;
    if s.Table? {
      StepRepresents(t, m, s.step);
      StepShape(t, s.step);
    }
  }

  /** Some step of the run panics, seen from the peers known by then. */
  ghost predicate PanicsAt(own: KadID, bucketCnt: nat, m: map<KadID, Handler>, steps: seq<ServerStep>, i: nat,
                           logsState: bool)
  {
    i < |steps| && Panics(own, bucketCnt, Knows(m, steps[..i]), steps[i], logsState)
  }

  lemma PanicsLater(own: KadID, bucketCnt: nat, m: map<KadID, Handler>, steps: seq<ServerStep>, i: nat, logsState: bool)
    requires steps != []
    ensures var m' := if steps[0].Table? then Learn(m, steps[0].step) else m;
      PanicsAt(own, bucketCnt, m, steps, i + 1, logsState) <==> PanicsAt(own, bucketCnt, m', steps[1..], i, logsState)
  {
    hide Panics, Learn;
    if i + 1 < |steps| {
      assert steps[..i + 1][0] == steps[0] && steps[..i + 1][1..] == steps[1..][..i];
    }
  }

  lemma {:induction false} RunPanics(t: Dht, m: map<KadID, Handler>, staticPeers: set<KadID>, steps: seq<ServerStep>,
                                     logsState: bool)
    requires Represents(t, m)
    ensures ServeAll(t, staticPeers, steps, logsState) == None <==>
      exists i: nat :: PanicsAt(t.id, |t.buckets|, m, steps, i, logsState)
    decreases |steps|
  {
    hide Represents, Panics, Serve, Learn;
    if steps != [] {
      var s, rest := steps[0], steps[1..];
      ServePanics(t, m, staticPeers, s, logsState);
      assert PanicsAt(t.id, |t.buckets|, m, steps, 0, logsState) <==> Panics(t.id, |t.buckets|, m, s, logsState) by {
        assert steps[..0] == [];
      }
      var next := Serve(t, staticPeers, s, logsState);
      if next.Some? {
        var m' := if s.Table? then Learn(m, s.step) else m;
        ServeRepresents(t, m, staticPeers, s, logsState);
        RunPanics(next.value, m', staticPeers, rest, logsState);
        forall i: nat ensures
          PanicsAt(t.id, |t.buckets|, m, steps, i + 1, logsState) <==>
          PanicsAt(t.id, |t.buckets|, m', rest, i, logsState)
        {
          PanicsLater(t.id, |t.buckets|, m, steps, i, logsState);
        }
        hide PanicsAt;
        if i: nat :| PanicsAt(t.id, |t.buckets|, m, steps, i, logsState) {
          assert i > 0;
          assert PanicsAt(t.id, |t.buckets|, m', rest, i - 1, logsState) by { assert i == (i - 1) + 1; }
        }
      }
    }
  }

  /** The same, in terms a caller can check: with the 160 buckets of the source, or one more. */
  ghost predicate BadStep(own: KadID, bucketCnt: nat, steps: seq<ServerStep>, i: nat, logsState: bool)
    requires i < |steps|
  {
    || (bucketCnt == 160 && TopBitsDiffer(Named(steps[i]), own))
    || (logsState && steps[i].Send? && steps[i].dst !in Knows(map[], steps[..i]))
  }

  lemma TopBucket(own: KadID, id: KadID)
    ensures Dist(id, own) <= 160
    ensures Dist(id, own) >= 160 <==> TopBitsDiffer(id, own)
  {
    var b: seq<seq<Handler>> := seq(160, _ => []);
    var t := Dht(own, 1, b);
    BucketCountExact(t, id, 0);
    hide TopBitsDiffer;
    assert Get(t, id) == None <==> Dist(id, own) >= 160;
  }

  /** A run of the server from the empty table panics exactly if, at some step, the id it names has
      another top bit than the own id (with 160 buckets), or a send names a peer for which the steps
      before it left no handler (as long as the handler's state is logged first). Static peers are no
      exception. */
  lemma ServerPanicsExactly(own: KadID, k: u32, bucketCnt: nat, staticPeers: set<KadID>, steps: seq<ServerStep>,
                            logsState: bool)
    requires bucketCnt == 160 || bucketCnt == 161
    ensures ServeAll(Dht(own, k, seq(bucketCnt, _ => [])), staticPeers, steps, logsState) == None <==>
      exists i: nat :: i < |steps| && BadStep(own, bucketCnt, steps, i, logsState)
  {
    var t := Dht(own, k, seq(bucketCnt, _ => []));
    assert Represents(t, map[]);
    RunPanics(t, map[], staticPeers, steps, logsState);
    forall i: nat | i < |steps| ensures
      PanicsAt(own, bucketCnt, map[], steps, i, logsState) <==> BadStep(own, bucketCnt, steps, i, logsState)
    {
      TopBucket(own, Named(steps[i]));
      hide Dist, TopBitsDiffer;
    }
    hide BadStep;
  }

  /** With 161 buckets and the log line after the nil test no run of the server panics. */
  lemma RepairedNeverPanics(own: KadID, k: u32, staticPeers: set<KadID>, steps: seq<ServerStep>)
    ensures ServeAll(Dht(own, k, seq(161, _ => [])), staticPeers, steps, false).Some?
  {
    ServerPanicsExactly(own, k, 161, staticPeers, steps, false);
  }
}
