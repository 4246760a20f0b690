/**
  Who gets a copy of a message, and in which order the peers of a bucket stand, told by what the server
  knows of its peers.
*/
module Routing {
  import opened Words
  import opened KadDistance
  import opened Kademlia
  import opened Flooding

  // ---- Where the nearest handlers stand ----

  /** How many handlers the buckets strictly between `e` and `n` hold. */
  function Above(bs: seq<seq<Handler>>, e: nat, n: nat): nat
    requires n <= |bs|
  {
    if n <= e + 1 then 0 else |bs[n - 1]| + Above(bs, e, n - 1)
  }

  /** Handler `i` of bucket `e` comes after all those of higher buckets and after the `i` before it. */
  lemma {:induction false} DownwardAt(bs: seq<seq<Handler>>, n: nat, e: nat, i: nat)
    requires e < n <= |bs| && i < |bs[e]|
    ensures Above(bs, e, n) + i < |Downward(bs, n)| && Downward(bs, n)[Above(bs, e, n) + i] == bs[e][i]
  {
    if e < n - 1 { DownwardAt(bs, n - 1, e, i); }
  }

  /** Nothing else is in the list. */
  lemma {:induction false} DownwardFrom(bs: seq<seq<Handler>>, n: nat, j: nat) returns (e: nat, i: nat)
    requires n <= |bs| && j < |Downward(bs, n)|
    ensures e < n && i < |bs[e]| && j == Above(bs, e, n) + i
  {
    if j < |bs[n - 1]| {
      e, i := n - 1, j;
    } else {
      e, i := DownwardFrom(bs, n - 1, j - |bs[n - 1]|);
    }
  }

  /** The handlers `GetK` returns, by place: bucket by bucket from that of the target downward, in the
      order of the bucket, until there are `K`, or to the end if `K` is 0. */
  lemma GetKAt(t: Dht, id: KadID, e: nat, i: nat)
    requires t.InRange(id) && e <= Dist(id, t.id) && i < |t.buckets[e]|
    ensures var got, j := GetK(t, id).value, Above(t.buckets, e, Dist(id, t.id) + 1) + i;
      if t.k == 0 || j < t.k then j < |got| && got[j] == t.buckets[e][i] else j >= |got|
  {
    var d := Dist(id, t.id);
    hide Dist;
    DownwardAt(t.buckets, d + 1, e, i);
  }

  // ---- Who gets a copy ----

  /** `at` lists in ascending order exactly the places of the connected handlers, and `ts` where they
      lead. */
  ghost predicate LeadsTo(n: Node, hs: seq<Handler>, at: seq<nat>, ts: seq<KadID>) {
    && |at| == |ts|
    && (forall a, b | 0 <= a < b < |at| :: at[a] < at[b])
    && (forall a | 0 <= a < |at| :: at[a] < |hs| && hs[at[a]] in n.connected && ts[a] == hs[at[a]].dst)
    && forall j: nat | j < |hs| && hs[j] in n.connected :: j in at
  }

  lemma {:induction false} ConnectedExact(n: Node, hs: seq<Handler>) returns (at: seq<nat>)
    ensures LeadsTo(n, hs, at, Connected(n, hs))
    decreases |hs|
  {
    if hs == [] {
      at := [];
    } else {
      var rest := ConnectedExact(n, hs[1..]);
      var later := seq(|rest|, a requires 0 <= a < |rest| => rest[a] + 1);
      at := if hs[0] in n.connected then [0] + later else later;
      LaterPlaces(n, hs, rest, later, Connected(n, hs[1..]));
      if hs[0] in n.connected { FirstPlace(n, hs, later, Connected(n, hs[1..])); }
    }
  }

  /** The places in the rest of the list, one further on. */
  ghost predicate LeadsToLater(n: Node, hs: seq<Handler>, at: seq<nat>, ts: seq<KadID>) {
    && |at| == |ts|
    && (forall a, b | 0 <= a < b < |at| :: at[a] < at[b])
    && (forall a | 0 <= a < |at| :: 0 < at[a] < |hs| && hs[at[a]] in n.connected && ts[a] == hs[at[a]].dst)
    && forall j: nat | 0 < j < |hs| && hs[j] in n.connected :: j in at
  }

  lemma LaterPlaces(n: Node, hs: seq<Handler>, rest: seq<nat>, later: seq<nat>, ts: seq<KadID>)
    requires hs != [] && LeadsTo(n, hs[1..], rest, ts)
    requires |later| == |rest| && forall a | 0 <= a < |rest| :: later[a] == rest[a] + 1
    ensures LeadsToLater(n, hs, later, ts)
    ensures hs[0] !in n.connected ==> LeadsTo(n, hs, later, ts)
  {
    forall j: nat | 0 < j < |hs| && hs[j] in n.connected ensures j in later {
      assert hs[1..][j - 1] == hs[j] && j - 1 in rest;
      var a :| 0 <= a < |rest| && rest[a] == j - 1;
      assert later[a] == j;
    }
  }

  lemma FirstPlace(n: Node, hs: seq<Handler>, later: seq<nat>, ts: seq<KadID>)
    requires hs != [] && hs[0] in n.connected && LeadsToLater(n, hs, later, ts)
    ensures LeadsTo(n, hs, [0] + later, [hs[0].dst] + ts)
  {
    forall j: nat | j < |hs| && hs[j] in n.connected ensures j in [0] + later {
      if j > 0 { assert j in later; }
    }
  }

  /** Sending to `dst` panics: there is no bucket for it, or no handler while the handler's state is
      logged first. */
  predicate Refused(n: Node, m: map<KadID, Handler>, dst: KadID, logsState: bool) {
    Dist(dst, n.table.id) >= |n.table.buckets| || (logsState && dst !in m)
  }

  /** `ts` are the peers a message for `dst` goes to, seen from what the server knows: if its handler for
      `dst` is ready, `dst` alone; else `dst` alone if that is a static peer; else all peers to which one
      of the nearest handlers is connected, in their order. */
  ghost predicate GoesTo(n: Node, m: map<KadID, Handler>, dst: KadID, at: seq<nat>, ts: seq<KadID>) {
    && GetK(n.table, dst).Some?
    && if (dst in m && m[dst] in n.ready) || dst in n.staticPeers then ts == [dst]
       else LeadsTo(n, GetK(n.table, dst).value, at, ts)
  }

  /** Where `send` sends, exactly. */
  lemma TargetsExact(n: Node, m: map<KadID, Handler>, dst: KadID, logsState: bool) returns (at: seq<nat>)
    requires Represents(n.table, m)
    ensures var ts := Targets(n, dst, logsState);
      if Refused(n, m, dst, logsState) then ts == None else ts.Some? && GoesTo(n, m, dst, at, ts.value)
  {
    at := [];
    var hs := GetK(n.table, dst);
    if n.table.InRange(dst) {
      var b := n.table.buckets[Dist(dst, n.table.id)];
      WithoutSubset(b, dst);
      at := ConnectedExact(n, hs.value);
    }
    hide Dist, First, Downward, Connected, LeadsTo;
  }

  /** `out` is one copy of the message to each of these peers, in order. */
  ghost predicate OneCopyEach(out: seq<Flight>, msg: Msg, ts: seq<KadID>) {
    |out| == |ts| && forall i | 0 <= i < |out| :: out[i] == Flight(ts[i], msg)
  }

  /** What the arrival of a copy makes a node send on: nothing if the message is for it, its time to live
      is used up or sending panics; else one copy to each peer it goes to, with one less to live. */
  lemma ArriveExact(n: Node, m: map<KadID, Handler>, msg: Msg, logsState: bool) returns (at: seq<nat>, ts: seq<KadID>)
    requires Represents(n.table, m)
    ensures var out := Arrive(n, msg, logsState);
      if msg.dst == n.table.id || msg.ttl == 0 || Refused(n, m, msg.dst, logsState) then out == []
      else GoesTo(n, m, msg.dst, at, ts) && OneCopyEach(out, Msg(msg.dst, msg.ttl - 1), ts)
  {
    at := TargetsExact(n, m, msg.dst, logsState);
    var targets := Targets(n, msg.dst, logsState);
    ts := if targets.Some? then targets.value else [];
    hide Targets, GoesTo, Represents, Refused;
  }

  /** What an answer to a connection message sends: a new message, with a fresh time to live, one copy to
      each peer it goes to. */
  lemma AnswerExact(n: Node, m: map<KadID, Handler>, back: KadID, maxTTL: u32, logsState: bool)
    returns (at: seq<nat>, ts: seq<KadID>)
    requires Represents(n.table, m)
    ensures var out := Answered(n, back, maxTTL, logsState);
      if Refused(n, m, back, logsState) then out == []
      else GoesTo(n, m, back, at, ts) && OneCopyEach(out, Msg(back, maxTTL), ts)
  {
    at := TargetsExact(n, m, back, logsState);
    var targets := Targets(n, back, logsState);
    ts := if targets.Some? then targets.value else [];
    hide Targets, GoesTo, Represents, Refused;
  }

  // ---- The order of a bucket ----

  /** `Update` puts the handler of `id` in front of its bucket and leaves the order of the others, and all
      other buckets; `Remove` takes it out of this order; a peer without a handler changes nothing. */
  lemma MovesToFront(t: Dht, id: KadID)
    requires t.InRange(id)
    ensures var d := Dist(id, t.id);
      var b, t', t'' := t.buckets[d], Update(t, id).value, Remove(t, id).value;
      && (forall i: nat | i < |b| && b[i].dst == id && (forall j | 0 <= j < i :: b[j].dst != id) ::
            && t' == t.(buckets := t.buckets[d := [b[i]] + b[..i] + b[i + 1..]])
            && t'' == t.(buckets := t.buckets[d := b[..i] + b[i + 1..]]))
      && ((forall j | 0 <= j < |b| :: b[j].dst != id) ==> t' == t && t'' == t)
  {
    var d := Dist(id, t.id);
    var b := t.buckets[d];
    hide Dist;
    forall i: nat | i < |b| && b[i].dst == id && (forall j | 0 <= j < i :: b[j].dst != id)
      ensures ToFront(b, id) == [b[i]] + b[..i] + b[i + 1..] && Without(b, id) == b[..i] + b[i + 1..]
    {
      SearchIsFirst(b, id, i);
      assert [b[i]] + (b[..i] + b[i + 1..]) == [b[i]] + b[..i] + b[i + 1..];
    }
    if forall j | 0 <= j < |b| :: b[j].dst != id {
      SearchIsFirst(b, id, |b|);
      assert t.buckets[d := b] == t.buckets;
    }
  }

  /** The handlers of a list stand in the order of their times, latest first. */
  ghost predicate ByTime(hs: seq<Handler>, times: map<KadID, nat>) {
    && (forall i | 0 <= i < |hs| :: hs[i].dst in times)
    && forall i, j | 0 <= i < j < |hs| :: times[hs[i].dst] > times[hs[j].dst]
  }

  /** Every bucket is in order, and the times are those of the peers that have a handler. */
  ghost predicate Recent(t: Dht, m: map<KadID, Handler>, times: map<KadID, nat>, n: nat) {
    && Represents(t, m) && m.Keys == times.Keys
    && (forall x | x in times :: times[x] <= n)
    && forall d | 0 <= d < |t.buckets| :: ByTime(t.buckets[d], times)
  }

  lemma InFront(hs: seq<Handler>, times: map<KadID, nat>, h: Handler, n: nat)
    requires ByTime(hs, times) && (forall x | x in times :: times[x] < n)
    requires forall i | 0 <= i < |hs| :: hs[i].dst != h.dst
    ensures ByTime([h] + hs, times[h.dst := n])
  {
  }

  lemma CutOut(hs: seq<Handler>, times: map<KadID, nat>, i: nat)
    requires ByTime(hs, times) && i < |hs|
    ensures var w := hs[..i] + hs[i + 1..];
      ByTime(w, times) && forall k | 0 <= k < |w| :: w[k].dst != hs[i].dst
  {
  }

  lemma OthersKeep(hs: seq<Handler>, times: map<KadID, nat>, times': map<KadID, nat>)
    requires ByTime(hs, times)
    requires forall i | 0 <= i < |hs| :: hs[i].dst in times' && times'[hs[i].dst] == times[hs[i].dst]
    ensures ByTime(hs, times')
  {
  }

  /** When each peer with a handler was last connected or heard from; the step happens at time `n`. */
  function TimesAfter(times: map<KadID, nat>, s: TableStep, n: nat): map<KadID, nat> {
    match s
    case Connect(h) => if h.dst in times then times else times[h.dst := n]
    case Heard(id) => if id in times then times[id := n] else times
    case Gone(id) => times - {id}
  }

  /** Where the handler of a known peer stands, or that there is none. */
  lemma PlaceOf(t: Dht, m: map<KadID, Handler>, id: KadID) returns (i: nat)
    requires Represents(t, m) && t.InRange(id)
    ensures var b := t.buckets[Dist(id, t.id)];
      && i <= |b|
      && (forall j | 0 <= j < i :: b[j].dst != id)
      && (i < |b| <==> id in m) && (i < |b| ==> b[i].dst == id)
  {
    var b := t.buckets[Dist(id, t.id)];
    hide Dist, Placed, PeersOnce;
    FirstNone(b, id);
    i := 0;
    while i < |b| && b[i].dst != id
      invariant i <= |b| && forall j | 0 <= j < i :: b[j].dst != id
    {
      i := i + 1;
    }
  }

  /** A bucket the step is not about. */
  lemma OtherBucket(t: Dht, times: map<KadID, nat>, times': map<KadID, nat>, id: KadID, e: nat)
    requires Placed(t) && e < |t.buckets| && Dist(id, t.id) != e && ByTime(t.buckets[e], times)
    requires forall x | x != id && x in times :: x in times' && times'[x] == times[x]
    ensures ByTime(t.buckets[e], times')
  {
    hide Dist;
    forall i | 0 <= i < |t.buckets[e]| ensures t.buckets[e][i].dst != id {}
    OthersKeep(t.buckets[e], times, times');
  }

  /** What a step makes of the bucket it is about; `i` is the place of the peer's handler, if any. */
  function BucketAfter(b: seq<Handler>, i: nat, s: TableStep): seq<Handler>
    requires i <= |b|
  {
    if i < |b| then
      match s
      case Connect(_) => b
      case Heard(_) => [b[i]] + b[..i] + b[i + 1..]
      case Gone(_) => b[..i] + b[i + 1..]
    else if s.Connect? then [s.h] + b
    else b
  }

  lemma OwnBucket(t: Dht, m: map<KadID, Handler>, s: TableStep) returns (i: nat)
    requires Represents(t, m) && Kademlia.Step(t, s).Some?
    ensures var d := Dist(IdOf(s), t.id);
      && d < |t.buckets| && i <= |t.buckets[d]|
      && (forall j | 0 <= j < i :: t.buckets[d][j].dst != IdOf(s))
      && (i < |t.buckets[d]| <==> IdOf(s) in m) && (i < |t.buckets[d]| ==> t.buckets[d][i].dst == IdOf(s))
      && Kademlia.Step(t, s).value.buckets[d] == BucketAfter(t.buckets[d], i, s)
  {
    var id := IdOf(s);
    assert t.InRange(id);
    i := PlaceOf(t, m, id);
    SearchIsFirst(t.buckets[Dist(id, t.id)], id, i);
    MovesToFront(t, id);
    hide Represents, Dist, Without, ToFront, First;
  }

  lemma OwnByTime(b: seq<Handler>, i: nat, times: map<KadID, nat>, s: TableStep, n: nat)
    requires ByTime(b, times) && (forall x | x in times :: times[x] < n) && i <= |b|
    requires forall j | 0 <= j < i :: b[j].dst != IdOf(s)
    requires (i < |b| <==> IdOf(s) in times) && (i < |b| ==> b[i].dst == IdOf(s))
    ensures ByTime(BucketAfter(b, i, s), TimesAfter(times, s, n))
  {
    hide ByTime;
    if i < |b| {
      CutOut(b, times, i);
      var w := b[..i] + b[i + 1..];
      match s {
        case Connect(_) =>
        case Heard(id) =>
          InFront(w, times, b[i], n);
          assert [b[i]] + w == [b[i]] + b[..i] + b[i + 1..];
        case Gone(id) =>
          KnownAll(w, times);
          OthersKeep(w, times, times - {id});
      }
    } else if s.Connect? {
      InFront(b, times, s.h, n);
    } else if s.Gone? {
      assert times - {s.id} == times;
    }
  }

  lemma KnownAll(hs: seq<Handler>, times: map<KadID, nat>)
    requires ByTime(hs, times)
    ensures forall i | 0 <= i < |hs| :: hs[i].dst in times
  {
  }

  lemma TimesOfOthers(times: map<KadID, nat>, s: TableStep, n: nat)
    requires forall x | x in times :: times[x] <= n
    ensures var times' := TimesAfter(times, s, n + 1);
      && (forall x | x != IdOf(s) && x in times :: x in times' && times'[x] == times[x])
      && (forall x | x in times' :: times'[x] <= n + 1)
  {
  }

  lemma TimeStep(t: Dht, m: map<KadID, Handler>, times: map<KadID, nat>, s: TableStep, n: nat)
    requires Recent(t, m, times, n) && Kademlia.Step(t, s).Some?
    ensures Recent(Kademlia.Step(t, s).value, Learn(m, s), TimesAfter(times, s, n + 1), n + 1)
  {
    var t', times' := Kademlia.Step(t, s).value, TimesAfter(times, s, n + 1);
    SameKeys(m, times, s, n + 1);
    hide Represents, Dist, ByTime, Kademlia.Step, Placed, BucketAfter, TimesAfter, Learn;
    StepRepresents(t, m, s);
    StepShape(t, s);
    TimesOfOthers(times, s, n);
    BucketsByTime(t, m, times, s, n);
  }

  lemma SameKeys(m: map<KadID, Handler>, times: map<KadID, nat>, s: TableStep, n: nat)
    requires m.Keys == times.Keys
    ensures Learn(m, s).Keys == TimesAfter(times, s, n).Keys
  {
    match s {
      case Connect(h) => assert h.dst in m <==> h.dst in times;
      case Heard(id) => assert id in m <==> id in times;
      case Gone(id) =>
    }
  }

  lemma BucketsByTime(t: Dht, m: map<KadID, Handler>, times: map<KadID, nat>, s: TableStep, n: nat)
    requires Recent(t, m, times, n) && Kademlia.Step(t, s).Some?
    ensures var t' := Kademlia.Step(t, s).value;
      forall e | 0 <= e < |t'.buckets| :: ByTime(t'.buckets[e], TimesAfter(times, s, n + 1))
  {
    var t', times' := Kademlia.Step(t, s).value, TimesAfter(times, s, n + 1);
    assert Placed(t);
    hide Represents, Dist, ByTime, Kademlia.Step, Placed, BucketAfter, TimesAfter;
    TimesOfOthers(times, s, n);
    OtherBucketsStay(t, s);
    var i := OwnBucket(t, m, s);
    assert IdOf(s) in m <==> IdOf(s) in times;
    OwnByTime(t.buckets[Dist(IdOf(s), t.id)], i, times, s, n + 1);
    forall e | 0 <= e < |t'.buckets| ensures ByTime(t'.buckets[e], times') {
      if e != Dist(IdOf(s), t.id) { OtherBucket(t, times, times', IdOf(s), e); }
    }
  }

  lemma OtherBucketsStay(t: Dht, s: TableStep)
    requires Kademlia.Step(t, s).Some?
    ensures var t' := Kademlia.Step(t, s).value;
      |t'.buckets| == |t.buckets|
      && forall e | 0 <= e < |t.buckets| && e != Dist(IdOf(s), t.id) :: t'.buckets[e] == t.buckets[e]
  {
    hide Dist, ToFront, Without, First;
  }

  /** The times after a whole run that began at time `n`. */
  function TimesAll(times: map<KadID, nat>, steps: seq<TableStep>, n: nat): map<KadID, nat>
    decreases |steps|
  {
    if steps == [] then times else TimesAll(TimesAfter(times, steps[0], n + 1), steps[1..], n + 1)
  }

  lemma {:induction false} RunRecent(t: Dht, m: map<KadID, Handler>, times: map<KadID, nat>,
                                     steps: seq<TableStep>, n: nat)
    requires Recent(t, m, times, n) && RunSteps(t, steps).Some?
    ensures Recent(RunSteps(t, steps).value, LearnAll(m, steps), TimesAll(times, steps, n), n + |steps|)
    decreases |steps|
  {
    if steps != [] {
      TimeStep(t, m, times, steps[0], n);
      hide Recent, Kademlia.Step, Learn, TimesAfter;
      var t', m' := Kademlia.Step(t, steps[0]).value, Learn(m, steps[0]);
      RunRecent(t', m', TimesAfter(times, steps[0], n + 1), steps[1..], n + 1);
    }
  }

  /** After any run from the empty table every bucket stands in the order in which its peers were last
      connected or heard from, latest first. */
  lemma BucketsAreRecent(id: KadID, k: u32, bucketCnt: nat, steps: seq<TableStep>)
    requires RunSteps(Dht(id, k, seq(bucketCnt, _ => [])), steps).Some?
    ensures var t, times := RunSteps(Dht(id, k, seq(bucketCnt, _ => [])), steps).value, TimesAll(map[], steps, 0);
      && Recent(t, LearnAll(map[], steps), times, |steps|)
      && forall d | 0 <= d < |t.buckets| :: ByTime(t.buckets[d], times)
  {
    var t0 := Dht(id, k, seq(bucketCnt, _ => []));
    assert Represents(t0, map[]);
    assert Recent(t0, map[], map[], 0);
    RunRecent(t0, map[], map[], steps, 0);
  }
}
