/**
  Purchase of several file groups from the peers that trackers name (`ParalleledPurchaseSession`,
  src/fs/tracker.go).

  The session hands purchases to the file system and hears back one result for each of them.
  `asked` and `announced` list what it handed out, oldest first. Which of the remaining candidates
  is tried after a failure is up to the order of a Go map: the event names the choice.
*/
module ParallelPurchase {
  import opened Words
  import opened Blinding
  import opened Names

  datatype FileState = UNKNOWN | PURCHASING | PURCHASED

  datatype FileMeta = FileMeta(KeyGroup: seq<seq<Key>>, Sizes: seq<u32>, Hashes: seq<HashVal>)

  datatype Purchase = Purchase(keys: seq<Key>, size: u32, peer: NodeID, hash: HashVal)

  /** `crashed` records a panic of the source, `closed` that `run` returned. */
  datatype Session = Session(
    meta: FileMeta, peerGroup: seq<set<NodeID>>, fileState: seq<FileState>, unpurchasedCnt: u32,
    asked: seq<Purchase>, announced: seq<bool>, crashed: bool, closed: bool)

  datatype PurchaseEvent =
    | Reply(peerGroup: seq<seq<NodeID>>)
    | Result(p: Purchase, ok: bool, next: NodeID)
    | Close

  datatype Lookup = Found(i: nat) | Missing | Panics

  predicate Shape(s: Session) { |s.peerGroup| == |s.fileState| == |s.meta.KeyGroup| }

  function Begin(meta: FileMeta): (s: Session)
    ensures Shape(s)
  {
    var l := |meta.KeyGroup|;
    Session(meta, seq(l, _ => {}), seq(l, _ => UNKNOWN), Wrap(l), [], [], false, false)
  }

  predicate HasMeta(meta: FileMeta, i: nat) { i < |meta.KeyGroup| && i < |meta.Sizes| && i < |meta.Hashes| }

  function Of(meta: FileMeta, i: nat, peer: NodeID): Purchase
    requires HasMeta(meta, i)
  {
    Purchase(meta.KeyGroup[i], meta.Sizes[i], peer, meta.Hashes[i])
  }

  /** `purchase` of the source. */
  function Ask(s: Session, i: nat, peer: NodeID): (r: Session)
    requires Shape(s) && i < |s.fileState|
    ensures Shape(r) && r.meta == s.meta
  {
    if s.fileState[i] != UNKNOWN then s
    else if !HasMeta(s.meta, i) then s.(fileState := s.fileState[i := PURCHASING], crashed := true)
    else s.(fileState := s.fileState[i := PURCHASING], asked := s.asked + [Of(s.meta, i, peer)])
  }

  /** The peers a tracker names for group `i`. */
  function Hear(s: Session, i: nat, peers: seq<NodeID>): (r: Session)
    requires Shape(s) && i < |s.fileState|
    ensures Shape(r) && r.meta == s.meta
  {
    if peers == [] then s
    else Ask(s, i, peers[0]).(peerGroup := s.peerGroup[i := s.peerGroup[i] + Elems(peers)])
  }

  function HearAll(s: Session, reply: seq<seq<NodeID>>, i: nat): (r: Session)
    requires Shape(s) && i <= |reply| == |s.fileState|
    ensures Shape(r) && r.meta == s.meta
    decreases |reply| - i
  {
    if i == |reply| || s.crashed then s else HearAll(Hear(s, i, reply[i]), reply, i + 1)
  }

  /** The first group whose first key is `key`; reading the first key of an empty group panics. */
  function Find(groups: seq<seq<Key>>, key: Key, i: nat): (r: Lookup)
    requires i <= |groups|
    ensures r.Found? ==> i <= r.i < |groups| && groups[r.i] != [] && groups[r.i][0] == key
    decreases |groups| - i
  {
    if i == |groups| then Missing
    else if groups[i] == [] then Panics
    else if groups[i][0] == key then Found(i)
    else Find(groups, key, i + 1)
  }

  function OnReply(s: Session, reply: seq<seq<NodeID>>): (r: Session)
    requires Shape(s)
    ensures Shape(r) && r.meta == s.meta
  {
    if |reply| == |s.meta.KeyGroup| then HearAll(s, reply, 0) else s
  }

  /** A result for group `i`. */
  function Settle(s: Session, i: nat, peer: NodeID, ok: bool, next: NodeID): (r: Session)
    requires Shape(s) && i < |s.fileState|
    ensures Shape(r) && r.meta == s.meta
  {
    var left := s.peerGroup[i] - {peer};
    var s1 := s.(peerGroup := s.peerGroup[i := left]);
    if ok then
      var cnt := Sub(s.unpurchasedCnt, 1);
      s1.(fileState := s.fileState[i := PURCHASED], unpurchasedCnt := cnt,
          announced := s.announced + if cnt == 0 then [true] else [])
    else
      var s2 := s1.(fileState := s.fileState[i := UNKNOWN]);
      if left == {} then s2 else Ask(s2, i, next)
  }

  function OnResult(s: Session, keys: seq<Key>, peer: NodeID, ok: bool, next: NodeID): (r: Session)
    requires Shape(s)
    ensures Shape(r) && r.meta == s.meta
  {
    if s.meta.KeyGroup == [] then s
    else if keys == [] then s.(crashed := true)
    else match Find(s.meta.KeyGroup, keys[0], 0)
      case Missing => s
      case Panics => s.(crashed := true)
      case Found(i) => Settle(s, i, peer, ok, next)
  }

  function Handle(s: Session, e: PurchaseEvent): (r: Session)
    requires Shape(s)
    ensures Shape(r) && r.meta == s.meta
  {
    if s.crashed || s.closed then s
    else match e
      case Reply(reply) => OnReply(s, reply)
      case Result(p, ok, next) => OnResult(s, p.keys, p.peer, ok, next)
      case Close => s.(announced := s.announced + [false], closed := true)
  }

  // ---- The session object ----

  class ParalleledPurchaseSession {
    const meta: FileMeta
    var peerGroup: seq<set<NodeID>>
    var fileState: seq<FileState>
    var unpurchasedCnt: u32
    var asked: seq<Purchase>
    var announced: seq<bool>
    var crashed: bool
    var closed: bool

    ghost function View(): Session
      reads this
    {
      Session(meta, peerGroup, fileState, unpurchasedCnt, asked, announced, crashed, closed)
    }

    constructor (meta: FileMeta)
      ensures View() == Begin(meta)
    {
      var l := |meta.KeyGroup|;
      this.meta := meta;
      peerGroup, fileState := seq(l, _ => {}), seq(l, _ => UNKNOWN);
      unpurchasedCnt, asked, announced, crashed, closed := Wrap(l), [], [], false, false;
    }

    method Purchase(id: nat, peer: NodeID)
      requires Shape(View()) && id < |fileState|
      modifies this`fileState, this`asked, this`crashed
      ensures View() == Ask(old(View()), id, peer)
    {
      if fileState[id] == UNKNOWN {
        fileState := fileState[id := PURCHASING];
        if id >= |meta.Sizes| || id >= |meta.Hashes| {
          crashed := true;
          return;
        }
        asked := asked + [Of(meta, id, peer)];
      }
    }

    /** The peers of one group, first to last. */
    method UpdateGroup(i: nat, peers: seq<NodeID>)
      requires Shape(View()) && i < |fileState| && !crashed
      modifies this`fileState, this`asked, this`crashed, this`peerGroup
      ensures crashed <==> Hear(old(View()), i, peers).crashed
      ensures !crashed ==> View() == Hear(old(View()), i, peers)
    {
      var purchased := false;
      ghost var s := View();
      for k := 0 to |peers|
        invariant !crashed && Shape(View()) && |fileState| == |s.fileState|
        invariant purchased <==> k > 0
        invariant View() == Hear(s, i, peers[..k])
      {
        assert Elems(peers[..k + 1]) == Elems(peers[..k]) + {peers[k]};
        if !purchased {
          purchased := true;
          Purchase(i, peers[k]);
          if crashed {
            return;
          }
        }
        peerGroup := peerGroup[i := peerGroup[i] + {peers[k]}];
        assert peers[..k + 1][0] == peers[0];
        assert peerGroup[i] == s.peerGroup[i] + Elems(peers[..k + 1]);
        assert peerGroup == s.peerGroup[i := s.peerGroup[i] + Elems(peers[..k + 1])];
      }
      assert peers[..|peers|] == peers;
    }

    method UpdatePeers(reply: seq<seq<NodeID>>)
      requires Shape(View()) && |reply| == |fileState| && !crashed
      modifies this`fileState, this`asked, this`crashed, this`peerGroup
      ensures crashed <==> HearAll(old(View()), reply, 0).crashed
      ensures !crashed ==> View() == HearAll(old(View()), reply, 0)
    {
      ghost var s := View();
      for i := 0 to |reply|
        invariant !crashed && Shape(View()) && |fileState| == |reply|
        invariant HearAll(View(), reply, i) == HearAll(s, reply, 0)
      {
        UpdateGroup(i, reply[i]);
        if crashed {
          return;
        }
      }
    }

    /** The search loop of the result case. */
    method FindGroup(key: Key) returns (r: Lookup)
      ensures r == Find(meta.KeyGroup, key, 0)
    {
      for i := 0 to |meta.KeyGroup|
        invariant Find(meta.KeyGroup, key, i) == Find(meta.KeyGroup, key, 0)
      {
        if meta.KeyGroup[i] == [] {
          return Panics;
        }
        if meta.KeyGroup[i][0] == key {
          return Found(i);
        }
      }
      r := Missing;
    }

    /** The purchase result case of `run`; `next` is the candidate it chose to try. */
    method HandleResult(keys: seq<Key>, peer: NodeID, ok: bool) returns (next: NodeID)
      requires Shape(View()) && !crashed
      modifies this
      ensures View() == OnResult(old(View()), keys, peer, ok, next)
      ensures ChoiceOk(old(View()), keys, peer, ok, next)
    {
      next := 0;
      if meta.KeyGroup == [] {
        return;
      }
      if keys == [] {
        crashed := true;
        return;
      }
      var found := FindGroup(keys[0]);
      if found.Panics? {
        crashed := true;
      } else if found.Found? {
        var i := found.i;
        peerGroup := peerGroup[i := peerGroup[i] - {peer}];
        if ok {
          fileState := fileState[i := PURCHASED];
          unpurchasedCnt := Sub(unpurchasedCnt, 1);
          if unpurchasedCnt == 0 {
            announced := announced + [true];
          }
        } else {
          fileState := fileState[i := UNKNOWN];
          if peerGroup[i] != {} {
            next :| next in peerGroup[i];
            Purchase(i, next);
          }
        }
      }
    }

    /** The timer and control cases of `run`. */
    method Stop()
      requires Shape(View())
      modifies this`announced, this`closed
      ensures !old(crashed) && !old(closed) ==> View() == Handle(old(View()), Close)
    {
      announced := announced + [false];
      closed := true;
    }
  }

  /** After a failure the next candidate is one of those left, if there is one. */
  predicate ChoiceOk(s: Session, keys: seq<Key>, peer: NodeID, ok: bool, next: NodeID)
    requires Shape(s)
  {
    !ok && keys != [] && Find(s.meta.KeyGroup, keys[0], 0).Found? ==>
      var left := s.peerGroup[Find(s.meta.KeyGroup, keys[0], 0).i] - {peer};
      left == {} || next in left
  }

  // ---- The session and its surroundings ----

  /** `done` are the purchases whose results were read, `heard[i]` how many peer entries trackers sent
      for group `i`. */
  datatype World = World(s: Session, done: seq<Purchase>, heard: seq<nat>)

  function Pending(asked: seq<Purchase>, done: seq<Purchase>, p: Purchase): int {
    (multiset(asked)[p] as int) - multiset(done)[p]
  }

  function HeardMore(heard: seq<nat>, reply: seq<seq<NodeID>>, i: nat): (h: seq<nat>)
    requires i <= |reply| == |heard|
    ensures |h| == |heard|
    decreases |reply| - i
  {
    if i == |reply| then heard else HeardMore(heard[i := heard[i] + |reply[i]|], reply, i + 1)
  }

  predicate WorldShape(w: World) { Shape(w.s) && |w.heard| == |w.s.fileState| }

  function Step(w: World, e: PurchaseEvent): (w': World)
    requires WorldShape(w)
    ensures WorldShape(w') && w'.s.meta == w.s.meta
  {
    if w.s.crashed || w.s.closed then w
    else match e
      case Reply(reply) =>
        World(Handle(w.s, e), w.done, if |reply| == |w.heard| then HeardMore(w.heard, reply, 0) else w.heard)
      case Result(p, _, _) => World(Handle(w.s, e), w.done + [p], w.heard)
      case Close => World(Handle(w.s, e), w.done, w.heard)
  }

  /** Every result answers a purchase that was asked for and not answered yet. */
  predicate Legal(w: World, e: PurchaseEvent)
    requires WorldShape(w)
  {
    e.Result? ==>
      && Pending(w.s.asked, w.done, e.p) > 0
      && ChoiceOk(w.s, e.p.keys, e.p.peer, e.ok, e.next)
  }

  function Begun(meta: FileMeta): (w: World)
    ensures WorldShape(w)
  {
    World(Begin(meta), [], seq(|meta.KeyGroup|, _ => 0))
  }

  predicate LegalRun(w: World, es: seq<PurchaseEvent>)
    requires WorldShape(w)
    decreases |es|
  {
    es == [] || (Legal(w, es[0]) && LegalRun(Step(w, es[0]), es[1..]))
  }

  function Run(w: World, es: seq<PurchaseEvent>): (w': World)
    requires WorldShape(w)
    ensures WorldShape(w') && w'.s.meta == w.s.meta
    decreases |es|
  {
    if es == [] then w else Run(Step(w, es[0]), es[1..])
  }

  // ---- The invariant ----

  /** Groups not PURCHASED. */
  function Left(fileState: seq<FileState>): nat {
    if fileState == [] then 0
    else Left(fileState[..|fileState| - 1]) + if fileState[|fileState| - 1] == PURCHASED then 0 else 1
  }

  /** How many purchases are for these keys. */
  function Times(ps: seq<Purchase>, keys: seq<Key>): nat {
    if ps == [] then 0
    else Times(ps[..|ps| - 1], keys) + if ps[|ps| - 1].keys == keys then 1 else 0
  }

  predicate MetaOk(meta: FileMeta) {
    && |meta.KeyGroup| < TWO32
    && (forall i: nat | i < |meta.KeyGroup| :: HasMeta(meta, i))
    && forall i | 0 <= i < |meta.KeyGroup| :: meta.KeyGroup[i] != []
  }

  predicate FirstKeysDistinct(meta: FileMeta)
    requires MetaOk(meta)
  {
    forall i, j | 0 <= i < j < |meta.KeyGroup| :: meta.KeyGroup[i][0] != meta.KeyGroup[j][0]
  }

  /** Group `i` waits for no result. */
  ghost predicate Idle(w: World, i: nat)
    requires HasMeta(w.s.meta, i)
  {
    forall q: NodeID :: Pending(w.s.asked, w.done, Of(w.s.meta, i, q)) == 0
  }

  /** Group `i` waits for one result, that of `peer`. */
  ghost predicate Sole(w: World, i: nat, peer: NodeID)
    requires HasMeta(w.s.meta, i)
  {
    forall q: NodeID :: Pending(w.s.asked, w.done, Of(w.s.meta, i, q)) == if q == peer then 1 else 0
  }

  /** Purchases are paid for by tracker entries, and one that is not answered is being made. */
  ghost predicate Paid(w: World, i: nat)
    requires WorldShape(w) && i < |w.s.fileState|
  {
    var keys := w.s.meta.KeyGroup[i];
    && Times(w.done, keys) + |w.s.peerGroup[i]| <= w.heard[i]
    && Times(w.s.asked, keys) == Times(w.done, keys) + if w.s.fileState[i] == PURCHASING then 1 else 0
  }

  /** PURCHASING means one outstanding purchase, from a candidate; UNKNOWN means no candidate is left. */
  ghost predicate GroupOk(w: World, i: nat)
    requires WorldShape(w) && i < |w.s.fileState| && HasMeta(w.s.meta, i)
  {
    && Paid(w, i)
    && (w.s.fileState[i] == UNKNOWN ==> w.s.peerGroup[i] == {})
    && if w.s.fileState[i] == PURCHASING
       then exists peer :: peer in w.s.peerGroup[i] && Sole(w, i, peer)
       else Idle(w, i)
  }

  ghost predicate Known(meta: FileMeta, p: Purchase)
    requires MetaOk(meta)
  {
    exists i: nat :: i < |meta.KeyGroup| && p == Of(meta, i, p.peer)
  }

  ghost predicate GroupsOk(w: World)
    requires WorldShape(w) && MetaOk(w.s.meta)
  {
    && (forall i: nat | i < |w.s.fileState| :: GroupOk(w, i))
    && (forall p | p in w.s.asked :: Known(w.s.meta, p))
  }

  /** The counter and the announcements say how many groups are left. */
  ghost predicate CountsOk(w: World) {
    && w.s.unpurchasedCnt == Left(w.s.fileState)
    && w.s.announced == (if w.s.meta.KeyGroup != [] && Left(w.s.fileState) == 0 then [true] else [])
                        + (if w.s.closed then [false] else [])
  }

  ghost predicate Inv(w: World) {
    && WorldShape(w) && MetaOk(w.s.meta) && FirstKeysDistinct(w.s.meta) && !w.s.crashed
    && GroupsOk(w) && CountsOk(w)
  }

  // ---- Counting ----

  lemma TimesSnoc(ps: seq<Purchase>, p: Purchase, keys: seq<Key>)
    ensures Times(ps + [p], keys) == Times(ps, keys) + if p.keys == keys then 1 else 0
  {
    assert (ps + [p])[..|ps|] == ps;
  }

  lemma {:induction false} LeftUpdate(fs: seq<FileState>, i: nat, st: FileState)
    requires i < |fs|
    ensures Left(fs[i := st]) == Left(fs) + (if fs[i] == PURCHASED then 1 else 0) - (if st == PURCHASED then 1 else 0)
    decreases |fs|
  {
    var n := |fs| - 1;
    var fs' := fs[i := st];
    if i < n {
      LeftUpdate(fs[..n], i, st);
      assert fs'[..n] == fs[..n][i := st];
    } else {
      assert fs'[..n] == fs[..n];
    }
  }

  lemma {:induction false} LeftZero(fs: seq<FileState>)
    ensures Left(fs) <= |fs|
    ensures Left(fs) == 0 <==> forall i | 0 <= i < |fs| :: fs[i] == PURCHASED
    decreases |fs|
  {
    if fs != [] {
      LeftZero(fs[..|fs| - 1]);
      assert forall i | 0 <= i < |fs| - 1 :: fs[..|fs| - 1][i] == fs[i];
    }
  }

  lemma {:induction false} LeftAll(fs: seq<FileState>)
    requires forall i | 0 <= i < |fs| :: fs[i] != PURCHASED
    ensures Left(fs) == |fs|
    decreases |fs|
  {
    if fs != [] { LeftAll(fs[..|fs| - 1]); }
  }

  // ---- One group changes ----

  /** Only group `i` changes, by at most one purchase asked for and at most one answered. */
  ghost predicate OnlyGroup(w: World, w': World, i: nat)
    requires WorldShape(w) && WorldShape(w') && MetaOk(w.s.meta) && i < |w.s.fileState|
  {
    && w'.s.meta == w.s.meta
    && (forall j | 0 <= j < |w.s.fileState| && j != i ::
          w'.s.fileState[j] == w.s.fileState[j] && w'.s.peerGroup[j] == w.s.peerGroup[j] && w'.heard[j] == w.heard[j])
    && (w'.s.asked == w.s.asked || exists q :: w'.s.asked == w.s.asked + [Of(w.s.meta, i, q)])
    && (w'.done == w.done || exists q :: w'.done == w.done + [Of(w.s.meta, i, q)])
  }

  /** Both logs say the same about group `j`. */
  ghost predicate SameLogs(w: World, w': World, j: nat)
    requires HasMeta(w.s.meta, j) && w'.s.meta == w.s.meta
  {
    && Times(w'.s.asked, w.s.meta.KeyGroup[j]) == Times(w.s.asked, w.s.meta.KeyGroup[j])
    && Times(w'.done, w.s.meta.KeyGroup[j]) == Times(w.done, w.s.meta.KeyGroup[j])
    && forall q: NodeID :: var p := Of(w.s.meta, j, q);
         Pending(w'.s.asked, w'.done, p) == Pending(w.s.asked, w.done, p)
  }

  lemma SameGroup(w: World, w': World, j: nat)
    requires WorldShape(w) && WorldShape(w') && j < |w.s.fileState| && HasMeta(w.s.meta, j)
    requires w'.s.meta == w.s.meta && SameLogs(w, w', j) && GroupOk(w, j)
    requires w'.s.fileState[j] == w.s.fileState[j] && w'.s.peerGroup[j] == w.s.peerGroup[j] && w'.heard[j] == w.heard[j]
    ensures GroupOk(w', j)
  {
    hide Times, Pending;
    if w.s.fileState[j] == PURCHASING {
      var peer :| peer in w.s.peerGroup[j] && Sole(w, j, peer);
      assert Sole(w', j, peer);
    }
  }

  lemma OthersLogs(w: World, w': World, i: nat, j: nat)
    requires WorldShape(w) && WorldShape(w') && MetaOk(w.s.meta) && FirstKeysDistinct(w.s.meta)
    requires i < |w.s.fileState| && j < |w.s.fileState| && i != j && OnlyGroup(w, w', i)
    ensures SameLogs(w, w', j)
  {
    hide Times;
    var meta := w.s.meta;
    assert meta.KeyGroup[i] != meta.KeyGroup[j] by { assert meta.KeyGroup[i][0] != meta.KeyGroup[j][0]; }
    if w'.s.asked != w.s.asked {
      var q :| w'.s.asked == w.s.asked + [Of(meta, i, q)];
      TimesSnoc(w.s.asked, Of(meta, i, q), meta.KeyGroup[j]);
    }
    if w'.done != w.done {
      var q :| w'.done == w.done + [Of(meta, i, q)];
      TimesSnoc(w.done, Of(meta, i, q), meta.KeyGroup[j]);
    }
  }

  lemma OthersSame(w: World, w': World, i: nat, j: nat)
    requires WorldShape(w) && WorldShape(w') && MetaOk(w.s.meta) && FirstKeysDistinct(w.s.meta)
    requires i < |w.s.fileState| && j < |w.s.fileState| && i != j
    requires OnlyGroup(w, w', i) && GroupOk(w, j)
    ensures GroupOk(w', j)
  {
    hide SameLogs, GroupOk;
    OthersLogs(w, w', i, j);
    SameGroup(w, w', j);
  }

  lemma OneGroup(w: World, w': World, i: nat)
    requires Inv(w) && WorldShape(w') && i < |w.s.fileState| && OnlyGroup(w, w', i)
    requires GroupOk(w', i)
    ensures GroupsOk(w')
  {
    forall j: nat | j < |w.s.fileState| ensures GroupOk(w', j) {
      if j != i { OthersSame(w, w', i, j); }
    }
    forall p | p in w'.s.asked ensures Known(w'.s.meta, p) {
      if p !in w.s.asked {
        assert p == Of(w.s.meta, i, p.peer);
      }
    }
  }

  lemma {:induction false} SetSize(xs: seq<NodeID>)
    ensures |Elems(xs)| <= |xs|
    decreases |xs|
  {
    if xs == [] {
      assert Elems(xs) == {};
    } else {
      SetSize(xs[1..]);
      assert Elems(xs) == {xs[0]} + Elems(xs[1..]);
    }
  }

  /** Asking for group `i` while it waits for nothing makes the asked peer its one outstanding
      purchase. */
  lemma AskedIsSole(w: World, w': World, i: nat, peer: NodeID)
    requires HasMeta(w.s.meta, i) && w'.s.meta == w.s.meta && Idle(w, i)
    requires w'.s.asked == w.s.asked + [Of(w.s.meta, i, peer)] && w'.done == w.done
    ensures Sole(w', i, peer)
    ensures Times(w'.s.asked, w.s.meta.KeyGroup[i]) == Times(w.s.asked, w.s.meta.KeyGroup[i]) + 1
  {
    var p := Of(w.s.meta, i, peer);
    TimesSnoc(w.s.asked, p, w.s.meta.KeyGroup[i]);
    forall q: NodeID ensures Pending(w'.s.asked, w'.done, Of(w.s.meta, i, q)) == if q == peer then 1 else 0 {
      assert Pending(w.s.asked, w.done, Of(w.s.meta, i, q)) == 0;
      assert Of(w.s.meta, i, q) == p <==> q == peer;
    }
  }

  /** Reading the one outstanding result leaves the group with none. */
  lemma AnsweredIsIdle(w: World, w': World, i: nat, peer: NodeID)
    requires HasMeta(w.s.meta, i) && w'.s.meta == w.s.meta && Sole(w, i, peer)
    requires w'.s.asked == w.s.asked && w'.done == w.done + [Of(w.s.meta, i, peer)]
    ensures Idle(w', i)
    ensures Times(w'.done, w.s.meta.KeyGroup[i]) == Times(w.done, w.s.meta.KeyGroup[i]) + 1
  {
    var p := Of(w.s.meta, i, peer);
    TimesSnoc(w.done, p, w.s.meta.KeyGroup[i]);
    forall q: NodeID ensures Pending(w'.s.asked, w'.done, Of(w.s.meta, i, q)) == 0 {
      assert Pending(w.s.asked, w.done, Of(w.s.meta, i, q)) == if q == peer then 1 else 0;
      assert Of(w.s.meta, i, q) == p <==> q == peer;
    }
  }

  // ---- Tracker replies ----

  function Heard(w: World, i: nat, peers: seq<NodeID>): (w': World)
    requires WorldShape(w) && i < |w.s.fileState|
    ensures WorldShape(w') && w'.s.meta == w.s.meta
  {
    World(Hear(w.s, i, peers), w.done, w.heard[i := w.heard[i] + |peers|])
  }

  lemma SameWaiting(w: World, w': World, i: nat)
    requires HasMeta(w.s.meta, i) && w'.s.meta == w.s.meta && w'.s.asked == w.s.asked && w'.done == w.done
    ensures Idle(w', i) <==> Idle(w, i)
    ensures forall peer :: Sole(w', i, peer) <==> Sole(w, i, peer)
  {
  }

  lemma MoreCandidates(a: set<NodeID>, peers: seq<NodeID>)
    ensures |a + Elems(peers)| <= |a| + |peers|
  {
    SetSize(peers);
    var b := Elems(peers);
    assert a + b == a + (b - a) && |a + (b - a)| == |a| + |b - a|;
    assert b == (b - a) + (b * a) && |(b - a) + (b * a)| == |b - a| + |b * a|;
  }

  lemma HearGroup(w: World, i: nat, peers: seq<NodeID>)
    requires WorldShape(w) && i < |w.s.fileState| && HasMeta(w.s.meta, i) && GroupOk(w, i) && peers != []
    ensures GroupOk(Heard(w, i, peers), i)
  {
    hide Times, Pending, Idle, Sole;
    var w' := Heard(w, i, peers);
    MoreCandidates(w.s.peerGroup[i], peers);
    assert w'.s.peerGroup[i] == w.s.peerGroup[i] + Elems(peers);
    if w.s.fileState[i] == UNKNOWN {
      AskedIsSole(w, w', i, peers[0]);
      assert peers[0] in w'.s.peerGroup[i];
    } else {
      SameWaiting(w, w', i);
      if w.s.fileState[i] == PURCHASING {
        var peer :| peer in w.s.peerGroup[i] && Sole(w, i, peer);
        assert peer in w'.s.peerGroup[i];
      }
    }
  }

  lemma HearKeeps(w: World, i: nat, peers: seq<NodeID>)
    requires Inv(w) && i < |w.s.fileState|
    ensures Inv(Heard(w, i, peers)) && Heard(w, i, peers).s.closed == w.s.closed
  {
    var w' := Heard(w, i, peers);
    if peers != [] {
      assert GroupOk(w, i);
      HearGroup(w, i, peers);
      HearIsLocal(w, i, peers);
      HearCounts(w, i, peers);
      hide GroupOk, GroupsOk, CountsOk, OnlyGroup, FirstKeysDistinct, Heard;
      OneGroup(w, w', i);
    } else {
      assert w' == w;
    }
  }

  lemma HearCounts(w: World, i: nat, peers: seq<NodeID>)
    requires WorldShape(w) && MetaOk(w.s.meta) && i < |w.s.fileState| && CountsOk(w) && !w.s.crashed
    ensures CountsOk(Heard(w, i, peers)) && !Heard(w, i, peers).s.crashed
    ensures Heard(w, i, peers).s.closed == w.s.closed
  {
    LeftUpdate(w.s.fileState, i, PURCHASING);
  }

  lemma HearIsLocal(w: World, i: nat, peers: seq<NodeID>)
    requires WorldShape(w) && MetaOk(w.s.meta) && i < |w.s.fileState|
    ensures OnlyGroup(w, Heard(w, i, peers), i)
  {
  }

  lemma {:induction false} ReplyKeeps(w: World, reply: seq<seq<NodeID>>, i: nat)
    requires Inv(w) && i <= |reply| == |w.s.fileState|
    ensures Inv(World(HearAll(w.s, reply, i), w.done, HeardMore(w.heard, reply, i)))
    ensures HearAll(w.s, reply, i).closed == w.s.closed
    decreases |reply| - i
  {
    hide GroupsOk, CountsOk, FirstKeysDistinct, Hear;
    if i < |reply| {
      HearKeeps(w, i, reply[i]);
      ReplyKeeps(Heard(w, i, reply[i]), reply, i + 1);
    }
  }

  // ---- Results ----

  /** With distinct first keys the search finds the group a purchase was made for. */
  lemma {:induction false} FindsGroup(groups: seq<seq<Key>>, i: nat, k: nat)
    requires k <= i < |groups|
    requires forall j | 0 <= j < |groups| :: groups[j] != []
    requires forall j | 0 <= j < i :: groups[j][0] != groups[i][0]
    ensures Find(groups, groups[i][0], k) == Found(i)
    decreases i - k
  {
    if k < i { FindsGroup(groups, i, k + 1); }
  }

  /** An outstanding purchase belongs to a PURCHASING group and is its only one. */
  lemma PendingGroup(w: World, p: Purchase) returns (i: nat)
    requires Inv(w) && Pending(w.s.asked, w.done, p) > 0
    ensures i < |w.s.fileState| && p == Of(w.s.meta, i, p.peer)
    ensures w.s.fileState[i] == PURCHASING && p.peer in w.s.peerGroup[i] && Sole(w, i, p.peer)
    ensures Find(w.s.meta.KeyGroup, p.keys[0], 0) == Found(i)
  {
    assert p in w.s.asked;
    i :| i < |w.s.meta.KeyGroup| && p == Of(w.s.meta, i, p.peer);
    assert GroupOk(w, i);
    assert !Idle(w, i);
    var peer :| peer in w.s.peerGroup[i] && Sole(w, i, peer);
    assert p.peer == peer;
    FindsGroup(w.s.meta.KeyGroup, i, 0);
  }

  function Settled(w: World, i: nat, p: Purchase, ok: bool, next: NodeID): (w': World)
    requires WorldShape(w) && i < |w.s.fileState|
    ensures WorldShape(w') && w'.s.meta == w.s.meta
  {
    World(Settle(w.s, i, p.peer, ok, next), w.done + [p], w.heard)
  }

  lemma SettleGroup(w: World, i: nat, peer: NodeID, ok: bool, next: NodeID)
    requires WorldShape(w) && i < |w.s.fileState| && HasMeta(w.s.meta, i) && Paid(w, i)
    requires w.s.fileState[i] == PURCHASING && peer in w.s.peerGroup[i] && Sole(w, i, peer)
    requires var left := w.s.peerGroup[i] - {peer}; ok || left == {} || next in left
    ensures GroupOk(Settled(w, i, Of(w.s.meta, i, peer), ok, next), i)
  {
    hide Times, Pending, Idle, Sole;
    var p := Of(w.s.meta, i, peer);
    var w' := Settled(w, i, p, ok, next);
    var mid := World(w.s, w.done + [p], w.heard);
    AnsweredIsIdle(w, mid, i, peer);
    var left := w.s.peerGroup[i] - {peer};
    assert |left| == |w.s.peerGroup[i]| - 1;
    assert w'.s.peerGroup[i] == left;
    if ok || left == {} {
      SameWaiting(mid, w', i);
    } else {
      AskedIsSole(mid, w', i, next);
    }
  }

  lemma SettleIsLocal(w: World, i: nat, peer: NodeID, ok: bool, next: NodeID)
    requires WorldShape(w) && MetaOk(w.s.meta) && i < |w.s.fileState|
    ensures OnlyGroup(w, Settled(w, i, Of(w.s.meta, i, peer), ok, next), i)
  {
  }

  lemma SettleKeeps(w: World, i: nat, peer: NodeID, ok: bool, next: NodeID)
    requires Inv(w) && !w.s.closed && i < |w.s.fileState|
    requires w.s.fileState[i] == PURCHASING && peer in w.s.peerGroup[i] && Sole(w, i, peer)
    requires var left := w.s.peerGroup[i] - {peer}; ok || left == {} || next in left
    ensures var w' := Settled(w, i, Of(w.s.meta, i, peer), ok, next);
      && Inv(w')
      && (forall j | 0 <= j < |w.s.fileState| && w.s.fileState[j] == PURCHASED :: w'.s.fileState[j] == PURCHASED)
  {
    var w' := Settled(w, i, Of(w.s.meta, i, peer), ok, next);
    assert GroupOk(w, i);
    SettleGroup(w, i, peer, ok, next);
    SettleIsLocal(w, i, peer, ok, next);
    SettleCounts(w, i, peer, ok, next);
    hide GroupOk, GroupsOk, CountsOk, OnlyGroup, FirstKeysDistinct, Sole, Settled;
    OneGroup(w, w', i);
  }

  lemma SettleCounts(w: World, i: nat, peer: NodeID, ok: bool, next: NodeID)
    requires WorldShape(w) && MetaOk(w.s.meta) && i < |w.s.fileState| && CountsOk(w) && !w.s.crashed && !w.s.closed
    requires w.s.fileState[i] == PURCHASING
    ensures var w' := Settled(w, i, Of(w.s.meta, i, peer), ok, next);
      && CountsOk(w') && !w'.s.crashed && !w'.s.closed
      && forall j | 0 <= j < |w.s.fileState| && w.s.fileState[j] == PURCHASED :: w'.s.fileState[j] == PURCHASED
  {
    var w' := Settled(w, i, Of(w.s.meta, i, peer), ok, next);
    assert w'.s.fileState == w.s.fileState[i := w'.s.fileState[i]];
    LeftUpdate(w.s.fileState, i, w'.s.fileState[i]);
    LeftZero(w.s.fileState);
    ResidueIs(Left(w.s.fileState) - 1, Left(w.s.fileState) - 1, 0);
  }

  /** Every legal step keeps the invariant, and a PURCHASED group stays PURCHASED. */
  lemma StepKeeps(w: World, e: PurchaseEvent)
    requires Inv(w) && Legal(w, e)
    ensures Inv(Step(w, e))
    ensures forall j | 0 <= j < |w.s.fileState| && w.s.fileState[j] == PURCHASED ::
              Step(w, e).s.fileState[j] == PURCHASED
  {
    if !w.s.closed {
      match e {
        case Reply(reply) =>
          if |reply| == |w.heard| {
            ReplyKeeps(w, reply, 0);
            StaysPurchased(w.s, reply, 0);
          }
        case Result(p, ok, next) =>
          var i := PendingGroup(w, p);
          SettleKeeps(w, i, p.peer, ok, next);
          assert Step(w, e) == Settled(w, i, p, ok, next);
        case Close =>
          CloseKeeps(w);
      }
    }
  }

  lemma CloseKeeps(w: World)
    requires Inv(w) && !w.s.closed
    ensures Inv(Step(w, Close))
  {
    var w' := Step(w, Close);
    forall j: nat | j < |w.s.fileState| ensures GroupOk(w', j) {
      assert SameLogs(w, w', j);
      SameGroup(w, w', j);
    }
  }

  lemma {:induction false} StaysPurchased(s: Session, reply: seq<seq<NodeID>>, i: nat)
    requires Shape(s) && i <= |reply| == |s.fileState|
    ensures forall j | 0 <= j < |s.fileState| && s.fileState[j] == PURCHASED ::
              HearAll(s, reply, i).fileState[j] == PURCHASED
    decreases |reply| - i
  {
    if i < |reply| && !s.crashed { StaysPurchased(Hear(s, i, reply[i]), reply, i + 1); }
  }

  // ---- Every run ----

  lemma BegunInv(meta: FileMeta)
    requires MetaOk(meta) && FirstKeysDistinct(meta)
    ensures Inv(Begun(meta))
  {
    var w := Begun(meta);
    LeftAll(w.s.fileState);
    forall i: nat | i < |w.s.fileState| ensures GroupOk(w, i) {
      assert Idle(w, i);
    }
    assert w.s.announced == [];
  }

  lemma {:induction false} RunKeeps(w: World, es: seq<PurchaseEvent>)
    requires Inv(w) && LegalRun(w, es)
    ensures Inv(Run(w, es))
    ensures forall j | 0 <= j < |w.s.fileState| && w.s.fileState[j] == PURCHASED ::
              Run(w, es).s.fileState[j] == PURCHASED
    decreases |es|
  {
    if es != [] {
      StepKeeps(w, es[0]);
      hide Inv, Step, Legal;
      RunKeeps(Step(w, es[0]), es[1..]);
    }
  }

  /** For groups with distinct first keys, in every run: the counter is the number of groups not
      PURCHASED; a group has one outstanding purchase, from one of its candidates, exactly while it
      is PURCHASING; an UNKNOWN group has no candidate left; purchases never exceed the entries
      trackers sent; and success is announced once, when all groups are PURCHASED. */
  lemma PurchasesOverEveryRun(meta: FileMeta, es: seq<PurchaseEvent>)
    requires MetaOk(meta) && FirstKeysDistinct(meta) && LegalRun(Begun(meta), es)
    ensures var w := Run(Begun(meta), es);
      && Inv(w)
      && w.s.unpurchasedCnt == Left(w.s.fileState)
      && (forall i: nat | i < |meta.KeyGroup| ::
            && (w.s.fileState[i] == PURCHASING <==> !Idle(w, i))
            && Times(w.s.asked, meta.KeyGroup[i]) <= w.heard[i])
      && (true in w.s.announced <==>
            meta.KeyGroup != [] && forall i | 0 <= i < |meta.KeyGroup| :: w.s.fileState[i] == PURCHASED)
      && multiset(w.s.announced)[true] <= 1
  {
    BegunInv(meta);
    RunKeeps(Begun(meta), es);
    var w := Run(Begun(meta), es);
    LeftZero(w.s.fileState);
    forall i: nat | i < |meta.KeyGroup|
      ensures w.s.fileState[i] == PURCHASING <==> !Idle(w, i)
      ensures Times(w.s.asked, meta.KeyGroup[i]) <= w.heard[i]
    {
      assert GroupOk(w, i);
      PaidFor(w, i);
    }
  }

  lemma PaidFor(w: World, i: nat)
    requires WorldShape(w) && i < |w.s.fileState| && HasMeta(w.s.meta, i) && GroupOk(w, i)
    ensures w.s.fileState[i] == PURCHASING <==> !Idle(w, i)
    ensures Times(w.s.asked, w.s.meta.KeyGroup[i]) <= w.heard[i]
  {
    if w.s.fileState[i] == PURCHASING {
      var peer :| peer in w.s.peerGroup[i] && Sole(w, i, peer);
      assert Pending(w.s.asked, w.done, Of(w.s.meta, i, peer)) == 1;
      assert |w.s.peerGroup[i]| >= 1;
    }
  }
}
