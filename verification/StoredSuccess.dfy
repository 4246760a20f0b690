/**
  What a successful parallel purchase leaves in the store.

  The whole purchase: the parallel session, one purchase session for each purchase it asked for and
  that did not report yet, the reports on their way, and the store. Trackers and peers may send
  anything.
*/
module StoredSuccess {
  import opened Words
  import opened Blinding
  import opened Names
  import opened FileIndex
  import opened ParallelPurchase
  import opened PurchaseStore
  import Worker

  datatype Report = Report(p: Purchase, ok: bool)

  /** `crashed` records a panic of a purchase session. */
  datatype Sys = Sys(w: World, store: Index, sent: multiset<Report>, crashed: bool)

  /** `full` says that every accepted pack has all requested keys. */
  datatype Env = Env(H: HashFn, owner: NodeID, full: bool)

  datatype SysEvent =
    | Tracker(peerGroup: seq<seq<NodeID>>)
    | Data(p: Purchase, from: NodeID, pack: DataPack)
    | Expired(p: Purchase)
    | Read(p: Purchase, ok: bool, next: NodeID)
    | Stopped
    | Foreign(k: Key, v: Bytes, owner: NodeID)

  function SentFor(sent: multiset<Report>, p: Purchase): nat { sent[Report(p, true)] + sent[Report(p, false)] }

  /** A purchase session for `p` runs: it was asked for and has not reported. */
  predicate Live(s: Sys, p: Purchase) {
    Pending(s.w.s.asked, s.w.done, p) > SentFor(s.sent, p)
  }

  function OnData(env: Env, s: Sys, p: Purchase, from: NodeID, pack: DataPack): Sys {
    if from != p.peer then s
    else match OnPack(s.store, p, pack, env.H, env.owner)
      case Panicked => s.(crashed := true)
      case Finished(store, ok) => s.(store := store, sent := s.sent + multiset{Report(p, ok)})
  }

  function SysStep(env: Env, s: Sys, e: SysEvent): (s': Sys)
    requires WorldShape(s.w)
    ensures WorldShape(s'.w) && s'.w.s.meta == s.w.s.meta
  {
    if s.crashed then s
    else match e
      case Tracker(reply) => s.(w := Step(s.w, Reply(reply)))
      case Data(p, from, pack) => OnData(env, s, p, from, pack)
      case Expired(p) => s.(sent := s.sent + multiset{Report(p, false)})
      case Read(p, ok, next) => s.(w := Step(s.w, Result(p, ok, next)), sent := s.sent - multiset{Report(p, ok)})
      case Stopped => s.(w := Step(s.w, Close))
      case Foreign(k, v, owner) => s.(store := Put(s.store, k, v, owner))
  }

  /** Sessions act while they run, reports are read once and while somebody reads, and nobody else
      writes the keys that are being purchased. */
  predicate SysLegal(env: Env, s: Sys, e: SysEvent)
    requires WorldShape(s.w)
  {
    match e
    case Tracker(_) => true
    case Data(p, from, pack) => Live(s, p) && (env.full ==> pack.Keys <= p.keys ==> |pack.Keys| == |p.keys|)
    case Expired(p) => Live(s, p)
    case Read(p, ok, next) =>
      !s.w.s.closed && Report(p, ok) in s.sent && Legal(s.w, Result(p, ok, next))
    case Stopped => true
    case Foreign(k, _, _) => forall i | 0 <= i < |s.w.s.meta.KeyGroup| :: k !in s.w.s.meta.KeyGroup[i]
  }

  predicate SysLegalRun(env: Env, s: Sys, es: seq<SysEvent>)
    requires WorldShape(s.w)
    decreases |es|
  {
    es == [] || (SysLegal(env, s, es[0]) && SysLegalRun(env, SysStep(env, s, es[0]), es[1..]))
  }

  function SysRun(env: Env, s: Sys, es: seq<SysEvent>): (s': Sys)
    requires WorldShape(s.w)
    ensures WorldShape(s'.w) && s'.w.s.meta == s.w.s.meta
    decreases |es|
  {
    if es == [] then s else SysRun(env, SysStep(env, s, es[0]), es[1..])
  }

  // ---- The invariant ----

  /** No key occurs twice, in one group or in two. */
  predicate KeysDisjoint(meta: FileMeta) {
    && (forall i | 0 <= i < |meta.KeyGroup| :: NoRepeats(meta.KeyGroup[i]))
    && forall i, j, k | 0 <= i < j < |meta.KeyGroup| && k in meta.KeyGroup[i] :: k !in meta.KeyGroup[j]
  }

  ghost predicate Stored(env: Env, db: map<Key, Bytes>, keys: seq<Key>, h: HashVal) {
    exists n: nat :: StoredUpTo(db, keys, n, env.H, h) && (env.full ==> n == |keys|)
  }

  /** A purchase of group `i` succeeded, and the session knows or will be told. */
  ghost predicate Bought(s: Sys, i: nat)
    requires WorldShape(s.w) && i < |s.w.s.fileState| && HasMeta(s.w.s.meta, i)
  {
    s.w.s.fileState[i] == PURCHASED || exists q :: Report(Of(s.w.s.meta, i, q), true) in s.sent
  }

  /** Each report is of a purchase that waits for it; the keys are absent until the group is bought
      and stored with the right hash from then on. */
  ghost predicate SaleOk(env: Env, s: Sys, i: nat)
    requires WorldShape(s.w) && i < |s.w.s.fileState| && HasMeta(s.w.s.meta, i)
  {
    var keys := s.w.s.meta.KeyGroup[i];
    && (forall q: NodeID :: var p := Of(s.w.s.meta, i, q);
          SentFor(s.sent, p) <= Pending(s.w.s.asked, s.w.done, p))
    && if Bought(s, i) then Stored(env, s.store.db, keys, s.w.s.meta.Hashes[i]) else Absent(s.store.db, keys)
  }

  ghost predicate SysInv(env: Env, s: Sys) {
    && Inv(s.w) && KeysDisjoint(s.w.s.meta)
    && forall i: nat | i < |s.w.s.fileState| :: SaleOk(env, s, i)
  }

  // ---- What a step does to a group it does not concern ----

  /** The store only grows outside of `keys`. */
  ghost predicate GrowsOutside(db: map<Key, Bytes>, db': map<Key, Bytes>, keys: seq<Key>) {
    && (forall k | k in db :: k in db' && db'[k] == db[k])
    && forall k | k in keys :: k in db <==> k in db'
  }

  lemma {:induction false} FetchedSame(db: map<Key, Bytes>, db': map<Key, Bytes>, keys: seq<Key>)
    requires forall k | k in keys :: k in db && k in db' && db'[k] == db[k]
    ensures Fetched(db', keys) == Fetched(db, keys)
    decreases |keys|
  {
    if keys != [] {
      assert keys[|keys| - 1] in keys;
      FetchedSame(db, db', keys[..|keys| - 1]);
    }
  }

  lemma StoredStays(env: Env, db: map<Key, Bytes>, db': map<Key, Bytes>, keys: seq<Key>, h: HashVal)
    requires forall k | k in db :: k in db' && db'[k] == db[k]
    ensures Stored(env, db, keys, h) ==> Stored(env, db', keys, h)
  {
    if Stored(env, db, keys, h) {
      var n: nat :| StoredUpTo(db, keys, n, env.H, h) && (env.full ==> n == |keys|);
      FetchedSame(db, db', keys[..n]);
      assert StoredUpTo(db', keys, n, env.H, h);
    }
  }

  /** Group `i` keeps its promise if its logs only gained purchases, its state and reports are the
      same, and its keys were not written. */
  lemma SaleStays(env: Env, s: Sys, s': Sys, i: nat)
    requires WorldShape(s.w) && WorldShape(s'.w) && s'.w.s.meta == s.w.s.meta
    requires i < |s.w.s.fileState| && HasMeta(s.w.s.meta, i) && SaleOk(env, s, i)
    requires forall q: NodeID :: var p := Of(s.w.s.meta, i, q);
      Pending(s'.w.s.asked, s'.w.done, p) >= Pending(s.w.s.asked, s.w.done, p)
    requires forall q: NodeID, ok :: var r := Report(Of(s.w.s.meta, i, q), ok); s'.sent[r] == s.sent[r]
    requires s'.w.s.fileState[i] == PURCHASED <==> s.w.s.fileState[i] == PURCHASED
    requires GrowsOutside(s.store.db, s'.store.db, s.w.s.meta.KeyGroup[i])
    ensures SaleOk(env, s', i)
  {
    hide Pending, Stored, Absent;
    var keys := s.w.s.meta.KeyGroup[i];
    StoredStays(env, s.store.db, s'.store.db, keys, s.w.s.meta.Hashes[i]);
    assert Absent(s.store.db, keys) ==> Absent(s'.store.db, keys) by { AbsentStays(s.store.db, s'.store.db, keys); }
    forall q: NodeID ensures var p := Of(s.w.s.meta, i, q);
      SentFor(s'.sent, p) <= Pending(s'.w.s.asked, s'.w.done, p)
    {
      var p := Of(s.w.s.meta, i, q);
      assert SentFor(s'.sent, p) == SentFor(s.sent, p);
    }
    assert Bought(s', i) <==> Bought(s, i) by {
      forall q: NodeID ensures
        Report(Of(s.w.s.meta, i, q), true) in s'.sent <==> Report(Of(s.w.s.meta, i, q), true) in s.sent
      {
        assert s'.sent[Report(Of(s.w.s.meta, i, q), true)] == s.sent[Report(Of(s.w.s.meta, i, q), true)];
      }
    }
  }

  lemma AbsentStays(db: map<Key, Bytes>, db': map<Key, Bytes>, keys: seq<Key>)
    requires GrowsOutside(db, db', keys)
    ensures Absent(db, keys) ==> Absent(db', keys)
  {
  }

  lemma GroupsDiffer(s: Sys, i: nat, j: nat)
    requires Inv(s.w) && i < |s.w.s.fileState| && j < |s.w.s.fileState| && i != j
    ensures forall q, r :: Of(s.w.s.meta, i, q) != Of(s.w.s.meta, j, r)
  {
    assert s.w.s.meta.KeyGroup[i][0] != s.w.s.meta.KeyGroup[j][0];
  }

  // ---- Tracker replies ----

  lemma AskGrows(s: Session, i: nat, peers: seq<NodeID>, p: Purchase)
    requires Shape(s) && i < |s.fileState|
    ensures multiset(Hear(s, i, peers).asked)[p] >= multiset(s.asked)[p]
    ensures forall j | 0 <= j < |s.fileState| ::
              Hear(s, i, peers).fileState[j] == PURCHASED <==> s.fileState[j] == PURCHASED
  {
  }

  lemma {:induction false} ReplyGrows(s: Session, reply: seq<seq<NodeID>>, i: nat, p: Purchase)
    requires Shape(s) && i <= |reply| == |s.fileState|
    ensures var s' := HearAll(s, reply, i);
      && multiset(s'.asked)[p] >= multiset(s.asked)[p]
      && forall j | 0 <= j < |s.fileState| :: s'.fileState[j] == PURCHASED <==> s.fileState[j] == PURCHASED
    decreases |reply| - i
  {
    if i < |reply| && !s.crashed {
      AskGrows(s, i, reply[i], p);
      ReplyGrows(Hear(s, i, reply[i]), reply, i + 1, p);
    }
  }

  /** Replies and the end of the session leave the reports and the store alone. */
  lemma QuietStep(env: Env, s: Sys, e: PurchaseEvent)
    requires SysInv(env, s) && !e.Result?
    ensures SysInv(env, s.(w := Step(s.w, e)))
  {
    StepKeeps(s.w, e);
    hide Inv;
    var s' := s.(w := Step(s.w, e));
    forall i: nat | i < |s.w.s.fileState| ensures SaleOk(env, s', i) {
      assert SaleOk(env, s, i);
      var p0 := Of(s.w.s.meta, i, 0);
      QuietGrows(s.w, e, p0);
      forall q: NodeID ensures var p := Of(s.w.s.meta, i, q);
        Pending(s'.w.s.asked, s'.w.done, p) >= Pending(s.w.s.asked, s.w.done, p)
      {
        QuietGrows(s.w, e, Of(s.w.s.meta, i, q));
      }
      hide SaleOk, Step, Pending;
      SaleStays(env, s, s', i);
    }
  }

  lemma QuietGrows(w: World, e: PurchaseEvent, p: Purchase)
    requires WorldShape(w) && !e.Result?
    ensures Pending(Step(w, e).s.asked, Step(w, e).done, p) >= Pending(w.s.asked, w.done, p)
    ensures forall j | 0 <= j < |w.s.fileState| ::
              Step(w, e).s.fileState[j] == PURCHASED <==> w.s.fileState[j] == PURCHASED
  {
    if e.Reply? && |e.peerGroup| == |w.heard| { ReplyGrows(w.s, e.peerGroup, 0, p); }
  }

  // ---- Purchase sessions ----

  /** A running purchase session belongs to a group that is not bought, whose keys are absent, and
      nothing is reported for it. */
  lemma LiveGroup(env: Env, s: Sys, p: Purchase) returns (i: nat)
    requires SysInv(env, s) && Live(s, p)
    ensures i < |s.w.s.fileState| && p == Of(s.w.s.meta, i, p.peer)
    ensures forall q: NodeID, ok :: Report(Of(s.w.s.meta, i, q), ok) !in s.sent
    ensures s.w.s.fileState[i] != PURCHASED
    ensures Absent(s.store.db, s.w.s.meta.KeyGroup[i])
    ensures Pending(s.w.s.asked, s.w.done, p) == 1
  {
    i := PendingGroup(s.w, p);
    assert SaleOk(env, s, i);
    hide Inv, KeysDisjoint, Stored, Absent;
    forall q: NodeID, ok ensures Report(Of(s.w.s.meta, i, q), ok) !in s.sent {
      var r := Of(s.w.s.meta, i, q);
      assert Pending(s.w.s.asked, s.w.done, r) == if q == p.peer then 1 else 0;
      assert SentFor(s.sent, r) == 0;
    }
    assert !Bought(s, i);
  }

  /** A session that ends reports once; the other groups do not notice. */
  lemma EndKeepsOthers(env: Env, s: Sys, p: Purchase, i: nat, ok: bool, store: Index, j: nat)
    requires SysInv(env, s) && i < |s.w.s.fileState| && j < |s.w.s.fileState| && i != j
    requires p == Of(s.w.s.meta, i, p.peer)
    requires GrowsOutside(s.store.db, store.db, s.w.s.meta.KeyGroup[j])
    ensures SaleOk(env, s.(store := store, sent := s.sent + multiset{Report(p, ok)}), j)
  {
    assert SaleOk(env, s, j);
    GroupsDiffer(s, i, j);
    hide Inv, SaleOk;
    SaleStays(env, s, s.(store := store, sent := s.sent + multiset{Report(p, ok)}), j);
  }

  /** The group whose session ended has one report and, if it succeeded, its data. */
  lemma EndKeepsOwn(env: Env, s: Sys, p: Purchase, i: nat, ok: bool, store: Index)
    requires WorldShape(s.w) && i < |s.w.s.fileState| && HasMeta(s.w.s.meta, i)
    requires p == Of(s.w.s.meta, i, p.peer) && s.w.s.fileState[i] != PURCHASED
    requires forall q: NodeID, ok :: Report(Of(s.w.s.meta, i, q), ok) !in s.sent
    requires Pending(s.w.s.asked, s.w.done, p) == 1
    requires forall q: NodeID :: Pending(s.w.s.asked, s.w.done, Of(s.w.s.meta, i, q)) >= 0
    requires if ok then Stored(env, store.db, p.keys, p.hash) else Absent(store.db, p.keys)
    ensures SaleOk(env, s.(store := store, sent := s.sent + multiset{Report(p, ok)}), i)
  {
    hide Pending, Stored, Absent;
    var s' := s.(store := store, sent := s.sent + multiset{Report(p, ok)});
    forall q: NodeID ensures var r := Of(s.w.s.meta, i, q);
      SentFor(s'.sent, r) <= Pending(s'.w.s.asked, s'.w.done, r)
    {
      var r := Of(s.w.s.meta, i, q);
      assert Report(r, true) !in s.sent && Report(r, false) !in s.sent;
      assert r == p <==> q == p.peer;
    }
    if ok {
      assert Report(p, true) in s'.sent;
    } else {
      forall q: NodeID ensures Report(Of(s.w.s.meta, i, q), true) !in s'.sent {
        assert Report(Of(s.w.s.meta, i, q), true) !in s.sent;
      }
    }
  }

  lemma NotNegative(s: Sys, i: nat)
    requires Inv(s.w) && i < |s.w.s.fileState|
    ensures forall q: NodeID :: Pending(s.w.s.asked, s.w.done, Of(s.w.s.meta, i, q)) >= 0
  {
    assert GroupOk(s.w, i);
  }

  lemma EndKeeps(env: Env, s: Sys, p: Purchase, ok: bool, store: Index)
    requires SysInv(env, s) && Live(s, p)
    requires if ok then Stored(env, store.db, p.keys, p.hash) else store == s.store
    requires forall k | k in s.store.db :: k in store.db && store.db[k] == s.store.db[k]
    requires forall k | k !in p.keys :: k in store.db <==> k in s.store.db
    ensures SysInv(env, s.(store := store, sent := s.sent + multiset{Report(p, ok)}))
  {
    var i := LiveGroup(env, s, p);
    NotNegative(s, i);
    EndKeepsOwn(env, s, p, i, ok, store);
    var s' := s.(store := store, sent := s.sent + multiset{Report(p, ok)});
    hide SaleOk;
    forall j: nat | j < |s.w.s.fileState| ensures SaleOk(env, s', j) {
      if j != i {
        KeysApart(s.w.s.meta, i, j);
        EndKeepsOthers(env, s, p, i, ok, store, j);
      }
    }
  }

  lemma KeysApart(meta: FileMeta, i: nat, j: nat)
    requires KeysDisjoint(meta) && i < |meta.KeyGroup| && j < |meta.KeyGroup| && i != j
    ensures forall k | k in meta.KeyGroup[j] :: k !in meta.KeyGroup[i]
  {
  }

  lemma DataKeeps(env: Env, s: Sys, p: Purchase, from: NodeID, pack: DataPack)
    requires SysInv(env, s) && SysLegal(env, s, Data(p, from, pack))
    ensures SysInv(env, OnData(env, s, p, from, pack))
  {
    if from == p.peer {
      var o := OnPack(s.store, p, pack, env.H, env.owner);
      if o.Finished? {
        if o.ok {
          var i := LiveGroup(env, s, p);
          assert NoRepeats(p.keys);
          SuccessStores(s.store, p, pack, env.H, env.owner);
          CheckExact(pack, p.keys);
          assert Stored(env, o.s.db, p.keys, p.hash);
          forall k | k in s.store.db ensures k in o.s.db && o.s.db[k] == s.store.db[k] {
            PutAllKeeps(s.store, pack, 0, env.owner, k);
          }
        }
        hide SysInv, OnPack, Stored;
        EndKeeps(env, s, p, o.ok, o.s);
      } else {
        CrashKeeps(env, s);
      }
    }
  }

  lemma CrashKeeps(env: Env, s: Sys)
    requires SysInv(env, s)
    ensures SysInv(env, s.(crashed := true))
  {
    var s' := s.(crashed := true);
    forall i: nat | i < |s.w.s.fileState| ensures SaleOk(env, s', i) {
      assert SaleOk(env, s, i);
      hide SaleOk, Inv;
      SaleStays(env, s, s', i);
    }
  }

  lemma ForeignKeeps(env: Env, s: Sys, k: Key, v: Bytes, owner: NodeID)
    requires SysInv(env, s) && SysLegal(env, s, Foreign(k, v, owner))
    ensures SysInv(env, s.(store := Put(s.store, k, v, owner)))
  {
    var s' := s.(store := Put(s.store, k, v, owner));
    forall i: nat | i < |s.w.s.fileState| ensures SaleOk(env, s', i) {
      assert SaleOk(env, s, i);
      assert k !in s.w.s.meta.KeyGroup[i];
      hide SaleOk, Inv;
      SaleStays(env, s, s', i);
    }
  }

  // ---- The session reads a report ----

  lemma ReadKeepsOthers(env: Env, s: Sys, p: Purchase, ok: bool, next: NodeID, i: nat, j: nat)
    requires SysInv(env, s) && !s.w.s.closed && i < |s.w.s.fileState| && j < |s.w.s.fileState| && i != j
    requires p == Of(s.w.s.meta, i, p.peer)
    ensures SaleOk(env, s.(w := Settled(s.w, i, p, ok, next), sent := s.sent - multiset{Report(p, ok)}), j)
  {
    var s' := s.(w := Settled(s.w, i, p, ok, next), sent := s.sent - multiset{Report(p, ok)});
    assert SaleOk(env, s, j);
    GroupsDiffer(s, i, j);
    SettleIsLocal(s.w, i, p.peer, ok, next);
    OthersLogs(s.w, s'.w, i, j);
    hide Inv, SaleOk, Settled, Times, Pending;
    SaleStays(env, s, s', j);
  }

  lemma ReadKeepsOwn(env: Env, s: Sys, p: Purchase, ok: bool, next: NodeID, i: nat)
    requires WorldShape(s.w) && i < |s.w.s.fileState| && HasMeta(s.w.s.meta, i) && SaleOk(env, s, i)
    requires p == Of(s.w.s.meta, i, p.peer) && s.w.s.fileState[i] == PURCHASING && Sole(s.w, i, p.peer)
    requires Report(p, ok) in s.sent
    requires var w' := Settled(s.w, i, p, ok, next);
      forall q: NodeID :: Pending(w'.s.asked, w'.done, Of(s.w.s.meta, i, q)) >= 0
    ensures SaleOk(env, s.(w := Settled(s.w, i, p, ok, next), sent := s.sent - multiset{Report(p, ok)}), i)
  {
    hide Pending, Stored, Absent;
    var s' := s.(w := Settled(s.w, i, p, ok, next), sent := s.sent - multiset{Report(p, ok)});
    assert SentFor(s.sent, p) == 1;
    forall q: NodeID ensures SentFor(s'.sent, Of(s.w.s.meta, i, q)) == 0 {
      var r := Of(s.w.s.meta, i, q);
      assert SentFor(s.sent, r) <= Pending(s.w.s.asked, s.w.done, r);
      assert r == p <==> q == p.peer;
    }
    assert Bought(s, i) <==> ok by {
      forall q: NodeID | Report(Of(s.w.s.meta, i, q), true) in s.sent ensures ok {
        assert SentFor(s'.sent, Of(s.w.s.meta, i, q)) == 0;
      }
    }
    assert s'.w.s.fileState[i] == PURCHASED <==> ok;
    forall q: NodeID ensures Report(Of(s.w.s.meta, i, q), true) !in s'.sent {
      assert SentFor(s'.sent, Of(s.w.s.meta, i, q)) == 0;
    }
  }

  lemma ReadKeeps(env: Env, s: Sys, p: Purchase, ok: bool, next: NodeID)
    requires SysInv(env, s) && !s.crashed && SysLegal(env, s, Read(p, ok, next))
    ensures SysInv(env, SysStep(env, s, Read(p, ok, next)))
  {
    var e := Result(p, ok, next);
    var i := PendingGroup(s.w, p);
    StepKeeps(s.w, e);
    var s' := SysStep(env, s, Read(p, ok, next));
    assert s'.w == Settled(s.w, i, p, ok, next);
    NotNegative(s', i);
    assert SaleOk(env, s, i);
    ReadKeepsOwn(env, s, p, ok, next, i);
    hide SaleOk, Inv, Settled;
    forall j: nat | j < |s.w.s.fileState| ensures SaleOk(env, s', j) {
      if j != i { ReadKeepsOthers(env, s, p, ok, next, i, j); }
    }
  }

  // ---- Every run ----

  lemma SysStepKeeps(env: Env, s: Sys, e: SysEvent)
    requires SysInv(env, s) && SysLegal(env, s, e)
    ensures SysInv(env, SysStep(env, s, e))
  {
    hide SysInv;
    if !s.crashed {
      match e {
        case Tracker(reply) => QuietStep(env, s, Reply(reply));
        case Data(p, from, pack) => DataKeeps(env, s, p, from, pack);
        case Expired(p) => EndKeeps(env, s, p, false, s.store);
        case Read(p, ok, next) => ReadKeeps(env, s, p, ok, next);
        case Stopped => QuietStep(env, s, Close);
        case Foreign(k, v, owner) => ForeignKeeps(env, s, k, v, owner);
      }
    }
  }

  lemma {:induction false} SysRunKeeps(env: Env, s: Sys, es: seq<SysEvent>)
    requires SysInv(env, s) && SysLegalRun(env, s, es)
    ensures SysInv(env, SysRun(env, s, es))
    decreases |es|
  {
    if es != [] {
      SysStepKeeps(env, s, es[0]);
      hide SysInv, SysStep, SysLegal;
      SysRunKeeps(env, SysStep(env, s, es[0]), es[1..]);
    }
  }

  function SysBegun(meta: FileMeta, store: Index): (s: Sys)
    ensures WorldShape(s.w) && s.w.s.meta == meta
  {
    Sys(Begun(meta), store, multiset{}, false)
  }

  lemma SysBegunInv(env: Env, meta: FileMeta, store: Index)
    requires MetaOk(meta) && KeysDisjoint(meta)
    requires forall i | 0 <= i < |meta.KeyGroup| :: Absent(store.db, meta.KeyGroup[i])
    ensures SysInv(env, SysBegun(meta, store))
  {
    assert FirstKeysDistinct(meta) by {
      forall i, j | 0 <= i < j < |meta.KeyGroup| ensures meta.KeyGroup[i][0] != meta.KeyGroup[j][0] {
        assert meta.KeyGroup[i][0] in meta.KeyGroup[i] && meta.KeyGroup[j][0] in meta.KeyGroup[j];
      }
    }
    BegunInv(meta);
  }

  /** Success means stored data. Take groups of keys that differ from each other and were not stored
      before. However trackers, peers, timers and other writers behave: once success is announced,
      the store has, for every group, data with the requested hash under the first keys of the group,
      and under all of them if accepted packs are complete. */
  lemma SuccessMeansStored(env: Env, meta: FileMeta, store: Index, es: seq<SysEvent>)
    requires MetaOk(meta) && KeysDisjoint(meta)
    requires forall i | 0 <= i < |meta.KeyGroup| :: Absent(store.db, meta.KeyGroup[i])
    requires SysLegalRun(env, SysBegun(meta, store), es)
    ensures var s := SysRun(env, SysBegun(meta, store), es);
      true in s.w.s.announced ==>
        forall i: nat | HasMeta(meta, i) :: Stored(env, s.store.db, meta.KeyGroup[i], meta.Hashes[i])
  {
    SysBegunInv(env, meta, store);
    SysRunKeeps(env, SysBegun(meta, store), es);
    var s := SysRun(env, SysBegun(meta, store), es);
    if true in s.w.s.announced {
      LeftZero(s.w.s.fileState);
      forall i: nat | HasMeta(meta, i) ensures Stored(env, s.store.db, meta.KeyGroup[i], meta.Hashes[i]) {
        assert SaleOk(env, s, i) && Bought(s, i);
      }
    }
  }

  /** A worker whose purchase was announced as a success, with complete packs, finds its first key group
      in the store: it executes and does not panic. */
  lemma SuccessLetsWorkerExecute(env: Env, meta: FileMeta, store: Index, es: seq<SysEvent>, w: Worker.Session)
    requires env.full && MetaOk(meta) && KeysDisjoint(meta)
    requires forall i | 0 <= i < |meta.KeyGroup| :: Absent(store.db, meta.KeyGroup[i])
    requires SysLegalRun(env, SysBegun(meta, store), es)
    requires !w.crashed && !w.closed && w.phase == Worker.WS_FETCHING && w.meta.keyGroup == meta.KeyGroup
    ensures var s := SysRun(env, SysBegun(meta, store), es);
      true in s.w.s.announced ==>
        var w' := Worker.Handle(w, Worker.Purchased(true, s.store.db.Keys));
        !w'.crashed && w'.executions == w.executions + 1
  {
    var s := SysRun(env, SysBegun(meta, store), es);
    if true in s.w.s.announced {
      SuccessMeansStored(env, meta, store, es);
      SysBegunInv(env, meta, store);
      SysRunKeeps(env, SysBegun(meta, store), es);
      assert meta.KeyGroup != [];
      assert HasMeta(meta, 0);
      var keys := meta.KeyGroup[0];
      var n: nat :| StoredUpTo(s.store.db, keys, n, env.H, meta.Hashes[0]) && (env.full ==> n == |keys|);
      assert keys[..n] == keys;
    }
  }

  /** Whether a worker with a purchased first key group executes or panics is whether its pack had all
      the keys: with an empty last file left out, the purchase succeeds and the worker panics. */
  lemma WorkerNeedsCompletePack(s: Index, p: Purchase, pack: DataPack, H: HashFn, owner: NodeID, w: Worker.Session)
    requires NoRepeats(p.keys) && Absent(s.db, p.keys)
    requires var o := OnPack(s, p, pack, H, owner); o.Finished? && o.ok
    requires !w.crashed && !w.closed && w.phase == Worker.WS_FETCHING
    requires w.meta.keyGroup != [] && w.meta.keyGroup[0] == p.keys
    ensures var w' := Worker.Handle(w, Worker.Purchased(true, OnPack(s, p, pack, H, owner).s.db.Keys));
      && (w'.executions == w.executions + 1 <==> |pack.Keys| == |p.keys|)
      && (w'.crashed <==> |pack.Keys| < |p.keys|)
  {
    SuccessIsComplete(s, p, pack, H, owner);
    CheckExact(pack, p.keys);
    var db := OnPack(s, p, pack, H, owner).s.db;
    hide OnPack;
    assert Elems(p.keys) <= db.Keys <==> forall k | k in p.keys :: k in db.Keys;
  }
}
