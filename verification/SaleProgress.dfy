/**
  One honest seller is enough: if a peer stores all files of a parallel purchase, with the hashes asked
  for, and a tracker names it, there is a run that announces success with a copy of its files.
*/
module SaleProgress {
  import opened Words
  import opened Names
  import opened FileIndex
  import opened ParallelPurchase
  import opened PurchaseCandidates
  import opened PurchaseStore
  import opened StoredSuccess

  /** `seller` stores all keys, and the data of each group has its hash. */
  ghost predicate Sells(env: Env, meta: FileMeta, seller: map<Key, Bytes>)
    requires MetaOk(meta)
  {
    forall i: nat | i < |meta.KeyGroup| ::
      && (forall k | k in meta.KeyGroup[i] :: k in seller)
      && HasMeta(meta, i) && env.H(Fetched(seller, meta.KeyGroup[i])) == meta.Hashes[i]
  }

  ghost predicate Copied(db: map<Key, Bytes>, keys: seq<Key>, seller: map<Key, Bytes>) {
    forall k | k in keys :: k in db && k in seller && db[k] == seller[k]
  }

  /** Group `i` waits for the pack of `peer`. */
  ghost predicate Awaits(s: Sys, i: nat, peer: NodeID)
    requires WorldShape(s.w) && MetaOk(s.w.s.meta) && i < |s.w.s.fileState|
  {
    s.w.s.fileState[i] == PURCHASING && Live(s, Of(s.w.s.meta, i, peer))
  }

  /** The first `n` groups are bought, the others wait for `peer`. */
  ghost predicate Midway(env: Env, s: Sys, peer: NodeID, seller: map<Key, Bytes>, n: nat) {
    && SysInv(env, s) && !s.crashed && !s.w.s.closed && n <= |s.w.s.fileState|
    && Sells(env, s.w.s.meta, seller)
    && (forall i: nat | i < n :: s.w.s.fileState[i] == PURCHASED && Copied(s.store.db, s.w.s.meta.KeyGroup[i], seller))
    && forall i: nat | n <= i < |s.w.s.fileState| :: Awaits(s, i, peer)
  }

  /** The pack of the seller, and the report of the purchase that takes it. */
  function SaleOf(meta: FileMeta, i: nat, peer: NodeID, seller: map<Key, Bytes>): seq<SysEvent>
    requires HasMeta(meta, i) && Elems(meta.KeyGroup[i]) <= seller.Keys
  {
    var p := Of(meta, i, peer);
    [Data(p, peer, PackOf(seller, p.keys)), Read(p, true, 0)]
  }

  lemma SellerHas(env: Env, meta: FileMeta, seller: map<Key, Bytes>, i: nat)
    requires MetaOk(meta) && Sells(env, meta, seller) && i < |meta.KeyGroup|
    ensures HasMeta(meta, i) && Elems(meta.KeyGroup[i]) <= seller.Keys
    ensures Sale(seller, meta.KeyGroup[i]) == Some(PackOf(seller, meta.KeyGroup[i]))
  {
  }

  /** The pack is accepted, and its files are copied. */
  lemma PackArrives(env: Env, s: Sys, peer: NodeID, seller: map<Key, Bytes>, n: nat) returns (s1: Sys)
    requires Midway(env, s, peer, seller, n) && n < |s.w.s.fileState|
    ensures HasMeta(s.w.s.meta, n) && Elems(s.w.s.meta.KeyGroup[n]) <= seller.Keys
    ensures var p := Of(s.w.s.meta, n, peer);
      var e := SaleOf(s.w.s.meta, n, peer, seller)[0];
      && SysLegal(env, s, e) && SysInv(env, s1)
      && s1 == SysStep(env, s, e) == s.(store := s1.store, sent := s.sent + multiset{Report(p, true)})
      && Copied(s1.store.db, p.keys, seller)
      && (forall k | k in s.store.db :: k in s1.store.db && s1.store.db[k] == s.store.db[k])
      && Pending(s.w.s.asked, s.w.done, p) == 1
  {
    var p := Of(s.w.s.meta, n, peer);
    SellerHas(env, s.w.s.meta, seller, n);
    var pack := PackOf(seller, p.keys);
    var e := Data(p, peer, pack);
    assert Awaits(s, n, peer);
    var i := LiveGroup(env, s, p);
    OneGroupOnly(s.w.s.meta, i, n);
    SaleCopies(seller, s.store, p, env.H, env.owner);
    SysStepKeeps(env, s, e);
    s1 := SysStep(env, s, e);
    CheckExact(pack, p.keys);
    hide SysInv, Live, Pending, Fetched, Elems, Check;
    forall k | k in s.store.db ensures k in s1.store.db && s1.store.db[k] == s.store.db[k] {
      PutAllKeeps(s.store, pack, 0, env.owner, k);
    }
    hide PutAll;
  }

  lemma ReportIsRead(env: Env, s: Sys, s1: Sys, peer: NodeID, n: nat)
    requires SysInv(env, s1) && !s1.crashed && !s1.w.s.closed && n < |s1.w.s.fileState| && HasMeta(s1.w.s.meta, n)
    requires var p := Of(s1.w.s.meta, n, peer);
      s1 == s.(store := s1.store, sent := s.sent + multiset{Report(p, true)})
      && Pending(s1.w.s.asked, s1.w.done, p) == 1
    ensures var p := Of(s1.w.s.meta, n, peer);
      var s2 := SysStep(env, s1, Read(p, true, 0));
      && SysLegal(env, s1, Read(p, true, 0)) && SysInv(env, s2)
      && s2 == s1.(w := Settled(s1.w, n, p, true, 0), sent := s.sent)
  {
    var p := Of(s1.w.s.meta, n, peer);
    assert Legal(s1.w, Result(p, true, 0));
    SysStepKeeps(env, s1, Read(p, true, 0));
    var i := PendingGroup(s1.w, p);
    OneGroupOnly(s1.w.s.meta, i, n);
    assert s.sent + multiset{Report(p, true)} - multiset{Report(p, true)} == s.sent;
    hide SysInv, Inv, Pending, Find;
  }

  /** The others wait as before. */
  lemma StillAwaits(s: Sys, s2: Sys, n: nat, i: nat, peer: NodeID)
    requires WorldShape(s.w) && MetaOk(s.w.s.meta) && FirstKeysDistinct(s.w.s.meta)
    requires n < |s.w.s.fileState| && i < |s.w.s.fileState| && i != n && Awaits(s, i, peer)
    requires s2.sent == s.sent && s2.w == Settled(s.w, n, Of(s.w.s.meta, n, peer), true, 0)
    ensures Awaits(s2, i, peer)
  {
    var p, q := Of(s.w.s.meta, n, peer), Of(s.w.s.meta, i, peer);
    if p.keys == q.keys { OneGroupOnly(s.w.s.meta, i, n); }
  }

  lemma CopiesStay(db: map<Key, Bytes>, db': map<Key, Bytes>, seller: map<Key, Bytes>)
    requires forall k | k in db :: k in db' && db'[k] == db[k]
    ensures forall keys :: Copied(db, keys, seller) ==> Copied(db', keys, seller)
  {
  }

  lemma SellOne(env: Env, s: Sys, peer: NodeID, seller: map<Key, Bytes>, n: nat) returns (s2: Sys)
    requires Midway(env, s, peer, seller, n) && n < |s.w.s.fileState|
    ensures HasMeta(s.w.s.meta, n) && Elems(s.w.s.meta.KeyGroup[n]) <= seller.Keys
    ensures var es := SaleOf(s.w.s.meta, n, peer, seller);
      && SysLegal(env, s, es[0]) && SysLegal(env, SysStep(env, s, es[0]), es[1])
      && s2 == SysStep(env, SysStep(env, s, es[0]), es[1])
      && Midway(env, s2, peer, seller, n + 1) && s2.w.s.meta == s.w.s.meta
  {
    var s1 := PackArrives(env, s, peer, seller, n);
    ReportIsRead(env, s, s1, peer, n);
    var p := Of(s.w.s.meta, n, peer);
    s2 := SysStep(env, s1, Read(p, true, 0));
    assert MetaOk(s.w.s.meta) && FirstKeysDistinct(s.w.s.meta);
    assert s2.w.s.fileState == s.w.s.fileState[n := PURCHASED] && !s2.w.s.closed;
    hide SysInv, SysStep, SysLegal, Awaits, Sells, MetaOk, FirstKeysDistinct, Pending, Settled, Copied;
    CopiesStay(s.store.db, s2.store.db, seller);
    forall i: nat | n + 1 <= i < |s2.w.s.fileState| ensures Awaits(s2, i, peer) { StillAwaits(s, s2, n, i, peer); }
    forall i: nat | i < n + 1 ensures Copied(s2.store.db, s.w.s.meta.KeyGroup[i], seller) {
      if i < n { assert Copied(s.store.db, s.w.s.meta.KeyGroup[i], seller); }
    }
  }

  lemma MidwayShape(env: Env, s: Sys, peer: NodeID, seller: map<Key, Bytes>, n: nat)
    requires Midway(env, s, peer, seller, n)
    ensures WorldShape(s.w) && n <= |s.w.s.fileState|
  {
  }

  lemma {:induction false} SellAll(env: Env, s: Sys, peer: NodeID, seller: map<Key, Bytes>, n: nat)
    returns (es: seq<SysEvent>)
    requires Midway(env, s, peer, seller, n)
    ensures SysLegalRun(env, s, es)
    ensures Midway(env, SysRun(env, s, es), peer, seller, |s.w.s.fileState|)
    decreases |s.w.s.fileState| - n
  {
    MidwayShape(env, s, peer, seller, n);
    hide Midway, SysStep, SysLegal;
    es := [];
    if n < |s.w.s.fileState| {
      var s2 := SellOne(env, s, peer, seller, n);
      var two := SaleOf(s.w.s.meta, n, peer, seller);
      var rest := SellAll(env, s2, peer, seller, n + 1);
      es := two + rest;
      var s1 := SysStep(env, s, two[0]);
      assert es[0] == two[0] && es[1..][0] == two[1] && es[1..][1..] == rest;
      assert SysLegalRun(env, s1, es[1..]) && SysRun(env, s1, es[1..]) == SysRun(env, s2, rest);
    }
  }

  lemma {:induction false} AskedFor(meta: FileMeta, fs: seq<FileState>, reply: seq<seq<NodeID>>, i: nat, j: nat,
                                    peer: NodeID)
    requires MetaOk(meta) && i <= j < |reply| == |fs| == |meta.KeyGroup|
    requires reply[j] == [peer] && fs[j] == UNKNOWN
    ensures Of(meta, j, peer) in FirstAsks(meta, fs, reply, i)
    decreases j - i
  {
    if i < j { AskedFor(meta, fs, reply, i + 1, j, peer); }
  }

  /** After a tracker named the seller for every group, all groups wait for it. */
  lemma AllAwait(env: Env, meta: FileMeta, store: Index, peer: NodeID, seller: map<Key, Bytes>) returns (e: SysEvent)
    requires MetaOk(meta) && KeysDisjoint(meta) && Sells(env, meta, seller)
    requires forall i | 0 <= i < |meta.KeyGroup| :: Absent(store.db, meta.KeyGroup[i])
    ensures var s := SysBegun(meta, store);
      SysLegal(env, s, e) && Midway(env, SysStep(env, s, e), peer, seller, 0)
  {
    var s := SysBegun(meta, store);
    var reply := seq(|meta.KeyGroup|, _ => [peer]);
    e := Tracker(reply);
    SysBegunInv(env, meta, store);
    SysStepKeeps(env, s, e);
    hide SysInv, Sells, KeysDisjoint, SysStep, Awaits;
    AfterReply(env, meta, store, peer, reply);
  }

  lemma AfterReply(env: Env, meta: FileMeta, store: Index, peer: NodeID, reply: seq<seq<NodeID>>)
    requires MetaOk(meta) && |reply| == |meta.KeyGroup| && forall i | 0 <= i < |reply| :: reply[i] == [peer]
    ensures var s1 := SysStep(env, SysBegun(meta, store), Tracker(reply));
      && !s1.crashed && !s1.w.s.closed
      && forall i: nat | i < |s1.w.s.fileState| :: Awaits(s1, i, peer)
  {
    var s := SysBegun(meta, store);
    RepliesRead(s.w.s, reply, 0);
    var s1 := SysStep(env, s, Tracker(reply));
    assert s1.w.s == HearAll(s.w.s, reply, 0) && s1.w.done == [] && s1.sent == multiset{};
    hide HearAll, FirstAsks, HeardMore, SysStep;
    forall i: nat | i < |meta.KeyGroup| ensures Awaits(s1, i, peer) {
      AskedFor(meta, s.w.s.fileState, reply, 0, i, peer);
      assert Of(meta, i, peer) in s1.w.s.asked;
    }
  }

  /** From the start there is a legal run after which success is announced and every file is the seller's. */
  lemma OneSellerSuffices(env: Env, meta: FileMeta, store: Index, peer: NodeID, seller: map<Key, Bytes>)
    returns (es: seq<SysEvent>)
    requires MetaOk(meta) && KeysDisjoint(meta) && Sells(env, meta, seller) && meta.KeyGroup != []
    requires forall i | 0 <= i < |meta.KeyGroup| :: Absent(store.db, meta.KeyGroup[i])
    ensures SysLegalRun(env, SysBegun(meta, store), es)
    ensures var s := SysRun(env, SysBegun(meta, store), es);
      && s.w.s.announced == [true]
      && forall i: nat | i < |meta.KeyGroup| :: Copied(s.store.db, meta.KeyGroup[i], seller)
  {
    var s := SysBegun(meta, store);
    var e := AllAwait(env, meta, store, peer, seller);
    var s1 := SysStep(env, s, e);
    var rest := SellAll(env, s1, peer, seller, 0);
    es := [e] + rest;
    assert es[0] == e && es[1..] == rest;
    Announced(env, SysRun(env, s1, rest), peer, seller);
    hide SysStep, SysLegal, Midway, SysBegun;
  }

  lemma Announced(env: Env, s: Sys, peer: NodeID, seller: map<Key, Bytes>)
    requires Midway(env, s, peer, seller, |s.w.s.fileState|) && s.w.s.meta.KeyGroup != []
    ensures s.w.s.announced == [true]
    ensures forall i: nat | i < |s.w.s.meta.KeyGroup| :: Copied(s.store.db, s.w.s.meta.KeyGroup[i], seller)
  {
    LeftZero(s.w.s.fileState);
  }
}
