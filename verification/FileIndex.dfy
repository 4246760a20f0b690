/**
  The file store and the two share indexes of a node (`NaiveFS`, src/fs/fs.go).

  `fileInfoDB` says which peers hold a file, `peerInfoDB` which files a peer holds. They are separate
  maps that the event loop updates one entry at a time.
*/
module FileIndex {
  import opened Words
  import opened Names

  datatype FileInfo = FileInfo(Owner: NodeID, Peers: set<NodeID>)

  datatype PeerInfo = PeerInfo(FilesFrom: set<Key>, FilesTo: set<Key>)

  datatype ShareState = SHARE_ST | SHARE_SENDING | SHARE_FINISHED | SHARE_ABORT

  /** `crashed` records a panic of the source; nothing happens after it. */
  datatype Index = Index(
    db: map<Key, Bytes>, files: map<Key, FileInfo>, peers: map<NodeID, PeerInfo>, crashed: bool)

  function FinishedPeers(states: map<NodeID, ShareState>): set<NodeID> {
    set p | p in states && states[p] == SHARE_FINISHED
  }

  function InfoOf(peers: map<NodeID, PeerInfo>, p: NodeID): PeerInfo {
    if p in peers then peers[p] else PeerInfo({}, {})
  }

  // ---- What each step makes of the indexes, independent of the order of its loops ----

  /** The store is written once per key. */
  function Put(s: Index, k: Key, v: Bytes, owner: NodeID): Index {
    if k in s.db then s else s.(db := s.db[k := v], files := s.files[k := FileInfo(owner, {})])
  }

  function Listed(files: map<Key, FileInfo>, keys: set<Key>, fin: set<NodeID>): map<Key, FileInfo> {
    map k | k in files :: if k in keys then files[k].(Peers := files[k].Peers + fin) else files[k]
  }

  function Credited(peers: map<NodeID, PeerInfo>, keys: set<Key>, fin: set<NodeID>): map<NodeID, PeerInfo> {
    map p | p in peers.Keys + fin ::
      if p in fin then PeerInfo(InfoOf(peers, p).FilesFrom, InfoOf(peers, p).FilesTo + keys) else peers[p]
  }

  function OnShare(s: Index, keys: seq<Key>, states: map<NodeID, ShareState>): Index {
    var fin := FinishedPeers(states);
    if fin != {} && !(Elems(keys) <= s.files.Keys) then s.(crashed := true)
    else s.(files := Listed(s.files, Elems(keys), fin), peers := Credited(s.peers, Elems(keys), fin))
  }

  function OnReceived(s: Index, ok: bool, from: NodeID, keys: seq<Key>): Index {
    var info := InfoOf(s.peers, from);
    if ok then s.(peers := s.peers[from := info.(FilesFrom := info.FilesFrom + Elems(keys))]) else s
  }

  /** The peers a tracker names for one key group. */
  function PeersOf(files: map<Key, FileInfo>, keys: seq<Key>): set<NodeID> {
    set k, p | k in keys && k in files && p in files[k].Peers :: p
  }

  /** `xs` is a listing of the set, each element once. */
  predicate Lists<T(==)>(xs: seq<T>, s: set<T>) { NoRepeats(xs) && Elems(xs) == s }

  // ---- The object ----

  class NaiveFS {
    const owner: NodeID
    var db: map<Key, Bytes>
    var fileInfoDB: map<Key, FileInfo>
    var peerInfoDB: map<NodeID, PeerInfo>
    var crashed: bool

    ghost function View(): Index
      reads this
    {
      Index(db, fileInfoDB, peerInfoDB, crashed)
    }

    constructor (owner: NodeID)
      ensures View() == Index(map[], map[], map[], false) && this.owner == owner
    {
      this.owner := owner;
      db, fileInfoDB, peerInfoDB, crashed := map[], map[], map[], false;
    }

    method SetWithInfo(k: Key, v: Bytes, info: FileInfo)
      modifies this`db, this`fileInfoDB
      ensures k in old(db) ==> db == old(db) && fileInfoDB == old(fileInfoDB)
      ensures k !in old(db) ==> db == old(db)[k := v] && fileInfoDB == old(fileInfoDB)[k := info]
    {
      if k in db {
        return;
      }
      db := db[k := v];
      fileInfoDB := fileInfoDB[k := info];
    }

    method Set(k: Key, v: Bytes)
      modifies this`db, this`fileInfoDB
      ensures View() == Put(old(View()), k, v, owner)
    {
      SetWithInfo(k, v, FileInfo(owner, {}));
    }

    /** `Get`; on an unknown key the source panics, here it is `None`. */
    method Get(k: Key) returns (v: Option<Bytes>)
      ensures v == if k in db then Some(db[k]) else None
    {
      v := if k in db then Some(db[k]) else None;
    }

    /** One finished peer of a share result; `ok` is false where the source panics. */
    method CreditPeer(peer: NodeID, keys: seq<Key>) returns (ok: bool)
      modifies this`fileInfoDB, this`peerInfoDB
      ensures ok <==> Elems(keys) <= old(fileInfoDB).Keys
      ensures ok ==> fileInfoDB == Listed(old(fileInfoDB), Elems(keys), {peer})
      ensures ok ==> peerInfoDB == Credited(old(peerInfoDB), Elems(keys), {peer})
    {
      hide Listed, Credited;
      var peerInfo := InfoOf(peerInfoDB, peer);
      ghost var to := peerInfo.FilesTo;
      NoKeysListed(fileInfoDB, peer);
      for k := 0 to |keys|
        invariant Elems(keys[..k]) <= old(fileInfoDB).Keys == fileInfoDB.Keys
        invariant fileInfoDB == Listed(old(fileInfoDB), Elems(keys[..k]), {peer})
        invariant peerInfo == PeerInfo(InfoOf(peerInfoDB, peer).FilesFrom, to + Elems(keys[..k]))
        invariant peerInfoDB == old(peerInfoDB)
      {
        var file := keys[k];
        assert keys[..k + 1] == keys[..k] + [file];
        assert Elems(keys[..k + 1]) == Elems(keys[..k]) + {file};
        if file !in fileInfoDB {
          assert file in Elems(keys);
          return false;
        }
        ListsOneMore(old(fileInfoDB), Elems(keys[..k]), file, peer);
        fileInfoDB := fileInfoDB[file := fileInfoDB[file].(Peers := fileInfoDB[file].Peers + {peer})];
        peerInfo := peerInfo.(FilesTo := peerInfo.FilesTo + {file});
      }
      assert keys[..|keys|] == keys;
      CreditsOne(peerInfoDB, Elems(keys), peer);
      peerInfoDB := peerInfoDB[peer := peerInfo];
      ok := true;
    }

    /** The `shareResultChan` case of `run`; the map of states is visited in any order. */
    method OnShareResult(keys: seq<Key>, states: map<NodeID, ShareState>)
      requires !crashed
      modifies this
      ensures crashed <==> OnShare(old(View()), keys, states).crashed
      ensures !crashed ==> View() == OnShare(old(View()), keys, states)
    {
      ghost var s := View();
      var todo := states.Keys;
      ghost var fin: set<NodeID> := {};
      NothingAdded(s, Elems(keys));
      while todo != {}
        invariant !crashed && db == s.db && todo <= states.Keys
        invariant fin == FinishedPeers(states) - todo
        invariant fin != {} ==> Elems(keys) <= s.files.Keys
        invariant fileInfoDB == Listed(s.files, Elems(keys), fin)
        invariant peerInfoDB == Credited(s.peers, Elems(keys), fin)
        decreases todo
      {
        var peer :| peer in todo;
        todo := todo - {peer};
        if states[peer] == SHARE_FINISHED {
          var ok := CreditPeer(peer, keys);
          if !ok {
            crashed := true;
            assert peer in FinishedPeers(states);
            return;
          }
          AddedTwice(s, Elems(keys), fin, {peer});
          fin := fin + {peer};
        }
      }
      assert fin == FinishedPeers(states);
    }

    /** The `shareRecvResultChan` case of `run`. */
    method OnShareRecv(ok: bool, from: NodeID, keys: seq<Key>)
      modifies this`peerInfoDB
      ensures View() == OnReceived(old(View()), ok, from, keys)
    {
      if ok {
        var peerInfo := InfoOf(peerInfoDB, from);
        ghost var had := peerInfo.FilesFrom;
        for k := 0 to |keys|
          invariant peerInfo == InfoOf(peerInfoDB, from).(FilesFrom := had + Elems(keys[..k]))
          invariant peerInfoDB == old(peerInfoDB)
        {
          assert Elems(keys[..k + 1]) == Elems(keys[..k]) + {keys[k]};
          peerInfo := peerInfo.(FilesFrom := peerInfo.FilesFrom + {keys[k]});
        }
        assert keys[..|keys|] == keys;
        peerInfoDB := peerInfoDB[from := peerInfo];
      }
    }

    /** One group of a tracker request. */
    method PeersOfGroup(keys: seq<Key>) returns (peers: seq<NodeID>)
      ensures Lists(peers, PeersOf(fileInfoDB, keys))
    {
      var peerMap: set<NodeID> := {};
      for k := 0 to |keys|
        invariant peerMap == PeersOf(fileInfoDB, keys[..k])
      {
        assert keys[..k + 1] == keys[..k] + [keys[k]];
        if keys[k] in fileInfoDB {
          peerMap := peerMap + fileInfoDB[keys[k]].Peers;
        }
      }
      assert keys[..|keys|] == keys;
      peers := [];
      var todo := peerMap;
      while todo != {}
        invariant todo <= peerMap && Lists(peers, peerMap - todo)
        decreases todo
      {
        var p :| p in todo;
        assert p !in Elems(peers);
        assert Elems(peers + [p]) == Elems(peers) + {p};
        peers, todo := peers + [p], todo - {p};
      }
    }

    /** The `trackerRequestChan` case of `run`. */
    method TrackerReply(groups: seq<seq<Key>>) returns (reply: seq<seq<NodeID>>)
      ensures |reply| == |groups|
      ensures forall i | 0 <= i < |groups| :: Lists(reply[i], PeersOf(fileInfoDB, groups[i]))
    {
      reply := [];
      for i := 0 to |groups|
        invariant |reply| == i
        invariant forall j | 0 <= j < i :: Lists(reply[j], PeersOf(fileInfoDB, groups[j]))
      {
        var peers := PeersOfGroup(groups[i]);
        reply := reply + [peers];
      }
    }
  }

  lemma NoKeysListed(files: map<Key, FileInfo>, peer: NodeID)
    ensures Listed(files, Elems([]), {peer}) == files
  {
    assert Elems<Key>([]) == {};
    assert forall k | k in files :: Listed(files, {}, {peer})[k] == files[k];
  }

  lemma ListsOneMore(files: map<Key, FileInfo>, keys: set<Key>, k: Key, peer: NodeID)
    requires k in files
    ensures var f := Listed(files, keys, {peer});
      && f.Keys == files.Keys
      && Listed(files, keys + {k}, {peer}) == f[k := f[k].(Peers := f[k].Peers + {peer})]
  {
    var f := Listed(files, keys, {peer});
    var f' := f[k := f[k].(Peers := f[k].Peers + {peer})];
    var g := Listed(files, keys + {k}, {peer});
    assert f'.Keys == g.Keys;
    forall x | x in g ensures g[x] == f'[x] { assert g[x].Peers == f'[x].Peers; }
  }

  lemma CreditsOne(peers: map<NodeID, PeerInfo>, keys: set<Key>, peer: NodeID)
    ensures var info := InfoOf(peers, peer);
      Credited(peers, keys, {peer}) == peers[peer := PeerInfo(info.FilesFrom, info.FilesTo + keys)]
  {
    var info := InfoOf(peers, peer);
    assert Credited(peers, keys, {peer}).Keys == peers.Keys + {peer};
  }

  lemma NothingAdded(s: Index, keys: set<Key>)
    ensures Listed(s.files, keys, {}) == s.files && Credited(s.peers, keys, {}) == s.peers
  {
    var f, p := Listed(s.files, keys, {}), Credited(s.peers, keys, {});
    assert f.Keys == s.files.Keys && p.Keys == s.peers.Keys;
    assert forall k | k in f :: f[k] == s.files[k];
    assert forall q | q in p :: p[q] == s.peers[q];
  }

  /** Adding peers in two portions adds them all; so visiting the states in any order is the same,
      and a share that is reported again changes nothing. */
  lemma AddedTwice(s: Index, keys: set<Key>, fin: set<NodeID>, more: set<NodeID>)
    ensures Listed(Listed(s.files, keys, fin), keys, more) == Listed(s.files, keys, fin + more)
    ensures Credited(Credited(s.peers, keys, fin), keys, more) == Credited(s.peers, keys, fin + more)
  {
    var f, p := Listed(Listed(s.files, keys, fin), keys, more), Credited(Credited(s.peers, keys, fin), keys, more);
    var f', p' := Listed(s.files, keys, fin + more), Credited(s.peers, keys, fin + more);
    assert f.Keys == f'.Keys && p.Keys == p'.Keys;
    forall k | k in f ensures f[k] == f'[k] { assert f[k].Peers == f'[k].Peers; }
    forall q | q in p ensures p[q] == p'[q] { assert p[q].FilesTo == p'[q].FilesTo; }
  }

  lemma ShareReportedAgain(s: Index, keys: seq<Key>, states: map<NodeID, ShareState>)
    ensures var s' := OnShare(s, keys, states);
      OnShare(s', keys, states) == s'
  {
    var fin := FinishedPeers(states);
    AddedTwice(s, Elems(keys), fin, fin);
    assert fin + fin == fin;
  }

  // ---- Every run ----

  datatype Event =
    | Stored(key: Key, val: Bytes, owner: NodeID)
    | ShareStarted(keys: seq<Key>)
    | ShareDone(keys: seq<Key>, states: map<NodeID, ShareState>)
    | Received(ok: bool, from: NodeID, keys: seq<Key>)
    | SaleRequested(keys: seq<Key>)

  function Handle(s: Index, e: Event): Index {
    if s.crashed then s
    else match e
      case Stored(k, v, owner) => Put(s, k, v, owner)
      case ShareStarted(keys) => if Elems(keys) <= s.db.Keys then s else s.(crashed := true)
      case ShareDone(keys, states) => OnShare(s, keys, states)
      case Received(ok, from, keys) => OnReceived(s, ok, from, keys)
      case SaleRequested(keys) => if Elems(keys) <= s.db.Keys then s else s.(crashed := true)
  }

  function Run(es: seq<Event>): Index {
    if es == [] then Index(map[], map[], map[], false) else Handle(Run(es[..|es| - 1]), es[|es| - 1])
  }

  /** Some share of `k` reported `p` as finished. */
  ghost predicate Shared(es: seq<Event>, p: NodeID, k: Key) {
    exists i :: 0 <= i < |es| && SharedBy(es[i], p, k)
  }

  ghost predicate SharedBy(e: Event, p: NodeID, k: Key) {
    e.ShareDone? && k in e.keys && p in e.states && e.states[p] == SHARE_FINISHED
  }

  /** Some pack with `k` was received from `p`. */
  ghost predicate Obtained(es: seq<Event>, p: NodeID, k: Key) {
    exists i :: 0 <= i < |es| && ObtainedBy(es[i], p, k)
  }

  ghost predicate ObtainedBy(e: Event, p: NodeID, k: Key) {
    e.Received? && e.ok && e.from == p && k in e.keys
  }

  /** Both indexes name the same pairs, and a file is stored exactly if it has an entry. */
  ghost predicate Mirror(s: Index) {
    && s.db.Keys == s.files.Keys
    && forall p: NodeID, k: Key ::
         (k in s.files && p in s.files[k].Peers) <==> k in InfoOf(s.peers, p).FilesTo
  }

  /** What the indexes say is what happened. */
  ghost predicate Exact(s: Index, es: seq<Event>) {
    forall p: NodeID, k: Key ::
      && (k in InfoOf(s.peers, p).FilesTo <==> Shared(es, p, k))
      && (k in InfoOf(s.peers, p).FilesFrom <==> Obtained(es, p, k))
  }

  lemma SharedSnoc(es: seq<Event>, e: Event, p: NodeID, k: Key)
    ensures Shared(es + [e], p, k) <==> Shared(es, p, k) || SharedBy(e, p, k)
    ensures Obtained(es + [e], p, k) <==> Obtained(es, p, k) || ObtainedBy(e, p, k)
  {
    var es' := es + [e];
    assert forall i | 0 <= i < |es| :: es'[i] == es[i];
    assert es'[|es|] == e;
  }

  lemma HandleMirrors(s: Index, e: Event)
    requires Mirror(s)
    ensures Mirror(Handle(s, e))
  {
    var s' := Handle(s, e);
    forall p: NodeID, k: Key
      ensures (k in s'.files && p in s'.files[k].Peers) <==> k in InfoOf(s'.peers, p).FilesTo
    {
      assert (k in s.files && p in s.files[k].Peers) <==> k in InfoOf(s.peers, p).FilesTo;
    }
  }

  lemma HandleExact(s: Index, es: seq<Event>, e: Event)
    requires Mirror(s) && Exact(s, es) && !Handle(s, e).crashed
    ensures Exact(Handle(s, e), es + [e])
  {
    var s' := Handle(s, e);
    forall p: NodeID, k: Key
      ensures k in InfoOf(s'.peers, p).FilesTo <==> Shared(es + [e], p, k)
      ensures k in InfoOf(s'.peers, p).FilesFrom <==> Obtained(es + [e], p, k)
    {
      SharedSnoc(es, e, p, k);
    }
  }

  /** In every reachable state the two indexes mirror each other; without a panic they say exactly
      which shares finished and which packs arrived. */
  lemma {:induction false} IndexesMirror(es: seq<Event>)
    ensures Mirror(Run(es))
    ensures !Run(es).crashed ==> Exact(Run(es), es)
    decreases |es|
  {
    if es != [] {
      var pre, e := es[..|es| - 1], es[|es| - 1];
      IndexesMirror(pre);
      HandleMirrors(Run(pre), e);
      assert pre + [e] == es;
      if !Run(es).crashed { HandleExact(Run(pre), pre, e); }
    }
  }

  /** A tracker names for a group exactly the peers that finished a share of one of its keys. */
  lemma TrackerReplyExact(es: seq<Event>, keys: seq<Key>, p: NodeID)
    requires !Run(es).crashed
    ensures p in PeersOf(Run(es).files, keys) <==> exists k :: k in keys && Shared(es, p, k)
  {
    IndexesMirror(es);
    var s := Run(es);
    assert Mirror(s) && Exact(s, es);
    if p in PeersOf(s.files, keys) {
      var k :| k in keys && k in s.files && p in s.files[k].Peers;
      assert k in InfoOf(s.peers, p).FilesTo;
      assert Shared(es, p, k);
    }
    if k :| k in keys && Shared(es, p, k) {
      assert k in InfoOf(s.peers, p).FilesTo;
      assert k in s.files && p in s.files[k].Peers;
    }
  }

  /** Every share result belongs to a share that was started before. */
  ghost predicate ResultsAreOfShares(es: seq<Event>) {
    forall i | 0 <= i < |es| && es[i].ShareDone? :: exists j :: 0 <= j < i && es[j] == ShareStarted(es[i].keys)
  }

  lemma {:induction false} StartedIsStored(es: seq<Event>, j: nat)
    requires j < |es| && es[j].ShareStarted? && !Run(es).crashed
    ensures Elems(es[j].keys) <= Run(es).files.Keys
    decreases |es|
  {
    var pre := es[..|es| - 1];
    IndexesMirror(pre);
    if j < |pre| { StartedIsStored(pre, j); }
  }

  /** At step `i` a share of our own is started, or a purchase requested by a peer, for a key that is
      not stored: both read every key with `Get`, which panics on an unknown one. */
  ghost predicate ReadsUnknown(es: seq<Event>, i: nat)
    requires i < |es|
  {
    (es[i].ShareStarted? || es[i].SaleRequested?) && !(Elems(es[i].keys) <= Run(es[..i]).db.Keys)
  }

  /** The lookups of a share result never fail: of the steps of the event loop the only ones that
      panic are a share started and a purchase requested for a key that is not stored. */
  lemma {:induction false} OnlyUnknownKeysPanic(es: seq<Event>)
    requires ResultsAreOfShares(es)
    ensures Run(es).crashed <==> exists i: nat :: i < |es| && ReadsUnknown(es, i)
    decreases |es|
  {
    if es != [] {
      var n: nat := |es| - 1;
      var pre, e := es[..n], es[n];
      assert forall i | 0 <= i < n :: pre[i] == es[i];
      forall i: nat | i < n ensures ReadsUnknown(es, i) <==> ReadsUnknown(pre, i) {
        assert pre[..i] == es[..i];
      }
      assert ReadsUnknown(es, n) <==> (e.ShareStarted? || e.SaleRequested?) && !(Elems(e.keys) <= Run(pre).db.Keys);
      PrefixOfShares(es, n);
      OnlyUnknownKeysPanic(pre);
      DoneNeverPanics(es);
      hide Run, ReadsUnknown, ResultsAreOfShares, Elems, Mirror;
      if Run(pre).crashed {
        var i: nat :| i < n && ReadsUnknown(pre, i);
        assert ReadsUnknown(es, i);
      }
    }
  }

  lemma PrefixOfShares(es: seq<Event>, n: nat)
    requires n <= |es| && ResultsAreOfShares(es)
    ensures ResultsAreOfShares(es[..n])
  {
    forall i | 0 <= i < n && es[i].ShareDone?
      ensures exists j :: 0 <= j < i && es[..n][j] == ShareStarted(es[i].keys)
    {
      var j :| 0 <= j < i && es[j] == ShareStarted(es[i].keys);
      assert es[..n][j] == es[j];
    }
  }

  /** The last step panics only by reading an unknown key. */
  lemma DoneNeverPanics(es: seq<Event>)
    requires es != [] && ResultsAreOfShares(es)
    ensures var pre, e := es[..|es| - 1], es[|es| - 1];
      Run(es).crashed <==>
        || Run(pre).crashed
        || ((e.ShareStarted? || e.SaleRequested?) && !(Elems(e.keys) <= Run(pre).db.Keys))
  {
    var pre, e := es[..|es| - 1], es[|es| - 1];
    if e.ShareDone? && !Run(pre).crashed {
      var j :| 0 <= j < |pre| && es[j] == ShareStarted(e.keys);
      assert pre[j] == es[j];
      StartedIsStored(pre, j);
    }
  }

  // ---- What is stored ----

  /** At step `i` the file `k` is handed to the store, before any panic. */
  ghost predicate StoredAt(es: seq<Event>, i: nat, k: Key) {
    i < |es| && es[i].Stored? && es[i].key == k && !Run(es[..i]).crashed
  }

  ghost predicate FirstStoredAt(es: seq<Event>, i: nat, k: Key) {
    StoredAt(es, i, k) && forall j: nat | j < i :: !StoredAt(es, j, k)
  }

  ghost predicate StoreIs(es: seq<Event>, n: nat, k: Key)
    requires n <= |es|
  {
    var s := Run(es[..n]);
    && (k in s.db <==> exists i: nat :: i < n && StoredAt(es, i, k))
    && (k in s.files <==> k in s.db)
    && forall i: nat | i < n && FirstStoredAt(es, i, k) ::
         k in s.db && s.db[k] == es[i].val && k in s.files && s.files[k].Owner == es[i].owner
  }

  lemma StoreOf(s: Index, e: Event, k: Key)
    requires k in s.files <==> k in s.db
    ensures var s' := Handle(s, e);
      && (k in s'.files <==> k in s'.db)
      && (k in s.db ==> k in s'.db && s'.db[k] == s.db[k] && s'.files[k].Owner == s.files[k].Owner)
      && (k !in s.db ==> (k in s'.db <==> !s.crashed && e.Stored? && e.key == k))
      && (k !in s.db && k in s'.db ==> s'.db[k] == e.val && s'.files[k].Owner == e.owner)
  {
  }

  /** After any run a file is stored exactly if it was handed to the store before any panic; its data and
      its owner are those of the first time, whatever came later. */
  lemma {:induction false} StoredExactly(es: seq<Event>, n: nat, k: Key)
    requires n <= |es|
    ensures StoreIs(es, n, k)
  {
    if n > 0 {
      StoredExactly(es, n - 1, k);
      var s := Run(es[..n - 1]);
      StoreOf(s, es[n - 1], k);
      assert es[..n][..n - 1] == es[..n - 1];
      assert Run(es[..n]) == Handle(s, es[n - 1]);
      hide Handle, Run;
      assert (exists i: nat :: i < n && StoredAt(es, i, k)) <==>
             (exists i: nat :: i < n - 1 && StoredAt(es, i, k)) || StoredAt(es, n - 1, k);
    }
  }
}
