/**
  The candidates, the purchases and the groups of a parallel purchase, told by the events of a run alone.
*/
module PurchaseCandidates {
  import opened Words
  import opened Names
  import opened ParallelPurchase

  /** What is asked for when a tracker's reply is read: in every group that waits for nothing, the first
      peer listed for it. */
  function FirstAsks(meta: FileMeta, fileState: seq<FileState>, reply: seq<seq<NodeID>>, i: nat): seq<Purchase>
    requires MetaOk(meta) && i <= |reply| == |fileState| == |meta.KeyGroup|
    decreases |reply| - i
  {
    if i == |reply| then []
    else
      (if reply[i] != [] && fileState[i] == UNKNOWN then [Of(meta, i, reply[i][0])] else [])
      + FirstAsks(meta, fileState, reply, i + 1)
  }

  /** `s'` is `s` after the lists from group `i` on were read. */
  ghost predicate ReadFrom(s: Session, s': Session, reply: seq<seq<NodeID>>, i: nat)
    requires Shape(s) && Shape(s') && MetaOk(s.meta) && s'.meta == s.meta && i <= |reply| == |s.fileState|
  {
    && s'.asked == s.asked + FirstAsks(s.meta, s.fileState, reply, i)
    && s'.unpurchasedCnt == s.unpurchasedCnt && s'.announced == s.announced
    && s'.crashed == s.crashed && s'.closed == s.closed
    && forall j | 0 <= j < |reply| ::
         && s'.peerGroup[j] == (if i <= j then s.peerGroup[j] + Elems(reply[j]) else s.peerGroup[j])
         && s'.fileState[j] == (if i <= j && reply[j] != [] && s.fileState[j] == UNKNOWN then PURCHASING
                                else s.fileState[j])
  }

  lemma {:induction false} AsksSame(meta: FileMeta, fs: seq<FileState>, gs: seq<FileState>,
                                    reply: seq<seq<NodeID>>, i: nat)
    requires MetaOk(meta) && i <= |reply| == |fs| == |gs| == |meta.KeyGroup|
    requires forall j | i <= j < |fs| :: fs[j] == gs[j]
    ensures FirstAsks(meta, fs, reply, i) == FirstAsks(meta, gs, reply, i)
    decreases |reply| - i
  {
    if i < |reply| { AsksSame(meta, fs, gs, reply, i + 1); }
  }

  lemma {:induction false} RepliesRead(s: Session, reply: seq<seq<NodeID>>, i: nat)
    requires Shape(s) && MetaOk(s.meta) && !s.crashed && i <= |reply| == |s.fileState|
    ensures ReadFrom(s, HearAll(s, reply, i), reply, i)
    decreases |reply| - i
  {
    if i < |reply| {
      var s1 := Hear(s, i, reply[i]);
      HeardOne(s, i, reply[i]);
      RepliesRead(s1, reply, i + 1);
      AsksSame(s.meta, s.fileState, s1.fileState, reply, i + 1);
      hide HearAll, Hear;
      var s' := HearAll(s1, reply, i + 1);
      assert HearAll(s, reply, i) == s' by { Unrolled(s, reply, i); }
      ReadOneMore(s, s1, s', reply, i);
    }
  }

  lemma Unrolled(s: Session, reply: seq<seq<NodeID>>, i: nat)
    requires Shape(s) && !s.crashed && i < |reply| == |s.fileState|
    ensures HearAll(s, reply, i) == HearAll(Hear(s, i, reply[i]), reply, i + 1)
  {
  }

  /** `s1` is `s` after the list of group `i` was read. */
  ghost predicate ReadOne(s: Session, s1: Session, i: nat, peers: seq<NodeID>)
    requires Shape(s) && Shape(s1) && MetaOk(s.meta) && s1.meta == s.meta && i < |s.fileState|
  {
    var asks := peers != [] && s.fileState[i] == UNKNOWN;
    && s1.asked == s.asked + (if asks then [Of(s.meta, i, peers[0])] else [])
    && s1.unpurchasedCnt == s.unpurchasedCnt && s1.announced == s.announced
    && s1.crashed == s.crashed && s1.closed == s.closed
    && s1.peerGroup == s.peerGroup[i := s.peerGroup[i] + Elems(peers)]
    && s1.fileState == (if asks then s.fileState[i := PURCHASING] else s.fileState)
  }

  lemma HeardOne(s: Session, i: nat, peers: seq<NodeID>)
    requires Shape(s) && MetaOk(s.meta) && !s.crashed && i < |s.fileState|
    ensures ReadOne(s, Hear(s, i, peers), i, peers) && !Hear(s, i, peers).crashed
  {
    if peers == [] {
      assert Elems(peers) == {};
      assert s.peerGroup[i] + {} == s.peerGroup[i];
      assert s.peerGroup == s.peerGroup[i := s.peerGroup[i] + Elems(peers)];
    }
  }

  lemma ReadOneMore(s: Session, s1: Session, s': Session, reply: seq<seq<NodeID>>, i: nat)
    requires Shape(s) && Shape(s1) && Shape(s') && MetaOk(s.meta) && s'.meta == s1.meta == s.meta
    requires i < |reply| == |s.fileState|
    requires ReadOne(s, s1, i, reply[i]) && ReadFrom(s1, s', reply, i + 1)
    requires FirstAsks(s.meta, s.fileState, reply, i + 1) == FirstAsks(s.meta, s1.fileState, reply, i + 1)
    ensures ReadFrom(s, s', reply, i)
  {
    AsksOneMore(s, s1, s', reply, i);
    hide MetaOk, FirstAsks, Elems;
    forall j | 0 <= j < |reply|
      ensures s'.peerGroup[j] == if i <= j then s.peerGroup[j] + Elems(reply[j]) else s.peerGroup[j]
      ensures s'.fileState[j] == if i <= j && reply[j] != [] && s.fileState[j] == UNKNOWN then PURCHASING
                                 else s.fileState[j]
    {
    }
  }

  lemma AsksOneMore(s: Session, s1: Session, s': Session, reply: seq<seq<NodeID>>, i: nat)
    requires Shape(s) && Shape(s1) && Shape(s') && MetaOk(s.meta) && s'.meta == s1.meta == s.meta
    requires i < |reply| == |s.fileState|
    requires ReadOne(s, s1, i, reply[i])
    requires s'.asked == s1.asked + FirstAsks(s.meta, s.fileState, reply, i + 1)
    ensures s'.asked == s.asked + FirstAsks(s.meta, s.fileState, reply, i)
  {
    hide MetaOk, Elems;
  }

  // ---- One event ----

  /** The purchases an event makes an open session ask for. */
  ghost function NewAsks(w: World, e: PurchaseEvent): seq<Purchase>
    requires WorldShape(w) && MetaOk(w.s.meta)
  {
    match e
    case Reply(reply) =>
      if |reply| == |w.s.fileState| then FirstAsks(w.s.meta, w.s.fileState, reply, 0) else []
    case Result(p, ok, next) =>
      if ok || (forall i: nat | i < |w.s.fileState| && w.s.meta.KeyGroup[i] == p.keys :: w.s.peerGroup[i] <= {p.peer})
      then []
      else [p.(peer := next)]
    case Close => []
  }

  ghost predicate Lists(meta: FileMeta, e: PurchaseEvent, i: nat, q: NodeID) {
    e.Reply? && |e.peerGroup| == |meta.KeyGroup| && i < |e.peerGroup| && q in e.peerGroup[i]
  }

  ghost predicate ResultOf(meta: FileMeta, e: PurchaseEvent, i: nat) {
    e.Result? && i < |meta.KeyGroup| && e.p.keys == meta.KeyGroup[i]
  }

  /** Where group `i` stands after an event. */
  ghost predicate GroupAfter(w: World, e: PurchaseEvent, w': World, i: nat)
    requires WorldShape(w) && WorldShape(w') && w'.s.meta == w.s.meta && i < |w.s.fileState|
  {
    && (forall q :: q in w'.s.peerGroup[i] <==>
          (q in w.s.peerGroup[i] || Lists(w.s.meta, e, i, q)) && !(ResultOf(w.s.meta, e, i) && q == e.p.peer))
    && (w'.s.fileState[i] == PURCHASED <==>
          w.s.fileState[i] == PURCHASED || (ResultOf(w.s.meta, e, i) && e.ok))
  }

  lemma StepExact(w: World, e: PurchaseEvent)
    requires Inv(w) && Legal(w, e) && !w.s.closed
    ensures var w' := Step(w, e);
      && w'.s.asked == w.s.asked + NewAsks(w, e)
      && (w'.s.closed <==> e.Close?)
      && forall i: nat | i < |w.s.fileState| :: GroupAfter(w, e, w', i)
  {
    match e {
      case Reply(reply) =>
        if |reply| == |w.s.fileState| { ReplyExact(w, reply); }
      case Result(p, ok, next) =>
        ResultExact(w, p, ok, next);
      case Close =>
    }
  }

  lemma ReplyExact(w: World, reply: seq<seq<NodeID>>)
    requires Inv(w) && !w.s.closed && |reply| == |w.s.fileState|
    ensures var e, w' := Reply(reply), Step(w, Reply(reply));
      && w'.s.asked == w.s.asked + NewAsks(w, e) && !w'.s.closed
      && forall i: nat | i < |w.s.fileState| :: GroupAfter(w, e, w', i)
  {
    RepliesRead(w.s, reply, 0);
    hide GroupsOk, CountsOk, FirstKeysDistinct, MetaOk, HearAll, FirstAsks;
  }

  lemma ResultExact(w: World, p: Purchase, ok: bool, next: NodeID)
    requires Inv(w) && Legal(w, Result(p, ok, next)) && !w.s.closed
    ensures var e, w' := Result(p, ok, next), Step(w, Result(p, ok, next));
      && w'.s.asked == w.s.asked + NewAsks(w, e) && !w'.s.closed
      && forall i: nat | i < |w.s.fileState| :: GroupAfter(w, e, w', i)
  {
    var g := PendingGroup(w, p);
    assert Step(w, Result(p, ok, next)) == Settled(w, g, p, ok, next);
    forall i: nat | i < |w.s.fileState| && w.s.meta.KeyGroup[i] == p.keys ensures i == g {
      assert w.s.meta.KeyGroup[i][0] == w.s.meta.KeyGroup[g][0];
    }
    hide Inv, Sole, Step, Settled;
    SettledExact(w, g, p, ok, next);
  }

  lemma SettledExact(w: World, g: nat, p: Purchase, ok: bool, next: NodeID)
    requires WorldShape(w) && MetaOk(w.s.meta) && !w.s.crashed && !w.s.closed && g < |w.s.fileState|
    requires w.s.fileState[g] == PURCHASING && p == Of(w.s.meta, g, p.peer)
    requires forall i: nat | i < |w.s.fileState| && w.s.meta.KeyGroup[i] == p.keys :: i == g
    ensures var e, w' := Result(p, ok, next), Settled(w, g, p, ok, next);
      && w'.s.asked == w.s.asked + NewAsks(w, e) && !w'.s.closed
      && forall i: nat | i < |w.s.fileState| :: GroupAfter(w, e, w', i)
  {
    hide FirstAsks;
    assert ResultOf(w.s.meta, Result(p, ok, next), g);
  }

  // ---- Runs ----

  /** The session after the first `n` events. */
  ghost function At(meta: FileMeta, es: seq<PurchaseEvent>, n: nat): (w: World)
    requires n <= |es|
    ensures WorldShape(w) && w.s.meta == meta
  {
    Run(Begun(meta), es[..n])
  }

  lemma {:induction false} RunSnoc(w: World, es: seq<PurchaseEvent>, e: PurchaseEvent)
    requires WorldShape(w)
    ensures Run(w, es + [e]) == Step(Run(w, es), e)
    ensures LegalRun(w, es + [e]) <==> LegalRun(w, es) && Legal(Run(w, es), e)
    decreases |es|
  {
    hide Step, Legal;
    if es == [] {
      assert [] + [e] == [e] && [e][1..] == [];
      assert Run(w, [e]) == Run(Step(w, e), [e][1..]);
      assert LegalRun(w, [e]) <==> Legal(w, e) && LegalRun(Step(w, e), [e][1..]);
    } else {
      assert (es + [e])[1..] == es[1..] + [e];
      RunSnoc(Step(w, es[0]), es[1..], e);
    }
  }

  lemma {:induction false} LegalPrefix(meta: FileMeta, es: seq<PurchaseEvent>, n: nat)
    requires LegalRun(Begun(meta), es) && n <= |es|
    ensures LegalRun(Begun(meta), es[..n])
    decreases |es|
  {
    if n < |es| {
      var m := |es| - 1;
      assert es == es[..m] + [es[m]];
      RunSnoc(Begun(meta), es[..m], es[m]);
      LegalPrefix(meta, es[..m], n);
      assert es[..m][..n] == es[..n];
    } else {
      assert es[..n] == es;
    }
  }

  ghost predicate Proper(meta: FileMeta, es: seq<PurchaseEvent>) {
    MetaOk(meta) && FirstKeysDistinct(meta) && LegalRun(Begun(meta), es)
  }

  /** The invariant holds after every prefix of a legal run, and the next event is legal. */
  lemma InvAt(meta: FileMeta, es: seq<PurchaseEvent>, n: nat)
    requires Proper(meta, es) && n <= |es|
    ensures Inv(At(meta, es, n))
  {
    hide Inv, Run, LegalRun, Begun, MetaOk, FirstKeysDistinct;
    BegunInv(meta);
    LegalPrefix(meta, es, n);
    RunKeeps(Begun(meta), es[..n]);
  }

  lemma NextAt(meta: FileMeta, es: seq<PurchaseEvent>, n: nat)
    requires Proper(meta, es) && n < |es|
    ensures Legal(At(meta, es, n), es[n]) && At(meta, es, n + 1) == Step(At(meta, es, n), es[n])
  {
    hide Inv, Run, LegalRun, Begun, MetaOk, FirstKeysDistinct, Step, Legal;
    LegalPrefix(meta, es, n + 1);
    assert es[..n + 1] == es[..n] + [es[n]];
    RunSnoc(Begun(meta), es[..n], es[n]);
  }

  /** No event before `n` closed the session. */
  ghost predicate Open(es: seq<PurchaseEvent>, n: nat) { forall a: nat | a < n && a < |es| :: !es[a].Close? }

  lemma {:induction false} OpenExact(meta: FileMeta, es: seq<PurchaseEvent>, n: nat)
    requires Proper(meta, es) && n <= |es|
    ensures !At(meta, es, n).s.closed <==> Open(es, n)
  {
    hide Proper, At, Step, Legal, Inv;
    if n == 0 {
      AtFirst(meta, es);
    } else {
      OpenExact(meta, es, n - 1);
      InvAt(meta, es, n - 1);
      NextAt(meta, es, n - 1);
      ClosesOnly(At(meta, es, n - 1), es[n - 1]);
    }
  }

  lemma ClosesOnly(w: World, e: PurchaseEvent)
    requires Inv(w) && Legal(w, e)
    ensures Step(w, e).s.closed <==> w.s.closed || e.Close?
  {
    if !w.s.closed { StepExact(w, e); }
  }

  lemma AtFirst(meta: FileMeta, es: seq<PurchaseEvent>)
    ensures At(meta, es, 0) == Begun(meta) && !Begun(meta).s.closed
    ensures forall i: nat | i < |meta.KeyGroup| ::
              Begun(meta).s.peerGroup[i] == {} && Begun(meta).s.fileState[i] == UNKNOWN
  {
  }

  /** Event `a` lists `q` for group `i`, and is read. */
  ghost predicate ListedAt(meta: FileMeta, es: seq<PurchaseEvent>, a: nat, i: nat, q: NodeID) {
    a < |es| && Open(es, a) && Lists(meta, es[a], i, q)
  }

  /** Event `a` is a result from `q` for group `i`, and is read. */
  ghost predicate ResultAt(meta: FileMeta, es: seq<PurchaseEvent>, a: nat, i: nat, q: NodeID) {
    a < |es| && Open(es, a) && ResultOf(meta, es[a], i) && es[a].p.peer == q
  }

  /** A tracker listed `q` for group `i`, and no result of the group came from `q` since. */
  ghost predicate Candidate(meta: FileMeta, es: seq<PurchaseEvent>, n: nat, i: nat, q: NodeID) {
    exists a: nat :: a < n && ListedAt(meta, es, a, i, q)
      && forall b: nat | a < b < n :: !ResultAt(meta, es, b, i, q)
  }

  ghost predicate BoughtAt(meta: FileMeta, es: seq<PurchaseEvent>, a: nat, i: nat) {
    a < |es| && Open(es, a) && ResultOf(meta, es[a], i) && es[a].ok
  }

  ghost predicate Bought(meta: FileMeta, es: seq<PurchaseEvent>, n: nat, i: nat) {
    exists a: nat :: a < n && BoughtAt(meta, es, a, i)
  }

  /** Group `i` after the first `n` events. */
  ghost predicate GroupIs(meta: FileMeta, es: seq<PurchaseEvent>, n: nat, i: nat)
    requires n <= |es| && i < |meta.KeyGroup|
  {
    var s := At(meta, es, n).s;
    && (forall q :: q in s.peerGroup[i] <==> Candidate(meta, es, n, i, q))
    && (s.fileState[i] == PURCHASED <==> Bought(meta, es, n, i))
  }

  /** In every legal run of groups with distinct first keys: the candidates of a group are exactly the
      peers that some reply listed for it and from which no later result of it came; it is PURCHASED
      exactly if one of its purchases succeeded; nothing counts after the session closed. */
  lemma {:induction false} CandidatesExact(meta: FileMeta, es: seq<PurchaseEvent>, n: nat, i: nat)
    requires Proper(meta, es) && n <= |es| && i < |meta.KeyGroup|
    ensures GroupIs(meta, es, n, i)
  {
    hide Proper, At, GroupIs, Step, Legal, Inv;
    if n == 0 {
      NoneAtFirst(meta, es, i);
    } else {
      CandidatesExact(meta, es, n - 1, i);
      GroupStep(meta, es, n - 1, i);
    }
  }

  lemma NoneAtFirst(meta: FileMeta, es: seq<PurchaseEvent>, i: nat)
    requires i < |meta.KeyGroup|
    ensures GroupIs(meta, es, 0, i)
  {
    AtFirst(meta, es);
  }

  /** What event `n` does to group `i` of the run. */
  lemma EventOf(meta: FileMeta, es: seq<PurchaseEvent>, n: nat)
    requires Proper(meta, es) && n < |es|
    ensures var w, w' := At(meta, es, n), At(meta, es, n + 1);
      if Open(es, n) then
        MetaOk(meta) && w'.s.asked == w.s.asked + NewAsks(w, es[n])
        && forall i: nat | i < |meta.KeyGroup| :: GroupAfter(w, es[n], w', i)
      else w' == w
  {
    hide At, Legal, LegalRun, Inv, FirstKeysDistinct, GroupAfter, NewAsks;
    InvAt(meta, es, n);
    NextAt(meta, es, n);
    OpenExact(meta, es, n);
    var w := At(meta, es, n);
    if w.s.closed { assert Step(w, es[n]) == w; } else { StepExact(w, es[n]); }
  }

  lemma GroupStep(meta: FileMeta, es: seq<PurchaseEvent>, n: nat, i: nat)
    requires Proper(meta, es) && n < |es| && i < |meta.KeyGroup| && GroupIs(meta, es, n, i)
    ensures GroupIs(meta, es, n + 1, i)
  {
    hide Proper, At, NewAsks;
    var w, w' := At(meta, es, n), At(meta, es, n + 1);
    EventOf(meta, es, n);
    hide Open, Candidate, Bought;
    assert Open(es, n) ==> GroupAfter(w, es[n], w', i);
    assert w.s.meta == meta;
    forall q ensures q in w'.s.peerGroup[i] <==> Candidate(meta, es, n + 1, i, q) {
      CandidateNext(meta, es, n, i, q);
      assert q in w.s.peerGroup[i] <==> Candidate(meta, es, n, i, q);
      if Open(es, n) {
        assert q in w'.s.peerGroup[i] <==>
          && (q in w.s.peerGroup[i] || Lists(w.s.meta, es[n], i, q))
          && !(ResultOf(w.s.meta, es[n], i) && q == es[n].p.peer);
      }
    }
    BoughtNext(meta, es, n, i);
  }

  lemma CandidateNext(meta: FileMeta, es: seq<PurchaseEvent>, n: nat, i: nat, q: NodeID)
    ensures Candidate(meta, es, n + 1, i, q) <==>
      ListedAt(meta, es, n, i, q) || (Candidate(meta, es, n, i, q) && !ResultAt(meta, es, n, i, q))
  {
    hide ListedAt, ResultAt;
    if ListedAt(meta, es, n, i, q) {
      assert n < n + 1;
    } else if Candidate(meta, es, n + 1, i, q) {
      var a: nat :| a < n + 1 && ListedAt(meta, es, a, i, q)
        && forall b: nat | a < b < n + 1 :: !ResultAt(meta, es, b, i, q);
      assert a < n;
    }
  }

  lemma BoughtNext(meta: FileMeta, es: seq<PurchaseEvent>, n: nat, i: nat)
    ensures Bought(meta, es, n + 1, i) <==> Bought(meta, es, n, i) || BoughtAt(meta, es, n, i)
  {
    hide BoughtAt;
  }

  ghost predicate AnyCandidate(meta: FileMeta, es: seq<PurchaseEvent>, n: nat, i: nat) {
    exists q :: Candidate(meta, es, n, i, q)
  }

  ghost predicate AsksOne(meta: FileMeta, es: seq<PurchaseEvent>, n: nat, i: nat, s: Session, s': Session)
    requires HasMeta(meta, i)
  {
    exists q :: Candidate(meta, es, n, i, q) && s'.asked == s.asked + [Of(meta, i, q)]
  }

  /** When a purchase of group `i` fails while the session is open, and a tracker listed another peer from
      which no result came since, one such peer is asked next for the same group; otherwise nobody is. */
  lemma RetryExact(meta: FileMeta, es: seq<PurchaseEvent>, n: nat, i: nat)
    requires Proper(meta, es)
    requires n < |es| && i < |meta.KeyGroup| && Open(es, n) && ResultOf(meta, es[n], i)
    ensures HasMeta(meta, i)
    ensures var s, s' := At(meta, es, n).s, At(meta, es, n + 1).s;
      if !es[n].ok && AnyCandidate(meta, es, n + 1, i) then AsksOne(meta, es, n + 1, i, s, s') else s'.asked == s.asked
  {
    var w, w', e := At(meta, es, n), At(meta, es, n + 1), es[n];
    hide At, LegalRun, FirstKeysDistinct, Inv, Legal, NewAsks, Candidate, Open;
    CandidatesExact(meta, es, n, i);
    CandidatesExact(meta, es, n + 1, i);
    InvAt(meta, es, n);
    NextAt(meta, es, n);
    EventOf(meta, es, n);
    if e.ok {
      NobodyAsked(w, e.p, e.next);
      return;
    }
    Chosen(w, e.p, e.next, i);
    assert GroupAfter(w, e, w', i);
    forall q ensures Candidate(meta, es, n + 1, i, q) <==> q in w.s.peerGroup[i] - {e.p.peer} {
      assert q in w'.s.peerGroup[i] <==> Candidate(meta, es, n + 1, i, q);
    }
    hide GroupAfter, GroupIs;
    if !(w.s.peerGroup[i] <= {e.p.peer}) {
      assert Candidate(meta, es, n + 1, i, e.next);
    } else {
      assert !AnyCandidate(meta, es, n + 1, i);
    }
  }

  lemma NobodyAsked(w: World, p: Purchase, next: NodeID)
    requires WorldShape(w) && MetaOk(w.s.meta)
    ensures NewAsks(w, Result(p, true, next)) == []
  {
  }

  lemma Chosen(w: World, p: Purchase, next: NodeID, i: nat)
    requires Inv(w) && Legal(w, Result(p, false, next)) && i < |w.s.fileState| && w.s.meta.KeyGroup[i] == p.keys
    ensures NewAsks(w, Result(p, false, next)) == if w.s.peerGroup[i] <= {p.peer} then [] else [Of(w.s.meta, i, next)]
    ensures !(w.s.peerGroup[i] <= {p.peer}) ==> next in w.s.peerGroup[i] - {p.peer}
  {
    var g := PendingGroup(w, p);
    OneGroupOnly(w.s.meta, i, g);
    forall j: nat | j < |w.s.fileState| && w.s.meta.KeyGroup[j] == p.keys ensures j == g {
      OneGroupOnly(w.s.meta, j, g);
    }
    hide GroupsOk, CountsOk, FirstKeysDistinct, Pending, Find, Sole;
    var left := w.s.peerGroup[i] - {p.peer};
    assert left == {} <==> w.s.peerGroup[i] <= {p.peer};
  }

  lemma OneGroupOnly(meta: FileMeta, i: nat, j: nat)
    requires MetaOk(meta) && FirstKeysDistinct(meta) && i < |meta.KeyGroup| && j < |meta.KeyGroup|
    requires meta.KeyGroup[i] == meta.KeyGroup[j]
    ensures i == j
  {
    assert meta.KeyGroup[i][0] == meta.KeyGroup[j][0];
  }

  /** What a tracker's reply makes an open session ask for: in every group that waits for nothing, in
      order, the first peer listed; a reply of the wrong length is ignored. */
  lemma ReplyAsksExactly(meta: FileMeta, es: seq<PurchaseEvent>, n: nat)
    requires Proper(meta, es) && n < |es| && Open(es, n) && es[n].Reply?
    ensures MetaOk(meta)
    ensures var s, s', reply := At(meta, es, n).s, At(meta, es, n + 1).s, es[n].peerGroup;
      s'.asked == s.asked + if |reply| == |meta.KeyGroup| then FirstAsks(meta, s.fileState, reply, 0) else []
  {
    EventOf(meta, es, n);
    hide At, FirstAsks, GroupAfter;
  }
}
