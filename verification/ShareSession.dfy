/** One share of a file group with a list of peers (`ShareSession`, src/fs/share.go). */
module ShareSessions {
  import opened Words
  import opened Names
  import opened FileIndex

  /** `sends` are the peers the data was sent to, `reports` how many results were handed to the file
      system, `closed` that `run` returned. */
  datatype Share = Share(
    peers: seq<NodeID>, peerState: map<NodeID, ShareState>, sendingCnt: u32,
    sends: seq<NodeID>, reports: nat, closed: bool)

  datatype ShareEvent = Accept(from: NodeID) | SendResult(dst: NodeID, ok: bool) | Close

  function Opened(peers: seq<NodeID>): Share {
    Share(peers, map p | p in peers :: SHARE_ST, Wrap(|peers|), [], 0, false)
  }

  function OnAccept(s: Share, from: NodeID): Share {
    if from in s.peerState && s.peerState[from] == SHARE_ST
    then s.(peerState := s.peerState[from := SHARE_SENDING], sends := s.sends + [from])
    else s
  }

  function OnSendResult(s: Share, dst: NodeID, ok: bool): Share {
    if ok && dst in s.peerState && s.peerState[dst] == SHARE_SENDING then
      var cnt := Sub(s.sendingCnt, 1);
      s.(peerState := s.peerState[dst := SHARE_FINISHED], sendingCnt := cnt,
         reports := s.reports + if cnt == 0 then 1 else 0)
    else s
  }

  function Next(s: Share, e: ShareEvent): Share {
    if s.closed then s
    else match e
      case Accept(from) => OnAccept(s, from)
      case SendResult(dst, ok) => OnSendResult(s, dst, ok)
      case Close => s.(reports := s.reports + 1, closed := true)
  }

  function After(peers: seq<NodeID>, es: seq<ShareEvent>): Share {
    if es == [] then Opened(peers) else Next(After(peers, es[..|es| - 1]), es[|es| - 1])
  }

  class ShareSession {
    const peers: seq<NodeID>
    var peerState: map<NodeID, ShareState>
    var sendingCnt: u32
    var sends: seq<NodeID>
    var reports: nat
    var closed: bool

    ghost function View(): Share
      reads this
    {
      Share(peers, peerState, sendingCnt, sends, reports, closed)
    }

    /** `NewShareSession` followed by `Start`. */
    constructor (peers: seq<NodeID>)
      ensures View() == Opened(peers)
    {
      this.peers := peers;
      sendingCnt, sends, reports, closed := Wrap(|peers|), [], 0, false;
      peerState := map[];
      new;
      for i := 0 to |peers|
        invariant this.peers == peers && sendingCnt == Wrap(|peers|) && sends == [] && reports == 0 && !closed
        invariant peerState == map p | p in peers[..i] :: SHARE_ST
      {
        assert peers[..i + 1] == peers[..i] + [peers[i]];
        peerState := peerState[peers[i] := SHARE_ST];
      }
      assert peers[..|peers|] == peers;
    }

    method Step(e: ShareEvent)
      modifies this
      ensures View() == Next(old(View()), e)
    {
      if closed {
        return;
      }
      match e {
        case Accept(from) =>
          if from in peerState && peerState[from] == SHARE_ST {
            peerState := peerState[from := SHARE_SENDING];
            sends := sends + [from];
          }
        case SendResult(dst, ok) =>
          if ok && dst in peerState && peerState[dst] == SHARE_SENDING {
            peerState := peerState[dst := SHARE_FINISHED];
            sendingCnt := Sub(sendingCnt, 1);
            if sendingCnt == 0 {
              reports := reports + 1;
            }
          }
        case Close =>
          reports := reports + 1;
          closed := true;
      }
    }
  }

  // ---- The counter ----

  function Unfinished(s: Share): set<NodeID> { set p | p in s.peerState && s.peerState[p] != SHARE_FINISHED }

  ghost predicate Sent(s: Share, p: NodeID) {
    p in s.peerState && (s.peerState[p] == SHARE_SENDING || s.peerState[p] == SHARE_FINISHED)
  }

  /** Each finished peer lowered the counter once; the data went to each peer at most once; and the
      counter reached zero exactly if nobody is missing. */
  ghost predicate Inv(s: Share) {
    && s.peerState.Keys == Elems(s.peers)
    && s.sendingCnt == Wrap(|s.peers| - |Elems(s.peers)| + |Unfinished(s)|)
    && NoRepeats(s.sends) && (forall p :: p in s.sends <==> Sent(s, p))
    && s.reports == (if s.peers != [] && s.sendingCnt == 0 then 1 else 0) + if s.closed then 1 else 0
  }

  lemma {:induction false} DistinctSize(xs: seq<NodeID>)
    ensures |Elems(xs)| <= |xs|
    ensures |Elems(xs)| == |xs| <==> NoRepeats(xs)
    decreases |xs|
  {
    if xs != [] {
      var pre, x := xs[..|xs| - 1], xs[|xs| - 1];
      DistinctSize(pre);
      assert Elems(xs) == Elems(pre) + {x};
      assert NoRepeats(xs) ==> x !in Elems(pre);
      assert x !in Elems(pre) && NoRepeats(pre) ==> NoRepeats(xs);
      if x in Elems(pre) { assert Elems(xs) == Elems(pre); }
    } else {
      assert Elems(xs) == {};
    }
  }

  lemma OpenedInv(peers: seq<NodeID>)
    requires |peers| < TWO32
    ensures Inv(Opened(peers))
  {
    var s := Opened(peers);
    assert Unfinished(s) == Elems(peers);
    assert s.sendingCnt == |peers|;
  }

  /** The counter counts the unfinished peers and the repeated entries, so no value wraps. */
  lemma CounterIs(s: Share)
    requires Inv(s) && |s.peers| < TWO32
    ensures s.sendingCnt == |s.peers| - |Elems(s.peers)| + |Unfinished(s)|
    ensures |Elems(s.peers)| <= |s.peers|
  {
    DistinctSize(s.peers);
    SubsetSize(Unfinished(s), s.peerState.Keys);
  }

  lemma {:induction false} SubsetSize(a: set<NodeID>, b: set<NodeID>)
    requires a <= b
    ensures |a| <= |b|
  {
    assert b == a + (b - a) && a !! (b - a);
    assert |b| == |a| + |b - a|;
  }

  lemma NextKeeps(s: Share, e: ShareEvent)
    requires Inv(s) && |s.peers| < TWO32
    ensures Inv(Next(s, e)) && Next(s, e).peers == s.peers
  {
    if !s.closed {
      match e {
        case Accept(from) => AcceptKeeps(s, from);
        case SendResult(dst, ok) => SendResultKeeps(s, dst, ok);
        case Close => assert Unfinished(Next(s, e)) == Unfinished(s);
      }
    }
  }

  lemma AcceptKeeps(s: Share, from: NodeID)
    requires Inv(s) && |s.peers| < TWO32
    ensures Inv(OnAccept(s, from))
  {
    var s' := OnAccept(s, from);
    assert Unfinished(s') == Unfinished(s);
    if s' != s {
      assert from !in s.sends by { assert !Sent(s, from); }
      forall p ensures p in s'.sends <==> Sent(s', p) {
        assert p in s.sends <==> Sent(s, p);
      }
    }
  }

  lemma SendResultKeeps(s: Share, dst: NodeID, ok: bool)
    requires Inv(s) && |s.peers| < TWO32
    ensures Inv(OnSendResult(s, dst, ok))
  {
    var s' := OnSendResult(s, dst, ok);
    if s' != s {
      CounterIs(s);
      assert dst in Unfinished(s) && Unfinished(s') == Unfinished(s) - {dst};
      assert s.sendingCnt > 0;
      assert s'.sendingCnt == s.sendingCnt - 1;
      forall p ensures p in s'.sends <==> Sent(s', p) {
        assert p in s.sends <==> Sent(s, p);
      }
    }
  }

  lemma {:induction false} AfterInv(peers: seq<NodeID>, es: seq<ShareEvent>)
    requires |peers| < TWO32
    ensures Inv(After(peers, es)) && After(peers, es).peers == peers
    decreases |es|
  {
    if es == [] {
      OpenedInv(peers);
    } else {
      AfterInv(peers, es[..|es| - 1]);
      NextKeeps(After(peers, es[..|es| - 1]), es[|es| - 1]);
    }
  }

  /** After any events the counter is the number of peers that are not FINISHED if and only if the
      peer list has no repeats. With a repeat it never reaches zero, and without one it is zero, and
      the share has reported before it closed, exactly once all peers finished. */
  lemma CounterExact(peers: seq<NodeID>, es: seq<ShareEvent>)
    requires |peers| < TWO32
    ensures var s := After(peers, es);
      && (s.sendingCnt == |Unfinished(s)| <==> NoRepeats(peers))
      && (s.sendingCnt == 0 <==> NoRepeats(peers) && Unfinished(s) == {})
      && NoRepeats(s.sends)
      && s.reports == (if peers != [] && NoRepeats(peers) && Unfinished(s) == {} then 1 else 0)
                      + if s.closed then 1 else 0
  {
    AfterInv(peers, es);
    DistinctSize(peers);
    CounterIs(After(peers, es));
  }

  // ---- Who is FINISHED ----

  ghost predicate Accepted(es: seq<ShareEvent>, p: NodeID) {
    exists i :: 0 <= i < |es| && es[i] == Accept(p) && Close !in es[..i]
  }

  lemma AcceptedSnoc(es: seq<ShareEvent>, e: ShareEvent, p: NodeID)
    ensures Accepted(es + [e], p) <==> Accepted(es, p) || (e == Accept(p) && Close !in es)
  {
    var es' := es + [e];
    assert es'[..|es|] == es && es'[|es|] == e;
    assert forall i | 0 <= i < |es| :: es'[i] == es[i] && es'[..i] == es[..i];
  }

  /** Step `j` is a successful send to a peer that had accepted, and the session was still open. */
  ghost predicate HandshakeAt(es: seq<ShareEvent>, p: NodeID, j: nat)
    requires j < |es|
  {
    es[j] == SendResult(p, true) && Accepted(es[..j], p) && Close !in es[..j]
  }

  ghost predicate Handshake(es: seq<ShareEvent>, p: NodeID) {
    exists j: nat :: j < |es| && HandshakeAt(es, p, j)
  }

  lemma HandshakeSnoc(es: seq<ShareEvent>, e: ShareEvent, p: NodeID)
    ensures Handshake(es + [e], p) <==>
      Handshake(es, p) || (e == SendResult(p, true) && Accepted(es, p) && Close !in es)
  {
    hide Accepted;
    var es' := es + [e];
    assert es'[..|es|] == es;
    assert HandshakeAt(es', p, |es|) <==> e == SendResult(p, true) && Accepted(es, p) && Close !in es;
    forall j: nat | j < |es| ensures HandshakeAt(es', p, j) <==> HandshakeAt(es, p, j) {
      assert es'[..j] == es[..j];
    }
  }

  /** A peer counts as finished exactly if it accepted the share and a later send of the data to it
      succeeded, both while the session was open. */
  lemma {:induction false} FinishedExact(peers: seq<NodeID>, es: seq<ShareEvent>, p: NodeID)
    ensures var s := After(peers, es);
      && (s.closed <==> Close in es) && s.peerState.Keys == Elems(peers)
      && (p in peers ==>
            && (s.peerState[p] == SHARE_FINISHED <==> Handshake(es, p))
            && (s.peerState[p] == SHARE_ST <==> !Accepted(es, p))
            && s.peerState[p] != SHARE_ABORT)
    decreases |es|
  {
    if es != [] {
      var pre, e := es[..|es| - 1], es[|es| - 1];
      FinishedExact(peers, pre, p);
      assert es == pre + [e];
      AcceptedSnoc(pre, e, p);
      HandshakeSnoc(pre, e, p);
      HandshakeIsAccepted(pre, p);
      hide Handshake, Accepted;
    }
  }

  lemma HandshakeIsAccepted(es: seq<ShareEvent>, p: NodeID)
    ensures Handshake(es, p) ==> Accepted(es, p)
  {
    if Handshake(es, p) {
      var j: nat :| j < |es| && HandshakeAt(es, p, j);
      var i :| 0 <= i < j && es[..j][i] == Accept(p) && Close !in es[..j][..i];
      assert es[..j][..i] == es[..i];
      assert es[i] == Accept(p);
    }
  }

  /** What the file system records of a share, and a tracker tells: the peers of the list that accepted
      it and were then sent the data while it was open. */
  lemma RecordedExactly(peers: seq<NodeID>, es: seq<ShareEvent>, keys: seq<Key>, p: NodeID, k: Key)
    ensures SharedBy(ShareDone(keys, After(peers, es).peerState), p, k) <==> k in keys && p in peers && Handshake(es, p)
  {
    FinishedExact(peers, es, p);
  }
}
