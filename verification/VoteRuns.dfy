/**
  The vote told by the events of a run alone: who is admitted and under which key, which answers are
  accepted and as what, when the session ends, and which truthful workers decide it.
*/
module VoteRuns {
  import opened Words
  import opened Names
  import opened Blinding
  import opened Vote

  ghost predicate Live(s: Session) { !s.crashed && !s.closed }

  ghost predicate IsFresh(s: Session) { s == Fresh(s.form, s.mid, s.taskID, |s.units|, s.minAnswerCnt) }

  /** The session after the first `n` events. */
  ghost function At(s0: Session, es: seq<Event>, n: nat): Session
    requires n <= |es|
  {
    Run(s0, es[..n])
  }

  lemma {:induction false} RunSnoc(s: Session, es: seq<Event>, e: Event)
    ensures Run(s, es + [e]) == Handle(Run(s, es), e)
    decreases |es|
  {
    hide Handle;
    if es == [] {
      assert [] + [e] == [e];
      assert Run(s, [e]) == Run(Handle(s, e), [e][1..]);
    } else {
      assert (es + [e])[1..] == es[1..] + [e];
      RunSnoc(Handle(s, es[0]), es[1..], e);
    }
  }

  lemma NextAt(s0: Session, es: seq<Event>, n: nat)
    requires n < |es|
    ensures At(s0, es, n + 1) == Handle(At(s0, es, n), es[n])
  {
    assert es[..n + 1] == es[..n] + [es[n]];
    RunSnoc(s0, es[..n], es[n]);
  }

  lemma Start(s0: Session, es: seq<Event>)
    ensures At(s0, es, 0) == s0
  {
  }

  /** What no event changes. */
  ghost predicate Fixed(s0: Session, s: Session) {
    && s.form == s0.form && s.mid == s0.mid && s.taskID == s0.taskID
    && s.minAnswerCnt == s0.minAnswerCnt && |s.units| == |s0.units|
  }

  lemma HandleFixes(s: Session, e: Event)
    ensures Fixed(s, Handle(s, e))
  {
    hide Tally, UnblindAll, CanTerminate, Add;
    if e.PeerAnswer? && e.caller in s.peers {
      var u := UnblindAll(s.form, e.blinded, s.peers[e.caller].confoundKey);
      if u.Some? { TallyShape(s.units, u.value, 0); }
    }
  }

  lemma {:induction false} FixedAt(s0: Session, es: seq<Event>, n: nat)
    requires n <= |es|
    ensures Fixed(s0, At(s0, es, n))
  {
    if n > 0 {
      FixedAt(s0, es, n - 1);
      NextAt(s0, es, n - 1);
      HandleFixes(At(s0, es, n - 1), es[n - 1]);
    }
  }

  lemma StaysDead(s: Session, e: Event)
    ensures !Live(s) ==> Handle(s, e) == s
  {
  }

  lemma {:induction false} LiveBefore(s0: Session, es: seq<Event>, m: nat, n: nat)
    requires m <= n <= |es| && Live(At(s0, es, n))
    ensures Live(At(s0, es, m))
    decreases n - m
  {
    if m < n {
      NextAt(s0, es, n - 1);
      StaysDead(At(s0, es, n - 1), es[n - 1]);
      LiveBefore(s0, es, m, n - 1);
    }
  }

  // ---- Who is admitted ----

  /** Event `i` is an offer of `p`, from `p` itself, for this task of this master, that the open session
      reads. */
  ghost predicate Offers(s0: Session, es: seq<Event>, i: nat, p: NodeID) {
    && i < |es| && Live(At(s0, es, i)) && es[i].PeerRes?
    && es[i].worker == p && es[i].from == p && es[i].master == s0.mid && es[i].task == s0.taskID
  }

  /** The first offer of `p`. */
  ghost predicate AdmittedAt(s0: Session, es: seq<Event>, i: nat, p: NodeID) {
    Offers(s0, es, i, p) && forall j: nat | j < i :: !Offers(s0, es, j, p)
  }

  ghost predicate Answers(es: seq<Event>, j: nat, p: NodeID) { j < |es| && es[j].PeerAnswer? && es[j].caller == p }

  ghost predicate AnsweredBetween(es: seq<Event>, k: nat, n: nat, p: NodeID) {
    exists j: nat :: k < j < n && Answers(es, j, p)
  }

  /** What the session has of `p` after `n` events. */
  ghost predicate PeerIs(s0: Session, es: seq<Event>, n: nat, p: NodeID)
    requires n <= |es|
  {
    var s := At(s0, es, n);
    && (p in s.peers <==> exists i: nat :: i < n && Offers(s0, es, i, p))
    && forall i: nat | i < n && AdmittedAt(s0, es, i, p) ::
         && p in s.peers && s.peers[p].confoundKey == es[i].key
         && (Live(s) ==> s.peers[p].state == if AnsweredBetween(es, i, n, p) then SUBMITTED else RUNNING)
  }

  /** In every run: a worker takes part exactly if some event, while the session was open, was its own
      offer for this task; the key it was sent is the one of its first such offer; and it is waited for
      until it answers. */
  lemma {:induction false} AdmittedExactly(s0: Session, es: seq<Event>, n: nat, p: NodeID)
    requires IsFresh(s0) && n <= |es|
    ensures PeerIs(s0, es, n, p)
  {
    hide At, PeerIs, IsFresh, Fixed;
    if n == 0 {
      NobodyAtFirst(s0, es, p);
    } else {
      AdmittedExactly(s0, es, n - 1, p);
      NextAt(s0, es, n - 1);
      FixedAt(s0, es, n - 1);
      PeerStep(s0, es, n - 1, p);
    }
  }

  lemma NobodyAtFirst(s0: Session, es: seq<Event>, p: NodeID)
    requires IsFresh(s0)
    ensures PeerIs(s0, es, 0, p)
  {
    assert At(s0, es, 0).peers == map[];
  }

  /** What one event does to `p`. */
  lemma PeerOf(s: Session, e: Event, p: NodeID)
    requires Live(s)
    ensures var s' := Handle(s, e);
      var offer := e.PeerRes? && e.worker == p && e.from == p && e.master == s.mid && e.task == s.taskID;
      && (p in s'.peers <==> p in s.peers || offer)
      && (p in s.peers && !(e.PeerAnswer? && e.caller == p) ==> s'.peers[p] == s.peers[p])
      && (p in s.peers ==> s'.peers[p].confoundKey == s.peers[p].confoundKey)
      && (p in s.peers && s.peers[p].state != RUNNING ==> s'.peers[p] == s.peers[p])
      && (p in s.peers && s.peers[p].state == RUNNING && e.PeerAnswer? && e.caller == p && Live(s') ==>
            s'.peers[p].state == SUBMITTED)
      && (p !in s.peers && offer ==> s'.peers[p].confoundKey == e.key && s'.peers[p].state == RUNNING)
  {
    hide Tally, UnblindAll, CanTerminate, Add;
  }

  lemma PeerStep(s0: Session, es: seq<Event>, n: nat, p: NodeID)
    requires n < |es| && PeerIs(s0, es, n, p) && Fixed(s0, At(s0, es, n))
    requires At(s0, es, n + 1) == Handle(At(s0, es, n), es[n])
    ensures PeerIs(s0, es, n + 1, p)
  {
    var s, e, s' := At(s0, es, n), es[n], At(s0, es, n + 1);
    if !Live(s) {
      StaysDead(s, e);
    } else {
      PeerOf(s, e, p);
    }
    hide Handle, At;
    hide Fixed, AnsweredBetween;
    assert (exists i: nat :: i < n + 1 && Offers(s0, es, i, p)) <==>
           (exists i: nat :: i < n && Offers(s0, es, i, p)) || Offers(s0, es, n, p);
    forall i: nat | i < n + 1 && AdmittedAt(s0, es, i, p)
      ensures p in s'.peers && s'.peers[p].confoundKey == es[i].key
      ensures Live(s') ==> s'.peers[p].state == if AnsweredBetween(es, i, n + 1, p) then SUBMITTED else RUNNING
    {
      BetweenNext(es, i, n, p);
    }
  }

  lemma BetweenNext(es: seq<Event>, i: nat, n: nat, p: NodeID)
    ensures AnsweredBetween(es, i, n + 1, p) <==> i < n && (AnsweredBetween(es, i, n, p) || Answers(es, n, p))
  {
  }

  // ---- Which answers are accepted ----

  /** Event `i` is the first answer of a worker since its admission by event `k`, and the session is open. */
  ghost predicate FirstAnswer(s0: Session, es: seq<Event>, i: nat, k: nat) {
    && k < i < |es| && Live(At(s0, es, i)) && es[i].PeerAnswer?
    && AdmittedAt(s0, es, k, es[i].caller) && !AnsweredBetween(es, k, i, es[i].caller)
  }

  /** What the answer of event `i` says under the key of event `k`. */
  ghost function Said(s0: Session, es: seq<Event>, i: nat, k: nat): Option<seq<HashVal>>
    requires FirstAnswer(s0, es, i, k)
  {
    UnblindAll(s0.form, es[i].blinded, es[k].key)
  }

  ghost predicate Submits(s0: Session, es: seq<Event>, i: nat, k: nat, vec: seq<HashVal>) {
    FirstAnswer(s0, es, i, k) && Said(s0, es, i, k) == Some(vec) && |vec| <= |s0.units|
  }

  lemma {:induction false} FirstOffer(s0: Session, es: seq<Event>, i: nat, p: NodeID) returns (k: nat)
    requires Offers(s0, es, i, p)
    ensures k <= i && AdmittedAt(s0, es, k, p)
    decreases i
  {
    hide Offers;
    if j: nat :| j < i && Offers(s0, es, j, p) { k := FirstOffer(s0, es, j, p); } else { k := i; }
  }

  /** The session waits for the caller of event `i` exactly if this is its first answer. */
  lemma WaitedFor(s0: Session, es: seq<Event>, i: nat)
    requires IsFresh(s0) && i < |es| && es[i].PeerAnswer? && Live(At(s0, es, i))
    ensures var s, p := At(s0, es, i), es[i].caller;
      && (p in s.peers && s.peers[p].state == RUNNING <==> exists k: nat :: FirstAnswer(s0, es, i, k))
      && forall k: nat | FirstAnswer(s0, es, i, k) :: p in s.peers && s.peers[p].confoundKey == es[k].key
  {
    var s, p := At(s0, es, i), es[i].caller;
    AdmittedExactly(s0, es, i, p);
    hide At, IsFresh, Live, Offers, AnsweredBetween;
    if p in s.peers {
      var j: nat :| j < i && Offers(s0, es, j, p);
      var k := FirstOffer(s0, es, j, p);
      assert s.peers[p].state == if AnsweredBetween(es, k, i, p) then SUBMITTED else RUNNING;
      if s.peers[p].state == RUNNING { assert FirstAnswer(s0, es, i, k); }
      forall k': nat | FirstAnswer(s0, es, i, k') ensures k' == k {
        assert AdmittedAt(s0, es, k', p) && AdmittedAt(s0, es, k, p);
        assert Offers(s0, es, k', p) && Offers(s0, es, k, p);
      }
    }
  }

  /** Event `i` adds the submission `x`: the first answer of an admitted worker, under the key of its
      first offer, with a value for no more units than there are. */
  ghost predicate Adds(s0: Session, es: seq<Event>, i: nat, x: Submission) {
    && i < |es| && es[i].PeerAnswer? && x.worker == es[i].caller
    && exists k: nat :: Submits(s0, es, i, k, x.vec)
  }

  lemma AddsIsAccepted(s0: Session, es: seq<Event>, i: nat, x: Submission)
    requires IsFresh(s0) && i < |es|
    ensures Accepted(At(s0, es, i), es[i]) == Some(x) <==> Adds(s0, es, i, x)
  {
    FixedAt(s0, es, i);
    if es[i].PeerAnswer? && Live(At(s0, es, i)) { WaitedFor(s0, es, i); }
    hide At, IsFresh, UnblindAll, AdmittedAt, AnsweredBetween;
    var s := At(s0, es, i);
    if k: nat :| FirstAnswer(s0, es, i, k) {
      assert Accepted(s, es[i]) == Some(x) <==> x.worker == es[i].caller && Submits(s0, es, i, k, x.vec);
    }
  }

  ghost function SubmissionAt(s0: Session, es: seq<Event>, i: nat): Option<Submission> {
    if exists x :: Adds(s0, es, i, x) then
      var x :| Adds(s0, es, i, x);
      Some(x)
    else None
  }

  /** What an event adds to the history is told by the events alone. */
  lemma AcceptedExactly(s0: Session, es: seq<Event>, i: nat)
    requires IsFresh(s0) && i < |es|
    ensures Accepted(At(s0, es, i), es[i]) == SubmissionAt(s0, es, i)
    ensures forall x :: SubmissionAt(s0, es, i) == Some(x) <==> Adds(s0, es, i, x)
  {
    hide Adds, Accepted, IsFresh, At;
    var a := Accepted(At(s0, es, i), es[i]);
    forall x ensures a == Some(x) <==> Adds(s0, es, i, x) { AddsIsAccepted(s0, es, i, x); }
  }

  /** The submissions of the first `n` events. */
  ghost function Submissions(s0: Session, es: seq<Event>, n: nat): History {
    if n == 0 then [] else Extend(Submissions(s0, es, n - 1), SubmissionAt(s0, es, n - 1))
  }

  lemma {:induction false} HistorySnoc(s: Session, hs: History, es: seq<Event>, e: Event)
    ensures HistoryOf(s, hs, es + [e]) == Extend(HistoryOf(s, hs, es), Accepted(Run(s, es), e))
    decreases |es|
  {
    hide Handle, Accepted;
    if es == [] {
      assert [] + [e] == [e];
      assert HistoryOf(s, hs, [e]) == HistoryOf(Handle(s, e), Extend(hs, Accepted(s, e)), [e][1..]);
    } else {
      assert (es + [e])[1..] == es[1..] + [e];
      HistorySnoc(Handle(s, es[0]), Extend(hs, Accepted(s, es[0])), es[1..], e);
    }
  }

  lemma {:induction false} SubmissionsAre(s0: Session, es: seq<Event>, n: nat)
    requires IsFresh(s0) && n <= |es|
    ensures HistoryOf(s0, [], es[..n]) == Submissions(s0, es, n)
  {
    hide IsFresh, Accepted, SubmissionAt;
    if n > 0 {
      SubmissionsAre(s0, es, n - 1);
      assert es[..n] == es[..n - 1] + [es[n - 1]];
      HistorySnoc(s0, [], es[..n - 1], es[n - 1]);
      AcceptedExactly(s0, es, n - 1);
    }
  }

  // ---- When the session ends ----

  ghost predicate DeployedBefore(es: seq<Event>, n: nat) {
    exists j: nat :: j < n && j < |es| && es[j] == Deployed(true)
  }

  /** The event closes the session: it is stopped, its termination is confirmed, or its deployment fails
      before it is deployed or has decided. */
  ghost predicate Closes(s0: Session, es: seq<Event>, i: nat)
    requires i < |es|
  {
    || es[i].Stopped? || es[i].Terminated?
    || (es[i] == Deployed(false) && !DeployedBefore(es, i) && At(s0, es, i).decided == [])
  }

  /** The event makes the session panic: a first answer that cannot be unblinded or has values for more
      units than there are; or, without any units, the answer that completes the required number. */
  ghost predicate Panics(s0: Session, es: seq<Event>, i: nat)
    requires i < |es|
  {
    exists k: nat :: FirstAnswer(s0, es, i, k) &&
      match Said(s0, es, i, k)
      case None => true
      case Some(vec) =>
        |vec| > |s0.units| || (|s0.units| == 0 && s0.minAnswerCnt <= Wrap(|Submissions(s0, es, i)| + 1))
  }

  /** How far the deployment and the vote are, while the session is open. */
  ghost function StateOf(s: Session, es: seq<Event>, n: nat): STState {
    if s.decided != [] then STASK_TERMINATING
    else if DeployedBefore(es, n) then STASK_RUNNING
    else STASK_DEPLOYING
  }

  ghost predicate Ended(s0: Session, es: seq<Event>, n: nat)
    requires n <= |es|
  {
    var s := At(s0, es, n);
    && (Live(s) ==> s.state == StateOf(s, es, n))
    && (s.closed <==> exists i: nat :: i < n && Live(At(s0, es, i)) && Closes(s0, es, i))
    && (s.crashed <==> exists i: nat :: i < n && Live(At(s0, es, i)) && Panics(s0, es, i))
  }

  /** What one event does to an open session. */
  lemma EndOf(s: Session, e: Event)
    requires Live(s)
    ensures var s', a := Handle(s, e), Accepted(s, e);
      var waited := e.PeerAnswer? && e.caller in s.peers && s.peers[e.caller].state == RUNNING;
      && (s'.closed <==> e.Stopped? || e.Terminated? || (e == Deployed(false) && s.state == STASK_DEPLOYING))
      && (s'.crashed <==> waited && (a.None? || (|s.units| == 0 && s.minAnswerCnt <= Add(s.answerCnt, 1))))
      && |s.decided| <= |s'.decided|
      && (Live(s') ==>
            s'.state == if |s.decided| < |s'.decided| then STASK_TERMINATING
                        else if e == Deployed(true) && s.state == STASK_DEPLOYING then STASK_RUNNING
                        else s.state)
  {
    if e.PeerAnswer? && e.caller in s.peers && s.peers[e.caller].state == RUNNING {
      var u := UnblindAll(s.form, e.blinded, s.peers[e.caller].confoundKey);
      if u.Some? { TallyShape(s.units, u.value, 0); }
    }
    hide Tally, UnblindAll, Add, Twice;
  }

  /** When a session ends, and in which state it is until then. */
  lemma {:induction false} EndsExactly(s0: Session, es: seq<Event>, n: nat)
    requires IsFresh(s0) && n <= |es|
    ensures Ended(s0, es, n)
  {
    hide IsFresh, At, Ended, Handle, Closes, Panics;
    if n == 0 {
      OpenAtFirst(s0, es);
    } else {
      EndsExactly(s0, es, n - 1);
      NextAt(s0, es, n - 1);
      EndStep(s0, es, n - 1);
    }
  }

  lemma OpenAtFirst(s0: Session, es: seq<Event>)
    requires IsFresh(s0)
    ensures Ended(s0, es, 0)
  {
    var s := At(s0, es, 0);
    assert s == s0 && Live(s) && s.state == STASK_DEPLOYING && s.decided == [];
  }

  lemma EndStep(s0: Session, es: seq<Event>, n: nat)
    requires IsFresh(s0) && n < |es| && Ended(s0, es, n)
    requires At(s0, es, n + 1) == Handle(At(s0, es, n), es[n])
    ensures Ended(s0, es, n + 1)
  {
    var s, e, s' := At(s0, es, n), es[n], At(s0, es, n + 1);
    StaysDead(s, e);
    if Live(s) {
      EndOf(s, e);
      PanicsHere(s0, es, n);
    }
    hide IsFresh, At, Handle, Accepted, Panics;
    assert DeployedBefore(es, n + 1) <==> DeployedBefore(es, n) || e == Deployed(true);
    assert (exists i: nat :: i < n + 1 && Live(At(s0, es, i)) && Closes(s0, es, i)) <==>
           (exists i: nat :: i < n && Live(At(s0, es, i)) && Closes(s0, es, i)) || (Live(s) && Closes(s0, es, n));
    assert (exists i: nat :: i < n + 1 && Live(At(s0, es, i)) && Panics(s0, es, i)) <==>
           (exists i: nat :: i < n && Live(At(s0, es, i)) && Panics(s0, es, i)) || (Live(s) && Panics(s0, es, n));
  }

  lemma PanicsHere(s0: Session, es: seq<Event>, n: nat)
    requires IsFresh(s0) && n < |es| && Live(At(s0, es, n))
    ensures var s, e := At(s0, es, n), es[n];
      var waited := e.PeerAnswer? && e.caller in s.peers && s.peers[e.caller].state == RUNNING;
      Panics(s0, es, n) <==>
        waited && (Accepted(s, e).None? || (|s.units| == 0 && s.minAnswerCnt <= Add(s.answerCnt, 1)))
  {
    var s, e := At(s0, es, n), es[n];
    if e.PeerAnswer? {
      WaitedFor(s0, es, n);
      FixedAt(s0, es, n);
      CounterAt(s0, es, n);
      AddOfWrap(|Submissions(s0, es, n)|, 1);
      hide IsFresh, At, UnblindAll, FirstAnswer, Submissions, Wrap, Add;
      forall k: nat | FirstAnswer(s0, es, n, k)
        ensures Said(s0, es, n, k) == UnblindAll(s.form, e.blinded, s.peers[e.caller].confoundKey)
      {
        CallerIs(s0, es, n, k);
      }
    }
  }

  lemma CallerIs(s0: Session, es: seq<Event>, i: nat, k: nat)
    requires FirstAnswer(s0, es, i, k)
    ensures es[i].PeerAnswer?
  {
  }

  /** The counter is the number of submissions. */
  lemma CounterAt(s0: Session, es: seq<Event>, n: nat)
    requires IsFresh(s0) && n <= |es|
    ensures At(s0, es, n).answerCnt == Wrap(|Submissions(s0, es, n)|)
  {
    TallyOverEveryRun(s0.form, s0.mid, s0.taskID, |s0.units|, s0.minAnswerCnt, es[..n]);
    SubmissionsAre(s0, es, n);
  }

  // ---- Honest workers ----

  /** Event `i` answers with the true vector, blinded with the key its sender was sent. */
  ghost predicate Truthful(s0: Session, es: seq<Event>, i: nat, truth: seq<HashVal>) {
    exists k: nat ::
      && FirstAnswer(s0, es, i, k)
      && BlindAll(s0.form, truth, es[k].key) == Some(es[i].blinded)
      && (s0.form == FixedWidth || forall a | a in truth :: LiteralCancels(a, es[k].key))
  }

  ghost function TruthfulCount(s0: Session, es: seq<Event>, n: nat, truth: seq<HashVal>): nat {
    if n == 0 then 0
    else TruthfulCount(s0, es, n - 1, truth) + if Truthful(s0, es, n - 1, truth) then 1 else 0
  }

  /** A truthful answer is counted as the truth. */
  lemma TruthIsCounted(s0: Session, es: seq<Event>, i: nat, truth: seq<HashVal>)
    requires IsFresh(s0) && i < |es| && |truth| == |s0.units| && Truthful(s0, es, i, truth)
    ensures es[i].PeerAnswer? && SubmissionAt(s0, es, i) == Some(Submission(es[i].caller, truth))
  {
    var k: nat :| FirstAnswer(s0, es, i, k)
      && BlindAll(s0.form, truth, es[k].key) == Some(es[i].blinded)
      && (s0.form == FixedWidth || forall a | a in truth :: LiteralCancels(a, es[k].key));
    VectorCancels(s0.form, truth, es[k].key);
    CallerIs(s0, es, i, k);
    AcceptedExactly(s0, es, i);
    hide FirstAnswer, UnblindAll, BlindAll, LiteralCancels;
    assert Submits(s0, es, i, k, truth);
    assert Adds(s0, es, i, Submission(es[i].caller, truth));
  }

  lemma {:induction false} TruthfulCounted(s0: Session, es: seq<Event>, n: nat, truth: seq<HashVal>)
    requires IsFresh(s0) && n <= |es| && |truth| == |s0.units|
    ensures TruthfulCount(s0, es, n, truth) <= Honest(Submissions(s0, es, n), truth)
  {
    hide IsFresh, Truthful, SubmissionAt, Honest;
    if n > 0 {
      TruthfulCounted(s0, es, n - 1, truth);
      var x := SubmissionAt(s0, es, n - 1);
      if x.Some? { HonestSnoc(Submissions(s0, es, n - 1), x.value, truth); }
      if Truthful(s0, es, n - 1, truth) { TruthIsCounted(s0, es, n - 1, truth); }
    }
  }

  /** If more than half of the submissions of a run are first answers with the true vector, blinded with
      the keys of the workers' first offers, and enough are in, the last announcement is the true
      vector. */
  lemma HonestWorkersWin(s0: Session, es: seq<Event>, truth: seq<HashVal>)
    requires IsFresh(s0) && |truth| == |s0.units| > 0
    requires var hs := Submissions(s0, es, |es|);
      s0.minAnswerCnt <= |hs| < TWO31 && 2 * TruthfulCount(s0, es, |es|, truth) > |hs|
    ensures var decided := Run(s0, es).decided;
      decided != [] && decided[|decided| - 1] == truth
  {
    var hs := Submissions(s0, es, |es|);
    assert es[..|es|] == es;
    SubmissionsAre(s0, es, |es|);
    TruthfulCounted(s0, es, |es|, truth);
    HonestDecides(hs, truth);
    DecisionsOverEveryRun(s0.form, s0.mid, s0.taskID, |truth|, s0.minAnswerCnt, es);
    DueIs(hs, |truth|, s0.minAnswerCnt, truth);
  }
}
