/**
  For which file descriptions a parallel purchase can panic (src/fs/tracker.go:115-145). The
  description comes from the master, the rest from trackers and peers.
*/
module PurchasePanics {
  import opened Words
  import opened Names
  import opened ParallelPurchase

  /** Group `i` has no size, no hash or no keys. */
  predicate Defective(meta: FileMeta, i: nat) {
    i < |meta.KeyGroup| && (!HasMeta(meta, i) || meta.KeyGroup[i] == [])
  }

  // ---- Without a defective group nothing panics ----

  /** The session runs, and every purchase it asked for has a key. */
  ghost predicate Runs(s: Session) {
    && Shape(s) && !s.crashed
    && (forall i: nat :: !Defective(s.meta, i))
    && forall p | p in s.asked :: p.keys != []
  }

  lemma AskRuns(s: Session, i: nat, peer: NodeID)
    requires Runs(s) && i < |s.fileState|
    ensures Runs(Ask(s, i, peer))
  {
    assert !Defective(s.meta, i);
  }

  lemma {:induction false} HearRuns(s: Session, reply: seq<seq<NodeID>>, i: nat)
    requires Runs(s) && i <= |reply| == |s.fileState|
    ensures Runs(HearAll(s, reply, i))
    decreases |reply| - i
  {
    if i < |reply| {
      if reply[i] != [] { AskRuns(s, i, reply[i][0]); }
      HearRuns(Hear(s, i, reply[i]), reply, i + 1);
    }
  }

  lemma {:induction false} FindRuns(groups: seq<seq<Key>>, key: Key, i: nat)
    requires i <= |groups| && forall j | 0 <= j < |groups| :: groups[j] != []
    ensures !Find(groups, key, i).Panics?
    decreases |groups| - i
  {
    if i < |groups| { FindRuns(groups, key, i + 1); }
  }

  lemma ResultRuns(s: Session, p: Purchase, ok: bool, next: NodeID)
    requires Runs(s) && p.keys != []
    ensures Runs(OnResult(s, p.keys, p.peer, ok, next))
  {
    if s.meta.KeyGroup != [] {
      forall j: nat | j < |s.meta.KeyGroup| ensures s.meta.KeyGroup[j] != [] { assert !Defective(s.meta, j); }
      FindRuns(s.meta.KeyGroup, p.keys[0], 0);
      var found := Find(s.meta.KeyGroup, p.keys[0], 0);
      if found.Found? && !ok {
        var left := s.peerGroup[found.i] - {p.peer};
        AskRuns(s.(peerGroup := s.peerGroup[found.i := left], fileState := s.fileState[found.i := UNKNOWN]),
                found.i, next);
      }
    }
  }

  lemma {:induction false} RunRuns(w: World, es: seq<PurchaseEvent>)
    requires WorldShape(w) && Runs(w.s) && LegalRun(w, es)
    ensures Runs(Run(w, es).s)
    decreases |es|
  {
    if es != [] {
      if !w.s.closed {
        match es[0] {
          case Reply(reply) => if |reply| == |w.s.fileState| { HearRuns(w.s, reply, 0); }
          case Result(p, ok, next) =>
            assert p in w.s.asked;
            ResultRuns(w.s, p, ok, next);
          case Close =>
        }
      }
      RunRuns(Step(w, es[0]), es[1..]);
    }
  }

  // ---- A defective group is reached ----

  /** A reply with one peer for group `i` and none for the others. */
  function ReplyFor(l: nat, i: nat): (r: seq<seq<NodeID>>)
    ensures |r| == l && forall j: nat | j < l :: r[j] == if j == i then [0] else []
  {
    seq(l, j => if j == i then [0] else [])
  }

  lemma {:induction false} SkipsOthers(s: Session, i: nat, k: nat)
    requires Shape(s) && !s.crashed && i < |s.fileState| && k <= |s.fileState|
    ensures HearAll(s, ReplyFor(|s.fileState|, i), k) == if k <= i then Hear(s, i, [0]) else s
    decreases |s.fileState| - k
  {
    var reply := ReplyFor(|s.fileState|, i);
    if k < |reply| {
      if k == i {
        var s' := Hear(s, i, [0]);
        if !s'.crashed { SkipsOthers(s', i, k + 1); }
      } else {
        SkipsOthers(s, i, k + 1);
      }
    }
  }

  /** A tracker names a peer for the group; if that does not panic already, the result of that purchase
      does. */
  lemma DefectPanics(meta: FileMeta, i: nat) returns (es: seq<PurchaseEvent>)
    requires Defective(meta, i)
    ensures LegalRun(Begun(meta), es) && Run(Begun(meta), es).s.crashed
  {
    var w := Begun(meta);
    var e := Reply(ReplyFor(|meta.KeyGroup|, i));
    SkipsOthers(w.s, i, 0);
    var w1 := Step(w, e);
    assert w1.s == Hear(w.s, i, [0]);
    if !HasMeta(meta, i) {
      es := [e];
      assert es[1..] == [];
    } else {
      var p := Of(meta, i, 0);
      var e1 := Result(p, true, 0);
      assert w1.s.asked == [p] && w1.done == [];
      assert Legal(w1, e1) && Step(w1, e1).s.crashed;
      TwoSteps(w, e, e1);
      es := [e, e1];
    }
  }

  lemma TwoSteps(w: World, e1: PurchaseEvent, e2: PurchaseEvent)
    requires WorldShape(w)
    ensures Run(w, [e1, e2]) == Step(Step(w, e1), e2)
    ensures LegalRun(w, [e1, e2]) <==> Legal(w, e1) && Legal(Step(w, e1), e2)
  {
    hide Step, Legal;
    var es := [e1, e2];
    assert es[1..] == [e2] && es[1..][1..] == [];
    assert Run(Step(w, e1), [e2]) == Run(Step(Step(w, e1), e2), []);
    assert LegalRun(Step(w, e1), [e2]) <==> Legal(Step(w, e1), e2);
  }

  /** Some run panics exactly if some group has no size, no hash or no keys. */
  lemma PanicsExactly(meta: FileMeta)
    ensures (exists es :: LegalRun(Begun(meta), es) && Run(Begun(meta), es).s.crashed) <==>
      exists i: nat :: Defective(meta, i)
  {
    if i: nat :| Defective(meta, i) {
      var es := DefectPanics(meta, i);
    } else {
      forall es | LegalRun(Begun(meta), es) ensures !Run(Begun(meta), es).s.crashed {
        RunRuns(Begun(meta), es);
      }
    }
  }
}
