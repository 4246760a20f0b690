/**
  When a parallel purchase may announce success too early.

  Results are matched to groups by their first key (src/fs/tracker.go:144-145). If two groups share
  it, the result of the second counts for the first, and the counter reaches zero while a group is
  still being purchased.
*/
module PurchaseSuccess {
  import opened Words
  import opened Names
  import opened ParallelPurchase

  /** Success is announced only if every group is PURCHASED. */
  predicate Sound(w: World) {
    true in w.s.announced ==> forall i | 0 <= i < |w.s.fileState| :: w.s.fileState[i] == PURCHASED
  }

  /** The purchases of the first `k` groups, each from peer 0. */
  function AllOf(meta: FileMeta, k: nat): (ps: seq<Purchase>)
    requires MetaOk(meta) && k <= |meta.KeyGroup|
    ensures |ps| == k && forall i: nat | i < k :: ps[i] == Of(meta, i, 0)
  {
    seq(k, i requires 0 <= i < k => Of(meta, i, 0))
  }

  /** A tracker named peer 0 for the first `k` groups. */
  function Named(meta: FileMeta, k: nat): (s: Session)
    requires MetaOk(meta) && k <= |meta.KeyGroup|
    ensures Shape(s)
  {
    var l := |meta.KeyGroup|;
    Session(meta, seq(l, i => if i < k then {0} else {}), seq(l, i => if i < k then PURCHASING else UNKNOWN),
            Wrap(l), AllOf(meta, k), [], false, false)
  }

  lemma NamesNext(meta: FileMeta, k: nat)
    requires MetaOk(meta) && k < |meta.KeyGroup|
    ensures Hear(Named(meta, k), k, [0]) == Named(meta, k + 1)
  {
    var s, s' := Hear(Named(meta, k), k, [0]), Named(meta, k + 1);
    assert Elems([0]) == {0};
    assert s.fileState == s'.fileState;
    assert s.peerGroup[k] == {} + {0} == {0};
    assert s.peerGroup == s'.peerGroup;
    assert s.asked == s'.asked;
  }

  lemma {:induction false} NamesAll(meta: FileMeta, reply: seq<seq<NodeID>>, k: nat)
    requires MetaOk(meta) && k <= |meta.KeyGroup| == |reply|
    requires forall i | 0 <= i < |reply| :: reply[i] == [0]
    ensures HearAll(Named(meta, k), reply, k) == Named(meta, |reply|)
    decreases |reply| - k
  {
    assert !Named(meta, k).crashed;
    hide Named, Hear;
    if k < |reply| {
      NamesNext(meta, k);
      NamesAll(meta, reply, k + 1);
    }
  }

  /** Successful results for the groups from `k` on, in order. */
  function Successes(meta: FileMeta, k: nat): seq<PurchaseEvent>
    requires MetaOk(meta) && k <= |meta.KeyGroup|
    decreases |meta.KeyGroup| - k
  {
    if k == |meta.KeyGroup| then [] else [Result(Of(meta, k, 0), true, 0)] + Successes(meta, k + 1)
  }

  /** `k` results were read, and none of them counted for group `j`. */
  ghost predicate Halfway(meta: FileMeta, w: World, k: nat, j: nat)
    requires MetaOk(meta)
  {
    && WorldShape(w) && w.s.meta == meta && j < |meta.KeyGroup| && k <= |meta.KeyGroup|
    && !w.s.crashed && !w.s.closed
    && w.s.asked == AllOf(meta, |meta.KeyGroup|) && w.done == AllOf(meta, k)
    && w.s.unpurchasedCnt == |meta.KeyGroup| - k && w.s.fileState[j] == PURCHASING
    && (k == |meta.KeyGroup| ==> true in w.s.announced)
  }

  /** The search finds a group for every first key in the list, never a later one than `i`. */
  lemma {:induction false} FindsEarlier(groups: seq<seq<Key>>, i: nat, k: nat)
    requires k <= i < |groups|
    requires forall j | 0 <= j < |groups| :: groups[j] != []
    ensures Find(groups, groups[i][0], k).Found? && Find(groups, groups[i][0], k).i <= i
    decreases i - k
  {
    if k < i && groups[k][0] != groups[i][0] { FindsEarlier(groups, i, k + 1); }
  }

  /** A group behind another one with the same first key is never found. */
  lemma NeverFound(groups: seq<seq<Key>>, m: nat, j: nat, key: Key)
    requires m < j < |groups| && groups[m] != [] && groups[j] != [] && groups[m][0] == groups[j][0]
    requires forall j | 0 <= j < |groups| :: groups[j] != []
    ensures Find(groups, key, 0) != Found(j)
  {
    if groups[j][0] == key {
      FindsEarlier(groups, m, 0);
    }
  }

  lemma StillPending(meta: FileMeta, k: nat)
    requires MetaOk(meta) && k < |meta.KeyGroup|
    ensures Pending(AllOf(meta, |meta.KeyGroup|), AllOf(meta, k), Of(meta, k, 0)) > 0
    ensures AllOf(meta, k + 1) == AllOf(meta, k) + [Of(meta, k, 0)]
  {
    var p, all := Of(meta, k, 0), AllOf(meta, |meta.KeyGroup|);
    assert all == AllOf(meta, k) + [p] + all[k + 1..];
  }

  lemma NextSuccess(meta: FileMeta, w: World, k: nat, m: nat, j: nat)
    requires MetaOk(meta) && Halfway(meta, w, k, j) && k < |meta.KeyGroup|
    requires m < j && meta.KeyGroup[m][0] == meta.KeyGroup[j][0]
    ensures var e := Result(Of(meta, k, 0), true, 0); Legal(w, e) && Halfway(meta, Step(w, e), k + 1, j)
  {
    var p := Of(meta, k, 0);
    var e := Result(p, true, 0);
    var left := |meta.KeyGroup| - k - 1;
    StillPending(meta, k);
    FindsEarlier(meta.KeyGroup, k, 0);
    NeverFound(meta.KeyGroup, m, j, meta.KeyGroup[k][0]);
    ResidueIs(left, left, 0);
    hide Find, AllOf, Pending;
    var i := Find(meta.KeyGroup, p.keys[0], 0).i;
    assert Step(w, e) == Settled(w, i, p, true, 0);
    assert Settle(w.s, i, 0, true, 0).unpurchasedCnt == left;
  }

  lemma {:induction false} CountsToZero(meta: FileMeta, w: World, k: nat, m: nat, j: nat)
    requires MetaOk(meta) && Halfway(meta, w, k, j)
    requires m < j && meta.KeyGroup[m][0] == meta.KeyGroup[j][0]
    ensures LegalRun(w, Successes(meta, k)) && !Sound(Run(w, Successes(meta, k)))
    decreases |meta.KeyGroup| - k
  {
    hide Step, Legal;
    if k < |meta.KeyGroup| {
      NextSuccess(meta, w, k, m, j);
      var e := Result(Of(meta, k, 0), true, 0);
      var es := Successes(meta, k);
      hide Halfway, Sound;
      CountsToZero(meta, Step(w, e), k + 1, m, j);
      assert es[0] == e && es[1..] == Successes(meta, k + 1);
    }
  }

  /** Two groups with one first key: a tracker names a peer for every group, every purchase succeeds,
      and success is announced although one group is not PURCHASED. */
  lemma SharedKeyFails(meta: FileMeta, m: nat, j: nat) returns (es: seq<PurchaseEvent>)
    requires MetaOk(meta) && m < j < |meta.KeyGroup| && meta.KeyGroup[m][0] == meta.KeyGroup[j][0]
    ensures LegalRun(Begun(meta), es) && !Sound(Run(Begun(meta), es))
  {
    var l := |meta.KeyGroup|;
    var reply := seq(l, _ => [0]);
    var w0 := Begun(meta);
    AfterReply(meta, reply, j);
    var w := Step(w0, Reply(reply));
    var rest := Successes(meta, 0);
    es := [Reply(reply)] + rest;
    hide Step, Halfway;
    CountsToZero(meta, w, 0, m, j);
    assert es[0] == Reply(reply) && es[1..] == rest;
  }

  lemma AfterReply(meta: FileMeta, reply: seq<seq<NodeID>>, j: nat)
    requires MetaOk(meta) && j < |meta.KeyGroup| == |reply|
    requires forall i | 0 <= i < |reply| :: reply[i] == [0]
    ensures Halfway(meta, Step(Begun(meta), Reply(reply)), 0, j)
  {
    var s0, s1 := Begin(meta), Named(meta, 0);
    assert s0.asked == s1.asked && s0.fileState == s1.fileState && s0.peerGroup == s1.peerGroup;
    NamesAll(meta, reply, 0);
    assert AllOf(meta, 0) == [];
    ResidueIs(|reply|, |reply|, 0);
  }

  /** Success is announced soundly in every run exactly if the first keys of the groups are distinct. */
  lemma SuccessIsSoundExactly(meta: FileMeta)
    requires MetaOk(meta)
    ensures FirstKeysDistinct(meta) <==>
      forall es | LegalRun(Begun(meta), es) :: Sound(Run(Begun(meta), es))
  {
    if FirstKeysDistinct(meta) {
      forall es | LegalRun(Begun(meta), es) ensures Sound(Run(Begun(meta), es)) {
        PurchasesOverEveryRun(meta, es);
      }
    } else {
      var i, j :| 0 <= i < j < |meta.KeyGroup| && meta.KeyGroup[i][0] == meta.KeyGroup[j][0];
      var es := SharedKeyFails(meta, i, j);
    }
  }
}
