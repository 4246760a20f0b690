/**
  The worker's phase machine (`WorkerSession.run`, src/worker/session.go:93-163), with the calls it
  makes recorded: requests to execute that are still unanswered, and the vectors it submits.
*/
module Worker {
  import opened Words
  import opened Blinding
  import opened Names

  type TaskID = nat

  datatype Phase = WS_PREPARING | WS_STARTED | WS_FETCHING | WS_RUNNING

  datatype Meta = Meta(masterID: NodeID, taskID: TaskID, confoundKey: HashVal, keyGroup: seq<seq<Key>>)

  datatype Event =
    | Validated(ok: bool, deployer: NodeID, taskID: TaskID)
    | MetaArrived(meta: Meta)
    | Purchased(ok: bool, stored: set<Key>)
    | Executed(ok: bool, answers: seq<HashVal>)
    | Submitted
    | Stopped

  /** `responses` counts messages to the master, `executions` calls of the executer, `unanswered`
      those without a result yet, `submissions` the vectors handed to the contract. */
  datatype Session = Session(
    form: Form, phase: Phase, meta: Meta, responses: nat, executions: nat, unanswered: nat,
    submissions: seq<seq<HashVal>>, crashed: bool, closed: bool)

  /** Reading the first key group before the execution: no group, or a key that is not stored, panics. */
  predicate Readable(keyGroup: seq<seq<Key>>, stored: set<Key>) {
    keyGroup != [] && forall k | k in keyGroup[0] :: k in stored
  }

  /** After `Start`: the master is the one of the request, everything else in the meta is zero. */
  function Started(form: Form, masterID: NodeID): Session {
    Session(form, WS_PREPARING, Meta(masterID, 0, 0, []), 0, 0, 0, [], false, false)
  }

  function OnExecuted(s: Session, ok: bool, answers: seq<HashVal>): Session {
    var s1 := if s.unanswered > 0 then s.(unanswered := s.unanswered - 1) else s;
    if !ok then s1
    else match BlindAll(s.form, answers, s.meta.confoundKey)
      case None => s1.(crashed := true)
      case Some(b) => s1.(submissions := s1.submissions + [b])
  }

  function Handle(s: Session, e: Event): Session {
    if s.crashed || s.closed then s
    else match e
      case Validated(ok, deployer, taskID) =>
        if s.phase == WS_PREPARING && ok && s.meta.masterID == deployer
        then s.(phase := WS_STARTED, meta := s.meta.(taskID := taskID), responses := s.responses + 1)
        else s
      case MetaArrived(meta) =>
        if s.phase == WS_STARTED && meta.masterID == s.meta.masterID && meta.taskID == s.meta.taskID
        then s.(phase := WS_FETCHING, meta := meta)
        else s
      case Purchased(_, stored) =>   // whether the purchase succeeded is not looked at
        if s.phase != WS_FETCHING then s
        else if !Readable(s.meta.keyGroup, stored) then s.(phase := WS_RUNNING, crashed := true)
        else s.(phase := WS_RUNNING, executions := s.executions + 1, unanswered := s.unanswered + 1)
      case Executed(ok, answers) => OnExecuted(s, ok, answers)
      case Submitted => s.(closed := true)
      case Stopped => s.(closed := true)
  }

  /** The session after a list of events, oldest first. */
  function Run(form: Form, masterID: NodeID, es: seq<Event>): Session {
    if es == [] then Started(form, masterID) else Handle(Run(form, masterID, es[..|es| - 1]), es[|es| - 1])
  }

  /** The executer answers only calls made to it, each once. */
  predicate Plausible(form: Form, masterID: NodeID, es: seq<Event>) {
    es == [] ||
    var pre := es[..|es| - 1];
    && Plausible(form, masterID, pre)
    && (es[|es| - 1].Executed? ==> 0 < Run(form, masterID, pre).unanswered)
  }

  // ---- What a run is, by the order of its events ----

  /** Nothing ended the session before step `n`. */
  predicate Open(es: seq<Event>, n: nat)
    requires n <= |es|
  {
    forall l | 0 <= l < n :: !es[l].Submitted? && !es[l].Stopped?
  }

  predicate Grants(e: Event, masterID: NodeID) { e.Validated? && e.ok && e.deployer == masterID }

  /** Step `i` is the first that validates the contract of the master. */
  predicate StartsAt(es: seq<Event>, masterID: NodeID, i: nat) {
    i < |es| && Open(es, i) && Grants(es[i], masterID) && forall l | 0 <= l < i :: !Grants(es[l], masterID)
  }

  predicate Matches(e: Event, masterID: NodeID, taskID: TaskID) {
    e.MetaArrived? && e.meta.masterID == masterID && e.meta.taskID == taskID
  }

  /** Step `j` is the first after it that brings a meta of the master for the validated contract. */
  predicate FetchesAt(es: seq<Event>, masterID: NodeID, i: nat, j: nat) {
    && StartsAt(es, masterID, i)
    && i < j < |es| && Open(es, j) && Matches(es[j], masterID, es[i].taskID)
    && forall l | i < l < j :: !Matches(es[l], masterID, es[i].taskID)
  }

  /** Step `k` is the first purchase result after that. */
  predicate RunsAt(es: seq<Event>, masterID: NodeID, i: nat, j: nat, k: nat) {
    && FetchesAt(es, masterID, i, j)
    && j < k < |es| && Open(es, k) && es[k].Purchased?
    && forall l | j < l < k :: !es[l].Purchased?
  }

  /** The execution starts at step `k`: what was purchased can be read. */
  predicate ExecutesAt(es: seq<Event>, masterID: NodeID, i: nat, j: nat, k: nat) {
    RunsAt(es, masterID, i, j, k) && Readable(es[j].meta.keyGroup, es[k].stored)
  }

  /** At step `m` the answers of that execution arrive, and `r` is what blinding them with the key of the
      accepted meta gives: a vector, or nothing. */
  predicate AnswersAt(es: seq<Event>, form: Form, masterID: NodeID, i: nat, j: nat, k: nat, m: nat,
                      r: Option<seq<HashVal>>)
  {
    && ExecutesAt(es, masterID, i, j, k)
    && k < m < |es| && Open(es, m) && es[m].Executed? && es[m].ok
    && BlindAll(form, es[m].answers, es[j].meta.confoundKey) == r
  }

  // ---- A run so far: how far it came, and by which steps ----

  datatype Trail = Waiting | Granted(i: nat) | Fetched(i: nat, j: nat) | Running(i: nat, j: nat, k: nat)

  /** The trail is the farthest that the events allow. */
  ghost predicate Farthest(es: seq<Event>, masterID: NodeID, t: Trail) {
    match t
    case Waiting => forall l | 0 <= l < |es| && Open(es, l) :: !Grants(es[l], masterID)
    case Granted(i) =>
      StartsAt(es, masterID, i) && forall l | i < l < |es| && Open(es, l) :: !Matches(es[l], masterID, es[i].taskID)
    case Fetched(i, j) =>
      FetchesAt(es, masterID, i, j) && forall l | j < l < |es| && Open(es, l) :: !es[l].Purchased?
    case Running(i, j, k) => RunsAt(es, masterID, i, j, k)
  }

  /** The session is where the trail says, with what its steps brought. */
  ghost predicate Follows(s: Session, es: seq<Event>, masterID: NodeID, t: Trail)
    requires Farthest(es, masterID, t)
  {
    && s.meta.masterID == masterID
    && s.responses == (if t.Waiting? then 0 else 1)
    && match t
       case Waiting => s.phase == WS_PREPARING && Idle(s)
       case Granted(i) => s.phase == WS_STARTED && s.meta.taskID == es[i].taskID && Idle(s)
       case Fetched(i, j) => s.phase == WS_FETCHING && s.meta == es[j].meta && Idle(s)
       case Running(i, j, k) =>
         && s.phase == WS_RUNNING && s.meta == es[j].meta
         && if Readable(es[j].meta.keyGroup, es[k].stored) then s.executions == 1 else Nothing(s) && s.crashed
  }

  ghost predicate Nothing(s: Session) { s.executions == 0 && s.unanswered == 0 && s.submissions == [] }

  ghost predicate Idle(s: Session) { Nothing(s) && !s.crashed }

  /** The session is as open as its events, unless it crashed, and the result of its execution is
      outstanding, lost, or submitted. */
  ghost predicate Accounts(s: Session, form: Form, masterID: NodeID, es: seq<Event>) {
    && s.form == form
    && (s.closed ==> !Open(es, |es|)) && (!s.closed && !s.crashed ==> Open(es, |es|))
    && |s.submissions| + s.unanswered <= s.executions <= 1
    && (s.crashed ==> s.unanswered == 0)
    && forall r :: Delivers(es, form, masterID, r) <==> Delivered(s, r)
  }

  /** The events make the worker submit a vector, or fail to make one. */
  ghost predicate Delivers(es: seq<Event>, form: Form, masterID: NodeID, r: Option<seq<HashVal>>) {
    exists i: nat, j: nat, k: nat, m: nat :: AnswersAt(es, form, masterID, i, j, k, m, r)
  }

  /** It did: it submitted the vector, or panicked after its execution. */
  ghost predicate Delivered(s: Session, r: Option<seq<HashVal>>) {
    match r
    case Some(v) => s.submissions == [v]
    case None => s.crashed && s.executions == 1
  }

  /** The step from `s` to `s'` does. */
  ghost predicate DeliversNow(s: Session, s': Session, r: Option<seq<HashVal>>) {
    match r
    case Some(v) => s'.submissions == s.submissions + [v]
    case None => s'.crashed
  }

  lemma OpenSnoc(es: seq<Event>, e: Event)
    ensures forall n: nat | n <= |es| :: Open(es + [e], n) <==> Open(es, n)
    ensures Open(es + [e], |es| + 1) <==> Open(es, |es|) && !e.Submitted? && !e.Stopped?
  {
    var es' := es + [e];
    assert forall l | 0 <= l < |es| :: es'[l] == es[l];
    assert es'[|es|] == e;
  }

  /** Steps already taken stay what they are. */
  lemma TakenStays(es: seq<Event>, e: Event, masterID: NodeID)
    ensures forall i: nat | i < |es| :: StartsAt(es + [e], masterID, i) <==> StartsAt(es, masterID, i)
    ensures forall i: nat, j: nat | j < |es| :: FetchesAt(es + [e], masterID, i, j) <==> FetchesAt(es, masterID, i, j)
    ensures forall i: nat, j: nat, k: nat | k < |es| ::
              RunsAt(es + [e], masterID, i, j, k) <==> RunsAt(es, masterID, i, j, k)
  {
    OpenSnoc(es, e);
    var es' := es + [e];
    assert forall l | 0 <= l < |es| :: es'[l] == es[l];
  }

  lemma FirstsAreUnique(es: seq<Event>, masterID: NodeID, i: nat, j: nat, k: nat, i': nat, j': nat, k': nat)
    ensures StartsAt(es, masterID, i) && StartsAt(es, masterID, i') ==> i == i'
    ensures FetchesAt(es, masterID, i, j) && FetchesAt(es, masterID, i', j') ==> i == i' && j == j'
    ensures RunsAt(es, masterID, i, j, k) && RunsAt(es, masterID, i', j', k') ==> i == i' && j == j' && k == k'
  {
  }

  /** The trail goes on exactly where the session does. */
  lemma TrailStep(s: Session, es: seq<Event>, masterID: NodeID, t: Trail, e: Event) returns (t': Trail)
    requires Farthest(es, masterID, t) && Follows(s, es, masterID, t)
    requires (s.closed ==> !Open(es, |es|)) && (!s.closed && !s.crashed ==> Open(es, |es|))
    requires |s.submissions| + s.unanswered <= s.executions && (e.Executed? ==> 0 < s.unanswered)
    ensures Farthest(es + [e], masterID, t') && Follows(Handle(s, e), es + [e], masterID, t')
  {
    hide BlindAll;
    var es', n := es + [e], |es|;
    OpenSnoc(es, e);
    TakenStays(es, e, masterID);
    assert forall l | 0 <= l < n :: es'[l] == es[l];
    var goes := !s.closed && !s.crashed;
    t' := match t
      case Waiting => if goes && Grants(e, masterID) then Granted(n) else t
      case Granted(i) => if goes && Matches(e, masterID, es[i].taskID) then Fetched(i, n) else t
      case Fetched(i, j) => if goes && e.Purchased? then Running(i, j, n) else t
      case Running(_, _, _) => t;
  }

  /** One more event lets the worker submit exactly if it brings the answers of its execution. */
  lemma DeliversSnoc(es: seq<Event>, e: Event, form: Form, masterID: NodeID, r: Option<seq<HashVal>>)
    ensures Delivers(es + [e], form, masterID, r) <==>
      || Delivers(es, form, masterID, r)
      || exists i: nat, j: nat, k: nat :: AnswersAt(es + [e], form, masterID, i, j, k, |es|, r)
  {
    hide BlindAll, Readable;
    var es' := es + [e];
    OpenSnoc(es, e);
    TakenStays(es, e, masterID);
    assert forall l | 0 <= l < |es| :: es'[l] == es[l];
    hide RunsAt, Open;
    forall i: nat, j: nat, k: nat, m: nat | m < |es|
      ensures AnswersAt(es', form, masterID, i, j, k, m, r) <==> AnswersAt(es, form, masterID, i, j, k, m, r)
    {
      RunsBefore(es, masterID, i, j, k);
      RunsBefore(es', masterID, i, j, k);
    }
    if i: nat, j: nat, k: nat, m: nat :| AnswersAt(es, form, masterID, i, j, k, m, r) {
      assert AnswersAt(es', form, masterID, i, j, k, m, r);
    }
    if i: nat, j: nat, k: nat, m: nat :| AnswersAt(es', form, masterID, i, j, k, m, r) {
      if m < |es| { assert AnswersAt(es, form, masterID, i, j, k, m, r); }
    }
  }

  lemma RunsBefore(es: seq<Event>, masterID: NodeID, i: nat, j: nat, k: nat)
    ensures RunsAt(es, masterID, i, j, k) ==> j < k < |es|
  {
  }

  lemma AccountStep(s: Session, form: Form, es: seq<Event>, masterID: NodeID, t: Trail, e: Event)
    requires Farthest(es, masterID, t) && Follows(s, es, masterID, t) && Accounts(s, form, masterID, es)
    requires e.Executed? ==> 0 < s.unanswered
    ensures Accounts(Handle(s, e), form, masterID, es + [e])
  {
    var es', s' := es + [e], Handle(s, e);
    OpenSnoc(es, e);
    forall r ensures Delivers(es', form, masterID, r) <==>
      || Delivers(es, form, masterID, r)
      || (e.Executed? && !s.closed && !s.crashed && DeliversNow(s, s', r))
    {
      DeliversSnoc(es, e, form, masterID, r);
      NewSubmission(s, form, es, masterID, t, e, r);
    }
    hide BlindAll, Delivers, Farthest, Follows;
    assert forall l | 0 <= l < |es| :: es'[l] == es[l];
  }

  /** The answers of the execution are submitted exactly if they arrive while the session is open and
      are good; they make the worker panic exactly if they cannot be blinded. */
  lemma NewSubmission(s: Session, form: Form, es: seq<Event>, masterID: NodeID, t: Trail, e: Event,
                      r: Option<seq<HashVal>>)
    requires Farthest(es, masterID, t) && Follows(s, es, masterID, t) && Accounts(s, form, masterID, es)
    requires e.Executed? ==> 0 < s.unanswered
    ensures (exists i: nat, j: nat, k: nat :: AnswersAt(es + [e], form, masterID, i, j, k, |es|, r)) <==>
      e.Executed? && !s.closed && !s.crashed && DeliversNow(s, Handle(s, e), r)
  {
    hide BlindAll, Delivers;
    var es' := es + [e];
    OpenSnoc(es, e);
    TakenStays(es, e, masterID);
    assert forall l | 0 <= l < |es| :: es'[l] == es[l];
    if e.Executed? {
      assert t.Running?;
      var (i, j, k) := (t.i, t.j, t.k);
      if i': nat, j': nat, k': nat :| AnswersAt(es', form, masterID, i', j', k', |es|, r) {
        FirstsAreUnique(es, masterID, i, j, k, i', j', k');
      }
      if !s.closed && !s.crashed && DeliversNow(s, Handle(s, e), r) {
        if r.Some? { assert Handle(s, e).submissions[|s.submissions|] == r.value; }
        assert e.ok && BlindAll(form, e.answers, s.meta.confoundKey) == r;
        assert AnswersAt(es', form, masterID, i, j, k, |es|, r);
      }
    }
  }

  lemma {:induction false} TrailOf(form: Form, masterID: NodeID, es: seq<Event>) returns (t: Trail)
    requires Plausible(form, masterID, es)
    ensures Farthest(es, masterID, t) && Follows(Run(form, masterID, es), es, masterID, t)
    ensures Accounts(Run(form, masterID, es), form, masterID, es)
    decreases |es|
  {
    if es == [] {
      t := Waiting;
    } else {
      var pre, e := es[..|es| - 1], es[|es| - 1];
      assert pre + [e] == es;
      var t0 := TrailOf(form, masterID, pre);
      var s := Run(form, masterID, pre);
      AccountStep(s, form, pre, masterID, t0, e);
      t := TrailStep(s, pre, masterID, t0, e);
    }
  }

  /** In every run the worker answers its master at most once, and exactly if a contract of the master
      is validated while it is open; it never works for any other contract than the first such. It
      submits at most once, and exactly the answers of its execution, blinded with the key of the
      first meta that fits that contract. */
  lemma AtMostOnce(form: Form, masterID: NodeID, es: seq<Event>)
    requires Plausible(form, masterID, es)
    ensures var s := Run(form, masterID, es);
      && s.responses <= 1 && s.executions <= 1 && |s.submissions| <= 1
      && (s.responses == 1 <==> exists i: nat :: StartsAt(es, masterID, i))
      && (s.phase != WS_PREPARING ==> exists i: nat :: StartsAt(es, masterID, i) && s.meta.taskID == es[i].taskID)
      && (forall v :: s.submissions == [v] <==> Delivers(es, form, masterID, Some(v)))
  {
    var t := TrailOf(form, masterID, es);
    var s := Run(form, masterID, es);
    hide Delivers, BlindAll;
    match t {
      case Waiting =>
      case Granted(i) => assert StartsAt(es, masterID, i);
      case Fetched(i, j) => assert StartsAt(es, masterID, i);
      case Running(i, j, k) => assert StartsAt(es, masterID, i);
    }
  }

  /** An execution starts exactly if a contract of the master is validated, then a meta for it arrives,
      then a purchase result, all while the session is open, and the first key group of that meta is
      in the store, whether the purchase succeeded or not. The worker panics there if it is not, and later
      exactly if the answers of the execution cannot be blinded. */
  lemma ExecutesExactly(form: Form, masterID: NodeID, es: seq<Event>)
    requires Plausible(form, masterID, es)
    ensures var s := Run(form, masterID, es);
      && (s.executions == 1 <==> exists i: nat, j: nat, k: nat :: ExecutesAt(es, masterID, i, j, k))
      && (s.crashed && s.executions == 0 <==>
            exists i: nat, j: nat, k: nat :: RunsAt(es, masterID, i, j, k) && !ExecutesAt(es, masterID, i, j, k))
      && (s.crashed && s.executions == 1 <==> Delivers(es, form, masterID, None))
  {
    var t := TrailOf(form, masterID, es);
    assert Delivers(es, form, masterID, None) <==> Delivered(Run(form, masterID, es), None);
    hide Accounts, Delivers;
    forall i: nat, j: nat, k: nat | RunsAt(es, masterID, i, j, k) ensures t == Running(i, j, k) {
      RunsAtIsTrail(es, masterID, t, i, j, k);
    }
    if t.Running? {
      assert RunsAt(es, masterID, t.i, t.j, t.k);
      assert ExecutesAt(es, masterID, t.i, t.j, t.k) <==> Readable(es[t.j].meta.keyGroup, es[t.k].stored);
    }
  }

  lemma RunsAtIsTrail(es: seq<Event>, masterID: NodeID, t: Trail, i: nat, j: nat, k: nat)
    requires Farthest(es, masterID, t) && RunsAt(es, masterID, i, j, k)
    ensures t == Running(i, j, k)
  {
    match t {
      case Waiting =>
      case Granted(i') => FirstsAreUnique(es, masterID, i, j, k, i', 0, 0);
      case Fetched(i', j') => FirstsAreUnique(es, masterID, i, j, k, i', j', 0);
      case Running(i', j', k') => FirstsAreUnique(es, masterID, i, j, k, i', j', k');
    }
  }

  // ---- The session object ----

  class WorkerSession {
    const form: Form
    var phase: Phase
    var metaInfo: Meta
    var responses: nat
    var executions: nat
    var unanswered: nat
    var submissions: seq<seq<HashVal>>
    var crashed: bool
    var closed: bool

    ghost function View(): Session
      reads this
    {
      Session(form, phase, metaInfo, responses, executions, unanswered, submissions, crashed, closed)
    }

    constructor (form: Form, masterID: NodeID)
      ensures View() == Started(form, masterID)
    {
      this.form, phase, metaInfo := form, WS_PREPARING, Meta(masterID, 0, 0, []);
      responses, executions, unanswered, submissions := 0, 0, 0, [];
      crashed, closed := false, false;
    }

    method OnEvent(e: Event)
      requires !crashed && !closed
      modifies this
      ensures View() == Handle(old(View()), e)
    {
      match e
      case Validated(ok, deployer, taskID) =>
        if phase == WS_PREPARING && ok && metaInfo.masterID == deployer {
          phase := WS_STARTED;
          metaInfo := metaInfo.(taskID := taskID);
          responses := responses + 1;
        }
      case MetaArrived(meta) =>
        if phase == WS_STARTED {
          if meta.masterID == metaInfo.masterID && meta.taskID == metaInfo.taskID {
            metaInfo := meta;
            phase := WS_FETCHING;
          }
        }
      case Purchased(_, stored) =>
        if phase == WS_FETCHING {
          phase := WS_RUNNING;
          if metaInfo.keyGroup == [] {
            crashed := true;
            return;
          }
          var keys := metaInfo.keyGroup[0];
          for i := 0 to |keys|
            invariant forall j | 0 <= j < i :: keys[j] in stored
          {
            if keys[i] !in stored {
              crashed := true;
              return;
            }
          }
          executions, unanswered := executions + 1, unanswered + 1;
        }
      case Executed(ok, answers) =>
        if unanswered > 0 {
          unanswered := unanswered - 1;
        }
        if ok {
          var ans := new HashVal[|answers|](i requires 0 <= i < |answers| => answers[i]);
          assert ans[..] == answers;
          var blinded := BlindInPlace(form, ans, metaInfo.confoundKey);
          if blinded {
            submissions := submissions + [ans[..]];
          } else {
            crashed := true;
          }
        }
      case Submitted => closed := true;
      case Stopped => closed := true;
    }
  }
}
