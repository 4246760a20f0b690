/**
  The master's vote on redundant computation (`SubTaskSession`, src/master/session.go).

  `Unit` is the tally of one unit task: how often each answer came, and the best answer so far with
  its count. `History` is the list of accepted submissions, which the session itself does not keep.
*/
module Vote {
  import opened Words
  import opened Blinding
  import opened Names

  datatype PeerState = ACCEPT | RUNNING | SUBMITTED

  datatype PeerTaskInfo = PeerTaskInfo(confoundKey: HashVal, state: PeerState, answers: seq<HashVal>)

  datatype STState = STASK_UN | STASK_DEPLOYING | STASK_RUNNING | STASK_TERMINATING | STASK_TERMINATED | STASK_ABORTED

  datatype Unit = Unit(counts: map<HashVal, u32>, best: HashVal, bestCnt: u32) {
    /** One more vote for `a`. */
    function Tallied(a: HashVal): Unit {
      var cnt := if a in counts then Add(counts[a], 1) else 1;
      var counts' := counts[a := cnt];
      if bestCnt < cnt then Unit(counts', a, cnt) else Unit(counts', best, bestCnt)
    }
  }

  /** `decided` records the vectors the session announced, oldest first; `crashed` that an index was
      out of range or a slice too short, where the source panics; `closed` that `run` returned. */
  datatype Session = Session(
    form: Form, mid: NodeID, taskID: nat, minAnswerCnt: u32, state: STState,
    peers: map<NodeID, PeerTaskInfo>, units: seq<Unit>, answerCnt: u32,
    decided: seq<seq<HashVal>>, crashed: bool, closed: bool)

  datatype Event =
    | Deployed(ok: bool)
    | PeerRes(worker: NodeID, from: NodeID, master: NodeID, task: nat, key: HashVal)
    | PeerAnswer(caller: NodeID, blinded: seq<HashVal>)
    | Terminated
    | Stopped

  function Fresh(form: Form, mid: NodeID, taskID: nat, unitTaskCnt: nat, minAnswerCnt: u32): Session {
    Session(form, mid, taskID, minAnswerCnt, STASK_DEPLOYING, map[],
            seq(unitTaskCnt, _ => Unit(map[], 0, 0)), 0, [], false, false)
  }

  // ---- One submission ----

  /** The tally loop from unit `i` on; `None` if the answer vector is longer than the tally. */
  function Tally(units: seq<Unit>, vec: seq<HashVal>, i: nat): Option<seq<Unit>>
    requires i <= |vec|
    decreases |vec| - i
  {
    if i == |vec| then Some(units)
    else if i >= |units| then None
    else Tally(units[i := units[i].Tallied(vec[i])], vec, i + 1)
  }

  /** `cnt*2` of the source. */
  function Twice(cnt: u32): u32 { Add(cnt, cnt) }

  /** Every unit has a best answer with more than half of the submissions, in uint32 arithmetic. */
  predicate CanTerminate(units: seq<Unit>, answerCnt: u32) {
    forall i | 0 <= i < |units| :: Twice(units[i].bestCnt) > answerCnt
  }

  function Best(units: seq<Unit>): (v: seq<HashVal>)
    ensures |v| == |units|
  {
    seq(|units|, i requires 0 <= i < |units| => units[i].best)
  }

  function Crash(s: Session): Session { s.(crashed := true) }

  function OnAnswer(s: Session, caller: NodeID, blinded: seq<HashVal>): Session {
    if caller !in s.peers || s.peers[caller].state != RUNNING then s
    else
      var info := s.peers[caller];
      match UnblindAll(s.form, blinded, info.confoundKey)
      case None => Crash(s)
      case Some(vec) =>
        match Tally(s.units, vec, 0)
        case None => Crash(s)
        case Some(units) =>
          var answerCnt := Add(s.answerCnt, 1);
          var s1 := s.(units := units, answerCnt := answerCnt,
                       peers := s.peers[caller := info.(state := SUBMITTED, answers := info.answers + vec)]);
          if answerCnt >= s.minAnswerCnt && CanTerminate(units, answerCnt) then
            if |units| == 0 then Crash(s1)   // the log line reads validAnswers[0]
            else s1.(state := STASK_TERMINATING, decided := s1.decided + [Best(units)])
          else s1
  }

  function OnPeerRes(s: Session, worker: NodeID, from: NodeID, master: NodeID, task: nat, key: HashVal): Session {
    if worker == from && master == s.mid && task == s.taskID && worker !in s.peers
    then s.(peers := s.peers[worker := PeerTaskInfo(key, RUNNING, [0])])
    else s
  }

  function Handle(s: Session, e: Event): Session {
    if s.crashed || s.closed then s
    else match e
      case Deployed(ok) =>
        if s.state != STASK_DEPLOYING then s
        else if ok then s.(state := STASK_RUNNING) else s.(closed := true)
      case PeerRes(worker, from, master, task, key) => OnPeerRes(s, worker, from, master, task, key)
      case PeerAnswer(caller, blinded) => OnAnswer(s, caller, blinded)
      case Terminated => s.(state := STASK_TERMINATED, closed := true)
      case Stopped => s.(closed := true)
  }

  function Run(s: Session, es: seq<Event>): Session
    decreases |es|
  {
    if es == [] then s else Run(Handle(s, es[0]), es[1..])
  }

  /** The three parallel slices of the source, read as one list of tallies. */
  ghost function UnitsOf(answers: seq<map<HashVal, u32>>, best: seq<HashVal>, cnt: seq<u32>): (us: seq<Unit>)
    requires |answers| == |best| == |cnt|
    ensures |us| == |answers|
    ensures forall i | 0 <= i < |us| :: us[i] == Unit(answers[i], best[i], cnt[i])
  {
    seq(|answers|, i requires 0 <= i < |answers| == |best| == |cnt| => Unit(answers[i], best[i], cnt[i]))
  }

  // ---- The session object ----

  class SubTaskSession {
    const form: Form
    const mid: NodeID
    const taskID: nat
    const minAnswerCnt: u32
    var state: STState
    var peers: map<NodeID, PeerTaskInfo>
    var answers: seq<map<HashVal, u32>>
    var validAnswers: seq<HashVal>
    var validAnswerCnt: seq<u32>
    var answerCnt: u32
    var decided: seq<seq<HashVal>>
    var crashed: bool
    var closed: bool

    ghost predicate Valid()
      reads this`answers, this`validAnswers, this`validAnswerCnt
    {
      |answers| == |validAnswers| == |validAnswerCnt|
    }

    ghost function Units(): (us: seq<Unit>)
      requires Valid()
      reads this`answers, this`validAnswers, this`validAnswerCnt
      ensures |us| == |answers|
    {
      UnitsOf(answers, validAnswers, validAnswerCnt)
    }

    ghost function View(): Session
      requires Valid()
      reads this
    {
      Session(form, mid, taskID, minAnswerCnt, state, peers, Units(), answerCnt, decided, crashed, closed)
    }

    /** `NewSubTaskSession` followed by `Start`. */
    constructor (form: Form, mid: NodeID, taskID: nat, unitTaskCnt: nat, minAnswerCnt: u32)
      ensures Valid() && View() == Fresh(form, mid, taskID, unitTaskCnt, minAnswerCnt)
    {
      this.form, this.mid, this.taskID, this.minAnswerCnt := form, mid, taskID, minAnswerCnt;
      state, peers, answerCnt := STASK_DEPLOYING, map[], 0;
      answers := seq(unitTaskCnt, _ => map[]);
      validAnswers := seq(unitTaskCnt, _ => 0);
      validAnswerCnt := seq(unitTaskCnt, _ => 0);
      decided, crashed, closed := [], false, false;
    }

    /** The tally loop (src/master/session.go:171-188); `ok` is false where the source panics. */
    method TallyAnswers(vec: seq<HashVal>) returns (ok: bool)
      requires Valid()
      modifies this`answers, this`validAnswers, this`validAnswerCnt
      ensures Valid()
      ensures ok <==> Tally(old(Units()), vec, 0).Some?
      ensures ok ==> Some(Units()) == Tally(old(Units()), vec, 0)
    {
      for i := 0 to |vec|
        invariant Valid() && |answers| == old(|answers|)
        invariant Tally(Units(), vec, i) == Tally(old(Units()), vec, 0)
      {
        if i >= |answers| {
          return false;
        }
        var answer := vec[i];
        ghost var us := Units();
        var cnt := 1;
        if answer in answers[i] {
          cnt := Add(answers[i][answer], 1);
        }
        answers := answers[i := answers[i][answer := cnt]];
        if validAnswerCnt[i] < cnt {
          validAnswers := validAnswers[i := answer];
          validAnswerCnt := validAnswerCnt[i := cnt];
        }
        assert Units() == us[i := us[i].Tallied(answer)];
      }
      ok := true;
    }

    /** The majority test (src/master/session.go:191-197). */
    method MayTerminate() returns (can: bool)
      requires Valid()
      ensures can <==> CanTerminate(Units(), answerCnt)
    {
      can := true;
      for i := 0 to |validAnswerCnt|
        invariant can && forall k | 0 <= k < i :: Twice(validAnswerCnt[k]) > answerCnt
      {
        if Twice(validAnswerCnt[i]) <= answerCnt {
          assert Units()[i].bestCnt == validAnswerCnt[i];
          return false;
        }
      }
      assert forall i | 0 <= i < |Units()| :: Units()[i].bestCnt == validAnswerCnt[i];
    }

    /** The `peerAnswerChan` case of `run`. */
    method SubmitAnswer(caller: NodeID, blinded: seq<HashVal>)
      requires Valid() && !crashed
      modifies this
      ensures Valid() && (crashed <==> OnAnswer(old(View()), caller, blinded).crashed)
      ensures !crashed ==> View() == OnAnswer(old(View()), caller, blinded)
    {
      if caller !in peers || peers[caller].state != RUNNING {
        return;
      }
      hide Tally, CanTerminate, UnblindAll, Wrap, UnitsOf;
      var info := peers[caller];
      match UnblindAll(form, blinded, info.confoundKey) {
        case None =>
          crashed := true;
        case Some(vec) =>
          answerCnt := Add(answerCnt, 1);
          var ok := TallyAnswers(vec);
          if !ok {
            crashed := true;
            return;
          }
          peers := peers[caller := info.(state := SUBMITTED, answers := info.answers + vec)];
          if answerCnt >= minAnswerCnt {
            var can := MayTerminate();
            if can {
              state := STASK_TERMINATING;
              crashed := |validAnswers| == 0;
              assert Best(Units()) == validAnswers;
              decided := decided + [validAnswers];
            }
          }
      }
    }

    /** The `peerResChan` case of `run`. */
    method AcceptWorker(worker: NodeID, from: NodeID, master: NodeID, task: nat, key: HashVal)
      requires Valid()
      modifies this`peers
      ensures View() == OnPeerRes(old(View()), worker, from, master, task, key)
    {
      if worker == from && master == mid && task == taskID {
        if worker !in peers {
          peers := peers[worker := PeerTaskInfo(key, ACCEPT, [0])];
          peers := peers[worker := peers[worker].(state := RUNNING)];
        }
      }
    }
  }

  // ---- The history of accepted submissions ----

  datatype Submission = Submission(worker: NodeID, vec: seq<HashVal>)

  type History = seq<Submission>

  /** How many submissions answer unit `i` with `h`. */
  ghost function Count(hs: History, i: nat, h: HashVal): nat {
    if hs == [] then 0
    else Count(hs[..|hs| - 1], i, h) + (var v := hs[|hs| - 1].vec; if i < |v| && v[i] == h then 1 else 0)
  }

  /** The tally of one unit says exactly what the history says, and its best answer is a maximum. */
  ghost predicate UnitOk(u: Unit, hs: History, i: nat) {
    && (forall h: HashVal :: (if h in u.counts then u.counts[h] else 0) == Count(hs, i, h))
    && u.bestCnt == Count(hs, i, u.best)
    && forall h: HashVal :: Count(hs, i, h) <= u.bestCnt
  }

  ghost predicate Distinct(hs: History) {
    forall j, k | 0 <= j < k < |hs| :: hs[j].worker != hs[k].worker
  }

  /** A peer is SUBMITTED exactly if the history has its one submission, under its own key. */
  ghost predicate PeersOk(s: Session, hs: History) {
    && Distinct(hs)
    && (forall j | 0 <= j < |hs| ::
          && hs[j].worker in s.peers
          && s.peers[hs[j].worker].state == SUBMITTED
          && s.peers[hs[j].worker].answers == [0] + hs[j].vec)
    && (forall p | p in s.peers && s.peers[p].state == SUBMITTED ::
          exists j :: 0 <= j < |hs| && hs[j].worker == p)
    && (forall p | p in s.peers && s.peers[p].state != SUBMITTED :: s.peers[p].answers == [0])
  }

  ghost predicate Inv(s: Session, hs: History) {
    && s.answerCnt == Wrap(|hs|)
    && PeersOk(s, hs)
    && (forall j | 0 <= j < |hs| :: |hs[j].vec| <= |s.units|)
    && (|hs| < TWO32 ==> forall i | 0 <= i < |s.units| :: UnitOk(s.units[i], hs, i))
  }

  lemma CountSnoc(hs: History, x: Submission, i: nat, h: HashVal)
    ensures Count(hs + [x], i, h) == Count(hs, i, h) + (if i < |x.vec| && x.vec[i] == h then 1 else 0)
  {
    assert (hs + [x])[..|hs|] == hs;
  }

  lemma {:induction false} CountBound(hs: History, i: nat, h: HashVal)
    ensures Count(hs, i, h) <= |hs|
    decreases |hs|
  {
    if hs != [] { CountBound(hs[..|hs| - 1], i, h); }
  }

  lemma VoteCounted(u: Unit, hs: History, i: nat, x: Submission)
    requires UnitOk(u, hs, i) && i < |x.vec| && |hs| + 1 < TWO32
    ensures UnitOk(u.Tallied(x.vec[i]), hs + [x], i)
  {
    var a := x.vec[i];
    CountBound(hs, i, a);
    ResidueIs(Count(hs, i, a) + 1, Count(hs, i, a) + 1, 0);
    forall h: HashVal ensures Count(hs + [x], i, h) == Count(hs, i, h) + (if h == a then 1 else 0) {
      CountSnoc(hs, x, i, h);
    }
  }

  lemma NoVote(u: Unit, hs: History, i: nat, x: Submission)
    requires UnitOk(u, hs, i) && |x.vec| <= i
    ensures UnitOk(u, hs + [x], i)
  {
    forall h: HashVal ensures Count(hs + [x], i, h) == Count(hs, i, h) { CountSnoc(hs, x, i, h); }
  }

  /** Tallying a vector brings every unit up to date. */
  lemma {:induction false} TallyCounts(units: seq<Unit>, hs: History, x: Submission, k: nat)
    requires k <= |x.vec| && |hs| + 1 < TWO32
    requires forall i | 0 <= i < |units| :: UnitOk(units[i], if i < k then hs + [x] else hs, i)
    ensures Tally(units, x.vec, k).Some? <==> |x.vec| <= |units| || k == |x.vec|
    ensures Tally(units, x.vec, k).Some? ==>
      var us := Tally(units, x.vec, k).value;
      |us| == |units| && forall i | 0 <= i < |us| :: UnitOk(us[i], hs + [x], i)
    decreases |x.vec| - k
  {
    if k == |x.vec| {
      forall i | 0 <= i < |units| ensures UnitOk(units[i], hs + [x], i) {
        if i >= k { NoVote(units[i], hs, i, x); }
      }
    } else if k < |units| {
      VoteCounted(units[k], hs, k, x);
      TallyCounts(units[k := units[k].Tallied(x.vec[k])], hs, x, k + 1);
    }
  }

  lemma {:induction false} TallyShape(units: seq<Unit>, vec: seq<HashVal>, k: nat)
    requires k <= |vec|
    ensures Tally(units, vec, k).Some? <==> |vec| <= |units| || k == |vec|
    ensures Tally(units, vec, k).Some? ==> |Tally(units, vec, k).value| == |units|
    decreases |vec| - k
  {
    if k < |vec| && k < |units| { TallyShape(units[k := units[k].Tallied(vec[k])], vec, k + 1); }
  }

  // ---- Every run keeps the tally right ----

  /** The submission an event adds to the history, if any. */
  ghost function Accepted(s: Session, e: Event): Option<Submission> {
    if s.crashed || s.closed || !e.PeerAnswer? || e.caller !in s.peers || s.peers[e.caller].state != RUNNING then None
    else match UnblindAll(s.form, e.blinded, s.peers[e.caller].confoundKey)
      case None => None
      case Some(vec) => if |vec| <= |s.units| then Some(Submission(e.caller, vec)) else None
  }

  ghost function Extend(hs: History, x: Option<Submission>): History {
    match x case None => hs case Some(v) => hs + [v]
  }

  ghost function HistoryOf(s: Session, hs: History, es: seq<Event>): History
    decreases |es|
  {
    if es == [] then hs else HistoryOf(Handle(s, es[0]), Extend(hs, Accepted(s, es[0])), es[1..])
  }

  lemma NewSubmission(s: Session, hs: History, x: Submission, s': Session)
    requires PeersOk(s, hs) && x.worker in s.peers && s.peers[x.worker].state == RUNNING
    requires s'.peers == s.peers[x.worker :=
      s.peers[x.worker].(state := SUBMITTED, answers := s.peers[x.worker].answers + x.vec)]
    ensures PeersOk(s', hs + [x])
  {
    var hs' := hs + [x];
    forall p | p in s'.peers && s'.peers[p].state == SUBMITTED
      ensures exists j :: 0 <= j < |hs'| && hs'[j].worker == p
    {
      if p == x.worker {
        assert hs'[|hs|].worker == p;
      } else {
        var j :| 0 <= j < |hs| && hs[j].worker == p;
        assert hs'[j].worker == p;
      }
    }
  }

  lemma StepKeeps(s: Session, hs: History, e: Event)
    requires Inv(s, hs)
    ensures Inv(Handle(s, e), Extend(hs, Accepted(s, e))) && |Handle(s, e).units| == |s.units|
  {
    if !s.crashed && !s.closed && e.PeerAnswer? && e.caller in s.peers && s.peers[e.caller].state == RUNNING {
      AnswerKeeps(s, hs, e.caller, e.blinded);
    } else if !s.crashed && !s.closed && e.PeerRes? {
      PeerResKeeps(s, hs, e);
    }
  }

  lemma AnswerKeeps(s: Session, hs: History, caller: NodeID, blinded: seq<HashVal>)
    requires Inv(s, hs) && !s.crashed && !s.closed && caller in s.peers && s.peers[caller].state == RUNNING
    ensures var s' := OnAnswer(s, caller, blinded);
      Inv(s', Extend(hs, Accepted(s, PeerAnswer(caller, blinded)))) && |s'.units| == |s.units|
  {
    AnswerCases(s, caller, blinded);
    hide OnAnswer, Accepted, UnblindAll, Inv, Tally;
    var a := Accepted(s, PeerAnswer(caller, blinded));
    if a.Some? {
      SubmissionKeeps(s, hs, a.value, OnAnswer(s, caller, blinded));
    } else {
      CrashKeeps(s, hs);
    }
  }

  lemma CrashKeeps(s: Session, hs: History)
    requires Inv(s, hs)
    ensures Inv(Crash(s), hs)
  {
    hide UnitOk, Wrap;
  }

  lemma SubmissionKeeps(s: Session, hs: History, x: Submission, s': Session)
    requires Inv(s, hs) && x.worker in s.peers && s.peers[x.worker].state == RUNNING
    requires |x.vec| <= |s.units| == |s'.units| && Tally(s.units, x.vec, 0) == Some(s'.units)
    requires s'.answerCnt == Add(s.answerCnt, 1)
    requires s'.peers == s.peers[x.worker :=
      s.peers[x.worker].(state := SUBMITTED, answers := s.peers[x.worker].answers + x.vec)]
    ensures Inv(s', hs + [x])
  {
    AddOfWrap(|hs|, 1);
    hide Tally, PeersOk, UnitOk, Wrap, Add;
    NewSubmission(s, hs, x, s');
    if |hs| + 1 < TWO32 { TallyCounts(s.units, hs, x, 0); }
  }

  /** A submission either crashes the session or is accepted; what an accepted one changes does not
      depend on whether the session decides. */
  lemma AnswerCases(s: Session, caller: NodeID, blinded: seq<HashVal>)
    requires !s.crashed && !s.closed && caller in s.peers && s.peers[caller].state == RUNNING
    ensures var a, s' := Accepted(s, PeerAnswer(caller, blinded)), OnAnswer(s, caller, blinded);
      if a.None? then s' == Crash(s)
      else
        && a.value.worker == caller && |a.value.vec| <= |s.units|
        && Tally(s.units, a.value.vec, 0) == Some(s'.units) && |s'.units| == |s.units|
        && s'.answerCnt == Add(s.answerCnt, 1)
        && s'.peers == s.peers[caller :=
             s.peers[caller].(state := SUBMITTED, answers := s.peers[caller].answers + a.value.vec)]
  {
    var u := UnblindAll(s.form, blinded, s.peers[caller].confoundKey);
    hide Tally, UnblindAll, CanTerminate, Add;
    if u.Some? { TallyShape(s.units, u.value, 0); }
  }

  lemma PeerResKeeps(s: Session, hs: History, e: Event)
    requires Inv(s, hs) && e.PeerRes?
    ensures Inv(OnPeerRes(s, e.worker, e.from, e.master, e.task, e.key), hs)
  {
    hide UnitOk, Wrap;
    var s' := OnPeerRes(s, e.worker, e.from, e.master, e.task, e.key);
    forall p | p in s'.peers && s'.peers[p].state == SUBMITTED
      ensures exists j :: 0 <= j < |hs| && hs[j].worker == p
    {
      assert s.peers[p].state == SUBMITTED;
    }
  }

  lemma {:induction false} RunKeeps(s: Session, hs: History, es: seq<Event>)
    requires Inv(s, hs)
    ensures Inv(Run(s, es), HistoryOf(s, hs, es)) && |Run(s, es).units| == |s.units|
    decreases |es|
  {
    if es != [] {
      StepKeeps(s, hs, es[0]);
      RunKeeps(Handle(s, es[0]), Extend(hs, Accepted(s, es[0])), es[1..]);
    }
  }

  lemma FreshInv(form: Form, mid: NodeID, taskID: nat, unitTaskCnt: nat, minAnswerCnt: u32)
    ensures Inv(Fresh(form, mid, taskID, unitTaskCnt, minAnswerCnt), [])
  {
    ResidueIs(0, 0, 0);
  }

  /** In every run, after any events in any order: the counter is the number of SUBMITTED peers, each
      worker counts once, every unit's counts are those of the submissions, and the kept answer of a
      unit is one with the highest count. */
  lemma TallyOverEveryRun(form: Form, mid: NodeID, taskID: nat, unitTaskCnt: nat, minAnswerCnt: u32, es: seq<Event>)
    ensures var s0 := Fresh(form, mid, taskID, unitTaskCnt, minAnswerCnt);
      var s, hs := Run(s0, es), HistoryOf(s0, [], es);
      Inv(s, hs) && |s.units| == unitTaskCnt
  {
    FreshInv(form, mid, taskID, unitTaskCnt, minAnswerCnt);
    RunKeeps(Fresh(form, mid, taskID, unitTaskCnt, minAnswerCnt), [], es);
  }

  // ---- Counts of one unit add up ----

  ghost function Total(m: map<HashVal, u32>): nat
    decreases |m|
  {
    if m == map[] then 0
    else
      var k :| k in m;
      m[k] + Total(m - {k})
  }

  lemma {:induction false} TotalWithout(m: map<HashVal, u32>, k: HashVal)
    requires k in m
    ensures Total(m) == m[k] + Total(m - {k})
    decreases |m|
  {
    var p :| p in m && Total(m) == m[p] + Total(m - {p});
    if p != k {
      TotalWithout(m - {p}, k);
      TotalWithout(m - {k}, p);
      assert m - {p} - {k} == m - {k} - {p};
    }
  }

  /** If every submission answers unit `i`, the counts of that unit sum to the number of them. */
  lemma {:induction false} CountsSum(hs: History, i: nat, m: map<HashVal, u32>)
    requires forall h: HashVal :: (if h in m then m[h] else 0) == Count(hs, i, h)
    requires forall j | 0 <= j < |hs| :: i < |hs[j].vec|
    ensures Total(m) == |hs|
    decreases |hs|
  {
    if hs == [] {
      AllZero(m);
    } else {
      var pre := hs[..|hs| - 1];
      var a := hs[|hs| - 1].vec[i];
      assert a in m && m[a] == Count(pre, i, a) + 1;
      var m' := m[a := m[a] - 1];
      forall h: HashVal ensures (if h in m' then m'[h] else 0) == Count(pre, i, h) {
        assert (if h in m then m[h] else 0) == Count(hs, i, h);
      }
      CountsSum(pre, i, m');
      TotalWithout(m, a);
      TotalWithout(m', a);
      assert m - {a} == m' - {a};
    }
  }

  lemma {:induction false} AllZero(m: map<HashVal, u32>)
    requires forall h: HashVal :: (if h in m then m[h] else 0) == 0
    ensures Total(m) == 0
    decreases |m|
  {
    if m != map[] {
      var k :| k in m;
      TotalWithout(m, k);
      assert m[k] == 0;
      forall h: HashVal ensures (if h in m - {k} then (m - {k})[h] else 0) == 0 {
        assert (if h in m then m[h] else 0) == 0;
      }
      AllZero(m - {k});
    }
  }

  lemma SumsAreAnswerCnt(s: Session, hs: History, i: nat)
    requires Inv(s, hs) && |hs| < TWO32 && i < |s.units|
    requires forall j | 0 <= j < |hs| :: |hs[j].vec| == |s.units|
    ensures Total(s.units[i].counts) == s.answerCnt
  {
    CountsSum(hs, i, s.units[i].counts);
    ResidueIs(|hs|, |hs|, 0);
  }

  // ---- The decision ----

  ghost predicate Majority(hs: History, i: nat, h: HashVal) { 2 * Count(hs, i, h) > |hs| }

  ghost predicate MajorityVector(hs: History, n: nat, v: seq<HashVal>) {
    |v| == n && forall i | 0 <= i < n :: Majority(hs, i, v[i])
  }

  lemma {:induction false} TwoCounts(hs: History, i: nat, g: HashVal, h: HashVal)
    requires g != h
    ensures Count(hs, i, g) + Count(hs, i, h) <= |hs|
    decreases |hs|
  {
    if hs != [] { TwoCounts(hs[..|hs| - 1], i, g, h); }
  }

  /** At most one vector has a strict majority in every unit. */
  lemma MajorityUnique(hs: History, n: nat, v: seq<HashVal>, w: seq<HashVal>)
    requires MajorityVector(hs, n, v) && MajorityVector(hs, n, w)
    ensures v == w
  {
    forall i | 0 <= i < n ensures v[i] == w[i] {
      if v[i] != w[i] { TwoCounts(hs, i, v[i], w[i]); }
    }
  }

  /** A majority vector whose counts the doubling in uint32 does not wrap. */
  ghost predicate Decisive(hs: History, n: nat, v: seq<HashVal>) {
    MajorityVector(hs, n, v) && forall i | 0 <= i < n :: Count(hs, i, v[i]) < TWO31
  }

  /** Doubling a count in uint32 gives the right answer to "more than half" exactly below 2^31. */
  lemma DoublingExact(b: u32, n: u32)
    requires b <= n
    ensures (Twice(b) > n <==> 2 * b > n) <==> b < TWO31
  {
    if b < TWO31 { ResidueIs(b * 2, b * 2, 0); } else { ResidueIs(b * 2, b * 2 - TWO32, 1); }
  }

  /** The uint32 test succeeds exactly if some vector has a strict majority in every unit and no
      count reaches 2^31; the best answers are the only candidates. */
  lemma CanTerminateExact(units: seq<Unit>, hs: History)
    requires |hs| < TWO32 && forall i | 0 <= i < |units| :: UnitOk(units[i], hs, i)
    ensures CanTerminate(units, Wrap(|hs|)) <==> Decisive(hs, |units|, Best(units))
    ensures CanTerminate(units, Wrap(|hs|)) <==>
      (exists v :: MajorityVector(hs, |units|, v)) && forall i | 0 <= i < |units| :: units[i].bestCnt < TWO31
    ensures forall v | MajorityVector(hs, |units|, v) :: v == Best(units)
  {
    ResidueIs(|hs|, |hs|, 0);
    forall i | 0 <= i < |units|
      ensures Twice(units[i].bestCnt) > |hs| <==> Majority(hs, i, Best(units)[i]) && units[i].bestCnt < TWO31
      ensures forall h: HashVal :: Majority(hs, i, h) ==> Majority(hs, i, Best(units)[i])
    {
      CountBound(hs, i, units[i].best);
      DoublingExact(units[i].bestCnt, |hs|);
      if units[i].bestCnt >= TWO31 { ResidueIs(units[i].bestCnt * 2, units[i].bestCnt * 2 - TWO32, 1); }
    }
    forall v | MajorityVector(hs, |units|, v) ensures v == Best(units) && MajorityVector(hs, |units|, Best(units)) {
      forall i | 0 <= i < |units| ensures Majority(hs, i, Best(units)[i]) { assert Majority(hs, i, v[i]); }
      MajorityUnique(hs, |units|, v, Best(units));
    }
  }

  /** With fewer than 2^31 submissions no count wraps. */
  lemma FewAreDecisive(hs: History, n: nat, v: seq<HashVal>)
    requires |hs| < TWO31
    ensures Decisive(hs, n, v) <==> MajorityVector(hs, n, v)
  {
    if MajorityVector(hs, n, v) {
      forall i | 0 <= i < n ensures Count(hs, i, v[i]) < TWO31 { CountBound(hs, i, v[i]); }
    }
  }

  /** A submission makes the session decide exactly if enough answers are in and some vector has a
      strict majority in every unit, with counts below 2^31; what it announces is that vector. */
  lemma DecidesExactly(s: Session, hs: History, e: Event)
    requires Inv(s, hs) && Accepted(s, e).Some? && |hs| + 1 < TWO32 && |s.units| > 0
    ensures var s', hs' := Handle(s, e), Extend(hs, Accepted(s, e));
      && (s'.decided != s.decided <==>
            s.minAnswerCnt <= |hs'| && exists v :: Decisive(hs', |s.units|, v))
      && (s'.decided != s.decided ==>
            exists v :: s'.decided == s.decided + [v] && s'.state == STASK_TERMINATING
              && Decisive(hs', |s.units|, v) && forall w | MajorityVector(hs', |s.units|, w) :: w == v)
  {
    var s', hs' := Handle(s, e), Extend(hs, Accepted(s, e));
    StepKeeps(s, hs, e);
    DecisionIs(s, e);
    ResidueIs(|hs'|, |hs'|, 0);
    assert |s'.units| == |s.units| && s'.answerCnt == |hs'|;
    assert forall i | 0 <= i < |s'.units| :: UnitOk(s'.units[i], hs', i);
    CanTerminateExact(s'.units, hs');
    hide Inv, Handle, Accepted, Wrap, UnitOk, CanTerminate, MajorityVector;
    assert Decisive(hs', |s.units|, Best(s'.units)) <==> exists v :: Decisive(hs', |s.units|, v);
  }

  /** What an accepted submission makes the session announce. */
  lemma DecisionIs(s: Session, e: Event)
    requires Accepted(s, e).Some? && |s.units| > 0
    ensures var s' := Handle(s, e);
      if s'.answerCnt >= s.minAnswerCnt && CanTerminate(s'.units, s'.answerCnt)
      then s'.decided == s.decided + [Best(s'.units)] && s'.state == STASK_TERMINATING
      else s'.decided == s.decided
  {
    TallyShape(s.units, Accepted(s, e).value.vec, 0);
    hide Tally, CanTerminate, UnblindAll, Add;
  }

  /** What ought to be announced when the last of `hs` comes in: the vector that has a strict majority
      in every unit, with counts below 2^31, if there is one and there are enough submissions. */
  ghost function Due(hs: History, n: nat, min: nat): seq<seq<HashVal>> {
    if min <= |hs| && exists v :: Decisive(hs, n, v) then
      var v :| Decisive(hs, n, v);
      [v]
    else []
  }

  ghost function Decisions(hs: History, n: nat, min: nat): seq<seq<HashVal>> {
    if hs == [] then [] else Decisions(hs[..|hs| - 1], n, min) + Due(hs, n, min)
  }

  lemma DueIs(hs: History, n: nat, min: nat, v: seq<HashVal>)
    requires min <= |hs| && Decisive(hs, n, v)
    ensures Due(hs, n, min) == [v]
  {
    forall w | Decisive(hs, n, w) ensures w == v { MajorityUnique(hs, n, v, w); }
  }

  lemma MinStays(s: Session, e: Event)
    ensures Handle(s, e).minAnswerCnt == s.minAnswerCnt
  {
    hide Tally, UnblindAll, CanTerminate;
  }

  lemma StepDecides(s: Session, hs: History, e: Event)
    requires Inv(s, hs) && |s.units| > 0 && |Extend(hs, Accepted(s, e))| < TWO32
    requires s.decided == Decisions(hs, |s.units|, s.minAnswerCnt)
    ensures Handle(s, e).decided == Decisions(Extend(hs, Accepted(s, e)), |s.units|, s.minAnswerCnt)
  {
    var n, min := |s.units|, s.minAnswerCnt;
    if Accepted(s, e).Some? {
      var hs' := Extend(hs, Accepted(s, e));
      assert hs'[..|hs|] == hs;
      assert Decisions(hs', n, min) == Decisions(hs, n, min) + Due(hs', n, min);
      DecidesExactly(s, hs, e);
      hide Inv, Accepted, Handle, Decisive, MajorityVector, Due, Decisions;
      if min <= |hs'| && exists v :: Decisive(hs', n, v) {
        var v :| Decisive(hs', n, v);
        DueIs(hs', n, min, v);
      } else {
        NothingDue(hs', n, min);
      }
    } else {
      NothingDecided(s, e);
    }
  }

  lemma NothingDue(hs: History, n: nat, min: nat)
    requires !(min <= |hs| && exists v :: Decisive(hs, n, v))
    ensures Due(hs, n, min) == []
  {
  }

  lemma NothingDecided(s: Session, e: Event)
    requires Accepted(s, e) == None
    ensures Handle(s, e).decided == s.decided
  {
    if !s.crashed && !s.closed && e.PeerAnswer? && e.caller in s.peers && s.peers[e.caller].state == RUNNING {
      AnswerCases(s, e.caller, e.blinded);
    }
  }

  lemma {:induction false} HistoryGrows(s: Session, hs: History, es: seq<Event>)
    ensures |hs| <= |HistoryOf(s, hs, es)|
    decreases |es|
  {
    if es != [] { HistoryGrows(Handle(s, es[0]), Extend(hs, Accepted(s, es[0])), es[1..]); }
  }

  lemma {:induction false} RunDecides(s: Session, hs: History, es: seq<Event>)
    requires Inv(s, hs) && |s.units| > 0 && |HistoryOf(s, hs, es)| < TWO32
    requires s.decided == Decisions(hs, |s.units|, s.minAnswerCnt)
    ensures Run(s, es).decided == Decisions(HistoryOf(s, hs, es), |s.units|, s.minAnswerCnt)
    decreases |es|
  {
    if es != [] {
      var hs' := Extend(hs, Accepted(s, es[0]));
      HistoryGrows(Handle(s, es[0]), hs', es[1..]);
      StepKeeps(s, hs, es[0]);
      StepDecides(s, hs, es[0]);
      MinStays(s, es[0]);
      hide Inv, Accepted, Handle, Decisions;
      RunDecides(Handle(s, es[0]), hs', es[1..]);
    }
  }

  /** In every run the session announces exactly the strict-majority vectors of its submissions, each
      at the submission that makes it one (again), whatever else happens in between. */
  lemma DecisionsOverEveryRun(form: Form, mid: NodeID, taskID: nat, unitTaskCnt: nat, minAnswerCnt: u32, es: seq<Event>)
    requires 0 < unitTaskCnt
    requires |HistoryOf(Fresh(form, mid, taskID, unitTaskCnt, minAnswerCnt), [], es)| < TWO32
    ensures var s0 := Fresh(form, mid, taskID, unitTaskCnt, minAnswerCnt);
      Run(s0, es).decided == Decisions(HistoryOf(s0, [], es), unitTaskCnt, minAnswerCnt)
  {
    FreshInv(form, mid, taskID, unitTaskCnt, minAnswerCnt);
    RunDecides(Fresh(form, mid, taskID, unitTaskCnt, minAnswerCnt), [], es);
  }

  // ---- The order of submissions does not matter ----

  lemma {:induction false} CountOfRemoved(hs: History, k: nat, i: nat, h: HashVal)
    requires k < |hs|
    ensures Count(hs, i, h) == Count(hs[..k] + hs[k + 1..], i, h)
                             + (if i < |hs[k].vec| && hs[k].vec[i] == h then 1 else 0)
    decreases |hs|
  {
    var n := |hs| - 1;
    if k == n {
      assert hs[..k] + hs[k + 1..] == hs[..n] && hs == hs[..n] + [hs[n]];
      CountSnoc(hs[..n], hs[n], i, h);
    } else {
      var pre := hs[..n];
      assert hs == pre + [hs[n]];
      assert hs[..k] + hs[k + 1..] == (pre[..k] + pre[k + 1..]) + [hs[n]];
      hide Count;
      CountOfRemoved(pre, k, i, h);
      CountSnoc(pre, hs[n], i, h);
      CountSnoc(pre[..k] + pre[k + 1..], hs[n], i, h);
    }
  }

  lemma BagWithout(hs: History, k: nat)
    requires k < |hs|
    ensures multiset(hs[..k] + hs[k + 1..]) == multiset(hs) - multiset{hs[k]}
  {
    assert hs == hs[..k] + [hs[k]] + hs[k + 1..];
  }

  lemma {:induction false} CountPermutes(hs: History, gs: History, i: nat, h: HashVal)
    requires multiset(hs) == multiset(gs)
    ensures Count(hs, i, h) == Count(gs, i, h) && |hs| == |gs|
    decreases |hs|
  {
    if hs == [] {
      assert |multiset(gs)| == 0;
    } else {
      var n := |hs| - 1;
      var k := FindIn(hs[n], hs, gs);
      var cut := gs[..k] + gs[k + 1..];
      LastOf(hs);
      BagWithout(gs, k);
      hide Count;
      CountPermutes(hs[..n], cut, i, h);
      CountOfRemoved(gs, k, i, h);
      CountSnoc(hs[..n], hs[n], i, h);
    }
  }

  lemma FindIn(x: Submission, hs: History, gs: History) returns (k: nat)
    requires x in hs && multiset(hs) == multiset(gs)
    ensures k < |gs| && gs[k] == x
  {
    assert x in multiset(hs);
    k :| k < |gs| && gs[k] == x;
  }

  lemma LastOf(hs: History)
    requires hs != []
    ensures var n := |hs| - 1;
      hs == hs[..n] + [hs[n]] && multiset(hs[..n]) == multiset(hs) - multiset{hs[n]}
  {
    assert hs == hs[..|hs| - 1] + [hs[|hs| - 1]];
  }

  /** The vector with a strict majority depends on what was submitted, not on the order. */
  lemma DecisionIgnoresOrder(hs: History, gs: History, n: nat, v: seq<HashVal>)
    requires multiset(hs) == multiset(gs)
    ensures MajorityVector(hs, n, v) <==> MajorityVector(gs, n, v)
    ensures Decisive(hs, n, v) <==> Decisive(gs, n, v)
  {
    forall i: nat, h: HashVal ensures Count(hs, i, h) == Count(gs, i, h) && |hs| == |gs| {
      CountPermutes(hs, gs, i, h);
    }
  }

  // ---- Honest majorities win ----

  /** How many submissions are the vector `truth`. */
  ghost function Honest(hs: History, truth: seq<HashVal>): nat {
    if hs == [] then 0 else Honest(hs[..|hs| - 1], truth) + (if hs[|hs| - 1].vec == truth then 1 else 0)
  }

  lemma {:induction false} HonestCounted(hs: History, truth: seq<HashVal>, i: nat)
    requires i < |truth|
    ensures Honest(hs, truth) <= Count(hs, i, truth[i])
    decreases |hs|
  {
    if hs != [] { HonestCounted(hs[..|hs| - 1], truth, i); }
  }

  /** A worker that blinds the true answers with the key it was given is counted for them, with the
      fixed-width form for all answers and keys, with the form of the source exactly as far as
      `LiteralCancels` goes. */
  lemma HonestSubmission(s: Session, caller: NodeID, truth: seq<HashVal>)
    requires !s.crashed && !s.closed && caller in s.peers && s.peers[caller].state == RUNNING
    requires |truth| == |s.units|
    requires s.form == FixedWidth || forall a | a in truth :: LiteralCancels(a, s.peers[caller].confoundKey)
    ensures BlindAll(s.form, truth, s.peers[caller].confoundKey).Some?
    ensures Accepted(s, PeerAnswer(caller, BlindAll(s.form, truth, s.peers[caller].confoundKey).value))
            == Some(Submission(caller, truth))
  {
    VectorCancels(s.form, truth, s.peers[caller].confoundKey);
  }

  /** If more than half of the submissions are the true vector and enough answers are in, the session
      announces the true vector at this very step. */
  lemma HonestMajorityWins(s: Session, hs: History, e: Event, truth: seq<HashVal>)
    requires Inv(s, hs) && Accepted(s, e).Some? && |hs| + 1 < TWO31
    requires |truth| == |s.units| > 0
    requires var hs' := Extend(hs, Accepted(s, e)); 2 * Honest(hs', truth) > |hs'| >= s.minAnswerCnt
    ensures Handle(s, e).decided == s.decided + [truth]
  {
    var hs' := Extend(hs, Accepted(s, e));
    HonestDecides(hs', truth);
    DecidesExactly(s, hs, e);
  }

  lemma HonestDecides(hs: History, truth: seq<HashVal>)
    requires 2 * Honest(hs, truth) > |hs| && |hs| < TWO31
    ensures Decisive(hs, |truth|, truth)
  {
    forall i | 0 <= i < |truth| ensures Majority(hs, i, truth[i]) { HonestCounted(hs, truth, i); }
    FewAreDecisive(hs, |truth|, truth);
  }

  lemma HonestSnoc(hs: History, x: Submission, truth: seq<HashVal>)
    ensures Honest(hs + [x], truth) == Honest(hs, truth) + if x.vec == truth then 1 else 0
  {
    assert (hs + [x])[..|hs|] == hs;
  }
}
