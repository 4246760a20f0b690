/**
  One direction of a connection: the sending side of one end, the receiving side of the other, and
  what the two know of each other. Positions are absolute (how many fragments came before); the
  code only ever sees them reduced modulo 2^32. `released` counts the fragments the sender has let
  go, `drained` those the receiver has taken out of its queue.
*/
module Links {
  import opened Words
  import opened Fragments
  import opened LoopedQueues
  import opened Endpoints

  /** What is fixed along one direction: the first sequence number, the fragment size, and all the
      messages handed to `Send` so far. */
  datatype Lane = Lane(base: nat, m: nat, msgs: seq<Bytes>) {
    ghost predicate Ok() { 0 < m && forall d | d in msgs :: Sendable(m, d) }
    ghost function Frags(): seq<Frag>
      requires 0 < m
    {
      Stream(m, 0, msgs)
    }
  }

  ghost function End(s: SendSide, released: nat): nat { released + |s.q.items| }

  /** The window and the pending fragments are the unreleased part of the stream, in order. */
  ghost predicate Sender(lane: Lane, s: SendSide, released: nat) {
    && lane.Ok()
    && |s.q.items| <= s.q.size < TWO31
    && s.q.stSeq == Wrap(lane.base + released)
    && End(s, released) <= |lane.Frags()|
    && s.q.items == lane.Frags()[released..End(s, released)]
    && s.waiting + s.chan == lane.Frags()[End(s, released)..]
    && forall t | t in s.timers :: s.q.Holds(t)
  }

  /** Every filled slot holds the fragment of its number, and what was reassembled is what the
      drained prefix of the stream gives. */
  ghost predicate Receiver(cfg: Config, lane: Lane, r: RecvSide, drained: nat) {
    && lane.Ok()
    && |r.q.items| <= r.q.size < TWO31
    && r.q.stSeq == Wrap(lane.base + drained)
    && drained + |r.q.items| <= |lane.Frags()|
    && (forall k | 0 <= k < |r.q.items| && r.q.items[k].Some? ::
          r.q.items[k].value == lane.Frags()[drained + k])
    && FeedAll(cfg.checkFirst, Assembly([], []), lane.Frags()[..drained]) == Some(r.asm)
    && !r.hung
  }

  ghost predicate Drained(r: RecvSide) { r.q.items == [] || r.q.items[0].None? }

  /** The receiver has stored or drained the fragment at `p`. */
  ghost predicate Has(r: RecvSide, drained: nat, p: nat) {
    p < drained || (p - drained < |r.q.items| && r.q.items[p - drained].Some?)
  }

  /** sender start <= receiver start <= receiver end <= sender end <= receiver start + its size, and
      a fragment of the window without a timer is one the receiver has. */
  ghost predicate Link(lane: Lane, s: SendSide, released: nat, r: RecvSide, drained: nat) {
    && released <= drained
    && drained + |r.q.items| <= End(s, released) <= drained + r.q.size
    && forall p: nat | released <= p < End(s, released) && Wrap(lane.base + p) !in s.timers ::
         Has(r, drained, p)
  }

  /** A state message that the receiver sent when its window was `mapPos .. expPos`. */
  ghost predicate StateOk(lane: Lane, r: RecvSide, drained: nat, st: StateMsg, mapPos: nat, expPos: nat) {
    && mapPos <= drained && mapPos <= expPos <= drained + |r.q.items|
    && expPos - mapPos <= r.q.size
    && st.mapStSeq == Wrap(lane.base + mapPos)
    && st.expectSeq == Wrap(lane.base + expPos)
    && st.maxExpectCnt == r.q.size - (expPos - mapPos)
    && forall k: nat | k < 8 && k < expPos - mapPos && BitSet(st.stateMap, k) :: Has(r, drained, mapPos + k)
  }

  /** An emission of the sender: the number is in its window, the fragment is the one it names. */
  ghost predicate Emitted(lane: Lane, s: SendSide, released: nat, e: Emission)
    requires 0 < lane.m
  {
    && s.q.Holds(e.seqNo)
    && released + s.q.Offset(e.seqNo) < |lane.Frags()|
    && e.frag == lane.Frags()[released + s.q.Offset(e.seqNo)]
  }

  /** A state is fresh if the sender has not moved on by almost a whole period of numbers since. */
  ghost predicate FreshState(cfg: Config, s: SendSide, released: nat, mapPos: nat) {
    released + s.q.size + (if cfg.inclusiveAck then 1 else 0) <= mapPos + TWO32
  }

  ghost predicate FreshData(r: RecvSide, drained: nat, pos: nat) {
    drained + r.q.size <= pos + TWO32
  }

  /** The uint32 membership test decides membership in the window of absolute positions. */
  lemma HoldsExact<T>(q: Fifo<T>, base: nat, start: nat, p: nat)
    requires |q.items| <= q.size < TWO31 && q.stSeq == Wrap(base + start)
    requires start + q.size <= p + TWO32 && p < start + TWO32
    ensures q.Holds(Wrap(base + p)) <==> start <= p < start + |q.items|
    ensures start <= p ==> q.Offset(Wrap(base + p)) == p - start
    ensures p < start ==> q.Offset(Wrap(base + p)) >= q.size
  {
    SubExact(base + p, base + start);
  }

  lemma EnSeqExact<T>(q: Fifo<T>, base: nat, start: nat)
    requires q.stSeq == Wrap(base + start)
    ensures q.EnSeq() == Wrap(base + start + |q.items|)
  {
    AddOfWrap(base + start, |q.items|);
  }

  /** The absolute position of a held number. */
  lemma HeldPosition<T>(q: Fifo<T>, base: nat, start: nat, n: u32)
    requires q.stSeq == Wrap(base + start) && q.Holds(n)
    ensures n == Wrap(base + start + q.Offset(n))
  {
    var i := WrapSplit(base + start);
    var k := WrapSplit(n - q.stSeq);
    assert n == q.stSeq + q.Offset(n) + k * TWO32;
    assert base + start + q.Offset(n) == n + (i - k) * TWO32 by {
      assert i * TWO32 - k * TWO32 == (i - k) * TWO32;
    }
    ResidueIs(base + start + q.Offset(n), n, i - k);
  }

  // ---- Sender steps ----

  lemma EmitKeeps(lane: Lane, s: SendSide, released: nat, r: RecvSide, drained: nat, n: u32)
    requires Sender(lane, s, released) && Link(lane, s, released, r, drained) && s.q.Holds(n)
    ensures Sound(lane, Emit(s, n), released, r, drained)
  {}

  lemma ClearTimerKeeps(lane: Lane, s: SendSide, released: nat, r: RecvSide, drained: nat, p: nat)
    requires Sender(lane, s, released) && Link(lane, s, released, r, drained)
    requires released <= p < End(s, released) && Has(r, drained, p)
    ensures var s' := s.(timers := s.timers - {Wrap(lane.base + p)});
      Sender(lane, s', released) && Link(lane, s', released, r, drained)
  {
    var s' := s.(timers := s.timers - {Wrap(lane.base + p)});
    forall q: nat | released <= q < End(s, released) && Wrap(lane.base + q) !in s'.timers
      ensures Has(r, drained, q)
    {
      if Wrap(lane.base + q) == Wrap(lane.base + p) { WrapInjective(lane.base + q, lane.base + p); }
    }
  }

  lemma ReleaseOneKeeps(lane: Lane, s: SendSide, released: nat, r: RecvSide, drained: nat)
    requires Sender(lane, s, released) && Link(lane, s, released, r, drained)
    requires released < drained && s.q.items != []
    ensures var s' := s.(q := s.q.Pop(), timers := s.timers - {s.q.stSeq});
      Sender(lane, s', released + 1) && Link(lane, s', released + 1, r, drained)
  {
    var s' := s.(q := s.q.Pop(), timers := s.timers - {s.q.stSeq});
    AddOfWrap(lane.base + released, 1);
    forall t | t in s'.timers ensures s'.q.Holds(t) {
      HeldPosition(s.q, lane.base, released, t);
      var p := released + s.q.Offset(t);
      HoldsExact(s'.q, lane.base, released + 1, p);
    }
    forall p: nat | released + 1 <= p < End(s, released) && Wrap(lane.base + p) !in s'.timers
      ensures Has(r, drained, p)
    {
      if Wrap(lane.base + p) == s.q.stSeq { WrapInjective(lane.base + p, lane.base + released); }
    }
  }

  lemma Window(lane: Lane, s: SendSide, released: nat, r: RecvSide, drained: nat)
    requires Sender(lane, s, released) && Link(lane, s, released, r, drained)
    ensures s.q.stSeq == Wrap(lane.base + released)
    ensures released <= drained <= End(s, released) && |s.q.items| <= s.q.size < TWO31
  {
  }

  /** Releasing up to the receiver's start keeps everything, and releases exactly up to it. */
  lemma {:induction false} ReleaseToKeeps(lane: Lane, s: SendSide, released: nat, r: RecvSide, drained: nat,
                                          target: nat)
    requires Sender(lane, s, released) && Link(lane, s, released, r, drained)
    requires released <= target <= drained
    ensures var s' := ReleaseTo(s, Wrap(lane.base + target));
      && Sender(lane, s', target) && Link(lane, s', target, r, drained)
      && s'.q.items == s.q.items[target - released..] && End(s', target) == End(s, released)
    decreases target - released
  {
    hide Sender, Link, Wrap;
    Window(lane, s, released, r, drained);
    if released < target {
      WrapInjectiveNot(lane.base + released, lane.base + target);
      ReleaseOneKeeps(lane, s, released, r, drained);
      ReleaseToKeeps(lane, s.(q := s.q.Pop(), timers := s.timers - {s.q.stSeq}), released + 1, r, drained, target);
    }
  }

  lemma WrapInjectiveNot(a: int, b: int)
    requires -TWO32 < a - b < TWO32 && a != b
    ensures Wrap(a) != Wrap(b)
  {
    if Wrap(a) == Wrap(b) { WrapInjective(a, b); }
  }

  /** Where the sender starts after an acknowledgement: `mapPos` if that is inside the window (or at
      its end, for the inclusive rule), and where it was otherwise. */
  ghost function ReleasedAfter(cfg: Config, s: SendSide, released: nat, mapPos: nat): nat {
    if released <= mapPos && (mapPos < End(s, released) || (cfg.inclusiveAck && mapPos == End(s, released)))
    then mapPos else released
  }

  lemma ReleaseKeeps(cfg: Config, lane: Lane, s: SendSide, released: nat, r: RecvSide, drained: nat, mapPos: nat)
    requires Sender(lane, s, released) && Link(lane, s, released, r, drained)
    requires mapPos <= drained && FreshState(cfg, s, released, mapPos)
    ensures var s' := Release(cfg, s, Wrap(lane.base + mapPos));
      var released' := ReleasedAfter(cfg, s, released, mapPos);
      && Sender(lane, s', released') && Link(lane, s', released', r, drained)
      && End(s', released') == End(s, released)
  {
    HoldsExact(s.q, lane.base, released, mapPos);
    EnSeqExact(s.q, lane.base, released);
    if cfg.inclusiveAck && mapPos != End(s, released) {
      WrapInjectiveNot(lane.base + mapPos, lane.base + End(s, released));
    }
    if ReleasedAfter(cfg, s, released, mapPos) == mapPos {
      ReleaseToKeeps(lane, s, released, r, drained, mapPos);
    }
  }

  /** A partial result of `syncState`: the sender's invariant, the link, and every emission right. */
  ghost predicate Sound(lane: Lane, o: SyncOut, released: nat, r: RecvSide, drained: nat) {
    && Sender(lane, o.s, released) && Link(lane, o.s, released, r, drained)
    && forall e | e in o.sent :: Emitted(lane, o.s, released, e)
  }

  lemma SoundThen(lane: Lane, o1: SyncOut, o2: SyncOut, released: nat, r: RecvSide, drained: nat)
    requires Sound(lane, o1, released, r, drained) && Sound(lane, o2, released, r, drained)
    requires |o1.s.q.items| <= |o2.s.q.items|
    ensures Sound(lane, Then(o1.sent, o2), released, r, drained)
  {}

  /** What the tests of the map loop decide about the absolute position `mapPos + k`. */
  lemma MapTests(lane: Lane, s: SendSide, released: nat, r: RecvSide, drained: nat,
                 st: StateMsg, mapPos: nat, expPos: nat, k: nat)
    requires Sender(lane, s, released) && Link(lane, s, released, r, drained)
    requires StateOk(lane, r, drained, st, mapPos, expPos)
    requires released + s.q.size <= mapPos + TWO32 && mapPos + k <= expPos && k < 8
    ensures var i := Add(st.mapStSeq, k);
      && i == Wrap(lane.base + mapPos + k)
      && (s.q.Holds(i) ==> released <= mapPos + k < End(s, released))
      && (i != st.expectSeq ==> mapPos + k < expPos && (BitSet(st.stateMap, k) ==> Has(r, drained, mapPos + k)))
  {
    AddOfWrap(lane.base + mapPos, k);
    hide BitSet, Wrap, Add;
    if s.q.Holds(Add(st.mapStSeq, k)) { HoldsExact(s.q, lane.base, released, mapPos + k); }
  }

  lemma {:induction false} MapLoopKeeps(lane: Lane, s: SendSide, released: nat, r: RecvSide, drained: nat,
                     st: StateMsg, mapPos: nat, expPos: nat, k: nat)
    requires Sender(lane, s, released) && Link(lane, s, released, r, drained)
    requires StateOk(lane, r, drained, st, mapPos, expPos) && released + s.q.size <= mapPos + TWO32
    requires k <= 8 && mapPos + k <= expPos
    ensures Sound(lane, MapLoop(s, st, k), released, r, drained)
    decreases 8 - k
  {
    var i := Add(st.mapStSeq, k);
    if k < 8 && i != st.expectSeq {
      MapTests(lane, s, released, r, drained, st, mapPos, expPos, k);
      hide Sender, Link, StateOk, Wrap, Sub, Add, BitSet, Has;
      if s.q.Holds(i) {
        if BitSet(st.stateMap, k) {
          ClearTimerKeeps(lane, s, released, r, drained, mapPos + k);
          MapLoopKeeps(lane, s.(timers := s.timers - {i}), released, r, drained, st, mapPos, expPos, k + 1);
        } else {
          EmitKeeps(lane, s, released, r, drained, i);
          var o1 := Emit(s, i);
          MapLoopKeeps(lane, o1.s, released, r, drained, st, mapPos, expPos, k + 1);
          SoundThen(lane, o1, MapLoop(o1.s, st, k + 1), released, r, drained);
        }
      }
    }
  }

  /** Assigning the next number to the next pending fragment. */
  lemma AssignKeeps(lane: Lane, s: SendSide, released: nat, r: RecvSide, drained: nat)
    requires Sender(lane, s, released) && Link(lane, s, released, r, drained)
    requires |s.q.items| < s.q.size && s.waiting + s.chan != []
    requires End(s, released) < drained + r.q.size
    ensures var (s1, f) := TakeNext(s);
      var s2 := s1.(q := s1.q.Push(f));
      var n := s.q.EnSeq();
      && s2.q.Holds(n)
      && Sound(lane, Emit(s2, n), released, r, drained)
      && End(Emit(s2, n).s, released) == End(s, released) + 1
  {
    var (s1, f) := TakeNext(s);
    TakeNextTakes(s);
    PushedIsHeld(s.q, f);
    EnSeqExact(s.q, lane.base, released);
    var s2 := s1.(q := s1.q.Push(f));
    var n := s.q.EnSeq();
    PushedSender(lane, s, released, s1, f);
    hide Sender, Link, Wrap, Sub, Add, TakeNext;
    PushedLink(lane, s, released, r, drained, s1, f);
    assert Sender(lane, s2.(timers := s2.timers + {n}), released);
  }

  lemma PushedLink(lane: Lane, s: SendSide, released: nat, r: RecvSide, drained: nat, s1: SendSide, f: Frag)
    requires Link(lane, s, released, r, drained) && End(s, released) < drained + r.q.size
    requires |s.q.items| < s.q.size && s1.q == s.q && s1.timers == s.timers
    requires s.q.EnSeq() == Wrap(lane.base + End(s, released))
    ensures var s2 := s1.(q := s1.q.Push(f));
      Link(lane, s2.(timers := s2.timers + {s.q.EnSeq()}), released, r, drained)
  {
    hide Wrap, Add;
    var s2 := s1.(q := s1.q.Push(f), timers := s.timers + {s.q.EnSeq()});
    forall p: nat | released <= p <= End(s, released) && Wrap(lane.base + p) !in s2.timers
      ensures Has(r, drained, p)
    {
      assert p < End(s, released) && Wrap(lane.base + p) !in s.timers;
    }
  }

  lemma PushedSender(lane: Lane, s: SendSide, released: nat, s1: SendSide, f: Frag)
    requires Sender(lane, s, released) && |s.q.items| < s.q.size
    requires s.waiting + s.chan == [f] + (s1.waiting + s1.chan)
    requires s1.q == s.q && s1.timers == s.timers
    ensures var s2 := s1.(q := s1.q.Push(f));
      Sender(lane, s2.(timers := s2.timers + {s.q.EnSeq()}), released)
    ensures End(s, released) < |lane.Frags()| && f == lane.Frags()[End(s, released)]
  {
    PushedIsHeld(s.q, f);
    hide Stream, Wrap, Add;
    NextOfStream(lane.Frags(), released, End(s, released), f, s1.waiting + s1.chan);
  }

  lemma NextOfStream(fs: seq<Frag>, st: nat, e: nat, f: Frag, rest: seq<Frag>)
    requires st <= e <= |fs| && fs[e..] == [f] + rest
    ensures e < |fs| && f == fs[e] && rest == fs[e + 1..] && fs[st..e + 1] == fs[st..e] + [f]
  {
    assert f == fs[e..][0] && rest == fs[e..][1..];
  }

  lemma TakeNextTakes(s: SendSide)
    requires s.waiting + s.chan != []
    ensures var (s1, f) := TakeNext(s);
      && s.waiting + s.chan == [f] + (s1.waiting + s1.chan)
      && s1.q == s.q && s1.timers == s.timers
  {
    var (s1, f) := TakeNext(s);
    if s.waiting != [] {
      assert s.waiting == [f] + s1.waiting;
      assert s.waiting + s.chan == [f] + (s1.waiting + s.chan);
    } else {
      assert s.waiting + s.chan == s.chan;
      assert s1.waiting + s1.chan == s1.chan;
    }
  }

  function Later(a: nat, b: nat): nat { if a <= b then b else a }

  lemma SoundNothing(lane: Lane, s: SendSide, released: nat, r: RecvSide, drained: nat)
    requires Sender(lane, s, released) && Link(lane, s, released, r, drained)
    ensures Sound(lane, SyncOut(s, []), released, r, drained)
    ensures |s.q.items| <= s.q.size < TWO31
  {
  }

  lemma SoundParts(lane: Lane, o: SyncOut, released: nat, r: RecvSide, drained: nat)
    requires Sound(lane, o, released, r, drained)
    ensures Sender(lane, o.s, released) && Link(lane, o.s, released, r, drained)
    ensures |o.s.q.items| <= o.s.q.size < TWO31
  {
  }

  /** One turn of the second loop: it stops, or goes on from a sound partial result, with at most the
      fragment at `expPos + i` newly numbered, which is inside the window of the state. */
  lemma ExpectTurn(lane: Lane, s: SendSide, released: nat, r: RecvSide, drained: nat,
                   st: StateMsg, mapPos: nat, expPos: nat, due: set<u32>, i: nat) returns (goes: bool, o: SyncOut)
    requires Sender(lane, s, released) && Link(lane, s, released, r, drained)
    requires StateOk(lane, r, drained, st, mapPos, expPos)
    requires released <= expPos && expPos + i <= End(s, released)
    ensures |s.q.items| <= s.q.size < TWO31
    ensures !goes ==> ExpectLoop(s, st, due, i) == SyncOut(s, [])
    ensures goes ==>
      && i < st.maxExpectCnt
      && Sound(lane, o, released, r, drained) && |o.s.q.items| <= o.s.q.size < TWO31
      && ExpectLoop(s, st, due, i) == Then(o.sent, ExpectLoop(o.s, st, due, i + 1))
      && End(s, released) <= End(o.s, released) <= Later(End(s, released), mapPos + r.q.size)
      && expPos + i + 1 <= End(o.s, released)
  {
    SoundNothing(lane, s, released, r, drained);
    goes, o := false, SyncOut(s, []);
    var n := Add(st.expectSeq, i);
    if i < st.maxExpectCnt {
      ExpectTests(lane, s, released, r, drained, st, mapPos, expPos, i);
      hide Sender, Link, StateOk, Wrap, Sub, Add, TakeNext, Sound;
      if s.q.Holds(n) {
        goes := true;
        if n in due {
          EmitKeeps(lane, s, released, r, drained, n);
          o := Emit(s, n);
        }
      } else if n == s.q.EnSeq() && !s.q.Full() && s.waiting + s.chan != [] {
        AssignKeeps(lane, s, released, r, drained);
        var (s1, f) := TakeNext(s);
        goes, o := true, Emit(s1.(q := s1.q.Push(f)), n);
        SoundParts(lane, o, released, r, drained);
      }
    }
  }

  /** The second loop never runs past the receiver's window: every number it assigns is below the
      receiver's current start plus its queue size. */
  lemma {:induction false} ExpectLoopKeeps(lane: Lane, s: SendSide, released: nat, r: RecvSide, drained: nat,
                        st: StateMsg, mapPos: nat, expPos: nat, due: set<u32>, i: nat)
    requires Sender(lane, s, released) && Link(lane, s, released, r, drained)
    requires StateOk(lane, r, drained, st, mapPos, expPos)
    requires released <= expPos && expPos + i <= End(s, released)
    ensures Sound(lane, ExpectLoop(s, st, due, i), released, r, drained)
    ensures |s.q.items| <= |ExpectLoop(s, st, due, i).s.q.items|
    ensures End(ExpectLoop(s, st, due, i).s, released) <= Later(End(s, released), mapPos + r.q.size)
    decreases st.maxExpectCnt - i
  {
    hide Sender, Link, StateOk, ExpectLoop, Sound;
    var goes, o := ExpectTurn(lane, s, released, r, drained, st, mapPos, expPos, due, i);
    if goes {
      SoundParts(lane, o, released, r, drained);
      ExpectLoopKeeps(lane, o.s, released, r, drained, st, mapPos, expPos, due, i + 1);
      SoundThen(lane, o, ExpectLoop(o.s, st, due, i + 1), released, r, drained);
    } else {
      SoundNothing(lane, s, released, r, drained);
    }
  }

  /** What the tests of the second loop decide about the absolute position `expPos + i`. */
  lemma ExpectTests(lane: Lane, s: SendSide, released: nat, r: RecvSide, drained: nat,
                    st: StateMsg, mapPos: nat, expPos: nat, i: nat)
    requires Sender(lane, s, released) && StateOk(lane, r, drained, st, mapPos, expPos)
    requires released <= expPos && expPos + i <= End(s, released) && i < st.maxExpectCnt
    ensures var n := Add(st.expectSeq, i);
      && (s.q.Holds(n) <==> expPos + i < End(s, released))
      && (n == s.q.EnSeq() <==> expPos + i == End(s, released))
    ensures expPos + i < mapPos + r.q.size <= drained + r.q.size
    ensures |s.q.items| <= s.q.size < TWO31
  {
    AddOfWrap(lane.base + expPos, i);
    HoldsExact(s.q, lane.base, released, expPos + i);
    EnSeqExact(s.q, lane.base, released);
    if expPos + i < End(s, released) {
      WrapInjectiveNot(lane.base + (expPos + i), lane.base + End(s, released));
    }
  }

  /** A state so old that its expected number was released does nothing in the second loop. */
  lemma ExpectLoopStale(cfg: Config, lane: Lane, s: SendSide, released: nat, r: RecvSide, drained: nat,
                        st: StateMsg, mapPos: nat, expPos: nat, due: set<u32>)
    requires Sender(lane, s, released) && Link(lane, s, released, r, drained)
    requires StateOk(lane, r, drained, st, mapPos, expPos)
    requires expPos < released && released + s.q.size <= mapPos + TWO32
    ensures ExpectLoop(s, st, due, 0) == SyncOut(s, [])
  {
    AddOfWrap(lane.base + expPos, 0);
    HoldsExact(s.q, lane.base, released, expPos);
    EnSeqExact(s.q, lane.base, released);
    assert |s.q.items| <= s.q.size < TWO31;
    assert expPos - End(s, released) > -TWO32 || s.q.Full();
    if !s.q.Full() { WrapInjectiveNot(lane.base + expPos, lane.base + End(s, released)); }
    hide Sender, Link, StateOk, Wrap, Sub;
  }

  lemma {:induction false} RefillKeeps(lane: Lane, s: SendSide, released: nat, r: RecvSide, drained: nat, window: nat)
    requires Sender(lane, s, released) && Link(lane, s, released, r, drained)
    ensures Sender(lane, Refill(s, window), released) && Link(lane, Refill(s, window), released, r, drained)
    ensures Refill(s, window).q == s.q
    decreases |s.chan|
  {
    if |s.waiting| < window && s.chan != [] {
      var s' := s.(waiting := s.waiting + [s.chan[0]], chan := s.chan[1..]);
      assert s'.waiting + s'.chan == s.waiting + s.chan;
      RefillKeeps(lane, s', released, r, drained, window);
    }
  }

  /** `syncState` on any fresh state the receiver ever sent keeps the whole invariant. */
  lemma SyncKeeps(cfg: Config, lane: Lane, s: SendSide, released: nat, r: RecvSide, drained: nat,
                  st: StateMsg, mapPos: nat, expPos: nat, due: set<u32>, window: nat)
    requires Sender(lane, s, released) && Link(lane, s, released, r, drained)
    requires StateOk(lane, r, drained, st, mapPos, expPos) && FreshState(cfg, s, released, mapPos)
    ensures var o := SyncState(cfg, s, st, due, window);
      var released' := ReleasedAfter(cfg, s, released, mapPos);
      && Sound(lane, o, released', r, drained)
      && End(s, released) <= End(o.s, released') <= Later(End(s, released), mapPos + r.q.size)
  {
    var released' := ReleasedAfter(cfg, s, released, mapPos);
    ReleaseKeeps(cfg, lane, s, released, r, drained, mapPos);
    assert st.mapStSeq == Wrap(lane.base + mapPos) && mapPos <= expPos;
    assert released' + s.q.size <= mapPos + TWO32;
    var s1 := Release(cfg, s, st.mapStSeq);
    SizeReleased(cfg, s, st.mapStSeq);
    hide Sender, Link, Emitted, Wrap, MapLoop, ExpectLoop, Refill, Release, ReleasedAfter, FreshState, StateOk, Sound;
    MapLoopKeeps(lane, s1, released', r, drained, st, mapPos, expPos, 0);
    var m := MapLoop(s1, st, 0);
    SoundParts(lane, m, released', r, drained);
    if expPos < released' {
      ExpectLoopStale(cfg, lane, m.s, released', r, drained, st, mapPos, expPos, due);
      SoundNothing(lane, m.s, released', r, drained);
    } else {
      ExpectLoopKeeps(lane, m.s, released', r, drained, st, mapPos, expPos, due, 0);
    }
    var e := ExpectLoop(m.s, st, due, 0);
    SoundThen(lane, m, e, released', r, drained);
    SoundParts(lane, e, released', r, drained);
    RefillKeeps(lane, e.s, released', r, drained, window);
    SoundSame(lane, Then(m.sent, e), Refill(e.s, window), released', r, drained);
  }

  lemma SizeReleased(cfg: Config, s: SendSide, n: u32)
    ensures Release(cfg, s, n).q.size == s.q.size
  {
  }

  lemma SoundSame(lane: Lane, o: SyncOut, s: SendSide, released: nat, r: RecvSide, drained: nat)
    requires Sound(lane, o, released, r, drained) && s.q == o.s.q
    requires Sender(lane, s, released) && Link(lane, s, released, r, drained)
    ensures Sound(lane, SyncOut(s, o.sent), released, r, drained)
  {}

  // ---- Receiver steps ----

  /** Taking the head fragment out of the queue, with what the loop makes of it. */
  lemma PopKeeps(cfg: Config, lane: Lane, r: RecvSide, drained: nat, a: Assembly)
    requires Receiver(cfg, lane, r, drained) && r.q.items != []
    requires FeedAll(cfg.checkFirst, Assembly([], []), lane.Frags()[..drained + 1]) == Some(a)
    ensures Receiver(cfg, lane, r.(q := r.q.Pop(), asm := a), drained + 1)
  {
    AddOfWrap(lane.base + drained, 1);
  }

  /** The head fragment is the next of the stream, so the loop body takes it and goes on. */
  lemma HeadFeeds(cfg: Config, lane: Lane, r: RecvSide, drained: nat)
    requires Receiver(cfg, lane, r, drained) && r.q.items != [] && r.q.items[0].Some?
    ensures var fed := Feed(cfg.checkFirst, r.asm, r.q.items[0].value);
      fed.Some? && FeedAll(cfg.checkFirst, Assembly([], []), lane.Frags()[..drained + 1]) == Some(fed.value)
  {
    hide Stream;
    var fs := lane.Frags();
    FeedStream(cfg.checkFirst, Assembly([], []), lane.m, 0, lane.msgs, drained + 1);
    assert fs[..drained + 1] == fs[..drained] + [fs[drained]];
    FeedSnoc(cfg.checkFirst, Assembly([], []), fs[..drained], fs[drained], r.asm);
  }

  /** Draining keeps the receiver's invariant, never hangs, and stops at a hole or an empty queue. */
  lemma {:induction false} DrainKeeps(cfg: Config, lane: Lane, r: RecvSide, drained: nat)
    requires Receiver(cfg, lane, r, drained)
    ensures var r' := Drain(cfg.checkFirst, r);
      && |r'.q.items| <= |r.q.items|
      && Receiver(cfg, lane, r', DrainedAfter(r, r', drained)) && Drained(r')
      && drained <= DrainedAfter(r, r', drained)
      && (forall p: nat | Has(r, drained, p) :: Has(r', DrainedAfter(r, r', drained), p))
      && r'.q.size == r.q.size
    decreases |r.q.items|
  {
    hide Receiver, Feed;
    if r.q.items != [] && r.q.items[0].Some? {
      HeadFeeds(cfg, lane, r, drained);
      var a := Feed(cfg.checkFirst, r.asm, r.q.items[0].value).value;
      var r1 := r.(q := r.q.Pop(), asm := a);
      PopKeeps(cfg, lane, r, drained, a);
      DrainKeeps(cfg, lane, r1, drained + 1);
      var r' := Drain(cfg.checkFirst, r);
      assert r' == Drain(cfg.checkFirst, r1);
      assert DrainedAfter(r, r', drained) == DrainedAfter(r1, r', drained + 1);
      assert forall p: nat | Has(r, drained, p) :: Has(r1, drained + 1, p);
    }
  }

  /** The receiver's end does not move while draining, so its start moves by what left the queue. */
  ghost function DrainedAfter(r: RecvSide, r': RecvSide, drained: nat): nat
    requires |r'.q.items| <= |r.q.items|
  {
    drained + |r.q.items| - |r'.q.items|
  }

  /** With a fresh fragment, the size check discards exactly what was already drained. */
  lemma StoreExact(cfg: Config, lane: Lane, s: SendSide, released: nat, r: RecvSide, drained: nat,
                   e: Emission, pos: nat)
    requires Receiver(cfg, lane, r, drained) && Link(lane, s, released, r, drained)
    requires pos < End(s, released) && e.seqNo == Wrap(lane.base + pos) && FreshData(r, drained, pos)
    ensures Store(r.q, e).None? <==> pos < drained
    ensures drained <= pos ==> r.q.Offset(e.seqNo) == pos - drained < r.q.size
  {
    HoldsExact(r.q, lane.base, drained, pos);
  }

  /** The freshness bound is exact: of the numbers drained at most one period ago, the size check
      discards those, and only those, that are fresh. A staler one is taken for a new fragment. */
  lemma StaleStoredExact(base: nat, r: RecvSide, drained: nat, e: Emission, pos: nat)
    requires |r.q.items| <= r.q.size < TWO31 && r.q.stSeq == Wrap(base + drained)
    requires e.seqNo == Wrap(base + pos) && pos < drained <= pos + TWO32
    ensures Store(r.q, e).None? <==> FreshData(r, drained, pos)
  {
    SubExact(base + pos, base + drained);
  }

  // ---- What a state does that is too old to be told from a new one ----

  /** One period later the number of a stale state lies in the window, or at its end for the inclusive
      rule. */
  ghost predicate Aliases(cfg: Config, s: SendSide, released: nat, mapPos: nat) {
    var alias, end := mapPos + TWO32, End(s, released);
    alias < end || (cfg.inclusiveAck && alias == end)
  }

  lemma OnePeriodLater(base: nat, pos: nat)
    ensures Wrap(base + pos) == Wrap(base + (pos + TWO32))
  {
    var k := WrapSplit(base + pos);
    assert (k + 1) * TWO32 == k * TWO32 + TWO32;
    ResidueIs(base + pos + TWO32, Wrap(base + pos), k + 1);
  }

  /** A state from at most one period ago acknowledges exactly if its number aliases into the window. A
      fresh one never does; with a full window a state that is not fresh always does. */
  lemma StaleStateExact(cfg: Config, base: nat, s: SendSide, released: nat, mapPos: nat)
    requires |s.q.items| <= s.q.size < TWO31 && s.q.stSeq == Wrap(base + released)
    requires mapPos < released <= mapPos + TWO32
    ensures var n, inside := Wrap(base + mapPos), Aliases(cfg, s, released, mapPos);
      && (Acknowledges(cfg, s, n) <==> inside)
      && (Release(cfg, s, n) != s <==> inside && released < mapPos + TWO32)
      && (FreshState(cfg, s, released, mapPos) ==> !inside)
      && (s.q.Full() ==> (FreshState(cfg, s, released, mapPos) <==> !inside))
  {
    var alias := mapPos + TWO32;
    OnePeriodLater(base, mapPos);
    HoldsExact(s.q, base, released, alias);
    EnSeqExact(s.q, base, released);
    if alias != End(s, released) { WrapInjectiveNot(base + alias, base + End(s, released)); }
    if alias != released { WrapInjectiveNot(base + alias, base + released); }
  }

  /** Releasing to a number of the window, or to its end, drops exactly what is before it. */
  lemma {:induction false} ReleaseToDrops(base: nat, s: SendSide, released: nat, target: nat)
    requires |s.q.items| < TWO31 && s.q.stSeq == Wrap(base + released)
    requires released <= target <= End(s, released)
    ensures var s' := ReleaseTo(s, Wrap(base + target));
      && s'.q == s.q.(stSeq := Wrap(base + target), items := s.q.items[target - released..])
      && s'.waiting == s.waiting && s'.chan == s.chan
    decreases target - released
  {
    hide Wrap;
    if released < target {
      WrapInjectiveNot(base + released, base + target);
      NextStart(base, s.q, released);
      ReleaseToDrops(base, s.(q := s.q.Pop(), timers := s.timers - {s.q.stSeq}), released + 1, target);
    }
  }

  lemma NextStart(base: nat, q: Fifo<Frag>, released: nat)
    requires q.items != [] && q.stSeq == Wrap(base + released)
    ensures q.Pop().stSeq == Wrap(base + (released + 1))
  {
    AddOfWrap(base + released, 1);
  }

  function Least(a: nat, b: nat, c: nat): nat {
    if a <= b && a <= c then a else if b <= c then b else c
  }

  /** How long the window is after the second loop of `syncState`, from any state at all: the loop starts
      at the offset of the expected number, and goes on if that is inside the window or at its end. */
  function Reached(s: SendSide, off: nat, maxExpectCnt: nat): nat {
    if off <= |s.q.items| < off + maxExpectCnt
    then Least(s.q.size, |s.q.items| + |s.waiting + s.chan|, off + maxExpectCnt)
    else |s.q.items|
  }

  lemma {:induction false} ExpectReaches(s: SendSide, st: StateMsg, due: set<u32>, i: nat, off: nat)
    requires |s.q.items| <= s.q.size < TWO31 && i <= st.maxExpectCnt
    requires Add(st.expectSeq, i) == Add(s.q.stSeq, off + i) && off + i <= |s.q.items|
    ensures |ExpectLoop(s, st, due, i).s.q.items| == Reached(s, off, st.maxExpectCnt)
    ensures ExpectLoop(s, st, due, i).s.q.stSeq == s.q.stSeq
    decreases st.maxExpectCnt - i
  {
    hide Wrap, TakeNext;
    var n := Add(st.expectSeq, i);
    if i < st.maxExpectCnt {
      AtOffset(s.q, off + i);
      NextNumbers(s.q.stSeq, st.expectSeq, off, i);
      if off + i < |s.q.items| {
        ExpectReaches(if n in due then Emit(s, n).s else s, st, due, i + 1, off);
      } else if !s.q.Full() && s.waiting + s.chan != [] {
        var (s1, f) := TakeNext(s);
        TakeNextTakes(s);
        PushedIsHeld(s.q, f);
        ExpectReaches(Emit(s1.(q := s1.q.Push(f)), n).s, st, due, i + 1, off);
      }
    }
  }

  lemma AtOffset<T>(q: Fifo<T>, k: nat)
    requires k <= |q.items| < TWO31
    ensures q.Holds(Add(q.stSeq, k)) <==> k < |q.items|
    ensures Add(q.stSeq, k) == q.EnSeq() <==> k == |q.items|
  {
    ResidueIs(q.stSeq, q.stSeq, 0);
    SubExact(q.stSeq + k, q.stSeq);
    if k < |q.items| { WrapInjectiveNot(q.stSeq + k, q.stSeq + |q.items|); }
  }

  lemma NextNumbers(a: u32, e: u32, off: nat, i: nat)
    requires Add(e, i) == Add(a, off + i)
    ensures Add(e, i + 1) == Add(a, off + (i + 1))
  {
    AddOfWrap(e + i, 1);
    AddOfWrap(a + off + i, 1);
  }

  /** A state whose expected number is neither in the window nor at its end numbers nothing. */
  lemma ExpectOutside(s: SendSide, st: StateMsg, due: set<u32>)
    requires |s.q.items| <= s.q.size < TWO31
    requires !s.q.Holds(st.expectSeq) && st.expectSeq != s.q.EnSeq()
    ensures ExpectLoop(s, st, due, 0).s.q == s.q
  {
    ResidueIs(st.expectSeq, st.expectSeq, 0);
    assert Add(st.expectSeq, 0) == st.expectSeq;
  }

  /** Where the sender starts after a state from at most one period ago. */
  ghost function StaleStart(cfg: Config, s: SendSide, released: nat, mapPos: nat): nat {
    if Aliases(cfg, s, released, mapPos) then mapPos + TWO32 else released
  }

  /** Where its window then ends: the expected number is taken one period later too. */
  ghost function StaleEnd(cfg: Config, s: SendSide, released: nat, mapPos: nat, expPos: nat, size: nat): nat {
    var start, end, from := StaleStart(cfg, s, released, mapPos), End(s, released), expPos + TWO32;
    var limit := mapPos + TWO32 + size;
    if start <= from <= end < limit then Least(start + s.q.size, end + |s.waiting + s.chan|, limit) else end
  }

  /** What `syncState` makes of the window, for a state from at most one period ago that is not fresh. */
  lemma StaleSyncWindow(cfg: Config, lane: Lane, s: SendSide, released: nat, r: RecvSide, drained: nat,
                        st: StateMsg, mapPos: nat, expPos: nat, due: set<u32>, window: nat)
    requires Sender(lane, s, released) && Link(lane, s, released, r, drained) && r.q.size < TWO31
    requires StateOk(lane, r, drained, st, mapPos, expPos)
    requires mapPos < released <= mapPos + TWO32 && !FreshState(cfg, s, released, mapPos)
    ensures var o := SyncState(cfg, s, st, due, window);
      var start := StaleStart(cfg, s, released, mapPos);
      && o.s.q.stSeq == Wrap(lane.base + start)
      && End(o.s, start) == StaleEnd(cfg, s, released, mapPos, expPos, r.q.size)
  {
    hide Sender, Link, StateOk, MapLoop, ExpectLoop, Refill, Release, Wrap, FreshState, StaleStart, Least;
    StaleNumbers(cfg, lane, s, released, r, drained, st, mapPos, expPos);
    var start := StaleStart(cfg, s, released, mapPos);
    var s1 := Release(cfg, s, st.mapStSeq);
    StaleRelease(cfg, lane.base, s, released, mapPos);
    var m := MapLoop(s1, st, 0);
    StaleExpect(lane.base, m.s, start, st, mapPos, expPos, r.q.size, due);
    RefillLeaves(ExpectLoop(m.s, st, due, 0).s, window);
  }

  /** The numbers in a stale state, and that all of them are stale. */
  lemma StaleNumbers(cfg: Config, lane: Lane, s: SendSide, released: nat, r: RecvSide, drained: nat,
                     st: StateMsg, mapPos: nat, expPos: nat)
    requires Sender(lane, s, released) && StateOk(lane, r, drained, st, mapPos, expPos) && r.q.size < TWO31
    requires mapPos < released <= mapPos + TWO32 && !FreshState(cfg, s, released, mapPos)
    ensures |s.q.items| <= s.q.size < TWO31 && s.q.stSeq == Wrap(lane.base + released)
    ensures st.mapStSeq == Wrap(lane.base + mapPos) && st.expectSeq == Wrap(lane.base + expPos)
    ensures st.maxExpectCnt == r.q.size - (expPos - mapPos) && mapPos <= expPos < released
    ensures StaleStart(cfg, s, released, mapPos) <= expPos + TWO32
  {
  }

  /** Exactly when a state from at most one period ago that is not fresh makes the sender overstep the
      receiver. It makes the sender
      release a fragment the receiver has not drained if and only if it acknowledges, and its number is
      beyond the receiver's start. It makes the sender number a fragment beyond the receiver's window if
      and only if its expected number aliases into the window or to its end, its number is beyond the
      receiver's start, and there is room and a fragment to number up to there. */
  lemma StaleSyncExact(cfg: Config, lane: Lane, s: SendSide, released: nat, r: RecvSide, drained: nat,
                       st: StateMsg, mapPos: nat, expPos: nat, due: set<u32>, window: nat)
    requires Sender(lane, s, released) && Link(lane, s, released, r, drained) && r.q.size < TWO31
    requires StateOk(lane, r, drained, st, mapPos, expPos)
    requires mapPos < released <= mapPos + TWO32 && !FreshState(cfg, s, released, mapPos)
    ensures var o, start := SyncState(cfg, s, st, due, window), StaleStart(cfg, s, released, mapPos);
      var end := End(s, released);
      && o.s.q.stSeq == Wrap(lane.base + start)
      && (drained < start <==> Aliases(cfg, s, released, mapPos) && drained < mapPos + TWO32)
      && (drained + r.q.size < End(o.s, start) <==>
            && expPos + TWO32 <= end && drained < mapPos + TWO32
            && drained + r.q.size < start + s.q.size
            && drained + r.q.size < end + |s.waiting + s.chan|)
  {
    StaleSyncWindow(cfg, lane, s, released, r, drained, st, mapPos, expPos, due, window);
    StaleNumbers(cfg, lane, s, released, r, drained, st, mapPos, expPos);
    EndsNested(lane, s, released, r, drained);
    hide Sender, Link, StateOk, SyncState, Wrap, FreshState;
  }

  lemma EndsNested(lane: Lane, s: SendSide, released: nat, r: RecvSide, drained: nat)
    requires Link(lane, s, released, r, drained)
    ensures released <= drained <= End(s, released) <= drained + r.q.size
  {
  }

  lemma StaleRelease(cfg: Config, base: nat, s: SendSide, released: nat, mapPos: nat)
    requires |s.q.items| <= s.q.size < TWO31 && s.q.stSeq == Wrap(base + released)
    requires mapPos < released <= mapPos + TWO32
    ensures var s1, start := Release(cfg, s, Wrap(base + mapPos)), StaleStart(cfg, s, released, mapPos);
      && s1.q.stSeq == Wrap(base + start) && s1.q.size == s.q.size
      && End(s1, start) == End(s, released) && released <= start
      && s1.waiting == s.waiting && s1.chan == s.chan
  {
    StaleStateExact(cfg, base, s, released, mapPos);
    OnePeriodLater(base, mapPos);
    hide Wrap;
    if Aliases(cfg, s, released, mapPos) { ReleaseToDrops(base, s, released, mapPos + TWO32); }
  }

  lemma StaleExpect(base: nat, s: SendSide, start: nat, st: StateMsg, mapPos: nat, expPos: nat, size: nat,
                    due: set<u32>)
    requires |s.q.items| <= s.q.size < TWO31 && s.q.stSeq == Wrap(base + start)
    requires st.expectSeq == Wrap(base + expPos) && st.maxExpectCnt == size - (expPos - mapPos)
    requires mapPos <= expPos && expPos < start <= expPos + TWO32 + TWO31
    ensures End(ExpectLoop(s, st, due, 0).s, start) ==
      var end, from, limit := End(s, start), expPos + TWO32, mapPos + TWO32 + size;
      if start <= from <= end < limit then Least(start + s.q.size, end + |s.waiting + s.chan|, limit) else end
    ensures ExpectLoop(s, st, due, 0).s.q.stSeq == s.q.stSeq
  {
    var from := expPos + TWO32;
    OnePeriodLater(base, expPos);
    if start <= from <= End(s, start) {
      var off: nat := from - start;
      AddOfWrap(base + start, off);
      ResidueIs(st.expectSeq, st.expectSeq, 0);
      assert Add(st.expectSeq, 0) == Add(s.q.stSeq, off + 0);
      hide Wrap;
      ExpectReaches(s, st, due, 0, off);
    } else {
      SubExact(base + from, base + start);
      EnSeqExact(s.q, base, start);
      WrapInjectiveNot(base + from, base + End(s, start));
      hide Wrap;
      ExpectOutside(s, st, due);
    }
  }

  lemma {:induction false} RefillLeaves(s: SendSide, window: nat)
    ensures Refill(s, window).q == s.q
    decreases |s.chan|
  {
    if |s.waiting| < window && s.chan != [] {
      RefillLeaves(s.(waiting := s.waiting + [s.chan[0]], chan := s.chan[1..]), window);
    }
  }

  /** Without the repair at holes, a fresh fragment makes the receiver panic exactly if it is new and
      leaves a hole at the front; an empty receiver survives exactly the fragments that come in
      order. */
  lemma HolePanicsExactly(cfg: Config, lane: Lane, s: SendSide, released: nat, r: RecvSide, drained: nat,
                          e: Emission, pos: nat)
    requires Sender(lane, s, released) && Receiver(cfg, lane, r, drained) && Link(lane, s, released, r, drained)
    requires Drained(r)
    requires pos < End(s, released) && e.seqNo == Wrap(lane.base + pos) && e.frag == lane.Frags()[pos]
    requires FreshData(r, drained, pos)
    ensures LiteralReceive(cfg, r, e) ==
      if drained <= pos && Receive(cfg, r, e).q.items != [] then None else Some(Receive(cfg, r, e))
    ensures r.q.items == [] ==> (LiteralReceive(cfg, r, e) == None <==> drained < pos)
  {
    StoreExact(cfg, lane, s, released, r, drained, e, pos);
    ReceiveKeeps(cfg, lane, s, released, r, drained, e, pos);
    var r' := Receive(cfg, r, e);
    var drained' := DrainedAfterReceive(cfg, r, e, drained);
    assert !r.hung && !r'.hung;
    if drained <= pos {
      var r1 := r.(q := Store(r.q, e).value);
      LiteralDrainExact(cfg.checkFirst, r1);
      if r.q.items == [] { InOrderOnly(cfg, r, r1, drained, e, pos, r', drained'); }
    }
  }

  lemma InOrderOnly(cfg: Config, r: RecvSide, r1: RecvSide, drained: nat, e: Emission, pos: nat,
                    r': RecvSide, drained': nat)
    requires r.q.items == [] && drained <= pos && r.q.Offset(e.seqNo) == pos - drained < r.q.size
    requires Store(r.q, e) == Some(r1.q) && r' == Receive(cfg, r, e) == Drain(cfg.checkFirst, r1)
    requires Drained(r') && !r'.hung && Has(r', drained', pos)
    requires drained' == DrainedAfterReceive(cfg, r, e, drained)
    ensures r'.q.items != [] <==> drained < pos
  {
    assert |r1.q.items| == pos - drained + 1;
    if drained < pos {
      assert r1.q.items[0] == None;
    } else {
      assert |r'.q.items| <= 1 by { DrainShortens(cfg.checkFirst, r1); }
    }
  }

  lemma {:induction false} DrainShortens(checkFirst: bool, r: RecvSide)
    ensures |Drain(checkFirst, r).q.items| <= |r.q.items|
    decreases |r.q.items|
  {
    if r.q.items != [] && r.q.items[0].Some? {
      var fed := Feed(checkFirst, r.asm, r.q.items[0].value);
      hide Feed;
      if fed.Some? { DrainShortens(checkFirst, r.(q := r.q.Pop(), asm := fed.value)); }
    }
  }

  /** Without the guard in the timeout handler, a timeout for a fragment that was ever numbered panics
      exactly if the fragment was released meanwhile. */
  lemma TimeoutPanicsExactly(lane: Lane, e: Endpoint, released: nat, p: nat)
    requires Sender(lane, e.send, released) && |e.recv.q.items| <= e.recv.q.size
    requires p < End(e.send, released) && released + e.send.q.size <= p + TWO32
    ensures var n := Wrap(lane.base + p);
      LiteralOnTimeout(e, n) == if p < released then None else Some(OnTimeout(e, n))
  {
    HoldsExact(e.send.q, lane.base, released, p);
  }

  lemma StoreKeeps(cfg: Config, lane: Lane, s: SendSide, released: nat, r: RecvSide, drained: nat,
                   e: Emission, pos: nat)
    requires Sender(lane, s, released) && Receiver(cfg, lane, r, drained) && Link(lane, s, released, r, drained)
    requires pos < End(s, released) && e.seqNo == Wrap(lane.base + pos) && e.frag == lane.Frags()[pos]
    requires drained <= pos && FreshData(r, drained, pos)
    ensures Store(r.q, e).Some?
    ensures var r' := r.(q := Store(r.q, e).value);
      && Receiver(cfg, lane, r', drained) && |r.q.items| <= |r'.q.items|
      && drained + |r'.q.items| <= End(s, released)
      && (forall p: nat | Has(r, drained, p) :: Has(r', drained, p))
      && Has(r', drained, pos) && r'.q.size == r.q.size
  {
    StoreExact(cfg, lane, s, released, r, drained, e, pos);
    var q := Store(r.q, e).value;
    var off := pos - drained;
    assert |q.items| == if off < |r.q.items| then |r.q.items| else off + 1;
    forall k | 0 <= k < |q.items|
      ensures q.items[k] == if k == off then Some(e.frag) else if k < |r.q.items| then r.q.items[k] else None
    {}
  }

  /** The receiver has moved from `r` at `drained` to `r'` at `drained'` without losing anything. */
  ghost predicate Advanced(r: RecvSide, drained: nat, r': RecvSide, drained': nat) {
    && drained <= drained'
    && drained + |r.q.items| <= drained' + |r'.q.items|
    && r'.q.size == r.q.size
    && forall p: nat | Has(r, drained, p) :: Has(r', drained', p)
  }

  ghost function DrainedAfterReceive(cfg: Config, r: RecvSide, e: Emission, drained: nat): nat {
    match Store(r.q, e)
    case None => drained
    case Some(q) =>
      var r' := Drain(cfg.checkFirst, r.(q := q));
      if |r'.q.items| <= |q.items| then drained + |q.items| - |r'.q.items| else drained
  }

  /** `handlePackReceive` on any fresh fragment the sender ever emitted keeps the whole invariant. */
  lemma ReceiveKeeps(cfg: Config, lane: Lane, s: SendSide, released: nat, r: RecvSide, drained: nat,
                     e: Emission, pos: nat)
    requires Sender(lane, s, released) && Receiver(cfg, lane, r, drained) && Link(lane, s, released, r, drained)
    requires Drained(r)
    requires pos < End(s, released) && e.seqNo == Wrap(lane.base + pos) && e.frag == lane.Frags()[pos]
    requires FreshData(r, drained, pos)
    ensures var r' := Receive(cfg, r, e);
      var drained' := DrainedAfterReceive(cfg, r, e, drained);
      && Receiver(cfg, lane, r', drained') && Link(lane, s, released, r', drained') && Drained(r')
      && Advanced(r, drained, r', drained') && Has(r', drained', pos)
  {
    StoreExact(cfg, lane, s, released, r, drained, e, pos);
    hide Receiver, Sender, Link, Drain, Wrap, Sub, Drained, Receive, Store;
    if drained <= pos {
      ReceiveNew(cfg, lane, s, released, r, drained, e, pos);
    } else {
      ReceiveOld(cfg, r, e, drained);
    }
  }

  lemma ReceiveOld(cfg: Config, r: RecvSide, e: Emission, drained: nat)
    requires |r.q.items| <= r.q.size && Store(r.q, e) == None
    ensures Receive(cfg, r, e) == r && DrainedAfterReceive(cfg, r, e, drained) == drained
  {
  }

  lemma ReceiveNew(cfg: Config, lane: Lane, s: SendSide, released: nat, r: RecvSide, drained: nat,
                   e: Emission, pos: nat)
    requires Sender(lane, s, released) && Receiver(cfg, lane, r, drained) && Link(lane, s, released, r, drained)
    requires Drained(r) && drained <= pos < End(s, released)
    requires e.seqNo == Wrap(lane.base + pos) && e.frag == lane.Frags()[pos] && FreshData(r, drained, pos)
    ensures var r' := Receive(cfg, r, e);
      var drained' := DrainedAfterReceive(cfg, r, e, drained);
      && Receiver(cfg, lane, r', drained') && Link(lane, s, released, r', drained') && Drained(r')
      && Advanced(r, drained, r', drained') && Has(r', drained', pos)
  {
    StoreKeeps(cfg, lane, s, released, r, drained, e, pos);
    var r1 := r.(q := Store(r.q, e).value);
    ReceiveIsDrain(cfg, r, e, drained);
    hide Receiver, Sender, Link, Has, Drain, Wrap, Sub, Drained, Store, Advanced, Receive, DrainedAfterReceive;
    DrainKeeps(cfg, lane, r1, drained);
    var r' := Drain(cfg.checkFirst, r1);
    var drained' := DrainedAfter(r1, r', drained);
    ThroughStore(r, r1, drained, r', drained');
    assert Has(r1, drained, pos);
    LinkAdvances(lane, s, released, r, drained, r', drained');
  }

  lemma ReceiveIsDrain(cfg: Config, r: RecvSide, e: Emission, drained: nat)
    requires Store(r.q, e).Some?
    ensures var r1 := r.(q := Store(r.q, e).value);
      var r' := Drain(cfg.checkFirst, r1);
      && Receive(cfg, r, e) == r'
      && (|r'.q.items| <= |r1.q.items| ==> DrainedAfterReceive(cfg, r, e, drained) == DrainedAfter(r1, r', drained))
  {
    hide Drain, Store;
  }

  /** What was stored and then drained is an advance of the receiver. */
  lemma ThroughStore(r: RecvSide, r1: RecvSide, drained: nat, r': RecvSide, drained': nat)
    requires |r.q.items| <= |r1.q.items| && drained <= drained' && drained + |r1.q.items| == drained' + |r'.q.items|
    requires r1.q.size == r.q.size == r'.q.size
    requires forall p: nat | Has(r, drained, p) :: Has(r1, drained, p)
    requires forall p: nat | Has(r1, drained, p) :: Has(r', drained', p)
    ensures Advanced(r, drained, r', drained')
  {
    hide Has;
  }

  lemma LinkAdvances(lane: Lane, s: SendSide, released: nat, r: RecvSide, drained: nat, r': RecvSide, drained': nat)
    requires Link(lane, s, released, r, drained) && Advanced(r, drained, r', drained')
    requires drained' + |r'.q.items| <= End(s, released)
    ensures Link(lane, s, released, r', drained')
  {}

  /** What a state says stays true while the receiver advances. */
  lemma StateStays(lane: Lane, r: RecvSide, drained: nat, r': RecvSide, drained': nat, st: StateMsg,
                   mapPos: nat, expPos: nat)
    requires StateOk(lane, r, drained, st, mapPos, expPos) && Advanced(r, drained, r', drained')
    ensures StateOk(lane, r', drained', st, mapPos, expPos)
  {}

  /** `getState` describes the receiver exactly as it is. */
  lemma GetStateOk(cfg: Config, lane: Lane, r: RecvSide, drained: nat)
    requires Receiver(cfg, lane, r, drained)
    ensures StateOk(lane, r, drained, GetState(r.q), drained, drained + |r.q.items|)
    ensures forall k: nat | k < 8 && k < |r.q.items| ::
              BitSet(GetState(r.q).stateMap, k) <==> Has(r, drained, drained + k)
  {
    EnSeqExact(r.q, lane.base, drained);
    forall k: nat | k < 8 && k < |r.q.items|
      ensures BitSet(GetState(r.q).stateMap, k) <==> Has(r, drained, drained + k)
    {
      MapBit(r.q.items, 8, k);
    }
  }

  // ---- Send ----

  lemma SenderExtends(lane: Lane, lane': Lane, s: SendSide, released: nat, more: seq<Frag>)
    requires Sender(lane, s, released) && lane'.Ok() && lane'.base == lane.base
    requires lane'.Frags() == lane.Frags() + more
    ensures Sender(lane', s.(chan := s.chan + more), released)
  {
    hide Stream, Wrap, Sub;
    var fs, fs', n := lane.Frags(), lane'.Frags(), End(s, released);
    assert s.waiting + (s.chan + more) == (s.waiting + s.chan) + more;
    assert fs'[n..] == fs[n..] + more;
    assert fs'[released..n] == fs[released..n];
  }

  lemma ReceiverExtends(cfg: Config, lane: Lane, lane': Lane, r: RecvSide, drained: nat)
    requires Receiver(cfg, lane, r, drained) && lane'.Ok() && lane'.base == lane.base
    requires lane.Frags() <= lane'.Frags()
    ensures Receiver(cfg, lane', r, drained)
  {
    hide Stream, FeedAll, Wrap;
    assert lane'.Frags()[..drained] == lane.Frags()[..drained];
  }

  /** Handing over one more message extends the stream and the send channel alike. */
  lemma SendKeeps(cfg: Config, lane: Lane, e: Endpoint, released: nat, r: RecvSide, drained: nat, d: Bytes)
    requires Sender(lane, e.send, released) && Receiver(cfg, lane, r, drained)
    requires Link(lane, e.send, released, r, drained)
    requires e.packID == Wrap(|lane.msgs|) && Sendable(lane.m, d)
    ensures var e' := OnSend(lane.m, e, d);
      var lane' := lane.(msgs := lane.msgs + [d]);
      && Sender(lane', e'.send, released) && Receiver(cfg, lane', r, drained)
      && Link(lane', e'.send, released, r, drained)
      && e'.packID == Wrap(|lane'.msgs|)
      && lane.Frags() <= lane'.Frags()
  {
    var more := FragsOf(lane.m, Add(e.packID, 1), d);
    var lane' := lane.(msgs := lane.msgs + [d]);
    StreamAppend(lane.m, 0, lane.msgs, d);
    AddOfWrap(|lane.msgs|, 1);
    assert lane'.Frags() == lane.Frags() + more;
    hide Stream, FragsOf, FeedAll, Wrap, Sub, Add, Sender, Receiver;
    assert lane'.Ok() by { assert lane.Ok() by { LaneOk(lane, e.send, released); } }
    SenderExtends(lane, lane', e.send, released, more);
    ReceiverExtends(cfg, lane, lane', r, drained);
  }

  lemma LaneOk(lane: Lane, s: SendSide, released: nat)
    requires Sender(lane, s, released)
    ensures lane.Ok()
  {
  }
}
