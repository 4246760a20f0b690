/**
  What `syncState` does with a fresh state, in absolute positions: which fragments it puts on the wire,
  which timers run afterwards, how far the window and the waiting list grow.
*/
module SyncExact {
  import opened Words
  import opened Fragments
  import opened LoopedQueues
  import opened Endpoints
  import opened Links

  /** The emission of the fragment at `p`. */
  ghost function EmissionAt(lane: Lane, p: nat): Emission
    requires 0 < lane.m && p < |lane.Frags()|
  {
    Emission(Wrap(lane.base + p), lane.Frags()[p])
  }

  ghost predicate Ascends(ps: seq<nat>) { forall i, j | 0 <= i < j < |ps| :: ps[i] < ps[j] }

  /** The emissions are those of the fragments at `ps`, in this order. */
  ghost predicate Sends(lane: Lane, sent: seq<Emission>, ps: seq<nat>)
    requires 0 < lane.m
  {
    |sent| == |ps| && forall i | 0 <= i < |ps| :: ps[i] < |lane.Frags()| && sent[i] == EmissionAt(lane, ps[i])
  }

  ghost predicate Timer(lane: Lane, s: SendSide, p: nat) { Wrap(lane.base + p) in s.timers }

  // ---- The map loop ----

  /** The map of a state speaks of `p`. */
  ghost predicate InMap(mapPos: nat, expPos: nat, k: nat, p: nat) { mapPos + k <= p < expPos && p < mapPos + 8 }

  /** It says that `p` is missing. */
  ghost predicate Missing(st: StateMsg, mapPos: nat, expPos: nat, k: nat, p: nat) {
    InMap(mapPos, expPos, k, p) && !BitSet(st.stateMap, p - mapPos)
  }

  lemma EmitsAt(lane: Lane, s: SendSide, released: nat, p: nat)
    requires Sender(lane, s, released) && released <= p < End(s, released)
    ensures s.q.Holds(Wrap(lane.base + p))
    ensures p < |lane.Frags()| && Emit(s, Wrap(lane.base + p)).sent == [EmissionAt(lane, p)]
  {
    HoldsExact(s.q, lane.base, released, p);
  }

  lemma TimersDiffer(lane: Lane, s: SendSide, released: nat, p: nat, q: nat)
    requires s.q.size < TWO31 && |s.q.items| <= s.q.size
    requires released <= p <= End(s, released) && released <= q <= End(s, released)
    ensures Wrap(lane.base + p) == Wrap(lane.base + q) <==> p == q
  {
    if p != q { WrapInjectiveNot(lane.base + p, lane.base + q); }
  }

  /** From bit `k` on, the loop over the map resent exactly what is missing, and stopped the timers of
      what is not. */
  ghost predicate MapDone(lane: Lane, s: SendSide, released: nat, o: SyncOut, st: StateMsg, mapPos: nat, expPos: nat,
                          k: nat, ps: seq<nat>)
    requires 0 < lane.m
  {
    && Sends(lane, o.sent, ps) && Ascends(ps)
    && (forall p: nat :: p in ps <==> Missing(st, mapPos, expPos, k, p))
    && forall p: nat | released <= p < End(s, released) ::
         Timer(lane, o.s, p) <==> p in ps || (Timer(lane, s, p) && !InMap(mapPos, expPos, k, p))
  }

  lemma StoredStep(lane: Lane, s: SendSide, released: nat, o: SyncOut, st: StateMsg, mapPos: nat, expPos: nat,
                   k: nat, ps: seq<nat>)
    requires 0 < lane.m && |s.q.items| <= s.q.size < TWO31
    requires k < 8 && released <= mapPos + k < expPos <= End(s, released) && BitSet(st.stateMap, k)
    requires MapDone(lane, s.(timers := s.timers - {Wrap(lane.base + (mapPos + k))}), released, o,
                     st, mapPos, expPos, k + 1, ps)
    ensures MapDone(lane, s, released, o, st, mapPos, expPos, k, ps)
  {
    var s1 := s.(timers := s.timers - {Wrap(lane.base + (mapPos + k))});
    hide Sends, Ascends, BitSet, Wrap;
    forall p: nat | released <= p < End(s, released)
      ensures Timer(lane, s1, p) <==> Timer(lane, s, p) && p != mapPos + k
    {
      TimersDiffer(lane, s, released, mapPos + k, p);
    }
    forall p: nat ensures p in ps <==> Missing(st, mapPos, expPos, k, p) {
      assert p in ps <==> Missing(st, mapPos, expPos, k + 1, p);
    }
  }

  lemma MissingStep(lane: Lane, s: SendSide, released: nat, o: SyncOut, st: StateMsg, mapPos: nat, expPos: nat,
                    k: nat, ps: seq<nat>)
    requires 0 < lane.m && |s.q.items| <= s.q.size < TWO31
    requires k < 8 && released <= mapPos + k < expPos <= End(s, released) && !BitSet(st.stateMap, k)
    requires mapPos + k < |lane.Frags()|
    requires MapDone(lane, s.(timers := s.timers + {Wrap(lane.base + (mapPos + k))}), released, o,
                     st, mapPos, expPos, k + 1, ps)
    ensures MapDone(lane, s, released, Then([EmissionAt(lane, mapPos + k)], o), st, mapPos, expPos, k,
                    [mapPos + k] + ps)
  {
    var s1 := s.(timers := s.timers + {Wrap(lane.base + (mapPos + k))});
    var p0 := mapPos + k;
    FirstSent(lane, o.sent, p0, ps);
    hide BitSet, Wrap, Sends, Ascends;
    forall p: nat | released <= p < End(s, released)
      ensures Timer(lane, s1, p) <==> Timer(lane, s, p) || p == p0
    {
      TimersDiffer(lane, s, released, p0, p);
    }
    forall p: nat ensures p in [p0] + ps <==> Missing(st, mapPos, expPos, k, p) {
      assert p in ps <==> Missing(st, mapPos, expPos, k + 1, p);
    }
    forall p: nat | released <= p < End(s, released)
      ensures Timer(lane, o.s, p) <==> p in [p0] + ps || (Timer(lane, s, p) && !InMap(mapPos, expPos, k, p))
    {
      assert Timer(lane, o.s, p) <==> p in ps || (Timer(lane, s1, p) && !InMap(mapPos, expPos, k + 1, p));
    }
  }

  lemma FirstSent(lane: Lane, sent: seq<Emission>, p: nat, ps: seq<nat>)
    requires 0 < lane.m && p < |lane.Frags()| && Sends(lane, sent, ps) && Ascends(ps)
    requires forall q | q in ps :: p < q
    ensures Sends(lane, [EmissionAt(lane, p)] + sent, [p] + ps) && Ascends([p] + ps)
  {
    hide EmissionAt;
    forall i | 0 <= i < |ps| ensures p < ps[i] { assert ps[i] in ps; }
  }

  lemma {:induction false} MapSends(lane: Lane, s: SendSide, released: nat, r: RecvSide, drained: nat,
                                    st: StateMsg, mapPos: nat, expPos: nat, k: nat) returns (ps: seq<nat>)
    requires Sender(lane, s, released) && Link(lane, s, released, r, drained)
    requires StateOk(lane, r, drained, st, mapPos, expPos)
    requires released <= mapPos && k <= 8 && mapPos + k <= expPos
    ensures 0 < lane.m && MapDone(lane, s, released, MapLoop(s, st, k), st, mapPos, expPos, k, ps)
    decreases 8 - k
  {
    hide Sender, Link, StateOk, Wrap, Sub, Add, BitSet, Has, MapDone;
    ps := [];
    var i := Add(st.mapStSeq, k);
    AtEnd(lane, s, released, r, drained, st, mapPos, expPos, k);
    if k < 8 && mapPos + k < expPos {
      var p := mapPos + k;
      EmitsAt(lane, s, released, p);
      MapTests(lane, s, released, r, drained, st, mapPos, expPos, k);
      if BitSet(st.stateMap, k) {
        ClearTimerKeeps(lane, s, released, r, drained, p);
        var s1 := s.(timers := s.timers - {i});
        ps := MapSends(lane, s1, released, r, drained, st, mapPos, expPos, k + 1);
        StoredStep(lane, s, released, MapLoop(s1, st, k + 1), st, mapPos, expPos, k, ps);
      } else {
        EmitKeeps(lane, s, released, r, drained, i);
        SoundParts(lane, Emit(s, i), released, r, drained);
        var s1 := Emit(s, i).s;
        var rest := MapSends(lane, s1, released, r, drained, st, mapPos, expPos, k + 1);
        ps := [p] + rest;
        AllLater(lane, s1, released, MapLoop(s1, st, k + 1), st, mapPos, expPos, k + 1, rest);
        MissingStep(lane, s, released, MapLoop(s1, st, k + 1), st, mapPos, expPos, k, rest);
      }
    } else {
      NothingLeft(lane, s, released, st, mapPos, expPos, k);
    }
  }

  lemma AllLater(lane: Lane, s: SendSide, released: nat, o: SyncOut, st: StateMsg, mapPos: nat, expPos: nat,
                 k: nat, ps: seq<nat>)
    requires 0 < lane.m && MapDone(lane, s, released, o, st, mapPos, expPos, k, ps)
    ensures forall q | q in ps :: mapPos + k <= q
  {
  }

  lemma NothingLeft(lane: Lane, s: SendSide, released: nat, st: StateMsg, mapPos: nat, expPos: nat, k: nat)
    requires 0 < lane.m && (k == 8 || mapPos + k == expPos)
    ensures MapDone(lane, s, released, SyncOut(s, []), st, mapPos, expPos, k, [])
  {
  }

  /** The loop stops after eight numbers, or at the expected number, and there only. */
  lemma AtEnd(lane: Lane, s: SendSide, released: nat, r: RecvSide, drained: nat,
              st: StateMsg, mapPos: nat, expPos: nat, k: nat)
    requires Sender(lane, s, released) && Link(lane, s, released, r, drained)
    requires StateOk(lane, r, drained, st, mapPos, expPos)
    requires released <= mapPos && k <= 8 && mapPos + k <= expPos
    ensures 0 < lane.m && |s.q.items| <= s.q.size < TWO31
    ensures mapPos <= expPos <= End(s, released)
    ensures Add(st.mapStSeq, k) == st.expectSeq <==> mapPos + k == expPos
  {
    AddOfWrap(lane.base + mapPos, k);
    TimersDiffer(lane, s, released, mapPos + k, expPos);
  }

  // ---- The loop over the expected numbers ----

  /** Where the window ends after the loop: at the room of the queue, the last fragment there is, or the
      end of the receiver's window, whichever comes first. */
  ghost function GrownEnd(s: SendSide, released: nat, limit: nat): nat {
    var end := End(s, released);
    if end < limit then Least(released + s.q.size, end + |s.waiting + s.chan|, limit) else end
  }

  /** From position `from` on, the loop sent again what is due, and sent everything it numbered. */
  ghost predicate ExpectDone(lane: Lane, s: SendSide, released: nat, o: SyncOut, due: set<u32>, limit: nat, from: nat,
                             ps: seq<nat>)
    requires 0 < lane.m
  {
    && Sends(lane, o.sent, ps) && Ascends(ps)
    && End(o.s, released) == GrownEnd(s, released, limit) >= End(s, released)
    && (forall p: nat :: p in ps <==> Offered(lane, due, End(s, released), End(o.s, released), limit, from, p))
    && forall p: nat | released <= p < End(o.s, released) ::
         Timer(lane, o.s, p) <==> p in ps || (p < End(s, released) && Timer(lane, s, p))
  }

  ghost predicate Offered(lane: Lane, due: set<u32>, end: nat, end': nat, limit: nat, from: nat, p: nat) {
    from <= p < end' && p < limit && (end <= p || Wrap(lane.base + p) in due)
  }

  lemma PassedStep(lane: Lane, s: SendSide, released: nat, o: SyncOut, due: set<u32>, limit: nat, from: nat,
                   ps: seq<nat>)
    requires 0 < lane.m && released <= from < End(s, released) && Wrap(lane.base + from) !in due
    requires ExpectDone(lane, s, released, o, due, limit, from + 1, ps)
    ensures ExpectDone(lane, s, released, o, due, limit, from, ps)
  {
    hide Sends, Ascends, GrownEnd, Wrap;
    forall p: nat ensures p in ps <==> Offered(lane, due, End(s, released), End(o.s, released), limit, from, p) {
      assert p in ps <==> Offered(lane, due, End(s, released), End(o.s, released), limit, from + 1, p);
    }
  }

  lemma DueStep(lane: Lane, s: SendSide, released: nat, o: SyncOut, due: set<u32>, limit: nat, from: nat, ps: seq<nat>)
    requires 0 < lane.m && |s.q.items| <= s.q.size < TWO31
    requires released <= from < End(s, released) && from < limit && from < |lane.Frags()|
    requires Wrap(lane.base + from) in due
    requires ExpectDone(lane, s.(timers := s.timers + {Wrap(lane.base + from)}), released, o, due, limit, from + 1, ps)
    requires End(o.s, released) <= released + s.q.size
    ensures ExpectDone(lane, s, released, Then([EmissionAt(lane, from)], o), due, limit, from, [from] + ps)
  {
    var s1 := s.(timers := s.timers + {Wrap(lane.base + from)});
    forall q | q in ps ensures from < q {
      assert Offered(lane, due, End(s, released), End(o.s, released), limit, from + 1, q);
    }
    FirstSent(lane, o.sent, from, ps);
    hide Wrap, Sends, Ascends, EmissionAt;
    assert GrownEnd(s1, released, limit) == GrownEnd(s, released, limit);
    hide GrownEnd;
    var end' := End(o.s, released);
    forall p: nat ensures p in [from] + ps <==> Offered(lane, due, End(s, released), end', limit, from, p) {
      assert p in ps <==> Offered(lane, due, End(s, released), end', limit, from + 1, p);
    }
    forall p: nat | released <= p < end'
      ensures Timer(lane, o.s, p) <==> p in [from] + ps || (p < End(s, released) && Timer(lane, s, p))
    {
      assert Timer(lane, o.s, p) <==> p in ps || (p < End(s, released) && Timer(lane, s1, p));
      if p < End(s, released) { TimersDiffer(lane, s, released, from, p); }
    }
  }

  lemma NewStep(lane: Lane, s: SendSide, released: nat, s1: SendSide, o: SyncOut, due: set<u32>, limit: nat,
                ps: seq<nat>)
    requires 0 < lane.m && |s.q.items| < s.q.size < TWO31
    requires var end := End(s, released);
      && end < limit && end < |lane.Frags()|
      && End(s1, released) == end + 1 && s1.q.size == s.q.size
      && |s.waiting + s.chan| == |s1.waiting + s1.chan| + 1
      && s1.timers == s.timers + {Wrap(lane.base + end)}
      && ExpectDone(lane, s1, released, o, due, limit, end + 1, ps)
    requires End(o.s, released) <= released + s.q.size
    ensures ExpectDone(lane, s, released, Then([EmissionAt(lane, End(s, released))], o), due, limit, End(s, released),
                       [End(s, released)] + ps)
  {
    hide Wrap, Sends, Ascends, EmissionAt;
    var end, end' := End(s, released), End(o.s, released);
    forall q | q in ps ensures end < q {
      assert Offered(lane, due, end + 1, end', limit, end + 1, q);
    }
    FirstSent(lane, o.sent, end, ps);
    assert GrownEnd(s, released, limit) == GrownEnd(s1, released, limit);
    hide GrownEnd;
    forall p: nat ensures p in [end] + ps <==> Offered(lane, due, end, end', limit, end, p) {
      assert p in ps <==> Offered(lane, due, end + 1, end', limit, end + 1, p);
    }
    forall p: nat | released <= p < end'
      ensures Timer(lane, o.s, p) <==> p in [end] + ps || (p < end && Timer(lane, s, p))
    {
      assert Timer(lane, o.s, p) <==> p in ps || (p < end + 1 && Timer(lane, s1, p));
      if p <= end { TimersDiffer(lane, s, released, end, p); }
    }
  }

  lemma StopStep(lane: Lane, s: SendSide, released: nat, due: set<u32>, limit: nat, from: nat)
    requires 0 < lane.m && |s.q.items| <= s.q.size && from <= End(s, released)
    requires limit <= from || (from == End(s, released) && (s.q.Full() || s.waiting + s.chan == []))
    ensures ExpectDone(lane, s, released, SyncOut(s, []), due, limit, from, [])
  {
  }

  lemma {:induction false} ExpectSends(lane: Lane, s: SendSide, released: nat, r: RecvSide, drained: nat,
                                       st: StateMsg, mapPos: nat, expPos: nat, due: set<u32>, i: nat)
    returns (ps: seq<nat>)
    requires Sender(lane, s, released) && Link(lane, s, released, r, drained)
    requires StateOk(lane, r, drained, st, mapPos, expPos)
    requires released <= expPos && expPos + i <= End(s, released) && i <= st.maxExpectCnt
    ensures 0 < lane.m && |s.q.items| <= s.q.size < TWO31
    ensures Sender(lane, ExpectLoop(s, st, due, i).s, released)
    ensures ExpectDone(lane, s, released, ExpectLoop(s, st, due, i), due, mapPos + r.q.size, expPos + i, ps)
    decreases st.maxExpectCnt - i
  {
    hide Sender, Link, StateOk, Wrap, Sub, Add, TakeNext, ExpectDone, Sound;
    var n, limit, from := Add(st.expectSeq, i), mapPos + r.q.size, expPos + i;
    SoundNothing(lane, s, released, r, drained);
    Limits(lane, s, released, r, drained, st, mapPos, expPos, i);
    ps := [];
    if i == st.maxExpectCnt {
      StopStep(lane, s, released, due, limit, from);
    } else {
      ExpectTests(lane, s, released, r, drained, st, mapPos, expPos, i);
      if from < End(s, released) {
        EmitsAt(lane, s, released, from);
        EmitKeeps(lane, s, released, r, drained, n);
        var s1 := if n in due then Emit(s, n).s else s;
        if n in due { SoundParts(lane, Emit(s, n), released, r, drained); }
        var o := ExpectLoop(s1, st, due, i + 1);
        var rest := ExpectSends(lane, s1, released, r, drained, st, mapPos, expPos, due, i + 1);
        Room(lane, o.s, released);
        QueueSize(s1, st, due, i + 1);
        if n in due {
          ps := [from] + rest;
          DueStep(lane, s, released, o, due, limit, from, rest);
        } else {
          ps := rest;
          assert [] + o.sent == o.sent;
          PassedStep(lane, s, released, o, due, limit, from, rest);
        }
      } else if s.q.Full() || s.waiting + s.chan == [] {
        StopStep(lane, s, released, due, limit, from);
      } else {
        var o1 := Numbered(lane, s, released, r, drained);
        var rest := ExpectSends(lane, o1.s, released, r, drained, st, mapPos, expPos, due, i + 1);
        var o := ExpectLoop(o1.s, st, due, i + 1);
        Room(lane, o.s, released);
        QueueSize(o1.s, st, due, i + 1);
        ps := [from] + rest;
        NewStep(lane, s, released, o1.s, o, due, limit, rest);
      }
    }
  }

  /** The next fragment gets the next number and goes on the wire. */
  lemma Numbered(lane: Lane, s: SendSide, released: nat, r: RecvSide, drained: nat) returns (o: SyncOut)
    requires Sender(lane, s, released) && Link(lane, s, released, r, drained)
    requires |s.q.items| < s.q.size && s.waiting + s.chan != []
    requires End(s, released) < drained + r.q.size
    ensures var (t, f) := TakeNext(s);
      t.q.Push(f).Holds(s.q.EnSeq()) && o == Emit(t.(q := t.q.Push(f)), s.q.EnSeq())
    ensures Sender(lane, o.s, released) && Link(lane, o.s, released, r, drained)
    ensures 0 < lane.m && End(s, released) < |lane.Frags()| && o.sent == [EmissionAt(lane, End(s, released))]
    ensures End(o.s, released) == End(s, released) + 1 && o.s.q.size == s.q.size
    ensures |s.waiting + s.chan| == |o.s.waiting + o.s.chan| + 1
    ensures o.s.timers == s.timers + {Wrap(lane.base + End(s, released))}
  {
    hide Sender, Link, Wrap, Sub, Add, TakeNext, Sound;
    Room(lane, s, released);
    EndNumber(lane, s, released);
    LaneOk(lane, s, released);
    var (t, f) := TakeNext(s);
    TakeNextTakes(s);
    PushedIsHeld(s.q, f);
    PushedSender(lane, s, released, t, f);
    AssignKeeps(lane, s, released, r, drained);
    o := Emit(t.(q := t.q.Push(f)), s.q.EnSeq());
    SoundParts(lane, o, released, r, drained);
  }

  lemma EndNumber(lane: Lane, s: SendSide, released: nat)
    requires Sender(lane, s, released)
    ensures s.q.EnSeq() == Wrap(lane.base + End(s, released))
  {
    EnSeqExact(s.q, lane.base, released);
  }

  lemma Limits(lane: Lane, s: SendSide, released: nat, r: RecvSide, drained: nat, st: StateMsg,
               mapPos: nat, expPos: nat, i: nat)
    requires Sender(lane, s, released) && StateOk(lane, r, drained, st, mapPos, expPos) && i <= st.maxExpectCnt
    ensures 0 < lane.m && Add(st.expectSeq, i) == Wrap(lane.base + (expPos + i))
    ensures expPos + i <= mapPos + r.q.size && (expPos + i == mapPos + r.q.size <==> i == st.maxExpectCnt)
  {
    AddOfWrap(lane.base + expPos, i);
  }

  lemma Room(lane: Lane, s: SendSide, released: nat)
    requires Sender(lane, s, released)
    ensures End(s, released) <= released + s.q.size
    ensures |s.q.items| <= s.q.size < TWO31 && s.q.stSeq == Wrap(lane.base + released)
  {
  }

  lemma {:induction false} QueueSize(s: SendSide, st: StateMsg, due: set<u32>, i: nat)
    requires |s.q.items| <= s.q.size < TWO31
    ensures ExpectLoop(s, st, due, i).s.q.size == s.q.size
    decreases st.maxExpectCnt - i
  {
    hide Wrap, TakeNext;
    var n := Add(st.expectSeq, i);
    if i < st.maxExpectCnt {
      if s.q.Holds(n) {
        QueueSize(if n in due then Emit(s, n).s else s, st, due, i + 1);
      } else if n == s.q.EnSeq() && !s.q.Full() && s.waiting + s.chan != [] {
        var (s1, f) := TakeNext(s);
        TakeNextTakes(s);
        PushedIsHeld(s.q, f);
        QueueSize(Emit(s1.(q := s1.q.Push(f)), n).s, st, due, i + 1);
      }
    }
  }

  // ---- What the loops take from the pending fragments ----

  /** The fragments numbered on the way from `s` to `o` were the next ones, of the waiting list first. */
  ghost predicate Took(s: SendSide, o: SendSide) {
    var n := |o.q.items| - |s.q.items|;
    && 0 <= n <= |s.waiting + s.chan|
    && o.waiting == (if n <= |s.waiting| then s.waiting[n..] else [])
    && o.waiting + o.chan == (s.waiting + s.chan)[n..]
  }

  lemma TookOne(s: SendSide, s2: SendSide, o: SendSide)
    requires s.waiting + s.chan != [] && |s2.q.items| == |s.q.items| + 1
    requires s2.waiting == TakeNext(s).0.waiting && s2.chan == TakeNext(s).0.chan && Took(s2, o)
    ensures Took(s, o)
  {
    TakeNextTakes(s);
    var n := |o.q.items| - |s.q.items|;
    assert (s.waiting + s.chan)[n..] == (s.waiting + s.chan)[1..][n - 1..];
  }

  lemma {:induction false} ExpectTakes(s: SendSide, st: StateMsg, due: set<u32>, i: nat)
    requires |s.q.items| <= s.q.size < TWO31
    ensures Took(s, ExpectLoop(s, st, due, i).s)
    decreases st.maxExpectCnt - i
  {
    hide Wrap, Took, TakeNext;
    var n := Add(st.expectSeq, i);
    assert Took(s, s) by { TookNone(s); }
    if i < st.maxExpectCnt {
      if s.q.Holds(n) {
        var s1 := if n in due then Emit(s, n).s else s;
        ExpectTakes(s1, st, due, i + 1);
        TookSame(s, s1, ExpectLoop(s1, st, due, i + 1).s);
      } else if n == s.q.EnSeq() && !s.q.Full() && s.waiting + s.chan != [] {
        var (s1, f) := TakeNext(s);
        TakeNextTakes(s);
        PushedIsHeld(s.q, f);
        var s2 := Emit(s1.(q := s1.q.Push(f)), n).s;
        ExpectTakes(s2, st, due, i + 1);
        TookOne(s, s2, ExpectLoop(s2, st, due, i + 1).s);
      }
    }
  }

  lemma TookNone(s: SendSide)
    ensures Took(s, s)
  {
  }

  lemma TookSame(s: SendSide, s1: SendSide, o: SendSide)
    requires Took(s1, o) && s1.q == s.q && s1.waiting == s.waiting && s1.chan == s.chan
    ensures Took(s, o)
  {
  }

  /** How long the waiting list is in the end: never shortened, and filled up to the window. */
  function Filled(waiting: nat, pending: nat, window: nat): nat {
    if window <= waiting then waiting else if window <= pending then window else pending
  }

  lemma {:induction false} RefillFills(s: SendSide, window: nat)
    ensures var o := Refill(s, window);
      && o.q == s.q && o.timers == s.timers && o.waiting + o.chan == s.waiting + s.chan
      && |o.waiting| == Filled(|s.waiting|, |s.waiting + s.chan|, window)
    decreases |s.chan|
  {
    if |s.waiting| < window && s.chan != [] {
      var s1 := s.(waiting := s.waiting + [s.chan[0]], chan := s.chan[1..]);
      assert s1.waiting + s1.chan == s.waiting + s.chan;
      RefillFills(s1, window);
    }
  }

  // ---- The release leaves the other timers alone ----

  lemma {:induction false} ReleaseTimers(lane: Lane, s: SendSide, released: nat, target: nat)
    requires |s.q.items| <= s.q.size < TWO31 && s.q.stSeq == Wrap(lane.base + released)
    requires released <= target <= End(s, released)
    ensures forall p: nat | target <= p < End(s, released) ::
              Timer(lane, ReleaseTo(s, Wrap(lane.base + target)), p) <==> Timer(lane, s, p)
    decreases target - released
  {
    hide Wrap;
    if released < target {
      TimersDiffer(lane, s, released, released, target);
      NextStart(lane.base, s.q, released);
      var s1 := s.(q := s.q.Pop(), timers := s.timers - {s.q.stSeq});
      ReleaseTimers(lane, s1, released + 1, target);
      forall p: nat | target <= p < End(s, released) ensures Timer(lane, s1, p) <==> Timer(lane, s, p) {
        TimersDiffer(lane, s, released, released, p);
      }
    }
  }

  lemma SendsConcat(lane: Lane, xs: seq<Emission>, ps: seq<nat>, ys: seq<Emission>, qs: seq<nat>)
    requires 0 < lane.m && Sends(lane, xs, ps) && Sends(lane, ys, qs) && Ascends(ps) && Ascends(qs)
    requires forall p, q | p in ps && q in qs :: p < q
    ensures Sends(lane, xs + ys, ps + qs) && Ascends(ps + qs)
  {
    hide EmissionAt;
    forall i, j | 0 <= i < j < |ps + qs| ensures (ps + qs)[i] < (ps + qs)[j] {
      if i < |ps| <= j { assert ps[i] in ps && qs[j - |ps|] in qs; }
    }
  }

  // ---- All of `syncState` ----

  /** The sender reads a state whose map starts inside its window or right behind it. */
  ghost predicate Current(released: nat, mapPos: nat) { released <= mapPos }

  lemma StateStart(lane: Lane, r: RecvSide, drained: nat, st: StateMsg, mapPos: nat, expPos: nat)
    requires StateOk(lane, r, drained, st, mapPos, expPos)
    ensures st.mapStSeq == Wrap(lane.base + mapPos) && mapPos <= expPos && mapPos <= drained
  {
  }

  /** What the release leaves as it was. */
  lemma ReleaseRest(cfg: Config, lane: Lane, s: SendSide, released: nat, mapPos: nat)
    requires |s.q.items| <= s.q.size < TWO31 && s.q.stSeq == Wrap(lane.base + released)
    requires mapPos <= End(s, released) && FreshState(cfg, s, released, mapPos)
    ensures var s1 := Release(cfg, s, Wrap(lane.base + mapPos));
      var released' := ReleasedAfter(cfg, s, released, mapPos);
      && released <= released' && s1.q.size == s.q.size && s1.waiting == s.waiting && s1.chan == s.chan
      && released' + s.q.size <= mapPos + TWO32 && (released <= mapPos ==> released' <= mapPos)
      && forall p: nat | released' <= p < End(s, released) :: Timer(lane, s1, p) <==> Timer(lane, s, p)
  {
    var released' := ReleasedAfter(cfg, s, released, mapPos);
    Tested(cfg, lane, s, released, mapPos);
    hide Wrap, FreshState, Acknowledges, ReleasedAfter;
    if Acknowledges(cfg, s, Wrap(lane.base + mapPos)) {
      ReleaseTimers(lane, s, released, mapPos);
      ReleaseToDrops(lane.base, s, released, mapPos);
    }
  }

  /** What the test of the release decides about a fresh state. */
  lemma Tested(cfg: Config, lane: Lane, s: SendSide, released: nat, mapPos: nat)
    requires |s.q.items| <= s.q.size < TWO31 && s.q.stSeq == Wrap(lane.base + released)
    requires mapPos <= End(s, released) && FreshState(cfg, s, released, mapPos)
    ensures var released' := ReleasedAfter(cfg, s, released, mapPos);
      && (Acknowledges(cfg, s, Wrap(lane.base + mapPos)) ==> released <= mapPos == released')
      && (!Acknowledges(cfg, s, Wrap(lane.base + mapPos)) ==> released' == released)
      && released <= released' && released' + s.q.size <= mapPos + TWO32
      && (released <= mapPos ==> released' <= mapPos)
  {
    HoldsExact(s.q, lane.base, released, mapPos);
    EnSeqExact(s.q, lane.base, released);
    if mapPos != End(s, released) && End(s, released) < mapPos + TWO32 {
      WrapInjectiveNot(lane.base + mapPos, lane.base + End(s, released));
    }
  }

  lemma MapFacts(lane: Lane, s: SendSide, s1: SendSide, released: nat, o: SyncOut, st: StateMsg,
                 mapPos: nat, expPos: nat, ps: seq<nat>)
    requires 0 < lane.m && MapDone(lane, s1, released, o, st, mapPos, expPos, 0, ps)
    requires forall p: nat | released <= p < End(s1, released) :: Timer(lane, s1, p) <==> Timer(lane, s, p)
    ensures Sends(lane, o.sent, ps) && Ascends(ps)
    ensures forall p: nat :: p in ps <==> Missing(st, mapPos, expPos, 0, p)
    ensures forall p: nat | released <= p < End(s1, released) ::
              Timer(lane, o.s, p) <==> p in ps || (Timer(lane, s, p) && !InMap(mapPos, expPos, 0, p))
  {
    hide Sends, Ascends, Missing, InMap, Timer;
  }

  /** A state that starts behind the window is not looked at by the map loop. */
  lemma StaleMap(cfg: Config, lane: Lane, s: SendSide, released: nat, st: StateMsg, mapPos: nat)
    requires |s.q.items| <= s.q.size < TWO31 && s.q.stSeq == Wrap(lane.base + released)
    requires st.mapStSeq == Wrap(lane.base + mapPos)
    requires mapPos < released && FreshState(cfg, s, released, mapPos)
    ensures ReleasedAfter(cfg, s, released, mapPos) == released
    ensures Release(cfg, s, st.mapStSeq) == s && MapLoop(s, st, 0) == SyncOut(s, [])
  {
    StaleStateExact(cfg, lane.base, s, released, mapPos);
    HoldsExact(s.q, lane.base, released, mapPos);
    AddOfWrap(lane.base + mapPos, 0);
    hide Wrap;
  }

  /** After the release, the map loop. */
  lemma MapPart(cfg: Config, lane: Lane, s: SendSide, released: nat, r: RecvSide, drained: nat,
                st: StateMsg, mapPos: nat, expPos: nat) returns (ps: seq<nat>)
    requires Sender(lane, s, released) && Link(lane, s, released, r, drained)
    requires StateOk(lane, r, drained, st, mapPos, expPos) && FreshState(cfg, s, released, mapPos)
    ensures 0 < lane.m
    ensures var s1 := Release(cfg, s, st.mapStSeq);
      var o := MapLoop(s1, st, 0);
      var released' := ReleasedAfter(cfg, s, released, mapPos);
      && Sender(lane, o.s, released') && Link(lane, o.s, released', r, drained)
      && released <= released' && End(o.s, released') == End(s, released) && o.s.q.size == s.q.size
      && o.s.waiting == s.waiting && o.s.chan == s.chan
      && Sends(lane, o.sent, ps) && Ascends(ps)
      && (forall p: nat :: p in ps <==> Current(released, mapPos) && Missing(st, mapPos, expPos, 0, p))
      && forall p: nat | released' <= p < End(s, released) ::
           Timer(lane, o.s, p) <==>
           p in ps || (Timer(lane, s, p) && !(Current(released, mapPos) && InMap(mapPos, expPos, 0, p)))
  {
    LaneOk(lane, s, released);
    Room(lane, s, released);
    ReleaseKeeps(cfg, lane, s, released, r, drained, mapPos);
    StateStart(lane, r, drained, st, mapPos, expPos);
    var s1 := Release(cfg, s, st.mapStSeq);
    var released' := ReleasedAfter(cfg, s, released, mapPos);
    Window(lane, s, released, r, drained);
    ReleaseRest(cfg, lane, s, released, mapPos);
    MapLoopKeeps(lane, s1, released', r, drained, st, mapPos, expPos, 0);
    var o := MapLoop(s1, st, 0);
    SoundParts(lane, o, released', r, drained);
    hide Sender, Link, StateOk, Release, MapLoop, Wrap, MapDone, FreshState, ReleasedAfter, Missing, InMap;
    if released <= mapPos {
      ps := MapSends(lane, s1, released', r, drained, st, mapPos, expPos, 0);
      MapFacts(lane, s, s1, released', o, st, mapPos, expPos, ps);
    } else {
      ps := [];
      StaleMap(cfg, lane, s, released, st, mapPos);
    }
  }

  /** Where the window ends after the whole of `syncState`. */
  ghost function NewEnd(s: SendSide, released: nat, released': nat, expPos: nat, limit: nat): nat {
    var end := End(s, released);
    if released' <= expPos && end < limit
    then Least(released' + s.q.size, end + |s.waiting + s.chan|, limit)
    else end
  }

  /** The expected number is still in the window, and `p` is offered. */
  ghost predicate Taken(lane: Lane, due: set<u32>, released: nat, end: nat, end': nat, limit: nat, expPos: nat,
                        p: nat)
  {
    released <= expPos && Offered(lane, due, end, end', limit, expPos, p)
  }

  /** Then the loop over the expected numbers. */
  lemma ExpectPart(cfg: Config, lane: Lane, s: SendSide, released: nat, r: RecvSide, drained: nat,
                   st: StateMsg, mapPos: nat, expPos: nat, due: set<u32>) returns (ps: seq<nat>)
    requires Sender(lane, s, released) && Link(lane, s, released, r, drained)
    requires StateOk(lane, r, drained, st, mapPos, expPos) && released + s.q.size <= mapPos + TWO32
    ensures 0 < lane.m && |s.q.items| <= s.q.size < TWO31
    ensures var e := ExpectLoop(s, st, due, 0);
      var end, end', limit := End(s, released), End(e.s, released), mapPos + r.q.size;
      && Sends(lane, e.sent, ps) && Ascends(ps) && Took(s, e.s)
      && end <= end' == NewEnd(s, released, released, expPos, limit)
      && (forall p: nat :: p in ps <==> Taken(lane, due, released, end, end', limit, expPos, p))
      && forall p: nat | released <= p < end' :: Timer(lane, e.s, p) <==> p in ps || (p < end && Timer(lane, s, p))
  {
    Room(lane, s, released);
    LaneOk(lane, s, released);
    ExpectTakes(s, st, due, 0);
    if expPos < released {
      ExpectLoopStale(cfg, lane, s, released, r, drained, st, mapPos, expPos, due);
      ps := [];
    } else {
      assert expPos <= End(s, released);
      hide Sender, Link, StateOk, ExpectLoop, Wrap, Offered, Took, Timer;
      ps := ExpectSends(lane, s, released, r, drained, st, mapPos, expPos, due, 0);
    }
  }

  /** What `syncState` does with any fresh state. It puts on the wire exactly the fragments at `ps`,
      once each and in this order: those of the first eight numbers below the expected one that the
      map says are missing, then from the expected number on those that are due and all that are newly
      numbered. Its timers run for these, and as before for what the map does not say is stored. */
  lemma SyncExactly(cfg: Config, lane: Lane, s: SendSide, released: nat, r: RecvSide, drained: nat,
                    st: StateMsg, mapPos: nat, expPos: nat, due: set<u32>, window: nat) returns (ps: seq<nat>)
    requires Sender(lane, s, released) && Link(lane, s, released, r, drained)
    requires StateOk(lane, r, drained, st, mapPos, expPos) && FreshState(cfg, s, released, mapPos)
    ensures 0 < lane.m && |s.q.items| <= s.q.size < TWO31
    ensures var o := SyncState(cfg, s, st, due, window);
      var released' := ReleasedAfter(cfg, s, released, mapPos);
      var end, end', limit := End(s, released), End(o.s, released'), mapPos + r.q.size;
      && Sends(lane, o.sent, ps) && Ascends(ps)
      && end <= end' == NewEnd(s, released, released', expPos, limit)
      && (forall p: nat :: p in ps <==>
            || (Current(released, mapPos) && Missing(st, mapPos, expPos, 0, p))
            || Taken(lane, due, released', end, end', limit, expPos, p))
      && (forall p: nat | released' <= p < end' :: Timer(lane, o.s, p) <==>
            || p in ps
            || (p < end && Timer(lane, s, p) && !(Current(released, mapPos) && InMap(mapPos, expPos, 0, p))))
      && Waits(s, o.s, end' - end, window)
  {
    Room(lane, s, released);
    var ms := MapPart(cfg, lane, s, released, r, drained, st, mapPos, expPos);
    var released' := ReleasedAfter(cfg, s, released, mapPos);
    FreshAfter(cfg, lane, s, released, r, drained, st, mapPos, expPos);
    hide Sender, Link, StateOk, MapLoop, ExpectLoop, Refill, Release, Wrap, FreshState, ReleasedAfter;
    hide Took, Timer, Missing, InMap, Taken, Current, Sends, Ascends, Waits, NewEnd;
    var m := MapLoop(Release(cfg, s, st.mapStSeq), st, 0);
    var es := ExpectPart(cfg, lane, m.s, released', r, drained, st, mapPos, expPos, due);
    var e := ExpectLoop(m.s, st, due, 0);
    ps := ms + es;
    MapBeforeExpected(lane, st, mapPos, expPos, due, released, released', End(s, released), End(e.s, released'),
                      mapPos + r.q.size, ms, es);
    SendsConcat(lane, m.sent, ms, e.sent, es);
    RefillFills(e.s, window);
    SameEnd(s, m.s, released, released', expPos, mapPos + r.q.size);
    TookThenFilled(s, m.s, e.s, window);
    TimersChain(lane, s, m.s, e.s, Refill(e.s, window), st, mapPos, expPos, released, released',
                End(s, released), End(e.s, released'), ms, es);
  }

  /** How the pending fragments go on: `n` were taken, and the waiting list is filled up. */
  ghost predicate Waits(s: SendSide, o: SendSide, n: nat, window: nat) {
    var pending := s.waiting + s.chan;
    && n <= |pending| && o.waiting + o.chan == pending[n..]
    && |o.waiting| == Filled(if n <= |s.waiting| then |s.waiting| - n else 0, |pending| - n, window)
  }

  lemma FreshAfter(cfg: Config, lane: Lane, s: SendSide, released: nat, r: RecvSide, drained: nat,
                   st: StateMsg, mapPos: nat, expPos: nat)
    requires Sender(lane, s, released) && Link(lane, s, released, r, drained)
    requires StateOk(lane, r, drained, st, mapPos, expPos) && FreshState(cfg, s, released, mapPos)
    ensures ReleasedAfter(cfg, s, released, mapPos) + s.q.size <= mapPos + TWO32
  {
  }

  lemma SameEnd(s: SendSide, s1: SendSide, released: nat, released': nat, expPos: nat, limit: nat)
    requires End(s1, released') == End(s, released) && s1.q.size == s.q.size
    requires s1.waiting == s.waiting && s1.chan == s.chan
    ensures NewEnd(s1, released', released', expPos, limit) == NewEnd(s, released, released', expPos, limit)
  {
  }

  lemma TookThenFilled(s: SendSide, s1: SendSide, e: SendSide, window: nat)
    requires s1.waiting == s.waiting && s1.chan == s.chan && Took(s1, e)
    ensures |s1.q.items| <= |e.q.items| && Waits(s, Refill(e, window), |e.q.items| - |s1.q.items|, window)
  {
    RefillFills(e, window);
  }

  lemma MapBeforeExpected(lane: Lane, st: StateMsg, mapPos: nat, expPos: nat, due: set<u32>, released: nat,
                          released': nat, end: nat, end': nat, limit: nat, ms: seq<nat>, es: seq<nat>)
    requires forall p: nat :: p in ms <==> Current(released, mapPos) && Missing(st, mapPos, expPos, 0, p)
    requires forall p: nat :: p in es <==> Taken(lane, due, released', end, end', limit, expPos, p)
    ensures forall p, q | p in ms && q in es :: p < q
  {
    forall p, q | p in ms && q in es ensures p < q {
      assert Missing(st, mapPos, expPos, 0, p) && Taken(lane, due, released', end, end', limit, expPos, q);
    }
  }

  lemma TimersChain(lane: Lane, s: SendSide, s1: SendSide, s2: SendSide, s3: SendSide, st: StateMsg,
                    mapPos: nat, expPos: nat, released: nat, released': nat, end: nat, end': nat,
                    ms: seq<nat>, es: seq<nat>)
    requires expPos <= end <= end' && s3.timers == s2.timers
    requires forall p: nat :: p in ms <==> Current(released, mapPos) && Missing(st, mapPos, expPos, 0, p)
    requires forall p: nat | released' <= p < end :: Timer(lane, s1, p) <==>
               p in ms || (Timer(lane, s, p) && !(Current(released, mapPos) && InMap(mapPos, expPos, 0, p)))
    requires forall p: nat | released' <= p < end' :: Timer(lane, s2, p) <==> p in es || (p < end && Timer(lane, s1, p))
    ensures forall p: nat | released' <= p < end' :: Timer(lane, s3, p) <==>
              || p in ms + es
              || (p < end && Timer(lane, s, p) && !(Current(released, mapPos) && InMap(mapPos, expPos, 0, p)))
  {
    forall p: nat | released' <= p < end'
      ensures Timer(lane, s3, p) <==>
        || p in ms + es
        || (p < end && Timer(lane, s, p) && !(Current(released, mapPos) && InMap(mapPos, expPos, 0, p)))
    {
      assert Timer(lane, s3, p) <==> Timer(lane, s2, p);
      assert p in ms ==> p < end;
    }
  }
}
