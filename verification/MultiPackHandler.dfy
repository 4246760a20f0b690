/**
  The handler of src/net/multipack.go with its fields, updated by the loops of the source. Every
  method is proved to compute the endpoint function of the same event.
*/
module MultiPackHandlers {
  import opened Words
  import opened Fragments
  import opened LoopedQueues
  import opened Endpoints

  class MultiPackHandler {
    const m: nat
    const cfg: Config
    const sendingQueue: LoopedQueue<Frag>
    const receiveQueue: LoopedQueue<Option<Frag>>
    var sendChan: seq<Frag>
    var waitingList: seq<Frag>
    var partialDataList: seq<Frag>
    var assembledChan: seq<Bytes>
    var retransmitTimers: set<u32>
    var packID: u32
    var hung: bool
    /** The packets handed to `server.Send`, oldest first. */
    var wire: seq<Packet>

    ghost predicate Valid()
      reads sendingQueue, receiveQueue
    {
      && 0 < m
      && sendingQueue.Valid() && receiveQueue.Valid()
      && this as object !in {sendingQueue as object, receiveQueue, sendingQueue.data, receiveQueue.data}
      && sendingQueue as object != receiveQueue
      && sendingQueue.data as object != receiveQueue.data
    }

    ghost function SendView(): (s: SendSide)
      requires Valid()
      reads this`waitingList, this`sendChan, this`retransmitTimers
      reads sendingQueue, sendingQueue.data, receiveQueue
      ensures |s.q.items| <= s.q.size < TWO31
    {
      SendSide(sendingQueue.View(), waitingList, sendChan, retransmitTimers)
    }

    ghost function RecvView(): (r: RecvSide)
      requires Valid()
      reads this`partialDataList, this`assembledChan, this`hung
      reads sendingQueue, receiveQueue, receiveQueue.data
      ensures |r.q.items| <= r.q.size < TWO31
    {
      RecvSide(receiveQueue.View(), Assembly(partialDataList, assembledChan), hung)
    }

    ghost function View(): Endpoint
      requires Valid()
      reads this, sendingQueue, sendingQueue.data, receiveQueue, receiveQueue.data
    {
      Endpoint(SendView(), RecvView(), packID)
    }

    /** The handler with its queues built: the sender's at `sendSeq`, the receiver's at `recvSeq`. */
    constructor (m: nat, cfg: Config, size: u32, sendSeq: u32, recvSeq: u32)
      requires 0 < m && size < TWO31
      ensures Valid()
      ensures View() == Endpoint(SendSide(Fifo(size, sendSeq, []), [], [], {}),
                                 RecvSide(Fifo(size, recvSeq, []), Assembly([], []), false), 0)
      ensures wire == []
    {
      this.m, this.cfg := m, cfg;
      sendingQueue := new LoopedQueue(size, sendSeq);
      receiveQueue := new LoopedQueue(size, recvSeq);
      sendChan, waitingList, partialDataList, assembledChan := [], [], [], [];
      retransmitTimers, packID, hung, wire := {}, 0, false, [];
    }

    /** `Send`: full fragments first, then the remainder. */
    method Send(data: Bytes)
      requires Valid()
      modifies this`packID, this`sendChan
      ensures View() == OnSend(m, old(View()), data)
    {
      var packNum := FullChunks(|data|, m);
      var subPackCnt := Wrap(CeilDiv(|data|, m));
      packID := Add(packID, 1);
      assert ChunkStart(0, m) == 0 && data[0..] == data;
      assert FragsFrom(m, packID, subPackCnt, 0, data) == FragsOf(m, packID, data);
      ghost var id := packID;
      hide FragsOf, Wrap, CeilDiv, Add, ChunkStart, FullChunks, Remainder;
      for i := 0 to packNum
        invariant packID == id && ChunkStart(i, m) <= |data|
        invariant sendChan + FragsFrom(m, id, subPackCnt, i, data[ChunkStart(i, m)..])
               == old(sendChan) + FragsOf(m, id, data)
      {
        ChunkInside(|data|, m, i);
        FullChunk(m, packID, subPackCnt, i, data, ChunkStart(i, m));
        hide FragsFrom;
        sendChan := sendChan + [Frag(packID, Wrap(i), subPackCnt, data[ChunkStart(i, m)..ChunkStart(i + 1, m)])];
      }
      RemainderLeft(|data|, m);
      if Remainder(|data|, m) > 0 {
        sendChan := sendChan + [Frag(packID, Wrap(packNum), subPackCnt, data[ChunkStart(packNum, m)..])];
      }
    }

    /** Whether the `k`-th slot of the receive queue is filled. */
    method SlotFilled(k: nat) returns (filled: bool)
      requires Valid() && k < |RecvView().q.items|
      ensures filled <==> RecvView().q.items[k].Some?
    {
      SlotAtOffset(receiveQueue.View(), k);
      var slot := receiveQueue.GetBySeq(Add(receiveQueue.stSeq, k));
      filled := slot.value.Some?;
    }

    /** `getState`. */
    method GetStateMsg() returns (st: StateMsg)
      requires Valid()
      ensures st == GetState(RecvView().q)
    {
      ghost var q := receiveQueue.View();
      var stSeq := receiveQueue.stSeq;
      var stateMap: byte := 0;
      var k := 0;
      hide Wrap, Sub, Add;
      while k != 8 && Add(stSeq, k) != receiveQueue.enSeq
        invariant 0 <= k <= 8 && k <= |q.items|
        invariant stateMap == MapOf(q.items, k)
        decreases 8 - k
      {
        assert k < |q.items| by { SlotAtOffset(q, k); }
        MapNext(q.items, k);
        var filled := SlotFilled(k);
        if filled {
          stateMap := stateMap + Pow2(k);
        }
        k := k + 1;
      }
      if k < 8 { SameEnd(q, k); }
      MapOfTail(q.items, k, 8);
      st := StateMsg(stateMap, stSeq, receiveQueue.enSeq, receiveQueue.size - receiveQueue.Length());
    }

    /** `send` with a data message. */
    method SendFrag(n: u32)
      requires Valid() && SendView().q.Holds(n)
      modifies this`retransmitTimers, this`wire
      ensures SendView() == Emit(old(SendView()), n).s
      ensures wire == old(wire) + Stamp(GetState(old(RecvView()).q), Emit(old(SendView()), n).sent)
    {
      var st := GetStateMsg();
      var msg := sendingQueue.GetBySeq(n);
      retransmitTimers := retransmitTimers + {n};
      wire := wire + [Data(st, Emission(n, msg.value))];
      assert Stamp(st, [Emission(n, msg.value)]) == [Data(st, Emission(n, msg.value))];
    }

    /** `send(nil)`, from the status timer. */
    method SendStatus()
      requires Valid()
      modifies this`wire
      ensures wire == old(wire) + OnStatus(old(View()))
    {
      var st := GetStateMsg();
      wire := wire + [StateOnly(st)];
    }

    /** The first loop of `syncState`. */
    method ReleaseUpTo(stSeq: u32)
      requires Valid()
      modifies this`retransmitTimers, sendingQueue
      ensures Valid() && RecvView() == old(RecvView())
      ensures SendView() == Release(cfg, old(SendView()), stSeq)
    {
      if sendingQueue.IsValidSeq(stSeq) || (cfg.inclusiveAck && stSeq == sendingQueue.enSeq) {
        AckDistance(sendingQueue.View(), stSeq);
        while sendingQueue.stSeq != stSeq
          invariant Valid() && RecvView() == old(RecvView())
          invariant Sub(stSeq, sendingQueue.stSeq) <= |SendView().q.items|
          invariant ReleaseTo(SendView(), stSeq) == ReleaseTo(old(SendView()), stSeq)
          decreases |SendView().q.items|
        {
          NextDistance(sendingQueue.stSeq, stSeq);
          retransmitTimers := retransmitTimers - {sendingQueue.stSeq};
          var _ := sendingQueue.PopFront();
        }
      }
    }

    /** One turn of the second loop of `syncState`: retransmit a hole of the map, or stop the timer
        of a stored fragment. */
    method MapTurn(st: StateMsg, k: nat) returns (done: bool, ghost sent: seq<Emission>)
      requires Valid() && k < 8 && Add(st.mapStSeq, k) != st.expectSeq
      modifies this`retransmitTimers, this`wire
      ensures if done then SendView() == old(SendView()) && sent == [] && !SendView().q.Holds(Add(st.mapStSeq, k))
              else Then(sent, MapLoop(SendView(), st, k + 1)) == MapLoop(old(SendView()), st, k)
      ensures wire == old(wire) + Stamp(GetState(old(RecvView()).q), sent)
    {
      hide Wrap, Sub, Add, GetState, BitSet, RecvView;
      var i := Add(st.mapStSeq, k);
      sent := [];
      if !sendingQueue.IsValidSeq(i) {
        return true, [];
      }
      done := false;
      hide SendView, Stamp;
      if !BitSet(st.stateMap, k) {
        sent := Emit(SendView(), i).sent;
        SendFrag(i);
      } else {
        StopTimer(i);
        ThenNothing(MapLoop(SendView(), st, k + 1));
        NothingStamped(GetState(RecvView().q));
      }
    }

    method StopTimer(i: u32)
      requires Valid()
      modifies this`retransmitTimers
      ensures SendView() == old(SendView()).(timers := old(SendView()).timers - {i})
    {
      retransmitTimers := retransmitTimers - {i};
    }

    /** The second loop of `syncState`. */
    method RetransmitHoles(st: StateMsg)
      requires Valid()
      modifies this`retransmitTimers, this`wire
      ensures var o := MapLoop(old(SendView()), st, 0);
        SendView() == o.s && wire == old(wire) + Stamp(GetState(old(RecvView()).q), o.sent)
    {
      hide MapLoop, GetState, Wrap, Sub, Stamp, SendView, RecvView, Valid;
      ghost var me := GetState(RecvView().q);
      ghost var sent: seq<Emission> := [];
      var k := 0;
      while k != 8 && Add(st.mapStSeq, k) != st.expectSeq
        invariant 0 <= k <= 8
        invariant Then(sent, MapLoop(SendView(), st, k)) == MapLoop(old(SendView()), st, 0)
        invariant wire == old(wire) + Stamp(me, sent)
        decreases 8 - k
      {
        var done, more := MapTurn(st, k);
        if done {
          break;
        }
        StampConcat(me, sent, more);
        ThenThen(sent, more, MapLoop(SendView(), st, k + 1));
        sent := sent + more;
        k := k + 1;
      }
      MapLoopStops(SendView(), st, k);
      assert sent + [] == sent;
    }

    /** One turn of the third loop of `syncState`: retransmit a number that is old enough, or give
        the next number to a new fragment, or stop. */
    method ExpectTurn(st: StateMsg, due: set<u32>, i: nat) returns (done: bool, ghost sent: seq<Emission>)
      requires Valid() && i < st.maxExpectCnt
      modifies this`waitingList, this`sendChan, this`retransmitTimers, this`wire, sendingQueue, sendingQueue.data
      ensures Valid() && RecvView() == old(RecvView())
      ensures var rest := if done then SyncOut(SendView(), []) else ExpectLoop(SendView(), st, due, i + 1);
        Then(sent, rest) == ExpectLoop(old(SendView()), st, due, i)
      ensures wire == old(wire) + Stamp(GetState(old(RecvView()).q), sent)
    {
      hide Wrap, Sub, Add, GetState;
      var n := Add(st.expectSeq, i);
      sent := [];
      done := true;
      if sendingQueue.IsValidSeq(n) {
        done := false;
        if n in due {
          sent := Emit(SendView(), n).sent;
          SendFrag(n);
        }
      } else {
        if n != sendingQueue.enSeq {
          return;
        }
        if sendingQueue.Full() {
          return;
        }
        if waitingList == [] && sendChan == [] {
          return;
        }
        ghost var o := SendNext(n);
        sent := o.sent;
        done := false;
      }
    }

    /** The third loop of `syncState`: what the peer expects next, retransmitted or newly assigned. */
    method FillExpected(st: StateMsg, due: set<u32>)
      requires Valid()
      modifies this`waitingList, this`sendChan, this`retransmitTimers, this`wire, sendingQueue, sendingQueue.data
      ensures Valid() && RecvView() == old(RecvView())
      ensures var o := ExpectLoop(old(SendView()), st, due, 0);
        SendView() == o.s && wire == old(wire) + Stamp(GetState(old(RecvView()).q), o.sent)
    {
      hide ExpectLoop, GetState, Wrap, Sub, Stamp, SendView, RecvView, Valid;
      ghost var me := GetState(RecvView().q);
      ghost var sent: seq<Emission> := [];
      var i := 0;
      while i < st.maxExpectCnt
        invariant Valid() && RecvView() == old(RecvView())
        invariant i <= st.maxExpectCnt
        invariant Then(sent, ExpectLoop(SendView(), st, due, i)) == ExpectLoop(old(SendView()), st, due, 0)
        invariant wire == old(wire) + Stamp(me, sent)
      {
        ghost var before := sent;
        var done, more := ExpectTurn(st, due, i);
        StampConcat(me, sent, more);
        sent := sent + more;
        if done {
          ThenThen(before, more, SyncOut(SendView(), []));
          assert sent + [] == sent;
          return;
        }
        ThenThen(before, more, ExpectLoop(SendView(), st, due, i + 1));
        i := i + 1;
      }
      ExpectLoopStops(SendView(), st, due, i);
      assert sent + [] == sent;
    }

    /** The end of the third loop's body: take a fragment, from the waiting list or else from the
        channel, give it the number `n`, and send it. */
    method SendNext(n: u32) returns (ghost o: SyncOut)
      requires Valid() && n == SendView().q.EnSeq() && !SendView().q.Full()
      requires waitingList + sendChan != []
      modifies this`waitingList, this`sendChan, this`retransmitTimers, this`wire, sendingQueue, sendingQueue.data
      ensures Valid() && RecvView() == old(RecvView())
      ensures var (s1, f) := TakeNext(old(SendView()));
        var s2 := s1.(q := s1.q.Push(f));
        && s2.q.Holds(n) && o == Emit(s2, n)
      ensures SendView() == o.s && wire == old(wire) + Stamp(GetState(old(RecvView()).q), o.sent)
    {
      ghost var s := SendView();
      if waitingList == [] {
        waitingList, sendChan := [sendChan[0]], sendChan[1..];
      }
      var f := waitingList[0];
      waitingList := waitingList[1..];
      PushedIsHeld(sendingQueue.View(), f);
      hide Wrap, Sub, Add, GetState;
      var _ := sendingQueue.PushBack(f);
      assert SendView() == TakeNext(s).0.(q := s.q.Push(TakeNext(s).1));
      o := Emit(SendView(), n);
      SendFrag(n);
    }

    /** `syncState`; `due` and `window` stand for the clock tests and the congestion window. */
    method SyncFrom(st: StateMsg, due: set<u32>, window: nat)
      requires Valid()
      modifies this`waitingList, this`sendChan, this`retransmitTimers, this`wire, sendingQueue, sendingQueue.data
      ensures Valid() && RecvView() == old(RecvView())
      ensures var o := SyncState(cfg, old(SendView()), st, due, window);
        SendView() == o.s && wire == old(wire) + Stamp(GetState(old(RecvView()).q), o.sent)
    {
      hide Release, MapLoop, ExpectLoop, Refill, GetState, Stamp, SendView, RecvView;
      ghost var me := GetState(RecvView().q);
      ReleaseUpTo(st.mapStSeq);
      ghost var s1 := SendView();
      RetransmitHoles(st);
      ghost var s2 := SendView();
      FillExpected(st, due);
      StampConcat(me, MapLoop(s1, st, 0).sent, ExpectLoop(s2, st, due, 0).sent);
      FillWaitingList(window);
    }

    /** The last loop of `syncState`. */
    method FillWaitingList(window: nat)
      requires Valid()
      modifies this`waitingList, this`sendChan
      ensures SendView() == Refill(old(SendView()), window)
    {
      while |waitingList| < window && sendChan != []
        invariant Refill(SendView(), window) == Refill(old(SendView()), window)
        decreases |sendChan|
      {
        waitingList, sendChan := waitingList + [sendChan[0]], sendChan[1..];
      }
    }

    /** One turn of the drain loop up to the pop. `pop` is false on the two `continue` paths: either
        the partial list was cleared, or the source would look at the same head for ever. */
    method FeedHead(f: Frag) returns (pop: bool)
      requires Valid() && !hung
      modifies this`partialDataList, this`assembledChan, this`hung
      ensures var a, b := old(RecvView()).asm, RecvView().asm;
        if pop then Feed(cfg.checkFirst, a, f) == Some(b) && !hung
        else if hung then a == b && a.partial == [] && Feed(cfg.checkFirst, a, f) == None
        else a.partial != [] && !Continues(a, f) && b == Assembly([], a.delivered)
    {
      pop := true;
      if partialDataList == [] {
        if f.packSeq != 0 {
          hung := true;
          return false;
        }
        partialDataList := [f];
        assert [] + [f] == [f];
        if cfg.checkFirst && f.Last() {
          Assemble();
        }
      } else {
        var last := partialDataList[|partialDataList| - 1];
        if f.packSeq != Add(last.packSeq, 1) {
          partialDataList := [];
          return false;
        }
        partialDataList := partialDataList + [f];
        if f.Last() {
          Assemble();
        }
      }
    }

    /** The test of the drain loop: there is a head, and it is not a hole. */
    function HeadFilled(): (b: bool)
      requires Valid()
      reads this`partialDataList, this`assembledChan, this`hung
      reads sendingQueue, receiveQueue, receiveQueue.data
      ensures b <==> RecvView().q.items != [] && RecvView().q.items[0].Some?
    {
      if receiveQueue.Length() == 0 then false
      else
        HeadIsFirst(receiveQueue.View());
        receiveQueue.GetBySeq(receiveQueue.stSeq).value.Some?
    }

    /** One whole turn of the drain loop: what is left to drain is the same, and either the queue is
        shorter, or the partial list is. */
    method DrainHead()
      requires Valid() && !hung && RecvView().q.items != [] && RecvView().q.items[0].Some?
      modifies this`partialDataList, this`assembledChan, this`hung, receiveQueue
      ensures Valid() && SendView() == old(SendView())
      ensures var r, r' := old(RecvView()), RecvView();
        if hung then r' == Drain(cfg.checkFirst, r)
        else
          && Drain(cfg.checkFirst, r') == Drain(cfg.checkFirst, r)
          && (|r'.q.items| < |r.q.items|
              || (r'.q == r.q && |r'.asm.partial| < |r.asm.partial|))
    {
      ghost var r := RecvView();
      HeadIsFirst(r.q);
      DrainTurn(cfg.checkFirst, r);
      if !Continues(r.asm, r.q.items[0].value) { ClearedSameDrain(cfg.checkFirst, r); }
      hide Wrap, Sub, Add, Feed, Continues, Drain;
      var pop := FeedHead(receiveQueue.GetBySeq(receiveQueue.stSeq).value.value);
      if pop {
        var _ := receiveQueue.PopFront();
      }
    }

    /** The drain loop of `handlePackReceive`. It ends because each turn either shortens the queue or
        empties the partial list; where the source would never end, the model records that. */
    method DrainQueue()
      requires Valid() && !hung
      modifies this`partialDataList, this`assembledChan, this`hung, receiveQueue
      ensures Valid() && SendView() == old(SendView())
      ensures RecvView() == Drain(cfg.checkFirst, old(RecvView()))
    {
      hide Wrap, Sub, Add, Feed, Drain, SendView;
      while HeadFilled()
        invariant Valid() && SendView() == old(SendView())
        invariant !hung && Drain(cfg.checkFirst, RecvView()) == Drain(cfg.checkFirst, old(RecvView()))
        decreases |receiveQueue.View().items|, |partialDataList|
      {
        DrainHead();
        if hung {
          return;
        }
      }
      DrainStops(cfg.checkFirst, RecvView());
    }

    /** Concatenates the partial list and hands the message over. */
    method Assemble()
      requires Valid() && partialDataList != []
      modifies this`partialDataList, this`assembledChan
      ensures partialDataList == []
      ensures assembledChan == old(assembledChan) + [Concat(old(partialDataList))]
    {
      var data: Bytes := [];
      while partialDataList != []
        invariant assembledChan == old(assembledChan)
        invariant data + Concat(partialDataList) == Concat(old(partialDataList))
        decreases |partialDataList|
      {
        hide Concat;
        ConcatHead(data, partialDataList);
        data := data + partialDataList[0].data;
        partialDataList := partialDataList[1..];
      }
      assert data + Concat([]) == data;
      assembledChan := assembledChan + [data];
    }

    /** The loop of `handlePackReceive` that pushes a hole for every number not received yet. */
    method PadHoles(n: u32)
      requires Valid() && |RecvView().q.items| <= RecvView().q.Offset(n) < receiveQueue.size
      modifies receiveQueue, receiveQueue.data
      ensures Valid() && SendView() == old(SendView())
      ensures var r := old(RecvView());
        RecvView() == r.(q := r.q.(items := r.q.items + Holes(r.q.Offset(n) - |r.q.items|)))
    {
      ghost var q := receiveQueue.View();
      ghost var off: u32 := Sub(n, receiveQueue.stSeq);
      ghost var k := 0;
      while receiveQueue.enSeq != n
        invariant Valid() && SendView() == old(SendView())
        invariant k <= off - |q.items|
        invariant receiveQueue.View() == q.(items := q.items + Holes(k))
        decreases off - |q.items| - k
      {
        EndDistance(receiveQueue.View(), n);
        hide Wrap, Sub, SendView;
        var _ := receiveQueue.PushBack(None);
        assert q.items + Holes(k) + [None] == q.items + Holes(k + 1);
        k := k + 1;
      }
      EndDistance(receiveQueue.View(), n);
    }

    /** `handlePackReceive`. */
    method HandlePackReceive(em: Emission)
      requires Valid() && !hung
      modifies this`partialDataList, this`assembledChan, this`hung, receiveQueue, receiveQueue.data
      ensures Valid() && SendView() == old(SendView())
      ensures RecvView() == Receive(cfg, old(RecvView()), em)
    {
      ghost var q := receiveQueue.View();
      if receiveQueue.IsValidSeq(em.seqNo) {
        receiveQueue.SetBySeq(em.seqNo, Some(em.frag));
      } else {
        if Sub(em.seqNo, receiveQueue.stSeq) >= receiveQueue.size {
          return;
        }
        PadHoles(em.seqNo);
        EndDistance(receiveQueue.View(), em.seqNo);
        var _ := receiveQueue.PushBack(Some(em.frag));
      }
      assert Store(q, em) == Some(receiveQueue.View());
      DrainQueue();
    }

    /** The `recvChan` case of `run`. */
    method OnPackArrive(p: Packet, due: set<u32>, window: nat)
      requires Valid() && !hung
      modifies this, sendingQueue, sendingQueue.data, receiveQueue, receiveQueue.data
      ensures Valid()
      ensures var (e, out) := OnPacket(cfg, old(View()), p, due, window);
        View() == e && wire == old(wire) + out
    {
      hide GetState, SyncState, Receive, Stamp;
      match p
      case StateOnly(st) =>
        SyncFrom(st, due, window);
      case Data(st, em) =>
        SyncFrom(st, due, window);
        HandlePackReceive(em);
    }

    /** The `retansmitChan` case of `run`, guarded against a number already released. */
    method OnTimerFired(n: u32)
      requires Valid()
      modifies this`retransmitTimers, this`wire
      ensures var (e, out) := OnTimeout(old(View()), n); View() == e && wire == old(wire) + out
    {
      if sendingQueue.IsValidSeq(n) {
        SendFrag(n);
      }
    }
  }

  // ---- Facts the loops use ----

  lemma FullChunk(m: nat, packID: u32, cnt: u32, idx: nat, data: Bytes, at: nat)
    requires 0 < m && at + m <= |data|
    ensures FragsFrom(m, packID, cnt, idx, data[at..]) ==
      [Frag(packID, Wrap(idx), cnt, data[at..at + m])] + FragsFrom(m, packID, cnt, idx + 1, data[at + m..])
  {
    var rest := data[at..];
    assert rest[..m] == data[at..at + m] && rest[m..] == data[at + m..];
  }

  /** Where the `i`-th fragment of `m` bytes starts. */
  function ChunkStart(i: nat, m: nat): nat { i * m }

  function FullChunks(n: nat, m: nat): nat
    requires 0 < m
  {
    n / m
  }

  function Remainder(n: nat, m: nat): nat
    requires 0 < m
  {
    n % m
  }

  lemma ChunkInside(n: nat, m: nat, i: nat)
    requires 0 < m && i < FullChunks(n, m)
    ensures ChunkStart(i + 1, m) == ChunkStart(i, m) + m <= n
  {
    var q, r := n / m, n % m;
    assert n == m * q + r;
    MulNonNegative(m, q - (i + 1));
    MulSub(m, q, i + 1);
    MulSub(m, i + 1, i);
  }

  lemma RemainderLeft(n: nat, m: nat)
    requires 0 < m
    ensures n - ChunkStart(FullChunks(n, m), m) == Remainder(n, m) < m
  {}

  lemma SlotAtOffset<T>(q: Fifo<T>, k: nat)
    requires k <= |q.items| < TWO31
    ensures Sub(Add(q.stSeq, k), q.stSeq) == k
    ensures Add(q.stSeq, k) == q.EnSeq() <==> k == |q.items|
  {
    ResidueIs(q.stSeq, q.stSeq, 0);
    SubExact(q.stSeq + k, q.stSeq);
    if Add(q.stSeq, k) == q.EnSeq() { WrapInjective(q.stSeq + k, q.stSeq + |q.items|); }
  }

  lemma SameEnd<T>(q: Fifo<T>, k: nat)
    requires k <= |q.items| < TWO31 && Add(q.stSeq, k) == q.EnSeq()
    ensures k == |q.items|
  {
    SlotAtOffset(q, k);
  }

  lemma {:induction false} MapOfTail(items: seq<Option<Frag>>, k: nat, n: nat)
    requires k <= n <= 8 && (k < n ==> |items| <= k)
    ensures MapOf(items, n) == MapOf(items, k)
  {
    if k < n { MapOfTail(items, k, n - 1); }
  }

  lemma AckDistance(q: Fifo<Frag>, stSeq: u32)
    requires |q.items| < TWO31 && (q.Holds(stSeq) || stSeq == q.EnSeq())
    ensures Sub(stSeq, q.stSeq) <= |q.items|
  {
    if stSeq == q.EnSeq() { SlotAtOffset(q, |q.items|); }
  }

  /** One step forward from `a` is one step nearer to `b`. */
  lemma NextDistance(a: u32, b: u32)
    requires a != b
    ensures Sub(b, Add(a, 1)) == Sub(b, a) - 1 && 0 < Sub(b, a)
  {
    var k := WrapSplit(b - a);
    assert Sub(b, a) != 0 by { if Sub(b, a) == 0 { SmallMultiple(TWO32, k); } }
    SubOfWraps(b, a + 1);
    ResidueIs(b, b, 0);
    ResidueIs(b - a - 1, Sub(b, a) - 1, k);
  }

  lemma EndDistance<T>(q: Fifo<T>, n: u32)
    requires |q.items| <= Sub(n, q.stSeq) < q.size < TWO31
    ensures q.EnSeq() == n <==> |q.items| == Sub(n, q.stSeq)
    ensures Sub(n, q.EnSeq()) == Sub(n, q.stSeq) - |q.items|
  {
    ResidueIs(n, n, 0);
    ResidueIs(q.stSeq, q.stSeq, 0);
    var k := WrapSplit(n - q.stSeq);
    SubOfWraps(n, q.stSeq + |q.items|);
    ResidueIs(n - (q.stSeq + |q.items|), Sub(n, q.stSeq) - |q.items|, k);
    if |q.items| == Sub(n, q.stSeq) { ResidueIs(q.stSeq + |q.items|, n, -k); }
    if q.EnSeq() == n { ResidueIs(0, 0, 0); }
  }

  lemma MapLoopStops(s: SendSide, st: StateMsg, k: nat)
    requires k <= 8 && (k == 8 || Add(st.mapStSeq, k) == st.expectSeq || !s.q.Holds(Add(st.mapStSeq, k)))
    ensures MapLoop(s, st, k) == SyncOut(s, [])
  {}

  lemma ExpectLoopStops(s: SendSide, st: StateMsg, due: set<u32>, i: nat)
    requires |s.q.items| <= s.q.size < TWO31 && st.maxExpectCnt <= i
    ensures ExpectLoop(s, st, due, i) == SyncOut(s, [])
  {}

  lemma HeadIsFirst<T>(q: Fifo<T>)
    requires 0 < |q.items| < TWO31
    ensures q.At(q.stSeq) == Some(q.items[0])
  {
    ResidueIs(0, 0, 0);
  }

  lemma StampConcat(st: StateMsg, xs: seq<Emission>, ys: seq<Emission>)
    ensures Stamp(st, xs + ys) == Stamp(st, xs) + Stamp(st, ys)
  {}

  lemma ThenThen(xs: seq<Emission>, ys: seq<Emission>, o: SyncOut)
    ensures Then(xs, Then(ys, o)) == Then(xs + ys, o)
  {
    assert xs + (ys + o.sent) == xs + ys + o.sent;
  }

  lemma ConcatHead(data: Bytes, fs: seq<Frag>)
    requires fs != []
    ensures data + Concat(fs) == data + fs[0].data + Concat(fs[1..])
  {
  }

  lemma ThenNothing(o: SyncOut)
    ensures Then([], o) == o
  {
  }

  lemma NothingStamped(st: StateMsg)
    ensures Stamp(st, []) == []
  {
  }

  /** One more slot of the bitmap. */
  lemma MapNext(items: seq<Option<Frag>>, k: nat)
    requires k < 8 && k < |items|
    ensures MapOf(items, k + 1) == MapOf(items, k) + if items[k].Some? then Pow2(k) else 0
    ensures MapOf(items, k) + Pow2(k) < 0x100
  {
    Pow2Bound(k + 1);
  }

  /** One unrolling of the drain loop. */
  lemma DrainTurn(checkFirst: bool, r: RecvSide)
    requires r.q.items != [] && r.q.items[0].Some?
    ensures Drain(checkFirst, r) ==
      match Feed(checkFirst, r.asm, r.q.items[0].value)
      case None => r.(hung := true, asm := Assembly([], r.asm.delivered))
      case Some(a) => Drain(checkFirst, r.(q := r.q.Pop(), asm := a))
  {}

  lemma DrainStops(checkFirst: bool, r: RecvSide)
    requires r.q.items == [] || r.q.items[0].None?
    ensures Drain(checkFirst, r) == r
  {}

  /** Clearing the partial list before a fragment that does not continue it changes nothing. */
  lemma ClearedSameDrain(checkFirst: bool, r: RecvSide)
    requires r.q.items != [] && r.q.items[0].Some? && !Continues(r.asm, r.q.items[0].value)
    ensures Drain(checkFirst, r.(asm := Assembly([], r.asm.delivered))) == Drain(checkFirst, r)
  {}
}
