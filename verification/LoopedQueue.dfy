/**
  The ring buffer with wrapping uint32 sequence numbers (src/net/queue.go).

  `GetBySeq` and `SetBySeq` of the source hand the offset `seq - stSeq` to `Get` and `Set` as a
  physical index. Both readings are kept here: `LiteralSlot` is the slot the source touches,
  `Slot` the slot that holds the element, and `LiteralSlotExact` says when they agree.
*/
module LoopedQueues {
  import opened Words

  /** The abstract queue: the sequence number of the first element, and the elements in order. */
  datatype Fifo<T> = Fifo(size: u32, stSeq: u32, items: seq<T>) {
    function EnSeq(): u32 { Add(stSeq, |items|) }
    predicate Full() { |items| == size }
    predicate Holds(s: u32) { Sub(s, stSeq) < |items| }
    function Offset(s: u32): u32 { Sub(s, stSeq) }
    function At(s: u32): Option<T> { if Holds(s) then Some(items[Offset(s)]) else None }
    function Push(x: T): Fifo<T> { if Full() then this else this.(items := items + [x]) }
    function Pop(): Fifo<T> {
      if items == [] then this else this.(items := items[1..], stSeq := Add(stSeq, 1))
    }
    function Put(s: u32, x: T): Fifo<T> {
      if Holds(s) then this.(items := items[Offset(s) := x]) else this
    }
  }

  /** `IsValidSeq` is membership in the circular interval from `stSeq` up to `EnSeq`. */
  lemma HoldsIsInterval<T>(q: Fifo<T>, s: u32)
    requires |q.items| < TWO32
    ensures q.Holds(s) <==> exists k :: 0 <= k < |q.items| && s == Add(q.stSeq, k)
  {
    var d := Sub(s, q.stSeq);
    var k := WrapSplit(s - q.stSeq);
    ResidueIs(q.stSeq + d, s, -k);
    forall k | 0 <= k < |q.items| && s == Add(q.stSeq, k) ensures d == k {
      ResidueIs(q.stSeq, q.stSeq, 0);
      SubExact(q.stSeq + k, q.stSeq);
    }
    if q.Holds(s) { assert s == Add(q.stSeq, d); }
  }

  // ---- The ring refines an unbounded FIFO ----

  datatype Op<T> = Push(x: T) | Pop | Put(s: u32, x: T)

  function Apply<T>(q: Fifo<T>, op: Op<T>): Fifo<T> {
    match op
    case Push(x) => q.Push(x)
    case Pop => q.Pop()
    case Put(s, x) => q.Put(s, x)
  }

  function ApplyAll<T>(q: Fifo<T>, ops: seq<Op<T>>): Fifo<T>
    decreases |ops|
  {
    if ops == [] then q else ApplyAll(Apply(q, ops[0]), ops[1..])
  }

  /** The history of an unbounded queue: everything ever accepted, as last written, and how many
      elements were taken out. */
  datatype History<T> = History(accepted: seq<T>, taken: nat)

  ghost predicate Refines<T>(q: Fifo<T>, seq0: u32, h: History<T>) {
    && h.taken <= |h.accepted| && |q.items| <= q.size
    && q.items == h.accepted[h.taken..]
    && q.stSeq == Wrap(seq0 + h.taken)
    && q.EnSeq() == Wrap(seq0 + |h.accepted|)
  }

  ghost function Recorded<T>(q: Fifo<T>, h: History<T>, op: Op<T>): History<T>
    requires h.taken + |q.items| == |h.accepted|
  {
    match op
    case Push(x) => if q.Full() then h else h.(accepted := h.accepted + [x])
    case Pop => if q.items == [] then h else h.(taken := h.taken + 1)
    case Put(s, x) => if q.Holds(s) then h.(accepted := h.accepted[h.taken + q.Offset(s) := x]) else h
  }

  lemma OpRefines<T>(q: Fifo<T>, seq0: u32, h: History<T>, op: Op<T>)
    requires Refines(q, seq0, h)
    ensures Refines(Apply(q, op), seq0, Recorded(q, h, op))
  {
    var q', h' := Apply(q, op), Recorded(q, h, op);
    AddOfWrap(seq0 + h.taken, 1);
    AddOfWrap(seq0 + h'.taken, |q'.items|);
    assert q'.items == h'.accepted[h'.taken..];
  }

  /** The history after a list of operations: what each of them accepted, overwrote or took. */
  ghost function RecordedAll<T>(q: Fifo<T>, h: History<T>, ops: seq<Op<T>>): History<T>
    requires h.taken + |q.items| == |h.accepted|
    decreases |ops|
  {
    if ops == [] then h else RecordedAll(Apply(q, ops[0]), Recorded(q, h, ops[0]), ops[1..])
  }

  /** After any sequence of operations the ring holds exactly the accepted elements not yet taken,
      the first and last sequence numbers count both modulo 2^32, and its length is their
      difference. */
  lemma {:induction false} RunRefines<T>(q: Fifo<T>, seq0: u32, h: History<T>, ops: seq<Op<T>>)
    requires Refines(q, seq0, h) && q.size < TWO31
    ensures Refines(ApplyAll(q, ops), seq0, RecordedAll(q, h, ops))
    ensures ApplyAll(q, ops).size == q.size
    ensures |ApplyAll(q, ops).items| == Sub(ApplyAll(q, ops).EnSeq(), ApplyAll(q, ops).stSeq)
    decreases |ops|
  {
    if ops == [] {
      SubExact(seq0 + |h.accepted|, seq0 + h.taken);
    } else {
      OpRefines(q, seq0, h, ops[0]);
      RunRefines(Apply(q, ops[0]), seq0, Recorded(q, h, ops[0]), ops[1..]);
    }
  }

  /** `Length` and `Full` as the source writes them, every operation in uint32. */
  function LengthOf(queueSt: u32, queueEn: u32, size: u32): u32
    requires size < TWO32 - 1
  {
    ResidueIs(size + 1, size + 1, 0);
    Add(Add(Sub(queueEn, queueSt), size), 1) % Add(size, 1)
  }

  /** The number of slots from `queueSt` round to `queueEn`. */
  function Distance(queueSt: u32, queueEn: u32, size: u32): nat
    requires queueSt <= size
  {
    if queueSt <= queueEn then queueEn - queueSt else queueEn - queueSt + size + 1
  }

  lemma LengthIsDistance(queueSt: u32, queueEn: u32, size: u32)
    requires size < TWO31 && queueSt <= size && queueEn <= size
    ensures LengthOf(queueSt, queueEn, size) == Distance(queueSt, queueEn, size)
  {
    var d := queueEn - queueSt;
    AddOfWrap(d, size);
    AddOfWrap(d + size, 1);
    ResidueIs(d + size + 1, d + size + 1, 0);
    ResidueIs(size + 1, size + 1, 0);
    RingMod(d + size + 1, size + 1);
  }

  /** The uint32 length is right for every pair of ring indices exactly when size < 2^31. */
  lemma LengthExact(size: u32)
    requires size < TWO32 - 1
    ensures (forall st: u32, en: u32 | st <= size && en <= size ::
               LengthOf(st, en, size) == Distance(st, en, size))
            <==> size < TWO31
  {
    if size < TWO31 {
      forall st: u32, en: u32 | st <= size && en <= size
        ensures LengthOf(st, en, size) == Distance(st, en, size)
      { LengthIsDistance(st, en, size); }
    } else {
      assert LengthOf(0, size, size) != Distance(0, size, size) by {
        ResidueIs(size, size, 0);
        ResidueIs(size + size, size + size - TWO32, 1);
        ResidueIs(size + size - TWO32 + 1, size + size - TWO32 + 1, 0);
        ResidueIs(size + 1, size + 1, 0);
        RingMod(size + size - TWO32 + 1, size + 1);
      }
    }
  }

  /** The ring slot of the element at offset `off` from the head. */
  function Slot(queueSt: u32, size: u32, off: nat): (i: nat)
    requires queueSt <= size && off <= size
    ensures i == if queueSt + off <= size then queueSt + off else queueSt + off - size - 1
  {
    RingMod(queueSt + off, size + 1);
    (queueSt + off) % (size + 1)
  }

  /** The slot `Get(off)` touches in the source: the offset itself, or none if `Get` answers nil. */
  function LiteralSlot(queueSt: u32, queueEn: u32, size: u32, off: u32): Option<u32>
    requires size < TWO32 - 1
  {
    ResidueIs(size + 1, size + 1, 0);
    if Add(Add(Sub(off, queueSt), size), 1) % Add(size, 1) < LengthOf(queueSt, queueEn, size)
    then Some(off) else None
  }

  /** The source reads and writes the right slots of a non-empty queue exactly when its head is
      at index 0. */
  lemma LiteralSlotExact(queueSt: u32, queueEn: u32, size: u32)
    requires size < TWO31 && queueSt <= size && queueEn <= size && queueSt != queueEn
    ensures (forall off: u32 | off < Distance(queueSt, queueEn, size) ::
               LiteralSlot(queueSt, queueEn, size, off) == Some(Slot(queueSt, size, off)))
            <==> queueSt == 0
  {
    LengthIsDistance(queueSt, queueEn, size);
    if queueSt == 0 {
      forall off: u32 | off < Distance(queueSt, queueEn, size)
        ensures LiteralSlot(queueSt, queueEn, size, off) == Some(Slot(queueSt, size, off))
      {
        LengthIsDistance(queueSt, off, size);
      }
    } else {
      assert Slot(queueSt, size, 0) == queueSt;
      assert LiteralSlot(queueSt, queueEn, size, 0) != Some(queueSt);
    }
  }

  lemma LiteralSlotBound(queueSt: u32, queueEn: u32, size: u32, off: u32)
    requires size < TWO31 && queueSt <= size && queueEn <= size && off < Distance(queueSt, queueEn, size)
    ensures queueSt == 0 ==> LiteralSlot(queueSt, queueEn, size, off) == Some(off)
  {
    if queueSt == 0 { LiteralSlotExact(queueSt, queueEn, size); }
  }

  /** After one push-pop-push cycle the head element is invisible to the source's `GetBySeq`. */
  lemma LiteralMissesHead()
    ensures Distance(1, 2, 3) == 1 && Slot(1, 3, 0) == 1
    ensures LiteralSlot(1, 2, 3, 0) == None
  {
    LengthIsDistance(1, 2, 3);
    LengthIsDistance(1, 0, 3);
  }

  // ---- The head read of the source ----

  datatype Read = Nil | Element(i: u32) | OutOfRange

  /** `Get(id)` of the source: nil, the element in a slot, or an index panic. */
  function LiteralGet(queueSt: u32, queueEn: u32, size: u32, id: u32): Read
    requires size < TWO32 - 1
  {
    match LiteralSlot(queueSt, queueEn, size, id)
    case None => Nil
    case Some(i) => if i <= size then Element(i) else OutOfRange
  }

  function NextSlot(st: u32, size: u32): u32
    requires size < TWO32 - 1
  {
    if st < size then st + 1 else 0
  }

  /** The ring index of the head after a list of operations. */
  function HeadAfter<T>(q: Fifo<T>, queueSt: u32, ops: seq<Op<T>>): (st: u32)
    requires queueSt <= q.size < TWO32 - 1
    ensures st <= q.size
    decreases |ops|
  {
    if ops == [] then queueSt
    else
      var st := if ops[0].Pop? && q.items != [] then NextSlot(queueSt, q.size) else queueSt;
      HeadAfter(Apply(q, ops[0]), st, ops[1..])
  }

  /** A count taken round the ring. */
  function Round(n: nat, size: u32): (i: u32)
    requires size < TWO32 - 1
    ensures i <= size
  {
    n % (size + 1)
  }

  /** The head index counts the elements taken round the ring. */
  lemma {:induction false} HeadCountsTaken<T>(q: Fifo<T>, seq0: u32, h: History<T>, ops: seq<Op<T>>)
    requires Refines(q, seq0, h) && q.size < TWO31
    ensures HeadAfter(q, Round(h.taken, q.size), ops) == Round(RecordedAll(q, h, ops).taken, q.size)
    decreases |ops|
  {
    hide Round;
    if ops != [] {
      OpRefines(q, seq0, h, ops[0]);
      if ops[0].Pop? && q.items != [] { NextModulo(h.taken, q.size); }
      HeadCountsTaken(Apply(q, ops[0]), seq0, Recorded(q, h, ops[0]), ops[1..]);
    }
  }

  lemma NextModulo(n: nat, size: u32)
    requires size < TWO32 - 1
    ensures Round(n + 1, size) == NextSlot(Round(n, size), size)
  {
    var k, r := n / (size + 1), n % (size + 1);
    assert n == k * (size + 1) + r;
    if r < size {
      DivModUnique(n + 1, size + 1, k, r + 1);
    } else {
      assert n + 1 == (k + 1) * (size + 1);
      DivModUnique(n + 1, size + 1, k + 1, 0);
    }
  }

  /** `Get(GetStSeq())` reads the front of a non-empty ring if and only if the start number, as a
      number, is the index of the head. */
  lemma HeadReadExact(queueSt: u32, queueEn: u32, size: u32, stSeq: u32)
    requires size < TWO31 && queueSt <= size && queueEn <= size && queueSt != queueEn
    ensures LiteralGet(queueSt, queueEn, size, stSeq) == Element(queueSt) <==> stSeq == queueSt
  {
    LengthIsDistance(queueSt, queueEn, size);
    LengthIsDistance(queueSt, queueSt, size);
  }

  /** Over runs from an empty ring: the head read of the source is right at a non-empty ring if and
      only if the number of elements taken, counted from `seq0` in uint32, is the same as counted round
      the ring. Counted from 0 it is right for the first `size + 1` elements, and the next read is an
      index panic. */
  lemma LiteralHeadExact<T>(size: u32, seq0: u32, ops: seq<Op<T>>)
    requires size < TWO31
    ensures var q0, h0 := Fifo<T>.Fifo(size, seq0, []), History<T>.History([], 0);
      var q, taken, st := ApplyAll(q0, ops), RecordedAll(q0, h0, ops).taken, HeadAfter(q0, 0, ops);
      |q.items| <= size && (q.items != [] ==>
        var read := LiteralGet(st, Slot(st, size, |q.items|), size, q.stSeq);
        && (read == Element(st) <==> Wrap(seq0 + taken) == Round(taken, size))
        && (seq0 == 0 && taken + size + 1 < TWO32 ==> read == if taken <= size then Element(st) else OutOfRange))
  {
    hide ApplyAll, RecordedAll, HeadAfter, LiteralGet, Round;
    StartOfRun(size, seq0, ops);
    var q0, h0 := Fifo<T>.Fifo(size, seq0, []), History<T>.History([], 0);
    var q, taken, st := ApplyAll(q0, ops), RecordedAll(q0, h0, ops).taken, HeadAfter(q0, 0, ops);
    hide Wrap;
    if q.items != [] { HeadOfRun(size, seq0, taken, |q.items|, st); }
  }

  lemma StartOfRun<T>(size: u32, seq0: u32, ops: seq<Op<T>>)
    requires size < TWO31
    ensures var q0, h0 := Fifo<T>.Fifo(size, seq0, []), History<T>.History([], 0);
      var q, taken := ApplyAll(q0, ops), RecordedAll(q0, h0, ops).taken;
      && q.stSeq == Wrap(seq0 + taken) && |q.items| <= size && q.size == size
      && HeadAfter(q0, 0, ops) == Round(taken, size)
  {
    hide ApplyAll, RecordedAll, HeadAfter;
    var q0, h0 := Fifo<T>.Fifo(size, seq0, []), History<T>.History([], 0);
    assert Round(0, size) == 0;
    assert Refines(q0, seq0, h0);
    RunRefines(q0, seq0, h0, ops);
    HeadCountsTaken(q0, seq0, h0, ops);
  }

  lemma HeadOfRun(size: u32, seq0: u32, taken: nat, held: nat, st: u32)
    requires size < TWO31 && 0 < held <= size && st == Round(taken, size)
    ensures var read := LiteralGet(st, Slot(st, size, held), size, Wrap(seq0 + taken));
      && (read == Element(st) <==> Wrap(seq0 + taken) == Round(taken, size))
      && (seq0 == 0 && taken + size + 1 < TWO32 ==> read == if taken <= size then Element(st) else OutOfRange)
  {
    hide LiteralGet, Wrap, Round;
    var en := Slot(st, size, held);
    assert st != en;
    HeadReadExact(st, en, size, Wrap(seq0 + taken));
    if seq0 == 0 && taken + size + 1 < TWO32 {
      ResidueIs(taken, taken, 0);
      CountedFromZero(size, st, en, taken);
    }
  }

  lemma CountedFromZero(size: u32, st: u32, en: u32, taken: nat)
    requires size < TWO31 && st == Round(taken, size) && en <= size && st != en && taken + size + 1 < TWO32
    ensures LiteralGet(st, en, size, taken) == if taken <= size then Element(st) else OutOfRange
  {
    hide LengthOf, Wrap;
    LengthIsDistance(st, en, size);
    RoundTheRing(size, st, taken);
    if taken <= size { DivModUnique(taken, size + 1, 0, taken); }
  }

  /** A number that counts whole rounds from the head passes the test of `Get`. */
  lemma RoundTheRing(size: u32, st: u32, taken: nat)
    requires size < TWO31 && st == Round(taken, size) && taken + size + 1 < TWO32
    ensures Add(Add(Sub(taken, st), size), 1) % Add(size, 1) == 0
  {
    hide Wrap;
    var k := taken / (size + 1);
    assert taken == k * (size + 1) + st;
    DivModUnique((k + 1) * (size + 1), size + 1, k + 1, 0);
    assert (k + 1) * (size + 1) == k * (size + 1) + size + 1;
    var d := taken - st;
    assert d >= 0 by { MulNonNegative(size + 1, k); }
    ResidueIs(d, d, 0);
    ResidueIs(d + size, d + size, 0);
    ResidueIs(d + size + 1, d + size + 1, 0);
    ResidueIs(size + 1, size + 1, 0);
  }

  /** The elements from ring index `st` up to `en`. */
  function Ring<T>(d: seq<T>, st: nat, en: nat): seq<T>
    requires st < |d| && en < |d|
  {
    if st <= en then d[st..en] else d[st..] + d[..en]
  }

  lemma RingIs<T>(d: seq<T>, st: u32, en: u32, size: u32)
    requires |d| == size + 1 && st <= size && en <= size
    ensures |Ring(d, st, en)| == Distance(st, en, size) <= size
    ensures forall k: nat | k < |Ring(d, st, en)| :: Ring(d, st, en)[k] == d[Slot(st, size, k)]
  {
  }

  lemma RingPush<T>(d: seq<T>, st: u32, en: u32, size: u32, x: T)
    requires |d| == size + 1 && st <= size && en <= size && Distance(st, en, size) < size
    ensures Ring(d[en := x], st, Slot(en, size, 1)) == Ring(d, st, en) + [x]
    ensures Distance(st, Slot(en, size, 1), size) == Distance(st, en, size) + 1
  {
  }

  lemma RingPop<T>(d: seq<T>, st: u32, en: u32, size: u32)
    requires |d| == size + 1 && st <= size && en <= size && st != en
    ensures Ring(d, st, en) == [d[st]] + Ring(d, Slot(st, size, 1), en)
    ensures Distance(Slot(st, size, 1), en, size) == Distance(st, en, size) - 1
  {
  }

  class LoopedQueue<T(0)> {
    const data: array<T>
    var queueSt: u32
    var queueEn: u32
    const size: u32
    var stSeq: u32
    var enSeq: u32

    ghost predicate Valid()
      reads this
    {
      && size < TWO31
      && data.Length == size + 1
      && queueSt <= size && queueEn <= size
      && enSeq == Add(stSeq, Distance(queueSt, queueEn, size))
    }

    ghost function Contents(): (s: seq<T>)
      requires Valid()
      reads this, data
      ensures |s| == Distance(queueSt, queueEn, size) <= size
      ensures forall k :: 0 <= k < |s| ==> s[k] == data[Slot(queueSt, size, k)]
    {
      RingIs(data[..], queueSt, queueEn, size);
      Ring(data[..], queueSt, queueEn)
    }

    ghost function View(): Fifo<T>
      requires Valid()
      reads this, data
    {
      Fifo(size, stSeq, Contents())
    }

    /** `NewLoopedQueue`. */
    constructor (size: u32, seq0: u32)
      requires size < TWO31
      ensures Valid() && fresh(data)
      ensures View() == Fifo(size, seq0, []) && queueSt == 0
    {
      data := new T[size + 1];
      queueSt, queueEn := 0, 0;
      this.size := size;
      stSeq, enSeq := seq0, seq0;
    }

    function Length(): (n: u32)
      requires Valid()
      reads this, data
      ensures n == |View().items|
    {
      LengthIsDistance(queueSt, queueEn, size);
      LengthOf(queueSt, queueEn, size)
    }

    function Full(): (b: bool)
      requires Valid()
      reads this, data
      ensures b <==> View().Full()
    {
      Length() == size
    }

    function IsValidSeq(s: u32): (b: bool)
      requires Valid()
      reads this, data
      ensures b <==> View().Holds(s)
    {
      Sub(s, stSeq) < Length()
    }

    /** `GetBySeq` with the head offset added, which is what its callers need. */
    function GetBySeq(s: u32): (r: Option<T>)
      requires Valid()
      reads this, data
      ensures r == View().At(s)
    {
      if IsValidSeq(s) then Some(data[Slot(queueSt, size, Sub(s, stSeq))]) else None
    }

    /** `GetBySeq` as the source has it: right while the head of the queue is at index 0. */
    function LiteralGetBySeq(s: u32): (r: Option<T>)
      requires Valid()
      reads this, data
      ensures queueSt == 0 ==> r == View().At(s)
    {
      if !IsValidSeq(s) then None
      else
        LiteralSlotBound(queueSt, queueEn, size, Sub(s, stSeq));
        match LiteralSlot(queueSt, queueEn, size, Sub(s, stSeq))
        case None => None
        case Some(i) => Some(data[i])
    }

    /** `SetBySeq` with the head offset added. */
    method SetBySeq(s: u32, x: T)
      requires Valid()
      modifies data
      ensures Valid() && View() == old(View()).Put(s, x) && queueSt == old(queueSt)
    {
      if IsValidSeq(s) {
        data[Slot(queueSt, size, Sub(s, stSeq))] := x;
        assert Contents() == old(Contents())[Sub(s, stSeq) := x];
      }
    }

    method PopFront() returns (r: Option<T>)
      requires Valid()
      modifies this
      ensures Valid()
      ensures View() == old(View()).Pop()
      ensures queueSt == if old(View()).items == [] then old(queueSt) else NextSlot(old(queueSt), size)
      ensures r == if old(View()).items == [] then None else Some(old(View()).items[0])
    {
      if queueSt == queueEn {
        return None;
      }
      r := Some(data[queueSt]);
      RingPop(data[..], queueSt, queueEn, size);
      assert enSeq == Add(Add(stSeq, 1), Distance(queueSt, queueEn, size) - 1) by {
        AddOfWrap(stSeq + 1, Distance(queueSt, queueEn, size) - 1);
      }
      hide Ring, Distance, Slot, Wrap;
      queueSt := Slot(queueSt, size, 1);
      stSeq := Add(stSeq, 1);
      assert Contents() == old(Contents())[1..];
    }

    method PushBack(x: T) returns (ok: bool)
      requires Valid()
      modifies this, data
      ensures Valid()
      ensures ok <==> !old(View()).Full()
      ensures View() == old(View()).Push(x) && queueSt == old(queueSt)
    {
      hide LengthOf, Distance, Ring, Wrap, Sub;
      if Full() {
        return false;
      }
      assert |Contents()| == Distance(queueSt, queueEn, size) < size;
      assert Add(enSeq, 1) == Add(stSeq, Distance(queueSt, queueEn, size) + 1) by {
        AddOfWrap(stSeq + Distance(queueSt, queueEn, size), 1);
      }
      RingPush(data[..], queueSt, queueEn, size, x);
      data[queueEn] := x;
      assert data[..] == old(data[..])[queueEn := x];
      queueEn := Slot(queueEn, size, 1);
      enSeq := Add(enSeq, 1);
      ok := true;
    }
  }

  /** The array implementation follows the abstract queue through any sequence of operations. */
  method RunOps<T(0)>(lq: LoopedQueue<T>, ops: seq<Op<T>>)
    requires lq.Valid()
    modifies lq, lq.data
    ensures lq.Valid() && lq.View() == ApplyAll(old(lq.View()), ops)
    ensures lq.queueSt == HeadAfter(old(lq.View()), old(lq.queueSt), ops)
  {
    for i := 0 to |ops|
      invariant lq.Valid()
      invariant ApplyAll(lq.View(), ops[i..]) == ApplyAll(old(lq.View()), ops)
      invariant HeadAfter(lq.View(), lq.queueSt, ops[i..]) == HeadAfter(old(lq.View()), old(lq.queueSt), ops)
    {
      assert ops[i..][0] == ops[i] && ops[i..][1..] == ops[i + 1..];
      match ops[i]
      case Push(x) => var _ := lq.PushBack(x);
      case Pop => var _ := lq.PopFront();
      case Put(s, x) => lq.SetBySeq(s, x);
    }
  }
}
