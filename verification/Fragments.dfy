/**
  Fragmentation (`Send`, src/net/multipack.go:124-155) and reassembly (the drain loop of
  `handlePackReceive`, src/net/multipack.go:312-347), and the proof that they are inverse.

  The source checks for completeness only after it appends to a non-empty partial list, so a
  message of one fragment is never delivered. The flag `checkFirst` adds the check after the first
  fragment too; `checkFirst == false` is the source as it stands.
*/
module Fragments {
  import opened Words

  datatype Frag = Frag(packID: u32, packSeq: u32, subPackCnt: u32, data: Bytes) {
    predicate Last() { packSeq == Sub(subPackCnt, 1) }
  }

  // ---- Fragmentation ----

  /** The fragments of `data` from index `idx` on, cut every `m` bytes. */
  function FragsFrom(m: nat, packID: u32, cnt: u32, idx: nat, data: Bytes): seq<Frag>
    requires 0 < m
    decreases |data|
  {
    if data == [] then []
    else if |data| < m then [Frag(packID, Wrap(idx), cnt, data)]
    else [Frag(packID, Wrap(idx), cnt, data[..m])] + FragsFrom(m, packID, cnt, idx + 1, data[m..])
  }

  function CeilDiv(n: nat, m: nat): nat
    requires 0 < m
  {
    (n + m - 1) / m
  }

  function FragsOf(m: nat, packID: u32, data: Bytes): seq<Frag>
    requires 0 < m
  {
    FragsFrom(m, packID, Wrap(CeilDiv(|data|, m)), 0, data)
  }

  function Concat(fs: seq<Frag>): Bytes {
    if fs == [] then [] else fs[0].data + Concat(fs[1..])
  }

  lemma CeilDivStep(n: nat, m: nat)
    requires 0 < m <= n
    ensures CeilDiv(n, m) == CeilDiv(n - m, m) + 1
  {
    var q, r := (n - 1) / m, (n - 1) % m;
    assert n - 1 == m * q + r;
    assert m * (q + 1) == m * q + m by { MulSub(m, q, -1); }
    DivModUnique(n + m - 1, m, q + 1, r);
  }

  lemma CeilDivSmall(n: nat, m: nat)
    requires 0 < m && n <= m
    ensures CeilDiv(n, m) == if n == 0 then 0 else 1
  {
    if n == 0 { DivModUnique(m - 1, m, 0, m - 1); } else { DivModUnique(n + m - 1, m, 1, n - 1); }
  }

  lemma CountVersusSize(n: nat, m: nat)
    requires 0 < m
    ensures CeilDiv(n, m) == 0 <==> n == 0
    ensures 2 <= CeilDiv(n, m) <==> m < n
  {
    if n <= m {
      CeilDivSmall(n, m);
    } else {
      CeilDivStep(n, m);
      if n - m <= m { CeilDivSmall(n - m, m); } else { CeilDivStep(n - m, m); }
    }
  }

  lemma {:induction false} FragsFromShape(m: nat, packID: u32, cnt: u32, idx: nat, data: Bytes)
    requires 0 < m
    ensures var fs := FragsFrom(m, packID, cnt, idx, data);
      && |fs| == CeilDiv(|data|, m)
      && Concat(fs) == data
      && forall k :: 0 <= k < |fs| ==>
           && fs[k].packID == packID && fs[k].packSeq == Wrap(idx + k) && fs[k].subPackCnt == cnt
           && 0 < |fs[k].data| <= m
    decreases |data|
  {
    var fs := FragsFrom(m, packID, cnt, idx, data);
    if |data| < m {
      CeilDivSmall(|data|, m);
      if data != [] { assert fs[1..] == []; }
    } else {
      var rest := FragsFrom(m, packID, cnt, idx + 1, data[m..]);
      FragsFromShape(m, packID, cnt, idx + 1, data[m..]);
      CeilDivStep(|data|, m);
      var f := Frag(packID, Wrap(idx), cnt, data[..m]);
      assert fs == [f] + rest;
      assert data == data[..m] + data[m..];
      hide FragsFrom, CeilDiv, Wrap;
      assert fs[1..] == rest;
      forall k | 0 <= k < |fs| ensures fs[k] == if k == 0 then f else rest[k - 1] {}
      forall k | 0 < k < |fs| ensures fs[k].packSeq == Wrap(idx + k) { assert idx + 1 + (k - 1) == idx + k; }
    }
  }

  lemma {:induction false} FullButLast(m: nat, packID: u32, cnt: u32, idx: nat, data: Bytes, k: nat)
    requires 0 < m && k + 1 < |FragsFrom(m, packID, cnt, idx, data)|
    ensures |FragsFrom(m, packID, cnt, idx, data)[k].data| == m
    decreases |data|
  {
    if k > 0 { FullButLast(m, packID, cnt, idx + 1, data[m..], k - 1); }
  }

  /** `Send` emits exactly ceil(n/M) fragments, numbered from 0, each with the count, whose concatenation
      is the input; all but the last are full. */
  lemma FragmentationIsPartition(m: nat, packID: u32, data: Bytes)
    requires 0 < m
    ensures var fs := FragsOf(m, packID, data);
      && |fs| == CeilDiv(|data|, m)
      && Concat(fs) == data
      && forall k :: 0 <= k < |fs| ==>
           && fs[k].packSeq == Wrap(k) && fs[k].packID == packID && fs[k].subPackCnt == Wrap(|fs|)
           && 0 < |fs[k].data| <= m && (k + 1 < |fs| ==> |fs[k].data| == m)
  {
    var cnt, fs := Wrap(CeilDiv(|data|, m)), FragsOf(m, packID, data);
    FragsFromShape(m, packID, cnt, 0, data);
    hide FragsFrom, CeilDiv, Wrap, Concat;
    forall k: nat | k + 1 < |fs| ensures |fs[k].data| == m { FullButLast(m, packID, cnt, 0, data, k); }
  }

  // ---- Reassembly ----

  /** The partial list and the messages handed over so far. */
  datatype Assembly = Assembly(partial: seq<Frag>, delivered: seq<Bytes>)

  function Append(a: Assembly, f: Frag, check: bool): Assembly {
    if check && f.Last() then Assembly([], a.delivered + [Concat(a.partial + [f])])
    else Assembly(a.partial + [f], a.delivered)
  }

  predicate Continues(a: Assembly, f: Frag) {
    a.partial != [] && f.packSeq == Add(a.partial[|a.partial| - 1].packSeq, 1)
  }

  /** What the loop does with a head fragment before it pops it. A fragment out of order clears the
      partial list and is looked at again; if it is not a first fragment the loop then keeps
      `continue`-ing on the same head for ever, which is the answer `None`. */
  function Feed(checkFirst: bool, a: Assembly, f: Frag): Option<Assembly> {
    if Continues(a, f) then Some(Append(a, f, true))
    else if f.packSeq != 0 then None
    else Some(Append(Assembly([], a.delivered), f, checkFirst))
  }

  function FeedAll(checkFirst: bool, a: Assembly, fs: seq<Frag>): Option<Assembly>
    decreases |fs|
  {
    if fs == [] then Some(a)
    else match Feed(checkFirst, a, fs[0])
      case None => None
      case Some(b) => FeedAll(checkFirst, b, fs[1..])
  }

  lemma {:induction false} FeedAllConcat(checkFirst: bool, a: Assembly, xs: seq<Frag>, ys: seq<Frag>)
    ensures FeedAll(checkFirst, a, xs + ys) ==
      match FeedAll(checkFirst, a, xs)
      case None => None
      case Some(b) => FeedAll(checkFirst, b, ys)
    decreases |xs|
  {
    if xs == [] {
      assert xs + ys == ys;
    } else {
      assert (xs + ys)[1..] == xs[1..] + ys;
      match Feed(checkFirst, a, xs[0])
      case None =>
      case Some(b) => FeedAllConcat(checkFirst, b, xs[1..], ys);
    }
  }

  // ---- The two are inverse ----

  /** All fragments of a list of messages, packet numbers counting up from `id`. */
  function Stream(m: nat, id: int, msgs: seq<Bytes>): seq<Frag>
    requires 0 < m
    decreases |msgs|
  {
    if msgs == [] then []
    else FragsOf(m, Wrap(id + 1), msgs[0]) + Stream(m, id + 1, msgs[1..])
  }

  lemma {:induction false} StreamAppend(m: nat, id: int, msgs: seq<Bytes>, d: Bytes)
    requires 0 < m
    ensures Stream(m, id, msgs + [d]) == Stream(m, id, msgs) + FragsOf(m, Wrap(id + |msgs| + 1), d)
    decreases |msgs|
  {
    if msgs == [] {
      assert [d][1..] == [];
      assert msgs + [d] == [d];
      assert Stream(m, id, [d]) == FragsOf(m, Wrap(id + 1), d) + Stream(m, id + 1, []);
    } else {
      assert (msgs + [d])[1..] == msgs[1..] + [d];
      StreamAppend(m, id + 1, msgs[1..], d);
    }
  }

  /** A message the loop hands over: any non-empty one, or only those of several fragments. */
  predicate Wanted(checkFirst: bool, m: nat, d: Bytes) {
    if checkFirst then d != [] else m < |d|
  }

  function WantedOf(checkFirst: bool, m: nat, msgs: seq<Bytes>): seq<Bytes> {
    if msgs == [] then []
    else (if Wanted(checkFirst, m, msgs[0]) then [msgs[0]] else []) + WantedOf(checkFirst, m, msgs[1..])
  }

  /** The partial list between two messages: empty, or one stray first fragment in the source. */
  predicate Idle(checkFirst: bool, partial: seq<Frag>) {
    partial == [] || (!checkFirst && |partial| == 1 && partial[0].packSeq == 0)
  }

  /** The number of fragments stays in the range where `subpackCnt` is defined. */
  predicate Sendable(m: nat, d: Bytes)
    requires 0 < m
  {
    CeilDiv(|d|, m) < TWO32
  }

  lemma {:induction false} ConcatSnoc(fs: seq<Frag>, f: Frag)
    ensures Concat(fs + [f]) == Concat(fs) + f.data
    decreases |fs|
  {
    if fs == [] {
      assert fs + [f] == [f];
    } else {
      assert (fs + [f])[1..] == fs[1..] + [f];
      ConcatSnoc(fs[1..], f);
    }
  }

  lemma FeedOne(checkFirst: bool, a: Assembly, f: Frag)
    ensures FeedAll(checkFirst, a, [f]) == Feed(checkFirst, a, f)
  {
    assert [f][1..] == [];
  }

  lemma FeedSnoc(checkFirst: bool, a: Assembly, fs: seq<Frag>, f: Frag, b: Assembly)
    requires FeedAll(checkFirst, a, fs) == Some(b)
    ensures FeedAll(checkFirst, a, fs + [f]) == Feed(checkFirst, b, f)
  {
    FeedAllConcat(checkFirst, a, fs, [f]);
    FeedOne(checkFirst, b, f);
  }

  /** The fields of the fragments of one sendable message, without wrapping. */
  lemma MessageShape(m: nat, packID: u32, d: Bytes)
    requires 0 < m && Sendable(m, d)
    ensures var fs := FragsOf(m, packID, d);
      && |fs| == CeilDiv(|d|, m) && Concat(fs) == d
      && forall k :: 0 <= k < |fs| ==> fs[k].packSeq == k && (fs[k].Last() <==> k == |fs| - 1)
  {
    var fs := FragsOf(m, packID, d);
    FragsFromShape(m, packID, Wrap(CeilDiv(|d|, m)), 0, d);
    ResidueIs(|fs|, |fs|, 0);
    forall k | 0 <= k < |fs| ensures fs[k].packSeq == k && (fs[k].Last() <==> k == |fs| - 1) {
      ResidueIs(k, k, 0);
      ResidueIs(|fs| - 1, |fs| - 1, 0);
    }
  }

  lemma FirstDoesNotContinue(checkFirst: bool, a: Assembly, f: Frag)
    requires Idle(checkFirst, a.partial) && f.packSeq == 0
    ensures !Continues(a, f)
  {
    ResidueIs(1, 1, 0);
  }

  /** The first `k` fragments of one message, not all of them, sit in the partial list in order. */
  lemma {:induction false} FeedWithin(checkFirst: bool, a: Assembly, m: nat, packID: u32, d: Bytes, k: nat)
    requires 0 < m && Sendable(m, d) && Idle(checkFirst, a.partial)
    requires 0 < k < |FragsOf(m, packID, d)|
    ensures FeedAll(checkFirst, a, FragsOf(m, packID, d)[..k]) ==
            Some(Assembly(FragsOf(m, packID, d)[..k], a.delivered))
  {
    var fs := FragsOf(m, packID, d);
    MessageShape(m, packID, d);
    if k == 1 {
      FirstDoesNotContinue(checkFirst, a, fs[0]);
      FeedOne(checkFirst, a, fs[0]);
      assert fs[..1] == [fs[0]] == [] + [fs[0]];
    } else {
      FeedWithin(checkFirst, a, m, packID, d, k - 1);
      var b := Assembly(fs[..k - 1], a.delivered);
      ResidueIs(k - 1, k - 1, 0);
      FeedSnoc(checkFirst, a, fs[..k - 1], fs[k - 1], b);
      assert fs[..k] == fs[..k - 1] + [fs[k - 1]];
    }
  }

  /** A whole message is handed over, and the partial list is idle again. */
  lemma {:induction false} FeedMessage(checkFirst: bool, a: Assembly, m: nat, packID: u32, d: Bytes)
    requires 0 < m && Sendable(m, d) && Idle(checkFirst, a.partial)
    ensures var r := FeedAll(checkFirst, a, FragsOf(m, packID, d));
      && r.Some? && Idle(checkFirst, r.value.partial)
      && r.value.delivered == a.delivered + (if Wanted(checkFirst, m, d) then [d] else [])
  {
    var fs := FragsOf(m, packID, d);
    var n := |fs|;
    MessageShape(m, packID, d);
    CountVersusSize(|d|, m);
    hide FragsOf, CeilDiv, Wrap, Sub;
    if n == 0 {
      assert d == [];
    } else if n == 1 {
      FirstDoesNotContinue(checkFirst, a, fs[0]);
      assert fs == [fs[0]] == [] + [fs[0]];
      FeedOne(checkFirst, a, fs[0]);
    } else {
      FeedWithin(checkFirst, a, m, packID, d, n - 1);
      ResidueIs(n - 1, n - 1, 0);
      FeedSnoc(checkFirst, a, fs[..n - 1], fs[n - 1], Assembly(fs[..n - 1], a.delivered));
      assert fs == fs[..n - 1] + [fs[n - 1]];
    }
  }

  /** Feeding any prefix of a stream never spins, and delivers a prefix of the wanted messages; the
      whole stream delivers exactly the wanted messages. */
  lemma {:induction false} FeedStream(checkFirst: bool, a: Assembly, m: nat, id: int, msgs: seq<Bytes>, k: nat)
    requires 0 < m && (forall d | d in msgs :: Sendable(m, d)) && Idle(checkFirst, a.partial)
    requires k <= |Stream(m, id, msgs)|
    ensures var r := FeedAll(checkFirst, a, Stream(m, id, msgs)[..k]);
      && r.Some?
      && a.delivered <= r.value.delivered <= a.delivered + WantedOf(checkFirst, m, msgs)
      && (k == |Stream(m, id, msgs)| ==>
            Idle(checkFirst, r.value.partial) &&
            r.value.delivered == a.delivered + WantedOf(checkFirst, m, msgs))
    decreases |msgs|
  {
    if msgs != [] {
      var fs := FragsOf(m, Wrap(id + 1), msgs[0]);
      var rest := Stream(m, id + 1, msgs[1..]);
      FeedMessage(checkFirst, a, m, Wrap(id + 1), msgs[0]);
      assert Stream(m, id, msgs) == fs + rest;
      WantedNext(checkFirst, m, msgs, a.delivered);
      hide Feed, Continues, FragsOf, Wrap, CeilDiv, Sendable, Stream, FeedAll, Wanted, WantedOf;
      if k < |fs| {
        assert (fs + rest)[..k] == fs[..k];
        FeedPart(checkFirst, a, m, Wrap(id + 1), msgs[0], k);
      } else {
        var b := FeedAll(checkFirst, a, fs).value;
        FeedStream(checkFirst, b, m, id + 1, msgs[1..], k - |fs|);
        assert (fs + rest)[..k] == fs + rest[..k - |fs|];
        FeedAllConcat(checkFirst, a, fs, rest[..k - |fs|]);
      }
    }
  }

  lemma WantedNext(checkFirst: bool, m: nat, msgs: seq<Bytes>, before: seq<Bytes>)
    requires msgs != []
    ensures before + WantedOf(checkFirst, m, msgs) ==
      before + (if Wanted(checkFirst, m, msgs[0]) then [msgs[0]] else []) + WantedOf(checkFirst, m, msgs[1..])
  {
  }

  /** A part of one message delivers nothing. */
  lemma FeedPart(checkFirst: bool, a: Assembly, m: nat, packID: u32, d: Bytes, k: nat)
    requires 0 < m && Sendable(m, d) && Idle(checkFirst, a.partial) && k < |FragsOf(m, packID, d)|
    ensures var r := FeedAll(checkFirst, a, FragsOf(m, packID, d)[..k]);
      r.Some? && r.value.delivered == a.delivered
  {
    if k > 0 { FeedWithin(checkFirst, a, m, packID, d, k); }
  }

  /** Reassembly undoes fragmentation: exactly the non-empty messages, nothing left over; the source
      as it stands gives back exactly the messages longer than one fragment. */
  lemma ReassemblyInvertsFragmentation(checkFirst: bool, m: nat, id: int, msgs: seq<Bytes>)
    requires 0 < m && forall d | d in msgs :: Sendable(m, d)
    ensures var r := FeedAll(checkFirst, Assembly([], []), Stream(m, id, msgs));
      && r.Some?
      && r.value.delivered == WantedOf(checkFirst, m, msgs)
      && (if checkFirst then r.value.partial == [] else |r.value.partial| <= 1)
  {
    var s := Stream(m, id, msgs);
    FeedStream(checkFirst, Assembly([], []), m, id, msgs, |s|);
    assert s[..|s|] == s;
  }

  /** In the source as it stands, a list of messages comes back whole exactly when none of its
      non-empty messages fits one fragment. */
  lemma LiteralReassemblyExact(m: nat, id: int, msgs: seq<Bytes>)
    requires 0 < m && forall d | d in msgs :: Sendable(m, d)
    ensures FeedAll(false, Assembly([], []), Stream(m, id, msgs)).Some?
    ensures FeedAll(false, Assembly([], []), Stream(m, id, msgs)).value.delivered == WantedOf(true, m, msgs)
            <==> forall d | d in msgs :: d == [] || m < |d|
  {
    ReassemblyInvertsFragmentation(false, m, id, msgs);
    SameWanted(m, msgs);
  }

  lemma {:induction false} SameWanted(m: nat, msgs: seq<Bytes>)
    ensures |WantedOf(false, m, msgs)| <= |WantedOf(true, m, msgs)|
    ensures WantedOf(false, m, msgs) == WantedOf(true, m, msgs)
            <==> forall d | d in msgs :: d == [] || m < |d|
    decreases |msgs|
  {
    if msgs != [] {
      SameWanted(m, msgs[1..]);
      var l, r := WantedOf(false, m, msgs[1..]), WantedOf(true, m, msgs[1..]);
      assert forall d :: d in msgs <==> d == msgs[0] || d in msgs[1..];
      if Wanted(false, m, msgs[0]) && Wanted(true, m, msgs[0]) {
        assert WantedOf(false, m, msgs)[1..] == l && WantedOf(true, m, msgs)[1..] == r;
      } else if !Wanted(true, m, msgs[0]) {
        assert WantedOf(false, m, msgs) == l && WantedOf(true, m, msgs) == r;
      } else {
        assert |WantedOf(false, m, msgs)| == |l| < |WantedOf(true, m, msgs)|;
      }
    }
  }
}
