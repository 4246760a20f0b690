/**
  The bucketed routing table (`KadDHT`, src/net/kad.go). The source makes 160 buckets while the
  distance ranges over 0..160; `Dht` keeps the number of buckets open, and where an index is out of
  range the operation answers `None`, the panic of the source.
*/
module Kademlia {
  import opened Words
  import opened KadDistance

  /** A connection handler: the peer it leads to, and which handler it is. */
  datatype Handler = Handler(dst: KadID, ref: nat)

  datatype Dht = Dht(id: KadID, k: u32, buckets: seq<seq<Handler>>) {
    predicate InRange(id': KadID) { Dist(id', id) < |buckets| }
  }

  /** Every handler sits in the bucket of its distance. */
  ghost predicate Placed(t: Dht) {
    forall d, i | 0 <= d < |t.buckets| && 0 <= i < |t.buckets[d]| :: Dist(t.buckets[d][i].dst, t.id) == d
  }

  // ---- The operations ----

  /** The first handler of a list that leads to `id`. */
  function First(hs: seq<Handler>, id: KadID): Option<Handler> {
    if hs == [] then None else if hs[0].dst == id then Some(hs[0]) else First(hs[1..], id)
  }

  function Without(hs: seq<Handler>, id: KadID): seq<Handler> {
    if hs == [] then [] else if hs[0].dst == id then hs[1..] else [hs[0]] + Without(hs[1..], id)
  }

  function ToFront(hs: seq<Handler>, id: KadID): seq<Handler> {
    match First(hs, id) case None => hs case Some(h) => [h] + Without(hs, id)
  }

  function Insert(t: Dht, h: Handler): Option<Dht> {
    var d := Dist(h.dst, t.id);
    if d < |t.buckets| then Some(t.(buckets := t.buckets[d := [h] + t.buckets[d]])) else None
  }

  function Get(t: Dht, id: KadID): Option<Option<Handler>> {
    if t.InRange(id) then Some(First(t.buckets[Dist(id, t.id)], id)) else None
  }

  function Update(t: Dht, id: KadID): Option<Dht> {
    var d := Dist(id, t.id);
    if d < |t.buckets| then Some(t.(buckets := t.buckets[d := ToFront(t.buckets[d], id)])) else None
  }

  function Remove(t: Dht, id: KadID): Option<Dht> {
    var d := Dist(id, t.id);
    if d < |t.buckets| then Some(t.(buckets := t.buckets[d := Without(t.buckets[d], id)])) else None
  }

  /** The buckets from `n - 1` down to 0, one after the other. */
  function Downward(buckets: seq<seq<Handler>>, n: nat): seq<Handler>
    requires n <= |buckets|
  {
    if n == 0 then [] else buckets[n - 1] + Downward(buckets, n - 1)
  }

  /** `GetK`: the first `K` of them, or all if `K` is 0, since the length is only compared after an
      element was appended. */
  function GetK(t: Dht, id: KadID): Option<seq<Handler>> {
    var d := Dist(id, t.id);
    if d >= |t.buckets| then None
    else
      var all := Downward(t.buckets, d + 1);
      Some(if 0 < t.k <= |all| then all[..t.k] else all)
  }

  // ---- The table object ----

  class KadDHT {
    const Id: KadID
    const K: u32
    const KBucket: array<seq<Handler>>

    ghost function View(): Dht
      reads KBucket
    {
      Dht(Id, K, KBucket[..])
    }

    /** `NewKadDHT`; the source calls it with `bucketCnt == 8*len(id)`. */
    constructor (id: KadID, k: u32, bucketCnt: nat)
      ensures fresh(KBucket) && View() == Dht(id, k, seq(bucketCnt, _ => []))
    {
      Id, K := id, k;
      KBucket := new seq<Handler>[bucketCnt](_ => []);
    }

    /** The search loop over the nodes of one bucket. */
    method Search(d: nat, id: KadID) returns (i: nat)
      requires d < KBucket.Length
      ensures i <= |KBucket[d]|
      ensures i < |KBucket[d]| ==> KBucket[d][i].dst == id
      ensures forall k | 0 <= k < i :: KBucket[d][k].dst != id
    {
      i := 0;
      while i < |KBucket[d]|
        invariant i <= |KBucket[d]|
        invariant forall k | 0 <= k < i :: KBucket[d][k].dst != id
      {
        if KBucket[d][i].dst == id {
          return;
        }
        i := i + 1;
      }
    }

    method InsertHandler(h: Handler) returns (ok: bool)
      modifies KBucket
      ensures ok <==> Insert(old(View()), h).Some?
      ensures View() == if ok then Insert(old(View()), h).value else old(View())
    {
      var dist := GetKDist(h.dst, Id);
      if dist >= KBucket.Length {
        return false;
      }
      KBucket[dist] := [h] + KBucket[dist];
      ok := true;
    }

    method GetHandler(id: KadID) returns (ok: bool, h: Option<Handler>)
      ensures Get(View(), id) == if ok then Some(h) else None
    {
      var dist := GetKDist(id, Id);
      h := None;
      if dist >= KBucket.Length {
        return false, None;
      }
      var i := Search(dist, id);
      SearchIsFirst(KBucket[dist], id, i);
      if i < |KBucket[dist]| {
        h := Some(KBucket[dist][i]);
      }
      ok := true;
    }

    method Touch(id: KadID) returns (ok: bool)
      modifies KBucket
      ensures ok <==> Update(old(View()), id).Some?
      ensures View() == if ok then Update(old(View()), id).value else old(View())
    {
      var dist := GetKDist(id, Id);
      if dist >= KBucket.Length {
        return false;
      }
      var i := Search(dist, id);
      var b := KBucket[dist];
      SearchIsFirst(b, id, i);
      if i < |b| {
        KBucket[dist] := [b[i]] + b[..i] + b[i + 1..];
        assert [b[i]] + b[..i] + b[i + 1..] == [b[i]] + (b[..i] + b[i + 1..]);
      } else {
        assert KBucket[..][dist := ToFront(b, id)] == KBucket[..];
      }
      ok := true;
    }

    method RemoveHandler(id: KadID) returns (ok: bool)
      modifies KBucket
      ensures ok <==> Remove(old(View()), id).Some?
      ensures View() == if ok then Remove(old(View()), id).value else old(View())
    {
      var dist := GetKDist(id, Id);
      if dist >= KBucket.Length {
        return false;
      }
      var i := Search(dist, id);
      var b := KBucket[dist];
      SearchIsFirst(b, id, i);
      if i < |b| {
        KBucket[dist] := b[..i] + b[i + 1..];
      } else {
        assert KBucket[..][dist := Without(b, id)] == KBucket[..];
      }
      ok := true;
    }

    /** The inner loop of `GetK`; `full` says that it returned. */
    method TakeBucket(d: nat, before: seq<Handler>) returns (ret: seq<Handler>, full: bool)
      requires d < KBucket.Length && (K == 0 || |before| < K)
      ensures ret <= before + KBucket[d]
      ensures if full then |ret| == K else ret == before + KBucket[d] && (K == 0 || |ret| < K)
      ensures full ==> 0 < K
    {
      ret := before;
      var bucket := KBucket[d];
      for i := 0 to |bucket|
        invariant ret == before + bucket[..i]
        invariant K == 0 || |ret| < K
      {
        ret := ret + [bucket[i]];
        assert ret == before + bucket[..i + 1];
        if |ret| == K {
          assert before + bucket == ret + bucket[i + 1..];
          return ret, true;
        }
      }
      assert bucket[..|bucket|] == bucket;
      full := false;
    }

    /** The outer loop of `GetK`. */
    method Nearest(id: KadID) returns (ok: bool, ret: seq<Handler>)
      ensures GetK(View(), id) == if ok then Some(ret) else None
    {
      ret := [];
      var top := GetKDist(id, Id);
      if top >= KBucket.Length {
        return false, [];
      }
      ok := true;
      ghost var all := Downward(KBucket[..], top + 1);
      var dist: int := top;
      while dist >= 0
        invariant -1 <= dist <= top
        invariant all == ret + Downward(KBucket[..], dist + 1)
        invariant K == 0 || |ret| < K
      {
        ghost var before, rest := ret, Downward(KBucket[..], dist);
        assert all == before + (KBucket[dist] + rest);
        assert all == before + KBucket[dist] + rest;
        hide Downward, Dist;
        var full;
        ret, full := TakeBucket(dist, ret);
        if full {
          assert ret == all[..K];
          return;
        }
        dist := dist - 1;
      }
      assert ret == all;
    }
  }

  /** A search that stopped at `i` found the first match, or nothing. */
  lemma {:induction false} SearchIsFirst(hs: seq<Handler>, id: KadID, i: nat)
    requires i <= |hs| && (forall k | 0 <= k < i :: hs[k].dst != id) && (i < |hs| ==> hs[i].dst == id)
    ensures First(hs, id) == if i < |hs| then Some(hs[i]) else None
    ensures Without(hs, id) == if i < |hs| then hs[..i] + hs[i + 1..] else hs
    decreases i
  {
    if i > 0 {
      SearchIsFirst(hs[1..], id, i - 1);
      hide First;
      CutLater(hs, i);
    }
  }

  lemma CutLater(hs: seq<Handler>, i: nat)
    requires 0 < i <= |hs|
    ensures hs == [hs[0]] + hs[1..]
    ensures i < |hs| ==> hs[..i] + hs[i + 1..] == [hs[0]] + (hs[1..][..i - 1] + hs[1..][i..])
  {
  }

  // ---- Buckets agree with a flat list ----

  function Flat(buckets: seq<seq<Handler>>): seq<Handler> { Downward(buckets, |buckets|) }

  lemma {:induction false} FirstConcat(xs: seq<Handler>, ys: seq<Handler>, id: KadID)
    ensures First(xs + ys, id) == if First(xs, id).Some? then First(xs, id) else First(ys, id)
    decreases |xs|
  {
    if xs == [] {
      assert xs + ys == ys;
    } else {
      assert (xs + ys)[1..] == xs[1..] + ys;
      FirstConcat(xs[1..], ys, id);
    }
  }

  lemma {:induction false} FirstNone(hs: seq<Handler>, id: KadID)
    ensures First(hs, id) == None <==> forall i | 0 <= i < |hs| :: hs[i].dst != id
    decreases |hs|
  {
    if hs != [] {
      FirstNone(hs[1..], id);
      if forall i | 0 <= i < |hs[1..]| :: hs[1..][i].dst != id {
        forall i | 0 < i < |hs| ensures hs[i].dst != id { assert hs[i] == hs[1..][i - 1]; }
      } else {
        var i :| 0 <= i < |hs[1..]| && hs[1..][i].dst == id;
        assert hs[i + 1].dst == id;
      }
    }
  }

  lemma NotInBucket(t: Dht, id: KadID, d: nat)
    requires Placed(t) && d < |t.buckets| && Dist(id, t.id) != d
    ensures First(t.buckets[d], id) == None
  {
    hide Dist;
    FirstNone(t.buckets[d], id);
  }

  /** Only the bucket of its own distance can hold a handler for `id`. */
  lemma {:induction false} OtherBuckets(t: Dht, id: KadID, n: nat)
    requires Placed(t) && n <= |t.buckets| && t.InRange(id)
    ensures First(Downward(t.buckets, n), id) ==
      if Dist(id, t.id) < n then First(t.buckets[Dist(id, t.id)], id) else None
    decreases n
  {
    if n > 0 {
      if Dist(id, t.id) != n - 1 { NotInBucket(t, id, n - 1); }
      FirstConcat(t.buckets[n - 1], Downward(t.buckets, n - 1), id);
      hide Dist, First, Placed;
      OtherBuckets(t, id, n - 1);
    }
  }

  /** `Get` and `Has` answer as a search of all handlers would. */
  lemma GetIsSearch(t: Dht, id: KadID)
    requires Placed(t) && t.InRange(id)
    ensures Get(t, id) == Some(First(Flat(t.buckets), id))
  {
    OtherBuckets(t, id, |t.buckets|);
  }

  lemma InsertKeepsPlaced(t: Dht, h: Handler)
    requires Placed(t) && t.InRange(h.dst)
    ensures Placed(Insert(t, h).value)
    ensures Get(Insert(t, h).value, h.dst) == Some(Some(h))
  {
    var d := Dist(h.dst, t.id);
    var t' := Insert(t, h).value;
    assert t'.buckets[d] == [h] + t.buckets[d];
    forall e, i | 0 <= e < |t'.buckets| && 0 <= i < |t'.buckets[e]|
      ensures Dist(t'.buckets[e][i].dst, t.id) == e
    {
      if e == d && i > 0 { assert t'.buckets[e][i] == t.buckets[d][i - 1]; }
    }
  }

  lemma {:induction false} WithoutSubset(hs: seq<Handler>, id: KadID)
    ensures forall h | h in Without(hs, id) :: h in hs
    ensures First(hs, id).Some? ==> First(hs, id).value in hs && First(hs, id).value.dst == id
    decreases |hs|
  {
    if hs != [] && hs[0].dst != id { WithoutSubset(hs[1..], id); }
  }

  lemma {:induction false} WithoutBag(hs: seq<Handler>, id: KadID)
    ensures multiset(hs) == multiset(Without(hs, id)) +
      (match First(hs, id) case None => multiset{} case Some(h) => multiset{h})
    decreases |hs|
  {
    if hs != [] {
      assert hs == [hs[0]] + hs[1..];
      if hs[0].dst != id {
        WithoutBag(hs[1..], id);
        Regroup(multiset{hs[0]}, multiset(Without(hs[1..], id)),
                match First(hs[1..], id) case None => multiset{} case Some(h) => multiset{h});
      } else {
        Swap(multiset{}, multiset{hs[0]}, multiset(hs[1..]));
      }
    }
  }

  lemma UpdateKeepsPlaced(t: Dht, id: KadID)
    requires Placed(t) && t.InRange(id)
    ensures Placed(Update(t, id).value) && Placed(Remove(t, id).value)
  {
    var d := Dist(id, t.id);
    var b := t.buckets[d];
    WithoutSubset(b, id);
    forall h: Handler | h in b ensures Dist(h.dst, t.id) == d {
      var i :| 0 <= i < |b| && b[i] == h;
    }
    assert forall h | h in ToFront(b, id) :: h in b;
  }

  lemma {:induction false} DownwardMultiset(bs: seq<seq<Handler>>, d: nat, b: seq<Handler>, n: nat)
    requires d < |bs| && n <= |bs|
    ensures multiset(Downward(bs[d := b], n)) + (if d < n then multiset(bs[d]) else multiset{})
         == multiset(Downward(bs, n)) + (if d < n then multiset(b) else multiset{})
    decreases n
  {
    if n > 0 {
      DownwardMultiset(bs, d, b, n - 1);
      var x, y := multiset(Downward(bs[d := b], n - 1)), multiset(Downward(bs, n - 1));
      assert multiset(Downward(bs, n)) == multiset(bs[n - 1]) + y;
      assert multiset(Downward(bs[d := b], n)) == multiset(bs[d := b][n - 1]) + x;
      if d < n - 1 {
        Regroup(multiset(bs[n - 1]), x, multiset(bs[d]));
        Regroup(multiset(bs[n - 1]), y, multiset(b));
      } else {
        Cancel(x, y, multiset{});
        Swap(multiset(b), x, multiset(bs[d]));
      }
    }
  }

  lemma Regroup<T>(a: multiset<T>, b: multiset<T>, c: multiset<T>)
    ensures a + b + c == a + (b + c)
  {}

  lemma Swap<T>(a: multiset<T>, b: multiset<T>, c: multiset<T>)
    ensures a + b + c == c + b + a
  {}

  lemma Cancel<T>(a: multiset<T>, b: multiset<T>, c: multiset<T>)
    requires a + c == b + c
    ensures a == b
  {
    forall x ensures a[x] == b[x] { assert (a + c)[x] == (b + c)[x]; }
  }

  /** `Update` permutes the handlers and `Remove` takes out exactly the one `Get` would find. */
  lemma UpdateRemoveFlat(t: Dht, id: KadID)
    requires t.InRange(id)
    ensures var found := First(t.buckets[Dist(id, t.id)], id);
      && multiset(Flat(Update(t, id).value.buckets)) == multiset(Flat(t.buckets))
      && multiset(Flat(t.buckets)) == multiset(Flat(Remove(t, id).value.buckets)) +
           (match found case None => multiset{} case Some(h) => multiset{h})
  {
    var d := Dist(id, t.id);
    var b := t.buckets[d];
    WithoutBag(b, id);
    DownwardMultiset(t.buckets, d, ToFront(b, id), |t.buckets|);
    DownwardMultiset(t.buckets, d, Without(b, id), |t.buckets|);
    assert multiset(ToFront(b, id)) == multiset(b);
    var a := multiset(Flat(t.buckets));
    var u, r := multiset(Flat(Update(t, id).value.buckets)), multiset(Flat(Remove(t, id).value.buckets));
    var f := match First(b, id) case None => multiset{} case Some(h) => multiset{h};
    hide Downward, Without, First, ToFront, Dist;
    Cancel(u, a, multiset(b));
    var w := multiset(Without(b, id));
    assert r + f + w == a + w;
    Cancel(r + f, a, w);
  }

  // ---- GetK ----

  /** `GetK` returns the first min(K, total) handlers from the bucket of the target downward, all of
      them if K is 0. None of them is farther from the target than this node, and those of the first
      bucket are nearer. */
  lemma GetKExact(t: Dht, id: KadID)
    requires Placed(t) && t.InRange(id)
    ensures var d := Dist(id, t.id);
      var all, got := Downward(t.buckets, d + 1), GetK(t, id).value;
      && |got| == (if 0 < t.k <= |all| then t.k else |all|) && got <= all
      && (forall i | 0 <= i < |got| :: Dist(got[i].dst, id) <= d)
      && (forall i | 0 <= i < |got| && i < |t.buckets[d]| && 0 < d :: Dist(got[i].dst, id) < d)
      && (forall i | 0 <= i < |got| && |t.buckets[d]| <= i :: Dist(got[i].dst, id) == d)
  {
    var d := Dist(id, t.id);
    var all, got := Downward(t.buckets, d + 1), GetK(t, id).value;
    assert all == t.buckets[d] + Downward(t.buckets, d);
    forall i | 0 <= i < |got|
      ensures Dist(got[i].dst, id) <= d
      ensures i < |t.buckets[d]| && 0 < d ==> Dist(got[i].dst, id) < d
      ensures |t.buckets[d]| <= i ==> Dist(got[i].dst, id) == d
    {
      assert got[i] == all[i];
      Symmetric(t.id, id);
      Ultrametric(got[i].dst, t.id, id);
      if i < |t.buckets[d]| {
        assert got[i] == t.buckets[d][i];
      } else {
        DownwardNear(t, d, i - |t.buckets[d]|);
      }
    }
  }

  lemma {:induction false} DownwardNear(t: Dht, n: nat, i: nat)
    requires Placed(t) && n <= |t.buckets| && i < |Downward(t.buckets, n)|
    ensures Dist(Downward(t.buckets, n)[i].dst, t.id) < n
    decreases n
  {
    if i >= |t.buckets[n - 1]| { DownwardNear(t, n - 1, i - |t.buckets[n - 1]|); }
  }

  // ---- One bucket too few ----

  /** The top bit of the last byte differs: the distance is 160. */
  predicate TopBitsDiffer(a: KadID, b: KadID) { ByteBit(a[19], 7) != ByteBit(b[19], 7) }

  /** With the 160 buckets of the source each of the operations on `id` panics exactly if the top bit of
      the last byte differs from that of the own id; with 161 none ever does. */
  lemma BucketCountExact(t: Dht, id: KadID, ref: nat)
    ensures |t.buckets| == 160 ==>
      && (Get(t, id) == None <==> TopBitsDiffer(id, t.id))
      && (Insert(t, Handler(id, ref)) == None <==> TopBitsDiffer(id, t.id))
      && (Update(t, id) == None <==> TopBitsDiffer(id, t.id))
      && (Remove(t, id) == None <==> TopBitsDiffer(id, t.id))
      && (GetK(t, id) == None <==> TopBitsDiffer(id, t.id))
    ensures |t.buckets| == 161 ==>
      && Get(t, id) != None && Insert(t, Handler(id, ref)) != None && Update(t, id) != None
      && Remove(t, id) != None && GetK(t, id) != None
  {
    DistExact(id, t.id, Dist(id, t.id));
    assert 159 / 8 == 19 && 159 % 8 == 7;
    assert Differ(id, t.id, 159) <==> TopBitsDiffer(id, t.id);
    if Dist(id, t.id) == 160 { assert Differ(id, t.id, 159); }
    hide Dist, ToFront, Without, Downward;
  }

  // ---- How the server uses the table ----

  /** The decisions of `run` in src/net/p2p.go that change the table. */
  datatype TableStep = Connect(h: Handler) | Heard(id: KadID) | Gone(id: KadID)

  function Step(t: Dht, s: TableStep): Option<Dht> {
    match s
    case Connect(h) =>
      (match Get(t, h.dst)
       case None => None
       case Some(Some(_)) => Some(t)
       case Some(None) => Insert(t, h))
    case Heard(id) => Update(t, id)
    case Gone(id) => Remove(t, id)
  }

  /** No two handlers lead to the same peer. */
  ghost predicate PeersOnce(t: Dht) {
    forall d | 0 <= d < |t.buckets| :: AllDistinct(t.buckets[d])
  }

  ghost predicate AllDistinct(hs: seq<Handler>) {
    forall i, j | 0 <= i < j < |hs| :: hs[i].dst != hs[j].dst
  }

  lemma WithoutGone(hs: seq<Handler>, id: KadID)
    requires AllDistinct(hs)
    ensures First(Without(hs, id), id) == None && AllDistinct(Without(hs, id)) && AllDistinct(ToFront(hs, id))
  {
    FirstNone(Without(hs, id), id);
    if i :| 0 <= i < |hs| && hs[i].dst == id {
      SearchIsFirst(hs, id, i);
      assert ToFront(hs, id) == [hs[i]] + Without(hs, id);
      hide First, Without, ToFront;
      CutDistinct(hs, i);
    } else {
      SearchIsFirst(hs, id, |hs|);
    }
  }

  lemma CutDistinct(hs: seq<Handler>, i: nat)
    requires AllDistinct(hs) && i < |hs|
    ensures var w := hs[..i] + hs[i + 1..];
      AllDistinct(w) && AllDistinct([hs[i]] + w) && forall k | 0 <= k < |w| :: w[k].dst != hs[i].dst
  {
  }

  /** Every step of the server keeps each handler in its bucket and each peer at most once, so that a
      peer that is gone is not found any more. */
  lemma StepKeeps(t: Dht, s: TableStep)
    requires Placed(t) && PeersOnce(t) && Step(t, s).Some?
    ensures var t' := Step(t, s).value;
      && Placed(t') && PeersOnce(t')
      && (s.Gone? ==> Get(t', s.id) == Some(None))
      && (s.Connect? ==> exists h :: Get(t', s.h.dst) == Some(Some(h)))
  {
    match s
    case Connect(h) =>
      if Get(t, h.dst) == Some(None) {
        InsertKeepsPlaced(t, h);
        FirstNone(t.buckets[Dist(h.dst, t.id)], h.dst);
      }
    case Heard(id) =>
      UpdateKeepsPlaced(t, id);
      WithoutGone(t.buckets[Dist(id, t.id)], id);
    case Gone(id) =>
      UpdateKeepsPlaced(t, id);
      WithoutGone(t.buckets[Dist(id, t.id)], id);
  }

  // ---- The table is a map ----

  /** What a server knows after the steps: the handler it connected to each peer that is not gone. */
  function Learn(m: map<KadID, Handler>, s: TableStep): map<KadID, Handler> {
    match s
    case Connect(h) => if h.dst in m then m else m[h.dst := h]
    case Heard(_) => m
    case Gone(id) => m - {id}
  }

  function LearnAll(m: map<KadID, Handler>, steps: seq<TableStep>): map<KadID, Handler>
    decreases |steps|
  {
    if steps == [] then m else LearnAll(Learn(m, steps[0]), steps[1..])
  }

  function RunSteps(t: Dht, steps: seq<TableStep>): Option<Dht>
    decreases |steps|
  {
    if steps == [] then Some(t)
    else match Step(t, steps[0]) case None => None case Some(t') => RunSteps(t', steps[1..])
  }

  /** The buckets hold the handlers of the map, each where its distance says, and no others. */
  ghost predicate Represents(t: Dht, m: map<KadID, Handler>) {
    && Placed(t) && PeersOnce(t)
    && forall x: KadID | t.InRange(x) ::
         First(t.buckets[Dist(x, t.id)], x) == if x in m then Some(m[x]) else None
  }

  lemma {:induction false} FirstWithout(hs: seq<Handler>, id: KadID, x: KadID)
    requires AllDistinct(hs)
    ensures First(Without(hs, id), x) == if x == id then None else First(hs, x)
    decreases |hs|
  {
    if hs != [] {
      FirstNone(hs[1..], id);
      assert forall i, j | 0 <= i < j < |hs[1..]| :: hs[1..][i] == hs[i + 1] && hs[1..][j] == hs[j + 1];
      if hs[0].dst != id { FirstWithout(hs[1..], id, x); }
    }
  }

  lemma FirstToFront(hs: seq<Handler>, id: KadID, x: KadID)
    requires AllDistinct(hs)
    ensures First(ToFront(hs, id), x) == First(hs, x)
  {
    FirstWithout(hs, id, x);
    FirstNone(hs, id);
    WithoutSubset(hs, id);
  }

  lemma StepRepresents(t: Dht, m: map<KadID, Handler>, s: TableStep)
    requires Represents(t, m) && Step(t, s).Some?
    ensures Represents(Step(t, s).value, Learn(m, s)) && |Step(t, s).value.buckets| == |t.buckets|
  {
    StepKeeps(t, s);
    hide Placed, PeersOnce, First, Without, ToFront, Dist;
    var t' := Step(t, s).value;
    forall x: KadID | t'.InRange(x)
      ensures First(t'.buckets[Dist(x, t'.id)], x) == if x in Learn(m, s) then Some(Learn(m, s)[x]) else None
    {
      var d := Dist(x, t.id);
      assert AllDistinct(t.buckets[d]) by { DistinctBucket(t, d); }
      match s {
        case Connect(h) => FirstPushed(t.buckets[d], h, x);
        case Heard(id) => FirstToFront(t.buckets[d], id, x);
        case Gone(id) => FirstWithout(t.buckets[d], id, x);
      }
    }
  }

  lemma DistinctBucket(t: Dht, d: nat)
    requires PeersOnce(t) && d < |t.buckets|
    ensures AllDistinct(t.buckets[d])
  {
  }

  lemma FirstPushed(hs: seq<Handler>, h: Handler, x: KadID)
    ensures First([h] + hs, x) == if x == h.dst then Some(h) else First(hs, x)
  {
    assert ([h] + hs)[1..] == hs;
  }

  lemma {:induction false} RunRepresents(t: Dht, m: map<KadID, Handler>, steps: seq<TableStep>)
    requires Represents(t, m)
    requires RunSteps(t, steps).Some?
    ensures Represents(RunSteps(t, steps).value, LearnAll(m, steps))
    decreases |steps|
  {
    if steps != [] {
      StepRepresents(t, m, steps[0]);
      hide Represents, Step, Learn;
      RunRepresents(Step(t, steps[0]).value, Learn(m, steps[0]), steps[1..]);
    }
  }

  /** A run of any length from the empty table that does not panic: `Get` answers like the map that the
      run describes, and every handler sits in its bucket once. */
  lemma TableIsMap(id: KadID, k: u32, bucketCnt: nat, steps: seq<TableStep>, x: KadID)
    requires RunSteps(Dht(id, k, seq(bucketCnt, _ => [])), steps).Some?
    ensures var t, m := RunSteps(Dht(id, k, seq(bucketCnt, _ => [])), steps).value, LearnAll(map[], steps);
      Represents(t, m) && (t.InRange(x) ==> Get(t, x) == Some(if x in m then Some(m[x]) else None))
  {
    var t0 := Dht(id, k, seq(bucketCnt, _ => []));
    assert Represents(t0, map[]);
    RunRepresents(t0, map[], steps);
  }

  function IdOf(s: TableStep): KadID {
    match s case Connect(h) => h.dst case Heard(id) => id case Gone(id) => id
  }

  /** With 160 buckets a run of these steps panics exactly if one of them names an id whose top bit
      differs from that of the own id. Sends look up the table too; they are in `ServerRuns`. */
  lemma {:induction false} RunPanicsExactly(t: Dht, steps: seq<TableStep>)
    requires |t.buckets| == 160
    ensures RunSteps(t, steps) == None <==> exists i :: 0 <= i < |steps| && TopBitsDiffer(IdOf(steps[i]), t.id)
    decreases |steps|
  {
    if steps != [] {
      var s, rest := steps[0], steps[1..];
      BucketCountExact(t, IdOf(s), if s.Connect? then s.h.ref else 0);
      hide TopBitsDiffer, Get, Insert, Update, Remove;
      assert Step(t, s) == None <==> TopBitsDiffer(IdOf(s), t.id);
      assert forall i | 0 <= i < |rest| :: rest[i] == steps[i + 1];
      if Step(t, s).Some? {
        StepShape(t, s);
        RunPanicsExactly(Step(t, s).value, rest);
        if i :| 0 <= i < |steps| && TopBitsDiffer(IdOf(steps[i]), t.id) {
          assert rest[i - 1] == steps[i];
        }
      }
    }
  }

  lemma StepShape(t: Dht, s: TableStep)
    requires Step(t, s).Some?
    ensures Step(t, s).value.id == t.id && |Step(t, s).value.buckets| == |t.buckets|
  {
  }

  /** With 161 buckets no run of these steps panics. */
  lemma {:induction false} EnoughBuckets(t: Dht, steps: seq<TableStep>)
    requires |t.buckets| == 161
    ensures RunSteps(t, steps).Some?
    decreases |steps|
  {
    if steps != [] {
      var s := steps[0];
      BucketCountExact(t, IdOf(s), if s.Connect? then s.h.ref else 0);
      EnoughBuckets(Step(t, s).value, steps[1..]);
    }
  }
}
