/**
  From a reply pack to the store (`PurchaseSession`, src/fs/purchase.go:87-128, and
  `ShareRecvSession`, src/fs/share.go:259-291).

  The hash function is a parameter: nothing is assumed of it but that it is a function.
*/
module PurchaseStore {
  import opened Words
  import opened Blinding
  import opened Names
  import opened FileIndex
  import opened ParallelPurchase

  type HashFn = Bytes -> HashVal

  datatype DataPack = DataPack(Keys: seq<Key>, Data: seq<Bytes>)

  datatype Verdict = Matches(tot: Bytes) | Mismatch | Panic

  /** The key check from key `i` on, with the data joined so far. */
  function Check(pack: DataPack, keys: seq<Key>, i: nat, tot: Bytes): Verdict
    requires i <= |pack.Keys|
    decreases |pack.Keys| - i
  {
    if i == |pack.Keys| then Matches(tot)
    else if i >= |pack.Data| || i >= |keys| then Panic
    else if pack.Keys[i] != keys[i] then Mismatch
    else Check(pack, keys, i + 1, tot + pack.Data[i])
  }

  /** The write loop from key `i` on. */
  function PutAll(s: Index, pack: DataPack, i: nat, owner: NodeID): Index
    requires i <= |pack.Keys| <= |pack.Data|
    decreases |pack.Keys| - i
  {
    if i == |pack.Keys| then s else PutAll(Put(s, pack.Keys[i], pack.Data[i], owner), pack, i + 1, owner)
  }

  datatype Outcome = Finished(s: Index, ok: bool) | Panicked

  /** A pack from the right peer ends the purchase session. */
  function OnPack(s: Index, p: Purchase, pack: DataPack, H: HashFn, owner: NodeID): Outcome {
    CheckExact(pack, p.keys);
    match Check(pack, p.keys, 0, [])
    case Panic => Panicked
    case Mismatch => Finished(s, false)
    case Matches(tot) =>
      if H(tot) == p.hash then Finished(PutAll(s, pack, 0, owner), true) else Finished(s, false)
  }

  // ---- What the check accepts ----

  lemma {:induction false} JoinSnoc(data: seq<Bytes>, i: nat)
    requires i < |data|
    ensures Join(data[..i + 1]) == Join(data[..i]) + data[i]
    decreases i
  {
    assert data[..i + 1][1..] == data[1..][..i];
    if i > 0 {
      assert data[..i][1..] == data[1..][..i - 1];
      JoinSnoc(data[1..], i - 1);
    } else {
      assert Join(data[..1]) == data[0] + Join([]);
    }
  }

  /** For how many keys there is both data in the pack and a requested key. */
  function Both(pack: DataPack, keys: seq<Key>): nat {
    if |pack.Data| <= |keys| then |pack.Data| else |keys|
  }

  /** The pack goes on after as many right keys as can be checked. */
  predicate Overruns(pack: DataPack, keys: seq<Key>) {
    var n := Both(pack, keys);
    n < |pack.Keys| && forall j | 0 <= j < n :: pack.Keys[j] == keys[j]
  }

  lemma {:induction false} CheckFrom(pack: DataPack, keys: seq<Key>, i: nat)
    requires i <= |pack.Keys| && i <= |pack.Data| && i <= |keys| && pack.Keys[..i] == keys[..i]
    ensures var v := Check(pack, keys, i, Join(pack.Data[..i]));
      && (v.Matches? <==> |pack.Keys| <= |pack.Data| && pack.Keys <= keys)
      && (v.Matches? ==> v.tot == Join(pack.Data[..|pack.Keys|]))
      && (v.Panic? <==> Overruns(pack, keys))
    decreases |pack.Keys| - i
  {
    assert forall j | 0 <= j < i :: pack.Keys[..i][j] == keys[..i][j];
    if i < |pack.Keys| && i < |pack.Data| && i < |keys| {
      if pack.Keys[i] == keys[i] {
        JoinSnoc(pack.Data, i);
        assert pack.Keys[..i + 1] == pack.Keys[..i] + [pack.Keys[i]] == keys[..i + 1];
        CheckFrom(pack, keys, i + 1);
      }
    }
  }

  /** A pack matches exactly if it has data for all its keys and they are the first of the requested
      ones; what is hashed is the data of those keys. It need not have all requested keys. The check
      panics exactly if the keys are right as far as there is data and a requested key, and go on. */
  lemma CheckExact(pack: DataPack, keys: seq<Key>)
    ensures var v := Check(pack, keys, 0, []);
      && (v.Matches? <==> |pack.Keys| <= |pack.Data| && pack.Keys <= keys)
      && (v.Matches? ==> v.tot == Join(pack.Data[..|pack.Keys|]))
      && (v.Panic? <==> Overruns(pack, keys))
  {
    assert pack.Data[..0] == [];
    assert pack.Keys[..0] == keys[..0];
    CheckFrom(pack, keys, 0);
  }

  // ---- What a pack leaves in the store ----

  lemma {:induction false} PutAllKeeps(s: Index, pack: DataPack, i: nat, owner: NodeID, k: Key)
    requires i <= |pack.Keys| <= |pack.Data|
    ensures var s' := PutAll(s, pack, i, owner);
      && (k in s'.db <==> k in s.db || k in pack.Keys[i..])
      && (k in s.db ==> s'.db[k] == s.db[k])
    decreases |pack.Keys| - i
  {
    if i < |pack.Keys| {
      assert pack.Keys[i..] == [pack.Keys[i]] + pack.Keys[i + 1..];
      PutAllKeeps(Put(s, pack.Keys[i], pack.Data[i], owner), pack, i + 1, owner, k);
    }
  }

  /** Where the pack first has the key, from `i` on. */
  ghost predicate FirstIn(pack: DataPack, i: nat, j: nat, k: Key) {
    i <= j < |pack.Keys| && pack.Keys[j] == k && forall l | i <= l < j :: pack.Keys[l] != k
  }

  /** What writing the pack from key `i` on makes of the file `k`. */
  ghost predicate Written(s: Index, s': Index, pack: DataPack, i: nat, owner: NodeID, k: Key)
    requires i <= |pack.Keys| <= |pack.Data|
  {
    if k in s.db || k !in pack.Keys[i..] then
      && (k in s'.db <==> k in s.db) && (k in s.db ==> s'.db[k] == s.db[k])
      && (k in s'.files <==> k in s.files) && (k in s.files ==> s'.files[k] == s.files[k])
    else
      && k in s'.db && k in s'.files && s'.files[k] == FileInfo(owner, {})
      && forall j: nat | FirstIn(pack, i, j, k) :: s'.db[k] == pack.Data[j]
  }

  /** The write loop leaves every file that was there, and gives every new key the data at its first place
      in the pack, under the given owner and without peers; nothing else changes. */
  lemma {:induction false} PutAllExact(s: Index, pack: DataPack, i: nat, owner: NodeID, k: Key)
    requires i <= |pack.Keys| <= |pack.Data|
    ensures var s' := PutAll(s, pack, i, owner);
      && Written(s, s', pack, i, owner, k) && s'.peers == s.peers && s'.crashed == s.crashed
    decreases |pack.Keys| - i
  {
    if i < |pack.Keys| {
      assert pack.Keys[i..] == [pack.Keys[i]] + pack.Keys[i + 1..];
      var s1 := Put(s, pack.Keys[i], pack.Data[i], owner);
      PutAllExact(s1, pack, i + 1, owner, k);
      forall j: nat | FirstIn(pack, i, j, k) ensures if j == i then pack.Keys[i] == k else FirstIn(pack, i + 1, j, k) {
      }
    }
  }

  /** The pack is the one that was asked for. */
  predicate Accepts(p: Purchase, pack: DataPack, H: HashFn) {
    |pack.Keys| <= |pack.Data| && pack.Keys <= p.keys && H(Join(pack.Data[..|pack.Keys|])) == p.hash
  }

  /** A pack ends the purchase: with a panic exactly if it overruns, with success exactly if it is the one
      asked for, and only then with anything written, all of it and at its first place. */
  lemma OnPackExact(s: Index, p: Purchase, pack: DataPack, H: HashFn, owner: NodeID, k: Key)
    ensures var o := OnPack(s, p, pack, H, owner);
      && (o.Panicked? <==> Overruns(pack, p.keys))
      && (o.Finished? ==>
            && (o.ok <==> Accepts(p, pack, H))
            && (!o.ok ==> o.s == s)
            && (o.ok ==> Written(s, o.s, pack, 0, owner, k) && o.s.peers == s.peers && o.s.crashed == s.crashed))
  {
    CheckExact(pack, p.keys);
    if |pack.Keys| <= |pack.Data| { PutAllExact(s, pack, 0, owner, k); }
    hide Check, PutAll, Written, Overruns, Join;
  }

  /** Key by key, the store gives back the data of the pack. */
  ghost predicate ReadsBack(db: map<Key, Bytes>, pack: DataPack)
    requires |pack.Keys| <= |pack.Data|
  {
    forall i | 0 <= i < |pack.Keys| :: pack.Keys[i] in db && db[pack.Keys[i]] == pack.Data[i]
  }

  /** No key was stored with other data, and no key is in the pack with different data. */
  predicate Agrees(db: map<Key, Bytes>, pack: DataPack)
    requires |pack.Keys| <= |pack.Data|
  {
    && (forall i | 0 <= i < |pack.Keys| && pack.Keys[i] in db :: db[pack.Keys[i]] == pack.Data[i])
    && forall i, j | 0 <= i < j < |pack.Keys| && pack.Keys[i] == pack.Keys[j] :: pack.Data[i] == pack.Data[j]
  }

  lemma {:induction false} PutAllAt(s: Index, pack: DataPack, k: nat, owner: NodeID, i: nat)
    requires k <= i < |pack.Keys| <= |pack.Data| && Agrees(s.db, pack)
    ensures var db := PutAll(s, pack, k, owner).db;
      pack.Keys[i] in db && db[pack.Keys[i]] == pack.Data[i]
    decreases |pack.Keys| - k
  {
    var s' := Put(s, pack.Keys[k], pack.Data[k], owner);
    if k == i {
      PutAllKeeps(s', pack, k + 1, owner, pack.Keys[i]);
    } else {
      assert Agrees(s'.db, pack);
      PutAllAt(s', pack, k + 1, owner, i);
    }
  }

  /** Written once, a pack reads back exactly if the store and the pack itself do not contradict it. */
  lemma ReadBackExact(s: Index, pack: DataPack, owner: NodeID)
    requires |pack.Keys| <= |pack.Data|
    ensures ReadsBack(PutAll(s, pack, 0, owner).db, pack) <==> Agrees(s.db, pack)
  {
    var db := PutAll(s, pack, 0, owner).db;
    if Agrees(s.db, pack) {
      forall i | 0 <= i < |pack.Keys| ensures pack.Keys[i] in db && db[pack.Keys[i]] == pack.Data[i] {
        PutAllAt(s, pack, 0, owner, i);
      }
    } else if ReadsBack(db, pack) {
      forall i | 0 <= i < |pack.Keys| && pack.Keys[i] in s.db ensures s.db[pack.Keys[i]] == pack.Data[i] {
        PutAllKeeps(s, pack, 0, owner, pack.Keys[i]);
      }
      assert false;
    }
  }

  /** What `Get` returns for the keys, joined: the data a seller or a sharer of the keys sends. */
  function Fetched(db: map<Key, Bytes>, keys: seq<Key>): Bytes
    requires forall k | k in keys :: k in db
  {
    if keys == [] then []
    else
      assert keys[|keys| - 1] in keys;
      Fetched(db, keys[..|keys| - 1]) + db[keys[|keys| - 1]]
  }

  lemma {:induction false} FetchedIsJoin(db: map<Key, Bytes>, pack: DataPack, n: nat)
    requires n <= |pack.Keys| <= |pack.Data| && ReadsBack(db, pack)
    requires forall k | k in pack.Keys[..n] :: k in db
    ensures Fetched(db, pack.Keys[..n]) == Join(pack.Data[..n])
    decreases n
  {
    if n > 0 {
      JoinSnoc(pack.Data, n - 1);
      assert pack.Keys[..n][..n - 1] == pack.Keys[..n - 1];
      FetchedIsJoin(db, pack, n - 1);
    }
  }

  /** The pack a seller or a sharer makes of its own store. */
  function PackOf(db: map<Key, Bytes>, keys: seq<Key>): (pack: DataPack)
    requires Elems(keys) <= db.Keys
  {
    DataPack(keys, seq(|keys|, i requires 0 <= i < |keys| => assert keys[i] in Elems(keys); db[keys[i]]))
  }

  /** A seller that does not store a requested key panics on it. */
  function Sale(db: map<Key, Bytes>, keys: seq<Key>): Option<DataPack> {
    if Elems(keys) <= db.Keys then Some(PackOf(db, keys)) else None
  }

  /** A buyer accepts the pack of a store exactly if the data there has the requested hash, and then
      holds what the seller holds unless it already held something else; the seller gets as far as a
      pack exactly if it stores all requested keys. */
  lemma SaleCopies(seller: map<Key, Bytes>, s: Index, p: Purchase, H: HashFn, owner: NodeID)
    ensures Sale(seller, p.keys) == None <==> exists k :: k in p.keys && k !in seller
    ensures Sale(seller, p.keys).Some? ==>
      var o := OnPack(s, p, Sale(seller, p.keys).value, H, owner);
      && o.Finished?
      && (o.ok <==> H(Fetched(seller, p.keys)) == p.hash)
      && (o.ok ==> ((forall k | k in p.keys :: k in o.s.db && o.s.db[k] == seller[k]) <==>
                    forall k | k in p.keys && k in s.db :: s.db[k] == seller[k]))
  {
    assert Elems(p.keys) <= seller.Keys <==> forall k | k in p.keys :: k in seller;
    if Sale(seller, p.keys).Some? {
      hide Elems;
      var pack := PackOf(seller, p.keys);
      var n := |p.keys|;
      CheckExact(pack, p.keys);
      assert p.keys[..n] == p.keys && pack.Data[..n] == pack.Data;
      FetchedIsJoin(seller, pack, n);
      ReadBackExact(s, pack, owner);
      AboutKeys(p.keys, seller, PutAll(s, pack, 0, owner).db);
      AgreesIs(p.keys, seller, s.db);
    }
  }

  lemma AgreesIs(keys: seq<Key>, seller: map<Key, Bytes>, db: map<Key, Bytes>)
    requires Elems(keys) <= seller.Keys && forall k | k in keys :: k in seller
    ensures Agrees(db, PackOf(seller, keys)) <==> forall k | k in keys && k in db :: db[k] == seller[k]
  {
    var pack := PackOf(seller, keys);
    if forall k | k in keys && k in db :: db[k] == seller[k] {
      assert Agrees(db, pack);
    }
    if Agrees(db, pack) {
      forall k | k in keys && k in db ensures db[k] == seller[k] {
        var i :| 0 <= i < |keys| && keys[i] == k;
        assert pack.Keys[i] == k;
      }
    }
  }

  lemma AboutKeys(keys: seq<Key>, seller: map<Key, Bytes>, db: map<Key, Bytes>)
    requires Elems(keys) <= seller.Keys && forall k | k in keys :: k in seller
    ensures ReadsBack(db, PackOf(seller, keys)) <==> forall k | k in keys :: k in db && db[k] == seller[k]
  {
    if ReadsBack(db, PackOf(seller, keys)) {
      forall k | k in keys ensures k in db && db[k] == seller[k] {
        var i :| 0 <= i < |keys| && keys[i] == k;
        assert PackOf(seller, keys).Keys[i] == k;
      }
    }
  }

  /** The first `n` keys are stored, and their data has the hash `h`. */
  ghost predicate StoredUpTo(db: map<Key, Bytes>, keys: seq<Key>, n: nat, H: HashFn, h: HashVal) {
    && n <= |keys|
    && (forall k | k in keys[..n] :: k in db)
    && H(Fetched(db, keys[..n])) == h
  }

  predicate Absent(db: map<Key, Bytes>, keys: seq<Key>) { forall k | k in keys :: k !in db }

  /** A successful purchase of keys that were absent and differ from each other leaves data with the
      requested hash under as many of them as the pack had. */
  lemma SuccessStores(s: Index, p: Purchase, pack: DataPack, H: HashFn, owner: NodeID)
    requires NoRepeats(p.keys) && Absent(s.db, p.keys)
    requires var o := OnPack(s, p, pack, H, owner); o.Finished? && o.ok
    ensures StoredUpTo(OnPack(s, p, pack, H, owner).s.db, p.keys, |pack.Keys|, H, p.hash)
    ensures forall k | k !in p.keys :: k in OnPack(s, p, pack, H, owner).s.db <==> k in s.db
  {
    CheckExact(pack, p.keys);
    var db := PutAll(s, pack, 0, owner).db;
    var n := |pack.Keys|;
    assert p.keys[..n] == pack.Keys[..n] == pack.Keys;
    forall i | 0 <= i < n ensures pack.Keys[i] !in s.db { assert pack.Keys[i] == p.keys[i]; }
    assert Agrees(s.db, pack);
    ReadBackExact(s, pack, owner);
    forall k | k in pack.Keys ensures k in db {
      var i :| 0 <= i < n && pack.Keys[i] == k;
    }
    FetchedIsJoin(db, pack, n);
    forall k | k !in p.keys ensures k in db <==> k in s.db {
      PutAllKeeps(s, pack, 0, owner, k);
      assert pack.Keys[0..] == pack.Keys;
      assert forall i | 0 <= i < n :: pack.Keys[i] == p.keys[i];
    }
  }

  /** Such a purchase leaves all requested keys in the store exactly if its pack had them all. */
  lemma SuccessIsComplete(s: Index, p: Purchase, pack: DataPack, H: HashFn, owner: NodeID)
    requires NoRepeats(p.keys) && Absent(s.db, p.keys)
    requires var o := OnPack(s, p, pack, H, owner); o.Finished? && o.ok
    ensures var db := OnPack(s, p, pack, H, owner).s.db;
      Elems(p.keys) <= db.Keys <==> |pack.Keys| == |p.keys|
  {
    CheckExact(pack, p.keys);
    var db, n := OnPack(s, p, pack, H, owner).s.db, |pack.Keys|;
    assert pack.Keys[0..] == pack.Keys == p.keys[..n];
    forall k | k in p.keys ensures k in db <==> k in pack.Keys { PutAllKeeps(s, pack, 0, owner, k); }
    if n < |p.keys| {
      assert p.keys[n] in Elems(p.keys) && p.keys[n] !in p.keys[..n];
    } else {
      assert pack.Keys == p.keys;
    }
  }

  /** No collision is needed for an incomplete success. If the last file of a group is empty, the pack
      without its key is accepted whatever the hash function is, and the key is left out. */
  lemma EmptyFileLeftOut(s: Index, p: Purchase, datas: seq<Bytes>, H: HashFn, owner: NodeID)
    requires NoRepeats(p.keys) && Absent(s.db, p.keys) && 0 < |p.keys| == |datas|
    requires datas[|datas| - 1] == [] && H(Join(datas)) == p.hash
    ensures var n := |p.keys| - 1;
      var o := OnPack(s, p, DataPack(p.keys[..n], datas[..n]), H, owner);
      o.Finished? && o.ok && p.keys[n] !in o.s.db && !(Elems(p.keys) <= o.s.db.Keys)
  {
    var n := |p.keys| - 1;
    var pack := DataPack(p.keys[..n], datas[..n]);
    JoinSnoc(datas, n);
    assert datas[..n + 1] == datas && Join(datas[..n]) + [] == Join(datas[..n]);
    CheckExact(pack, p.keys);
    assert pack.Data[..|pack.Keys|] == pack.Data;
    SuccessIsComplete(s, p, pack, H, owner);
    assert p.keys[n] in p.keys && p.keys[n] !in pack.Keys;
    assert pack.Keys[0..] == pack.Keys;
    PutAllKeeps(s, pack, 0, owner, p.keys[n]);
  }

  // ---- The session objects ----

  class PurchaseSession {
    const fs: NaiveFS
    const info: Purchase
    var results: seq<bool>
    var closed: bool
    var crashed: bool

    /** One result when the session has ended, none before. */
    ghost predicate Valid()
      reads this
    {
      |results| == if closed then 1 else 0
    }

    constructor (fs: NaiveFS, info: Purchase)
      ensures Valid() && !closed && !crashed && this.fs == fs && this.info == info
    {
      this.fs, this.info, results, closed, crashed := fs, info, [], false, false;
    }

    method Terminate(ok: bool)
      requires Valid() && !closed
      modifies this`results, this`closed
      ensures Valid() && closed && results == [ok]
    {
      results := results + [ok];
      closed := true;
    }

    /** The loop over the keys of the pack. */
    method CheckPack(pack: DataPack) returns (v: Verdict)
      ensures v == Check(pack, info.keys, 0, [])
    {
      var totData: Bytes := [];
      for i := 0 to |pack.Keys|
        invariant Check(pack, info.keys, i, totData) == Check(pack, info.keys, 0, [])
      {
        if i >= |pack.Data| || i >= |info.keys| {
          return Panic;
        }
        totData := totData + pack.Data[i];
        if pack.Keys[i] != info.keys[i] {
          return Mismatch;
        }
      }
      v := Matches(totData);
    }

    /** The data case of `run`. */
    method OnData(from: NodeID, pack: DataPack, H: HashFn)
      requires Valid() && !closed && !crashed
      modifies this`results, this`closed, this`crashed, fs`db, fs`fileInfoDB
      ensures Valid()
      ensures from != info.peer ==> !closed && !crashed && fs.View() == old(fs.View())
      ensures from == info.peer ==>
        match OnPack(old(fs.View()), info, pack, H, fs.owner)
        case Panicked => crashed && !closed && fs.View() == old(fs.View())
        case Finished(s, ok) => !crashed && closed && results == [ok] && fs.View() == s
    {
      if from == info.peer {
        var v := CheckPack(pack);
        CheckExact(pack, info.keys);
        match v {
          case Panic =>
            crashed := true;
          case Mismatch =>
            Terminate(false);
          case Matches(tot) =>
            if H(tot) == info.hash {
              ghost var s := fs.View();
              for i := 0 to |pack.Keys|
                invariant !closed && !crashed && Valid()
                invariant PutAll(fs.View(), pack, i, fs.owner) == PutAll(s, pack, 0, fs.owner)
              {
                fs.Set(pack.Keys[i], pack.Data[i]);
              }
              Terminate(true);
            } else {
              Terminate(false);
            }
        }
      }
    }
  }

  class SellSession {
    const fs: NaiveFS
    const keys: seq<Key>

    constructor (fs: NaiveFS, keys: seq<Key>)
      ensures this.fs == fs && this.keys == keys
    {
      this.fs, this.keys := fs, keys;
    }

    /** `Start` up to the send: the pack, or `None` where `Get` panics. */
    method Start() returns (pack: Option<DataPack>)
      ensures pack == Sale(fs.db, keys)
    {
      var datas: seq<Bytes> := [];
      for i := 0 to |keys|
        invariant Elems(keys[..i]) <= fs.db.Keys && |datas| == i
        invariant forall j | 0 <= j < i :: keys[j] in fs.db && datas[j] == fs.db[keys[j]]
      {
        assert keys[..i + 1] == keys[..i] + [keys[i]];
        var data := fs.Get(keys[i]);
        if data == None {
          assert keys[i] in Elems(keys);
          return None;
        }
        datas := datas + [data.value];
      }
      assert keys[..|keys|] == keys;
      assert datas == PackOf(fs.db, keys).Data;
      pack := Some(DataPack(keys, datas));
    }
  }

  class ShareRecvSession {
    const fs: NaiveFS
    const hash: HashVal
    const sender: NodeID
    var results: seq<(bool, seq<Key>)>

    constructor (fs: NaiveFS, hash: HashVal, sender: NodeID)
      ensures this.fs == fs && this.hash == hash && this.sender == sender && results == []
    {
      this.fs, this.hash, this.sender, results := fs, hash, sender, [];
    }

    /** The loop that joins the data of the pack. */
    method JoinPack(pack: DataPack) returns (ok: bool, tot: Bytes)
      ensures ok <==> |pack.Keys| <= |pack.Data|
      ensures ok ==> tot == Join(pack.Data[..|pack.Keys|])
    {
      tot := [];
      for i := 0 to |pack.Keys|
        invariant i <= |pack.Data| && tot == Join(pack.Data[..i])
      {
        if i >= |pack.Data| {
          return false, tot;
        }
        JoinSnoc(pack.Data, i);
        tot := tot + pack.Data[i];
      }
      ok := true;
    }

    /** The data case of `run`; `ok` is false where the source panics, before it writes anything. */
    method OnData(pack: DataPack, H: HashFn) returns (ok: bool)
      requires results == []
      modifies this`results, fs`db, fs`fileInfoDB
      ensures ok <==> |pack.Keys| <= |pack.Data|
      ensures !ok ==> results == [] && fs.View() == old(fs.View())
      ensures ok ==>
        var good := H(Join(pack.Data[..|pack.Keys|])) == hash;
        && results == [(good, pack.Keys)]
        && fs.View() == if good then PutAll(old(fs.View()), pack, 0, sender) else old(fs.View())
    {
      var totData;
      ok, totData := JoinPack(pack);
      if !ok {
        return;
      }
      if H(totData) == hash {
        ghost var s := fs.View();
        for i := 0 to |pack.Keys|
          invariant results == []
          invariant PutAll(fs.View(), pack, i, sender) == PutAll(s, pack, 0, sender)
        {
          fs.SetWithInfo(pack.Keys[i], pack.Data[i], FileInfo(sender, {}));
        }
        results := [(true, pack.Keys)];
      } else {
        results := [(false, pack.Keys)];
      }
    }
  }
}
