/** Loading a file under another AS map or bucket count: what any well-formed file gives, and that the
    limits on the number of entries hold of every consistent manager. */
module AddrManRebucket {
  import opened AddrManSpec
  import opened AddrManFile

  // ----- Well-formed files -----

  function NetOf(r: Record): NetAddr {
    r.addr.service.net
  }

  ghost predicate NetsApart(recs: seq<Record>) {
    forall i, j :: 0 <= i < j < |recs| ==> NetOf(recs[i]) != NetOf(recs[j])
  }

  /** No address twice, and success times as a manager has them. */
  ghost predicate FileOk(f: File) {
    && NetsApart(f.news + f.tried)
    && (forall i :: 0 <= i < |f.news| ==> f.news[i].lastSuccess >= 0)
    && (forall i :: 0 <= i < |f.tried| ==> f.tried[i].lastSuccess > 0)
  }

  /** Every entry is one of the records. */
  ghost predicate From(t: State, recs: seq<Record>) {
    forall id :: id in t.info ==> IsOne(t.info[id], recs)
  }

  ghost predicate IsOne(i: Info, recs: seq<Record>) {
    exists j :: 0 <= j < |recs| && Saved(i) == recs[j]
  }

  lemma FromMore(t: State, recs: seq<Record>, r: Record)
    requires From(t, recs)
    ensures From(t, recs + [r])
  {
    forall id | id in t.info
      ensures IsOne(t.info[id], recs + [r])
    {
      var j :| 0 <= j < |recs| && Saved(t.info[id]) == recs[j];
      assert (recs + [r])[j] == recs[j];
    }
  }

  lemma FromEntry(t: State, recs: seq<Record>, r: Record, tried: bool)
    requires From(t, recs)
    ensures From(AddEntry(t, Restored(r, tried)), recs + [r])
  {
    FromMore(t, recs, r);
    assert (recs + [r])[|recs|] == r;
    var u := AddEntry(t, Restored(r, tried));
    forall id | id in u.info
      ensures IsOne(u.info[id], recs + [r])
    {
      if id != t.idCount {
        assert id in t.info;
      }
    }
  }

  /** An address that no record loaded so far has is not known yet. */
  lemma NotLoaded(t: State, recs: seq<Record>, a: NetAddr)
    requires Indexed(t.idCount, t.info, t.addrs) && From(t, recs) && forall j :: 0 <= j < |recs| ==> NetOf(recs[j]) != a
    ensures a !in t.addrs
  {
    forall id | id in t.info
      ensures t.info[id].Net() != a
    {
      var j :| 0 <= j < |recs| && Saved(t.info[id]) == recs[j];
      assert NetOf(recs[j]) == t.info[id].Net();
    }
  }

  // ----- Loading -----

  ghost predicate Fresh(t: State) {
    t.news == map[] && t.collisions == {} && t.idCount >= 0
  }

  /** From a number on, the ids of the new records are untried entries without references. */
  ghost predicate Bare(t: State, from: int, recs: seq<Record>) {
    forall j :: from <= j < |recs| && 0 <= j ==> j in t.info && !t.info[j].inTried && t.info[j].refCount == 0
  }

  /** The new records have the first ids. */
  ghost predicate Lined(t: State, recs: seq<Record>) {
    forall j :: 0 <= j < |recs| ==> j in t.info && Saved(t.info[j]) == recs[j]
  }

  lemma {:induction false} LoadsNew(h: Hashes, recs: seq<Record>)
    requires NetsApart(recs) && forall i :: 0 <= i < |recs| ==> recs[i].lastSuccess >= 0
    ensures var t := LoadNew(recs);
      && Core(h, t, {}, Range(0, |recs|)) && From(t, recs) && Fresh(t) && t.idCount == |recs|
      && Bare(t, 0, recs) && Lined(t, recs)
    decreases |recs|
  {
    hide Indexed, Ordered, TriedOk, NewOk, RefsOk, CountsOk, TimesOk, From, NetsApart, Bare, Lined;
    if recs == [] {
      NothingLoaded(h, EMPTY);
      NoneBare(EMPTY);
    } else {
      var n := |recs| - 1;
      var front, r := recs[..n], recs[n];
      ApartFront(recs);
      LoadsNew(h, front);
      var t := LoadNew(front);
      NotLoaded(t, front, NetOf(r));
      AddNewCore(h, t, r, Range(0, n));
      FromEntry(t, front, r, false);
      assert front + [r] == recs;
      FromSame(AddEntry(t, Restored(r, false)), LoadNew(recs), recs);
      RangeEnd(0, n);
      BareNext(t, LoadNew(recs), recs);
    }
  }

  lemma NoneBare(t: State)
    requires t.info == map[]
    ensures From(t, []) && Bare(t, 0, []) && Lined(t, [])
  {
  }

  lemma ApartFront(recs: seq<Record>)
    requires NetsApart(recs) && recs != []
    ensures var n := |recs| - 1;
      NetsApart(recs[..n]) && forall j :: 0 <= j < n ==> NetOf(recs[..n][j]) != NetOf(recs[n])
  {
  }

  lemma FromSame(t: State, u: State, recs: seq<Record>)
    requires From(t, recs) && u.info == t.info
    ensures From(u, recs)
  {
  }

  lemma BareNext(t: State, u: State, recs: seq<Record>)
    requires recs != [] && Bare(t, 0, recs[..|recs| - 1]) && Lined(t, recs[..|recs| - 1])
    requires u.info == t.info[|recs| - 1 := Restored(recs[|recs| - 1], false)]
    ensures Bare(u, 0, recs) && Lined(u, recs)
  {
    var n := |recs| - 1;
    forall j | 0 <= j < |recs|
      ensures j in u.info && !u.info[j].inTried && u.info[j].refCount == 0 && Saved(u.info[j]) == recs[j]
    {
      if j < n {
        assert j in t.info && Saved(t.info[j]) == recs[..n][j];
      }
    }
  }

  /** Every tried record's slot is taken, by it or by an earlier one. */
  ghost predicate Taken(h: Hashes, t: State, recs: seq<Record>) {
    forall j :: 0 <= j < |recs| ==> TriedSlot(h, recs[j].addr.service) in t.tried
  }

  lemma {:induction false} LoadsTried(h: Hashes, t0: State, news: seq<Record>, recs: seq<Record>, zero: set<int>)
    requires Core(h, t0, {}, zero) && From(t0, news) && Fresh(t0) && t0.idCount == |news| && Bare(t0, 0, news) &&
      Lined(t0, news)
    requires NetsApart(news + recs) && forall i :: 0 <= i < |recs| ==> recs[i].lastSuccess > 0
    ensures var t := LoadTried(h, t0, recs);
      && Core(h, t, {}, zero) && From(t, news + recs) && Fresh(t) && Bare(t, 0, news) && Lined(t, news)
      && |news| <= t.idCount <= |news| + |recs| && Taken(h, t, recs)
    decreases |recs|
  {
    hide Indexed, Ordered, TriedOk, NewOk, RefsOk, CountsOk, TimesOk, From, NetsApart, Bare, Lined, TriedSlot, Taken;
    if recs == [] {
      assert news + recs == news;
      NoneTaken(h, t0);
    } else {
      var n := |recs| - 1;
      var front, r := recs[..n], recs[n];
      ApartFront(news + recs);
      assert (news + recs)[..|news + recs| - 1] == news + front && (news + recs)[|news + recs| - 1] == r;
      LoadsTried(h, t0, news, front, zero);
      LoadsOneTried(h, LoadTried(h, t0, front), news, news + front, front, r, zero);
      assert news + front + [r] == news + recs && front + [r] == recs;
    }
  }

  lemma NoneTaken(h: Hashes, t: State)
    ensures Taken(h, t, [])
  {
  }

  lemma LoadsOneTried(h: Hashes, t: State, news: seq<Record>, all: seq<Record>, recs: seq<Record>, r: Record,
        zero: set<int>)
    requires Core(h, t, {}, zero) && From(t, all) && Fresh(t) && Bare(t, 0, news) && Lined(t, news) &&
      |news| <= t.idCount
    requires Taken(h, t, recs) && r.lastSuccess > 0 && forall j :: 0 <= j < |all| ==> NetOf(all[j]) != NetOf(r)
    ensures var u := AddTried(h, t, r);
      && Core(h, u, {}, zero) && From(u, all + [r]) && Fresh(u) && Bare(u, 0, news) && Lined(u, news)
      && t.idCount <= u.idCount <= t.idCount + 1 && Taken(h, u, recs + [r])
  {
    hide Indexed, Ordered, TriedOk, NewOk, RefsOk, CountsOk, TimesOk, From, TriedSlot;
    var u := AddTried(h, t, r);
    FromMore(t, all, r);
    if TriedSlot(h, r.addr.service) !in t.tried {
      NotLoaded(t, all, NetOf(r));
      AddTriedCore(h, t, r, zero);
      FromEntry(t, all, r, true);
      FromSame(AddEntry(t, Restored(r, true)), u, all + [r]);
    }
    forall j | 0 <= j < |recs + [r]|
      ensures TriedSlot(h, (recs + [r])[j].addr.service) in u.tried
    {
      if j < |recs| {
        assert TriedSlot(h, recs[j].addr.service) in t.tried;
      }
    }
  }

  // ----- References -----

  /** What linking the first `n` new entries leaves: consistent tables, the other new entries still bare. */
  ghost predicate Half(h: Hashes, t: State, news: seq<Record>, n: nat, zero: set<int>) {
    && Core(h, t, {}, zero) && Bare(t, n, news) && Lined(t, news)
  }

  /** One of two slots of every new entry linked so far is taken: a listed one, if buckets are the same, or
      the one that follows from its source. */
  ghost predicate Seated(h: Hashes, t: State, news: seq<Record>, lists: seq<seq<int>>, same: bool, n: nat) {
    forall j :: 0 <= j < n && j < |news| ==>
      || NewSlot(h, news[j].addr.service, news[j].source) in t.news
      || (same && Place(h, news[j].addr.service, LastBucket(lists, j, |lists|)) in t.news)
  }

  /** Linking changes references only. */
  ghost predicate Linking(t0: State, t: State) {
    && t.tried == t0.tried && t.collisions == t0.collisions && t.idCount == t0.idCount && t.addrs == t0.addrs
    && (forall id :: id in t.info <==> id in t0.info)
    && (forall id :: id in t.info ==> Saved(t.info[id]) == Saved(t0.info[id]))
    && (forall k :: k in t0.news ==> k in t.news)
  }

  lemma RelinksOne(h: Hashes, t: State, news: seq<Record>, n: nat, bucket: int, same: bool, zero: set<int>)
    requires Half(h, t, news, n, zero) && n < |news| && n in t.info && (same ==> 0 <= bucket < NEW_BUCKET_COUNT)
    ensures var u := Relink(h, t, n, bucket, same);
      && Half(h, u, news, n + 1, zero) && Linking(t, u)
      && (NewSlot(h, news[n].addr.service, news[n].source) in u.news
          || (same && Place(h, news[n].addr.service, bucket) in u.news))
  {
    hide Indexed, Ordered, TriedOk, NewOk, RefsOk, CountsOk, TimesOk, NewSlot;
    assert !t.info[n].inTried && t.info[n].refCount == 0 && Saved(t.info[n]) == news[n];
    var a := t.info[n].Service();
    var k, k2 := Place(h, a, bucket), NewSlot(h, a, t.info[n].source);
    if same && k !in t.news {
      OneReference(h, t, news, n, k, zero);
    } else if k2 !in t.news {
      NewSlotFits(h, a, t.info[n].source);
      OneReference(h, t, news, n, k2, zero);
    }
  }

  lemma NewSlotFits(h: Hashes, a: Service, source: NetAddr)
    ensures var k := NewSlot(h, a, source);
      0 <= k.bucket < NEW_BUCKET_COUNT && k.pos == Position(h, a, true, k.bucket)
  {
  }

  lemma OneReference(h: Hashes, t: State, news: seq<Record>, n: nat, k: Slot, zero: set<int>)
    requires Half(h, t, news, n, zero) && n < |news| && n in t.info && k !in t.news
    requires 0 <= k.bucket < NEW_BUCKET_COUNT && k.pos == Position(h, t.info[n].Service(), true, k.bucket)
    ensures var u := AddReference(t, n, k); Half(h, u, news, n + 1, zero) && Linking(t, u) && k in u.news
  {
    hide Indexed, Ordered, TriedOk, NewOk, RefsOk, CountsOk, TimesOk;
    var u := AddReference(t, n, k);
    ReferenceCore(h, t, n, k, zero);
    FewerZero(u, zero - {n}, zero);
    forall j | 0 <= j < |news|
      ensures j in u.info && Saved(u.info[j]) == news[j]
      ensures j > n ==> !u.info[j].inTried && u.info[j].refCount == 0
    {
      assert j in t.info && Saved(t.info[j]) == news[j];
      assert j > n ==> !t.info[j].inTried && t.info[j].refCount == 0;
    }
  }

  lemma {:induction false} LinksAll(h: Hashes, t0: State, news: seq<Record>, lists: seq<seq<int>>, same: bool, n: nat,
                                    zero: set<int>)
    requires Half(h, t0, news, 0, zero) && n <= |news| && HasIds(t0, n) && (same ==> |lists| == NEW_BUCKET_COUNT)
    ensures var t := LinkAll(h, t0, lists, same, n);
      Half(h, t, news, n, zero) && Linking(t0, t) && Seated(h, t, news, lists, same, n)
    decreases n
  {
    hide Half, Linking, Relink, LastBucket, NewSlot, Place;
    if n == 0 {
      LinkingNone(t0);
    } else {
      LinksAll(h, t0, news, lists, same, n - 1, zero);
      var t := LinkAll(h, t0, lists, same, n - 1);
      var b := LastBucket(lists, n - 1, |lists|);
      BucketFits(lists, n - 1, |lists|);
      assert n - 1 in t.info;
      RelinksOne(h, t, news, n - 1, b, same, zero);
      LinkingOn(t0, t, Relink(h, t, n - 1, b, same));
    }
  }

  lemma LinkingNone(t: State)
    ensures Linking(t, t)
  {
  }

  lemma LinkingOn(t0: State, t: State, u: State)
    requires Linking(t0, t) && Linking(t, u)
    ensures Linking(t0, u)
    ensures forall k :: k in t.news ==> k in u.news
  {
  }

  lemma {:induction false} BucketFits(lists: seq<seq<int>>, n: int, b: nat)
    requires b <= |lists|
    ensures 0 <= LastBucket(lists, n, b) && (b > 0 ==> LastBucket(lists, n, b) < b)
    decreases b
  {
    if b > 0 {
      BucketFits(lists, n, b - 1);
    }
  }

  // ----- Pruning -----

  /** Entries have gone, nothing else has changed. */
  ghost predicate Pruned(s: State, t: State, n: int) {
    && t.news == s.news && t.tried == s.tried && t.collisions == s.collisions && t.idCount == s.idCount
    && (forall id :: id in t.info ==> id in s.info && t.info[id] == s.info[id])
    && (forall id :: 0 <= id < n && id in t.info ==> t.info[id].inTried || t.info[id].refCount != 0)
    && (forall a :: a in t.addrs ==> a in s.addrs)
  }

  lemma {:induction false} Prunes(h: Hashes, s: State, n: nat, zero: set<int>)
    requires Core(h, s, {}, zero)
    ensures var t := Prune(s, n); Core(h, t, {}, zero) && Pruned(s, t, n)
    decreases n
  {
    hide Indexed, Ordered, TriedOk, NewOk, RefsOk, CountsOk, TimesOk, Delete;
    if n > 0 {
      Prunes(h, s, n - 1, zero);
      var t := Prune(s, n - 1);
      if n - 1 in t.info && !t.info[n - 1].inTried && t.info[n - 1].refCount == 0 {
        DeleteCore(h, t, n - 1, {}, zero);
        FewerZero(Delete(t, n - 1), zero - {n - 1}, zero);
      }
    }
  }

  lemma NoneBareLeft(h: Hashes, s: State, n: int, zero: set<int>)
    requires Core(h, s, {}, zero) && s.idCount <= n && s.collisions == {}
    requires forall id :: 0 <= id < n && id in s.info ==> s.info[id].inTried || s.info[id].refCount != 0
    ensures Consistent(h, s)
  {
    hide Ordered, TriedOk, NewOk, CountsOk, TimesOk;
    forall id | id in s.info
      ensures s.info[id].inTried || s.info[id].refCount != 0
    {
      assert 0 <= id < n;
    }
  }

  // ----- The result -----

  /** What loading any well-formed file gives, under any AS map and whether the buckets are the same or not:
      a consistent manager with entries of the file only.  A tried entry is lost only to one that takes
      its slot, a new one only if the slots it may go to are taken. */
  lemma AnyFile(h: Hashes, f: File, same: bool)
    requires FileOk(f) && (same ==> |f.lists| == NEW_BUCKET_COUNT)
    ensures var t := Unserialize(h, f, same);
      && Consistent(h, t) && From(t, f.news + f.tried) && Taken(h, t, f.tried)
      && Seated(h, t, f.news, f.lists, same, |f.news|)
  {
    hide Indexed, Ordered, TriedOk, NewOk, RefsOk, CountsOk, TimesOk, LoadNew, LoadTried, LinkAll, Prune;
    hide From, NetsApart, Bare, Lined, Taken, Seated, TriedSlot, NewSlot, Place;
    LoadNumbered(h, f, same);
    NewsApart(f.news, f.tried);
    LoadsNew(h, f.news);
    var zero := Range(0, |f.news|);
    LoadsTried(h, LoadNew(f.news), f.news, f.tried, zero);
    var t0 := Load(h, f);
    LinksAll(h, t0, f.news, f.lists, same, |f.news|, zero);
    var t := LinkAll(h, t0, f.lists, same, |f.news|);
    Prunes(h, t, |f.news| + |f.tried|, zero);
    var u := Unserialize(h, f, same);
    NoneBareLeft(h, u, |f.news| + |f.tried|, zero);
    Kept(h, f, same, t0, t, u);
  }

  lemma NewsApart(news: seq<Record>, tried: seq<Record>)
    requires NetsApart(news + tried)
    ensures NetsApart(news)
  {
    forall i, j | 0 <= i < j < |news|
      ensures NetOf(news[i]) != NetOf(news[j])
    {
      assert (news + tried)[i] == news[i] && (news + tried)[j] == news[j];
    }
  }

  lemma Kept(h: Hashes, f: File, same: bool, t0: State, t: State, u: State)
    requires From(t0, f.news + f.tried) && Taken(h, t0, f.tried)
    requires Linking(t0, t) && Seated(h, t, f.news, f.lists, same, |f.news|) && Pruned(t, u, |f.news| + |f.tried|)
    ensures From(u, f.news + f.tried) && Taken(h, u, f.tried) && Seated(h, u, f.news, f.lists, same, |f.news|)
  {
    hide TriedSlot, NewSlot, LastBucket, Place;
    var all := f.news + f.tried;
    forall id | id in u.info
      ensures IsOne(u.info[id], all)
    {
      assert id in t.info && id in t0.info && Saved(t.info[id]) == Saved(t0.info[id]);
      var j :| 0 <= j < |all| && Saved(t0.info[id]) == all[j];
      assert Saved(u.info[id]) == all[j];
    }
  }

  /** What a consistent manager writes is a well-formed file. */
  lemma SavedOk(h: Hashes, s: State)
    requires Core(h, s, {}, {})
    ensures s.idCount >= 0 && FileOk(Serialize(s)) && |Serialize(s).lists| == NEW_BUCKET_COUNT
  {
    hide Ordered, TriedOk, NewOk, RefsOk, CountsOk, Order, BucketList;
    CountExists(h, s);
    FileOrder(h, s);
    var f := Serialize(s);
    var news, tried := Order(s.info, false, s.idCount), Order(s.info, true, s.idCount);
    var ids, all := news + tried, f.news + f.tried;
    forall j | 0 <= j < |all|
      ensures Nth(ids, j) in s.info && all[j] == Saved(s.info[Nth(ids, j)])
    {
      assert Nth(ids, j) == if j < |news| then Nth(news, j) else Nth(tried, j - |news|);
    }
    forall i, j | 0 <= i < j < |all|
      ensures NetOf(all[i]) != NetOf(all[j])
    {
      assert Nth(ids, i) != Nth(ids, j);
      assert At(s.addrs, s.info[Nth(ids, i)].Net()) == Nth(ids, i);
      assert At(s.addrs, s.info[Nth(ids, j)].Net()) == Nth(ids, j);
    }
  }

  /** Saved under one AS map and loaded under another: consistent again, and no address that was not known. */
  lemma Rebucketed(h0: Hashes, h: Hashes, s: State, same: bool)
    requires Consistent(h0, s)
    ensures s.idCount >= 0
    ensures var t := Unserialize(h, Serialize(s), same);
      Consistent(h, t) && forall a :: a in t.addrs ==> a in s.addrs
  {
    hide Ordered, TriedOk, NewOk, RefsOk, CountsOk, TimesOk, Serialize, Unserialize;
    SavedOk(h0, s);
    var f := Serialize(s);
    AnyFile(h, f, same);
    var t := Unserialize(h, f, same);
    forall a | a in t.addrs
      ensures a in s.addrs
    {
      var id := At(t.addrs, a);
      assert id in t.info && t.info[id].Net() == a;
      FileKnown(h0, s, t.info[id]);
    }
  }

  lemma FileKnown(h: Hashes, s: State, i: Info)
    requires Core(h, s, {}, {}) && s.idCount >= 0 && IsOne(i, Serialize(s).news + Serialize(s).tried)
    ensures i.Net() in s.addrs
  {
    hide Ordered, TriedOk, NewOk, RefsOk, CountsOk, TimesOk, Order, BucketList;
    FileOrder(h, s);
    var f := Serialize(s);
    var news, tried := Order(s.info, false, s.idCount), Order(s.info, true, s.idCount);
    var j :| 0 <= j < |f.news + f.tried| && Saved(i) == (f.news + f.tried)[j];
    var id := if j < |news| then Nth(news, j) else Nth(tried, j - |news|);
    assert id in s.info && Saved(i) == Saved(s.info[id]);
  }

  // ----- Repeated addresses -----

  /** The entries with the first ids are the new records. */
  ghost predicate Holds(t: State, recs: seq<Record>) {
    forall j :: 0 <= j < |recs| ==> j in t.info && Saved(t.info[j]) == recs[j] && !t.info[j].inTried
  }

  lemma {:induction false} LoadNewHolds(recs: seq<Record>)
    ensures Holds(LoadNew(recs), recs) && LoadNew(recs).idCount == |recs|
    decreases |recs|
  {
    if recs != [] {
      LoadNewHolds(recs[..|recs| - 1]);
    }
  }

  lemma {:induction false} LoadTriedHolds(h: Hashes, s: State, recs: seq<Record>, news: seq<Record>)
    requires Holds(s, news) && s.idCount >= |news|
    ensures Holds(LoadTried(h, s, recs), news) && LoadTried(h, s, recs).idCount >= |news|
    decreases |recs|
  {
    hide TriedSlot;
    if recs != [] {
      LoadTriedHolds(h, s, recs[..|recs| - 1], news);
    }
  }

  /** Linking keeps the records, and the first entry always gets a reference. */
  lemma {:induction false} LinkHolds(h: Hashes, s: State, lists: seq<seq<int>>, same: bool, n: nat, news: seq<Record>)
    requires HasIds(s, n) && Holds(s, news) && n <= |news|
    requires s.news == map[] && (n > 0 ==> s.info[0].refCount == 0)
    ensures var t := LinkAll(h, s, lists, same, n); Holds(t, news) && (n > 0 ==> t.info[0].refCount == 1)
    decreases n
  {
    hide LastBucket, Relink, Holds;
    if n > 0 {
      LinkHolds(h, s, lists, same, n - 1, news);
      RelinkHolds(h, LinkAll(h, s, lists, same, n - 1), n - 1, LastBucket(lists, n - 1, |lists|), same, news);
    }
  }

  lemma RelinkHolds(h: Hashes, t: State, m: nat, bucket: int, same: bool, news: seq<Record>)
    requires m < |news| && Holds(t, news)
    ensures m in t.info && Holds(Relink(h, t, m, bucket, same), news)
    ensures m > 0 ==> Relink(h, t, m, bucket, same).info[0] == t.info[0]
    ensures m == 0 && t.news == map[] && t.info[0].refCount == 0 ==>
      Relink(h, t, m, bucket, same).info[0].refCount == 1
  {
    hide Position, NewSlot;
  }

  /** An entry that is pruned takes its address out of the index. */
  lemma {:induction false} PrunedGone(s: State, n: nat, id: int)
    requires Ordered(s.info.Keys, s.random, s.pos) && id in s.info
    ensures var t := Prune(s, n);
      && (id in t.info ==> t.info[id] == s.info[id]) && (id !in t.info ==> s.info[id].Net() !in t.addrs)
      && (s.info[id].refCount != 0 ==> id in t.info)
    decreases n
  {
    hide Ordered;
    if n > 0 {
      PrunedGone(s, n - 1, id);
    }
  }

  lemma LinkedHolds(h: Hashes, f: File, same: bool)
    ensures HasIds(Load(h, f), |f.news|)
    ensures var u := LinkAll(h, Load(h, f), f.lists, same, |f.news|);
      Holds(u, f.news) && (f.news != [] ==> u.info[0].refCount == 1)
  {
    hide LinkAll, LoadNew, LoadTried, Holds, Ordered;
    LoadNumbered(h, f, same);
    LoadNewHolds(f.news);
    LoadTriedHolds(h, LoadNew(f.news), f.tried, f.news);
    LoadBare(h, f);
    LinkHolds(h, Load(h, f), f.lists, same, |f.news|, f.news);
  }

  lemma LoadBare(h: Hashes, f: File)
    ensures Load(h, f).news == map[] && forall id :: id in Load(h, f).info ==> Load(h, f).info[id].refCount == 0
  {
    LoadNewBare(f.news);
    LoadTriedBare(h, LoadNew(f.news), f.tried);
  }

  lemma {:induction false} LoadNewBare(recs: seq<Record>)
    ensures LoadNew(recs).news == map[]
    ensures forall id :: id in LoadNew(recs).info ==> LoadNew(recs).info[id].refCount == 0
    decreases |recs|
  {
    if recs != [] {
      LoadNewBare(recs[..|recs| - 1]);
    }
  }

  lemma {:induction false} LoadTriedBare(h: Hashes, s: State, recs: seq<Record>)
    requires s.news == map[] && forall id :: id in s.info ==> s.info[id].refCount == 0
    ensures var t := LoadTried(h, s, recs); t.news == map[] && forall id :: id in t.info ==> t.info[id].refCount == 0
    decreases |recs|
  {
    hide TriedSlot;
    if recs != [] {
      LoadTriedBare(h, s, recs[..|recs| - 1]);
    }
  }

  /** Any file, any key, any AS map: if the result is consistent, an address that two new records share
      is not in it, under either. */
  lemma Repeated(h: Hashes, f: File, same: bool, i: nat, j: nat)
    requires i < |f.news| && j < |f.news| && i != j && NetOf(f.news[i]) == NetOf(f.news[j])
    requires Consistent(h, Unserialize(h, f, same))
    ensures i !in Unserialize(h, f, same).info && j !in Unserialize(h, f, same).info
  {
    LinkedHolds(h, f, same);
    LoadNumbered(h, f, same);
    hide LinkAll, Load, Ordered, TriedOk, NewOk, RefsOk, CountsOk, TimesOk, CollisionsOk, Prune;
    var u, n := LinkAll(h, Load(h, f), f.lists, same, |f.news|), |f.news| + |f.tried|;
    assert u.info[i].Net() == u.info[j].Net();
    PrunedGone(u, n, i);
    PrunedGone(u, n, j);
  }

  /** A file that has the address of its first new record twice is never loaded consistently. */
  lemma FirstRepeated(h: Hashes, f: File, same: bool, j: nat)
    requires 0 < j < |f.news| && NetOf(f.news[0]) == NetOf(f.news[j])
    ensures !Consistent(h, Unserialize(h, f, same))
  {
    LinkedHolds(h, f, same);
    LoadNumbered(h, f, same);
    hide LinkAll, Load, Ordered, Consistent, Prune;
    PrunedGone(LinkAll(h, Load(h, f), f.lists, same, |f.news|), |f.news| + |f.tried|, 0);
    if Consistent(h, Unserialize(h, f, same)) {
      Repeated(h, f, same, 0, j);
    }
  }

  // ----- The limits that loading checks -----

  /** More entries than there are slots: the loader throws. */
  predicate TooLarge(f: File) {
    |f.news| > NEW_BUCKET_COUNT * BUCKET_SIZE || |f.tried| > TRIED_BUCKET_COUNT * BUCKET_SIZE
  }

  ghost function Row(b: int, n: nat): set<Slot> {
    if n == 0 then {} else Row(b, n - 1) + {Slot(b, n - 1)}
  }

  ghost function Grid(b: nat, n: nat): set<Slot> {
    if b == 0 then {} else Grid(b - 1, n) + Row(b - 1, n)
  }

  lemma {:induction false} RowIs(b: int, n: nat)
    ensures |Row(b, n)| == n && forall k :: k in Row(b, n) <==> k.bucket == b && 0 <= k.pos < n
    decreases n
  {
    if n > 0 {
      RowIs(b, n - 1);
    }
  }

  lemma {:induction false} GridIs(b: nat, n: nat)
    ensures |Grid(b, n)| == b * n && forall k :: k in Grid(b, n) <==> 0 <= k.bucket < b && 0 <= k.pos < n
    decreases b
  {
    hide Row;
    if b > 0 {
      GridIs(b - 1, n);
      RowIs(b - 1, n);
      OneRowMore(b, n);
      assert Grid(b - 1, n) !! Row(b - 1, n);
    }
  }

  lemma OneRowMore(b: int, n: int)
    ensures b * n == (b - 1) * n + n
  {
  }

  /** Slots in range are not more than rows times columns. */
  lemma KeysFit(keys: set<Slot>, b: nat, n: nat)
    requires forall k :: k in keys ==> 0 <= k.bucket < b && 0 <= k.pos < n
    ensures |keys| <= b * n
  {
    hide Grid;
    GridIs(b, n);
    Smaller(keys, Grid(b, n));
  }

  lemma {:induction false} Smaller(a: set<Slot>, b: set<Slot>)
    requires a <= b
    ensures |a| <= |b|
    decreases |a|
  {
    if a != {} {
      var k :| k in a;
      Smaller(a - {k}, b - {k});
    }
  }

  /** Ids that all occur in a table are not more than its slots. */
  lemma {:induction false} NoMore(ids: set<int>, table: map<Slot, int>, slots: set<Slot>)
    requires forall id :: id in ids ==> exists k :: k in slots && HoldsAt(table, k, id)
    ensures |ids| <= |slots|
    decreases |slots|
  {
    if slots == {} {
      assert forall id :: id !in ids;
      assert ids == {};
    } else {
      var k :| k in slots;
      var rest := if k in table then ids - {At(table, k)} else ids;
      forall id | id in rest
        ensures exists x :: x in slots - {k} && HoldsAt(table, x, id)
      {
        var x :| x in slots && HoldsAt(table, x, id);
        assert x != k;
      }
      NoMore(rest, table, slots - {k});
      assert |ids| <= |rest| + 1;
    }
  }

  /** A consistent manager has no more entries than slots, so what it writes is never refused. */
  lemma NeverTooLarge(h: Hashes, s: State)
    requires Core(h, s, {}, {})
    ensures s.nNew <= NEW_BUCKET_COUNT * BUCKET_SIZE && s.nTried <= TRIED_BUCKET_COUNT * BUCKET_SIZE
    ensures s.idCount >= 0 && !TooLarge(Serialize(s))
  {
    hide Indexed, Ordered, TriedOk, NewOk, RefsOk, CountsOk, TimesOk, Serialize;
    CountExists(h, s);
    CountersRight(h, s);
    TriedFit(h, s);
    NewFit(h, s);
    FileCounts(h, s);
  }

  lemma FileCounts(h: Hashes, s: State)
    requires Core(h, s, {}, {}) && s.idCount >= 0
    ensures |Serialize(s).news| == s.nNew && |Serialize(s).tried| == s.nTried
  {
    hide Indexed, Ordered, TriedOk, NewOk, RefsOk, CountsOk, TimesOk, Order;
    CountersRight(h, s);
  }

  lemma TriedFit(h: Hashes, s: State)
    requires Core(h, s, {}, {})
    ensures s.nTried <= TRIED_BUCKET_COUNT * BUCKET_SIZE
  {
    hide Indexed, Ordered, NewOk, RefsOk, TimesOk;
    KeysFit(s.tried.Keys, TRIED_BUCKET_COUNT, BUCKET_SIZE);
    forall id | id in TriedIds(s.info)
      ensures exists k :: k in s.tried.Keys && HoldsAt(s.tried, k, id)
    {
      assert HoldsAt(s.tried, TriedSlot(h, s.info[id].Service()), id);
    }
    NoMore(TriedIds(s.info), s.tried, s.tried.Keys);
  }

  lemma NewFit(h: Hashes, s: State)
    requires Core(h, s, {}, {})
    ensures s.nNew <= NEW_BUCKET_COUNT * BUCKET_SIZE
  {
    hide Indexed, Ordered, TriedOk, TimesOk;
    KeysFit(s.news.Keys, NEW_BUCKET_COUNT, BUCKET_SIZE);
    forall id | id in NewIds(s.info)
      ensures exists k :: k in s.news.Keys && HoldsAt(s.news, k, id)
    {
      assert s.info[id].refCount != 0;
      var k := SomeRef(s, id);
      assert HoldsAt(s.news, k, id);
    }
    NoMore(NewIds(s.info), s.news, s.news.Keys);
    assert NewIds(s.info) - {} == NewIds(s.info);
  }
}
