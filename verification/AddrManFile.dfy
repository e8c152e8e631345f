/** Saving the address manager to a file and loading it again, with the same key and AS map. */
module AddrManFile {
  import opened AddrManSpec

  /** What is written of an entry. */
  datatype Record = Record(addr: Address, source: NetAddr, lastSuccess: int, attempts: int)

  /** New entries, tried entries, and for each new bucket the indices of its entries. */
  datatype File = File(news: seq<Record>, tried: seq<Record>, lists: seq<seq<int>>)

  function Saved(i: Info): Record {
    Record(i.addr, i.source, i.lastSuccess, i.attempts)
  }

  function Restored(r: Record, inTried: bool): Info {
    Info(r.addr, r.source, 0, 0, r.lastSuccess, r.attempts, 0, inTried)
  }

  // ----- Saving -----

  predicate Wanted(info: Infos, id: int, tried: bool) {
    id in info && if tried then info[id].inTried else info[id].refCount != 0
  }

  /** The ids below `n` that are written, in ascending order. */
  function Order(info: Infos, tried: bool, n: nat): seq<int> {
    if n == 0 then []
    else Order(info, tried, n - 1) + if Wanted(info, n - 1, tried) then [n - 1] else []
  }

  /** An id in a list. */
  function Nth(order: seq<int>, j: int): int
    requires 0 <= j < |order|
  {
    order[j]
  }

  function IndexIn(order: seq<int>, id: int): int {
    if order == [] then -1
    else if order[|order| - 1] == id then |order| - 1
    else IndexIn(order[..|order| - 1], id)
  }

  function Records(info: Infos, order: seq<int>): (r: seq<Record>)
    requires Known(info, order)
    ensures |r| == |order|
  {
    seq(|order|, j requires 0 <= j < |order| => Saved(info[Nth(order, j)]))
  }

  predicate Known(info: Infos, order: seq<int>) {
    forall j :: 0 <= j < |order| ==> Nth(order, j) in info
  }

  /** The indices of the entries in the first `p` positions of a bucket. */
  function BucketList(news: map<Slot, int>, order: seq<int>, b: int, p: nat): seq<int> {
    if p == 0 then []
    else BucketList(news, order, b, p - 1) +
         if Slot(b, p - 1) in news then [IndexIn(order, At(news, Slot(b, p - 1)))] else []
  }

  function Serialize(s: State): File
    requires s.idCount >= 0
  {
    OrderKnown(s.info, false, s.idCount);
    OrderKnown(s.info, true, s.idCount);
    var order := Order(s.info, false, s.idCount);
    File(Records(s.info, order), Records(s.info, Order(s.info, true, s.idCount)),
         seq(NEW_BUCKET_COUNT, b => BucketList(s.news, order, b, BUCKET_SIZE)))
  }

  lemma {:induction false} OrderKnown(info: Infos, tried: bool, n: nat)
    ensures var o := Order(info, tried, n);
      && Known(info, o)
      && (forall j :: 0 <= j < |o| ==> 0 <= Nth(o, j) < n && Wanted(info, Nth(o, j), tried))
      && (forall i, j :: 0 <= i < j < |o| ==> Nth(o, i) < Nth(o, j))
    decreases n
  {
    if n > 0 {
      OrderKnown(info, tried, n - 1);
      var o, q := Order(info, tried, n), Order(info, tried, n - 1);
      assert forall j :: 0 <= j < |q| ==> Nth(o, j) == Nth(q, j);
    }
  }

  lemma {:induction false} OrderAll(info: Infos, tried: bool, n: nat, id: int)
    requires 0 <= id < n && Wanted(info, id, tried)
    ensures Has(Order(info, tried, n), id)
    decreases n
  {
    var o, q := Order(info, tried, n), Order(info, tried, n - 1);
    if id < n - 1 {
      OrderAll(info, tried, n - 1, id);
      var j :| 0 <= j < |q| && Nth(q, j) == id;
      assert Nth(o, j) == id;
    } else {
      assert o == q + [id];
      assert Nth(o, |q|) == id;
    }
  }

  ghost predicate Has(order: seq<int>, id: int) {
    exists j :: 0 <= j < |order| && Nth(order, j) == id
  }

  // ----- Loading -----

  function AddEntry(s: State, i: Info): State {
    var id := s.idCount;
    s.(idCount := id + 1, info := s.info[id := i], addrs := s.addrs[i.Net() := id],
       pos := s.pos[id := |s.random|], random := s.random + [id])
  }

  function AddNew(s: State, r: Record): State {
    AddEntry(s, Restored(r, false)).(nNew := s.nNew + 1)
  }

  /** A tried entry whose slot is taken is lost. */
  function AddTried(h: Hashes, s: State, r: Record): State {
    var k := TriedSlot(h, r.addr.service);
    if k in s.tried then s
    else AddEntry(s, Restored(r, true)).(tried := s.tried[k := s.idCount], nTried := s.nTried + 1)
  }

  function LoadNew(recs: seq<Record>): State {
    if recs == [] then EMPTY else AddNew(LoadNew(recs[..|recs| - 1]), recs[|recs| - 1])
  }

  function LoadTried(h: Hashes, s: State, recs: seq<Record>): State {
    if recs == [] then s else AddTried(h, LoadTried(h, s, recs[..|recs| - 1]), recs[|recs| - 1])
  }

  /** The last of the first `b` buckets that lists an index; zero if none does. */
  function LastBucket(lists: seq<seq<int>>, n: int, b: nat): int
    requires b <= |lists|
  {
    if b == 0 then 0 else if n in lists[b - 1] then b - 1 else LastBucket(lists, n, b - 1)
  }

  function AddReference(s: State, n: int, k: Slot): State
    requires n in s.info
  {
    s.(info := s.info[n := s.info[n].(refCount := s.info[n].refCount + 1)], news := s.news[k := n])
  }

  /** A reference where the file has one, if buckets are still the same; otherwise by the source. */
  function Relink(h: Hashes, s: State, n: int, bucket: int, same: bool): State
    requires n in s.info
  {
    var a := s.info[n].Service();
    var k, k2 := Slot(bucket, Position(h, a, true, bucket)), NewSlot(h, a, s.info[n].source);
    if same && k !in s.news && s.info[n].refCount < NEW_BUCKETS_PER_ADDRESS then AddReference(s, n, k)
    else if k2 !in s.news then AddReference(s, n, k2)
    else s
  }

  ghost predicate HasIds(s: State, n: int) {
    forall j :: 0 <= j < n ==> j in s.info
  }

  /** The first `n` new entries linked. */
  function LinkAll(h: Hashes, s: State, lists: seq<seq<int>>, same: bool, n: nat): (t: State)
    requires HasIds(s, n)
    ensures forall j :: j in t.info <==> j in s.info
  {
    if n == 0 then s
    else
      var t := LinkAll(h, s, lists, same, n - 1);
      Relink(h, t, n - 1, LastBucket(lists, n - 1, |lists|), same)
  }

  /** Entries that are neither tried nor referenced are removed. */
  function Prune(s: State, n: nat): (t: State)
    requires Ordered(s.info.Keys, s.random, s.pos)
    ensures Ordered(t.info.Keys, t.random, t.pos)
  {
    if n == 0 then s
    else
      var t := Prune(s, n - 1);
      if n - 1 in t.info && !t.info[n - 1].inTried && t.info[n - 1].refCount == 0 then
        DeleteOrdered(t, n - 1);
        Delete(t, n - 1)
      else t
  }

  function Load(h: Hashes, f: File): State {
    LoadTried(h, LoadNew(f.news), f.tried)
  }

  // ----- What loading keeps -----

  /** The loaded entries are, in this order, those of `s`. */
  ghost predicate Loaded(s: State, ids: seq<int>, t: State) {
    && t.idCount == |ids| && Known(s.info, ids)
    && (forall j :: j in t.info <==> 0 <= j < |ids|)
    && (forall j :: 0 <= j < |ids| ==> SameEntry(s.info[Nth(ids, j)], t.info[j]))
  }

  predicate SameEntry(a: Info, b: Info) {
    Saved(a) == Saved(b) && a.inTried == b.inTried
  }

  /** No id twice. */
  ghost predicate Apart(ids: seq<int>) {
    forall i, j :: 0 <= i < j < |ids| ==> Nth(ids, i) != Nth(ids, j)
  }

  lemma LoadedNext(s: State, ids: seq<int>, t: State, o: int, tried: bool)
    requires Loaded(s, ids, t) && o in s.info && s.info[o].inTried == tried
    ensures Loaded(s, ids + [o], AddEntry(t, Restored(Saved(s.info[o]), tried)))
  {
    var more, u := ids + [o], AddEntry(t, Restored(Saved(s.info[o]), tried));
    assert forall j :: 0 <= j < |ids| ==> Nth(more, j) == Nth(ids, j);
    assert Nth(more, |ids|) == o;
    forall j | 0 <= j < |more|
      ensures Nth(more, j) in s.info && SameEntry(s.info[Nth(more, j)], u.info[j])
    {
    }
  }

  /** An address not loaded yet is not known yet. */
  lemma NewAddress(h: Hashes, s: State, ids: seq<int>, t: State, o: int)
    requires Indexed(s.idCount, s.info, s.addrs) && Indexed(t.idCount, t.info, t.addrs) && Loaded(s, ids, t)
    requires o in s.info && forall j :: 0 <= j < |ids| ==> Nth(ids, j) != o
    ensures s.info[o].Net() !in t.addrs
  {
    forall j | 0 <= j < |ids|
      ensures t.info[j].Net() != s.info[o].Net()
    {
      assert SameEntry(s.info[Nth(ids, j)], t.info[j]);
      assert At(s.addrs, s.info[Nth(ids, j)].Net()) == Nth(ids, j);
      assert At(s.addrs, s.info[o].Net()) == o;
    }
  }

  /** One more new entry. */
  lemma AddNewCore(h: Hashes, t: State, r: Record, zero: set<int>)
    requires Core(h, t, {}, zero) && r.addr.service.net !in t.addrs && r.lastSuccess >= 0
    ensures Core(h, AddNew(t, r), {}, zero + {t.idCount})
  {
    hide Indexed, Ordered, TriedOk, NewOk, RefsOk, CountsOk, TimesOk;
    var i := Restored(r, false);
    AddIndexed(t, i);
    AddOrdered(t, i);
    AddTables(h, t, i);
    AddRefs(h, t, i, zero);
    AddNewCounts(t, i);
  }

  lemma AddIndexed(t: State, i: Info)
    requires Indexed(t.idCount, t.info, t.addrs) && i.Net() !in t.addrs
    ensures t.idCount !in t.info
    ensures var u := AddEntry(t, i); Indexed(u.idCount, u.info, u.addrs)
  {
    var u := AddEntry(t, i);
    forall id | id in u.info
      ensures 0 <= id < u.idCount && u.info[id].Net() in u.addrs && At(u.addrs, u.info[id].Net()) == id
    {
      if id != t.idCount {
        assert id in t.info && At(t.addrs, t.info[id].Net()) == id;
      }
    }
    forall x | x in u.addrs
      ensures At(u.addrs, x) in u.info && u.info[At(u.addrs, x)].Net() == x
    {
      if x != i.Net() {
        assert x in t.addrs && At(t.addrs, x) in t.info;
      }
    }
  }

  lemma AddOrdered(t: State, i: Info)
    requires Ordered(t.info.Keys, t.random, t.pos) && t.idCount !in t.info
    ensures var u := AddEntry(t, i); Ordered(u.info.Keys, u.random, u.pos)
  {
    var u := AddEntry(t, i);
    forall j | 0 <= j < |t.random|
      ensures t.random[j] in t.info && u.random[j] == t.random[j] && u.pos[u.random[j]] == j
    {
    }
  }

  lemma AddTables(h: Hashes, t: State, i: Info)
    requires TriedOk(h, t.info, t.tried) && NewOk(h, t.info, t.news) && TimesOk(t.info) && t.idCount !in t.info
    requires !i.inTried && i.lastSuccess >= 0 && i.lastTry >= 0
    ensures var u := AddEntry(t, i); TriedOk(h, u.info, u.tried) && NewOk(h, u.info, u.news) && TimesOk(u.info)
  {
    var u := AddEntry(t, i);
    assert forall id :: id in t.info ==> id in u.info && u.info[id] == t.info[id];
    assert forall id :: id in u.info && u.info[id].inTried ==> id in t.info;
  }

  lemma AddRefs(h: Hashes, t: State, i: Info, zero: set<int>)
    requires NewOk(h, t.info, t.news) && RefsOk(t.info, t.news, zero) && t.idCount !in t.info && i.refCount == 0
    ensures var u := AddEntry(t, i); RefsOk(u.info, u.news, zero + {t.idCount})
  {
    forall k | k in t.news
      ensures At(t.news, k) != t.idCount
    {
    }
    assert Refs(t.news, t.idCount) == {};
  }

  lemma AddNewCounts(t: State, i: Info)
    requires CountsOk(t.info, t.nTried, t.nNew, {}) && t.idCount !in t.info && !i.inTried
    ensures var u := AddEntry(t, i); CountsOk(u.info, t.nTried, t.nNew + 1, {})
  {
    var u := AddEntry(t, i);
    MoreIds(t.info, t.idCount, i);
    assert NewIds(u.info) - {} == NewIds(u.info) && NewIds(t.info) - {} == NewIds(t.info);
  }

  lemma MoreIds(info: Infos, id: int, i: Info)
    requires id !in info
    ensures TriedIds(info[id := i]) == TriedIds(info) + if i.inTried then {id} else {}
    ensures NewIds(info[id := i]) == NewIds(info) + if i.inTried then {} else {id}
  {
  }

  /** One more tried entry, with a slot of its own. */
  lemma AddTriedCore(h: Hashes, t: State, r: Record, zero: set<int>)
    requires Core(h, t, {}, zero) && r.addr.service.net !in t.addrs && r.lastSuccess > 0
    requires TriedSlot(h, r.addr.service) !in t.tried
    ensures Core(h, AddTried(h, t, r), {}, zero)
  {
    hide Indexed, Ordered, TriedOk, NewOk, RefsOk, CountsOk, TimesOk;
    var i := Restored(r, true);
    AddIndexed(t, i);
    AddOrdered(t, i);
    TriedTables(h, t, i);
    TriedRefs(h, t, i, zero);
    TriedCounts(t, i);
  }

  lemma TriedTables(h: Hashes, t: State, i: Info)
    requires TriedOk(h, t.info, t.tried) && NewOk(h, t.info, t.news) && TimesOk(t.info) && t.idCount !in t.info
    requires i.inTried && i.lastSuccess > 0 && i.lastTry >= 0 && TriedSlot(h, i.Service()) !in t.tried
    ensures var u := AddEntry(t, i);
      TriedOk(h, u.info, t.tried[TriedSlot(h, i.Service()) := t.idCount]) && NewOk(h, u.info, u.news) && TimesOk(u.info)
  {
    var u := AddEntry(t, i);
    var k := TriedSlot(h, i.Service());
    assert forall id :: id in t.info ==> id in u.info && u.info[id] == t.info[id];
    forall x | x in u.info && u.info[x].inTried
      ensures var y := TriedSlot(h, u.info[x].Service());
        y in t.tried[k := t.idCount] && At(t.tried[k := t.idCount], y) == x
    {
      if x != t.idCount {
        assert TriedSlot(h, t.info[x].Service()) in t.tried;
      }
    }
  }

  lemma TriedRefs(h: Hashes, t: State, i: Info, zero: set<int>)
    requires NewOk(h, t.info, t.news) && RefsOk(t.info, t.news, zero) && t.idCount !in t.info && i.refCount == 0 &&
      i.inTried
    ensures var u := AddEntry(t, i); RefsOk(u.info, u.news, zero)
  {
    forall k | k in t.news
      ensures At(t.news, k) != t.idCount
    {
    }
    assert Refs(t.news, t.idCount) == {};
  }

  lemma TriedCounts(t: State, i: Info)
    requires CountsOk(t.info, t.nTried, t.nNew, {}) && t.idCount !in t.info && i.inTried
    ensures var u := AddEntry(t, i); CountsOk(u.info, t.nTried + 1, t.nNew, {})
  {
    var u := AddEntry(t, i);
    MoreIds(t.info, t.idCount, i);
    assert NewIds(u.info) - {} == NewIds(u.info) && NewIds(t.info) - {} == NewIds(t.info);
  }

  /** A reference into an empty slot. */
  lemma ReferenceCore(h: Hashes, t: State, n: int, k: Slot, zero: set<int>)
    requires Core(h, t, {}, zero) && n in t.info && !t.info[n].inTried && k !in t.news
    requires 0 <= k.bucket < NEW_BUCKET_COUNT && k.pos == Position(h, t.info[n].Service(), true, k.bucket)
    requires t.info[n].refCount < NEW_BUCKETS_PER_ADDRESS
    ensures Core(h, AddReference(t, n, k), {}, zero - {n})
  {
    hide Indexed, Ordered, TriedOk, NewOk, RefsOk, CountsOk, TimesOk, SameShape;
    var u := AddReference(t, n, k);
    ReferenceShape(t, n, k);
    ReferenceNew(h, t, n, k);
    ReferenceRefs(t, n, k, zero);
    ShapeCounts(t.info, u.info, t.nTried, t.nNew, {});
    ShapeIds(t.info, u.info);
    ShapeIndexed(t.idCount, t.info, u.info, t.addrs);
    ShapeTried(h, t.info, u.info, t.tried);
  }

  lemma ReferenceShape(t: State, n: int, k: Slot)
    requires n in t.info && TimesOk(t.info)
    ensures var u := AddReference(t, n, k); SameShape(t.info, u.info) && TimesOk(u.info)
  {
  }

  lemma ReferenceNew(h: Hashes, t: State, n: int, k: Slot)
    requires NewOk(h, t.info, t.news) && n in t.info && !t.info[n].inTried
    requires 0 <= k.bucket < NEW_BUCKET_COUNT && k.pos == Position(h, t.info[n].Service(), true, k.bucket)
    ensures var u := AddReference(t, n, k); NewOk(h, u.info, u.news)
  {
    var u := AddReference(t, n, k);
    forall x | x in u.news
      ensures 0 <= x.bucket < NEW_BUCKET_COUNT && At(u.news, x) in u.info && !u.info[At(u.news, x)].inTried
      ensures x.pos == Position(h, u.info[At(u.news, x)].Service(), true, x.bucket)
    {
      if x != k {
        assert x in t.news && At(t.news, x) == At(u.news, x);
      }
    }
  }

  lemma ReferenceRefs(t: State, n: int, k: Slot, zero: set<int>)
    requires RefsOk(t.info, t.news, zero) && k !in t.news
    requires n in t.info && t.info[n].refCount < NEW_BUCKETS_PER_ADDRESS
    ensures var u := AddReference(t, n, k); RefsOk(u.info, u.news, zero - {n})
  {
    var u := AddReference(t, n, k);
    forall o | o in u.info
      ensures u.info[o].refCount == |Refs(u.news, o)| <= NEW_BUCKETS_PER_ADDRESS
      ensures u.info[o].refCount == 0 ==> u.info[o].inTried || o in zero - {n}
    {
      RefsWith(t.news, k, n, o);
      assert o in t.info && t.info[o].refCount == |Refs(t.news, o)|;
    }
  }

  lemma RefsWith(news: map<Slot, int>, k: Slot, n: int, o: int)
    requires k !in news
    ensures Refs(news[k := n], o) == if o == n then Refs(news, o) + {k} else Refs(news, o)
    ensures k !in Refs(news, o)
  {
  }

  // ----- Loading what was saved -----

  /** The next `n` ids from one on. */
  ghost function Range(from: int, n: nat): set<int>
    decreases n
  {
    if n == 0 then {} else {from} + Range(from + 1, n - 1)
  }

  lemma {:induction false} RangeEnd(from: int, n: nat)
    ensures Range(from, n) + {from + n} == Range(from, n + 1)
    decreases n
  {
    if n > 0 {
      RangeEnd(from + 1, n - 1);
    }
  }

  lemma {:induction false} RangeStart(from: int, n: nat)
    requires n > 0
    ensures Range(from, n) - {from} == Range(from + 1, n - 1)
  {
    RangeAbove(from + 1, n - 1, from);
  }

  lemma {:induction false} RangeAbove(from: int, n: nat, j: int)
    requires j < from
    ensures j !in Range(from, n)
    decreases n
  {
    if n > 0 {
      RangeAbove(from + 1, n - 1, j);
    }
  }

  /** Untouched by loading: no references, no collisions, the initial time. */
  ghost predicate Unlinked(t: State) {
    t.news == map[] && t.collisions == {} && t.lastGood == 1
  }

  lemma RecordsFront(info: Infos, ids: seq<int>)
    requires Known(info, ids) && ids != []
    ensures var n := |ids| - 1;
      && Known(info, ids[..n]) && Nth(ids, n) in info
      && Records(info, ids)[..n] == Records(info, ids[..n]) && Records(info, ids)[n] == Saved(info[Nth(ids, n)])
  {
    var n := |ids| - 1;
    assert forall j :: 0 <= j < n ==> Nth(ids[..n], j) == Nth(ids, j);
  }

  lemma Fronts(ids: seq<int>)
    requires Apart(ids) && ids != []
    ensures var n := |ids| - 1;
      && Apart(ids[..n]) && ids == ids[..n] + [Nth(ids, n)]
      && forall j :: 0 <= j < n ==> Nth(ids[..n], j) == Nth(ids, j) != Nth(ids, n)
  {
    var n := |ids| - 1;
    assert forall j :: 0 <= j < n ==> Nth(ids[..n], j) == Nth(ids, j);
  }

  lemma {:induction false} LoadNewIs(h: Hashes, s: State, ids: seq<int>)
    requires Core(h, s, {}, {}) && Known(s.info, ids) && Apart(ids)
    requires forall j :: 0 <= j < |ids| ==> !s.info[Nth(ids, j)].inTried
    ensures var t := LoadNew(Records(s.info, ids));
      && Core(h, t, {}, Range(0, |ids|)) && Loaded(s, ids, t) && Unlinked(t) && t.tried == map[]
      && t.nNew == |ids| && t.nTried == 0
    decreases |ids|
  {
    hide Indexed, Ordered, TriedOk, NewOk, RefsOk, CountsOk, TimesOk;
    if ids == [] {
      NothingLoaded(h, s);
    } else {
      var n := |ids| - 1;
      var o, front := Nth(ids, n), ids[..n];
      RecordsFront(s.info, ids);
      Fronts(ids);
      LoadNewIs(h, s, front);
      var t := LoadNew(Records(s.info, front));
      NewAddress(h, s, front, t, o);
      PastTimes(s.info, o);
      AddNewCore(h, t, Saved(s.info[o]), Range(0, n));
      LoadedNext(s, front, t, o, false);
      RangeEnd(0, n);
    }
  }

  lemma NothingLoaded(h: Hashes, s: State)
    ensures Core(h, EMPTY, {}, Range(0, 0)) && Loaded(s, [], EMPTY) && LoadNew([]) == EMPTY
    ensures Records(s.info, []) == []
  {
    assert Range(0, 0) == {};
    assert TriedIds(EMPTY.info) == {} && NewIds(EMPTY.info) == {};
  }

  lemma PastTimes(info: Infos, o: int)
    requires TimesOk(info) && o in info
    ensures info[o].lastSuccess >= 0 && (info[o].inTried ==> info[o].lastSuccess > 0)
  {
  }

  /** A tried entry not loaded yet has its slot for itself. */
  lemma SlotFree(h: Hashes, s: State, ids: seq<int>, t: State, o: int)
    requires TriedOk(h, s.info, s.tried) && TriedOk(h, t.info, t.tried) && Loaded(s, ids, t)
    requires o in s.info && s.info[o].inTried && forall j :: 0 <= j < |ids| ==> Nth(ids, j) != o
    ensures TriedSlot(h, s.info[o].Service()) !in t.tried
  {
    forall k | k in t.tried
      ensures k != TriedSlot(h, s.info[o].Service())
    {
      var j := At(t.tried, k);
      assert j in t.info && t.info[j].inTried && k == TriedSlot(h, t.info[j].Service());
      assert SameEntry(s.info[Nth(ids, j)], t.info[j]);
      assert At(s.tried, TriedSlot(h, s.info[Nth(ids, j)].Service())) == Nth(ids, j);
      assert At(s.tried, TriedSlot(h, s.info[o].Service())) == o;
    }
  }

  lemma LoadTriedStep(h: Hashes, s: State, ids: seq<int>, t: State, o: int, zero: set<int>)
    requires Core(h, s, {}, {}) && Core(h, t, {}, zero) && Loaded(s, ids, t) && Unlinked(t)
    requires o in s.info && s.info[o].inTried && forall j :: 0 <= j < |ids| ==> Nth(ids, j) != o
    ensures var u := AddTried(h, t, Saved(s.info[o]));
      Core(h, u, {}, zero) && Loaded(s, ids + [o], u) && Unlinked(u) && u.nNew == t.nNew && u.nTried == t.nTried + 1
  {
    hide Indexed, Ordered, TriedOk, NewOk, RefsOk, CountsOk, TimesOk, Loaded;
    NewAddress(h, s, ids, t, o);
    SlotFree(h, s, ids, t, o);
    PastTimes(s.info, o);
    AddTriedCore(h, t, Saved(s.info[o]), zero);
    LoadedNext(s, ids, t, o, true);
    LoadedSame(s, ids + [o], AddEntry(t, Restored(Saved(s.info[o]), true)), AddTried(h, t, Saved(s.info[o])));
  }

  lemma LoadedSame(s: State, ids: seq<int>, t: State, u: State)
    requires Loaded(s, ids, t) && u.info == t.info && u.idCount == t.idCount
    ensures Loaded(s, ids, u)
  {
  }

  lemma {:induction false} LoadTriedIs(h: Hashes, s: State, news: seq<int>, ids: seq<int>, t0: State, zero: set<int>)
    requires Core(h, s, {}, {}) && Core(h, t0, {}, zero) && Loaded(s, news, t0) && Unlinked(t0)
    requires Known(s.info, ids) && Apart(news + ids) && forall j :: 0 <= j < |ids| ==> s.info[Nth(ids, j)].inTried
    ensures var t := LoadTried(h, t0, Records(s.info, ids));
      && Core(h, t, {}, zero) && Loaded(s, news + ids, t) && Unlinked(t)
      && t.nNew == t0.nNew && t.nTried == t0.nTried + |ids|
    decreases |ids|
  {
    hide Core, Loaded, Unlinked, AddTried, Records;
    if ids == [] {
      assert news + ids == news;
    } else {
      var n := |ids| - 1;
      var o, front := Nth(ids, n), ids[..n];
      RecordsFront(s.info, ids);
      Fronts(news + ids);
      assert (news + ids)[..|news + ids| - 1] == news + front;
      assert Nth(news + ids, |news + ids| - 1) == o;
      assert forall j :: 0 <= j < n ==> Nth(front, j) == Nth(ids, j);
      LoadTriedIs(h, s, news, front, t0, zero);
      LoadTriedStep(h, s, news + front, LoadTried(h, t0, Records(s.info, front)), o, zero);
    }
  }

  // ----- References -----

  lemma {:induction false} IndexIs(order: seq<int>, id: int)
    ensures var n := IndexIn(order, id); -1 <= n < |order| && (n >= 0 ==> Nth(order, n) == id)
    ensures Has(order, id) ==> IndexIn(order, id) >= 0
  {
    if order != [] {
      var m := |order| - 1;
      IndexIs(order[..m], id);
      assert forall j :: 0 <= j < m ==> Nth(order[..m], j) == Nth(order, j);
      if Has(order, id) && order[m] != id {
        var j :| 0 <= j < |order| && Nth(order, j) == id;
        assert Nth(order[..m], j) == id;
      }
    }
  }

  /** A bucket lists an index exactly when it holds the entry. */
  lemma {:induction false} ListHas(news: map<Slot, int>, order: seq<int>, b: int, p: nat, n: int)
    requires Apart(order) && 0 <= n < |order|
    ensures n in BucketList(news, order, b, p) <==> Holds(news, b, p, Nth(order, n))
    decreases p
  {
    if p > 0 {
      ListHas(news, order, b, p - 1, n);
      var k := Slot(b, p - 1);
      if k in news {
        IndexIs(order, At(news, k));
        assert At(news, k) == Nth(order, n) ==> Has(order, At(news, k));
      }
      HoldsNext(news, b, p - 1, Nth(order, n));
    }
  }

  ghost predicate Holds(news: map<Slot, int>, b: int, p: int, id: int) {
    exists q :: 0 <= q < p && HoldsAt(news, Slot(b, q), id)
  }

  ghost predicate HoldsAt(news: map<Slot, int>, k: Slot, id: int) {
    k in news && At(news, k) == id
  }

  lemma HoldsNext(news: map<Slot, int>, b: int, p: nat, id: int)
    ensures Holds(news, b, p + 1, id) <==> Holds(news, b, p, id) || HoldsAt(news, Slot(b, p), id)
  {
    if Holds(news, b, p, id) {
      var q :| 0 <= q < p && HoldsAt(news, Slot(b, q), id);
      assert 0 <= q < p + 1 && HoldsAt(news, Slot(b, q), id);
    }
    if HoldsAt(news, Slot(b, p), id) {
      assert 0 <= p < p + 1 && HoldsAt(news, Slot(b, p), id);
    }
  }

  lemma {:induction false} LastBucketIs(lists: seq<seq<int>>, n: int, b: nat, x: nat)
    requires x < b <= |lists| && n in lists[x]
    ensures var l := LastBucket(lists, n, b); 0 <= l < b && n in lists[l]
    decreases b
  {
    if n !in lists[b - 1] {
      LastBucketIs(lists, n, b - 1, x);
    }
  }

  /** Where the loader puts the reference of an entry: into a slot that held it. */
  function Place(h: Hashes, a: Service, bucket: int): Slot {
    Slot(bucket, Position(h, a, true, bucket))
  }

  lemma PlaceHeld(h: Hashes, s: State, order: seq<int>, lists: seq<seq<int>>, n: int)
    requires Core(h, s, {}, {}) && Known(s.info, order) && Apart(order) && 0 <= n < |order|
    requires s.info[Nth(order, n)].refCount != 0
    requires |lists| == NEW_BUCKET_COUNT
    requires forall b :: 0 <= b < |lists| ==> lists[b] == BucketList(s.news, order, b, BUCKET_SIZE)
    ensures var o := Nth(order, n); var b := LastBucket(lists, n, |lists|);
      0 <= b < NEW_BUCKET_COUNT && HoldsAt(s.news, Place(h, s.info[o].Service(), b), o)
  {
    hide Indexed, Ordered, TriedOk, CountsOk, TimesOk, LastBucket, BucketList;
    var o := Nth(order, n);
    var k := SomeRef(s, o);
    assert 0 <= k.bucket < NEW_BUCKET_COUNT && 0 <= k.pos < BUCKET_SIZE;
    assert HoldsAt(s.news, Slot(k.bucket, k.pos), o);
    ListHas(s.news, order, k.bucket, BUCKET_SIZE, n);
    LastBucketIs(lists, n, |lists|, k.bucket);
    var b := LastBucket(lists, n, |lists|);
    ListHas(s.news, order, b, BUCKET_SIZE, n);
    var q :| 0 <= q < BUCKET_SIZE && HoldsAt(s.news, Slot(b, q), o);
    assert Slot(b, q) in s.news && At(s.news, Slot(b, q)) == o;
  }

  lemma SomeRef(s: State, o: int) returns (k: Slot)
    requires RefsOk(s.info, s.news, {}) && o in s.info && s.info[o].refCount != 0
    ensures k in s.news && At(s.news, k) == o
  {
    assert |Refs(s.news, o)| != 0;
    k :| k in Refs(s.news, o);
  }

  /** References made so far are references of the saved manager. */
  ghost predicate FromOld(s: State, ids: seq<int>, news: map<Slot, int>, n: int) {
    forall k :: k in news ==> 0 <= At(news, k) < n <= |ids| && HoldsAt(s.news, k, Nth(ids, At(news, k)))
  }

  ghost predicate Linkable(h: Hashes, s: State, ids: seq<int>, lists: seq<seq<int>>, count: int) {
    && count <= |ids| && Apart(ids) && Known(s.info, ids)
    && forall n :: 0 <= n < count ==>
      && !s.info[Nth(ids, n)].inTried
      && 0 <= LastBucket(lists, n, |lists|) < NEW_BUCKET_COUNT
      && HoldsAt(s.news, Place(h, s.info[Nth(ids, n)].Service(), LastBucket(lists, n, |lists|)), Nth(ids, n))
  }

  /** The first `n` of `count` new entries have one reference each, in slots that held them. */
  ghost predicate Linked(h: Hashes, s: State, ids: seq<int>, count: nat, t0: State, t: State, n: nat) {
    && n <= count <= |ids| && Core(h, t, {}, Range(n, count - n)) && Loaded(s, ids, t) && FromOld(s, ids, t.news, n)
    && (forall j :: n <= j < count ==> j in t.info && t.info[j].refCount == 0)
    && (forall j :: 0 <= j < n ==> j in t.info && t.info[j].refCount == 1)
    && t.tried == t0.tried && t.collisions == {} && t.idCount == t0.idCount && t.nNew == t0.nNew
    && t.nTried == t0.nTried
  }

  lemma {:induction false} LinkAllIs(h: Hashes, s: State, ids: seq<int>, lists: seq<seq<int>>, count: nat, t0: State,
        n: nat)
    requires Linkable(h, s, ids, lists, count) && n <= count <= |ids| && Loaded(s, ids, t0) && Unlinked(t0)
    requires Core(h, t0, {}, Range(0, count)) && HasIds(t0, n)
    ensures Linked(h, s, ids, count, t0, LinkAll(h, t0, lists, true, n), n)
    decreases n
  {
    hide Core, Linkable, Linked, LastBucket, Relink, Loaded, Unlinked;
    if n == 0 {
      LinkStart(h, s, ids, t0, count);
    } else {
      LinkAllIs(h, s, ids, lists, count, t0, n - 1);
      LinkStep(h, s, ids, lists, count, t0, LinkAll(h, t0, lists, true, n - 1), n - 1);
    }
  }

  lemma LinkStep(h: Hashes, s: State, ids: seq<int>, lists: seq<seq<int>>, count: nat, t0: State, t: State, n: nat)
    requires Linkable(h, s, ids, lists, count) && n < count && Linked(h, s, ids, count, t0, t, n) && n in t.info
    ensures Linked(h, s, ids, count, t0, Relink(h, t, n, LastBucket(lists, n, |lists|), true), n + 1)
  {
    hide Core, Linkable, LastBucket, Relink, Loaded, FromOld;
    RelinkIs(h, s, ids, lists, count, t, n);
  }

  lemma LinkStart(h: Hashes, s: State, ids: seq<int>, t: State, count: nat)
    requires Loaded(s, ids, t) && Unlinked(t) && count <= |ids| && Core(h, t, {}, Range(0, count))
    ensures Linked(h, s, ids, count, t, t, 0)
  {
    hide Indexed, Ordered, TriedOk, NewOk, CountsOk, TimesOk;
    forall j | 0 <= j < count
      ensures j in t.info && t.info[j].refCount == 0
    {
      assert j in t.info;
      assert Refs(t.news, j) == {};
    }
  }

  lemma RelinkIs(h: Hashes, s: State, ids: seq<int>, lists: seq<seq<int>>, count: nat, t: State, n: nat)
    requires Linkable(h, s, ids, lists, count) && n < count && Loaded(s, ids, t)
    requires Core(h, t, {}, Range(n, count - n)) && FromOld(s, ids, t.news, n)
    requires n in t.info && t.info[n].refCount == 0
    ensures var k := Place(h, t.info[n].Service(), LastBucket(lists, n, |lists|));
      Relink(h, t, n, LastBucket(lists, n, |lists|), true) == AddReference(t, n, k)
    ensures var u := Relink(h, t, n, LastBucket(lists, n, |lists|), true);
      Core(h, u, {}, Range(n + 1, count - n - 1)) && Loaded(s, ids, u) && FromOld(s, ids, u.news, n + 1)
  {
    hide Indexed, Ordered, TriedOk, NewOk, RefsOk, CountsOk, TimesOk, LastBucket, Range;
    var o, b := Nth(ids, n), LastBucket(lists, n, |lists|);
    assert SameEntry(s.info[o], t.info[n]);
    var k := Place(h, t.info[n].Service(), b);
    assert HoldsAt(s.news, k, o) && !t.info[n].inTried;
    SlotUnused(s, ids, t.news, n, k);
    ReferenceCore(h, t, n, k, Range(n, count - n));
    RangeStart(n, count - n);
    ReferenceOld(s, ids, t, n, k);
  }

  /** A slot that held another entry has not been given away. */
  lemma SlotUnused(s: State, ids: seq<int>, news: map<Slot, int>, n: nat, k: Slot)
    requires FromOld(s, ids, news, n) && Apart(ids) && n < |ids| && HoldsAt(s.news, k, Nth(ids, n))
    ensures k !in news
  {
    forall x | x in news
      ensures x != k
    {
      assert HoldsAt(s.news, x, Nth(ids, At(news, x)));
      assert Nth(ids, At(news, x)) != Nth(ids, n);
    }
  }

  lemma ReferenceOld(s: State, ids: seq<int>, t: State, n: nat, k: Slot)
    requires Loaded(s, ids, t) && FromOld(s, ids, t.news, n) && n < |ids| && n in t.info
    requires HoldsAt(s.news, k, Nth(ids, n)) && k !in t.news
    ensures var u := AddReference(t, n, k); Loaded(s, ids, u) && FromOld(s, ids, u.news, n + 1)
  {
    var u := AddReference(t, n, k);
    forall x | x in u.news
      ensures 0 <= At(u.news, x) < n + 1 <= |ids| && HoldsAt(s.news, x, Nth(ids, At(u.news, x)))
    {
      if x != k {
        assert x in t.news && At(t.news, x) == At(u.news, x);
      }
    }
    forall j | 0 <= j < |ids|
      ensures SameEntry(s.info[Nth(ids, j)], u.info[j])
    {
      assert SameEntry(s.info[Nth(ids, j)], t.info[j]);
    }
  }

  // ----- The round trip -----

  /** Ids are given in turn, and the random order lists them. */
  ghost predicate Numbered(t: State) {
    && t.idCount >= 0 && Ordered(t.info.Keys, t.random, t.pos)
    && (forall j :: j in t.info <==> 0 <= j < t.idCount)
  }

  lemma AddNumbered(t: State, i: Info)
    requires Numbered(t)
    ensures Numbered(AddEntry(t, i))
  {
    hide Ordered;
    AddOrdered(t, i);
  }

  lemma NumberedSame(t: State, u: State)
    requires Numbered(t) && u.idCount == t.idCount && u.random == t.random && u.pos == t.pos
    requires forall j :: j in u.info <==> j in t.info
    ensures Numbered(u)
  {
    assert forall j :: j in u.info <==> j in t.info;
    forall j
      ensures j in u.info.Keys <==> j in t.info.Keys
    {
      assert j in u.info <==> j in t.info;
    }
    assert u.info.Keys == t.info.Keys;
  }

  lemma {:induction false} LoadNewNumbered(recs: seq<Record>)
    ensures Numbered(LoadNew(recs)) && LoadNew(recs).idCount == |recs|
    decreases |recs|
  {
    hide Ordered;
    if recs == [] {
      EmptyNumbered();
    } else {
      var t := LoadNew(recs[..|recs| - 1]);
      LoadNewNumbered(recs[..|recs| - 1]);
      AddNumbered(t, Restored(recs[|recs| - 1], false));
      NumberedSame(AddEntry(t, Restored(recs[|recs| - 1], false)), LoadNew(recs));
    }
  }

  lemma EmptyNumbered()
    ensures Numbered(EMPTY)
  {
  }

  lemma {:induction false} LoadTriedNumbered(h: Hashes, s: State, recs: seq<Record>)
    requires Numbered(s)
    ensures var t := LoadTried(h, s, recs); Numbered(t) && s.idCount <= t.idCount <= s.idCount + |recs|
    decreases |recs|
  {
    hide Ordered, TriedSlot;
    if recs != [] {
      var t, r := LoadTried(h, s, recs[..|recs| - 1]), recs[|recs| - 1];
      LoadTriedNumbered(h, s, recs[..|recs| - 1]);
      AddNumbered(t, Restored(r, true));
      if TriedSlot(h, r.addr.service) !in t.tried {
        NumberedSame(AddEntry(t, Restored(r, true)), LoadTried(h, s, recs));
      }
    }
  }

  lemma {:induction false} LinkAllNumbered(h: Hashes, s: State, lists: seq<seq<int>>, same: bool, n: nat)
    requires Numbered(s) && HasIds(s, n)
    ensures Numbered(LinkAll(h, s, lists, same, n))
    decreases n
  {
    hide Ordered, LastBucket, Position;
    if n > 0 {
      LinkAllNumbered(h, s, lists, same, n - 1);
      var t := LinkAll(h, s, lists, same, n - 1);
      NumberedSame(t, LinkAll(h, s, lists, same, n));
    }
  }

  /** What is loaded from any file can be linked and pruned. */
  lemma LoadNumbered(h: Hashes, f: File, same: bool)
    ensures HasIds(Load(h, f), |f.news|) && Load(h, f).idCount >= |f.news|
    ensures var t := LinkAll(h, Load(h, f), f.lists, same, |f.news|); Ordered(t.info.Keys, t.random, t.pos)
    ensures var t := LinkAll(h, Load(h, f), f.lists, same, |f.news|); t.idCount <= |f.news| + |f.tried|
  {
    hide Ordered, LinkAll, LoadNew, LoadTried;
    LoadNewNumbered(f.news);
    LoadTriedNumbered(h, LoadNew(f.news), f.tried);
    LinkAllNumbered(h, Load(h, f), f.lists, same, |f.news|);
    LinkAllCount(h, Load(h, f), f.lists, same, |f.news|);
  }

  lemma {:induction false} LinkAllCount(h: Hashes, s: State, lists: seq<seq<int>>, same: bool, n: nat)
    requires HasIds(s, n)
    ensures LinkAll(h, s, lists, same, n).idCount == s.idCount
    decreases n
  {
    hide LastBucket, Position;
    if n > 0 {
      LinkAllCount(h, s, lists, same, n - 1);
    }
  }

  function Unserialize(h: Hashes, f: File, same: bool): State {
    LoadNumbered(h, f, same);
    Prune(LinkAll(h, Load(h, f), f.lists, same, |f.news|), |f.news| + |f.tried|)
  }

  lemma {:induction false} NothingToPrune(s: State, n: nat)
    requires Ordered(s.info.Keys, s.random, s.pos) && RefsOk(s.info, s.news, {})
    ensures Prune(s, n) == s
    decreases n
  {
    hide Ordered, Delete, Refs;
    if n > 0 {
      NothingToPrune(s, n - 1);
    }
  }

  /** New entries are those with references. */
  lemma NewAreReferenced(h: Hashes, s: State, o: int)
    requires Core(h, s, {}, {}) && o in s.info
    ensures s.info[o].refCount != 0 <==> !s.info[o].inTried
  {
    forall k | k in s.news
      ensures At(s.news, k) == o ==> !s.info[o].inTried
    {
    }
    if s.info[o].inTried {
      assert Refs(s.news, o) == {};
    }
  }

  /** The order of the file: new entries, then tried ones, no entry twice. */
  lemma FileOrder(h: Hashes, s: State)
    requires Core(h, s, {}, {})
    ensures var news, tried := Order(s.info, false, s.idCount), Order(s.info, true, s.idCount);
      && Known(s.info, news) && Known(s.info, tried) && Known(s.info, news + tried) && Apart(news + tried)
      && Apart(news)
      && (forall j :: 0 <= j < |news| ==> !s.info[Nth(news, j)].inTried && s.info[Nth(news, j)].refCount != 0)
      && (forall j :: 0 <= j < |tried| ==> s.info[Nth(tried, j)].inTried)
      && (forall j :: 0 <= j < |news| ==> Nth(news + tried, j) == Nth(news, j))
  {
    hide Ordered, TriedOk, NewOk, RefsOk, CountsOk, TimesOk, Order;
    var news, tried := Order(s.info, false, s.idCount), Order(s.info, true, s.idCount);
    var all := news + tried;
    OrderKnown(s.info, false, s.idCount);
    OrderKnown(s.info, true, s.idCount);
    forall j | 0 <= j < |news|
      ensures !s.info[Nth(news, j)].inTried
    {
      NewAreReferenced(h, s, Nth(news, j));
    }
    assert forall j :: 0 <= j < |all| ==> Nth(all, j) == if j < |news| then Nth(news, j) else Nth(tried, j - |news|);
  }

  /** Every entry is in the file. */
  lemma FileHas(h: Hashes, s: State, id: int)
    requires Core(h, s, {}, {}) && id in s.info
    ensures Has(Order(s.info, false, s.idCount) + Order(s.info, true, s.idCount), id)
  {
    hide Ordered, TriedOk, NewOk, RefsOk, CountsOk, TimesOk, Order;
    var news, tried := Order(s.info, false, s.idCount), Order(s.info, true, s.idCount);
    NewAreReferenced(h, s, id);
    if s.info[id].inTried {
      OrderAll(s.info, true, s.idCount, id);
      var j :| 0 <= j < |tried| && Nth(tried, j) == id;
      assert Nth(news + tried, |news| + j) == id;
    } else {
      OrderAll(s.info, false, s.idCount, id);
      var j :| 0 <= j < |news| && Nth(news, j) == id;
      assert Nth(news + tried, j) == id;
    }
  }

  ghost function WantedBelow(info: Infos, tried: bool, n: nat): set<int> {
    set id | id in info && id < n && 0 <= id && Wanted(info, id, tried)
  }

  lemma {:induction false} OrderCount(info: Infos, tried: bool, n: nat)
    ensures |Order(info, tried, n)| == |WantedBelow(info, tried, n)|
    decreases n
  {
    hide Wanted;
    if n == 0 {
      assert WantedBelow(info, tried, 0) == {};
    } else {
      OrderCount(info, tried, n - 1);
      WantedNext(info, tried, n);
      hide WantedBelow;
    }
  }

  lemma WantedNext(info: Infos, tried: bool, n: nat)
    requires n > 0
    ensures n - 1 !in WantedBelow(info, tried, n - 1)
    ensures WantedBelow(info, tried, n) == WantedBelow(info, tried, n - 1) +
      if Wanted(info, n - 1, tried) then {n - 1} else {}
  {
    assert Wanted(info, n - 1, tried) ==> n - 1 in info;
    hide Wanted;
  }

  /** As many entries are written as the counters say. */
  lemma CountersRight(h: Hashes, s: State)
    requires Core(h, s, {}, {})
    ensures |Order(s.info, false, s.idCount)| == s.nNew && |Order(s.info, true, s.idCount)| == s.nTried
  {
    hide Ordered, TriedOk, NewOk, RefsOk, TimesOk, Order;
    OrderCount(s.info, false, s.idCount);
    OrderCount(s.info, true, s.idCount);
    forall id | id in s.info
      ensures Wanted(s.info, id, false) <==> !s.info[id].inTried
    {
      NewAreReferenced(h, s, id);
    }
    assert WantedBelow(s.info, false, s.idCount) == NewIds(s.info);
    assert WantedBelow(s.info, true, s.idCount) == TriedIds(s.info);
    assert NewIds(s.info) - {} == NewIds(s.info);
  }

  /** What a manager and its reloaded self share: addresses, tried slots with their entries, and one
      reference for every new entry, in a slot that held it before. */
  ghost predicate Preserved(s: State, t: State) {
    && s.nNew == t.nNew && s.nTried == t.nTried
    && (forall a :: a in s.addrs <==> a in t.addrs)
    && (forall k :: k in s.tried ==> k in t.tried && SameHolder(s.info, At(s.tried, k), t.info, At(t.tried, k)))
    && (forall k :: k in t.tried ==> k in s.tried)
    && (forall k :: k in t.news ==> k in s.news && SameHolder(s.info, At(s.news, k), t.info, At(t.news, k)))
    && (forall id :: id in t.info && !t.info[id].inTried ==> t.info[id].refCount == 1)
  }

  ghost predicate SameHolder(a: Infos, i: int, b: Infos, j: int) {
    i in a && j in b && SameEntry(a[i], b[j])
  }

  /** Loading, up to the references. */
  lemma LoadIs(h: Hashes, s: State)
    requires Core(h, s, {}, {})
    ensures var f, count := Serialize(s), s.nNew; var t := Load(h, f);
      var ids := Order(s.info, false, s.idCount) + Order(s.info, true, s.idCount);
      && 0 <= count <= |ids| && |f.news| == s.nNew && |f.tried| == s.nTried
      && Core(h, t, {}, Range(0, count)) && Loaded(s, ids, t) && Unlinked(t)
      && t.nNew == s.nNew && t.nTried == s.nTried && HasIds(t, |f.news|)
  {
    hide Indexed, Ordered, TriedOk, NewOk, RefsOk, CountsOk, TimesOk, Order, LoadNew, LoadTried, Records;
    CountExists(h, s);
    var news, tried := Order(s.info, false, s.idCount), Order(s.info, true, s.idCount);
    FileOrder(h, s);
    CountersRight(h, s);
    LoadNewIs(h, s, news);
    LoadTriedIs(h, s, news, tried, LoadNew(Records(s.info, news)), Range(0, |news|));
  }

  lemma CountExists(h: Hashes, s: State)
    requires Core(h, s, {}, {})
    ensures s.idCount >= 0
  {
  }

  lemma FileLinkable(h: Hashes, s: State)
    requires Core(h, s, {}, {})
    ensures var ids := Order(s.info, false, s.idCount) + Order(s.info, true, s.idCount);
      Linkable(h, s, ids, Serialize(s).lists, |Order(s.info, false, s.idCount)|)
  {
    hide Indexed, Ordered, TriedOk, NewOk, RefsOk, CountsOk, TimesOk, Order, LastBucket, BucketList, Records;
    CountExists(h, s);
    FileOrder(h, s);
    var news := Order(s.info, false, s.idCount);
    var lists := Serialize(s).lists;
    forall n | 0 <= n < |news|
      ensures 0 <= LastBucket(lists, n, |lists|) < NEW_BUCKET_COUNT
      ensures HoldsAt(s.news, Place(h, s.info[Nth(news, n)].Service(), LastBucket(lists, n, |lists|)), Nth(news, n))
    {
      PlaceHeld(h, s, news, lists, n);
    }
  }

  /** Saving and loading with the same key and AS map loses no address, puts every tried entry back into
      its slot, and leaves the manager consistent. */
  lemma RoundTrip(h: Hashes, s: State)
    requires Consistent(h, s)
    ensures s.idCount >= 0
    ensures |Serialize(s).news| == s.nNew && |Serialize(s).tried| == s.nTried
    ensures var t := Unserialize(h, Serialize(s), true); Consistent(h, t) && Preserved(s, t)
  {
    hide Indexed, Ordered, TriedOk, NewOk, RefsOk, CountsOk, TimesOk, Order, LinkAll, Load, Serialize, Prune,
      Linked, Loaded;
    hide Unlinked, Linkable, Preserved;
    CountExists(h, s);
    LoadIs(h, s);
    FileLinkable(h, s);
    CountersRight(h, s);
    var f, ids := Serialize(s), Order(s.info, false, s.idCount) + Order(s.info, true, s.idCount);
    var t0 := Load(h, f);
    LinkAllIs(h, s, ids, f.lists, s.nNew, t0, s.nNew);
    var t := LinkAll(h, t0, f.lists, true, |f.news|);
    LinkedCore(h, s, ids, s.nNew, t0, t);
    NothingToPrune(t, |f.news| + |f.tried|);
    forall id | id in s.info
      ensures Has(ids, id)
    {
      FileHas(h, s, id);
    }
    TriedLast(h, s);
    LinkedPreserves(h, s, ids, t0, t);
  }

  lemma LinkedCore(h: Hashes, s: State, ids: seq<int>, count: nat, t0: State, t: State)
    requires Linked(h, s, ids, count, t0, t, count)
    ensures Core(h, t, {}, {}) && Consistent(h, t)
  {
    hide Indexed, Ordered, TriedOk, NewOk, RefsOk, CountsOk, TimesOk;
    assert Range(count, 0) == {};
  }

  lemma TriedLast(h: Hashes, s: State)
    requires Core(h, s, {}, {})
    ensures var ids := Order(s.info, false, s.idCount) + Order(s.info, true, s.idCount);
      Known(s.info, ids) && forall j :: s.nNew <= j < |ids| && 0 <= j ==> s.info[Nth(ids, j)].inTried
  {
    hide Indexed, Ordered, TriedOk, NewOk, RefsOk, CountsOk, TimesOk, Order;
    CountExists(h, s);
    FileOrder(h, s);
    CountersRight(h, s);
    var news, tried := Order(s.info, false, s.idCount), Order(s.info, true, s.idCount);
    assert forall j :: |news| <= j < |news + tried| ==> Nth(news + tried, j) == Nth(tried, j - |news|);
  }

  lemma LinkedPreserves(h: Hashes, s: State, ids: seq<int>, t0: State, t: State)
    requires Core(h, s, {}, {}) && s.nNew >= 0 && Linked(h, s, ids, s.nNew, t0, t, s.nNew)
    requires t0.nNew == s.nNew && t0.nTried == s.nTried && Known(s.info, ids)
    requires forall id :: id in s.info ==> Has(ids, id)
    requires forall j :: s.nNew <= j < |ids| && 0 <= j ==> s.info[Nth(ids, j)].inTried
    ensures Preserved(s, t)
  {
    hide Indexed, Ordered, TriedOk, NewOk, RefsOk, CountsOk, TimesOk, SameEntry;
    assert forall id :: id in s.info ==> Has(ids, id);
    SameAddresses(s, ids, t);
    SameTried(h, s, ids, t);
    SameNews(s, ids, t, s.nNew);
    forall id | id in t.info && !t.info[id].inTried
      ensures t.info[id].refCount == 1
    {
      assert 0 <= id < |ids| && SameEntry(s.info[Nth(ids, id)], t.info[id]);
      TriedAlike(s.info[Nth(ids, id)], t.info[id]);
      assert id < s.nNew;
    }
  }

  lemma TriedAlike(a: Info, b: Info)
    requires SameEntry(a, b)
    ensures a.inTried == b.inTried && a.Net() == b.Net() && a.Service() == b.Service()
  {
  }

  lemma SameAddresses(s: State, ids: seq<int>, t: State)
    requires Indexed(s.idCount, s.info, s.addrs) && Indexed(t.idCount, t.info, t.addrs) && Loaded(s, ids, t)
    requires forall id :: id in s.info ==> Has(ids, id)
    ensures forall a :: a in s.addrs <==> a in t.addrs
  {
    forall a | a in s.addrs
      ensures a in t.addrs
    {
      var id := At(s.addrs, a);
      assert id in s.info && s.info[id].Net() == a && Has(ids, id);
      var j :| 0 <= j < |ids| && Nth(ids, j) == id;
      TriedAlike(s.info[id], t.info[j]);
      assert j in t.info && t.info[j].Net() in t.addrs;
    }
    forall a | a in t.addrs
      ensures a in s.addrs
    {
      var j := At(t.addrs, a);
      assert j in t.info && t.info[j].Net() == a;
      TriedAlike(s.info[Nth(ids, j)], t.info[j]);
      assert s.info[Nth(ids, j)].Net() in s.addrs;
    }
  }

  lemma SameTried(h: Hashes, s: State, ids: seq<int>, t: State)
    requires TriedOk(h, s.info, s.tried) && TriedOk(h, t.info, t.tried) && Loaded(s, ids, t)
    requires forall id :: id in s.info ==> Has(ids, id)
    ensures forall k :: k in s.tried ==> k in t.tried && SameHolder(s.info, At(s.tried, k), t.info, At(t.tried, k))
    ensures forall k :: k in t.tried ==> k in s.tried
  {
    forall k | k in s.tried
      ensures k in t.tried && SameHolder(s.info, At(s.tried, k), t.info, At(t.tried, k))
    {
      var id := At(s.tried, k);
      assert id in s.info && s.info[id].inTried && k == TriedSlot(h, s.info[id].Service()) && Has(ids, id);
      var j :| 0 <= j < |ids| && Nth(ids, j) == id;
      TriedAlike(s.info[id], t.info[j]);
      assert TriedSlot(h, t.info[j].Service()) in t.tried && At(t.tried, TriedSlot(h, t.info[j].Service())) == j;
    }
    forall k | k in t.tried
      ensures k in s.tried
    {
      var j := At(t.tried, k);
      assert j in t.info && t.info[j].inTried && k == TriedSlot(h, t.info[j].Service());
      TriedAlike(s.info[Nth(ids, j)], t.info[j]);
      assert TriedSlot(h, s.info[Nth(ids, j)].Service()) in s.tried;
    }
  }

  lemma SameNews(s: State, ids: seq<int>, t: State, n: int)
    requires Loaded(s, ids, t) && FromOld(s, ids, t.news, n)
    ensures forall k :: k in t.news ==> k in s.news && SameHolder(s.info, At(s.news, k), t.info, At(t.news, k))
  {
    forall k | k in t.news
      ensures k in s.news && SameHolder(s.info, At(s.news, k), t.info, At(t.news, k))
    {
      var j := At(t.news, k);
      assert HoldsAt(s.news, k, Nth(ids, j));
      assert SameEntry(s.info[Nth(ids, j)], t.info[j]);
    }
  }
}
