/** The loops that write the address manager to a file and read it back. */
module AddrManDisk {
  import opened AddrManSpec
  import opened AddrManFile
  import opened AddrManRebucket
  import opened AddrMan

  /** Ids and records of the entries of one kind, in ascending order. */
  method WriteEntries(m: AddrMan, tried: bool) returns (order: seq<int>, recs: seq<Record>)
    requires m.nIdCount >= 0
    ensures order == Order(m.mapInfo, tried, m.nIdCount) && Known(m.mapInfo, order) && recs == Records(m.mapInfo, order)
  {
    order, recs := [], [];
    var id := 0;
    while id < m.nIdCount
      invariant 0 <= id <= m.nIdCount && order == Order(m.mapInfo, tried, id)
      invariant Known(m.mapInfo, order) && recs == Records(m.mapInfo, order)
    {
      if AddrManFile.Wanted(m.mapInfo, id, tried) {
        RecordsNext(m.mapInfo, order, id);
        order := order + [id];
        recs := recs + [Saved(m.mapInfo[id])];
      }
      id := id + 1;
    }
  }

  lemma RecordsNext(info: Infos, order: seq<int>, id: int)
    requires Known(info, order) && id in info
    ensures Known(info, order + [id]) && Records(info, order + [id]) == Records(info, order) + [Saved(info[id])]
  {
    var more := order + [id];
    assert forall j :: 0 <= j < |order| ==> AddrManFile.Nth(more, j) == AddrManFile.Nth(order, j);
    assert AddrManFile.Nth(more, |order|) == id;
  }

  /** The indices of the entries in one bucket. */
  method WriteBucket(m: AddrMan, order: seq<int>, b: int) returns (list: seq<int>)
    requires m.Shape() && 0 <= b < NEW_BUCKET_COUNT
    ensures list == BucketList(m.news, order, b, BUCKET_SIZE)
  {
    hide Lists, IndexIn;
    list := [];
    var p := 0;
    while p < BUCKET_SIZE
      invariant 0 <= p <= BUCKET_SIZE && list == BucketList(m.news, order, b, p)
    {
      var id := Get(m.vvNew, Slot(b, p), m.news);
      if id != EMPTY_SLOT {
        list := list + [IndexIn(order, id)];
      }
      p := p + 1;
    }
  }

  method Save(m: AddrMan) returns (f: File)
    requires m.Shape() && m.nIdCount >= 0
    ensures f == Serialize(m.View()) && |f.lists| == NEW_BUCKET_COUNT
  {
    hide Lists, Order, BucketList, Records;
    var order, news := WriteEntries(m, false);
    var triedOrder, tried := WriteEntries(m, true);
    var lists, b := [], 0;
    while b < NEW_BUCKET_COUNT
      invariant 0 <= b <= NEW_BUCKET_COUNT && |lists| == b
      invariant forall x :: 0 <= x < b ==> lists[x] == BucketList(m.news, order, x, BUCKET_SIZE)
    {
      var list := WriteBucket(m, order, b);
      lists := lists + [list];
      b := b + 1;
    }
    f := File(news, tried, lists);
    assert f.lists == Serialize(m.View()).lists;
  }

  /** One entry more; the random order takes it at the end. */
  method ReadEntry(m: AddrMan, i: Info)
    requires m.Shape()
    modifies m
    ensures m.Shape() && m.View() == AddEntry(old(m.View()), i)
  {
    hide Lists;
    var id := m.nIdCount;
    m.nIdCount := id + 1;
    m.mapInfo := m.mapInfo[id := i];
    m.mapAddr := m.mapAddr[i.Net() := id];
    m.randomPos := m.randomPos[id := |m.vRandom|];
    m.vRandom := m.vRandom + [id];
  }

  method ReadNew(m: AddrMan, recs: seq<Record>)
    requires m.Shape() && m.View() == EMPTY
    modifies m
    ensures m.Shape() && m.View() == LoadNew(recs)
  {
    hide Lists;
    var n := 0;
    while n < |recs|
      invariant 0 <= n <= |recs| && m.Shape() && m.View() == LoadNew(recs[..n])
      modifies m
    {
      assert recs[..n + 1][..n] == recs[..n];
      ReadEntry(m, Restored(recs[n], false));
      m.nNew := m.nNew + 1;
      n := n + 1;
    }
    assert recs[..|recs|] == recs;
  }

  method ReadTried(m: AddrMan, recs: seq<Record>)
    requires m.Shape() && m.nIdCount >= 0
    modifies m, m.vvTried
    ensures m.Shape() && m.View() == LoadTried(m.h, old(m.View()), recs)
  {
    hide Lists, TriedSlot;
    ghost var s := m.View();
    var n := 0;
    while n < |recs|
      invariant 0 <= n <= |recs| && m.Shape() && m.nIdCount >= 0 && m.View() == LoadTried(m.h, s, recs[..n])
      modifies m, m.vvTried
    {
      assert recs[..n + 1][..n] == recs[..n];
      ReadOneTried(m, recs[n]);
      n := n + 1;
    }
    assert recs[..|recs|] == recs;
  }

  method ReadOneTried(m: AddrMan, r: Record)
    requires m.Shape() && m.nIdCount >= 0
    modifies m, m.vvTried
    ensures m.Shape() && m.View() == AddTried(m.h, old(m.View()), r) && m.nIdCount >= 0
  {
    hide Lists, TriedSlot;
    SlotBounds(m.h, r.addr.service, r.source);
    var k := TriedSlot(m.h, r.addr.service);
    var held := Get(m.vvTried, k, m.tried);
    if held == EMPTY_SLOT {
      m.SetTried(k, m.nIdCount);
      ReadEntry(m, Restored(r, true));
      m.nTried := m.nTried + 1;
    }
  }

  /** The last bucket that lists an index. */
  method FindLastBucket(lists: seq<seq<int>>, n: int) returns (b: int)
    ensures b == LastBucket(lists, n, |lists|)
  {
    b := 0;
    var i := 0;
    while i < |lists|
      invariant 0 <= i <= |lists| && b == LastBucket(lists, n, i)
    {
      if n in lists[i] {
        b := i;
      }
      i := i + 1;
    }
  }

  method ReadLinks(m: AddrMan, lists: seq<seq<int>>, same: bool, count: nat)
    requires m.Shape() && HasIds(m.View(), count) && (same ==> |lists| == NEW_BUCKET_COUNT)
    modifies m, m.vvNew
    ensures m.Shape() && m.View() == LinkAll(m.h, old(m.View()), lists, same, count)
  {
    hide Lists, Relink, LastBucket;
    ghost var s := m.View();
    var n := 0;
    while n < count
      invariant 0 <= n <= count && m.Shape() && HasIds(s, n) && m.View() == LinkAll(m.h, s, lists, same, n)
      modifies m, m.vvNew
    {
      assert n in s.info;
      var b := FindLastBucket(lists, n);
      BucketFits(lists, n, |lists|);
      ReadLink(m, n, b, same);
      n := n + 1;
    }
  }

  method ReadLink(m: AddrMan, n: int, bucket: int, same: bool)
    requires m.Shape() && n in m.mapInfo && (same ==> 0 <= bucket < NEW_BUCKET_COUNT) && n >= 0
    modifies m, m.vvNew
    ensures m.Shape() && m.View() == Relink(m.h, old(m.View()), n, bucket, same)
  {
    hide Lists;
    var info := m.mapInfo[n];
    var a := info.Service();
    SlotBounds(m.h, a, info.source);
    var k, k2 := Slot(bucket, Position(m.h, a, true, bucket)), NewSlot(m.h, a, info.source);
    var free := false;
    if same {
      var held := Get(m.vvNew, k, m.news);
      free := held == EMPTY_SLOT && info.refCount < NEW_BUCKETS_PER_ADDRESS;
    }
    if free {
      m.SetNew(k, n);
      m.mapInfo := m.mapInfo[n := info.(refCount := info.refCount + 1)];
    } else {
      var held := Get(m.vvNew, k2, m.news);
      if held == EMPTY_SLOT {
        m.SetNew(k2, n);
        m.mapInfo := m.mapInfo[n := info.(refCount := info.refCount + 1)];
      }
    }
  }

  method PruneEntries(m: AddrMan, count: nat)
    requires m.Shape() && Ordered(m.mapInfo.Keys, m.vRandom, m.randomPos)
    modifies m
    ensures m.Shape() && m.View() == Prune(old(m.View()), count)
  {
    hide Lists, Ordered, Delete;
    ghost var s := m.View();
    var n := 0;
    while n < count
      invariant 0 <= n <= count && m.Shape() && Ordered(m.mapInfo.Keys, m.vRandom, m.randomPos)
      invariant m.View() == Prune(s, n)
      modifies m
    {
      if n in m.mapInfo && !m.mapInfo[n].inTried && m.mapInfo[n].refCount == 0 {
        m.DeleteEntry(n);
      }
      assert m.View() == Prune(s, n + 1);
      n := n + 1;
    }
  }

  /** Reads a file into a cleared manager; `same` says that bucket count and AS map are as they were.  A
      file with more entries than slots is refused, after the counters have been read. */
  method Restore(m: AddrMan, f: File, same: bool) returns (ok: bool)
    requires m.Shape() && m.View() == EMPTY && (same ==> |f.lists| == NEW_BUCKET_COUNT)
    modifies m, m.vvNew, m.vvTried
    ensures m.Shape() && ok == !TooLarge(f)
    ensures m.View() == if ok then Unserialize(m.h, f, same) else EMPTY.(nNew := |f.news|, nTried := |f.tried|)
    ensures ok && FileOk(f) ==> Consistent(m.h, m.View())
  {
    hide Lists, LoadNew, LoadTried, LinkAll, Prune, Ordered, Core, FileOk;
    if TooLarge(f) {
      m.nNew, m.nTried := |f.news|, |f.tried|;
      return false;
    }
    LoadNumbered(m.h, f, same);
    ReadNew(m, f.news);
    LoadNewNumbered(f.news);
    ReadTried(m, f.tried);
    ReadLinks(m, f.lists, same, |f.news|);
    PruneEntries(m, |f.news| + |f.tried|);
    if FileOk(f) {
      AnyFile(m.h, f, same);
    }
    ok := true;
  }

  /** A manager written and read back into a new one. */
  method Reload(m: AddrMan) returns (copy: AddrMan)
    requires m.Shape() && Consistent(m.h, m.View())
    ensures fresh(copy) && copy.Shape() && copy.h == m.h
    ensures Consistent(m.h, copy.View()) && Preserved(m.View(), copy.View())
  {
    hide Lists, Consistent, Preserved, Serialize, Unserialize, TooLarge;
    ghost var s := m.View();
    RoundTrip(m.h, s);
    ConsistentFits(m.h, s);
    var f := Save(m);
    copy := new AddrMan(m.h);
    var ok := Restore(copy, f, true);
  }

  lemma ConsistentFits(h: Hashes, s: State)
    requires Consistent(h, s)
    ensures s.idCount >= 0 && !TooLarge(Serialize(s))
  {
    NeverTooLarge(h, s);
  }
}
