/** The address manager as the program has it: one object whose methods update the id tables, the
    random order, the counters and the two fixed-size bucket tables in place.  An empty slot holds
    -1.  Every method is tied to the corresponding function on values. */
module AddrMan {
  import opened Common
  import opened AddrManSpec
  import opened AddrManOps
  import opened AddrManAdd
  import opened AddrManRuns

  const EMPTY_SLOT := -1

  predicate Fits(t: array2<int>, k: Slot) {
    0 <= k.bucket < t.Length0 && 0 <= k.pos < t.Length1
  }

  /** The map lists exactly the occupied slots of a bucket table. */
  ghost predicate Lists(m: map<Slot, int>, t: array2<int>)
    reads t
  {
    && (forall k :: k in m ==> Fits(t, k))
    && (forall k :: Fits(t, k) ==> (k in m <==> t[k.bucket, k.pos] != EMPTY_SLOT))
    && (forall k :: Fits(t, k) && k in m ==> At(m, k) == t[k.bucket, k.pos])
  }

  method Put(t: array2<int>, k: Slot, x: int, ghost m: map<Slot, int>)
    requires Fits(t, k) && Lists(m, t)
    modifies t
    ensures Lists(if x == EMPTY_SLOT then m - {k} else m[k := x], t)
  {
    t[k.bucket, k.pos] := x;
  }

  method Get(t: array2<int>, k: Slot, ghost m: map<Slot, int>) returns (x: int)
    requires Fits(t, k) && Lists(m, t)
    ensures if k in m then x == At(m, k) && x != EMPTY_SLOT else x == EMPTY_SLOT
  {
    x := t[k.bucket, k.pos];
  }

  /** A random draw below `n`. */
  method RandRange(n: int) returns (r: int)
    requires n > 0
    ensures 0 <= r < n
  {
    r :| 0 <= r < n;
  }

  class AddrMan {
    const h: Hashes
    const vvTried: array2<int>
    const vvNew: array2<int>
    var nIdCount: int
    var mapInfo: Infos
    var mapAddr: map<NetAddr, int>
    var vRandom: seq<int>
    var randomPos: map<int, int>
    var nTried: int
    var nNew: int
    var nLastGood: int
    var triedCollisions: set<int>
    ghost var tried: map<Slot, int>  // what vvTried holds
    ghost var news: map<Slot, int>  // what vvNew holds

    ghost predicate Shape()
      reads this`tried, this`news, vvTried, vvNew
    {
      && Lists(tried, vvTried) && Lists(news, vvNew)
      && vvNew != vvTried
      && vvNew.Length0 == NEW_BUCKET_COUNT && vvNew.Length1 == BUCKET_SIZE
      && vvTried.Length0 == TRIED_BUCKET_COUNT && vvTried.Length1 == BUCKET_SIZE
    }

    /** The value of the whole manager. */
    ghost function View(): State
      reads this
    {
      State(nIdCount, mapInfo, mapAddr, vRandom, randomPos, nTried, tried, nNew, news, nLastGood, triedCollisions)
    }

    constructor (hashes: Hashes)
      ensures Shape() && h == hashes && View() == EMPTY && Consistent(h, View())
      ensures fresh(vvTried) && fresh(vvNew)
    {
      h := hashes;
      vvTried := new int[TRIED_BUCKET_COUNT, BUCKET_SIZE]((_, _) => EMPTY_SLOT);
      vvNew := new int[NEW_BUCKET_COUNT, BUCKET_SIZE]((_, _) => EMPTY_SLOT);
      nIdCount, nTried, nNew, nLastGood := 0, 0, 0, 1;
      mapInfo, mapAddr, vRandom, randomPos, triedCollisions := map[], map[], [], map[], {};
      tried, news := map[], map[];
      new;
      EmptyConsistent(hashes);
    }

    method SetNew(k: Slot, x: int)
      requires Shape() && Fits(vvNew, k)
      modifies this`news, vvNew
      ensures Shape() && news == if x == EMPTY_SLOT then old(news) - {k} else old(news)[k := x]
    {
      Put(vvNew, k, x, news);
      news := if x == EMPTY_SLOT then news - {k} else news[k := x];
    }

    method SetTried(k: Slot, x: int)
      requires Shape() && Fits(vvTried, k)
      modifies this`tried, vvTried
      ensures Shape() && tried == if x == EMPTY_SLOT then old(tried) - {k} else old(tried)[k := x]
    {
      Put(vvTried, k, x, tried);
      tried := if x == EMPTY_SLOT then tried - {k} else tried[k := x];
    }

    method FindId(a: NetAddr) returns (id: Option<int>)
      ensures id == Find(View(), a)
    {
      if a !in mapAddr {
        return None;
      }
      var n := mapAddr[a];
      if n in mapInfo {
        return Some(n);
      }
      return None;
    }

    method CreateEntry(a: Address, source: NetAddr) returns (id: int)
      requires Shape()
      modifies this
      ensures Shape() && View() == Create(old(View()), a, source) && id == old(nIdCount)
    {
      hide Lists;
      id := nIdCount;
      nIdCount := nIdCount + 1;
      mapInfo := mapInfo[id := Info(a, source, 0, 0, 0, 0, 0, false)];
      mapAddr := mapAddr[a.service.net := id];
      randomPos := randomPos[id := |vRandom|];
      vRandom := vRandom + [id];
    }

    method Swap(i: int, j: int)
      requires Shape()
      requires i != j ==> 0 <= i < |vRandom| && 0 <= j < |vRandom|
      requires i != j ==> vRandom[i] in mapInfo && vRandom[j] in mapInfo
      modifies this
      ensures Shape() && View() == SwapRandom(old(View()), i, j)
    {
      hide Lists;
      if i == j {
        return;
      }
      var a, b := vRandom[i], vRandom[j];
      randomPos := randomPos[a := j][b := i];
      vRandom := vRandom[i := b];
      vRandom := vRandom[j := a];
    }

    method DeleteEntry(id: int)
      requires Shape()
      requires Ordered(mapInfo.Keys, vRandom, randomPos)
      requires id in mapInfo && !mapInfo[id].inTried && mapInfo[id].refCount == 0
      modifies this
      ensures Shape() && View() == Delete(old(View()), id)
    {
      hide Ordered, Lists;
      OrderedAt(mapInfo.Keys, vRandom, randomPos, id);
      Swap(randomPos[id], |vRandom| - 1);
      vRandom := vRandom[..|vRandom| - 1];
      randomPos := randomPos - {id};
      mapAddr := mapAddr - {mapInfo[id].Net()};
      mapInfo := mapInfo - {id};
      nNew := nNew - 1;
    }

    method ClearNewSlot(k: Slot)
      requires Shape() && Fits(vvNew, k)
      requires Ordered(mapInfo.Keys, vRandom, randomPos) && Referenced(View(), k)
      modifies this, vvNew
      ensures Shape() && View() == ClearNew(old(View()), k)
    {
      hide Lists, Ordered;
      var id := Get(vvNew, k, news);
      if id != EMPTY_SLOT {
        ghost var s := View();
        mapInfo := mapInfo[id := mapInfo[id].(refCount := mapInfo[id].refCount - 1)];
        SetNew(k, EMPTY_SLOT);
        assert mapInfo.Keys == s.info.Keys;
        assert View() == Unlink(s, k);
        if mapInfo[id].refCount == 0 {
          DeleteEntry(id);
        }
      }
    }

    /** Moves an entry to the tried table; the loop drops all its references. */
    method MakeTriedEntry(id: int)
      requires Shape() && Core(h, View(), {}, {}) && id in mapInfo && !mapInfo[id].inTried
      modifies this, vvNew, vvTried
      ensures Shape() && View() == MakeTried(h, old(View()), id)
    {
      hide Core, DropRefs, MoveAside, TriedSlot, Lists;
      ghost var s := View();
      SlotBounds(h, mapInfo[id].Service(), mapInfo[id].source);
      DropFields(s, id);
      DropAllRefs(id);
      nNew := nNew - 1;
      DropRefsCore(h, s, id);
      var k := TriedSlot(h, mapInfo[id].Service());
      MoveAsideCore(h, View(), k, id);
      MakeRoom(k, id);
      IdNotEmpty(h, s, id);
      SetTried(k, id);
      nTried := nTried + 1;
      mapInfo := mapInfo[id := mapInfo[id].(inTried := true)];
    }

    /** The loop over all new buckets. */
    method DropAllRefs(id: int)
      requires Shape() && Core(h, View(), {}, {}) && id in mapInfo && !mapInfo[id].inTried
      modifies this`mapInfo, this`news, vvNew
      ensures Shape() && View() == DropRefs(old(View()), id).(nNew := nNew)
    {
      hide Core, Lists;
      ghost var s := View();
      NewInBounds(h, s);
      IdNotEmpty(h, s, id);
      RefCounts(h, s, id);
      assert DropBelow(s.news, id, 0) == s.news;
      assert s.info[id := s.info[id].(refCount := |Refs(s.news, id)|)] == s.info;
      for bucket := 0 to NEW_BUCKET_COUNT
        invariant Shape()
        invariant View() == s.(news := DropBelow(s.news, id, bucket),
                               info := s.info[id := s.info[id].(refCount := |Refs(DropBelow(s.news, id, bucket), id)|)])
      {
        var k := Slot(bucket, Position(h, mapInfo[id].Service(), true, bucket));
        DropStep(h, s, id, bucket);
        var x := Get(vvNew, k, news);
        if x == id {
          SetNew(k, EMPTY_SLOT);
          mapInfo := mapInfo[id := mapInfo[id].(refCount := mapInfo[id].refCount - 1)];
        }
      }
      DropEnd(h, s, id);
    }

    method EvictSlot(k: Slot) returns (gone: int)
      requires Shape() && Fits(vvTried, k) && k in tried && At(tried, k) in mapInfo
      modifies this, vvTried
      ensures Shape() && View() == Evict(old(View()), k) && gone == At(old(tried), k)
    {
      hide Lists;
      gone := Get(vvTried, k, tried);
      mapInfo := mapInfo[gone := mapInfo[gone].(inTried := false)];
      SetTried(k, EMPTY_SLOT);
      nTried := nTried - 1;
    }

    method ReenterEntry(gone: int, u: Slot)
      requires Shape() && Fits(vvNew, u) && gone in mapInfo && gone != EMPTY_SLOT
      modifies this, vvNew
      ensures Shape() && View() == Reenter(old(View()), gone, u)
    {
      hide Lists;
      mapInfo := mapInfo[gone := mapInfo[gone].(refCount := 1)];
      SetNew(u, gone);
      nNew := nNew + 1;
    }

    /** The entry in the tried slot, if any, goes back to a new slot. */
    method MakeRoom(k: Slot, id: int)
      requires Shape() && Fits(vvTried, k) && Core(h, View(), {id}, {id})
      modifies this, vvNew, vvTried
      ensures Shape() && View() == MoveAside(h, old(View()), k, id)
    {
      hide Core, ClearNew, NewSlot, Referenced, Lists, Evict, Reenter;
      var x := Get(vvTried, k, tried);
      if x != EMPTY_SLOT {
        EvictCore(h, View(), k, {id}, {id});
        var gone := EvictSlot(k);
        ghost var e := View();
        CoreHas(h, e, {id} + {gone}, {id} + {gone}, gone);
        var u := NewSlot(h, mapInfo[gone].Service(), mapInfo[gone].source);
        SlotBounds(h, mapInfo[gone].Service(), mapInfo[gone].source);
        ClearNewCore(h, e, u, {id} + {gone}, {id} + {gone});
        ClearNewSlot(u);
        CoreHas(h, View(), {id} + {gone}, {id} + {gone}, gone);
        ReenterEntry(gone, u);
      }
    }

    /** A new bucket that refers to the entry, searched from a random start; -1 if there is none. */
    method FindBucket(id: int) returns (bucket: int)
      requires Shape() && Consistent(h, View()) && id in mapInfo
      ensures bucket == -1 <==> Refs(news, id) == {}
    {
      hide Lists, Core;
      IdNotEmpty(h, View(), id);
      var start := RandRange(NEW_BUCKET_COUNT);
      bucket := -1;
      for n := 0 to NEW_BUCKET_COUNT
        invariant forall m :: 0 <= m < n ==> !Hit(h, View(), id, Nth(start, m))
      {
        var b := Nth(start, n);
        var k := Slot(b, Position(h, mapInfo[id].Service(), true, b));
        var x := Get(vvNew, k, news);
        if x == id {
          assert k in Refs(news, id);
          return b;
        }
        assert !Hit(h, View(), id, b);
      }
      NoHits(h, View(), id, start);
    }

    /** Marks an entry as good: it moves to the tried table, unless that would evict another and
        evictions are to be tested first; then it is queued. */
    method Good(a: Service, testBeforeEvict: bool, time: int)
      requires Shape() && Consistent(h, View()) && time > 0
      modifies this, vvNew, vvTried
      ensures Shape() && Consistent(h, View())
      ensures View() == AddrManOps.Good(h, old(View()), a, testBeforeEvict, time)
    {
      hide Lists, Consistent, Core, MakeTried;
      ghost var s := View();
      GoodKeeps(h, s, a, testBeforeEvict, time);
      nLastGood := time;
      var found := FindId(a.net);
      if found.None? || mapInfo[found.value].Service() != a {
        return;
      }
      var id := found.value;
      mapInfo := mapInfo[id := mapInfo[id].(lastSuccess := time, lastTry := time, attempts := 0)];
      if mapInfo[id].inTried {
        return;
      }
      ConsistentCore(h, s);
      TouchKeeps(h, s, id, time);
      TouchCore(h, s, id, time);
      var bucket := FindBucket(id);
      if bucket == -1 {
        return;
      }
      var k := TriedSlot(h, mapInfo[id].Service());
      var rival := Get(vvTried, k, tried);
      if testBeforeEvict && rival != EMPTY_SLOT {
        if |triedCollisions| < SET_TRIED_COLLISION_SIZE {
          triedCollisions := triedCollisions + {id};
        }
      } else {
        MakeTriedEntry(id);
      }
    }

    method Attempt(a: Service, countFailure: bool, time: int)
      requires Shape() && Consistent(h, View()) && time >= 0
      modifies this
      ensures Shape() && Consistent(h, View())
      ensures View() == AddrManOps.Attempt(old(View()), a, countFailure, time)
    {
      hide Lists, Consistent;
      AttemptKeeps(h, View(), a, countFailure, time);
      var found := FindId(a.net);
      if found.None? || mapInfo[found.value].Service() != a {
        return;
      }
      var id := found.value;
      var i := mapInfo[id].(lastTry := time);
      if countFailure && i.lastCountAttempt < nLastGood {
        i := i.(lastCountAttempt := time, attempts := i.attempts + 1);
      }
      mapInfo := mapInfo[id := i];
    }

    method Connected(a: Service, time: int)
      requires Shape() && Consistent(h, View())
      modifies this
      ensures Shape() && Consistent(h, View())
      ensures View() == AddrManOps.Connected(old(View()), a, time)
    {
      hide Lists, Consistent;
      ConnectedKeeps(h, View(), a, time);
      var found := FindId(a.net);
      if found.None? || mapInfo[found.value].Service() != a {
        return;
      }
      var id := found.value;
      if time - mapInfo[id].addr.nTime > 20 * 60 {
        mapInfo := mapInfo[id := mapInfo[id].(addr := mapInfo[id].addr.(nTime := time))];
      }
    }

    method SetServices(a: Service, services: set<nat>)
      requires Shape() && Consistent(h, View())
      modifies this
      ensures Shape() && Consistent(h, View())
      ensures View() == AddrManOps.SetServices(old(View()), a, services)
    {
      hide Lists, Consistent;
      SetServicesKeeps(h, View(), a, services);
      var found := FindId(a.net);
      if found.None? || mapInfo[found.value].Service() != a {
        return;
      }
      var id := found.value;
      mapInfo := mapInfo[id := mapInfo[id].(addr := mapInfo[id].addr.(services := services))];
    }

    /** The tail of adding: one more reference, or none. */
    method LinkEntry(id: int, source: NetAddr, now: int)
      requires Shape() && Core(h, View(), {}, {id}) && id in mapInfo && !mapInfo[id].inTried
      modifies this, vvNew
      ensures Shape() && View() == Link(h, old(View()), id, source, now)
    {
      hide Lists, Core, ClearNew, NewSlot, IsTerrible, Delete;
      ghost var s := View();
      var u := NewSlot(h, mapInfo[id].Service(), source);
      SlotBounds(h, mapInfo[id].Service(), source);
      SlotReferenced(h, s, id, u);
      CoreOrdered(h, s, {}, {id}, id);
      var x := Get(vvNew, u, news);
      if x != id {
        var insert := x == EMPTY_SLOT;
        if !insert {
          insert := IsTerrible(mapInfo[x], now) || (mapInfo[x].refCount > 1 && mapInfo[id].refCount == 0);
        }
        if insert {
          StaysWhenCleared(h, s, id, u);
          ClearNewSlot(u);
          mapInfo := mapInfo[id := mapInfo[id].(refCount := mapInfo[id].refCount + 1)];
          SetNew(u, id);
        } else if mapInfo[id].refCount == 0 {
          DeleteEntry(id);
        }
      }
    }

    /** Adds an address heard from a source; `lucky` is the outcome of the random draw that makes
        further references ever less likely. */
    method Add(a: Address, source: NetAddr, timePenalty: int, now: int) returns (isNew: bool, ghost lucky: bool)
      requires Shape() && Consistent(h, View())
      modifies this, vvNew
      ensures Shape() && Consistent(h, View())
      ensures Added(View(), isNew) == AddrManAdd.Add(h, old(View()), a, source, timePenalty, now, lucky)
    {
      hide Lists, Consistent, Core, Link, IsTerrible, Refreshed, CreateNew;
      ghost var s := View();
      ConsistentCore(h, s);
      lucky := true;
      if a.service.net.routable {
        var penalty := if a.service.net == source then 0 else timePenalty;
        var found := FindId(a.service.net);
        if found.Some? {
          lucky := AddKnown(found.value, a, source, penalty, now);
        } else {
          AddUnknown(a, source, penalty, now);
        }
        AddKeeps(h, s, a, source, timePenalty, now, lucky);
        return found.None?, lucky;
      }
      return false, lucky;
    }

    method AddUnknown(a: Address, source: NetAddr, penalty: int, now: int)
      requires Shape() && Core(h, View(), {}, {}) && Find(View(), a.service.net).None?
      modifies this, vvNew
      ensures Shape()
      ensures var m := CreateNew(old(View()), a, source, penalty);
        && Core(h, m, {}, {old(nIdCount)}) && old(nIdCount) in m.info && !m.info[old(nIdCount)].inTried
        && View() == Link(h, m, old(nIdCount), source, now)
    {
      hide Lists, Core, Link;
      UnknownIsFree(h, View(), a.service.net);
      CreateNewCore(h, View(), a, source, penalty);
      var id := CreateEntry(a.(nTime := Max(0, a.nTime - penalty)), source);
      nNew := nNew + 1;
      LinkEntry(id, source, now);
    }

    method AddKnown(id: int, a: Address, source: NetAddr, penalty: int, now: int) returns (ghost lucky: bool)
      requires Shape() && Core(h, View(), {}, {}) && id in mapInfo
      modifies this, vvNew
      ensures Shape()
      ensures var i := Refreshed(old(mapInfo)[id], a, penalty, now);
        && Core(h, SetInfo(old(View()), id, i), {}, {id})
        && View() == if WantsMore(i, a, lucky) then Link(h, SetInfo(old(View()), id, i), id, source, now)
                     else SetInfo(old(View()), id, i)
    {
      hide Lists, Core, Link;
      lucky := true;
      RefreshCore(h, View(), id, a, penalty, now);
      var online := now - a.nTime < 24 * 60 * 60;
      var interval := if online then 60 * 60 else 24 * 60 * 60;
      var i := mapInfo[id];
      if a.nTime != 0 && (i.addr.nTime == 0 || i.addr.nTime < a.nTime - interval - penalty) {
        i := i.(addr := i.addr.(nTime := Max(0, a.nTime - penalty)));
      }
      i := i.(addr := i.addr.(services := i.addr.services + a.services));
      mapInfo := mapInfo[id := i];
      if a.nTime == 0 || (i.addr.nTime != 0 && a.nTime <= i.addr.nTime) {
        return;
      }
      if i.inTried || i.refCount == NEW_BUCKETS_PER_ADDRESS {
        return;
      }
      var factor := 1;
      for n := 0 to Max(0, i.refCount)
        invariant factor >= 1 && (factor > 1 <==> n > 0)
      {
        factor := factor * 2;
      }
      if factor > 1 {
        var draw := RandRange(factor);
        lucky := draw == 0;
        if draw != 0 {
          return;
        }
      }
      LinkEntry(id, source, now);
    }

    /** A random selection of healthy addresses: those among the first `n` of the reshuffled order,
        where `n` is the whole order unless enough were found before. */
    method GetAddr(maxAddresses: nat, maxPct: nat, now: int) returns (vAddr: seq<Address>, n: nat)
      requires Shape() && Consistent(h, View())
      modifies this
      ensures Shape() && Consistent(h, View())
      ensures View() == old(View()).(random := vRandom, pos := randomPos)
      ensures multiset(vRandom) == multiset(old(vRandom)) && n <= |vRandom|
      ensures vAddr == Healthy(mapInfo, vRandom[..n], now) && |vAddr| <= Wanted(|vRandom|, maxAddresses, maxPct)
      ensures n == |vRandom| || |vAddr| == Wanted(|vRandom|, maxAddresses, maxPct)
    {
      hide Lists, Consistent, IsTerrible, Healthy, Wanted;
      ghost var s := View();
      var nodes := Wanted(|vRandom|, maxAddresses, maxPct);
      vAddr, n := [], 0;
      HealthyNone(mapInfo, vRandom[..0], now);
      while n < |vRandom|
        invariant Shape() && Consistent(h, View()) && n <= |vRandom| == |s.random|
        invariant View() == s.(random := vRandom, pos := randomPos) && multiset(vRandom) == multiset(s.random)
        invariant vAddr == Healthy(mapInfo, vRandom[..n], now) && |vAddr| <= nodes
        decreases |vRandom| - n
      {
        if |vAddr| >= nodes {
          return;
        }
        var info := DrawNext(n);
        HealthyNext(mapInfo, vRandom, n, now);
        if !IsTerrible(info, now) {
          vAddr := vAddr + [info.addr];
        }
        n := n + 1;
      }
    }

    /** Swaps a random later entry into position `n` of the random order. */
    method DrawNext(n: nat) returns (info: Info)
      requires Shape() && Consistent(h, View()) && n < |vRandom|
      modifies this
      ensures Shape() && Consistent(h, View()) && View() == old(View()).(random := vRandom, pos := randomPos)
      ensures multiset(vRandom) == multiset(old(vRandom)) && |vRandom| == |old(vRandom)|
      ensures vRandom[..n] == old(vRandom)[..n] && vRandom[n] in mapInfo && info == mapInfo[vRandom[n]]
    {
      hide Lists, Consistent;
      var draw := RandRange(|vRandom| - n);
      SwapKeeps(h, View(), n, draw + n);
      Swap(n, draw + n);
      ConsistentRandom(h, View(), n);
      info := mapInfo[vRandom[n]];
    }

    /** Works through the pending collisions, in the order of their ids. */
    method ResolveCollisions(now: int)
      requires Shape() && Consistent(h, View()) && now > 0
      modifies this, vvNew, vvTried
      ensures Shape() && Consistent(h, View())
      ensures View() == Resolve(h, old(View()), 0, now)
    {
      hide Lists, Consistent, ResolveOne;
      ghost var s := View();
      var id := 0;
      while id < nIdCount
        invariant Shape() && Consistent(h, View()) && nIdCount == s.idCount
        invariant Resolve(h, View(), id, now) == Resolve(h, s, 0, now)
        decreases nIdCount - id
      {
        if id in triedCollisions {
          ResolveOneKeeps(h, View(), id, now);
          ResolveId(id, now);
        }
        id := id + 1;
      }
    }

    method ResolveId(id: int, now: int)
      requires Shape() && Consistent(h, View()) && now > 0
      modifies this, vvNew, vvTried
      ensures Shape() && Consistent(h, View())
      ensures View() == ResolveOne(h, old(View()), id, now)
    {
      hide Lists, Consistent, Core, AddrManOps.Good, Judge;
      ghost var s := View();
      ResolveOneKeeps(h, s, id, now);
      ConsistentCore(h, s);
      TriedIn(h, s);
      var verdict := JudgeId(id, now);
      if verdict.Replace? {
        ReplaceKnown(h, s, id, now);
        Good(mapInfo[id].Service(), false, now);
      }
      if !verdict.Keep? {
        triedCollisions := triedCollisions - {id};
      }
    }

    method JudgeId(id: int, now: int) returns (verdict: Verdict)
      requires Shape() && forall k :: k in tried ==> At(tried, k) in mapInfo
      ensures verdict == Judge(h, View(), id, now)
    {
      hide Lists, TriedSlot;
      if id !in mapInfo || !mapInfo[id].Net().valid {
        return Drop;
      }
      var k := TriedSlot(h, mapInfo[id].Service());
      SlotBounds(h, mapInfo[id].Service(), mapInfo[id].source);
      var x := Get(vvTried, k, tried);
      if x == EMPTY_SLOT {
        return Replace;
      }
      var rival := mapInfo[x];
      if now - rival.lastSuccess < REPLACEMENT_SECONDS {
        return Drop;
      }
      if now - rival.lastTry < REPLACEMENT_SECONDS {
        return if now - rival.lastTry > 60 then Replace else Keep;
      }
      return if now - mapInfo[id].lastSuccess > TEST_WINDOW then Replace else Keep;
    }

    /** The tried entry that a pending collision would evict.  The tried slot it is looked up in is
        never empty. */
    method SelectTriedCollision(id: int) returns (rival: Option<Info>)
      requires Shape() && Consistent(h, View()) && id in triedCollisions
      modifies this
      ensures Shape() && Consistent(h, View()) && View() == SelectCollision(old(View()), id)
      ensures rival.Some? <==> id in mapInfo
      ensures rival.Some? ==>
        rival.value.inTried && TriedSlot(h, rival.value.Service()) == TriedSlot(h, mapInfo[id].Service())
    {
      hide Lists, Consistent, TriedSlot;
      ghost var s := View();
      if id !in mapInfo {
        DropCollision(h, s, id);
        triedCollisions := triedCollisions - {id};
        return None;
      }
      RivalExists(h, s, id);
      var k := TriedSlot(h, mapInfo[id].Service());
      SlotBounds(h, mapInfo[id].Service(), mapInfo[id].source);
      var x := Get(vvTried, k, tried);
      return Some(mapInfo[x]);
    }
  }

  // ----- Facts for the loops -----

  lemma SlotBounds(h: Hashes, a: Service, source: NetAddr)
    ensures var u := NewSlot(h, a, source); 0 <= u.bucket < NEW_BUCKET_COUNT && 0 <= u.pos < BUCKET_SIZE
    ensures var k := TriedSlot(h, a); 0 <= k.bucket < TRIED_BUCKET_COUNT && 0 <= k.pos < BUCKET_SIZE
  {
  }

  lemma DropFields(s: State, id: int)
    requires id in s.info
    ensures var d := DropRefs(s, id);
      && d == s.(info := d.info, news := d.news, nNew := s.nNew - 1)
      && id in d.info && d.info[id] == s.info[id].(refCount := 0)
  {
  }

  /** The references that remain once the buckets below `b` have been visited. */
  ghost function DropBelow(news: map<Slot, int>, id: int, b: int): map<Slot, int> {
    map k | k in news && !(At(news, k) == id && k.bucket < b) :: news[k]
  }

  /** One bucket: the entry can only be at its hashed position. */
  lemma DropStep(h: Hashes, s: State, id: int, b: int)
    requires Core(h, s, {}, {}) && id in s.info
    ensures var k := Slot(b, Position(h, s.info[id].Service(), true, b));
      var now, next := DropBelow(s.news, id, b), DropBelow(s.news, id, b + 1);
      if k in now && At(now, k) == id then next == now - {k} && |Refs(next, id)| == |Refs(now, id)| - 1
      else next == now
  {
    hide Indexed, Ordered, TriedOk, RefsOk, CountsOk, TimesOk;
    var k := Slot(b, Position(h, s.info[id].Service(), true, b));
    var now, next := DropBelow(s.news, id, b), DropBelow(s.news, id, b + 1);
    forall x | x in s.news && At(s.news, x) == id && x.bucket == b
      ensures x == k
    {
    }
    if k in now && At(now, k) == id {
      assert next == now - {k};
      assert Refs(next, id) == Refs(now, id) - {k};
      assert k in Refs(now, id);
    } else {
      assert next == now;
    }
  }

  lemma DropEnd(h: Hashes, s: State, id: int)
    requires Core(h, s, {}, {}) && id in s.info
    ensures var last := DropBelow(s.news, id, NEW_BUCKET_COUNT);
      last == DropRefs(s, id).news && Refs(last, id) == {}
  {
    hide Indexed, Ordered, TriedOk, RefsOk, CountsOk, TimesOk;
    forall x | x in s.news
      ensures x.bucket < NEW_BUCKET_COUNT
    {
    }
  }

  lemma RefCounts(h: Hashes, s: State, id: int)
    requires Core(h, s, {}, {}) && id in s.info
    ensures s.info[id].refCount == |Refs(s.news, id)|
  {
    hide Indexed, Ordered, TriedOk, NewOk, CountsOk, TimesOk;
  }

  lemma NewInBounds(h: Hashes, s: State)
    requires Core(h, s, {}, {})
    ensures forall k :: k in s.news ==> 0 <= k.bucket < NEW_BUCKET_COUNT
  {
    hide Indexed, Ordered, TriedOk, RefsOk, CountsOk, TimesOk;
  }

  lemma IdNotEmpty(h: Hashes, s: State, id: int)
    requires Core(h, s, {}, {}) && id in s.info
    ensures id != EMPTY_SLOT
  {
    hide Ordered, TriedOk, NewOk, RefsOk, CountsOk, TimesOk;
  }

  lemma CoreHas(h: Hashes, s: State, limbo: set<int>, zero: set<int>, id: int)
    requires Core(h, s, limbo, zero) && id in limbo
    ensures Ordered(s.info.Keys, s.random, s.pos) && id in s.info && id != EMPTY_SLOT
  {
    hide Ordered, TriedOk, NewOk, RefsOk, TimesOk;
    assert id in NewIds(s.info);
  }

  lemma CoreOrdered(h: Hashes, s: State, limbo: set<int>, zero: set<int>, id: int)
    requires Core(h, s, limbo, zero) && id in s.info
    ensures Ordered(s.info.Keys, s.random, s.pos) && id != EMPTY_SLOT
  {
    hide Ordered, TriedOk, NewOk, RefsOk, TimesOk, CountsOk;
  }

  lemma ConsistentCore(h: Hashes, s: State)
    requires Consistent(h, s)
    ensures Core(h, s, {}, {})
  {
    hide Core;
  }

  lemma ConsistentRandom(h: Hashes, s: State, i: nat)
    requires Consistent(h, s) && i < |s.random|
    ensures s.random[i] in s.info
  {
    hide Core;
    OrderedIn(h, s, i);
  }

  /** The bucket visited after `m` others, from a given start. */
  function Nth(start: int, m: int): int {
    (m + start) % NEW_BUCKET_COUNT
  }

  /** The entry sits at its position in a bucket. */
  ghost predicate Hit(h: Hashes, s: State, id: int, b: int) {
    id in s.info && var k := Slot(b, Position(h, s.info[id].Service(), true, b)); k in s.news && At(s.news, k) == id
  }

  lemma NoHits(h: Hashes, s: State, id: int, start: int)
    requires Core(h, s, {}, {}) && id in s.info && 0 <= start < NEW_BUCKET_COUNT
    requires forall m :: 0 <= m < NEW_BUCKET_COUNT ==> !Hit(h, s, id, Nth(start, m))
    ensures Refs(s.news, id) == {}
  {
    hide Indexed, Ordered, TriedOk, RefsOk, CountsOk, TimesOk;
    forall k | k in s.news
      ensures At(s.news, k) != id
    {
      var m := (k.bucket - start) % NEW_BUCKET_COUNT;
      assert Nth(start, m) == k.bucket;
    }
  }

  /** The addresses of the listed entries that are not terrible. */
  function Healthy(info: Infos, ids: seq<int>, now: int): seq<Address> {
    if ids == [] then []
    else
      var id := ids[|ids| - 1];
      Healthy(info, ids[..|ids| - 1], now) +
        if id in info && !IsTerrible(info[id], now) then [info[id].addr] else []
  }

  lemma HealthyNone(info: Infos, ids: seq<int>, now: int)
    requires ids == []
    ensures Healthy(info, ids, now) == []
  {
  }

  lemma HealthyNext(info: Infos, ids: seq<int>, n: nat, now: int)
    requires n < |ids| && ids[n] in info
    ensures Healthy(info, ids[..n + 1], now) ==
      Healthy(info, ids[..n], now) + if !IsTerrible(info[ids[n]], now) then [info[ids[n]].addr] else []
  {
    assert ids[..n + 1][..n] == ids[..n];
  }

  function Wanted(total: nat, maxAddresses: nat, maxPct: nat): nat {
    var part := if maxPct != 0 then maxPct * total / 100 else total;
    if maxAddresses != 0 && maxAddresses < part then maxAddresses else part
  }
}
