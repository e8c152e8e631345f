/** Adding an address to the new table, on values. */
module AddrManAdd {
  import opened Common
  import opened AddrManSpec
  import opened AddrManOps

  function Max(a: int, b: int): int { if a < b then b else a }

  /** Whether an entry may take a new slot: it is free, or its occupant is terrible, or the
      occupant has other references and the entry has none. */
  predicate MayTake(s: State, id: int, u: Slot, now: int)
    requires id in s.info && (u in s.news ==> At(s.news, u) in s.info)
  {
    || u !in s.news
    || IsTerrible(s.info[At(s.news, u)], now)
    || (s.info[At(s.news, u)].refCount > 1 && s.info[id].refCount == 0)
  }

  function AddRef(s: State, id: int, u: Slot): State
    requires id in s.info
  {
    s.(info := s.info[id := s.info[id].(refCount := s.info[id].refCount + 1)], news := s.news[u := id])
  }

  /** The tail of Add_: give the entry one more reference, or drop it if it gets none. */
  function Link(h: Hashes, s: State, id: int, source: NetAddr, now: int): State
    requires Core(h, s, {}, {id}) && id in s.info && !s.info[id].inTried
  {
    var u := NewSlot(h, s.info[id].Service(), source);
    SlotReferenced(h, s, id, u);
    if u in s.news && At(s.news, u) == id then s
    else if MayTake(s, id, u, now) then
      StaysWhenCleared(h, s, id, u);
      AddRef(ClearNew(s, u), id, u)
    else if s.info[id].refCount == 0 then Delete(s, id)
    else s
  }

  lemma SlotReferenced(h: Hashes, s: State, id: int, u: Slot)
    requires Core(h, s, {}, {id})
    ensures Referenced(s, u)
  {
    hide Indexed, Ordered, TriedOk, NewOk, RefsOk, CountsOk, TimesOk, ClearNew;
    ClearNewCore(h, s, u, {}, {id});
  }

  lemma AddRefCore(h: Hashes, s: State, id: int, u: Slot, source: NetAddr)
    requires Core(h, s, {}, {id}) && id in s.info && !s.info[id].inTried
    requires s.info[id].refCount < NEW_BUCKETS_PER_ADDRESS
    requires u !in s.news && u == NewSlot(h, s.info[id].Service(), source)
    ensures Core(h, AddRef(s, id, u), {}, {})
  {
    hide Indexed, Ordered, TriedOk, NewOk, RefsOk, CountsOk, TimesOk, SameShape;
    var t := AddRef(s, id, u);
    AddRefShape(s, id, u);
    AddRefRefs(s, id, u);
    AddRefNew(h, s, id, u, source);
    ShapeIndexed(s.idCount, s.info, t.info, s.addrs);
    ShapeTried(h, s.info, t.info, s.tried);
    ShapeCounts(s.info, t.info, s.nTried, s.nNew, {});
    ShapeIds(s.info, t.info);
  }

  lemma AddRefShape(s: State, id: int, u: Slot)
    requires id in s.info && TimesOk(s.info)
    ensures SameShape(s.info, AddRef(s, id, u).info) && TimesOk(AddRef(s, id, u).info)
  {
  }

  lemma AddRefRefs(s: State, id: int, u: Slot)
    requires RefsOk(s.info, s.news, {id}) && id in s.info && u !in s.news
    requires s.info[id].refCount < NEW_BUCKETS_PER_ADDRESS
    ensures var t := AddRef(s, id, u); RefsOk(t.info, t.news, {})
  {
    var t := AddRef(s, id, u);
    assert Refs(t.news, id) == Refs(s.news, id) + {u};
    forall o | o in t.info && o != id
      ensures Refs(t.news, o) == Refs(s.news, o)
    {
    }
  }

  lemma AddRefNew(h: Hashes, s: State, id: int, u: Slot, source: NetAddr)
    requires NewOk(h, s.info, s.news) && id in s.info && !s.info[id].inTried
    requires u == NewSlot(h, s.info[id].Service(), source)
    ensures var t := AddRef(s, id, u); NewOk(h, t.info, t.news)
  {
    var t := AddRef(s, id, u);
    forall k | k in t.news
      ensures At(t.news, k) in t.info && !t.info[At(t.news, k)].inTried
      ensures t.info[At(t.news, k)].Service() == s.info[At(t.news, k)].Service()
      ensures k != u ==> k in s.news && At(t.news, k) == At(s.news, k)
    {
    }
  }

  /** The occupant of a slot other than the entry itself goes; the entry stays. */
  lemma StaysWhenCleared(h: Hashes, s: State, id: int, u: Slot)
    requires Core(h, s, {}, {id}) && id in s.info && (u in s.news ==> At(s.news, u) != id)
    ensures Referenced(s, u) && id in ClearNew(s, u).info && ClearNew(s, u).info[id] == s.info[id]
    ensures u !in ClearNew(s, u).news
  {
    hide Indexed, Ordered, TriedOk, NewOk, RefsOk, CountsOk, TimesOk, ClearNew;
    ClearNewCore(h, s, u, {}, {id});
  }

  lemma LinkCore(h: Hashes, s: State, id: int, source: NetAddr, now: int)
    requires Core(h, s, {}, {id}) && id in s.info && !s.info[id].inTried
    requires s.info[id].refCount < NEW_BUCKETS_PER_ADDRESS
    ensures Core(h, Link(h, s, id, source, now), {}, {})
  {
    hide Indexed, Ordered, TriedOk, NewOk, RefsOk, CountsOk, TimesOk, ClearNew, Delete;
    var u := NewSlot(h, s.info[id].Service(), source);
    ClearNewCore(h, s, u, {}, {id});
    if u in s.news && At(s.news, u) == id {
      AlreadyLinked(s, id);
    } else if MayTake(s, id, u, now) {
      StaysWhenCleared(h, s, id, u);
      AddRefCore(h, ClearNew(s, u), id, u, source);
    } else if s.info[id].refCount == 0 {
      DeleteCore(h, s, id, {}, {id});
      assert {id} - {id} == {};
    } else {
      AlreadyLinked(s, id);
    }
  }

  lemma AlreadyLinked(s: State, id: int)
    requires RefsOk(s.info, s.news, {id}) && id in s.info
    ensures s.info[id].refCount != 0 || (exists u :: u in s.news && At(s.news, u) == id) ==> RefsOk(s.info, s.news, {})
  {
    if u :| u in s.news && At(s.news, u) == id {
      assert u in Refs(s.news, id);
    }
  }

  // ----- Creating an entry -----

  function CreateNew(s: State, a: Address, source: NetAddr, penalty: int): State {
    Create(s, a.(nTime := Max(0, a.nTime - penalty)), source).(nNew := s.nNew + 1)
  }

  lemma CreateNewCore(h: Hashes, s: State, a: Address, source: NetAddr, penalty: int)
    requires Core(h, s, {}, {}) && a.service.net !in s.addrs
    ensures s.idCount !in s.info && Core(h, CreateNew(s, a, source, penalty), {}, {s.idCount})
  {
    hide Indexed, Ordered, TriedOk, NewOk, RefsOk, CountsOk, TimesOk;
    var t := CreateNew(s, a, source, penalty);
    CreateIndexed(s, a, source, penalty);
    CreateOrdered(s, a, source, penalty);
    CreateTables(h, s, a, source, penalty);
    CreateRefs(h, s, a, source, penalty);
    CreateCounts(s, a, source, penalty);
  }

  lemma CreateIndexed(s: State, a: Address, source: NetAddr, penalty: int)
    requires Indexed(s.idCount, s.info, s.addrs) && a.service.net !in s.addrs
    ensures s.idCount !in s.info
    ensures var t := CreateNew(s, a, source, penalty); Indexed(t.idCount, t.info, t.addrs)
  {
    var t := CreateNew(s, a, source, penalty);
    forall id | id in t.info
      ensures 0 <= id < t.idCount && t.info[id].Net() in t.addrs && At(t.addrs, t.info[id].Net()) == id
    {
      if id != s.idCount {
        assert id in s.info && At(s.addrs, s.info[id].Net()) == id;
      }
    }
    forall x | x in t.addrs
      ensures At(t.addrs, x) in t.info && t.info[At(t.addrs, x)].Net() == x
    {
      if x != a.service.net {
        assert x in s.addrs && At(s.addrs, x) in s.info;
      }
    }
  }

  lemma CreateOrdered(s: State, a: Address, source: NetAddr, penalty: int)
    requires Ordered(s.info.Keys, s.random, s.pos) && s.idCount !in s.info
    ensures var t := CreateNew(s, a, source, penalty); Ordered(t.info.Keys, t.random, t.pos)
  {
    var t := CreateNew(s, a, source, penalty);
    forall i | 0 <= i < |s.random|
      ensures s.random[i] in s.info && t.random[i] == s.random[i] && t.pos[t.random[i]] == i
    {
    }
  }

  lemma CreateTables(h: Hashes, s: State, a: Address, source: NetAddr, penalty: int)
    requires TriedOk(h, s.info, s.tried) && NewOk(h, s.info, s.news) && TimesOk(s.info) && s.idCount !in s.info
    ensures var t := CreateNew(s, a, source, penalty);
      TriedOk(h, t.info, t.tried) && NewOk(h, t.info, t.news) && TimesOk(t.info)
  {
    var t := CreateNew(s, a, source, penalty);
    assert forall id :: id in s.info ==> id in t.info && t.info[id] == s.info[id];
    assert forall id :: id in t.info && t.info[id].inTried ==> id in s.info;
  }

  lemma CreateRefs(h: Hashes, s: State, a: Address, source: NetAddr, penalty: int)
    requires NewOk(h, s.info, s.news) && RefsOk(s.info, s.news, {}) && s.idCount !in s.info
    ensures var t := CreateNew(s, a, source, penalty); RefsOk(t.info, t.news, {s.idCount})
  {
    forall k | k in s.news
      ensures At(s.news, k) != s.idCount
    {
    }
    assert Refs(s.news, s.idCount) == {};
  }

  lemma CreateCounts(s: State, a: Address, source: NetAddr, penalty: int)
    requires CountsOk(s.info, s.nTried, s.nNew, {}) && s.idCount !in s.info
    ensures var t := CreateNew(s, a, source, penalty); CountsOk(t.info, t.nTried, t.nNew, {})
  {
    var t := CreateNew(s, a, source, penalty);
    CreateIds(s.info, s.idCount, t.info[s.idCount]);
    assert NewIds(t.info) - {} == NewIds(t.info) && NewIds(s.info) - {} == NewIds(s.info);
  }

  lemma CreateIds(info: Infos, id: int, i: Info)
    requires id !in info && !i.inTried
    ensures TriedIds(info[id := i]) == TriedIds(info) && NewIds(info[id := i]) == NewIds(info) + {id}
  {
  }

  // ----- Add_ -----

  /** What an announcement changes in a known entry: its time, when stale, and its services. */
  function Refreshed(i: Info, a: Address, penalty: int, now: int): Info {
    var interval := if now - a.nTime < 24 * 60 * 60 then 60 * 60 else 24 * 60 * 60;
    var time := if a.nTime != 0 && (i.addr.nTime == 0 || i.addr.nTime < a.nTime - interval - penalty)
                then Max(0, a.nTime - penalty) else i.addr.nTime;
    i.(addr := i.addr.(nTime := time, services := i.addr.services + a.services))
  }

  /** Whether a known entry gets a chance of another reference; `lucky` is the random draw. */
  predicate WantsMore(i: Info, a: Address, lucky: bool) {
    && a.nTime != 0 && (i.addr.nTime == 0 || a.nTime > i.addr.nTime)
    && !i.inTried && i.refCount != NEW_BUCKETS_PER_ADDRESS
    && (i.refCount > 0 ==> lucky)
  }

  datatype Added = Added(state: State, isNew: bool)

  function Penalty(a: Address, source: NetAddr, penalty: int): int {
    if a.service.net == source then 0 else penalty
  }

  ghost function Add(h: Hashes, s: State, a: Address, source: NetAddr, penalty: int, now: int, lucky: bool): Added
    requires Core(h, s, {}, {})
  {
    if !a.service.net.routable then Added(s, false)
    else
      var p := Penalty(a, source, penalty);
      match Find(s, a.service.net)
      case Some(id) =>
        var i := Refreshed(s.info[id], a, p, now);
        RefreshCore(h, s, id, a, p, now);
        var t := SetInfo(s, id, i);
        Added(if WantsMore(i, a, lucky) then Link(h, t, id, source, now) else t, false)
      case None =>
        UnknownIsFree(h, s, a.service.net);
        CreateNewCore(h, s, a, source, p);
        Added(Link(h, CreateNew(s, a, source, p), s.idCount, source, now), true)
  }

  lemma UnknownIsFree(h: Hashes, s: State, a: NetAddr)
    requires Core(h, s, {}, {}) && Find(s, a).None?
    ensures a !in s.addrs
  {
    hide Ordered, TriedOk, NewOk, RefsOk, CountsOk, TimesOk;
  }

  lemma RefreshCore(h: Hashes, s: State, id: int, a: Address, penalty: int, now: int)
    requires Core(h, s, {}, {}) && id in s.info
    ensures Core(h, SetInfo(s, id, Refreshed(s.info[id], a, penalty, now)), {}, {})
    ensures Core(h, SetInfo(s, id, Refreshed(s.info[id], a, penalty, now)), {}, {id})
  {
    hide Indexed, Ordered, TriedOk, NewOk, RefsOk, CountsOk, TimesOk, Refreshed;
    var t := SetInfo(s, id, Refreshed(s.info[id], a, penalty, now));
    RefreshSame(s.info, id, a, penalty, now);
    ShapeCore(h, s, t, {}, {});
    FewerZero(t, {}, {id});
  }

  lemma RefreshFields(i: Info, a: Address, penalty: int, now: int)
    ensures var r := Refreshed(i, a, penalty, now);
      r.addr.service == i.addr.service && r.inTried == i.inTried && r.refCount == i.refCount
  {
  }

  lemma RefreshSame(info: Infos, id: int, a: Address, penalty: int, now: int)
    requires id in info && TimesOk(info)
    ensures var i := Refreshed(info[id], a, penalty, now);
      && i.addr.service == info[id].addr.service && i.inTried == info[id].inTried && i.refCount == info[id].refCount
      && TimesOk(info[id := i])
  {
  }

  // ----- What Add_ keeps and changes -----

  /** Whether the tail of Add_ puts the entry into its slot. */
  predicate Takes(h: Hashes, s: State, id: int, source: NetAddr, now: int)
    requires id in s.info
  {
    var u := NewSlot(h, s.info[id].Service(), source);
    (u in s.news ==> At(s.news, u) in s.info && At(s.news, u) != id) && MayTake(s, id, u, now)
  }

  /** What the tail does to every other entry: nothing, except that the occupant of a slot taken
      loses it, and is dropped exactly when it had no other. */
  lemma LinkOthers(h: Hashes, s: State, id: int, source: NetAddr, now: int, x: int)
    requires Core(h, s, {}, {id}) && id in s.info && !s.info[id].inTried && x in s.info && x != id
    ensures var t := Link(h, s, id, source, now);
      var u := NewSlot(h, s.info[id].Service(), source);
      var lost := if Takes(h, s, id, source, now) then {u} else {};
      && (x in t.info <==> Refs(s.news, x) == {} || Refs(s.news, x) - lost != {})
      && (x in t.info ==> t.info[x] == s.info[x].(refCount := |Refs(s.news, x) - lost|))
      && Refs(t.news, x) == Refs(s.news, x) - lost
  {
    hide Indexed, Ordered, TriedOk, NewOk, RefsOk, CountsOk, TimesOk, ClearNew, InfoCleared, Delete, IsTerrible;
    RefsOf(h, s, id, x);
    var u := NewSlot(h, s.info[id].Service(), source);
    ClearNewCore(h, s, u, {}, {id});
    if u in s.news && At(s.news, u) == id {
    } else if MayTake(s, id, u, now) {
      StaysWhenCleared(h, s, id, u);
      EntryCleared(s.info, s.news, {id}, u, x);
      RefsMoved(s.news, u, id, x);
    } else if s.info[id].refCount == 0 {
      DeleteCore(h, s, id, {}, {id});
    }
  }

  lemma RefsOf(h: Hashes, s: State, id: int, x: int)
    requires Core(h, s, {}, {id}) && x in s.info
    ensures s.info[x].refCount == |Refs(s.news, x)|
    ensures Refs(s.news, x) - {} == Refs(s.news, x) && Refs(s.news, x) + {} == Refs(s.news, x)
  {
    hide Indexed, Ordered, TriedOk, NewOk, CountsOk, TimesOk;
  }

  lemma InRefs(news: map<Slot, int>, u: Slot, id: int)
    ensures u in Refs(news, id) <==> u in news && At(news, u) == id
  {
  }

  /** What the tail does to the entry itself: one more reference, or none; it is dropped exactly
      when it is left with none. */
  lemma LinkSelf(h: Hashes, s: State, id: int, source: NetAddr, now: int)
    requires Core(h, s, {}, {id}) && id in s.info && !s.info[id].inTried
    ensures var t := Link(h, s, id, source, now);
      var u := NewSlot(h, s.info[id].Service(), source);
      var gained := if Takes(h, s, id, source, now) then {u} else {};
      && Refs(t.news, id) == Refs(s.news, id) + gained
      && (id in t.info <==> Refs(s.news, id) + gained != {})
      && (id in t.info ==> t.info[id] == s.info[id].(refCount := |Refs(s.news, id) + gained|))
  {
    hide Indexed, Ordered, TriedOk, NewOk, RefsOk, CountsOk, TimesOk, ClearNew, InfoCleared, Delete, IsTerrible;
    hide Refs;
    RefsOf(h, s, id, id);
    var u := NewSlot(h, s.info[id].Service(), source);
    ClearNewCore(h, s, u, {}, {id});
    InRefs(s.news, u, id);
    if u in s.news && At(s.news, u) == id {
    } else if MayTake(s, id, u, now) {
      StaysWhenCleared(h, s, id, u);
      RefsMoved(s.news, u, id, id);
    } else if s.info[id].refCount == 0 {
      DeleteCore(h, s, id, {}, {id});
    }
  }

  lemma LinkFrame(h: Hashes, s: State, id: int, source: NetAddr, now: int)
    requires Core(h, s, {}, {id}) && id in s.info && !s.info[id].inTried
    ensures var t := Link(h, s, id, source, now);
      && t.tried == s.tried && t.idCount == s.idCount && t.collisions == s.collisions && t.lastGood == s.lastGood
      && forall x :: x in t.info ==> x in s.info && t.info[x].Service() == s.info[x].Service()
  {
    hide Indexed, Ordered, TriedOk, NewOk, RefsOk, CountsOk, TimesOk, ClearNew, Delete, IsTerrible;
    var u := NewSlot(h, s.info[id].Service(), source);
    ClearNewCore(h, s, u, {}, {id});
    if u in s.news && At(s.news, u) == id {
    } else if MayTake(s, id, u, now) {
      StaysWhenCleared(h, s, id, u);
    } else if s.info[id].refCount == 0 {
      DeleteCore(h, s, id, {}, {id});
    }
  }

  lemma AddKeeps(h: Hashes, s: State, a: Address, source: NetAddr, penalty: int, now: int, lucky: bool)
    requires Consistent(h, s)
    ensures var t := Add(h, s, a, source, penalty, now, lucky).state;
      Consistent(h, t) && t.tried == s.tried && t.collisions == s.collisions && s.idCount <= t.idCount
  {
    hide Core, Link, Refreshed, CreateNew;
    if a.service.net.routable {
      var p := Penalty(a, source, penalty);
      match Find(s, a.service.net)
      case Some(id) => AddKnownKeeps(h, s, a, source, p, now, lucky, id);
      case None => AddUnknownKeeps(h, s, a, source, p, now);
    }
  }

  lemma AddKnownKeeps(h: Hashes, s: State, a: Address, source: NetAddr, p: int, now: int, lucky: bool, id: int)
    requires Consistent(h, s) && id in s.info
    ensures var i := Refreshed(s.info[id], a, p, now);
      && Core(h, SetInfo(s, id, i), {}, {id})
      && var t := if WantsMore(i, a, lucky) then Link(h, SetInfo(s, id, i), id, source, now) else SetInfo(s, id, i);
      Consistent(h, t) && t.tried == s.tried && t.collisions == s.collisions && s.idCount == t.idCount
  {
    hide Core, Link, Refreshed, IsTerrible;
    RefCountBelow(h, s, id);
    var i := Refreshed(s.info[id], a, p, now);
    RefreshCore(h, s, id, a, p, now);
    RefreshFields(s.info[id], a, p, now);
    var m := SetInfo(s, id, i);
    if WantsMore(i, a, lucky) {
      LinkCore(h, m, id, source, now);
      LinkFrame(h, m, id, source, now);
      CollisionsKept(h, s, Link(h, m, id, source, now));
    } else {
      CollisionsKept(h, s, m);
    }
  }

  lemma RefCountBelow(h: Hashes, s: State, id: int)
    requires Core(h, s, {}, {}) && id in s.info
    ensures s.info[id].refCount <= NEW_BUCKETS_PER_ADDRESS
  {
    hide Indexed, Ordered, TriedOk, NewOk, CountsOk, TimesOk;
  }

  lemma AddUnknownKeeps(h: Hashes, s: State, a: Address, source: NetAddr, p: int, now: int)
    requires Consistent(h, s) && Find(s, a.service.net).None?
    ensures var m := CreateNew(s, a, source, p);
      && Core(h, m, {}, {s.idCount}) && s.idCount in m.info && !m.info[s.idCount].inTried
      && var t := Link(h, m, s.idCount, source, now);
      Consistent(h, t) && t.tried == s.tried && t.collisions == s.collisions && s.idCount <= t.idCount
  {
    hide Core, Link, IsTerrible;
    UnknownIsFree(h, s, a.service.net);
    CreateNewCore(h, s, a, source, p);
    var m := CreateNew(s, a, source, p);
    LinkCore(h, m, s.idCount, source, now);
    LinkFrame(h, m, s.idCount, source, now);
    CollisionsKept(h, s, Link(h, m, s.idCount, source, now));
  }

  /** Add_ reports a new address exactly when it is routable and was not known. */
  lemma AddReports(h: Hashes, s: State, a: Address, source: NetAddr, penalty: int, now: int, lucky: bool)
    requires Consistent(h, s)
    ensures Add(h, s, a, source, penalty, now, lucky).isNew <==>
      a.service.net.routable && a.service.net !in s.addrs
  {
    hide Core, Link;
    if Find(s, a.service.net).None? {
      UnknownIsFree(h, s, a.service.net);
    } else {
      assert a.service.net in s.addrs;
    }
  }

  /** An address that Add_ reports as new is kept only if its slot is free, or the occupant is
      terrible or has another reference; otherwise it is dropped again at once, although the
      call still reports it as added. */
  lemma AddStores(h: Hashes, s: State, a: Address, source: NetAddr, penalty: int, now: int, lucky: bool)
    requires Consistent(h, s) && a.service.net.routable && a.service.net !in s.addrs
    ensures var r := Add(h, s, a, source, penalty, now, lucky);
      var u := NewSlot(h, a.service, source);
      && r.isNew
      && (u in s.news ==> At(s.news, u) in s.info)
      && (s.idCount in r.state.info <==>
            u !in s.news || IsTerrible(s.info[At(s.news, u)], now) || s.info[At(s.news, u)].refCount > 1)
  {
    hide Core, Link, IsTerrible;
    var p := Penalty(a, source, penalty);
    CreateNewCore(h, s, a, source, p);
    var m := CreateNew(s, a, source, p);
    FreshUnreferenced(h, s);
    LinkSelf(h, m, s.idCount, source, now);
  }

  lemma FreshUnreferenced(h: Hashes, s: State)
    requires Core(h, s, {}, {})
    ensures Refs(s.news, s.idCount) == {}
    ensures forall k :: k in s.news ==> At(s.news, k) in s.info && At(s.news, k) != s.idCount
  {
    hide Ordered, TriedOk, RefsOk, CountsOk, TimesOk;
  }
}
