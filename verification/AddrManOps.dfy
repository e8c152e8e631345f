/** The address manager's operations on values, and what each does to every entry. */
module AddrManOps {
  import opened AddrManSpec

  // ----- Moving an entry to the tried table -----

  /** All references to an entry dropped; it is no longer counted as new. */
  function DropRefs(s: State, id: int): State
    requires id in s.info
  {
    s.(info := s.info[id := s.info[id].(refCount := 0)],
       news := map k | k in s.news && At(s.news, k) != id :: s.news[k],
       nNew := s.nNew - 1)
  }

  /** The entry in a tried slot taken out of the table. */
  function Evict(s: State, k: Slot): State
    requires k in s.tried && At(s.tried, k) in s.info
  {
    var gone := At(s.tried, k);
    s.(info := s.info[gone := s.info[gone].(inTried := false)], tried := s.tried - {k}, nTried := s.nTried - 1)
  }

  /** An evicted entry put into a new slot. */
  function Reenter(s: State, gone: int, u: Slot): State
    requires gone in s.info
  {
    s.(info := s.info[gone := s.info[gone].(refCount := 1)], news := s.news[u := gone], nNew := s.nNew + 1)
  }

  function Place(s: State, id: int, k: Slot): State
    requires id in s.info
  {
    s.(info := s.info[id := s.info[id].(inTried := true)], tried := s.tried[k := id], nTried := s.nTried + 1)
  }

  lemma DropRefsCore(h: Hashes, s: State, id: int)
    requires Core(h, s, {}, {}) && id in s.info && !s.info[id].inTried
    ensures Core(h, DropRefs(s, id), {id}, {id})
  {
    hide Indexed, Ordered, TriedOk, NewOk, RefsOk, CountsOk, TimesOk, SameShape;
    var t := DropRefs(s, id);
    DropRefsNew(h, s, id);
    DropRefsCounts(s, id);
    ShapeIds(s.info, t.info);
    ShapeIndexed(s.idCount, s.info, t.info, s.addrs);
    ShapeTried(h, s.info, t.info, s.tried);
  }

  lemma DropRefsNew(h: Hashes, s: State, id: int)
    requires NewOk(h, s.info, s.news) && RefsOk(s.info, s.news, {}) && id in s.info && !s.info[id].inTried
    ensures var t := DropRefs(s, id); NewOk(h, t.info, t.news) && RefsOk(t.info, t.news, {id})
  {
    var t := DropRefs(s, id);
    assert Refs(t.news, id) == {};
    forall o | o in t.info && o != id
      ensures Refs(t.news, o) == Refs(s.news, o)
    {
    }
  }

  lemma DropRefsCounts(s: State, id: int)
    requires CountsOk(s.info, s.nTried, s.nNew, {}) && TimesOk(s.info) && id in s.info && !s.info[id].inTried
    ensures var t := DropRefs(s, id);
      SameShape(s.info, t.info) && CountsOk(t.info, t.nTried, t.nNew, {id}) && TimesOk(t.info)
  {
    var t := DropRefs(s, id);
    assert SameShape(s.info, t.info);
    ShapeIds(s.info, t.info);
    assert NewIds(s.info) - {} == NewIds(s.info);
    assert id in NewIds(s.info);
  }

  lemma EvictCore(h: Hashes, s: State, k: Slot, limbo: set<int>, zero: set<int>)
    requires Core(h, s, limbo, zero) && k in s.tried
    ensures var gone := At(s.tried, k);
      && gone in s.info && s.info[gone].inTried && s.info[gone].refCount == 0 && gone !in limbo
      && k == TriedSlot(h, s.info[gone].Service())
      && Core(h, Evict(s, k), limbo + {gone}, zero + {gone})
  {
    hide Indexed, Ordered, TriedOk, NewOk, RefsOk, CountsOk, TimesOk;
    var gone := At(s.tried, k);
    TriedHolds(h, s, k, limbo, zero);
    var t := Evict(s, k);
    assert t.info.Keys == s.info.Keys;
    EvictTried(h, s, k);
    EvictCounts(s, k, limbo);
    EvictNew(h, s, k, zero);
    SetIndexed(s.idCount, s.info, s.addrs, gone, t.info[gone]);
    SetTimes(s.info, gone, t.info[gone]);
  }

  /** The occupant of a tried slot is a tried entry that hashes there and has no references. */
  lemma TriedHolds(h: Hashes, s: State, k: Slot, limbo: set<int>, zero: set<int>)
    requires TriedOk(h, s.info, s.tried) && NewOk(h, s.info, s.news) && RefsOk(s.info, s.news, zero)
    requires CountsOk(s.info, s.nTried, s.nNew, limbo) && TimesOk(s.info) && k in s.tried
    ensures var gone := At(s.tried, k);
      && gone in s.info && s.info[gone].inTried && s.info[gone].refCount == 0 && gone !in limbo
      && k == TriedSlot(h, s.info[gone].Service()) && s.info[gone].lastSuccess > 0 && s.info[gone].lastTry >= 0
  {
    var gone := At(s.tried, k);
    forall x | x in s.news
      ensures At(s.news, x) != gone
    {
    }
    assert Refs(s.news, gone) == {};
  }

  /** Rewriting an entry without changing its address keeps the index. */
  lemma SetIndexed(idCount: int, info: Infos, addrs: map<NetAddr, int>, id: int, i: Info)
    requires Indexed(idCount, info, addrs) && id in info && i.Net() == info[id].Net()
    ensures Indexed(idCount, info[id := i], addrs)
  {
    assert forall x :: x in info[id := i] <==> x in info;
    assert forall x :: x in info ==> info[id := i][x].Net() == info[x].Net();
  }

  lemma SetTimes(info: Infos, id: int, i: Info)
    requires TimesOk(info) && i.lastTry >= 0 && i.lastSuccess >= 0 && (i.inTried ==> i.lastSuccess > 0)
    ensures TimesOk(info[id := i])
  {
  }

  lemma EvictTried(h: Hashes, s: State, k: Slot)
    requires TriedOk(h, s.info, s.tried) && k in s.tried
    ensures var t := Evict(s, k); TriedOk(h, t.info, t.tried)
  {
    var t := Evict(s, k);
    forall id | id in t.info && t.info[id].inTried
      ensures var x := TriedSlot(h, t.info[id].Service()); x in t.tried && At(t.tried, x) == id
    {
      var x := TriedSlot(h, s.info[id].Service());
      assert id in s.info && s.info[id].inTried && At(s.tried, x) == id;
    }
  }

  lemma EvictNew(h: Hashes, s: State, k: Slot, zero: set<int>)
    requires NewOk(h, s.info, s.news) && RefsOk(s.info, s.news, zero)
    requires k in s.tried && At(s.tried, k) in s.info && s.info[At(s.tried, k)].inTried
    ensures var t := Evict(s, k); NewOk(h, t.info, t.news) && RefsOk(t.info, t.news, zero + {At(s.tried, k)})
  {
  }

  lemma EvictCounts(s: State, k: Slot, limbo: set<int>)
    requires CountsOk(s.info, s.nTried, s.nNew, limbo) && k in s.tried
    requires At(s.tried, k) in s.info && s.info[At(s.tried, k)].inTried && s.info[At(s.tried, k)].refCount == 0
    ensures var t := Evict(s, k); CountsOk(t.info, t.nTried, t.nNew, limbo + {At(s.tried, k)})
  {
    var gone := At(s.tried, k);
    var t := Evict(s, k);
    assert TriedIds(t.info) == TriedIds(s.info) - {gone};
    assert NewIds(t.info) == NewIds(s.info) + {gone};
    assert gone !in limbo;
    assert NewIds(t.info) - (limbo + {gone}) == NewIds(s.info) - limbo;
  }

  lemma ReenterCore(h: Hashes, s: State, gone: int, u: Slot, limbo: set<int>, zero: set<int>)
    requires Core(h, s, limbo, zero) && gone in limbo && u !in s.news && gone in s.info
    requires u == NewSlot(h, s.info[gone].Service(), s.info[gone].source)
    ensures Core(h, Reenter(s, gone, u), limbo - {gone}, zero - {gone})
  {
    hide Indexed, Ordered, TriedOk, NewOk, RefsOk, CountsOk, TimesOk, SameShape;
    var t := Reenter(s, gone, u);
    ReenterCounts(s, gone, u, limbo);
    ReenterRefs(h, s, gone, u, zero);
    ShapeIds(s.info, t.info);
    ShapeIndexed(s.idCount, s.info, t.info, s.addrs);
    ShapeTried(h, s.info, t.info, s.tried);
  }

  lemma ReenterCounts(s: State, gone: int, u: Slot, limbo: set<int>)
    requires CountsOk(s.info, s.nTried, s.nNew, limbo) && gone in limbo && TimesOk(s.info)
    ensures gone in s.info && !s.info[gone].inTried && s.info[gone].refCount == 0
    ensures var t := Reenter(s, gone, u);
      SameShape(s.info, t.info) && CountsOk(t.info, t.nTried, t.nNew, limbo - {gone}) && TimesOk(t.info)
  {
    assert gone in NewIds(s.info);
    var t := Reenter(s, gone, u);
    assert SameShape(s.info, t.info);
    ShapeIds(s.info, t.info);
    assert NewIds(t.info) - (limbo - {gone}) == (NewIds(s.info) - limbo) + {gone};
  }

  lemma ReenterRefs(h: Hashes, s: State, gone: int, u: Slot, zero: set<int>)
    requires NewOk(h, s.info, s.news) && RefsOk(s.info, s.news, zero) && u !in s.news
    requires gone in s.info && !s.info[gone].inTried && s.info[gone].refCount == 0
    requires u == NewSlot(h, s.info[gone].Service(), s.info[gone].source)
    ensures var t := Reenter(s, gone, u); NewOk(h, t.info, t.news) && RefsOk(t.info, t.news, zero - {gone})
  {
    var t := Reenter(s, gone, u);
    assert Refs(t.news, gone) == Refs(s.news, gone) + {u};
    forall o | o in t.info && o != gone
      ensures Refs(t.news, o) == Refs(s.news, o)
    {
    }
  }

  lemma PlaceCore(h: Hashes, s: State, id: int, k: Slot)
    requires Core(h, s, {id}, {id}) && id in s.info && s.info[id].lastSuccess > 0
    requires k == TriedSlot(h, s.info[id].Service()) && k !in s.tried
    ensures Core(h, Place(s, id, k), {}, {})
  {
    hide Indexed, Ordered, TriedOk, NewOk, RefsOk, CountsOk, TimesOk;
    var t := Place(s, id, k);
    assert t.info.Keys == s.info.Keys;
    PlaceCounts(s, id, k);
    PlaceTried(h, s, id, k);
    PlaceNew(h, s, id, k);
    SetIndexed(s.idCount, s.info, s.addrs, id, t.info[id]);
    SetTimes(s.info, id, t.info[id]);
  }

  lemma PlaceTried(h: Hashes, s: State, id: int, k: Slot)
    requires TriedOk(h, s.info, s.tried) && id in s.info && !s.info[id].inTried
    requires k == TriedSlot(h, s.info[id].Service()) && k !in s.tried
    ensures var t := Place(s, id, k); TriedOk(h, t.info, t.tried)
  {
    var t := Place(s, id, k);
    forall x | x in t.info && t.info[x].inTried
      ensures var y := TriedSlot(h, t.info[x].Service()); y in t.tried && At(t.tried, y) == x
    {
      if x != id {
        assert TriedSlot(h, s.info[x].Service()) in s.tried;
      }
    }
  }

  lemma PlaceNew(h: Hashes, s: State, id: int, k: Slot)
    requires NewOk(h, s.info, s.news) && RefsOk(s.info, s.news, {id}) && id in s.info && s.info[id].refCount == 0
    ensures var t := Place(s, id, k); NewOk(h, t.info, t.news) && RefsOk(t.info, t.news, {})
  {
    assert Refs(s.news, id) == {};
    forall x | x in s.news
      ensures At(s.news, x) != id
    {
      assert x !in Refs(s.news, id);
    }
  }

  lemma PlaceCounts(s: State, id: int, k: Slot)
    requires CountsOk(s.info, s.nTried, s.nNew, {id}) && id in s.info && TimesOk(s.info)
    ensures !s.info[id].inTried && s.info[id].refCount == 0 && s.info[id].lastTry >= 0
    ensures var t := Place(s, id, k); CountsOk(t.info, t.nTried, t.nNew, {})
  {
    var t := Place(s, id, k);
    assert id in NewIds(s.info);
    assert TriedIds(t.info) == TriedIds(s.info) + {id};
    assert NewIds(t.info) == NewIds(s.info) - {id};
    assert NewIds(t.info) - {} == NewIds(t.info);
  }

  /** Making room in a tried slot: its entry goes back to the one new slot that its own source
      hashes to, from which whatever was there is cleared. */
  function MoveAside(h: Hashes, s: State, k: Slot, id: int): State
    requires Core(h, s, {id}, {id})
  {
    if k !in s.tried then s
    else
      EvictCore(h, s, k, {id}, {id});
      var gone := At(s.tried, k);
      var e := Evict(s, k);
      var u := NewSlot(h, e.info[gone].Service(), e.info[gone].source);
      ClearNewCore(h, e, u, {id} + {gone}, {id} + {gone});
      Reenter(ClearNew(e, u), gone, u)
  }

  function MakeTried(h: Hashes, s: State, id: int): State
    requires Core(h, s, {}, {}) && id in s.info && !s.info[id].inTried
  {
    DropRefsCore(h, s, id);
    var d := DropRefs(s, id);
    var k := TriedSlot(h, s.info[id].Service());
    MoveAsideCore(h, d, k, id);
    Place(MoveAside(h, d, k, id), id, k)
  }

  lemma MoveAsideCore(h: Hashes, s: State, k: Slot, id: int)
    requires Core(h, s, {id}, {id})
    ensures var t := MoveAside(h, s, k, id);
      && Core(h, t, {id}, {id}) && k !in t.tried && t.tried == s.tried - {k}
      && id in s.info && id in t.info && t.info[id] == s.info[id]
      && t.idCount == s.idCount && t.collisions == s.collisions && t.lastGood == s.lastGood
  {
    hide Indexed, Ordered, TriedOk, NewOk, RefsOk, CountsOk, TimesOk, ClearNew;
    LimboIn(s, id);
    if k in s.tried {
      EvictCore(h, s, k, {id}, {id});
      var gone := At(s.tried, k);
      var e := Evict(s, k);
      var u := NewSlot(h, e.info[gone].Service(), e.info[gone].source);
      ClearNewCore(h, e, u, {id} + {gone}, {id} + {gone});
      var c := ClearNew(e, u);
      assert id in c.info && gone in c.info && c.info[id] == e.info[id] && c.info[gone] == e.info[gone];
      ReenterCore(h, c, gone, u, {id} + {gone}, {id} + {gone});
      assert {id} + {gone} - {gone} == {id};
    } else {
      assert s.tried - {k} == s.tried;
    }
  }

  lemma LimboIn(s: State, id: int)
    requires CountsOk(s.info, s.nTried, s.nNew, {id})
    ensures id in s.info && !s.info[id].inTried
  {
    assert id in NewIds(s.info);
  }

  lemma MakeTriedCore(h: Hashes, s: State, id: int)
    requires Core(h, s, {}, {}) && id in s.info && !s.info[id].inTried && s.info[id].lastSuccess > 0
    ensures Core(h, MakeTried(h, s, id), {}, {})
  {
    hide Indexed, Ordered, TriedOk, NewOk, RefsOk, CountsOk, TimesOk;
    DropRefsCore(h, s, id);
    var d := DropRefs(s, id);
    var k := TriedSlot(h, s.info[id].Service());
    MoveAsideCore(h, d, k, id);
    PlaceCore(h, MoveAside(h, d, k, id), id, k);
  }

  // ----- What a move does to every entry -----

  lemma RefsDropped(s: State, id: int, x: int)
    requires id in s.info
    ensures Refs(DropRefs(s, id).news, x) == if x == id then {} else Refs(s.news, x)
  {
  }

  lemma RefsMoved(news: map<Slot, int>, u: Slot, gone: int, x: int)
    ensures Refs((news - {u})[u := gone], x) == if x == gone then Refs(news, x) + {u} else Refs(news, x) - {u}
  {
  }

  /** Clearing a slot, seen from one entry: it loses the slot if it held it, and goes if it had
      no other. */
  lemma EntryCleared(info: Infos, news: map<Slot, int>, zero: set<int>, u: Slot, x: int)
    requires RefsOk(info, news, zero) && x in info && (u in news ==> At(news, u) in info)
    ensures var cleared := InfoCleared(info, news, u);
      && (x in cleared <==> Refs(news, x) != {u})
      && (x in cleared ==> cleared[x] == info[x].(refCount := |Refs(news, x) - {u}|))
  {
    var r := Refs(news, x);
    assert info[x].refCount == |r|;
    assert u in r <==> u in news && At(news, u) == x;
    hide RefsOk, Refs;
    Without(r, u);
  }

  lemma Without(r: set<Slot>, u: Slot)
    ensures u in r ==> |r - {u}| == |r| - 1 && (|r| == 1 <==> r == {u})
    ensures u !in r ==> r - {u} == r && r != {u}
  {
    if u in r {
      assert r == (r - {u}) + {u};
    }
  }

  /** What making room does to every entry. */
  lemma MoveAsideEffect(h: Hashes, s: State, k: Slot, id: int, x: int)
    requires Core(h, s, {id}, {id}) && k in s.tried && x in s.info && x != At(s.tried, k)
    ensures var t := MoveAside(h, s, k, id); var gone := At(s.tried, k);
      && gone in s.info && gone in t.info
      && var u := NewSlot(h, s.info[gone].Service(), s.info[gone].source);
      && t.info[gone] == s.info[gone].(refCount := 1, inTried := false) && Refs(t.news, gone) == {u}
      && (x in t.info <==> Refs(s.news, x) != {u})
      && (x in t.info ==> t.info[x] == s.info[x].(refCount := |Refs(s.news, x) - {u}|))
      && Refs(t.news, x) == Refs(s.news, x) - {u}
  {
    hide Indexed, Ordered, TriedOk, NewOk, CountsOk, TimesOk, ClearNew, InfoCleared, RefsOk;
    EvictCore(h, s, k, {id}, {id});
    var gone := At(s.tried, k);
    var e := Evict(s, k);
    var u := NewSlot(h, e.info[gone].Service(), e.info[gone].source);
    ClearNewCore(h, e, u, {id} + {gone}, {id} + {gone});
    EntryCleared(e.info, e.news, {id} + {gone}, u, x);
    EntryCleared(e.info, e.news, {id} + {gone}, u, gone);
    NoRefs(e, {id} + {gone}, gone);
    RefsMoved(s.news, u, gone, x);
    RefsMoved(s.news, u, gone, gone);
  }

  lemma NoRefs(s: State, zero: set<int>, x: int)
    requires RefsOk(s.info, s.news, zero) && x in s.info && s.info[x].refCount == 0
    ensures Refs(s.news, x) == {}
  {
  }

  /** What a move to the tried table does to every other entry.  Without a displaced entry
      nothing else changes.  The displaced entry ends untried with one reference, in the new slot
      of its own source.  The occupant of that slot loses that reference, and is dropped exactly
      when it was its last.  All others keep everything. */
  lemma MakeTriedOthers(h: Hashes, s: State, id: int, x: int)
    requires Core(h, s, {}, {}) && id in s.info && !s.info[id].inTried && x in s.info && x != id
    ensures var t := MakeTried(h, s, id);
      var k := TriedSlot(h, s.info[id].Service());
      if k !in s.tried then
        x in t.info && t.info[x] == s.info[x] && Refs(t.news, x) == Refs(s.news, x)
      else
        && var gone := At(s.tried, k);
        && gone in s.info && gone != id
        && var u := NewSlot(h, s.info[gone].Service(), s.info[gone].source);
        if x == gone then
          && x in t.info && t.info[x] == s.info[x].(refCount := 1, inTried := false)
          && Refs(t.news, x) == {u}
        else
          && (x in t.info <==> Refs(s.news, x) != {u})
          && (x in t.info ==> t.info[x] == s.info[x].(refCount := |Refs(s.news, x) - {u}|))
          && Refs(t.news, x) == Refs(s.news, x) - {u}
  {
    hide Indexed, Ordered, NewOk, CountsOk, RefsOk, TimesOk, TriedOk, MoveAside;
    DropRefsCore(h, s, id);
    var d := DropRefs(s, id);
    var k := TriedSlot(h, s.info[id].Service());
    MoveAsideCore(h, d, k, id);
    RefsDropped(s, id, x);
    if k in s.tried {
      EvictCore(h, d, k, {id}, {id});
      MoveAsideEffect(h, d, k, id, if x == At(s.tried, k) then id else x);
    } else {
      MoveAsideIdle(h, d, k, id);
    }
  }

  lemma MoveAsideIdle(h: Hashes, s: State, k: Slot, id: int)
    requires Core(h, s, {id}, {id}) && k !in s.tried
    ensures MoveAside(h, s, k, id) == s
  {
  }

  /** The moved entry ends in its tried slot, without references; no other slot of the tried
      table changes hands. */
  lemma MakeTriedMoves(h: Hashes, s: State, id: int)
    requires Core(h, s, {}, {}) && id in s.info && !s.info[id].inTried
    ensures var t := MakeTried(h, s, id);
      && t.tried == s.tried[TriedSlot(h, s.info[id].Service()) := id]
      && id in t.info && t.info[id] == s.info[id].(refCount := 0, inTried := true)
      && t.idCount == s.idCount && t.collisions == s.collisions && t.lastGood == s.lastGood
  {
    hide Indexed, Ordered, TriedOk, NewOk, RefsOk, CountsOk, TimesOk, MoveAside;
    DropRefsCore(h, s, id);
    var k := TriedSlot(h, s.info[id].Service());
    MoveAsideCore(h, DropRefs(s, id), k, id);
    assert (s.tried - {k})[k := id] == s.tried[k := id];
  }

  /** A move creates no entries. */
  lemma MakeTriedSame(h: Hashes, s: State, id: int, x: int)
    requires Core(h, s, {}, {}) && id in s.info && !s.info[id].inTried && x in MakeTried(h, s, id).info
    ensures x in s.info && MakeTried(h, s, id).info[x].addr == s.info[x].addr
  {
    hide Indexed, Ordered, NewOk, CountsOk, RefsOk, TimesOk, TriedOk, ClearNew;
    DropRefsCore(h, s, id);
    var d := DropRefs(s, id);
    var k := TriedSlot(h, s.info[id].Service());
    MoveAsideCore(h, d, k, id);
    if k in s.tried {
      EvictCore(h, d, k, {id}, {id});
      var gone := At(s.tried, k);
      var e := Evict(d, k);
      var u := NewSlot(h, e.info[gone].Service(), e.info[gone].source);
      ClearNewCore(h, e, u, {id} + {gone}, {id} + {gone});
    }
  }

  // ----- Good_, Attempt_, Connected_, SetServices_ -----

  predicate Knows(s: State, a: Service) {
    Find(s, a.net).Some? && s.info[Find(s, a.net).value].Service() == a
  }

  function Touch(s: State, id: int, time: int): State
    requires id in s.info
  {
    SetInfo(s, id, s.info[id].(lastSuccess := time, lastTry := time, attempts := 0))
  }

  ghost function Good(h: Hashes, s: State, a: Service, testBeforeEvict: bool, time: int): State
    requires Core(h, s, {}, {}) && time > 0
  {
    var s0 := s.(lastGood := time);
    if !Knows(s, a) then s0
    else
      var id := Find(s, a.net).value;
      var s1 := Touch(s0, id, time);
      var k := TriedSlot(h, a);
      if s.info[id].inTried || Refs(s.news, id) == {} then s1
      else if testBeforeEvict && k in s.tried then
        if |s.collisions| < SET_TRIED_COLLISION_SIZE then s1.(collisions := s.collisions + {id}) else s1
      else
        TouchCore(h, s, id, time);
        MakeTried(h, s1, id)
  }

  lemma TouchCore(h: Hashes, s: State, id: int, time: int)
    requires Core(h, s, {}, {}) && id in s.info && time > 0
    ensures Core(h, Touch(s.(lastGood := time), id, time), {}, {})
  {
    hide Indexed, Ordered, TriedOk, NewOk, RefsOk, CountsOk, TimesOk;
    var t := Touch(s.(lastGood := time), id, time);
    SetTimes(s.info, id, t.info[id]);
    ShapeCore(h, s, t, {}, {});
  }

  function Attempt(s: State, a: Service, countFailure: bool, time: int): State {
    if !Knows(s, a) then s
    else
      var id := Find(s, a.net).value;
      var i := s.info[id].(lastTry := time);
      SetInfo(s, id,
              if countFailure && i.lastCountAttempt < s.lastGood
              then i.(lastCountAttempt := time, attempts := i.attempts + 1) else i)
  }

  function Connected(s: State, a: Service, time: int): State {
    if !Knows(s, a) then s
    else
      var id := Find(s, a.net).value;
      if time - s.info[id].addr.nTime > 20 * 60
      then SetInfo(s, id, s.info[id].(addr := s.info[id].addr.(nTime := time))) else s
  }

  function SetServices(s: State, a: Service, services: set<nat>): State {
    if !Knows(s, a) then s
    else
      var id := Find(s, a.net).value;
      SetInfo(s, id, s.info[id].(addr := s.info[id].addr.(services := services)))
  }

  /** Collisions stay sound when no tried slot empties and no id changes address. */
  lemma CollisionsKept(h: Hashes, s: State, t: State)
    requires CollisionsOk(h, s) && t.collisions <= s.collisions && s.idCount <= t.idCount
    requires forall k :: k in s.tried ==> k in t.tried
    requires forall id :: id in t.info && id < s.idCount ==>
      id in s.info && t.info[id].Service() == s.info[id].Service()
    ensures CollisionsOk(h, t)
  {
  }

  lemma TouchKeeps(h: Hashes, s: State, id: int, time: int)
    requires Consistent(h, s) && id in s.info && time > 0
    ensures Consistent(h, Touch(s.(lastGood := time), id, time))
  {
    hide Core;
    TouchCore(h, s, id, time);
    CollisionsKept(h, s, Touch(s.(lastGood := time), id, time));
  }

  lemma MakeTriedKeeps(h: Hashes, s: State, id: int)
    requires Consistent(h, s) && id in s.info && !s.info[id].inTried && s.info[id].lastSuccess > 0
    ensures Consistent(h, MakeTried(h, s, id))
  {
    hide Core, MakeTried;
    MakeTriedCore(h, s, id);
    MakeTriedMoves(h, s, id);
    var t := MakeTried(h, s, id);
    forall x | x in t.info
      ensures x in s.info && t.info[x].Service() == s.info[x].Service()
    {
      MakeTriedSame(h, s, id, x);
    }
    CollisionsKept(h, s, t);
  }

  lemma GoodKeeps(h: Hashes, s: State, a: Service, testBeforeEvict: bool, time: int)
    requires Consistent(h, s) && time > 0
    ensures var t := Good(h, s, a, testBeforeEvict, time);
      && Consistent(h, t) && t.idCount == s.idCount
      && (forall k :: k in s.tried ==> k in t.tried)
      && (!testBeforeEvict ==> t.collisions == s.collisions)
  {
    hide Core, MakeTried;
    var s0 := s.(lastGood := time);
    if Knows(s, a) {
      var id := Find(s, a.net).value;
      TouchCore(h, s, id, time);
      TouchKeeps(h, s, id, time);
      var s1 := Touch(s0, id, time);
      if !s.info[id].inTried && Refs(s.news, id) != {} {
        if testBeforeEvict && TriedSlot(h, a) in s.tried {
          AddCollision(h, s1, id);
        } else {
          MakeTriedKeeps(h, s1, id);
          MakeTriedMoves(h, s1, id);
        }
      }
    } else {
      SameCore(h, s, s0);
      CollisionsKept(h, s, s0);
    }
  }

  /** The core does not depend on the time of the last success nor on the collisions. */
  lemma SameCore(h: Hashes, s: State, t: State)
    requires Core(h, s, {}, {}) && t == s.(lastGood := t.lastGood, collisions := t.collisions)
    ensures Core(h, t, {}, {})
  {
    hide Indexed, Ordered, TriedOk, NewOk, RefsOk, CountsOk, TimesOk;
  }

  lemma AddCollision(h: Hashes, s: State, id: int)
    requires Consistent(h, s) && id in s.info && TriedSlot(h, s.info[id].Service()) in s.tried
    ensures Consistent(h, s.(collisions := s.collisions + {id}))
  {
    IdBelow(s, id);
    hide Core, CollisionsOk;
    SameCore(h, s, s.(collisions := s.collisions + {id}));
    CollisionAdded(h, s, id);
  }

  lemma CollisionAdded(h: Hashes, s: State, id: int)
    requires CollisionsOk(h, s) && 0 <= id < s.idCount
    requires id in s.info && TriedSlot(h, s.info[id].Service()) in s.tried
    ensures CollisionsOk(h, s.(collisions := s.collisions + {id}))
  {
    hide TriedSlot;
  }

  lemma IdBelow(s: State, id: int)
    requires Indexed(s.idCount, s.info, s.addrs) && id in s.info
    ensures 0 <= id < s.idCount
  {
  }
}
