/** The collision queue, and whole runs of the address manager. */
module AddrManRuns {
  import opened Common
  import opened AddrManSpec
  import opened AddrManOps
  import opened AddrManAdd

  // ----- The collision queue -----

  /** What to do about a pending collision. */
  datatype Verdict = Keep | Drop | Replace

  function Judge(h: Hashes, s: State, id: int, now: int): Verdict
    requires id in s.info && TriedSlot(h, s.info[id].Service()) in s.tried ==>
      At(s.tried, TriedSlot(h, s.info[id].Service())) in s.info
  {
    if id !in s.info || !s.info[id].Net().valid then Drop
    else if TriedSlot(h, s.info[id].Service()) !in s.tried then Replace
    else
      var rival := s.info[At(s.tried, TriedSlot(h, s.info[id].Service()))];
      if now - rival.lastSuccess < REPLACEMENT_SECONDS then Drop
      else if now - rival.lastTry < REPLACEMENT_SECONDS then
        if now - rival.lastTry > 60 then Replace else Keep
      else if now - s.info[id].lastSuccess > TEST_WINDOW then Replace
      else Keep
  }

  ghost function ResolveOne(h: Hashes, s: State, id: int, now: int): State
    requires Consistent(h, s) && now > 0
  {
    TriedIn(h, s);
    match Judge(h, s, id, now)
    case Keep => s
    case Drop => s.(collisions := s.collisions - {id})
    case Replace =>
      var t := Good(h, s, s.info[id].Service(), false, now);
      t.(collisions := t.collisions - {id})
  }

  lemma TriedIn(h: Hashes, s: State)
    requires Core(h, s, {}, {})
    ensures forall k :: k in s.tried ==> At(s.tried, k) in s.info && s.info[At(s.tried, k)].inTried
  {
    hide Indexed, Ordered, NewOk, RefsOk, CountsOk, TimesOk;
  }

  lemma ResolveOneKeeps(h: Hashes, s: State, id: int, now: int)
    requires Consistent(h, s) && now > 0
    ensures var t := ResolveOne(h, s, id, now);
      && Consistent(h, t) && t.collisions <= s.collisions
      && t.idCount == s.idCount && (forall k :: k in s.tried ==> k in t.tried)
  {
    hide Core, Good, Judge;
    TriedIn(h, s);
    match Judge(h, s, id, now)
    case Keep =>
    case Drop => DropCollision(h, s, id);
    case Replace =>
      ReplaceKnown(h, s, id, now);
      GoodKeeps(h, s, s.info[id].Service(), false, now);
      DropCollision(h, Good(h, s, s.info[id].Service(), false, now), id);
  }

  lemma ReplaceKnown(h: Hashes, s: State, id: int, now: int)
    requires id in s.info && TriedSlot(h, s.info[id].Service()) in s.tried ==>
      At(s.tried, TriedSlot(h, s.info[id].Service())) in s.info
    requires Judge(h, s, id, now).Replace?
    ensures id in s.info
  {
  }

  lemma DropCollision(h: Hashes, s: State, id: int)
    requires Consistent(h, s)
    ensures Consistent(h, s.(collisions := s.collisions - {id}))
  {
    hide Core;
    SameCore(h, s, s.(collisions := s.collisions - {id}));
    CollisionsKept(h, s, s.(collisions := s.collisions - {id}));
  }

  /** The queue is worked through in increasing order of id; all ids lie below `idCount`. */
  ghost function Resolve(h: Hashes, s: State, id: int, now: int): State
    requires Consistent(h, s) && now > 0
    decreases s.idCount - id
  {
    if id >= s.idCount then s
    else if id !in s.collisions then Resolve(h, s, id + 1, now)
    else
      ResolveOneKeeps(h, s, id, now);
      Resolve(h, ResolveOne(h, s, id, now), id + 1, now)
  }

  lemma {:induction false} ResolveKeeps(h: Hashes, s: State, id: int, now: int)
    requires Consistent(h, s) && now > 0
    ensures var t := Resolve(h, s, id, now);
      && Consistent(h, t) && t.collisions <= s.collisions && t.idCount == s.idCount
      && (forall k :: k in s.tried ==> k in t.tried)
    decreases s.idCount - id
  {
    hide Consistent, ResolveOne;
    if id < s.idCount {
      if id in s.collisions {
        ResolveOneKeeps(h, s, id, now);
        ResolveKeeps(h, ResolveOne(h, s, id, now), id + 1, now);
      } else {
        ResolveKeeps(h, s, id + 1, now);
      }
    }
  }

  /** Looking up the rival of a pending collision: the slot is never empty, so the lookup never
      asks for id -1, and the entry found is a tried entry that hashes to the same slot. */
  lemma RivalExists(h: Hashes, s: State, id: int)
    requires Consistent(h, s) && id in s.collisions && id in s.info
    ensures var k := TriedSlot(h, s.info[id].Service());
      && k in s.tried && At(s.tried, k) in s.info && s.info[At(s.tried, k)].inTried
      && TriedSlot(h, s.info[At(s.tried, k)].Service()) == k
  {
    hide Indexed, Ordered, NewOk, RefsOk, CountsOk, TimesOk;
  }

  function SelectCollision(s: State, id: int): State {
    if id in s.info then s else s.(collisions := s.collisions - {id})
  }

  // ----- Who can be forgotten -----

  /** One call of Good_ forgets at most one address: the untried one whose only reference is in
      the slot that the displaced tried entry falls back to.  Tried addresses are never forgotten. */
  lemma GoodForgets(h: Hashes, s: State, a: Service, testBeforeEvict: bool, time: int, x: int)
    requires Consistent(h, s) && time > 0 && x in s.info && x !in Good(h, s, a, testBeforeEvict, time).info
    ensures !s.info[x].inTried && |Refs(s.news, x)| == 1
    ensures Knows(s, a) && TriedSlot(h, a) in s.tried
    ensures var gone := At(s.tried, TriedSlot(h, a));
      gone in s.info && Refs(s.news, x) == {NewSlot(h, s.info[gone].Service(), s.info[gone].source)}
  {
    hide Core, MakeTried, Refs;
    var id := Find(s, a.net).value;
    TouchCore(h, s, id, time);
    var s1 := Touch(s.(lastGood := time), id, time);
    MakeTriedMoves(h, s1, id);
    MakeTriedOthers(h, s1, id, x);
    TriedHasNoRefs(h, s, x);
  }

  lemma TriedHasNoRefs(h: Hashes, s: State, x: int)
    requires Core(h, s, {}, {}) && x in s.info
    ensures s.info[x].inTried ==> Refs(s.news, x) == {}
  {
    hide Indexed, Ordered, TriedOk, RefsOk, CountsOk, TimesOk;
  }

  /** One call of Add_ forgets only a terrible untried address whose one reference was the slot
      taken.  Tried addresses are never forgotten. */
  lemma AddForgets(h: Hashes, s: State, a: Address, source: NetAddr, penalty: int, now: int, lucky: bool, x: int)
    requires Consistent(h, s) && x in s.info && x !in Add(h, s, a, source, penalty, now, lucky).state.info
    ensures !s.info[x].inTried && |Refs(s.news, x)| == 1 && IsTerrible(s.info[x], now)
  {
    hide Core, Link, Refs, Refreshed, CreateNew, IsTerrible;
    var p := Penalty(a, source, penalty);
    match Find(s, a.service.net)
    case Some(id) =>
      RefreshCore(h, s, id, a, p, now);
      RefreshFields(s.info[id], a, p, now);
      var m := SetInfo(s, id, Refreshed(s.info[id], a, p, now));
      if x == id {
        Unforgotten(h, s, id);
        LinkSelf(h, m, id, source, now);
      } else {
        LinkForgets(h, m, id, source, now, x);
      }
    case None =>
      UnknownIsFree(h, s, a.service.net);
      CreateNewCore(h, s, a, source, p);
      CreateKeepsOthers(s, a, source, p, x);
      LinkForgets(h, CreateNew(s, a, source, p), s.idCount, source, now, x);
  }

  lemma CreateKeepsOthers(s: State, a: Address, source: NetAddr, p: int, x: int)
    requires x in s.info && s.idCount !in s.info
    ensures var m := CreateNew(s, a, source, p);
      && m.news == s.news && x in m.info && m.info[x] == s.info[x]
      && s.idCount in m.info && !m.info[s.idCount].inTried
  {
  }

  lemma LinkForgets(h: Hashes, s: State, id: int, source: NetAddr, now: int, x: int)
    requires Core(h, s, {}, {id}) && id in s.info && !s.info[id].inTried && x in s.info && x != id
    requires x !in Link(h, s, id, source, now).info
    ensures !s.info[x].inTried && |Refs(s.news, x)| == 1 && IsTerrible(s.info[x], now)
  {
    hide Core, Link, Refs, IsTerrible;
    LinkOthers(h, s, id, source, now, x);
    RefsOf(h, s, id, x);
    var u := NewSlot(h, s.info[id].Service(), source);
    assert Refs(s.news, x) == {u};
    InRefs(s.news, u, x);
    SlotReferenced(h, s, id, u);
  }

  lemma Unforgotten(h: Hashes, s: State, id: int)
    requires Core(h, s, {}, {}) && id in s.info && !s.info[id].inTried
    ensures Refs(s.news, id) != {}
  {
    hide Indexed, Ordered, TriedOk, NewOk, CountsOk, TimesOk;
  }

  // ----- Statistics and shuffling -----

  lemma AttemptKeeps(h: Hashes, s: State, a: Service, countFailure: bool, time: int)
    requires Consistent(h, s) && time >= 0
    ensures Consistent(h, Attempt(s, a, countFailure, time))
  {
    hide Core;
    if Knows(s, a) {
      var id := Find(s, a.net).value;
      RewriteKeeps(h, s, id, Attempt(s, a, countFailure, time).info[id]);
    }
  }

  lemma ConnectedKeeps(h: Hashes, s: State, a: Service, time: int)
    requires Consistent(h, s)
    ensures Consistent(h, Connected(s, a, time))
  {
    hide Core;
    if Knows(s, a) {
      var id := Find(s, a.net).value;
      RewriteKeeps(h, s, id, s.info[id].(addr := s.info[id].addr.(nTime := time)));
    }
  }

  lemma SetServicesKeeps(h: Hashes, s: State, a: Service, services: set<nat>)
    requires Consistent(h, s)
    ensures Consistent(h, SetServices(s, a, services))
  {
    hide Core;
    if Knows(s, a) {
      var id := Find(s, a.net).value;
      RewriteKeeps(h, s, id, s.info[id].(addr := s.info[id].addr.(services := services)));
    }
  }

  /** Rewriting times, counts of attempts or services of an entry. */
  lemma RewriteKeeps(h: Hashes, s: State, id: int, i: Info)
    requires Consistent(h, s) && id in s.info && i.lastSuccess == s.info[id].lastSuccess
    requires i.lastTry >= 0 || i.lastTry == s.info[id].lastTry
    requires i.Service() == s.info[id].Service() && i.inTried == s.info[id].inTried
    requires i.refCount == s.info[id].refCount
    ensures Consistent(h, SetInfo(s, id, i))
  {
    hide Indexed, Ordered, TriedOk, NewOk, RefsOk, CountsOk, TimesOk;
    var t := SetInfo(s, id, i);
    RewriteTimes(s.info, id, i);
    ShapeCore(h, s, t, {}, {});
    CollisionsKept(h, s, t);
  }

  lemma RewriteTimes(info: Infos, id: int, i: Info)
    requires TimesOk(info) && id in info && (i.lastTry >= 0 || i.lastTry == info[id].lastTry)
    requires i.lastSuccess == info[id].lastSuccess && i.inTried == info[id].inTried
    ensures TimesOk(info[id := i])
  {
  }

  ghost predicate InRange(s: State, swaps: seq<(nat, nat)>) {
    forall w :: w in swaps ==> w.0 < |s.random| && w.1 < |s.random|
  }

  /** The random order after some swaps; nothing else changes. */
  ghost function Shuffle(h: Hashes, s: State, swaps: seq<(nat, nat)>): State
    requires Consistent(h, s) && InRange(s, swaps)
    decreases |swaps|
  {
    if swaps == [] then s
    else
      SwapKeeps(h, s, swaps[0].0, swaps[0].1);
      Shuffle(h, SwapRandom(s, swaps[0].0, swaps[0].1), swaps[1..])
  }

  lemma SwapKeeps(h: Hashes, s: State, i: nat, j: nat)
    requires Consistent(h, s) && i < |s.random| && j < |s.random|
    ensures s.random[i] in s.info && s.random[j] in s.info
    ensures var t := SwapRandom(s, i, j);
      && Consistent(h, t) && |t.random| == |s.random| && multiset(t.random) == multiset(s.random)
      && t == s.(random := t.random, pos := t.pos)
      && t.random == s.random[i := s.random[j]][j := s.random[i]]
  {
    OrderedIn(h, s, i);
    OrderedIn(h, s, j);
    hide Indexed, Ordered, TriedOk, NewOk, RefsOk, CountsOk, TimesOk;
    SwapOrdered(s.info.Keys, s.random, s.pos, i, j);
    if i == j {
      assert s.random[i := s.random[j]][j := s.random[i]] == s.random;
    }
    CollisionsKept(h, s, SwapRandom(s, i, j));
  }

  lemma OrderedIn(h: Hashes, s: State, i: nat)
    requires Core(h, s, {}, {}) && i < |s.random|
    ensures s.random[i] in s.info && s.random[i] in s.pos && s.pos[s.random[i]] == i
  {
    hide Indexed, TriedOk, NewOk, RefsOk, CountsOk, TimesOk;
    var id := s.random[i];
    assert id in s.info.Keys;
  }

  lemma {:induction false} ShuffleKeeps(h: Hashes, s: State, swaps: seq<(nat, nat)>)
    requires Consistent(h, s) && InRange(s, swaps)
    ensures var t := Shuffle(h, s, swaps);
      && Consistent(h, t) && multiset(t.random) == multiset(s.random)
      && t == s.(random := t.random, pos := t.pos)
    decreases |swaps|
  {
    hide Consistent;
    if swaps != [] {
      SwapKeeps(h, s, swaps[0].0, swaps[0].1);
      ShuffleKeeps(h, SwapRandom(s, swaps[0].0, swaps[0].1), swaps[1..]);
    }
  }

  // ----- Whole runs -----

  datatype Op =
    | DoAdd(a: Address, source: NetAddr, penalty: int, now: int, lucky: bool)
    | DoGood(service: Service, testBeforeEvict: bool, time: int)
    | DoAttempt(service: Service, countFailure: bool, time: int)
    | DoConnected(service: Service, time: int)
    | DoSetServices(service: Service, services: set<nat>)
    | DoGetAddr(swaps: seq<(nat, nat)>)
    | DoResolve(now: int)
    | DoSelect(id: int)

  /** Times handed in are positive; positions drawn are in range. */
  ghost predicate Callable(s: State, op: Op) {
    match op
    case DoGood(_, _, time) => time > 0
    case DoAttempt(_, _, time) => time >= 0
    case DoResolve(now) => now > 0
    case DoGetAddr(swaps) => InRange(s, swaps)
    case _ => true
  }

  ghost function Step(h: Hashes, s: State, op: Op): State
    requires Consistent(h, s) && Callable(s, op)
  {
    match op
    case DoAdd(a, source, penalty, now, lucky) => Add(h, s, a, source, penalty, now, lucky).state
    case DoGood(a, test, time) => Good(h, s, a, test, time)
    case DoAttempt(a, count, time) => Attempt(s, a, count, time)
    case DoConnected(a, time) => Connected(s, a, time)
    case DoSetServices(a, services) => SetServices(s, a, services)
    case DoGetAddr(swaps) => Shuffle(h, s, swaps)
    case DoResolve(now) => Resolve(h, s, 0, now)
    case DoSelect(id) => SelectCollision(s, id)
  }

  /** Every operation keeps the consistency check, empties no tried slot and reuses no id. */
  lemma StepKeeps(h: Hashes, s: State, op: Op)
    requires Consistent(h, s) && Callable(s, op)
    ensures var t := Step(h, s, op);
      Consistent(h, t) && s.idCount <= t.idCount && forall k :: k in s.tried ==> k in t.tried
  {
    hide Consistent, Core, Add, Good, Attempt, Connected, SetServices, Shuffle, Resolve;
    match op
    case DoAdd(a, source, penalty, now, lucky) => AddKeeps(h, s, a, source, penalty, now, lucky);
    case DoGood(a, test, time) => GoodKeeps(h, s, a, test, time);
    case DoAttempt(a, count, time) =>
      AttemptKeeps(h, s, a, count, time);
      StatsOnly(s, a, count, time, {});
    case DoConnected(a, time) =>
      ConnectedKeeps(h, s, a, time);
      StatsOnly(s, a, false, time, {});
    case DoSetServices(a, services) =>
      SetServicesKeeps(h, s, a, services);
      StatsOnly(s, a, false, 0, services);
    case DoGetAddr(swaps) => ShuffleKeeps(h, s, swaps);
    case DoResolve(now) => ResolveKeeps(h, s, 0, now);
    case DoSelect(id) =>
      if id !in s.info {
        DropCollision(h, s, id);
      }
  }

  lemma StatsOnly(s: State, a: Service, count: bool, time: int, services: set<nat>)
    ensures forall t :: t in {Attempt(s, a, count, time), Connected(s, a, time), SetServices(s, a, services)} ==>
      t == s.(info := t.info)
  {
  }

  ghost predicate IsRun(h: Hashes, s: State, ops: seq<Op>, t: State)
    decreases |ops|
  {
    if ops == [] then t == s
    else Consistent(h, s) && Callable(s, ops[0]) && IsRun(h, Step(h, s, ops[0]), ops[1..], t)
  }

  lemma EmptyConsistent(h: Hashes)
    ensures Consistent(h, EMPTY)
  {
    assert TriedIds(map[]) == {} && NewIds(map[]) == {};
    assert NewIds(map[]) - {} == {};
  }

  /** From a fresh manager, every sequence of operations keeps the full consistency check; every
      tried slot once occupied stays occupied, and every pending collision that still names an
      entry has a rival to be tested. */
  lemma {:induction false} RunsKeep(h: Hashes, s: State, ops: seq<Op>, t: State)
    requires Consistent(h, s) && IsRun(h, s, ops, t)
    ensures Consistent(h, t) && s.idCount <= t.idCount && forall k :: k in s.tried ==> k in t.tried
    decreases |ops|
  {
    hide Consistent;
    if ops != [] {
      StepKeeps(h, s, ops[0]);
      RunsKeep(h, Step(h, s, ops[0]), ops[1..], t);
    }
  }

  lemma FreshRunsKeep(h: Hashes, ops: seq<Op>, t: State)
    requires IsRun(h, EMPTY, ops, t)
    ensures Consistent(h, t)
    ensures forall id :: id in t.collisions && id in t.info ==> TriedSlot(h, t.info[id].Service()) in t.tried
  {
    EmptyConsistent(h);
    RunsKeep(h, EMPTY, ops, t);
    hide Core;
  }

  /** A run goes on: whatever can be called in its last state extends it. */
  lemma {:induction false} RunExtends(h: Hashes, s: State, ops: seq<Op>, t: State, op: Op)
    requires Consistent(h, s) && IsRun(h, s, ops, t) && Callable(t, op)
    ensures Consistent(h, t) && IsRun(h, s, ops + [op], Step(h, t, op))
    decreases |ops|
  {
    hide Consistent;
    RunsKeep(h, s, ops, t);
    if ops == [] {
      StepKeeps(h, s, op);
    } else {
      StepKeeps(h, s, ops[0]);
      RunExtends(h, Step(h, s, ops[0]), ops[1..], t, op);
      assert (ops + [op])[1..] == ops[1..] + [op];
    }
  }

  // ----- A new address that is reported and lost -----

  const FLAT := Hashes(_ => 0, (_, _) => 0, (_, _, _) => 0)

  function Peer(n: int): Address {
    Address(Service(NetAddr([n], true, true), 8333), {}, 1000)
  }

  /** The first of two addresses for one slot, in a fresh manager. */
  lemma FirstIsKept(s: State)
    requires Consistent(FLAT, EMPTY)
    requires s == Add(FLAT, EMPTY, Peer(1), Peer(0).service.net, 0, 1000, true).state
    ensures Consistent(FLAT, s) && s.idCount == 1
    ensures 0 in s.info && s.info[0] == Info(Peer(1), Peer(0).service.net, 0, 0, 0, 0, 1, false)
    ensures forall id :: id in s.info ==> id == 0
    ensures Slot(0, 0) in s.news && At(s.news, Slot(0, 0)) == 0
  {
    hide Indexed, Ordered, TriedOk, NewOk, RefsOk, CountsOk, TimesOk, CollisionsOk, Link;
    var source := Peer(0).service.net;
    AddKeeps(FLAT, EMPTY, Peer(1), source, 0, 1000, true);
    CreateNewCore(FLAT, EMPTY, Peer(1), source, 0);
    var m := CreateNew(EMPTY, Peer(1), source, 0);
    LinkSelf(FLAT, m, 0, source, 1000);
    LinkFrame(FLAT, m, 0, source, 1000);
    var slots := Refs(m.news, 0) + {Slot(0, 0)};
    assert Slot(0, 0) in Refs(s.news, 0);
    assert slots == {Slot(0, 0)};
    assert forall id :: id in s.info ==> id in m.info;
  }

  /** The second is reported as new and not kept. */
  lemma SecondIsLost()
    ensures Consistent(FLAT, EMPTY)
    ensures var s := Add(FLAT, EMPTY, Peer(1), Peer(0).service.net, 0, 1000, true).state;
      && Consistent(FLAT, s) && Peer(2).service.net !in s.addrs
      && var r := Add(FLAT, s, Peer(2), Peer(0).service.net, 0, 1000, true);
         r.isNew && Peer(2).service.net !in r.state.addrs
  {
    hide Indexed, Ordered, TriedOk, NewOk, RefsOk, CountsOk, TimesOk, CollisionsOk, Link;
    EmptyConsistent(FLAT);
    var source := Peer(0).service.net;
    var s := Add(FLAT, EMPTY, Peer(1), source, 0, 1000, true).state;
    FirstIsKept(s);
    NotIndexed(FLAT, s, Peer(2).service.net);
    AddStores(FLAT, s, Peer(2), source, 0, 1000, true);
    AddKeeps(FLAT, s, Peer(2), source, 0, 1000, true);
    CreateNewCore(FLAT, s, Peer(2), source, 0);
    LinkFrame(FLAT, CreateNew(s, Peer(2), source, 0), 1, source, 1000);
    NotIndexed(FLAT, Add(FLAT, s, Peer(2), source, 0, 1000, true).state, Peer(2).service.net);
  }

  lemma NotIndexed(h: Hashes, s: State, a: NetAddr)
    requires Consistent(h, s) && forall id :: id in s.info ==> s.info[id].Net() != a
    ensures a !in s.addrs
  {
    hide Ordered, TriedOk, NewOk, RefsOk, CountsOk, TimesOk;
  }
}
