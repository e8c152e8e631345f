/** The address manager on values.  A state holds the id tables, the random order, the two bucket
    tables (a slot is a key exactly when it is occupied), the counters and the pending
    collisions.  `Consistent` is the program's own consistency check; the operations are the
    program's, with hashes as arbitrary functions, random draws and the clock as arguments.
    The position of an entry in the random order is kept beside the entries, in `pos`. */
module AddrManSpec {
  import opened Common

  const NEW_BUCKET_COUNT := 1024
  const TRIED_BUCKET_COUNT := 256
  const BUCKET_SIZE := 64
  const NEW_BUCKETS_PER_ADDRESS := 8
  const SET_TRIED_COLLISION_SIZE := 10
  const HORIZON_SECONDS := 30 * 24 * 60 * 60
  const RETRIES := 3
  const MAX_FAILURES := 10
  const MIN_FAIL_SECONDS := 7 * 24 * 60 * 60
  const REPLACEMENT_SECONDS := 4 * 60 * 60
  const TEST_WINDOW := 40 * 60

  datatype NetAddr = NetAddr(bytes: seq<int>, routable: bool, valid: bool)

  /** An address with its port. */
  datatype Service = Service(net: NetAddr, port: nat)

  datatype Address = Address(service: Service, services: set<nat>, nTime: int)

  datatype Info = Info(
    addr: Address, source: NetAddr,
    lastTry: int, lastCountAttempt: int, lastSuccess: int, attempts: int,
    refCount: int, inTried: bool)
  {
    function Service(): Service { addr.service }
    function Net(): NetAddr { addr.service.net }
  }

  datatype Slot = Slot(bucket: int, pos: int)

  /** The keyed hashes (key and AS map included), as arbitrary functions. */
  datatype Hashes = Hashes(
    tried: Service -> nat, news: (Service, NetAddr) -> nat, position: (Service, bool, int) -> nat)

  function Position(h: Hashes, a: Service, isNew: bool, bucket: int): int {
    h.position(a, isNew, bucket) % BUCKET_SIZE
  }

  function TriedSlot(h: Hashes, a: Service): Slot {
    var b := h.tried(a) % TRIED_BUCKET_COUNT;
    Slot(b, Position(h, a, false, b))
  }

  function NewSlot(h: Hashes, a: Service, source: NetAddr): Slot {
    var b := h.news(a, source) % NEW_BUCKET_COUNT;
    Slot(b, Position(h, a, true, b))
  }

  predicate IsTerrible(i: Info, now: int) {
    if i.lastTry != 0 && i.lastTry >= now - 60 then false
    else
      || i.addr.nTime > now + 10 * 60
      || i.addr.nTime == 0 || now - i.addr.nTime > HORIZON_SECONDS
      || (i.lastSuccess == 0 && i.attempts >= RETRIES)
      || (now - i.lastSuccess > MIN_FAIL_SECONDS && i.attempts >= MAX_FAILURES)
  }

  type Infos = map<int, Info>

  datatype State = State(
    idCount: int, info: Infos, addrs: map<NetAddr, int>, random: seq<int>, pos: map<int, int>,
    nTried: int, tried: map<Slot, int>, nNew: int, news: map<Slot, int>,
    lastGood: int, collisions: set<int>)

  const EMPTY := State(0, map[], map[], [], map[], 0, map[], 0, map[], 1, {})

  // ----- The invariant -----

  /** The id that a table holds under a key. */
  function At<K>(table: map<K, int>, k: K): int
    requires k in table
  {
    table[k]
  }

  /** The id table and the address index are mutually inverse. */
  ghost predicate Indexed(idCount: int, info: Infos, addrs: map<NetAddr, int>) {
    && 0 <= idCount
    && (forall id :: id in info ==> 0 <= id < idCount && info[id].Net() in addrs && At(addrs, info[id].Net()) == id)
    && (forall a :: a in addrs ==> At(addrs, a) in info && info[At(addrs, a)].Net() == a)
  }

  /** The random order lists every id once, and `pos` is its inverse. */
  ghost predicate Ordered(ids: set<int>, random: seq<int>, pos: map<int, int>) {
    && (forall id :: id in ids ==> id in pos && 0 <= pos[id] < |random| && random[pos[id]] == id)
    && (forall i :: 0 <= i < |random| ==> random[i] in ids && pos[random[i]] == i)
  }

  /** Every tried slot holds an entry flagged as tried that hashes there, and conversely. */
  ghost predicate TriedOk(h: Hashes, info: Infos, tried: map<Slot, int>) {
    && (forall k :: k in tried ==>
          At(tried, k) in info && info[At(tried, k)].inTried && k == TriedSlot(h, info[At(tried, k)].Service()))
    && (forall id :: id in info && info[id].inTried ==>
          TriedSlot(h, info[id].Service()) in tried && At(tried, TriedSlot(h, info[id].Service())) == id)
  }

  /** Every new slot holds an entry that is not tried and hashes to that position. */
  ghost predicate NewOk(h: Hashes, info: Infos, news: map<Slot, int>) {
    forall k :: k in news ==>
      && 0 <= k.bucket < NEW_BUCKET_COUNT
      && At(news, k) in info && !info[At(news, k)].inTried
      && k.pos == Position(h, info[At(news, k)].Service(), true, k.bucket)
  }

  /** The new slots that refer to an id. */
  ghost function Refs(news: map<Slot, int>, id: int): set<Slot> {
    set k | k in news && At(news, k) == id
  }

  /** Reference counts are exact; only ids in `zero` may be untried without any reference. */
  ghost predicate RefsOk(info: Infos, news: map<Slot, int>, zero: set<int>) {
    forall id :: id in info ==>
      && info[id].refCount == |Refs(news, id)| <= NEW_BUCKETS_PER_ADDRESS
      && (info[id].refCount == 0 ==> info[id].inTried || id in zero)
  }

  ghost function TriedIds(info: Infos): set<int> {
    set id | id in info && info[id].inTried
  }

  ghost function NewIds(info: Infos): set<int> {
    set id | id in info && !info[id].inTried
  }

  /** The counters are exact; ids in `limbo` are untried, unreferenced and not counted. */
  ghost predicate CountsOk(info: Infos, nTried: int, nNew: int, limbo: set<int>) {
    && nTried == |TriedIds(info)|
    && limbo <= NewIds(info)
    && nNew == |NewIds(info) - limbo|
    && forall id :: id in limbo ==> info[id].refCount == 0
  }

  ghost predicate TimesOk(info: Infos) {
    forall id :: id in info ==>
      && 0 <= info[id].lastTry && 0 <= info[id].lastSuccess
      && (info[id].inTried ==> 0 < info[id].lastSuccess)
  }

  /** The tried slot that a pending collision competes for is occupied. */
  ghost predicate CollisionsOk(h: Hashes, s: State) {
    forall id :: id in s.collisions ==>
      0 <= id < s.idCount && (id in s.info ==> TriedSlot(h, s.info[id].Service()) in s.tried)
  }

  /** The invariant inside an operation. */
  ghost predicate Core(h: Hashes, s: State, limbo: set<int>, zero: set<int>) {
    && Indexed(s.idCount, s.info, s.addrs)
    && Ordered(s.info.Keys, s.random, s.pos)
    && TriedOk(h, s.info, s.tried)
    && NewOk(h, s.info, s.news)
    && RefsOk(s.info, s.news, zero)
    && CountsOk(s.info, s.nTried, s.nNew, limbo)
    && TimesOk(s.info)
  }

  /** The invariant between operations: everything that Check_ checks, and more. */
  ghost predicate Consistent(h: Hashes, s: State) {
    Core(h, s, {}, {}) && CollisionsOk(h, s)
  }

  // ----- Building blocks -----

  function Find(s: State, a: NetAddr): Option<int> {
    if a in s.addrs && At(s.addrs, a) in s.info then Some(At(s.addrs, a)) else None
  }

  function Create(s: State, a: Address, source: NetAddr): State {
    var id := s.idCount;
    s.(idCount := id + 1,
       info := s.info[id := Info(a, source, 0, 0, 0, 0, 0, false)],
       addrs := s.addrs[a.service.net := id],
       pos := s.pos[id := |s.random|],
       random := s.random + [id])
  }

  function SwapRandom(s: State, i: int, j: int): State
    requires i != j ==> 0 <= i < |s.random| && 0 <= j < |s.random|
    requires i != j ==> s.random[i] in s.info && s.random[j] in s.info
  {
    if i == j then s
    else
      var a, b := s.random[i], s.random[j];
      s.(pos := s.pos[a := j][b := i], random := s.random[i := b][j := a])
  }

  function Delete(s: State, id: int): State
    requires Ordered(s.info.Keys, s.random, s.pos)
    requires id in s.info && !s.info[id].inTried && s.info[id].refCount == 0
  {
    var t := SwapRandom(s, s.pos[id], |s.random| - 1);
    t.(random := t.random[..|t.random| - 1], pos := t.pos - {id},
       addrs := t.addrs - {s.info[id].Net()}, info := t.info - {id}, nNew := t.nNew - 1)
  }

  function SetInfo(s: State, id: int, i: Info): State {
    s.(info := s.info[id := i])
  }

  /** A new slot emptied: its entry loses one reference. */
  function Unlink(s: State, k: Slot): State
    requires k in s.news && At(s.news, k) in s.info
  {
    var id := At(s.news, k);
    SetInfo(s, id, s.info[id].(refCount := s.info[id].refCount - 1)).(news := s.news - {k})
  }

  /** The occupant of a new slot, if any, is an untried entry with references. */
  predicate Referenced(s: State, k: Slot) {
    k in s.news ==> At(s.news, k) in s.info && !s.info[At(s.news, k)].inTried && s.info[At(s.news, k)].refCount > 0
  }

  function ClearNew(s: State, k: Slot): State
    requires Ordered(s.info.Keys, s.random, s.pos) && Referenced(s, k)
  {
    if k !in s.news then s
    else
      var id := At(s.news, k);
      var t := Unlink(s, k);
      assert t.info.Keys == s.info.Keys;
      if t.info[id].refCount == 0 then Delete(t, id) else t
  }

  // ----- What the building blocks keep -----

  lemma SwapOrdered(ids: set<int>, random: seq<int>, pos: map<int, int>, i: int, j: int)
    requires Ordered(ids, random, pos) && 0 <= i < |random| && 0 <= j < |random|
    ensures Ordered(ids, random[i := random[j]][j := random[i]], pos[random[i] := j][random[j] := i])
    ensures multiset(random[i := random[j]][j := random[i]]) == multiset(random)
  {
  }

  lemma OrderedAt(ids: set<int>, random: seq<int>, pos: map<int, int>, id: int)
    requires Ordered(ids, random, pos) && id in ids
    ensures id in pos && 0 <= pos[id] < |random| && random[pos[id]] in ids && random[|random| - 1] in ids
  {
  }

  lemma PopOrdered(ids: set<int>, random: seq<int>, pos: map<int, int>, id: int)
    requires Ordered(ids, random, pos) && random != [] && random[|random| - 1] == id
    ensures Ordered(ids - {id}, random[..|random| - 1], pos - {id})
  {
    var r := random[..|random| - 1];
    forall i | 0 <= i < |r|
      ensures r[i] in ids - {id} && r[i] in pos && pos[r[i]] == i
    {
      assert r[i] == random[i];
    }
  }

  lemma DeleteOrdered(s: State, id: int)
    requires Ordered(s.info.Keys, s.random, s.pos)
    requires id in s.info && !s.info[id].inTried && s.info[id].refCount == 0
    ensures var t := Delete(s, id); Ordered(t.info.Keys, t.random, t.pos)
  {
    var last := |s.random| - 1;
    SwapOrdered(s.info.Keys, s.random, s.pos, s.pos[id], last);
    var m := SwapRandom(s, s.pos[id], last);
    if s.pos[id] == last {
      assert m == s;
    }
    PopOrdered(s.info.Keys, m.random, m.pos, id);
    assert Delete(s, id).info.Keys == s.info.Keys - {id};
  }

  lemma DeleteIndexed(idCount: int, info: Infos, addrs: map<NetAddr, int>, id: int)
    requires Indexed(idCount, info, addrs) && id in info
    ensures Indexed(idCount, info - {id}, addrs - {info[id].Net()})
  {
  }

  lemma DeleteRefs(h: Hashes, info: Infos, news: map<Slot, int>, zero: set<int>, id: int)
    requires RefsOk(info, news, zero) && NewOk(h, info, news) && id in info && info[id].refCount == 0
    ensures RefsOk(info - {id}, news, zero - {id}) && NewOk(h, info - {id}, news)
  {
    forall k | k in news
      ensures At(news, k) != id
    {
      assert Refs(news, id) == {};
      assert k !in Refs(news, id);
    }
  }

  lemma DeleteTried(h: Hashes, info: Infos, tried: map<Slot, int>, id: int)
    requires TriedOk(h, info, tried) && TimesOk(info) && id in info && !info[id].inTried
    ensures TriedOk(h, info - {id}, tried) && TimesOk(info - {id})
  {
  }

  lemma DeleteCounts(info: Infos, nTried: int, nNew: int, limbo: set<int>, id: int)
    requires CountsOk(info, nTried, nNew, limbo) && id in info && !info[id].inTried && id !in limbo
    ensures CountsOk(info - {id}, nTried, nNew - 1, limbo)
  {
    assert TriedIds(info - {id}) == TriedIds(info);
    assert NewIds(info - {id}) - limbo == NewIds(info) - limbo - {id};
    assert id in NewIds(info) - limbo;
  }

  lemma DeleteCore(h: Hashes, s: State, id: int, limbo: set<int>, zero: set<int>)
    requires Core(h, s, limbo, zero)
    requires id in s.info && !s.info[id].inTried && s.info[id].refCount == 0 && id !in limbo
    ensures var t := Delete(s, id);
      && Core(h, t, limbo, zero - {id})
      && t == s.(info := s.info - {id}, random := t.random, pos := t.pos,
                 addrs := s.addrs - {s.info[id].Net()}, nNew := s.nNew - 1)
  {
    hide Indexed, Ordered, TriedOk, NewOk, RefsOk, CountsOk, TimesOk;
    DeleteOrdered(s, id);
    DeleteTried(h, s.info, s.tried, id);
    DeleteIndexed(s.idCount, s.info, s.addrs, id);
    DeleteRefs(h, s.info, s.news, zero, id);
    DeleteCounts(s.info, s.nTried, s.nNew, limbo, id);
  }

  /** The two tables have the same ids, and each id the same address and the same table. */
  ghost predicate SameShape(a: Infos, b: Infos) {
    && (forall id :: id in a <==> id in b)
    && forall id :: id in a ==> a[id].addr.service == b[id].addr.service && a[id].inTried == b[id].inTried
  }

  lemma ShapeIndexed(idCount: int, a: Infos, b: Infos, addrs: map<NetAddr, int>)
    requires SameShape(a, b) && Indexed(idCount, a, addrs)
    ensures Indexed(idCount, b, addrs)
  {
    assert forall id :: id in a <==> id in b;
    assert forall id :: id in a ==> a[id].Net() == b[id].Net();
  }

  lemma ShapeNew(h: Hashes, a: Infos, b: Infos, news: map<Slot, int>)
    requires SameShape(a, b) && NewOk(h, a, news)
    ensures NewOk(h, b, news)
  {
  }

  lemma ShapeTried(h: Hashes, a: Infos, b: Infos, tried: map<Slot, int>)
    requires SameShape(a, b) && TriedOk(h, a, tried)
    ensures TriedOk(h, b, tried)
  {
  }

  lemma ShapeIds(a: Infos, b: Infos)
    requires SameShape(a, b)
    ensures b.Keys == a.Keys && TriedIds(b) == TriedIds(a) && NewIds(b) == NewIds(a)
  {
    assert forall id :: id in a <==> id in b;
    assert forall id :: id in a ==> a[id].inTried == b[id].inTried;
  }

  lemma ShapeCounts(a: Infos, b: Infos, nTried: int, nNew: int, limbo: set<int>)
    requires SameShape(a, b) && CountsOk(a, nTried, nNew, limbo)
    requires forall id :: id in limbo && id in a && id in b ==> b[id].refCount == a[id].refCount
    ensures CountsOk(b, nTried, nNew, limbo)
  {
    ShapeIds(a, b);
    assert forall id :: id in limbo ==> id in NewIds(b) && id in a;
  }

  /** An operation that changes neither addresses nor tables keeps the core, if it keeps the
      counts and times. */
  lemma ShapeCore(h: Hashes, s: State, t: State, limbo: set<int>, zero: set<int>)
    requires Core(h, s, limbo, zero) && SameShape(s.info, t.info)
    requires t == s.(info := t.info, lastGood := t.lastGood, collisions := t.collisions)
    requires forall id :: id in t.info && id in s.info ==> t.info[id].refCount == s.info[id].refCount
    requires TimesOk(t.info)
    ensures Core(h, t, limbo, zero)
  {
    hide Indexed, Ordered, TriedOk, NewOk, RefsOk, CountsOk, TimesOk, SameShape;
    ShapeRefs(s.info, t.info, s.news, zero);
    ShapeCounts(s.info, t.info, s.nTried, s.nNew, limbo);
    ShapeIndexed(s.idCount, s.info, t.info, s.addrs);
    ShapeTried(h, s.info, t.info, s.tried);
    ShapeNew(h, s.info, t.info, s.news);
    ShapeIds(s.info, t.info);
  }

  lemma ShapeRefs(a: Infos, b: Infos, news: map<Slot, int>, zero: set<int>)
    requires SameShape(a, b) && RefsOk(a, news, zero)
    requires forall id :: id in b && id in a ==> b[id].refCount == a[id].refCount
    ensures RefsOk(b, news, zero)
  {
    assert forall id :: id in a <==> id in b;
    assert forall id :: id in b ==> b[id].refCount == a[id].refCount && b[id].inTried == a[id].inTried;
  }

  lemma UnlinkCore(h: Hashes, s: State, k: Slot, limbo: set<int>, zero: set<int>)
    requires Core(h, s, limbo, zero) && k in s.news
    ensures var id := At(s.news, k);
      && id in s.info && !s.info[id].inTried && s.info[id].refCount > 0 && id !in limbo
      && Core(h, Unlink(s, k), limbo, if s.info[id].refCount == 1 then zero + {id} else zero)
  {
    hide Indexed, Ordered, TriedOk, NewOk, RefsOk, CountsOk, TimesOk, SameShape;
    NewHolds(h, s, k, limbo, zero);
    var id := At(s.news, k);
    var t := Unlink(s, k);
    UnlinkShape(s, k);
    UnlinkRefs(s, k, zero);
    ShapeCounts(s.info, t.info, s.nTried, s.nNew, limbo);
    ShapeIndexed(s.idCount, s.info, t.info, s.addrs);
    ShapeTried(h, s.info, t.info, s.tried);
    ShapeNew(h, s.info, t.info, s.news);
    FewerNews(h, t.info, s.news, k);
    ShapeIds(s.info, t.info);
  }

  /** The occupant of a new slot is an untried entry with a reference. */
  lemma NewHolds(h: Hashes, s: State, k: Slot, limbo: set<int>, zero: set<int>)
    requires NewOk(h, s.info, s.news) && RefsOk(s.info, s.news, zero) && k in s.news
    requires CountsOk(s.info, s.nTried, s.nNew, limbo)
    ensures var id := At(s.news, k); id in s.info && !s.info[id].inTried && s.info[id].refCount > 0 && id !in limbo
  {
    assert k in Refs(s.news, At(s.news, k));
  }

  lemma FewerNews(h: Hashes, info: Infos, news: map<Slot, int>, k: Slot)
    requires NewOk(h, info, news)
    ensures NewOk(h, info, news - {k})
  {
    forall x | x in news - {k}
      ensures x in news && At(news - {k}, x) == At(news, x)
    {
    }
  }

  lemma UnlinkShape(s: State, k: Slot)
    requires k in s.news && At(s.news, k) in s.info && TimesOk(s.info)
    ensures var t := Unlink(s, k); SameShape(s.info, t.info) && TimesOk(t.info)
  {
  }

  lemma UnlinkRefs(s: State, k: Slot, zero: set<int>)
    requires RefsOk(s.info, s.news, zero) && k in s.news && At(s.news, k) in s.info
    ensures var id := At(s.news, k); var t := Unlink(s, k);
      RefsOk(t.info, t.news, if s.info[id].refCount == 1 then zero + {id} else zero)
  {
    var id := At(s.news, k);
    var t := Unlink(s, k);
    assert Refs(t.news, id) == Refs(s.news, id) - {k};
    forall o | o in t.info && o != id
      ensures Refs(t.news, o) == Refs(s.news, o)
    {
    }
  }

  /** What clearing a slot does to the entries: its occupant loses one reference, and is dropped
      exactly when that was its last. */
  function InfoCleared(info: Infos, news: map<Slot, int>, k: Slot): Infos
    requires k in news ==> At(news, k) in info
  {
    if k !in news then info
    else
      var id := At(news, k);
      if info[id].refCount == 1 then info - {id}
      else info[id := info[id].(refCount := info[id].refCount - 1)]
  }

  lemma ClearNewCore(h: Hashes, s: State, k: Slot, limbo: set<int>, zero: set<int>)
    requires Core(h, s, limbo, zero)
    ensures Referenced(s, k) && (k in s.news ==> At(s.news, k) !in limbo)
    ensures var t := ClearNew(s, k);
      && Core(h, t, limbo, zero)
      && t == s.(info := InfoCleared(s.info, s.news, k), random := t.random, pos := t.pos, addrs := t.addrs,
                 nNew := t.nNew, news := s.news - {k})
  {
    hide Indexed, Ordered, TriedOk, NewOk, RefsOk, CountsOk, TimesOk;
    if k in s.news {
      var id := At(s.news, k);
      UnlinkCore(h, s, k, limbo, zero);
      var t := Unlink(s, k);
      if t.info[id].refCount == 0 {
        DeleteCore(h, t, id, limbo, zero + {id});
        assert t.info - {id} == s.info - {id};
        FewerZero(Delete(t, id), zero + {id} - {id}, zero);
      }
    } else {
      assert s.news - {k} == s.news;
    }
  }

  lemma FewerZero(s: State, less: set<int>, more: set<int>)
    requires RefsOk(s.info, s.news, less) && less <= more
    ensures RefsOk(s.info, s.news, more)
  {
  }
}
