/** The cache as the program has it: an object that holds its own map of entries and a pointer
    to the view below, and changes both in place.  Every method is tied to the corresponding
    function on values; the footprint of a cache is the whole stack below it. */
module Coins {
  import opened Common
  import opened CoinsSpec

  /** The database at the bottom of the stack. */
  class CoinsViewDb {
    var stored: map<OutPoint, Coin>

    constructor (m: map<OutPoint, Coin>)
      ensures stored == m
    {
      stored := m;
    }
  }

  /** Sum of the dynamic memory of the cached coins. */
  ghost function UsageOf(m: CoinsMap): nat
    decreases |m|
  {
    if m == map[] then 0
    else
      var o :| o in m;
      m[o].coin.script.dynamicUsage + UsageOf(m - {o})
  }

  function UsageAt(m: CoinsMap, o: OutPoint): nat {
    if o in m then m[o].coin.script.dynamicUsage else 0
  }

  lemma {:induction false} UsageSplits(m: CoinsMap, o: OutPoint)
    requires o in m
    ensures UsageOf(m) == m[o].coin.script.dynamicUsage + UsageOf(m - {o})
    decreases |m|
  {
    var p :| p in m && UsageOf(m) == m[p].coin.script.dynamicUsage + UsageOf(m - {p});
    if p != o {
      UsageSplits(m - {p}, o);
      UsageSplits(m - {o}, p);
      assert m - {p} - {o} == m - {o} - {p};
    }
  }

  lemma UsageAfterSet(m: CoinsMap, o: OutPoint, e: Entry)
    ensures UsageOf(m[o := e]) == UsageOf(m) - UsageAt(m, o) + e.coin.script.dynamicUsage
  {
    UsageSplits(m[o := e], o);
    assert m[o := e] - {o} == m - {o};
    if o in m {
      UsageSplits(m, o);
    } else {
      assert m - {o} == m;
    }
  }

  lemma UsageAfterErase(m: CoinsMap, o: OutPoint)
    requires o in m
    ensures UsageOf(m - {o}) == UsageOf(m) - UsageAt(m, o)
  {
    UsageSplits(m, o);
  }

  /** The counter after AddCoin: lowered first, and not raised again when the call throws. */
  function UsageAfterAdd(m: CoinsMap, usage: int, o: OutPoint, coin: Coin, possibleOverwrite: bool): int {
    if coin.script.unspendable then usage
    else if !possibleOverwrite && o in m && !m[o].coin.IsSpent() then usage - UsageAt(m, o)
    else usage - UsageAt(m, o) + coin.script.dynamicUsage
  }

  /** An exact counter is exact after the call if and only if nothing is written, overwriting is allowed,
      or no unspent coin that occupies memory is in the way. */
  lemma AddUsageExact(v: Caches, o: OutPoint, coin: Coin, possibleOverwrite: bool)
    requires !coin.IsSpent()
    ensures var r := AddCoin(v, o, coin, possibleOverwrite);
      UsageAfterAdd(v.coins, UsageOf(v.coins), o, coin, possibleOverwrite) ==
        UsageOf(if r.Ok? then r.view.coins else v.coins)
      <==>
      || coin.script.unspendable || possibleOverwrite || o !in v.coins || v.coins[o].coin.IsSpent()
      || v.coins[o].coin.script.dynamicUsage == 0
  {
    var r := AddCoin(v, o, coin, possibleOverwrite);
    if r.Ok? && !coin.script.unspendable {
      UsageAfterSet(v.coins, o, r.view.coins[o]);
    }
  }

  /** A coin with a script of one byte, added twice without leave to overwrite. */
  lemma AddUsageFails(o: OutPoint)
    ensures var coin := Coin(5, Script([0], 1, false), 0, false, false);
      var v := Cache(Db(map[]), map[o := Entry(coin, true, true)]);
      && Inv(v) && UsageOf(v.coins) == 1 && AddCoin(v, o, coin, false).Overwrites?
      && UsageAfterAdd(v.coins, 1, o, coin, false) == 0
  {
    var coin := Coin(5, Script([0], 1, false), 0, false, false);
    var v := Cache(Db(map[]), map[o := Entry(coin, true, true)]);
    assert EntryOk(v.base, o, v.coins[o]);
    UsageSplits(v.coins, o);
    assert v.coins - {o} == map[];
  }

  class CoinsViewCache {
    const db: CoinsViewDb
    const parent: CoinsViewCache?  // null: the base is the database
    var cacheCoins: CoinsMap
    var cachedCoinsUsage: int
    ghost const Repr: set<object>

    ghost predicate Valid()
      reads this, Repr
      decreases Repr
    {
      && this in Repr && db in Repr
      && (parent == null ==> Repr == {this, db})
      && (parent != null ==>
            && parent in Repr && Repr == parent.Repr + {this} && this !in parent.Repr
            && parent.db == db && parent.Valid())
    }

    /** The value of the whole stack. */
    ghost function View(): (v: View)
      requires Valid()
      reads this, Repr
      ensures v.Cache? && v.coins == cacheCoins
      decreases Repr
    {
      Cache(if parent == null then Db(db.stored) else parent.View(), cacheCoins)
    }

    /** The usage counters are exact at every level. */
    ghost predicate Exact()
      requires Valid()
      reads this, Repr
      decreases Repr
    {
      && cachedCoinsUsage == UsageOf(cacheCoins)
      && (parent != null ==> parent.Exact())
    }

    constructor OverDb(base: CoinsViewDb)
      ensures Valid() && db == base && parent == null && fresh(Repr - {base})
      ensures View() == Cache(Db(base.stored), map[]) && Exact()
    {
      db, parent := base, null;
      cacheCoins, cachedCoinsUsage := map[], 0;
      Repr := {this, base};
    }

    constructor OverCache(base: CoinsViewCache)
      requires base.Valid()
      ensures Valid() && parent == base && db == base.db && fresh(Repr - base.Repr)
      ensures View() == Cache(base.View(), map[])
      ensures base.Exact() ==> Exact()
    {
      db, parent := base.db, base;
      cacheCoins, cachedCoinsUsage := map[], 0;
      Repr := base.Repr + {this};
    }

    /** Returns whether the cache now holds an entry for the outpoint. */
    method FetchCoin(o: OutPoint) returns (found: bool)
      requires Valid()
      modifies Repr
      ensures Valid()
      ensures View() == CoinsSpec.FetchCoin(old(View()), o)
      ensures found == (o in cacheCoins)
      ensures old(Exact()) ==> Exact()
      decreases Repr, 0
    {
      if o in cacheCoins {
        return true;
      }
      var below, coin;
      if parent == null {
        below := o in db.stored;
        coin := if below then db.stored[o] else EMPTY_COIN;
      } else {
        below, coin := parent.GetCoin(o);
      }
      if !below {
        return false;
      }
      UsageAfterSet(cacheCoins, o, Entry(coin, false, coin.IsSpent()));
      cacheCoins := cacheCoins[o := Entry(coin, false, coin.IsSpent())];
      cachedCoinsUsage := cachedCoinsUsage + coin.script.dynamicUsage;
      return true;
    }

    method GetCoin(o: OutPoint) returns (found: bool, coin: Coin)
      requires Valid()
      modifies Repr
      ensures Valid()
      ensures Got(View(), found, coin) == CoinsSpec.GetCoin(old(View()), o)
      ensures old(Inv(View())) ==> Inv(View()) && (if found then Some(coin) else None) == old(Lookup(View(), o))
      ensures old(Exact()) ==> Exact()
      decreases Repr, 1
    {
      ghost var v := View();
      var here := FetchCoin(o);
      if here {
        coin := cacheCoins[o].coin;
        found := !coin.IsSpent();
      } else {
        found, coin := false, EMPTY_COIN;
      }
      if Inv(v) {
        GetCoinReads(v, o);
      }
    }

    /** Throws (returns false) exactly when an unspent coin would be overwritten without leave;
        the usage counter has already been lowered by then, so it is exact afterwards only if
        that coin occupied no dynamic memory. */
    method AddCoin(o: OutPoint, coin: Coin, possibleOverwrite: bool) returns (ok: bool)
      requires Valid() && !coin.IsSpent()
      modifies this
      ensures Valid()
      ensures var r := old(CoinsSpec.AddCoin(View(), o, coin, possibleOverwrite));
        ok == r.Ok? && View() == (if r.Ok? then r.view else old(View()))
      ensures cachedCoinsUsage ==
        UsageAfterAdd(old(cacheCoins), old(cachedCoinsUsage), o, coin, possibleOverwrite)
      ensures old(Exact()) ==> (Exact() <==> ok || UsageAt(old(cacheCoins), o) == 0)
    {
      if coin.script.unspendable {
        return true;
      }
      var inserted := o !in cacheCoins;
      var entry := if inserted then Entry(EMPTY_COIN, false, false) else cacheCoins[o];
      var isFresh := false;
      if !inserted {
        cachedCoinsUsage := cachedCoinsUsage - entry.coin.script.dynamicUsage;
      }
      if !possibleOverwrite {
        if !entry.coin.IsSpent() {
          return false;
        }
        isFresh := !entry.isDirty;
      }
      UsageAfterSet(cacheCoins, o, Entry(coin, true, entry.isFresh || isFresh));
      cacheCoins := cacheCoins[o := Entry(coin, true, entry.isFresh || isFresh)];
      cachedCoinsUsage := cachedCoinsUsage + coin.script.dynamicUsage;
      return true;
    }

    method SpendCoin(o: OutPoint) returns (found: bool, moved: Coin)
      requires Valid()
      modifies Repr
      ensures Valid()
      ensures SpentCoin(View(), found, moved) == CoinsSpec.SpendCoin(old(View()), o)
      ensures old(Exact()) ==> Exact()
    {
      var here := FetchCoin(o);
      if !here {
        return false, EMPTY_COIN;
      }
      var entry := cacheCoins[o];
      cachedCoinsUsage := cachedCoinsUsage - entry.coin.script.dynamicUsage;
      moved := entry.coin;
      if entry.isFresh {
        UsageAfterErase(cacheCoins, o);
        cacheCoins := cacheCoins - {o};
      } else {
        UsageAfterSet(cacheCoins, o, Entry(EMPTY_COIN, true, false));
        cacheCoins := cacheCoins[o := Entry(EMPTY_COIN, true, false)];
      }
      return true, moved;
    }

    method HaveCoin(o: OutPoint) returns (have: bool)
      requires Valid()
      modifies Repr
      ensures Valid()
      ensures View() == CoinsSpec.FetchCoin(old(View()), o)
      ensures old(Inv(View())) ==> have == old(Lookup(View(), o)).Some?
      ensures old(Exact()) ==> Exact()
    {
      ghost var v := View();
      var here := FetchCoin(o);
      have := here && !cacheCoins[o].coin.IsSpent();
      if Inv(v) {
        FetchCoinReads(v, o);
      }
    }

    method Uncache(o: OutPoint)
      requires Valid()
      modifies this
      ensures Valid()
      ensures View() == CoinsSpec.Uncache(old(View()), o)
      ensures old(Exact()) ==> Exact()
    {
      if o in cacheCoins && !cacheCoins[o].isDirty && !cacheCoins[o].isFresh {
        UsageAfterErase(cacheCoins, o);
        cachedCoinsUsage := cachedCoinsUsage - cacheCoins[o].coin.script.dynamicUsage;
        cacheCoins := cacheCoins - {o};
      }
    }

    /** One child entry written into this cache; false when it throws. */
    method WriteEntry(o: OutPoint, e: Entry) returns (ok: bool)
      modifies this`cacheCoins, this`cachedCoinsUsage
      ensures ok <==> !Misapplied(old(cacheCoins), map[o := e], o)
      ensures ok ==> Find(cacheCoins, o) == Merge(old(cacheCoins), map[o := e], o)
      ensures forall p :: p != o ==> Find(cacheCoins, p) == Find(old(cacheCoins), p)
      ensures ok && old(cachedCoinsUsage) == UsageOf(old(cacheCoins)) ==> cachedCoinsUsage == UsageOf(cacheCoins)
    {
      if !e.isDirty {
        return true;
      }
      if o !in cacheCoins {
        if !(e.isFresh && e.coin.IsSpent()) {
          UsageAfterSet(cacheCoins, o, Entry(e.coin, true, e.isFresh));
          cacheCoins := cacheCoins[o := Entry(e.coin, true, e.isFresh)];
          cachedCoinsUsage := cachedCoinsUsage + e.coin.script.dynamicUsage;
        }
      } else {
        var us := cacheCoins[o];
        if e.isFresh && !us.coin.IsSpent() {
          return false;
        }
        if us.isFresh && e.coin.IsSpent() {
          UsageAfterErase(cacheCoins, o);
          cachedCoinsUsage := cachedCoinsUsage - us.coin.script.dynamicUsage;
          cacheCoins := cacheCoins - {o};
        } else {
          UsageAfterSet(cacheCoins, o, Entry(e.coin, true, us.isFresh));
          cachedCoinsUsage := cachedCoinsUsage - us.coin.script.dynamicUsage + e.coin.script.dynamicUsage;
          cacheCoins := cacheCoins[o := Entry(e.coin, true, us.isFresh)];
        }
      }
      return true;
    }

    /** The child's entries are taken in whatever order the hash map yields them.  Throws
        (returns false) exactly when some FRESH child entry meets an unspent coin here. */
    method WriteEntries(child: CoinsMap) returns (ok: bool)
      modifies this`cacheCoins, this`cachedCoinsUsage
      ensures ok <==> forall o :: !Misapplied(old(cacheCoins), child, o)
      ensures ok ==> cacheCoins == MergeMaps(old(cacheCoins), child)
      ensures ok && old(cachedCoinsUsage) == UsageOf(old(cacheCoins)) ==> cachedCoinsUsage == UsageOf(cacheCoins)
    {
      ghost var was := cacheCoins;
      var rest := child;
      while rest != map[]
        invariant rest.Keys <= child.Keys && forall o :: o in rest ==> rest[o] == child[o]
        invariant forall o :: o !in rest ==> !Misapplied(was, child, o)
        invariant forall o :: Find(cacheCoins, o) == (if o in rest then Find(was, o) else Merge(was, child, o))
        invariant old(cachedCoinsUsage == UsageOf(cacheCoins)) ==> cachedCoinsUsage == UsageOf(cacheCoins)
        decreases |rest|
      {
        var o :| o in rest;
        assert Find(cacheCoins, o) == Find(was, o);
        ok := WriteEntry(o, rest[o]);
        if !ok {
          assert Misapplied(was, child, o);
          return;
        }
        rest := rest - {o};
      }
      SameFinds(cacheCoins, was, child);
      return true;
    }

    method BatchWrite(child: CoinsMap) returns (ok: bool)
      requires Valid()
      modifies this
      ensures Valid()
      ensures ok <==> old(CoinsSpec.BatchWrite(View(), child)).Some?
      ensures ok ==> View() == old(CoinsSpec.BatchWrite(View(), child)).value
      ensures ok && old(Exact()) ==> Exact()
    {
      ok := WriteEntries(child);
    }

    /** Pushes the changes down; throws only when the flags were wrong. */
    method Flush() returns (ok: bool)
      requires Valid()
      modifies Repr
      ensures Valid()
      ensures ok == old(CoinsSpec.Flush(View())).Some?
      ensures ok ==> View() == old(CoinsSpec.Flush(View())).value
      ensures old(Inv(View())) ==> ok && Inv(View()) && forall o :: Lookup(View(), o) == old(Lookup(View(), o))
      ensures ok && old(Exact()) ==> Exact()
    {
      ghost var v := View();
      if Inv(v) {
        FlushMeaning(v);
      }
      if parent == null {
        db.stored := WriteDb(db.stored, cacheCoins);
        ok := true;
      } else {
        ok := parent.BatchWrite(cacheCoins);
      }
      if !ok {
        return;
      }
      cacheCoins, cachedCoinsUsage := map[], 0;
    }
  }

  function Find(m: CoinsMap, o: OutPoint): Option<Entry> {
    if o in m then Some(m[o]) else None
  }

  lemma SameFinds(m: CoinsMap, was: CoinsMap, child: CoinsMap)
    requires forall o :: Find(m, o) == Merge(was, child, o)
    ensures m == MergeMaps(was, child)
  {
    var n := MergeMaps(was, child);
    forall o
      ensures o in m <==> o in n
      ensures o in m ==> m[o] == n[o]
    {
      assert Find(m, o) == Merge(was, child, o);
    }
  }
}
