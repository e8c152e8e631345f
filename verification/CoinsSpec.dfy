/** The UTXO cache hierarchy on values: a stack of write-back caches over a database.
    A view is either the database or a cache over another view.  `Lookup` is the plain
    meaning of a view (one map from outpoints to unspent coins); `Inv` is what the DIRTY and
    FRESH flags promise.  The operations are written as they act on the flags, and the lemmas
    relate them to the plain meaning. */
module CoinsSpec {
  import opened Common

  datatype OutPoint = OutPoint(hash: nat, n: nat)

  /** A script is opaque here: only its memory footprint and whether it is unspendable matter. */
  datatype Script = Script(bytes: seq<int>, dynamicUsage: nat, unspendable: bool)

  const EMPTY_SCRIPT := Script([], 0, false)

  /** `value == -1` is the null output, which marks a spent coin. */
  datatype Coin = Coin(value: int, script: Script, height: nat, coinBase: bool, pegout: bool) {
    predicate IsSpent() {
      value == -1
    }
  }

  const EMPTY_COIN := Coin(-1, EMPTY_SCRIPT, 0, false, false)

  datatype Entry = Entry(coin: Coin, isDirty: bool, isFresh: bool)

  type CoinsMap = map<OutPoint, Entry>

  datatype View =
    | Db(stored: map<OutPoint, Coin>)
    | Cache(base: View, coins: CoinsMap)

  type Caches = v: View | v.Cache? witness Cache(Db(map[]), map[])

  function Unspent(coin: Coin): Option<Coin> {
    if coin.IsSpent() then None else Some(coin)
  }

  /** The plain meaning of a view: the unspent coin at an outpoint, if any. */
  function Lookup(v: View, o: OutPoint): Option<Coin> {
    match v
    case Db(m) => if o in m then Unspent(m[o]) else None
    case Cache(b, m) => if o in m then Unspent(m[o].coin) else Lookup(b, o)
  }

  /** The five combinations that the header documents as valid. */
  predicate ValidState(e: Entry) {
    || (!e.coin.IsSpent() && e.isFresh && e.isDirty)
    || (!e.coin.IsSpent() && !e.isFresh && e.isDirty)
    || (!e.coin.IsSpent() && !e.isFresh && !e.isDirty)
    || (e.coin.IsSpent() && e.isFresh && !e.isDirty)
    || (e.coin.IsSpent() && !e.isFresh && e.isDirty)
  }

  /** What an entry promises about the view below it. */
  ghost predicate EntryOk(base: View, o: OutPoint, e: Entry) {
    && ValidState(e)
    && (!e.isDirty ==> Unspent(e.coin) == Lookup(base, o))
    && (e.isFresh ==> Lookup(base, o) == None)
    && (e.coin.IsSpent() && !e.isDirty ==> base.Db?)
  }

  ghost predicate Inv(v: View) {
    match v
    case Db(_) => true
    case Cache(b, m) => Inv(b) && forall o :: o in m ==> EntryOk(b, o, m[o])
  }

  ghost predicate SameMeaning(v: View, w: View) {
    forall o :: Lookup(v, o) == Lookup(w, o)
  }

  function Depth(v: View): nat {
    if v.Db? then 0 else 1 + Depth(v.base)
  }

  // ----- The operations -----

  datatype Got = Got(view: View, found: bool, coin: Coin)

  /** Reading may fill the caches on the way down.  A database may answer with a spent coin. */
  function GetCoin(v: View, o: OutPoint): (r: Got)
    ensures r.view.Db? == v.Db?
    decreases v, 1
  {
    if v.Db? then
      if o in v.stored then Got(v, true, v.stored[o]) else Got(v, false, EMPTY_COIN)
    else
      var w := FetchCoin(v, o);
      if o in w.coins then Got(w, !w.coins[o].coin.IsSpent(), w.coins[o].coin)
      else Got(w, false, EMPTY_COIN)
  }

  function FetchCoin(v: Caches, o: OutPoint): (w: Caches)
    decreases v, 0
  {
    if o in v.coins then v
    else
      var below := GetCoin(v.base, o);
      if !below.found then Cache(below.view, v.coins)
      else Cache(below.view, v.coins[o := Entry(below.coin, false, below.coin.IsSpent())])
  }

  datatype Added = Ok(view: Caches) | Overwrites

  function AddCoin(v: Caches, o: OutPoint, coin: Coin, possibleOverwrite: bool): Added
    requires !coin.IsSpent()
  {
    if coin.script.unspendable then Ok(v)
    else
      var e := if o in v.coins then v.coins[o] else Entry(EMPTY_COIN, false, false);
      if !possibleOverwrite && !e.coin.IsSpent() then Overwrites
      else
        var isFresh := !possibleOverwrite && !e.isDirty;
        Ok(Cache(v.base, v.coins[o := Entry(coin, true, e.isFresh || isFresh)]))
  }

  datatype SpentCoin = SpentCoin(view: Caches, found: bool, moved: Coin)

  function SpendCoin(v: Caches, o: OutPoint): SpentCoin {
    var w := FetchCoin(v, o);
    if o !in w.coins then SpentCoin(w, false, EMPTY_COIN)
    else
      var e := w.coins[o];
      var m := if e.isFresh then w.coins - {o} else w.coins[o := Entry(EMPTY_COIN, true, false)];
      SpentCoin(Cache(w.base, m), true, e.coin)
  }

  function Uncache(v: Caches, o: OutPoint): Caches {
    if o in v.coins && !v.coins[o].isDirty && !v.coins[o].isFresh then Cache(v.base, v.coins - {o}) else v
  }

  /** A child entry that is FRESH although the parent's entry is unspent: BatchWrite throws. */
  predicate Misapplied(parent: CoinsMap, child: CoinsMap, o: OutPoint) {
    o in child && child[o].isDirty && o in parent && child[o].isFresh && !parent[o].coin.IsSpent()
  }

  /** What one child entry leaves in the parent cache (None: no entry). */
  function Merge(parent: CoinsMap, child: CoinsMap, o: OutPoint): Option<Entry> {
    if o !in child || !child[o].isDirty then
      if o in parent then Some(parent[o]) else None
    else if o !in parent then
      if child[o].isFresh && child[o].coin.IsSpent() then None
      else Some(Entry(child[o].coin, true, child[o].isFresh))
    else if parent[o].isFresh && child[o].coin.IsSpent() then None
    else Some(Entry(child[o].coin, true, parent[o].isFresh))
  }

  function MergeMaps(parent: CoinsMap, child: CoinsMap): CoinsMap {
    map o | o in parent.Keys + child.Keys && Merge(parent, child, o).Some? :: Merge(parent, child, o).value
  }

  /** The database write: dirty entries are stored, or erased when spent. */
  function WriteDb(stored: map<OutPoint, Coin>, child: CoinsMap): map<OutPoint, Coin> {
    map o | o in stored.Keys + child.Keys && !(o in child && child[o].isDirty && child[o].coin.IsSpent())
            && (o in stored || child[o].isDirty)
      :: if o in child && child[o].isDirty then child[o].coin else stored[o]
  }

  /** BatchWrite into whatever view lies below; None when it throws. */
  function BatchWrite(base: View, child: CoinsMap): Option<View> {
    match base
    case Db(m) => Some(Db(WriteDb(m, child)))
    case Cache(b, m) =>
      if exists o :: o in child && Misapplied(m, child, o) then None
      else Some(Cache(b, MergeMaps(m, child)))
  }

  function Flush(v: Caches): Option<View> {
    match BatchWrite(v.base, v.coins)
    case None => None
    case Some(b) => Some(Cache(b, map[]))
  }

  // ----- Reading answers the plain meaning and changes no meaning -----

  lemma {:induction false} GetCoinReads(v: View, o: OutPoint)
    requires Inv(v)
    ensures var r := GetCoin(v, o);
      && Inv(r.view) && SameMeaning(r.view, v) && Depth(r.view) == Depth(v)
      && (if r.found then Unspent(r.coin) == Lookup(v, o) else Lookup(v, o) == None)
      && (r.found && r.coin.IsSpent() ==> v.Db?)
    decreases v, 1
  {
    if v.Cache? {
      FetchCoinReads(v, o);
    }
  }

  lemma {:induction false} FetchCoinReads(v: Caches, o: OutPoint)
    requires Inv(v)
    ensures var w := FetchCoin(v, o);
      && Inv(w) && SameMeaning(w, v) && SameMeaning(w.base, v.base) && Depth(w) == Depth(v)
      && (Lookup(v, o).Some? ==> o in w.coins)
      && (o in w.coins ==> Unspent(w.coins[o].coin) == Lookup(v, o))
      && (forall p :: p in v.coins ==> p in w.coins && w.coins[p] == v.coins[p])
      && (forall p :: p in w.coins ==> p == o || p in v.coins)
    decreases v, 0
  {
    GetCoinReads(v.base, o);
  }

  // ----- Writing acts on the plain map; the AddCoin contract is exact -----

  /** `possible_overwrite` may be false exactly when the view has no unspent coin there: then
      nothing is thrown and the flags stay right; otherwise it throws or misapplies FRESH. */
  lemma AddCoinContract(v: Caches, o: OutPoint, coin: Coin, possibleOverwrite: bool)
    requires Inv(v) && !coin.IsSpent() && !coin.script.unspendable
    ensures var r := AddCoin(v, o, coin, possibleOverwrite);
      (r.Ok? && Inv(r.view)) <==> (possibleOverwrite || Lookup(v, o) == None)
  {
    var r := AddCoin(v, o, coin, possibleOverwrite);
    if r.Ok? {
      assert o in r.view.coins;
      if possibleOverwrite || Lookup(v, o) == None {
        forall p | p in r.view.coins
          ensures EntryOk(v.base, p, r.view.coins[p])
        {
          assert p != o ==> EntryOk(v.base, p, v.coins[p]);
          assert p in v.coins ==> EntryOk(v.base, p, v.coins[p]);
        }
      } else {
        assert !EntryOk(v.base, o, r.view.coins[o]);
      }
    }
  }

  lemma AddCoinMeaning(v: Caches, o: OutPoint, coin: Coin, possibleOverwrite: bool)
    requires !coin.IsSpent()
    ensures var r := AddCoin(v, o, coin, possibleOverwrite);
      r.Ok? ==>
        && r.view.base == v.base
        && forall p :: Lookup(r.view, p) ==
             if p == o && !coin.script.unspendable then Some(coin) else Lookup(v, p)
  {
  }

  /** The cache or a database right below it still holds a spent coin at the outpoint. */
  predicate SpentHeld(v: Caches, o: OutPoint) {
    if o in v.coins then v.coins[o].coin.IsSpent()
    else v.base.Db? && o in v.base.stored && v.base.stored[o].IsSpent()
  }

  /** Spending removes exactly that coin and hands it out.  The call reports success if there is an
      unspent coin, and also where a spent one is still held. */
  lemma SpendCoinMeaning(v: Caches, o: OutPoint)
    requires Inv(v)
    ensures var r := SpendCoin(v, o);
      && Inv(r.view) && Depth(r.view) == Depth(v) && SameMeaning(r.view.base, v.base)
      && (forall p :: Lookup(r.view, p) == if p == o then None else Lookup(v, p))
      && (r.found ==> Unspent(r.moved) == Lookup(v, o))
      && (r.found <==> Lookup(v, o).Some? || SpentHeld(v, o))
  {
    FetchCoinReads(v, o);
    GetCoinReads(v.base, o);
    var w := FetchCoin(v, o);
    var r := SpendCoin(v, o);
    if o in w.coins {
      assert EntryOk(w.base, o, w.coins[o]);
      forall p | p in r.view.coins
        ensures EntryOk(w.base, p, r.view.coins[p])
      {
        if p != o {
          assert EntryOk(w.base, p, w.coins[p]);
        }
      }
      forall p
        ensures Lookup(r.view, p) == if p == o then None else Lookup(v, p)
      {
        assert Lookup(w, p) == Lookup(v, p);
      }
    }
  }

  /** A coin spent in a cache over an empty one: spending it again reports success. */
  lemma SpendsTwice(o: OutPoint)
    ensures var v := Cache(Cache(Db(map[]), map[]), map[o := Entry(EMPTY_COIN, true, false)]);
      Inv(v) && Lookup(v, o) == None && SpendCoin(v, o).found
  {
    var v := Cache(Cache(Db(map[]), map[]), map[o := Entry(EMPTY_COIN, true, false)]);
    assert EntryOk(v.base, o, v.coins[o]);
  }

  lemma UncacheMeaning(v: Caches, o: OutPoint)
    requires Inv(v)
    ensures Inv(Uncache(v, o)) && SameMeaning(Uncache(v, o), v)
    ensures Uncache(v, o).base == v.base
  {
    if o in v.coins {
      assert EntryOk(v.base, o, v.coins[o]);
    }
  }

  // ----- Flushing pushes the meaning down one level -----

  /** The "FRESH flag misapplied" exception is unreachable from a state with right flags. */
  lemma NeverMisapplied(v: Caches, o: OutPoint)
    requires Inv(v) && v.base.Cache?
    ensures !Misapplied(v.base.coins, v.coins, o)
  {
    if o in v.coins {
      assert EntryOk(v.base, o, v.coins[o]);
    }
  }

  /** After a flush the base has the meaning the cache had, and the cache keeps it. */
  lemma FlushMeaning(v: Caches)
    requires Inv(v)
    ensures var r := Flush(v);
      && r.Some? && r.value.Cache? && r.value.coins == map[]
      && Inv(r.value) && SameMeaning(r.value.base, v) && SameMeaning(r.value, v)
      && Depth(r.value) == Depth(v) && r.value.base.Db? == v.base.Db?
      && (v.base.Cache? ==> r.value.base.base == v.base.base)
  {
    match v.base
    case Db(m) =>
      forall o
        ensures Lookup(Db(WriteDb(m, v.coins)), o) == Lookup(v, o)
      {
        if o in v.coins {
          assert EntryOk(v.base, o, v.coins[o]);
        }
      }
    case Cache(b, m) =>
      forall o
        ensures !Misapplied(m, v.coins, o)
      {
        NeverMisapplied(v, o);
      }
      var merged := MergeMaps(m, v.coins);
      forall o
        ensures Lookup(Cache(b, merged), o) == Lookup(v, o)
        ensures o in merged ==> EntryOk(b, o, merged[o])
      {
        MergeKeepsEntry(v, o);
      }
  }

  lemma MergeKeepsEntry(v: Caches, o: OutPoint)
    requires Inv(v) && v.base.Cache?
    ensures var merged := MergeMaps(v.base.coins, v.coins);
      && Lookup(Cache(v.base.base, merged), o) == Lookup(v, o)
      && (o in merged ==> EntryOk(v.base.base, o, merged[o]))
  {
    var b, m := v.base.base, v.base.coins;
    assert o in v.coins ==> EntryOk(v.base, o, v.coins[o]);
    assert o in m ==> EntryOk(b, o, m[o]);
  }

  // ----- Which flag states occur -----

  /** Under the invariant every entry is in one of the five documented states, and a cache over
      another cache never holds the fourth (spent, FRESH, not DIRTY). */
  lemma EntryStates(v: Caches, o: OutPoint)
    requires Inv(v) && o in v.coins
    ensures ValidState(v.coins[o])
    ensures v.coins[o].coin.IsSpent() && v.coins[o].isFresh ==> v.base.Db?
  {
    assert EntryOk(v.base, o, v.coins[o]);
  }
}
