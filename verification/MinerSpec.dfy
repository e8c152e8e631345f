/** Block template package selection over an arbitrary acyclic mempool. */
module MinerSpec {

  /** A mempool entry's handle. */
  datatype Tx = Tx(n: nat)

  datatype Entry = Entry(
    size: nat, weight: nat, sigOps: nat, mweb: nat, fee: int, modFee: int,
    isFinal: bool, hasWitness: bool, hasMweb: bool, mwebOnly: bool)

  /** Totals of a transaction with ancestors of it. */
  datatype Mod = Mod(size: int, modFees: int, sigOps: int, mweb: int)

  /** The mempool: its entries, the proper ancestors of each and the totals cached with each. */
  datatype Pool = Pool(entries: map<Tx, Entry>, ancestors: map<Tx, set<Tx>>, cached: map<Tx, Mod>)

  ghost predicate Acyclic(p: Pool) {
    && p.ancestors.Keys == p.entries.Keys
    && (forall t :: t in p.entries ==> p.ancestors[t] <= p.entries.Keys && t !in p.ancestors[t])
    && (forall t, a :: t in p.entries && a in p.ancestors[t] ==> p.ancestors[a] <= p.ancestors[t])
    && (forall t :: t in p.entries ==> p.entries[t].weight <= 4 * p.entries[t].size)
  }

  type Txs = set<Tx>

  /** What a set of transactions adds up to. */
  datatype Cost = Cost(size: nat, weight: nat, sigOps: nat, mweb: nat, fee: int, modFee: int)

  const NOTHING := Cost(0, 0, 0, 0, 0, 0)

  function CostOf(e: Entry): Cost {
    Cost(e.size, e.weight, e.sigOps, e.mweb, e.fee, e.modFee)
  }

  function Plus(a: Cost, b: Cost): Cost {
    Cost(a.size + b.size, a.weight + b.weight, a.sigOps + b.sigOps, a.mweb + b.mweb, a.fee + b.fee,
         a.modFee + b.modFee)
  }

  ghost function Total(p: Pool, s: Txs): Cost
    requires s <= p.entries.Keys
    decreases |s|
  {
    if s == {} then NOTHING
    else
      var t :| t in s;
      Plus(CostOf(p.entries[t]), Total(p, s - {t}))
  }

  lemma PlusLaws(a: Cost, b: Cost, c: Cost)
    ensures Plus(a, Plus(b, c)) == Plus(b, Plus(a, c)) && Plus(Plus(a, b), c) == Plus(a, Plus(b, c))
    ensures Plus(NOTHING, a) == a
  {
  }

  lemma {:induction false} TotalRemove(p: Pool, s: Txs, t: Tx)
    requires s <= p.entries.Keys && t in s
    ensures Total(p, s) == Plus(CostOf(p.entries[t]), Total(p, s - {t}))
    decreases |s|
  {
    hide Plus, CostOf;
    var u :| u in s && Total(p, s) == Plus(CostOf(p.entries[u]), Total(p, s - {u}));
    if u != t {
      TotalRemove(p, s - {u}, t);
      TotalRemove(p, s - {t}, u);
      assert s - {u} - {t} == s - {t} - {u};
      PlusLaws(CostOf(p.entries[u]), CostOf(p.entries[t]), Total(p, s - {u} - {t}));
    }
  }

  lemma {:induction false} TotalSplit(p: Pool, s: Txs, part: Txs, rest: Txs)
    requires s <= p.entries.Keys && s == part + rest && part !! rest
    ensures Total(p, s) == Plus(Total(p, part), Total(p, rest))
    decreases |part|
  {
    hide Plus, CostOf;
    if part == {} {
      PlusLaws(Total(p, s), NOTHING, NOTHING);
    } else {
      var t :| t in part;
      TotalRemove(p, s, t);
      TotalRemove(p, part, t);
      TotalSplit(p, s - {t}, part - {t}, rest);
      PlusLaws(CostOf(p.entries[t]), Total(p, part - {t}), Total(p, rest));
    }
  }

  lemma {:induction false} WeightBelow(p: Pool, s: Txs)
    requires Acyclic(p) && s <= p.entries.Keys
    ensures Total(p, s).weight <= 4 * Total(p, s).size
    decreases |s|
  {
    if s != {} {
      var t :| t in s;
      TotalRemove(p, s, t);
      WeightBelow(p, s - {t});
    }
  }

  /** A transaction and its ancestors. */
  function Family(p: Pool, t: Tx): Txs
    requires t in p.ancestors
  {
    p.ancestors[t] + {t}
  }

  /** What inclusion of a transaction would add to the block. */
  function Unselected(p: Pool, inBlock: Txs, t: Tx): Txs
    requires t in p.ancestors
  {
    Family(p, t) - inBlock
  }

  function Descendants(p: Pool, t: Tx): Txs
    requires t in p.ancestors
  {
    set d | d in p.ancestors && t in Family(p, d)
  }

  // ----- Totals of packages, kept up to date -----

  /** The totals of a whole family. */
  ghost function Full(p: Pool, t: Tx): Mod
    requires Acyclic(p) && t in p.entries
  {
    var c := Total(p, Family(p, t));
    Mod(c.size, c.modFee, c.sigOps, c.mweb)
  }

  /** The mempool caches the totals of every family. */
  ghost predicate PoolOk(p: Pool) {
    Acyclic(p) && p.cached.Keys == p.entries.Keys && forall t :: t in p.entries ==> p.cached[t] == Full(p, t)
  }

  /** Totals lowered by an ancestor that went into the block; `fee` is what is taken off the fees. */
  function Lower(m: Mod, e: Entry, fee: int): Mod {
    Mod(m.size - e.size, m.modFees - fee, m.sigOps - e.sigOps, m.mweb - e.mweb)
  }

  ghost predicate FeesAgree(p: Pool) {
    forall t :: t in p.entries ==> p.entries[t].fee == p.entries[t].modFee
  }

  /** `m` is the totals `c`; fees too, if no fee has been modified. */
  ghost predicate IsExact(p: Pool, m: Mod, c: Cost) {
    && m.size == c.size && m.sigOps == c.sigOps && m.mweb == c.mweb
    && (FeesAgree(p) ==> m.modFees == c.modFee)
  }

  ghost predicate Covers(m: Mod, c: Cost) {
    m.size >= c.size && m.sigOps >= c.sigOps && m.mweb >= c.mweb
  }

  /** `m2` is `m` lowered by `c`. */
  ghost predicate Lowered(p: Pool, m: Mod, m2: Mod, c: Cost) {
    && m2.size == m.size - c.size && m2.sigOps == m.sigOps - c.sigOps && m2.mweb == m.mweb - c.mweb
    && (FeesAgree(p) ==> m2.modFees == m.modFees - c.modFee)
  }

  type Mods = map<Tx, Mod>

  ghost predicate Closed(p: Pool, inBlock: Txs)
    requires Acyclic(p)
  {
    inBlock <= p.entries.Keys && forall t :: t in inBlock ==> p.ancestors[t] <= inBlock
  }

  /** The books of the selection.  The selected set is closed under ancestors.  Every modified
      entry is unselected and its totals cover what its inclusion would add.  As long as no
      AddToBlock has failed (`clean`), the totals of a modified entry that has not failed are
      exact, and an entry that is in no list has no ancestor in the block, so that the totals
      cached in the mempool are exact for it. */
  ghost predicate Ledger(p: Pool, inBlock: Txs, mods: Mods, failed: Txs, clean: bool)
    requires Acyclic(p)
  {
    && Closed(p, inBlock)
    && mods.Keys <= p.entries.Keys
    && (forall t :: t in mods ==> t !in inBlock)
    && (forall t :: t in mods ==> Covers(mods[t], Total(p, Unselected(p, inBlock, t))))
    && (clean ==> forall t :: t in mods && t !in failed ==> IsExact(p, mods[t], Total(p, Unselected(p, inBlock, t))))
    && (clean ==> forall t :: t in p.entries && t !in mods && t !in inBlock && t !in failed ==>
          p.ancestors[t] * inBlock == {})
  }

  lemma EmptyLedger(p: Pool)
    requires Acyclic(p)
    ensures Ledger(p, {}, map[], {}, true)
  {
  }

  /** The totals to test a candidate with: what its inclusion would add, at most; exactly, while
      the books are clean. */
  lemma CandidateTotals(p: Pool, inBlock: Txs, mods: Mods, failed: Txs, clean: bool, t: Tx)
    requires Acyclic(p) && Ledger(p, inBlock, mods, failed, clean) && t in p.entries && t !in inBlock
    ensures var m := if t in mods then mods[t] else Full(p, t);
      && Covers(m, Total(p, Unselected(p, inBlock, t)))
      && (clean && t !in failed ==> IsExact(p, m, Total(p, Unselected(p, inBlock, t))))
  {
    if t !in mods {
      var u := Unselected(p, inBlock, t);
      TotalSplit(p, Family(p, t), u, Family(p, t) - u);
      if clean && t !in failed {
        assert u == Family(p, t);
      }
    }
  }

  /** A failed candidate taken off the books. */
  lemma DropCandidate(p: Pool, inBlock: Txs, mods: Mods, failed: Txs, clean: bool, t: Tx)
    requires Acyclic(p) && Ledger(p, inBlock, mods, failed, clean)
    ensures Ledger(p, inBlock, mods - {t}, failed + {t}, clean)
  {
  }

  // ----- Updating descendants -----

  /** The entry of `t` after the ancestors in `done` have been taken off. */
  ghost predicate UpdatedAt(p: Pool, mods: Mods, mods2: Mods, done: Txs, t: Tx)
    requires Acyclic(p) && t in p.entries && done <= p.entries.Keys
  {
    var hit := p.ancestors[t] * done;
    if hit == {} then (t in mods2 <==> t in mods) && (t in mods ==> mods2[t] == mods[t])
    else t in mods2 && Lowered(p, if t in mods then mods[t] else Full(p, t), mods2[t], Total(p, hit))
  }

  /** One ancestor more taken off one descendant, as the program does it: a first change lowers
      the cached totals, with the modified fee; a later one the entry, with the plain fee. */
  function TakeOff(p: Pool, mods: Mods, it: Tx, t: Tx): Mods
    requires it in p.entries && t in p.cached
  {
    var e := p.entries[it];
    mods[t := if t in mods then Lower(mods[t], e, e.fee) else Lower(p.cached[t], e, e.modFee)]
  }

  lemma TotalNone(p: Pool)
    ensures Total(p, {}) == NOTHING
  {
  }

  lemma CachedFull(p: Pool, t: Tx)
    requires PoolOk(p) && t in p.entries
    ensures Acyclic(p) && t in p.cached && p.cached[t] == Full(p, t)
    ensures t in p.ancestors && p.ancestors[t] <= p.entries.Keys
  {
  }

  lemma TakeOffUpdates(p: Pool, mods: Mods, mods2: Mods, done: Txs, it: Tx, t: Tx)
    requires PoolOk(p) && t in p.entries && t in p.cached && it in p.entries && it in p.ancestors[t]
    requires it !in done && done <= p.entries.Keys && UpdatedAt(p, mods, mods2, done, t)
    ensures UpdatedAt(p, mods, TakeOff(p, mods2, it, t), done + {it}, t)
  {
    hide PoolOk, Acyclic, Total, Full;
    CachedFull(p, t);
    TotalNone(p);
    var hit, hit2 := p.ancestors[t] * done, p.ancestors[t] * (done + {it});
    assert hit2 == hit + {it};
    TotalRemove(p, hit2, it);
    assert hit2 - {it} == hit;
  }

  /** Fees come out right for the first ancestor taken off, and for a later one if and only if its
      fee has not been modified. */
  lemma FeeTakenOff(p: Pool, mods: Mods, it: Tx, t: Tx, u: Txs)
    requires PoolOk(p) && t in p.entries && t in p.cached && it in u && u <= p.entries.Keys
    requires (if t in mods then mods[t].modFees else p.cached[t].modFees) == Total(p, u).modFee
    ensures TakeOff(p, mods, it, t)[t].modFees == Total(p, u - {it}).modFee <==>
            t !in mods || p.entries[it].fee == p.entries[it].modFee
  {
    hide Total, PoolOk;
    TotalRemove(p, u, it);
  }

  /** By how much cached totals are too high for an entry that nobody updated: by its selected ancestors. */
  lemma CachedOvercount(p: Pool, inBlock: Txs, t: Tx)
    requires Acyclic(p) && t in p.entries && t !in inBlock
    ensures var over, u := Total(p, p.ancestors[t] * inBlock), Total(p, Unselected(p, inBlock, t));
      && Full(p, t).size == u.size + over.size && Full(p, t).sigOps == u.sigOps + over.sigOps
      && Full(p, t).mweb == u.mweb + over.mweb && Full(p, t).modFees == u.modFee + over.modFee
  {
    hide Total;
    TotalSplit(p, Family(p, t), p.ancestors[t] * inBlock, Family(p, t) - p.ancestors[t] * inBlock);
    assert Family(p, t) - p.ancestors[t] * inBlock == Unselected(p, inBlock, t);
  }

  lemma {:induction false} NoSize(p: Pool, s: Txs)
    requires s <= p.entries.Keys
    ensures Total(p, s).size == 0 <==> forall t :: t in s ==> p.entries[t].size == 0
    decreases |s|
  {
    if s != {} {
      var t :| t in s;
      TotalRemove(p, s, t);
      NoSize(p, s - {t});
    }
  }

  /** The cached size is right if and only if no ancestor with a size is in the block. */
  lemma CachedRight(p: Pool, inBlock: Txs, t: Tx)
    requires Acyclic(p) && t in p.entries && t !in inBlock
    ensures Full(p, t).size == Total(p, Unselected(p, inBlock, t)).size <==>
      forall a :: a in p.ancestors[t] && a in inBlock ==> p.entries[a].size == 0
  {
    hide Total;
    CachedOvercount(p, inBlock, t);
    NoSize(p, p.ancestors[t] * inBlock);
  }

  /** The books after a package has gone into the block and its descendants have been updated. */
  lemma PackageLedger(p: Pool, inBlock: Txs, mods: Mods, added: Txs, mods2: Mods, failed: Txs, clean: bool)
    requires Acyclic(p) && Ledger(p, inBlock, mods, failed, clean)
    requires added <= p.entries.Keys && added !! inBlock && Closed(p, inBlock + added)
    requires mods2.Keys <= p.entries.Keys && forall t :: t in added ==> t !in mods2
    requires forall t :: t in p.entries && t !in added ==> UpdatedAt(p, mods - added, mods2, added, t)
    ensures Ledger(p, inBlock + added, mods2, failed, clean)
  {
    forall t | t in mods2
      ensures t !in inBlock + added
      ensures Covers(mods2[t], Total(p, Unselected(p, inBlock + added, t)))
      ensures clean && t !in failed ==> IsExact(p, mods2[t], Total(p, Unselected(p, inBlock + added, t)))
    {
      PackageEntry(p, inBlock, mods, added, mods2, failed, clean, t);
    }
    if clean {
      forall t | t in p.entries && t !in mods2 && t !in inBlock + added && t !in failed
        ensures p.ancestors[t] * (inBlock + added) == {}
      {
        assert UpdatedAt(p, mods - added, mods2, added, t);
        assert p.ancestors[t] * added == {};
        assert t !in mods && t !in inBlock;
        assert p.ancestors[t] * inBlock == {};
        assert p.ancestors[t] * (inBlock + added) == p.ancestors[t] * inBlock + p.ancestors[t] * added;
      }
    }
  }

  lemma PackageEntry(p: Pool, inBlock: Txs, mods: Mods, added: Txs, mods2: Mods, failed: Txs, clean: bool, t: Tx)
    requires Acyclic(p) && Ledger(p, inBlock, mods, failed, clean)
    requires added <= p.entries.Keys && added !! inBlock
    requires t in mods2 && t in p.entries && t !in added && UpdatedAt(p, mods - added, mods2, added, t)
    ensures t !in inBlock
    ensures Covers(mods2[t], Total(p, Unselected(p, inBlock + added, t)))
    ensures clean && t !in failed ==> IsExact(p, mods2[t], Total(p, Unselected(p, inBlock + added, t)))
  {
    hide Total;
    var u := Unselected(p, inBlock, t);
    var hit := p.ancestors[t] * added;
    assert t in inBlock ==> hit == {};
    assert t !in inBlock;
    assert hit <= u;
    assert u - hit == Unselected(p, inBlock + added, t);
    TotalSplit(p, u, hit, u - hit);
    CandidateTotals(p, inBlock, mods, failed, clean, t);
    if hit == {} {
      assert u - hit == u;
    }
  }

  /** Part of a package adds no more than the totals it was tested with. */
  lemma PartAdds(p: Pool, was: Txs, part: Txs, package: Txs, m: Mod)
    requires Acyclic(p) && was <= p.entries.Keys && part <= package <= p.entries.Keys && was !! package
    requires Covers(m, Total(p, package))
    ensures var before, after := Total(p, was), Total(p, was + part);
      && after.weight <= before.weight + 4 * m.size && after.sigOps <= before.sigOps + m.sigOps
      && after.mweb <= before.mweb + m.mweb
  {
    hide Total, Acyclic;
    TotalSplit(p, was + part, was, part);
    TotalSplit(p, package, part, package - part);
    WeightBelow(p, part);
  }

  /** The books after AddToBlock failed: part of the package is in, the rest has failed, nobody was
      updated.  All totals still cover. */
  lemma PartialLedger(p: Pool, inBlock: Txs, mods: Mods, failed: Txs, clean: bool, part: Txs, package: Txs)
    requires Acyclic(p) && Ledger(p, inBlock, mods, failed, clean)
    requires part <= package <= p.entries.Keys && Closed(p, inBlock + part)
    ensures Ledger(p, inBlock + part, mods - package, failed + (package - part), false)
  {
    hide Total;
    forall t | t in mods - package
      ensures Covers(mods[t], Total(p, Unselected(p, inBlock + part, t)))
    {
      var u, v := Unselected(p, inBlock, t), Unselected(p, inBlock + part, t);
      assert v <= u;
      TotalSplit(p, u, v, u - v);
    }
  }

  // ----- A pool where totals go wrong -----

  /** A parent, its child with extension-block data and a raised fee, and a grandchild. */
  const PARENT := Tx(0)
  const CHILD := Tx(1)
  const GRANDCHILD := Tx(2)

  function Plain(fee: int, modFee: int, hasMweb: bool): Entry {
    Entry(100, 400, 0, 0, fee, modFee, true, false, hasMweb, false)
  }

  const THREE := Pool(
    map[PARENT := Plain(10, 10, false), CHILD := Plain(10, 30, true), GRANDCHILD := Plain(10, 10, false)],
    map[PARENT := {}, CHILD := {PARENT}, GRANDCHILD := {PARENT, CHILD}],
    map[PARENT := Mod(100, 10, 0, 0), CHILD := Mod(200, 40, 0, 0), GRANDCHILD := Mod(300, 50, 0, 0)])

  lemma TotalMore(p: Pool, s: Txs, t: Tx, rest: Txs)
    requires s <= p.entries.Keys && t !in rest && s == rest + {t}
    ensures Total(p, s) == Plus(CostOf(p.entries[t]), Total(p, rest))
  {
    TotalRemove(p, s, t);
    assert s - {t} == rest;
  }

  lemma ThreeKnown()
    ensures THREE.entries.Keys == {PARENT, CHILD, GRANDCHILD}
    ensures CostOf(THREE.entries[PARENT]) == CostOf(THREE.entries[GRANDCHILD]) == Cost(100, 400, 0, 0, 10, 10)
    ensures CostOf(THREE.entries[CHILD]) == Cost(100, 400, 0, 0, 10, 30)
  {
  }

  lemma TotalOne(p: Pool, t: Tx)
    requires t in p.entries
    ensures Total(p, {t}) == CostOf(p.entries[t])
  {
    assert {t} - {t} == {};
  }

  lemma SingleTotals()
    ensures PARENT in THREE.entries && GRANDCHILD in THREE.entries
    ensures Total(THREE, {PARENT}) == Total(THREE, {GRANDCHILD}) == Cost(100, 400, 0, 0, 10, 10)
  {
    hide Total, CostOf;
    ThreeKnown();
    TotalOne(THREE, PARENT);
    TotalOne(THREE, GRANDCHILD);
  }

  lemma PairTotals()
    ensures PARENT in THREE.entries && CHILD in THREE.entries && GRANDCHILD in THREE.entries
    ensures Total(THREE, {CHILD, GRANDCHILD}) == Total(THREE, {PARENT, CHILD}) == Cost(200, 800, 0, 0, 20, 40)
  {
    hide Total, CostOf;
    ThreeKnown();
    SingleTotals();
    TotalMore(THREE, {CHILD, GRANDCHILD}, CHILD, {GRANDCHILD});
    TotalMore(THREE, {PARENT, CHILD}, CHILD, {PARENT});
  }

  lemma ThreeTotals()
    ensures THREE.entries.Keys == {PARENT, CHILD, GRANDCHILD}
    ensures Total(THREE, {PARENT, CHILD, GRANDCHILD}) == Cost(300, 1200, 0, 0, 30, 50)
  {
    hide Total, CostOf;
    ThreeKnown();
    PairTotals();
    TotalMore(THREE, {PARENT, CHILD, GRANDCHILD}, PARENT, {CHILD, GRANDCHILD});
  }

  lemma ThreeOk()
    ensures PoolOk(THREE)
  {
    hide Total;
    SingleTotals();
    PairTotals();
    ThreeTotals();
    assert Family(THREE, PARENT) == {PARENT};
    assert Family(THREE, CHILD) == {PARENT, CHILD};
    assert Family(THREE, GRANDCHILD) == {PARENT, CHILD, GRANDCHILD};
  }

  /** Parent and child go into the block: the grandchild's fees are then twenty too high. */
  lemma FeesDrift()
    ensures PoolOk(THREE)
    ensures var first := TakeOff(THREE, map[], PARENT, GRANDCHILD);
      && first[GRANDCHILD].modFees == Total(THREE, {CHILD, GRANDCHILD}).modFee
      && TakeOff(THREE, first, CHILD, GRANDCHILD)[GRANDCHILD].modFees == 30
      && Total(THREE, {GRANDCHILD}).modFee == 10
  {
    hide Total;
    ThreeOk();
    SingleTotals();
    PairTotals();
  }

  /** The parent goes in, the child's AddToBlock fails: nobody updates the grandchild, whose totals are
      the cached ones and too high. */
  lemma TotalsStale()
    ensures PoolOk(THREE) && Ledger(THREE, {PARENT}, map[], {CHILD}, false)
    ensures THREE.cached[GRANDCHILD].size > Total(THREE, Unselected(THREE, {PARENT}, GRANDCHILD)).size
    ensures THREE.cached[GRANDCHILD].modFees > Total(THREE, Unselected(THREE, {PARENT}, GRANDCHILD)).modFee
  {
    hide Total;
    ThreeOk();
    SingleTotals();
    PairTotals();
    EmptyLedger(THREE);
    var none: Mods := map[];
    assert {} + {PARENT} == {PARENT} && none - {PARENT, CHILD} == none;
    assert {PARENT, CHILD} - {PARENT} == {CHILD};
    PartialLedger(THREE, {}, none, {}, true, {PARENT}, {PARENT, CHILD});
    assert Unselected(THREE, {PARENT}, GRANDCHILD) == {CHILD, GRANDCHILD};
  }
}
