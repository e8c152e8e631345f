/** The block assembler as the program has it: an object whose counters and selected set change
    inside the selection loop.  The order in which candidates are taken depends on fee rates; here
    it is arbitrary, so what is proved holds whatever the scores are. */
module Miner {
  import opened MinerSpec

  const MAX_BLOCK_WEIGHT := 4000000
  const MAX_BLOCK_SIGOPS_COST := 80000
  const MAX_MINE_WEIGHT := 20000
  const WITNESS_SCALE_FACTOR := 4
  const MAX_CONSECUTIVE_FAILURES := 1000

  /** Every transaction comes after its ancestors, and none comes twice. */
  ghost predicate Topological(p: Pool, txs: seq<Tx>)
    requires Acyclic(p)
  {
    && (forall i :: 0 <= i < |txs| ==> txs[i] in p.entries)
    && (forall i, j :: 0 <= i < j < |txs| ==> txs[i] != txs[j])
    && (forall i, a :: 0 <= i < |txs| && a in p.ancestors[txs[i]] ==> a in txs[..i])
  }

  ghost predicate Elements(txs: seq<Tx>, s: Txs) {
    forall t :: t in txs <==> t in s
  }

  /** The transactions that go into the block proper. */
  function Visible(p: Pool, txs: seq<Tx>): seq<Tx> {
    if txs == [] then []
    else
      var t := txs[|txs| - 1];
      Visible(p, txs[..|txs| - 1]) + if t in p.entries && !p.entries[t].mwebOnly then [t] else []
  }

  /** The assembler's counters. */
  datatype Counters = Counters(weight: int, sigOps: int, mweb: int, txs: int, fees: int)

  /** Selected transactions come in a valid order, and every counter is the sum over them. */
  ghost predicate Accounted(p: Pool, inBlock: Txs, included: seq<Tx>, vtx: seq<Tx>, c: Counters)
    requires Acyclic(p)
  {
    && Closed(p, inBlock)
    && Topological(p, included) && Elements(included, inBlock)
    && vtx == Visible(p, included)
    && c == Sums(p, inBlock, |vtx|)
  }

  ghost function Sums(p: Pool, inBlock: Txs, visible: nat): Counters
    requires inBlock <= p.entries.Keys
  {
    var c := Total(p, inBlock);
    Counters(4000 + c.weight, 400 + c.sigOps, c.mweb, visible, c.fee)
  }

  /** How a selection ends. */
  datatype Outcome = Exhausted | NearlyFull | FeeTooLow

  /** What became of a candidate. */
  datatype Verdict = LowFee | NoFit | Refused | Taken

  class BlockAssembler {
    const pool: Pool
    const maxWeight: int
    const minFee: (int, int) -> int
    const includeWitness: bool
    const includeMweb: bool
    var nBlockWeight: int
    var nBlockSigOpsCost: int
    var nBlockMWEBWeight: int
    var nBlockTx: int
    var nFees: int
    var inBlock: Txs
    var vtx: seq<Tx>
    ghost var included: seq<Tx>  // all transactions selected, in order

    ghost predicate Books()
      requires Acyclic(pool)
      reads this
    {
      Accounted(pool, inBlock, included, vtx,
                Counters(nBlockWeight, nBlockSigOpsCost, nBlockMWEBWeight, nBlockTx, nFees))
    }

    /** No limit is exceeded; once anything is selected, none is even reached. */
    ghost predicate WithinLimits()
      reads this
    {
      && 4000 <= maxWeight <= MAX_BLOCK_WEIGHT - 4000
      && (inBlock == {} ==> nBlockWeight == 4000 && nBlockSigOpsCost == 400 && nBlockMWEBWeight == 0)
      && (inBlock != {} ==>
            nBlockWeight < maxWeight && nBlockSigOpsCost < MAX_BLOCK_SIGOPS_COST && nBlockMWEBWeight < MAX_MINE_WEIGHT)
    }

    /** Everything selected passes the checks on single transactions, and none has failed. */
    ghost predicate AllAllowed(failed: Txs)
      reads this
    {
      inBlock <= pool.entries.Keys && TestPackageTransactions(inBlock, failed)
    }

    constructor (p: Pool, wantedMaxWeight: nat, fee: (int, int) -> int, withWitness: bool, withMweb: bool)
      requires PoolOk(p)
      ensures pool == p && Books() && WithinLimits() && AllAllowed({}) && inBlock == {}
    {
      pool, minFee, includeWitness, includeMweb := p, fee, withWitness, withMweb;
      var capped := if wantedMaxWeight < MAX_BLOCK_WEIGHT - 4000 then wantedMaxWeight else MAX_BLOCK_WEIGHT - 4000;
      maxWeight := if capped < 4000 then 4000 else capped;
      inBlock, vtx, included := {}, [], [];
      nBlockWeight, nBlockSigOpsCost, nBlockMWEBWeight, nBlockTx, nFees := 4000, 400, 0, 0, 0;
    }

    predicate TestPackage(size: int, sigOps: int, mweb: int)
      reads this
    {
      && nBlockWeight + WITNESS_SCALE_FACTOR * size < maxWeight
      && nBlockSigOpsCost + sigOps < MAX_BLOCK_SIGOPS_COST
      && nBlockMWEBWeight + mweb < MAX_MINE_WEIGHT
    }

    predicate Allowed(t: Tx)
      requires t in pool.entries
    {
      && pool.entries[t].isFinal
      && (includeWitness || !pool.entries[t].hasWitness)
      && (includeMweb || !pool.entries[t].hasMweb)
    }

    predicate TestPackageTransactions(package: Txs, failed: Txs)
      requires package <= pool.entries.Keys
    {
      forall t :: t in package ==> Allowed(t) && t !in failed
    }

    /** The extension-block miner may refuse a transaction for reasons of its own. */
    method AddMWEBTransaction(t: Tx) returns (ok: bool)
    {
      ok :| true;
    }

    method AddToBlock(t: Tx) returns (ok: bool)
      requires PoolOk(pool) && Books() && t in pool.entries && t !in inBlock && pool.ancestors[t] <= inBlock
      modifies this
      ensures Books()
      ensures if ok then inBlock == old(inBlock) + {t} && included == old(included) + [t]
              else inBlock == old(inBlock) && included == old(included)
      ensures !ok ==> pool.entries[t].hasMweb
    {
      hide Acyclic, Accounted;
      KnownAncestors(pool);
      var e := pool.entries[t];
      if e.hasMweb {
        var added := AddMWEBTransaction(t);
        if !added {
          return false;
        }
      }
      ExtendBooks(pool, inBlock, included, vtx,
                  Counters(nBlockWeight, nBlockSigOpsCost, nBlockMWEBWeight, nBlockTx, nFees), t);
      if !e.mwebOnly {
        vtx := vtx + [t];
        nBlockTx := nBlockTx + 1;
      }
      nBlockWeight := nBlockWeight + e.weight;
      nBlockSigOpsCost := nBlockSigOpsCost + e.sigOps;
      nBlockMWEBWeight := nBlockMWEBWeight + e.mweb;
      nFees := nFees + e.fee;
      inBlock := inBlock + {t};
      included := included + [t];
      return true;
    }

    /** One selected transaction taken off the totals of each of its descendants. */
    method UpdateDescendants(it: Tx, added: Txs, mods: Mods) returns (mods2: Mods, updated: nat)
      requires PoolOk(pool) && it in added && added <= pool.entries.Keys && mods.Keys <= pool.entries.Keys
      requires pool.ancestors.Keys == pool.entries.Keys == pool.cached.Keys
      ensures mods2.Keys <= pool.entries.Keys
      ensures TakenOff(pool, mods, mods2, it, Descendants(pool, it) - added)
    {
      hide PoolOk, Acyclic, TakenOff, TakeOff;
      KnownAncestors(pool);
      var descendants := Descendants(pool, it);
      mods2, updated := mods, 0;
      var rest := descendants;
      TakenNone(pool, mods, it, descendants - rest - added);
      while rest != {}
        invariant rest <= descendants && mods2.Keys <= pool.entries.Keys
        invariant TakenOff(pool, mods, mods2, it, descendants - rest - added)
        decreases |rest|
      {
        var d :| d in rest;
        ghost var done := descendants - rest - added;
        rest := rest - {d};
        if d in added {
          assert descendants - rest - added == done;
          continue;
        }
        assert descendants - rest - added == done + {d};
        TakenStep(pool, mods, mods2, it, done, d);
        updated := updated + 1;
        mods2 := TakeOff(pool, mods2, it, d);
      }
      assert descendants - rest - added == descendants - added;
    }

    /** All selected transactions taken off the totals of their unselected descendants. */
    method UpdatePackagesForAdded(added: Txs, mods: Mods) returns (mods2: Mods, updated: nat)
      requires PoolOk(pool) && added <= pool.entries.Keys && mods.Keys <= pool.entries.Keys
      ensures mods2.Keys <= pool.entries.Keys
      ensures forall t :: t in added ==> Same(mods2, mods, t)
      ensures forall t :: t in pool.entries && t !in added ==> UpdatedAt(pool, mods, mods2, added, t)
    {
      hide PoolOk, Acyclic, TakenOff, UpdatedAt, TakeOff;
      PoolAcyclic(pool);
      KnownAncestors(pool);
      mods2, updated := mods, 0;
      var rest := added;
      forall t | t in pool.entries
        ensures UpdatedAt(pool, mods, mods2, added - rest, t)
      {
        NothingDone(pool, mods, added - rest, t);
      }
      while rest != {}
        invariant rest <= added && mods2.Keys <= pool.entries.Keys
        invariant forall t :: t in added ==> Same(mods2, mods, t)
        invariant forall t :: t in pool.entries && t !in added ==> UpdatedAt(pool, mods, mods2, added - rest, t)
        decreases |rest|
      {
        var it :| it in rest;
        var more, n := UpdateDescendants(it, added, mods2);
        forall t | t in added
          ensures Same(more, mods, t)
        {
          TakenAt(pool, mods2, more, it, added, t);
        }
        forall t | t in pool.entries && t !in added
          ensures UpdatedAt(pool, mods, more, added - (rest - {it}), t)
        {
          TakenAt(pool, mods2, more, it, added, t);
          OneMore(pool, mods, mods2, more, added - rest, it, t);
          assert added - (rest - {it}) == added - rest + {it};
        }
        mods2, updated, rest := more, updated + n, rest - {it};
      }
      assert added - rest == added;
    }

    /** The package ordered by number of ancestors. */
    method SortForBlock(package: Txs) returns (sorted: seq<Tx>)
      requires package <= pool.ancestors.Keys
      ensures Elements(sorted, package)
      ensures ByAncestors(pool, sorted)
    {
      sorted := [];
      var rest := package;
      while rest != {}
        invariant rest <= package && Elements(sorted, package - rest)
        invariant ByAncestors(pool, sorted)
        invariant forall i, t :: 0 <= i < |sorted| && t in rest ==>
          |pool.ancestors[sorted[i]]| <= |pool.ancestors[t]|
        decreases |rest|
      {
        var t := Fewest(rest);
        sorted, rest := sorted + [t], rest - {t};
      }
    }

    method Fewest(s: Txs) returns (best: Tx)
      requires s != {} && s <= pool.ancestors.Keys
      ensures best in s && forall t :: t in s ==> |pool.ancestors[best]| <= |pool.ancestors[t]|
    {
      best :| best in s;
      var rest := s - {best};
      while rest != {}
        invariant rest <= s && best in s
        invariant forall t :: t in s && t !in rest ==> |pool.ancestors[best]| <= |pool.ancestors[t]|
        decreases |rest|
      {
        var t :| t in rest;
        if |pool.ancestors[t]| < |pool.ancestors[best]| {
          best := t;
        }
        rest := rest - {t};
      }
    }

    lemma BooksClosed()
      requires Acyclic(pool) && Books()
      ensures Closed(pool, inBlock) && inBlock <= pool.entries.Keys
    {
    }

    /** Transactions go into the block one by one, up to the first that cannot be added. */
    method AddSorted(sorted: seq<Tx>, mods: Mods) returns (n: nat, mods2: Mods)
      requires PoolOk(pool) && Acyclic(pool) && Books() && Ready(pool, inBlock, sorted)
      modifies this
      ensures Books()
      ensures n <= |sorted| && inBlock == old(inBlock) + Prefix(sorted, n) && mods2 == mods - Prefix(sorted, n)
      ensures n < |sorted| ==> sorted[n] in pool.entries && pool.entries[sorted[n]].hasMweb
    {
      hide PoolOk, Acyclic, Books, Ready, Prefix;
      KnownAncestors(pool);
      NoPrefix(sorted);
      mods2, n := mods, 0;
      while n < |sorted|
        invariant n <= |sorted| && Books()
        invariant inBlock == old(inBlock) + Prefix(sorted, n) && mods2 == mods - Prefix(sorted, n)
      {
        ReadyNext(pool, old(inBlock), sorted, n);
        var ok := AddToBlock(sorted[n]);
        if !ok {
          return;
        }
        PrefixNext(sorted, n);
        mods2 := mods2 - {sorted[n]};
        n := n + 1;
      }
    }

    /** A package goes into the block, ancestors first.  If a transaction of it cannot be added, it
        and all after it have failed, and what came before stays in. */
    method IncludePackage(t: Tx, mods: Mods, failed: Txs, ghost clean: bool)
      returns (ok: bool, mods2: Mods, failed2: Txs, updated: nat)
      requires PoolOk(pool) && Books() && t in pool.entries && t !in inBlock
      requires Ledger(pool, inBlock, mods, failed, clean)
      modifies this
      ensures Books()
      ensures ok ==> inBlock == old(inBlock) + Unselected(pool, old(inBlock), t) && failed2 == failed
      ensures ok ==> mods.Keys - inBlock <= mods2.Keys
      ensures !ok ==> exists u :: u in pool.entries && pool.entries[u].hasMweb
      ensures !ok ==> Failure(pool, old(inBlock), inBlock, t, mods, mods2, failed, failed2)
      ensures Ledger(pool, inBlock, mods2, failed2, clean && ok)
    {
      hide PoolOk, Acyclic, Books, Ledger, Closed, Ready, ByAncestors, Prefix, Elements, UpdatedAt, Unselected;
      KnownAncestors(pool);
      PoolAcyclic(pool);
      LedgerKeys(pool, inBlock, mods, failed, clean);
      var package := Unselected(pool, inBlock, t);
      PackageKnown(pool, inBlock, t);
      var sorted := SortForBlock(package);
      AncestorsFirst(pool, inBlock, t, sorted);
      var n, rest := AddSorted(sorted, mods);
      BooksClosed();
      ok := n == |sorted|;
      if ok {
        PrefixAll(sorted, package);
        failed2 := failed;
        mods2, updated := UpdatePackagesForAdded(package, rest);
        PackageLedger(pool, old(inBlock), mods, package, mods2, failed, clean);
        StillListed(pool, mods - package, mods2, package);
      } else {
        ghost var part := Prefix(sorted, n);
        PrefixWithin(sorted, n, package);
        PartialLedger(pool, old(inBlock), mods, failed, clean, part, package);
        assert package - part == package - inBlock;
        failed2, mods2, updated := failed + (package - inBlock), rest - package, 0;
        assert mods2 == mods - package;
      }
    }

    // ----- Why a transaction is left out -----

    /** A block that holds `b` has room for totals of size, sigops and extension weight. */
    ghost predicate Room(b: Txs, size: int, sigOps: int, mweb: int)
      requires b <= pool.entries.Keys
    {
      var c := Total(pool, b);
      && 4000 + c.weight + WITNESS_SCALE_FACTOR * size < maxWeight
      && 400 + c.sigOps + sigOps < MAX_BLOCK_SIGOPS_COST
      && c.mweb + mweb < MAX_MINE_WEIGHT
    }

    /** A block that holds `b` has room for the package of `r`. */
    ghost predicate Fits(b: Txs, r: Tx)
      requires Acyclic(pool) && b <= pool.entries.Keys && r in pool.entries
    {
      var d := Total(pool, Unselected(pool, b, r));
      Room(b, d.size, d.sigOps, d.mweb)
    }

    /** The counters tested are those of the selected set. */
    lemma TestMeans(m: Mod)
      requires Acyclic(pool) && Books()
      ensures inBlock <= pool.entries.Keys
      ensures TestPackage(m.size, m.sigOps, m.mweb) <==> Room(inBlock, m.size, m.sigOps, m.mweb)
    {
    }

    lemma LimitsAfter(was: Txs, package: Txs, m: Mod)
      requires Acyclic(pool) && Books() && 4000 <= maxWeight <= MAX_BLOCK_WEIGHT - 4000
      requires was <= inBlock <= was + package <= pool.entries.Keys && was !! package
      requires Covers(m, Total(pool, package)) && Room(was, m.size, m.sigOps, m.mweb)
      ensures WithinLimits()
    {
      hide Acyclic, Total, Topological, Visible, Elements;
      TotalNone(pool);
      PartAdds(pool, was, inBlock - was, package, m);
      assert was + (inBlock - was) == inBlock;
    }

    /** `r`, unselected, keeps `t` out: it is not allowed in, or it did not fit when `b` was selected. */
    ghost predicate Bars(t: Tx, selected: Txs, failed: Txs, r: Tx, b: Txs)
      requires Acyclic(pool) && t in pool.entries && selected <= pool.entries.Keys
    {
      && r in Unselected(pool, selected, t) && b <= selected && r in pool.entries
      && (!Allowed(r) || ((r == t || r in failed) && Closed(pool, b) && !Fits(b, r)))
    }

    ghost predicate Reason(t: Tx, selected: Txs, failed: Txs)
      requires Acyclic(pool) && t in pool.entries && selected <= pool.entries.Keys
    {
      exists r, b :: Bars(t, selected, failed, r, b)
    }

    /** Every transaction that is neither selected nor still to be considered is out for a reason. */
    ghost predicate Explained(selected: Txs, mods: Mods, failed: Txs, todo: Txs)
      requires Acyclic(pool) && selected <= pool.entries.Keys
    {
      forall t :: t in pool.entries && t !in selected && (t in failed || (t !in mods && t !in todo)) ==>
        Reason(t, selected, failed)
    }

    /** `t` has an unselected ancestor, or is one itself, that is not allowed in or whose package did
        not fit at some moment of the selection. */
    ghost predicate LeftOut(t: Tx, selected: Txs)
      requires Acyclic(pool) && t in pool.entries
    {
      exists r, b :: r in Unselected(pool, selected, t) && r in pool.entries && b <= selected && Closed(pool, b) &&
        (!Allowed(r) || !Fits(b, r))
    }

    lemma ReasonMeans(t: Tx, selected: Txs, failed: Txs)
      requires Acyclic(pool) && t in pool.entries && selected <= pool.entries.Keys && Reason(t, selected, failed)
      ensures LeftOut(t, selected)
    {
      hide Fits, Acyclic, Allowed;
      var r, b :| Bars(t, selected, failed, r, b);
      if !Allowed(r) {
        assert Closed(pool, {});
      }
    }

    lemma ReasonStays(t: Tx, selected: Txs, failed: Txs, selected2: Txs, failed2: Txs)
      requires Acyclic(pool) && t in pool.entries && selected <= selected2 <= pool.entries.Keys && failed <= failed2
      requires TestPackageTransactions(selected2, failed2) && t !in selected2
      requires Reason(t, selected, failed)
      ensures Reason(t, selected2, failed2)
    {
      hide Acyclic, Fits, Total, Allowed;
      var r, b :| Bars(t, selected, failed, r, b);
      assert Bars(t, selected2, failed2, r, b);
    }

    lemma NoFitReason(t: Tx, selected: Txs, failed: Txs)
      requires Acyclic(pool) && t in pool.entries && selected <= pool.entries.Keys && t !in selected
      requires Closed(pool, selected) && !Fits(selected, t)
      ensures Reason(t, selected, failed)
    {
      hide Fits;
      assert Bars(t, selected, failed, t, selected);
    }

    lemma RefusedReason(t: Tx, selected: Txs, mods: Mods, failed: Txs, todo: Txs)
      requires Acyclic(pool) && t in pool.entries && selected <= pool.entries.Keys
      requires Unselected(pool, selected, t) <= pool.entries.Keys
      requires Explained(selected, mods, failed, todo)
      requires !TestPackageTransactions(Unselected(pool, selected, t), failed)
      ensures Reason(t, selected, failed)
    {
      hide Fits;
      var w :| w in Unselected(pool, selected, t) && !(Allowed(w) && w !in failed);
      if !Allowed(w) {
        assert Bars(t, selected, failed, w, {});
      } else {
        assert Reason(w, selected, failed);
        var r, b :| Bars(w, selected, failed, r, b);
        assert Bars(t, selected, failed, r, b);
      }
    }

    // ----- The selection loop -----

    /** What holds between two candidates. */
    ghost predicate Sound(mods: Mods, failed: Txs, clean: bool, todo: Txs)
      requires Acyclic(pool)
      reads this
    {
      && Books() && WithinLimits() && AllAllowed(failed) && failed <= pool.entries.Keys
      && Ledger(pool, inBlock, mods, failed, clean)
      && (clean ==> Explained(inBlock, mods, failed, todo))
      && (!clean ==> exists u :: u in pool.entries && pool.entries[u].hasMweb)
    }

    /** A candidate that is not taken goes off the list of modified entries and has failed, if it
        came from there; otherwise it is passed over. */
    method Reject(t: Tx, usingModified: bool, mods: Mods, failed: Txs, ghost clean: bool, ghost todo: Txs)
      returns (mods2: Mods, failed2: Txs)
      requires PoolOk(pool) && Acyclic(pool) && t in pool.entries && t !in inBlock
      requires Sound(mods, failed, clean, todo + {t}) && (t in mods <==> usingModified)
      requires clean ==> Reason(t, inBlock, failed)
      ensures Sound(mods2, failed2, clean, todo)
      ensures mods2.Keys <= mods.Keys && t !in mods2
    {
      hide PoolOk, Acyclic, Books, WithinLimits, Ledger, Reason;
      mods2, failed2 := mods, failed;
      if usingModified {
        DropCandidate(pool, inBlock, mods, failed, clean, t);
        mods2, failed2 := mods - {t}, failed + {t};
        if clean {
          forall u | u in pool.entries && u !in inBlock && (u in failed2 || (u !in mods2 && u !in todo))
            ensures Reason(u, inBlock, failed2)
          {
            ReasonStays(u, inBlock, failed, inBlock, failed2);
          }
        }
      }
    }

    /** A candidate that passed all tests: its package is included. */
    method Accept(t: Tx, m: Mod, mods: Mods, failed: Txs, ghost clean: bool, ghost todo: Txs)
      returns (mods2: Mods, failed2: Txs, updated: nat, ghost clean2: bool)
      requires PoolOk(pool) && Acyclic(pool) && t in pool.entries && t !in inBlock
      requires Sound(mods, failed, clean, todo + {t})
      requires var package := Unselected(pool, inBlock, t);
        && package <= pool.entries.Keys && TestPackageTransactions(package, failed)
        && Covers(m, Total(pool, package)) && TestPackage(m.size, m.sigOps, m.mweb)
      modifies this
      ensures Sound(mods2, failed2, clean2, todo)
      ensures clean2 ==> inBlock == old(inBlock) + Unselected(pool, old(inBlock), t)
      ensures old(inBlock) < inBlock || (inBlock == old(inBlock) && mods2.Keys <= mods.Keys && t !in mods2)
    {
      hide PoolOk, Acyclic, Books, WithinLimits, Ledger, Reason, Total, Covers, Room;
      KnownAncestors(pool);
      TestMeans(m);
      assert 4000 <= maxWeight <= MAX_BLOCK_WEIGHT - 4000 by { LimitsMean(); }
      ghost var package := Unselected(pool, inBlock, t);
      assert t in package;
      var ok;
      ok, mods2, failed2, updated := IncludePackage(t, mods, failed, clean);
      clean2 := clean && ok;
      LimitsAfter(old(inBlock), package, m);
      if clean2 {
        forall u | u in pool.entries && u !in inBlock && (u in failed2 || (u !in mods2 && u !in todo))
          ensures Reason(u, inBlock, failed2)
        {
          ReasonStays(u, old(inBlock), failed, inBlock, failed2);
        }
      }
    }

    /** One candidate, with the totals the program tests it with. */
    method Consider(t: Tx, usingModified: bool, mods: Mods, failed: Txs, ghost clean: bool, ghost todo: Txs)
      returns (verdict: Verdict, mods2: Mods, failed2: Txs, updated: nat, ghost clean2: bool)
      requires PoolOk(pool) && Acyclic(pool) && t in pool.entries && t !in inBlock
      requires Sound(mods, failed, clean, todo + {t}) && (t in mods <==> usingModified)
      modifies this
      ensures verdict == LowFee ==> inBlock == old(inBlock) && clean2 == clean && Poor(t, clean)
      ensures verdict == LowFee ==> Books() && WithinLimits() && AllAllowed({})
      ensures verdict != LowFee ==> Sound(mods2, failed2, clean2, todo)
      ensures verdict != LowFee ==>
        old(inBlock) < inBlock || (inBlock == old(inBlock) && mods2.Keys <= mods.Keys && t !in mods2)
    {
      hide PoolOk, Acyclic, Books, WithinLimits, Ledger, Reason, Total, Full, Covers, IsExact, Explained;
      KnownAncestors(pool);
      CachedFull(pool, t);
      PackageKnown(pool, inBlock, t);
      mods2, failed2, updated, clean2 := mods, failed, 0, clean;
      var m := if usingModified then mods[t] else pool.cached[t];
      CandidateTotals(pool, inBlock, mods, failed, clean, t);
      if m.modFees < minFee(m.size, m.mweb) {
        LowFeePoor(t, m, mods, failed, clean, todo + {t});
        return LowFee, mods, failed, 0, clean;
      }
      if !TestPackage(m.size, m.sigOps, m.mweb) {
        if clean {
          NoRoomReason(t, m, mods, failed, todo + {t});
        }
        mods2, failed2 := Reject(t, usingModified, mods, failed, clean, todo);
        return NoFit, mods2, failed2, 0, clean;
      }
      if !TestPackageTransactions(Unselected(pool, inBlock, t), failed) {
        if clean {
          RefusedReason(t, inBlock, mods, failed, todo + {t});
        }
        mods2, failed2 := Reject(t, usingModified, mods, failed, clean, todo);
        return Refused, mods2, failed2, 0, clean;
      }
      mods2, failed2, updated, clean2 := Accept(t, m, mods, failed, clean, todo);
      verdict := Taken;
    }

    /** `t` stopped the selection: it is unselected and, if nothing else keeps it out, its package does
        not pay the minimum fee rate.  Known where no AddToBlock has failed and no fee was modified. */
    ghost predicate Poor(t: Tx, clean: bool)
      requires Acyclic(pool) && t in pool.entries
      reads this
    {
      && t !in inBlock
      && (clean && FeesAgree(pool) && !LeftOut(t, inBlock) ==>
            var u := Total(pool, Unselected(pool, inBlock, t)); u.modFee < minFee(u.size, u.mweb))
    }

    lemma LowFeePoor(t: Tx, m: Mod, mods: Mods, failed: Txs, clean: bool, todo: Txs)
      requires Acyclic(pool) && t in pool.entries && t !in inBlock && Sound(mods, failed, clean, todo)
      requires clean && t !in failed ==> IsExact(pool, m, Total(pool, Unselected(pool, inBlock, t)))
      requires m.modFees < minFee(m.size, m.mweb)
      ensures Poor(t, clean)
    {
      hide Acyclic, Books, WithinLimits, Ledger, Reason, LeftOut, Total;
      if clean && t in failed {
        ReasonMeans(t, inBlock, failed);
      }
    }

    lemma NoRoomReason(t: Tx, m: Mod, mods: Mods, failed: Txs, todo: Txs)
      requires Acyclic(pool) && t in pool.entries && t !in inBlock && Sound(mods, failed, true, todo)
      requires t !in failed ==> IsExact(pool, m, Total(pool, Unselected(pool, inBlock, t)))
      requires !TestPackage(m.size, m.sigOps, m.mweb)
      ensures Reason(t, inBlock, failed)
    {
      hide Acyclic, Books, WithinLimits, Ledger, Reason, Total, Room;
      BooksClosed();
      TestMeans(m);
      if t !in failed {
        NoFitReason(t, inBlock, failed);
      }
    }

    /** The books before the first candidate: descendants of what is selected already are listed. */
    method Begin() returns (mods: Mods)
      requires PoolOk(pool) && Acyclic(pool) && Books() && WithinLimits() && AllAllowed({})
      ensures Sound(mods, {}, true, pool.entries.Keys)
    {
      hide PoolOk, Acyclic, Books, WithinLimits, Ledger, Reason, UpdatedAt, Closed;
      BooksClosed();
      KnownAncestors(pool);
      EmptyLedger(pool);
      var n;
      var none: Mods := map[];
      mods, n := UpdatePackagesForAdded(inBlock, none);
      assert {} + inBlock == inBlock;
      assert none - inBlock == none;
      PackageLedger(pool, {}, none, inBlock, mods, {}, true);
    }

    /** The next candidate: the next entry of the mempool, or the best of the modified entries. */
    method Pick(order: seq<Tx>, mi: nat, mods: Mods) returns (t: Tx, usingModified: bool, next: nat)
      requires mi <= |order| && (mi < |order| || mods != map[])
      ensures if usingModified then t in mods && next == mi else mi < |order| && t == order[mi] && next == mi + 1
    {
      usingModified := mi == |order|;
      if mods != map[] {
        var better: bool :| true;
        usingModified := usingModified || better;
      }
      if usingModified {
        t :| t in mods;
        next := mi;
      } else {
        t, next := order[mi], mi + 1;
      }
    }

    /** Package selection over the whole mempool.  `order` is the mempool by ancestor score; which
        modified entry is best, and whether it beats the next one in `order`, is left open. */
    method AddPackageTxs(order: seq<Tx>)
      returns (packages: nat, updated: nat, outcome: Outcome, ghost clean: bool)
      requires PoolOk(pool) && Acyclic(pool) && Books() && WithinLimits() && AllAllowed({})
      requires Elements(order, pool.entries.Keys)
      modifies this
      ensures Books() && WithinLimits() && AllAllowed({}) && old(inBlock) <= inBlock
      ensures !clean ==> exists u :: u in pool.entries && pool.entries[u].hasMweb
      ensures outcome == Exhausted && clean ==> forall t :: t in pool.entries && t !in inBlock ==> LeftOut(t, inBlock)
      ensures outcome == NearlyFull ==> nBlockWeight > maxWeight - 4000
      ensures outcome == FeeTooLow ==> exists t :: t in pool.entries && Poor(t, clean)
    {
      hide PoolOk, Acyclic, Books, WithinLimits, Ledger, LeftOut, Poor, Explained, AllAllowed, Elements, Rest, Sound;
      KnownAncestors(pool);
      packages, updated, clean := 0, 0, true;
      var mods := Begin();
      var failed: Txs := {};
      var mi, failures := 0, 0;
      RestAll(order, pool.entries.Keys);
      while mi < |order| || mods != map[]
        invariant 0 <= mi <= |order| && old(inBlock) <= inBlock
        invariant Sound(mods, failed, clean, Rest(order, mi))
        decreases |pool.entries.Keys - inBlock|, |order| - mi + |mods|
      {
        ghost var before := inBlock;
        if mi < |order| && (order[mi] in mods || order[mi] in inBlock || order[mi] in failed) {
          SkipSound(order, mi, mods, failed, clean);
          mi := mi + 1;
          continue;
        }
        var t, usingModified, next := Pick(order, mi, mods);
        SoundMeans(mods, failed, clean, Rest(order, mi));
        CandidateKnown(order, mi, next, t, mods, failed, clean);
        var verdict, mods2, failed2, more, clean2 :=
          Consider(t, usingModified, mods, failed, clean, Rest(order, next));
        if verdict == LowFee {
          assert Poor(t, clean);
          return packages, updated, FeeTooLow, clean;
        }
        SoundMeans(mods2, failed2, clean2, Rest(order, next));
        Progress(before, inBlock, mods, mods2, t, pool.entries.Keys);
        mods, failed, clean, mi, updated := mods2, failed2, clean2, next, updated + more;
        if verdict == Taken {
          failures, packages := 0, packages + 1;
        } else if verdict == NoFit {
          failures := failures + 1;
          if failures > MAX_CONSECUTIVE_FAILURES && nBlockWeight > maxWeight - 4000 {
            SoundMeans(mods, failed, clean, Rest(order, mi));
            return packages, updated, NearlyFull, clean;
          }
        }
      }
      SoundMeans(mods, failed, clean, Rest(order, mi));
      RestNone(order);
      outcome := Exhausted;
    }

    lemma SkipSound(order: seq<Tx>, mi: nat, mods: Mods, failed: Txs, clean: bool)
      requires Acyclic(pool) && mi < |order| && Sound(mods, failed, clean, Rest(order, mi))
      requires order[mi] in mods || order[mi] in inBlock || order[mi] in failed
      ensures Sound(mods, failed, clean, Rest(order, mi + 1))
    {
      hide Acyclic, Books, WithinLimits, Ledger, Reason, AllAllowed;
      RestNext(order, mi);
    }

    lemma CandidateKnown(order: seq<Tx>, mi: nat, next: nat, t: Tx, mods: Mods, failed: Txs, clean: bool)
      requires mi <= next <= |order| && Acyclic(pool) && Elements(order, pool.entries.Keys)
      requires Sound(mods, failed, clean, Rest(order, mi))
      requires if next == mi then t in mods else next == mi + 1 && t == order[mi] && t !in mods && t !in inBlock
      ensures t in pool.entries && t !in inBlock && Sound(mods, failed, clean, Rest(order, next) + {t})
    {
      hide Acyclic, Books, WithinLimits, Reason, AllAllowed, Closed, Covers, IsExact;
      if next == mi {
      } else {
        RestNext(order, mi);
        assert t in order;
      }
    }

    lemma SoundMeans(mods: Mods, failed: Txs, clean: bool, todo: Txs)
      requires Acyclic(pool) && Sound(mods, failed, clean, todo)
      ensures Books() && WithinLimits() && AllAllowed({}) && inBlock <= pool.entries.Keys
      ensures !clean ==> exists u :: u in pool.entries && pool.entries[u].hasMweb
      ensures clean && mods == map[] && todo == {} ==>
        forall t :: t in pool.entries && t !in inBlock ==> LeftOut(t, inBlock)
    {
      hide Acyclic, Books, WithinLimits, Ledger, LeftOut, Reason;
      if clean && mods == map[] && todo == {} {
        forall t | t in pool.entries && t !in inBlock
          ensures LeftOut(t, inBlock)
        {
          ReasonMeans(t, inBlock, failed);
        }
      }
    }

    lemma LimitsMean()
      requires WithinLimits()
      ensures 4000 <= maxWeight <= MAX_BLOCK_WEIGHT - 4000
    {
    }
  }

  lemma ExtendBooks(p: Pool, inBlock: Txs, included: seq<Tx>, vtx: seq<Tx>, c: Counters, t: Tx)
    requires Acyclic(p) && Accounted(p, inBlock, included, vtx, c)
    requires t in p.entries && t !in inBlock && t in p.ancestors && p.ancestors[t] <= inBlock
    ensures var e := p.entries[t]; var vtx2 := if e.mwebOnly then vtx else vtx + [t];
      Accounted(p, inBlock + {t}, included + [t], vtx2,
                Counters(c.weight + e.weight, c.sigOps + e.sigOps, c.mweb + e.mweb,
                         if e.mwebOnly then c.txs else c.txs + 1, c.fees + e.fee))
  {
    hide Acyclic, Topological, Closed, Visible, Total, Elements;
    ExtendOrder(p, included, inBlock, t);
    ClosedIn(p, inBlock + {t});
    TotalRemove(p, inBlock + {t}, t);
    assert inBlock + {t} - {t} == inBlock;
  }

  lemma ClosedIn(p: Pool, inBlock: Txs)
    requires Acyclic(p) && Closed(p, inBlock)
    ensures inBlock <= p.entries.Keys
  {
  }

  lemma KnownAncestors(p: Pool)
    requires PoolOk(p)
    ensures p.ancestors.Keys == p.entries.Keys == p.cached.Keys
  {
  }

  lemma ExtendOrder(p: Pool, txs: seq<Tx>, inBlock: Txs, t: Tx)
    requires Acyclic(p) && Topological(p, txs) && Closed(p, inBlock) && t in p.entries && t !in inBlock
    requires Elements(txs, inBlock) && p.ancestors[t] <= inBlock
    ensures Topological(p, txs + [t]) && Elements(txs + [t], inBlock + {t})
    ensures Closed(p, inBlock + {t})
    ensures Visible(p, txs + [t]) == Visible(p, txs) + if p.entries[t].mwebOnly then [] else [t]
  {
    var more := txs + [t];
    assert more[..|txs|] == txs;
    forall i, a | 0 <= i < |more| && a in p.ancestors[more[i]]
      ensures a in more[..i]
    {
      if i < |txs| {
        assert more[..i] == txs[..i];
      }
    }
  }

  /** The two books have the same entry for `t`, or none. */
  ghost predicate Same(a: Mods, b: Mods, t: Tx) {
    (t in a <==> t in b) && (t in a ==> a[t] == b[t])
  }

  /** The books after `it` has been taken off every member of `done`. */
  ghost predicate TakenOff(p: Pool, mods: Mods, mods2: Mods, it: Tx, done: Txs)
    requires it in p.entries && done <= p.cached.Keys
  {
    forall t :: Same(mods2, if t in done then TakeOff(p, mods, it, t) else mods, t)
  }

  lemma TakenNone(p: Pool, mods: Mods, it: Tx, done: Txs)
    requires it in p.entries && done == {}
    ensures TakenOff(p, mods, mods, it, done)
  {
  }

  lemma TakenStep(p: Pool, mods: Mods, now: Mods, it: Tx, done: Txs, d: Tx)
    requires it in p.entries && done <= p.cached.Keys && d in p.cached && d !in done
    requires TakenOff(p, mods, now, it, done)
    ensures TakenOff(p, mods, TakeOff(p, now, it, d), it, done + {d})
    ensures TakeOff(p, now, it, d).Keys == now.Keys + {d}
  {
    assert Same(now, mods, d);
  }

  lemma TakenAt(p: Pool, mods: Mods, now: Mods, it: Tx, added: Txs, t: Tx)
    requires p.ancestors.Keys == p.entries.Keys == p.cached.Keys
    requires it in p.entries && it in added && TakenOff(p, mods, now, it, Descendants(p, it) - added)
    ensures t in added ==> Same(now, mods, t)
    ensures t in p.entries && t !in added ==>
      Same(now, if it in p.ancestors[t] then TakeOff(p, mods, it, t) else mods, t)
  {
    assert Same(now, if t in Descendants(p, it) - added then TakeOff(p, mods, it, t) else mods, t);
  }

  lemma PoolAcyclic(p: Pool)
    requires PoolOk(p)
    ensures Acyclic(p) && p.cached.Keys == p.entries.Keys
  {
  }

  lemma NothingDone(p: Pool, mods: Mods, done: Txs, t: Tx)
    requires Acyclic(p) && t in p.entries && done == {}
    ensures UpdatedAt(p, mods, mods, done, t)
  {
    assert p.ancestors[t] * done == {};
  }

  lemma OneMore(p: Pool, mods: Mods, now: Mods, next: Mods, done: Txs, it: Tx, t: Tx)
    requires PoolOk(p) && t in p.entries && t in p.ancestors && t in p.cached
    requires it in p.entries && it !in done && done <= p.entries.Keys
    requires UpdatedAt(p, mods, now, done, t)
    requires Same(next, if it in p.ancestors[t] then TakeOff(p, now, it, t) else now, t)
    ensures UpdatedAt(p, mods, next, done + {it}, t)
  {
    hide PoolOk, Acyclic, Total, Full, TakeOff;
    CachedFull(p, t);
    if it in p.ancestors[t] {
      TakeOffUpdates(p, mods, now, done, it, t);
    } else {
      assert p.ancestors[t] * (done + {it}) == p.ancestors[t] * done;
    }
  }

  /** Every transaction of the list comes after those of its ancestors that are not in the block. */
  ghost predicate Ready(p: Pool, inBlock: Txs, sorted: seq<Tx>)
    requires Acyclic(p)
  {
    && (forall i :: 0 <= i < |sorted| ==> sorted[i] in p.entries && sorted[i] !in inBlock && sorted[i] !in sorted[..i])
    && (forall i, a :: 0 <= i < |sorted| && a in p.ancestors[sorted[i]] ==> a in inBlock || a in sorted[..i])
  }

  /** No transaction twice; ordered by number of ancestors. */
  ghost predicate ByAncestors(p: Pool, sorted: seq<Tx>) {
    && (forall t :: t in sorted ==> t in p.ancestors)
    && (forall i, j :: 0 <= i < j < |sorted| ==>
          sorted[i] != sorted[j] && |p.ancestors[sorted[i]]| <= |p.ancestors[sorted[j]]|)
  }

  /** Ordering by number of ancestors puts ancestors first. */
  lemma AncestorsFirst(p: Pool, inBlock: Txs, t: Tx, sorted: seq<Tx>)
    requires Acyclic(p) && t in p.entries && Elements(sorted, Unselected(p, inBlock, t))
    requires ByAncestors(p, sorted)
    ensures Ready(p, inBlock, sorted)
  {
    forall i, a | 0 <= i < |sorted| && a in p.ancestors[sorted[i]]
      ensures a in inBlock || a in sorted[..i]
    {
      FewerAncestors(p, sorted[i], a);
      if a !in inBlock {
        assert sorted[i] in sorted;
        assert sorted[i] in Unselected(p, inBlock, t);
        assert a in Unselected(p, inBlock, t);
        var j :| 0 <= j < |sorted| && sorted[j] == a;
        assert j < i;
      }
    }
  }

  lemma FewerAncestors(p: Pool, t: Tx, a: Tx)
    requires Acyclic(p) && t in p.entries && a in p.ancestors[t]
    ensures |p.ancestors[a]| < |p.ancestors[t]|
  {
    assert p.ancestors[a] <= p.ancestors[t] - {a};
    Smaller(p.ancestors[a], p.ancestors[t] - {a});
  }

  lemma {:induction false} Smaller(a: Txs, b: Txs)
    requires a <= b
    ensures |a| <= |b|
    decreases |a|
  {
    if a != {} {
      var t :| t in a;
      Smaller(a - {t}, b - {t});
    }
  }

  /** What a failed package leaves behind. */
  ghost predicate Failure(p: Pool, was: Txs, now: Txs, t: Tx, mods: Mods, mods2: Mods, failed: Txs, failed2: Txs)
    requires t in p.ancestors
  {
    && was <= now <= was + Unselected(p, was, t)
    && failed2 == failed + (Unselected(p, was, t) - now) && mods2 == mods - Unselected(p, was, t)
  }

  function Prefix(sorted: seq<Tx>, i: nat): Txs
    requires i <= |sorted|
  {
    set t | t in sorted[..i]
  }

  lemma NoPrefix(sorted: seq<Tx>)
    ensures Prefix(sorted, 0) == {}
  {
  }

  lemma PrefixNext(sorted: seq<Tx>, i: nat)
    requires i < |sorted|
    ensures Prefix(sorted, i + 1) == Prefix(sorted, i) + {sorted[i]}
  {
    assert sorted[..i + 1] == sorted[..i] + [sorted[i]];
  }

  lemma PrefixWithin(sorted: seq<Tx>, i: nat, package: Txs)
    requires i <= |sorted| && Elements(sorted, package)
    ensures Prefix(sorted, i) <= package
  {
    forall t | t in Prefix(sorted, i)
      ensures t in package
    {
      assert t in sorted;
    }
  }

  lemma PrefixAll(sorted: seq<Tx>, package: Txs)
    requires Elements(sorted, package)
    ensures Prefix(sorted, |sorted|) == package
  {
    assert sorted[..|sorted|] == sorted;
  }

  lemma ReadyNext(p: Pool, inBlock: Txs, sorted: seq<Tx>, i: nat)
    requires Acyclic(p) && Ready(p, inBlock, sorted) && i < |sorted|
    ensures sorted[i] in p.entries && sorted[i] in p.ancestors && sorted[i] !in inBlock + Prefix(sorted, i)
    ensures p.ancestors[sorted[i]] <= inBlock + Prefix(sorted, i)
  {
  }

  lemma LedgerKeys(p: Pool, inBlock: Txs, mods: Mods, failed: Txs, clean: bool)
    requires Acyclic(p) && Ledger(p, inBlock, mods, failed, clean)
    ensures mods.Keys <= p.entries.Keys && inBlock <= p.entries.Keys && Closed(p, inBlock) && mods.Keys !! inBlock
  {
  }

  lemma PackageKnown(p: Pool, inBlock: Txs, t: Tx)
    requires Acyclic(p) && t in p.entries && t in p.ancestors
    ensures Unselected(p, inBlock, t) <= p.entries.Keys && Unselected(p, inBlock, t) !! inBlock
  {
  }

  lemma StillListed(p: Pool, mods: Mods, mods2: Mods, added: Txs)
    requires Acyclic(p) && added <= p.entries.Keys && mods.Keys <= p.entries.Keys
    requires forall t :: t in p.entries && t !in added ==> UpdatedAt(p, mods, mods2, added, t)
    ensures forall t :: t in mods && t !in added ==> t in mods2
  {
    hide Acyclic, Lowered;
    forall t | t in mods && t !in added
      ensures t in mods2
    {
      assert UpdatedAt(p, mods, mods2, added, t);
    }
  }

  function Rest(order: seq<Tx>, i: nat): Txs
    requires i <= |order|
  {
    set t | t in order[i..]
  }

  lemma RestNext(order: seq<Tx>, i: nat)
    requires i < |order|
    ensures Rest(order, i) == Rest(order, i + 1) + {order[i]}
  {
    assert order[i..] == [order[i]] + order[i + 1..];
  }

  lemma RestAll(order: seq<Tx>, all: Txs)
    requires Elements(order, all)
    ensures Rest(order, 0) == all
  {
    assert order[0..] == order;
  }

  lemma RestNone(order: seq<Tx>)
    ensures Rest(order, |order|) == {}
  {
  }

  /** What makes the selection loop end. */
  lemma Progress(before: Txs, now: Txs, mods: Mods, mods2: Mods, t: Tx, all: Txs)
    requires before <= now <= all
    requires before < now || (before == now && mods2.Keys <= mods.Keys && t !in mods2)
    ensures |all - now| <= |all - before|
    ensures |all - now| < |all - before| || (|mods2| <= |mods| && (t in mods ==> |mods2| < |mods|))
  {
    Smaller(all - now, all - before);
    if before < now {
      var x :| x in now && x !in before;
      Smaller(all - now, all - before - {x});
    } else {
      Smaller(mods2.Keys, mods.Keys - {t});
      Smaller(mods2.Keys, mods.Keys);
    }
  }
}
