/** PartiallyDownloadedBlock: slots that are filled from a message, the mempool and extra transactions,
    and finally with what had to be asked for. */
module CompactBlock {
  import opened Common
  import opened CompactBlockSpec

  /** CRASH stands for a null pointer that is followed. */
  datatype Status = OK | INVALID | FAILED | CHECKBLOCK_FAILED | CRASH

  /** The map from short ids to slots; the last of equal ids wins. */
  ghost predicate Maps(m: map<ShortId, nat>, ids: seq<ShortId>, slots: seq<nat>) {
    && |ids| == |slots| && |m| <= |ids| && (forall id :: id in m <==> id in ids)
    && (|m| == |ids| <==> Unique(ids))
    && (Unique(ids) ==> forall i :: 0 <= i < |ids| ==> ids[i] in m && m[ids[i]] == slots[i])
  }

  lemma {:induction false} MapsNext(m: map<ShortId, nat>, ids: seq<ShortId>, slots: seq<nat>, id: ShortId, p: nat)
    requires Maps(m, ids, slots)
    ensures Maps(m[id := p], ids + [id], slots + [p])
  {
    if id in ids {
      MapsAgain(m, ids, slots, id, p);
    } else {
      MapsNew(m, ids, slots, id, p);
    }
  }

  lemma {:induction false} MapsAgain(m: map<ShortId, nat>, ids: seq<ShortId>, slots: seq<nat>, id: ShortId, p: nat)
    requires Maps(m, ids, slots) && id in ids
    ensures Maps(m[id := p], ids + [id], slots + [p])
  {
    var m2, ids2 := m[id := p], ids + [id];
    var k :| 0 <= k < |ids| && ids[k] == id;
    assert ids2[k] == ids2[|ids|];
    assert !Unique(ids2);
    assert m2.Keys == m.Keys;
    assert |m2| == |m2.Keys| == |m.Keys| == |m|;
    assert forall x :: x in ids2 <==> x in ids;
  }

  lemma {:induction false} MapsNew(m: map<ShortId, nat>, ids: seq<ShortId>, slots: seq<nat>, id: ShortId, p: nat)
    requires Maps(m, ids, slots) && id !in ids
    ensures Maps(m[id := p], ids + [id], slots + [p])
  {
    hide Maps, Unique;
    var m2, ids2 := m[id := p], ids + [id];
    UniqueNext(ids, id);
    MapsMeans(m, ids, slots);
    NewKeys(m, ids, id, p);
    if Unique(ids) {
      NewValues(m, ids, slots, id, p);
    }
    MapsMade(m2, ids2, slots + [p]);
  }

  lemma {:induction false} NewKeys(m: map<ShortId, nat>, ids: seq<ShortId>, id: ShortId, p: nat)
    requires (forall x :: x in m <==> x in ids) && id !in ids
    ensures |m[id := p]| == |m| + 1 && forall x :: x in m[id := p] <==> x in ids + [id]
  {
    assert m[id := p].Keys == m.Keys + {id};
    assert |m[id := p]| == |m[id := p].Keys|;
  }

  lemma {:induction false} NewValues(m: map<ShortId, nat>, ids: seq<ShortId>, slots: seq<nat>, id: ShortId, p: nat)
    requires |ids| == |slots| && id !in ids && forall i :: 0 <= i < |ids| ==> ids[i] in m && m[ids[i]] == slots[i]
    ensures var m2, ids2, slots2 := m[id := p], ids + [id], slots + [p];
      forall i :: 0 <= i < |ids2| ==> ids2[i] in m2 && m2[ids2[i]] == slots2[i]
  {
    var m2, ids2, slots2 := m[id := p], ids + [id], slots + [p];
    forall i | 0 <= i < |ids2|
      ensures ids2[i] in m2 && m2[ids2[i]] == slots2[i]
    {
      if i < |ids| {
        assert ids[i] in ids;
      }
    }
  }

  lemma UniqueNext(ids: seq<ShortId>, id: ShortId)
    requires id !in ids
    ensures Unique(ids + [id]) <==> Unique(ids)
  {
    var ids2 := ids + [id];
    if Unique(ids2) {
      assert forall i :: 0 <= i < |ids| ==> ids2[i] == ids[i];
    }
  }

  lemma MapsMeans(m: map<ShortId, nat>, ids: seq<ShortId>, slots: seq<nat>)
    requires Maps(m, ids, slots)
    ensures |ids| == |slots| && |m| <= |ids| && (forall id :: id in m <==> id in ids) && (|m| == |ids| <==> Unique(ids))
    ensures Unique(ids) ==> forall i :: 0 <= i < |ids| ==> ids[i] in m && m[ids[i]] == slots[i]
  {
  }

  lemma MapsMade(m: map<ShortId, nat>, ids: seq<ShortId>, slots: seq<nat>)
    requires |ids| == |slots| && |m| <= |ids| && (forall id :: id in m <==> id in ids) &&
      (|m| == |ids| <==> Unique(ids))
    requires Unique(ids) ==> forall i :: 0 <= i < |ids| ==> ids[i] in m && m[ids[i]] == slots[i]
    ensures Maps(m, ids, slots)
  {
  }

  class PartiallyDownloadedBlock {
    var headerNull: bool
    var txnAvailable: seq<Slot>
    var mempoolCount: int

    constructor ()
      ensures headerNull && txnAvailable == [] && mempoolCount == 0
    {
      headerNull, txnAvailable, mempoolCount := true, [], 0;
    }

    method Prefill(msg: Message) returns (ok: bool)
      modifies this`txnAvailable
      ensures ok <==> GoodPrefilled(msg.prefilled, |msg.shortIds|)
      ensures |txnAvailable| == |msg.shortIds| + |msg.prefilled|
      ensures ok ==> Placed(txnAvailable, msg.prefilled, |msg.prefilled|)
      ensures ok ==> Empties(txnAvailable, |txnAvailable|) == |msg.shortIds|
    {
      hide Position, Placed, Empties;
      var pre, n := msg.prefilled, |msg.shortIds| + |msg.prefilled|;
      txnAvailable := seq(n, _ => Empty);
      NothingPlaced(txnAvailable, pre);
      AllEmpty(txnAvailable, n);
      var last, i := -1, 0;
      while i < |pre|
        invariant 0 <= i <= |pre| && |txnAvailable| == n && Placed(txnAvailable, pre, i)
        invariant Empties(txnAvailable, n) == n - i
        invariant last == if i == 0 then -1 else Position(pre, i - 1)
        invariant forall j :: 0 <= j < i ==> GoodEntry(pre, |msg.shortIds|, j)
      {
        PositionNext(pre, i);
        if pre[i].tx.isNull {
          assert !GoodEntry(pre, |msg.shortIds|, i);
          return false;
        }
        last := last + pre[i].index + 1;
        if last > 65535 || last > |msg.shortIds| + i {
          assert !GoodEntry(pre, |msg.shortIds|, i);
          return false;
        }
        PlaceOne(txnAvailable, pre, i);
        ghost var before := txnAvailable;
        txnAvailable := txnAvailable[last := Full(pre[i].tx)];
        EmptiesChange(before, txnAvailable, last, n);
        i := i + 1;
      }
      ok := true;
    }

    /** Gives each short id the next empty slot.  There are as many of them as short ids, so the search
        never leaves the slots. */
    method MapShortIds(ids: seq<ShortId>) returns (m: map<ShortId, nat>, ghost slots: seq<nat>)
      requires Empties(txnAvailable, |txnAvailable|) == |ids|
      ensures Lists(txnAvailable, slots, |txnAvailable|) && Maps(m, ids, slots)
    {
      hide Empties, Lists, Maps;
      var avail := txnAvailable;
      m, slots := map[], [];
      ListsNone(avail);
      MapsNone();
      var offset, i := 0, 0;
      assert ids[..0] == [];
      while i < |ids|
        invariant 0 <= i <= |ids| && i + offset <= |avail| && |slots| == i
        invariant Lists(avail, slots, i + offset) && Maps(m, ids[..i], slots)
      {
        RoomLeft(avail, slots, i + offset);
        while avail[i + offset] != Empty
          invariant i + offset < |avail| && Lists(avail, slots, i + offset) && |slots| == i
          decreases |avail| - offset
        {
          ListsSkip(avail, slots, i + offset);
          offset := offset + 1;
          RoomLeft(avail, slots, i + offset);
        }
        ListsTake(avail, slots, i + offset);
        MapsNext(m, ids[..i], slots, ids[i], i + offset);
        assert ids[..i + 1] == ids[..i] + [ids[i]];
        m := m[ids[i] := i + offset];
        slots := slots + [i + offset];
        i := i + 1;
      }
      assert ids[..|ids|] == ids;
      ListsAll(avail, slots, i + offset);
    }

    /** The counter is the number of short-id slots that are filled. */
    ghost predicate Counted(ids: seq<ShortId>)
      reads this
    {
      mempoolCount == |ids| - Empties(txnAvailable, |txnAvailable|)
    }

    /** The counter and the slots filled, in terms of the cells. */
    ghost predicate Counts(ids: seq<ShortId>, cells: seq<Cell>)
      reads this
    {
      && |cells| == |ids| && mempoolCount == Credits(cells, |cells|)
      && |ids| - Empties(txnAvailable, |txnAvailable|) == Fulls(cells, |cells|)
    }

    /** The first match of a short id is counted, whether or not it is a transaction. */
    method TakeSlot(p: nat, slot: Slot, ghost ids: seq<ShortId>, ghost cells: seq<Cell>, ghost k: nat)
      requires p < |txnAvailable| && txnAvailable[p] == Empty && Counts(ids, cells)
      requires k < |cells| && cells[k].slot == Empty && !cells[k].blank
      modifies this`txnAvailable, this`mempoolCount
      ensures txnAvailable == old(txnAvailable)[p := slot]
      ensures Counts(ids, cells[k := Cell(true, slot, slot == Empty)])
    {
      hide Empties, Credits, Fulls;
      EmptiesChange(txnAvailable, txnAvailable[p := slot], p, |txnAvailable|);
      CountsChange(cells, cells[k := Cell(true, slot, slot == Empty)], k, |cells|);
      txnAvailable := txnAvailable[p := slot];
      mempoolCount := mempoolCount + 1;
    }

    /** A second match: a filled slot is emptied again. */
    method ResetSlot(p: nat, ghost ids: seq<ShortId>, ghost cells: seq<Cell>, ghost k: nat)
      requires p < |txnAvailable| && Counts(ids, cells)
      requires k < |cells| && cells[k].slot == txnAvailable[p] && !cells[k].blank
      modifies this`txnAvailable, this`mempoolCount
      ensures txnAvailable == old(txnAvailable)[p := Empty] && Counts(ids, cells[k := Cell(true, Empty, false)])
    {
      hide Empties, Credits, Fulls;
      EmptiesChange(txnAvailable, txnAvailable[p := Empty], p, |txnAvailable|);
      CountsChange(cells, cells[k := Cell(true, Empty, false)], k, |cells|);
      if txnAvailable[p] != Empty {
        AllCounted(cells, |cells|);
        txnAvailable := txnAvailable[p := Empty];
        mempoolCount := mempoolCount - 1;
      }
    }

    /** Looks through the mempool; stops early once every short id has a transaction. */
    method ScanPool(m: map<ShortId, nat>, sh: Shorten, pool: seq<Tx>, have0: seq<bool>,
                    ghost ids: seq<ShortId>, ghost slots: seq<nat>, ghost base: seq<Slot>)
      returns (have: seq<bool>, ghost kp: nat)
      requires Maps(m, ids, slots) && Unique(ids) && Counts(ids, PoolCells(sh, ids, []))
      requires Lists(base, slots, |base|) && Tracks(base, txnAvailable, have0, slots, PoolCells(sh, ids, []))
      modifies this`txnAvailable, this`mempoolCount
      ensures kp <= |pool| && Counts(ids, PoolCells(sh, ids, pool[..kp]))
      ensures Tracks(base, txnAvailable, have, slots, PoolCells(sh, ids, pool[..kp]))
      ensures (kp < |pool| ==> mempoolCount == |ids|) && (pool != [] ==> kp > 0)
    {
      hide Empties, Lists, AfterPool, PoolCells, Credits, Fulls;
      have := have0;
      var i := 0;
      assert pool[..0] == [];
      while i < |pool|
        invariant 0 <= i <= |pool| && Counts(ids, PoolCells(sh, ids, pool[..i]))
        invariant Tracks(base, txnAvailable, have, slots, PoolCells(sh, ids, pool[..i]))
      {
        have := SeeOne(m, sh, pool, i, have, ids, slots, base);
        i := i + 1;
        if mempoolCount == |m| {
          break;
        }
      }
      kp := i;
    }

    method SeeOne(m: map<ShortId, nat>, sh: Shorten, pool: seq<Tx>, i: nat, have0: seq<bool>,
                  ghost ids: seq<ShortId>, ghost slots: seq<nat>, ghost base: seq<Slot>)
      returns (have: seq<bool>)
      requires i < |pool| && Maps(m, ids, slots) && Unique(ids) && Lists(base, slots, |base|)
      requires Counts(ids, PoolCells(sh, ids, pool[..i]))
      requires Tracks(base, txnAvailable, have0, slots, PoolCells(sh, ids, pool[..i]))
      modifies this`txnAvailable, this`mempoolCount
      ensures Counts(ids, PoolCells(sh, ids, pool[..i + 1]))
      ensures Tracks(base, txnAvailable, have, slots, PoolCells(sh, ids, pool[..i + 1]))
    {
      hide Empties, AfterPool, InPool, Credits, Fulls;
      have := have0;
      var id := sh(pool[i].hash);
      ghost var k := Find(ids, id);
      PoolCellsNext(sh, ids, pool, i, k);
      if id in m {
        ghost var cells := PoolCells(sh, ids, pool[..i]);
        PoolSeen(sh, id, pool[..i]);
        TracksSet(base, txnAvailable, have, slots, cells, k, SeePool(sh, id, cells[k], pool[i]));
        hide PoolCells;
        if !have[m[id]] {
          TakeSlot(m[id], Full(pool[i]), ids, cells, k);
          have := have[m[id] := true];
        } else {
          ResetSlot(m[id], ids, cells, k);
          assert have[m[id] := true] == have;
        }
      }
    }

    /** Looks through the extra transactions in the same way; comparing a transaction with a blank entry
        ends it. */
    method ScanExtra(m: map<ShortId, nat>, sh: Shorten, extra: seq<Extra>, have0: seq<bool>,
                     ghost ids: seq<ShortId>, ghost slots: seq<nat>, ghost base: seq<Slot>, ghost cells: seq<Cell>)
      returns (crashed: bool, ghost ke: nat)
      requires Maps(m, ids, slots) && Unique(ids) && Counts(ids, cells) && Plain(cells)
      requires Lists(base, slots, |base|) && Tracks(base, txnAvailable, have0, slots, cells)
      modifies this`txnAvailable, this`mempoolCount
      ensures ke <= |extra| && forall i :: 0 <= i < ke ==> !MeetsAny(sh, ids, cells, extra, i)
      ensures crashed ==> ke < |extra| && MeetsAny(sh, ids, cells, extra, ke)
      ensures !crashed ==> Counts(ids, ExtraCells(sh, ids, cells, extra[..ke]))
      ensures !crashed ==>
        exists have :: Tracks(base, txnAvailable, have, slots, ExtraCells(sh, ids, cells, extra[..ke]))
      ensures !crashed ==> (ke < |extra| ==> mempoolCount == |ids|) && (extra != [] ==> ke > 0)
    {
      hide Empties, Lists, AfterExtra, ExtraCells, Credits, Fulls, MeetsAny;
      var have := have0;
      var i := 0;
      assert extra[..0] == [];
      NoExtra(sh, ids, cells);
      while i < |extra|
        invariant 0 <= i <= |extra| && forall j :: 0 <= j < i ==> !MeetsAny(sh, ids, cells, extra, j)
        invariant Counts(ids, ExtraCells(sh, ids, cells, extra[..i]))
        invariant Tracks(base, txnAvailable, have, slots, ExtraCells(sh, ids, cells, extra[..i]))
      {
        crashed, have := SeeOneExtra(m, sh, extra, i, have, ids, slots, base, cells);
        if crashed {
          return true, i;
        }
        i := i + 1;
        if mempoolCount == |m| {
          break;
        }
      }
      return false, i;
    }

    method SeeOneExtra(m: map<ShortId, nat>, sh: Shorten, extra: seq<Extra>, i: nat, have0: seq<bool>,
                       ghost ids: seq<ShortId>, ghost slots: seq<nat>, ghost base: seq<Slot>, ghost cells: seq<Cell>)
      returns (crashed: bool, have: seq<bool>)
      requires i < |extra| && Maps(m, ids, slots) && Unique(ids) && Lists(base, slots, |base|)
      requires |cells| == |ids| && Plain(cells) && Counts(ids, ExtraCells(sh, ids, cells, extra[..i]))
      requires Tracks(base, txnAvailable, have0, slots, ExtraCells(sh, ids, cells, extra[..i]))
      modifies this`txnAvailable, this`mempoolCount
      ensures crashed <==> MeetsAny(sh, ids, cells, extra, i)
      ensures !crashed ==> Counts(ids, ExtraCells(sh, ids, cells, extra[..i + 1]))
      ensures !crashed ==> Tracks(base, txnAvailable, have, slots, ExtraCells(sh, ids, cells, extra[..i + 1]))
    {
      hide Empties, ExtraCells, Credits, Fulls, MeetsAny, Counts, Plain;
      crashed, have := false, have0;
      var id := sh(HashOf(extra[i]));
      ghost var k := Find(ids, id);
      ExtraCellsNext(sh, ids, cells, extra, i, k);
      MeetsOne(sh, ids, cells, extra, i, k);
      if id in m {
        ghost var now := ExtraCells(sh, ids, cells, extra[..i]);
        CellNow(sh, ids, cells, extra[..i], k);
        TracksSet(base, txnAvailable, have, slots, now, k, SeeExtra(sh, id, now[k], extra[i]));
        var slot := txnAvailable[m[id]];
        if !have[m[id]] {
          TakeSlot(m[id], if extra[i].Held? then Full(extra[i].tx) else Empty, ids, now, k);
          have := have[m[id] := true];
        } else if slot.Full? && extra[i].Blank? {
          crashed := true;
        } else if slot.Full? && slot.tx.hash != extra[i].tx.hash {
          ResetSlot(m[id], ids, now, k);
          assert have[m[id] := true] == have;
        } else {
          assert txnAvailable[m[id] := slot] == txnAvailable && have[m[id] := true] == have;
          assert now[k := now[k]] == now;
        }
      }
    }

    /** What a message, the mempool and the extra transactions yield.  `crowded` says whether a bucket of
        the hash table of short ids gets more than twelve of them. */
    method InitData(msg: Message, nullHeader: bool, crowded: bool, sh: Shorten, pool: seq<Tx>, extra: seq<Extra>)
      returns (status: Status, ghost slots: seq<nat>, ghost kp: nat, ghost ke: nat)
      requires headerNull && txnAvailable == [] && mempoolCount == 0
      requires |msg.shortIds| + |msg.prefilled| <= 65535
      modifies this
      ensures status == INVALID <==>
        (nullHeader || (msg.shortIds == [] && msg.prefilled == []) || !GoodPrefilled(msg.prefilled, |msg.shortIds|))
      ensures status == FAILED <==> status != INVALID && (crowded || !Unique(msg.shortIds))
      ensures status != CHECKBLOCK_FAILED && (status == OK ==> !headerNull)
      ensures kp <= |pool| && ke <= |extra|
      ensures forall i :: 0 <= i < ke ==> !MeetsAny(sh, msg.shortIds, PoolCells(sh, msg.shortIds, pool[..kp]), extra, i)
      ensures status == CRASH ==>
        ke < |extra| && MeetsAny(sh, msg.shortIds, PoolCells(sh, msg.shortIds, pool[..kp]), extra, ke)
      ensures status == OK ==> Yields(msg, sh, pool[..kp], extra[..ke], slots, txnAvailable)
      ensures status == OK ==> Counts(msg.shortIds, Finals(sh, msg.shortIds, pool[..kp], extra[..ke]))
      ensures status == OK ==> (Counted(msg.shortIds) <==>
        forall i :: 0 <= i < |msg.shortIds| ==> !BlankOnly(sh, msg.shortIds[i], pool[..kp], extra[..ke]))
      ensures NoBlanks(sh, msg.shortIds, extra) ==> status != CRASH && (status == OK ==> Counted(msg.shortIds))
      ensures status == OK ==> (pool != [] ==> kp > 0) && (extra != [] ==> ke > 0)
      ensures status == OK && kp < |pool| ==> AllFull(PoolCells(sh, msg.shortIds, pool[..kp]))
      ensures status == OK && ke < |extra| ==> AllSeen(Finals(sh, msg.shortIds, pool[..kp], extra[..ke]))
    {
      hide Placed, Lists, Maps, Tracks, Empties, PoolCells, ExtraCells, GoodPrefilled, Credits, Fulls;
      hide MeetsAny, BlankOnly, NoBlanks, AllFull, AllSeen, Yields;
      slots, kp, ke := [], 0, 0;
      if nullHeader || (msg.shortIds == [] && msg.prefilled == []) {
        return INVALID, slots, kp, ke;
      }
      headerNull := false;
      var ok := Prefill(msg);
      if !ok {
        return INVALID, slots, kp, ke;
      }
      ghost var base := txnAvailable;
      var m;
      m, slots := MapShortIds(msg.shortIds);
      MapsMeans(m, msg.shortIds, slots);
      if crowded || |m| != |msg.shortIds| {
        return FAILED, slots, kp, ke;
      }
      TracksStart(base, slots, sh, msg.shortIds);
      UnseenCells(sh, msg.shortIds);
      var have := seq(|txnAvailable|, _ => false);
      have, kp := ScanPool(m, sh, pool, have, msg.shortIds, slots, base);
      ghost var cells := PoolCells(sh, msg.shortIds, pool[..kp]);
      PlainPool(sh, msg.shortIds, pool[..kp]);
      if kp < |pool| {
        FullCells(cells);
      }
      var crashed;
      crashed, ke := ScanExtra(m, sh, extra, have, msg.shortIds, slots, base, cells);
      NoneMet(sh, msg.shortIds, pool[..kp], extra, ke);
      if crashed {
        return CRASH, slots, kp, ke;
      }
      YieldsMade(msg, sh, pool[..kp], extra[..ke], slots, base, txnAvailable);
      CountedIs(sh, msg.shortIds, pool[..kp], extra[..ke]);
      if ke < |extra| {
        SeenCells(Finals(sh, msg.shortIds, pool[..kp], extra[..ke]));
      }
      status := OK;
    }

    /** Fills the empty slots with the transactions received; the slots are moved out as it goes.
        `checked` is what the check of the whole block says. */
    method FillBlock(missing: seq<Tx>, checked: Status) returns (status: Status, vtx: seq<Tx>)
      requires !headerNull && checked != INVALID
      modifies this
      ensures var n := old(Empties(txnAvailable, |txnAvailable|));
        && (|missing| < n ==> status == INVALID && !headerNull)
        && (|missing| >= n ==> headerNull && txnAvailable == [])
        && (|missing| > n ==> status == INVALID)
        && (|missing| == n ==> status == checked && vtx == Fill(old(txnAvailable), missing))
    {
      hide Empties, Fill;
      ghost var avail, n := txnAvailable, |txnAvailable|;
      vtx := [];
      var offset, i := 0, 0;
      FillNone(avail, missing);
      while i < |txnAvailable|
        invariant 0 <= i <= n == |txnAvailable| && !headerNull
        invariant forall p :: i <= p < n ==> txnAvailable[p] == avail[p]
        invariant offset == Empties(avail[..i], i) == Empties(avail, i) <= |missing|
        invariant vtx == Fill(avail[..i], missing[..offset])
      {
        FillNext(avail, missing, i, offset);
        if txnAvailable[i] == Empty {
          if |missing| <= offset {
            EmptiesMono(avail, i + 1, n);
            return INVALID, vtx;
          }
          vtx := vtx + [missing[offset]];
          offset := offset + 1;
        } else {
          vtx := vtx + [txnAvailable[i].tx];
          txnAvailable := txnAvailable[i := Empty];
        }
        i := i + 1;
      }
      headerNull, txnAvailable := true, [];
      assert avail[..n] == avail;
      if |missing| != offset {
        return INVALID, vtx;
      }
      assert missing[..offset] == missing;
      status := checked;
    }
  }

  lemma NothingPlaced(avail: seq<Slot>, pre: seq<Prefilled>)
    requires forall p :: 0 <= p < |avail| ==> avail[p] == Empty
    ensures Placed(avail, pre, 0)
  {
  }

  lemma {:induction false} PositionNext(pre: seq<Prefilled>, i: nat)
    requires i < |pre|
    ensures Position(pre, i) == if i == 0 then pre[0].index else Position(pre, i - 1) + pre[i].index + 1
  {
  }

  lemma ListsNone(avail: seq<Slot>)
    ensures Lists(avail, [], 0)
  {
  }

  lemma MapsNone()
    ensures Maps(map[], [], [])
  {
  }

  /** As long as not all empty slots are listed, one lies ahead. */
  lemma {:induction false} RoomLeft(avail: seq<Slot>, slots: seq<nat>, upto: nat)
    requires upto <= |avail| && Lists(avail, slots, upto) && |slots| < Empties(avail, |avail|)
    ensures upto < |avail|
  {
    hide Empties;
  }

  /** When all empty slots are listed, there are none behind. */
  lemma {:induction false} ListsAll(avail: seq<Slot>, slots: seq<nat>, upto: nat)
    requires upto <= |avail| && Lists(avail, slots, upto) && |slots| == Empties(avail, |avail|)
    ensures Lists(avail, slots, |avail|)
    decreases |avail| - upto
  {
    if upto < |avail| {
      EmptiesMono(avail, upto + 1, |avail|);
      ListsSkip(avail, slots, upto);
      ListsAll(avail, slots, upto + 1);
    }
  }

  ghost function Find(ids: seq<ShortId>, id: ShortId): (k: nat)
    ensures k <= |ids| && (k < |ids| ==> ids[k] == id) && (k == |ids| ==> id !in ids)
  {
    if id in ids then
      var k :| 0 <= k < |ids| && ids[k] == id;
      k
    else |ids|
  }

  ghost predicate AllFull(cells: seq<Cell>) {
    forall i :: 0 <= i < |cells| ==> cells[i].slot.Full?
  }

  /** Every cell is filled, or counted for a blank entry. */
  ghost predicate AllSeen(cells: seq<Cell>) {
    forall i :: 0 <= i < |cells| ==> cells[i].slot.Full? || cells[i].blank
  }

  /** Cells as the mempool leaves them. */
  ghost predicate Plain(cells: seq<Cell>) {
    forall i :: 0 <= i < |cells| ==> !cells[i].blank && (cells[i].slot.Full? ==> cells[i].have)
  }

  /** When entry `i` comes up, it is blank and has the short id of a full slot. */
  ghost predicate MeetsAny(sh: Shorten, ids: seq<ShortId>, cells: seq<Cell>, extra: seq<Extra>, i: nat)
    requires |cells| == |ids| && i < |extra|
  {
    exists k :: 0 <= k < |ids| && Meets(sh, ids[k], ExtraCells(sh, ids, cells, extra[..i])[k], extra[i])
  }

  lemma MeetsOne(sh: Shorten, ids: seq<ShortId>, cells: seq<Cell>, extra: seq<Extra>, i: nat, k: nat)
    requires |cells| == |ids| && i < |extra| && Unique(ids) && k <= |ids|
    requires if k < |ids| then ids[k] == sh(HashOf(extra[i])) else sh(HashOf(extra[i])) !in ids
    ensures MeetsAny(sh, ids, cells, extra, i) <==>
      k < |ids| && Meets(sh, ids[k], ExtraCells(sh, ids, cells, extra[..i])[k], extra[i])
  {
    hide ExtraCells;
    forall j | 0 <= j < |ids| && k < |ids| && j != k
      ensures ids[j] != ids[k]
    {
      if j < k {
        assert ids[j] != ids[k];
      } else {
        assert ids[k] != ids[j];
      }
    }
  }

  lemma CellNow(sh: Shorten, ids: seq<ShortId>, cells: seq<Cell>, extra: seq<Extra>, k: nat)
    requires |cells| == |ids| && k < |ids| && Plain(cells)
    ensures var c := ExtraCells(sh, ids, cells, extra)[k];
      (c.blank ==> c.slot == Empty && c.have) && (c.slot.Full? ==> c.have)
  {
    hide AfterExtra, FirstMatch;
    ExtraSeen(sh, ids[k], cells[k], extra);
  }

  function Finals(sh: Shorten, ids: seq<ShortId>, pool: seq<Tx>, extra: seq<Extra>): (r: seq<Cell>)
    ensures |r| == |ids| && forall i :: 0 <= i < |ids| ==> r[i] == Final(sh, ids[i], pool, extra)
  {
    ExtraCells(sh, ids, PoolCells(sh, ids, pool), extra)
  }

  lemma UnseenCells(sh: Shorten, ids: seq<ShortId>)
    ensures var cells := PoolCells(sh, ids, []); Credits(cells, |cells|) == Fulls(cells, |cells|) == 0
  {
    NoneCounted(PoolCells(sh, ids, []), |ids|);
  }

  lemma PlainPool(sh: Shorten, ids: seq<ShortId>, pool: seq<Tx>)
    ensures Plain(PoolCells(sh, ids, pool))
  {
    hide AfterPool, InPool;
    forall i | 0 <= i < |ids|
      ensures var c := PoolCells(sh, ids, pool)[i]; !c.blank && (c.slot.Full? ==> c.have)
    {
      PoolSeen(sh, ids[i], pool);
    }
  }

  /** Without a blank entry that has one of the short ids nothing is counted or met wrongly. */
  lemma NoneMet(sh: Shorten, ids: seq<ShortId>, pool: seq<Tx>, extra: seq<Extra>, n: nat)
    requires n <= |extra|
    ensures NoBlanks(sh, ids, extra) ==>
      && (forall i :: 0 <= i < |extra| ==> !MeetsAny(sh, ids, PoolCells(sh, ids, pool), extra, i))
      && (forall i :: 0 <= i < |ids| ==> !BlankOnly(sh, ids[i], pool, extra[..n]))
  {
    hide ExtraCells, PoolCells, InPool, FirstMatch;
    if NoBlanks(sh, ids, extra) {
      forall i | 0 <= i < |ids|
        ensures !BlankOnly(sh, ids[i], pool, extra[..n])
      {
        var k := FirstMatch(sh, ids[i], extra[..n]);
        assert k < n ==> extra[..n][k] == extra[k];
      }
    }
  }

  /** The counter is right if and only if no slot is counted for a blank entry. */
  lemma CountedIs(sh: Shorten, ids: seq<ShortId>, pool: seq<Tx>, extra: seq<Extra>)
    ensures var cells := Finals(sh, ids, pool, extra);
      Credits(cells, |cells|) == Fulls(cells, |cells|) <==>
      forall i :: 0 <= i < |ids| ==> !BlankOnly(sh, ids[i], pool, extra)
  {
    hide Finals, AfterPool, AfterExtra, Credits, Fulls, InPool, FirstBlank;
    var cells := Finals(sh, ids, pool, extra);
    forall i | 0 <= i < |ids|
      ensures cells[i].blank <==> BlankOnly(sh, ids[i], pool, extra)
      ensures cells[i].blank ==> cells[i].slot == Empty
    {
      FinalSeen(sh, ids[i], pool, extra);
    }
    CountsAgree(cells, |cells|);
  }

  lemma FinalSeen(sh: Shorten, id: ShortId, pool: seq<Tx>, extra: seq<Extra>)
    ensures var d := Final(sh, id, pool, extra);
      && (d.blank ==> d.slot == Empty) && (d.blank <==> BlankOnly(sh, id, pool, extra))
      && (d.have <==> InPool(sh, id, pool) || FirstMatch(sh, id, extra) < |extra|)
      && (d.slot.Full? ==> d.have)
  {
    hide AfterPool, AfterExtra, InPool, FirstBlank;
    PoolSeen(sh, id, pool);
    ExtraSeen(sh, id, AfterPool(sh, id, pool), extra);
  }

  lemma SeenCells(cells: seq<Cell>)
    requires Credits(cells, |cells|) == |cells|
    ensures AllSeen(cells)
  {
    AllCounted(cells, |cells|);
  }

  /** Prefilled transactions in their places; each short id in the next empty place, which holds what
      the transactions looked at leave there. */
  ghost predicate Yields(msg: Message, sh: Shorten, pool: seq<Tx>, extra: seq<Extra>, slots: seq<nat>,
                         avail: seq<Slot>) {
    && |slots| == |msg.shortIds| && |avail| == |msg.shortIds| + |msg.prefilled|
    && (exists base ::
          |base| == |avail| && Placed(base, msg.prefilled, |msg.prefilled|) && Lists(base, slots, |base|) &&
          forall p :: 0 <= p < |avail| && p !in slots ==> avail[p] == base[p])
    && (forall i :: 0 <= i < |slots| ==>
          slots[i] < |avail| && avail[slots[i]] == Final(sh, msg.shortIds[i], pool, extra).slot)
  }

  lemma NoExtra(sh: Shorten, ids: seq<ShortId>, cells: seq<Cell>)
    requires |cells| == |ids|
    ensures ExtraCells(sh, ids, cells, []) == cells
  {
  }

  lemma TracksStart(base: seq<Slot>, slots: seq<nat>, sh: Shorten, ids: seq<ShortId>)
    requires Lists(base, slots, |base|) && |slots| == |ids|
    ensures Tracks(base, base, seq(|base|, _ => false), slots, PoolCells(sh, ids, []))
  {
  }

  /** When as many cells are counted as there are, and none for a blank entry, all are full. */
  lemma FullCells(cells: seq<Cell>)
    requires Credits(cells, |cells|) == |cells| && Plain(cells)
    ensures AllFull(cells)
  {
    AllCounted(cells, |cells|);
  }

  lemma YieldsMade(msg: Message, sh: Shorten, pool: seq<Tx>, extra: seq<Extra>, slots: seq<nat>, base: seq<Slot>,
                   avail: seq<Slot>)
    requires |slots| == |msg.shortIds| && |base| == |msg.shortIds| + |msg.prefilled|
    requires Placed(base, msg.prefilled, |msg.prefilled|) && Lists(base, slots, |base|)
    requires exists have ::
      Tracks(base, avail, have, slots, ExtraCells(sh, msg.shortIds, PoolCells(sh, msg.shortIds, pool), extra))
    ensures Yields(msg, sh, pool, extra, slots, avail)
  {
    hide Placed, Lists;
    var have :|
      Tracks(base, avail, have, slots, ExtraCells(sh, msg.shortIds, PoolCells(sh, msg.shortIds, pool), extra));
  }

  lemma FillNone(avail: seq<Slot>, missing: seq<Tx>)
    ensures Empties(avail[..0], 0) == Empties(avail, 0) == 0 && Fill(avail[..0], missing[..0]) == []
  {
  }

  lemma {:induction false} FillNext(avail: seq<Slot>, missing: seq<Tx>, i: nat, offset: nat)
    requires i < |avail| && offset == Empties(avail[..i], i) == Empties(avail, i) <= |missing|
    ensures Empties(avail[..i + 1], i + 1) == Empties(avail, i + 1) == offset + One(avail[i] == Empty)
    ensures avail[i] != Empty ==>
      Fill(avail[..i + 1], missing[..offset]) == Fill(avail[..i], missing[..offset]) + [avail[i].tx]
    ensures avail[i] == Empty && offset < |missing| ==>
      Fill(avail[..i + 1], missing[..offset + 1]) == Fill(avail[..i], missing[..offset]) + [missing[offset]]
  {
    var front := avail[..i + 1];
    EmptiesPrefix(avail, i + 1, i + 1);
    assert front[..i] == avail[..i];
    if avail[i] == Empty && offset < |missing| {
      assert missing[..offset + 1][..offset] == missing[..offset];
    }
  }

  /** No transaction at hand has the short id of another transaction of the block. */
  ghost predicate NoClash(sh: Shorten, vtx: seq<Tx>, mweb: bool, txs: seq<Tx>) {
    forall p :: 1 <= p < |vtx| && p <= Shorts(vtx, mweb) ==> OnlyMatch(sh, sh(vtx[p].hash), txs, vtx[p])
  }

  /** Nor has a transaction among the extra entries. */
  ghost predicate NoHeldClash(sh: Shorten, vtx: seq<Tx>, mweb: bool, extra: seq<Extra>) {
    forall p :: 1 <= p < |vtx| && p <= Shorts(vtx, mweb) ==> OnlyHeld(sh, sh(vtx[p].hash), extra, vtx[p])
  }

  /** Without a clash, what is there after InitData is the block's own; so filling in the transactions
      that are missing gives the block. */
  lemma {:induction false} Reconstructs(sh: Shorten, vtx: seq<Tx>, mweb: bool, msg: Message, pool: seq<Tx>,
                                        extra: seq<Extra>, slots: seq<nat>, avail: seq<Slot>)
    requires BlockOk(vtx, mweb) && IsCompact(sh, vtx, mweb, msg) && Yields(msg, sh, pool, extra, slots, avail)
    requires NoClash(sh, vtx, mweb, pool) && NoHeldClash(sh, vtx, mweb, extra)
    ensures Agrees(avail, vtx) && Fill(avail, Missing(avail, vtx)) == vtx
  {
    hide Fill, Missing, Empties, AfterPool, AfterExtra, Position;
    CompactPositions(sh, vtx, mweb, msg);
    var base :| |base| == |avail| && Placed(base, msg.prefilled, |msg.prefilled|) && Lists(base, slots, |base|) &&
      forall p :: 0 <= p < |avail| && p !in slots ==> avail[p] == base[p];
    forall p | 0 <= p < |avail| && avail[p].Full?
      ensures avail[p].tx == vtx[p]
    {
      if p in slots {
        var i :| 0 <= i < |slots| && slots[i] == p;
        ShortPositions(sh, vtx, mweb, msg, base, slots, i);
        FinalRight(sh, msg.shortIds[i], pool, extra, vtx[p]);
      } else {
        PrefilledRight(sh, vtx, mweb, msg, base, p);
      }
    }
    FillsBlock(avail, vtx);
  }

  lemma FinalRight(sh: Shorten, id: ShortId, pool: seq<Tx>, extra: seq<Extra>, tx: Tx)
    requires OnlyMatch(sh, id, pool, tx) && OnlyHeld(sh, id, extra, tx)
    ensures var d := Final(sh, id, pool, extra); d.slot.Full? ==> d.slot.tx == tx
    ensures var c := AfterPool(sh, id, pool); c.slot.Full? ==> Final(sh, id, pool, extra) == c
  {
    hide AfterPool, AfterExtra;
    PoolRight(sh, id, pool, tx);
    ExtraRight(sh, id, AfterPool(sh, id, pool), extra, tx);
  }

  lemma PrefilledRight(sh: Shorten, vtx: seq<Tx>, mweb: bool, msg: Message, base: seq<Slot>, p: nat)
    requires BlockOk(vtx, mweb) && IsCompact(sh, vtx, mweb, msg) && Placed(base, msg.prefilled, |msg.prefilled|)
    requires |base| == |vtx| && p < |base| && base[p] != Empty
    ensures base[p] == Full(vtx[p])
  {
    hide Position;
    CompactPositions(sh, vtx, mweb, msg);
    var i :| 0 <= i < |msg.prefilled| && Position(msg.prefilled, i) == p;
    assert i == 0 || i == 1;
  }

  /** A transaction is once in the mempool, or not there but among the extra ones. */
  ghost predicate IsKnown(tx: Tx, pool: seq<Tx>, extra: seq<Extra>) {
    || (exists k :: 0 <= k < |pool| && pool[k] == tx && forall j :: 0 <= j < |pool| && j != k ==> pool[j] != tx)
    || (Held(tx) in extra && tx !in pool)
  }

  lemma ScannedIsFound(sh: Shorten, id: ShortId, tx: Tx, pool: seq<Tx>, extra: seq<Extra>)
    requires id == sh(tx.hash) && OnlyMatch(sh, id, pool, tx) && OnlyHeld(sh, id, extra, tx)
    requires IsKnown(tx, pool, extra)
    ensures Final(sh, id, pool, extra).slot == Full(tx) <==> !BlankOnly(sh, id, pool, extra)
  {
    hide AfterPool, AfterExtra;
    if tx !in pool {
      PoolMisses(sh, id, pool);
      var k :| 0 <= k < |extra| && extra[k] == Held(tx);
      ExtraFinds(sh, id, extra, tx);
    } else {
      var k :| 0 <= k < |pool| && pool[k] == tx && forall j :: 0 <= j < |pool| && j != k ==> pool[j] != tx;
      PoolFinds(sh, id, pool, tx, k);
      FinalRight(sh, id, pool, extra, tx);
      assert InPool(sh, id, pool);
    }
  }

  /** What lies behind the point where a scan stops makes no difference. */
  lemma StoppedIsFound(sh: Shorten, id: ShortId, tx: Tx, pool: seq<Tx>, extra: seq<Extra>, ke: nat)
    requires id == sh(tx.hash) && OnlyMatch(sh, id, pool, tx) && ke <= |extra| && OnlyHeld(sh, id, extra[..ke], tx)
    requires var d := Final(sh, id, pool, extra[..ke]); d.slot.Full? || d.blank
    ensures Final(sh, id, pool, extra[..ke]).slot == Full(tx) <==> !BlankOnly(sh, id, pool, extra)
  {
    hide Final, InPool, FirstMatch, OnlyMatch;
    FinalSeen(sh, id, pool, extra[..ke]);
    FinalRight(sh, id, pool, extra[..ke], tx);
    var f, g := FirstMatch(sh, id, extra), FirstMatch(sh, id, extra[..ke]);
    if g < ke {
      assert extra[..ke][g] == extra[g] && f == g by {
        assert forall j :: 0 <= j < ke ==> extra[..ke][j] == extra[j];
      }
    }
  }

  /** A known transaction of the block does not have to be asked for, unless the first entry with its
      short id is blank; that a scan stops early makes no difference. */
  lemma KnownIsFound(sh: Shorten, vtx: seq<Tx>, mweb: bool, msg: Message, pool: seq<Tx>, extra: seq<Extra>,
                     slots: seq<nat>, avail: seq<Slot>, kp: nat, ke: nat, i: nat)
    requires BlockOk(vtx, mweb) && IsCompact(sh, vtx, mweb, msg) && kp <= |pool| && ke <= |extra|
    requires Yields(msg, sh, pool[..kp], extra[..ke], slots, avail)
    requires kp < |pool| ==> AllFull(PoolCells(sh, msg.shortIds, pool[..kp]))
    requires ke < |extra| ==> AllSeen(Finals(sh, msg.shortIds, pool[..kp], extra[..ke]))
    requires NoClash(sh, vtx, mweb, pool) && NoHeldClash(sh, vtx, mweb, extra)
    requires i < Shorts(vtx, mweb) && i + 1 < |vtx| && IsKnown(vtx[i + 1], pool, extra)
    ensures |avail| == |vtx|
    ensures avail[i + 1] == Full(vtx[i + 1]) <==> !BlankOnly(sh, msg.shortIds[i], pool, extra)
  {
    hide Empties, AfterPool, AfterExtra, Position, IsKnown, Yields, Finals, BlankOnly, Final;
    LessClash(sh, vtx, mweb, pool, kp);
    LessHeldClash(sh, vtx, mweb, extra, ke);
    SlotIs(sh, vtx, mweb, msg, pool[..kp], extra[..ke], slots, avail, i);
    var id, tx := msg.shortIds[i], vtx[i + 1];
    if kp < |pool| {
      FullStays(sh, vtx, mweb, msg, pool[..kp], extra[..ke], i);
      StillInPool(sh, id, pool, kp, extra);
    } else if ke < |extra| {
      assert pool[..kp] == pool;
      StoppedIsFound(sh, id, tx, pool, extra, ke);
    } else {
      assert pool[..kp] == pool && extra[..ke] == extra;
      ScannedIsFound(sh, id, tx, pool, extra);
    }
  }

  lemma StillInPool(sh: Shorten, id: ShortId, pool: seq<Tx>, kp: nat, extra: seq<Extra>)
    requires kp <= |pool| && AfterPool(sh, id, pool[..kp]).slot.Full?
    ensures !BlankOnly(sh, id, pool, extra)
  {
    hide AfterPool, FirstBlank;
    PoolSeen(sh, id, pool[..kp]);
    var i :| 0 <= i < kp && sh(pool[..kp][i].hash) == id;
    assert sh(pool[i].hash) == id;
  }

  /** Where the cell of a short id lies. */
  lemma SlotIs(sh: Shorten, vtx: seq<Tx>, mweb: bool, msg: Message, pool: seq<Tx>, extra: seq<Extra>,
               slots: seq<nat>, avail: seq<Slot>, i: nat)
    requires BlockOk(vtx, mweb) && IsCompact(sh, vtx, mweb, msg) && Yields(msg, sh, pool, extra, slots, avail)
    requires i < Shorts(vtx, mweb)
    ensures |avail| == |vtx| && avail[i + 1] == Final(sh, msg.shortIds[i], pool, extra).slot
  {
    hide Empties, Final, Position;
    CompactPositions(sh, vtx, mweb, msg);
    var base :| |base| == |avail| && Placed(base, msg.prefilled, |msg.prefilled|) && Lists(base, slots, |base|) &&
      forall p :: 0 <= p < |avail| && p !in slots ==> avail[p] == base[p];
    ShortPositions(sh, vtx, mweb, msg, base, slots, i);
  }

  /** What the mempool has put into a slot stays, and is right. */
  lemma FullStays(sh: Shorten, vtx: seq<Tx>, mweb: bool, msg: Message, pool: seq<Tx>, extra: seq<Extra>, i: nat)
    requires BlockOk(vtx, mweb) && IsCompact(sh, vtx, mweb, msg) && i < Shorts(vtx, mweb) && i + 1 < |vtx|
    requires NoClash(sh, vtx, mweb, pool) && NoHeldClash(sh, vtx, mweb, extra)
    requires AllFull(PoolCells(sh, msg.shortIds, pool))
    ensures AfterPool(sh, msg.shortIds[i], pool).slot.Full?
    ensures Final(sh, msg.shortIds[i], pool, extra).slot == Full(vtx[i + 1])
  {
    hide AfterPool, Final;
    assert PoolCells(sh, msg.shortIds, pool)[i].slot.Full?;
    FinalRight(sh, msg.shortIds[i], pool, extra, vtx[i + 1]);
  }

  /** The compact form of any block: the first transaction, with an extension block also the last one,
      and short ids for the others but the integrating one.  Indices have 16 bits. */
  method MakeCompact(sh: Shorten, vtx: seq<Tx>, mweb: bool) returns (msg: Message)
    requires vtx != []
    ensures |msg.shortIds| == |Shortened(vtx[1..])|
    ensures forall i :: 0 <= i < |msg.shortIds| ==> msg.shortIds[i] == sh(Shortened(vtx[1..])[i].hash)
    ensures msg.prefilled == [Prefilled(0, vtx[0])] +
      if mweb then [Prefilled((|vtx| - 2) % 65536, vtx[|vtx| - 1])] else []
  {
    assert Shortened(vtx[1..1]) == [];
    hide Shortened;
    var prefilled, shortIds := [Prefilled(0, vtx[0])], [];
    if mweb {
      prefilled := prefilled + [Prefilled((|vtx| - 2) % 65536, vtx[|vtx| - 1])];
    }
    var i := 1;
    while i < |vtx|
      invariant 1 <= i <= |vtx| && |shortIds| == |Shortened(vtx[1..i])|
      invariant forall j :: 0 <= j < |shortIds| ==> shortIds[j] == sh(Shortened(vtx[1..i])[j].hash)
    {
      ShortenedNext(vtx, i);
      if !vtx[i].isHogEx {
        shortIds := shortIds + [sh(vtx[i].hash)];
      }
      i := i + 1;
    }
    assert vtx[1..i] == vtx[1..];
    msg := Message(shortIds, prefilled);
  }

  /** The whole way: compact form, what is known, what is missing, the block again.  It fails if and only
      if a bucket is crowded or two short ids are equal; it asks for no known transaction, unless a blank
      entry has its short id, and nothing else can go wrong without such an entry. */
  method Reconstruct(sh: Shorten, vtx: seq<Tx>, mweb: bool, crowded: bool, pool: seq<Tx>, extra: seq<Extra>)
    returns (status: Status, back: seq<Tx>, ghost avail: seq<Slot>)
    requires BlockOk(vtx, mweb) && NoClash(sh, vtx, mweb, pool) && NoHeldClash(sh, vtx, mweb, extra)
    ensures status == FAILED <==> crowded || !Apart(sh, vtx, mweb)
    ensures status in {OK, FAILED, CRASH} && (NoBlankClash(sh, vtx, mweb, extra) ==> status != CRASH)
    ensures status == OK ==> back == vtx && |avail| == |vtx|
    ensures status == OK ==> forall p :: 1 <= p < |vtx| && p <= Shorts(vtx, mweb) && IsKnown(vtx[p], pool, extra) ==>
      (avail[p] == Full(vtx[p]) <==> !BlankOnly(sh, sh(vtx[p].hash), pool, extra))
  {
    hide Yields, Fill, Missing, Empties, NoClash, NoHeldClash, IsKnown, AllFull, AllSeen, PoolCells, Unique, Apart;
    hide MeetsAny, BlankOnly, NoBlanks, NoBlankClash, Finals;
    var msg := MakeCompact(sh, vtx, mweb);
    ShortsCover(vtx, mweb);
    CompactPositions(sh, vtx, mweb, msg);
    UniqueIs(sh, vtx, mweb, msg);
    if NoBlankClash(sh, vtx, mweb, extra) {
      BlanksIs(sh, vtx, mweb, msg, extra);
    }
    var partial := new PartiallyDownloadedBlock();
    ghost var slots, kp, ke;
    status, slots, kp, ke := partial.InitData(msg, false, crowded, sh, pool, extra);
    back, avail := [], partial.txnAvailable;
    if status == OK {
      LessClash(sh, vtx, mweb, pool, kp);
      LessHeldClash(sh, vtx, mweb, extra, ke);
      Reconstructs(sh, vtx, mweb, msg, pool[..kp], extra[..ke], slots, avail);
      forall p | 1 <= p < |vtx| && p <= Shorts(vtx, mweb) && IsKnown(vtx[p], pool, extra)
        ensures avail[p] == Full(vtx[p]) <==> !BlankOnly(sh, sh(vtx[p].hash), pool, extra)
      {
        KnownIsFound(sh, vtx, mweb, msg, pool, extra, slots, avail, kp, ke, p - 1);
      }
      status, back := partial.FillBlock(Missing(partial.txnAvailable, vtx), OK);
    }
  }

  /** No blank entry has the short id of a transaction of the block. */
  ghost predicate NoBlankClash(sh: Shorten, vtx: seq<Tx>, mweb: bool, extra: seq<Extra>) {
    forall i, p :: 0 <= i < |extra| && extra[i].Blank? && 1 <= p < |vtx| && p <= Shorts(vtx, mweb) ==>
      sh(HashOf(extra[i])) != sh(vtx[p].hash)
  }

  lemma BlanksIs(sh: Shorten, vtx: seq<Tx>, mweb: bool, msg: Message, extra: seq<Extra>)
    requires BlockOk(vtx, mweb) && IsCompact(sh, vtx, mweb, msg) && NoBlankClash(sh, vtx, mweb, extra)
    ensures NoBlanks(sh, msg.shortIds, extra)
  {
    forall i, k | 0 <= i < |extra| && extra[i].Blank? && 0 <= k < |msg.shortIds|
      ensures msg.shortIds[k] != sh(HashOf(extra[i]))
    {
      assert msg.shortIds[k] == sh(vtx[k + 1].hash);
    }
  }

  // ----- Blank entries -----

  const COINBASE := Tx(1, false, false)
  const ONE_SHORT := Message([ShortId(0)], [Prefilled(0, COINBASE)])

  lemma OneShortOk()
    ensures GoodPrefilled(ONE_SHORT.prefilled, 1) && Unique(ONE_SHORT.shortIds)
  {
    var pre := ONE_SHORT.prefilled;
    assert Position(pre, 0) == 0;
  }

  /** A message with the short id of a blank entry: the counter says that the slot is filled; it is not. */
  method BlankIsCounted() returns (count: nat, open: nat)
    ensures count == 1 && open == 1
  {
    OneShortOk();
    hide Yields, Empties, Credits, Fulls, PoolCells, GoodPrefilled, Unique, BlankOnly, MeetsAny, Finals, Final;
    var sh: Shorten := (h: nat) => ShortId(h);
    var partial := new PartiallyDownloadedBlock();
    ghost var slots, kp, ke;
    var status;
    status, slots, kp, ke := partial.InitData(ONE_SHORT, false, false, sh, [], [Blank(0)]);
    BlankCell(sh);
    assert [Blank(0)][..0] == [] && [Blank(0)][..1] == [Blank(0)];
    count, open := partial.mempoolCount, Empties(partial.txnAvailable, |partial.txnAvailable|);
  }

  lemma BlankCell(sh: Shorten)
    requires sh(0) == ShortId(0)
    ensures !MeetsAny(sh, [ShortId(0)], PoolCells(sh, [ShortId(0)], []), [Blank(0)], 0)
    ensures var cells := Finals(sh, [ShortId(0)], [], [Blank(0)]); Credits(cells, 1) == 1 && Fulls(cells, 1) == 0
    ensures !AllSeen(Finals(sh, [ShortId(0)], [], []))
  {
    var id := ShortId(0);
    assert [Blank(0)][..0] == [];
    assert AfterExtra(sh, id, UNSEEN, []) == UNSEEN;
    assert Final(sh, id, [], [Blank(0)]) == Cell(true, Empty, true);
    var cells := Finals(sh, [id], [], [Blank(0)]);
    assert cells[0] == Cell(true, Empty, true);
    assert Credits(cells, 0) == Fulls(cells, 0) == 0;
    assert Finals(sh, [id], [], [])[0] == UNSEEN;
    assert ExtraCells(sh, [id], PoolCells(sh, [id], []), [])[0] == UNSEEN;
  }

  /** With a transaction of the same short id in the mempool, a null pointer is followed. */
  method BlankIsMet() returns (status: Status)
    ensures status == CRASH
  {
    OneShortOk();
    hide Yields, Empties, Credits, Fulls, PoolCells, GoodPrefilled, Unique, BlankOnly, MeetsAny, Finals, Final;
    var sh: Shorten, tx := h => ShortId(0), Tx(7, false, false);
    var partial := new PartiallyDownloadedBlock();
    ghost var slots, kp, ke;
    status, slots, kp, ke := partial.InitData(ONE_SHORT, false, false, sh, [tx], [Blank(0)]);
    assert [tx][..1] == [tx];
    MetCell(sh, tx);
  }

  lemma MetCell(sh: Shorten, tx: Tx)
    requires sh(0) == sh(tx.hash) == ShortId(0)
    ensures MeetsAny(sh, [ShortId(0)], PoolCells(sh, [ShortId(0)], [tx]), [Blank(0)], 0)
  {
    var id := ShortId(0);
    var cells := PoolCells(sh, [id], [tx]);
    assert [tx][..0] == [] && [Blank(0)][..0] == [];
    assert cells[0] == AfterPool(sh, id, [tx]) == Cell(true, Full(tx), false);
    assert Meets(sh, id, ExtraCells(sh, [id], cells, [])[0], Blank(0));
  }

  /** No two transactions that are not prefilled have the same short id. */
  ghost predicate Apart(sh: Shorten, vtx: seq<Tx>, mweb: bool) {
    forall i, j :: 1 <= i < j < |vtx| && j <= Shorts(vtx, mweb) ==> sh(vtx[i].hash) != sh(vtx[j].hash)
  }

  lemma UniqueIs(sh: Shorten, vtx: seq<Tx>, mweb: bool, msg: Message)
    requires BlockOk(vtx, mweb) && IsCompact(sh, vtx, mweb, msg)
    ensures Unique(msg.shortIds) <==> Apart(sh, vtx, mweb)
  {
    if Unique(msg.shortIds) {
      forall i, j | 1 <= i < j < |vtx| && j <= Shorts(vtx, mweb)
        ensures sh(vtx[i].hash) != sh(vtx[j].hash)
      {
        assert msg.shortIds[i - 1] != msg.shortIds[j - 1];
      }
    }
  }

  lemma LessClash(sh: Shorten, vtx: seq<Tx>, mweb: bool, txs: seq<Tx>, k: nat)
    requires k <= |txs| && NoClash(sh, vtx, mweb, txs)
    ensures NoClash(sh, vtx, mweb, txs[..k])
  {
    forall p | 1 <= p < |vtx| && p <= Shorts(vtx, mweb)
      ensures OnlyMatch(sh, sh(vtx[p].hash), txs[..k], vtx[p])
    {
      assert OnlyMatch(sh, sh(vtx[p].hash), txs, vtx[p]);
    }
  }

  lemma LessHeldClash(sh: Shorten, vtx: seq<Tx>, mweb: bool, extra: seq<Extra>, k: nat)
    requires k <= |extra| && NoHeldClash(sh, vtx, mweb, extra)
    ensures NoHeldClash(sh, vtx, mweb, extra[..k])
  {
    forall p | 1 <= p < |vtx| && p <= Shorts(vtx, mweb)
      ensures OnlyHeld(sh, sh(vtx[p].hash), extra[..k], vtx[p])
    {
      assert OnlyHeld(sh, sh(vtx[p].hash), extra, vtx[p]);
    }
  }
}
