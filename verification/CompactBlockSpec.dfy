/** Compact blocks (BIP 152): where prefilled transactions and short ids go, and what a filled block is. */
module CompactBlockSpec {
  import opened Common

  /** A transaction with its witness hash. */
  datatype Tx = Tx(hash: nat, isNull: bool, isHogEx: bool)

  datatype ShortId = ShortId(n: nat)

  /** GetShortID under the keys of a message, which are left open. */
  type Shorten = nat -> ShortId

  /** A place for a transaction. */
  datatype Slot = Empty | Full(tx: Tx)

  datatype Prefilled = Prefilled(index: nat, tx: Tx)

  /** An entry of the list of extra transactions: a transaction under its hash, or a place not used yet,
      which has a hash, too, but no transaction. */
  datatype Extra = Held(tx: Tx) | Blank(zero: nat)

  function HashOf(e: Extra): nat {
    match e
    case Held(tx) => tx.hash
    case Blank(zero) => zero
  }

  datatype Message = Message(shortIds: seq<ShortId>, prefilled: seq<Prefilled>)

  // ----- Prefilled transactions -----

  /** The position of a prefilled transaction; indices count from the one before. */
  function Position(pre: seq<Prefilled>, i: nat): (r: nat)
    requires i < |pre|
    ensures r >= i
  {
    if i == 0 then pre[0].index else Position(pre, i - 1) + pre[i].index + 1
  }

  predicate GoodEntry(pre: seq<Prefilled>, shorts: nat, i: nat)
    requires i < |pre|
  {
    !pre[i].tx.isNull && Position(pre, i) <= 65535 && Position(pre, i) <= shorts + i
  }

  /** No prefilled transaction is null or out of reach. */
  ghost predicate GoodPrefilled(pre: seq<Prefilled>, shorts: nat) {
    forall i :: 0 <= i < |pre| ==> GoodEntry(pre, shorts, i)
  }

  lemma {:induction false} PositionsGrow(pre: seq<Prefilled>, i: nat, j: nat)
    requires i < j < |pre|
    ensures Position(pre, i) < Position(pre, j)
    decreases j
  {
    if i < j - 1 {
      PositionsGrow(pre, i, j - 1);
    }
  }

  /** The first `k` prefilled transactions are in their places, nothing else is. */
  ghost predicate Placed(avail: seq<Slot>, pre: seq<Prefilled>, k: nat)
    requires k <= |pre|
  {
    && (forall i :: 0 <= i < k ==> Position(pre, i) < |avail| && avail[Position(pre, i)] == Full(pre[i].tx))
    && (forall p :: 0 <= p < |avail| && avail[p] != Empty ==> Prefills(pre, k, p))
  }

  /** One of the first `k` prefilled transactions belongs at `p`. */
  ghost predicate Prefills(pre: seq<Prefilled>, k: nat, p: nat)
    requires k <= |pre|
  {
    exists i :: 0 <= i < k && Position(pre, i) == p
  }

  lemma {:induction false} PlaceOne(avail: seq<Slot>, pre: seq<Prefilled>, k: nat)
    requires k < |pre| && Placed(avail, pre, k) && Position(pre, k) < |avail|
    ensures Placed(avail[Position(pre, k) := Full(pre[k].tx)], pre, k + 1)
    ensures avail[Position(pre, k)] == Empty
  {
    hide Position;
    var p := Position(pre, k);
    var more := avail[p := Full(pre[k].tx)];
    forall i | 0 <= i < k
      ensures Position(pre, i) != p
    {
      PositionsGrow(pre, i, k);
    }
    assert !Prefills(pre, k, p);
    forall q | 0 <= q < |more| && more[q] != Empty
      ensures Prefills(pre, k + 1, q)
    {
      PrefillsNext(pre, k, q);
    }
  }

  lemma {:induction false} PrefillsNext(pre: seq<Prefilled>, k: nat, q: nat)
    requires k < |pre|
    ensures Prefills(pre, k + 1, q) <==> Prefills(pre, k, q) || Position(pre, k) == q
  {
    hide Position;
    if Prefills(pre, k, q) {
      var i :| 0 <= i < k && Position(pre, i) == q;
      assert Position(pre, i) == q && i < k + 1;
    }
  }

  // ----- Counting slots -----

  /** Empty slots among the first `n`. */
  function Empties(avail: seq<Slot>, n: nat): nat
    requires n <= |avail|
  {
    if n == 0 then 0 else Empties(avail, n - 1) + One(avail[n - 1] == Empty)
  }

  lemma {:induction false} EmptiesChange(a: seq<Slot>, b: seq<Slot>, p: nat, n: nat)
    requires |a| == |b| && n <= |a| && p < |a| && b == a[p := b[p]]
    ensures Empties(b, n) == Empties(a, n) + if p < n then One(b[p] == Empty) - One(a[p] == Empty) else 0
  {
    if n > 0 {
      EmptiesChange(a, b, p, n - 1);
    }
  }

  lemma {:induction false} AllEmpty(a: seq<Slot>, n: nat)
    requires n <= |a| && forall p :: 0 <= p < |a| ==> a[p] == Empty
    ensures Empties(a, n) == n
  {
    if n > 0 {
      AllEmpty(a, n - 1);
    }
  }

  lemma {:induction false} EmptiesMono(a: seq<Slot>, m: nat, n: nat)
    requires m <= n <= |a|
    ensures Empties(a, m) <= Empties(a, n) <= Empties(a, m) + n - m
    decreases n
  {
    if m < n {
      EmptiesMono(a, m, n - 1);
    }
  }

  // ----- Positions of short ids -----

  /** `slots` lists the first empty slots in order. */
  ghost predicate Lists(avail: seq<Slot>, slots: seq<nat>, upto: nat)
    requires upto <= |avail|
  {
    && |slots| == Empties(avail, upto)
    && (forall i :: 0 <= i < |slots| ==> slots[i] < upto && avail[slots[i]] == Empty)
    && (forall i, j :: 0 <= i < j < |slots| ==> slots[i] < slots[j])
    && (forall p :: 0 <= p < upto && avail[p] == Empty ==> p in slots)
  }

  lemma ListsSkip(avail: seq<Slot>, slots: seq<nat>, upto: nat)
    requires upto < |avail| && Lists(avail, slots, upto) && avail[upto] != Empty
    ensures Lists(avail, slots, upto + 1)
  {
  }

  lemma ListsTake(avail: seq<Slot>, slots: seq<nat>, upto: nat)
    requires upto < |avail| && Lists(avail, slots, upto) && avail[upto] == Empty
    ensures Lists(avail, slots + [upto], upto + 1)
  {
  }

  // ----- Filling -----

  /** Empty slots filled from a list, in order. */
  function Fill(avail: seq<Slot>, missing: seq<Tx>): seq<Tx>
    requires |missing| == Empties(avail, |avail|)
    decreases |avail|
  {
    if avail == [] then []
    else
      var n := |avail| - 1;
      var front := avail[..n];
      EmptiesFront(avail, n);
      if avail[n] == Empty then Fill(front, missing[..|missing| - 1]) + [missing[|missing| - 1]]
      else Fill(front, missing) + [avail[n].tx]
  }

  lemma {:induction false} EmptiesFront(avail: seq<Slot>, n: nat)
    requires n + 1 == |avail|
    ensures Empties(avail, |avail|) == Empties(avail[..n], n) + One(avail[n] == Empty)
  {
    EmptiesPrefix(avail, n, n);
  }

  lemma {:induction false} EmptiesPrefix(avail: seq<Slot>, m: nat, n: nat)
    requires n <= m <= |avail|
    ensures Empties(avail[..m], n) == Empties(avail, n)
    decreases n
  {
    if n > 0 {
      EmptiesPrefix(avail, m, n - 1);
    }
  }

  /** The transactions of a block that have to be asked for. */
  function Missing(avail: seq<Slot>, vtx: seq<Tx>): (r: seq<Tx>)
    requires |avail| == |vtx|
    ensures |r| == Empties(avail, |avail|)
    decreases |avail|
  {
    if avail == [] then []
    else
      var n := |avail| - 1;
      EmptiesFront(avail, n);
      Missing(avail[..n], vtx[..n]) + if avail[n] == Empty then [vtx[n]] else []
  }

  /** What is there is what the block has there. */
  ghost predicate Agrees(avail: seq<Slot>, vtx: seq<Tx>) {
    |avail| == |vtx| && forall p :: 0 <= p < |avail| && avail[p].Full? ==> avail[p].tx == vtx[p]
  }

  /** Slots that agree with a block, filled with what is missing, are the block. */
  lemma {:induction false} FillsBlock(avail: seq<Slot>, vtx: seq<Tx>)
    requires Agrees(avail, vtx)
    ensures Fill(avail, Missing(avail, vtx)) == vtx
    decreases |avail|
  {
    hide Fill, Missing, Empties;
    if avail == [] {
      NothingToFill(avail, vtx);
    } else {
      var n := |avail| - 1;
      FillsBlock(avail[..n], vtx[..n]);
      OneMoreSlot(avail, vtx, n);
      assert vtx == vtx[..n] + [vtx[n]];
    }
  }

  lemma NothingToFill(avail: seq<Slot>, vtx: seq<Tx>)
    requires avail == [] && vtx == []
    ensures Fill(avail, Missing(avail, vtx)) == []
  {
  }

  lemma {:induction false} OneMoreSlot(avail: seq<Slot>, vtx: seq<Tx>, n: nat)
    requires |avail| == |vtx| == n + 1 && (avail[n].Full? ==> avail[n].tx == vtx[n])
    ensures Fill(avail, Missing(avail, vtx)) == Fill(avail[..n], Missing(avail[..n], vtx[..n])) + [vtx[n]]
  {
    hide Empties;
    EmptiesFront(avail, n);
    var m, front := Missing(avail, vtx), Missing(avail[..n], vtx[..n]);
    if avail[n] == Empty {
      assert m[..|m| - 1] == front;
    } else {
      assert m == front;
    }
  }

  // ----- Matching short ids against known transactions -----

  /** What is known about one short id: whether a match was seen, what the slot holds, and whether the
      match was a blank entry, which is counted but fills nothing. */
  datatype Cell = Cell(have: bool, slot: Slot, blank: bool)

  const UNSEEN := Cell(false, Empty, false)

  /** A transaction of the mempool: the first match fills the slot, any further one empties it. */
  function SeePool(sh: Shorten, id: ShortId, c: Cell, tx: Tx): Cell {
    if sh(tx.hash) != id then c
    else if !c.have then Cell(true, Full(tx), false)
    else Cell(true, Empty, false)
  }

  /** An extra entry: a further match empties the slot only if it is a different transaction.  A blank
      entry cannot be compared: see Meets. */
  function SeeExtra(sh: Shorten, id: ShortId, c: Cell, e: Extra): Cell {
    if sh(HashOf(e)) != id then c
    else if !c.have then (if e.Held? then Cell(true, Full(e.tx), false) else Cell(true, Empty, true))
    else if c.slot.Full? && e.Held? && c.slot.tx.hash != e.tx.hash then Cell(true, Empty, false)
    else c
  }

  /** A blank entry has the short id of a full slot: the program follows a null pointer. */
  predicate Meets(sh: Shorten, id: ShortId, c: Cell, e: Extra) {
    sh(HashOf(e)) == id && c.have && c.slot.Full? && e.Blank?
  }

  function AfterPool(sh: Shorten, id: ShortId, pool: seq<Tx>): Cell {
    if pool == [] then UNSEEN else SeePool(sh, id, AfterPool(sh, id, pool[..|pool| - 1]), pool[|pool| - 1])
  }

  function AfterExtra(sh: Shorten, id: ShortId, c: Cell, extra: seq<Extra>): Cell {
    if extra == [] then c else SeeExtra(sh, id, AfterExtra(sh, id, c, extra[..|extra| - 1]), extra[|extra| - 1])
  }

  function Final(sh: Shorten, id: ShortId, pool: seq<Tx>, extra: seq<Extra>): Cell {
    AfterExtra(sh, id, AfterPool(sh, id, pool), extra)
  }

  /** Among these transactions only `tx` has the short id. */
  ghost predicate OnlyMatch(sh: Shorten, id: ShortId, txs: seq<Tx>, tx: Tx) {
    forall i :: 0 <= i < |txs| && sh(txs[i].hash) == id ==> txs[i] == tx
  }

  /** Among the transactions of these entries only `tx` has the short id. */
  ghost predicate OnlyHeld(sh: Shorten, id: ShortId, extra: seq<Extra>, tx: Tx) {
    forall i :: 0 <= i < |extra| && sh(HashOf(extra[i])) == id && extra[i].Held? ==> extra[i].tx == tx
  }

  /** The first entry with a short id; their number if there is none. */
  function FirstMatch(sh: Shorten, id: ShortId, extra: seq<Extra>): (r: nat)
    ensures r <= |extra| && (r < |extra| ==> sh(HashOf(extra[r])) == id)
    ensures forall j :: 0 <= j < r ==> sh(HashOf(extra[j])) != id
  {
    if extra == [] then 0
    else
      var n := |extra| - 1;
      var g := FirstMatch(sh, id, extra[..n]);
      if g < n || sh(HashOf(extra[n])) == id then g else n + 1
  }

  /** The first entry with a short id is a blank one. */
  predicate FirstBlank(sh: Shorten, id: ShortId, extra: seq<Extra>) {
    FirstMatch(sh, id, extra) < |extra| && extra[FirstMatch(sh, id, extra)].Blank?
  }

  predicate InPool(sh: Shorten, id: ShortId, pool: seq<Tx>) {
    exists i :: 0 <= i < |pool| && sh(pool[i].hash) == id
  }

  /** Nothing in the mempool has the short id, and the first extra entry that has it is blank. */
  predicate BlankOnly(sh: Shorten, id: ShortId, pool: seq<Tx>, extra: seq<Extra>) {
    !InPool(sh, id, pool) && FirstBlank(sh, id, extra)
  }

  /** No blank entry has one of the short ids. */
  ghost predicate NoBlanks(sh: Shorten, ids: seq<ShortId>, extra: seq<Extra>) {
    forall i :: 0 <= i < |extra| && extra[i].Blank? ==> sh(HashOf(extra[i])) !in ids
  }

  /** Without a clash, a slot holds nothing but the transaction it is for. */
  lemma {:induction false} PoolRight(sh: Shorten, id: ShortId, pool: seq<Tx>, tx: Tx)
    requires OnlyMatch(sh, id, pool, tx)
    ensures var c := AfterPool(sh, id, pool); (c.slot.Full? ==> c.slot.tx == tx) && (!c.have ==> c.slot == Empty)
    decreases |pool|
  {
    if pool != [] {
      PoolRight(sh, id, pool[..|pool| - 1], tx);
    }
  }

  lemma {:induction false} ExtraRight(sh: Shorten, id: ShortId, c: Cell, extra: seq<Extra>, tx: Tx)
    requires OnlyHeld(sh, id, extra, tx) && (c.slot.Full? ==> c.have && c.slot.tx == tx)
    ensures var d := AfterExtra(sh, id, c, extra); d.slot.Full? ==> d.slot.tx == tx
    ensures c.slot.Full? ==> AfterExtra(sh, id, c, extra) == c
    decreases |extra|
  {
    if extra != [] {
      ExtraRight(sh, id, c, extra[..|extra| - 1], tx);
    }
  }

  /** The cell of a short id after the mempool. */
  lemma {:induction false} PoolSeen(sh: Shorten, id: ShortId, pool: seq<Tx>)
    ensures var c := AfterPool(sh, id, pool);
      !c.blank && (c.slot.Full? ==> c.have) && (c.have <==> InPool(sh, id, pool))
    decreases |pool|
  {
    if pool != [] {
      var n := |pool| - 1;
      PoolSeen(sh, id, pool[..n]);
      if InPool(sh, id, pool) {
        var i :| 0 <= i < |pool| && sh(pool[i].hash) == id;
        assert i < n ==> pool[..n][i] == pool[i];
      }
      if InPool(sh, id, pool[..n]) {
        var i :| 0 <= i < n && sh(pool[..n][i].hash) == id;
        assert pool[i] == pool[..n][i];
      }
    }
  }

  /** The cell after the extra entries: a slot that is counted and not filled is one whose first match
      is blank, and stays so. */
  lemma {:induction false} ExtraSeen(sh: Shorten, id: ShortId, c: Cell, extra: seq<Extra>)
    requires !c.blank && (c.slot.Full? ==> c.have)
    ensures var d := AfterExtra(sh, id, c, extra);
      && (d.blank ==> d.slot == Empty) && (d.slot.Full? ==> d.have)
      && (d.have <==> c.have || FirstMatch(sh, id, extra) < |extra|)
      && (d.blank <==> !c.have && FirstBlank(sh, id, extra))
    decreases |extra|
  {
    if extra != [] {
      ExtraSeen(sh, id, c, extra[..|extra| - 1]);
    }
  }

  /** A transaction that is in the mempool once, or not there but among the extra ones, is found. */
  lemma {:induction false} PoolFinds(sh: Shorten, id: ShortId, pool: seq<Tx>, tx: Tx, k: nat)
    requires k < |pool| && pool[k] == tx && sh(tx.hash) == id
    requires forall i :: 0 <= i < |pool| && i != k ==> sh(pool[i].hash) != id
    ensures AfterPool(sh, id, pool) == Cell(true, Full(tx), false)
    decreases |pool|
  {
    var n := |pool| - 1;
    if k < n {
      PoolFinds(sh, id, pool[..n], tx, k);
    } else {
      PoolMisses(sh, id, pool[..n]);
    }
  }

  lemma {:induction false} PoolMisses(sh: Shorten, id: ShortId, pool: seq<Tx>)
    requires forall i :: 0 <= i < |pool| ==> sh(pool[i].hash) != id
    ensures AfterPool(sh, id, pool) == UNSEEN
    decreases |pool|
  {
    if pool != [] {
      PoolMisses(sh, id, pool[..|pool| - 1]);
    }
  }

  lemma {:induction false} ExtraFinds(sh: Shorten, id: ShortId, extra: seq<Extra>, tx: Tx)
    requires OnlyHeld(sh, id, extra, tx)
    ensures var k := FirstMatch(sh, id, extra);
      AfterExtra(sh, id, UNSEEN, extra) ==
      if k == |extra| then UNSEEN else if extra[k].Blank? then Cell(true, Empty, true) else Cell(true, Full(tx), false)
    decreases |extra|
  {
    if extra != [] {
      ExtraFinds(sh, id, extra[..|extra| - 1], tx);
    }
  }

  // ----- All short ids at once -----

  function PoolCells(sh: Shorten, ids: seq<ShortId>, pool: seq<Tx>): (r: seq<Cell>)
    ensures |r| == |ids|
  {
    seq(|ids|, i requires 0 <= i < |ids| => AfterPool(sh, ids[i], pool))
  }

  function ExtraCells(sh: Shorten, ids: seq<ShortId>, cells: seq<Cell>, extra: seq<Extra>): (r: seq<Cell>)
    requires |cells| == |ids|
    ensures |r| == |ids|
  {
    seq(|ids|, i requires 0 <= i < |ids| => AfterExtra(sh, ids[i], cells[i], extra))
  }

  ghost predicate Unique(ids: seq<ShortId>) {
    forall i, j :: 0 <= i < j < |ids| ==> ids[i] != ids[j]
  }

  /** One more transaction changes at most the cell of its own short id. */
  lemma {:induction false} PoolCellsNext(sh: Shorten, ids: seq<ShortId>, pool: seq<Tx>, n: nat, k: nat)
    requires n < |pool| && Unique(ids) && k <= |ids|
    requires if k < |ids| then ids[k] == sh(pool[n].hash) else sh(pool[n].hash) !in ids
    ensures var was, now := PoolCells(sh, ids, pool[..n]), PoolCells(sh, ids, pool[..n + 1]);
      now == if k < |ids| then was[k := SeePool(sh, ids[k], was[k], pool[n])] else was
  {
    assert pool[..n + 1][..n] == pool[..n];
    var was, now := PoolCells(sh, ids, pool[..n]), PoolCells(sh, ids, pool[..n + 1]);
    forall i | 0 <= i < |ids|
      ensures now[i] == if i == k then SeePool(sh, ids[k], was[k], pool[n]) else was[i]
    {
      assert now[i] == SeePool(sh, ids[i], was[i], pool[n]);
    }
  }

  lemma {:induction false} ExtraCellsNext(sh: Shorten, ids: seq<ShortId>, cells: seq<Cell>, extra: seq<Extra>,
                                          n: nat, k: nat)
    requires n < |extra| && Unique(ids) && k <= |ids| == |cells|
    requires if k < |ids| then ids[k] == sh(HashOf(extra[n])) else sh(HashOf(extra[n])) !in ids
    ensures var was, now := ExtraCells(sh, ids, cells, extra[..n]), ExtraCells(sh, ids, cells, extra[..n + 1]);
      now == if k < |ids| then was[k := SeeExtra(sh, ids[k], was[k], extra[n])] else was
  {
    assert extra[..n + 1][..n] == extra[..n];
    var was, now := ExtraCells(sh, ids, cells, extra[..n]), ExtraCells(sh, ids, cells, extra[..n + 1]);
    forall i | 0 <= i < |ids|
      ensures now[i] == if i == k then SeeExtra(sh, ids[k], was[k], extra[n]) else was[i]
    {
      assert now[i] == SeeExtra(sh, ids[i], was[i], extra[n]);
    }
  }

  /** Cells that are counted, and those that are filled, among the first `n`. */
  function Credits(cells: seq<Cell>, n: nat): nat
    requires n <= |cells|
  {
    if n == 0 then 0 else Credits(cells, n - 1) + One(cells[n - 1].slot.Full? || cells[n - 1].blank)
  }

  function Fulls(cells: seq<Cell>, n: nat): nat
    requires n <= |cells|
  {
    if n == 0 then 0 else Fulls(cells, n - 1) + One(cells[n - 1].slot.Full?)
  }

  lemma {:induction false} CountsChange(a: seq<Cell>, b: seq<Cell>, k: nat, n: nat)
    requires |a| == |b| && n <= |a| && k < |a| && b == a[k := b[k]]
    ensures Fulls(b, n) == Fulls(a, n) + if k < n then One(b[k].slot.Full?) - One(a[k].slot.Full?) else 0
    ensures Credits(b, n) == Credits(a, n) +
      if k < n then One(b[k].slot.Full? || b[k].blank) - One(a[k].slot.Full? || a[k].blank) else 0
  {
    if n > 0 {
      CountsChange(a, b, k, n - 1);
    }
  }

  lemma {:induction false} NoneCounted(cells: seq<Cell>, n: nat)
    requires n <= |cells| && forall i :: 0 <= i < |cells| ==> cells[i] == UNSEEN
    ensures Credits(cells, n) == Fulls(cells, n) == 0
  {
    if n > 0 {
      NoneCounted(cells, n - 1);
    }
  }

  /** The two counts agree if and only if no slot is counted for a blank entry. */
  lemma {:induction false} CountsAgree(cells: seq<Cell>, n: nat)
    requires n <= |cells| && forall i :: 0 <= i < |cells| && cells[i].blank ==> cells[i].slot == Empty
    ensures Fulls(cells, n) <= Credits(cells, n)
    ensures Credits(cells, n) == Fulls(cells, n) <==> forall i :: 0 <= i < n ==> !cells[i].blank
  {
    if n > 0 {
      CountsAgree(cells, n - 1);
    }
  }

  /** When as much is counted as there are cells, every cell is. */
  lemma {:induction false} AllCounted(cells: seq<Cell>, n: nat)
    requires n <= |cells|
    ensures Credits(cells, n) <= n && Fulls(cells, n) <= n
    ensures Credits(cells, n) == n ==> forall i :: 0 <= i < n ==> cells[i].slot.Full? || cells[i].blank
  {
    if n > 0 {
      AllCounted(cells, n - 1);
    }
  }

  /** The slots of the short ids hold what the cells say; all other slots are as they were. */
  ghost predicate Tracks(base: seq<Slot>, avail: seq<Slot>, have: seq<bool>, slots: seq<nat>, cells: seq<Cell>) {
    && |have| == |avail| == |base| && |cells| == |slots|
    && (forall i :: 0 <= i < |slots| ==>
          slots[i] < |avail| && have[slots[i]] == cells[i].have && avail[slots[i]] == cells[i].slot)
    && (forall p :: 0 <= p < |avail| && p !in slots ==> avail[p] == base[p])
  }

  /** One slot and its cell changed together. */
  lemma TracksSet(base: seq<Slot>, avail: seq<Slot>, have: seq<bool>, slots: seq<nat>, cells: seq<Cell>, k: nat,
        c: Cell)
    requires Tracks(base, avail, have, slots, cells) && k < |slots|
    requires forall i, j :: 0 <= i < j < |slots| ==> slots[i] < slots[j]
    ensures slots[k] < |avail|
    ensures Tracks(base, avail[slots[k] := c.slot], have[slots[k] := c.have], slots, cells[k := c])
  {
    forall i | 0 <= i < |slots| && i != k
      ensures slots[i] != slots[k]
    {
      if i < k {
        assert slots[i] < slots[k];
      } else {
        assert slots[k] < slots[i];
      }
    }
    assert slots[k] in slots;
  }

  // ----- From a block -----

  /** Behind the coinbase, the last transaction is the integrating one if there is an extension block,
      and no other is. */
  ghost predicate HogExLast(vtx: seq<Tx>, mweb: bool) {
    forall i :: 1 <= i < |vtx| ==> vtx[i].isHogEx == (mweb && i == |vtx| - 1)
  }

  /** A block whose compact form can be read: as many transactions as a message may announce, and
      the prefilled ones are not null. */
  ghost predicate BlockOk(vtx: seq<Tx>, mweb: bool) {
    && (if mweb then 2 else 1) <= |vtx| <= 65535 && HogExLast(vtx, mweb)
    && !vtx[0].isNull && (mweb ==> !vtx[|vtx| - 1].isNull)
  }

  /** The transactions that get a short id. */
  function Shortened(txs: seq<Tx>): seq<Tx> {
    if txs == [] then []
    else Shortened(txs[..|txs| - 1]) + if txs[|txs| - 1].isHogEx then [] else [txs[|txs| - 1]]
  }

  lemma ShortenedNext(txs: seq<Tx>, i: nat)
    requires 1 <= i < |txs|
    ensures Shortened(txs[1..i + 1]) == Shortened(txs[1..i]) + if txs[i].isHogEx then [] else [txs[i]]
  {
    assert txs[1..i + 1][..i - 1] == txs[1..i];
  }

  lemma {:induction false} AllShortened(txs: seq<Tx>)
    requires forall i :: 0 <= i < |txs| ==> !txs[i].isHogEx
    ensures Shortened(txs) == txs
  {
    if txs != [] {
      AllShortened(txs[..|txs| - 1]);
    }
  }

  lemma {:induction false} NoHogExShort(txs: seq<Tx>, i: nat)
    requires i < |Shortened(txs)|
    ensures !Shortened(txs)[i].isHogEx
  {
    if i < |Shortened(txs[..|txs| - 1])| {
      NoHogExShort(txs[..|txs| - 1], i);
    }
  }

  /** The short ids cover just what is not prefilled, if and only if the integrating transaction is where
      the sender looks for it. */
  lemma ShortsCover(vtx: seq<Tx>, mweb: bool)
    requires |vtx| >= if mweb then 2 else 1
    ensures Shortened(vtx[1..]) == vtx[1..1 + Shorts(vtx, mweb)] <==> HogExLast(vtx, mweb)
  {
    var rest, n := vtx[1..], Shorts(vtx, mweb);
    var front := rest[..n];
    assert front == vtx[1..1 + n];
    assert rest == if mweb then front + [vtx[|vtx| - 1]] else front;
    assert mweb ==> rest[..|rest| - 1] == front;
    if HogExLast(vtx, mweb) {
      AllShortened(front);
    }
    if Shortened(rest) == front {
      forall i | 0 <= i < n
        ensures !front[i].isHogEx
      {
        NoHogExShort(rest, i);
      }
      AllShortened(front);
      forall i | 1 <= i < |vtx|
        ensures vtx[i].isHogEx == (mweb && i == |vtx| - 1)
      {
        if i <= n {
          assert front[i - 1] == vtx[i];
        }
      }
    }
  }

  /** How many short ids a block has: all but the prefilled transactions. */
  function Shorts(vtx: seq<Tx>, mweb: bool): int {
    |vtx| - if mweb then 2 else 1
  }

  /** The compact form: coinbase and integrating transaction prefilled, short ids for the rest. */
  ghost predicate IsCompact(sh: Shorten, vtx: seq<Tx>, mweb: bool, msg: Message)
    requires BlockOk(vtx, mweb)
  {
    && msg.prefilled == [Prefilled(0, vtx[0])] + (if mweb then [Prefilled(|vtx| - 2, vtx[|vtx| - 1])] else [])
    && |msg.shortIds| == Shorts(vtx, mweb)
    && forall i :: 0 <= i < |msg.shortIds| ==> msg.shortIds[i] == sh(vtx[i + 1].hash)
  }

  lemma CompactPositions(sh: Shorten, vtx: seq<Tx>, mweb: bool, msg: Message)
    requires BlockOk(vtx, mweb) && IsCompact(sh, vtx, mweb, msg)
    ensures |msg.shortIds| + |msg.prefilled| == |vtx|
    ensures Position(msg.prefilled, 0) == 0 && (mweb ==> Position(msg.prefilled, 1) == |vtx| - 1)
    ensures GoodPrefilled(msg.prefilled, |msg.shortIds|)
  {
    var pre := msg.prefilled;
    if mweb {
      assert Position(pre, 1) == Position(pre, 0) + pre[1].index + 1;
    }
    forall i | 0 <= i < |pre|
      ensures GoodEntry(pre, |msg.shortIds|, i)
    {
      if i == 1 {
        assert GoodEntry(pre, |msg.shortIds|, 1);
      }
    }
  }

  /** An ascending list that fills a range of numbers is the range. */
  lemma {:induction false} AscendingIs(slots: seq<nat>, from: nat, i: nat)
    requires i < |slots| && (forall a, b :: 0 <= a < b < |slots| ==> slots[a] < slots[b])
    requires forall a :: 0 <= a < |slots| ==> from <= slots[a] < from + |slots|
    ensures slots[i] == from + i
  {
    AtLeast(slots, from, i);
    AtMost(slots, from, i);
  }

  lemma {:induction false} AtLeast(slots: seq<nat>, from: nat, i: nat)
    requires i < |slots| && (forall a, b :: 0 <= a < b < |slots| ==> slots[a] < slots[b]) && from <= slots[0]
    ensures slots[i] >= from + i
  {
    if i > 0 {
      AtLeast(slots, from, i - 1);
      assert slots[i - 1] < slots[i];
    }
  }

  lemma {:induction false} AtMost(slots: seq<nat>, from: nat, i: nat)
    requires i < |slots| && (forall a, b :: 0 <= a < b < |slots| ==> slots[a] < slots[b])
    requires slots[|slots| - 1] < from + |slots|
    ensures slots[i] <= from + i
    decreases |slots| - i
  {
    if i < |slots| - 1 {
      AtMost(slots, from, i + 1);
      assert slots[i] < slots[i + 1];
    }
  }

  /** The short ids of a block take the positions between the prefilled transactions. */
  lemma ShortPositions(sh: Shorten, vtx: seq<Tx>, mweb: bool, msg: Message, avail: seq<Slot>, slots: seq<nat>, i: nat)
    requires BlockOk(vtx, mweb) && IsCompact(sh, vtx, mweb, msg)
    requires |avail| == |vtx| && Placed(avail, msg.prefilled, |msg.prefilled|) && Lists(avail, slots, |avail|)
    requires |slots| == |msg.shortIds| && i < |slots|
    ensures slots[i] == i + 1
  {
    hide Position, Empties;
    CompactPositions(sh, vtx, mweb, msg);
    assert avail[Position(msg.prefilled, 0)] != Empty;
    if mweb {
      assert avail[Position(msg.prefilled, 1)] != Empty;
    }
    forall a | 0 <= a < |slots|
      ensures 1 <= slots[a] < 1 + |slots|
    {
      assert avail[slots[a]] == Empty;
    }
    AscendingIs(slots, 1, i);
  }
}
