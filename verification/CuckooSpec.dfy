/** The cuckoo cache as values: what a displacement chain and an epoch change do to the live contents. */
module CuckooSpec {
  import opened Common

  datatype Element = Element(id: nat)

  /** What an unused slot holds. */
  const DEFAULT := Element(0)

  /** Slots, which of them may be collected, and which were filled in the latest epoch. */
  datatype Table = Table(slots: seq<Element>, dead: seq<bool>, recent: seq<bool>)

  /** Slots are numbered in 32 bits. */
  const MAX_SIZE: nat := 0xffff_ffff

  ghost predicate Sized(t: Table) {
    2 <= |t.slots| <= MAX_SIZE && |t.dead| == |t.slots| && |t.recent| == |t.slots|
  }

  /** The eight locations of an element, by hash functions that are left open. */
  type Hashes = (nat, Element) -> nat

  function Locs(h: Hashes, size: nat, e: Element): (r: seq<nat>)
    requires size > 0
    ensures |r| == 8 && forall k :: 0 <= k < 8 ==> r[k] < size
  {
    [FastMod(h(0, e), size), FastMod(h(1, e), size), FastMod(h(2, e), size), FastMod(h(3, e), size),
     FastMod(h(4, e), size), FastMod(h(5, e), size), FastMod(h(6, e), size), FastMod(h(7, e), size)]
  }

  // ----- The invariant -----

  /** Every element lies at one of its locations and none lies in two slots.  The default element is
      what unused slots hold, so of this one only live copies lie at their locations. */
  ghost predicate Placed(h: Hashes, t: Table)
    requires Sized(t)
  {
    && (forall i :: 0 <= i < |t.slots| && (t.slots[i] != DEFAULT || !t.dead[i]) ==>
          i in Locs(h, |t.slots|, t.slots[i]))
    && (forall i, j :: 0 <= i < j < |t.slots| && t.slots[i] == t.slots[j] ==> t.slots[i] == DEFAULT)
  }

  /** The cache holds an element it will not give up to a newcomer without moving it. */
  ghost predicate Live(t: Table, x: Element)
    requires Sized(t)
  {
    exists i :: 0 <= i < |t.slots| && !t.dead[i] && t.slots[i] == x
  }

  ghost predicate Absent(t: Table, x: Element) {
    forall i :: 0 <= i < |t.slots| ==> t.slots[i] != x
  }

  /** Live slots of the latest epoch, among the first `n`. */
  function RecentLive(t: Table, n: nat): nat
    requires n <= |t.dead| && n <= |t.recent|
  {
    if n == 0 then 0 else RecentLive(t, n - 1) + One(t.recent[n - 1] && !t.dead[n - 1])
  }

  ghost function Recents(t: Table): nat
    requires Sized(t)
  {
    RecentLive(t, |t.slots|)
  }

  /** One slot changed: the count changes by what that slot contributes. */
  lemma {:induction false} CountChange(t: Table, u: Table, l: nat, n: nat)
    requires |t.dead| == |t.recent| == |u.dead| == |u.recent| && n <= |t.dead| && l < |t.dead|
    requires forall i :: 0 <= i < n && i != l ==> t.recent[i] == u.recent[i] && t.dead[i] == u.dead[i]
    ensures RecentLive(u, n) == RecentLive(t, n) +
      if l < n then One(u.recent[l] && !u.dead[l]) - One(t.recent[l] && !t.dead[l]) else 0
  {
    if n > 0 {
      CountChange(t, u, l, n - 1);
    }
  }

  // ----- A displacement chain -----

  /** An element is in hand; with it the live contents are those of the start and the newcomer. */
  ghost predicate InHand(h: Hashes, start: Table, e: Element, t: Table, hand: Element, epoch: bool) {
    && Sized(start) && Sized(t) && |t.slots| == |start.slots| && Placed(h, t)
    && (hand != DEFAULT ==> Absent(t, hand))
    && (forall x :: Live(t, x) || x == hand <==> Live(start, x) || x == e)
    && Recents(t) + One(epoch) == Recents(start) + 1
  }

  /** Hand and slot exchanged. */
  function Swap(t: Table, l: nat, hand: Element, epoch: bool): Table
    requires l < |t.slots| && l < |t.recent|
  {
    t.(slots := t.slots[l := hand], recent := t.recent[l := epoch])
  }

  lemma SwapKeeps(h: Hashes, start: Table, e: Element, t: Table, hand: Element, epoch: bool, l: nat)
    requires InHand(h, start, e, t, hand, epoch) && l < |t.slots| && !t.dead[l] && l in Locs(h, |t.slots|, hand)
    ensures InHand(h, start, e, Swap(t, l, hand, epoch), t.slots[l], t.recent[l])
  {
    hide Locs;
    var u, other := Swap(t, l, hand, epoch), t.slots[l];
    CountChange(t, u, l, |t.slots|);
    forall x
      ensures Live(u, x) || x == other <==> Live(t, x) || x == hand
    {
      SwapLive(t, l, hand, epoch, x);
    }
    SwapPlaced(h, t, hand, epoch, l);
  }

  lemma SwapLive(t: Table, l: nat, hand: Element, epoch: bool, x: Element)
    requires Sized(t) && l < |t.slots| && !t.dead[l]
    ensures Live(Swap(t, l, hand, epoch), x) || x == t.slots[l] <==> Live(t, x) || x == hand
  {
    var u := Swap(t, l, hand, epoch);
    assert u.slots[l] == hand && !u.dead[l];
    if Live(t, x) {
      var i :| 0 <= i < |t.slots| && !t.dead[i] && t.slots[i] == x;
      assert i != l ==> u.slots[i] == x;
    }
    if Live(u, x) {
      var i :| 0 <= i < |u.slots| && !u.dead[i] && u.slots[i] == x;
      assert i != l ==> t.slots[i] == x;
    }
  }

  lemma SwapPlaced(h: Hashes, t: Table, hand: Element, epoch: bool, l: nat)
    requires Sized(t) && Placed(h, t) && (hand != DEFAULT ==> Absent(t, hand))
    requires l < |t.slots| && l in Locs(h, |t.slots|, hand)
    ensures Placed(h, Swap(t, l, hand, epoch))
    ensures t.slots[l] != DEFAULT ==> Absent(Swap(t, l, hand, epoch), t.slots[l])
  {
    hide Locs;
  }

  /** The hand put into a slot that may be collected. */
  function Put(t: Table, l: nat, hand: Element, epoch: bool): Table
    requires l < |t.slots| && l < |t.recent| && l < |t.dead|
  {
    Table(t.slots[l := hand], t.dead[l := false], t.recent[l := epoch])
  }

  /** A chain that ends in a free slot: all that was live still is, and the newcomer. */
  lemma PutKeeps(h: Hashes, start: Table, e: Element, t: Table, hand: Element, epoch: bool, l: nat)
    requires InHand(h, start, e, t, hand, epoch) && l < |t.slots| && t.dead[l] && l in Locs(h, |t.slots|, hand)
    ensures var u := Put(t, l, hand, epoch);
      && Sized(u) && Placed(h, u) && Recents(u) == Recents(start) + 1
      && forall x :: Live(u, x) <==> Live(start, x) || x == e
  {
    hide Locs;
    var u := Put(t, l, hand, epoch);
    CountChange(t, u, l, |t.slots|);
    forall x
      ensures Live(u, x) <==> Live(t, x) || x == hand
    {
      PutLive(t, l, hand, epoch, x);
    }
  }

  lemma PutLive(t: Table, l: nat, hand: Element, epoch: bool, x: Element)
    requires Sized(t) && l < |t.slots| && t.dead[l]
    ensures Live(Put(t, l, hand, epoch), x) <==> Live(t, x) || x == hand
  {
    var u := Put(t, l, hand, epoch);
    assert u.slots[l] == hand && !u.dead[l];
    if Live(t, x) {
      var i :| 0 <= i < |t.slots| && !t.dead[i] && t.slots[i] == x;
      assert u.slots[i] == x;
    }
    if Live(u, x) {
      var i :| 0 <= i < |u.slots| && !u.dead[i] && u.slots[i] == x;
      assert i != l ==> t.slots[i] == x;
    }
  }

  /** What an insertion may do to the live contents: the newcomer comes, at most one element goes. */
  ghost predicate Inserted(before: Table, after: Table, e: Element)
    requires Sized(before) && Sized(after)
  {
    || (forall x :: Live(after, x) <==> Live(before, x) || x == e)
    || (exists lost :: Without(before, after, e, lost))
  }

  ghost predicate Without(before: Table, after: Table, e: Element, lost: Element)
    requires Sized(before) && Sized(after)
  {
    forall x :: Live(after, x) <==> (Live(before, x) || x == e) && x != lost
  }

  /** No slot holds anything but what some slot held before, and the newcomer. */
  ghost predicate Known(before: Table, after: Table, e: Element) {
    forall i :: 0 <= i < |after.slots| ==> after.slots[i] in before.slots || after.slots[i] == e
  }

  lemma KnownSwap(start: Table, t: Table, e: Element, l: nat, hand: Element, epoch: bool)
    requires Sized(t) && l < |t.slots| && Known(start, t, e) && (hand == e || hand in start.slots)
    ensures Known(start, Swap(t, l, hand, epoch), e) && Known(start, Put(t, l, hand, epoch), e)
    ensures t.slots[l] == e || t.slots[l] in start.slots
  {
  }

  /** A chain that runs out of depth loses what it has in hand, which may be the newcomer. */
  lemma DropKeeps(h: Hashes, start: Table, e: Element, t: Table, hand: Element, epoch: bool)
    requires InHand(h, start, e, t, hand, epoch)
    ensures Inserted(start, t, e) && Recents(t) <= Recents(start) + 1
  {
    assert hand != DEFAULT ==> !Live(t, hand);
    hide Live, Placed, Absent;
    if !Live(t, hand) {
      assert Without(start, t, e, hand);
    }
  }

  /** An element not at any of its locations is nowhere. */
  lemma NotThere(h: Hashes, t: Table, e: Element)
    requires Sized(t) && Placed(h, t) && e != DEFAULT
    requires forall k :: 0 <= k < 8 ==> t.slots[Locs(h, |t.slots|, e)[k]] != e
    ensures Absent(t, e)
  {
    var locs := Locs(h, |t.slots|, e);
    hide Locs;
    assert forall i :: 0 <= i < |t.slots| && t.slots[i] == e ==> i in locs;
    assert forall i :: i in locs ==> t.slots[i] != e;
  }

  lemma Taken(h: Hashes, t: Table, e: Element)
    requires Sized(t) && Placed(h, t) && (e != DEFAULT ==> Absent(t, e))
    ensures InHand(h, t, e, t, e, true)
  {
  }

  /** An element found again is kept, as a recent one. */
  function Revive(t: Table, l: nat): Table
    requires l < |t.recent| && l < |t.dead|
  {
    t.(dead := t.dead[l := false], recent := t.recent[l := true])
  }

  lemma ReviveKeeps(h: Hashes, t: Table, l: nat)
    requires Sized(t) && Placed(h, t) && l < |t.slots| && l in Locs(h, |t.slots|, t.slots[l])
    ensures var u := Revive(t, l);
      && Sized(u) && Placed(h, u) && Recents(u) <= Recents(t) + 1
      && forall x :: Live(u, x) <==> Live(t, x) || x == t.slots[l]
  {
    hide Locs;
    var u := Revive(t, l);
    CountChange(t, u, l, |t.slots|);
    forall x
      ensures Live(u, x) <==> Live(t, x) || x == t.slots[l]
    {
      ReviveLive(t, l, x);
    }
  }

  lemma ReviveLive(t: Table, l: nat, x: Element)
    requires Sized(t) && l < |t.slots|
    ensures Live(Revive(t, l), x) <==> Live(t, x) || x == t.slots[l]
  {
    var u := Revive(t, l);
    assert u.slots[l] == t.slots[l] && !u.dead[l];
    if Live(t, x) {
      var i :| 0 <= i < |t.slots| && !t.dead[i] && t.slots[i] == x;
      assert u.slots[i] == x && !u.dead[i];
    }
    if Live(u, x) {
      var i :| 0 <= i < |u.slots| && !u.dead[i] && u.slots[i] == x;
      assert i != l ==> !t.dead[i] && t.slots[i] == x;
    }
  }

  /** A slot given up for collection. */
  function Erase(t: Table, l: nat): Table
    requires l < |t.dead|
  {
    t.(dead := t.dead[l := true])
  }

  /** A second live copy keeps an element live; only the default element can have one. */
  lemma EraseKeeps(h: Hashes, t: Table, l: nat)
    requires Sized(t) && Placed(h, t) && l < |t.slots|
    ensures var u := Erase(t, l);
      && Sized(u) && Placed(h, u) && Recents(u) <= Recents(t)
      && (forall x :: x != t.slots[l] ==> (Live(u, x) <==> Live(t, x)))
      && (t.slots[l] != DEFAULT ==> !Live(u, t.slots[l]))
  {
    hide Locs;
    var u := Erase(t, l);
    CountChange(t, u, l, |t.slots|);
    forall x | x != t.slots[l]
      ensures Live(u, x) <==> Live(t, x)
    {
      if Live(t, x) {
        var i :| 0 <= i < |t.slots| && !t.dead[i] && t.slots[i] == x;
        assert !u.dead[i] && u.slots[i] == x;
      }
      if Live(u, x) {
        var i :| 0 <= i < |u.slots| && !u.dead[i] && u.slots[i] == x;
        assert !t.dead[i] && t.slots[i] == x;
      }
    }
  }

  /** A live element, the default one included, lies at one of its locations. */
  lemma LiveFound(h: Hashes, t: Table, e: Element)
    requires Sized(t) && Placed(h, t) && Live(t, e)
    ensures exists k :: 0 <= k < 8 && t.slots[Locs(h, |t.slots|, e)[k]] == e
  {
    var i :| 0 <= i < |t.slots| && !t.dead[i] && t.slots[i] == e;
    var locs := Locs(h, |t.slots|, e);
    hide Locs;
    var k :| 0 <= k < |locs| && locs[k] == i;
    assert t.slots[locs[k]] == e;
  }

  // ----- Flags -----

  /** The bytes for the flags of all slots: eight to a byte, padded in 32 bits. */
  function FlagBytes(size: nat): nat {
    (size + 7) % 0x1_0000_0000 / 8
  }

  /** There is a flag for every slot, unless the padding wraps. */
  lemma FlagsFit(size: nat)
    requires size < 0x1_0000_0000
    ensures size <= 8 * FlagBytes(size) <==> size <= 0xffff_fff8
  {
  }

  lemma FlagsFail()
    ensures FlagBytes(0xffff_fffe) == 0
  {
  }

  // ----- The next location of a chain -----

  /** An index that no slot has. */
  const INVALID: nat := 0xffff_ffff

  /** The first index at which a list holds a value; its length if it does not. */
  function FirstAt(locs: seq<nat>, x: nat): (r: nat)
    ensures r <= |locs| && (r < |locs| ==> locs[r] == x) && forall j :: 0 <= j < r ==> locs[j] != x
  {
    if locs == [] || locs[0] == x then 0 else 1 + FirstAt(locs[1..], x)
  }

  function NextIndex(locs: seq<nat>, last: nat): (r: nat)
    requires |locs| == 8
    ensures r < 8
  {
    (1 + FirstAt(locs, last)) % 8
  }

  /** Which of the eight locations is taken next: the one after the first that was the last one,
      the second if none was, and the first exactly after the eighth. */
  lemma NextIndexIs(locs: seq<nat>, last: nat, k: nat)
    requires |locs| == 8 && k < 8
    ensures locs[k] == last && (forall j :: 0 <= j < k ==> locs[j] != last) ==> NextIndex(locs, last) == (k + 1) % 8
    ensures last !in locs ==> NextIndex(locs, last) == 1
    ensures NextIndex(locs, last) == 0 <==> locs[7] == last && last !in locs[..7]
  {
    var f := FirstAt(locs, last);
    if f == 7 {
      assert last !in locs[..7];
    } else if f < 7 {
      assert locs[..7][f] == last;
    }
    if locs[k] == last && (forall j :: 0 <= j < k ==> locs[j] != last) {
      assert f == k;
    }
    if last !in locs {
      assert f == 8;
    }
  }

  /** A chain begins with the second location of the newcomer. */
  lemma FirstDisplacement(h: Hashes, size: nat, e: Element)
    requires 0 < size <= MAX_SIZE
    ensures NextIndex(Locs(h, size, e), INVALID) == 1
  {
    var locs := Locs(h, size, e);
    hide Locs;
    assert INVALID !in locs;
    NextIndexIs(locs, INVALID, 0);
  }

  /** One displacement puts the hand into a slot; the next one is that of the element taken out there.
      It takes the same element out again, undoing the first, if and only if the location that follows
      the slot among those of the element taken out is the same slot. */
  lemma MovesOn(h: Hashes, t: Table, hand: Element, epoch: bool, l: nat)
    requires Sized(t) && Absent(t, hand) && l < |t.slots|
    ensures var other := t.slots[l];
      var u, locs := Swap(t, l, hand, epoch), Locs(h, |t.slots|, other);
      var next := locs[NextIndex(locs, l)];
      && (u.slots[next] == hand <==> locs[(FirstAt(locs, l) + 1) % 8] == l)
      && (u.slots[next] == hand <==> Swap(u, next, other, t.recent[l]) == t)
  {
    var locs := Locs(h, |t.slots|, t.slots[l]);
    hide Locs, FirstAt, Swap, Absent;
    SwapTwice(t, hand, epoch, l, locs[NextIndex(locs, l)]);
  }

  lemma SwapTwice(t: Table, hand: Element, epoch: bool, l: nat, next: nat)
    requires Sized(t) && Absent(t, hand) && l < |t.slots| && next < |t.slots|
    ensures var u := Swap(t, l, hand, epoch);
      && (u.slots[next] == hand <==> next == l)
      && (Swap(u, next, t.slots[l], t.recent[l]) == t <==> next == l)
  {
    var u := Swap(t, l, hand, epoch);
    var back := Swap(u, next, t.slots[l], t.recent[l]);
    assert u.slots[l] == hand && t.slots[l] != hand;
    if next == l {
      assert back.slots == t.slots && back.recent == t.recent;
    } else {
      assert back.slots[l] == hand;
    }
  }

  /** All eight locations are slot 0; it holds one element and another comes: the two displace each
      other in turn. */
  lemma MovesBack()
    ensures var h: Hashes := (k, e) => 0;
      var t := Table([Element(1), DEFAULT], [false, true], [true, false]);
      var locs := Locs(h, 2, Element(1));
      && Sized(t) && Placed(h, t) && Absent(t, Element(2)) && 0 in Locs(h, 2, Element(2))
      && (forall i :: i in Locs(h, 2, Element(2)) ==> !t.dead[i])
      && Swap(t, 0, Element(2), true).slots[locs[NextIndex(locs, 0)]] == Element(2)
  {
    var h: Hashes := (k, e) => 0;
    assert Locs(h, 2, Element(1)) == [0, 0, 0, 0, 0, 0, 0, 0];
    assert Locs(h, 2, Element(2)) == [0, 0, 0, 0, 0, 0, 0, 0];
  }

  // ----- Epochs -----

  /** An epoch: 45 percent of the size, computed in 32 bits, and at least one. */
  function EpochSize(size: nat): (r: nat)
    ensures r > 0
  {
    var part := (45 * size) % 0x1_0000_0000 / 100;
    if part > 1 then part else 1
  }

  /** It is 45 percent for three slots or more, as long as the product fits in 32 bits. */
  lemma EpochShare(size: nat)
    ensures EpochSize(size) == 45 * size / 100 <==> 3 <= size && 45 * size < 0x1_0000_0000
  {
  }

  lemma EpochShareFails()
    ensures EpochSize(95443718) == 1 && 45 * 95443718 / 100 == 42949673
  {
  }

  /** A new epoch: recent entries become old ones, old ones may be collected. */
  ghost predicate Aged(t: Table, u: Table)
    requires Sized(t) && Sized(u)
  {
    && u.slots == t.slots
    && forall i :: 0 <= i < |t.slots| ==> u.recent[i] == false && u.dead[i] == (t.dead[i] || !t.recent[i])
  }

  lemma AgedKeeps(h: Hashes, t: Table, u: Table)
    requires Sized(t) && Sized(u) && Placed(h, t) && Aged(t, u)
    ensures Placed(h, u) && Recents(u) == 0
  {
    hide Locs;
    NoneRecent(u, |u.slots|);
  }

  lemma {:induction false} NoneRecent(u: Table, n: nat)
    requires n <= |u.dead| && n <= |u.recent| && forall i :: 0 <= i < n ==> u.recent[i] == false || u.dead[i]
    ensures RecentLive(u, n) == 0
  {
    if n > 0 {
      NoneRecent(u, n - 1);
    }
  }

  /** The slack that scans of a minimal size allow. */
  function Slack(epochSize: nat): nat {
    if epochSize / 16 > 1 then epochSize / 16 else 1
  }

  function CounterAfterScan(epochSize: nat, unused: nat): nat {
    var need := if epochSize > unused then epochSize - unused else 0;
    var least := if epochSize / 16 > need then epochSize / 16 else need;
    if least > 1 then least else 1
  }

  /** One insertion after a scan leaves recent entries and counter within bounds. */
  lemma ScanBound(epochSize: nat, unused: nat, recents: nat, counter: nat)
    requires epochSize > 0
    requires if unused >= epochSize then recents <= 1 && counter == epochSize
             else recents <= unused + 1 && counter == CounterAfterScan(epochSize, unused)
    ensures recents + counter <= epochSize + Slack(epochSize)
  {
  }
}
