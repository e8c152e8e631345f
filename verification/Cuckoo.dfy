/** The cuckoo cache as the program has it: a table, packed collection flags, epoch flags and a counter
    that are updated in place. */
module Cuckoo {
  import opened Common
  import opened ByteBits
  import opened CuckooSpec

  /** bit_packed_atomic_flags: eight flags to a byte. */
  class BitFlags {
    const mem: array<bv8>
    ghost var bits: seq<bool>

    ghost predicate Valid()
      reads this, mem
    {
      |bits| <= 8 * mem.Length && forall s :: 0 <= s < |bits| ==> BitAt(mem[s / 8], s % 8) == bits[s]
    }

    constructor (size: nat)
      requires size < 0x1_0000_0000
      ensures fresh(mem) && |bits| == size && forall s :: 0 <= s < size ==> bits[s]
      ensures Valid() <==> size <= 0xffff_fff8
    {
      mem := new bv8[FlagBytes(size)](_ => 0xff);
      bits := seq(size, _ => true);
      new;
      FlagsFit(size);
      forall s | 0 <= s < size <= 8 * mem.Length
        ensures BitAt(mem[s / 8], s % 8)
      {
        AllSet(s % 8);
      }
    }

    method BitSet(s: nat)
      requires Valid() && s < |bits|
      modifies this, mem
      ensures Valid() && bits == old(bits)[s := true]
    {
      ghost var was := mem[..];
      mem[s / 8] := mem[s / 8] | Mask(s % 8);
      bits := bits[s := true];
      forall t | 0 <= t < |bits|
        ensures BitAt(mem[t / 8], t % 8) == bits[t]
      {
        assert BitAt(was[t / 8], t % 8) == old(bits)[t];
        if t / 8 == s / 8 {
          SetBit(was[s / 8], s % 8, t % 8);
        }
      }
    }

    method BitUnset(s: nat)
      requires Valid() && s < |bits|
      modifies this, mem
      ensures Valid() && bits == old(bits)[s := false]
    {
      ghost var was := mem[..];
      mem[s / 8] := mem[s / 8] & !Mask(s % 8);
      bits := bits[s := false];
      forall t | 0 <= t < |bits|
        ensures BitAt(mem[t / 8], t % 8) == bits[t]
      {
        assert BitAt(was[t / 8], t % 8) == old(bits)[t];
        if t / 8 == s / 8 {
          ClearBit(was[s / 8], s % 8, t % 8);
        }
      }
    }

    method BitIsSet(s: nat) returns (r: bool)
      requires Valid() && s < |bits|
      ensures r == bits[s]
    {
      r := Mask(s % 8) & mem[s / 8] != 0;
      assert Mask(s % 8) & mem[s / 8] == mem[s / 8] & Mask(s % 8);
    }
  }

  class Cache {
    const hash: Hashes
    const table: array<Element>
    const flags: BitFlags
    const epochFlags: array<bool>
    const epochSize: nat
    const depthLimit: nat
    var counter: nat

    /** The three arrays as one value. */
    ghost function T(): Table
      reads table, flags, epochFlags
    {
      Table(table[..], flags.bits, epochFlags[..])
    }

    ghost predicate Apart() {
      var a: object, b: object, c: object := table, flags.mem, epochFlags;
      a != b && b != c && a != c
    }

    /** The arrays are in order. */
    ghost predicate Ok()
      reads table, flags, flags.mem, epochFlags
    {
      Apart() && flags.Valid() && Sized(T()) && Placed(hash, T())
    }

    /** In every reachable state: elements lie where they belong, and recent entries and the counter
        stay within an epoch and the slack of a scan. */
    ghost predicate Valid()
      reads this, table, flags, flags.mem, epochFlags
    {
      Ok() && epochSize > 0 && depthLimit > 0 && Recents(T()) + counter <= epochSize + Slack(epochSize)
    }

    constructor (newSize: nat, depth: nat, h: Hashes)
      requires depth > 0 && newSize <= MAX_SIZE
      ensures epochSize == EpochSize(table.Length) && table.Length == if newSize < 2 then 2 else newSize
      ensures fresh(table) && fresh(flags) && fresh(flags.mem) && fresh(epochFlags)
      ensures Valid() <==> newSize <= 0xffff_fff8
      ensures Sized(T()) && forall x :: !Live(T(), x)
      ensures forall i :: 0 <= i < table.Length ==> table[i] == DEFAULT
    {
      var size := if newSize < 2 then 2 else newSize;
      hash, depthLimit := h, depth;
      table := new Element[size](_ => DEFAULT);
      flags := new BitFlags(size);
      epochFlags := new bool[size](_ => false);
      epochSize, counter := EpochSize(size), EpochSize(size);
      new;
      NoneRecent(T(), size);
    }

    /** Ages the entries when the latest epoch is full; scans only when the counter has run out. */
    method EpochCheck()
      requires Valid()
      modifies this`counter, flags, flags.mem, epochFlags
      ensures Ok() && table[..] == old(table[..])
      ensures T() == old(T()) || Aged(old(T()), T())
      ensures Recents(T()) + 1 + counter <= epochSize + Slack(epochSize)
    {
      hide Placed, RecentLive;
      if counter != 0 {
        counter := counter - 1;
        return;
      }
      ghost var t := T();
      var unused := CountUnused();
      if unused >= epochSize {
        Age();
        counter := epochSize;
        ScanBound(epochSize, unused, 1, counter);
      } else {
        counter := CounterAfterScan(epochSize, unused);
        ScanBound(epochSize, unused, unused + 1, counter);
      }
    }

    method CountUnused() returns (unused: nat)
      requires Ok()
      ensures unused == Recents(T())
    {
      hide Placed, BitFlags.Valid;
      unused := 0;
      var i := 0;
      while i < table.Length
        invariant 0 <= i <= table.Length && unused == RecentLive(T(), i)
      {
        var collected := flags.BitIsSet(i);
        unused := unused + One(epochFlags[i] && !collected);
        i := i + 1;
      }
    }

    method Age()
      requires Ok()
      modifies flags, flags.mem, epochFlags
      ensures Ok() && Aged(old(T()), T()) && Recents(T()) == 0
    {
      hide Placed, BitFlags.Valid, RecentLive;
      ghost var t := T();
      var i := 0;
      while i < table.Length
        invariant 0 <= i <= table.Length && flags.Valid() && |flags.bits| == table.Length
        invariant forall j :: 0 <= j < table.Length ==> epochFlags[j] == (t.recent[j] && j >= i)
        invariant forall j :: 0 <= j < table.Length ==> flags.bits[j] == (t.dead[j] || (j < i && !t.recent[j]))
        modifies flags, flags.mem, epochFlags
      {
        if epochFlags[i] {
          epochFlags[i] := false;
        } else {
          flags.BitSet(i);
        }
        i := i + 1;
      }
      AgedKeeps(hash, t, T());
    }

    /** The first of the locations that holds the element; 8 if none does. */
    method FindElement(locs: seq<nat>, e: Element) returns (k: nat)
      requires |locs| == 8 && forall j :: 0 <= j < 8 ==> locs[j] < table.Length
      ensures k <= 8 && (k < 8 ==> table[locs[k]] == e)
      ensures forall j :: 0 <= j < k ==> table[locs[j]] != e
    {
      k := 0;
      while k < 8
        invariant 0 <= k <= 8 && forall j :: 0 <= j < k ==> table[locs[j]] != e
      {
        if table[locs[k]] == e {
          return;
        }
        k := k + 1;
      }
    }

    /** The first of the locations that may be collected; 8 if none may. */
    method FindFree(locs: seq<nat>) returns (k: nat)
      requires flags.Valid() && |locs| == 8 && forall j :: 0 <= j < 8 ==> locs[j] < |flags.bits|
      ensures k <= 8 && (k < 8 ==> flags.bits[locs[k]])
      ensures forall j :: 0 <= j < k ==> !flags.bits[locs[j]]
    {
      k := 0;
      while k < 8
        invariant 0 <= k <= 8 && forall j :: 0 <= j < k ==> !flags.bits[locs[j]]
      {
        var free := flags.BitIsSet(locs[k]);
        if free {
          return;
        }
        k := k + 1;
      }
    }

    method PleaseKeep(l: nat, epoch: bool)
      requires Apart() && flags.Valid() && Sized(T()) && l < table.Length
      modifies flags, flags.mem, epochFlags
      ensures flags.Valid()
      ensures T() == old(T()).(dead := old(T()).dead[l := false], recent := old(T()).recent[l := epoch])
    {
      hide BitFlags.Valid;
      flags.BitUnset(l);
      epochFlags[l] := epoch;
    }

    method PutAt(l: nat, hand: Element, epoch: bool)
      requires Apart() && flags.Valid() && Sized(T()) && l < table.Length
      modifies table, flags, flags.mem, epochFlags
      ensures flags.Valid() && T() == Put(old(T()), l, hand, epoch)
    {
      hide BitFlags.Valid;
      table[l] := hand;
      PleaseKeep(l, epoch);
    }

    method SwapAt(l: nat, hand: Element, epoch: bool) returns (hand2: Element, epoch2: bool)
      requires Apart() && flags.Valid() && Sized(T()) && l < table.Length
      modifies table, epochFlags
      ensures flags.Valid() && T() == Swap(old(T()), l, hand, epoch)
      ensures hand2 == old(T()).slots[l] && epoch2 == old(T()).recent[l]
    {
      hide BitFlags.Valid;
      hand2, epoch2 := table[l], epochFlags[l];
      table[l] := hand;
      epochFlags[l] := epoch;
    }

    /** A newcomer goes to a free location, or displaces another element, which then has to find one. */
    method Displace(e: Element, ghost start: Table)
      requires Ok() && start == T() && (e != DEFAULT ==> Absent(start, e))
      modifies table, flags, flags.mem, epochFlags
      ensures Ok() && Sized(start) && Inserted(start, T(), e) && Recents(T()) <= Recents(start) + 1
      ensures Known(start, T(), e)
    {
      hide BitFlags.Valid, Placed, Live, Absent, RecentLive, Locs, InHand, Known;
      KnownStart(start, e);
      Taken(hash, start, e);
      var hand, epoch, depth, lastLoc := e, true, 0, INVALID;
      while depth < depthLimit
        invariant flags.Valid() && Sized(T()) && InHand(hash, start, e, T(), hand, epoch)
        invariant Known(start, T(), e) && (hand == e || hand in start.slots)
      {
        var locs := Locs(hash, table.Length, hand);
        var k := FindFree(locs);
        if k < 8 {
          PutKeeps(hash, start, e, T(), hand, epoch, locs[k]);
          KnownSwap(start, T(), e, locs[k], hand, epoch);
          PutAt(locs[k], hand, epoch);
          return;
        }
        var next := AfterLast(locs, lastLoc);
        lastLoc := locs[next];
        SwapKeeps(hash, start, e, T(), hand, epoch, locs[next]);
        KnownSwap(start, T(), e, locs[next], hand, epoch);
        hand, epoch := SwapAt(locs[next], hand, epoch);
        depth := depth + 1;
      }
      HandPlaced(hash, start, e, T(), hand, epoch);
      DropKeeps(hash, start, e, T(), hand, epoch);
    }

    /** After the epoch check: the newcomer is live and at most one element, perhaps the newcomer
        itself, is not live any more. */
    method Insert(e: Element) returns (ghost checked: Table)
      requires Valid()
      modifies this`counter, table, flags, flags.mem, epochFlags
      ensures Valid()
      ensures Sized(checked) && (checked == old(T()) || (old(Sized(T())) && Aged(old(T()), checked)))
      ensures Inserted(checked, T(), e) && Known(old(T()), T(), e)
    {
      hide BitFlags.Valid, Placed, Live, Absent, RecentLive, Locs, Inserted;
      EpochCheck();
      checked := T();
      var locs := Locs(hash, table.Length, e);
      var k := FindElement(locs, e);
      if k < 8 {
        ReviveKeeps(hash, T(), locs[k]);
        PleaseKeep(locs[k], true);
        AllLive(checked, T(), e);
        return;
      }
      if e != DEFAULT {
        NotThere(hash, T(), e);
      }
      Displace(e, checked);
    }

    /** A live element is always reported, and another element exactly if it is in the table; with
        `erase`, its slot may then be collected. */
    method Contains(e: Element, erase: bool) returns (r: bool)
      requires Valid()
      modifies flags, flags.mem
      ensures Valid() && table[..] == old(table[..])
      ensures r <==> exists k :: 0 <= k < 8 && table[Locs(hash, table.Length, e)[k]] == e
      ensures old(Live(T(), e)) ==> r
      ensures e != DEFAULT ==> (r <==> !Absent(T(), e))
      ensures forall x :: x != e ==> (Live(T(), x) <==> old(Live(T(), x)))
      ensures if r && erase then e != DEFAULT ==> !Live(T(), e) else T() == old(T())
    {
      hide BitFlags.Valid, Placed, Live, RecentLive, Locs;
      var locs := Locs(hash, table.Length, e);
      var k := FindElement(locs, e);
      if k == 8 {
        if Live(T(), e) {
          LiveFound(hash, T(), e);
        }
        if e != DEFAULT {
          NotThere(hash, T(), e);
        }
        return false;
      }
      if erase {
        EraseKeeps(hash, T(), locs[k]);
        ghost var t := T();
        flags.BitSet(locs[k]);
        assert T() == Erase(t, locs[k]);
      }
      return true;
    }
  }

  // ----- Nothing is reported that was not inserted -----

  datatype Op = Insertion(e: Element) | Question(e: Element, erase: bool)

  /** One of the first `n` operations inserts the element. */
  predicate InsertedBefore(ops: seq<Op>, n: nat, e: Element)
    requires n <= |ops|
  {
    Insertion(e) in ops[..n]
  }

  /** Every slot holds what it was made with, or what was inserted before. */
  ghost predicate OnlyInserted(slots: seq<Element>, ops: seq<Op>, n: nat)
    requires n <= |ops|
  {
    forall i :: 0 <= i < |slots| ==> slots[i] == DEFAULT || InsertedBefore(ops, n, slots[i])
  }

  lemma OnlyInsertedNext(before: Table, after: Table, ops: seq<Op>, n: nat, e: Element)
    requires n < |ops| && ops[n] == Insertion(e) && OnlyInserted(before.slots, ops, n) && Known(before, after, e)
    ensures OnlyInserted(after.slots, ops, n + 1)
  {
    assert ops[..n + 1] == ops[..n] + [ops[n]];
  }

  lemma OnlyInsertedSame(slots: seq<Element>, ops: seq<Op>, n: nat)
    requires n < |ops| && OnlyInserted(slots, ops, n)
    ensures OnlyInserted(slots, ops, n + 1)
  {
    assert ops[..n + 1] == ops[..n] + [ops[n]];
  }

  /** Any operations on a new cache: whatever element a question finds, other than the default one,
      was inserted before. */
  method Serve(size: nat, depth: nat, h: Hashes, ops: seq<Op>) returns (answers: seq<bool>)
    requires depth > 0 && size <= 0xffff_fff8
    ensures |answers| == |ops|
    ensures forall i :: 0 <= i < |ops| && ops[i].Question? && ops[i].e != DEFAULT && answers[i] ==>
      InsertedBefore(ops, i, ops[i].e)
  {
    hide BitFlags.Valid, Placed, Live, RecentLive, Locs, Inserted, Known, InsertedBefore;
    var c := new Cache(size, depth, h);
    answers := [];
    var n := 0;
    while n < |ops|
      invariant 0 <= n <= |ops| && |answers| == n && c.Valid() && OnlyInserted(c.table[..], ops, n)
      invariant fresh(c) && fresh(c.table) && fresh(c.flags) && fresh(c.flags.mem) && fresh(c.epochFlags)
      invariant forall i :: 0 <= i < n && ops[i].Question? && ops[i].e != DEFAULT && answers[i] ==>
        InsertedBefore(ops, i, ops[i].e)
    {
      var r := false;
      ghost var before := c.T();
      match ops[n] {
        case Insertion(e) =>
          ghost var checked := c.Insert(e);
          OnlyInsertedNext(before, c.T(), ops, n, e);
        case Question(e, erase) =>
          r := c.Contains(e, erase);
          OnlyInsertedSame(c.table[..], ops, n);
      }
      answers := answers + [r];
      n := n + 1;
    }
  }

  /** A new cache reports the default element, which nobody put in. */
  method EmptyReportsDefault(size: nat, depth: nat, h: Hashes) returns (r: bool)
    requires depth > 0 && size <= 0xffff_fff8
    ensures r
  {
    var c := new Cache(size, depth, h);
    assert c.table[Locs(c.hash, c.table.Length, DEFAULT)[0]] == DEFAULT;
    r := c.Contains(DEFAULT, false);
  }

  /** What was found once, and perhaps given up for collection, is still found. */
  method FoundAfterErase(c: Cache, e: Element) returns (r: bool)
    requires c.Valid()
    modifies c`counter, c.table, c.flags, c.flags.mem, c.epochFlags
    ensures c.Valid() && r
  {
    ghost var checked := c.Insert(e);
    var found := c.Contains(e, true);
    if !found {
      return true;
    }
    r := c.Contains(e, false);
  }

  method AfterLast(locs: seq<nat>, last: nat) returns (next: nat)
    requires |locs| == 8
    ensures next == NextIndex(locs, last)
  {
    var k := IndexOf(locs, last);
    next := (1 + k) % 8;
  }

  method IndexOf(locs: seq<nat>, x: nat) returns (k: nat)
    ensures k == FirstAt(locs, x)
  {
    k := 0;
    while k < |locs|
      invariant 0 <= k <= |locs| && forall j :: 0 <= j < k ==> locs[j] != x
    {
      if locs[k] == x {
        return;
      }
      k := k + 1;
    }
  }

  lemma HandPlaced(h: Hashes, start: Table, e: Element, t: Table, hand: Element, epoch: bool)
    requires InHand(h, start, e, t, hand, epoch)
    ensures Sized(t) && Placed(h, t)
  {
  }

  lemma KnownStart(start: Table, e: Element)
    ensures Known(start, start, e)
  {
  }

  lemma AllLive(before: Table, after: Table, e: Element)
    requires Sized(before) && Sized(after) && forall x :: Live(after, x) <==> Live(before, x) || x == e
    ensures Inserted(before, after, e)
  {
  }
}
