/** The rolling Bloom filter: two bits for each position, spread over two words, say in which of
    three generations the position was last set. */
module Bloom {
  import opened Common

  type Key = seq<bv8>

  // ----- Words -----

  /** A 64-bit word as its bits, lowest first; the bitwise operators act on each bit. */
  type Word = w: seq<bool> | |w| == 64 witness seq(64, _ => false)

  type BitIndex = b: nat | b < 64

  const ZERO: Word := seq(64, _ => false)

  function And(x: Word, y: Word): Word {
    seq(64, i requires 0 <= i < 64 => x[i] && y[i])
  }

  function Or(x: Word, y: Word): Word {
    seq(64, i requires 0 <= i < 64 => x[i] || y[i])
  }

  function Xor(x: Word, y: Word): Word {
    seq(64, i requires 0 <= i < 64 => x[i] != y[i])
  }

  function Not(x: Word): Word {
    seq(64, i requires 0 <= i < 64 => !x[i])
  }

  /** Zero or one, shifted left. */
  function At(v: bool, bit: BitIndex): Word {
    seq(64, i => v && i == bit)
  }

  /** Zero minus zero or one: no bits, or all. */
  function Spread(v: bool): Word {
    seq(64, _ => v)
  }

  /** One bit replaced. */
  function Put(w: Word, bit: BitIndex, v: bool): Word {
    Or(And(w, Not(At(true, bit))), At(v, bit))
  }

  lemma PutBit(w: Word, bit: BitIndex, v: bool)
    ensures Put(w, bit, v) == w[bit := v]
  {
  }

  /** Two bits as a number. */
  function Two(p1: Word, p2: Word, bit: BitIndex): (r: nat)
    ensures r <= 3
  {
    (if p1[bit] then 1 else 0) + (if p2[bit] then 2 else 0)
  }

  /** Keeps the positions whose number is not `g`. */
  function WipeMask(p1: Word, p2: Word, g: nat): Word {
    Or(Xor(p1, Spread(g % 2 == 1)), Xor(p2, Spread(g / 2 == 1)))
  }

  lemma WipeBits(p1: Word, p2: Word, g: nat, j: BitIndex)
    requires 1 <= g <= 3
    ensures var mask := WipeMask(p1, p2, g); var was := Two(p1, p2, j);
      Two(And(p1, mask), And(p2, mask), j) == if was == g then 0 else was
  {
  }

  // ----- Positions and when they were set -----

  datatype Slot = Slot(w: nat, bit: BitIndex)

  predicate InRange(d: seq<Word>, s: Slot) {
    2 * s.w + 1 < |d|
  }

  function Number(d: seq<Word>, s: Slot): nat
    requires InRange(d, s)
  {
    Two(d[2 * s.w], d[2 * s.w + 1], s.bit)
  }

  /** The number kept for a position last set in generation `t`, in generation `g`. */
  function Shown(t: int, g: nat): nat {
    if t >= 0 && t > g - 3 then 1 + t % 3 else 0
  }

  /** The words say for every position in which of the last three generations it was set, if any. */
  ghost predicate Marks(d: seq<Word>, stamp: Slot -> int, g: nat) {
    forall s :: InRange(d, s) ==> stamp(s) <= g && Number(d, s) == Shown(stamp(s), g)
  }

  lemma NumberPut(d: seq<Word>, d2: seq<Word>, s: Slot, g: nat, t: Slot)
    requires InRange(d, s) && InRange(d, t) && 1 <= g <= 3
    requires d2 == d[2 * s.w := Put(d[2 * s.w], s.bit, g % 2 == 1)]
                    [2 * s.w + 1 := Put(d[2 * s.w + 1], s.bit, g / 2 == 1)]
    ensures Number(d2, t) == if t == s then g else Number(d, t)
  {
    hide Put;
    PutBit(d[2 * s.w], s.bit, g % 2 == 1);
    PutBit(d[2 * s.w + 1], s.bit, g / 2 == 1);
  }

  // ----- The filter -----

  class RollingBloomFilter {
    const hash: (nat, nat, Key) -> nat
    const nEntriesPerGeneration: nat
    const nHashFuncs: nat
    const data: array<Word>
    var nEntriesThisGeneration: nat
    var nGeneration: nat
    var nTweak: nat
    ghost var keys: seq<Key>         // inserted since the last reset
    ghost var stamp: Slot -> int     // generation in which a position was last set

    /** The position of a key under a hash function. */
    function SlotOf(key: Key, n: nat): Slot
      requires data.Length > 0
      reads this`nTweak
    {
      var h := hash(n, nTweak, key) % 0x1_0000_0000;
      Slot(FastMod(h, data.Length) / 2, h % 64)
    }

    /** Generations completed before the current one. */
    ghost function Generation(): nat
      requires nEntriesPerGeneration > 0
      reads this`keys
    {
      if keys == [] then 0 else (|keys| - 1) / nEntriesPerGeneration
    }

    ghost predicate Counted()
      reads this`keys, this`nEntriesThisGeneration, this`nGeneration
    {
      && nEntriesPerGeneration > 0 && data.Length > 0 && data.Length % 2 == 0
      && nEntriesThisGeneration == |keys| - Generation() * nEntriesPerGeneration
      && nGeneration == 1 + Generation() % 3
    }

    /** A key's positions were set when it was inserted or later, and only keys set positions. */
    ghost predicate Stamped(ks: seq<Key>, st: Slot -> int)
      requires nEntriesPerGeneration > 0 && data.Length > 0
      reads this`nTweak
    {
      && (forall i, n :: 0 <= i < |ks| && 0 <= n < nHashFuncs ==> st(SlotOf(ks[i], n)) >= i / nEntriesPerGeneration)
      && (forall s :: st(s) >= 0 ==> SetBy(ks, s, st(s)))
    }

    /** A key of generation `g` has this position. */
    ghost predicate SetBy(ks: seq<Key>, s: Slot, g: int)
      requires nEntriesPerGeneration > 0 && data.Length > 0
      reads this`nTweak
    {
      exists i, n :: 0 <= i < |ks| && 0 <= n < nHashFuncs && SlotOf(ks[i], n) == s && i / nEntriesPerGeneration == g
    }

    ghost predicate Valid()
      reads this, data
    {
      Counted() && Stamped(keys, stamp) && Marks(data[..], stamp, Generation())
    }

    /** The sum is taken in 32 bits.  A filter for no element, or for 2^32 - 1, has
        generations of size zero and cannot be used. */
    constructor (nElements: nat, hashFuncs: nat, filterBits: nat, h: (nat, nat, Key) -> nat, tweak: nat)
      requires nElements < 0x1_0000_0000
      ensures keys == [] && nEntriesPerGeneration == (nElements + 1) % 0x1_0000_0000 / 2 && nHashFuncs == hashFuncs
      ensures Valid() <==> 0 < nElements < 0xffff_ffff && filterBits > 0
    {
      hash, nEntriesPerGeneration, nHashFuncs := h, (nElements + 1) % 0x1_0000_0000 / 2, hashFuncs;
      data := new Word[2 * ((filterBits + 63) / 64)](_ => ZERO);
      nTweak, nEntriesThisGeneration, nGeneration := tweak, 0, 1;
      keys, stamp := [], _ => -1;
      new;
      Zeroed(data[..]);
    }

    method Reset(tweak: nat)
      requires nEntriesPerGeneration > 0 && data.Length > 0 && data.Length % 2 == 0
      modifies this, data
      ensures Valid() && keys == []
    {
      nTweak, nEntriesThisGeneration, nGeneration := tweak, 0, 1;
      keys, stamp := [], _ => -1;
      var i := 0;
      while i < data.Length
        invariant 0 <= i <= data.Length && forall j :: 0 <= j < i ==> data[j] == ZERO
        modifies data
      {
        data[i] := ZERO;
        i := i + 1;
      }
      Zeroed(data[..]);
    }

    /** Positions that carry the number of the new generation lose it. */
    method Wipe(ghost g: nat)
      requires data.Length % 2 == 0 && nGeneration == 1 + (g + 1) % 3 && Marks(data[..], stamp, g)
      modifies data
      ensures Marks(data[..], stamp, g + 1)
    {
      hide Two, WipeMask, And;
      ghost var d := data[..];
      var p := 0;
      while p < data.Length
        invariant 0 <= p <= data.Length && p % 2 == 0
        invariant forall s :: InRange(d, s) ==>
          Number(data[..], s) == if 2 * s.w < p && Number(d, s) == nGeneration then 0 else Number(d, s)
        invariant forall j :: p <= j < data.Length ==> data[j] == d[j]
      {
        var p1, p2 := data[p], data[p + 1];
        var mask := WipeMask(p1, p2, nGeneration);
        forall j: BitIndex
          ensures Two(And(p1, mask), And(p2, mask), j) == if Two(p1, p2, j) == nGeneration then 0 else Two(p1, p2, j)
        {
          WipeBits(p1, p2, nGeneration, j);
        }
        data[p] := And(p1, mask);
        data[p + 1] := And(p2, mask);
        p := p + 2;
      }
      forall s | InRange(d, s)
        ensures stamp(s) <= g + 1 && Number(data[..], s) == Shown(stamp(s), g + 1)
      {
        ShownNext(stamp(s), g);
      }
    }

    /** Sets one position to the current generation. */
    method Mark(s: Slot, ghost g: nat)
      requires InRange(data[..], s) && nGeneration == 1 + g % 3 && Marks(data[..], stamp, g)
      modifies data, this`stamp
      ensures Marks(data[..], stamp, g)
      ensures stamp(s) == g && forall t :: t != s ==> stamp(t) == old(stamp(t))
    {
      hide Put, Number;
      ghost var d := data[..];
      ghost var was := stamp;
      data[2 * s.w] := Put(data[2 * s.w], s.bit, nGeneration % 2 == 1);
      data[2 * s.w + 1] := Put(data[2 * s.w + 1], s.bit, nGeneration / 2 == 1);
      stamp := t => if t == s then g else was(t);
      forall t | InRange(d, t)
        ensures Number(data[..], t) == if t == s then nGeneration else Number(d, t)
      {
        NumberPut(d, data[..], s, nGeneration, t);
      }
    }

    lemma SlotInRange(key: Key, n: nat)
      requires data.Length > 0 && data.Length % 2 == 0
      ensures InRange(data[..], SlotOf(key, n))
    {
    }

    /** When a generation is full, the next one begins. */
    method Advance() returns (ghost g: nat)
      requires Valid()
      modifies this`nEntriesThisGeneration, this`nGeneration, data
      ensures nEntriesPerGeneration > 0 && data.Length > 0 && data.Length % 2 == 0
      ensures g == |keys| / nEntriesPerGeneration && nGeneration == 1 + g % 3
      ensures nEntriesThisGeneration == |keys| - g * nEntriesPerGeneration
      ensures Marks(data[..], stamp, g)
    {
      hide Marks, Stamped, Counted, Generation;
      CountedMeans();
      g := Generation();
      NextGeneration(|keys|, nEntriesPerGeneration, nEntriesThisGeneration, g);
      if nEntriesThisGeneration == nEntriesPerGeneration {
        nEntriesThisGeneration := 0;
        nGeneration := nGeneration + 1;
        if nGeneration == 4 {
          nGeneration := 1;
        }
        Wipe(g);
        MulNext(g, nEntriesPerGeneration);
        g := g + 1;
      }
    }

    method Insert(key: Key)
      requires Valid()
      modifies this`nEntriesThisGeneration, this`nGeneration, this`keys, this`stamp, data
      ensures Valid() && keys == old(keys) + [key]
    {
      hide Marks, Stamped, Counted, Generation;
      ghost var g := Advance();
      nEntriesThisGeneration := nEntriesThisGeneration + 1;
      MarkAll(key, g);
      keys := keys + [key];
      CountedNow(g);
    }

    lemma CountedMeans()
      requires Counted()
      ensures nEntriesPerGeneration > 0 && data.Length > 0 && data.Length % 2 == 0
      ensures Generation() == if |keys| == 0 then 0 else (|keys| - 1) / nEntriesPerGeneration
      ensures nEntriesThisGeneration == |keys| - Generation() * nEntriesPerGeneration
      ensures nGeneration == 1 + Generation() % 3
      ensures 1 + (Generation() + 1) % 3 == if nGeneration == 3 then 1 else nGeneration + 1
    {
    }

    lemma CountedNow(g: nat)
      requires nEntriesPerGeneration > 0 && data.Length > 0 && data.Length % 2 == 0
      requires |keys| > 0 && g == (|keys| - 1) / nEntriesPerGeneration
      requires nEntriesThisGeneration == |keys| - g * nEntriesPerGeneration && nGeneration == 1 + g % 3
      ensures Counted() && Generation() == g
    {
    }

    method MarkAll(key: Key, ghost g: nat)
      requires nEntriesPerGeneration > 0 && data.Length > 0 && data.Length % 2 == 0 && nGeneration == 1 + g % 3
      requires Marks(data[..], stamp, g) && Stamped(keys, stamp) && g == |keys| / nEntriesPerGeneration
      modifies data, this`stamp
      ensures Marks(data[..], stamp, g) && Stamped(keys + [key], stamp)
    {
      hide Two, FastMod, Stamped;
      ghost var was := stamp;
      var n := 0;
      while n < nHashFuncs
        invariant 0 <= n <= nHashFuncs && Marks(data[..], stamp, g)
        invariant forall k :: 0 <= k < n ==> stamp(SlotOf(key, k)) == g
        invariant forall s :: stamp(s) == was(s) || (stamp(s) == g >= was(s) && HasSlot(key, n, s))
      {
        SlotInRange(key, n);
        Mark(SlotOf(key, n), g);
        n := n + 1;
      }
      StampsGrow(keys, key, was, stamp, g);
    }

    ghost predicate HasSlot(key: Key, n: nat, s: Slot)
      requires data.Length > 0
      reads this`nTweak
    {
      exists k :: 0 <= k < n && SlotOf(key, k) == s
    }

    lemma StampsGrow(ks: seq<Key>, key: Key, was: Slot -> int, now: Slot -> int, g: nat)
      requires nEntriesPerGeneration > 0 && data.Length > 0 && g == |ks| / nEntriesPerGeneration
      requires Stamped(ks, was)
      requires forall k :: 0 <= k < nHashFuncs ==> now(SlotOf(key, k)) == g
      requires forall s :: now(s) == was(s) || (now(s) == g >= was(s) && HasSlot(key, nHashFuncs, s))
      ensures Stamped(ks + [key], now)
    {
      hide SlotOf;
      var more := ks + [key];
      forall s | now(s) >= 0
        ensures SetBy(more, s, now(s))
      {
        if now(s) == was(s) {
          var i, n :| 0 <= i < |ks| && 0 <= n < nHashFuncs && SlotOf(ks[i], n) == s &&
            i / nEntriesPerGeneration == was(s);
          assert more[i] == ks[i];
        } else {
          var k :| 0 <= k < nHashFuncs && SlotOf(key, k) == s;
          assert more[|ks|] == key;
        }
      }
      forall i, n | 0 <= i < |more| && 0 <= n < nHashFuncs
        ensures now(SlotOf(more[i], n)) >= i / nEntriesPerGeneration
      {
        if i < |ks| {
          assert was(SlotOf(ks[i], n)) >= i / nEntriesPerGeneration;
        }
      }
    }

    /** A key of one of the last three generations has this position. */
    ghost predicate Current(s: Slot)
      requires nEntriesPerGeneration > 0 && data.Length > 0
      reads this`nTweak, this`keys
    {
      exists g :: Generation() - 3 < g <= Generation() && 0 <= g && SetBy(keys, s, g)
    }

    lemma CurrentIs(s: Slot)
      requires Valid() && InRange(data[..], s)
      ensures Current(s) <==> Number(data[..], s) != 0
    {
      hide Two, SlotOf;
      var g: int := Generation();
      assert stamp(s) <= g && Number(data[..], s) == Shown(stamp(s), g);
      if stamp(s) >= 0 {
        assert SetBy(keys, s, stamp(s));
      }
      if Current(s) {
        var g2 :| g - 3 < g2 <= g && 0 <= g2 && SetBy(keys, s, g2);
        var i: nat, n: nat :| i < |keys| && n < nHashFuncs && SlotOf(keys[i], n) == s &&
          i / nEntriesPerGeneration == g2;
        assert stamp(SlotOf(keys[i], n)) >= g2;
      }
    }

    /** A key is reported if and only if each of its positions belongs to a key of the last three
        generations; so no recent key is missed. */
    method Contains(key: Key) returns (r: bool)
      requires Valid()
      ensures r <==> forall n :: 0 <= n < nHashFuncs ==> Current(SlotOf(key, n))
      ensures (exists i: nat :: Recent(i) && keys[i] == key) ==> r
    {
      hide Two, Valid, Current, FastMod, Number, Or;
      ValidShape();
      RecentKept(key);
      var n := 0;
      while n < nHashFuncs
        invariant 0 <= n <= nHashFuncs
        invariant forall k :: 0 <= k < n ==> Current(SlotOf(key, k))
      {
        var s := SlotOf(key, n);
        SlotInRange(key, n);
        CurrentIs(s);
        EitherBit(data[..], s);
        if !Or(data[2 * s.w], data[2 * s.w + 1])[s.bit] {
          return false;
        }
        n := n + 1;
      }
      return true;
    }

    lemma ValidCounted()
      requires Valid()
      ensures Counted()
    {
    }

    lemma ValidShape()
      requires Valid()
      ensures nEntriesPerGeneration > 0 && data.Length > 0 && data.Length % 2 == 0
    {
    }

    /** The last two generations' worth of keys, and those of the current generation. */
    ghost predicate Recent(i: nat)
      reads this`keys, this`nEntriesThisGeneration
    {
      |keys| - 2 * nEntriesPerGeneration - nEntriesThisGeneration <= i < |keys|
    }

    lemma RecentContained(i: nat, n: nat)
      requires Valid() && Recent(i) && n < nHashFuncs
      ensures Current(SlotOf(keys[i], n))
    {
      hide SlotOf, Marks, Stamped, Valid;
      ValidCounted();
      var g, E := Generation(), nEntriesPerGeneration;
      RecentGeneration(|keys|, E, nEntriesThisGeneration, g, i);
      assert SetBy(keys, SlotOf(keys[i], n), i / E);
    }

    lemma RecentKept(key: Key)
      requires Valid()
      ensures nEntriesPerGeneration > 0 && data.Length > 0
      ensures (exists i: nat :: Recent(i) && keys[i] == key) ==>
        forall n :: 0 <= n < nHashFuncs ==> Current(SlotOf(key, n))
    {
      hide SlotOf, Current, Valid;
      ValidShape();
      if i: nat :| Recent(i) && keys[i] == key {
        forall n | 0 <= n < nHashFuncs
          ensures Current(SlotOf(key, n))
        {
          RecentContained(i, n);
        }
      }
    }

    /** After an insertion the filter keeps at least as many keys as it was made for. */
    lemma KeepsEnough(nElements: nat, i: nat)
      requires Valid() && nEntriesPerGeneration == (nElements + 1) / 2
      requires |keys| - nElements <= i < |keys|
      ensures Recent(i)
    {
      hide Marks, Stamped;
      if keys != [] {
        Within(|keys| - 1, nEntriesPerGeneration);
      }
    }
  }

  lemma Within(x: nat, e: nat)
    requires e > 0
    ensures (x / e) * e <= x < (x / e) * e + e
  {
  }

  lemma EitherBit(d: seq<Word>, s: Slot)
    requires InRange(d, s)
    ensures Or(d[2 * s.w], d[2 * s.w + 1])[s.bit] <==> Number(d, s) != 0
  {
  }

  /** A generation is full exactly when the next key belongs to the next one. */
  lemma NextGeneration(n: nat, e: nat, entries: int, g: nat)
    requires e > 0 && g == (if n == 0 then 0 else (n - 1) / e) && entries == n - g * e
    ensures 0 <= entries <= e
    ensures n / e == if entries == e then g + 1 else g
  {
    if n > 0 {
      Within(n - 1, e);
    }
    if entries == e {
      MulNext(g, e);
      Between(n, e, g + 1);
    } else {
      Between(n, e, g);
    }
  }

  lemma MulNext(g: int, e: int)
    ensures (g + 1) * e == g * e + e
  {
  }

  lemma Between(x: int, e: int, q: int)
    requires e > 0 && q * e <= x < q * e + e
    ensures x / e == q
  {
    var r := x / e;
    assert r * e <= x < r * e + e;
    MulNext(r, e);
    MulNext(q, e);
    if r < q {
      MulMono(r + 1, q, e);
    } else if r > q {
      MulMono(q + 1, r, e);
    }
  }

  lemma RecentGeneration(n: nat, e: nat, entries: int, g: nat, i: nat)
    requires e > 0 && n > 0 && g == (n - 1) / e && entries == n - g * e && n - 2 * e - entries <= i < n
    ensures g - 3 < i / e <= g
  {
    Within(i, e);
    Within(n - 1, e);
    var q := i / e;
    MulNext(g - 1, e);
    MulNext(g - 2, e);
    MulNext(g, e);
    MulNext(q, e);
    if q <= g - 3 {
      MulMono(q + 1, g - 2, e);
    } else if q > g {
      MulMono(g + 1, q, e);
    }
  }

  lemma Zeroed(d: seq<Word>)
    requires forall j :: 0 <= j < |d| ==> d[j] == ZERO
    ensures Marks(d, _ => -1, 0)
  {
  }

  /** A new generation: what it would show a fourth time is what has the number of the new one. */
  lemma ShownNext(t: int, g: nat)
    requires t <= g
    ensures Shown(t, g + 1) == if Shown(t, g) == 1 + (g + 1) % 3 then 0 else Shown(t, g)
  {
  }
}
