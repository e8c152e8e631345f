/** Partial Merkle trees (BIP 37): what a traversal stores, what reading it back gives.  The hash of
    a pair is an arbitrary function; where collisions matter, it is required to have none. */
module MerkleSpec {
  import opened Common

  type Hash = nat
  type Combine = (Hash, Hash) -> Hash

  const NO_HASH: Hash := 0

  ghost predicate CollisionFree(H: Combine) {
    forall a, b, c, d :: H(a, b) == H(c, d) ==> a == c && b == d
  }

  ghost predicate Distinct(txids: seq<Hash>) {
    forall i, j :: 0 <= i < j < |txids| ==> txids[i] != txids[j]
  }

  // ----- Shape of the tree -----

  /** Number of nodes at a height. */
  function Width(n: nat, h: nat): nat {
    (n + Pow2(h) - 1) / Pow2(h)
  }

  lemma DivBelow(x: nat, d: nat, pos: nat)
    requires d >= 1
    ensures pos < x / d <==> (pos + 1) * d <= x
  {
    assert x == (x / d) * d + x % d;
    if pos < x / d {
      assert (pos + 1) * d <= (x / d) * d;
    } else {
      assert (x / d) * d <= pos * d;
      assert (pos + 1) * d == pos * d + d;
    }
  }

  /** A node exists if and only if its first leaf does. */
  lemma WidthMeans(n: nat, h: nat, pos: nat)
    ensures pos < Width(n, h) <==> pos * Pow2(h) < n
  {
    DivBelow(n + Pow2(h) - 1, Pow2(h), pos);
    assert (pos + 1) * Pow2(h) == pos * Pow2(h) + Pow2(h);
  }

  /** Children cover exactly the leaves of their parent. */
  lemma Children(h: nat, pos: nat)
    requires h > 0
    ensures (2 * pos) * Pow2(h - 1) == pos * Pow2(h)
    ensures (2 * pos + 1) * Pow2(h - 1) == pos * Pow2(h) + Pow2(h - 1)
    ensures (2 * pos + 2) * Pow2(h - 1) == pos * Pow2(h) + Pow2(h) == (pos + 1) * Pow2(h)
  {
    assert pos * (2 * Pow2(h - 1)) == (2 * pos) * Pow2(h - 1);
  }

  lemma LeftExists(n: nat, h: nat, pos: nat)
    requires h > 0 && pos < Width(n, h)
    ensures 2 * pos < Width(n, h - 1)
  {
    WidthMeans(n, h, pos);
    WidthMeans(n, h - 1, 2 * pos);
    Children(h, pos);
  }

  predicate HasRight(n: nat, h: nat, pos: nat)
    requires h > 0
  {
    2 * pos + 1 < Width(n, h - 1)
  }

  function CalcHash(H: Combine, txids: seq<Hash>, h: nat, pos: nat): Hash
    requires pos < Width(|txids|, h)
  {
    if h == 0 then txids[pos]
    else
      LeftExists(|txids|, h, pos);
      var left := CalcHash(H, txids, h - 1, 2 * pos);
      var right := if HasRight(|txids|, h, pos) then CalcHash(H, txids, h - 1, 2 * pos + 1) else left;
      H(left, right)
  }

  /** The height at which one node is left. */
  ghost predicate IsHeight(n: nat, h: nat) {
    Width(n, h) <= 1 && forall k :: 0 <= k < h ==> Width(n, k) > 1
  }

  // ----- What is stored -----

  /** End of the leaves under a node. */
  function Upper(n: nat, h: nat, pos: nat): nat {
    if (pos + 1) * Pow2(h) < n then (pos + 1) * Pow2(h) else n
  }

  /** A leaf under the node is matched. */
  ghost predicate Matched(match_: seq<bool>, h: nat, pos: nat) {
    exists p :: pos * Pow2(h) <= p < Upper(|match_|, h, pos) && match_[p]
  }

  ghost predicate Descends(match_: seq<bool>, h: nat, pos: nat) {
    h > 0 && Matched(match_, h, pos)
  }

  ghost function Bits(match_: seq<bool>, h: nat, pos: nat): (r: seq<bool>)
    decreases h
  {
    [Matched(match_, h, pos)] +
    if Descends(match_, h, pos) then
      Bits(match_, h - 1, 2 * pos) + if HasRight(|match_|, h, pos) then Bits(match_, h - 1, 2 * pos + 1) else []
    else []
  }

  ghost function Hashes(H: Combine, txids: seq<Hash>, match_: seq<bool>, h: nat, pos: nat): (r: seq<Hash>)
    requires |txids| == |match_| && pos < Width(|txids|, h)
    decreases h
  {
    if Descends(match_, h, pos) then
      LeftExists(|txids|, h, pos);
      Hashes(H, txids, match_, h - 1, 2 * pos) +
      if HasRight(|txids|, h, pos) then Hashes(H, txids, match_, h - 1, 2 * pos + 1) else []
    else [CalcHash(H, txids, h, pos)]
  }

  /** The matched transactions among the leaves from `lo` on, in order, with their positions. */
  function Found(txids: seq<Hash>, match_: seq<bool>, lo: nat, hi: nat): seq<(nat, Hash)>
    requires |txids| == |match_| && hi <= |txids|
    decreases hi
  {
    if lo >= hi then []
    else Found(txids, match_, lo, hi - 1) + if match_[hi - 1] then [(hi - 1, txids[hi - 1])] else []
  }

  lemma {:induction false} FoundSplit(txids: seq<Hash>, match_: seq<bool>, lo: nat, mid: nat, hi: nat)
    requires |txids| == |match_| && lo <= mid <= hi <= |txids|
    ensures Found(txids, match_, lo, hi) == Found(txids, match_, lo, mid) + Found(txids, match_, mid, hi)
    decreases hi
  {
    if mid < hi {
      FoundSplit(txids, match_, lo, mid, hi - 1);
    }
  }

  lemma {:induction false} FoundNone(txids: seq<Hash>, match_: seq<bool>, lo: nat, hi: nat)
    requires |txids| == |match_| && lo <= hi <= |txids|
    requires forall p :: lo <= p < hi ==> !match_[p]
    ensures Found(txids, match_, lo, hi) == []
    decreases hi
  {
    if lo < hi {
      FoundNone(txids, match_, lo, hi - 1);
    }
  }

  /** What is found is exactly what is matched. */
  lemma {:induction false} FoundIs(txids: seq<Hash>, match_: seq<bool>, lo: nat, hi: nat, e: (nat, Hash))
    requires |txids| == |match_| && lo <= hi <= |txids|
    ensures e in Found(txids, match_, lo, hi) <==> lo <= e.0 < hi && match_[e.0] && e.1 == txids[e.0]
    decreases hi
  {
    if lo < hi {
      FoundIs(txids, match_, lo, hi - 1, e);
    }
  }

  /** Matches are found in the order of the block. */
  lemma {:induction false} FoundAscends(txids: seq<Hash>, match_: seq<bool>, lo: nat, hi: nat, i: nat, j: nat)
    requires |txids| == |match_| && lo <= hi <= |txids| && i < j < |Found(txids, match_, lo, hi)|
    ensures var f := Found(txids, match_, lo, hi); f[i].0 < f[j].0
    decreases hi
  {
    if lo < hi {
      var f := Found(txids, match_, lo, hi - 1);
      if j < |f| {
        FoundAscends(txids, match_, lo, hi - 1, i, j);
      } else {
        assert f[i] in f;
        FoundIs(txids, match_, lo, hi - 1, f[i]);
      }
    }
  }

  // ----- Reading back -----

  /** Where a reader is: bits and hashes used, matches found, failure seen. */
  datatype Reader = Reader(bits: nat, hashes: nat, found: seq<(nat, Hash)>, bad: bool)

  function Extract(H: Combine, n: nat, vBits: seq<bool>, vHash: seq<Hash>, h: nat, pos: nat, r: Reader): (Hash, Reader)
    decreases h
  {
    if r.bits >= |vBits| then (NO_HASH, r.(bad := true))
    else
      var parent := vBits[r.bits];
      var r1 := r.(bits := r.bits + 1);
      if h == 0 || !parent then
        if r1.hashes >= |vHash| then (NO_HASH, r1.(bad := true))
        else
          var hash := vHash[r1.hashes];
          var found := if h == 0 && parent then r1.found + [(pos, hash)] else r1.found;
          (hash, r1.(hashes := r1.hashes + 1, found := found))
      else
        var (left, r2) := Extract(H, n, vBits, vHash, h - 1, 2 * pos, r1);
        if HasRight(n, h, pos) then
          var (right, r3) := Extract(H, n, vBits, vHash, h - 1, 2 * pos + 1, r2);
          (H(left, right), if right == left then r3.(bad := true) else r3)
        else (H(left, left), r2)
  }

  /** Reading never takes back a failure or a match. */
  lemma {:induction false} ExtractGrows(H: Combine, n: nat, vBits: seq<bool>, vHash: seq<Hash>, h: nat, pos: nat,
        r: Reader)
    ensures var r2 := Extract(H, n, vBits, vHash, h, pos, r).1;
      && (r.bad ==> r2.bad) && r.found <= r2.found
    decreases h
  {
    if r.bits < |vBits| && h > 0 && vBits[r.bits] {
      var r1 := r.(bits := r.bits + 1);
      ExtractGrows(H, n, vBits, vHash, h - 1, 2 * pos, r1);
      if HasRight(n, h, pos) {
        ExtractGrows(H, n, vBits, vHash, h - 1, 2 * pos + 1, Extract(H, n, vBits, vHash, h - 1, 2 * pos, r1).1);
      }
    }
  }

  lemma ExtractLeaf(H: Combine, n: nat, vBits: seq<bool>, vHash: seq<Hash>, h: nat, pos: nat, r: Reader)
    requires r.bits < |vBits| && r.hashes < |vHash| && (h == 0 || !vBits[r.bits])
    ensures Extract(H, n, vBits, vHash, h, pos, r) ==
      (vHash[r.hashes],
       Reader(r.bits + 1, r.hashes + 1,
              if h == 0 && vBits[r.bits] then r.found + [(pos, vHash[r.hashes])] else r.found, r.bad))
  {
  }

  lemma ExtractNode(H: Combine, n: nat, vBits: seq<bool>, vHash: seq<Hash>, h: nat, pos: nat, r: Reader)
    requires r.bits < |vBits| && h > 0 && vBits[r.bits]
    ensures var (left, r2) := Extract(H, n, vBits, vHash, h - 1, 2 * pos, r.(bits := r.bits + 1));
      Extract(H, n, vBits, vHash, h, pos, r) ==
      if !HasRight(n, h, pos) then (H(left, left), r2)
      else
        var (right, r3) := Extract(H, n, vBits, vHash, h - 1, 2 * pos + 1, r2);
        (H(left, right), if right == left then r3.(bad := true) else r3)
  {
  }

  // ----- Reading back what was stored -----

  /** The stored data of a node lies where the reader is. */
  ghost predicate Ahead<T>(data: seq<T>, at: nat, part: seq<T>) {
    at + |part| <= |data| && data[at..at + |part|] == part
  }

  lemma AheadSplit<T>(data: seq<T>, at: nat, a: seq<T>, b: seq<T>)
    requires Ahead(data, at, a + b)
    ensures Ahead(data, at, a) && Ahead(data, at + |a|, b)
  {
    assert data[at..at + |a|] == data[at..at + |a + b|][..|a|];
    assert data[at + |a|..at + |a| + |b|] == data[at..at + |a + b|][|a|..];
  }

  /** Nodes of one height with equal hashes have the same first leaf. */
  lemma {:induction false} EqualHashes(H: Combine, txids: seq<Hash>, h: nat, a: nat, b: nat)
    requires CollisionFree(H) && a < Width(|txids|, h) && b < Width(|txids|, h)
    requires CalcHash(H, txids, h, a) == CalcHash(H, txids, h, b)
    ensures a * Pow2(h) < |txids| && b * Pow2(h) < |txids| && txids[a * Pow2(h)] == txids[b * Pow2(h)]
    decreases h
  {
    WidthMeans(|txids|, h, a);
    WidthMeans(|txids|, h, b);
    if h > 0 {
      LeftExists(|txids|, h, a);
      LeftExists(|txids|, h, b);
      EqualHashes(H, txids, h - 1, 2 * a, 2 * b);
      Children(h, a);
      Children(h, b);
    }
  }

  lemma MulLess(a: nat, b: nat, d: nat)
    requires a < b && d >= 1
    ensures a * d < b * d
  {
  }

  /** Siblings over distinct transactions have distinct hashes. */
  lemma SiblingsDiffer(H: Combine, txids: seq<Hash>, h: nat, a: nat, b: nat)
    requires CollisionFree(H) && Distinct(txids) && a < b < Width(|txids|, h)
    ensures CalcHash(H, txids, h, a) != CalcHash(H, txids, h, b)
  {
    hide CalcHash, Width, CollisionFree;
    MulLess(a, b, Pow2(h));
    if CalcHash(H, txids, h, a) == CalcHash(H, txids, h, b) {
      EqualHashes(H, txids, h, a, b);
    }
  }

  /** The reader after a node that was stored. */
  ghost function After(txids: seq<Hash>, match_: seq<bool>, H: Combine, h: nat, pos: nat, r: Reader): Reader
    requires |txids| == |match_| && pos < Width(|txids|, h)
  {
    Reader(r.bits + |Bits(match_, h, pos)|, r.hashes + |Hashes(H, txids, match_, h, pos)|,
           r.found + Found(txids, match_, pos * Pow2(h), Upper(|txids|, h, pos)), r.bad)
  }

  /** A node that was stored reads back as its hash and the matches under it. */
  lemma {:induction false} StoredReads(H: Combine, txids: seq<Hash>, match_: seq<bool>, vBits: seq<bool>,
                                       vHash: seq<Hash>, h: nat, pos: nat, r: Reader)
    requires CollisionFree(H) && Distinct(txids) && |txids| == |match_| && pos < Width(|txids|, h)
    requires Ahead(vBits, r.bits, Bits(match_, h, pos))
    requires Ahead(vHash, r.hashes, Hashes(H, txids, match_, h, pos))
    ensures Extract(H, |txids|, vBits, vHash, h, pos, r) ==
            (CalcHash(H, txids, h, pos), After(txids, match_, H, h, pos, r))
    decreases h
  {
    hide Matched, Found, Upper, CollisionFree, Distinct, Width, Extract, CalcHash;
    var n := |txids|;
    WidthMeans(n, h, pos);
    assert vBits[r.bits] == vBits[r.bits..r.bits + |Bits(match_, h, pos)|][0] == Matched(match_, h, pos);
    if !Descends(match_, h, pos) {
      assert vHash[r.hashes] == vHash[r.hashes..r.hashes + 1][0] == CalcHash(H, txids, h, pos);
      LeafFound(txids, match_, h, pos);
      ExtractLeaf(H, n, vBits, vHash, h, pos, r);
      assert r.found + [] == r.found;
      if h == 0 {
        LeafHash(H, txids, h, pos);
      }
    } else {
      StoredReadsBelow(H, txids, match_, vBits, vHash, h, pos, r);
    }
  }

  lemma LeafHash(H: Combine, txids: seq<Hash>, h: nat, pos: nat)
    requires pos < Width(|txids|, h) && h == 0
    ensures pos < |txids| && CalcHash(H, txids, h, pos) == txids[pos]
  {
  }

  lemma LeafFound(txids: seq<Hash>, match_: seq<bool>, h: nat, pos: nat)
    requires |txids| == |match_| && pos * Pow2(h) < |txids| && !Descends(match_, h, pos)
    ensures h == 0 ==> pos < |txids|
    ensures Found(txids, match_, pos * Pow2(h), Upper(|txids|, h, pos)) ==
            if h == 0 && Matched(match_, h, pos) then [(pos, txids[pos])] else []
  {
    if h == 0 {
      assert pos * Pow2(h) == pos && Upper(|txids|, h, pos) == pos + 1;
      assert Matched(match_, h, pos) == match_[pos];
      assert Found(txids, match_, pos, pos) == [];
    } else {
      FoundNone(txids, match_, pos * Pow2(h), Upper(|txids|, h, pos));
    }
  }

  lemma {:induction false} StoredReadsBelow(H: Combine, txids: seq<Hash>, match_: seq<bool>, vBits: seq<bool>,
                                            vHash: seq<Hash>, h: nat, pos: nat, r: Reader)
    requires CollisionFree(H) && Distinct(txids) && |txids| == |match_| && pos < Width(|txids|, h)
    requires Ahead(vBits, r.bits, Bits(match_, h, pos)) && Descends(match_, h, pos) && vBits[r.bits]
    requires Ahead(vHash, r.hashes, Hashes(H, txids, match_, h, pos))
    ensures Extract(H, |txids|, vBits, vHash, h, pos, r) ==
            (CalcHash(H, txids, h, pos), After(txids, match_, H, h, pos, r))
    decreases h, 0
  {
    hide Matched, Found, Upper, Ahead, CollisionFree, Distinct, Width, Extract, Bits, Hashes, CalcHash, After;
    var n, r1 := |txids|, r.(bits := r.bits + 1);
    LeftExists(n, h, pos);
    StoredNode(H, txids, match_, h, pos);
    InData(vBits, r.bits, Bits(match_, h, pos));
    AheadChildren(H, txids, match_, vBits, vHash, h, pos, r);
    AfterChildren(H, txids, match_, h, pos, r);
    ExtractNode(H, n, vBits, vHash, h, pos, r);
    StoredReads(H, txids, match_, vBits, vHash, h - 1, 2 * pos, r1);
    if HasRight(n, h, pos) {
      var r2 := After(txids, match_, H, h - 1, 2 * pos, r1);
      StoredReads(H, txids, match_, vBits, vHash, h - 1, 2 * pos + 1, r2);
      SiblingsDiffer(H, txids, h - 1, 2 * pos, 2 * pos + 1);
      AfterGood(txids, match_, H, h - 1, 2 * pos + 1, r2);
    }
  }

  lemma InData(vBits: seq<bool>, at: nat, part: seq<bool>)
    requires Ahead(vBits, at, part) && part != []
    ensures at < |vBits|
  {
  }

  lemma AfterGood(txids: seq<Hash>, match_: seq<bool>, H: Combine, h: nat, pos: nat, r: Reader)
    requires |txids| == |match_| && pos < Width(|txids|, h)
    ensures After(txids, match_, H, h, pos, r).bad == r.bad
  {
  }

  /** The data of a node's children follow one another. */
  lemma AheadChildren(H: Combine, txids: seq<Hash>, match_: seq<bool>, vBits: seq<bool>, vHash: seq<Hash>, h: nat,
                      pos: nat, r: Reader)
    requires |txids| == |match_| && pos < Width(|txids|, h) && Descends(match_, h, pos)
    requires 2 * pos < Width(|txids|, h - 1)
    requires Ahead(vBits, r.bits, Bits(match_, h, pos)) && Ahead(vHash, r.hashes, Hashes(H, txids, match_, h, pos))
    ensures var r2 := After(txids, match_, H, h - 1, 2 * pos, r.(bits := r.bits + 1));
      && Ahead(vBits, r.bits + 1, Bits(match_, h - 1, 2 * pos))
      && Ahead(vHash, r.hashes, Hashes(H, txids, match_, h - 1, 2 * pos))
      && (HasRight(|txids|, h, pos) ==>
            && Ahead(vBits, r2.bits, Bits(match_, h - 1, 2 * pos + 1))
            && Ahead(vHash, r2.hashes, Hashes(H, txids, match_, h - 1, 2 * pos + 1)))
  {
    hide Matched, Found, Upper, Ahead, Width, Bits, Hashes, CalcHash;
    StoredNode(H, txids, match_, h, pos);
    var bl, hl := Bits(match_, h - 1, 2 * pos), Hashes(H, txids, match_, h - 1, 2 * pos);
    var br := if HasRight(|txids|, h, pos) then Bits(match_, h - 1, 2 * pos + 1) else [];
    var hr := if HasRight(|txids|, h, pos) then Hashes(H, txids, match_, h - 1, 2 * pos + 1) else [];
    AheadSplit(vBits, r.bits, [true], bl + br);
    AheadSplit(vBits, r.bits + 1, bl, br);
    AheadSplit(vHash, r.hashes, hl, hr);
  }

  /** A node is read when its children are. */
  lemma AfterChildren(H: Combine, txids: seq<Hash>, match_: seq<bool>, h: nat, pos: nat, r: Reader)
    requires |txids| == |match_| && pos < Width(|txids|, h) && Descends(match_, h, pos)
    requires 2 * pos < Width(|txids|, h - 1)
    ensures var r2 := After(txids, match_, H, h - 1, 2 * pos, r.(bits := r.bits + 1));
      After(txids, match_, H, h, pos, r) ==
      if HasRight(|txids|, h, pos) then After(txids, match_, H, h - 1, 2 * pos + 1, r2) else r2
  {
    hide Matched, Found, Upper, Width, Bits, Hashes, CalcHash;
    StoredNode(H, txids, match_, h, pos);
    FoundChildren(txids, match_, h, pos);
  }

  lemma StoredNode(H: Combine, txids: seq<Hash>, match_: seq<bool>, h: nat, pos: nat)
    requires |txids| == |match_| && pos < Width(|txids|, h) && Descends(match_, h, pos)
    requires 2 * pos < Width(|txids|, h - 1)
    ensures Bits(match_, h, pos) == [true] + (Bits(match_, h - 1, 2 * pos) +
      if HasRight(|txids|, h, pos) then Bits(match_, h - 1, 2 * pos + 1) else [])
    ensures Hashes(H, txids, match_, h, pos) == Hashes(H, txids, match_, h - 1, 2 * pos) +
      if HasRight(|txids|, h, pos) then Hashes(H, txids, match_, h - 1, 2 * pos + 1) else []
    ensures CalcHash(H, txids, h, pos) ==
      var left := CalcHash(H, txids, h - 1, 2 * pos);
      H(left, if HasRight(|txids|, h, pos) then CalcHash(H, txids, h - 1, 2 * pos + 1) else left)
  {
  }

  lemma FoundChildren(txids: seq<Hash>, match_: seq<bool>, h: nat, pos: nat)
    requires |txids| == |match_| && h > 0 && pos < Width(|txids|, h)
    ensures Found(txids, match_, pos * Pow2(h), Upper(|txids|, h, pos)) ==
      Found(txids, match_, (2 * pos) * Pow2(h - 1), Upper(|txids|, h - 1, 2 * pos)) +
      if HasRight(|txids|, h, pos)
      then Found(txids, match_, (2 * pos + 1) * Pow2(h - 1), Upper(|txids|, h - 1, 2 * pos + 1)) else []
  {
    var n := |txids|;
    Children(h, pos);
    WidthMeans(n, h, pos);
    WidthMeans(n, h - 1, 2 * pos + 1);
    FoundSplit(txids, match_, pos * Pow2(h), Upper(n, h - 1, 2 * pos), Upper(n, h, pos));
  }

  // ----- Soundness for arbitrary data -----

  /** Every reported pair is a transaction of the block at that position. */
  ghost predicate True(txids: seq<Hash>, found: seq<(nat, Hash)>) {
    forall i :: 0 <= i < |found| ==> found[i].0 < |txids| && found[i].1 == txids[found[i].0]
  }

  /** Whatever the bits and hashes are: a reader that ends with the true hash of a node found nothing
      but true transactions under it. */
  lemma {:induction false} Sound(H: Combine, txids: seq<Hash>, vBits: seq<bool>, vHash: seq<Hash>, h: nat, pos: nat,
        r: Reader)
    requires CollisionFree(H) && pos < Width(|txids|, h) && True(txids, r.found)
    requires var (hash, r2) := Extract(H, |txids|, vBits, vHash, h, pos, r);
      !r2.bad && hash == CalcHash(H, txids, h, pos)
    ensures True(txids, Extract(H, |txids|, vBits, vHash, h, pos, r).1.found)
    decreases h
  {
    hide Width, True, CalcHash, CollisionFree;
    if h > 0 && vBits[r.bits] {
      hide Extract;
      CalcNode(H, txids, h, pos);
      ExtractNode(H, |txids|, vBits, vHash, h, pos, r);
      LeftExists(|txids|, h, pos);
      var r1 := r.(bits := r.bits + 1);
      var (left, r2) := Extract(H, |txids|, vBits, vHash, h - 1, 2 * pos, r1);
      if HasRight(|txids|, h, pos) {
        ExtractGrows(H, |txids|, vBits, vHash, h - 1, 2 * pos + 1, r2);
      }
      var right :=
        if HasRight(|txids|, h, pos) then Extract(H, |txids|, vBits, vHash, h - 1, 2 * pos + 1, r2).0 else left;
      var trueLeft := CalcHash(H, txids, h - 1, 2 * pos);
      Splits(H, left, right, trueLeft,
             if HasRight(|txids|, h, pos) then CalcHash(H, txids, h - 1, 2 * pos + 1) else trueLeft);
      Sound(H, txids, vBits, vHash, h - 1, 2 * pos, r1);
      if HasRight(|txids|, h, pos) {
        Sound(H, txids, vBits, vHash, h - 1, 2 * pos + 1, r2);
      }
    } else if h == 0 {
      LeafHash(H, txids, h, pos);
      OneMoreTrue(txids, r.found, pos);
    }
  }

  lemma CalcNode(H: Combine, txids: seq<Hash>, h: nat, pos: nat)
    requires h > 0 && pos < Width(|txids|, h)
    ensures 2 * pos < Width(|txids|, h - 1)
    ensures CalcHash(H, txids, h, pos) ==
      var left := CalcHash(H, txids, h - 1, 2 * pos);
      H(left, if HasRight(|txids|, h, pos) then CalcHash(H, txids, h - 1, 2 * pos + 1) else left)
  {
    LeftExists(|txids|, h, pos);
  }

  lemma Splits(H: Combine, a: Hash, b: Hash, c: Hash, d: Hash)
    requires CollisionFree(H) && H(a, b) == H(c, d)
    ensures a == c && b == d
  {
  }

  lemma OneMoreTrue(txids: seq<Hash>, found: seq<(nat, Hash)>, pos: nat)
    requires True(txids, found) && pos < |txids|
    ensures True(txids, found + [(pos, txids[pos])])
  {
  }

  // ----- How much is stored -----

  function CountMatched(match_: seq<bool>, lo: nat, hi: nat): nat
    requires hi <= |match_|
    decreases hi
  {
    if lo >= hi then 0 else CountMatched(match_, lo, hi - 1) + if match_[hi - 1] then 1 else 0
  }

  lemma {:induction false} CountSplit(match_: seq<bool>, lo: nat, mid: nat, hi: nat)
    requires lo <= mid <= hi <= |match_|
    ensures CountMatched(match_, lo, hi) == CountMatched(match_, lo, mid) + CountMatched(match_, mid, hi)
    decreases hi
  {
    if mid < hi {
      CountSplit(match_, lo, mid, hi - 1);
    }
  }

  lemma {:induction false} CountSome(match_: seq<bool>, lo: nat, hi: nat, p: nat)
    requires lo <= p < hi <= |match_| && match_[p]
    ensures CountMatched(match_, lo, hi) >= 1
    decreases hi
  {
    if p < hi - 1 {
      CountSome(match_, lo, hi - 1, p);
    }
  }

  /** Leaves of a node, and matched ones. */
  function Leaves(n: nat, h: nat, pos: nat): int {
    Upper(n, h, pos) - pos * Pow2(h)
  }

  ghost function Matches(match_: seq<bool>, h: nat, pos: nat): nat {
    CountMatched(match_, pos * Pow2(h), Upper(|match_|, h, pos))
  }

  lemma ChildCounts(match_: seq<bool>, h: nat, pos: nat)
    requires h > 0 && pos < Width(|match_|, h)
    ensures Matches(match_, h, pos) == Matches(match_, h - 1, 2 * pos) +
      if HasRight(|match_|, h, pos) then Matches(match_, h - 1, 2 * pos + 1) else 0
    ensures Leaves(|match_|, h, pos) == Leaves(|match_|, h - 1, 2 * pos) +
      if HasRight(|match_|, h, pos) then Leaves(|match_|, h - 1, 2 * pos + 1) else 0
  {
    var n := |match_|;
    Children(h, pos);
    WidthMeans(n, h, pos);
    WidthMeans(n, h - 1, 2 * pos + 1);
    CountSplit(match_, pos * Pow2(h), Upper(n, h - 1, 2 * pos), Upper(n, h, pos));
  }

  lemma NodeCounts(match_: seq<bool>, h: nat, pos: nat)
    requires pos < Width(|match_|, h)
    ensures Leaves(|match_|, h, pos) >= 1
    ensures Matched(match_, h, pos) ==> Matches(match_, h, pos) >= 1
  {
    WidthMeans(|match_|, h, pos);
    assert (pos + 1) * Pow2(h) == pos * Pow2(h) + Pow2(h);
    if Matched(match_, h, pos) {
      var p :| pos * Pow2(h) <= p < Upper(|match_|, h, pos) && match_[p];
      CountSome(match_, pos * Pow2(h), Upper(|match_|, h, pos), p);
    }
  }

  /** At most one hash per leaf, and at most one more than one per level for each match. */
  lemma {:induction false} HashBounds(H: Combine, txids: seq<Hash>, match_: seq<bool>, h: nat, pos: nat)
    requires |txids| == |match_| && pos < Width(|txids|, h)
    ensures 1 <= |Hashes(H, txids, match_, h, pos)| <= Leaves(|txids|, h, pos)
    ensures |Hashes(H, txids, match_, h, pos)| <= 1 + Matches(match_, h, pos) * h
    decreases h
  {
    hide Matched, Width, CalcHash, Matches, Leaves, Hashes;
    NodeCounts(match_, h, pos);
    if Descends(match_, h, pos) {
      LeftExists(|txids|, h, pos);
      StoredNode(H, txids, match_, h, pos);
      ChildCounts(match_, h, pos);
      HashBounds(H, txids, match_, h - 1, 2 * pos);
      var a, b := Matches(match_, h - 1, 2 * pos), 0;
      if HasRight(|txids|, h, pos) {
        HashBounds(H, txids, match_, h - 1, 2 * pos + 1);
        b := Matches(match_, h - 1, 2 * pos + 1);
      }
      BoundsAdd(a, b, h);
    } else {
      OneHash(H, txids, match_, h, pos);
      assert Matches(match_, h, pos) * h >= 0;
    }
  }

  lemma BoundsAdd(a: nat, b: nat, h: nat)
    requires h > 0 && a + b >= 1
    ensures (1 + a * (h - 1)) + (1 + b * (h - 1)) <= 1 + (a + b) * h
  {
    assert (a + b) * h == a * (h - 1) + b * (h - 1) + (a + b);
  }

  lemma OneHash(H: Combine, txids: seq<Hash>, match_: seq<bool>, h: nat, pos: nat)
    requires |txids| == |match_| && pos < Width(|txids|, h) && !Descends(match_, h, pos)
    ensures Hashes(H, txids, match_, h, pos) == [CalcHash(H, txids, h, pos)]
    ensures Bits(match_, h, pos) == [Matched(match_, h, pos)]
  {
  }

  /** Expanded nodes that have one child only. */
  ghost function Singles(match_: seq<bool>, h: nat, pos: nat): nat
    decreases h
  {
    if Descends(match_, h, pos) then
      Singles(match_, h - 1, 2 * pos) + if HasRight(|match_|, h, pos) then Singles(match_, h - 1, 2 * pos + 1) else 1
    else 0
  }

  /** How many flag bits go with the hashes: one for each node, so two for each hash but one, and one
      more for each expanded node with a single child. */
  lemma {:induction false} BitCount(H: Combine, txids: seq<Hash>, match_: seq<bool>, h: nat, pos: nat)
    requires |txids| == |match_| && pos < Width(|txids|, h)
    ensures |Bits(match_, h, pos)| == 2 * |Hashes(H, txids, match_, h, pos)| - 1 + Singles(match_, h, pos)
    decreases h
  {
    hide Matched, Width, CalcHash, Bits, Hashes;
    if Descends(match_, h, pos) {
      LeftExists(|txids|, h, pos);
      StoredNode(H, txids, match_, h, pos);
      BitCount(H, txids, match_, h - 1, 2 * pos);
      if HasRight(|txids|, h, pos) {
        BitCount(H, txids, match_, h - 1, 2 * pos + 1);
      }
    } else {
      OneHash(H, txids, match_, h, pos);
    }
  }

  lemma HalfWidth(n: nat, h: nat)
    requires h > 0
    ensures Width(n, h) == (Width(n, h - 1) + 1) / 2
  {
    var w := Width(n, h);
    WidthMeans(n, h, w);
    WidthMeans(n, h - 1, 2 * w);
    Children(h, w);
    if w > 0 {
      LeftExists(n, h, w - 1);
    }
  }

  /** The rightmost node of a level has a single child and a match under it. */
  ghost predicate EdgeSingle(match_: seq<bool>, k: nat) {
    k > 0 && Width(|match_|, k - 1) % 2 == 1 && Width(|match_|, k) > 0 && Matched(match_, k, Width(|match_|, k) - 1)
  }

  lemma {:induction false} InnerSingles(match_: seq<bool>, h: nat, pos: nat)
    requires pos + 1 < Width(|match_|, h)
    ensures Singles(match_, h, pos) == 0
    decreases h
  {
    hide Matched, Width;
    if h > 0 {
      HalfWidth(|match_|, h);
      InnerSingles(match_, h - 1, 2 * pos);
      InnerSingles(match_, h - 1, 2 * pos + 1);
    }
  }

  lemma LastMatched(match_: seq<bool>, h: nat)
    requires |match_| > 0 && h > 0 && Width(|match_|, h) > 0 && Width(|match_|, h - 1) > 0
    requires Matched(match_, h - 1, Width(|match_|, h - 1) - 1)
    ensures Matched(match_, h, Width(|match_|, h) - 1)
  {
    hide Width, Pow2;
    var n, low, last := |match_|, Width(|match_|, h - 1) - 1, Width(|match_|, h) - 1;
    HalfWidth(n, h);
    Children(h, last);
    WidthMeans(n, h, last + 1);
    var p :| low * Pow2(h - 1) <= p < Upper(n, h - 1, low) && match_[p];
    MulMono(2 * last, low, Pow2(h - 1));
  }

  /** Single-child nodes are expanded at the right edge only, wherever a match lies below one. */
  lemma {:induction false} EdgeSingles(match_: seq<bool>, h: nat)
    requires |match_| > 0 && Width(|match_|, h) > 0
    ensures Singles(match_, h, Width(|match_|, h) - 1) == 0 <==> forall k :: 0 < k <= h ==> !EdgeSingle(match_, k)
    ensures !Matched(match_, h, Width(|match_|, h) - 1) ==> forall k :: 0 < k <= h ==> !EdgeSingle(match_, k)
    decreases h
  {
    hide Matched, Width;
    if h > 0 {
      var last := Width(|match_|, h) - 1;
      HalfWidth(|match_|, h);
      EdgeSingles(match_, h - 1);
      if Matched(match_, h - 1, Width(|match_|, h - 1) - 1) {
        LastMatched(match_, h);
      }
      if HasRight(|match_|, h, last) {
        InnerSingles(match_, h - 1, 2 * last);
      }
      assert (forall k :: 0 < k <= h ==> !EdgeSingle(match_, k)) <==>
             !EdgeSingle(match_, h) && forall k :: 0 < k <= h - 1 ==> !EdgeSingle(match_, k);
    }
  }

  /** The documented bound of 2*N-1 flag bits for N hashes holds if and only if no level has, at its
      right edge, a node with a single child and a match below. */
  lemma DocumentedBound(H: Combine, txids: seq<Hash>, match_: seq<bool>, h: nat)
    requires |txids| == |match_| > 0 && IsHeight(|txids|, h) && Width(|txids|, h) == 1
    ensures |Bits(match_, h, 0)| <= 2 * |Hashes(H, txids, match_, h, 0)| - 1 <==>
            forall k :: 0 < k <= h ==> !EdgeSingle(match_, k)
  {
    hide Matched, Bits, Hashes, Width;
    BitCount(H, txids, match_, h, 0);
    EdgeSingles(match_, h);
  }

  /** The bound fails for three transactions of which the last is matched. */
  lemma BoundFails(H: Combine, a: Hash, b: Hash, c: Hash)
    ensures IsHeight(3, 2) && Width(3, 2) == 1
    ensures |Bits([false, false, true], 2, 0)| > 2 * |Hashes(H, [a, b, c], [false, false, true], 2, 0)| - 1
  {
    hide Bits, Hashes, EdgeSingle, Width;
    SmallWidths();
    SmallEdge();
    DocumentedBound(H, [a, b, c], [false, false, true], 2);
  }

  lemma SmallWidths()
    ensures Width(3, 0) == 3 && Width(3, 1) == 2 && Width(3, 2) == 1
  {
    assert Pow2(0) == 1 && Pow2(1) == 2 && Pow2(2) == 4;
  }

  lemma SmallEdge()
    ensures EdgeSingle([false, false, true], 1)
  {
    SmallWidths();
    assert Pow2(1) == 2;
    var match_ := [false, false, true];
    assert Upper(3, 1, 1) == 3 && match_[2];
  }

  // ----- The encoded size -----

  /** Levels whose rightmost node has a single child and a match under it. */
  ghost function EdgeCount(match_: seq<bool>, h: nat): nat {
    if h == 0 then 0 else EdgeCount(match_, h - 1) + One(EdgeSingle(match_, h))
  }

  lemma {:induction false} EdgeCounts(match_: seq<bool>, h: nat)
    requires |match_| > 0 && Width(|match_|, h) > 0
    ensures Singles(match_, h, Width(|match_|, h) - 1) == EdgeCount(match_, h)
    decreases h
  {
    hide Matched, Width;
    if h > 0 {
      var last := Width(|match_|, h) - 1;
      HalfWidth(|match_|, h);
      EdgeCounts(match_, h - 1);
      if Matched(match_, h - 1, Width(|match_|, h - 1) - 1) {
        LastMatched(match_, h);
      }
      if HasRight(|match_|, h, last) {
        InnerSingles(match_, h - 1, 2 * last);
      }
    }
  }

  /** Bytes of a length prefix. */
  function VarInt(n: nat): nat {
    if n < 253 then 1 else if n <= 0xffff then 3 else if n <= 0xffff_ffff then 5 else 9
  }

  function FlagBytes(bits: nat): nat {
    (bits + 7) / 8
  }

  /** The number of transactions, the hashes, and the flag bits in bytes, both with their length. */
  function Size(hashes: nat, bits: nat): nat {
    4 + VarInt(hashes) + 32 * hashes + VarInt(FlagBytes(bits)) + FlagBytes(bits)
  }

  /** The documented bound, 10 + ceil(32.25 * N). */
  function MaxSize(hashes: nat): nat {
    10 + 32 * hashes + (hashes + 3) / 4
  }

  /** Flag bits beyond 2 * N - 1 that N / 4 bytes, rounded up, have room for. */
  function Room(hashes: nat): int {
    8 * ((hashes + 3) / 4) - (2 * hashes - 1)
  }

  lemma SizeArithmetic(hashes: nat, singles: nat)
    requires hashes > 0
    ensures var bits := 2 * hashes - 1 + singles;
      Size(hashes, bits) <= MaxSize(hashes) <==>
      singles <= Room(hashes) + 8 * (6 - VarInt(hashes) - VarInt(FlagBytes(bits)))
  {
    hide VarInt;
  }

  /** The documented bound on the encoded size holds if and only if the levels with a matched single-child
      node at their right edge are no more than the room left in the last byte, and the bytes that length
      prefixes save, allow. */
  lemma SizeBound(H: Combine, txids: seq<Hash>, match_: seq<bool>, h: nat)
    requires |txids| == |match_| > 0 && IsHeight(|txids|, h) && Width(|txids|, h) == 1
    ensures var hashes, bits := |Hashes(H, txids, match_, h, 0)|, |Bits(match_, h, 0)|;
      Size(hashes, bits) <= MaxSize(hashes) <==>
      EdgeCount(match_, h) <= Room(hashes) + 8 * (6 - VarInt(hashes) - VarInt(FlagBytes(bits)))
  {
    hide Matched, Bits, Hashes, Width, Size, MaxSize, Room, EdgeCount, FlagBytes, VarInt;
    BitCount(H, txids, match_, h, 0);
    EdgeCounts(match_, h);
    SomeHash(H, txids, match_, h, 0);
    SizeArithmetic(|Hashes(H, txids, match_, h, 0)|, EdgeCount(match_, h));
  }

  lemma {:induction false} SomeHash(H: Combine, txids: seq<Hash>, match_: seq<bool>, h: nat, pos: nat)
    requires |txids| == |match_| && pos < Width(|txids|, h)
    ensures |Hashes(H, txids, match_, h, pos)| > 0
    decreases h
  {
    hide Matched, Width, CalcHash, Bits, Hashes;
    if Descends(match_, h, pos) {
      LeftExists(|txids|, h, pos);
      StoredNode(H, txids, match_, h, pos);
      SomeHash(H, txids, match_, h - 1, 2 * pos);
    } else {
      OneHash(H, txids, match_, h, pos);
    }
  }

  /** Without such a level the bound holds for up to 65535 hashes, and no more. */
  lemma SizeRegular(hashes: nat)
    requires hashes > 0
    ensures Size(hashes, 2 * hashes - 1) <= MaxSize(hashes) <==> hashes <= 0xffff
  {
  }

  // ----- All transactions matched -----

  lemma {:induction false} AllHashes(H: Combine, txids: seq<Hash>, match_: seq<bool>, h: nat, pos: nat)
    requires |txids| == |match_| && pos < Width(|txids|, h) && forall i :: 0 <= i < |match_| ==> match_[i]
    ensures |Hashes(H, txids, match_, h, pos)| == Upper(|txids|, h, pos) - pos * Pow2(h)
    decreases h
  {
    hide Width, CalcHash, Bits, Hashes;
    AllMatched(match_, h, pos);
    var n := |txids|;
    if h > 0 {
      LeftExists(n, h, pos);
      StoredNode(H, txids, match_, h, pos);
      Children(h, pos);
      WidthMeans(n, h, pos);
      WidthMeans(n, h - 1, 2 * pos + 1);
      AllHashes(H, txids, match_, h - 1, 2 * pos);
      if HasRight(n, h, pos) {
        AllHashes(H, txids, match_, h - 1, 2 * pos + 1);
      }
    } else {
      OneHash(H, txids, match_, h, pos);
      WidthMeans(n, h, pos);
    }
  }

  lemma AllMatched(match_: seq<bool>, h: nat, pos: nat)
    requires pos < Width(|match_|, h) && forall i :: 0 <= i < |match_| ==> match_[i]
    ensures Matched(match_, h, pos)
  {
    hide Width;
    WidthMeans(|match_|, h, pos);
    var p := pos * Pow2(h);
    assert (pos + 1) * Pow2(h) == p + Pow2(h);
    assert match_[p];
  }

  lemma AllEdges(match_: seq<bool>, k: nat)
    requires k > 0 && Width(|match_|, k) > 0 && forall i :: 0 <= i < |match_| ==> match_[i]
    ensures EdgeSingle(match_, k) <==> Width(|match_|, k - 1) % 2 == 1
  {
    hide Matched, Width;
    AllMatched(match_, k, Width(|match_|, k) - 1);
  }

  lemma Widths1025()
    ensures Width(1025, 0) == 1025 && Width(1025, 1) == 513 && Width(1025, 2) == 257 && Width(1025, 3) == 129
    ensures Width(1025, 4) == 65 && Width(1025, 5) == 33 && Width(1025, 6) == 17 && Width(1025, 7) == 9
    ensures Width(1025, 8) == 5 && Width(1025, 9) == 3 && Width(1025, 10) == 2 && Width(1025, 11) == 1
  {
    assert Width(1025, 0) == 1025;
    hide Width;
    HalfWidth(1025, 1);
    HalfWidth(1025, 2);
    HalfWidth(1025, 3);
    HalfWidth(1025, 4);
    HalfWidth(1025, 5);
    HalfWidth(1025, 6);
    HalfWidth(1025, 7);
    HalfWidth(1025, 8);
    HalfWidth(1025, 9);
    HalfWidth(1025, 10);
    HalfWidth(1025, 11);
  }

  lemma {:induction false} Edges1025(match_: seq<bool>, k: nat)
    requires |match_| == 1025 && k <= 11 && forall i :: 0 <= i < |match_| ==> match_[i]
    ensures EdgeCount(match_, k) == if k <= 10 then k else 10
    decreases k
  {
    hide Width, EdgeSingle;
    Widths1025();
    if k > 0 {
      AllEdges(match_, k);
      Edges1025(match_, k - 1);
    }
  }

  /** The bound fails for 1025 transactions that are all matched, by one byte. */
  lemma SizeFails(H: Combine, txids: seq<Hash>, match_: seq<bool>)
    requires |txids| == |match_| == 1025 && forall i :: 0 <= i < |match_| ==> match_[i]
    ensures IsHeight(1025, 11) && Width(1025, 11) == 1
    ensures var hashes, bits := |Hashes(H, txids, match_, 11, 0)|, |Bits(match_, 11, 0)|;
      Size(hashes, bits) == MaxSize(hashes) + 1
  {
    hide Bits, Hashes, EdgeSingle, Width, Matched, Singles, EdgeCount;
    Widths1025();
    Edges1025(match_, 11);
    EdgeCounts(match_, 11);
    BitCount(H, txids, match_, 11, 0);
    Hashes1025(H, txids, match_);
  }

  lemma Hashes1025(H: Combine, txids: seq<Hash>, match_: seq<bool>)
    requires |txids| == |match_| == 1025 && Width(1025, 11) == 1 && forall i :: 0 <= i < |match_| ==> match_[i]
    ensures |Hashes(H, txids, match_, 11, 0)| == 1025
  {
    hide Hashes, Width, Pow2;
    AllHashes(H, txids, match_, 11, 0);
    Pow2Of11();
  }

  lemma Pow2Of11()
    ensures Pow2(11) == 2048
  {
    assert Pow2(4) == 16;
    assert Pow2(8) == 256;
  }
}
