/** CPartialMerkleTree: an object that is filled by a traversal, packed into bytes, and read back. */
module Merkle {
  import opened Common
  import opened ByteBits
  import opened MerkleSpec

  const MAX_BLOCK_WEIGHT := 4000000
  const MIN_TRANSACTION_WEIGHT := 240

  // ----- Flag bits as bytes -----

  /** Eight bits to a byte, the first one lowest; what is left over is zero. */
  ghost predicate Packs(bytes: seq<bv8>, bits: seq<bool>) {
    && |bytes| == (|bits| + 7) / 8
    && forall p :: 0 <= p < 8 * |bytes| ==> BitAt(bytes[p / 8], p % 8) == (p < |bits| && bits[p])
  }

  method BitsToBytes(bits: seq<bool>) returns (ret: array<bv8>)
    ensures Packs(ret[..], bits)
  {
    ret := new bv8[(|bits| + 7) / 8](_ => 0);
    var p := 0;
    while p < |bits|
      invariant 0 <= p <= |bits|
      invariant forall q :: 0 <= q < 8 * ret.Length ==> BitAt(ret[q / 8], q % 8) == (q < p && bits[q])
    {
      var i, k := p / 8, p % 8;
      ghost var before := ret[..];
      if bits[p] {
        ret[i] := ret[i] | Mask(k);
      }
      forall q | 0 <= q < 8 * ret.Length
        ensures BitAt(ret[q / 8], q % 8) == (q < p + 1 && bits[q])
      {
        assert BitAt(before[q / 8], q % 8) == (q < p && bits[q]);
        if bits[p] && q / 8 == i {
          SetBit(before[i], k, q % 8);
        }
      }
      p := p + 1;
    }
  }

  method BytesToBits(bytes: array<bv8>) returns (ret: seq<bool>)
    ensures |ret| == 8 * bytes.Length
    ensures forall p :: 0 <= p < |ret| ==> ret[p] == BitAt(bytes[p / 8], p % 8)
  {
    ret := [];
    var p := 0;
    while p < 8 * bytes.Length
      invariant p == |ret| <= 8 * bytes.Length
      invariant forall q :: 0 <= q < p ==> ret[q] == BitAt(bytes[q / 8], q % 8)
    {
      ret := ret + [BitAt(bytes[p / 8], p % 8)];
      p := p + 1;
    }
  }

  /** Bits read back from bytes: those packed, then the padding. */
  lemma PackRoundTrip(bits: seq<bool>, bytes: seq<bv8>, back: seq<bool>)
    requires Packs(bytes, bits) && |back| == 8 * |bytes|
    requires forall p :: 0 <= p < |back| ==> back[p] == BitAt(bytes[p / 8], p % 8)
    ensures |bits| <= |back| < |bits| + 8 && back[..|bits|] == bits
    ensures forall p :: |bits| <= p < |back| ==> !back[p]
  {
    assert forall p :: 0 <= p < |back| ==> back[p] == (p < |bits| && bits[p]);
  }

  // ----- Whole trees -----

  function HeightFrom(n: nat, h: nat): (r: nat)
    requires forall k :: 0 <= k < h ==> Width(n, k) > 1
    ensures IsHeight(n, r)
    decreases Width(n, h)
  {
    if Width(n, h) <= 1 then h
    else
      HalfWidth(n, h + 1);
      HeightFrom(n, h + 1)
  }

  function Height(n: nat): (r: nat)
    ensures IsHeight(n, r) && (n > 0 ==> Width(n, r) == 1)
  {
    var r := HeightFrom(n, 0);
    WidthMeans(n, r, 0);
    r
  }

  ghost function Read(H: Combine, n: nat, vBits: seq<bool>, vHash: seq<Hash>, bad: bool): (Hash, Reader) {
    Extract(H, n, vBits, vHash, Height(n), 0, Reader(0, 0, [], bad))
  }

  /** The tree passes all checks. */
  ghost predicate Accepted(H: Combine, n: nat, vBits: seq<bool>, vHash: seq<Hash>, bad: bool) {
    && 0 < n <= MAX_BLOCK_WEIGHT / MIN_TRANSACTION_WEIGHT
    && |vHash| <= n && |vHash| <= |vBits|
    && var r := Read(H, n, vBits, vHash, bad).1;
       !r.bad && (r.bits + 7) / 8 == (|vBits| + 7) / 8 && r.hashes == |vHash|
  }

  /** A tree built for distinct transactions, packed and unpacked, is accepted and gives the Merkle
      root and exactly the matched transactions. */
  lemma RoundTrip(H: Combine, txids: seq<Hash>, match_: seq<bool>, back: seq<bool>)
    requires CollisionFree(H) && Distinct(txids) && |txids| == |match_|
    requires 0 < |txids| <= MAX_BLOCK_WEIGHT / MIN_TRANSACTION_WEIGHT
    requires var bits := Bits(match_, Height(|txids|), 0);
      |bits| <= |back| < |bits| + 8 && |back| % 8 == 0 && back[..|bits|] == bits
    ensures var n, h := |txids|, Height(|txids|); var hashes := Hashes(H, txids, match_, h, 0);
      && Accepted(H, n, back, hashes, false)
      && Read(H, n, back, hashes, false).0 == CalcHash(H, txids, h, 0)
      && Read(H, n, back, hashes, false).1.found == Found(txids, match_, 0, n)
  {
    hide CollisionFree, Distinct, Extract, Bits, Hashes, CalcHash, Found, Height, Width, Pow2, Upper, Leaves, Matches,
         Singles;
    var n, h := |txids|, Height(|txids|);
    var bits, hashes := Bits(match_, h, 0), Hashes(H, txids, match_, h, 0);
    assert Ahead(back, 0, bits);
    assert Ahead(hashes, 0, hashes);
    StoredReads(H, txids, match_, back, hashes, h, 0, Reader(0, 0, [], false));
    HashBounds(H, txids, match_, h, 0);
    BitCount(H, txids, match_, h, 0);
    RootCovers(n, h);
    Padding(|bits|, |back|);
    assert [] + Found(txids, match_, 0, n) == Found(txids, match_, 0, n);
  }

  lemma Padding(used: nat, size: nat)
    requires used <= size < used + 8 && size % 8 == 0
    ensures (used + 7) / 8 == (size + 7) / 8
  {
  }

  lemma RootCovers(n: nat, h: nat)
    requires Width(n, h) == 1
    ensures 0 * Pow2(h) == 0 && Upper(n, h, 0) == n && Leaves(n, h, 0) == n
  {
    WidthMeans(n, h, 1);
  }

  /** Whatever the tree holds: if it is accepted with the Merkle root of a block of that many
      transactions, all it reports is in the block, at the reported position. */
  lemma AcceptedIsTrue(H: Combine, txids: seq<Hash>, vBits: seq<bool>, vHash: seq<Hash>)
    requires CollisionFree(H)
    requires Accepted(H, |txids|, vBits, vHash, false)
    requires Read(H, |txids|, vBits, vHash, false).0 == CalcHash(H, txids, Height(|txids|), 0)
    ensures True(txids, Read(H, |txids|, vBits, vHash, false).1.found)
  {
    hide CollisionFree, Extract, CalcHash, Height, Width;
    Sound(H, txids, vBits, vHash, Height(|txids|), 0, Reader(0, 0, [], false));
  }

  // ----- The object -----

  function Positions(f: seq<(nat, Hash)>): seq<nat> {
    seq(|f|, i requires 0 <= i < |f| => f[i].0)
  }

  function Ids(f: seq<(nat, Hash)>): seq<Hash> {
    seq(|f|, i requires 0 <= i < |f| => f[i].1)
  }

  /** Two lists that have grown by what was found. */
  ghost predicate Lists(vMatch: seq<Hash>, vnIndex: seq<nat>, before: seq<nat>, found: seq<(nat, Hash)>) {
    vMatch == Ids(found) && vnIndex == before + Positions(found)
  }

  lemma ListsGrow(vMatch: seq<Hash>, vnIndex: seq<nat>, before: seq<nat>, found: seq<(nat, Hash)>, pos: nat, hash: Hash)
    requires Lists(vMatch, vnIndex, before, found)
    ensures Lists(vMatch + [hash], vnIndex + [pos], before, found + [(pos, hash)])
  {
    assert Ids(found + [(pos, hash)]) == Ids(found) + [hash];
    assert Positions(found + [(pos, hash)]) == Positions(found) + [pos];
  }

  class PartialMerkleTree {
    const H: Combine
    var nTransactions: nat
    var vBits: seq<bool>
    var vHash: seq<Hash>
    var fBad: bool

    constructor (H: Combine, vTxid: seq<Hash>, vMatch: seq<bool>)
      requires |vTxid| == |vMatch| > 0
      ensures this.H == H && nTransactions == |vTxid| && !fBad
      ensures var h := Height(|vTxid|);
        && vBits == Bits(vMatch, h, 0)
        && vHash == Hashes(H, vTxid, vMatch, h, 0)
    {
      this.H, nTransactions, fBad := H, |vTxid|, false;
      vBits, vHash := [], [];
      new;
      var nHeight := TreeHeight();
      TraverseAndBuild(nHeight, 0, vTxid, vMatch);
    }

    constructor Empty(H: Combine)
      ensures this.H == H && nTransactions == 0 && fBad
    {
      this.H, nTransactions, vBits, vHash, fBad := H, 0, [], [], true;
    }

    method TreeHeight() returns (nHeight: nat)
      ensures nHeight == Height(nTransactions)
    {
      nHeight := 0;
      while Width(nTransactions, nHeight) > 1
        invariant forall k :: 0 <= k < nHeight ==> Width(nTransactions, k) > 1
        invariant HeightFrom(nTransactions, nHeight) == Height(nTransactions)
        decreases Width(nTransactions, nHeight)
      {
        HalfWidth(nTransactions, nHeight + 1);
        nHeight := nHeight + 1;
      }
    }

    method ParentOfMatch(height: nat, pos: nat, vMatch: seq<bool>) returns (parent: bool)
      requires nTransactions == |vMatch|
      ensures parent == Matched(vMatch, height, pos)
    {
      parent := false;
      var p := pos * Pow2(height);
      while p < (pos + 1) * Pow2(height) && p < nTransactions
        invariant pos * Pow2(height) <= p
        invariant parent == exists q :: pos * Pow2(height) <= q < p && q < Upper(|vMatch|, height, pos) && vMatch[q]
      {
        parent := parent || vMatch[p];
        p := p + 1;
      }
    }

    method TraverseAndBuild(height: nat, pos: nat, vTxid: seq<Hash>, vMatch: seq<bool>)
      requires nTransactions == |vTxid| == |vMatch| && pos < Width(|vTxid|, height)
      modifies this`vBits, this`vHash
      ensures vBits == old(vBits) + Bits(vMatch, height, pos)
      ensures vHash == old(vHash) + Hashes(H, vTxid, vMatch, height, pos)
      decreases height
    {
      hide Matched, Width, CalcHash, Bits, Hashes;
      var parent := ParentOfMatch(height, pos, vMatch);
      vBits := vBits + [parent];
      if height == 0 || !parent {
        OneHash(H, vTxid, vMatch, height, pos);
        vHash := vHash + [CalcHash(H, vTxid, height, pos)];
      } else {
        LeftExists(|vTxid|, height, pos);
        StoredNode(H, vTxid, vMatch, height, pos);
        TraverseAndBuild(height - 1, 2 * pos, vTxid, vMatch);
        if 2 * pos + 1 < Width(nTransactions, height - 1) {
          TraverseAndBuild(height - 1, 2 * pos + 1, vTxid, vMatch);
        }
      }
    }

    method TraverseAndExtract(height: nat, pos: nat, bitsUsed: nat, hashUsed: nat, match_: seq<Hash>, index: seq<nat>,
                              ghost before: seq<nat>, ghost found: seq<(nat, Hash)>)
      returns (hash: Hash, nBitsUsed: nat, nHashUsed: nat, vMatch: seq<Hash>, vnIndex: seq<nat>)
      requires Lists(match_, index, before, found)
      modifies this`fBad
      ensures var start := Reader(bitsUsed, hashUsed, found, old(fBad));
        var (root, r) := Extract(H, nTransactions, vBits, vHash, height, pos, start);
        && hash == root && nBitsUsed == r.bits && nHashUsed == r.hashes && fBad == r.bad
        && Lists(vMatch, vnIndex, before, r.found)
      decreases height
    {
      hide Lists;
      nBitsUsed, nHashUsed, vMatch, vnIndex := bitsUsed, hashUsed, match_, index;
      ghost var r := Reader(bitsUsed, hashUsed, found, fBad);
      if nBitsUsed >= |vBits| {
        fBad := true;
        return NO_HASH, nBitsUsed, nHashUsed, vMatch, vnIndex;
      }
      var parent := vBits[nBitsUsed];
      nBitsUsed := nBitsUsed + 1;
      if height == 0 || !parent {
        if nHashUsed >= |vHash| {
          fBad := true;
          return NO_HASH, nBitsUsed, nHashUsed, vMatch, vnIndex;
        }
        hash := vHash[nHashUsed];
        nHashUsed := nHashUsed + 1;
        if height == 0 && parent {
          ListsGrow(vMatch, vnIndex, before, found, pos, hash);
          vMatch := vMatch + [hash];
          vnIndex := vnIndex + [pos];
        }
      } else {
        hide Extract;
        ExtractNode(H, nTransactions, vBits, vHash, height, pos, r);
        var left, right;
        ghost var r2 := Extract(H, nTransactions, vBits, vHash, height - 1, 2 * pos, r.(bits := r.bits + 1)).1;
        left, nBitsUsed, nHashUsed, vMatch, vnIndex :=
          TraverseAndExtract(height - 1, 2 * pos, nBitsUsed, nHashUsed, vMatch, vnIndex, before, found);
        if 2 * pos + 1 < Width(nTransactions, height - 1) {
          right, nBitsUsed, nHashUsed, vMatch, vnIndex :=
            TraverseAndExtract(height - 1, 2 * pos + 1, nBitsUsed, nHashUsed, vMatch, vnIndex, before, r2.found);
          if right == left {
            fBad := true;
          }
        } else {
          right := left;
        }
        hash := H(left, right);
      }
    }

    /** The list of positions is appended to; the list of transactions starts empty. */
    method ExtractMatches(index: seq<nat>) returns (root: Hash, vMatch: seq<Hash>, vnIndex: seq<nat>)
      modifies this`fBad
      ensures old(Accepted(H, nTransactions, vBits, vHash, fBad)) ==>
        var (hash, r) := old(Read(H, nTransactions, vBits, vHash, fBad));
        root == hash && vMatch == Ids(r.found) && vnIndex == index + Positions(r.found) && !fBad
      ensures !old(Accepted(H, nTransactions, vBits, vHash, fBad)) ==> root == NO_HASH
    {
      hide Extract, Width, Height;
      vMatch, vnIndex := [], index;
      if nTransactions == 0 || nTransactions > MAX_BLOCK_WEIGHT / MIN_TRANSACTION_WEIGHT
         || |vHash| > nTransactions || |vBits| < |vHash| {
        return NO_HASH, vMatch, vnIndex;
      }
      var nHeight := TreeHeight();
      assert Lists(vMatch, vnIndex, index, []);
      var hash, nBitsUsed, nHashUsed;
      hash, nBitsUsed, nHashUsed, vMatch, vnIndex := TraverseAndExtract(nHeight, 0, 0, 0, vMatch, vnIndex, index, []);
      if fBad || (nBitsUsed + 7) / 8 != (|vBits| + 7) / 8 || nHashUsed != |vHash| {
        return NO_HASH, vMatch, vnIndex;
      }
      root := hash;
    }

    method Serialize() returns (n: nat, hashes: seq<Hash>, bytes: array<bv8>)
      ensures n == nTransactions && hashes == vHash && Packs(bytes[..], vBits)
    {
      n, hashes := nTransactions, vHash;
      bytes := BitsToBytes(vBits);
    }

    method Unserialize(n: nat, hashes: seq<Hash>, bytes: array<bv8>)
      modifies this
      ensures nTransactions == n && vHash == hashes && !fBad && |vBits| == 8 * bytes.Length
      ensures forall p :: 0 <= p < |vBits| ==> vBits[p] == BitAt(bytes[p / 8], p % 8)
    {
      var bits := BytesToBits(bytes);
      nTransactions, vHash, vBits, fBad := n, hashes, bits, false;
    }
  }

  /** The whole way: build, pack, send, unpack, extract. */
  method Relay(H: Combine, vTxid: seq<Hash>, vMatch: seq<bool>)
    returns (root: Hash, ids: seq<Hash>, positions: seq<nat>)
    requires CollisionFree(H) && Distinct(vTxid) && |vTxid| == |vMatch|
    requires 0 < |vTxid| <= MAX_BLOCK_WEIGHT / MIN_TRANSACTION_WEIGHT
    ensures var f := Found(vTxid, vMatch, 0, |vTxid|);
      && root == CalcHash(H, vTxid, Height(|vTxid|), 0)
      && ids == Ids(f) && positions == Positions(f)
  {
    hide CollisionFree, Distinct, Extract, Bits, Hashes, CalcHash, Found, Height, Width, Accepted;
    var sent := new PartialMerkleTree(H, vTxid, vMatch);
    var n, hashes, bytes := sent.Serialize();
    ghost var bits := sent.vBits;
    var got := new PartialMerkleTree.Empty(H);
    got.Unserialize(n, hashes, bytes);
    PackRoundTrip(bits, bytes[..], got.vBits);
    RoundTrip(H, vTxid, vMatch, got.vBits);
    root, ids, positions := got.ExtractMatches([]);
  }
}
