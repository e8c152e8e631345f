/** The block index: predecessor links, skip links, the active chain, forks and locators. */
module Chain {
  import opened Common

  // ----- Skip heights -----

  /** Bitwise conjunction. */
  function And(a: nat, b: nat): (r: nat)
    ensures r <= a && r <= b
  {
    if a == 0 || b == 0 then 0 else (a % 2) * (b % 2) + 2 * And(a / 2, b / 2)
  }

  function InvertLowestOne(n: nat): nat {
    if n == 0 then 0 else And(n, n - 1)
  }

  /** The lowest one bit of a number. */
  function LowestOne(n: nat): (r: nat)
    requires n > 0
    ensures 0 < r <= n
  {
    if n % 2 == 1 then 1 else 2 * LowestOne(n / 2)
  }

  /** InvertLowestOne takes the lowest one bit away. */
  lemma {:induction false} InvertsLowestOne(n: nat)
    requires n > 0
    ensures InvertLowestOne(n) == n - LowestOne(n)
  {
    if n % 2 == 1 {
      AndSelf(n / 2);
      assert (n - 1) / 2 == n / 2;
    } else {
      InvertsLowestOne(n / 2);
      assert (n - 1) / 2 == n / 2 - 1;
    }
  }

  lemma {:induction false} AndSelf(n: nat)
    ensures And(n, n) == n
  {
    if n > 0 {
      AndSelf(n / 2);
      assert (n % 2) * (n % 2) == n % 2;
    }
  }

  function GetSkipHeight(height: nat): (r: nat)
    ensures r <= height && (height > 0 ==> r < height)
  {
    if height < 2 then 0
    else if height % 2 == 1 then InvertLowestOne(InvertLowestOne(height - 1)) + 1
    else InvertLowestOne(height)
  }

  // ----- Blocks -----

  class BlockIndex {
    const pprev: BlockIndex?
    const nHeight: nat
    var pskip: BlockIndex?

    constructor (prev: BlockIndex?, height: nat)
      ensures pprev == prev && nHeight == height && pskip == null
    {
      pprev, nHeight, pskip := prev, height, null;
    }

    /** Follows skip links where they help, predecessor links otherwise. */
    method GetAncestor(height: int, ghost tree: set<BlockIndex>) returns (r: BlockIndex?)
      requires Tree(tree) && this in tree
      ensures r == if height > nHeight || height < 0 then null else Walk(this, height)
    {
      if height > nHeight || height < 0 {
        return null;
      }
      var pindexWalk, heightWalk := this, nHeight;
      while heightWalk > height
        invariant pindexWalk in tree && pindexWalk.nHeight == heightWalk >= height
        invariant Walk(pindexWalk, height) == Walk(this, height)
        decreases heightWalk
      {
        var heightSkip, heightSkipPrev := GetSkipHeight(heightWalk), GetSkipHeight(heightWalk - 1);
        if pindexWalk.pskip != null &&
           (heightSkip == height ||
            (heightSkip > height && !(heightSkipPrev < heightSkip - 2 && heightSkipPrev >= height))) {
          WalkWalk(pindexWalk, heightSkip, height);
          pindexWalk, heightWalk := pindexWalk.pskip, heightSkip;
        } else {
          pindexWalk, heightWalk := pindexWalk.pprev, heightWalk - 1;
        }
      }
      r := pindexWalk;
    }

    method BuildSkip(ghost tree: set<BlockIndex>)
      requires Tree(tree) && this !in tree && Linked(this) && (pprev != null ==> pprev in tree) && pskip == null
      modifies this`pskip
      ensures Tree(tree + {this})
      ensures pprev != null ==> pskip == Walk(this, GetSkipHeight(nHeight))
    {
      if pprev != null {
        WalkIn(pprev, GetSkipHeight(nHeight), tree);
        var skip := pprev.GetAncestor(GetSkipHeight(nHeight), tree);
        pskip := skip;
      }
      assert Tree(tree);
    }
  }

  /** Heights count the predecessors. */
  ghost predicate Linked(b: BlockIndex)
    decreases b.nHeight
  {
    if b.pprev == null then b.nHeight == 0 else b.nHeight == b.pprev.nHeight + 1 && Linked(b.pprev)
  }

  /** The ancestor at a height, step by step. */
  ghost function Walk(b: BlockIndex, height: nat): (r: BlockIndex)
    requires Linked(b) && height <= b.nHeight
    ensures Linked(r) && r.nHeight == height
    decreases b.nHeight
  {
    if height == b.nHeight then b else Walk(b.pprev, height)
  }

  /** All blocks known: with each its predecessor, and skip links as BuildSkip makes them. */
  ghost predicate Tree(tree: set<BlockIndex>)
    reads tree
  {
    forall b :: b in tree ==>
      && Linked(b) && (b.pprev != null ==> b.pprev in tree)
      && (b.pskip != null ==> b.pskip in tree && b.pskip == Walk(b, GetSkipHeight(b.nHeight)))
  }

  lemma {:induction false} WalkWalk(b: BlockIndex, mid: nat, height: nat)
    requires Linked(b) && height <= mid <= b.nHeight
    ensures Walk(Walk(b, mid), height) == Walk(b, height)
    decreases b.nHeight
  {
    if mid < b.nHeight {
      WalkWalk(b.pprev, mid, height);
    }
  }

  lemma {:induction false} WalkIn(b: BlockIndex, height: nat, tree: set<BlockIndex>)
    requires Tree(tree) && b in tree && height <= b.nHeight
    ensures Walk(b, height) in tree
    decreases b.nHeight
  {
    if height < b.nHeight {
      WalkIn(b.pprev, height, tree);
    }
  }

  /** The ancestors of a block from genesis up to it. */
  ghost function Path(b: BlockIndex): (r: seq<BlockIndex>)
    requires Linked(b)
    ensures |r| == b.nHeight + 1
    decreases b.nHeight
  {
    if b.pprev == null then [b] else Path(b.pprev) + [b]
  }

  lemma {:induction false} PathWalk(b: BlockIndex, height: nat)
    requires Linked(b) && height <= b.nHeight
    ensures Path(b)[height] == Walk(b, height)
    ensures Path(b)[..height + 1] == Path(Walk(b, height))
    decreases b.nHeight
  {
    if height < b.nHeight {
      PathWalk(b.pprev, height);
      assert Path(b)[..height + 1] == Path(b.pprev)[..height + 1];
    } else {
      assert Path(b)[..height + 1] == Path(b);
    }
  }

  /** `c` is an ancestor of `b`, or `b` itself. */
  ghost predicate Ancestor(c: BlockIndex, b: BlockIndex)
    requires Linked(b)
  {
    c.nHeight <= b.nHeight && Walk(b, c.nHeight) == c
  }

  ghost predicate IsPath(v: seq<BlockIndex?>) {
    forall i :: 0 <= i < |v| ==> v[i] != null && Linked(v[i]) && v[i].nHeight == i && (i > 0 ==> v[i].pprev == v[i - 1])
  }

  /** Below a member of a path, the path holds its ancestors. */
  lemma {:induction false} PathBelow(v: seq<BlockIndex?>, i: nat, j: nat)
    requires IsPath(v) && j <= i < |v|
    ensures v[j] == Walk(v[i], j)
    decreases i
  {
    if j < i {
      PathBelow(v, i - 1, j);
    }
  }

  class ActiveChain {
    var vChain: seq<BlockIndex?>

    /** The chain holds the ancestors of its tip, each at its height. */
    ghost predicate Valid()
      reads this
    {
      IsPath(vChain)
    }

    constructor ()
      ensures Valid() && vChain == []
    {
      vChain := [];
    }

    function Tip(): BlockIndex?
      reads this
    {
      if |vChain| > 0 then vChain[|vChain| - 1] else null
    }

    function At(height: int): BlockIndex?
      reads this
    {
      if height < 0 || height >= |vChain| then null else vChain[height]
    }

    function Height(): int
      reads this
    {
      |vChain| - 1
    }

    predicate Contains(b: BlockIndex)
      reads this
    {
      At(b.nHeight) == b
    }

    function Next(b: BlockIndex): BlockIndex?
      reads this
    {
      if Contains(b) then At(b.nHeight + 1) else null
    }

    lemma Means(b: BlockIndex)
      requires Valid() && Linked(b)
      ensures Contains(b) <==> |vChain| > 0 && Ancestor(b, Tip())
      ensures Contains(b) ==> forall h :: 0 <= h <= b.nHeight ==> At(h) == Walk(b, h)
      ensures Next(b) != null ==> Next(b).pprev == b && Contains(Next(b))
      ensures Contains(b) && b != Tip() ==> Next(b) != null
    {
      if |vChain| > 0 && b.nHeight < |vChain| {
        PathBelow(vChain, |vChain| - 1, b.nHeight);
      }
      if Contains(b) {
        forall h | 0 <= h <= b.nHeight
          ensures At(h) == Walk(b, h)
        {
          PathBelow(vChain, b.nHeight, h);
        }
      }
    }

    /** Walks back from the new tip and stops at the first block that is in place already. */
    method SetTip(tip: BlockIndex?)
      requires Valid() && (tip != null ==> Linked(tip))
      modifies this
      ensures Valid()
      ensures if tip == null then vChain == [] else vChain == Path(tip)
    {
      if tip == null {
        vChain := [];
        return;
      }
      ghost var before := vChain;
      vChain := if tip.nHeight + 1 <= |vChain| then vChain[..tip.nHeight + 1]
                else vChain + seq(tip.nHeight + 1 - |vChain|, _ => null);
      var pindex: BlockIndex? := tip;
      while pindex != null && vChain[pindex.nHeight] != pindex
        invariant |vChain| == tip.nHeight + 1
        invariant pindex != null ==> pindex.nHeight <= tip.nHeight && pindex == Walk(tip, pindex.nHeight)
        invariant var done := if pindex == null then 0 else pindex.nHeight + 1;
          && (forall i :: done <= i < |vChain| ==> vChain[i] == Walk(tip, i))
          && (forall i :: 0 <= i < done ==> vChain[i] == if i < |before| then before[i] else null)
        decreases if pindex == null then 0 else pindex.nHeight + 1
      {
        vChain := vChain[pindex.nHeight := pindex];
        WalkPrev(tip, pindex.nHeight);
        pindex := pindex.pprev;
      }
      forall i | 0 <= i < |vChain|
        ensures vChain[i] == Path(tip)[i]
      {
        PathWalk(tip, i);
        if pindex != null && i <= pindex.nHeight {
          PathBelow(before, pindex.nHeight, i);
          WalkWalk(tip, pindex.nHeight, i);
        }
      }
      PathIsPath(tip);
    }

    /** The last block that `pindex` has in common with the chain. */
    method FindFork(pindex: BlockIndex?, ghost tree: set<BlockIndex>) returns (r: BlockIndex?)
      requires Valid() && Tree(tree) && (pindex != null ==> pindex in tree)
      ensures r != null ==> pindex != null && Ancestor(r, pindex) && Contains(r)
      ensures pindex != null ==> forall h :: 0 <= h <= pindex.nHeight && Contains(Walk(pindex, h)) ==>
        r != null && h <= r.nHeight
    {
      if pindex == null {
        return null;
      }
      var from: BlockIndex? := pindex;
      if pindex.nHeight > Height() {
        from := pindex.GetAncestor(Height(), tree);
      }
      r := SearchBack(pindex, from);
    }

    method SearchBack(b: BlockIndex, from: BlockIndex?) returns (r: BlockIndex?)
      requires Linked(b) && (from != null ==> Ancestor(from, b))
      requires forall h :: 0 <= h <= b.nHeight && (from == null || h > from.nHeight) ==> !Contains(Walk(b, h))
      ensures r != null ==> Ancestor(r, b) && Contains(r)
      ensures forall h :: 0 <= h <= b.nHeight && Contains(Walk(b, h)) ==> r != null && h <= r.nHeight
    {
      hide Linked, Contains;
      r := from;
      while r != null && !Contains(r)
        invariant r != null ==> Ancestor(r, b)
        invariant forall h :: 0 <= h <= b.nHeight && (r == null || h > r.nHeight) ==> !Contains(Walk(b, h))
        decreases if r == null then 0 else r.nHeight + 1
      {
        WalkPrev(b, r.nHeight);
        r := r.pprev;
      }
    }

    /** Blocks from `pindex` back to genesis, further and further apart. */
    method GetLocator(pindex: BlockIndex?, ghost tree: set<BlockIndex>) returns (vHave: seq<BlockIndex>)
      requires Valid() && Tree(tree) && (pindex != null ==> pindex in tree) && (Tip() != null ==> Tip() in tree)
      ensures Start(pindex) == null ==> vHave == []
      ensures Start(pindex) != null ==> Locates(Start(pindex), vHave)
    {
      hide Linked, Tree, Valid, Offset, LocatorHeight, StepAt, Listed;
      var at := Start(pindex);
      var nStep := 1;
      vHave := [];
      if at == null {
        return;
      }
      ghost var start := at;
      ListedNone(start, tree);
      while true
        invariant at in tree && at == Walk(start, LocatorHeight(start.nHeight, |vHave|))
        invariant nStep == StepAt(|vHave|) && Listed(start, vHave)
        decreases at.nHeight
      {
        ListedNext(start, vHave, at);
        vHave := vHave + [at];
        if at.nHeight == 0 {
          return;
        }
        var nHeight := if at.nHeight - nStep > 0 then at.nHeight - nStep else 0;
        LocatorStep(start.nHeight, |vHave| - 1);
        at := Back(at, nHeight, tree);
        WalkWalk(start, LocatorHeight(start.nHeight, |vHave| - 1), nHeight);
        if |vHave| > 10 {
          nStep := nStep * 2;
        }
      }
    }

    function Start(pindex: BlockIndex?): BlockIndex?
      reads this
    {
      if pindex == null then Tip() else pindex
    }

    /** An ancestor: from the chain if the block is in it, by skip links otherwise. */
    method Back(b: BlockIndex, height: nat, ghost tree: set<BlockIndex>) returns (r: BlockIndex)
      requires Valid() && Tree(tree) && b in tree && height <= b.nHeight
      ensures r == Walk(b, height) && r in tree
    {
      WalkIn(b, height, tree);
      if Contains(b) {
        Means(b);
        r := At(height);
      } else {
        r := b.GetAncestor(height, tree);
      }
    }
  }

  /** How far back the entry of an index lies. */
  function Offset(i: nat): nat {
    if i <= 10 then i else 9 + Pow2(i - 10)
  }

  function LocatorHeight(height: nat, i: nat): (r: nat)
    ensures r <= height && (r == 0 <==> Offset(i) >= height)
  {
    if Offset(i) < height then height - Offset(i) else 0
  }

  function StepAt(i: nat): nat {
    if i <= 10 then 1 else Pow2(i - 10)
  }

  lemma OffsetNext(i: nat)
    ensures Offset(i + 1) == Offset(i) + StepAt(i)
    ensures StepAt(i + 1) == if i + 1 > 10 then 2 * StepAt(i) else StepAt(i)
  {
    if i == 10 {
      assert Pow2(0) == 1 && Pow2(1) == 2;
    }
  }

  lemma LocatorStep(h: nat, i: nat)
    requires LocatorHeight(h, i) > 0
    ensures LocatorHeight(h, i + 1) == if LocatorHeight(h, i) > StepAt(i) then LocatorHeight(h, i) - StepAt(i) else 0
    ensures StepAt(i + 1) == (if i + 1 > 10 then 2 * StepAt(i) else StepAt(i)) && StepAt(i) >= 1
  {
    OffsetNext(i);
  }

  lemma Pow2Of30()
    ensures Pow2(30) == 0x4000_0000 && Pow2(31) == 0x8000_0000
  {
    assert Pow2(4) == 16;
    assert Pow2(8) == 0x100;
    assert Pow2(12) == 0x1000;
    assert Pow2(16) == 0x1_0000;
    assert Pow2(20) == 0x10_0000;
    assert Pow2(24) == 0x100_0000;
    assert Pow2(28) == 0x1000_0000;
  }

  /** Every step computed on the way from a height fits in a 32-bit int if and only if the height is at
      most 2^30 + 9. */
  lemma StepFits(h: nat)
    ensures (forall i: nat :: LocatorHeight(h, i) > 0 ==> StepAt(i + 1) <= 0x7fff_ffff) <==> h <= 0x4000_0009
  {
    Pow2Of30();
    if h > 0x4000_0009 {
      assert LocatorHeight(h, 40) > 0 && StepAt(41) == 0x8000_0000;
    } else {
      forall i: nat | LocatorHeight(h, i) > 0
        ensures StepAt(i + 1) <= 0x7fff_ffff
      {
        if i >= 40 {
          Pow2Mono(30, i - 10);
        } else if i > 9 {
          Pow2Mono(i - 9, 30);
        }
      }
    }
  }

  /** A locator so far. */
  ghost predicate Listed(b: BlockIndex, v: seq<BlockIndex>)
    requires Linked(b)
  {
    && (forall i :: 0 <= i < |v| ==> v[i] == Walk(b, LocatorHeight(b.nHeight, i)))
    && (forall i :: 0 <= i < |v| - 1 ==> Offset(i) < b.nHeight)
    && (|v| > 0 ==> v[|v| - 1].nHeight > 0)
  }

  lemma ListedNone(b: BlockIndex, tree: set<BlockIndex>)
    requires Tree(tree) && b in tree
    ensures Linked(b) && LocatorHeight(b.nHeight, 0) == b.nHeight && Listed(b, []) && StepAt(0) == 1
  {
  }

  lemma ListedNext(b: BlockIndex, v: seq<BlockIndex>, at: BlockIndex)
    requires Linked(b) && Listed(b, v) && at == Walk(b, LocatorHeight(b.nHeight, |v|))
    ensures at.nHeight > 0 ==> Listed(b, v + [at])
    ensures at.nHeight == 0 ==> Locates(b, v + [at])
    ensures at.nHeight == LocatorHeight(b.nHeight, |v|)
  {
    hide Linked, Walk, Offset, LocatorHeight;
    var h, more := b.nHeight, v + [at];
    forall i | 0 <= i < |more|
      ensures more[i] == Walk(b, LocatorHeight(h, i)) && (i < |v| ==> Offset(i) < h)
    {
      if i < |v| {
        assert more[i] == v[i];
        assert i == |v| - 1 ==> LocatorHeight(h, i) > 0;
      }
    }
  }

  /** Ancestors of `b` at the locator's heights, ending with the first that is genesis. */
  ghost predicate Locates(b: BlockIndex, v: seq<BlockIndex>)
    requires Linked(b)
  {
    && |v| > 0
    && (forall i :: 0 <= i < |v| ==> v[i] == Walk(b, LocatorHeight(b.nHeight, i)))
    && (forall i :: 0 <= i < |v| - 1 ==> Offset(i) < b.nHeight)
    && Offset(|v| - 1) >= b.nHeight
  }

  function Log2(n: nat): nat
    requires n > 0
  {
    if n == 1 then 0 else 1 + Log2(n / 2)
  }

  lemma {:induction false} Log2Above(n: nat, k: nat)
    requires n > 0 && Pow2(k) <= n
    ensures k <= Log2(n)
  {
    if k > 0 {
      Log2Above(n / 2, k - 1);
    }
  }

  lemma {:induction false} OffsetGrows(i: nat, j: nat)
    requires i < j
    ensures Offset(i) < Offset(j)
    decreases j
  {
    OffsetNext(j - 1);
    if i < j - 1 {
      OffsetGrows(i, j - 1);
    }
  }

  /** A locator starts at its block, descends strictly, ends at genesis, and has at most
      12 + log2(height) entries. */
  lemma LocatorShape(b: BlockIndex, v: seq<BlockIndex>)
    requires Linked(b) && Locates(b, v)
    ensures v[0] == b && v[|v| - 1].nHeight == 0
    ensures forall i, j :: 0 <= i < j < |v| ==> v[i].nHeight > v[j].nHeight && Ancestor(v[j], v[i])
    ensures b.nHeight >= 1 ==> |v| <= 12 + Log2(b.nHeight)
  {
    var h := b.nHeight;
    forall i, j | 0 <= i < j < |v|
      ensures v[i].nHeight > v[j].nHeight && Ancestor(v[j], v[i])
    {
      OffsetGrows(i, j);
      WalkWalk(b, LocatorHeight(h, i), LocatorHeight(h, j));
    }
    if |v| > 12 {
      assert Offset(|v| - 2) < h;
      Log2Above(h, |v| - 12);
    }
  }

  lemma WalkPrev(b: BlockIndex, height: nat)
    requires Linked(b) && height <= b.nHeight
    ensures var w := Walk(b, height);
      if height == 0 then w.pprev == null else w.pprev != null && w.pprev == Walk(b, height - 1)
  {
    if height > 0 {
      WalkWalk(b, height, height - 1);
    }
  }

  lemma PathIsPath(b: BlockIndex)
    requires Linked(b)
    ensures IsPath(Path(b))
  {
    forall i | 0 <= i < |Path(b)|
      ensures Linked(Path(b)[i]) && Path(b)[i].nHeight == i && (i > 0 ==> Path(b)[i].pprev == Path(b)[i - 1])
    {
      PathWalk(b, i);
      WalkPrev(b, i);
      if i > 0 {
        PathWalk(b, i - 1);
      }
    }
  }

  /** The last block two branches of one tree have in common. */
  method LastCommonAncestor(a: BlockIndex, b: BlockIndex, ghost tree: set<BlockIndex>) returns (r: BlockIndex)
    requires Tree(tree) && a in tree && b in tree && Walk(a, 0) == Walk(b, 0)
    ensures Ancestor(r, a) && Ancestor(r, b)
    ensures forall h :: 0 <= h <= a.nHeight && h <= b.nHeight && Walk(a, h) == Walk(b, h) ==> h <= r.nHeight
  {
    var pa: BlockIndex?, pb: BlockIndex? := a, b;
    if a.nHeight > b.nHeight {
      pa := a.GetAncestor(b.nHeight, tree);
    } else if b.nHeight > a.nHeight {
      pb := b.GetAncestor(a.nHeight, tree);
    }
    r := LevelWalk(a, b, pa, pb);
  }

  /** Two ancestors at one height go back together until they meet. */
  method LevelWalk(a: BlockIndex, b: BlockIndex, wa: BlockIndex, wb: BlockIndex) returns (r: BlockIndex)
    requires Linked(a) && Linked(b) && Walk(a, 0) == Walk(b, 0) && Ancestor(wa, a) && Ancestor(wb, b)
    requires wa.nHeight == wb.nHeight && (wa == a || wb == b)
    ensures Ancestor(r, a) && Ancestor(r, b)
    ensures forall h :: 0 <= h <= a.nHeight && h <= b.nHeight && Walk(a, h) == Walk(b, h) ==> h <= r.nHeight
  {
    hide Linked;
    var pa: BlockIndex?, pb: BlockIndex? := wa, wb;
    while pa != pb && pa != null && pb != null
      invariant pa != null && pb != null && pa.nHeight == pb.nHeight && Ancestor(pa, a) && Ancestor(pb, b)
      invariant forall h :: pa.nHeight < h <= a.nHeight && h <= b.nHeight ==> Walk(a, h) != Walk(b, h)
      decreases pa.nHeight
    {
      WalkPrev(a, pa.nHeight);
      WalkPrev(b, pa.nHeight);
      pa, pb := pa.pprev, pb.pprev;
    }
    r := pa;
  }
}
