/** Whole runs of a cache stack of any depth, against a machine that keeps one plain map per
    level and knows nothing of flags. */
module CoinsRuns {
  import opened Common
  import opened CoinsSpec

  /** Level 0 is the view on top.  Coins are added and spent on top only (a cache below another
      one may be read, uncached or flushed).  Push and Pop create and drop the top cache. */
  datatype Op =
    | Get(level: nat, o: OutPoint)
    | Drop(level: nat, o: OutPoint)
    | Write(level: nat)
    | Add(o: OutPoint, coin: Coin, possibleOverwrite: bool)
    | Spend(o: OutPoint)
    | Push
    | Pop

  datatype Outcome = Done(view: View, answer: Option<Coin>) | Thrown

  /** One operation on the caches as they are. */
  function Step(v: View, op: Op): Outcome
    requires Applicable(Depth(v), op)
  {
    match op
    case Get(k, o) => GetAt(v, k, o)
    case Drop(k, o) => Done(DropAt(v, k, o), None)
    case Write(k) =>
      (match WriteAt(v, k)
       case Some(w) => Done(w, None)
       case None => Thrown)
    case Add(o, c, p) =>
      (match AddCoin(v, o, c, p)
       case Ok(w) => Done(w, None)
       case Overwrites => Thrown)
    case Spend(o) =>
      var r := SpendCoin(v, o);
      Done(r.view, if r.found then Unspent(r.moved) else None)
    case Push => Done(Cache(v, map[]), None)
    case Pop => Done(v.base, None)
  }

  predicate Applicable(depth: nat, op: Op) {
    match op
    case Get(k, _) => k <= depth
    case Drop(k, _) => k < depth
    case Write(k) => k < depth
    case Add(_, c, _) => 0 < depth && !c.IsSpent()
    case Spend(_) => 0 < depth
    case Push => true
    case Pop => 0 < depth
  }

  function GetAt(v: View, k: nat, o: OutPoint): Outcome
    requires k <= Depth(v)
    ensures GetAt(v, k, o).Done?
  {
    if k == 0 then
      var g := GetCoin(v, o);
      Done(g.view, if g.found then Unspent(g.coin) else None)
    else
      var below := GetAt(v.base, k - 1, o);
      Done(Cache(below.view, v.coins), below.answer)
  }

  function DropAt(v: View, k: nat, o: OutPoint): View
    requires k < Depth(v)
  {
    if k == 0 then Uncache(v, o) else Cache(DropAt(v.base, k - 1, o), v.coins)
  }

  function WriteAt(v: View, k: nat): Option<View>
    requires k < Depth(v)
  {
    if k == 0 then Flush(v)
    else
      match WriteAt(v.base, k - 1)
      case None => None
      case Some(b) => Some(Cache(b, v.coins))
  }

  // ----- The plain machine -----

  type Plain = map<OutPoint, Coin>

  function Find(m: Plain, o: OutPoint): Option<Coin> {
    if o in m then Some(m[o]) else None
  }

  /** `maps[0]` is the database, the last map is the top. */
  function PlainStep(maps: seq<Plain>, op: Op): (seq<Plain>, Option<Coin>)
    requires maps != [] && Applicable(|maps| - 1, op)
  {
    var top := |maps| - 1;
    match op
    case Get(k, o) => (maps, Find(maps[top - k], o))
    case Drop(_, _) => (maps, None)
    case Write(k) => (maps[top - k - 1 := maps[top - k]], None)
    case Add(o, c, _) => (if c.script.unspendable then maps else maps[top := maps[top][o := c]], None)
    case Spend(o) => (maps[top := maps[top] - {o}], Find(maps[top], o))
    case Push => (maps + [maps[top]], None)
    case Pop => (maps[..top], None)
  }

  /** The caller's side of AddCoin: without `possible_overwrite` the plain map must not have
      the coin. */
  predicate Allowed(maps: seq<Plain>, op: Op)
    requires maps != []
  {
    && Applicable(|maps| - 1, op)
    && (op.Add? && !op.possibleOverwrite && !op.coin.script.unspendable ==> op.o !in maps[|maps| - 1])
  }

  ghost predicate Agrees(v: View, maps: seq<Plain>) {
    && |maps| == Depth(v) + 1
    && (forall o :: Lookup(v, o) == Find(maps[|maps| - 1], o))
    && (v.Cache? ==> Agrees(v.base, maps[..|maps| - 1]))
  }

  // ----- Refinement, one operation -----

  lemma {:induction false} GetAtAgrees(v: View, k: nat, o: OutPoint, maps: seq<Plain>)
    requires Inv(v) && Agrees(v, maps) && k <= Depth(v)
    ensures var r := GetAt(v, k, o);
      && Inv(r.view) && SameMeaning(r.view, v) && Agrees(r.view, maps) && Depth(r.view) == Depth(v)
      && r.answer == Find(maps[|maps| - 1 - k], o)
  {
    if k == 0 {
      GetCoinReads(v, o);
      SameAgrees(v, o, maps);
    } else {
      GetAtAgrees(v.base, k - 1, o, maps[..|maps| - 1]);
      UpperKeeps(v, GetAt(v.base, k - 1, o).view);
    }
  }

  /** Reading changes no level's meaning, so every level still agrees. */
  lemma {:induction false} SameAgrees(v: View, o: OutPoint, maps: seq<Plain>)
    requires Inv(v) && Agrees(v, maps)
    ensures Agrees(GetCoin(v, o).view, maps)
  {
    GetCoinReads(v, o);
    if v.Cache? && o !in v.coins {
      SameAgrees(v.base, o, maps[..|maps| - 1]);
    }
  }

  /** A cache keeps its flags and meaning when the view below changes but keeps its meaning. */
  lemma UpperKeeps(v: Caches, b: View)
    requires Inv(v) && Inv(b) && SameMeaning(b, v.base) && b.Db? == v.base.Db?
    ensures Inv(Cache(b, v.coins)) && SameMeaning(Cache(b, v.coins), v)
  {
    forall o | o in v.coins
      ensures EntryOk(b, o, v.coins[o])
    {
      assert EntryOk(v.base, o, v.coins[o]);
      assert Lookup(b, o) == Lookup(v.base, o);
    }
    forall o
      ensures Lookup(Cache(b, v.coins), o) == Lookup(v, o)
    {
      assert Lookup(b, o) == Lookup(v.base, o);
    }
  }

  lemma {:induction false} DropAtAgrees(v: View, k: nat, o: OutPoint, maps: seq<Plain>)
    requires Inv(v) && Agrees(v, maps) && k < Depth(v)
    ensures var w := DropAt(v, k, o);
      Inv(w) && SameMeaning(w, v) && Agrees(w, maps) && Depth(w) == Depth(v)
  {
    if k == 0 {
      UncacheMeaning(v, o);
    } else {
      DropAtAgrees(v.base, k - 1, o, maps[..|maps| - 1]);
      UpperKeeps(v, DropAt(v.base, k - 1, o));
    }
  }

  lemma {:induction false} WriteAtAgrees(v: View, k: nat, maps: seq<Plain>)
    requires Inv(v) && Agrees(v, maps) && k < Depth(v)
    ensures var r := WriteAt(v, k); var top := |maps| - 1;
      && r.Some? && Inv(r.value) && SameMeaning(r.value, v) && Depth(r.value) == Depth(v)
      && Agrees(r.value, maps[top - k - 1 := maps[top - k]])
  {
    var top := |maps| - 1;
    var maps' := maps[top - k - 1 := maps[top - k]];
    if k == 0 {
      FlushMeaning(v);
      var w := Flush(v).value;
      assert maps'[..top][..top - 1] == maps[..top][..top - 1];
      assert maps'[..top][top - 1] == maps[top];
      assert v.base.Cache? ==> Agrees(v.base.base, maps[..top][..top - 1]);
      assert Agrees(w.base, maps'[..top]);
    } else {
      WriteAtAgrees(v.base, k - 1, maps[..top]);
      UpperKeeps(v, WriteAt(v.base, k - 1).value);
      assert maps'[..top] == maps[..top][top - 1 - (k - 1) - 1 := maps[..top][top - 1 - (k - 1)]];
    }
  }

  lemma TopAgrees(w: Caches, v: Caches, maps: seq<Plain>, m: Plain)
    requires Agrees(v, maps) && Depth(w) == Depth(v)
    requires Agrees(w.base, maps[..|maps| - 1])
    requires forall o :: Lookup(w, o) == Find(m, o)
    ensures Agrees(w, maps[|maps| - 1 := m])
  {
    assert maps[|maps| - 1 := m][..|maps| - 1] == maps[..|maps| - 1];
  }

  /** Every allowed operation succeeds, keeps the flags right, answers as the plain machine
      does and leaves every level agreeing with it. */
  lemma StepRefines(v: View, maps: seq<Plain>, op: Op)
    requires Inv(v) && Agrees(v, maps) && Allowed(maps, op)
    ensures var r := Step(v, op); var p := PlainStep(maps, op);
      r.Done? && Inv(r.view) && r.answer == p.1 && p.0 != [] && Agrees(r.view, p.0)
  {
    var top := |maps| - 1;
    match op
    case Get(k, o) => GetAtAgrees(v, k, o, maps);
    case Drop(k, o) => DropAtAgrees(v, k, o, maps);
    case Write(k) => WriteAtAgrees(v, k, maps);
    case Add(o, c, p) =>
      assert Lookup(v, o) == Find(maps[top], o);
      AddCoinMeaning(v, o, c, p);
      if !c.script.unspendable {
        AddCoinContract(v, o, c, p);
        TopAgrees(AddCoin(v, o, c, p).view, v, maps, maps[top][o := c]);
      }
    case Spend(o) =>
      SpendCoinMeaning(v, o);
      assert Lookup(v, o) == Find(maps[top], o);
      var w := SpendCoin(v, o).view;
      if o !in v.coins {
        GetCoinReads(v.base, o);
        SameAgrees(v.base, o, maps[..top]);
      }
      TopAgrees(w, v, maps, maps[top] - {o});
    case Push =>
      assert (maps + [maps[top]])[..top + 1] == maps;
    case Pop =>
  }

  // ----- Refinement, whole runs -----

  ghost predicate AllAllowed(maps: seq<Plain>, ops: seq<Op>)
    requires maps != []
    decreases |ops|
  {
    ops != [] ==>
      && Allowed(maps, ops[0])
      && PlainStep(maps, ops[0]).0 != []
      && AllAllowed(PlainStep(maps, ops[0]).0, ops[1..])
  }

  function PlainRun(maps: seq<Plain>, ops: seq<Op>): seq<Option<Coin>>
    requires maps != [] && AllAllowed(maps, ops)
    decreases |ops|
  {
    if ops == [] then []
    else
      var r := PlainStep(maps, ops[0]);
      [r.1] + PlainRun(r.0, ops[1..])
  }

  /** `Run(v, ops, answers, w)`: the operations run from `v` without an exception, give
      `answers` and end in `w`. */
  ghost predicate Run(v: View, ops: seq<Op>, answers: seq<Option<Coin>>, w: View)
    decreases |ops|
  {
    if ops == [] then answers == [] && w == v
    else
      && Applicable(Depth(v), ops[0])
      && answers != []
      && var r := Step(v, ops[0]);
         r.Done? && answers[0] == r.answer && Run(r.view, ops[1..], answers[1..], w)
  }

  /** Every run of allowed operations, over a stack of any depth, throws nothing, gives exactly
      the plain machine's answers and keeps the flag invariant. */
  lemma {:induction false} RunRefines(v: View, maps: seq<Plain>, ops: seq<Op>) returns (w: View)
    requires Inv(v) && Agrees(v, maps) && AllAllowed(maps, ops)
    ensures Run(v, ops, PlainRun(maps, ops), w) && Inv(w)
    decreases |ops|
  {
    if ops == [] {
      w := v;
    } else {
      StepRefines(v, maps, ops[0]);
      w := RunRefines(Step(v, ops[0]).view, PlainStep(maps, ops[0]).0, ops[1..]);
      var r := PlainStep(maps, ops[0]);
      assert PlainRun(maps, ops)[1..] == PlainRun(r.0, ops[1..]);
    }
  }

  // ----- What is reachable from a database -----

  /** The plain meaning of a database, which may hold spent coins. */
  function PlainOf(stored: map<OutPoint, Coin>): Plain {
    map o | o in stored && !stored[o].IsSpent() :: stored[o]
  }

  /** A run has one outcome. */
  lemma {:induction false} RunUnique(v: View, ops: seq<Op>, a: seq<Option<Coin>>, w: View, b: seq<Option<Coin>>,
        x: View)
    requires Run(v, ops, a, w) && Run(v, ops, b, x)
    ensures a == b && w == x
    decreases |ops|
  {
    if ops != [] {
      RunUnique(Step(v, ops[0]).view, ops[1..], a[1..], w, b[1..], x);
      assert a == [a[0]] + a[1..] && b == [b[0]] + b[1..];
    }
  }

  /** The cache at a level, counted from the top. */
  function LevelAt(v: View, k: nat): Caches
    requires k < Depth(v)
  {
    if k == 0 then v else LevelAt(v.base, k - 1)
  }

  lemma {:induction false} LevelInv(v: View, k: nat)
    requires Inv(v) && k < Depth(v)
    ensures Inv(LevelAt(v, k))
  {
    if k > 0 {
      LevelInv(v.base, k - 1);
    }
  }

  /** Whatever is done, from any database: at every level every entry is in one of the five
      documented states, and only a cache right over the database holds the fourth; the answers are
      those of plain maps. */
  lemma ReachableStates(stored: map<OutPoint, Coin>, ops: seq<Op>, answers: seq<Option<Coin>>, w: View)
    requires AllAllowed([PlainOf(stored)], ops) && Run(Db(stored), ops, answers, w)
    ensures answers == PlainRun([PlainOf(stored)], ops)
    ensures forall k: nat, o :: k < Depth(w) && o in LevelAt(w, k).coins ==>
      var e := LevelAt(w, k).coins[o];
      ValidState(e) && (e.coin.IsSpent() && e.isFresh ==> LevelAt(w, k).base.Db?)
  {
    var maps := [PlainOf(stored)];
    assert Agrees(Db(stored), maps);
    var x := RunRefines(Db(stored), maps, ops);
    RunUnique(Db(stored), ops, answers, w, PlainRun(maps, ops), x);
    forall k: nat, o | k < Depth(w) && o in LevelAt(w, k).coins
      ensures var e := LevelAt(w, k).coins[o];
        ValidState(e) && (e.coin.IsSpent() && e.isFresh ==> LevelAt(w, k).base.Db?)
    {
      LevelInv(w, k);
      EntryStates(LevelAt(w, k), o);
    }
  }
}
