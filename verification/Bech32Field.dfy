/** The field of 1024 elements as vectors of ten bits, with the powers of a primitive element: what the
    Bech32 generator owes its error detection to. */
module Bech32Field {

  /** Sums of powers of z, lowest first. */
  type Ten = bv10

  function Add(u: Ten, v: Ten): Ten {
    u ^ v
  }

  lemma AddNone(u: Ten)
    ensures Add(u, u) == 0 && Add(u, 0) == u && Add(0, u) == u
  {
  }

  lemma AddSwap(u: Ten, v: Ten)
    ensures Add(u, v) == Add(v, u)
  {
  }

  lemma AddAssoc(u: Ten, v: Ten, w: Ten)
    ensures Add(Add(u, v), w) == Add(u, Add(v, w))
  {
  }

  lemma AddCancel(u: Ten, v: Ten)
    ensures Add(u, v) == 0 ==> u == v
  {
  }

  lemma AddPairs(a: Ten, b: Ten, c: Ten, d: Ten)
    ensures Add(Add(a, b), Add(c, d)) == Add(Add(a, c), Add(b, d))
  {
    hide Add;
    AddAssoc(a, b, Add(c, d));
    AddAssoc(b, c, d);
    AddSwap(b, c);
    AddAssoc(c, b, d);
    AddAssoc(a, c, Add(b, d));
  }

  function Pick(b: bool, v: Ten): Ten {
    if b then v else 0
  }

  lemma PickSum(b: bool, c: bool, v: Ten)
    ensures Pick(b != c, v) == Add(Pick(b, v), Pick(c, v))
  {
    AddNone(v);
    AddNone(0);
  }

  function Double(v: Ten): Ten {
    v << 1
  }

  predicate Top(v: Ten) {
    v & 0x200 != 0
  }

  /** Times z, where z^10 = z^8 + z^5 + z + 1. */
  function Z(v: Ten): Ten {
    (v << 1) ^ (if v & 0x200 == 0 then 0 else 0x123)
  }

  lemma ZParts(v: Ten)
    ensures Z(v) == Add(Double(v), Pick(Top(v), 0x123))
  {
  }

  lemma DoubleAdd(u: Ten, v: Ten)
    ensures Double(Add(u, v)) == Add(Double(u), Double(v))
  {
  }

  lemma TopAdd(u: Ten, v: Ten)
    ensures Top(Add(u, v)) == (Top(u) != Top(v))
  {
  }

  lemma ZAdd(u: Ten, v: Ten)
    ensures Z(Add(u, v)) == Add(Z(u), Z(v))
  {
    hide Add, Pick, Double, Top, Z;
    ZParts(u);
    ZParts(v);
    ZParts(Add(u, v));
    DoubleAdd(u, v);
    TopAdd(u, v);
    PickSum(Top(u), Top(v), 0x123);
    AddPairs(Double(u), Double(v), Pick(Top(u), 0x123), Pick(Top(v), 0x123));
  }

  lemma ZNone()
    ensures Z(0) == 0
  {
  }

  lemma ZKernel(v: Ten)
    ensures Z(v) == 0 <==> v == 0
  {
  }

  // ----- Powers of z -----

  ghost function Zn(n: nat, v: Ten): Ten {
    if n == 0 then v else Z(Zn(n - 1, v))
  }

  lemma {:induction false} ZnAdd(n: nat, u: Ten, v: Ten)
    ensures Zn(n, Add(u, v)) == Add(Zn(n, u), Zn(n, v))
    decreases n
  {
    hide Z, Add;
    if n > 0 {
      ZnAdd(n - 1, u, v);
      ZAdd(Zn(n - 1, u), Zn(n - 1, v));
    }
  }

  lemma {:induction false} ZnKernel(n: nat, v: Ten)
    ensures Zn(n, v) == 0 <==> v == 0
    decreases n
  {
    hide Z;
    if n > 0 {
      ZnKernel(n - 1, v);
      ZKernel(Zn(n - 1, v));
    }
  }

  lemma ZnInjective(n: nat, u: Ten, v: Ten)
    requires Zn(n, u) == Zn(n, v)
    ensures u == v
  {
    hide Z, Zn, Add;
    ZnAdd(n, u, v);
    AddNone(Zn(n, u));
    ZnKernel(n, Add(u, v));
    AddCancel(u, v);
  }

  lemma {:induction false} ZnPlus(m: nat, n: nat, v: Ten)
    ensures Zn(m + n, v) == Zn(m, Zn(n, v))
    decreases m
  {
    hide Z;
    if m > 0 {
      ZnPlus(m - 1, n, v);
    }
  }

  // ----- Products -----

  function Unit(i: nat): Ten
    requires i < 10
  {
    if i == 0 then 1 else if i == 1 then 2 else if i == 2 then 4 else if i == 3 then 8 else if i == 4 then 16
    else if i == 5 then 32 else if i == 6 then 64 else if i == 7 then 128 else if i == 8 then 256 else 512
  }

  predicate Coef(w: Ten, i: nat)
    requires i < 10
  {
    if i == 0 then w & 1 != 0 else if i == 1 then w & 2 != 0 else if i == 2 then w & 4 != 0
    else if i == 3 then w & 8 != 0 else if i == 4 then w & 16 != 0 else if i == 5 then w & 32 != 0
    else if i == 6 then w & 64 != 0 else if i == 7 then w & 128 != 0 else if i == 8 then w & 256 != 0
    else w & 512 != 0
  }

  /** The first `n` terms of a product. */
  ghost function Terms(n: nat, w: Ten, v: Ten): Ten
    requires n <= 10
  {
    if n == 0 then 0 else Add(Terms(n - 1, w, v), Pick(Coef(w, n - 1), Zn(n - 1, v)))
  }

  ghost function Mul(w: Ten, v: Ten): Ten {
    Terms(10, w, v)
  }

  lemma PickAdd(b: bool, u: Ten, v: Ten)
    ensures Pick(b, Add(u, v)) == Add(Pick(b, u), Pick(b, v)) && Pick(b, Z(u)) == Z(Pick(b, u))
  {
    AddNone(0);
  }

  lemma {:induction false} TermsAdd(n: nat, w: Ten, u: Ten, v: Ten)
    requires n <= 10
    ensures Terms(n, w, Add(u, v)) == Add(Terms(n, w, u), Terms(n, w, v))
    decreases n
  {
    hide Add, Pick, Zn, Coef, Z;
    if n == 0 {
      AddNone(0);
    } else {
      TermsAdd(n - 1, w, u, v);
      ZnAdd(n - 1, u, v);
      PickAdd(Coef(w, n - 1), Zn(n - 1, u), Zn(n - 1, v));
      var b := Coef(w, n - 1);
      AddPairs(Terms(n - 1, w, u), Terms(n - 1, w, v), Pick(b, Zn(n - 1, u)), Pick(b, Zn(n - 1, v)));
    }
  }

  lemma {:induction false} TermsZ(n: nat, w: Ten, v: Ten)
    requires n <= 10
    ensures Terms(n, w, Z(v)) == Z(Terms(n, w, v))
    decreases n
  {
    hide Add, Pick, Zn, Coef, Z;
    if n == 0 {
      ZNone();
    } else {
      TermsZ(n - 1, w, v);
      ZnZ(n - 1, v);
      PickAdd(Coef(w, n - 1), Zn(n - 1, v), 0);
      ZAdd(Terms(n - 1, w, v), Pick(Coef(w, n - 1), Zn(n - 1, v)));
    }
  }

  lemma ZnZ(n: nat, v: Ten)
    ensures Zn(n, Z(v)) == Z(Zn(n, v))
  {
    hide Z;
    ZnPlus(n, 1, v);
    assert Zn(1, v) == Z(Zn(0, v));
    assert Zn(n + 1, v) == Z(Zn(n, v));
  }

  lemma {:induction false} MulZn(n: nat, w: Ten, v: Ten)
    ensures Mul(w, Zn(n, v)) == Zn(n, Mul(w, v))
    decreases n
  {
    hide Z, Terms;
    if n > 0 {
      MulZn(n - 1, w, v);
      TermsZ(10, w, Zn(n - 1, v));
    }
  }

  /** Products with two factors can be taken in any order. */
  lemma {:induction false} TermsSwap(n: nat, w: Ten, u: Ten, v: Ten)
    requires n <= 10
    ensures Mul(u, Terms(n, w, v)) == Terms(n, w, Mul(u, v))
    decreases n
  {
    hide Add, Pick, Zn, Coef, Z, Mul;
    if n == 0 {
      MulNone(u);
    } else {
      TermsSwap(n - 1, w, u, v);
      MulAdd(u, Terms(n - 1, w, v), Pick(Coef(w, n - 1), Zn(n - 1, v)));
      MulPick(u, Coef(w, n - 1), Zn(n - 1, v));
      MulZn(n - 1, u, v);
    }
  }

  lemma MulAdd(w: Ten, u: Ten, v: Ten)
    ensures Mul(w, Add(u, v)) == Add(Mul(w, u), Mul(w, v))
  {
    TermsAdd(10, w, u, v);
  }

  lemma MulNone(w: Ten)
    ensures Mul(w, 0) == 0
  {
    hide Mul;
    AddNone(0);
    MulAdd(w, 0, 0);
    AddNone(Mul(w, 0));
    AddSame(Mul(w, 0));
  }

  lemma AddSame(u: Ten)
    ensures u == Add(u, u) ==> u == 0
  {
  }

  lemma MulPick(u: Ten, b: bool, v: Ten)
    ensures Mul(u, Pick(b, v)) == Pick(b, Mul(u, v))
  {
    hide Mul;
    MulNone(u);
  }

  function Mask(n: nat): Ten
    requires n <= 10
  {
    if n == 10 then 0x3ff else Unit(n) - 1
  }

  /** The first `n` bits of a vector. */
  function Keep(n: nat, v: Ten): Ten
    requires n <= 10
  {
    v & Mask(n)
  }

  lemma {:induction false} UnitIs(i: nat)
    requires i < 10
    ensures Zn(i, 1) == Unit(i)
    decreases i
  {
    if i > 0 {
      UnitIs(i - 1);
    }
  }

  lemma MaskNext(n: nat)
    requires n < 10
    ensures Mask(n) ^ Unit(n) == Mask(n + 1)
  {
  }

  lemma PickIs(n: nat, v: Ten)
    requires n < 10
    ensures Pick(Coef(v, n), Unit(n)) == v & Unit(n)
  {
  }

  lemma Distributes(v: Ten, a: Ten, b: Ten)
    ensures (v & a) ^ (v & b) == v & (a ^ b)
  {
  }

  lemma KeepNext(n: nat, v: Ten)
    requires n < 10
    ensures Add(Keep(n, v), Pick(Coef(v, n), Unit(n))) == Keep(n + 1, v)
  {
    hide Mask, Unit, Pick, Coef;
    MaskNext(n);
    PickIs(n, v);
    Distributes(v, Mask(n), Unit(n));
  }

  lemma {:induction false} TermsOne(n: nat, v: Ten)
    requires n <= 10
    ensures Terms(n, v, 1) == Keep(n, v)
    decreases n
  {
    if n == 0 {
      assert v & 0 == 0;
    } else {
      hide Add, Pick, Coef, Unit, Zn, Keep;
      TermsOne(n - 1, v);
      UnitIs(n - 1);
      KeepNext(n - 1, v);
    }
  }

  /** Every vector is the sum of powers of z that it says. */
  lemma MulOne(v: Ten)
    ensures Mul(v, 1) == v
  {
    TermsOne(10, v);
  }

  lemma MulSwap(u: Ten, w: Ten)
    ensures Mul(u, w) == Mul(w, u)
  {
    hide Mul, Terms;
    MulOne(u);
    MulOne(w);
    MulExchange(u, w, 1);
  }

  lemma MulExchange(u: Ten, w: Ten, v: Ten)
    ensures Mul(u, Mul(w, v)) == Mul(w, Mul(u, v))
  {
    TermsSwap(10, w, u, v);
  }

  lemma MulAssoc(u: Ten, w: Ten, v: Ten)
    ensures Mul(Mul(u, w), v) == Mul(u, Mul(w, v))
  {
    hide Mul;
    MulSwap(Mul(u, w), v);
    MulExchange(v, u, w);
    MulSwap(v, w);
  }

  /** A power of z as a product. */
  lemma PowerIs(n: nat, v: Ten)
    ensures Zn(n, v) == Mul(Zn(n, 1), v)
  {
    hide Mul, Zn;
    MulOne(v);
    MulZn(n, v, 1);
    MulSwap(v, Zn(n, 1));
  }

  // ----- Products of constants -----

  /** A product, from the highest bit on. */
  function Times(w: Ten, v: Ten): Ten {
    More(w & 1 != 0, v, More(w & 2 != 0, v, More(w & 4 != 0, v, More(w & 8 != 0, v, More(w & 16 != 0, v,
      More(w & 32 != 0, v, More(w & 64 != 0, v, More(w & 128 != 0, v, More(w & 256 != 0, v,
        More(w & 512 != 0, v, 0))))))))))
  }

  function More(b: bool, v: Ten, rest: Ten): Ten {
    (if b then v else 0) ^ (rest << 1) ^ (if rest & 0x200 == 0 then 0 else 0x123)
  }

  lemma MoreIs(b: bool, v: Ten, rest: Ten)
    ensures More(b, v, rest) == Add(Pick(b, v), Z(rest))
  {
  }

  /** The terms of a product from one on, divided by the power of z they have in common. */
  ghost function Tail(k: nat, w: Ten, v: Ten): Ten
    requires k <= 10
    decreases 10 - k
  {
    if k == 10 then 0 else More(Coef(w, k), v, Tail(k + 1, w, v))
  }

  lemma {:induction false} TailIs(k: nat, w: Ten, v: Ten)
    requires k <= 10
    ensures Add(Terms(k, w, v), Zn(k, Tail(k, w, v))) == Mul(w, v)
    decreases 10 - k
  {
    hide Add, Pick, Coef, Z, More;
    if k == 10 {
      ZnKernel(10, 0);
      AddNone(Mul(w, v));
    } else {
      TailIs(k + 1, w, v);
      var p, t := Pick(Coef(w, k), v), Tail(k + 1, w, v);
      MoreIs(Coef(w, k), v, t);
      ZnAdd(k, p, Z(t));
      ZnZ(k, t);
      ZnPick(k, Coef(w, k), v);
      AddAssoc(Terms(k, w, v), Zn(k, p), Zn(k + 1, t));
    }
  }

  lemma ZnPick(k: nat, b: bool, v: Ten)
    ensures Zn(k, Pick(b, v)) == Pick(b, Zn(k, v))
  {
    hide Zn;
    ZnKernel(k, 0);
  }

  lemma TimesIs(w: Ten, v: Ten)
    ensures Times(w, v) == Mul(w, v)
  {
    hide More, Add, Mul;
    TailIs(0, w, v);
    AddNone(Tail(0, w, v));
    assert Tail(9, w, v) == More(Coef(w, 9), v, Tail(10, w, v));
    assert Tail(7, w, v) == More(Coef(w, 7), v, More(Coef(w, 8), v, Tail(9, w, v)));
    assert Tail(5, w, v) == More(Coef(w, 5), v, More(Coef(w, 6), v, Tail(7, w, v)));
    assert Tail(3, w, v) == More(Coef(w, 3), v, More(Coef(w, 4), v, Tail(5, w, v)));
    assert Tail(1, w, v) == More(Coef(w, 1), v, More(Coef(w, 2), v, Tail(3, w, v)));
  }

  /** The product of two powers is a power. */
  lemma PowerSum(m: nat, n: nat)
    ensures Zn(m + n, 1) == Times(Zn(m, 1), Zn(n, 1))
  {
    hide Zn, Mul, Times;
    ZnPlus(m, n, 1);
    PowerIs(m, Zn(n, 1));
    TimesIs(Zn(m, 1), Zn(n, 1));
  }

  lemma SmallPowers()
    ensures Zn(1, 1) == 2 && Zn(2, 1) == 4 && Zn(4, 1) == 16
    ensures Zn(8, 1) == 256 && Zn(16, 1) == 281
  {
    hide Zn;
    UnitIs(1);
    UnitIs(2);
    UnitIs(4);
    UnitIs(8);
    PowerSum(8, 8);
  }

  lemma LargePowers()
    ensures Zn(32, 1) == 88 && Zn(64, 1) == 239 && Zn(128, 1) == 838
  {
    hide Zn;
    SmallPowers();
    PowerSum(16, 16);
    PowerSum(32, 32);
    PowerSum(64, 64);
  }

  lemma LargestPowers()
    ensures Zn(256, 1) == 485 && Zn(512, 1) == 539 && Zn(1024, 1) == 2
  {
    hide Zn;
    LargePowers();
    PowerSum(128, 128);
    PowerSum(256, 256);
    PowerSum(512, 512);
  }

  /** z has order 1023. */
  lemma Order(v: Ten)
    ensures Zn(1023, v) == v
  {
    hide Zn, Mul, Z;
    LargestPowers();
    SmallPowers();
    PowerIs(1024, v);
    PowerIs(1, v);
    ZnPlus(1, 1023, v);
    ZnInjective(1, Zn(1023, v), v);
  }

  lemma Power33()
    ensures Zn(33, 1) == 176
  {
    hide Zn;
    SmallPowers();
    LargePowers();
    PowerSum(32, 1);
  }

  lemma Power93()
    ensures Zn(93, 1) == 874
  {
    hide Zn;
    SmallPowers();
    LargePowers();
    PowerSum(64, 16);
    PowerSum(80, 8);
    PowerSum(88, 4);
    PowerSum(92, 1);
  }

  lemma Power341()
    ensures Zn(341, 1) == 54
  {
    hide Zn;
    SmallPowers();
    LargePowers();
    LargestPowers();
    PowerSum(256, 64);
    PowerSum(320, 16);
    PowerSum(336, 4);
    PowerSum(340, 1);
  }

  /** A power of z whose difference from one has an inverse moves every vector but zero. */
  lemma Moves(n: nat, inverse: Ten, v: Ten)
    requires Times(inverse, Add(Zn(n, 1), 1)) == 1 && Zn(n, v) == v
    ensures v == 0
  {
    hide Zn, Mul, Times, Add;
    var d := Add(Zn(n, 1), 1);
    TimesIs(inverse, d);
    PowerIs(n, v);
    MulOne(v);
    MulSwap(v, 1);
    MulSwap(d, v);
    MulAdd(v, Zn(n, 1), 1);
    MulSwap(v, Zn(n, 1));
    AddNone(v);
    MulAssoc(inverse, d, v);
    MulNone(inverse);
  }

  lemma Moves33(v: Ten)
    requires Zn(33, v) == v
    ensures v == 0
  {
    hide Zn;
    Power33();
    Moves(33, 190, v);
  }

  lemma Moves93(v: Ten)
    requires Zn(93, v) == v
    ensures v == 0
  {
    hide Zn;
    Power93();
    Moves(93, 211, v);
  }

  lemma Moves341(v: Ten)
    requires Zn(341, v) == v
    ensures v == 0
  {
    hide Zn;
    Power341();
    Moves(341, 54, v);
  }

  // ----- No smaller period -----

  lemma {:induction false} Repeats(k: nat, j: nat, v: Ten)
    requires Zn(k, v) == v
    ensures k * j >= 0 && Zn(k * j, v) == v
    decreases j
  {
    hide Zn;
    if j == 0 {
      assert Zn(0, v) == v by { ZeroPower(v); }
    } else {
      Repeats(k, j - 1, v);
      assert k * j == k * (j - 1) + k;
      ZnPlus(k * (j - 1), k, v);
    }
  }

  lemma ZeroPower(v: Ten)
    ensures Zn(0, v) == v
  {
  }

  /** If k times j is one more than a multiple of m, and m times c is 1023, a period k is a period c. */
  lemma Smaller(k: nat, j: nat, m: nat, q: nat, c: nat, v: Ten)
    requires Zn(k, v) == v && k * j == m * q + 1 && m * c == 1023
    ensures Zn(c, v) == v
  {
    hide Zn;
    Repeats(k, j, v);
    Repeats(k * j, c, v);
    Order(v);
    Repeats(1023, q, v);
    Regroup(k * j, m, q, c);
    ZnPlus(c, 1023 * q, v);
  }

  lemma Regroup(kj: nat, m: nat, q: nat, c: nat)
    requires kj == m * q + 1 && m * c == 1023
    ensures kj * c == c + 1023 * q
  {
    assert (m * q + 1) * c == m * q * c + c;
    assert m * q * c == m * c * q;
  }

  function Inverse3(r: nat): nat {
    if r == 1 then 1 else 2
  }

  function Inverse11(r: nat): nat {
    if r == 1 then 1 else
    if r == 2 then 6 else
    if r == 3 then 4 else
    if r == 4 then 3 else
    if r == 5 then 9 else
    if r == 6 then 2 else
    if r == 7 then 8 else
    if r == 8 then 7 else
    if r == 9 then 5 else 10
  }

  function Inverse31(r: nat): nat {
    if r == 1 then 1 else if r == 2 then 16 else if r == 3 then 21 else if r == 4 then 8 else
    if r == 5 then 25 else if r == 6 then 26 else if r == 7 then 9 else if r == 8 then 4 else
    if r == 9 then 7 else if r == 10 then 28 else if r == 11 then 17 else if r == 12 then 13 else
    if r == 13 then 12 else if r == 14 then 20 else if r == 15 then 29 else if r == 16 then 2 else
    if r == 17 then 11 else if r == 18 then 19 else if r == 19 then 18 else if r == 20 then 14 else
    if r == 21 then 3 else if r == 22 then 24 else if r == 23 then 27 else if r == 24 then 22 else
    if r == 25 then 5 else if r == 26 then 6 else if r == 27 then 23 else if r == 28 then 10 else
    if r == 29 then 15 else 30
  }

  lemma Inverses3(r: nat)
    requires 0 < r < 3
    ensures (r * Inverse3(r)) % 3 == 1
  {
  }

  lemma Inverses11(r: nat)
    requires 0 < r < 11
    ensures (r * Inverse11(r)) % 11 == 1
  {
  }

  lemma Inverses31(r: nat)
    requires 0 < r < 31
    ensures (r * Inverse31(r)) % 31 == 1
  {
  }

  /** k times the inverse of its remainder is one more than a multiple. */
  lemma Inverts(k: nat, m: nat, j: nat) returns (q: nat)
    requires m > 1 && ((k % m) * j) % m == 1
    ensures k * j == m * q + 1
  {
    var r, d := k % m, k / m;
    var s := r * j / m;
    assert r * j == m * s + 1;
    assert k == m * d + r;
    Expand(m, d, r, j, s);
    q := d * j + s;
  }

  lemma Expand(m: nat, d: nat, r: nat, j: nat, s: nat)
    requires r * j == m * s + 1
    ensures d * j + s >= 0 && (m * d + r) * j == m * (d * j + s) + 1
  {
    assert (m * d + r) * j == m * d * j + r * j;
    assert m * (d * j + s) == m * d * j + m * s;
  }

  /** No vector but zero has a period below 1023. */
  lemma NoPeriod(k: nat, v: Ten)
    requires 0 < k < 1023 && Zn(k, v) == v
    ensures v == 0
  {
    hide Zn, Inverse3, Inverse11, Inverse31;
    if k % 31 != 0 {
      Inverses31(k % 31);
      var q := Inverts(k, 31, Inverse31(k % 31));
      Smaller(k, Inverse31(k % 31), 31, q, 33, v);
      Moves33(v);
    } else if k % 11 != 0 {
      Inverses11(k % 11);
      var q := Inverts(k, 11, Inverse11(k % 11));
      Smaller(k, Inverse11(k % 11), 11, q, 93, v);
      Moves93(v);
    } else {
      AllDivide(k);
      Inverses3(k % 3);
      var q := Inverts(k, 3, Inverse3(k % 3));
      Smaller(k, Inverse3(k % 3), 3, q, 341, v);
      Moves341(v);
    }
  }

  lemma AllDivide(k: nat)
    requires 0 < k < 1023 && k % 31 == 0 && k % 11 == 0
    ensures 0 < k % 3 < 3
  {
  }

  /** Different powers below 1023 apart agree on zero only. */
  lemma PowersDiffer(p: nat, q: nat, v: Ten)
    requires p != q && p - 1023 < q < p + 1023 && Zn(p, v) == Zn(q, v)
    ensures v == 0
  {
    hide Zn;
    if p < q {
      ZnPlus(p, q - p, v);
      ZnInjective(p, Zn(q - p, v), v);
      NoPeriod(q - p, v);
    } else {
      ZnPlus(q, p - q, v);
      ZnInjective(q, Zn(p - q, v), v);
      NoPeriod(p - q, v);
    }
  }

  /** Three vectors whose sum, and whose sums after one and two rounds of different powers, vanish. */
  lemma Vandermonde(p1: nat, p2: nat, p3: nat, y1: Ten, y2: Ten, y3: Ten)
    requires p1 < p2 < p3 < p1 + 1023
    requires Add(Add(y1, y2), y3) == 0
    requires Add(Add(Zn(p1, y1), Zn(p2, y2)), Zn(p3, y3)) == 0
    requires Add(Add(Zn(2 * p1, y1), Zn(2 * p2, y2)), Zn(2 * p3, y3)) == 0
    ensures y1 == 0 && y2 == 0 && y3 == 0
  {
    hide Zn, Add;
    Eliminate(p1, y1, y2, y3, Zn(p1, y1), Zn(p2, y2), Zn(p3, y3));
    Twice(p1, y1);
    Eliminate(p1, Zn(p1, y1), Zn(p2, y2), Zn(p3, y3), Zn(2 * p1, y1), Zn(2 * p2, y2), Zn(2 * p3, y3));
    Factor(p1, p2, y2);
    Factor(p1, p3, y3);
    PowersDiffer(p2, p3, Add(Zn(p2, y2), Zn(p1, y2)));
    TwoVanish(p1, p2, p3, y1, y2, y3);
  }

  lemma Twice(p: nat, y: Ten)
    ensures Zn(2 * p, y) == Zn(p, Zn(p, y))
  {
    ZnPlus(p, p, y);
  }

  lemma Factor(p: nat, q: nat, y: Ten)
    ensures Add(Zn(2 * q, y), Zn(p, Zn(q, y))) == Zn(q, Add(Zn(q, y), Zn(p, y)))
  {
    hide Zn, Add;
    Twice(q, y);
    ZnPlus(p, q, y);
    ZnPlus(q, p, y);
    ZnAdd(q, Zn(q, y), Zn(p, y));
  }

  lemma TwoVanish(p1: nat, p2: nat, p3: nat, y1: Ten, y2: Ten, y3: Ten)
    requires p1 < p2 < p3 < p1 + 1023 && Add(Add(y1, y2), y3) == 0
    requires Add(Zn(p2, y2), Zn(p1, y2)) == 0 && Add(Zn(p3, y3), Zn(p1, y3)) == 0
    ensures y1 == 0 && y2 == 0 && y3 == 0
  {
    hide Zn, Add;
    AddCancel(Zn(p2, y2), Zn(p1, y2));
    AddCancel(Zn(p3, y3), Zn(p1, y3));
    PowersDiffer(p2, p1, y2);
    PowersDiffer(p3, p1, y3);
    AddNone(y1);
  }

  /** The first of three unknowns is taken out of two equations. */
  lemma Eliminate(p: nat, y1: Ten, y2: Ten, y3: Ten, z1: Ten, z2: Ten, z3: Ten)
    requires Add(Add(y1, y2), y3) == 0 && Add(Add(z1, z2), z3) == 0 && z1 == Zn(p, y1)
    ensures Add(z2, Zn(p, y2)) == Add(z3, Zn(p, y3))
  {
    hide Zn, Add;
    AddCancel(Add(y1, y2), y3);
    AddCancel(Add(z1, z2), z3);
    ZnAdd(p, y1, y2);
    AddPairs(z1, z2, z1, Zn(p, y2));
    AddNone(z1);
    AddNone(Add(z2, Zn(p, y2)));
  }
}
