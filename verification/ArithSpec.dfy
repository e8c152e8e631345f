/** Numbers in 32-bit limbs, least significant first, and what the limb loops compute step by step. */
module ArithSpec {
  import opened Common

  const BASE := 0x1_0000_0000

  type Limb = x: int | 0 <= x < BASE

  // ----- Powers of two, quotients and remainders -----

  lemma Pow2Limb()
    ensures Pow2(8) == 256 && Pow2(16) == 0x1_0000 && Pow2(32) == BASE
  {
    assert Pow2(4) == 16;
    Pow2Add(4, 4);
    Pow2Add(8, 8);
    Pow2Add(16, 16);
  }

  /** Adding a multiple of the modulus changes nothing. */
  lemma ModShift(x: int, k: int, m: int)
    requires m > 0
    ensures (x + k * m) % m == x % m
  {
    assert x + k * m == (x / m + k) * m + x % m;
    DivUnique(x + k * m, m, x / m + k, x % m);
  }

  // ----- Values -----

  function P(i: nat): (r: nat)
    ensures r > 0
  {
    Pow2(32 * i)
  }

  lemma PNext(i: nat)
    ensures P(i + 1) == BASE * P(i)
  {
    Pow2Add(32, 32 * i);
    Pow2Limb();
  }

  lemma PZero()
    ensures P(0) == 1
  {
  }

  lemma PAdd(i: nat, j: nat)
    ensures P(i + j) == P(i) * P(j)
  {
    Pow2Add(32 * i, 32 * j);
  }

  /** The value of the first `i` limbs. */
  ghost function V(s: seq<Limb>, i: nat): int
    requires i <= |s|
  {
    if i == 0 then 0 else V(s, i - 1) + s[i - 1] * P(i - 1)
  }

  /** The modulus of eight limbs. */
  const WIDTH := 8

  ghost function M(): (r: nat)
    ensures r > 0
  {
    P(WIDTH)
  }

  lemma {:induction false} VBound(s: seq<Limb>, i: nat)
    requires i <= |s|
    ensures 0 <= V(s, i) < P(i)
  {
    hide P;
    if i > 0 {
      VBound(s, i - 1);
      PNext(i - 1);
      MulMono(s[i - 1], BASE - 1, P(i - 1));
      MulMono(0, s[i - 1], P(i - 1));
    } else {
      assert P(0) == 1 by { PZero(); }
    }
  }

  lemma {:induction false} VSame(s: seq<Limb>, t: seq<Limb>, i: nat)
    requires i <= |s| && i <= |t| && forall j :: 0 <= j < i ==> s[j] == t[j]
    ensures V(s, i) == V(t, i)
  {
    if i > 0 {
      VSame(s, t, i - 1);
    }
  }

  /** Limbs agree from `m` on: the values differ as their lower parts do. */
  lemma {:induction false} VTop(s: seq<Limb>, t: seq<Limb>, m: nat, i: nat)
    requires m <= i <= |s| && i <= |t| && forall j :: m <= j < i ==> s[j] == t[j]
    ensures V(s, i) - V(s, m) == V(t, i) - V(t, m)
    decreases i
  {
    if m < i {
      VTop(s, t, m, i - 1);
    }
  }

  /** A value split at a limb. */
  lemma {:induction false} VSplit(s: seq<Limb>, k: nat, i: nat)
    requires k <= i <= |s|
    ensures V(s, i) == V(s, k) + P(k) * V(s[k..], i - k)
    decreases i
  {
    hide P;
    if k < i {
      VSplit(s, k, i - 1);
      PAdd(k, i - 1 - k);
      var rest, x, p, q := V(s[k..], i - 1 - k), s[i - 1], P(k), P(i - 1 - k);
      assert s[k..][i - k - 1] == x;
      PlusMul(p, rest, x * q);
      MulAssoc(x, p, q);
    }
  }

  lemma {:induction false} VZero(s: seq<Limb>, i: nat)
    requires i <= |s| && forall j :: 0 <= j < i ==> s[j] == 0
    ensures V(s, i) == 0
  {
    if i > 0 {
      VZero(s, i - 1);
    }
  }

  lemma {:induction false} VOnes(s: seq<Limb>, i: nat)
    requires i <= |s| && forall j :: 0 <= j < i ==> s[j] == BASE - 1
    ensures V(s, i) == P(i) - 1
  {
    hide P;
    if i > 0 {
      VOnes(s, i - 1);
      PNext(i - 1);
    } else {
      PZero();
    }
  }

  /** Complements add up to all ones. */
  lemma {:induction false} VComplement(s: seq<Limb>, t: seq<Limb>, i: nat)
    requires i <= |s| && i <= |t| && forall j :: 0 <= j < i ==> t[j] == BASE - 1 - s[j]
    ensures V(t, i) == P(i) - 1 - V(s, i)
  {
    hide P;
    if i > 0 {
      VComplement(s, t, i - 1);
      PNext(i - 1);
      MulPlus(BASE - 1, s[i - 1], P(i - 1));
    } else {
      PZero();
    }
  }

  // ----- Carries -----

  /** One step of a carry loop: limb and carry split a sum. */
  lemma CarryStep(low: int, carry: int, n: int, limb: int, carry2: int, p: int, sum: int, more: int)
    requires low + carry * p == sum && n == carry + more && n == carry2 * BASE + limb
    ensures (low + limb * p) + carry2 * (BASE * p) == sum + more * p
  {
    assert carry2 * (BASE * p) == (carry2 * BASE) * p;
    assert (carry + more) * p == carry * p + more * p;
    assert (carry2 * BASE + limb) * p == (carry2 * BASE) * p + limb * p;
  }

  lemma PlusMul(a: int, b: int, c: int)
    ensures a * (b + c) == a * b + a * c
  {
  }

  // ----- Bitwise or -----

  /** Bitwise disjunction. */
  function Or(a: nat, b: nat): nat {
    if a == 0 then b
    else if b == 0 then a
    else (if a % 2 + b % 2 > 0 then 1 else 0) + 2 * Or(a / 2, b / 2)
  }

  /** Where no bit is shared, or adds. */
  lemma {:induction false} OrAdds(a: nat, b: nat, s: nat)
    requires a % Pow2(s) == 0 && b < Pow2(s)
    ensures Or(a, b) == a + b
    decreases s
  {
    if a != 0 && b != 0 {
      var h := Pow2(s - 1);
      var q := a / Pow2(s);
      assert a == q * (2 * h) == 2 * (q * h);
      DivUnique(a / 2, h, q, 0);
      OrAdds(a / 2, b / 2, s - 1);
    }
  }

  lemma {:induction false} OrSym(a: nat, b: nat)
    ensures Or(a, b) == Or(b, a)
  {
    if a != 0 && b != 0 {
      OrSym(a / 2, b / 2);
    }
  }

  // ----- Shifting left -----

  /** The part of a shifted limb that stays, and the part that moves up. */
  function Low(a: seq<Limb>, s: nat, i: int): (r: int)
    ensures 0 <= r < BASE
  {
    if 0 <= i < |a| then (a[i] as int * Pow2(s)) % BASE else 0
  }

  function High(a: seq<Limb>, s: nat, i: int): int {
    if 0 <= i < |a| then (a[i] as int * Pow2(s)) / BASE else 0
  }

  /** What moves up is the limb shifted right; it leaves room for what stays of the next limb. */
  lemma ShiftParts(a: seq<Limb>, s: nat, i: nat)
    requires i < |a| && s < 32
    ensures High(a, s, i) == a[i] / Pow2(32 - s) && 0 <= High(a, s, i) < Pow2(s)
    ensures a[i] as int * Pow2(s) == High(a, s, i) * BASE + Low(a, s, i)
    ensures Low(a, s, i) % Pow2(s) == 0 && Low(a, s, i) + Pow2(s) <= BASE
  {
    var S, T, x := Pow2(s), Pow2(32 - s), a[i] as int;
    Pow2Add(s, 32 - s);
    Pow2Limb();
    assert S * T == BASE;
    DivMod(x, T);
    var q, r := x / T, x % T;
    MulAssoc(q, T, S);
    MulPlus(q * T, r, S);
    assert T * S == S * T;
    assert x * S == q * BASE + r * S;
    MulMono(0, r, S);
    MulMono(r + 1, T, S);
    MulPlus(r, 1, S);
    DivUnique(x * S, BASE, q, r * S);
    DivUnique(r * S, S, r, 0);
    if q >= S {
      MulMono(S, q, T);
    }
    if q < 0 {
      MulMono(q, -1, T);
    }
  }

  lemma {:induction false} ShiftLeftSum(a: seq<Limb>, now: seq<Limb>, k: nat, s: nat, t: nat)
    requires |a| == |now| == WIDTH && s < 32 && k <= t <= WIDTH
    requires forall j :: 0 <= j < WIDTH ==> now[j] == if j < k then 0 else Low(a, s, j - k) + High(a, s, j - k - 1)
    ensures V(now, t) + High(a, s, t - k - 1) * P(t) == (Pow2(s) * P(k)) * V(a, t - k)
    decreases t
  {
    hide P, Low, High, Pow2;
    if t == k {
      VZero(now, k);
      assert High(a, s, -1) == 0 by { OutOfRange(a, s, -1); }
    } else {
      var i, p, S := t - 1 - k, P(t - 1), Pow2(s);
      ShiftLeftSum(a, now, k, s, t - 1);
      ShiftParts(a, s, i);
      PNext(t - 1);
      PAdd(i, k);
      var lo, hi, up := Low(a, s, i), High(a, s, i), High(a, s, i - 1);
      assert now[t - 1] == lo + up;
      MulPlus(lo, up, p);
      MulPlus(hi * BASE, lo, p);
      MulAssoc(hi, BASE, p);
      PlusMul(S * P(k), V(a, i), a[i] as int * P(i));
      MulAssoc(S * P(k), a[i], P(i));
      LimbTerm(S, P(k), a[i], P(i));
    }
  }

  lemma LimbTerm(s: int, p: int, x: int, q: int)
    ensures (s * p) * (x * q) == (x * s) * (q * p)
  {
    MulAssoc(s, p, x * q);
    MulAssoc(x, s, q * p);
    MulAssoc(s, x * q, p);
    MulAssoc(x, q, p);
  }

  lemma OutOfRange(a: seq<Limb>, s: nat, i: int)
    requires i < 0 || i >= |a|
    ensures Low(a, s, i) == 0 && High(a, s, i) == 0
  {
  }

  /** Shifted limbs have the value times a power of two, modulo 2^256. */
  lemma ShiftLeftValue(a: seq<Limb>, now: seq<Limb>, k: nat, s: nat) returns (q: int)
    requires |a| == |now| == WIDTH && s < 32
    requires forall j :: 0 <= j < WIDTH ==> now[j] == if j < k then 0 else Low(a, s, j - k) + High(a, s, j - k - 1)
    ensures V(now, WIDTH) + q * M() == V(a, WIDTH) * Pow2(32 * k + s)
  {
    hide V, P, Low, High, Pow2;
    Pow2Add(32 * k, s);
    PIs(k);
    var S, v := Pow2(s), V(a, WIDTH);
    if k >= WIDTH {
      assert V(now, WIDTH) == 0 by { VZero(now, WIDTH); }
      PAdd(k - WIDTH, WIDTH);
      q := v * (S * P(k - WIDTH));
      FarShift(v, S, P(k - WIDTH), M());
    } else {
      ShiftLeftSum(a, now, k, s, WIDTH);
      VSplit(a, WIDTH - k, WIDTH);
      PAdd(WIDTH - k, k);
      var hi, rest := High(a, s, WIDTH - k - 1), V(a[WIDTH - k..], k);
      q := hi + S * rest;
      NearShift(V(now, WIDTH), hi, M(), S, P(k), P(WIDTH - k), V(a, WIDTH - k), rest);
    }
    assert P(k) * S == S * P(k);
  }

  lemma FarShift(v: int, s: int, p: int, m: int)
    ensures (v * (s * p)) * m == v * (s * (p * m))
  {
    MulAssoc(v, s * p, m);
    MulAssoc(s, p, m);
  }

  lemma NearShift(x: int, hi: int, m: int, s: int, p: int, r: int, low: int, rest: int)
    requires x + hi * m == (s * p) * low && m == r * p
    ensures x + (hi + s * rest) * m == (low + r * rest) * (s * p)
  {
    PlusMul(s * p, low, r * rest);
    ShiftOver(s, p, r, rest);
    MulPlus(hi, s * rest, m);
    assert (s * p) * (low + r * rest) == (low + r * rest) * (s * p);
  }

  lemma ShiftOver(s: int, p: int, r: int, rest: int)
    ensures (s * p) * (r * rest) == (s * rest) * (r * p)
  {
    MulAssoc(s, p, r * rest);
    MulAssoc(p, r, rest);
    MulAssoc(s, rest, r * p);
    MulAssoc(rest, r, p);
  }

  lemma PIs(k: nat)
    ensures P(k) == Pow2(32 * k)
  {
  }

  // ----- Shifting right -----

  /** The part of a limb that stays, the part that moves down into the next limb, and what that part is worth. */
  function Down(a: seq<Limb>, s: nat, i: int): int {
    if 0 <= i < |a| then a[i] / Pow2(s) else 0
  }

  function Over(a: seq<Limb>, s: nat, i: int): int {
    if 0 <= i < |a| && 0 < s < 32 then (a[i] as int * Pow2(32 - s)) % BASE else 0
  }

  function Rest(a: seq<Limb>, s: nat, i: int): int {
    if 0 <= i < |a| then a[i] % Pow2(s) else 0
  }

  /** A limb cut in two, and the lower part moved to the top. */
  lemma Cut(x: int, S: int, T: int)
    requires S > 0 && T > 0 && S * T == BASE && 0 <= x < BASE
    ensures 0 <= x / S < T && S * (x / S) == x - x % S && 0 <= x % S < S
    ensures (x * T) % BASE == (x % S) * T && ((x % S) * T) % T == 0
    ensures 0 <= (x % S) * T && (x % S) * T + T <= BASE && S * ((x % S) * T) == (x % S) * BASE
  {
    DivMod(x, S);
    var q, r := x / S, x % S;
    CutBounds(x, S, T, q, r);
    CutUp(q, r, S, T);
    DivUnique(x * T, BASE, q, r * T);
    DivUnique(r * T, T, r, 0);
    MulAssoc(S, r, T);
  }

  lemma CutBounds(x: int, S: int, T: int, q: int, r: int)
    requires S > 0 && T > 0 && S * T == BASE && 0 <= x < BASE && x == q * S + r && 0 <= r < S
    ensures 0 <= q < T && 0 <= r * T && r * T + T <= BASE
  {
    if q >= T {
      MulMono(T, q, S);
    }
    if q < 0 {
      MulMono(q, -1, S);
    }
    MulMono(0, r, T);
    MulMono(r + 1, S, T);
    MulPlus(r, 1, T);
  }

  lemma CutUp(q: int, r: int, S: int, T: int)
    requires S * T == BASE
    ensures (q * S + r) * T == q * BASE + r * T
  {
    MulPlus(q * S, r, T);
    MulAssoc(q, S, T);
  }

  lemma ShiftRightParts(a: seq<Limb>, s: nat, i: int)
    requires s < 32
    ensures 0 <= Down(a, s, i) < Pow2(32 - s)
    ensures Over(a, s, i) % Pow2(32 - s) == 0 && 0 <= Over(a, s, i) && Over(a, s, i) + Pow2(32 - s) <= BASE
    ensures Pow2(s) * Over(a, s, i) == Rest(a, s, i) * BASE && 0 <= Rest(a, s, i) < Pow2(s)
    ensures 0 <= i < |a| ==> Pow2(s) * Down(a, s, i) == a[i] - Rest(a, s, i) && Down(a, s, i) == a[i] / Pow2(s)
    ensures s == 0 || i < 0 || i >= |a| ==> Over(a, s, i) == 0
    ensures s != 0 && 0 <= i < |a| ==> Over(a, s, i) == (a[i] as int * Pow2(32 - s)) % BASE
  {
    Pow2Add(s, 32 - s);
    Pow2Limb();
    assert s == 0 ==> Pow2(s) == 1;
    hide Pow2;
    if 0 <= i < |a| {
      Cut(a[i], Pow2(s), Pow2(32 - s));
    } else {
      Cut(0, Pow2(s), Pow2(32 - s));
    }
  }

  lemma OrZero(x: nat)
    ensures Or(0, x) == x
  {
  }

  lemma {:induction false} ShiftRightSum(a: seq<Limb>, now: seq<Limb>, k: nat, s: nat, m: nat)
    requires |a| == |now| == WIDTH && s < 32 && k + m <= WIDTH
    requires forall j :: 0 <= j < WIDTH ==> now[j] == Down(a, s, j + k) + Over(a, s, j + k + 1)
    ensures Pow2(s) * V(now, m) + Rest(a, s, k) == V(a[k..], m) + Rest(a, s, m + k) * P(m)
    decreases m
  {
    hide P, Down, Over, Rest, Pow2;
    if m == 0 {
      PZero();
    } else {
      var i, p, S := m - 1 + k, P(m - 1), Pow2(s);
      ShiftRightSum(a, now, k, s, m - 1);
      ShiftRightParts(a, s, i);
      ShiftRightParts(a, s, i + 1);
      PNext(m - 1);
      var d, o := Down(a, s, i), Over(a, s, i + 1);
      assert now[m - 1] == d + o && a[k..][m - 1] == a[i];
      PlusMul(S, V(now, m - 1), (d + o) * p);
      MulAssoc(S, d + o, p);
      PlusMul(S, d, o);
      MulPlus(a[i] - Rest(a, s, i), Rest(a, s, i + 1) * BASE, p);
      MulPlus(a[i], Rest(a, s, i), p);
      MulAssoc(Rest(a, s, i + 1), BASE, p);
    }
  }

  /** Limbs shifted right have the value divided by a power of two. */
  lemma ShiftRightValue(a: seq<Limb>, now: seq<Limb>, k: nat, s: nat)
    requires |a| == |now| == WIDTH && s < 32
    requires forall j :: 0 <= j < WIDTH ==> now[j] == Down(a, s, j + k) + Over(a, s, j + k + 1)
    ensures V(now, WIDTH) == V(a, WIDTH) / Pow2(32 * k + s)
  {
    hide V, P, Pow2, Rest;
    Pow2Add(32 * k, s);
    PIs(k);
    if k >= WIDTH {
      VZero(now, WIDTH);
      AllShiftedOut(a, k, s);
    } else {
      ShiftRightSum(a, now, k, s, WIDTH - k);
      ShiftRightParts(a, s, k);
      RestBeyond(a, s);
      VSplit(a, k, WIDTH);
      VBound(a, k);
      VTail(now, WIDTH - k);
      RightShift(V(a, WIDTH), V(a, k), P(k), Pow2(s), V(now, WIDTH - k), Rest(a, s, k));
    }
  }

  lemma AllShiftedOut(a: seq<Limb>, k: nat, s: nat)
    requires |a| == WIDTH <= k
    ensures P(k) * Pow2(s) > 0 && V(a, WIDTH) / (P(k) * Pow2(s)) == 0
  {
    hide V, P, Pow2;
    VBound(a, WIDTH);
    PAdd(k - WIDTH, WIDTH);
    MulMono(1, P(k - WIDTH), M());
    MulMono(1, Pow2(s), P(k));
    DivUnique(V(a, WIDTH), P(k) * Pow2(s), 0, V(a, WIDTH));
  }

  lemma RestBeyond(a: seq<Limb>, s: nat)
    requires |a| == WIDTH
    ensures Rest(a, s, WIDTH) == 0
  {
  }

  lemma {:induction false} VTail(s: seq<Limb>, m: nat)
    requires |s| == WIDTH && m <= WIDTH && forall j :: m <= j < WIDTH ==> s[j] == 0
    ensures V(s, WIDTH) == V(s, m)
    decreases WIDTH - m
  {
    if m < WIDTH {
      VTail(s, m + 1);
    }
  }

  lemma RightShift(v: int, low: int, p: int, s: int, q: int, r: int)
    requires p > 0 && s > 0 && 0 <= low < p && 0 <= r < s && v == low + p * (s * q + r)
    ensures p * s > 0 && v / (p * s) == q
  {
    MulMono(1, s, p);
    MulMono(0, r, p);
    MulMono(r + 1, s, p);
    MulPlus(r, 1, p);
    PlusMul(p, s * q, r);
    MulAssoc(p, s, q);
    DivUnique(v, p * s, q, p * r + low);
  }
}
