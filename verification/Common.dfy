/** Definitions that several components share: optional values and integer arithmetic. */
module Common {

  datatype Option<+T> = None | Some(value: T)

  function One(b: bool): nat {
    if b then 1 else 0
  }

  // ----- Products -----

  lemma MulMono(a: int, b: int, c: int)
    requires a <= b && c >= 0
    ensures a * c <= b * c
  {
  }

  lemma MulPlus(a: int, b: int, c: int)
    ensures (a + b) * c == a * c + b * c && (a - b) * c == a * c - b * c
  {
  }

  lemma MulAssoc(a: int, b: int, c: int)
    ensures (a * b) * c == a * (b * c) == b * (a * c) == (a * c) * b
  {
  }

  // ----- Quotients and remainders -----

  lemma SmallMultiple(k: int, m: int)
    requires m > 0 && -m < k * m < m
    ensures k == 0
  {
    if k >= 1 {
      MulMono(1, k, m);
    } else if k <= -1 {
      MulMono(k, -1, m);
    }
  }

  lemma DivMod(x: int, m: int)
    requires m > 0
    ensures x == (x / m) * m + x % m && 0 <= x % m < m
  {
  }

  lemma DivUnique(x: int, m: int, q: int, r: int)
    requires m > 0 && x == q * m + r && 0 <= r < m
    ensures x / m == q && x % m == r
  {
    DivMod(x, m);
    var q2, r2 := x / m, x % m;
    MulPlus(q, q2, m);
    SmallMultiple(q - q2, m);
  }

  /** A 32-bit number scaled down to a range, by the high half of a 64-bit product. */
  function FastMod(x: nat, n: nat): (r: nat)
    requires n > 0
    ensures r < n
  {
    var h := x % 0x1_0000_0000;
    Scaled(h, n);
    (h * n) / 0x1_0000_0000
  }

  lemma Scaled(x: nat, n: nat)
    requires x < 0x1_0000_0000 && n > 0
    ensures 0 <= x * n < 0x1_0000_0000 * n && 0 <= (x * n) / 0x1_0000_0000 < n
  {
  }

  // ----- Powers of two -----

  function Pow2(n: nat): (r: nat)
    ensures r > n
  {
    if n == 0 then 1 else 2 * Pow2(n - 1)
  }

  lemma {:induction false} Pow2Add(a: nat, b: nat)
    ensures Pow2(a + b) == Pow2(a) * Pow2(b)
    decreases a
  {
    if a > 0 {
      Pow2Add(a - 1, b);
      MulAssoc(2, Pow2(a - 1), Pow2(b));
    }
  }

  lemma {:induction false} Pow2Grows(a: nat, b: nat)
    requires a < b
    ensures 2 * Pow2(a) <= Pow2(b)
    decreases b
  {
    if a < b - 1 {
      Pow2Grows(a, b - 1);
    }
  }

  lemma Pow2Mono(a: nat, b: nat)
    requires a <= b
    ensures Pow2(a) <= Pow2(b)
  {
    hide Pow2;
    if a < b {
      Pow2Grows(a, b);
    }
  }
}
