/** Positional numbers, how many digits they need, and what Base58 strings stand for. */
module Base58Spec {
  import opened Common

  // ----- Powers -----

  function Pow(b: nat, n: nat): (r: nat)
    requires b > 0
    ensures r > 0
  {
    if n == 0 then 1 else Times(b, Pow(b, n - 1))
  }

  function Times(a: nat, b: nat): (r: nat)
    ensures r == a * b && (a > 0 && b > 0 ==> r > 0)
  {
    Positive(a, b);
    a * b
  }

  lemma Positive(a: nat, b: nat)
    ensures a * b >= 0 && (a > 0 && b > 0 ==> a * b > 0)
  {
  }

  lemma {:induction false} PowAdd(b: nat, m: nat, n: nat)
    requires b > 0
    ensures Pow(b, m + n) == Pow(b, m) * Pow(b, n)
    decreases m
  {
    if m > 0 {
      PowAdd(b, m - 1, n);
      MulAssoc(b, Pow(b, m - 1), Pow(b, n));
    }
  }

  lemma {:induction false} PowPow(b: nat, m: nat, n: nat)
    requires b > 0
    ensures Pow(b, Times(m, n)) == Pow(Pow(b, m), n)
    decreases n
  {
    if n > 0 {
      PowPow(b, m, n - 1);
      MulPlus(n - 1, 1, m);
      assert Times(m, n) == m + Times(m, n - 1);
      PowAdd(b, m, Times(m, n - 1));
    }
  }

  lemma {:induction false} PowBaseMono(a: nat, b: nat, n: nat)
    requires 0 < a <= b
    ensures Pow(a, n) <= Pow(b, n)
  {
    if n > 0 {
      PowBaseMono(a, b, n - 1);
      MulMono(a, b, Pow(a, n - 1));
      MulMono(Pow(a, n - 1), Pow(b, n - 1), b);
    }
  }

  lemma {:induction false} PowBaseLess(a: nat, b: nat, n: nat)
    requires 0 < a < b && n > 0
    ensures Pow(a, n) < Pow(b, n)
  {
    PowBaseMono(a, b, n - 1);
    MulMono(Pow(a, n - 1), Pow(b, n - 1), a);
    MulMono(a + 1, b, Pow(b, n - 1));
    MulPlus(a, 1, Pow(b, n - 1));
  }

  lemma PowExpMono(b: nat, m: nat, n: nat)
    requires b > 0 && m <= n
    ensures Pow(b, m) <= Pow(b, n)
  {
    hide Pow;
    PowAdd(b, m, n - m);
    MulMono(1, Pow(b, n - m), Pow(b, m));
  }

  /** If a power of one base is at most a power of another, so it is for exponents in that proportion. */
  lemma Proportion(a: nat, b: nat, p: nat, q: nat, m: nat, t: nat)
    requires a > 0 && b > 0 && p > 0 && Pow(a, p) <= Pow(b, q) && Times(q, m) <= Times(p, t)
    ensures Pow(a, m) <= Pow(b, t)
  {
    hide Pow, Times;
    var x, y := Pow(a, m), Pow(b, t);
    Swapped(a, p, m);
    Swapped(b, t, p);
    PowPow(b, q, m);
    PowBaseMono(Pow(a, p), Pow(b, q), m);
    PowExpMono(b, Times(q, m), Times(p, t));
    if x > y {
      PowBaseLess(y, x, p);
    }
  }

  lemma Swapped(b: nat, m: nat, n: nat)
    requires b > 0
    ensures Pow(Pow(b, m), n) == Pow(Pow(b, n), m) == Pow(b, Times(m, n)) == Pow(b, Times(n, m))
  {
    hide Pow;
    PowPow(b, m, n);
    PowPow(b, n, m);
    assert Times(m, n) == Times(n, m);
  }

  // ----- Buffer sizes -----

  lemma Small58()
    ensures Pow(58, 7) == 2207984167552 && Pow(58, 11) == 24986644000165537792
  {
    assert Pow(58, 2) == 3364;
    assert Pow(58, 3) == 195112;
    assert Pow(58, 4) == 11316496;
    PowAdd(58, 4, 3);
    PowAdd(58, 4, 7);
  }

  lemma Small256()
    ensures Pow(256, 8) == 0x1_0000_0000_0000_0000
  {
    assert Pow(256, 2) == 0x1_0000;
    PowAdd(256, 2, 2);
    PowAdd(256, 4, 4);
  }

  /** Eight bytes fit in eleven base-58 digits, so 138/100 digits for each byte and one more do. */
  lemma EncodeFits(n: nat)
    ensures Pow(256, n) <= Pow(58, n * 138 / 100 + 1)
  {
    hide Pow;
    Small58();
    Small256();
    Proportion(256, 58, 8, 11, n, n * 138 / 100 + 1);
  }

  /** 71 base-58 digits fit in 52 bytes. */
  lemma Digits71()
    ensures Pow(58, 71) <= Pow(256, 52)
  {
    hide Pow;
    var a, k := Pow(58, 7), Pow(2, 41);
    Small58();
    Two41();
    // 1000 * 58^7 <= 1005 * 2^41
    PowPow(58, 7, 10);
    PowAdd(58, 70, 1);
    PowPow(2, 41, 10);
    PowPow(2, 8, 52);
    PowAdd(2, 410, 6);
    PowProduct(1000, a, 10);
    PowProduct(1005, k, 10);
    PowBaseMono(1000 * a, 1005 * k, 10);
    Thousands();
    SmallPowers();
    Combine(Pow(a, 10), Pow(k, 10));
  }

  lemma Two41()
    ensures Pow(2, 41) == 2199023255552 && Pow(2, 8) == 256 && Pow(2, 6) == 64
  {
    assert Pow(2, 4) == 16;
    PowAdd(2, 4, 4);
    PowAdd(2, 8, 8);
    PowAdd(2, 16, 16);
    PowAdd(2, 32, 8);
    PowAdd(2, 40, 1);
    PowAdd(2, 4, 2);
    assert Pow(2, 1) == 2 && Pow(2, 2) == 4;
  }

  lemma SmallPowers()
    ensures Pow(58, 1) == 58
  {
  }

  lemma Thousands()
    ensures Pow(1000, 10) == 1000000000000000000000000000000
    ensures Pow(1005, 10) == 1051140132040790642597666015625
  {
    assert Pow(1000, 2) == 1000000 && Pow(1005, 2) == 1010025;
    PowAdd(1000, 2, 2);
    PowAdd(1000, 4, 4);
    PowAdd(1000, 8, 2);
    PowAdd(1005, 2, 2);
    PowAdd(1005, 4, 4);
    PowAdd(1005, 8, 2);
  }

  lemma Combine(x: nat, y: nat)
    requires 1000000000000000000000000000000 * x <= 1051140132040790642597666015625 * y
    ensures x * 58 <= y * 64
  {
  }

  lemma {:induction false} PowProduct(a: nat, b: nat, n: nat)
    requires a > 0 && b > 0
    ensures a * b > 0 && Pow(a * b, n) == Pow(a, n) * Pow(b, n)
  {
    Positive(a, b);
    if n > 0 {
      PowProduct(a, b, n - 1);
      var x, y := Pow(a, n - 1), Pow(b, n - 1);
      MulAssoc(a, b, x * y);
      MulAssoc(a, x, b * y);
      assert b * (x * y) == x * (b * y);
    }
  }

  /** 733/1000 bytes for each base-58 digit and one more are enough. */
  lemma DecodeFits(m: nat)
    ensures Pow(58, m) <= Pow(256, m * 733 / 1000 + 1)
  {
    hide Pow;
    Digits71();
    Proportion(58, 256, 71, 52, m, m * 733 / 1000 + 1);
  }

  // ----- Positional numbers, most significant digit first -----

  type Digits = seq<nat>

  predicate Below(base: nat, s: Digits) {
    forall i :: 0 <= i < |s| ==> s[i] < base
  }

  function Value(base: nat, s: Digits): nat {
    if s == [] then 0 else Times(Value(base, s[..|s| - 1]), base) + s[|s| - 1]
  }

  function ToDigits(base: nat, v: nat): Digits
    requires base > 1
    decreases v
  {
    if v == 0 then []
    else
      Shrinks(v, base);
      ToDigits(base, v / base) + [v % base]
  }

  lemma Shrinks(v: nat, base: nat)
    requires base > 1 && v > 0
    ensures 0 <= v / base < v && 0 <= v % base < base && v == (v / base) * base + v % base
  {
    var q, r := v / base, v % base;
    assert v == q * base + r;
    if q >= v {
      MulMono(2, base, q);
    }
  }

  /** Digits of a number have its value, are in range, and do not begin with zero. */
  lemma {:induction false} DigitsAre(base: nat, v: nat)
    requires base > 1
    ensures Value(base, ToDigits(base, v)) == v && Below(base, ToDigits(base, v))
    ensures v > 0 ==> ToDigits(base, v) != [] && ToDigits(base, v)[0] != 0
    decreases v
  {
    if v > 0 {
      Shrinks(v, base);
      DigitsAre(base, v / base);
      var d := ToDigits(base, v);
      assert d[..|d| - 1] == ToDigits(base, v / base);
    }
  }

  /** There is no other way to write a number. */
  lemma {:induction false} DigitsUnique(base: nat, s: Digits)
    requires base > 1 && Below(base, s) && (s != [] ==> s[0] != 0)
    ensures ToDigits(base, Value(base, s)) == s && (s != [] ==> Value(base, s) > 0)
    decreases |s|
  {
    hide Value, Times, ToDigits;
    if s == [] {
      NoDigits(base);
    } else {
      var t := s[..|s| - 1];
      DigitsUnique(base, t);
      OneDigit(base, t, s[|s| - 1]);
      assert s == t + [s[|s| - 1]];
    }
  }

  lemma NoDigits(base: nat)
    requires base > 1
    ensures Value(base, []) == 0 && ToDigits(base, 0) == []
  {
  }

  lemma OneDigit(base: nat, t: Digits, d: nat)
    requires base > 1 && d < base && (t == [] ==> d != 0) && (t != [] ==> Value(base, t) > 0)
    requires ToDigits(base, Value(base, t)) == t
    ensures Value(base, t + [d]) > 0 && ToDigits(base, Value(base, t + [d])) == t + [d]
  {
    var s := t + [d];
    assert s[..|s| - 1] == t;
    DivUnique(Value(base, s), base, Value(base, t), d);
    Positive(Value(base, t), base);
  }

  lemma {:induction false} ValueBound(base: nat, s: Digits)
    requires base > 0 && Below(base, s)
    ensures Value(base, s) < Pow(base, |s|)
    decreases |s|
  {
    if s != [] {
      var t := s[..|s| - 1];
      ValueBound(base, t);
      StepBound(Value(base, t), Pow(base, |t|), base, s[|s| - 1]);
    }
  }

  lemma StepBound(v: nat, p: nat, base: nat, d: nat)
    requires v < p && d < base
    ensures Times(v, base) + d < Times(base, p)
  {
    MulMono(v + 1, p, base);
    MulPlus(v, 1, base);
  }

  /** A digit in front counts for a power. */
  lemma {:induction false} ValueCons(base: nat, d: nat, s: Digits)
    requires base > 0
    ensures Value(base, [d] + s) == d * Pow(base, |s|) + Value(base, s)
    decreases |s|
  {
    hide Times;
    var ds := [d] + s;
    if s == [] {
      assert ds[..0] == [];
      assert Value(base, ds[..0]) == 0;
    } else {
      var t := s[..|s| - 1];
      ValueCons(base, d, t);
      assert ds[..|ds| - 1] == [d] + t;
      ConsStep(d, Pow(base, |t|), Value(base, t), base);
    }
  }

  lemma ConsStep(d: nat, p: nat, v: nat, base: nat)
    ensures (d * p + v) * base == d * (base * p) + v * base
  {
    MulPlus(d * p, v, base);
    MulAssoc(d, p, base);
  }

  function Zeros(n: nat): Digits {
    seq(n, _ => 0)
  }

  lemma {:induction false} ValuePadded(base: nat, n: nat, s: Digits)
    requires base > 0
    ensures Value(base, Zeros(n) + s) == Value(base, s)
    decreases n
  {
    if n == 0 {
      assert Zeros(0) + s == s;
    } else {
      ValuePadded(base, n - 1, s);
      assert Zeros(n) + s == [0] + (Zeros(n - 1) + s);
      ValueCons(base, 0, Zeros(n - 1) + s);
    }
  }

  /** More digits, larger number. */
  lemma {:induction false} DigitsGrow(base: nat, u: nat, v: nat)
    requires base > 1 && u <= v
    ensures |ToDigits(base, u)| <= |ToDigits(base, v)|
    decreases v
  {
    if u > 0 {
      Shrinks(u, base);
      Shrinks(v, base);
      QuotientMono(u, v, base);
      DigitsGrow(base, u / base, v / base);
    }
  }

  lemma QuotientMono(u: nat, v: nat, base: nat)
    requires base > 0 && u <= v
    ensures u / base <= v / base
  {
    var p, q := u / base, v / base;
    assert u == p * base + u % base && v == q * base + v % base;
    if p > q {
      MulMono(q + 1, p, base);
      MulPlus(q, 1, base);
    }
  }

  // ----- Strings -----

  /** The alphabet: digits and letters without 0, I, O and l. */
  function Letter(d: nat): char
    requires d < 58
  {
    if d < 9 then ('1' as int + d) as char
    else if d < 17 then ('A' as int + d - 9) as char
    else if d < 22 then ('J' as int + d - 17) as char
    else if d < 33 then ('P' as int + d - 22) as char
    else if d < 44 then ('a' as int + d - 33) as char
    else ('m' as int + d - 44) as char
  }

  /** The digit a character stands for; -1 if it stands for none. */
  function DigitOf(c: char): (r: int)
    ensures -1 <= r < 58
  {
    if '1' <= c <= '9' then c as int - '1' as int
    else if 'A' <= c <= 'H' then 9 + (c as int - 'A' as int)
    else if 'J' <= c <= 'N' then 17 + (c as int - 'J' as int)
    else if 'P' <= c <= 'Z' then 22 + (c as int - 'P' as int)
    else if 'a' <= c <= 'k' then 33 + (c as int - 'a' as int)
    else if 'm' <= c <= 'z' then 44 + (c as int - 'm' as int)
    else -1
  }

  /** The table and the alphabet are inverse to each other. */
  lemma AlphabetIs(d: nat, c: char)
    requires d < 58
    ensures DigitOf(Letter(d)) == d && (DigitOf(c) >= 0 ==> Letter(DigitOf(c)) == c)
    ensures !IsSpace(Letter(d)) && Letter(d) != '\0' && (Letter(d) == '1' <==> d == 0)
  {
  }

  predicate IsSpace(c: char) {
    c == ' ' || c == '\t' || c == '\n' || c == '\r' || c as int == 11 || c as int == 12
  }

  /** Where spaces, leading ones and the rest of a word end. */
  function SpacesEnd(s: string, p: nat): (r: nat)
    requires p <= |s|
    ensures p <= r <= |s|
    decreases |s| - p
  {
    if p < |s| && IsSpace(s[p]) then SpacesEnd(s, p + 1) else p
  }

  function OnesEnd(s: string, p: nat): (r: nat)
    requires p <= |s|
    ensures p <= r <= |s|
    decreases |s| - p
  {
    if p < |s| && s[p] == '1' then OnesEnd(s, p + 1) else p
  }

  function WordEnd(s: string, p: nat): (r: nat)
    requires p <= |s|
    ensures p <= r <= |s|
    decreases |s| - p
  {
    if p < |s| && !IsSpace(s[p]) then WordEnd(s, p + 1) else p
  }

  predicate AllDigits(s: string) {
    forall i :: 0 <= i < |s| ==> DigitOf(s[i]) >= 0
  }

  function DigitsOf(s: string): (r: Digits)
    requires AllDigits(s)
    ensures |r| == |s|
  {
    seq(|s|, i requires 0 <= i < |s| => DigitOf(s[i]))
  }

  function Begin(s: string): nat {
    SpacesEnd(s, 0)
  }

  function Word(s: string): string {
    s[OnesEnd(s, Begin(s))..WordEnd(s, OnesEnd(s, Begin(s)))]
  }

  function Ones(s: string): nat {
    OnesEnd(s, Begin(s)) - Begin(s)
  }

  /** Optional spaces around a word of the alphabet; no character zero. */
  predicate WellFormed(s: string) {
    && '\0' !in s
    && SpacesEnd(s, WordEnd(s, OnesEnd(s, Begin(s)))) == |s|
    && AllDigits(Word(s))
  }

  /** The bytes a well-formed string stands for. */
  function Bytes(s: string): Digits
    requires AllDigits(Word(s))
  {
    Zeros(Ones(s)) + ToDigits(256, Value(58, DigitsOf(Word(s))))
  }

  function LeadingZeros(b: Digits): (r: nat)
    ensures r <= |b|
  {
    if b != [] && b[0] == 0 then 1 + LeadingZeros(b[1..]) else 0
  }

  function Letters(d: Digits): (r: string)
    requires Below(58, d)
    ensures |r| == |d|
  {
    seq(|d|, i requires 0 <= i < |d| => Letter(d[i]))
  }

  /** The string for some bytes: a one for each leading zero byte, then the digits of the rest. */
  ghost function Encoded(b: Digits): string {
    var z := LeadingZeros(b);
    var d := ToDigits(58, Value(256, b[z..]));
    DigitsAre(58, Value(256, b[z..]));
    seq(z, _ => '1') + Letters(d)
  }

  // ----- Round trip -----

  lemma {:induction false} LeadingZerosAre(b: Digits)
    ensures b == Zeros(LeadingZeros(b)) + b[LeadingZeros(b)..]
    ensures LeadingZeros(b) < |b| ==> b[LeadingZeros(b)] != 0
  {
    if b != [] && b[0] == 0 {
      LeadingZerosAre(b[1..]);
      var z := LeadingZeros(b[1..]);
      assert b == [0] + b[1..];
      assert Zeros(1 + z) == [0] + Zeros(z);
      assert b[1 + z..] == b[1..][z..];
    } else {
      assert Zeros(0) == [];
    }
  }

  lemma {:induction false} OnesRun(s: string, p: nat, q: nat)
    requires p <= q <= |s| && (forall i :: p <= i < q ==> s[i] == '1') && (q < |s| ==> s[q] != '1')
    ensures OnesEnd(s, p) == q
    decreases q - p
  {
    if p < q {
      OnesRun(s, p + 1, q);
    }
  }

  lemma {:induction false} WordRun(s: string, p: nat)
    requires p <= |s| && forall i :: p <= i < |s| ==> !IsSpace(s[i])
    ensures WordEnd(s, p) == |s|
    decreases |s| - p
  {
    if p < |s| {
      WordRun(s, p + 1);
    }
  }

  /** An encoding is well formed and stands for the bytes it was made of. */
  lemma RoundTrip(b: Digits)
    requires Below(256, b)
    ensures WellFormed(Encoded(b)) && Bytes(Encoded(b)) == b
  {
    hide ToDigits, Value;
    var z := LeadingZeros(b);
    LeadingZerosAre(b);
    var rest := b[z..];
    var v := Value(256, rest);
    var d := ToDigits(58, v);
    DigitsUnique(256, rest);
    DigitsAre(58, v);
    NoDigits(58);
    NoDigits(256);
    EncodedShape(b, z, d);
    var s := Encoded(b);
    assert DigitsOf(Letters(d)) == d by { LettersBack(d); }
  }

  lemma LettersBack(d: Digits)
    requires Below(58, d)
    ensures AllDigits(Letters(d)) && DigitsOf(Letters(d)) == d
  {
    forall i | 0 <= i < |d|
      ensures DigitOf(Letters(d)[i]) == d[i]
    {
      AlphabetIs(d[i], '1');
    }
  }

  lemma EncodedShape(b: Digits, z: nat, d: Digits)
    requires z == LeadingZeros(b) && d == ToDigits(58, Value(256, b[z..])) && Below(58, d) && (d != [] ==> d[0] != 0)
    ensures var s := Encoded(b); Begin(s) == 0 && Ones(s) == z && Word(s) == Letters(d) && WellFormed(s)
  {
    hide ToDigits, Value, LeadingZeros;
    var s := Encoded(b);
    assert s == seq(z, _ => '1') + Letters(d);
    forall i | 0 <= i < |s|
      ensures !IsSpace(s[i]) && s[i] != '\0' && (i < z ==> s[i] == '1') && (i == z ==> s[i] != '1')
    {
      if i >= z {
        assert s[i] == Letter(d[i - z]);
        AlphabetIs(d[i - z], '1');
      }
    }
    OnesRun(s, 0, z);
    WordRun(s, z);
    assert s[z..] == Letters(d);
    LettersBack(d);
  }
}
