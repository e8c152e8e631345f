/** Compact targets and block work. */
module Compact {
  import opened Common
  import opened ArithSpec
  import opened Arith

  const MANTISSA := 0x80_0000
  const EXPONENT := 0x100_0000

  // ----- The format -----

  /** 256 to the n. */
  function Pow256(n: nat): (r: nat)
    ensures r > 0
  {
    Pow2(8 * n)
  }

  lemma Pow256Next(n: nat)
    ensures Pow256(n + 1) == 256 * Pow256(n)
  {
    Pow2Add(8, 8 * n);
    Pow2Limb();
  }

  lemma Pow256Small()
    ensures Pow256(0) == 1 && Pow256(1) == 256 && Pow256(2) == 0x1_0000 && Pow256(3) == EXPONENT
  {
    Pow256Next(0);
    Pow256Next(1);
    Pow256Next(2);
  }

  lemma Pow256Add(a: nat, b: nat)
    ensures Pow256(a + b) == Pow256(a) * Pow256(b)
  {
    Pow2Add(8 * a, 8 * b);
  }

  lemma ModulusIs()
    ensures M() == Pow256(32) && M() == 0x1_0000 * Pow256(30) && M() == 256 * Pow256(31)
  {
    Pow256Next(31);
    Pow256Next(30);
  }

  function Times(a: nat, b: nat): nat {
    a * b
  }

  function Quotient(a: nat, b: nat): nat
    requires b > 0
  {
    a / b
  }

  function Size(c: nat): nat {
    c / EXPONENT
  }

  function Word(c: nat): nat {
    c % MANTISSA
  }

  predicate Sign(c: nat) {
    (c / MANTISSA) % 2 == 1
  }

  /** What a compact number stands for, whether or not it fits. */
  function Decoded(c: nat): nat {
    if Size(c) <= 3 then Quotient(Word(c), Pow256(3 - Size(c))) else Times(Word(c), Pow256(Size(c) - 3))
  }

  // ----- Overflow -----

  predicate OverflowFlag(word: nat, size: nat) {
    word != 0 && (size > 34 || (word > 0xff && size > 33) || (word > 0xffff && size > 32))
  }

  /** The flag is set if and only if the number does not fit in 256 bits. */
  lemma OverflowExact(word: nat, size: nat)
    requires word < MANTISSA && size > 3
    ensures OverflowFlag(word, size) <==> word * Pow256(size - 3) >= M()
  {
    hide M, Pow256;
    ModulusIs();
    if word == 0 {
    } else if size > 34 {
      Pow256Mono(32, size - 3);
      MulMono(1, word, Pow256(size - 3));
    } else if size == 34 {
      Threshold(word, 256, Pow256(31));
    } else if size == 33 {
      Threshold(word, 0x1_0000, Pow256(30));
    } else {
      Pow256Mono(size - 3, 29);
      Pow256Next(29);
      MulMono(word, MANTISSA, Pow256(size - 3));
      MulMono(Pow256(size - 3), Pow256(29), MANTISSA);
      assert MANTISSA * Pow256(29) < 0x1_0000 * (256 * Pow256(29));
    }
  }

  lemma Threshold(word: nat, limit: nat, p: nat)
    requires p > 0
    ensures word * p >= limit * p <==> word >= limit
  {
    if word >= limit {
      MulMono(limit, word, p);
    } else {
      MulMono(word + 1, limit, p);
      MulPlus(word, 1, p);
    }
  }

  lemma Pow256Mono(a: nat, b: nat)
    requires a <= b
    ensures Pow256(a) <= Pow256(b)
  {
    if a < b {
      Pow2Grows(8 * a, 8 * b);
    }
  }

  // ----- Encoding -----

  /** `n` bytes are needed, and no fewer. */
  ghost predicate IsBytes(v: nat, n: nat) {
    if n == 0 then v == 0 else Pow256(n - 1) <= v < Pow256(n)
  }

  /** The mantissa of a number of `n` bytes: its three leading bytes. */
  function Mantissa(v: nat, n: nat): nat {
    if n <= 3 then Times(v, Pow256(3 - n)) else Quotient(v, Pow256(n - 3))
  }

  /** The compact form of a number of `n` bytes. */
  function Encoded(v: nat, n: nat): nat {
    var m := Mantissa(v, n);
    if m >= MANTISSA then (n + 1) * EXPONENT + m / 256 else n * EXPONENT + m
  }

  lemma MantissaBounds(v: nat, n: nat)
    requires IsBytes(v, n)
    ensures Mantissa(v, n) < EXPONENT
    ensures n > 0 ==> Mantissa(v, n) >= 0x1_0000
  {
    hide Pow256;
    Pow256Small();
    if n == 0 {
    } else if n <= 3 {
      Pow256Add(n, 3 - n);
      Pow256Add(n - 1, 3 - n);
      MulMono(v + 1, Pow256(n), Pow256(3 - n));
      MulPlus(v, 1, Pow256(3 - n));
      MulMono(Pow256(n - 1), v, Pow256(3 - n));
    } else {
      Pow256Add(3, n - 3);
      Pow256Add(2, n - 3);
      DivBetween(v, Pow256(n - 3), Pow256(2), Pow256(3));
    }
  }

  lemma DivBetween(v: nat, p: nat, from: nat, to: nat)
    requires p > 0 && from * p <= v < to * p
    ensures from <= v / p < to
  {
    DivMod(v, p);
    var q := v / p;
    if q >= to {
      MulMono(to, q, p);
    }
    if q < from {
      MulMono(q + 1, from, p);
      MulPlus(q, 1, p);
    }
  }

  /** Reading the fields of an encoding back. */
  lemma Fields(size: nat, word: nat)
    requires word < MANTISSA
    ensures var c := size * EXPONENT + word; Size(c) == size && Word(c) == word && !Sign(c)
  {
    var c := size * EXPONENT + word;
    DivUnique(c, EXPONENT, size, word);
    DivUnique(c, MANTISSA, 2 * size, word);
  }

  /** The value an encoding stands for: the number without its bytes below the mantissa. */
  lemma DecodedEncoded(v: nat, n: nat)
    requires IsBytes(v, n)
    ensures var c, m := Encoded(v, n), Mantissa(v, n);
      && !Sign(c) && Word(c) == (if m >= MANTISSA then m / 256 else m)
      && Decoded(c) <= v && IsBytes(Decoded(c), n)
      && Mantissa(Decoded(c), n) == if m >= MANTISSA && n >= 3 then m - m % 256 else m
  {
    hide Pow256, Size, Word, Sign, Mantissa, IsBytes, Kept;
    var m := Mantissa(v, n);
    MantissaBounds(v, n);
    Fields(n, if m < MANTISSA then m else 0);
    Fields(n + 1, m / 256);
    if n <= 3 {
      SmallNumber(v, n);
    } else {
      LargeNumber(v, n);
    }
    KeptMeans(v, n, Decoded(Encoded(v, n)), if m >= MANTISSA && n >= 3 then m - m % 256 else m);
  }

  lemma KeptMeans(v: nat, n: nat, d: nat, m: nat)
    requires Kept(v, n, d, m)
    ensures d <= v && IsBytes(d, n) && Mantissa(d, n) == m
  {
  }

  lemma SmallNumber(v: nat, n: nat)
    requires IsBytes(v, n) && n <= 3 && Mantissa(v, n) < EXPONENT
    ensures var m := Mantissa(v, n);
      && (m < MANTISSA ==> Kept(v, n, Quotient(m, Pow256(3 - n)), m))
      && (m >= MANTISSA && n < 3 ==> Kept(v, n, Quotient(m / 256, Pow256(2 - n)), m))
      && (m >= MANTISSA && n == 3 ==> Kept(v, n, Times(m / 256, Pow256(1)), m - m % 256))
  {
    hide Pow256, Pow2;
    Pow256Small();
    if n == 0 {
    } else if n == 1 {
    } else if n == 2 {
    }
  }

  lemma LargeNumber(v: nat, n: nat)
    requires IsBytes(v, n) && n > 3
    requires 0x1_0000 <= Mantissa(v, n) < EXPONENT
    ensures var m := Mantissa(v, n);
      && (m < MANTISSA ==> Kept(v, n, Times(m, Pow256(n - 3)), m))
      && (m >= MANTISSA ==> Kept(v, n, Times(m / 256, Pow256(n - 2)), m - m % 256))
  {
    hide Pow256;
    var m, p := Mantissa(v, n), Pow256(n - 3);
    DivMod(v, p);
    MulMono(0, m, p);
    KeptBytes(v, n, m);
    KeptBytes(v, n, m - m % 256);
    Pow256Next(n - 3);
    MulAssoc(m / 256, 256, p);
  }

  /** A number `d` that keeps the size and has mantissa `m`. */
  ghost predicate Kept(v: nat, n: nat, d: nat, m: nat) {
    d <= v && IsBytes(d, n) && Mantissa(d, n) == m
  }

  lemma KeptBytes(v: nat, n: nat, m: nat)
    requires IsBytes(v, n) && n > 3 && 0x1_0000 <= m <= v / Pow256(n - 3)
    ensures Kept(v, n, m * Pow256(n - 3), m)
  {
    hide Pow256;
    Pow256Small();
    var p := Pow256(n - 3);
    DivMod(v, p);
    MulMono(m, v / p, p);
    Pow256Add(2, n - 3);
    MulMono(0x1_0000, m, p);
    DivUnique(m * p, p, m, 0);
  }

  /** Decoding an encoding loses only low bytes, raises no flag and encodes to the same word again. */
  lemma CompactRoundTrip(v: nat, n: nat)
    requires IsBytes(v, n) && v < M()
    ensures var c := Encoded(v, n);
      && !Sign(c) && Decoded(c) <= v && Decoded(c) < M()
      && IsBytes(Decoded(c), n) && Encoded(Decoded(c), n) == c
  {
    hide Pow256, M, Mantissa, IsBytes, Decoded;
    DecodedEncoded(v, n);
    MantissaBounds(v, n);
  }

  // ----- The operations -----

  method SetCompact(target: Uint256, nCompact: nat) returns (negative: bool, overflow: bool)
    requires target.Valid() && nCompact < BASE
    modifies target.pn
    ensures target.Value() == Decoded(nCompact) % M()
    ensures overflow <==> Decoded(nCompact) >= M()
    ensures negative <==> Sign(nCompact) && Decoded(nCompact) != 0
  {
    hide M, Pow256, Pow2;
    var nSize, nWord := Size(nCompact), Word(nCompact);
    ModulusIs();
    Pow256Small();
    if nSize <= 3 {
      nWord := Quotient(nWord, Pow256(3 - nSize));
      ShrunkWord(Word(nCompact), Pow256(3 - nSize));
      target.SetWord(nWord);
      Pow256Mono(3, 32);
      DivUnique(nWord, M(), 0, nWord);
    } else {
      target.SetWord(nWord);
      target.ShiftLeft(8 * (nSize - 3));
      PowIs(nSize - 3);
      OverflowExact(nWord, nSize);
      ProductZero(nWord, Pow256(nSize - 3));
    }
    negative := nWord != 0 && Sign(nCompact);
    overflow := OverflowFlag(nWord, nSize);
  }

  lemma PowIs(n: nat)
    ensures Pow256(n) == Pow2(8 * n)
  {
  }

  lemma ShrunkWord(word: nat, p: nat)
    requires p > 0
    ensures Quotient(word, p) <= word
  {
    DivMod(word, p);
    if word / p > word {
      MulMono(1, p, word / p);
    }
  }

  lemma ProductZero(a: nat, p: nat)
    requires p > 0
    ensures Times(a, p) == 0 <==> a == 0
  {
    if a > 0 {
      MulMono(1, a, p);
    }
  }

  method GetCompact(n: Uint256, fNegative: bool) returns (nCompact: nat, ghost size: nat)
    requires n.Valid()
    ensures n.Value() >= 0 && IsBytes(n.Value(), size) && nCompact < BASE
    ensures var c := Encoded(n.Value(), size);
      nCompact == if fNegative && Word(c) != 0 then c + MANTISSA else c
  {
    hide M, Pow256, Pow2, V, Mantissa, IsBytes;
    n.Bounded();
    var bits := n.Bits();
    var nSize := (bits + 7) / 8;
    size := nSize;
    SizeIs(n.Value(), bits);
    nCompact := LeadingBytes(n, nSize);
    if (nCompact / MANTISSA) % 2 == 1 {
      nCompact := nCompact / 256;
      nSize := nSize + 1;
    }
    assert nCompact < MANTISSA && nSize < 256;
    Fields(nSize, nCompact);
    nCompact := nSize * EXPONENT + nCompact;
    if fNegative && Word(nCompact) != 0 {
      nCompact := nCompact + MANTISSA;
    }
  }

  method LeadingBytes(n: Uint256, nSize: nat) returns (w: nat)
    requires n.Valid() && n.Value() >= 0 && IsBytes(n.Value(), nSize)
    ensures w == Mantissa(n.Value(), nSize) < EXPONENT
  {
    hide M, Pow256, Pow2, V;
    MantissaBounds(n.Value(), nSize);
    SmallMod(Mantissa(n.Value(), nSize));
    if nSize <= 3 {
      SmallLow(n.Value(), nSize);
      LowLimbs(n.pn[..]);
      w := (n.GetLow64() * Pow256(3 - nSize)) % BASE;
    } else {
      var bn := new Uint256.Copy(n);
      bn.ShiftRight(8 * (nSize - 3));
      PowIs(nSize - 3);
      LowLimbs(bn.pn[..]);
      w := bn.GetLow64() % BASE;
    }
  }

  lemma SizeIs(v: nat, bits: nat)
    requires if bits == 0 then v == 0 else bits <= 256 && Pow2(bits - 1) <= v < Pow2(bits)
    ensures IsBytes(v, (bits + 7) / 8) && (bits + 7) / 8 <= 32
  {
    if bits > 0 {
      hide Pow2;
      var n := (bits + 7) / 8;
      Pow2Mono(bits, 8 * n);
      Pow2Mono(8 * (n - 1), bits - 1);
    }
  }

  lemma SmallMod(x: nat)
    requires x < BASE
    ensures x % BASE == x
  {
  }

  lemma SmallLow(v: nat, n: nat)
    requires IsBytes(v, n) && n <= 3
    ensures v < EXPONENT
  {
    Pow256Small();
  }

  /** A number below 2^64 is in its two lowest limbs. */
  lemma LowLimbs(s: seq<Limb>)
    requires |s| == WIDTH
    ensures V(s, WIDTH) < BASE * BASE ==> V(s, WIDTH) == s[0] as int + BASE * s[1]
  {
    if V(s, WIDTH) < BASE * BASE {
      forall j | 2 <= j < WIDTH
        ensures s[j] == 0
      {
        if s[j] != 0 {
          LargeLimb(s, j);
        }
      }
      TwoLimbs(s);
    }
  }

  /** The work of a block: 2^256 divided by one more than its target, rounded down. */
  method GetBlockProof(nBits: nat) returns (r: Uint256)
    requires nBits < BASE
    ensures r.Valid() && fresh(r) && fresh(r.pn)
    ensures r.Value() ==
      var target := Decoded(nBits);
      if target >= M() || target == 0 || Sign(nBits) then 0 else M() / (target + 1)
  {
    hide M, V, Decoded, Sign;
    var bnTarget := new Uint256(0);
    var fNegative, fOverflow := SetCompact(bnTarget, nBits);
    var zero := bnTarget.EqualTo(0);
    ghost var t := Decoded(nBits);
    if !fOverflow {
      DivUnique(t, M(), 0, t);
    }
    if fNegative || fOverflow || zero {
      r := new Uint256(0);
      return;
    }
    TargetFits(nBits);
    r := bnTarget.Complement();
    var one := new Uint256(1);
    bnTarget.Add(one);
    DivUnique(t + 1, M(), 0, t + 1);
    var ok := r.Div(bnTarget);
    Work(t, M());
    r.Add(one);
    DivUnique(M() / (t + 1), M(), 0, M() / (t + 1));
  }

  /** One can be added to a target that fits. */
  lemma TargetFits(c: nat)
    requires c < BASE && Decoded(c) < M()
    ensures Decoded(c) + 1 < M()
  {
    hide M, Pow256, Pow2;
    ModulusIs();
    Pow256Small();
    Pow256Mono(3, 32);
    if Size(c) <= 3 {
      ShrunkWord(Word(c), Pow256(3 - Size(c)));
    } else {
      Pow256Next(Size(c) - 4);
      MulAssoc(Word(c), 256, Pow256(Size(c) - 4));
    }
  }

  lemma Work(t: nat, m: nat)
    requires 0 < t && t + 1 < m
    ensures (m - 1 - t) / (t + 1) + 1 == m / (t + 1) && 0 <= m / (t + 1) < m
  {
    var q, r := (m - 1 - t) / (t + 1), (m - 1 - t) % (t + 1);
    DivMod(m - 1 - t, t + 1);
    MulPlus(q, 1, t + 1);
    DivUnique(m, t + 1, q + 1, r);
    if q < 0 {
      MulMono(q, -1, t + 1);
    }
    MulMono(2, t + 1, q + 1);
  }
}
