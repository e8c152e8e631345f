/** What the checksum detects: up to three wrong symbols within a window of 1023. */
module Bech32Errors {
  import opened Common
  import opened Bech32Spec
  import opened Bech32Field

  // ----- Symbols in the larger field -----

  /** A symbol as an element of the field of 1024 elements. */
  function Embed(v: bv5): Ten {
    Add(Add(Add(Pick(v & 1 != 0, 1), Pick(v & 2 != 0, 14)),
            Add(Pick(v & 4 != 0, 84), Pick(v & 8 != 0, 856))), Pick(v & 16 != 0, 191))
  }

  lemma SymbolBits(v: bv5, w: bv5)
    ensures (Plus(v, w) & 1 != 0) == ((v & 1 != 0) != (w & 1 != 0))
    ensures (Plus(v, w) & 2 != 0) == ((v & 2 != 0) != (w & 2 != 0))
    ensures (Plus(v, w) & 4 != 0) == ((v & 4 != 0) != (w & 4 != 0))
    ensures (Plus(v, w) & 8 != 0) == ((v & 8 != 0) != (w & 8 != 0))
    ensures (Plus(v, w) & 16 != 0) == ((v & 16 != 0) != (w & 16 != 0))
  {
  }

  lemma EmbedAdd(v: bv5, w: bv5)
    ensures Embed(Plus(v, w)) == Add(Embed(v), Embed(w))
  {
    hide Plus, Add, Pick;
    SymbolBits(v, w);
    PickSum(v & 1 != 0, w & 1 != 0, 1);
    PickSum(v & 2 != 0, w & 2 != 0, 14);
    PickSum(v & 4 != 0, w & 4 != 0, 84);
    PickSum(v & 8 != 0, w & 8 != 0, 856);
    PickSum(v & 16 != 0, w & 16 != 0, 191);
    var a1, b1, a2, b2 := Pick(v & 1 != 0, 1), Pick(w & 1 != 0, 1), Pick(v & 2 != 0, 14), Pick(w & 2 != 0, 14);
    var a4, b4, a8, b8 := Pick(v & 4 != 0, 84), Pick(w & 4 != 0, 84), Pick(v & 8 != 0, 856), Pick(w & 8 != 0, 856);
    var a16, b16 := Pick(v & 16 != 0, 191), Pick(w & 16 != 0, 191);
    AddPairs(a1, b1, a2, b2);
    AddPairs(a4, b4, a8, b8);
    AddPairs(Add(a1, a2), Add(b1, b2), Add(a4, a8), Add(b4, b8));
    AddPairs(Add(Add(a1, a2), Add(a4, a8)), Add(Add(b1, b2), Add(b4, b8)), a16, b16);
  }

  lemma EmbedKernel(v: bv5)
    ensures Embed(v) == 0 <==> v == 0
  {
  }

  // ----- Powers of powers -----

  /** `j` times the power `k` of z. */
  ghost function Rounds(k: nat, j: nat, v: Ten): Ten {
    if j == 0 then v else Zn(k, Rounds(k, j - 1, v))
  }

  lemma {:induction false} RoundsAdd(k: nat, j: nat, u: Ten, v: Ten)
    ensures Rounds(k, j, Add(u, v)) == Add(Rounds(k, j, u), Rounds(k, j, v))
    decreases j
  {
    hide Zn, Add;
    if j > 0 {
      RoundsAdd(k, j - 1, u, v);
      ZnAdd(k, Rounds(k, j - 1, u), Rounds(k, j - 1, v));
    }
  }

  lemma {:induction false} RoundsKernel(k: nat, j: nat, v: Ten)
    ensures Rounds(k, j, v) == 0 <==> v == 0
    decreases j
  {
    hide Zn;
    if j > 0 {
      RoundsKernel(k, j - 1, v);
      ZnKernel(k, Rounds(k, j - 1, v));
    }
  }

  /** One more in every round is as many more as there are rounds. */
  lemma {:induction false} RoundsMore(k: nat, j: nat, v: Ten)
    ensures Rounds(k + 1, j, v) == Zn(j, Rounds(k, j, v))
    decreases j
  {
    hide Zn;
    if j == 0 {
      ZeroPower(v);
    } else {
      RoundsMore(k, j - 1, v);
      var r := Rounds(k, j - 1, v);
      ZnPlus(k + 1, j - 1, r);
      ZnPlus(j, k, r);
    }
  }

  lemma RoundsTwoMore(k: nat, j: nat, v: Ten)
    ensures Rounds(k + 2, j, v) == Zn(2 * j, Rounds(k, j, v))
  {
    hide Zn, Rounds;
    RoundsMore(k, j, v);
    RoundsMore(k + 1, j, v);
    Twice(j, Rounds(k, j, v));
  }

  lemma RoundsPick(k: nat, j: nat, b: bool, v: Ten)
    ensures Rounds(k, j, Pick(b, v)) == Pick(b, Rounds(k, j, v))
  {
    hide Rounds;
    RoundsKernel(k, j, 0);
  }

  // ----- Remainders at a power of z -----

  /** The first `j + 1` coefficients of a remainder, as a polynomial at the power `k` of z. */
  ghost function Partial(k: nat, c: bv32, j: nat): Ten
    requires j < 6
  {
    if j == 0 then Embed(Digit(c, 0)) else Add(Zn(k, Partial(k, c, j - 1)), Embed(Digit(c, j)))
  }

  ghost function Syndrome(k: nat, c: bv32): Ten {
    Partial(k, c, 5)
  }

  lemma DigitXor(c: bv32, d: bv32, i: nat)
    requires i < 6
    ensures Digit(Xor(c, d), i) == Plus(Digit(c, i), Digit(d, i))
  {
    hide Xor, Chunk, Plus;
    if i == 0 {
      ChunkXor0(c, d);
    } else if i == 1 {
      ChunkXor1(c, d);
    } else if i == 2 {
      ChunkXor2(c, d);
    } else if i == 3 {
      ChunkXor3(c, d);
    } else if i == 4 {
      ChunkXor4(c, d);
    } else {
      ChunkXor5(c, d);
    }
  }

  lemma ChunkXor0(c: bv32, d: bv32)
    ensures Chunk(Xor(c, d) >> 25) == Plus(Chunk(c >> 25), Chunk(d >> 25))
  {
  }

  lemma ChunkXor1(c: bv32, d: bv32)
    ensures Chunk(Xor(c, d) >> 20) == Plus(Chunk(c >> 20), Chunk(d >> 20))
  {
  }

  lemma ChunkXor2(c: bv32, d: bv32)
    ensures Chunk(Xor(c, d) >> 15) == Plus(Chunk(c >> 15), Chunk(d >> 15))
  {
  }

  lemma ChunkXor3(c: bv32, d: bv32)
    ensures Chunk(Xor(c, d) >> 10) == Plus(Chunk(c >> 10), Chunk(d >> 10))
  {
  }

  lemma ChunkXor4(c: bv32, d: bv32)
    ensures Chunk(Xor(c, d) >> 5) == Plus(Chunk(c >> 5), Chunk(d >> 5))
  {
  }

  lemma ChunkXor5(c: bv32, d: bv32)
    ensures Chunk(Xor(c, d)) == Plus(Chunk(c), Chunk(d))
  {
  }

  lemma {:induction false} PartialXor(k: nat, c: bv32, d: bv32, j: nat)
    requires j < 6
    ensures Partial(k, Xor(c, d), j) == Add(Partial(k, c, j), Partial(k, d, j))
    decreases j
  {
    hide Zn, Add, Embed, Digit, Xor, Plus;
    DigitXor(c, d, j);
    EmbedAdd(Digit(c, j), Digit(d, j));
    if j > 0 {
      PartialXor(k, c, d, j - 1);
      ZnAdd(k, Partial(k, c, j - 1), Partial(k, d, j - 1));
      AddPairs(Zn(k, Partial(k, c, j - 1)), Zn(k, Partial(k, d, j - 1)), Embed(Digit(c, j)), Embed(Digit(d, j)));
    }
  }

  lemma SyndromeXor(k: nat, c: bv32, d: bv32)
    ensures Syndrome(k, Xor(c, d)) == Add(Syndrome(k, c), Syndrome(k, d))
  {
    PartialXor(k, c, d, 5);
  }

  lemma SyndromeNone(k: nat)
    ensures Syndrome(k, 0) == 0
  {
    hide Syndrome, Xor, Add;
    XorLaws(0, 0);
    SyndromeXor(k, 0, 0);
    AddNone(Syndrome(k, 0));
  }

  lemma SyndromePart(k: nat, c0: bv8, mask: bv8, g: bv32)
    ensures Syndrome(k, Part(c0, mask, g)) == Pick(Bit(c0, mask), Syndrome(k, g))
  {
    hide Syndrome, Bit;
    SyndromeNone(k);
  }

  lemma Moved0(c: bv32)
    ensures Chunk(Up(c) >> 25) == Chunk(c >> 20)
  {
  }

  lemma Moved1(c: bv32)
    ensures Chunk(Up(c) >> 20) == Chunk(c >> 15)
  {
  }

  lemma Moved2(c: bv32)
    ensures Chunk(Up(c) >> 15) == Chunk(c >> 10)
  {
  }

  lemma Moved3(c: bv32)
    ensures Chunk(Up(c) >> 10) == Chunk(c >> 5)
  {
  }

  lemma Moved4(c: bv32)
    ensures Chunk(Up(c) >> 5) == Chunk(c) && Chunk(Up(c)) == 0
  {
  }

  lemma DigitUp(c: bv32, j: nat)
    requires j < 5
    ensures Digit(Up(c), j) == Digit(c, j + 1)
  {
    hide Up, Chunk;
    if j == 0 {
      Moved0(c);
    } else if j == 1 {
      Moved1(c);
    } else if j == 2 {
      Moved2(c);
    } else if j == 3 {
      Moved3(c);
    } else {
      Moved4(c);
    }
  }

  /** Without its highest coefficient, a remainder times x. */
  lemma {:induction false} PartialUp(k: nat, c: bv32, j: nat)
    requires j < 5
    ensures Add(Partial(k, Up(c), j), Rounds(k, j + 1, Embed(Digit(c, 0)))) == Partial(k, c, j + 1)
    decreases j
  {
    hide Zn, Add, Embed, Up, Digit;
    DigitUp(c, j);
    var top := Embed(Digit(c, 0));
    if j == 0 {
      assert Rounds(k, 1, top) == Zn(k, Rounds(k, 0, top));
      AddSwap(Embed(Digit(c, 1)), Zn(k, top));
    } else {
      PartialUp(k, c, j - 1);
      var p, d := Partial(k, Up(c), j - 1), Embed(Digit(c, j + 1));
      ZnAdd(k, p, Rounds(k, j, top));
      AddAssoc(Zn(k, p), d, Rounds(k, j + 1, top));
      AddSwap(d, Rounds(k, j + 1, top));
      AddAssoc(Zn(k, p), Rounds(k, j + 1, top), d);
    }
  }

  lemma SyndromeUp(k: nat, c: bv32)
    ensures Add(Syndrome(k, Up(c)), Rounds(k, 6, Embed(Digit(c, 0)))) == Zn(k, Syndrome(k, c))
  {
    hide Zn, Add, Up, Partial;
    var top := Embed(Digit(c, 0));
    PartialUp(k, c, 4);
    LastUp(k, c);
    ZnAdd(k, Partial(k, Up(c), 4), Rounds(k, 5, top));
    assert Rounds(k, 6, top) == Zn(k, Rounds(k, 5, top));
  }

  lemma LastUp(k: nat, c: bv32)
    ensures Partial(k, Up(c), 5) == Zn(k, Partial(k, Up(c), 4))
  {
    hide Zn, Add, Up, Chunk, Embed;
    Moved4(c);
    EmbedKernel(0);
    AddNone(Zn(k, Partial(k, Up(c), 4)));
  }

  lemma SyndromeSymbol(k: nat, v: bv5)
    ensures Syndrome(k, Wide(v)) == Embed(v)
  {
    hide Zn, Add, Embed, Wide, Digit;
    SymbolDigits(v);
    EmbedKernel(0);
    ZnKernel(k, 0);
    AddNone(0);
    AddNone(Embed(v));
    assert Partial(k, Wide(v), 0) == 0;
    assert Partial(k, Wide(v), 1) == 0;
    assert Partial(k, Wide(v), 2) == 0;
    assert Partial(k, Wide(v), 3) == 0;
    assert Partial(k, Wide(v), 4) == 0;
  }

  lemma SymbolDigits(v: bv5)
    ensures Digit(Wide(v), 0) == 0 && Digit(Wide(v), 1) == 0 && Digit(Wide(v), 2) == 0
    ensures Digit(Wide(v), 3) == 0 && Digit(Wide(v), 4) == 0 && Digit(Wide(v), 5) == v
  {
  }

  // ----- The generator vanishes at three powers of z -----

  /** A polynomial of degree five at a point. */
  function Horner(p: Ten, e0: Ten, e1: Ten, e2: Ten, e3: Ten, e4: Ten, e5: Ten): Ten {
    Add(Times(p, Add(Times(p, Add(Times(p, Add(Times(p, Add(Times(p, e0), e1)), e2)), e3)), e4)), e5)
  }

  /** The sixth power of a point, times a constant. */
  function Sixth(p: Ten, v: Ten): Ten {
    Times(p, Times(p, Times(p, Times(p, Times(p, Times(p, v))))))
  }

  lemma PowerTimes(k: nat, p: Ten, v: Ten)
    requires p == Zn(k, 1)
    ensures Zn(k, v) == Times(p, v)
  {
    hide Zn, Times, Mul;
    PowerIs(k, v);
    TimesIs(p, v);
  }

  lemma SyndromeIs(k: nat, p: Ten, c: bv32)
    requires p == Zn(k, 1)
    ensures Syndrome(k, c) == Horner(p, Embed(Digit(c, 0)), Embed(Digit(c, 1)), Embed(Digit(c, 2)),
                                     Embed(Digit(c, 3)), Embed(Digit(c, 4)), Embed(Digit(c, 5)))
  {
    hide Zn, Times, Embed, Digit, Add;
    PowerTimes(k, p, Partial(k, c, 0));
    PowerTimes(k, p, Partial(k, c, 1));
    PowerTimes(k, p, Partial(k, c, 2));
    PowerTimes(k, p, Partial(k, c, 3));
    PowerTimes(k, p, Partial(k, c, 4));
    assert Partial(k, c, 2) == Add(Times(p, Add(Times(p, Partial(k, c, 0)), Embed(Digit(c, 1)))), Embed(Digit(c, 2)));
    assert Partial(k, c, 4) == Add(Times(p, Add(Times(p, Partial(k, c, 2)), Embed(Digit(c, 3)))), Embed(Digit(c, 4)));
  }

  lemma SixthIs(k: nat, p: Ten, v: Ten)
    requires p == Zn(k, 1)
    ensures Rounds(k, 6, v) == Sixth(p, v)
  {
    hide Zn, Times;
    PowerTimes(k, p, Rounds(k, 0, v));
    PowerTimes(k, p, Rounds(k, 1, v));
    PowerTimes(k, p, Rounds(k, 2, v));
    PowerTimes(k, p, Rounds(k, 3, v));
    PowerTimes(k, p, Rounds(k, 4, v));
    PowerTimes(k, p, Rounds(k, 5, v));
    assert Rounds(k, 2, v) == Times(p, Times(p, v));
    assert Rounds(k, 4, v) == Times(p, Times(p, Rounds(k, 2, v)));
  }

  lemma RootPowers()
    ensures Zn(24, 1) == 1008 && Zn(25, 1) == 707 && Zn(26, 1) == 165
  {
    hide Zn;
    SmallPowers();
    PowerSum(16, 8);
    PowerSum(24, 1);
    PowerSum(25, 1);
  }

  /** The three points. */
  function Root(k: nat): Ten
    requires 24 <= k <= 26
  {
    if k == 24 then 1008 else if k == 25 then 707 else 165
  }

  lemma FirstDigits()
    ensures Digit(0x3b6a57b2, 0) == 29 && Digit(0x3b6a57b2, 1) == 22 && Digit(0x3b6a57b2, 2) == 20
    ensures Digit(0x3b6a57b2, 3) == 21 && Digit(0x3b6a57b2, 4) == 29 && Digit(0x3b6a57b2, 5) == 18
  {
  }

  lemma FirstEmbedded()
    ensures Embed(29) == 946 && Embed(22) == 229 && Embed(20) == 235
    ensures Embed(21) == 234 && Embed(18) == 177
  {
  }

  lemma SecondDigits()
    ensures Digit(0x26508e6d, 0) == 19 && Digit(0x26508e6d, 1) == 5 && Digit(0x26508e6d, 2) == 1
    ensures Digit(0x26508e6d, 3) == 3 && Digit(0x26508e6d, 4) == 19 && Digit(0x26508e6d, 5) == 13
  {
  }

  lemma SecondEmbedded()
    ensures Embed(19) == 176 && Embed(5) == 85 && Embed(1) == 1
    ensures Embed(3) == 15 && Embed(13) == 781
  {
  }

  lemma ThirdDigits()
    ensures Digit(0x1ea119fa, 0) == 15 && Digit(0x1ea119fa, 1) == 10 && Digit(0x1ea119fa, 2) == 2
    ensures Digit(0x1ea119fa, 3) == 6 && Digit(0x1ea119fa, 4) == 15 && Digit(0x1ea119fa, 5) == 26
  {
  }

  lemma ThirdEmbedded()
    ensures Embed(15) == 771 && Embed(10) == 854 && Embed(2) == 14
    ensures Embed(6) == 90 && Embed(26) == 1001
  {
  }

  lemma FourthDigits()
    ensures Digit(0x3d4233dd, 0) == 30 && Digit(0x3d4233dd, 1) == 20 && Digit(0x3d4233dd, 2) == 4
    ensures Digit(0x3d4233dd, 3) == 12 && Digit(0x3d4233dd, 4) == 30 && Digit(0x3d4233dd, 5) == 29
  {
  }

  lemma FourthEmbedded()
    ensures Embed(30) == 957 && Embed(20) == 235 && Embed(4) == 84
    ensures Embed(12) == 780 && Embed(29) == 946
  {
  }

  lemma FifthDigits()
    ensures Digit(0x2a1462b3, 0) == 21 && Digit(0x2a1462b3, 1) == 1 && Digit(0x2a1462b3, 2) == 8
    ensures Digit(0x2a1462b3, 3) == 24 && Digit(0x2a1462b3, 4) == 21 && Digit(0x2a1462b3, 5) == 19
  {
  }

  lemma FifthEmbedded()
    ensures Embed(21) == 234 && Embed(1) == 1 && Embed(8) == 856
    ensures Embed(24) == 999 && Embed(19) == 176
  {
  }

  lemma Products24()
    ensures Times(1008, 946) == 152 && Times(1008, 125) == 150 && Times(1008, 125) == 150
    ensures Times(1008, 124) == 870 && Times(1008, 212) == 523
  {
  }

  lemma Powers24()
    ensures Times(1008, 1) == 1008 && Times(1008, 1008) == 589 && Times(1008, 589) == 697
    ensures Times(1008, 697) == 185 && Times(1008, 185) == 9 && Times(1008, 9) == 698
  {
  }

  lemma RootOf24()
    ensures Horner(1008, 946, 229, 235, 234, 946, 177) == Sixth(1008, 1)
  {
    hide Times;
    Products24();
    Powers24();
    assert Add(152, 229) == 125 && Add(150, 235) == 125 && Add(150, 234) == 124;
    assert Add(870, 946) == 212 && Add(523, 177) == 698;
  }

  lemma Products25()
    ensures Times(707, 946) == 304 && Times(707, 469) == 838 && Times(707, 941) == 131
    ensures Times(707, 105) == 109 && Times(707, 991) == 23
  {
  }

  lemma Powers25()
    ensures Times(707, 1) == 707 && Times(707, 707) == 882 && Times(707, 882) == 324
    ensures Times(707, 324) == 470 && Times(707, 470) == 288 && Times(707, 288) == 166
  {
  }

  lemma RootOf25()
    ensures Horner(707, 946, 229, 235, 234, 946, 177) == Sixth(707, 1)
  {
    hide Times;
    Products25();
    Powers25();
    assert Add(304, 229) == 469 && Add(838, 235) == 941 && Add(131, 234) == 105;
    assert Add(109, 946) == 991 && Add(23, 177) == 166;
  }

  lemma Products26()
    ensures Times(165, 946) == 608 && Times(165, 645) == 65 && Times(165, 170) == 477
    ensures Times(165, 311) == 545 && Times(165, 403) == 41
  {
  }

  lemma Powers26()
    ensures Times(165, 1) == 165 && Times(165, 165) == 685 && Times(165, 685) == 102
    ensures Times(165, 102) == 938 && Times(165, 938) == 637 && Times(165, 637) == 152
  {
  }

  lemma RootOf26()
    ensures Horner(165, 946, 229, 235, 234, 946, 177) == Sixth(165, 1)
  {
    hide Times;
    Products26();
    Powers26();
    assert Add(608, 229) == 645 && Add(65, 235) == 170 && Add(477, 234) == 311;
    assert Add(545, 946) == 403 && Add(41, 177) == 152;
  }

  /** The polynomial x^6 modulo the generator. */
  lemma FirstRoot(k: nat)
    requires 24 <= k <= 26
    ensures Syndrome(k, 0x3b6a57b2) == Rounds(k, 6, 1)
  {
    hide Zn, Horner, Sixth, Digit, Embed, Syndrome, Rounds;
    RootPowers();
    FirstDigits();
    FirstEmbedded();
    if k == 24 {
      RootOf24();
    } else if k == 25 {
      RootOf25();
    } else {
      RootOf26();
    }
    SyndromeIs(k, Root(k), 0x3b6a57b2);
    SixthIs(k, Root(k), 1);
  }

  /** Every symbol of one list is two times that of the other, in the field of 32 elements. */
  ghost predicate Doubles(c: bv32, d: bv32) {
    forall i :: 0 <= i < 6 ==> Embed(Digit(d, i)) == Mul(14, Embed(Digit(c, i)))
  }

  lemma {:induction false} PartialDoubles(k: nat, c: bv32, d: bv32, j: nat)
    requires j < 6 && Doubles(c, d)
    ensures Partial(k, d, j) == Mul(14, Partial(k, c, j))
    decreases j
  {
    hide Zn, Add, Mul, Embed, Digit;
    if j > 0 {
      PartialDoubles(k, c, d, j - 1);
      MulZn(k, 14, Partial(k, c, j - 1));
      MulAdd(14, Zn(k, Partial(k, c, j - 1)), Embed(Digit(c, j)));
    }
  }

  lemma {:induction false} RoundsMul(k: nat, j: nat, w: Ten, v: Ten)
    ensures Rounds(k, j, Mul(w, v)) == Mul(w, Rounds(k, j, v))
    decreases j
  {
    hide Zn, Mul;
    if j > 0 {
      RoundsMul(k, j - 1, w, v);
      MulZn(k, w, Rounds(k, j - 1, v));
    }
  }

  lemma DoubleRoot(k: nat, c: bv32, d: bv32, v: Ten)
    requires Syndrome(k, c) == Rounds(k, 6, v) && Doubles(c, d)
    ensures Syndrome(k, d) == Rounds(k, 6, Times(14, v))
  {
    hide Doubles, Mul, Times, Rounds, Partial;
    PartialDoubles(k, c, d, 5);
    RoundsMul(k, 6, 14, v);
    TimesIs(14, v);
  }

  lemma SecondDoubles()
    ensures Doubles(0x3b6a57b2, 0x26508e6d) && Times(14, 1) == 14
  {
    hide Digit, Embed, Mul;
    FirstDigits();
    FirstEmbedded();
    SecondDigits();
    SecondEmbedded();
    TimesIs(14, 946);
    TimesIs(14, 229);
    TimesIs(14, 235);
    TimesIs(14, 234);
    TimesIs(14, 177);
    assert Times(14, 946) == 176 && Times(14, 229) == 85 && Times(14, 235) == 1;
    assert Times(14, 234) == 15 && Times(14, 177) == 781;
  }

  lemma SecondRoot(k: nat)
    requires 24 <= k <= 26
    ensures Syndrome(k, 0x26508e6d) == Rounds(k, 6, 14)
  {
    hide Syndrome, Rounds, Doubles, Times;
    FirstRoot(k);
    SecondDoubles();
    DoubleRoot(k, 0x3b6a57b2, 0x26508e6d, 1);
  }

  lemma ThirdDoubles()
    ensures Doubles(0x26508e6d, 0x1ea119fa) && Times(14, 14) == 84
  {
    hide Digit, Embed, Mul;
    SecondDigits();
    SecondEmbedded();
    ThirdDigits();
    ThirdEmbedded();
    TimesIs(14, 176);
    TimesIs(14, 85);
    TimesIs(14, 1);
    TimesIs(14, 15);
    TimesIs(14, 781);
    assert Times(14, 176) == 771 && Times(14, 85) == 854 && Times(14, 1) == 14;
    assert Times(14, 15) == 90 && Times(14, 781) == 1001;
  }

  lemma ThirdRoot(k: nat)
    requires 24 <= k <= 26
    ensures Syndrome(k, 0x1ea119fa) == Rounds(k, 6, 84)
  {
    hide Syndrome, Rounds, Doubles, Times;
    SecondRoot(k);
    ThirdDoubles();
    DoubleRoot(k, 0x26508e6d, 0x1ea119fa, 14);
  }

  lemma FourthDoubles()
    ensures Doubles(0x1ea119fa, 0x3d4233dd) && Times(14, 84) == 856
  {
    hide Digit, Embed, Mul;
    ThirdDigits();
    ThirdEmbedded();
    FourthDigits();
    FourthEmbedded();
    TimesIs(14, 771);
    TimesIs(14, 854);
    TimesIs(14, 14);
    TimesIs(14, 90);
    TimesIs(14, 1001);
    assert Times(14, 771) == 957 && Times(14, 854) == 235 && Times(14, 14) == 84;
    assert Times(14, 90) == 780 && Times(14, 1001) == 946;
  }

  lemma FourthRoot(k: nat)
    requires 24 <= k <= 26
    ensures Syndrome(k, 0x3d4233dd) == Rounds(k, 6, 856)
  {
    hide Syndrome, Rounds, Doubles, Times;
    ThirdRoot(k);
    FourthDoubles();
    DoubleRoot(k, 0x1ea119fa, 0x3d4233dd, 84);
  }

  lemma FifthDoubles()
    ensures Doubles(0x3d4233dd, 0x2a1462b3) && Times(14, 856) == 191
  {
    hide Digit, Embed, Mul;
    FourthDigits();
    FourthEmbedded();
    FifthDigits();
    FifthEmbedded();
    TimesIs(14, 957);
    TimesIs(14, 235);
    TimesIs(14, 84);
    TimesIs(14, 780);
    TimesIs(14, 946);
    assert Times(14, 957) == 234 && Times(14, 235) == 1 && Times(14, 84) == 856;
    assert Times(14, 780) == 999 && Times(14, 946) == 176;
  }

  lemma FifthRoot(k: nat)
    requires 24 <= k <= 26
    ensures Syndrome(k, 0x2a1462b3) == Rounds(k, 6, 191)
  {
    hide Syndrome, Rounds, Doubles, Times;
    FourthRoot(k);
    FifthDoubles();
    DoubleRoot(k, 0x3d4233dd, 0x2a1462b3, 856);
  }

  /** What is added for the five bits shifted out is x^6 times them, at each of the three points. */
  lemma GenRoot(k: nat, c0: bv8, d: bv5)
    requires 24 <= k <= 26
    requires Bit(c0, 1) == (d & 1 != 0) && Bit(c0, 2) == (d & 2 != 0) && Bit(c0, 4) == (d & 4 != 0)
    requires Bit(c0, 8) == (d & 8 != 0) && Bit(c0, 16) == (d & 16 != 0)
    ensures Syndrome(k, Gen(c0)) == Rounds(k, 6, Embed(d))
  {
    hide Syndrome, Rounds, Xor, Add, Pick, Part, Bit;
    var g1, g2, g4 := Part(c0, 1, 0x3b6a57b2), Part(c0, 2, 0x26508e6d), Part(c0, 4, 0x1ea119fa);
    var g8, g16 := Part(c0, 8, 0x3d4233dd), Part(c0, 16, 0x2a1462b3);
    PartRoot(k, c0, 1, 0x3b6a57b2, 1) by { FirstRoot(k); }
    PartRoot(k, c0, 2, 0x26508e6d, 14) by { SecondRoot(k); }
    PartRoot(k, c0, 4, 0x1ea119fa, 84) by { ThirdRoot(k); }
    PartRoot(k, c0, 8, 0x3d4233dd, 856) by { FourthRoot(k); }
    PartRoot(k, c0, 16, 0x2a1462b3, 191) by { FifthRoot(k); }
    SyndromeXor(k, g1, g2);
    SyndromeXor(k, g4, g8);
    SyndromeXor(k, Xor(g1, g2), Xor(g4, g8));
    SyndromeXor(k, Xor(Xor(g1, g2), Xor(g4, g8)), g16);
    var p1, p2, p4, p8 := Pick(d & 1 != 0, 1), Pick(d & 2 != 0, 14), Pick(d & 4 != 0, 84), Pick(d & 8 != 0, 856);
    var p16 := Pick(d & 16 != 0, 191);
    RoundsAdd(k, 6, p1, p2);
    RoundsAdd(k, 6, p4, p8);
    RoundsAdd(k, 6, Add(p1, p2), Add(p4, p8));
    RoundsAdd(k, 6, Add(Add(p1, p2), Add(p4, p8)), p16);
  }

  lemma PartRoot(k: nat, c0: bv8, mask: bv8, g: bv32, v: Ten)
    requires Syndrome(k, g) == Rounds(k, 6, v)
    ensures Syndrome(k, Part(c0, mask, g)) == Rounds(k, 6, Pick(Bit(c0, mask), v))
  {
    hide Syndrome, Rounds, Part, Pick, Bit;
    SyndromePart(k, c0, mask, g);
    RoundsPick(k, 6, Bit(c0, mask), v);
  }

  lemma OutBits(c: bv32)
    ensures Bit(Out(c), 1) == (Digit(c, 0) & 1 != 0) && Bit(Out(c), 2) == (Digit(c, 0) & 2 != 0)
    ensures Bit(Out(c), 4) == (Digit(c, 0) & 4 != 0) && Bit(Out(c), 8) == (Digit(c, 0) & 8 != 0)
    ensures Bit(Out(c), 16) == (Digit(c, 0) & 16 != 0)
  {
  }

  /** At each of the three points, a step multiplies by the point and adds the symbol. */
  lemma StepRoot(k: nat, c: bv32, v: bv5)
    requires 24 <= k <= 26
    ensures Syndrome(k, Step(c, v)) == Add(Zn(k, Syndrome(k, c)), Embed(v))
  {
    hide Syndrome, Rounds, Xor, Add, Zn, Embed, Up, Wide, Gen, Out, Digit, Bit;
    var top := Rounds(k, 6, Embed(Digit(c, 0)));
    OutBits(c);
    GenRoot(k, Out(c), Digit(c, 0));
    SyndromeXor(k, Up(c), Wide(v));
    SyndromeXor(k, Xor(Up(c), Wide(v)), Gen(Out(c)));
    SyndromeSymbol(k, v);
    SyndromeUp(k, c);
    AddAssoc(Syndrome(k, Up(c)), Embed(v), top);
    AddSwap(Embed(v), top);
    AddAssoc(Syndrome(k, Up(c)), top, Embed(v));
  }

  // ----- Errors -----

  /** A list with one symbol that is not zero. */
  function Single(n: nat, p: nat, x: bv5): (r: seq<bv5>)
    requires p < n
    ensures |r| == n
  {
    seq(n, i => if i == p then x else 0)
  }

  lemma {:induction false} ZerosFold(n: nat)
    ensures Fold(0, Zeros(n)) == 0
    decreases n
  {
    hide Step;
    if n > 0 {
      assert Zeros(n)[..n - 1] == Zeros(n - 1);
      ZerosFold(n - 1);
      ZeroStep();
    }
  }

  lemma ZeroStep()
    ensures Step(0, 0) == 0
  {
  }

  lemma {:induction false} SingleRoot(k: nat, n: nat, p: nat, x: bv5)
    requires 24 <= k <= 26 && p < n
    ensures Syndrome(k, Fold(0, Single(n, p, x))) == Rounds(k, n - 1 - p, Embed(x))
    decreases n
  {
    hide Syndrome, Step, Add, Zn, Embed;
    var e := Single(n, p, x);
    if p == n - 1 {
      assert e[..n - 1] == Zeros(n - 1);
      ZerosFold(n - 1);
      StepRoot(k, 0, x);
      SyndromeNone(k);
      ZnKernel(k, 0);
      AddNone(Embed(x));
    } else {
      var c := Fold(0, Single(n - 1, p, x));
      assert e[..n - 1] == Single(n - 1, p, x) && e[n - 1] == 0;
      SingleRoot(k, n - 1, p, x);
      StepRoot(k, c, 0);
      EmbedKernel(0);
      AddNone(Zn(k, Syndrome(k, c)));
    }
  }

  /** Three errors on their way through the checksum. */
  function Triple(n: nat, i: nat, j: nat, l: nat, x: bv5, y: bv5, z: bv5): (r: seq<bv5>)
    requires i < j < l < n
    ensures |r| == n
  {
    PlusAll(PlusAll(Single(n, l, z), Single(n, j, y)), Single(n, i, x))
  }

  lemma TripleRoot(k: nat, n: nat, i: nat, j: nat, l: nat, x: bv5, y: bv5, z: bv5)
    requires 24 <= k <= 26 && i < j < l < n && Fold(0, Triple(n, i, j, l, x, y, z)) == 0
    ensures Add(Add(Rounds(k, n - 1 - l, Embed(z)), Rounds(k, n - 1 - j, Embed(y))),
                Rounds(k, n - 1 - i, Embed(x))) == 0
  {
    hide Syndrome, Fold, Add, Xor, Embed, Rounds, Single, PlusAll;
    var a, b, c := Single(n, l, z), Single(n, j, y), Single(n, i, x);
    XorLaws(0, 0);
    FoldLinear(0, 0, a, b);
    FoldLinear(0, 0, PlusAll(a, b), c);
    SyndromeXor(k, Fold(0, a), Fold(0, b));
    SyndromeXor(k, Fold(0, PlusAll(a, b)), Fold(0, c));
    SingleRoot(k, n, l, z);
    SingleRoot(k, n, j, y);
    SingleRoot(k, n, i, x);
    SyndromeNone(k);
  }

  /** Three errors within a window of 1023 symbols do not cancel. */
  lemma TripleVanishes(n: nat, i: nat, j: nat, l: nat, x: bv5, y: bv5, z: bv5)
    requires i < j < l < n && l - i < 1023 && Fold(0, Triple(n, i, j, l, x, y, z)) == 0
    ensures x == 0 && y == 0 && z == 0
  {
    hide Fold, Triple, Add, Embed, Rounds, Zn;
    TripleRoot(24, n, i, j, l, x, y, z);
    TripleRoot(25, n, i, j, l, x, y, z);
    TripleRoot(26, n, i, j, l, x, y, z);
    var p, q, r := n - 1 - l, n - 1 - j, n - 1 - i;
    RoundsMore(24, p, Embed(z));
    RoundsMore(24, q, Embed(y));
    RoundsMore(24, r, Embed(x));
    RoundsTwoMore(24, p, Embed(z));
    RoundsTwoMore(24, q, Embed(y));
    RoundsTwoMore(24, r, Embed(x));
    Vandermonde(p, q, r, Rounds(24, p, Embed(z)), Rounds(24, q, Embed(y)), Rounds(24, r, Embed(x)));
    RoundsKernel(24, p, Embed(z));
    RoundsKernel(24, q, Embed(y));
    RoundsKernel(24, r, Embed(x));
    EmbedKernel(x);
    EmbedKernel(y);
    EmbedKernel(z);
  }

  /** Lists of symbols that differ in at most three symbols within a window of 1023 have different
      remainders, unless they are the same. */
  lemma ThreeErrors(vs: seq<bv5>, ws: seq<bv5>, i: nat, j: nat, l: nat)
    requires |vs| == |ws| && i < j < l < |vs| && l - i < 1023
    requires forall p :: 0 <= p < |vs| && p != i && p != j && p != l ==> vs[p] == ws[p]
    ensures PolyMod(vs) == PolyMod(ws) <==> vs == ws
  {
    if PolyMod(vs) == PolyMod(ws) {
      hide Fold, Xor, Plus, Triple;
      var n, d := |vs|, PlusAll(vs, ws);
      FoldLinear(1, 1, vs, ws);
      XorLaws(1, 1);
      XorLaws(PolyMod(vs), 0);
      Difference(vs, ws, i, j, l);
      TripleVanishes(n, i, j, l, d[i], d[j], d[l]);
      SameSum(vs[i], ws[i]);
      SameSum(vs[j], ws[j]);
      SameSum(vs[l], ws[l]);
    }
  }

  lemma SameSum(v: bv5, w: bv5)
    ensures Plus(v, w) == 0 ==> v == w
  {
  }

  lemma PlusNone(v: bv5)
    ensures Plus(v, v) == 0 && Plus(v, 0) == v && Plus(0, v) == v
  {
  }

  lemma Difference(vs: seq<bv5>, ws: seq<bv5>, i: nat, j: nat, l: nat)
    requires |vs| == |ws| && i < j < l < |vs|
    requires forall p :: 0 <= p < |vs| && p != i && p != j && p != l ==> vs[p] == ws[p]
    ensures var d := PlusAll(vs, ws); d == Triple(|vs|, i, j, l, d[i], d[j], d[l])
  {
    hide Plus;
    var n, d := |vs|, PlusAll(vs, ws);
    var t := Triple(n, i, j, l, d[i], d[j], d[l]);
    forall p | 0 <= p < n
      ensures d[p] == t[p]
    {
      PlusNone(0);
      PlusNone(vs[p]);
      PlusNone(d[p]);
    }
  }

  /** Two strings that both decode as the same encoding, and agree except in at most three characters of
      the data part within a window of 1023, decode to the same: up to three errors are detected. */
  lemma ThreeErrorsDetected(s: string, t: string, i: nat, j: nat, l: nat, e1: bool, e2: bool)
    requires |s| == |t| && LastOne(s) == LastOne(t) < i < j < l < |s| && l - i < 1023
    requires forall p :: 0 <= p < LastOne(s) ==> LowerCase(s[p]) == LowerCase(t[p])
    requires forall p :: LastOne(s) < p < |s| && p != i && p != j && p != l ==> Rev(s[p]) == Rev(t[p])
    requires Decode(s, e1).Something? && Decode(t, e2).Something?
    ensures Decode(s, e1) == Decode(t, e2) || Decode(s, e1).encoding != Decode(t, e2).encoding
  {
    hide VerifyChecksum, LastOne, Rev, Decode, LowerCase;
    var pos := LastOne(s);
    DecodeMeans(s, e1);
    DecodeMeans(t, e2);
    var v, w := Values(s[pos + 1..]), Values(t[pos + 1..]);
    var hrp := LowerAll(s[..pos]);
    assert hrp == LowerAll(t[..pos]);
    assert forall p :: 0 <= p < |v| && p != i - pos - 1 && p != j - pos - 1 && p != l - pos - 1 ==> v[p] == w[p];
    if Decode(s, e1).encoding == Decode(t, e2).encoding {
      SameChecksum(hrp, v, w, i - pos - 1, j - pos - 1, l - pos - 1, Decode(s, e1).encoding);
      DecodeIs(s, e1);
      DecodeIs(t, e2);
    }
  }

  lemma DecodeIs(s: string, e: bool)
    requires Decode(s, e).Something?
    ensures var pos := LastOne(s);
      && 0 < pos && AllSymbols(s[pos + 1..]) && |s| >= pos + 7
      && Decode(s, e).hrp == LowerAll(s[..pos])
      && Decode(s, e).data == Values(s[pos + 1..])[..|Values(s[pos + 1..])| - 6]
  {
    hide VerifyChecksum, LastOne, Rev, Values, LowerAll, AllPrintable, NoUpper, NoLower;
  }

  lemma SameChecksum(hrp: string, v: seq<bv5>, w: seq<bv5>, i: nat, j: nat, l: nat, encoding: Encoding)
    requires |v| == |w| && i < j < l < |v| && l - i < 1023
    requires forall p :: 0 <= p < |v| && p != i && p != j && p != l ==> v[p] == w[p]
    requires VerifyChecksum(hrp, v) == Valid(encoding) && VerifyChecksum(hrp, w) == Valid(encoding)
    ensures v == w
  {
    hide Fold, ExpandHRP;
    var h := ExpandHRP(hrp);
    ThreeErrors(h + v, h + w, |h| + i, |h| + j, |h| + l);
    assert v == (h + v)[|h|..] && w == (h + w)[|h|..];
  }
}
