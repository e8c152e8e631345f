/** The Bech32 and Bech32m checksum (BIP 173, BIP 350), and what strings encode. */
module Bech32Spec {
  import opened Common

  datatype Encoding = BECH32 | BECH32M

  function EncodingConstant(e: Encoding): bv32 {
    if e == BECH32 then 1 else 0x2bc830a3
  }

  // ----- The checksum -----

  function Xor(a: bv32, b: bv32): bv32 {
    a ^ b
  }

  lemma Assoc(a: bv32, b: bv32, c: bv32)
    ensures Xor(Xor(a, b), c) == Xor(a, Xor(b, c))
  {
  }

  lemma XorLaws(a: bv32, b: bv32)
    ensures Xor(a, a) == 0 && Xor(a, 0) == a && Xor(0, a) == a && (Xor(a, b) == 0 ==> a == b)
    ensures Xor(a, Xor(a, b)) == b && Xor(a, b) == Xor(b, a)
  {
  }

  lemma Swap(a: bv32, b: bv32, c: bv32)
    ensures Xor(a, Xor(b, c)) == Xor(b, Xor(a, c))
  {
  }

  function Xor8(a: bv8, b: bv8): bv8 {
    a ^ b
  }

  predicate Bit(c0: bv8, mask: bv8) {
    c0 & mask != 0
  }

  lemma BitLinear(a: bv8, b: bv8)
    ensures Bit(Xor8(a, b), 1) == (Bit(a, 1) != Bit(b, 1)) && Bit(Xor8(a, b), 2) == (Bit(a, 2) != Bit(b, 2))
    ensures Bit(Xor8(a, b), 4) == (Bit(a, 4) != Bit(b, 4)) && Bit(Xor8(a, b), 8) == (Bit(a, 8) != Bit(b, 8))
    ensures Bit(Xor8(a, b), 16) == (Bit(a, 16) != Bit(b, 16))
  {
  }

  /** A constant, if a bit of `c0` is set. */
  function Part(c0: bv8, mask: bv8, k: bv32): bv32 {
    if Bit(c0, mask) then k else 0
  }

  lemma PartLinear(a: bv8, b: bv8, mask: bv8, k: bv32)
    requires Bit(Xor8(a, b), mask) == (Bit(a, mask) != Bit(b, mask))
    ensures Part(Xor8(a, b), mask, k) == Xor(Part(a, mask, k), Part(b, mask, k))
  {
    hide Xor, Xor8, Bit;
    XorLaws(k, 0);
    XorLaws(0, 0);
  }

  /** x^6 modulo the generator, times the five bits that were shifted out. */
  function Gen(c0: bv8): bv32 {
    Xor(Xor(Xor(Part(c0, 1, 0x3b6a57b2), Part(c0, 2, 0x26508e6d)),
            Xor(Part(c0, 4, 0x1ea119fa), Part(c0, 8, 0x3d4233dd))), Part(c0, 16, 0x2a1462b3))
  }

  lemma GenLinear(a: bv8, b: bv8)
    ensures Gen(Xor8(a, b)) == Xor(Gen(a), Gen(b))
  {
    hide Xor, Xor8, Part, Bit;
    var k1, k2, k4, k8, k16 := 0x3b6a57b2, 0x26508e6d, 0x1ea119fa, 0x3d4233dd, 0x2a1462b3;
    BitLinear(a, b);
    PartLinear(a, b, 1, k1);
    PartLinear(a, b, 2, k2);
    PartLinear(a, b, 4, k4);
    PartLinear(a, b, 8, k8);
    PartLinear(a, b, 16, k16);
    Assoc(Part(a, 1, k1), Part(b, 1, k1), Xor(Part(a, 2, k2), Part(b, 2, k2)));
    Swap(Part(b, 1, k1), Part(a, 2, k2), Part(b, 2, k2));
    Assoc(Part(a, 1, k1), Part(a, 2, k2), Xor(Part(b, 1, k1), Part(b, 2, k2)));
    Assoc(Part(a, 4, k4), Part(b, 4, k4), Xor(Part(a, 8, k8), Part(b, 8, k8)));
    Swap(Part(b, 4, k4), Part(a, 8, k8), Part(b, 8, k8));
    Assoc(Part(a, 4, k4), Part(a, 8, k8), Xor(Part(b, 4, k4), Part(b, 8, k8)));
    var a12, b12 := Xor(Part(a, 1, k1), Part(a, 2, k2)), Xor(Part(b, 1, k1), Part(b, 2, k2));
    var a48, b48 := Xor(Part(a, 4, k4), Part(a, 8, k8)), Xor(Part(b, 4, k4), Part(b, 8, k8));
    Assoc(a12, b12, Xor(a48, b48));
    Swap(b12, a48, b48);
    Assoc(a12, a48, Xor(b12, b48));
    Assoc(Xor(a12, a48), Xor(b12, b48), Xor(Part(a, 16, k16), Part(b, 16, k16)));
    Swap(Xor(b12, b48), Part(a, 16, k16), Part(b, 16, k16));
    Assoc(Xor(a12, a48), Part(a, 16, k16), Xor(Xor(b12, b48), Part(b, 16, k16)));
  }

  function Out(c: bv32): bv8 {
    (c >> 25) as bv8
  }

  function Up(c: bv32): bv32 {
    (c & 0x1ffffff) << 5
  }

  function Wide(v: bv5): bv32 {
    v as bv32
  }

  function Plus(v: bv5, w: bv5): bv5 {
    v ^ w
  }

  lemma PartsLinear(c: bv32, d: bv32, v: bv5, w: bv5)
    ensures Out(Xor(c, d)) == Xor8(Out(c), Out(d)) && Up(Xor(c, d)) == Xor(Up(c), Up(d))
    ensures Wide(Plus(v, w)) == Xor(Wide(v), Wide(w))
  {
  }

  /** One symbol more: the polynomial times x, plus the symbol, modulo the generator. */
  function Step(c: bv32, v: bv5): bv32 {
    Xor(Xor(Up(c), Wide(v)), Gen(Out(c)))
  }

  /** The step is linear over exclusive or. */
  lemma StepLinear(c: bv32, d: bv32, v: bv5, w: bv5)
    ensures Step(Xor(c, d), Plus(v, w)) == Xor(Step(c, v), Step(d, w))
  {
    hide Xor, Xor8, Up, Wide, Gen, Out, Plus;
    PartsLinear(c, d, v, w);
    GenLinear(Out(c), Out(d));
    Assoc(Up(c), Up(d), Xor(Wide(v), Wide(w)));
    Swap(Up(d), Wide(v), Wide(w));
    Assoc(Up(c), Wide(v), Xor(Up(d), Wide(w)));
    Assoc(Xor(Up(c), Wide(v)), Xor(Up(d), Wide(w)), Xor(Gen(Out(c)), Gen(Out(d))));
    Swap(Xor(Up(d), Wide(w)), Gen(Out(c)), Gen(Out(d)));
    Assoc(Xor(Up(c), Wide(v)), Gen(Out(c)), Xor(Xor(Up(d), Wide(w)), Gen(Out(d))));
  }

  /** Remainders have thirty bits. */
  predicate Reduced(c: bv32) {
    c < 0x4000_0000
  }

  lemma XorReduced(a: bv32, b: bv32)
    requires Reduced(a) && Reduced(b)
    ensures Reduced(Xor(a, b))
  {
  }

  lemma PartsReduced(c: bv32, v: bv5, c0: bv8)
    ensures Reduced(Up(c)) && Reduced(Wide(v))
    ensures Reduced(Part(c0, 1, 0x3b6a57b2)) && Reduced(Part(c0, 2, 0x26508e6d)) && Reduced(Part(c0, 4, 0x1ea119fa))
    ensures Reduced(Part(c0, 8, 0x3d4233dd)) && Reduced(Part(c0, 16, 0x2a1462b3))
  {
  }

  lemma StepReduced(c: bv32, v: bv5)
    ensures Reduced(Step(c, v))
  {
    hide Xor, Part, Up, Wide, Out, Reduced;
    var o := Out(c);
    PartsReduced(c, v, o);
    var k12 := Xor(Part(o, 1, 0x3b6a57b2), Part(o, 2, 0x26508e6d));
    var k48 := Xor(Part(o, 4, 0x1ea119fa), Part(o, 8, 0x3d4233dd));
    XorReduced(Part(o, 1, 0x3b6a57b2), Part(o, 2, 0x26508e6d));
    XorReduced(Part(o, 4, 0x1ea119fa), Part(o, 8, 0x3d4233dd));
    XorReduced(k12, k48);
    XorReduced(Xor(k12, k48), Part(o, 16, 0x2a1462b3));
    XorReduced(Up(c), Wide(v));
    XorReduced(Xor(Up(c), Wide(v)), Gen(o));
  }

  /** No remainder is lost: a step can be undone. */
  lemma StepInjective(c: bv32, d: bv32, v: bv5)
    requires Reduced(c) && Reduced(d) && Step(c, v) == Step(d, v)
    ensures c == d
  {
    hide Xor, Step, Reduced;
    XorReduced(c, d);
    StepLinear(c, d, v, v);
    XorLaws(Step(c, v), 0);
    SamePlus(v);
    Kernel(Xor(c, d));
    XorLaws(c, d);
  }

  lemma SamePlus(v: bv5)
    ensures Plus(v, v) == 0
  {
  }

  lemma Kernel(c: bv32)
    requires Reduced(c)
    ensures Step(c, 0) == 0 ==> c == 0
  {
    hide Gen;
    LowBits(c, Gen(Out(c)));
    GenKernel(Out(c));
  }

  /** The lowest coefficient of the generator is not zero. */
  lemma GenKernel(c0: bv8)
    ensures c0 < 32 && Gen(c0) & 31 == 0 ==> c0 == 0
    ensures Gen(0) == 0
  {
  }

  lemma LowBits(c: bv32, g: bv32)
    requires Reduced(c)
    ensures Out(c) < 32
    ensures Xor(Xor(Up(c), Wide(0)), g) == 0 ==> g & 31 == 0
    ensures Xor(Xor(Up(c), Wide(0)), 0) == 0 && Out(c) == 0 ==> c == 0
  {
  }

  function Fold(c: bv32, vs: seq<bv5>): bv32 {
    if vs == [] then c else Step(Fold(c, vs[..|vs| - 1]), vs[|vs| - 1])
  }

  function PolyMod(vs: seq<bv5>): bv32 {
    Fold(1, vs)
  }

  function Zeros(n: nat): seq<bv5> {
    seq(n, _ => 0)
  }

  function PlusAll(vs: seq<bv5>, ws: seq<bv5>): (r: seq<bv5>)
    requires |vs| == |ws|
    ensures |r| == |vs|
  {
    seq(|vs|, i requires 0 <= i < |vs| => Plus(vs[i], ws[i]))
  }

  lemma {:induction false} FoldLinear(c: bv32, d: bv32, vs: seq<bv5>, ws: seq<bv5>)
    requires |vs| == |ws|
    ensures Fold(Xor(c, d), PlusAll(vs, ws)) == Xor(Fold(c, vs), Fold(d, ws))
    decreases |vs|
  {
    hide Xor, Step, Plus;
    if vs != [] {
      var n := |vs| - 1;
      FoldLinear(c, d, vs[..n], ws[..n]);
      assert PlusAll(vs, ws)[..n] == PlusAll(vs[..n], ws[..n]);
      StepLinear(Fold(c, vs[..n]), Fold(d, ws[..n]), vs[n], ws[n]);
    }
  }

  lemma {:induction false} FoldAppend(c: bv32, a: seq<bv5>, b: seq<bv5>)
    ensures Fold(c, a + b) == Fold(Fold(c, a), b)
    decreases |b|
  {
    hide Step;
    if b == [] {
      assert a + b == a;
    } else {
      var n := |b| - 1;
      FoldAppend(c, a, b[..n]);
      assert (a + b)[..|a + b| - 1] == a + b[..n];
    }
  }

  lemma {:induction false} FoldReduced(c: bv32, vs: seq<bv5>)
    requires Reduced(c)
    ensures Reduced(Fold(c, vs))
  {
    hide Step, Reduced;
    if vs != [] {
      StepReduced(Fold(c, vs[..|vs| - 1]), vs[|vs| - 1]);
    }
  }

  lemma {:induction false} FoldInjective(c: bv32, d: bv32, vs: seq<bv5>)
    requires Reduced(c) && Reduced(d) && Fold(c, vs) == Fold(d, vs)
    ensures c == d
    decreases |vs|
  {
    hide Step, Reduced;
    if vs != [] {
      var n := |vs| - 1;
      FoldReduced(c, vs[..n]);
      FoldReduced(d, vs[..n]);
      StepInjective(Fold(c, vs[..n]), Fold(d, vs[..n]), vs[n]);
      FoldInjective(c, d, vs[..n]);
    }
  }

  // ----- Six symbols as thirty bits -----

  function Shift(m: bv32, i: nat): bv32
    requires i < 6
  {
    if i == 0 then m >> 25 else if i == 1 then m >> 20 else if i == 2 then m >> 15
    else if i == 3 then m >> 10 else if i == 4 then m >> 5 else m
  }

  function Drop5(s: bv32): bv32 {
    s >> 5
  }

  function Chunk(s: bv32): bv5 {
    (s & 31) as bv5
  }

  function Digit(m: bv32, i: nat): bv5
    requires i < 6
  {
    Chunk(Shift(m, i))
  }

  function SixDigits(m: bv32): (r: seq<bv5>)
    ensures |r| == 6
  {
    [Digit(m, 0), Digit(m, 1), Digit(m, 2), Digit(m, 3), Digit(m, 4), Digit(m, 5)]
  }

  /** While less than 25 bits are taken up, nothing is shifted out. */
  lemma NothingOut(c: bv32)
    requires c < 0x2000000
    ensures Gen(Out(c)) == 0
  {
  }

  lemma ChunkStep(s: bv32)
    requires Reduced(s)
    ensures Xor(Up(Drop5(s)), Wide(Chunk(s))) == s && Drop5(s) < 0x2000000
  {
  }

  lemma FirstShift(m: bv32)
    requires Reduced(m)
    ensures Drop5(Shift(m, 0)) == 0
  {
    assert (m >> 25) >> 5 == 0;
  }

  /** A group more is five bits more. */
  lemma NextShift(m: bv32, i: nat)
    requires 0 < i < 6
    ensures Drop5(Shift(m, i)) == Shift(m, i - 1)
  {
    hide Drop5;
    if i == 1 {
      Drops1(m);
    } else if i == 2 {
      Drops2(m);
    } else if i == 3 {
      Drops3(m);
    } else if i == 4 {
      Drops4(m);
    } else {
      Drops5(m);
    }
  }

  lemma Drops1(m: bv32)
    ensures Drop5(m >> 20) == m >> 25
  {
  }

  lemma Drops2(m: bv32)
    ensures Drop5(m >> 15) == m >> 20
  {
  }

  lemma Drops3(m: bv32)
    ensures Drop5(m >> 10) == m >> 15
  {
  }

  lemma Drops4(m: bv32)
    ensures Drop5(m >> 5) == m >> 10
  {
  }

  lemma Drops5(m: bv32)
    ensures Drop5(m) == m >> 5
  {
  }

  lemma ShiftReduced(m: bv32, i: nat)
    requires i < 6 && Reduced(m)
    ensures Reduced(Shift(m, i))
  {
    if i == 0 {
      assert m >> 25 <= m;
    } else if i == 1 {
      assert m >> 20 <= m;
    } else if i == 2 {
      assert m >> 15 <= m;
    } else if i == 3 {
      assert m >> 10 <= m;
    } else if i == 4 {
      assert m >> 5 <= m;
    }
  }

  /** One more of the six symbols. */
  lemma DigitStep(s: bv32)
    requires Reduced(s)
    ensures Step(Drop5(s), Chunk(s)) == s
  {
    hide Xor, Up, Wide, Chunk, Drop5, Gen, Out;
    ChunkStep(s);
    NothingOut(Drop5(s));
    XorLaws(Xor(Up(Drop5(s)), Wide(Chunk(s))), 0);
  }

  lemma SixDigitsFold(m: bv32)
    requires Reduced(m)
    ensures Fold(0, SixDigits(m)) == m
  {
    hide Step, Shift, Chunk, Reduced, Fold, Drop5;
    FirstShift(m);
    forall i | 0 <= i < 6
      ensures Step(Drop5(Shift(m, i)), Digit(m, i)) == Shift(m, i)
      ensures i > 0 ==> Drop5(Shift(m, i)) == Shift(m, i - 1)
    {
      ShiftReduced(m, i);
      DigitStep(Shift(m, i));
      if i > 0 {
        NextShift(m, i);
      }
    }
    SixSteps(0, SixDigits(m));
    LastShift(m);
  }

  lemma LastShift(m: bv32)
    ensures Shift(m, 5) == m
  {
  }

  lemma SixSteps(c: bv32, v: seq<bv5>)
    requires |v| == 6
    ensures Fold(c, v) == Step(Step(Step(Step(Step(Step(c, v[0]), v[1]), v[2]), v[3]), v[4]), v[5])
  {
    hide Step, Fold;
    FoldNone(c, v);
    FoldNext(c, v, 0);
    FoldNext(c, v, 1);
    FoldNext(c, v, 2);
    FoldNext(c, v, 3);
    FoldNext(c, v, 4);
    FoldNext(c, v, 5);
    assert v[..6] == v;
  }

  lemma FoldNone(c: bv32, v: seq<bv5>)
    ensures Fold(c, v[..0]) == c
  {
  }

  lemma FoldNext(c: bv32, v: seq<bv5>, k: nat)
    requires k < |v|
    ensures Fold(c, v[..k + 1]) == Step(Fold(c, v[..k]), v[k])
  {
    assert v[..k + 1][..k] == v[..k];
  }

  // ----- Checksums -----

  function High(c: char): bv5 {
    ((c as int / 32) % 32) as bv5
  }

  function Low(c: char): bv5 {
    (c as int % 32) as bv5
  }

  function ExpandHRP(hrp: string): seq<bv5> {
    seq(|hrp|, i requires 0 <= i < |hrp| => High(hrp[i])) + [0] + seq(|hrp|, i requires 0 <= i < |hrp| => Low(hrp[i]))
  }

  datatype Check = Invalid | Valid(encoding: Encoding)

  function VerifyChecksum(hrp: string, values: seq<bv5>): Check {
    var check := PolyMod(ExpandHRP(hrp) + values);
    if check == EncodingConstant(BECH32) then Valid(BECH32)
    else if check == EncodingConstant(BECH32M) then Valid(BECH32M)
    else Invalid
  }

  function CreateChecksum(encoding: Encoding, hrp: string, values: seq<bv5>): (r: seq<bv5>)
    ensures |r| == 6
  {
    SixDigits(Xor(PolyMod(ExpandHRP(hrp) + values + Zeros(6)), EncodingConstant(encoding)))
  }

  /** Data followed by its checksum verifies, as the encoding the checksum is for. */
  lemma ChecksumVerifies(encoding: Encoding, hrp: string, values: seq<bv5>)
    ensures VerifyChecksum(hrp, values + CreateChecksum(encoding, hrp, values)) == Valid(encoding)
  {
    hide Fold, Xor, SixDigits, Reduced, ExpandHRP, Zeros, Plus;
    var k, enc := EncodingConstant(encoding), ExpandHRP(hrp) + values;
    var base, p := Fold(1, enc), PolyMod(enc + Zeros(6));
    var m := Xor(p, k);
    var r := SixDigits(m);
    assert ExpandHRP(hrp) + (values + r) == enc + r;
    FoldAppend(1, enc, r);
    FoldAppend(1, enc, Zeros(6));
    ConstantReduced(encoding);
    FoldReduced(1, enc + Zeros(6));
    XorReduced(p, k);
    SixDigitsFold(m);
    ZerosPlus(base, r);
    FoldLinear(base, 0, Zeros(6), r);
    XorLaws(p, k);
  }

  lemma ConstantReduced(encoding: Encoding)
    ensures Reduced(EncodingConstant(encoding)) && Reduced(1) && EncodingConstant(BECH32) != EncodingConstant(BECH32M)
  {
  }

  lemma ZerosPlus(c: bv32, r: seq<bv5>)
    requires |r| == 6
    ensures |Zeros(6)| == 6 && PlusAll(Zeros(6), r) == r && Xor(c, 0) == c
  {
    XorLaws(c, 0);
  }

  /** Two lists that differ in one symbol never both verify as the same encoding. */
  lemma SingleError(hrp: string, a: seq<bv5>, x: bv5, y: bv5, b: seq<bv5>, encoding: Encoding)
    requires x != y && VerifyChecksum(hrp, a + [x] + b) == Valid(encoding)
    ensures VerifyChecksum(hrp, a + [y] + b) != Valid(encoding)
  {
    hide Fold, Step, Reduced, ExpandHRP;
    var pre := ExpandHRP(hrp) + a;
    var c := Fold(1, pre);
    OneSymbol(pre, x, b);
    OneSymbol(pre, y, b);
    assert ExpandHRP(hrp) + (a + [x] + b) == pre + [x] + b;
    assert ExpandHRP(hrp) + (a + [y] + b) == pre + [y] + b;
    ConstantReduced(encoding);
    StepReduced(c, x);
    StepReduced(c, y);
    StepDiffers(c, x, y);
    if Fold(Step(c, x), b) == Fold(Step(c, y), b) {
      FoldInjective(Step(c, x), Step(c, y), b);
    }
  }

  lemma OneSymbol(pre: seq<bv5>, x: bv5, b: seq<bv5>)
    ensures Fold(1, pre + [x] + b) == Fold(Step(Fold(1, pre), x), b)
  {
    hide Step;
    FoldAppend(1, pre + [x], b);
    assert (pre + [x])[..|pre|] == pre;
  }

  lemma StepDiffers(c: bv32, x: bv5, y: bv5)
    requires x != y
    ensures Step(c, x) != Step(c, y)
  {
    hide Xor, Gen, Up, Wide;
    XorCancels(Up(c), Wide(x), Wide(y));
    XorCancels2(Xor(Up(c), Wide(x)), Xor(Up(c), Wide(y)), Gen(Out(c)));
    WideInjective(x, y);
  }

  lemma XorCancels(a: bv32, x: bv32, y: bv32)
    ensures Xor(a, x) == Xor(a, y) ==> x == y
  {
  }

  lemma XorCancels2(x: bv32, y: bv32, a: bv32)
    ensures Xor(x, a) == Xor(y, a) ==> x == y
  {
  }

  lemma WideInjective(x: bv5, y: bv5)
    ensures Wide(x) == Wide(y) ==> x == y
  {
  }

  // ----- Characters -----

  /** The character set. */
  function Letter(v: bv5): char {
    if v == 0 then 'q' else if v == 1 then 'p' else if v == 2 then 'z' else if v == 3 then 'r' else
    if v == 4 then 'y' else if v == 5 then '9' else if v == 6 then 'x' else if v == 7 then '8' else
    if v == 8 then 'g' else if v == 9 then 'f' else if v == 10 then '2' else if v == 11 then 't' else
    if v == 12 then 'v' else if v == 13 then 'd' else if v == 14 then 'w' else if v == 15 then '0' else
    if v == 16 then 's' else if v == 17 then '3' else if v == 18 then 'j' else if v == 19 then 'n' else
    if v == 20 then '5' else if v == 21 then '4' else if v == 22 then 'k' else if v == 23 then 'h' else
    if v == 24 then 'c' else if v == 25 then 'e' else if v == 26 then '6' else if v == 27 then 'm' else
    if v == 28 then 'u' else if v == 29 then 'a' else if v == 30 then '7' else 'l'
  }

  /** The symbol of a character of either case, if it has one. */
  function Rev(c: char): Option<bv5> {
    if c == 'q' || c == 'Q' then Some(0) else if c == 'p' || c == 'P' then Some(1) else
    if c == 'z' || c == 'Z' then Some(2) else if c == 'r' || c == 'R' then Some(3) else
    if c == 'y' || c == 'Y' then Some(4) else if c == '9' then Some(5) else
    if c == 'x' || c == 'X' then Some(6) else if c == '8' then Some(7) else
    if c == 'g' || c == 'G' then Some(8) else if c == 'f' || c == 'F' then Some(9) else
    if c == '2' then Some(10) else if c == 't' || c == 'T' then Some(11) else
    if c == 'v' || c == 'V' then Some(12) else if c == 'd' || c == 'D' then Some(13) else
    if c == 'w' || c == 'W' then Some(14) else if c == '0' then Some(15) else
    if c == 's' || c == 'S' then Some(16) else if c == '3' then Some(17) else
    if c == 'j' || c == 'J' then Some(18) else if c == 'n' || c == 'N' then Some(19) else
    if c == '5' then Some(20) else if c == '4' then Some(21) else if c == 'k' || c == 'K' then Some(22) else
    if c == 'h' || c == 'H' then Some(23) else if c == 'c' || c == 'C' then Some(24) else
    if c == 'e' || c == 'E' then Some(25) else if c == '6' then Some(26) else
    if c == 'm' || c == 'M' then Some(27) else if c == 'u' || c == 'U' then Some(28) else
    if c == 'a' || c == 'A' then Some(29) else if c == '7' then Some(30) else
    if c == 'l' || c == 'L' then Some(31) else None
  }

  predicate IsUpper(c: char) {
    'A' <= c <= 'Z'
  }

  predicate IsLower(c: char) {
    'a' <= c <= 'z'
  }

  predicate Printable(c: char) {
    33 <= c as int <= 126
  }

  function LowerCase(c: char): char {
    if IsUpper(c) then (c as int - 'A' as int + 'a' as int) as char else c
  }

  lemma LetterIs(v: bv5)
    ensures Rev(Letter(v)) == Some(v)
  {
    if v < 8 {
      EarlyLetters(v);
    } else if v < 16 {
      LowLetters(v);
    } else if v < 24 {
      HighLetters(v);
    } else if v < 28 {
      LateLetters(v);
    } else {
      LastLetters(v);
    }
  }

  lemma EarlyLetters(v: bv5)
    requires v < 8
    ensures Rev(Letter(v)) == Some(v)
  {
  }

  lemma LowLetters(v: bv5)
    requires 8 <= v < 16
    ensures Rev(Letter(v)) == Some(v)
  {
  }

  lemma HighLetters(v: bv5)
    requires 16 <= v < 24
    ensures Rev(Letter(v)) == Some(v)
  {
  }

  lemma LateLetters(v: bv5)
    requires 24 <= v < 28
    ensures Rev(Letter(v)) == Some(v)
  {
  }

  lemma LastLetters(v: bv5)
    requires 28 <= v
    ensures Rev(Letter(v)) == Some(v)
  {
  }

  lemma LetterShown(v: bv5)
    ensures Letter(v) != '1' && !IsUpper(Letter(v)) && Printable(Letter(v))
  {
  }

  // ----- Strings -----

  function Symbols(vs: seq<bv5>): (r: string)
    ensures |r| == |vs|
  {
    seq(|vs|, i requires 0 <= i < |vs| => Letter(vs[i]))
  }

  predicate NoUpper(s: string) {
    forall i :: 0 <= i < |s| ==> !IsUpper(s[i])
  }

  predicate NoLower(s: string) {
    forall i :: 0 <= i < |s| ==> !IsLower(s[i])
  }

  predicate AllPrintable(s: string) {
    forall i :: 0 <= i < |s| ==> Printable(s[i])
  }

  predicate AllSymbols(s: string) {
    forall i :: 0 <= i < |s| ==> Rev(s[i]).Some?
  }

  function Values(s: string): (r: seq<bv5>)
    requires AllSymbols(s)
    ensures |r| == |s|
  {
    seq(|s|, i requires 0 <= i < |s| => Rev(s[i]).value)
  }

  function LowerAll(s: string): (r: string)
    ensures |r| == |s|
  {
    seq(|s|, i requires 0 <= i < |s| => LowerCase(s[i]))
  }

  /** The last position of the separator; -1 if there is none. */
  function LastOne(s: string): (r: int)
    ensures -1 <= r < |s|
  {
    if s == [] then -1
    else if s[|s| - 1] == '1' then |s| - 1
    else LastOne(s[..|s| - 1])
  }

  function Encoded(encoding: Encoding, hrp: string, values: seq<bv5>): string {
    hrp + "1" + Symbols(values + CreateChecksum(encoding, hrp, values))
  }

  datatype Decoded = Nothing | Something(encoding: Encoding, hrp: string, data: seq<bv5>)

  /** One case only, printable, not too long, with a readable part, a separator and at least six symbols. */
  predicate WellFormed(s: string, extLength: bool) {
    && AllPrintable(s) && (NoUpper(s) || NoLower(s))
    && (|s| <= 90 || extLength) && 0 < LastOne(s) && LastOne(s) + 7 <= |s|
    && AllSymbols(s[LastOne(s) + 1..])
  }

  function Decode(s: string, extLength: bool): Decoded {
    if !WellFormed(s, extLength) then Nothing
    else
      var hrp, values := LowerAll(s[..LastOne(s)]), Values(s[LastOne(s) + 1..]);
      match VerifyChecksum(hrp, values)
      case Invalid => Nothing
      case Valid(e) => Something(e, hrp, values[..|values| - 6])
  }

  lemma {:induction false} LastOneIs(s: string, p: nat)
    requires p < |s| && s[p] == '1' && forall i :: p < i < |s| ==> s[i] != '1'
    ensures LastOne(s) == p
    decreases |s|
  {
    if p < |s| - 1 {
      LastOneIs(s[..|s| - 1], p);
    }
  }

  lemma SymbolsBack(vs: seq<bv5>)
    ensures AllSymbols(Symbols(vs)) && Values(Symbols(vs)) == vs
    ensures AllPrintable(Symbols(vs)) && NoUpper(Symbols(vs))
    ensures forall i :: 0 <= i < |vs| ==> Symbols(vs)[i] != '1'
  {
    hide Letter, Rev;
    forall i | 0 <= i < |vs|
      ensures Rev(Symbols(vs)[i]) == Some(vs[i])
      ensures Symbols(vs)[i] != '1' && Printable(Symbols(vs)[i]) && !IsUpper(Symbols(vs)[i])
    {
      LetterIs(vs[i]);
      LetterShown(vs[i]);
    }
  }

  /** Decoding an encoding gives encoding, readable part and data back. */
  lemma RoundTrip(encoding: Encoding, hrp: string, values: seq<bv5>, extLength: bool)
    requires hrp != [] && AllPrintable(hrp) && NoUpper(hrp)
    requires |hrp| + 7 + |values| <= 90 || extLength
    ensures Decode(Encoded(encoding, hrp, values), extLength) == Something(encoding, hrp, values)
  {
    hide Symbols, Values, CreateChecksum, VerifyChecksum, LastOne;
    var all := values + CreateChecksum(encoding, hrp, values);
    var s, tail := Encoded(encoding, hrp, values), Symbols(all);
    SymbolsBack(all);
    assert s[|hrp| + 1..] == tail && s[..|hrp|] == hrp;
    LastOneIs(s, |hrp|);
    LowerKept(hrp);
    Halves(hrp, tail);
    ChecksumVerifies(encoding, hrp, values);
    assert all[..|all| - 6] == values;
  }

  lemma Halves(hrp: string, tail: string)
    requires AllPrintable(hrp) && NoUpper(hrp) && AllPrintable(tail) && NoUpper(tail)
    ensures AllPrintable(hrp + "1" + tail) && NoUpper(hrp + "1" + tail)
  {
  }

  lemma LowerKept(hrp: string)
    requires NoUpper(hrp)
    ensures LowerAll(hrp) == hrp
  {
  }

  /** A string that differs from a valid one in one character of its data part, other than in case,
      is not valid as the same encoding with the same readable part. */
  lemma SingleErrorDetected(s: string, t: string, p: nat, e1: bool, e2: bool)
    requires |s| == |t| && p < |s| && (forall i :: 0 <= i < |s| && i != p ==> s[i] == t[i])
    requires Decode(s, e1).Something? && Decode(t, e2).Something?
    requires LastOne(s) == LastOne(t) < p && Rev(s[p]) != Rev(t[p])
    ensures Decode(s, e1).encoding != Decode(t, e2).encoding
  {
    hide VerifyChecksum, LastOne, Rev, Values, Decode, LowerAll;
    var pos := LastOne(s);
    DecodeMeans(s, e1);
    DecodeMeans(t, e2);
    assert s[..pos] == t[..pos];
    OneApart(s[pos + 1..], t[pos + 1..], p - pos - 1);
    var v, w, k := Values(s[pos + 1..]), Values(t[pos + 1..]), p - pos - 1;
    SingleError(LowerAll(s[..pos]), v[..k], v[k], w[k], v[k + 1..], Decode(s, e1).encoding);
  }

  lemma DecodeMeans(s: string, e: bool)
    requires Decode(s, e).Something?
    ensures var pos := LastOne(s);
      && 0 < pos && AllSymbols(s[pos + 1..])
      && VerifyChecksum(LowerAll(s[..pos]), Values(s[pos + 1..])) == Valid(Decode(s, e).encoding)
  {
    hide VerifyChecksum, LastOne, Rev;
  }

  lemma OneApart(s: string, t: string, k: nat)
    requires |s| == |t| && k < |s| && AllSymbols(s) && AllSymbols(t) && Rev(s[k]) != Rev(t[k])
    requires forall i :: 0 <= i < |s| && i != k ==> s[i] == t[i]
    ensures var v, w := Values(s), Values(t);
      && v == v[..k] + [v[k]] + v[k + 1..] && w == v[..k] + [w[k]] + v[k + 1..] && v[k] != w[k]
  {
    hide Rev;
    var v, w := Values(s), Values(t);
    assert forall i :: 0 <= i < |v| && i != k ==> v[i] == w[i];
  }
}
