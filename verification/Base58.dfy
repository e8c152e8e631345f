/** EncodeBase58 and DecodeBase58: buffers updated digit by digit with a carry. */
module Base58 {
  import opened Common
  import opened Base58Spec

  /** A buffer holds a number: zeros, then its digits. */
  ghost predicate Holds(s: Digits, base: nat, v: nat)
    requires base > 1
  {
    |ToDigits(base, v)| <= |s| && s == Zeros(|s| - |ToDigits(base, v)|) + ToDigits(base, v)
  }

  lemma HoldsNothing(s: Digits, base: nat)
    requires base > 1 && forall i :: 0 <= i < |s| ==> s[i] == 0
    ensures Holds(s, base, 0)
  {
  }

  lemma {:induction false} DigitsLower(base: nat, v: nat)
    requires base > 1 && v > 0
    ensures |ToDigits(base, v)| > 0 && Pow(base, |ToDigits(base, v)| - 1) <= v
    decreases v
  {
    Shrinks(v, base);
    if v / base > 0 {
      DigitsLower(base, v / base);
      var n := |ToDigits(base, v / base)|;
      MulMono(Pow(base, n - 1), v / base, base);
    }
  }

  /** Digits that are not too few for their value are the digits of it. */
  lemma Normal(base: nat, s: Digits)
    requires base > 1 && Below(base, s) && (s != [] ==> Value(base, s) >= Pow(base, |s| - 1))
    ensures s == ToDigits(base, Value(base, s))
  {
    hide Value, ToDigits, Pow;
    if s != [] && s[0] == 0 {
      var t := s[1..];
      assert s == [0] + t;
      ValueCons(base, 0, t);
      ValueBound(base, t);
    }
    DigitsUnique(base, s);
  }

  /** One digit of the carry loop. */
  lemma DigitStep(base: nat, mult: nat, c: nat, was: Digits, now: Digits, x: nat, carry: nat, sum: nat)
    requires base > 1 && |was| == |now|
    requires Value(base, now) + Times(carry, Pow(base, |now|)) == Times(mult, Value(base, was)) + c
    requires sum == carry + Times(mult, x)
    ensures Value(base, [sum % base] + now) + Times(sum / base, Pow(base, |now| + 1)) ==
            Times(mult, Value(base, [x] + was)) + c
  {
    var p := Pow(base, |now|);
    assert Pow(base, |now| + 1) == Times(base, p);
    ValueCons(base, sum % base, now);
    ValueCons(base, x, was);
    hide Value, Pow;
    CarryArith(base, mult, x, p, carry, sum, Value(base, was));
  }

  lemma CarryArith(base: nat, mult: nat, x: nat, p: nat, carry: nat, sum: nat, w: nat)
    requires base > 1 && sum == carry + mult * x
    ensures (sum % base) * p + (sum / base) * (base * p) == carry * p + mult * (x * p)
    ensures mult * (x * p + w) == mult * (x * p) + mult * w
  {
    var q, r := sum / base, sum % base;
    assert sum == q * base + r;
    MulAssoc(q, base, p);
    MulPlus(q * base, r, p);
    MulPlus(carry, mult * x, p);
    MulAssoc(mult, x, p);
    Distribute(mult, x * p, w);
  }

  lemma Distribute(a: int, b: int, c: int)
    ensures a * (b + c) == a * b + a * c
  {
  }

  /** The number in the buffer times `mult` plus `c`, from the last digit on.  The number fits, so
      nothing is left to carry. */
  method MulAdd(buf: array<nat>, base: nat, mult: nat, c: nat, length: nat, ghost v: nat) returns (length2: nat)
    requires base > 1 && mult > 0 && Holds(buf[..], base, v) && length == |ToDigits(base, v)|
    requires Times(mult, v) + c < Pow(base, buf.Length)
    modifies buf
    ensures Holds(buf[..], base, Times(mult, v) + c) && length2 == |ToDigits(base, Times(mult, v) + c)|
  {
    hide ToDigits, Value, Pow, Times, Holds, Going;
    var n := buf.Length;
    ghost var was := buf[..];
    GoingStart(was, base, mult, c, v);
    var carry: nat, i: nat := c, 0;
    while (carry != 0 || i < length) && i < buf.Length
      invariant 0 <= i <= n && Going(was, buf[..], base, mult, c, v, carry, i)
    {
      ghost var now := buf[..];
      carry := carry + Times(mult, buf[n - 1 - i]);
      GoingStep(was, now, base, mult, c, v, carry - Times(mult, buf[n - 1 - i]), i, carry);
      var digit: nat := carry % base;
      buf[n - 1 - i] := digit;
      assert buf[..] == now[n - 1 - i := digit];
      carry := carry / base;
      i := i + 1;
    }
    length2 := i;
    GoingEnd(was, buf[..], base, mult, c, v, carry, i);
    assert carry == 0;
  }

  /** The carry loop after `i` digits: the lower part is done, but for the carry. */
  ghost predicate Going(was: Digits, now: Digits, base: nat, mult: nat, c: nat, v: nat, carry: nat, i: nat)
    requires base > 1
  {
    var n := |was|;
    && |now| == n && i <= n && now[..n - i] == was[..n - i] && Below(base, now[n - i..])
    && Value(base, now[n - i..]) + Times(carry, Pow(base, i)) == Times(mult, Value(base, was[n - i..])) + c
    && (i > |ToDigits(base, v)| ==> Times(mult, v) + c >= Pow(base, i - 1))
  }

  lemma GoingStart(s: Digits, base: nat, mult: nat, c: nat, v: nat)
    requires base > 1
    ensures Going(s, s, base, mult, c, v, c, 0)
  {
    assert s[|s|..] == [];
    assert Pow(base, 0) == 1;
    assert Value(base, []) == 0;
  }

  lemma GoingStep(was: Digits, now: Digits, base: nat, mult: nat, c: nat, v: nat, carry: nat, i: nat, sum: nat)
    requires base > 1 && mult > 0 && Holds(was, base, v) && Going(was, now, base, mult, c, v, carry, i)
    requires i < |was| && |now| == |was| && (carry != 0 || i < |ToDigits(base, v)|)
    requires sum == carry + Times(mult, now[|was| - 1 - i])
    ensures Going(was, now[|was| - 1 - i := sum % base], base, mult, c, v, sum / base, i + 1)
  {
    hide ToDigits, Value, Pow, Times, Holds;
    var n := |was|;
    var p, low := n - 1 - i, now[n - i..];
    var next := now[p := sum % base];
    HeldSuffix(was, base, v, i);
    AtLeast(carry, Pow(base, i), Value(base, low));
    assert now[..n - i][p] == was[..n - i][p];
    DigitStep(base, mult, c, was[n - i..], low, was[p], carry, sum);
    assert next[p..] == [sum % base] + low;
    assert was[p..] == [was[p]] + was[n - i..];
    assert next[..p] == now[..n - i][..p] == was[..p];
  }

  lemma GoingEnd(was: Digits, now: Digits, base: nat, mult: nat, c: nat, v: nat, carry: nat, i: nat)
    requires base > 1 && mult > 0 && Holds(was, base, v) && Going(was, now, base, mult, c, v, carry, i)
    requires i == |was| || (carry == 0 && i >= |ToDigits(base, v)|)
    requires Times(mult, v) + c < Pow(base, |was|)
    ensures carry == 0 && Holds(now, base, Times(mult, v) + c) && i == |ToDigits(base, Times(mult, v) + c)|
  {
    hide ToDigits, Value, Pow, Times, Holds;
    HeldFits(was, base, v);
    HeldSuffix(was, base, v, i);
    var x := Times(mult, v) + c;
    NoCarry(carry, Pow(base, |was|), Value(base, now[|was| - i..]), x);
    TimesZero(Pow(base, i));
    Grows(mult, v);
    Finished(was, now, base, v, x, i);
  }

  lemma TimesZero(p: nat)
    ensures Times(0, p) == 0
  {
  }

  lemma Grows(mult: nat, v: nat)
    requires mult > 0
    ensures Times(mult, v) >= v
  {
    MulMono(1, mult, v);
  }

  lemma AtLeast(carry: nat, p: nat, w: nat)
    ensures carry > 0 ==> w + Times(carry, p) >= p
  {
    if carry > 0 {
      MulMono(1, carry, p);
    }
  }

  lemma NoCarry(carry: nat, p: nat, w: nat, x: nat)
    requires x < p
    ensures w + Times(carry, p) == x ==> carry == 0
  {
    AtLeast(carry, p, w);
  }

  /** Beyond its digits a buffer holds nothing more. */
  lemma HeldSuffix(s: Digits, base: nat, v: nat, i: nat)
    requires base > 1 && Holds(s, base, v) && i <= |s|
    ensures i >= |ToDigits(base, v)| ==> Value(base, s[|s| - i..]) == v
  {
    hide ToDigits, Value;
    var d := ToDigits(base, v);
    if i >= |d| {
      assert s[|s| - i..] == Zeros(i - |d|) + d;
      ValuePadded(base, i - |d|, d);
      DigitsAre(base, v);
    }
  }

  lemma Finished(was: Digits, now: Digits, base: nat, v: nat, x: nat, i: nat)
    requires base > 1 && Holds(was, base, v) && |now| == |was| && |ToDigits(base, v)| <= i <= |was|
    requires now[..|now| - i] == was[..|now| - i] && Below(base, now[|now| - i..])
    requires Value(base, now[|now| - i..]) == x >= v && (i > |ToDigits(base, v)| ==> x >= Pow(base, i - 1))
    ensures Holds(now, base, x) && i == |ToDigits(base, x)|
  {
    hide ToDigits, Value, Pow;
    if i > 0 && i == |ToDigits(base, v)| {
      if v == 0 {
        NoDigits(base);
      } else {
        DigitsLower(base, v);
      }
    }
    Normal(base, now[|now| - i..]);
    assert now == now[..|now| - i] + now[|now| - i..];
    assert now[..|now| - i] == Zeros(|now| - i);
  }

  // ----- Encoding -----

  method EncodeBase58(input: Digits) returns (str: string)
    requires Below(256, input)
    ensures str == Encoded(input)
  {
    var zeroes := CountZeros(input);
    var rest := input[zeroes..];
    var d := EncodeDigits(rest);
    str := seq(zeroes, _ => '1') + Letters(d);
  }

  method CountZeros(input: Digits) returns (zeroes: nat)
    ensures zeroes == LeadingZeros(input)
  {
    zeroes := 0;
    while zeroes < |input| && input[zeroes] == 0
      invariant zeroes <= |input| && LeadingZeros(input) == zeroes + LeadingZeros(input[zeroes..])
    {
      assert input[zeroes..][1..] == input[zeroes + 1..];
      zeroes := zeroes + 1;
    }
  }

  /** The number in some bytes, written in base 58. */
  method EncodeDigits(input: Digits) returns (d: Digits)
    requires Below(256, input)
    ensures d == ToDigits(58, Value(256, input)) && Below(58, d)
  {
    hide ToDigits, Value, Pow, Times, Holds;
    var size := |input| * 138 / 100 + 1;
    var b58 := new nat[size](_ => 0);
    HoldsNothing(b58[..], 58);
    NoDigits(58);
    NoDigits(256);
    EncodeFits(|input|);
    var length, k := 0, 0;
    assert input[..0] == [];
    while k < |input|
      invariant 0 <= k <= |input|
      invariant Holds(b58[..], 58, Value(256, input[..k])) && length == |ToDigits(58, Value(256, input[..k]))|
      modifies b58
    {
      NextDigit(256, input, k);
      length := MulAdd(b58, 58, 256, input[k], length, Value(256, input[..k]));
      k := k + 1;
    }
    assert input[..|input|] == input;
    HeldFits(b58[..], 58, Value(256, input));
    var it := size - length;
    while it < size && b58[it] == 0
      invariant size - length <= it <= size && forall j :: size - length <= j < it ==> b58[j] == 0
    {
      it := it + 1;
    }
    Trimmed(b58[..], 58, Value(256, input));
    d := b58[it..];
  }

  lemma NextDigit(base: nat, s: Digits, k: nat)
    requires base > 0 && Below(base, s) && k < |s|
    ensures Value(base, s[..k + 1]) == Times(base, Value(base, s[..k])) + s[k] < Pow(base, |s|)
  {
    var t := s[..k + 1];
    assert t[..|t| - 1] == s[..k];
    ValueBound(base, t);
    PowExpMono(base, k + 1, |s|);
  }

  lemma HeldFits(s: Digits, base: nat, v: nat)
    requires base > 1 && Holds(s, base, v)
    ensures |ToDigits(base, v)| <= |s|
  {
  }

  lemma Trimmed(s: Digits, base: nat, v: nat)
    requires base > 1 && Holds(s, base, v)
    ensures var n := |ToDigits(base, v)|; n <= |s| && s[|s| - n..] == ToDigits(base, v) && Below(base, s[|s| - n..])
    ensures var n := |ToDigits(base, v)|; n <= |s| && (n > 0 ==> s[|s| - n] != 0)
  {
    hide ToDigits;
    DigitsAre(base, v);
    NoDigits(base);
    var n := |ToDigits(base, v)|;
    assert s[|s| - n..] == ToDigits(base, v);
    assert n > 0 ==> s[|s| - n] == s[|s| - n..][0];
  }

  // ----- Decoding -----

  method SkipSpaces(s: string, from: nat) returns (p: nat)
    requires from <= |s|
    ensures p == SpacesEnd(s, from)
  {
    p := from;
    while p < |s| && IsSpace(s[p])
      invariant from <= p <= |s| && SpacesEnd(s, p) == SpacesEnd(s, from)
    {
      p := p + 1;
    }
  }

  method DecodeBase58(s: string, maxLen: nat) returns (ok: bool, vch: Digits)
    ensures ok <==> WellFormed(s) && |Bytes(s)| <= maxLen
    ensures ok ==> vch == Bytes(s)
  {
    hide ToDigits, Value, Pow, Times, Holds, WordEnd, SpacesEnd, OnesEnd;
    vch := [];
    if '\0' in s {
      return false, vch;
    }
    var begin := SkipSpaces(s, 0);
    var zeroes, p := 0, begin;
    while p < |s| && s[p] == '1'
      invariant begin <= p <= |s| && zeroes == p - begin <= maxLen && OnesEnd(s, p) == OnesEnd(s, begin)
    {
      OnesNext(s, p);
      zeroes := zeroes + 1;
      if zeroes > maxLen {
        return false, vch;
      }
      p := p + 1;
    }
    OnesStop(s, p);
    var good, digits, end := DecodeDigits(s, p, zeroes, maxLen);
    if !good {
      return false, vch;
    }
    var last := SkipSpaces(s, end);
    if last != |s| {
      return false, vch;
    }
    ok, vch := true, seq(zeroes, _ => 0) + digits;
  }

  lemma OnesNext(s: string, p: nat)
    requires p < |s| && s[p] == '1'
    ensures OnesEnd(s, p) == OnesEnd(s, p + 1)
  {
  }

  lemma OnesStop(s: string, p: nat)
    requires p <= |s| && (p < |s| ==> s[p] != '1')
    ensures OnesEnd(s, p) == p
  {
  }

  /** The digits of a word, in base 256; fails on a character outside the alphabet and when too long. */
  method DecodeDigits(s: string, from: nat, zeroes: nat, maxLen: nat) returns (ok: bool, d: Digits, end: nat)
    requires from <= |s| && zeroes <= maxLen
    ensures ok ==> end == WordEnd(s, from) && AllDigits(s[from..end])
    ensures ok ==> d == ToDigits(256, Value(58, DigitsOf(s[from..end]))) && zeroes + |d| <= maxLen
    ensures var w := s[from..WordEnd(s, from)];
      !ok ==> !AllDigits(w) || zeroes + |ToDigits(256, Value(58, DigitsOf(w)))| > maxLen
  {
    hide ToDigits, Value, Pow, Times, Holds, WordEnd;
    var size := (|s| - from) * 733 / 1000 + 1;
    var b256 := new nat[size](_ => 0);
    HoldsNothing(b256[..], 256);
    NoDigits(58);
    NoDigits(256);
    DecodeFits(|s| - from);
    var length := 0;
    end := from;
    assert s[from..from] == [] && DigitsOf([]) == [];
    while end < |s| && !IsSpace(s[end])
      invariant from <= end <= |s| && WordEnd(s, end) == WordEnd(s, from) && AllDigits(s[from..end])
      invariant Holds(b256[..], 256, Value(58, DigitsOf(s[from..end])))
      invariant length == |ToDigits(256, Value(58, DigitsOf(s[from..end])))| && length + zeroes <= maxLen
      modifies b256
    {
      WordNext(s, from, end);
      var carry := DigitOf(s[end]);
      if carry == -1 {
        return false, [], end;
      }
      NextLetter(s, from, end);
      length := MulAdd(b256, 256, 58, carry, length, Value(58, DigitsOf(s[from..end])));
      end := end + 1;
      if length + zeroes > maxLen {
        LongerStill(s, from, end);
        return false, [], end;
      }
    }
    WordStop(s, end);
    Trimmed(b256[..], 256, Value(58, DigitsOf(s[from..end])));
    ok, d := true, b256[size - length..];
  }

  lemma WordNext(s: string, from: nat, p: nat)
    requires from <= p < |s| && !IsSpace(s[p]) && WordEnd(s, p) == WordEnd(s, from)
    ensures WordEnd(s, p + 1) == WordEnd(s, from) > p
    ensures DigitOf(s[p]) == -1 ==> !AllDigits(s[from..WordEnd(s, from)])
  {
    assert s[from..WordEnd(s, from)][p - from] == s[p];
  }

  lemma WordStop(s: string, p: nat)
    requires p <= |s| && (p < |s| ==> IsSpace(s[p]))
    ensures WordEnd(s, p) == p
  {
  }

  lemma NextLetter(s: string, from: nat, p: nat)
    requires from <= p < |s| && AllDigits(s[from..p]) && DigitOf(s[p]) >= 0
    ensures AllDigits(s[from..p + 1])
    ensures Value(58, DigitsOf(s[from..p + 1])) == Times(58, Value(58, DigitsOf(s[from..p]))) + DigitOf(s[p])
    ensures Value(58, DigitsOf(s[from..p + 1])) < Pow(58, |s| - from)
  {
    hide Pow, Times, DigitOf;
    assert s[from..p + 1] == s[from..p] + [s[p]];
    var d, e := DigitsOf(s[from..p]), DigitsOf(s[from..p + 1]);
    assert e == d + [DigitOf(s[p])];
    assert e[..|e| - 1] == d;
    ValueBound(58, e);
    PowExpMono(58, |e|, |s| - from);
    Commutes(Value(58, d));
  }

  lemma Commutes(v: nat)
    ensures Times(58, v) == Times(v, 58)
  {
  }

  /** A word that goes on has no fewer digits. */
  lemma LongerStill(s: string, from: nat, p: nat)
    requires from <= p <= |s| && AllDigits(s[from..p]) && p <= WordEnd(s, from)
    ensures var w := s[from..WordEnd(s, from)];
      AllDigits(w) ==> |ToDigits(256, Value(58, DigitsOf(w)))| >= |ToDigits(256, Value(58, DigitsOf(s[from..p])))|
  {
    hide ToDigits, Value, WordEnd, DigitOf;
    var w := s[from..WordEnd(s, from)];
    if AllDigits(w) {
      var k := p - from;
      assert w[..k] == s[from..p];
      assert DigitsOf(w)[..k] == DigitsOf(w[..k]);
      PrefixSmaller(58, DigitsOf(w), k);
      DigitsGrow(256, Value(58, DigitsOf(w)[..k]), Value(58, DigitsOf(w)));
    }
  }

  lemma {:induction false} PrefixSmaller(base: nat, s: Digits, k: nat)
    requires base > 0 && k <= |s|
    ensures Value(base, s[..k]) <= Value(base, s)
    decreases |s|
  {
    if k < |s| {
      var t := s[..|s| - 1];
      assert t[..k] == s[..k];
      PrefixSmaller(base, t, k);
      MulMono(1, base, Value(base, t));
    } else {
      assert s[..k] == s;
    }
  }

  /** Decoding an encoding gives the bytes back. */
  method EncodeDecode(input: Digits, maxLen: nat) returns (ok: bool, back: Digits)
    requires Below(256, input) && |input| <= maxLen
    ensures ok && back == input
  {
    RoundTrip(input);
    var str := EncodeBase58(input);
    ok, back := DecodeBase58(str, maxLen);
  }
}
