/** Bech32 and Bech32m as loops over local accumulators. */
module Bech32 {
  import opened Common
  import opened Bech32Spec

  method ComputePolyMod(v: seq<bv5>) returns (c: bv32)
    ensures c == PolyMod(v)
  {
    hide Xor, Part, Bit, Up, Wide, Out, Step;
    c := 1;
    var i := 0;
    while i < |v|
      invariant 0 <= i <= |v| && c == Fold(1, v[..i])
    {
      FoldNext(1, v, i);
      ghost var before := c;
      var c0 := Out(c);
      c := Xor(Up(c), Wide(v[i]));
      StepInOrder(before, v[i]);
      c := Xor(c, Part(c0, 1, 0x3b6a57b2));
      c := Xor(c, Part(c0, 2, 0x26508e6d));
      c := Xor(c, Part(c0, 4, 0x1ea119fa));
      c := Xor(c, Part(c0, 8, 0x3d4233dd));
      c := Xor(c, Part(c0, 16, 0x2a1462b3));
      i := i + 1;
    }
    assert v[..|v|] == v;
  }

  /** Adding the five constants one after the other is adding their sum. */
  lemma StepInOrder(c: bv32, v: bv5)
    ensures var c0, s := Out(c), Xor(Up(c), Wide(v));
      Xor(Xor(Xor(Xor(Xor(s, Part(c0, 1, 0x3b6a57b2)), Part(c0, 2, 0x26508e6d)), Part(c0, 4, 0x1ea119fa)),
              Part(c0, 8, 0x3d4233dd)), Part(c0, 16, 0x2a1462b3)) == Step(c, v)
  {
    hide Xor, Part, Up, Wide, Out;
    var c0, s := Out(c), Xor(Up(c), Wide(v));
    var p1, p2, p4 := Part(c0, 1, 0x3b6a57b2), Part(c0, 2, 0x26508e6d), Part(c0, 4, 0x1ea119fa);
    var p8, p16 := Part(c0, 8, 0x3d4233dd), Part(c0, 16, 0x2a1462b3);
    Assoc(s, p1, p2);
    Assoc(Xor(s, Xor(p1, p2)), p4, p8);
    Assoc(s, Xor(p1, p2), Xor(p4, p8));
    Assoc(s, Xor(Xor(p1, p2), Xor(p4, p8)), p16);
  }

  method EncodeString(encoding: Encoding, hrp: string, values: seq<bv5>) returns (ret: string)
    requires NoUpper(hrp)
    ensures ret == Encoded(encoding, hrp, values)
  {
    hide Letter, CreateChecksum;
    var checksum := MakeChecksum(encoding, hrp, values);
    var combined := values + checksum;
    ret := hrp + "1";
    var i := 0;
    while i < |combined|
      invariant 0 <= i <= |combined| && ret == hrp + "1" + Symbols(combined[..i])
    {
      assert Symbols(combined[..i + 1]) == Symbols(combined[..i]) + [Letter(combined[i])];
      ret := ret + [Letter(combined[i])];
      i := i + 1;
    }
    assert combined[..|combined|] == combined;
  }

  method MakeChecksum(encoding: Encoding, hrp: string, values: seq<bv5>) returns (ret: seq<bv5>)
    ensures ret == CreateChecksum(encoding, hrp, values)
  {
    hide Xor, Fold, Digit, ExpandHRP;
    var enc := ExpandHRP(hrp) + values + Zeros(6);
    var mod := ComputePolyMod(enc);
    mod := Xor(mod, EncodingConstant(encoding));
    ret := [];
    var i := 0;
    while i < 6
      invariant 0 <= i <= 6 && |ret| == i && forall j :: 0 <= j < i ==> ret[j] == Digit(mod, j)
    {
      ret := ret + [Digit(mod, i)];
      i := i + 1;
    }
    assert ret == SixDigits(mod);
  }

  method DecodeString(str: string, extLength: bool) returns (r: Decoded)
    ensures r == Decode(str, extLength)
  {
    hide VerifyChecksum, Rev;
    var plain, mixed := CheckCase(str);
    if !plain || mixed {
      return Nothing;
    }
    var pos := FindLastOne(str);
    if (|str| > 90 && !extLength) || pos == -1 || pos == 0 || pos + 7 > |str| {
      return Nothing;
    }
    var tail := str[pos + 1..];
    var values, i := [], 0;
    while i < |tail|
      invariant 0 <= i <= |tail| && AllSymbols(tail[..i]) && values == Values(tail[..i])
    {
      assert tail[..i + 1] == tail[..i] + [tail[i]];
      var rev := Rev(tail[i]);
      if rev.None? {
        return Nothing;
      }
      values := values + [rev.value];
      i := i + 1;
    }
    assert tail[..|tail|] == tail;
    var hrp := LowerAll(str[..pos]);
    var check := Verify(hrp, values);
    match check
    case Invalid => return Nothing;
    case Valid(e) => return Something(e, hrp, values[..|values| - 6]);
  }

  method CheckCase(str: string) returns (plain: bool, mixed: bool)
    ensures plain == AllPrintable(str)
    ensures plain ==> mixed == !(NoUpper(str) || NoLower(str))
  {
    var lower, upper, i := false, false, 0;
    while i < |str|
      invariant 0 <= i <= |str| && AllPrintable(str[..i]) && upper == !NoUpper(str[..i]) && lower == !NoLower(str[..i])
    {
      assert str[..i + 1] == str[..i] + [str[i]];
      if IsLower(str[i]) {
        lower := true;
      } else if IsUpper(str[i]) {
        upper := true;
      } else if !Printable(str[i]) {
        return false, false;
      }
      i := i + 1;
    }
    assert str[..|str|] == str;
    return true, lower && upper;
  }

  method FindLastOne(str: string) returns (pos: int)
    ensures pos == LastOne(str)
  {
    assert str[..|str|] == str;
    pos := |str| - 1;
    while pos >= 0 && str[pos] != '1'
      invariant -1 <= pos < |str| && LastOne(str[..pos + 1]) == LastOne(str)
    {
      assert str[..pos + 1][..pos] == str[..pos];
      pos := pos - 1;
    }
  }

  method Verify(hrp: string, values: seq<bv5>) returns (r: Check)
    ensures r == VerifyChecksum(hrp, values)
  {
    hide Fold, ExpandHRP;
    var check := ComputePolyMod(ExpandHRP(hrp) + values);
    if check == EncodingConstant(BECH32) {
      return Valid(BECH32);
    }
    if check == EncodingConstant(BECH32M) {
      return Valid(BECH32M);
    }
    return Invalid;
  }
}
