/** base_uint<256>: eight limbs that the operators update in place. */
module Arith {
  import opened Common
  import opened ArithSpec

  class Uint256 {
    const pn: array<Limb>

    ghost predicate Valid() {
      pn.Length == WIDTH
    }

    ghost function Value(): int
      requires Valid()
      reads pn
    {
      V(pn[..], WIDTH)
    }

    lemma Bounded()
      requires Valid()
      ensures 0 <= Value() < M()
    {
      VBound(pn[..], WIDTH);
    }

    /** A 64-bit number. */
    constructor (b: nat)
      requires b < BASE * BASE
      ensures Valid() && fresh(pn) && Value() == b
    {
      pn := new Limb[8](_ => 0);
      new;
      pn[0], pn[1] := b % BASE, b / BASE;
      TwoLimbs(pn[..]);
    }

    constructor Copy(b: Uint256)
      requires b.Valid()
      ensures Valid() && fresh(pn) && pn[..] == b.pn[..] && Value() == b.Value()
    {
      var a := new Limb[8](_ => 0);
      var i := 0;
      while i < WIDTH
        invariant 0 <= i <= WIDTH && fresh(a) && a.Length == WIDTH && a[..i] == b.pn[..i]
        modifies a
      {
        a[i] := b.pn[i];
        i := i + 1;
      }
      assert a[..] == b.pn[..];
      pn := a;
    }

    method Assign(b: Uint256)
      requires Valid() && b.Valid()
      modifies pn
      ensures pn[..] == old(b.pn[..]) && Value() == old(b.Value())
    {
      ghost var bs := b.pn[..];
      var i := 0;
      while i < WIDTH
        invariant 0 <= i <= WIDTH
        invariant forall j :: 0 <= j < WIDTH ==> b.pn[j] == bs[j] && (j < i ==> pn[j] == bs[j])
      {
        pn[i] := b.pn[i];
        i := i + 1;
      }
      assert pn[..] == bs;
    }

    method Complement() returns (ret: Uint256)
      requires Valid()
      ensures ret.Valid() && fresh(ret) && fresh(ret.pn) && ret.Value() == M() - 1 - Value()
    {
      ret := new Uint256(0);
      var i := 0;
      while i < WIDTH
        invariant 0 <= i <= WIDTH && pn[..] == old(pn[..])
        invariant forall j :: 0 <= j < i ==> ret.pn[j] == BASE - 1 - pn[j]
        modifies ret.pn
      {
        ret.pn[i] := BASE - 1 - pn[i];
        i := i + 1;
      }
      VComplement(pn[..], ret.pn[..], WIDTH);
    }

    method Increment()
      requires Valid()
      modifies pn
      ensures Value() == (old(Value()) + 1) % M()
    {
      hide V, M;
      ghost var s := pn[..];
      var i := 0;
      while i < WIDTH
        invariant 0 <= i <= WIDTH
        invariant forall j :: 0 <= j < WIDTH ==> pn[j] == if j < i then 0 else s[j]
        invariant forall j :: 0 <= j < i ==> s[j] == BASE - 1
      {
        pn[i] := (pn[i] + 1) % BASE;
        if pn[i] != 0 {
          break;
        }
        i := i + 1;
      }
      Incremented(s, pn[..], i);
    }

    method Decrement()
      requires Valid()
      modifies pn
      ensures Value() == (old(Value()) - 1) % M()
    {
      hide V, M;
      ghost var s := pn[..];
      var i := 0;
      while i < WIDTH
        invariant 0 <= i <= WIDTH
        invariant forall j :: 0 <= j < WIDTH ==> pn[j] == if j < i then BASE - 1 else s[j]
        invariant forall j :: 0 <= j < i ==> s[j] == 0
      {
        pn[i] := (pn[i] + BASE - 1) % BASE;
        if pn[i] != BASE - 1 {
          break;
        }
        i := i + 1;
      }
      Decremented(s, pn[..], i);
    }

    method Negate() returns (ret: Uint256)
      requires Valid()
      ensures ret.Valid() && fresh(ret) && fresh(ret.pn) && ret.Value() == (-Value()) % M()
    {
      ret := Complement();
      ret.Increment();
      ModShift(-Value(), 1, M());
    }

    method Add(b: Uint256)
      requires Valid() && b.Valid()
      modifies pn
      ensures Value() == (old(Value()) + old(b.Value())) % M()
    {
      ghost var s, t := pn[..], b.pn[..];
      var carry, i := 0, 0;
      assert V(pn[..], 0) == V(s, 0) == V(t, 0) == 0;
      while i < WIDTH
        invariant 0 <= i <= WIDTH && 0 <= carry <= 1
        invariant forall j :: i <= j < WIDTH ==> pn[j] == s[j] && b.pn[j] == t[j]
        invariant V(pn[..], i) + carry * P(i) == V(s, i) + V(t, i)
      {
        var n := carry + pn[i] + b.pn[i];
        ghost var before := pn[..];
        pn[i] := n % BASE;
        AddStep(s, t, before, pn[..], i, carry, n);
        carry := n / BASE;
        i := i + 1;
      }
      ModOf(pn[..], carry, old(Value()) + old(b.Value()));
    }

    method Sub(b: Uint256)
      requires Valid() && b.Valid()
      modifies pn
      ensures Value() == (old(Value()) - old(b.Value())) % M()
    {
      hide V, M;
      ghost var x, y := Value(), b.Value();
      var neg := b.Negate();
      assert Value() == x;
      ModDiff(x, y, M());
      Add(neg);
    }

    method MulWord(b32: Limb)
      requires Valid()
      modifies pn
      ensures Value() == (old(Value()) * b32) % M()
    {
      ghost var s := pn[..];
      var carry, i := 0, 0;
      assert V(pn[..], 0) == V(s, 0) == 0;
      while i < WIDTH
        invariant 0 <= i <= WIDTH && 0 <= carry < BASE
        invariant forall j :: i <= j < WIDTH ==> pn[j] == s[j]
        invariant V(pn[..], i) + carry * P(i) == V(s, i) * b32
      {
        MulFits(b32, pn[i], carry, 0);
        var n := carry + b32 as int * pn[i];
        ghost var before := pn[..];
        pn[i] := n % BASE;
        MulWordStep(s, before, pn[..], i, carry, b32, n);
        carry := n / BASE;
        i := i + 1;
      }
      ModOf(pn[..], carry, old(Value()) * b32);
    }

    method Mul(b: Uint256)
      requires Valid() && b.Valid()
      modifies pn
      ensures Value() == (old(Value()) * old(b.Value())) % M()
    {
      ghost var s, t := pn[..], b.pn[..];
      var a := new Uint256(0);
      var j := 0;
      ghost var q := 0;
      while j < WIDTH
        invariant 0 <= j <= WIDTH && pn[..] == s && b.pn[..] == t
        invariant a.Value() + q * M() == V(s, j) * V(t, WIDTH)
        modifies a.pn
      {
        q := MulRow(a, b, j, s, t, q);
        j := j + 1;
      }
      ModOf(a.pn[..], q, V(s, WIDTH) * V(t, WIDTH));
      Assign(a);
    }

    /** One row of the schoolbook product; `q` counts what has run over the top. */
    method MulRow(a: Uint256, b: Uint256, j: nat, ghost s: seq<Limb>, ghost t: seq<Limb>, ghost q: int)
      returns (ghost q2: int)
      requires Valid() && a.Valid() && b.Valid() && a.pn != pn && a.pn != b.pn && j < WIDTH
      requires s == pn[..] && t == b.pn[..] && a.Value() + q * M() == V(s, j) * V(t, WIDTH)
      modifies a.pn
      ensures a.Value() + q2 * M() == V(s, j + 1) * V(t, WIDTH)
    {
      ghost var u := a.pn[..];
      var carry, i := 0, 0;
      RowStart(u, t, j, pn[j]);
      while i + j < WIDTH
        invariant 0 <= i <= WIDTH - j && 0 <= carry < BASE
        invariant forall k :: i + j <= k < WIDTH ==> a.pn[k] == u[k]
        invariant V(a.pn[..], i + j) + carry * P(i + j) == V(u, i + j) + (pn[j] * V(t, i)) * P(j)
      {
        MulFits(pn[j], b.pn[i], carry, a.pn[i + j]);
        var n := carry + a.pn[i + j] + pn[j] as int * b.pn[i];
        ghost var before := a.pn[..];
        a.pn[i + j] := n % BASE;
        RowStep(u, t, before, a.pn[..], i, j, carry, pn[j], n);
        carry := n / BASE;
        i := i + 1;
      }
      q2 := RowEnd(s, t, u, a.pn[..], j, carry, q);
    }

    method CompareTo(b: Uint256) returns (r: int)
      requires Valid() && b.Valid()
      ensures -1 <= r <= 1
      ensures r == -1 <==> Value() < b.Value()
      ensures r == 1 <==> Value() > b.Value()
    {
      var i := WIDTH;
      while i > 0
        invariant 0 <= i <= WIDTH
        invariant forall j :: i <= j < WIDTH ==> pn[j] == b.pn[j]
      {
        i := i - 1;
        if pn[i] < b.pn[i] {
          Smaller(pn[..], b.pn[..], i);
          return -1;
        }
        if pn[i] > b.pn[i] {
          Smaller(b.pn[..], pn[..], i);
          return 1;
        }
      }
      VSame(pn[..], b.pn[..], WIDTH);
      return 0;
    }

    method EqualTo(b: nat) returns (r: bool)
      requires Valid() && b < BASE * BASE
      ensures r <==> Value() == b
    {
      var i := WIDTH - 1;
      while i >= 2
        invariant 1 <= i < WIDTH
        invariant forall j :: i < j < WIDTH ==> pn[j] == 0
      {
        if pn[i] != 0 {
          LargeLimb(pn[..], i);
          return false;
        }
        i := i - 1;
      }
      TwoLimbs(pn[..]);
      return pn[1] == b / BASE && pn[0] == b % BASE;
    }

    method ShiftLeft(shift: nat)
      requires Valid()
      modifies pn
      ensures Value() == (old(Value()) * Pow2(shift)) % M()
    {
      hide P, V, M, Pow2, Low, High;
      var a := new Uint256.Copy(this);
      ghost var s := a.pn[..];
      Clear();
      var k, bits, i := shift / 32, shift % 32, 0;
      ShiftLeftStart(s, bits, k);
      while i < WIDTH
        invariant 0 <= i <= WIDTH && a.pn[..] == s
        invariant forall t :: 0 <= t < WIDTH ==> pn[t] == ShiftedLeft(s, bits, k, i, t)
        modifies pn
      {
        ShiftLeftStep(s, bits, k, i);
        ghost var before := pn[..];
        if i + k + 1 < WIDTH && bits != 0 {
          pn[i + k + 1] := Or(pn[i + k + 1], a.pn[i] / Pow2(32 - bits));
        }
        if i + k < WIDTH {
          pn[i + k] := Or(pn[i + k], (a.pn[i] as int * Pow2(bits)) % BASE);
        }
        i := i + 1;
      }
      ShiftLeftDone(s, pn[..], bits, k);
    }

    method ShiftRight(shift: nat)
      requires Valid()
      modifies pn
      ensures Value() == old(Value()) / Pow2(shift)
    {
      hide P, V, M, Pow2, Down, Over;
      var a := new Uint256.Copy(this);
      ghost var s := a.pn[..];
      Clear();
      var k, bits, i := shift / 32, shift % 32, 0;
      ShiftRightStart(s, bits, k);
      while i < WIDTH
        invariant 0 <= i <= WIDTH && a.pn[..] == s
        invariant forall t :: 0 <= t < WIDTH ==> pn[t] == ShiftedRight(s, bits, k, i, t)
        modifies pn
      {
        ShiftRightStep(s, bits, k, i);
        ShiftRightCells(s, bits, k, i);
        if i - k - 1 >= 0 && bits != 0 {
          pn[i - k - 1] := Or(pn[i - k - 1], (a.pn[i] as int * Pow2(32 - bits)) % BASE);
        }
        if i - k >= 0 {
          pn[i - k] := Or(pn[i - k], a.pn[i] / Pow2(bits));
        }
        i := i + 1;
      }
      ShiftRightDone(s, pn[..], bits, k);
    }

    method Clear()
      requires Valid()
      modifies pn
      ensures forall j :: 0 <= j < WIDTH ==> pn[j] == 0
    {
      var i := 0;
      while i < WIDTH
        invariant 0 <= i <= WIDTH && forall j :: 0 <= j < i ==> pn[j] == 0
      {
        pn[i] := 0;
        i := i + 1;
      }
    }

    /** One more than the position of the highest bit set. */
    method Bits() returns (r: nat)
      requires Valid()
      ensures r == 0 ==> Value() == 0
      ensures 0 < r ==> r <= 256 && Pow2(r - 1) <= Value() < Pow2(r)
    {
      var pos := WIDTH;
      while pos > 0
        invariant 0 <= pos <= WIDTH && forall j :: pos <= j < WIDTH ==> pn[j] == 0
      {
        pos := pos - 1;
        if pn[pos] != 0 {
          var n := LimbBits(pn[pos]);
          BitsOf(pn[..], pos, n);
          return 32 * pos + n;
        }
      }
      VZero(pn[..], WIDTH);
      return 0;
    }

    /** Shift-and-subtract division; the quotient replaces the value. */
    method Div(b: Uint256) returns (ok: bool)
      requires Valid() && b.Valid()
      modifies pn
      ensures ok <==> old(b.Value()) != 0
      ensures ok ==> Value() == old(Value()) / old(b.Value())
    {
      hide V, M, P, Pow2;
      var div := new Uint256.Copy(b);
      var num := new Uint256.Copy(this);
      ghost var N, D := num.Value(), div.Value();
      num.Bounded();
      div.Bounded();
      SetWord(0);
      var numBits := num.Bits();
      var divBits := div.Bits();
      if divBits == 0 {
        return false;
      }
      PowPositive(divBits - 1);
      if divBits > numBits {
        TooLarge(N, D, numBits, divBits);
        return true;
      }
      var shift: int := numBits - divBits;
      Aligned(N, D, numBits, divBits);
      div.ShiftLeft(shift);
      NothingYet(N, D, shift);
      while shift >= 0
        invariant -1 <= shift < 256
        invariant DivState(N, D, Value(), num.Value(), shift + 1)
        invariant shift >= 0 ==> div.Value() == D * Pow2(shift)
        modifies pn, num.pn, div.pn
      {
        DivStep(num, div, shift, N, D);
        shift := shift - 1;
      }
      DivEnd(N, D, Value(), num.Value());
      ok := true;
    }

    /** One bit of the quotient. */
    method DivStep(num: Uint256, div: Uint256, shift: nat, ghost N: int, ghost D: int)
      requires Valid() && num.Valid() && div.Valid() && pn != num.pn && pn != div.pn && num.pn != div.pn
      requires D > 0 && shift < 256 && DivState(N, D, Value(), num.Value(), shift + 1)
      requires div.Value() == D * Pow2(shift)
      modifies pn, num.pn, div.pn
      ensures DivState(N, D, Value(), num.Value(), shift)
      ensures shift > 0 ==> div.Value() == D * Pow2(shift - 1)
    {
      hide V, M, P, Pow2;
      ghost var q, n := Value(), num.Value();
      num.Bounded();
      var order := num.CompareTo(div);
      if order >= 0 {
        num.Sub(div);
        SetBit(shift);
      }
      Subtracted(N, D, q, n, shift, Value(), num.Value());
      div.ShiftRight(1);
      Halved(D, shift);
    }

    method SetWord(b: nat)
      requires Valid() && b < BASE * BASE
      modifies pn
      ensures Value() == b
    {
      Clear();
      pn[0], pn[1] := b % BASE, b / BASE;
      TwoLimbs(pn[..]);
    }

    /** Sets a bit that lies below all others. */
    method SetBit(shift: nat)
      requires Valid() && shift < 256 && Value() % Pow2(shift + 1) == 0
      modifies pn
      ensures Value() == old(Value()) + Pow2(shift)
    {
      ghost var s := pn[..];
      BitClear(s, shift);
      pn[shift / 32] := Or(pn[shift / 32], Pow2(shift % 32));
      BitSet(s, pn[..], shift);
    }

    function GetLow64(): nat
      requires Valid()
      reads pn
    {
      pn[0] as int + BASE * pn[1]
    }
  }

  lemma TwoLimbs(s: seq<Limb>)
    requires |s| == WIDTH && forall j :: 2 <= j < WIDTH ==> s[j] == 0
    ensures V(s, WIDTH) == s[0] + BASE * s[1]
  {
    hide P;
    PZero();
    PNext(0);
    assert V(s, 1) == s[0];
    assert V(s, 2) == s[0] + BASE * s[1];
    VTail(s, 2);
  }

  /** A value below the modulus that differs by a multiple of it is the remainder. */
  lemma ModOf(s: seq<Limb>, q: int, x: int)
    requires |s| == WIDTH && V(s, WIDTH) + q * M() == x
    ensures V(s, WIDTH) == x % M()
  {
    hide V, P;
    VBound(s, WIDTH);
    DivUnique(x, M(), q, V(s, WIDTH));
  }

  lemma ModDiff(a: int, b: int, m: int)
    requires m > 0
    ensures (a + (-b) % m) % m == (a - b) % m
  {
    DivMod(-b, m);
    ModShift(a + (-b) % m, (-b) / m, m);
  }

  lemma AddStep(s: seq<Limb>, t: seq<Limb>, before: seq<Limb>, now: seq<Limb>, i: nat, carry: int, n: int)
    requires |s| == |t| == |before| == |now| == WIDTH && i < WIDTH && 0 <= carry <= 1
    requires V(before, i) + carry * P(i) == V(s, i) + V(t, i)
    requires n == carry + s[i] + t[i] && now == before[i := n % BASE]
    ensures V(now, i + 1) + (n / BASE) * P(i + 1) == V(s, i + 1) + V(t, i + 1)
  {
    hide P;
    VSame(before, now, i);
    PNext(i);
    CarryStep(V(now, i), carry, n, n % BASE, n / BASE, P(i), V(s, i) + V(t, i), s[i] as int + t[i]);
    MulPlus(s[i], t[i], P(i));
  }

  lemma Incremented(s: seq<Limb>, t: seq<Limb>, i: nat)
    requires |s| == |t| == WIDTH && i <= WIDTH
    requires forall j :: 0 <= j < i ==> s[j] == BASE - 1 && t[j] == 0
    requires i < WIDTH ==> t[i] as int == s[i] as int + 1 && forall j :: i < j < WIDTH ==> t[j] == s[j]
    ensures V(t, WIDTH) == (V(s, WIDTH) + 1) % M()
  {
    hide P;
    VOnes(s, i);
    VZero(t, i);
    if i < WIDTH {
      VTop(s, t, i + 1, WIDTH);
      MulPlus(s[i], 1, P(i));
      ModOf(t, 0, V(s, WIDTH) + 1);
    } else {
      ModOf(t, 1, V(s, WIDTH) + 1);
    }
  }

  lemma Decremented(s: seq<Limb>, t: seq<Limb>, i: nat)
    requires |s| == |t| == WIDTH && i <= WIDTH
    requires forall j :: 0 <= j < i ==> s[j] == 0 && t[j] == BASE - 1
    requires i < WIDTH ==> t[i] as int == s[i] as int - 1 && forall j :: i < j < WIDTH ==> t[j] == s[j]
    ensures V(t, WIDTH) == (V(s, WIDTH) - 1) % M()
  {
    hide P;
    VOnes(t, i);
    VZero(s, i);
    if i < WIDTH {
      VTop(s, t, i + 1, WIDTH);
      MulPlus(s[i], 1, P(i));
      ModOf(t, 0, V(s, WIDTH) - 1);
    } else {
      ModOf(t, -1, V(s, WIDTH) - 1);
    }
  }

  lemma MulFits(x: Limb, y: Limb, carry: int, more: int)
    requires 0 <= carry < BASE && 0 <= more < BASE
    ensures 0 <= carry + more + x as int * y as int < BASE * BASE
    ensures 0 <= (carry + more + x as int * y as int) / BASE < BASE
  {
    MulMono(x, BASE - 1, y);
    MulMono(y, BASE - 1, BASE - 1);
    MulMono(0, x, y);
  }

  lemma MulWordStep(s: seq<Limb>, before: seq<Limb>, now: seq<Limb>, i: nat, carry: int, b32: Limb, n: int)
    requires |s| == |before| == |now| == WIDTH && i < WIDTH
    requires V(before, i) + carry * P(i) == V(s, i) * b32
    requires n == carry + b32 as int * s[i] && now == before[i := n % BASE]
    ensures V(now, i + 1) + (n / BASE) * P(i + 1) == V(s, i + 1) * b32
  {
    hide P;
    VSame(before, now, i);
    PNext(i);
    CarryStep(V(now, i), carry, n, n % BASE, n / BASE, P(i), V(s, i) * b32, b32 as int * s[i]);
    MulPlus(V(s, i), s[i] as int * P(i), b32);
    MulAssoc(s[i], b32, P(i));
  }

  lemma RowStart(u: seq<Limb>, t: seq<Limb>, j: nat, x: Limb)
    requires |u| == |t| == WIDTH && j < WIDTH
    ensures V(u, 0 + j) + 0 * P(0 + j) == V(u, 0 + j) + (x * V(t, 0)) * P(j)
  {
  }

  lemma RowStep(u: seq<Limb>, t: seq<Limb>, before: seq<Limb>, now: seq<Limb>, i: nat, j: nat, carry: int, x: Limb,
        n: int)
    requires |u| == |t| == |before| == |now| == WIDTH && i + j < WIDTH
    requires before[i + j] == u[i + j]
    requires V(before, i + j) + carry * P(i + j) == V(u, i + j) + (x * V(t, i)) * P(j)
    requires n == carry + u[i + j] + x as int * t[i] && now == before[i + j := n % BASE]
    ensures V(now, i + 1 + j) + (n / BASE) * P(i + 1 + j) == V(u, i + 1 + j) + (x * V(t, i + 1)) * P(j)
  {
    hide P;
    var p := P(i + j);
    VSame(before, now, i + j);
    PNext(i + j);
    PAdd(i, j);
    var xt := x as int * t[i];
    CarryStep(V(now, i + j), carry, n, n % BASE, n / BASE, p, V(u, i + j) + (x * V(t, i)) * P(j), u[i + j] + xt);
    MulPlus(u[i + j], xt, p);
    PlusMul(x, V(t, i), t[i] as int * P(i));
    MulPlus(x * V(t, i), x * (t[i] as int * P(i)), P(j));
    MulAssoc(x, t[i], P(i));
    MulAssoc(xt, P(i), P(j));
  }

  /** What a row adds, up to a multiple of the modulus, is its limb times the other factor. */
  lemma RowEnd(s: seq<Limb>, t: seq<Limb>, u: seq<Limb>, now: seq<Limb>, j: nat, carry: int, q: int) returns (q2: int)
    requires |s| == |t| == |u| == |now| == WIDTH && j < WIDTH
    requires V(u, WIDTH) + q * M() == V(s, j) * V(t, WIDTH)
    requires V(now, WIDTH) + carry * P(WIDTH) == V(u, WIDTH) + (s[j] * V(t, WIDTH - j)) * P(j)
    ensures V(now, WIDTH) + q2 * M() == V(s, j + 1) * V(t, WIDTH)
  {
    hide P;
    var x, w := s[j] as int, V(t, WIDTH);
    var low, high := V(t, WIDTH - j), V(t[WIDTH - j..], j);
    VSplit(t, WIDTH - j, WIDTH);
    PAdd(WIDTH - j, j);
    q2 := q + carry + x * high;
    calc {
      V(s, j + 1) * w;
      { MulPlus(V(s, j), x * P(j), w); }
      V(s, j) * w + (x * P(j)) * w;
      { MulAssoc(x, P(j), w); PlusMul(x, low, P(WIDTH - j) * high); }
      V(s, j) * w + (x * low + x * (P(WIDTH - j) * high)) * P(j);
      { MulPlus(x * low, x * (P(WIDTH - j) * high), P(j)); }
      V(s, j) * w + (x * low) * P(j) + (x * (P(WIDTH - j) * high)) * P(j);
      { OverTop(x, P(WIDTH - j), high, P(j)); }
      V(s, j) * w + (x * low) * P(j) + (x * high) * M();
      { MulPlus(q + carry, x * high, M()); MulPlus(q, carry, M()); }
      V(now, WIDTH) + q2 * M();
    }
  }

  lemma OverTop(x: int, p: int, h: int, r: int)
    ensures (x * (p * h)) * r == (x * h) * (p * r)
  {
    MulAssoc(x, p, h);
    MulAssoc(x * h, p, r);
  }

  lemma Smaller(s: seq<Limb>, t: seq<Limb>, i: nat)
    requires |s| == |t| == WIDTH && i < WIDTH && s[i] < t[i]
    requires forall j :: i < j < WIDTH ==> s[j] == t[j]
    ensures V(s, WIDTH) < V(t, WIDTH)
  {
    hide P;
    VTop(s, t, i + 1, WIDTH);
    VBound(s, i);
    VBound(t, i);
    MulMono(s[i] as int + 1, t[i], P(i));
    MulPlus(s[i], 1, P(i));
  }

  lemma {:induction false} AtLeast(s: seq<Limb>, i: nat, m: nat)
    requires i < m <= |s| && s[i] != 0
    ensures V(s, m) >= P(i)
    decreases m
  {
    hide P;
    if i == m - 1 {
      VBound(s, i);
      MulMono(1, s[i], P(i));
    } else {
      AtLeast(s, i, m - 1);
      MulMono(0, s[m - 1], P(m - 1));
    }
  }

  lemma LargeLimb(s: seq<Limb>, i: nat)
    requires |s| == WIDTH && 2 <= i < WIDTH && s[i] != 0
    ensures V(s, WIDTH) >= BASE * BASE
  {
    hide P, V;
    AtLeast(s, i, WIDTH);
    PZero();
    PNext(0);
    PNext(1);
    PAdd(2, i - 2);
    MulMono(1, P(i - 2), P(2));
  }

  /** Limb `t` after `i` limbs have been shifted. */
  ghost function ShiftedLeft(a: seq<Limb>, s: nat, k: nat, i: int, t: int): int {
    (if t - k < i then Low(a, s, t - k) else 0) + (if t - k - 1 < i then High(a, s, t - k - 1) else 0)
  }

  lemma ShiftLeftStart(a: seq<Limb>, s: nat, k: nat)
    ensures forall t: int :: ShiftedLeft(a, s, k, 0, t) == 0
  {
  }

  lemma ShiftLeftStep(a: seq<Limb>, s: nat, k: nat, i: nat)
    requires |a| == WIDTH && s < 32 && i < WIDTH
    ensures a[i] / Pow2(32 - s) == High(a, s, i) && (a[i] as int * Pow2(s)) % BASE == Low(a, s, i)
    ensures s == 0 ==> High(a, s, i) == 0
    ensures ShiftedLeft(a, s, k, i, i + k + 1) == 0
    ensures Or(0, High(a, s, i)) == High(a, s, i) == ShiftedLeft(a, s, k, i + 1, i + k + 1) < BASE
    ensures ShiftedLeft(a, s, k, i, i + k) == High(a, s, i - 1)
    ensures Or(High(a, s, i - 1), Low(a, s, i)) == ShiftedLeft(a, s, k, i + 1, i + k)
    ensures 0 <= ShiftedLeft(a, s, k, i + 1, i + k) < BASE
    ensures forall t: int :: t != i + k && t != i + k + 1 ==>
      ShiftedLeft(a, s, k, i, t) == ShiftedLeft(a, s, k, i + 1, t)
  {
    hide Or, Pow2, Low, High;
    ShiftLeftLimb(a, s, i);
    OutOfRange(a, s, -1);
  }

  lemma ShiftLeftLimb(a: seq<Limb>, s: nat, i: nat)
    requires s < 32 && i < |a|
    ensures a[i] / Pow2(32 - s) == High(a, s, i) && (a[i] as int * Pow2(s)) % BASE == Low(a, s, i)
    ensures s == 0 ==> High(a, s, i) == 0
    ensures 0 <= High(a, s, i) < BASE && 0 <= High(a, s, i - 1) && Or(0, High(a, s, i)) == High(a, s, i)
    ensures Or(High(a, s, i - 1), Low(a, s, i)) == Low(a, s, i) + High(a, s, i - 1) < BASE
  {
    hide Or;
    ShiftParts(a, s, i);
    if i > 0 {
      ShiftParts(a, s, i - 1);
    }
    OrZero(High(a, s, i));
    OrAdds(Low(a, s, i), High(a, s, i - 1), s);
    OrSym(Low(a, s, i), High(a, s, i - 1));
  }

  lemma ShiftLeftDone(a: seq<Limb>, now: seq<Limb>, s: nat, k: nat)
    requires |a| == |now| == WIDTH && s < 32
    requires forall t :: 0 <= t < WIDTH ==> now[t] == ShiftedLeft(a, s, k, WIDTH, t)
    ensures V(now, WIDTH) == (V(a, WIDTH) * Pow2(32 * k + s)) % M()
  {
    hide V, P, M, Pow2;
    var q := ShiftLeftValue(a, now, k, s);
    ModOf(now, q, V(a, WIDTH) * Pow2(32 * k + s));
  }

  ghost function ShiftedRight(a: seq<Limb>, s: nat, k: nat, i: int, t: int): int {
    (if t + k < i then Down(a, s, t + k) else 0) + (if t + k + 1 < i then Over(a, s, t + k + 1) else 0)
  }

  lemma ShiftRightStart(a: seq<Limb>, s: nat, k: nat)
    ensures forall t: int :: 0 <= t ==> ShiftedRight(a, s, k, 0, t) == 0
  {
  }

  lemma ShiftRightStep(a: seq<Limb>, s: nat, k: nat, i: nat)
    requires |a| == WIDTH && s < 32 && i < WIDTH
    ensures s != 0 ==> (a[i] as int * Pow2(32 - s)) % BASE == Over(a, s, i)
    ensures s == 0 ==> Over(a, s, i) == 0
    ensures a[i] / Pow2(s) == Down(a, s, i) && 0 <= Down(a, s, i) < BASE
    ensures Down(a, s, i - 1) >= 0 && Over(a, s, i) >= 0 && Down(a, s, i - 1) + Over(a, s, i) < BASE
    ensures Or(Down(a, s, i - 1), Over(a, s, i)) == Down(a, s, i - 1) + Over(a, s, i)
    ensures Or(0, Down(a, s, i)) == Down(a, s, i)
  {
    hide Down, Over, Or, Rest, Pow2;
    ShiftRightParts(a, s, i);
    ShiftRightParts(a, s, i - 1);
    OrZero(Down(a, s, i));
    OrAdds(Over(a, s, i), Down(a, s, i - 1), 32 - s);
    OrSym(Over(a, s, i), Down(a, s, i - 1));
  }

  lemma ShiftRightCells(a: seq<Limb>, s: nat, k: nat, i: nat)
    ensures i - k - 1 >= 0 ==> ShiftedRight(a, s, k, i, i - k - 1) == Down(a, s, i - 1)
    ensures ShiftedRight(a, s, k, i + 1, i - k - 1) == Down(a, s, i - 1) + Over(a, s, i)
    ensures ShiftedRight(a, s, k, i, i - k) == 0 && ShiftedRight(a, s, k, i + 1, i - k) == Down(a, s, i)
    ensures forall t: int :: t != i - k && t != i - k - 1 ==>
      ShiftedRight(a, s, k, i, t) == ShiftedRight(a, s, k, i + 1, t)
  {
    hide Down, Over;
  }

  lemma ShiftRightDone(a: seq<Limb>, now: seq<Limb>, s: nat, k: nat)
    requires |a| == |now| == WIDTH && s < 32
    requires forall t :: 0 <= t < WIDTH ==> now[t] == ShiftedRight(a, s, k, WIDTH, t)
    ensures V(now, WIDTH) == V(a, WIDTH) / Pow2(32 * k + s)
  {
    hide V, P, M, Pow2;
    ShiftRightValue(a, now, k, s);
  }

  method LimbBits(x: Limb) returns (n: nat)
    requires x != 0
    ensures 1 <= n <= 32 && Pow2(n - 1) <= x < Pow2(n)
  {
    Pow2Limb();
    n := 31;
    while n > 0
      invariant 0 <= n <= 31 && x < Pow2(n + 1)
    {
      if (x / Pow2(n)) % 2 == 1 {
        BitTest(x, Pow2(n));
        return n + 1;
      }
      BitTest(x, Pow2(n));
      n := n - 1;
    }
    return 1;
  }

  lemma BitTest(x: int, p: int)
    requires 0 <= x < 2 * p && p > 0
    ensures (x / p) % 2 == 1 <==> x >= p
  {
    if x >= p {
      DivUnique(x, p, 1, x - p);
    } else {
      DivUnique(x, p, 0, x);
    }
  }

  lemma BitsOf(s: seq<Limb>, pos: nat, n: nat)
    requires |s| == WIDTH && pos < WIDTH && forall j :: pos < j < WIDTH ==> s[j] == 0
    requires 1 <= n <= 32 && Pow2(n - 1) <= s[pos] < Pow2(n)
    ensures Pow2(32 * pos + n - 1) <= V(s, WIDTH) < Pow2(32 * pos + n)
  {
    hide V, P, Pow2;
    TopLimbIs(s, pos);
    var x, p := s[pos] as int, P(pos);
    PIs(pos);
    TopLimb(V(s, pos), x, p, Pow2(n - 1), Pow2(n));
    Pow2Add(32 * pos, n - 1);
    Pow2Add(32 * pos, n);
  }

  lemma TopLimbIs(s: seq<Limb>, pos: nat)
    requires |s| == WIDTH && pos < WIDTH && forall j :: pos < j < WIDTH ==> s[j] == 0
    ensures V(s, WIDTH) == V(s, pos) + s[pos] as int * P(pos) && 0 <= V(s, pos) < P(pos)
  {
    hide V, P;
    VTail(s, pos + 1);
    VNext(s, pos);
    VBound(s, pos);
  }

  lemma VNext(s: seq<Limb>, i: nat)
    requires i < |s|
    ensures V(s, i + 1) == V(s, i) + s[i] * P(i)
  {
  }

  lemma TopLimb(low: int, x: int, p: int, from: int, to: int)
    requires 0 <= low < p && from <= x < to
    ensures p * from <= low + x * p < p * to
  {
    MulMono(from, x, p);
    MulMono(x + 1, to, p);
    MulPlus(x, 1, p);
  }

  // ----- Division -----

  /** Between two steps: `q` is a quotient so far, a multiple of 2^k, and less than 2^k times the
      divisor is left. */
  ghost predicate DivState(N: int, D: int, q: int, num: int, k: nat) {
    N == q * D + num && 0 <= num < D * Pow2(k) && q % Pow2(k) == 0
  }

  lemma PowPositive(n: nat)
    ensures Pow2(n) >= 1
  {
  }

  lemma TooLarge(N: int, D: int, numBits: nat, divBits: nat)
    requires 0 <= N && (if numBits == 0 then N == 0 else N < Pow2(numBits))
    requires numBits < divBits && Pow2(divBits - 1) <= D
    ensures 0 == N / D
  {
    if numBits < divBits - 1 {
      Pow2Grows(numBits, divBits - 1);
    }
    DivUnique(N, D, 0, N);
  }

  /** The divisor shifted up to the number still fits. */
  lemma Aligned(N: int, D: int, numBits: nat, divBits: nat)
    requires 0 < divBits <= numBits <= 256 && 0 <= N < Pow2(numBits) && Pow2(divBits - 1) <= D < Pow2(divBits)
    ensures (D * Pow2(numBits - divBits)) % M() == D * Pow2(numBits - divBits)
    ensures N < D * Pow2(numBits - divBits + 1)
  {
    hide Pow2, P;
    var k := numBits - divBits;
    Pow2Add(divBits, k);
    Pow2Add(divBits - 1, k + 1);
    PowPositive(k);
    PowPositive(k + 1);
    PIs(WIDTH);
    if numBits < 256 {
      Pow2Grows(numBits, 256);
    }
    MulMono(D + 1, Pow2(divBits), Pow2(k));
    MulPlus(D, 1, Pow2(k));
    MulMono(Pow2(divBits - 1), D, Pow2(k + 1));
    MulMono(0, D, Pow2(k));
    DivUnique(D * Pow2(k), M(), 0, D * Pow2(k));
  }

  lemma NothingYet(N: int, D: int, shift: nat)
    requires 0 <= N < D * Pow2(shift + 1)
    ensures DivState(N, D, 0, N, shift + 1)
  {
    DivUnique(0, Pow2(shift + 1), 0, 0);
  }

  /** One step: the bit is set if and only if the shifted divisor goes into what is left. */
  lemma Subtracted(N: int, D: int, q: int, n: int, shift: nat, q2: int, n2: int)
    requires D > 0 && DivState(N, D, q, n, shift + 1)
    requires if n >= D * Pow2(shift) then q2 == q + Pow2(shift) && n2 == (n - D * Pow2(shift)) % M() && n < M()
             else q2 == q && n2 == n
    ensures DivState(N, D, q2, n2, shift)
  {
    assert Pow2(shift + 1) == 2 * Pow2(shift);
    hide Pow2, M;
    if n >= D * Pow2(shift) {
      var d := n - D * Pow2(shift);
      PositiveProduct(D, Pow2(shift));
      DivUnique(d, M(), 0, d);
    }
    HalfTaken(N, D, q, n, Pow2(shift));
  }

  lemma PositiveProduct(a: int, b: int)
    requires a > 0 && b > 0
    ensures a * b > 0
  {
  }

  lemma HalfTaken(N: int, D: int, q: int, n: int, p: int)
    requires D > 0 && p > 0 && N == q * D + n && 0 <= n < D * (2 * p) && q % (2 * p) == 0
    ensures q % p == 0 && (q + p) % p == 0
    ensures N == (q + p) * D + (n - D * p) && n - D * p < D * p
  {
    HalfStep(q, p);
    MulPlus(q, p, D);
    MulAssoc(D, 2, p);
  }

  /** A multiple of 2 p is one of p, and so is p more. */
  lemma HalfStep(q: int, p: int)
    requires p > 0 && q % (2 * p) == 0
    ensures q % p == 0 && (q + p) % p == 0
  {
    DivMod(q, 2 * p);
    var h := q / (2 * p);
    MulAssoc(h, 2, p);
    MulPlus(2 * h, 1, p);
    DivUnique(q, p, 2 * h, 0);
    DivUnique(q + p, p, 2 * h + 1, 0);
  }

  lemma Halved(D: int, shift: nat)
    ensures shift > 0 ==> (D * Pow2(shift)) / Pow2(1) == D * Pow2(shift - 1)
  {
    if shift > 0 {
      assert Pow2(1) == 2;
      MulAssoc(D, 2, Pow2(shift - 1));
    }
  }

  lemma DivEnd(N: int, D: int, q: int, num: int)
    requires D > 0 && DivState(N, D, q, num, 0)
    ensures q == N / D
  {
    DivUnique(N, D, q, num);
  }

  /** Where the value is a multiple of a higher power, the limb has room for the bit. */
  lemma BitClear(s: seq<Limb>, shift: nat)
    requires |s| == WIDTH && shift < 256 && V(s, WIDTH) % Pow2(shift + 1) == 0
    ensures s[shift / 32] % Pow2(shift % 32 + 1) == 0
    ensures Or(s[shift / 32], Pow2(shift % 32)) == s[shift / 32] + Pow2(shift % 32) < BASE
  {
    hide P, V, Or;
    var k, b := shift / 32, shift % 32;
    LimbMultiple(s, k, b + 1);
    RoomForBit(s[k], b);
  }

  lemma RoomForBit(x: Limb, b: nat)
    requires b < 32 && x % Pow2(b + 1) == 0
    ensures Or(x, Pow2(b)) == x + Pow2(b) < BASE
  {
    var p, t := Pow2(b), Pow2(31 - b);
    assert Pow2(b + 1) == 2 * p;
    hide Pow2, Or;
    Pow2Add(b + 1, 31 - b);
    Pow2Limb();
    OrAdds(x, p, b + 1);
    RoomAbove(x, 2 * p, t);
  }

  lemma RoomAbove(x: int, m: int, t: int)
    requires m > 0 && x % m == 0 && x < m * t
    ensures x + m <= m * t
  {
    DivMod(x, m);
    BelowMultiple(x / m, t, m);
  }

  lemma BelowMultiple(h: int, t: int, m: int)
    requires m > 0 && h * m < t * m
    ensures h * m + m <= t * m
  {
    if h >= t {
      MulMono(t, h, m);
    } else {
      MulMono(h + 1, t, m);
      MulPlus(h, 1, m);
    }
  }

  /** A value that is a multiple of 2^(32k+n) has a limb `k` that is a multiple of 2^n. */
  lemma LimbMultiple(s: seq<Limb>, k: nat, n: nat)
    requires |s| == WIDTH && k < WIDTH && n <= 32 && V(s, WIDTH) % Pow2(32 * k + n) == 0
    ensures s[k] % Pow2(n) == 0
  {
    hide P, V, Pow2;
    var p, m, t, v := P(k), Pow2(n), Pow2(32 - n), V(s, WIDTH);
    Pow2Add(32 * k, n);
    Pow2Add(n, 32 - n);
    Pow2Limb();
    PIs(k);
    var low, rest := V(s, k), V(s[k..], WIDTH - k);
    VSplit(s, k, WIDTH);
    VBound(s, k);
    DivMod(v, p * m);
    var q := v / (p * m);
    UpperPart(v, p, m, q, low, rest);
    VSplit(s[k..], 1, WIDTH - k);
    var up := V(s[k..][1..], WIDTH - k - 1);
    FirstLimb(s[k..]);
    LimbPart(s[k], m, t, up, q);
  }

  lemma UpperPart(v: int, p: int, m: int, q: int, low: int, rest: int)
    requires v == q * (p * m) == low + p * rest && 0 <= low < p
    ensures rest == q * m
  {
    MulAssoc(q, p, m);
    MulAssoc(p, q, m);
    MulPlus(q * m, rest, p);
    SmallMultiple(q * m - rest, p);
  }

  lemma LimbPart(x: int, m: int, t: int, up: int, q: int)
    requires m > 0 && m * t == BASE && x + BASE * up == q * m
    ensures x % m == 0
  {
    MulAssoc(m, t, up);
    MulPlus(q, t * up, m);
    DivUnique(x, m, q - t * up, 0);
  }

  lemma FirstLimb(s: seq<Limb>)
    requires |s| > 0
    ensures V(s, 1) == s[0] && P(1) == BASE
  {
    hide P;
    PZero();
    PNext(0);
    assert V(s, 0) == 0;
  }

  lemma BitSet(s: seq<Limb>, t: seq<Limb>, shift: nat)
    requires |s| == |t| == WIDTH && shift < 256
    requires var x := s[shift / 32] as int + Pow2(shift % 32); x < BASE && t == s[shift / 32 := x]
    ensures V(t, WIDTH) == V(s, WIDTH) + Pow2(shift)
  {
    hide P, Pow2;
    var k := shift / 32;
    VSame(s, t, k);
    VTop(s, t, k + 1, WIDTH);
    PIs(k);
    Pow2Add(32 * k, shift % 32);
    MulPlus(s[k], Pow2(shift % 32), P(k));
  }
}
