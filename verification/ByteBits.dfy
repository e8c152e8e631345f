/** Single bits of a byte. */
module ByteBits {

  function Mask(k: nat): bv8
    requires k < 8
  {
    1 << k
  }

  predicate BitAt(b: bv8, k: nat)
    requires k < 8
  {
    b & Mask(k) != 0
  }

  lemma SetBit(b: bv8, k: nat, j: nat)
    requires k < 8 && j < 8
    ensures BitAt(b | Mask(k), j) == (j == k || BitAt(b, j))
  {
    Masks(k);
    Masks(j);
  }

  lemma Masks(k: nat)
    requires k < 8
    ensures Mask(k) == [1, 2, 4, 8, 16, 32, 64, 128][k]
  {
  }

  lemma ClearBit(b: bv8, k: nat, j: nat)
    requires k < 8 && j < 8
    ensures BitAt(b & !Mask(k), j) == (j != k && BitAt(b, j))
  {
    Masks(k);
    Masks(j);
  }

  lemma AllSet(j: nat)
    requires j < 8
    ensures BitAt(0xff, j)
  {
    Masks(j);
  }
}
