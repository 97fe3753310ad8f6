/** Bytes as the integers 0 to 255, with exclusive or. */
module Bytes {

  type Byte = b: int | 0 <= b < 256

  function Power2(k: nat): nat {
    if k == 0 then 1 else 2 * Power2(k - 1)
  }

  /** Exclusive or of the low `k` bits. */
  function XorBits(a: nat, b: nat, k: nat): (r: nat)
    ensures r < Power2(k)
    decreases k
  {
    if k == 0 then 0 else 2 * XorBits(a / 2, b / 2, k - 1) + if a % 2 == b % 2 then 0 else 1
  }

  function Xor(a: Byte, b: Byte): Byte {
    assert Power2(8) == 256;
    XorBits(a, b, 8)
  }

  lemma {:induction false} XorBitsTwice(a: nat, b: nat, k: nat)
    requires a < Power2(k)
    ensures XorBits(XorBits(a, b, k), b, k) == a
    decreases k
  {
    if k > 0 {
      XorBitsTwice(a / 2, b / 2, k - 1);
      var x := XorBits(a / 2, b / 2, k - 1);
      var bit := if a % 2 == b % 2 then 0 else 1;
      assert (2 * x + bit) / 2 == x && (2 * x + bit) % 2 == bit;
    }
  }

  lemma XorTwice(a: Byte, b: Byte)
    ensures Xor(Xor(a, b), b) == a
  {
    assert Power2(8) == 256;
    XorBitsTwice(a, b, 8);
  }

  /** The `i`-th binary digit. */
  function Bit(a: nat, i: nat): nat {
    if i == 0 then a % 2 else Bit(a / 2, i - 1)
  }

  lemma {:induction false} XorBitsBit(a: nat, b: nat, k: nat, i: nat)
    requires i < k
    ensures Bit(XorBits(a, b, k), i) == if Bit(a, i) == Bit(b, i) then 0 else 1
    decreases k
  {
    var x := XorBits(a / 2, b / 2, k - 1);
    var bit := if a % 2 == b % 2 then 0 else 1;
    assert (2 * x + bit) / 2 == x && (2 * x + bit) % 2 == bit;
    if i > 0 {
      XorBitsBit(a / 2, b / 2, k - 1, i - 1);
    }
  }

  /** Each binary digit of an exclusive or is 1 if and only if those of the two bytes differ. */
  lemma XorBit(a: Byte, b: Byte, i: nat)
    requires i < 8
    ensures Bit(Xor(a, b), i) == if Bit(a, i) != Bit(b, i) then 1 else 0
  {
    XorBitsBit(a, b, 8, i);
  }

  /** Two bytes are equal if their binary digits are; so the digits say all that `Xor` is. */
  lemma SameBits(a: Byte, b: Byte)
    requires forall i :: 0 <= i < 8 ==> Bit(a, i) == Bit(b, i)
    ensures a == b
  {
    assert Power2(8) == 256;
    SameDigits(a, b, 8);
  }

  lemma {:induction false} SameDigits(a: nat, b: nat, k: nat)
    requires a < Power2(k) && b < Power2(k) && forall i :: 0 <= i < k ==> Bit(a, i) == Bit(b, i)
    ensures a == b
  {
    if k > 0 {
      assert Bit(a, 0) == Bit(b, 0);
      forall i | 0 <= i < k - 1 ensures Bit(a / 2, i) == Bit(b / 2, i) {
        assert Bit(a, i + 1) == Bit(b, i + 1);
      }
      SameDigits(a / 2, b / 2, k - 1);
    }
  }

  lemma XorZero(a: Byte)
    ensures Xor(a, 0) == a && Xor(a, a) == 0
  {
    forall i | 0 <= i < 8 ensures Bit(Xor(a, 0), i) == Bit(a, i) && Bit(Xor(a, a), i) == Bit(0, i) {
      XorBit(a, 0, i);
      XorBit(a, a, i);
      BitZero(i);
      BitBinary(a, i);
    }
    SameBits(Xor(a, 0), a);
    SameBits(Xor(a, a), 0);
  }

  lemma {:induction false} BitZero(i: nat)
    ensures Bit(0, i) == 0
  {
    if i > 0 {
      BitZero(i - 1);
    }
  }

  lemma {:induction false} BitBinary(a: nat, i: nat)
    ensures Bit(a, i) == 0 || Bit(a, i) == 1
  {
    if i > 0 {
      BitBinary(a / 2, i - 1);
    }
  }
}
