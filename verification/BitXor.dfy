/** Bitwise exclusive or on numbers, with the laws the ciphers and checksums rest on. */
module BitXor {
  import opened Bytes

  function XorNat(a: nat, b: nat): nat
    decreases a + b
  {
    if a == 0 && b == 0 then 0
    else (if a % 2 == b % 2 then 0 else 1) + 2 * XorNat(a / 2, b / 2)
  }

  lemma XorDigits(a: nat, b: nat)
    ensures XorNat(a, b) % 2 == (if a % 2 == b % 2 then 0 else 1) && XorNat(a, b) / 2 == XorNat(a / 2, b / 2)
  {
  }

  lemma {:induction false} XorBound(a: nat, b: nat, n: nat)
    requires a < Pow2(n) && b < Pow2(n)
    ensures XorNat(a, b) < Pow2(n)
    decreases n
  {
    if n > 0 { XorBound(a / 2, b / 2, n - 1); }
  }

  function Xor(a: byte, b: byte): byte {
    assert Pow2(8) == 0x100 by { assert Pow2(4) == 0x10; }
    XorBound(a, b, 8);
    XorNat(a, b)
  }

  lemma {:induction false} XorNatUndo(a: nat, b: nat)
    ensures XorNat(XorNat(a, b), b) == a
    decreases a + b
  {
    if a + b > 0 {
      XorDigits(a, b);
      XorNatUndo(a / 2, b / 2);
    }
  }

  lemma {:induction false} XorNatSwap(a: nat, b: nat)
    ensures XorNat(a, b) == XorNat(b, a)
    decreases a + b
  {
    if a + b > 0 { XorNatSwap(a / 2, b / 2); }
  }

  lemma {:induction false} XorNatRegroup(a: nat, b: nat, c: nat)
    ensures XorNat(XorNat(a, b), c) == XorNat(a, XorNat(b, c))
    decreases a + b + c
  {
    if a + b + c > 0 {
      XorDigits(a, b);
      XorDigits(b, c);
      XorNatRegroup(a / 2, b / 2, c / 2);
    }
  }

  /** Applying the same key twice restores the byte. */
  lemma XorUndo(a: byte, k: byte)
    ensures Xor(Xor(a, k), k) == a
  {
    XorNatUndo(a, k);
  }

  lemma XorSwap(a: byte, b: byte)
    ensures Xor(a, b) == Xor(b, a)
  {
    XorNatSwap(a, b);
  }

  lemma XorRegroup(a: byte, b: byte, c: byte)
    ensures Xor(Xor(a, b), c) == Xor(a, Xor(b, c))
  {
    XorNatRegroup(a, b, c);
  }

  /** A key maps different bytes to different bytes. */
  lemma XorInjective(a: byte, b: byte, k: byte)
    requires Xor(a, k) == Xor(b, k)
    ensures a == b
  {
    XorUndo(a, k);
    XorUndo(b, k);
  }
}
