/** The agent shader's stateless pseudo-random source: a 32-bit integer
    mixing function and the map from its output into the unit interval.

    GLSL `uint` arithmetic wraps modulo 2^32. It is written out here on
    integers: `uint32` is the range [0, 2^32), multiplication is taken
    modulo 2^32, `>> 16` is division by 2^16, and `^` is the bitwise
    exclusive or defined bit by bit in `Xor`. */
module Hashing {

  const Modulus: int := 0x1_0000_0000
  /** The largest uint32, the divisor of the normaliser. */
  const MaxUint: int := 0xFFFF_FFFF

  type uint32 = x: int | 0 <= x < 0x1_0000_0000

  const HashXor: uint32 := 2747636419
  const HashMul: uint32 := 2654435769
  /** Multiplicative inverse of HashMul modulo 2^32. */
  const HashMulInverse: uint32 := 0x144C_BC89

  function Pow2(k: nat): (r: nat)
    ensures r >= 1
  {
    if k == 0 then 1 else 2 * Pow2(k - 1)
  }

  lemma {:induction false} Pow2Add(a: nat, b: nat)
    ensures Pow2(a + b) == Pow2(a) * Pow2(b)
  {
    if a != 0 {
      Pow2Add(a - 1, b);
    }
  }

  lemma Pow2Values()
    ensures Pow2(16) == 0x1_0000
    ensures Pow2(32) == Modulus
  {
    Pow2Add(2, 2);
    Pow2Add(4, 4);
    Pow2Add(8, 8);
    Pow2Add(16, 16);
  }

  /** Bitwise exclusive or of two naturals, lowest bit first. */
  function Xor(a: nat, b: nat): nat
    decreases a + b
  {
    if a == 0 && b == 0 then 0
    else 2 * Xor(a / 2, b / 2) + (if a % 2 == b % 2 then 0 else 1)
  }

  /** Exclusive or of two k-bit numbers is a k-bit number. */
  lemma {:induction false} XorBound(a: nat, b: nat, k: nat)
    requires a < Pow2(k) && b < Pow2(k)
    ensures Xor(a, b) < Pow2(k)
  {
    if a == 0 && b == 0 {
    } else {
      assert k > 0;
      XorBound(a / 2, b / 2, k - 1);
    }
  }

  /** Exclusive or with the same value twice is the identity. */
  lemma {:induction false} XorCancel(a: nat, b: nat)
    ensures Xor(Xor(a, b), b) == a
    decreases a + b
  {
    if a == 0 && b == 0 {
    } else {
      var x := Xor(a, b);
      assert x / 2 == Xor(a / 2, b / 2);
      XorCancel(a / 2, b / 2);
    }
  }

  lemma {:induction false} XorZero(a: nat)
    ensures Xor(a, 0) == a
  {
    if a != 0 {
      XorZero(a / 2);
    }
  }

  /** Exclusive or with a k-bit number leaves the bits above k alone. */
  lemma {:induction false} XorHigh(a: nat, b: nat, c: nat, k: nat)
    requires b < Pow2(k) && c < Pow2(k)
    ensures Xor(a * Pow2(k) + b, c) == a * Pow2(k) + Xor(b, c)
  {
    if k == 0 {
      XorZero(a);
    } else {
      var x := a * Pow2(k) + b;
      assert a * Pow2(k) == 2 * (a * Pow2(k - 1));
      assert x / 2 == a * Pow2(k - 1) + b / 2;
      assert x % 2 == b % 2;
      XorHigh(a, b / 2, c / 2, k - 1);
      if x == 0 && c == 0 {
      } else if b == 0 && c == 0 {
        XorZero(x);
      }
    }
  }

  /** Multiplication wrapping modulo 2^32. */
  function MulWrap(a: uint32, b: uint32): uint32 {
    (a * b) % Modulus
  }

  /** The shader's `state ^= state >> 16`. */
  function XorShift(s: uint32): (r: uint32)
  {
    Pow2Values();
    XorBound(s, s / 0x1_0000, 32);
    Xor(s, s / 0x1_0000)
  }

  /** The shader's `state ^= 2747636419u`. */
  function XorConst(s: uint32): uint32 {
    Pow2Values();
    XorBound(s, HashXor, 32);
    Xor(s, HashXor)
  }

  function Mix(s: uint32): uint32 {
    MulWrap(s, HashMul)
  }

  function Unmix(s: uint32): uint32 {
    MulWrap(s, HashMulInverse)
  }

  /** The shader's `hash`: xor with a constant, then multiply, xor-shift,
      multiply, xor-shift, multiply, all wrapping. */
  function Hash(state: uint32): uint32 {
    Mix(XorShift(Mix(XorShift(Mix(XorConst(state))))))
  }

  /** The steps of Hash undone in reverse order. */
  function Unhash(h: uint32): uint32 {
    XorConst(Unmix(XorShift(Unmix(XorShift(Unmix(h))))))
  }

  lemma XorShiftInvolution(s: uint32)
    ensures XorShift(XorShift(s)) == s
  {
    var hi, lo := s / 0x1_0000, s % 0x1_0000;
    Pow2Values();
    XorHigh(hi, lo, hi, 16);
    XorBound(lo, hi, 16);
    var t := XorShift(s);
    assert t == hi * 0x1_0000 + Xor(lo, hi);
    assert t / 0x1_0000 == hi;
    XorHigh(hi, Xor(lo, hi), hi, 16);
    XorCancel(lo, hi);
  }

  lemma XorConstInvolution(s: uint32)
    ensures XorConst(XorConst(s)) == s
  {
    XorCancel(s, HashXor);
  }

  lemma ModMultiple(s: uint32, j: int)
    ensures (s + j * Modulus) % Modulus == s
  {
  }

  /** HashMul * HashMulInverse == 1 + 210485888 * 2^32. */
  lemma MulWrapInverse(s: uint32, a: uint32, b: uint32)
    requires a * b == 1 + 210485888 * Modulus
    ensures MulWrap(MulWrap(s, a), b) == s
  {
    var q := (s * a) / Modulus;
    var m := MulWrap(s, a);
    assert s * a == q * Modulus + m;
    assert m * b == s * (a * b) - q * b * Modulus;
    assert m * b == s + (s * 210485888 - q * b) * Modulus;
    ModMultiple(s, s * 210485888 - q * b);
  }

  lemma MixInverse(s: uint32)
    ensures Unmix(Mix(s)) == s
    ensures Mix(Unmix(s)) == s
  {
    MulWrapInverse(s, HashMul, HashMulInverse);
    MulWrapInverse(s, HashMulInverse, HashMul);
  }

  /** Unhash is a left inverse of Hash. */
  lemma UnhashHash(x: uint32)
    ensures Unhash(Hash(x)) == x
  {
    var s1 := XorConst(x);
    var s2 := Mix(s1);
    var s3 := XorShift(s2);
    var s4 := Mix(s3);
    var s5 := XorShift(s4);
    MixInverse(s5);
    XorShiftInvolution(s4);
    MixInverse(s3);
    XorShiftInvolution(s2);
    MixInverse(s1);
    XorConstInvolution(x);
  }

  /** Unhash is a right inverse of Hash. */
  lemma HashUnhash(h: uint32)
    ensures Hash(Unhash(h)) == h
  {
    var u1 := Unmix(h);
    var u2 := XorShift(u1);
    var u3 := Unmix(u2);
    var u4 := XorShift(u3);
    var u5 := Unmix(u4);
    XorConstInvolution(u5);
    MixInverse(u4);
    XorShiftInvolution(u3);
    MixInverse(u2);
    XorShiftInvolution(u1);
    MixInverse(h);
  }

  /** Hash is a bijection of uint32: distinct seeds give distinct values and
      every value is reached. */
  lemma HashBijective()
    ensures forall a: uint32, b: uint32 :: Hash(a) == Hash(b) ==> a == b
    ensures forall h: uint32 :: Hash(Unhash(h)) == h
  {
    forall a: uint32, b: uint32 | Hash(a) == Hash(b)
      ensures a == b
    {
      UnhashHash(a);
      UnhashHash(b);
    }
    forall h: uint32
      ensures Hash(Unhash(h)) == h
    {
      HashUnhash(h);
    }
  }

  /** The shader's `normalize_from_hash`: the value divided by the largest
      uint32, so that both ends of [0, 1] are reached. */
  function NormalizeFromHash(h: uint32): (r: real)
    ensures 0.0 <= r <= 1.0
    ensures r == 0.0 <==> h == 0
    ensures r == 1.0 <==> h == MaxUint
  {
    h as real / MaxUint as real
  }

  /** The normaliser is strictly increasing, hence injective. */
  lemma NormalizeStrictlyIncreasing(a: uint32, b: uint32)
    requires a < b
    ensures NormalizeFromHash(a) < NormalizeFromHash(b)
  {
  }
}
