/** CRC-32C as a bit-serial shift register, and the algebra every implementation in this project rests on.

    The register holds the polynomial remainder with the coefficient of the highest power in bit 0 (the reflected
    form of RFC 4960 Appendix B). There is no initial or final complement: every routine updates a raw state. */
module Crc32c {

  type Word = bv32
  type Bytes = seq<bv8>

  const POLY: Word := 0x82F63B78

  function Xor(x: Word, y: Word): Word {
    x ^ y
  }

  /** One clock of the shift register: multiply by x modulo the generator. */
  function Shift(x: Word): Word {
    (x >> 1) ^ (if x & 1 == 1 then POLY else 0)
  }

  function Shift2(x: Word): Word {
    Shift(Shift(x))
  }

  function Shift4(x: Word): Word {
    Shift2(Shift2(x))
  }

  /** Eight clocks: the effect of absorbing one zero byte. */
  function Z(x: Word): Word {
    Shift4(Shift4(x))
  }

  /** The effect of absorbing n zero bytes. */
  function ZPow(n: nat, x: Word): Word {
    if n == 0 then x else ZPow(n - 1, Z(x))
  }

  /** The reference: absorb the bytes one at a time, eight register clocks each. */
  function Crc(s: Word, data: Bytes): Word
    decreases |data|
  {
    if |data| == 0 then s else Crc(Z(Xor(s, data[0] as Word)), data[1..])
  }

  function Zeros(n: nat): (b: Bytes)
    ensures |b| == n && forall i :: 0 <= i < n ==> b[i] == 0
  {
    seq(n, _ => 0)
  }

  function Xor8(a: bv8, b: bv8): bv8 {
    a ^ b
  }

  function XorBytes(a: Bytes, b: Bytes): (c: Bytes)
    requires |a| == |b|
    ensures |c| == |a| && forall i :: 0 <= i < |a| ==> c[i] == Xor8(a[i], b[i])
  {
    seq(|a|, i requires 0 <= i < |a| => Xor8(a[i], b[i]))
  }

  // ---- exclusive or ----

  lemma XorBitsAssoc(x: Word, y: Word, z: Word)
    ensures (x ^ y) ^ z == x ^ (y ^ z)
  {
  }

  lemma XorAssoc(x: Word, y: Word, z: Word)
    ensures Xor(Xor(x, y), z) == Xor(x, Xor(y, z))
  {
    XorBitsAssoc(x, y, z);
  }

  lemma XorCommutes(x: Word, y: Word)
    ensures Xor(x, y) == Xor(y, x)
  {
  }

  lemma XorZero(x: Word)
    ensures Xor(x, 0) == x && Xor(0, x) == x && Xor(x, x) == 0
  {
  }

  lemma XorExchange(a: Word, b: Word, c: Word, d: Word)
    ensures Xor(Xor(a, b), Xor(c, d)) == Xor(Xor(a, c), Xor(b, d))
  {
    XorAssoc(a, b, Xor(c, d));
    XorAssoc(b, c, d);
    XorCommutes(b, c);
    XorAssoc(c, b, d);
    XorAssoc(a, c, Xor(b, d));
  }

  // ---- the register is linear ----

  lemma ShiftRightXor(x: Word, y: Word)
    ensures (x ^ y) >> 1 == (x >> 1) ^ (y >> 1)
  {
  }

  lemma LowBitXor(x: Word, y: Word)
    ensures (x ^ y) & 1 == (x & 1) ^ (y & 1)
    ensures x & 1 == 0 || x & 1 == 1
    ensures y & 1 == 0 || y & 1 == 1
  {
  }

  lemma ShiftXor(x: Word, y: Word)
    ensures Shift(Xor(x, y)) == Xor(Shift(x), Shift(y))
  {
    ShiftXorBits(x, y);
  }

  lemma ShiftXorBits(x: Word, y: Word)
    ensures Shift(x ^ y) == Shift(x) ^ Shift(y)
  {
    ShiftRightXor(x, y);
    LowBitXor(x, y);
    if x & 1 == 1 {
      if y & 1 == 1 {
      } else {
      }
    } else {
      if y & 1 == 1 {
      } else {
      }
    }
  }

  lemma Shift2Xor(x: Word, y: Word)
    ensures Shift2(Xor(x, y)) == Xor(Shift2(x), Shift2(y))
  {
    ShiftXor(x, y);
    ShiftXor(Shift(x), Shift(y));
  }

  lemma Shift4Xor(x: Word, y: Word)
    ensures Shift4(Xor(x, y)) == Xor(Shift4(x), Shift4(y))
  {
    Shift2Xor(x, y);
    Shift2Xor(Shift2(x), Shift2(y));
  }

  lemma ZXor(x: Word, y: Word)
    ensures Z(Xor(x, y)) == Xor(Z(x), Z(y))
  {
    Shift4Xor(x, y);
    Shift4Xor(Shift4(x), Shift4(y));
  }

  lemma {:induction false} ZPowXor(n: nat, x: Word, y: Word)
    ensures ZPow(n, Xor(x, y)) == Xor(ZPow(n, x), ZPow(n, y))
  {
    if n != 0 {
      ZXor(x, y);
      ZPowXor(n - 1, Z(x), Z(y));
    }
  }

  lemma ZZero()
    ensures Z(0) == 0
  {
    assert Shift(0) == 0;
  }

  lemma {:induction false} ZPowZero(n: nat)
    ensures ZPow(n, 0) == 0
  {
    if n != 0 {
      ZZero();
      ZPowZero(n - 1);
    }
  }

  lemma {:induction false} ZPowAdd(m: nat, n: nat, x: Word)
    ensures ZPow(m + n, x) == ZPow(n, ZPow(m, x))
  {
    if m != 0 {
      ZPowAdd(m - 1, n, Z(x));
    }
  }

  // ---- the register is invertible ----

  /** Run the register backwards one clock. */
  function Unshift(y: Word): Word {
    if y & 0x8000_0000 == 0 then y << 1 else ((y ^ POLY) << 1) | 1
  }

  function Unshift2(y: Word): Word {
    Unshift(Unshift(y))
  }

  function Unshift4(y: Word): Word {
    Unshift2(Unshift2(y))
  }

  function Unz(y: Word): Word {
    Unshift4(Unshift4(y))
  }

  function UnzPow(n: nat, y: Word): Word {
    if n == 0 then y else Unz(UnzPow(n - 1, y))
  }

  lemma ShiftEven(y: Word)
    requires y & 0x8000_0000 == 0
    ensures Shift(y << 1) == y
  {
    LeftRight(y);
  }

  lemma ShiftOdd(u: Word)
    requires u & 0x8000_0000 == 0
    ensures Shift((u << 1) | 1) == u ^ POLY
  {
    LeftRight(u);
  }

  lemma LeftRight(y: Word)
    requires y & 0x8000_0000 == 0
    ensures (y << 1) & 1 == 0 && (y << 1) >> 1 == y
    ensures ((y << 1) | 1) & 1 == 1 && ((y << 1) | 1) >> 1 == y
  {
  }

  lemma ShiftUnshift(y: Word)
    ensures Shift(Unshift(y)) == y
  {
    if y & 0x8000_0000 == 0 {
      ShiftEven(y);
    } else {
      ShiftOdd(y ^ POLY);
      assert (y ^ POLY) & 0x8000_0000 == 0;
      assert (y ^ POLY) ^ POLY == y;
    }
  }

  lemma RightLeft(x: Word)
    ensures x & 1 == 0 ==> (x >> 1) & 0x8000_0000 == 0 && (x >> 1) << 1 == x
    ensures x & 1 == 1 ==> ((x >> 1) << 1) | 1 == x
    ensures x & 1 == 0 || x & 1 == 1
    ensures ((x >> 1) ^ POLY) & 0x8000_0000 != 0 && ((x >> 1) ^ POLY) ^ POLY == x >> 1
    ensures (x >> 1) ^ 0 == x >> 1
  {
  }

  lemma UnshiftOdd(x: Word, h: Word)
    requires x & 1 == 1 && h == x >> 1
    requires (h ^ POLY) & 0x8000_0000 != 0 && (h ^ POLY) ^ POLY == h && (h << 1) | 1 == x
    ensures Unshift(Shift(x)) == x
  {
    assert Shift(x) == h ^ POLY;
  }

  lemma UnshiftEven(x: Word, h: Word)
    requires x & 1 == 0 && h == x >> 1
    requires h & 0x8000_0000 == 0 && h ^ 0 == h && h << 1 == x
    ensures Unshift(Shift(x)) == x
  {
    assert Shift(x) == h;
  }

  lemma UnshiftShift(x: Word)
    ensures Unshift(Shift(x)) == x
  {
    RightLeft(x);
    if x & 1 == 1 {
      UnshiftOdd(x, x >> 1);
    } else {
      UnshiftEven(x, x >> 1);
    }
  }

  lemma UnzZ(x: Word)
    ensures Unz(Z(x)) == x
  {
    Unshift4Shift4(Shift4(x));
    Unshift4Shift4(x);
  }

  lemma Unshift4Shift4(x: Word)
    ensures Unshift4(Shift4(x)) == x
  {
    Unshift2Shift2(Shift2(x));
    Unshift2Shift2(x);
  }

  lemma Unshift2Shift2(x: Word)
    ensures Unshift2(Shift2(x)) == x
  {
    UnshiftShift(Shift(x));
    UnshiftShift(x);
  }

  lemma ZUnz(y: Word)
    ensures Z(Unz(y)) == y
  {
    Shift4Unshift4(Unshift4(y));
    Shift4Unshift4(y);
  }

  lemma Shift4Unshift4(y: Word)
    ensures Shift4(Unshift4(y)) == y
  {
    Shift2Unshift2(Unshift2(y));
    Shift2Unshift2(y);
  }

  lemma Shift2Unshift2(y: Word)
    ensures Shift2(Unshift2(y)) == y
  {
    ShiftUnshift(Unshift(y));
    ShiftUnshift(y);
  }

  lemma {:induction false} UnzPowZPow(n: nat, x: Word)
    ensures UnzPow(n, ZPow(n, x)) == x
  {
    if n != 0 {
      UnzPowZPow(n - 1, Z(x));
      UnzZ(x);
    }
  }

  lemma {:induction false} ZPowUnzPow(n: nat, y: Word)
    ensures ZPow(n, UnzPow(n, y)) == y
  {
    if n != 0 {
      ZUnz(UnzPow(n - 1, y));
      ZPowUnzPow(n - 1, y);
    }
  }

  /** Absorbing n zero bytes is a bijection of the register: every y has exactly one preimage. */
  lemma ZPowBijective(n: nat, x: Word, y: Word)
    ensures ZPow(n, x) == y <==> x == UnzPow(n, y)
  {
    UnzPowZPow(n, x);
    ZPowUnzPow(n, y);
  }

  // ---- the CRC of a concatenation, of a sum, and of zeros ----

  lemma {:induction false} CrcAppend(s: Word, a: Bytes, b: Bytes)
    ensures Crc(s, a + b) == Crc(Crc(s, a), b)
    decreases |a|
  {
    if |a| == 0 {
      assert a + b == b;
    } else {
      assert (a + b)[1..] == a[1..] + b;
      CrcAppend(Z(Xor(s, a[0] as Word)), a[1..], b);
    }
  }

  lemma ByteXor(a: bv8, b: bv8)
    ensures Xor8(a, b) as Word == Xor(a as Word, b as Word)
  {
  }

  lemma CrcFirst(s: Word, d: Bytes)
    ensures Crc(s, d) == if d == [] then s else Crc(Z(Xor(s, d[0] as Word)), d[1..])
  {
  }

  lemma FirstXor(s: Word, t: Word, x: bv8, y: bv8)
    ensures Xor(Xor(s, t), Xor8(x, y) as Word) == Xor(Xor(s, x as Word), Xor(t, y as Word))
  {
    hide Xor, Xor8;
    ByteXor(x, y);
    XorExchange(s, t, x as Word, y as Word);
  }

  lemma {:induction false} CrcXor(s: Word, t: Word, a: Bytes, b: Bytes)
    requires |a| == |b|
    ensures Crc(Xor(s, t), XorBytes(a, b)) == Xor(Crc(s, a), Crc(t, b))
    decreases |a|
  {
    hide Crc, Z, Xor, Xor8;
    CrcFirst(s, a);
    CrcFirst(t, b);
    CrcFirst(Xor(s, t), XorBytes(a, b));
    if |a| != 0 {
      var s1, t1 := Xor(s, a[0] as Word), Xor(t, b[0] as Word);
      FirstXor(s, t, a[0], b[0]);
      ZXor(s1, t1);
      assert XorBytes(a, b)[1..] == XorBytes(a[1..], b[1..]);
      CrcXor(Z(s1), Z(t1), a[1..], b[1..]);
    }
  }

  lemma {:induction false} CrcZeros(s: Word, n: nat)
    ensures Crc(s, Zeros(n)) == ZPow(n, s)
    decreases n
  {
    if n != 0 {
      assert Zeros(n)[1..] == Zeros(n - 1);
      XorZero(s);
      CrcZeros(Z(s), n - 1);
    }
  }

  /** The state only contributes through the zero-byte map: crc(s, d) = Z^|d|(s) xor crc(0, d). */
  lemma CrcSplit(s: Word, d: Bytes)
    ensures Crc(s, d) == Xor(ZPow(|d|, s), Crc(0, d))
  {
    XorZero(s);
    assert XorBytes(Zeros(|d|), d) == d;
    CrcXor(s, 0, Zeros(|d|), d);
    CrcZeros(s, |d|);
  }

  /** crc(s, a ++ b) = crc(crc(s, a), b) = Z^|b|(crc(s, a)) xor crc(0, b). */
  lemma CrcConcatenation(s: Word, a: Bytes, b: Bytes)
    ensures Crc(s, a + b) == Crc(Crc(s, a), b)
    ensures Crc(s, a + b) == Xor(ZPow(|b|, Crc(s, a)), Crc(0, b))
  {
    CrcAppend(s, a, b);
    CrcSplit(Crc(s, a), b);
  }

  /** On one block, different start states always give different results. */
  lemma CrcInjectiveInState(s: Word, t: Word, d: Bytes)
    ensures Crc(s, d) == Crc(t, d) <==> s == t
  {
    CrcSplit(s, d);
    CrcSplit(t, d);
    var c := Crc(0, d);
    XorAssoc(ZPow(|d|, s), c, c);
    XorAssoc(ZPow(|d|, t), c, c);
    XorZero(c);
    XorZero(ZPow(|d|, s));
    XorZero(ZPow(|d|, t));
    UnzPowZPow(|d|, s);
    UnzPowZPow(|d|, t);
  }

  /** Re-basing a cached checksum: from crc(a, d) to crc(b, d) with a CRC over |d| zero bytes only. */
  lemma CrcRebase(a: Word, b: Word, d: Bytes)
    ensures Crc(b, d) == Xor(Crc(a, d), ZPow(|d|, Xor(a, b)))
  {
    CrcZeros(Xor(a, b), |d|);
    assert XorBytes(d, Zeros(|d|)) == d;
    CrcXor(a, Xor(a, b), d, Zeros(|d|));
    XorAssoc(a, a, b);
    XorZero(a);
    XorZero(b);
  }
}
