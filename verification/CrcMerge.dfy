/** Three independent CRCs recombined into one (macro crcB3 of crc32c_intel_fast_asm.S). */
module CrcMerge {
  import opened Crc32c
  import opened CrcTables
  import opened CrcMemory

  function Xor64(x: bv64, y: bv64): bv64 {
    x ^ y
  }

  /** A 32-bit value in a 64-bit register, shifted up by whole bytes. */
  function Raise(x: Word, bytes: nat): bv64
    requires bytes < 4
  {
    if bytes == 0 then x as bv64
    else if bytes == 1 then (x as bv64) << 8
    else if bytes == 2 then (x as bv64) << 16
    else (x as bv64) << 24
  }

  lemma BytesXorLow(x: bv64, y: bv64)
    ensures Byte(x ^ y) == Xor8(Byte(x), Byte(y))
    ensures Byte((x ^ y) >> 8) == Xor8(Byte(x >> 8), Byte(y >> 8))
    ensures Byte((x ^ y) >> 16) == Xor8(Byte(x >> 16), Byte(y >> 16))
    ensures Byte((x ^ y) >> 24) == Xor8(Byte(x >> 24), Byte(y >> 24))
  {
  }

  lemma BytesXorHigh(x: bv64, y: bv64)
    ensures Byte((x ^ y) >> 32) == Xor8(Byte(x >> 32), Byte(y >> 32))
    ensures Byte((x ^ y) >> 40) == Xor8(Byte(x >> 40), Byte(y >> 40))
    ensures Byte((x ^ y) >> 48) == Xor8(Byte(x >> 48), Byte(y >> 48))
    ensures Byte((x ^ y) >> 56) == Xor8(Byte(x >> 56), Byte(y >> 56))
  {
  }

  lemma XorDisplays(a0: bv8, a1: bv8, a2: bv8, a3: bv8, a4: bv8, a5: bv8, a6: bv8, a7: bv8,
                    b0: bv8, b1: bv8, b2: bv8, b3: bv8, b4: bv8, b5: bv8, b6: bv8, b7: bv8)
    ensures XorBytes([a0, a1, a2, a3, a4, a5, a6, a7], [b0, b1, b2, b3, b4, b5, b6, b7])
            == [Xor8(a0, b0), Xor8(a1, b1), Xor8(a2, b2), Xor8(a3, b3),
                Xor8(a4, b4), Xor8(a5, b5), Xor8(a6, b6), Xor8(a7, b7)]
  {
    hide Xor8;
  }

  lemma BytesXor64(x: bv64, y: bv64)
    ensures BytesOf64(Xor64(x, y)) == XorBytes(BytesOf64(x), BytesOf64(y))
  {
    hide BytesOf64, XorBytes;
    BytesXor(x, y);
  }

  lemma BytesXor(x: bv64, y: bv64)
    ensures BytesOf64(x ^ y) == XorBytes(BytesOf64(x), BytesOf64(y))
  {
    hide Byte, XorBytes, Xor8;
    BytesXorLow(x, y);
    BytesXorHigh(x, y);
    XorDisplays(Byte(x), Byte(x >> 8), Byte(x >> 16), Byte(x >> 24),
      Byte(x >> 32), Byte(x >> 40), Byte(x >> 48), Byte(x >> 56),
      Byte(y), Byte(y >> 8), Byte(y >> 16), Byte(y >> 24),
      Byte(y >> 32), Byte(y >> 40), Byte(y >> 48), Byte(y >> 56));
  }

  /** The instruction is linear in state and operand together. */
  lemma Crc32QXor(s: Word, x: bv64, y: bv64)
    ensures Crc32Q(s, Xor64(x, y)) == Xor(Crc32Q(s, x), Crc32Q(0, y))
  {
    hide Crc, Xor64, BytesOf64, XorBytes;
    BytesXor64(x, y);
    CrcXor(s, 0, BytesOf64(x), BytesOf64(y));
    XorZero(s);
  }

  lemma WordBytes(x: Word)
    ensures BytesOf32(x) == [(x & 0xFF) as bv8, ((x >> 8) & 0xFF) as bv8,
                             ((x >> 16) & 0xFF) as bv8, ((x >> 24) & 0xFF) as bv8]
    ensures Le32((x & 0xFF) as bv8, ((x >> 8) & 0xFF) as bv8, ((x >> 16) & 0xFF) as bv8, ((x >> 24) & 0xFF) as bv8) == x
  {
  }

  lemma CrcOfWord(x: Word)
    ensures Crc(0, BytesOf32(x)) == ZPow(4, x)
  {
    hide Crc, ZPow, Le32;
    WordBytes(x);
    CrcFour(0, (x & 0xFF) as bv8, ((x >> 8) & 0xFF) as bv8, ((x >> 16) & 0xFF) as bv8, ((x >> 24) & 0xFF) as bv8);
    XorZero(x);
  }

  lemma RaisedBytes(x: Word, j: nat)
    requires j < 4
    ensures BytesOf64(Raise(x, j)) == Zeros(j) + BytesOf32(x) + Zeros(4 - j)
  {
    RaisedBytes0(x);
    RaisedBytes1(x);
    RaisedBytes2(x);
    RaisedBytes3(x);
  }

  lemma RaisedBytes0(x: Word)
    ensures BytesOf64(x as bv64) == Zeros(0) + BytesOf32(x) + Zeros(4)
  {
  }

  lemma RaisedBytes1(x: Word)
    ensures BytesOf64((x as bv64) << 8) == Zeros(1) + BytesOf32(x) + Zeros(3)
  {
  }

  lemma RaisedBytes2(x: Word)
    ensures BytesOf64((x as bv64) << 16) == Zeros(2) + BytesOf32(x) + Zeros(2)
  {
  }

  lemma RaisedBytes3(x: Word)
    ensures BytesOf64((x as bv64) << 24) == Zeros(3) + BytesOf32(x) + Zeros(1)
  {
  }

  /** A word xored j bytes up into the operand of the instruction has 8 - j zero bytes still to go. */
  lemma Crc32QRaised(x: Word, j: nat)
    requires j < 4
    ensures Crc32Q(0, Raise(x, j)) == ZPow(8 - j, x)
  {
    hide Crc, ZPow, BytesOf64, BytesOf32, Raise;
    RaisedBytes(x, j);
    CrcAppend(0, Zeros(j) + BytesOf32(x), Zeros(4 - j));
    CrcAppend(0, Zeros(j), BytesOf32(x));
    CrcZeros(0, j);
    ZPowZero(j);
    CrcOfWord(x);
    CrcZeros(ZPow(4, x), 4 - j);
    ZPowAdd(4, 4 - j, x);
  }

  /** One lane: the four look-ups of a lane CRC, each raised to the byte position it came from, added to r9. */
  function AddLane(r9: bv64, crc: Word, t: Table): bv64 {
    ByteIndices(crc);
    Xor64(Xor64(Xor64(Xor64(r9, Raise(At(t, crc & 0xFF), 0)), Raise(At(t, (crc >> 8) & 0xFF), 1)),
                Raise(At(t, (crc >> 16) & 0xFF), 2)), Raise(At(t, (crc >> 24) & 0xFF), 3))
  }

  lemma LaneTerm(t: Table, k: nat, b: Word, j: nat)
    requires HoldsPower(t, k)
    requires b < 256 && j < 4
    ensures Crc32Q(0, Raise(At(t, b), j)) == ZPow(k + 8 - j, b)
  {
    hide *;
    TableLookup(t, k, b);
    Crc32QRaised(ZPow(k, b), j);
    ZPowAdd(k, 8 - j, b);
  }

  /** The recombination step: adding a lane to the operand adds Z^(k+8) of the lane CRC to the result. */
  lemma AddLaneIsPower(s: Word, r9: bv64, crc: Word, t: Table, k: nat)
    requires HoldsPower(t, k)
    ensures Crc32Q(s, AddLane(r9, crc, t)) == Xor(Crc32Q(s, r9), ZPow(k + 8, crc))
  {
    hide At, ZPow, Crc32Q, Raise, Xor64, Xor, HoldsPower;
    ByteIndices(crc);
    var b0, b1, b2, b3 := crc & 0xFF, (crc >> 8) & 0xFF, (crc >> 16) & 0xFF, (crc >> 24) & 0xFF;
    LaneTerm(t, k, b0, 0);
    LaneTerm(t, k, b1, 1);
    LaneTerm(t, k, b2, 2);
    LaneTerm(t, k, b3, 3);
    var q0 := Xor64(r9, Raise(At(t, b0), 0));
    var q1 := Xor64(q0, Raise(At(t, b1), 1));
    var q2 := Xor64(q1, Raise(At(t, b2), 2));
    Crc32QXor(s, r9, Raise(At(t, b0), 0));
    Crc32QXor(s, q0, Raise(At(t, b1), 1));
    Crc32QXor(s, q1, Raise(At(t, b2), 2));
    Crc32QXor(s, q2, Raise(At(t, b3), 3));
    ZPowByBytes(k + 8, crc);
    var p0, p1, p2, p3 := ZPow(k + 8, b0), ZPow(k + 7, b1), ZPow(k + 6, b2), ZPow(k + 5, b3);
    XorFive(Crc32Q(s, r9), p0, p1, p2, p3);
    XorAssoc(Xor(p0, p1), p2, p3);
  }
}
