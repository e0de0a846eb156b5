/** Little-endian loads, and how a loaded word relates to the bytes it came from. */
module CrcMemory {
  import opened Crc32c
  import opened CrcTables

  function Le32(b0: bv8, b1: bv8, b2: bv8, b3: bv8): Word {
    (b0 as Word) | (b1 as Word << 8) | (b2 as Word << 16) | (b3 as Word << 24)
  }

  function Load32(mem: Bytes, i: nat): Word
    requires i + 4 <= |mem|
  {
    Le32(mem[i], mem[i + 1], mem[i + 2], mem[i + 3])
  }

  function Le64(b0: bv8, b1: bv8, b2: bv8, b3: bv8, b4: bv8, b5: bv8, b6: bv8, b7: bv8): bv64 {
    (b0 as bv64) | (b1 as bv64 << 8) | (b2 as bv64 << 16) | (b3 as bv64 << 24)
      | (b4 as bv64 << 32) | (b5 as bv64 << 40) | (b6 as bv64 << 48) | (b7 as bv64 << 56)
  }

  function Load64(mem: Bytes, i: nat): bv64
    requires i + 8 <= |mem|
  {
    Le64(mem[i], mem[i + 1], mem[i + 2], mem[i + 3], mem[i + 4], mem[i + 5], mem[i + 6], mem[i + 7])
  }

  /** Byte k of a quadword. */
  function Byte(q: bv64): bv8 {
    (q & 0xFF) as bv8
  }

  function BytesOf64(q: bv64): (b: Bytes)
    ensures |b| == 8
  {
    [Byte(q), Byte(q >> 8), Byte(q >> 16), Byte(q >> 24), Byte(q >> 32), Byte(q >> 40), Byte(q >> 48), Byte(q >> 56)]
  }

  lemma Le64Bytes(b0: bv8, b1: bv8, b2: bv8, b3: bv8, b4: bv8, b5: bv8, b6: bv8, b7: bv8)
    ensures BytesOf64(Le64(b0, b1, b2, b3, b4, b5, b6, b7)) == [b0, b1, b2, b3, b4, b5, b6, b7]
  {
  }

  lemma Load64Bytes(mem: Bytes, i: nat)
    requires i + 8 <= |mem|
    ensures BytesOf64(Load64(mem, i)) == mem[i..i + 8]
  {
    Le64Bytes(mem[i], mem[i + 1], mem[i + 2], mem[i + 3], mem[i + 4], mem[i + 5], mem[i + 6], mem[i + 7]);
  }

  function BytesOf32(w: bv32): (b: Bytes)
    ensures |b| == 4
  {
    [(w & 0xFF) as bv8, ((w >> 8) & 0xFF) as bv8, ((w >> 16) & 0xFF) as bv8, ((w >> 24) & 0xFF) as bv8]
  }

  function Load16(mem: Bytes, i: nat): bv16
    requires i + 2 <= |mem|
  {
    (mem[i] as bv16) | (mem[i + 1] as bv16 << 8)
  }

  function BytesOf16(w: bv16): (b: Bytes)
    ensures |b| == 2
  {
    [(w & 0xFF) as bv8, ((w >> 8) & 0xFF) as bv8]
  }

  lemma Load32Bytes(mem: Bytes, i: nat)
    requires i + 4 <= |mem|
    ensures BytesOf32(Load32(mem, i)) == mem[i..i + 4]
  {
    Le32Bytes(mem[i], mem[i + 1], mem[i + 2], mem[i + 3]);
  }

  lemma Le32Bytes(b0: bv8, b1: bv8, b2: bv8, b3: bv8)
    ensures BytesOf32(Le32(b0, b1, b2, b3)) == [b0, b1, b2, b3]
  {
  }

  lemma Load16Bytes(mem: Bytes, i: nat)
    requires i + 2 <= |mem|
    ensures BytesOf16(Load16(mem, i)) == mem[i..i + 2]
  {
    var b0, b1 := mem[i], mem[i + 1];
    assert BytesOf16((b0 as bv16) | (b1 as bv16 << 8)) == [b0, b1];
  }

  // ---- the CRC instructions (crc32 on x86-64, crc32c on ARMv8): absorb the operand's bytes, lowest first ----

  function Crc32Q(s: Word, q: bv64): Word {
    Crc(s, BytesOf64(q))
  }

  function Crc32D(s: Word, w: bv32): Word {
    Crc(s, BytesOf32(w))
  }

  function Crc32W(s: Word, w: bv16): Word {
    Crc(s, BytesOf16(w))
  }

  function Crc32B(s: Word, b: bv8): Word {
    Crc(s, [b])
  }

  // ---- a byte absorbed k steps later is a byte placed k positions higher ----

  lemma RaisedByte(b: Word)
    requires b < 256
    ensures (b << 8) & 0xFF == 0 && (b << 8) >> 8 == b
    ensures (b << 16) & 0xFF == 0 && (b << 16) >> 8 == b << 8
    ensures (b << 24) & 0xFF == 0 && (b << 24) >> 8 == b << 16
  {
  }

  lemma ZRaised(b: Word)
    requires b < 256
    ensures Z(b << 8) == b && Z(b << 16) == b << 8 && Z(b << 24) == b << 16
  {
    RaisedByte(b);
    ZMovesDown(b << 8);
    ZMovesDown(b << 16);
    ZMovesDown(b << 24);
  }

  lemma ZPowRaised(n: nat, b: Word)
    requires b < 256
    ensures ZPow(n + 1, b << 8) == ZPow(n, b)
    ensures ZPow(n + 2, b << 16) == ZPow(n, b)
    ensures ZPow(n + 3, b << 24) == ZPow(n, b)
  {
    ZRaised(b);
    assert ZPow(n + 1, b << 8) == ZPow(n, Z(b << 8));
    assert ZPow(n + 2, b << 16) == ZPow(n + 1, Z(b << 16));
    assert ZPow(n + 3, b << 24) == ZPow(n + 2, Z(b << 24));
  }

  lemma WordOfBytes(x: Word)
    ensures ((x & 0xFF) ^ (((x >> 8) & 0xFF) << 8)) ^ ((((x >> 16) & 0xFF) << 16) ^ (((x >> 24) & 0xFF) << 24)) == x
  {
  }

  lemma ZPowPieces(n: nat, b0: Word, b1: Word, b2: Word, b3: Word, r1: Word, r2: Word, r3: Word)
    requires n >= 3
    requires ZPow(n, r1) == ZPow(n - 1, b1) && ZPow(n, r2) == ZPow(n - 2, b2) && ZPow(n, r3) == ZPow(n - 3, b3)
    ensures ZPow(n, Xor(Xor(b0, r1), Xor(r2, r3)))
            == Xor(Xor(ZPow(n, b0), ZPow(n - 1, b1)), Xor(ZPow(n - 2, b2), ZPow(n - 3, b3)))
  {
    ZPowXor4(n, b0, r1, r2, r3);
  }

  lemma RaisedBy(n: nat, b1: Word, b2: Word, b3: Word)
    requires n >= 3
    requires b1 < 256 && b2 < 256 && b3 < 256
    ensures ZPow(n, b1 << 8) == ZPow(n - 1, b1)
    ensures ZPow(n, b2 << 16) == ZPow(n - 2, b2)
    ensures ZPow(n, b3 << 24) == ZPow(n - 3, b3)
  {
    ZPowRaised(n - 1, b1);
    ZPowRaised(n - 2, b2);
    ZPowRaised(n - 3, b3);
  }

  lemma WordIsBytes(x: Word)
    ensures x == Xor(Xor(x & 0xFF, ((x >> 8) & 0xFF) << 8), Xor(((x >> 16) & 0xFF) << 16, ((x >> 24) & 0xFF) << 24))
  {
    WordOfBytes(x);
  }

  /** Absorbing zeros into a word, byte by byte of the word: each byte has fewer zeros to go the higher it stands. */
  lemma ZPowByBytes(n: nat, x: Word)
    requires n >= 3
    ensures ZPow(n, x) == Xor(Xor(ZPow(n, x & 0xFF), ZPow(n - 1, (x >> 8) & 0xFF)),
                              Xor(ZPow(n - 2, (x >> 16) & 0xFF), ZPow(n - 3, (x >> 24) & 0xFF)))
  {
    ByteIndices(x);
    RaisedBy(n, (x >> 8) & 0xFF, (x >> 16) & 0xFF, (x >> 24) & 0xFF);
    ZPowPieces(n, x & 0xFF, (x >> 8) & 0xFF, (x >> 16) & 0xFF, (x >> 24) & 0xFF,
      ((x >> 8) & 0xFF) << 8, ((x >> 16) & 0xFF) << 16, ((x >> 24) & 0xFF) << 24);
    WordIsBytes(x);
  }

  lemma CrcOne(s: Word, b: bv8)
    ensures Crc(s, [b]) == Z(Xor(s, b as Word))
  {
    assert [b][1..] == [];
  }

  lemma {:induction false} CrcSnoc(s: Word, d: Bytes, b: bv8)
    ensures Crc(s, d + [b]) == Z(Xor(Crc(s, d), b as Word))
  {
    CrcAppend(s, d, [b]);
    CrcOne(Crc(s, d), b);
  }

  /** The next byte of the message may be added to the state before the earlier steps are taken. */
  lemma AddEarly(n: nat, x: Word, b: Word, raised: Word)
    requires ZPow(n, raised) == b
    ensures Z(Xor(ZPow(n, x), b)) == ZPow(n + 1, Xor(x, raised))
  {
    ZPowXor(n, x, raised);
    ZPowNext(n, Xor(x, raised));
  }

  lemma Le32IsXor(b0: bv8, b1: bv8, b2: bv8, b3: bv8)
    ensures Le32(b0, b1, b2, b3)
            == Xor(Xor(Xor(b0 as Word, b1 as Word << 8), b2 as Word << 16), b3 as Word << 24)
  {
    Le32Bits(b0 as Word, b1 as Word, b2 as Word, b3 as Word);
  }

  lemma Le32Bits(w0: Word, w1: Word, w2: Word, w3: Word)
    requires w0 < 256 && w1 < 256 && w2 < 256 && w3 < 256
    ensures w0 | (w1 << 8) | (w2 << 16) | (w3 << 24) == ((w0 ^ (w1 << 8)) ^ (w2 << 16)) ^ (w3 << 24)
  {
  }

  lemma XorFive(s: Word, a: Word, b: Word, c: Word, d: Word)
    ensures Xor(Xor(Xor(Xor(s, a), b), c), d) == Xor(s, Xor(Xor(Xor(a, b), c), d))
  {
    XorAssoc(s, a, b);
    XorAssoc(s, Xor(a, b), c);
    XorAssoc(s, Xor(Xor(a, b), c), d);
  }

  lemma FourSteps(s: Word, w0: Word, w1: Word, w2: Word, w3: Word, r1: Word, r2: Word, r3: Word)
    requires ZPow(1, r1) == w1 && ZPow(2, r2) == w2 && ZPow(3, r3) == w3
    ensures Z(Xor(Z(Xor(Z(Xor(Z(Xor(s, w0)), w1)), w2)), w3)) == ZPow(4, Xor(s, Xor(Xor(Xor(w0, r1), r2), r3)))
  {
    ZPowOne(Xor(s, w0));
    AddEarly(1, Xor(s, w0), w1, r1);
    AddEarly(2, Xor(Xor(s, w0), r1), w2, r2);
    AddEarly(3, Xor(Xor(Xor(s, w0), r1), r2), w3, r3);
    XorFive(s, w0, r1, r2, r3);
  }

  lemma CrcFourBytes(s: Word, b0: bv8, b1: bv8, b2: bv8, b3: bv8)
    ensures Crc(s, [b0, b1, b2, b3])
            == Z(Xor(Z(Xor(Z(Xor(Z(Xor(s, b0 as Word)), b1 as Word)), b2 as Word)), b3 as Word))
  {
    CrcOne(s, b0);
    CrcSnoc(s, [b0], b1);
    CrcSnoc(s, [b0, b1], b2);
    CrcSnoc(s, [b0, b1, b2], b3);
    assert [b0] + [b1] == [b0, b1];
    assert [b0, b1] + [b2] == [b0, b1, b2];
    assert [b0, b1, b2] + [b3] == [b0, b1, b2, b3];
  }

  lemma Lift(w: Word)
    requires w < 256
    ensures ZPow(1, w << 8) == w && ZPow(2, w << 16) == w && ZPow(3, w << 24) == w
  {
    ZPowRaised(0, w);
  }

  /** Four bytes absorbed one by one, or as one little-endian word. */
  lemma CrcFour(s: Word, b0: bv8, b1: bv8, b2: bv8, b3: bv8)
    ensures Crc(s, [b0, b1, b2, b3]) == ZPow(4, Xor(s, Le32(b0, b1, b2, b3)))
  {
    CrcFourBytes(s, b0, b1, b2, b3);
    Le32IsXor(b0, b1, b2, b3);
    Lift(b1 as Word);
    Lift(b2 as Word);
    Lift(b3 as Word);
    FourSteps(s, b0 as Word, b1 as Word, b2 as Word, b3 as Word, b1 as Word << 8, b2 as Word << 16, b3 as Word << 24);
  }

  lemma CrcLoad32(s: Word, mem: Bytes, i: nat)
    requires i + 4 <= |mem|
    ensures Crc(s, mem[i..i + 4]) == ZPow(4, Xor(s, Load32(mem, i)))
  {
    CrcFour(s, mem[i], mem[i + 1], mem[i + 2], mem[i + 3]);
    assert mem[i..i + 4] == [mem[i], mem[i + 1], mem[i + 2], mem[i + 3]];
  }

  /** Appending one piece of memory to what has been absorbed so far. */
  lemma CrcExtend(s: Word, mem: Bytes, lo: nat, mid: nat, hi: nat)
    requires lo <= mid <= hi <= |mem|
    ensures Crc(s, mem[lo..hi]) == Crc(Crc(s, mem[lo..mid]), mem[mid..hi])
  {
    hide Crc;
    CrcAppend(s, mem[lo..mid], mem[mid..hi]);
    assert mem[lo..mid] + mem[mid..hi] == mem[lo..hi];
  }

  /** An instruction on a loaded operand appends the bytes of that piece of memory. */
  lemma LoadsAppend(s: Word, mem: Bytes, p: nat)
    requires p <= |mem|
    ensures p + 8 <= |mem| ==> Crc32Q(Crc(s, mem[..p]), Load64(mem, p)) == Crc(s, mem[..p + 8])
    ensures p + 4 <= |mem| ==> Crc32D(Crc(s, mem[..p]), Load32(mem, p)) == Crc(s, mem[..p + 4])
    ensures p + 2 <= |mem| ==> Crc32W(Crc(s, mem[..p]), Load16(mem, p)) == Crc(s, mem[..p + 2])
    ensures p + 1 <= |mem| ==> Crc32B(Crc(s, mem[..p]), mem[p]) == Crc(s, mem[..p + 1])
  {
    hide Crc, Load64, Load32, Load16, BytesOf64, BytesOf32, BytesOf16;
    if p + 8 <= |mem| {
      Load64Bytes(mem, p);
      CrcExtend(s, mem, 0, p, p + 8);
    }
    if p + 4 <= |mem| {
      Load32Bytes(mem, p);
      CrcExtend(s, mem, 0, p, p + 4);
    }
    if p + 2 <= |mem| {
      Load16Bytes(mem, p);
      CrcExtend(s, mem, 0, p, p + 2);
    }
    if p + 1 <= |mem| {
      CrcExtend(s, mem, 0, p, p + 1);
      assert mem[p..p + 1] == [mem[p]];
    }
  }

  /** An instruction on a zero operand absorbs that many zero bytes. */
  lemma ZeroOperands(s: Word)
    ensures Crc32Q(s, 0) == ZPow(8, s)
    ensures Crc32D(s, 0) == ZPow(4, s)
    ensures Crc32W(s, 0) == ZPow(2, s)
    ensures Crc32B(s, 0) == ZPow(1, s)
  {
    hide Crc, ZPow;
    assert BytesOf64(0) == Zeros(8);
    assert BytesOf32(0) == Zeros(4);
    assert BytesOf16(0) == Zeros(2);
    assert [0 as bv8] == Zeros(1);
    CrcZeros(s, 8);
    CrcZeros(s, 4);
    CrcZeros(s, 2);
    CrcZeros(s, 1);
  }

  lemma ZPowAtZero(x: Word)
    ensures ZPow(0, x) == x
  {
  }

  lemma CrcOfNothing(s: Word, mem: Bytes)
    ensures Crc(s, mem[..0]) == s
  {
  }

  // ---- what the CRC detects ----

  /** The CRC depends injectively on any four consecutive bytes: every change confined to them is detected. */
  lemma BurstDetected(s: Word, a: Bytes, x: Bytes, y: Bytes, b: Bytes)
    requires |x| == 4 && |y| == 4
    ensures Crc(s, a + x + b) == Crc(s, a + y + b) <==> x == y
  {
    hide Crc, ZPow, Le32;
    CrcAppend(s, a + x, b);
    CrcAppend(s, a, x);
    CrcAppend(s, a + y, b);
    CrcAppend(s, a, y);
    var t := Crc(s, a);
    CrcInjectiveInState(Crc(t, x), Crc(t, y), b);
    assert x == [x[0], x[1], x[2], x[3]] && y == [y[0], y[1], y[2], y[3]];
    CrcFour(t, x[0], x[1], x[2], x[3]);
    CrcFour(t, y[0], y[1], y[2], y[3]);
    var p, q := Le32(x[0], x[1], x[2], x[3]), Le32(y[0], y[1], y[2], y[3]);
    if Crc(t, x) == Crc(t, y) {
      ZPowBijective(4, Xor(t, p), Crc(t, x));
      ZPowBijective(4, Xor(t, q), Crc(t, y));
      XorCancels(t, p, q);
      Le32Bytes(x[0], x[1], x[2], x[3]);
      Le32Bytes(y[0], y[1], y[2], y[3]);
    }
  }

  lemma XorCancels(t: Word, p: Word, q: Word)
    requires Xor(t, p) == Xor(t, q)
    ensures p == q
  {
    XorAssoc(t, t, p);
    XorAssoc(t, t, q);
    XorZero(t);
    XorZero(p);
    XorZero(q);
  }
}
