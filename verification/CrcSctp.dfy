/** Slicing-by-8 (crc32_sctp.c): eight tables absorb eight bytes per round, after a prologue of up to three bytes. */
module CrcSctp {
  import opened Crc32c
  import opened CrcTables
  import opened CrcMemory
  import opened CrcBaseline

  lemma SliceIndices(w: Word)
    ensures w & 0xFF < 256 && (w >> 8) & 0xFF < 256 && (w >> 16) & 0xFF < 256 && ((w >> 16) >> 8) & 0xFF < 256
    ensures ((w >> 16) >> 8) & 0xFF == (w >> 24) & 0xFF
  {
  }

  lemma ByteTables()
    ensures TABLEIL8_O32 == ISCSI_BASE
  {
  }

  function Lookup(x: Word, high: Word): Word {
    SliceIndices(x);
    Xor(At(TABLEIL8_O32, x & 0xFF), high)
  }

  /** One byte of the prologue or of the tail. */
  function ByteRound(crc: Word, b: Word): Word {
    Lookup(Xor(crc, b), crc >> 8)
  }

  lemma LookupIsStep(x: Word, high: Word)
    requires x >> 8 == high
    ensures Lookup(x, high) == Z(x)
  {
    hide At, Z, Xor;
    SliceIndices(x);
    ByteTables();
    StepWith(x, high, x & 0xFF);
    XorCommutes(At(TABLEIL8_O32, x & 0xFF), high);
  }

  lemma ByteRoundIsStep(crc: Word, b: Word)
    requires b < 256
    ensures ByteRound(crc, b) == Z(Xor(crc, b))
  {
    hide At, Z, Lookup, Xor;
    HighBitsStay(crc, b);
    LookupIsStep(Xor(crc, b), crc >> 8);
  }

  lemma HighBitsStay(crc: Word, b: Word)
    requires b < 256
    ensures Xor(crc, b) >> 8 == crc >> 8
  {
    IndexBits(crc, b);
  }

  /** The four look-ups that advance the four bytes of a state by eight bytes. */
  function HighSlices(crc: Word): Word {
    SliceIndices(crc);
    var term1 := Xor(At(TABLEIL8_O88, crc & 0xFF), At(TABLEIL8_O80, (crc >> 8) & 0xFF));
    var term2 := crc >> 16;
    Xor(Xor(term1, At(TABLEIL8_O72, term2 & 0xFF)), At(TABLEIL8_O64, (term2 >> 8) & 0xFF))
  }

  lemma HighLookups(b0: Word, b1: Word, b2: Word, b3: Word)
    requires b0 < 256 && b1 < 256 && b2 < 256 && b3 < 256
    ensures At(TABLEIL8_O88, b0) == ZPow(8, b0) && At(TABLEIL8_O80, b1) == ZPow(7, b1)
    ensures At(TABLEIL8_O72, b2) == ZPow(6, b2) && At(TABLEIL8_O64, b3) == ZPow(5, b3)
  {
    hide *;
    SliceTablesHold();
    TableLookup(TABLEIL8_O88, 8, b0);
    TableLookup(TABLEIL8_O80, 7, b1);
    TableLookup(TABLEIL8_O72, 6, b2);
    TableLookup(TABLEIL8_O64, 5, b3);
  }

  lemma LowLookups(b0: Word, b1: Word, b2: Word, b3: Word)
    requires b0 < 256 && b1 < 256 && b2 < 256 && b3 < 256
    ensures At(TABLEIL8_O56, b0) == ZPow(4, b0) && At(TABLEIL8_O48, b1) == ZPow(3, b1)
    ensures At(TABLEIL8_O40, b2) == ZPow(2, b2) && At(TABLEIL8_O32, b3) == ZPow(1, b3)
  {
    hide *;
    SliceTablesHold();
    TableLookup(TABLEIL8_O56, 4, b0);
    TableLookup(TABLEIL8_O48, 3, b1);
    TableLookup(TABLEIL8_O40, 2, b2);
    TableLookup(TABLEIL8_O32, 1, b3);
  }

  lemma HighSlicesIsZ8(crc: Word)
    ensures HighSlices(crc) == ZPow(8, crc)
  {
    hide At, Z, ZPow, Xor;
    SliceIndices(crc);
    var b0, b1, b2, b3 := crc & 0xFF, (crc >> 8) & 0xFF, (crc >> 16) & 0xFF, (crc >> 24) & 0xFF;
    HighLookups(b0, b1, b2, b3);
    ZPowByBytes(8, crc);
    XorAssoc(Xor(ZPow(8, b0), ZPow(7, b1)), ZPow(6, b2), ZPow(5, b3));
  }

  /** The look-ups for the second word of a round, read as a whole. */
  function LowSlicesOfWord(crc: Word, w: Word): Word {
    SliceIndices(w);
    var term1 := Xor(At(TABLEIL8_O56, w & 0xFF), At(TABLEIL8_O48, (w >> 8) & 0xFF));
    var term2 := w >> 16;
    Xor(Xor(Xor(crc, term1), At(TABLEIL8_O40, term2 & 0xFF)), At(TABLEIL8_O32, (term2 >> 8) & 0xFF))
  }

  lemma LowSlicesOfWordIsZ4(crc: Word, w: Word)
    ensures LowSlicesOfWord(crc, w) == Xor(crc, ZPow(4, w))
  {
    hide At, Z, ZPow, Xor;
    SliceIndices(w);
    var b0, b1, b2, b3 := w & 0xFF, (w >> 8) & 0xFF, (w >> 16) & 0xFF, (w >> 24) & 0xFF;
    LowLookups(b0, b1, b2, b3);
    ZPowByBytes(4, w);
    var term1, c, d := Xor(ZPow(4, b0), ZPow(3, b1)), ZPow(2, b2), ZPow(1, b3);
    XorAssoc(Xor(crc, term1), c, d);
    XorAssoc(crc, term1, Xor(c, d));
  }

  /** The same look-ups with the four bytes fetched one by one. */
  function LowSlicesOfBytes(crc: Word, b0: Word, b1: Word, b2: Word, b3: Word): Word
    requires b0 < 256 && b1 < 256 && b2 < 256 && b3 < 256
  {
    Xor(Xor(Xor(Xor(crc, At(TABLEIL8_O56, b0)), At(TABLEIL8_O48, b1)), At(TABLEIL8_O40, b2)), At(TABLEIL8_O32, b3))
  }

  lemma Le32Split(b0: bv8, b1: bv8, b2: bv8, b3: bv8)
    ensures var w := Le32(b0, b1, b2, b3);
            w & 0xFF == b0 as Word && (w >> 8) & 0xFF == b1 as Word
            && (w >> 16) & 0xFF == b2 as Word && (w >> 24) & 0xFF == b3 as Word
  {
  }

  lemma LowSlicesAgree(crc: Word, b0: bv8, b1: bv8, b2: bv8, b3: bv8)
    ensures LowSlicesOfBytes(crc, b0 as Word, b1 as Word, b2 as Word, b3 as Word)
            == LowSlicesOfWord(crc, Le32(b0, b1, b2, b3))
  {
    hide At;
    Le32Split(b0, b1, b2, b3);
    SliceIndices(Le32(b0, b1, b2, b3));
    XorAssoc(crc, At(TABLEIL8_O56, b0 as Word), At(TABLEIL8_O48, b1 as Word));
  }

  /** The first word of a round, added byte by byte. */
  function AddBytes(crc: Word, b0: Word, b1: Word, b2: Word, b3: Word): Word {
    Xor(Xor(Xor(Xor(crc, b0), b1 << 8), b2 << 16), b3 << 24)
  }

  lemma AddBytesAgree(crc: Word, b0: bv8, b1: bv8, b2: bv8, b3: bv8)
    ensures AddBytes(crc, b0 as Word, b1 as Word, b2 as Word, b3 as Word) == Xor(crc, Le32(b0, b1, b2, b3))
  {
    Le32IsXor(b0, b1, b2, b3);
    XorFive(crc, b0 as Word, b1 as Word << 8, b2 as Word << 16, b3 as Word << 24);
  }

  /** Eight bytes absorbed by one round. */
  lemma RoundIsCrc(s: Word, mem: Bytes, p: nat)
    requires p + 8 <= |mem|
    ensures Crc(s, mem[p..p + 8]) == LowSlicesOfWord(HighSlices(Xor(s, Load32(mem, p))), Load32(mem, p + 4))
  {
    hide *;
    var w1, w2 := Load32(mem, p), Load32(mem, p + 4);
    CrcExtend(s, mem, p, p + 4, p + 8);
    CrcLoad32(s, mem, p);
    var t := ZPow(4, Xor(s, w1));
    CrcLoad32(t, mem, p + 4);
    ZPowXor(4, t, w2);
    ZPowAdd(4, 4, Xor(s, w1));
    HighSlicesIsZ8(Xor(s, w1));
    LowSlicesOfWordIsZ4(ZPow(8, Xor(s, w1)), w2);
  }

  lemma ZeroRound(s: Word)
    ensures LowSlicesOfBytes(HighSlices(s), 0, 0, 0, 0) == ZPow(8, s)
    ensures LowSlicesOfWord(HighSlices(s), 0) == ZPow(8, s)
  {
    hide At, Z, HighSlices;
    HighSlicesIsZ8(s);
    LowSlicesOfWordIsZ4(HighSlices(s), 0);
    LowSlicesAgree(HighSlices(s), 0, 0, 0, 0);
    ZPowZero(4);
    XorZero(ZPow(8, s));
  }

  /** One byte of prologue or tail appended to what has been absorbed. */
  lemma ByteAppended(s: Word, mem: Bytes, p: nat)
    requires p < |mem|
    ensures Crc(s, mem[..p + 1]) == ByteRound(Crc(s, mem[..p]), mem[p] as Word)
  {
    hide *;
    CrcNext(s, mem, p);
    ByteRoundIsStep(Crc(s, mem[..p]), mem[p] as Word);
  }

  lemma RoundAppended(s: Word, mem: Bytes, p: nat)
    requires p + 8 <= |mem|
    ensures Crc(s, mem[..p + 8])
            == LowSlicesOfWord(HighSlices(Xor(Crc(s, mem[..p]), Load32(mem, p))), Load32(mem, p + 4))
  {
    hide *;
    CrcExtend(s, mem, 0, p, p + 8);
    RoundIsCrc(Crc(s, mem[..p]), mem, p);
  }

  /** Slicing-by-8 over data. The flag byteWise selects the branch compiled under BIG_ENDIAN. */
  method Slicing8(crcInit: Word, mem: Bytes, length: nat, offset: nat, byteWise: bool) returns (crc: Word)
    requires length <= |mem| && length < 0x1_0000_0000
    ensures crc == Crc(crcInit, mem[..length])
  {
    hide At, Z, HighSlices, LowSlicesOfWord, LowSlicesOfBytes, ByteRound, AddBytes, Le32, Xor;
    crc := crcInit;
    var initBytes := (4 - offset) % 4;
    if initBytes > length {
      initBytes := length;
    }
    var runningLength := ((length - initBytes) / 8) * 8;
    var endBytes := length - initBytes - runningLength;
    var p := 0;
    for li := 0 to initBytes
      invariant p == li
      invariant crc == Crc(crcInit, mem[..p])
    {
      ByteAppended(crcInit, mem, p);
      crc := ByteRound(crc, mem[p] as Word);
      p := p + 1;
    }
    for li := 0 to runningLength / 8
      invariant p == initBytes + 8 * li
      invariant crc == Crc(crcInit, mem[..p])
    {
      RoundAppended(crcInit, mem, p);
      if byteWise {
        AddBytesAgree(crc, mem[p], mem[p + 1], mem[p + 2], mem[p + 3]);
        crc := AddBytes(crc, mem[p] as Word, mem[p + 1] as Word, mem[p + 2] as Word, mem[p + 3] as Word);
      } else {
        crc := Xor(crc, Load32(mem, p));
      }
      p := p + 4;
      crc := HighSlices(crc);
      if byteWise {
        LowSlicesAgree(crc, mem[p], mem[p + 1], mem[p + 2], mem[p + 3]);
        crc := LowSlicesOfBytes(crc, mem[p] as Word, mem[p + 1] as Word, mem[p + 2] as Word, mem[p + 3] as Word);
      } else {
        crc := LowSlicesOfWord(crc, Load32(mem, p));
      }
      p := p + 4;
    }
    for li := 0 to endBytes
      invariant p == initBytes + runningLength + li
      invariant crc == Crc(crcInit, mem[..p])
    {
      ByteAppended(crcInit, mem, p);
      crc := ByteRound(crc, mem[p] as Word);
      p := p + 1;
    }
  }

  lemma ByteRoundZero(crc: Word)
    ensures ByteRound(crc, 0) == Z(crc)
  {
    hide *;
    ByteRoundIsStep(crc, 0);
    XorZero(crc);
  }

  /** The same rounds when every data byte is zero. */
  method Slicing8Zero(crcInit: Word, length: nat, offset: nat, byteWise: bool) returns (crc: Word)
    requires length < 0x1_0000_0000
    ensures crc == Crc(crcInit, Zeros(length))
  {
    hide *;
    crc := crcInit;
    var initBytes := (4 - offset) % 4;
    if initBytes > length {
      initBytes := length;
    }
    var runningLength := ((length - initBytes) / 8) * 8;
    var endBytes := length - initBytes - runningLength;
    ZPowAtZero(crc);
    for li := 0 to initBytes
      invariant crc == ZPow(li, crcInit)
    {
      ByteRoundZero(crc);
      ZPowNext(li, crcInit);
      crc := ByteRound(crc, 0);
    }
    for li := 0 to runningLength / 8
      invariant crc == ZPow(initBytes + 8 * li, crcInit)
    {
      ZeroRound(crc);
      ZPowAdd(initBytes + 8 * li, 8, crcInit);
      crc := HighSlices(crc);
      if byteWise {
        crc := LowSlicesOfBytes(crc, 0, 0, 0, 0);
      } else {
        crc := LowSlicesOfWord(crc, 0);
      }
    }
    for li := 0 to endBytes
      invariant crc == ZPow(initBytes + runningLength + li, crcInit)
    {
      ByteRoundZero(crc);
      ZPowNext(initBytes + runningLength + li, crcInit);
      crc := ByteRound(crc, 0);
    }
    CrcZeros(crcInit, length);
  }

  /** The exported routine: the alignment of the address only chooses where the rounds start. */
  method Crc32cSctp(crc: Word, buffer: Buffer, length: nat, byteWise: bool) returns (r: Word)
    requires Readable(buffer, length)
    ensures r == Crc(crc, Contents(buffer, length))
  {
    if length == 0 {
      return crc;
    }
    match buffer
    case Data(addr, mem) =>
      r := Slicing8(crc, mem, length, addr % 4, byteWise);
    case Null =>
      r := Slicing8Zero(crc, length, 0, byteWise);
  }
}
