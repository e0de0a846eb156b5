/** The ARMv8 routine (crc32_aarch64.c): eight bytes per instruction, then a tail chosen by the bits of a negative
    remaining length. */
module CrcAarch64 {
  import opened Crc32c
  import opened CrcMemory
  import opened CrcBaseline

  /** Bit test of a two's-complement integer: division rounds down, so negative numbers keep their bits. */
  predicate BitSet(x: int, mask: nat)
    requires mask > 0
  {
    (x / mask) % 2 == 1
  }

  /** The low three bits of a length in -8 .. -1 are those of the number of bytes still to absorb. */
  lemma TailBits(length: int)
    requires -8 <= length < 0
    ensures length + 8 == (if BitSet(length, 4) then 4 else 0) + (if BitSet(length, 2) then 2 else 0)
                          + (if BitSet(length, 1) then 1 else 0)
  {
  }

  method Crc32cAarch64(crcInit: Word, buffer: Buffer, len: nat) returns (crc: Word)
    requires Readable(buffer, len)
    ensures crc == Crc(crcInit, Contents(buffer, len))
  {
    hide Crc, ZPow, Load64, Load32, Load16, Crc32Q, Crc32D, Crc32W, Crc32B, BitSet;
    crc := crcInit;
    var length: int := len;
    if buffer.Null? {
      length := length - 8;
      ZPowAtZero(crc);
      while length >= 0
        invariant -8 <= length <= len - 8
        invariant crc == ZPow(len - 8 - length, crcInit)
      {
        ZeroOperands(crc);
        ZPowAdd(len - 8 - length, 8, crcInit);
        crc := Crc32Q(crc, 0);
        length := length - 8;
      }
      TailBits(length);
      ghost var done := len - 8 - length;
      ghost var done4 := done + if BitSet(length, 4) then 4 else 0;
      ghost var done2 := done4 + if BitSet(length, 2) then 2 else 0;
      ZeroOperands(crc);
      ZPowAdd(done, 4, crcInit);
      if BitSet(length, 4) {
        crc := Crc32D(crc, 0);
      }
      ZeroOperands(crc);
      ZPowAdd(done4, 2, crcInit);
      if BitSet(length, 2) {
        crc := Crc32W(crc, 0);
      }
      ZeroOperands(crc);
      ZPowAdd(done2, 1, crcInit);
      if BitSet(length, 1) {
        crc := Crc32B(crc, 0);
      }
      CrcZeros(crcInit, len);
    } else {
      var mem := buffer.mem;
      var p := 0;
      CrcOfNothing(crcInit, mem);
      length := length - 8;
      while length >= 0
        invariant -8 <= length
        invariant p == len - 8 - length
        invariant crc == Crc(crcInit, mem[..p])
      {
        LoadsAppend(crcInit, mem, p);
        crc := Crc32Q(crc, Load64(mem, p));
        p := p + 8;
        length := length - 8;
      }
      TailBits(length);
      LoadsAppend(crcInit, mem, p);
      if BitSet(length, 4) {
        crc := Crc32D(crc, Load32(mem, p));
        p := p + 4;
      }
      LoadsAppend(crcInit, mem, p);
      if BitSet(length, 2) {
        crc := Crc32W(crc, Load16(mem, p));
        p := p + 2;
      }
      LoadsAppend(crcInit, mem, p);
      if BitSet(length, 1) {
        crc := Crc32B(crc, mem[p]);
      }
    }
  }
}
