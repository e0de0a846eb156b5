/** The byte-at-a-time routine (crc32_intel_baseline.c) and the buffer argument all routines share. */
module CrcBaseline {
  import opened Crc32c
  import opened CrcTables
  import opened CrcMemory

  /** A null pointer stands for a block of zeros; otherwise addr is the address and mem the memory from there on. */
  datatype Buffer = Null | Data(addr: nat, mem: Bytes)

  ghost predicate Readable(buffer: Buffer, len: nat) {
    && len < 0x1_0000_0000
    && (buffer.Data? ==> len <= |buffer.mem|)
  }

  ghost function Contents(buffer: Buffer, len: nat): (data: Bytes)
    requires Readable(buffer, len)
  {
    if buffer.Null? then Zeros(len) else buffer.mem[..len]
  }

  lemma IndexBits(crc: Word, b: Word)
    requires b < 256
    ensures (crc & 0xFF) ^ b < 256
    ensures (crc ^ b) >> 8 == crc >> 8
    ensures (crc ^ b) & 0xFF == (crc & 0xFF) ^ b
  {
  }

  /** The table index and the shifted state determine the next state. */
  lemma StepWith(x: Word, high: Word, index: Word)
    requires x >> 8 == high && x & 0xFF == index && index < 256
    ensures Xor(high, At(ISCSI_BASE, index)) == Z(x)
  {
    hide At;
    ByteStep(x);
  }

  lemma DataStep(crc: Word, b: Word)
    requires b < 256
    ensures (crc & 0xFF) ^ b < 256
    ensures Xor(crc >> 8, At(ISCSI_BASE, (crc & 0xFF) ^ b)) == Z(Xor(crc, b))
  {
    hide At;
    IndexBits(crc, b);
    StepWith(crc ^ b, crc >> 8, (crc & 0xFF) ^ b);
  }

  lemma ZeroStep(crc: Word)
    ensures crc & 0xFF < 256
    ensures Xor(crc >> 8, At(ISCSI_BASE, crc & 0xFF)) == Z(crc)
  {
    hide At;
    SplitLowByte(crc);
    StepWith(crc, crc >> 8, crc & 0xFF);
  }

  lemma CrcNext(s: Word, mem: Bytes, i: nat)
    requires i < |mem|
    ensures Crc(s, mem[..i + 1]) == Z(Xor(Crc(s, mem[..i]), mem[i] as Word))
  {
    assert mem[..i + 1] == mem[..i] + [mem[i]];
    CrcSnoc(s, mem[..i], mem[i]);
  }

  method Crc32cIntelBaseline(crcInit: Word, buffer: Buffer, len: nat) returns (crc: Word)
    requires Readable(buffer, len)
    ensures crc == Crc(crcInit, Contents(buffer, len))
  {
    hide At;
    crc := crcInit;
    if buffer.Data? {
      var mem := buffer.mem;
      var p := 0;
      while p < len
        invariant p <= len
        invariant crc == Crc(crcInit, mem[..p])
      {
        DataStep(crc, mem[p] as Word);
        CrcNext(crcInit, mem, p);
        crc := Xor(crc >> 8, At(ISCSI_BASE, (crc & 0xFF) ^ mem[p] as Word));
        p := p + 1;
      }
    } else {
      var left := len;
      while left != 0
        invariant 0 <= left <= len
        invariant crc == ZPow(len - left, crcInit)
        decreases left
      {
        left := left - 1;
        ZeroStep(crc);
        ZPowNext(len - left - 1, crcInit);
        crc := Xor(crc >> 8, At(ISCSI_BASE, crc & 0xFF));
      }
      CrcZeros(crcInit, len);
    }
  }
}
