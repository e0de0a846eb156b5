/** The x86-64 kernel for a block of zeros (crc32c_intel_fast_zero_asm.S): the steps of the data kernel on a register
    that holds 0, without loads and without alignment. */
module CrcIntelZero {
  import opened Crc32c
  import opened CrcTables
  import opened CrcMemory
  import opened CrcMerge
  import opened CrcIntel

  /** Eight more zero bytes. */
  lemma QuadAdvances(crc: Word, n: nat)
    ensures Crc32Q(ZPow(n, crc), 0) == ZPow(n + 8, crc)
  {
    hide Crc32Q, ZPow;
    ZeroOperands(ZPow(n, crc));
    ZPowAdd(n, 8, crc);
  }

  lemma Xor64Nothing(x: bv64)
    ensures Xor64(x, 0) == x
  {
  }

  /** The merge without a last load: two lanes that absorbed nothing but zeros from 0 are 0, and the first is advanced
      over the other two. */
  lemma MergeOfZeros(crc: Word, bSize: nat, td2: Table, td1: Table)
    requires LaneTables(bSize, td2, td1)
    ensures Crc32Q(ZPow(bSize - 8, 0), AddLane(AddLane(0, ZPow(bSize, crc), td2), ZPow(bSize, 0), td1))
            == ZPow(3 * bSize, crc)
  {
    hide Crc32Q, ZPow, AddLane, HoldsPower, Xor, Xor64;
    var crc0 := ZPow(bSize, crc);
    MergeIsPowers(ZPow(bSize - 8, 0), crc0, ZPow(bSize, 0), 0, bSize, td2, td1);
    Xor64Nothing(AddLane(AddLane(0, crc0, td2), ZPow(bSize, 0), td1));
    ZPowZero(bSize - 8);
    ZPowZero(bSize);
    QuadAdvances(0, bSize - 8);
    ZPowAdd(bSize, 2 * bSize, crc);
    XorZero(ZPow(2 * bSize, crc0));
  }

  /** One pass of macro crcB3. */
  method CrcB3Zero(crc: Word, bSize: nat, td2: Table, td1: Table) returns (rax: Word)
    requires LaneTables(bSize, td2, td1)
    ensures rax == ZPow(3 * bSize, crc)
  {
    hide Crc32Q, ZPow, AddLane, HoldsPower;
    rax := crc;
    var rbx: Word, r10: Word := 0, 0;
    var i := 0;
    ZPowAtZero(crc);
    ZPowAtZero(0);
    while i < bSize - 8
      invariant 0 <= i <= bSize - 8 && i % 8 == 0
      invariant rax == ZPow(i, crc) && rbx == ZPow(i, 0) && r10 == ZPow(i, 0)
    {
      QuadAdvances(crc, i);
      QuadAdvances(0, i);
      rax := Crc32Q(rax, 0);
      rbx := Crc32Q(rbx, 0);
      r10 := Crc32Q(r10, 0);
      i := i + 8;
    }
    QuadAdvances(crc, i);
    QuadAdvances(0, i);
    rax := Crc32Q(rax, 0);
    rbx := Crc32Q(rbx, 0);
    MergeOfZeros(crc, bSize, td2, td1);
    var r9 := AddLane(0, rax, td2);
    r9 := AddLane(r9, rbx, td1);
    r10 := Crc32Q(r10, r9);
    rax := r10;
  }

  /** Unrolled run of n quadword steps. */
  method QuadsZero(crc: Word, n: nat) returns (rax: Word)
    ensures rax == ZPow(8 * n, crc)
  {
    hide Crc32Q, ZPow;
    rax := crc;
    ZPowAtZero(crc);
    for i := 0 to n
      invariant rax == ZPow(8 * i, crc)
    {
      QuadAdvances(crc, 8 * i);
      rax := Crc32Q(rax, 0);
    }
  }

  /** One level of the tail cascade, with rest bytes to go: the top bit of the length byte decides on n quadwords. */
  method TailLevelZero(crc: Word, lenByte: nat, n: nat, ghost rest: nat)
    returns (rax: Word, lenByte': nat, stop: bool, ghost took: nat)
    requires n in {1, 2, 4, 8, 16} && rest < 16 * n && n * lenByte == 16 * rest
    ensures took <= rest && rax == ZPow(took, crc)
    ensures stop ==> took == rest
    ensures !stop ==> rest - took < 8 * n && n * lenByte' == 32 * (rest - took)
  {
    hide ZPow;
    LengthByte(n, lenByte, rest);
    stop, took, rax := false, 0, crc;
    if lenByte >= 128 {
      lenByte' := 2 * lenByte - 256;
      rax := QuadsZero(crc, n);
      took := 8 * n;
      stop := lenByte' == 0;
    } else {
      ZPowAtZero(crc);
      lenByte' := 2 * lenByte;
    }
  }

  function Shifted(rbx: bv64, bits: nat): bv64
    requires bits <= 64
  {
    rbx >> bits
  }

  lemma ShiftedZero()
    ensures Low32(0) == 0 && Low16(0) == 0 && Byte(0) == 0 && Shifted(0, 32) == 0 && Shifted(0, 16) == 0
  {
  }

  lemma TakeZeros(crc: Word, took: nat)
    ensures Crc32D(ZPow(took, crc), Low32(0)) == ZPow(took + 4, crc)
    ensures Crc32W(ZPow(took, crc), Low16(0)) == ZPow(took + 2, crc)
    ensures Crc32B(ZPow(took, crc), Byte(0)) == ZPow(took + 1, crc)
  {
    hide ZPow, Crc32D, Crc32W, Crc32B, Low32, Low16, Byte;
    ShiftedZero();
    ZeroOperands(ZPow(took, crc));
    ZPowAdd(took, 4, crc);
    ZPowAdd(took, 2, crc);
    ZPowAdd(took, 1, crc);
  }

  /** The last 0 to 7 bytes, taken from a register that holds 0. */
  method TailBytesZero(crc: Word, lenByte: nat, ghost rest: nat) returns (eax: Word)
    requires rest < 8 && lenByte == 32 * rest
    ensures eax == ZPow(rest, crc)
  {
    hide ZPow, Crc32D, Crc32W, Crc32B, Low32, Low16, Byte, Shifted;
    eax := crc;
    ZPowAtZero(crc);
    ShiftedZero();
    var rbx: bv64 := 0;
    ghost var took := 0;
    var b := lenByte;
    TakeZeros(crc, took);
    if b >= 128 {
      b := 2 * b - 256;
      eax := Crc32D(eax, Low32(rbx));
      took := 4;
      if b == 0 {
        return;
      }
      rbx := Shifted(rbx, 32);
    } else {
      b := 2 * b;
    }
    TakeZeros(crc, took);
    if b >= 128 {
      b := 2 * b - 256;
      eax := Crc32W(eax, Low16(rbx));
      took := took + 2;
      if b == 0 {
        return;
      }
      rbx := Shifted(rbx, 16);
    } else {
      b := 2 * b;
    }
    if b == 0 {
      return;
    }
    TakeZeros(crc, took);
    eax := Crc32B(eax, Byte(rbx));
  }

  /** Fewer than 256 bytes left: binary decomposition of the length, most significant bit first. */
  method TailZero(crc: Word, len: nat) returns (eax: Word)
    requires len < 256
    ensures eax == ZPow(len, crc)
  {
    hide ZPow;
    var lenByte, stop;
    ghost var took, done := 0, 0;
    eax, lenByte, stop, took := TailLevelZero(crc, len, 16, len);
    if stop {
      return;
    }
    done := took;
    eax, lenByte, stop, took := TailLevelZero(eax, lenByte, 8, len - done);
    ZPowAdd(done, took, crc);
    if stop {
      return;
    }
    done := done + took;
    eax, lenByte, stop, took := TailLevelZero(eax, lenByte, 4, len - done);
    ZPowAdd(done, took, crc);
    if stop {
      return;
    }
    done := done + took;
    eax, lenByte, stop, took := TailLevelZero(eax, lenByte, 2, len - done);
    ZPowAdd(done, took, crc);
    if stop {
      return;
    }
    done := done + took;
    eax, lenByte, stop, took := TailLevelZero(eax, lenByte, 1, len - done);
    ZPowAdd(done, took, crc);
    if stop {
      return;
    }
    done := done + took;
    eax := TailBytesZero(eax, lenByte, len - done);
    ZPowAdd(done, len - done, crc);
  }

  /** The looping expansion of the macro (block size 640). */
  method CrcB3RepeatZero(crc: Word, len0: nat) returns (rax: Word, len: nat)
    ensures len < 1920 && len <= len0 && rax == ZPow(len0 - len, crc)
  {
    hide ZPow, LaneTables;
    rax := crc;
    KernelTables();
    ZPowAtZero(crc);
    var left: int := len0 - 1920;
    while left >= 0
      invariant -1920 <= left <= len0 - 1920
      invariant rax == ZPow(len0 - 1920 - left, crc)
    {
      ZPowAdd(len0 - 1920 - left, 1920, crc);
      rax := CrcB3Zero(rax, 640, MUL_TABLE_1272, MUL_TABLE_632);
      left := left - 1920;
    }
    len := left + 1920;
  }

  /** The single expansion of the macro (block sizes 320, 160 and 80). */
  method CrcB3OnceZero(crc: Word, len0: nat, bSize: nat, td2: Table, td1: Table) returns (rax: Word, len: nat)
    requires LaneTables(bSize, td2, td1) && len0 < 6 * bSize
    ensures len < 3 * bSize && len <= len0 && rax == ZPow(len0 - len, crc)
  {
    hide ZPow, LaneTables;
    rax, len := crc, len0;
    ZPowAtZero(crc);
    if len >= 3 * bSize {
      rax := CrcB3Zero(crc, bSize, td2, td1);
      len := len - 3 * bSize;
    }
  }

  /** The kernel: three-lane passes of 1920, 960, 480 and 240 bytes, then the tail. It absorbs exactly len zero
      bytes. */
  method Crc32IscsiZero00(len0: nat, crcInit: Word) returns (eax: Word)
    requires len0 < 0x8000_0000
    ensures eax == Crc(crcInit, Zeros(len0))
  {
    hide Crc, ZPow, LaneTables;
    CrcZeros(crcInit, len0);
    ZPowAtZero(crcInit);
    var len := len0;
    eax := crcInit;
    if len >= 240 {
      KernelTables();
      eax, len := CrcB3RepeatZero(crcInit, len0);
      if len == 0 {
        return;
      }
      ghost var before := len;
      eax, len := CrcB3OnceZero(eax, len, 320, MUL_TABLE_632, MUL_TABLE_312);
      ZPowAdd(len0 - before, before - len, crcInit);
      if len == 0 {
        return;
      }
      before := len;
      eax, len := CrcB3OnceZero(eax, len, 160, MUL_TABLE_312, MUL_TABLE_152);
      ZPowAdd(len0 - before, before - len, crcInit);
      if len == 0 {
        return;
      }
      before := len;
      eax, len := CrcB3OnceZero(eax, len, 80, MUL_TABLE_152, MUL_TABLE_72);
      ZPowAdd(len0 - before, before - len, crcInit);
      if len == 0 {
        return;
      }
    }
    ZPowAdd(len0 - len, len, crcInit);
    eax := TailZero(eax, len);
  }
}
