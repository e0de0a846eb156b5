/** The x86-64 kernel (crc32c_intel_fast_asm.S). */
module CrcIntel {
  import opened Crc32c
  import opened CrcTables
  import opened CrcMemory
  import opened CrcMerge

  /** The tables chosen for a block size advance a lane by two blocks, and by one block, less one quadword. */
  ghost predicate LaneTables(bSize: nat, td2: Table, td1: Table) {
    && bSize >= 8 && bSize % 8 == 0
    && HoldsPower(td2, 2 * bSize - 8)
    && HoldsPower(td1, bSize - 8)
  }

  lemma KernelTables()
    ensures LaneTables(640, MUL_TABLE_1272, MUL_TABLE_632)
    ensures LaneTables(320, MUL_TABLE_632, MUL_TABLE_312)
    ensures LaneTables(160, MUL_TABLE_312, MUL_TABLE_152)
    ensures LaneTables(80, MUL_TABLE_152, MUL_TABLE_72)
  {
    hide HoldsPower;
    MulTablesHold();
  }

  /** The merge of the three lanes, with the last quadword of the third lane still to be absorbed. */
  lemma MergeIsPowers(r10: Word, crc0: Word, crc1: Word, load: bv64, bSize: nat, td2: Table, td1: Table)
    requires LaneTables(bSize, td2, td1)
    ensures Crc32Q(r10, Xor64(AddLane(AddLane(0, crc0, td2), crc1, td1), load))
            == Xor(Xor(ZPow(2 * bSize, crc0), ZPow(bSize, crc1)), Crc32Q(r10, load))
  {
    hide Crc32Q, Xor64, AddLane, ZPow, Xor, HoldsPower;
    var lane0 := AddLane(0, crc0, td2);
    var lanes := AddLane(lane0, crc1, td1);
    AddLaneIsPower(r10, 0, crc0, td2, 2 * bSize - 8);
    AddLaneIsPower(r10, lane0, crc1, td1, bSize - 8);
    Crc32QXor(r10, lanes, load);
    Crc32QXor(r10, 0, load);
    Xor64Zero(load);
    var z, a, b, c := Crc32Q(r10, 0), ZPow(2 * bSize, crc0), ZPow(bSize, crc1), Crc32Q(0, load);
    XorAssoc(z, a, b);
    XorCommutes(z, Xor(a, b));
    XorAssoc(Xor(a, b), z, c);
  }

  lemma Xor64Zero(x: bv64)
    ensures Xor64(0, x) == x
  {
  }

  /** Three consecutive blocks: the first CRC passes over two blocks, the second over one. */
  lemma ThreeBlocks(s: Word, mem: Bytes, p: nat, b: nat)
    requires p + 3 * b <= |mem|
    ensures Crc(s, mem[p..p + 3 * b])
            == Xor(Xor(ZPow(2 * b, Crc(s, mem[p..p + b])), ZPow(b, Crc(0, mem[p + b..p + 2 * b]))),
                   Crc(0, mem[p + 2 * b..p + 3 * b]))
  {
    hide *;
    var crc0 := Crc(s, mem[p..p + b]);
    var crc1 := Crc(0, mem[p + b..p + 2 * b]);
    CrcExtend(s, mem, p, p + b, p + 2 * b);
    CrcExtend(s, mem, p, p + 2 * b, p + 3 * b);
    CrcSplit(crc0, mem[p + b..p + 2 * b]);
    CrcSplit(Crc(s, mem[p..p + 2 * b]), mem[p + 2 * b..p + 3 * b]);
    ZPowXor(b, ZPow(b, crc0), crc1);
    ZPowAdd(b, b, crc0);
  }

  lemma QuadAppends(s: Word, mem: Bytes, lo: nat, q: nat)
    requires lo <= q && q + 8 <= |mem|
    ensures Crc32Q(Crc(s, mem[lo..q]), Load64(mem, q)) == Crc(s, mem[lo..q + 8])
  {
    hide Crc, Load64, BytesOf64;
    Load64Bytes(mem, q);
    CrcExtend(s, mem, lo, q, q + 8);
  }

  lemma CrcEmpty(s: Word, mem: Bytes, lo: nat)
    requires lo <= |mem|
    ensures Crc(s, mem[lo..lo]) == s
  {
  }

  /** One pass of macro crcB3: three lanes of bSize bytes, then the table merge. */
  method CrcB3(crc: Word, mem: Bytes, p: nat, bSize: nat, td2: Table, td1: Table) returns (rax: Word)
    requires LaneTables(bSize, td2, td1)
    requires p + 3 * bSize <= |mem|
    ensures rax == Crc(crc, mem[p..p + 3 * bSize])
  {
    hide Crc, Crc32Q, Load64, ZPow, Xor, Xor64, AddLane, HoldsPower;
    rax := crc;
    var rbx: Word, r10: Word := 0, 0;
    var i := 0;
    CrcEmpty(crc, mem, p);
    CrcEmpty(0, mem, p + bSize);
    CrcEmpty(0, mem, p + 2 * bSize);
    while i < bSize - 8
      invariant 0 <= i <= bSize - 8 && i % 8 == 0
      invariant rax == Crc(crc, mem[p..p + i])
      invariant rbx == Crc(0, mem[p + bSize..p + bSize + i])
      invariant r10 == Crc(0, mem[p + 2 * bSize..p + 2 * bSize + i])
    {
      QuadAppends(crc, mem, p, p + i);
      QuadAppends(0, mem, p + bSize, p + bSize + i);
      QuadAppends(0, mem, p + 2 * bSize, p + 2 * bSize + i);
      rax := Crc32Q(rax, Load64(mem, p + i));
      rbx := Crc32Q(rbx, Load64(mem, p + i + bSize));
      r10 := Crc32Q(r10, Load64(mem, p + i + 2 * bSize));
      i := i + 8;
    }
    QuadAppends(crc, mem, p, p + i);
    QuadAppends(0, mem, p + bSize, p + bSize + i);
    QuadAppends(0, mem, p + 2 * bSize, p + 2 * bSize + i);
    rax := Crc32Q(rax, Load64(mem, p + i));
    rbx := Crc32Q(rbx, Load64(mem, p + i + bSize));
    var load := Load64(mem, p + i + 2 * bSize);
    MergeIsPowers(r10, rax, rbx, load, bSize, td2, td1);
    ThreeBlocks(crc, mem, p, bSize);
    var r9 := AddLane(0, rax, td2);
    r9 := AddLane(r9, rbx, td1);
    r9 := Xor64(r9, load);
    r10 := Crc32Q(r10, r9);
    rax := r10;
  }

  /** Unrolled run of n quadword steps. */
  method Quads(crc: Word, mem: Bytes, p: nat, n: nat) returns (rax: Word)
    requires p + 8 * n <= |mem|
    ensures rax == Crc(crc, mem[p..p + 8 * n])
  {
    hide Crc, Crc32Q, Load64;
    rax := crc;
    CrcEmpty(crc, mem, p);
    for i := 0 to n
      invariant rax == Crc(crc, mem[p..p + 8 * i])
    {
      QuadAppends(crc, mem, p, p + 8 * i);
      rax := Crc32Q(rax, Load64(mem, p + 8 * i));
    }
  }

  /** One level of the tail cascade: shift the top bit out of the length byte; if it was set absorb n quadwords, and
      stop when the shifted byte is zero. The byte is the rest of the length times a power of two. */
  method TailLevel(crc: Word, mem: Bytes, p: nat, lenByte: nat, n: nat, ghost crc0: Word, ghost p0: nat, ghost end: nat)
    returns (rax: Word, q: nat, lenByte': nat, stop: bool)
    requires n in {1, 2, 4, 8, 16}
    requires p0 <= p <= end <= |mem| && end - p < 16 * n
    requires n * lenByte == 16 * (end - p)
    requires crc == Crc(crc0, mem[p0..p])
    ensures stop ==> rax == Crc(crc0, mem[p0..end])
    ensures !stop ==> (q == p || q == p + 8 * n) && q <= end && end - q < 8 * n
    ensures !stop ==> rax == Crc(crc0, mem[p0..q])
    ensures !stop ==> n * lenByte' == 32 * (end - q)
    ensures !stop && q == end ==> p == end
  {
    hide Crc;
    LengthByte(n, lenByte, end - p);
    if lenByte >= 128 {
      lenByte' := 2 * lenByte - 256;
      rax := Quads(crc, mem, p, n);
      CrcExtend(crc0, mem, p0, p, p + 8 * n);
      if lenByte' == 0 {
        return rax, p, 0, true;
      }
      q := p + 8 * n;
    } else {
      lenByte' := 2 * lenByte;
      rax := crc;
      q := p;
    }
    stop := false;
  }

  lemma LengthByte(n: nat, lenByte: nat, rest: nat)
    requires n in {1, 2, 4, 8, 16} && rest < 16 * n && n * lenByte == 16 * rest
    ensures lenByte < 256
    ensures lenByte >= 128 <==> rest >= 8 * n
    ensures lenByte == 128 <==> rest == 8 * n
    ensures lenByte >= 128 ==> n * (2 * lenByte - 256) == 32 * (rest - 8 * n)
    ensures n * (2 * lenByte) == 32 * rest
  {
    if n == 1 {
    } else if n == 2 {
    } else if n == 4 {
    } else if n == 8 {
    } else {
    }
  }

  function Low32(q: bv64): bv32 {
    (q & 0xFFFF_FFFF) as bv32
  }

  function Low16(q: bv64): bv16 {
    (q & 0xFFFF) as bv16
  }

  lemma LowBytes(q: bv64)
    ensures BytesOf32(Low32(q)) == BytesOf64(q)[..4]
    ensures BytesOf16(Low16(q)) == BytesOf64(q)[..2]
    ensures [Byte(q)] == BytesOf64(q)[..1]
  {
  }

  lemma DropBytes(q: bv64)
    ensures BytesOf64(q >> 32)[..4] == BytesOf64(q)[4..]
    ensures BytesOf64(q >> 16)[..6] == BytesOf64(q)[2..]
    ensures BytesOf64(q >> 8)[..7] == BytesOf64(q)[1..]
  {
  }

  /** The register holds the next n bytes of memory. */
  ghost predicate Holds(rbx: bv64, mem: Bytes, p: nat, n: nat)
    requires p + n <= |mem|
  {
    n <= 8 && BytesOf64(rbx)[..n] == mem[p..p + n]
  }

  lemma Take(s: Word, rbx: bv64, mem: Bytes, p: nat, n: nat)
    requires p + n <= |mem| && Holds(rbx, mem, p, n)
    ensures n >= 4 ==> Crc32D(s, Low32(rbx)) == Crc(s, mem[p..p + 4])
    ensures n >= 4 ==> Holds(rbx >> 32, mem, p + 4, n - 4)
    ensures n >= 2 ==> Crc32W(s, Low16(rbx)) == Crc(s, mem[p..p + 2])
    ensures n >= 2 ==> Holds(rbx >> 16, mem, p + 2, n - 2)
    ensures n >= 1 ==> Crc32B(s, Byte(rbx)) == Crc(s, mem[p..p + 1])
    ensures n >= 1 ==> Holds(rbx >> 8, mem, p + 1, n - 1)
  {
    hide Crc, Byte, Low32, Low16, BytesOf64, BytesOf32, BytesOf16;
    LowBytes(rbx);
    DropBytes(rbx);
    var b := BytesOf64(rbx);
    if n >= 4 {
      assert b[..4] == b[..n][..4] == mem[p..p + 4];
      assert b[4..][..n - 4] == b[..n][4..];
      assert BytesOf64(rbx >> 32)[..n - 4] == BytesOf64(rbx >> 32)[..4][..n - 4];
      assert mem[p..p + n][4..] == mem[p + 4..p + n];
    }
    if n >= 2 {
      assert b[..2] == b[..n][..2] == mem[p..p + 2];
      assert b[2..][..n - 2] == b[..n][2..];
      assert BytesOf64(rbx >> 16)[..n - 2] == BytesOf64(rbx >> 16)[..6][..n - 2];
      assert mem[p..p + n][2..] == mem[p + 2..p + n];
    }
    if n >= 1 {
      assert b[..1] == b[..n][..1] == mem[p..p + 1];
      assert b[1..][..n - 1] == b[..n][1..];
      assert BytesOf64(rbx >> 8)[..n - 1] == BytesOf64(rbx >> 8)[..7][..n - 1];
      assert mem[p..p + n][1..] == mem[p + 1..p + n];
    }
  }

  /** The last 0 to 7 bytes, taken from one quadword load that may reach past the end of the data. */
  method TailBytes(crc: Word, mem: Bytes, p: nat, lenByte: nat, ghost rest: nat) returns (eax: Word)
    requires rest < 8 && lenByte == 32 * rest
    requires p + 8 <= |mem|
    ensures eax == Crc(crc, mem[p..p + rest])
  {
    hide Crc, Crc32D, Crc32W, Crc32B, Load64, BytesOf64, Byte, Low32, Low16, Holds;
    eax := crc;
    CrcEmpty(crc, mem, p);
    var rbx := Load64(mem, p);
    HoldsLoad(mem, p, rest);
    ghost var q := p;
    var b := lenByte;
    if b >= 128 {
      b := 2 * b - 256;
      Take(crc, rbx, mem, q, rest);
      q := q + 4;
      eax := Crc32D(eax, Low32(rbx));
      if b == 0 {
        return;
      }
      rbx := rbx >> 32;
    } else {
      b := 2 * b;
    }
    ghost var end := p + rest;
    Take(eax, rbx, mem, q, end - q);
    if b >= 128 {
      b := 2 * b - 256;
      CrcExtend(crc, mem, p, q, q + 2);
      eax := Crc32W(eax, Low16(rbx));
      q := q + 2;
      if b == 0 {
        return;
      }
      rbx := rbx >> 16;
    } else {
      b := 2 * b;
    }
    if b == 0 {
      return;
    }
    Take(eax, rbx, mem, q, end - q);
    CrcExtend(crc, mem, p, q, q + 1);
    eax := Crc32B(eax, Byte(rbx));
  }

  lemma HoldsLoad(mem: Bytes, p: nat, n: nat)
    requires p + 8 <= |mem| && n <= 8
    ensures Holds(Load64(mem, p), mem, p, n)
  {
    hide Load64, BytesOf64;
    Load64Bytes(mem, p);
    assert mem[p..p + 8][..n] == mem[p..p + n];
  }

  /** Fewer than 256 bytes left: binary decomposition of the length, most significant bit first. */
  method Tail(crc: Word, mem: Bytes, p: nat, len: nat) returns (eax: Word)
    requires len < 256
    requires p + len <= |mem|
    requires p + len + 8 <= |mem| || (len > 0 && len % 8 == 0)
    ensures eax == Crc(crc, mem[p..p + len])
  {
    hide Crc;
    eax := crc;
    CrcEmpty(crc, mem, p);
    ghost var end := p + len;
    var q, lenByte, stop := p, len, false;
    eax, q, lenByte, stop := TailLevel(eax, mem, q, lenByte, 16, crc, p, end);
    if stop {
      return;
    }
    eax, q, lenByte, stop := TailLevel(eax, mem, q, lenByte, 8, crc, p, end);
    if stop {
      return;
    }
    eax, q, lenByte, stop := TailLevel(eax, mem, q, lenByte, 4, crc, p, end);
    if stop {
      return;
    }
    eax, q, lenByte, stop := TailLevel(eax, mem, q, lenByte, 2, crc, p, end);
    if stop {
      return;
    }
    eax, q, lenByte, stop := TailLevel(eax, mem, q, lenByte, 1, crc, p, end);
    if stop {
      return;
    }
    ghost var rest := end - q;
    eax := TailBytes(eax, mem, q, lenByte, rest);
    CrcExtend(crc, mem, p, q, end);
  }

  /** The looping expansion of the macro (block size 640). */
  method CrcB3Repeat(crc: Word, mem: Bytes, p0: nat, len0: nat) returns (rax: Word, p: nat, len: nat)
    requires p0 + len0 <= |mem|
    ensures p0 <= p && p + len == p0 + len0 && len < 1920 && len % 8 == len0 % 8
    ensures rax == Crc(crc, mem[p0..p])
  {
    hide Crc, LaneTables;
    rax, p := crc, p0;
    CrcEmpty(crc, mem, p0);
    KernelTables();
    var left: int := len0 - 1920;
    while left >= 0
      invariant p0 <= p && p + left + 1920 == p0 + len0 && left >= -1920
      invariant left % 8 == len0 % 8
      invariant rax == Crc(crc, mem[p0..p])
    {
      CrcExtend(crc, mem, p0, p, p + 1920);
      rax := CrcB3(rax, mem, p, 640, MUL_TABLE_1272, MUL_TABLE_632);
      p := p + 1920;
      left := left - 1920;
    }
    len := left + 1920;
  }

  /** The single expansion of the macro (block sizes 320, 160 and 80). */
  method CrcB3Once(crc: Word, mem: Bytes, p0: nat, len0: nat, bSize: nat, td2: Table, td1: Table,
                   ghost crc0: Word, ghost start: nat)
    returns (rax: Word, p: nat, len: nat)
    requires LaneTables(bSize, td2, td1) && bSize % 8 == 0
    requires start <= p0 && p0 + len0 <= |mem| && len0 < 6 * bSize
    requires crc == Crc(crc0, mem[start..p0])
    ensures p0 <= p && p + len == p0 + len0 && len < 3 * bSize && len % 8 == len0 % 8
    ensures rax == Crc(crc0, mem[start..p])
  {
    hide Crc, LaneTables;
    rax, p, len := crc, p0, len0;
    if len >= 3 * bSize {
      CrcExtend(crc0, mem, start, p, p + 3 * bSize);
      rax := CrcB3(crc, mem, p, bSize, td2, td1);
      p := p + 3 * bSize;
      len := len - 3 * bSize;
    }
  }

  /** From label proc_block: three-lane passes of 1920, 960, 480 and 240 bytes, then the tail. */
  method Cascade(crc: Word, mem: Bytes, p0: nat, len0: nat) returns (eax: Word)
    requires p0 + len0 <= |mem|
    requires p0 + len0 + 8 <= |mem| || (len0 > 0 && len0 % 8 == 0)
    ensures eax == Crc(crc, mem[p0..p0 + len0])
  {
    hide Crc, LaneTables;
    var p, len := p0, len0;
    eax := crc;
    CrcEmpty(crc, mem, p0);
    if len >= 240 {
      KernelTables();
      eax, p, len := CrcB3Repeat(eax, mem, p, len);
      if len == 0 {
        return;
      }
      eax, p, len := CrcB3Once(eax, mem, p, len, 320, MUL_TABLE_632, MUL_TABLE_312, crc, p0);
      if len == 0 {
        return;
      }
      eax, p, len := CrcB3Once(eax, mem, p, len, 160, MUL_TABLE_312, MUL_TABLE_152, crc, p0);
      if len == 0 {
        return;
      }
      eax, p, len := CrcB3Once(eax, mem, p, len, 80, MUL_TABLE_152, MUL_TABLE_72, crc, p0);
      if len == 0 {
        return;
      }
    }
    CrcExtend(crc, mem, p0, p, p0 + len0);
    eax := Tail(eax, mem, p, len);
  }

  /** The kernel. Beyond the data it reads at most one quadword, and nothing when the data ends on a quadword. */
  method Crc32Iscsi00(addr: nat, mem: Bytes, len: nat, crcInit: Word) returns (eax: Word)
    requires len <= |mem| && len < 0x8000_0000
    requires len + 8 <= |mem| || (len >= 8 && (addr + len) % 8 == 0)
    ensures eax == Crc(crcInit, mem[..len])
  {
    hide Crc, Crc32B, Load64, BytesOf64, Byte, Holds;
    eax := crcInit;
    var unaligned := -(addr as int) % 8;
    if unaligned == 0 {
      eax := Cascade(crcInit, mem, 0, len);
      return;
    }
    if len < 8 {
      eax := LessThan8(crcInit, mem, len);
      return;
    }
    var rbx := Load64(mem, 0);
    HoldsLoad(mem, 0, 8);
    CrcOfNothing(crcInit, mem);
    for i := 0 to unaligned
      invariant Holds(rbx, mem, i, 8 - i)
      invariant eax == Crc(crcInit, mem[..i])
    {
      Take(eax, rbx, mem, i, 8 - i);
      CrcExtend(crcInit, mem, 0, i, i + 1);
      eax := Crc32B(eax, Byte(rbx));
      rbx := rbx >> 8;
    }
    CrcExtend(crcInit, mem, 0, unaligned, len);
    eax := Cascade(eax, mem, unaligned, len - unaligned);
  }

  /** Label less_than_8: an unaligned buffer too short for the prologue. */
  method LessThan8(crcInit: Word, mem: Bytes, len: nat) returns (eax: Word)
    requires len < 8 && len <= |mem|
    ensures eax == Crc(crcInit, mem[..len])
  {
    hide Crc, Load32, Load16, Crc32D, Crc32W, Crc32B;
    eax := crcInit;
    var p := 0;
    CrcOfNothing(crcInit, mem);
    LoadsAppend(crcInit, mem, p);
    if (len / 4) % 2 == 1 {
      eax := Crc32D(eax, Load32(mem, p));
      p := p + 4;
    }
    LoadsAppend(crcInit, mem, p);
    if (len / 2) % 2 == 1 {
      eax := Crc32W(eax, Load16(mem, p));
      p := p + 2;
    }
    LoadsAppend(crcInit, mem, p);
    if len % 2 == 1 {
      eax := Crc32B(eax, mem[p]);
    }
  }
}
