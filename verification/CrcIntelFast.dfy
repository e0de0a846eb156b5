/** The caller of the two x86-64 kernels (crc32_intel_fast.c). */
module CrcIntelFast {
  import opened Crc32c
  import opened CrcMemory
  import opened CrcBaseline
  import CrcIntel
  import CrcIntelZero

  /** The Intel routine: a short buffer goes to the byte loop; otherwise the kernel takes everything up to the last
      quadword boundary and the byte loop the rest. */
  method Crc32cIntelFast(crc: Word, buffer: Buffer, len: nat) returns (v: Word)
    requires Readable(buffer, len) && len < 0x8000_0000
    ensures v == Crc(crc, Contents(buffer, len))
  {
    hide Crc;
    if buffer.Null? {
      v := CrcIntelZero.Crc32IscsiZero00(len, crc);
      return;
    }
    if len < 16 {
      v := Crc32cIntelBaseline(crc, buffer, len);
      return;
    }
    var addr, mem := buffer.addr, buffer.mem;
    var left := (addr + len) % 8;
    var main := len - left;
    v := CrcIntel.Crc32Iscsi00(addr, mem, main, crc);
    if left != 0 {
      v := Crc32cIntelBaseline(v, Data(addr + main, mem[main..]), left);
      assert mem[main..][..left] == mem[main..len];
      assert mem[..main] == mem[0..main] && mem[..len] == mem[0..len];
      CrcExtend(crc, mem, 0, main, len);
    }
  }
}
