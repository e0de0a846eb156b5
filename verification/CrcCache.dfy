/** The CRC of a scattered buffer with cached partial CRCs (buffer.cpp), and which writes leave the cache usable. */
module CrcCache {
  import opened Crc32c
  import opened CrcMemory
  import CrcBaseline
  import CrcSctp

  type Range = (nat, nat)

  /** For a range of the raw memory: an initial CRC and the CRC of the range from there. */
  type Cache = map<Range, (Word, Word)>

  predicate Honest(d: Bytes, cache: Cache) {
    forall r: Range :: r in cache ==> r.0 <= r.1 <= |d| && cache[r].1 == Crc(cache[r].0, d[r.0..r.1])
  }

  class Raw {
    const data: array<bv8>
    const address: nat
    var crcMap: Cache

    constructor (d: array<bv8>, addr: nat)
      ensures data == d && address == addr && crcMap == map[]
    {
      data, address, crcMap := d, addr, map[];
    }

    predicate Sound()
      reads this, data
    {
      Honest(data[..], crcMap)
    }

    method SetCrc(fromto: Range, crc: (Word, Word))
      modifies this`crcMap
      ensures crcMap == old(crcMap)[fromto := crc]
    {
      crcMap := crcMap[fromto := crc];
    }

    method InvalidateCrc()
      modifies this`crcMap
      ensures crcMap == map[]
    {
      if |crcMap| != 0 {
        crcMap := map[];
      }
    }
  }

  /** A part of a raw memory; several parts may share one. */
  datatype Ptr = Ptr(raw: Raw, off: nat, len: nat) {
    predicate Within() {
      off + len <= raw.data.Length && len < 0x1_0000_0000
    }

    function Contents(): Bytes
      requires Within()
      reads raw.data
    {
      raw.data[off..off + len]
    }

    /** copy_in and zero forget the cached CRCs of the raw memory before they write. */
    method CopyIn(o: nat, src: Bytes)
      requires Within() && o + |src| <= len
      modifies raw`crcMap, raw.data
      ensures raw.data[..] == old(raw.data[..off + o]) + src + old(raw.data[off + o + |src|..])
      ensures raw.Sound()
    {
      raw.InvalidateCrc();
      forall i | 0 <= i < |src| {
        raw.data[off + o + i] := src[i];
      }
    }

    /** append writes one byte behind the part and forgets nothing. */
    method Append(c: bv8) returns (grown: Ptr)
      requires off + len < raw.data.Length && len + 1 < 0x1_0000_0000
      modifies raw.data
      ensures grown == Ptr(raw, off, len + 1) && grown.Contents() == old(Contents()) + [c]
      ensures raw.data[..] == old(raw.data[..])[off + len := c]
      ensures old(raw.Sound()) ==>
                (raw.Sound() <==> (c == old(raw.data[off + len]) || !Covered(raw.crcMap, off + len)))
    {
      hide Honest, Covered;
      AppendExactly(raw.data[..], raw.crcMap, off + len, c);
      assert raw.data[..][off + len := c] == raw.data[..off + len] + [c] + raw.data[off + len + 1..];
      raw.data[off + len] := c;
      grown := Ptr(raw, off, len + 1);
    }
  }

  /** Some cached range contains the position. */
  predicate Covered(cache: Cache, pos: nat) {
    exists r: Range :: r in cache && r.0 <= pos < r.1
  }

  lemma OneByteDetected(s: Word, a: Bytes, x: bv8, y: bv8, b: Bytes)
    ensures Crc(s, a + [x] + b) == Crc(s, a + [y] + b) <==> x == y
  {
    hide Crc, Z, ZPow;
    CrcAppend(s, a + [x], b);
    CrcAppend(s, a, [x]);
    CrcAppend(s, a + [y], b);
    CrcAppend(s, a, [y]);
    var t := Crc(s, a);
    CrcInjectiveInState(Crc(t, [x]), Crc(t, [y]), b);
    CrcOne(t, x);
    CrcOne(t, y);
    if Crc(t, [x]) == Crc(t, [y]) {
      UnzZ(Xor(t, x as Word));
      UnzZ(Xor(t, y as Word));
      XorCancels(t, x as Word, y as Word);
    }
  }

  lemma EntryAfterWrite(d: Bytes, r: Range, base: Word, pos: nat, c: bv8)
    requires r.0 <= r.1 <= |d| && pos < |d|
    ensures Crc(base, d[pos := c][r.0..r.1]) == Crc(base, d[r.0..r.1]) <==> (c == d[pos] || !(r.0 <= pos < r.1))
  {
    hide Crc;
    var d' := d[pos := c];
    if r.0 <= pos < r.1 {
      var a, b := d[r.0..pos], d[pos + 1..r.1];
      assert d[r.0..r.1] == a + [d[pos]] + b;
      assert d'[r.0..r.1] == a + [c] + b;
      OneByteDetected(base, a, d[pos], c, b);
    } else {
      assert d'[r.0..r.1] == d[r.0..r.1];
    }
  }

  /** Writing one byte without forgetting leaves a sound cache sound exactly if the byte does not change or no cached
      range contains it. */
  lemma AppendExactly(d: Bytes, cache: Cache, pos: nat, c: bv8)
    requires pos < |d|
    ensures Honest(d, cache) ==> (Honest(d[pos := c], cache) <==> (c == d[pos] || !Covered(cache, pos)))
  {
    hide Crc;
    if Honest(d, cache) {
      forall r: Range | r in cache
        ensures Crc(cache[r].0, d[pos := c][r.0..r.1]) == cache[r].1 <==> (c == d[pos] || !(r.0 <= pos < r.1))
      {
        EntryAfterWrite(d, r, cache[r].0, pos, c);
      }
    }
  }

  /** The contents of the parts one after the other. */
  function Joined(buffers: seq<Ptr>): Bytes
    requires forall p :: p in buffers ==> p.Within()
    reads set p | p in buffers :: p.raw.data
  {
    if buffers == [] then [] else Joined(buffers[..|buffers| - 1]) + buffers[|buffers| - 1].Contents()
  }

  lemma HonestGrows(d: Bytes, cache: Cache, r: Range, base: Word)
    requires Honest(d, cache) && r.0 <= r.1 <= |d|
    ensures Honest(d, cache[r := (base, Crc(base, d[r.0..r.1]))])
  {
  }

  /** With sound caches the result is the CRC of the joined contents, whether a part was cached from the same initial
      CRC, from another one, or not at all; and all caches stay sound, although parts may share memory. */
  method BufferCrc32(buffers: seq<Ptr>, crc: Word) returns (r: Word)
    requires forall p :: p in buffers ==> p.Within() && p.raw.Sound()
    modifies set p | p in buffers :: p.raw
    ensures r == Crc(crc, Joined(buffers))
    ensures forall p :: p in buffers ==> p.raw.Sound()
  {
    hide Crc, ZPow, Honest, Xor, Zeros;
    r := crc;
    CrcEmpty(crc);
    assert buffers[..0] == [];
    for i := 0 to |buffers|
      invariant forall p :: p in buffers ==> p.raw.Sound()
      invariant r == Crc(crc, Joined(buffers[..i]))
    {
      var p := buffers[i];
      assert buffers[..i + 1][..i] == buffers[..i];
      CrcAppend(crc, Joined(buffers[..i]), p.Contents());
      if p.len != 0 {
        var ofs := (p.off, p.off + p.len);
        assert p.raw.data[..][ofs.0..ofs.1] == p.Contents();
        if ofs in p.raw.crcMap {
          var ccrc := p.raw.crcMap[ofs];
          CachedIsCrc(p.raw.data[..], p.raw.crcMap, ofs);
          if ccrc.0 == r {
            r := ccrc.1;
          } else {
            CrcRebase(ccrc.0, r, p.Contents());
            CrcZeros(Xor(ccrc.0, r), p.len);
            var shifted := CrcSctp.Crc32cSctp(Xor(ccrc.0, r), CrcBaseline.Null, p.len, false);
            r := Xor(ccrc.1, shifted);
          }
        } else {
          var base := r;
          WholeContents(p.Contents());
          r := CrcSctp.Crc32cSctp(r, CrcBaseline.Data(p.raw.address + p.off, p.Contents()), p.len, false);
          HonestGrows(p.raw.data[..], p.raw.crcMap, ofs, base);
          p.raw.SetCrc(ofs, (base, r));
        }
      } else {
        CrcEmpty(r);
        assert p.Contents() == [];
      }
    }
    assert buffers[..|buffers|] == buffers;
  }

  lemma WholeContents(d: Bytes)
    ensures d[..|d|] == d
  {
  }

  lemma CrcEmpty(s: Word)
    ensures Crc(s, []) == s
  {
  }

  lemma CachedIsCrc(d: Bytes, cache: Cache, r: Range)
    requires Honest(d, cache) && r in cache
    ensures r.0 <= r.1 <= |d| && cache[r].1 == Crc(cache[r].0, d[r.0..r.1])
  {
  }
}
