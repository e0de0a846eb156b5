/** armor_line_break and unarmor, which write a bounded buffer through a moving pointer, proved against ArmorSpec. */
module Armors {
  import opened Options
  import opened ArmorSpec

  const ERANGE := 34
  const EINVAL := 22

  function Room(start: nat, end: nat): nat {
    if start < end then end - start else 0
  }

  function Cut<T>(text: seq<T>, n: nat): seq<T> {
    if |text| <= n then text else text[..n]
  }

  /** The buffer d with t written from position at on. */
  function Overlay<T>(d: seq<T>, at: nat, t: seq<T>): seq<T>
    requires at + |t| <= |d|
  {
    d[..at] + t + d[at + |t|..]
  }

  /** The buffer d0 holds the start of the text from position start up to p, and nothing else in it has changed. */
  ghost predicate Written<T>(d: seq<T>, d0: seq<T>, start: nat, end: nat, text: seq<T>, p: nat) {
    && start <= p <= |d0| && p - start <= |text|
    && (p == start || p <= end)
    && d == Overlay(d0, start, text[..p - start])
  }

  lemma WrittenNext<T>(d: seq<T>, d0: seq<T>, start: nat, end: nat, text: seq<T>, p: nat)
    requires Written(d, d0, start, end, text, p) && p - start < |text| && p < end <= |d|
    ensures Written(d[p := text[p - start]], d0, start, end, text, p + 1)
  {
    assert text[..p + 1 - start] == text[..p - start] + [text[p - start]];
  }

  lemma WrittenFull<T>(d: seq<T>, d0: seq<T>, start: nat, end: nat, text: seq<T>, p: nat)
    requires Written(d, d0, start, end, text, p) && p - start < |text| && p >= end
    ensures |text| > Room(start, end) && start + Room(start, end) <= |d0|
    ensures d == Overlay(d0, start, Cut(text, Room(start, end)))
  {
  }

  lemma WrittenAll<T>(d: seq<T>, d0: seq<T>, start: nat, end: nat, text: seq<T>, p: nat)
    requires Written(d, d0, start, end, text, p) && p - start == |text|
    ensures |text| <= Room(start, end) && d == Overlay(d0, start, Cut(text, Room(start, end)))
  {
    assert text[..|text|] == text;
  }

  lemma WrittenNothing<T>(d0: seq<T>, start: nat, end: nat, text: seq<T>)
    requires start <= |d0|
    ensures Written(d0, d0, start, end, text, start)
  {
  }

  method SetStrVal<T>(dst: array<T>, pdst: nat, end: nat, c: T, ghost d0: seq<T>, ghost start: nat, ghost text: seq<T>)
    returns (p: nat, ret: int)
    requires end <= dst.Length && Written(dst[..], d0, start, end, text, pdst)
    requires pdst - start < |text| && text[pdst - start] == c
    modifies dst
    ensures ret == if pdst < end then 0 else -ERANGE
    ensures ret == 0 ==> p == pdst + 1 && Written(dst[..], d0, start, end, text, p)
    ensures ret < 0 ==> |text| > Room(start, end) && start + Room(start, end) <= |d0|
                        && dst[..] == Overlay(d0, start, Cut(text, Room(start, end)))
  {
    hide Written, Room, Cut;
    if pdst < end {
      WrittenNext(dst[..], d0, start, end, text, pdst);
      assert dst[..][pdst := c] == dst[..pdst] + [c] + dst[pdst + 1..];
      dst[pdst] := c;
      return pdst + 1, 0;
    }
    WrittenFull(dst[..], d0, start, end, text, pdst);
    return pdst, -ERANGE;
  }

  /** The text still to be written starts with the next four characters, and a break if the line is full. */
  lemma NextQuad(src: seq<Byte>, width: int, line: int)
    requires src != []
    ensures var text, q, n := Armored(src, width, line), Quad(src), if width != 0 && line + 4 == width then 5 else 4;
            && |text| >= n && text[0] == q[0] && text[1] == q[1] && text[2] == q[2] && text[3] == q[3]
            && (n == 5 ==> text[4] == '\n')
            && text[n..] == Armored(Rest(src, 3), width, if n == 5 then 0 else line + 4)
  {
    hide Quad;
  }

  /** src[i..] is what is left to encode and starts at place p of the text. */
  ghost predicate Left(src: seq<Byte>, i: nat, width: int, line: int, text: string, at: nat) {
    i <= |src| && at <= |text| && text[at..] == Armored(src[i..], width, line)
  }

  lemma LeftNext(src: seq<Byte>, i: nat, width: int, line: int, text: string, at: nat)
    requires Left(src, i, width, line, text, at) && i < |src|
    ensures var q, n := Quad(src[i..]), if width != 0 && line + 4 == width then 5 else 4;
            && at + n <= |text| && text[at] == q[0] && text[at + 1] == q[1]
            && text[at + 2] == q[2] && text[at + 3] == q[3]
            && (n == 5 ==> text[at + 4] == '\n')
            && Left(src, if i + 3 < |src| then i + 3 else |src|, width, if n == 5 then 0 else line + 4, text, at + n)
  {
    hide Quad, Armored;
    NextQuad(src[i..], width, line);
    var n := if width != 0 && line + 4 == width then 5 else 4;
    var t := text[at..];
    assert t[0] == text[at] && t[1] == text[at + 1] && t[2] == text[at + 2] && t[3] == text[at + 3];
    assert t[n..] == text[at + n..];
    assert Rest(src[i..], 3) == src[if i + 3 < |src| then i + 3 else |src|..];
  }

  /** Either the whole text fits between the two pointers, and its length is returned, or the part that fits is written
      and -ERANGE returned; nothing else in the buffer changes. */
  method ArmorLineBreak(dst: array<char>, pdst: nat, dstEnd: nat, source: seq<Byte>, width: int) returns (r: int)
    requires pdst <= dst.Length && dstEnd <= dst.Length
    modifies dst
    ensures var text, room := Armored(source, width, 0), Room(pdst, dstEnd);
            && pdst + |Cut(text, room)| <= dst.Length
            && dst[..] == Overlay(old(dst[..]), pdst, Cut(text, room))
            && r == if |text| <= room then |text| else -ERANGE
    ensures r >= 0 || r == -34
  {
    hide Written, Armored, Left, Quad, Cut, Room;
    var olen, line, p, i, ret := 0, 0, pdst, 0, 0;
    ghost var d0, text := dst[..], Armored(source, width, 0);
    WrittenNothing(d0, pdst, dstEnd, text);
    LeftStart(source, width, text);
    while i < |source|
      invariant i <= |source| && p == pdst + olen && olen >= 0
      invariant Written(dst[..], d0, pdst, dstEnd, text, p)
      invariant Left(source, i, width, line, text, olen)
    {
      LeftNext(source, i, width, line, text, olen);
      QuadParts(source, i);
      var a := source[i];
      i := i + 1;
      p, ret := SetStrVal(dst, p, dstEnd, EncodeBits(First(a)), d0, pdst, text);
      if ret < 0 { return ret; }
      if i < |source| {
        var b := source[i];
        i := i + 1;
        p, ret := SetStrVal(dst, p, dstEnd, EncodeBits(Second(a, b)), d0, pdst, text);
        if ret < 0 { return ret; }
        if i < |source| {
          var c := source[i];
          i := i + 1;
          p, ret := SetStrVal(dst, p, dstEnd, EncodeBits(Third(b, c)), d0, pdst, text);
          if ret < 0 { return ret; }
          p, ret := SetStrVal(dst, p, dstEnd, EncodeBits(Fourth(c)), d0, pdst, text);
          if ret < 0 { return ret; }
        } else {
          p, ret := SetStrVal(dst, p, dstEnd, EncodeBits(Third(b, 0)), d0, pdst, text);
          if ret < 0 { return ret; }
          p, ret := SetStrVal(dst, p, dstEnd, '=', d0, pdst, text);
          if ret < 0 { return ret; }
        }
      } else {
        p, ret := SetStrVal(dst, p, dstEnd, EncodeBits(Second(a, 0)), d0, pdst, text);
        if ret < 0 { return ret; }
        p, ret := SetStrVal(dst, p, dstEnd, '=', d0, pdst, text);
        if ret < 0 { return ret; }
        p, ret := SetStrVal(dst, p, dstEnd, '=', d0, pdst, text);
        if ret < 0 { return ret; }
      }
      olen := olen + 4;
      line := line + 4;
      if width != 0 && line == width {
        line := 0;
        p, ret := SetStrVal(dst, p, dstEnd, '\n', d0, pdst, text);
        if ret < 0 { return ret; }
        olen := olen + 1;
      }
    }
    LeftNothing(source, width, line, text, olen);
    WrittenAll(dst[..], d0, pdst, dstEnd, text, p);
    return olen;
  }

  lemma LeftStart(src: seq<Byte>, width: int, text: string)
    requires text == Armored(src, width, 0)
    ensures Left(src, 0, width, 0, text, 0)
  {
    assert src[0..] == src && text[0..] == text;
  }

  lemma LeftNothing(src: seq<Byte>, width: int, line: int, text: string, at: nat)
    requires Left(src, |src|, width, line, text, at)
    ensures at == |text|
  {
    assert src[|src|..] == [];
  }

  lemma QuadParts(src: seq<Byte>, i: nat)
    requires i < |src|
    ensures var q, a := Quad(src[i..]), src[i];
            && q[0] == EncodeBits(First(a))
            && (if i + 2 < |src| then
                  q[1..] == [EncodeBits(Second(a, src[i + 1])), EncodeBits(Third(src[i + 1], src[i + 2])),
                             EncodeBits(Fourth(src[i + 2]))]
                else if i + 1 < |src| then
                  q[1..] == [EncodeBits(Second(a, src[i + 1])), EncodeBits(Third(src[i + 1], 0)), '=']
                else q[1..] == [EncodeBits(Second(a, 0)), '=', '='])
  {
  }

  method Armor(dst: array<char>, pdst: nat, dstEnd: nat, source: seq<Byte>) returns (r: int)
    requires pdst <= dst.Length && dstEnd <= dst.Length
    modifies dst
    ensures var text, room := Armored(source, 0, 0), Room(pdst, dstEnd);
            && pdst + |Cut(text, room)| <= dst.Length
            && dst[..] == Overlay(old(dst[..]), pdst, Cut(text, room))
            && r == if |text| <= room then |text| else -ERANGE
    ensures r >= 0 || r == -34
  {
    r := ArmorLineBreak(dst, pdst, dstEnd, source, 0);
  }

  /** s[i..] is what is left to decode, and its bytes start at place at of all the bytes. */
  ghost predicate ToDecode(s: string, i: nat, all: Decoding, at: nat) {
    i <= |s| && at <= |all.bytes| && Decoding(all.bytes[at..], all.valid) == Unarmored(s[i..])
  }

  /** What the next character or the next four say about the bytes still to be written. */
  lemma DecodeNext(s: string, i: nat, all: Decoding, at: nat)
    requires ToDecode(s, i, all, at) && i < |s|
    ensures s[i] == '\n' ==> ToDecode(s, i + 1, all, at)
    ensures s[i] != '\n' && i + 4 > |s| ==> at == |all.bytes| && !all.valid
    ensures s[i] != '\n' && i + 4 <= |s| ==>
              var (a, b, c, d) := (DecodeBits(s[i]), DecodeBits(s[i + 1]), DecodeBits(s[i + 2]), DecodeBits(s[i + 3]));
              var rest := all.bytes[at..];
              if a.None? || b.None? || c.None? || d.None? then rest == [] && !all.valid
              else if s[i + 2] == '=' then rest == [FirstByte(a.value, b.value)] && all.valid
              else if s[i + 3] == '=' then
                rest == [FirstByte(a.value, b.value), SecondByte(b.value, c.value)] && all.valid
              else
                && |rest| >= 3 && rest[..3] == [FirstByte(a.value, b.value), SecondByte(b.value, c.value),
                                                ThirdByte(c.value, d.value)]
                && ToDecode(s, i + 4, all, at + 3)
  {
    hide DecodeBits, FirstByte, SecondByte, ThirdByte;
    var t := s[i..];
    assert t[1..] == s[i + 1..];
    if t[0] != '\n' && |t| >= 4 {
      assert t[1] == s[i + 1] && t[2] == s[i + 2] && t[3] == s[i + 3] && t[4..] == s[i + 4..];
      var rest := all.bytes[at..];
      assert |rest| >= 3 ==> rest[3..] == all.bytes[at + 3..];
    }
  }

  /** The bytes up to the first padding are written as far as they fit; the result is -ERANGE if they do not fit, else
      -EINVAL if the text is malformed before any padding, else their number. Nothing else in the buffer changes. */
  method Unarmor(dst: array<Byte>, pdst: nat, dstEnd: nat, s: string) returns (r: int)
    requires pdst <= dst.Length && dstEnd <= dst.Length
    modifies dst
    ensures var all, room := Unarmored(s), Room(pdst, dstEnd);
            && pdst + |Cut(all.bytes, room)| <= dst.Length
            && dst[..] == Overlay(old(dst[..]), pdst, Cut(all.bytes, room))
            && r == if |all.bytes| > room then -ERANGE else if all.valid then |all.bytes| else -EINVAL
    ensures if |Unarmored(s).bytes| > Room(pdst, dstEnd) then r == -34 else r == -22 <==> !Unarmored(s).valid
  {
    hide Written, Unarmored, ToDecode, DecodeBits, FirstByte, SecondByte, ThirdByte, Cut, Room;
    var olen, p, i, ret := 0, pdst, 0, 0;
    ghost var d0, all := dst[..], Unarmored(s);
    WrittenNothing(d0, pdst, dstEnd, all.bytes);
    DecodeStart(s);
    while i < |s|
      invariant i <= |s| && p == pdst + olen && olen >= 0
      invariant Written(dst[..], d0, pdst, dstEnd, all.bytes, p)
      invariant ToDecode(s, i, all, olen)
    {
      DecodeNext(s, i, all, olen);
      AtMost(s, i, all, olen);
      ghost var rest := all.bytes[olen..];
      if s[i] == '\n' {
        i := i + 1;
        continue;
      }
      if i + 4 > |s| {
        WrittenAll(dst[..], d0, pdst, dstEnd, all.bytes, p);
        return -EINVAL;
      }
      var a, b, c, d := DecodeBits(s[i]), DecodeBits(s[i + 1]), DecodeBits(s[i + 2]), DecodeBits(s[i + 3]);
      if a.None? || b.None? || c.None? || d.None? {
        WrittenAll(dst[..], d0, pdst, dstEnd, all.bytes, p);
        return -EINVAL;
      }
      assert |rest| >= 1 && rest[0] == all.bytes[olen] == FirstByte(a.value, b.value);
      p, ret := SetStrVal(dst, p, dstEnd, FirstByte(a.value, b.value), d0, pdst, all.bytes);
      if ret < 0 { return ret; }
      if s[i + 2] == '=' {
        WrittenAll(dst[..], d0, pdst, dstEnd, all.bytes, p);
        return olen + 1;
      }
      assert |rest| >= 2 && rest[1] == all.bytes[olen + 1] == SecondByte(b.value, c.value);
      p, ret := SetStrVal(dst, p, dstEnd, SecondByte(b.value, c.value), d0, pdst, all.bytes);
      if ret < 0 { return ret; }
      if s[i + 3] == '=' {
        WrittenAll(dst[..], d0, pdst, dstEnd, all.bytes, p);
        return olen + 2;
      }
      assert |rest| >= 3 && rest[2] == all.bytes[olen + 2] == ThirdByte(c.value, d.value);
      p, ret := SetStrVal(dst, p, dstEnd, ThirdByte(c.value, d.value), d0, pdst, all.bytes);
      if ret < 0 { return ret; }
      olen := olen + 3;
      i := i + 4;
    }
    DecodeEnd(s, all, olen);
    WrittenAll(dst[..], d0, pdst, dstEnd, all.bytes, p);
    return olen;
  }

  lemma AtMost(s: string, i: nat, all: Decoding, at: nat)
    requires ToDecode(s, i, all, at)
    ensures at <= |all.bytes|
  {
  }

  lemma DecodeStart(s: string)
    ensures ToDecode(s, 0, Unarmored(s), 0)
  {
    assert s[0..] == s && Unarmored(s).bytes[0..] == Unarmored(s).bytes;
  }

  lemma DecodeEnd(s: string, all: Decoding, at: nat)
    requires ToDecode(s, |s|, all, at)
    ensures at == |all.bytes| && all.valid
  {
    assert s[|s|..] == "";
  }

  /** encode_base64 never sees an error of armor for lengths whose product by 4 does not wrap (EncodeCapacityEnough). */
  method EncodeBase64(source: seq<Byte>) returns (text: string)
    requires |source| < 0x4000_0000
    ensures text == Armored(source, 0, 0)
  {
    hide Armored, EncodeCapacity;
    LengthOfArmored(source, 0, 0);
    EncodeCapacityEnough(|source|);
    var bp := new char[EncodeCapacity(|source|)];
    var l := Armor(bp, 0, bp.Length, source);
    text := bp[..l];
  }

  /** decode_base64 throws exactly for the texts unarmor rejects as malformed: its buffer is always large enough. */
  method DecodeBase64(text: string) returns (r: Option<seq<Byte>>)
    requires 3 * |text| < 0x1_0000_0000
    ensures r == if Unarmored(text).valid then Some(Unarmored(text).bytes) else None
  {
    hide Unarmored, DecodeCapacity;
    DecodeCapacityEnough(text);
    var bp := new Byte[DecodeCapacity(|text|)](_ => 0);
    var l := Unarmor(bp, 0, bp.Length, text);
    if 0 > l {
      return None;
    }
    assert bp[..l] == Unarmored(text).bytes;
    return Some(bp[..l]);
  }
}
