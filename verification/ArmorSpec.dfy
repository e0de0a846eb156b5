/** Base64 text (RFC 4648, section 4): what armor writes, what unarmor reads, and that the one undoes the other. */
module ArmorSpec {
  import opened Options

  /** Shifts and masks of a byte are written as quotients and remainders, and an or of disjoint bits as a sum. */
  type Byte = x: int | 0 <= x < 256

  type Sextet = x: int | 0 <= x < 64

  const PEM_KEY := "ABCDEFGHIJKLMNOPQRSTUVWXYZ" + "abcdefghijklmnopqrstuvwxyz" + "0123456789" + "+/"

  function EncodeBits(c: Sextet): char {
    PEM_KEY[c]
  }

  /** The value of a character in either alphabet; the padding character counts as 0. */
  function DecodeBits(c: char): Option<Sextet> {
    if 'A' <= c <= 'Z' then Some(c as int - 'A' as int)
    else if 'a' <= c <= 'z' then Some(c as int - 'a' as int + 26)
    else if '0' <= c <= '9' then Some(c as int - '0' as int + 52)
    else if c == '+' || c == '-' then Some(62)
    else if c == '/' || c == '_' then Some(63)
    else if c == '=' then Some(0)
    else None
  }

  function First(a: Byte): Sextet {
    a / 4
  }

  function Second(a: Byte, b: Byte): Sextet {
    a % 4 * 16 + b / 16
  }

  function Third(b: Byte, c: Byte): Sextet {
    b % 16 * 4 + c / 64
  }

  function Fourth(c: Byte): Sextet {
    c % 64
  }

  /** The four characters for the next one, two or three bytes. */
  function Quad(src: seq<Byte>): (r: string)
    requires src != []
    ensures |r| == 4
  {
    var a := src[0];
    if |src| == 1 then
      [EncodeBits(First(a)), EncodeBits(Second(a, 0)), '=', '=']
    else if |src| == 2 then
      [EncodeBits(First(a)), EncodeBits(Second(a, src[1])), EncodeBits(Third(src[1], 0)), '=']
    else
      [EncodeBits(First(a)), EncodeBits(Second(a, src[1])),
       EncodeBits(Third(src[1], src[2])), EncodeBits(Fourth(src[2]))]
  }

  function Rest<T>(src: seq<T>, n: nat): seq<T> {
    if |src| <= n then [] else src[n..]
  }

  /** Everything armor_line_break writes, given room, when the current line already holds line characters. */
  function Armored(src: seq<Byte>, width: int, line: int): string
    decreases |src|
  {
    if src == [] then ""
    else if width != 0 && line + 4 == width then Quad(src) + "\n" + Armored(Rest(src, 3), width, 0)
    else Quad(src) + Armored(Rest(src, 3), width, line + 4)
  }

  /** The bytes unarmor writes, given room, and whether it accepts the text. */
  datatype Decoding = Decoding(bytes: seq<Byte>, valid: bool)

  function FirstByte(a: Sextet, b: Sextet): Byte {
    a * 4 + b / 16
  }

  function SecondByte(b: Sextet, c: Sextet): Byte {
    b % 16 * 16 + c / 4
  }

  function ThirdByte(c: Sextet, d: Sextet): Byte {
    c % 4 * 64 + d
  }

  function Unarmored(s: string): Decoding {
    if s == "" then Decoding([], true)
    else if s[0] == '\n' then Unarmored(s[1..])
    else if |s| < 4 then Decoding([], false)
    else
      match (DecodeBits(s[0]), DecodeBits(s[1]), DecodeBits(s[2]), DecodeBits(s[3]))
      case (Some(a), Some(b), Some(c), Some(d)) =>
        if s[2] == '=' then Decoding([FirstByte(a, b)], true)
        else if s[3] == '=' then Decoding([FirstByte(a, b), SecondByte(b, c)], true)
        else
          var rest := Unarmored(s[4..]);
          Decoding([FirstByte(a, b), SecondByte(b, c), ThirdByte(c, d)] + rest.bytes, rest.valid)
      case _ => Decoding([], false)
  }

  // ---- round trip ----

  /** Both alphabets agree with the key, which holds neither padding nor line breaks. */
  lemma DecodeEncode(c: Sextet)
    ensures DecodeBits(EncodeBits(c)) == Some(c) && EncodeBits(c) != '=' && EncodeBits(c) != '\n'
  {
    hide EncodeBits;
    if c < 26 {
      UpperKey(c);
    } else if c < 52 {
      LowerKey(c);
    } else if c < 62 {
      DigitKey(c);
    } else {
      SymbolKey();
    }
  }

  lemma UpperKey(k: int)
    requires 0 <= k < 26
    ensures EncodeBits(k) as int == 'A' as int + k
  {
  }

  lemma LowerKey(k: int)
    requires 26 <= k < 52
    ensures EncodeBits(k) as int == 'a' as int + k - 26
  {
  }

  lemma DigitKey(k: int)
    requires 52 <= k < 62
    ensures EncodeBits(k) as int == '0' as int + k - 52
  {
  }

  lemma SymbolKey()
    ensures EncodeBits(62) == '+' && EncodeBits(63) == '/'
  {
  }

  /** The bits of three bytes survive being regrouped. */
  lemma Regrouped(a: Byte, b: Byte, c: Byte)
    ensures FirstByte(First(a), Second(a, b)) == a
    ensures SecondByte(Second(a, b), Third(b, c)) == b
    ensures ThirdByte(Third(b, c), Fourth(c)) == c
  {
  }

  lemma QuadDecodes(src: seq<Byte>, tail: string)
    requires src != []
    ensures Unarmored(Quad(src) + tail)
            == if |src| < 3 then Decoding(src, true)
               else Decoding(src[..3] + Unarmored(tail).bytes, Unarmored(tail).valid)
  {
    hide EncodeBits, DecodeBits, First, Second, Third, Fourth, FirstByte, SecondByte, ThirdByte;
    var s := Quad(src) + tail;
    assert s[0] == Quad(src)[0] && s[1] == Quad(src)[1] && s[2] == Quad(src)[2] && s[3] == Quad(src)[3];
    assert s[4..] == tail;
    var a := src[0];
    var b := if |src| > 1 then src[1] else 0;
    var c := if |src| > 2 then src[2] else 0;
    DecodeEncode(First(a));
    DecodeEncode(Second(a, b));
    DecodeEncode(Third(b, c));
    DecodeEncode(Fourth(c));
    Regrouped(a, b, c);
    PaddingIsZero();
  }

  lemma PaddingIsZero()
    ensures DecodeBits('=') == Some(0)
  {
  }

  lemma SkipsBreak(s: string)
    ensures Unarmored("\n" + s) == Unarmored(s) && Unarmored("") == Decoding([], true)
  {
    assert ("\n" + s)[1..] == s;
  }

  function AfterQuad(src: seq<Byte>, width: int, line: int): string {
    if width != 0 && line + 4 == width then "\n" + Armored(Rest(src, 3), width, 0)
    else Armored(Rest(src, 3), width, line + 4)
  }

  lemma ArmoredNext(src: seq<Byte>, width: int, line: int)
    ensures src == [] ==> Armored(src, width, line) == ""
    ensures src != [] ==> Armored(src, width, line) == Quad(src) + AfterQuad(src, width, line)
  {
    hide Quad;
    if src != [] && width != 0 && line + 4 == width {
      var rest := Armored(Rest(src, 3), width, 0);
      assert Quad(src) + "\n" + rest == Quad(src) + ("\n" + rest);
    }
  }

  /** unarmor gives back exactly the bytes that armor_line_break was given, for every line width. */
  lemma {:induction false} RoundTrip(src: seq<Byte>, width: int, line: int)
    ensures Unarmored(Armored(src, width, line)) == Decoding(src, true)
    decreases |src|
  {
    hide Quad, Unarmored, Armored;
    SkipsBreak("");
    ArmoredNext(src, width, line);
    if src != [] {
      var rest := Rest(src, 3);
      RoundTrip(rest, width, if width != 0 && line + 4 == width then 0 else line + 4);
      SkipsBreak(Armored(rest, width, 0));
      QuadDecodes(src, AfterQuad(src, width, line));
      assert |src| >= 3 ==> src[..3] + rest == src;
    }
  }

  // ---- the text ----

  /** Read as numbers, the four sextets and the three bytes are the same. */
  lemma QuadValue(a: Byte, b: Byte, c: Byte)
    ensures 262144 * First(a) + 4096 * Second(a, b) + 64 * Third(b, c) + Fourth(c) == 65536 * a + 256 * b + c
  {
  }

  /** The character that stands for k (RFC 4648, table 1). */
  predicate StandsFor(c: char, k: int) {
    || (0 <= k < 26 && c as int == 65 + k)
    || (26 <= k < 52 && c as int == 97 + k - 26)
    || (52 <= k < 62 && c as int == 48 + k - 52)
    || (k == 62 && c == '+')
    || (k == 63 && c == '/')
  }

  lemma EncodedStandsFor(k: Sextet)
    ensures StandsFor(EncodeBits(k), k)
  {
    hide EncodeBits;
    if k < 26 {
      UpperKey(k);
    } else if k < 52 {
      LowerKey(k);
    } else if k < 62 {
      DigitKey(k);
    } else {
      SymbolKey();
    }
  }

  /** The 24 bits of three bytes from position i on, with zeros for those that do not exist. */
  function Bits(src: seq<Byte>, i: nat): int {
    65536 * ByteAt(src, i) + 256 * ByteAt(src, i + 1) + ByteAt(src, i + 2)
  }

  function ByteAt(src: seq<Byte>, i: nat): int {
    if i < |src| then src[i] else 0
  }

  /** The four characters for the bits of up to three bytes, n of them. */
  predicate SpellsBits(q: string, bits: int, n: nat) {
    && |q| == 4
    && StandsFor(q[0], bits / 262144)
    && StandsFor(q[1], bits / 4096 % 64)
    && (if n >= 2 then StandsFor(q[2], bits / 64 % 64) else q[2] == '=')
    && (if n >= 3 then StandsFor(q[3], bits % 64) else q[3] == '=')
  }

  lemma SextetsOfBits(w: Sextet, x: Sextet, y: Sextet, z: Sextet, bits: int)
    requires bits == 262144 * w + 4096 * x + 64 * y + z
    ensures bits / 262144 == w && bits / 4096 % 64 == x && bits / 64 % 64 == y && bits % 64 == z
  {
    assert bits / 4096 == 64 * w + x;
    assert bits / 64 == 4096 * w + 64 * x + y;
  }

  lemma QuadSpells(src: seq<Byte>)
    requires src != []
    ensures SpellsBits(Quad(src), Bits(src, 0), |src|)
  {
    hide EncodeBits, First, Second, Third, Fourth, StandsFor;
    var a := src[0];
    var b := if |src| > 1 then src[1] else 0;
    var c := if |src| > 2 then src[2] else 0;
    QuadValue(a, b, c);
    SextetsOfBits(First(a), Second(a, b), Third(b, c), Fourth(c), Bits(src, 0));
    EncodedStandsFor(First(a));
    EncodedStandsFor(Second(a, b));
    EncodedStandsFor(Third(b, c));
    EncodedStandsFor(Fourth(c));
  }

  /** Every character of the text: those at 4j to 4j + 3 spell the 24 bits of the three bytes from 3j on, with zeros and
      padding for the bytes that do not exist. */
  lemma {:induction false} CharactersOfArmored(src: seq<Byte>, line: int, j: nat)
    requires 3 * j < |src|
    ensures 4 * j + 4 <= |Armored(src, 0, line)|
    ensures SpellsBits(Armored(src, 0, line)[4 * j..4 * j + 4], Bits(src, 3 * j), |src| - 3 * j)
    decreases j
  {
    hide Quad, SpellsBits, Bits;
    var text, rest := Armored(src, 0, line), Armored(Rest(src, 3), 0, line + 4);
    assert text == Quad(src) + rest;
    if j == 0 {
      QuadSpells(src);
      assert text[0..4] == Quad(src);
    } else {
      CharactersOfArmored(Rest(src, 3), line + 4, j - 1);
      assert text[4 * j..4 * j + 4] == rest[4 * (j - 1)..4 * (j - 1) + 4];
      BitsOfRest(src, j);
    }
  }

  lemma BitsOfRest(src: seq<Byte>, j: nat)
    requires 0 < j && 3 * j < |src|
    ensures Bits(Rest(src, 3), 3 * (j - 1)) == Bits(src, 3 * j)
  {
  }

  predicate Breaks(width: int) {
    width > 0 && width % 4 == 0
  }

  /** What armor_line_break keeps true of its line counter. */
  predicate LineFits(width: int, line: int) {
    line >= 0 && line % 4 == 0 && (Breaks(width) ==> line + 4 <= width)
  }

  function Quads(n: nat): nat {
    (n + 2) / 3
  }

  function ArmoredLength(n: nat, width: int, line: int): int {
    4 * Quads(n) + if Breaks(width) then (line + 4 * Quads(n)) / width else 0
  }

  lemma Quotient(x: int, d: int, q: int, r: int)
    requires 0 <= r < d && x == d * q + r
    ensures x / d == q && x % d == r
  {
    var q', r' := x / d, x % d;
    Multiple(d, q - q', r' - r);
  }

  lemma AtLeast(d: nat, n: nat)
    requires n >= 1
    ensures d * n >= d
  {
  }

  lemma Multiple(d: int, n: int, r: int)
    requires d > 0 && d * n == r && -d < r < d
    ensures n == 0
  {
    if n > 0 {
      AtLeast(d, n);
    } else if n < 0 {
      AtLeast(d, -n);
      Negated(d, n);
    }
  }

  lemma Negated(d: int, n: int)
    ensures d * -n == -(d * n)
  {
  }

  lemma DivideOnce(x: int, d: int)
    requires d > 0
    ensures (x + d) / d == x / d + 1 && (x + d) % d == x % d
    ensures 0 <= x < d ==> x / d == 0 && x % d == x
  {
    Quotient(x + d, d, x / d + 1, x % d);
    if 0 <= x < d {
      Quotient(x, d, 0, x);
    }
  }

  lemma QuadsStep(n: nat)
    requires n > 0
    ensures Quads(n) == Quads(if n < 3 then 0 else n - 3) + 1
  {
  }

  /** The length of the text: four characters for every three bytes or part of them, and the line breaks. */
  lemma {:induction false} LengthOfArmored(src: seq<Byte>, width: int, line: int)
    requires LineFits(width, line)
    ensures |Armored(src, width, line)| == ArmoredLength(|src|, width, line)
    decreases |src|
  {
    hide Quad, Quads, Armored;
    ArmoredNext(src, width, line);
    if src == [] {
      QuadsOfNothing();
      if Breaks(width) {
        DivideOnce(line, width);
      }
    } else {
      QuadsStep(|src|);
      var broken := width != 0 && line + 4 == width;
      LengthOfArmored(Rest(src, 3), width, if broken then 0 else line + 4);
      LengthsAdd(Quads(|Rest(src, 3)|), width, line);
    }
  }

  /** The line breaks before and after one group. */
  lemma LengthsAdd(rest: nat, width: int, line: int)
    requires LineFits(width, line)
    ensures Breaks(width) ==>
              (line + 4 * (rest + 1)) / width
              == if line + 4 == width then 1 + (0 + 4 * rest) / width else (line + 4 + 4 * rest) / width
  {
    if Breaks(width) && line + 4 == width {
      DivideOnce(4 * rest, width);
    }
  }

  lemma QuadsOfNothing()
    ensures Quads(0) == 0
  {
  }

  lemma QuadHasNoBreak(src: seq<Byte>, k: nat)
    requires src != [] && k < 4
    ensures Quad(src)[k] != '\n'
  {
    hide EncodeBits, DecodeBits, First, Second, Third, Fourth;
    var b := if |src| > 1 then src[1] else 0;
    var c := if |src| > 2 then src[2] else 0;
    DecodeEncode(First(src[0]));
    DecodeEncode(Second(src[0], b));
    DecodeEncode(Third(b, c));
    DecodeEncode(Fourth(c));
  }

  predicate EndsLine(width: int, column: int) {
    Breaks(width) && column % (width + 1) == width
  }

  lemma ColumnInLine(width: int, column: nat)
    requires Breaks(width) ==> column < width
    ensures !EndsLine(width, column)
  {
    if Breaks(width) {
      DivideOnce(column, width + 1);
    }
  }

  lemma ColumnAfterBreak(width: int, column: nat)
    requires Breaks(width)
    ensures EndsLine(width, width)
    ensures EndsLine(width, width + 1 + column) <==> EndsLine(width, column)
  {
    DivideOnce(width, width + 1);
    DivideOnce(column, width + 1);
  }

  /** Lines end after exactly width characters, if width is a positive multiple of 4, and otherwise never. */
  lemma {:induction false} BreaksInArmored(src: seq<Byte>, width: int, line: int, i: nat)
    requires LineFits(width, line) && i < |Armored(src, width, line)|
    ensures Armored(src, width, line)[i] == '\n' <==> EndsLine(width, line + i)
    decreases |src|
  {
    hide Quad, EndsLine;
    var broken := width != 0 && line + 4 == width;
    if i < 4 {
      QuadHasNoBreak(src, i);
      ColumnInLine(width, line + i);
    } else if !broken {
      BreaksInArmored(Rest(src, 3), width, line + 4, i - 4);
    } else {
      ColumnAfterBreak(width, if i > 4 then i - 5 else 0);
      if i > 4 {
        BreaksInArmored(Rest(src, 3), width, 0, i - 5);
      }
    }
  }

  function Unbroken(s: string): string {
    if s == "" then "" else (if s[0] == '\n' then "" else [s[0]]) + Unbroken(s[1..])
  }

  lemma UnbrokenQuad(src: seq<Byte>, tail: string)
    requires src != []
    ensures Unbroken(Quad(src) + tail) == Quad(src) + Unbroken(tail)
  {
    hide Quad, Unbroken;
    var s := Quad(src);
    QuadHasNoBreak(src, 0);
    QuadHasNoBreak(src, 1);
    QuadHasNoBreak(src, 2);
    QuadHasNoBreak(src, 3);
    UnbrokenOne(s[0], s[1..] + tail);
    UnbrokenOne(s[1], s[2..] + tail);
    UnbrokenOne(s[2], s[3..] + tail);
    UnbrokenOne(s[3], tail);
    assert s + tail == [s[0]] + (s[1..] + tail);
    assert s[1..] + tail == [s[1]] + (s[2..] + tail);
    assert s[2..] + tail == [s[2]] + (s[3..] + tail);
    assert s[3..] + tail == [s[3]] + tail;
  }

  lemma UnbrokenBreak(tail: string)
    ensures Unbroken("\n" + tail) == Unbroken(tail)
  {
    assert ("\n" + tail)[1..] == tail;
  }

  lemma UnbrokenOne(c: char, tail: string)
    requires c != '\n'
    ensures Unbroken([c] + tail) == [c] + Unbroken(tail)
  {
    assert ([c] + tail)[1..] == tail;
  }

  /** Apart from the line breaks the text does not depend on the width. */
  lemma {:induction false} BreaksOnlyAdded(src: seq<Byte>, width: int, line: int, line0: int)
    ensures Unbroken(Armored(src, width, line)) == Armored(src, 0, line0)
    decreases |src|
  {
    hide Quad;
    if src != [] {
      var rest := Rest(src, 3);
      var broken := width != 0 && line + 4 == width;
      var text := Armored(rest, width, if broken then 0 else line + 4);
      BreaksOnlyAdded(rest, width, if broken then 0 else line + 4, line0 + 4);
      UnbrokenQuad(src, text);
      UnbrokenQuad(src, "\n" + text);
      UnbrokenBreak(text);
      assert Quad(src) + "\n" + text == Quad(src) + ("\n" + text);
    }
  }

  // ---- the other way round ----

  predicate IsStandard(c: char) {
    c != '=' && c != '-' && c != '_' && DecodeBits(c).Some?
  }

  lemma EncodeDecode(c: char)
    requires IsStandard(c)
    ensures DecodeBits(c).Some? && EncodeBits(DecodeBits(c).value) == c && c != '\n' && c != '='
  {
    hide EncodeBits;
    if c <= '/' {
      SymbolKey();
    } else if c <= '9' {
      DigitKey(c as int - '0' as int + 52);
    } else if c <= 'Z' {
      UpperKey(c as int - 'A' as int);
    } else {
      LowerKey(c as int - 'a' as int + 26);
    }
  }

  /** The sextets of four characters survive being regrouped into bytes. */
  lemma RegroupedBack(a: Sextet, b: Sextet, c: Sextet, d: Sextet)
    ensures var (x, y, z) := (FirstByte(a, b), SecondByte(b, c), ThirdByte(c, d));
            First(x) == a && Second(x, y) == b && Third(y, z) == c && Fourth(z) == d
  {
  }

  lemma StandardQuad(s: string)
    requires |s| >= 4 && forall i :: 0 <= i < 4 ==> IsStandard(s[i])
    ensures var all, rest := Unarmored(s), Unarmored(s[4..]);
            && |all.bytes| == 3 + |rest.bytes| && all.bytes[3..] == rest.bytes && all.valid == rest.valid
            && Quad(all.bytes) == s[..4]
  {
    hide IsStandard, DecodeBits, EncodeBits, First, Second, Third, Fourth, FirstByte, SecondByte, ThirdByte;
    EncodeDecode(s[0]);
    EncodeDecode(s[1]);
    EncodeDecode(s[2]);
    EncodeDecode(s[3]);
    var a, b, c, d := DecodeBits(s[0]).value, DecodeBits(s[1]).value, DecodeBits(s[2]).value, DecodeBits(s[3]).value;
    RegroupedBack(a, b, c, d);
    var three := [FirstByte(a, b), SecondByte(b, c), ThirdByte(c, d)];
    assert Unarmored(s).bytes == three + Unarmored(s[4..]).bytes;
  }

  /** A text of whole groups in the standard alphabet, without padding, is accepted, and is the text of its bytes. */
  lemma {:induction false} TextRoundTrip(s: string, line: int)
    requires |s| % 4 == 0 && forall i :: 0 <= i < |s| ==> IsStandard(s[i])
    ensures Unarmored(s).valid && Armored(Unarmored(s).bytes, 0, line) == s
    decreases |s|
  {
    hide Quad, IsStandard, DecodeBits;
    if s != "" {
      StandardQuad(s);
      hide Unarmored;
      TextRoundTrip(s[4..], line + 4);
      assert s == s[..4] + s[4..];
    }
  }

  /** Without line breaks and padding, exactly the texts of whole groups in the two alphabets are accepted. */
  lemma {:induction false} PlainTextAccepted(s: string)
    requires forall i :: 0 <= i < |s| ==> s[i] != '\n' && s[i] != '='
    ensures Unarmored(s).valid <==> |s| % 4 == 0 && forall i :: 0 <= i < |s| ==> DecodeBits(s[i]).Some?
    decreases |s|
  {
    hide DecodeBits, FirstByte, SecondByte, ThirdByte;
    if |s| >= 4 {
      PlainTextAccepted(s[4..]);
      assert forall i :: 4 <= i < |s| ==> s[i] == s[4..][i - 4];
    }
  }

  // ---- exactly what unarmor accepts ----

  predicate IsGroup(t: string) {
    |t| == 4 && forall i :: 0 <= i < 4 ==> DecodeBits(t[i]).Some?
  }

  /** A line break, or a group of four characters without padding in the last two places. */
  predicate IsPiece(t: string) {
    t == "\n" || (IsGroup(t) && t[2] != '=' && t[3] != '=')
  }

  predicate IsPadded(t: string) {
    IsGroup(t) && (t[2] == '=' || t[3] == '=')
  }

  function GroupBytes(t: string): (r: seq<Byte>)
    requires IsGroup(t)
    ensures |r| == 3
  {
    var (a, b) := (DecodeBits(t[0]).value, DecodeBits(t[1]).value);
    var (c, d) := (DecodeBits(t[2]).value, DecodeBits(t[3]).value);
    [FirstByte(a, b), SecondByte(b, c), ThirdByte(c, d)]
  }

  function Joined(pieces: seq<string>): string {
    if pieces == [] then "" else pieces[0] + Joined(pieces[1..])
  }

  predicate ArePieces(pieces: seq<string>) {
    forall i :: 0 <= i < |pieces| ==> IsPiece(pieces[i])
  }

  function BytesOf(pieces: seq<string>): seq<Byte>
    requires ArePieces(pieces)
  {
    if pieces == [] then []
    else (if pieces[0] == "\n" then [] else GroupBytes(pieces[0])) + BytesOf(pieces[1..])
  }

  /** The text is a sequence of line breaks and whole groups, followed by nothing, or by one padded group and then
      anything at all; its bytes are those of the groups, of a padded one the first one or two. */
  predicate Spells(s: string, bytes: seq<Byte>, pieces: seq<string>, last: string, ignored: string) {
    && ArePieces(pieces) && s == Joined(pieces) + last + ignored
    && if last == "" then ignored == "" && bytes == BytesOf(pieces)
       else IsPadded(last) && bytes == BytesOf(pieces) + GroupBytes(last)[..if last[2] == '=' then 1 else 2]
  }

  lemma OnePiece(t: string, rest: string)
    requires IsPiece(t)
    ensures var more := Unarmored(rest);
            Unarmored(t + rest) == Decoding((if t == "\n" then [] else GroupBytes(t)) + more.bytes, more.valid)
  {
    hide DecodeBits, FirstByte, SecondByte, ThirdByte;
    if t == "\n" {
      assert (t + rest)[1..] == rest;
    } else {
      BreakIsNoDigit();
      assert (t + rest)[4..] == rest;
    }
  }

  lemma BreakIsNoDigit()
    ensures DecodeBits('\n').None?
  {
  }

  lemma PaddedPiece(t: string, rest: string)
    requires IsPadded(t)
    ensures Unarmored(t + rest) == Decoding(GroupBytes(t)[..if t[2] == '=' then 1 else 2], true)
  {
    hide DecodeBits, FirstByte, SecondByte, ThirdByte;
    BreakIsNoDigit();
    var s := t + rest;
    assert s[0] == t[0] && s[1] == t[1] && s[2] == t[2] && s[3] == t[3];
  }

  lemma Grouped<T>(a: seq<T>, b: seq<T>, c: seq<T>)
    ensures a + b + c == a + (b + c)
  {
  }

  lemma {:induction false} PiecesRead(pieces: seq<string>, rest: string)
    requires ArePieces(pieces)
    ensures var more := Unarmored(rest);
            Unarmored(Joined(pieces) + rest) == Decoding(BytesOf(pieces) + more.bytes, more.valid)
  {
    hide Unarmored, IsGroup, GroupBytes;
    if pieces == [] {
      assert Joined(pieces) + rest == rest;
    } else {
      PiecesRead(pieces[1..], rest);
      OnePiece(pieces[0], Joined(pieces[1..]) + rest);
      Grouped(pieces[0], Joined(pieces[1..]), rest);
      var first := if pieces[0] == "\n" then [] else GroupBytes(pieces[0]);
      Grouped(first, BytesOf(pieces[1..]), Unarmored(rest).bytes);
    }
  }

  /** Put one more piece in front. */
  lemma SpellsMore(t: string, s: string, bytes: seq<Byte>, pieces: seq<string>, last: string, ignored: string)
    requires IsPiece(t) && Spells(s, bytes, pieces, last, ignored)
    ensures Spells(t + s, (if t == "\n" then [] else GroupBytes(t)) + bytes, [t] + pieces, last, ignored)
  {
    hide IsPiece, IsPadded, GroupBytes;
    assert ([t] + pieces)[1..] == pieces;
    assert t + (Joined(pieces) + last + ignored) == Joined([t] + pieces) + last + ignored;
  }

  lemma {:induction false} Parse(s: string) returns (pieces: seq<string>, last: string, ignored: string)
    requires Unarmored(s).valid
    ensures Spells(s, Unarmored(s).bytes, pieces, last, ignored)
    decreases |s|
  {
    hide DecodeBits, FirstByte, SecondByte, ThirdByte;
    if s == "" {
      return [], "", "";
    }
    var n := if s[0] == '\n' then 1 else 4;
    var t, rest := s[..n], s[n..];
    assert s == t + rest;
    if n == 4 && (s[2] == '=' || s[3] == '=') {
      PaddedPiece(t, rest);
      return [], t, rest;
    }
    OnePiece(t, rest);
    pieces, last, ignored := Parse(rest);
    SpellsMore(t, rest, Unarmored(rest).bytes, pieces, last, ignored);
    pieces := [t] + pieces;
  }

  /** unarmor accepts a text, and writes certain bytes, if and only if the text spells these bytes. */
  lemma AcceptedExactly(s: string, bytes: seq<Byte>)
    ensures Unarmored(s) == Decoding(bytes, true)
            <==> exists pieces, last, ignored :: Spells(s, bytes, pieces, last, ignored)
  {
    hide Unarmored, Spells;
    if Unarmored(s) == Decoding(bytes, true) {
      var pieces, last, ignored := Parse(s);
    }
    forall pieces, last, ignored | Spells(s, bytes, pieces, last, ignored)
      ensures Unarmored(s) == Decoding(bytes, true)
    {
      SpellingRead(s, bytes, pieces, last, ignored);
    }
  }

  lemma SpellingRead(s: string, bytes: seq<Byte>, pieces: seq<string>, last: string, ignored: string)
    requires Spells(s, bytes, pieces, last, ignored)
    ensures Unarmored(s) == Decoding(bytes, true)
  {
    hide Unarmored, IsPadded, GroupBytes, BytesOf, Joined;
    PiecesRead(pieces, last + ignored);
    assert s == Joined(pieces) + (last + ignored);
    if last == "" {
      SkipsBreak("");
      assert BytesOf(pieces) + [] == BytesOf(pieces);
    } else {
      PaddedPiece(last, ignored);
    }
  }

  /** The text is a sequence of line breaks and whole groups, followed by something that begins with neither; the bytes
      are those of the groups. */
  predicate Malformed(s: string, bytes: seq<Byte>, pieces: seq<string>, rest: string) {
    && ArePieces(pieces) && s == Joined(pieces) + rest && bytes == BytesOf(pieces)
    && rest != "" && rest[0] != '\n' && (|rest| < 4 || !IsGroup(rest[..4]))
  }

  lemma MalformedRest(rest: string)
    requires rest != "" && rest[0] != '\n'
    ensures Unarmored(rest) == Decoding([], false) <==> |rest| < 4 || !IsGroup(rest[..4])
  {
    hide DecodeBits, FirstByte, SecondByte, ThirdByte, IsGroup;
    if |rest| >= 4 {
      GroupInFront(rest);
    }
  }

  lemma GroupInFront(s: string)
    requires |s| >= 4
    ensures IsGroup(s[..4]) <==> DecodeBits(s[0]).Some? && DecodeBits(s[1]).Some? && DecodeBits(s[2]).Some?
                                 && DecodeBits(s[3]).Some?
  {
    hide DecodeBits;
    var t := s[..4];
    assert t[0] == s[0] && t[1] == s[1] && t[2] == s[2] && t[3] == s[3];
  }

  lemma MalformedMore(t: string, s: string, bytes: seq<Byte>, pieces: seq<string>, rest: string)
    requires IsPiece(t) && Malformed(s, bytes, pieces, rest)
    ensures Malformed(t + s, (if t == "\n" then [] else GroupBytes(t)) + bytes, [t] + pieces, rest)
  {
    hide IsPiece, GroupBytes, IsGroup;
    assert ([t] + pieces)[1..] == pieces;
    assert t + (Joined(pieces) + rest) == Joined([t] + pieces) + rest;
  }

  lemma {:induction false} ParseMalformed(s: string) returns (pieces: seq<string>, rest: string)
    requires !Unarmored(s).valid
    ensures Malformed(s, Unarmored(s).bytes, pieces, rest)
    decreases |s|
  {
    hide DecodeBits, FirstByte, SecondByte, ThirdByte, GroupBytes;
    MalformedRestOf(s);
    if s[0] != '\n' && (|s| < 4 || !IsGroup(s[..4])) {
      assert Joined([]) + s == s;
      return [], s;
    }
    var n := if s[0] == '\n' then 1 else 4;
    var t, more := s[..n], s[n..];
    assert s == t + more;
    if n == 4 && (s[2] == '=' || s[3] == '=') {
      PaddedPiece(t, more);
      assert false;
    }
    OnePiece(t, more);
    pieces, rest := ParseMalformed(more);
    MalformedMore(t, more, Unarmored(more).bytes, pieces, rest);
    pieces := [t] + pieces;
  }

  lemma MalformedRestOf(s: string)
    requires !Unarmored(s).valid
    ensures s != "" && (s[0] != '\n' && (|s| < 4 || !IsGroup(s[..4])) ==> Unarmored(s) == Decoding([], false))
  {
    if s != "" && s[0] != '\n' {
      MalformedRest(s);
    }
  }

  /** unarmor reports a text as malformed, after it has written certain bytes, if and only if the text begins with
      groups of these bytes and is malformed after them. */
  lemma RejectedExactly(s: string, bytes: seq<Byte>)
    ensures Unarmored(s) == Decoding(bytes, false) <==> exists pieces, rest :: Malformed(s, bytes, pieces, rest)
  {
    hide Unarmored, IsGroup;
    if Unarmored(s) == Decoding(bytes, false) {
      var pieces, rest := ParseMalformed(s);
    }
    forall pieces, rest | Malformed(s, bytes, pieces, rest)
      ensures Unarmored(s) == Decoding(bytes, false)
    {
      MalformedRest(rest);
      PiecesRead(pieces, rest);
      assert BytesOf(pieces) + [] == BytesOf(pieces);
    }
  }

  // ---- the other alphabet (section 5) ----

  function UrlSafe(c: char): char {
    if c == '+' then '-' else if c == '/' then '_' else c
  }

  function UrlText(s: string): (r: string)
    ensures |r| == |s| && forall i :: 0 <= i < |s| ==> r[i] == UrlSafe(s[i])
  {
    seq(|s|, i requires 0 <= i < |s| => UrlSafe(s[i]))
  }

  lemma UrlCharDecodes(c: char)
    ensures DecodeBits(UrlSafe(c)) == DecodeBits(c)
    ensures (UrlSafe(c) == '=' <==> c == '=') && (UrlSafe(c) == '\n' <==> c == '\n')
  {
  }

  /** unarmor reads the URL-safe spelling of a text as it reads the text itself. */
  lemma {:induction false} UrlTextDecodes(s: string)
    ensures Unarmored(UrlText(s)) == Unarmored(s)
    decreases |s|
  {
    hide DecodeBits, UrlSafe;
    var u := UrlText(s);
    if s != "" {
      UrlCharDecodes(s[0]);
      if s[0] == '\n' {
        UrlTextDecodes(s[1..]);
        assert u[1..] == UrlText(s[1..]);
      } else if |s| >= 4 {
        UrlCharDecodes(s[1]);
        UrlCharDecodes(s[2]);
        UrlCharDecodes(s[3]);
        UrlTextDecodes(s[4..]);
        assert u[4..] == UrlText(s[4..]);
      }
    }
  }

  // ---- the sizes the buffers of encode_base64 and decode_base64 are given ----

  /** Three bytes at most for every four characters. */
  lemma {:induction false} UnarmoredLength(s: string)
    ensures 4 * |Unarmored(s).bytes| <= 3 * |s|
    decreases |s|
  {
    hide DecodeBits, FirstByte, SecondByte, ThirdByte;
    if s != "" {
      if s[0] == '\n' {
        UnarmoredLength(s[1..]);
      } else if |s| >= 4 {
        UnarmoredLength(s[4..]);
      }
    }
  }

  /** The size encode_base64 gives its buffer, in 32-bit unsigned arithmetic. */
  function EncodeCapacity(n: nat): nat {
    (4 * n % 0x1_0000_0000) / 3 + 3
  }

  /** It is enough for the text exactly for fewer than 2^30 bytes, where the product does not wrap. */
  lemma EncodeCapacityEnough(n: nat)
    requires n < 0x1_0000_0000
    ensures ArmoredLength(n, 0, 0) <= EncodeCapacity(n) <==> n < 0x4000_0000
  {
  }

  function DecodeCapacity(n: nat): nat {
    4 + (n * 3 % 0x1_0000_0000) / 4
  }

  lemma DecodeCapacityEnough(s: string)
    requires 3 * |s| < 0x1_0000_0000
    ensures |Unarmored(s).bytes| <= DecodeCapacity(|s|)
  {
    hide Unarmored;
    UnarmoredLength(s);
  }

  function LetterAs(n: nat): (s: string)
    ensures |s| == n && forall i :: 0 <= i < n ==> s[i] == 'A'
  {
    seq(n, _ => 'A')
  }

  lemma {:induction false} LetterAsLength(n: nat)
    ensures |Unarmored(LetterAs(n)).bytes| == 3 * (n / 4)
  {
    hide Unarmored, GroupBytes, IsPiece;
    if n < 4 {
      LettersAlone(LetterAs(n));
    } else {
      LetterAsGroup();
      LetterAsLength(n - 4);
      OnePiece(LetterAs(4), LetterAs(n - 4));
      assert LetterAs(n) == LetterAs(4) + LetterAs(n - 4);
    }
  }

  lemma LettersAlone(s: string)
    requires |s| < 4 && forall i :: 0 <= i < |s| ==> s[i] == 'A'
    ensures Unarmored(s).bytes == []
  {
  }

  lemma LetterAsGroup()
    ensures IsPiece(LetterAs(4)) && LetterAs(4) != "\n" && IsGroup(LetterAs(4))
  {
    assert DecodeBits('A').Some?;
  }

  /** It is enough for all texts of a length exactly if three times the length does not wrap. */
  lemma DecodeCapacityExactly(n: nat)
    requires n < 0x1_0000_0000
    ensures (forall s: string :: |s| == n ==> |Unarmored(s).bytes| <= DecodeCapacity(n)) <==> 3 * n < 0x1_0000_0000
  {
    hide Unarmored;
    if 3 * n < 0x1_0000_0000 {
      forall s: string | |s| == n
        ensures |Unarmored(s).bytes| <= DecodeCapacity(n)
      {
        DecodeCapacityEnough(s);
      }
    } else {
      LetterAsLength(n);
      assert |LetterAs(n)| == n;
    }
  }
}
