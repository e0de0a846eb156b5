/** Strict and SI-suffixed integers (strtol.cpp): which texts are accepted, and with which value. */
module StrictSi {
  import opened Arithmetic

  const LLONG_MIN := -0x8000_0000_0000_0000
  const LLONG_MAX := 0x7FFF_FFFF_FFFF_FFFF
  const INT_MIN := -0x8000_0000
  const INT_MAX := 0x7FFF_FFFF

  /** The error text, where the source leaves it empty for success. */
  datatype Err = NoError | Invalid | Expected | NotSpecified | Negative | PrefixTooLarge | TooSmall | TooLarge

  // ---- what a number is ----

  predicate IsSpace(c: char) {
    c == ' ' || '\t' <= c <= '\r'
  }

  /** The value of a digit, in either case; 36 for any other character. */
  function DigitValue(c: char): (v: nat)
    ensures v <= 36 && (v < 36 ==> !IsSpace(c) && c != '+' && c != '-')
  {
    if '0' <= c <= '9' then c as int - '0' as int
    else if 'a' <= c <= 'z' then c as int - 'a' as int + 10
    else if 'A' <= c <= 'Z' then c as int - 'A' as int + 10
    else 36
  }

  predicate IsDigit(c: char, base: nat) {
    DigitValue(c) < base
  }

  predicate AllSpaces(s: string) {
    forall i :: 0 <= i < |s| ==> IsSpace(s[i])
  }

  predicate AllDigits(s: string, base: nat) {
    forall i :: 0 <= i < |s| ==> IsDigit(s[i], base)
  }

  function Value(d: string, base: nat): nat
    requires AllDigits(d, base)
  {
    if d == "" then 0 else base * Value(d[..|d| - 1], base) + DigitValue(d[|d| - 1])
  }

  function Signed(sign: string, v: nat): int {
    if sign == "-" then -(v as int) else v
  }

  /** The prefix and the digits d of a number given in a base, and the base that counts: 16 with its prefix, and for
      base 0 the one that the prefix or the first digit shows. */
  predicate Form(base: int, prefix: string, d: string, counts: nat) {
    || ((prefix == "0x" || prefix == "0X") && (base == 0 || base == 16) && counts == 16)
    || (prefix == "" && 2 <= base <= 36 && counts == base)
    || (prefix == "" && base == 0 && d != "" && counts == if d[0] == '0' then 8 else 10)
  }

  datatype Spelling = Spelling(w: string, sign: string, prefix: string, d: string, counts: nat)

  predicate Spelled(s: string, base: int, p: Spelling) {
    && s == p.w + p.sign + p.prefix + p.d && AllSpaces(p.w) && (p.sign == "" || p.sign == "+" || p.sign == "-")
    && p.counts <= 36 && p.d != "" && AllDigits(p.d, p.counts) && Form(base, p.prefix, p.d, p.counts)
  }

  /** s is white space, a sign or none, a prefix or none, and digits, with value v. */
  ghost predicate Denotes(s: string, base: int, v: int) {
    exists p :: Spelled(s, base, p) && v == Signed(p.sign, Value(p.d, p.counts))
  }

  // ---- strtoll ----

  function Spaces(s: string): (n: nat)
    ensures n <= |s| && AllSpaces(s[..n])
  {
    if s == "" || !IsSpace(s[0]) then 0 else
      assert s[..1 + Spaces(s[1..])] == [s[0]] + s[1..][..Spaces(s[1..])];
      1 + Spaces(s[1..])
  }

  function Digits(s: string, base: nat): (n: nat)
    ensures n <= |s| && AllDigits(s[..n], base)
  {
    if s == "" || !IsDigit(s[0], base) then 0 else
      assert s[..1 + Digits(s[1..], base)] == [s[0]] + s[1..][..Digits(s[1..], base)];
      1 + Digits(s[1..], base)
  }

  datatype Errno = NoErrno | ERANGE | EINVAL

  /** The value, cut to the range of a long long, the end of the number, and errno: ERANGE if the value was cut, EINVAL
      for a base that does not exist. */
  datatype Strto = Strto(value: int, end: nat, errno: Errno)

  function Clamp(v: int): int {
    if v < LLONG_MIN then LLONG_MIN else if v > LLONG_MAX then LLONG_MAX else v
  }

  function Ranged(v: int, end: nat): Strto {
    Strto(Clamp(v), end, if Clamp(v) == v then NoErrno else ERANGE)
  }

  function SignOf(s: string): string {
    if s != "" && (s[0] == '-' || s[0] == '+') then s[..1] else ""
  }

  /** A hexadecimal prefix counts only in front of a hexadecimal digit. */
  function PrefixOf(s: string, base: int): string {
    if (base == 0 || base == 16) && |s| >= 3 && s[0] == '0' && (s[1] == 'x' || s[1] == 'X') && IsDigit(s[2], 16)
    then s[..2] else ""
  }

  function BaseOf(s: string, base: int): (b: nat)
    requires base == 0 || 2 <= base <= 36
    ensures b <= 36
  {
    if PrefixOf(s, base) != "" then 16
    else if base != 0 then base
    else if s != "" && s[0] == '0' then 8
    else 10
  }

  /** The value of the digits at the start of a text, after a prefix, and the length of both; 0 if there are none. */
  function Magnitude(t: string, base: int): (r: (nat, nat))
    requires base == 0 || 2 <= base <= 36
    ensures r.1 <= |t|
  {
    var prefix, b := PrefixOf(t, base), BaseOf(t, base);
    var u := t[|prefix|..];
    var n := Digits(u, b);
    if n == 0 then (0, 0) else (Value(u[..n], b), |prefix| + n)
  }

  function Strtoll(s: string, base: int): Strto {
    if base < 0 || base == 1 || base > 36 then Strto(0, 0, EINVAL)
    else
      var w := Spaces(s);
      var sign := SignOf(s[w..]);
      var (v, n) := Magnitude(s[w + |sign|..], base);
      if n == 0 then Strto(0, 0, NoErrno) else Ranged(Signed(sign, v), w + |sign| + n)
  }

  lemma {:induction false} SpacesExact(w: string, rest: string)
    requires AllSpaces(w) && (rest == "" || !IsSpace(rest[0]))
    ensures Spaces(w + rest) == |w|
  {
    if w == "" {
      assert w + rest == rest;
    } else {
      assert (w + rest)[1..] == w[1..] + rest;
      SpacesExact(w[1..], rest);
    }
  }

  lemma {:induction false} DigitsExact(d: string, base: nat)
    requires AllDigits(d, base)
    ensures Digits(d, base) == |d|
  {
    if d != "" {
      DigitsExact(d[1..], base);
    }
  }

  lemma PrefixExact(base: int, prefix: string, d: string, counts: nat)
    requires Form(base, prefix, d, counts) && d != "" && AllDigits(d, counts)
    ensures PrefixOf(prefix + d, base) == prefix && BaseOf(prefix + d, base) == counts
  {
    var t := prefix + d;
    if prefix == "" {
      assert t == d;
      assert |d| >= 2 ==> IsDigit(d[1], counts);
    } else {
      assert t[2] == d[0] && t[..2] == prefix;
    }
  }

  lemma MagnitudeOfForm(base: int, prefix: string, d: string, counts: nat)
    requires Form(base, prefix, d, counts) && d != "" && AllDigits(d, counts)
    ensures base == 0 || 2 <= base <= 36
    ensures Magnitude(prefix + d, base) == (Value(d, counts), |prefix + d|)
  {
    hide Value, Digits, PrefixOf, BaseOf, Form;
    BaseExists(base, prefix, d, counts);
    PrefixExact(base, prefix, d, counts);
    assert (prefix + d)[|prefix|..] == d;
    DigitsExact(d, counts);
    assert d[..|d|] == d;
  }

  function AfterSign(s: string, w: nat, sign: string): string {
    if w + |sign| <= |s| then s[w + |sign|..] else ""
  }

  /** strtoll by its parts. */
  lemma StrtollUnfolded(s: string, base: int)
    requires base == 0 || 2 <= base <= 36
    ensures var w := Spaces(s);
            var sign := SignOf(s[w..]);
            var (v, n) := Magnitude(AfterSign(s, w, sign), base);
            && w + |sign| <= |s| && s[w..w + |sign|] == sign
            && Strtoll(s, base) == if n == 0 then Strto(0, 0, NoErrno) else Ranged(Signed(sign, v), w + |sign| + n)
  {
    hide Ranged, Magnitude, Signed, Spaces;
    SignInFront(s[Spaces(s)..]);
  }

  lemma SignInFront(s: string)
    ensures |SignOf(s)| <= |s| && s[..|SignOf(s)|] == SignOf(s)
  {
  }

  /** strtoll after white space and sign. */
  lemma StrtollParts(w: string, sign: string, t: string, base: int)
    requires (base == 0 || 2 <= base <= 36) && AllSpaces(w) && (sign == "" || sign == "+" || sign == "-")
    requires t != "" && !IsSpace(t[0]) && t[0] != '+' && t[0] != '-'
    ensures var (v, n) := Magnitude(t, base);
            n != 0 ==> Strtoll(w + sign + t, base) == Ranged(Signed(sign, v), |w| + |sign| + n)
  {
    hide Spaces, Ranged, IsSpace, Magnitude, SignOf, Signed, AllSpaces, Strtoll;
    SignExact(sign, t);
    SpacesExact(w, sign + t);
    Concatenated(w, sign, t);
    StrtollUnfolded(w + sign + t, base);
  }

  lemma Concatenated(a: string, b: string, c: string)
    ensures a + b + c == a + (b + c) && (a + b + c)[|a|..] == b + c && (a + b + c)[|a| + |b|..] == c
  {
  }

  /** strtoll reads a number to its end. */
  lemma StrtollOfSpelled(s: string, base: int, p: Spelling)
    requires Spelled(s, base, p)
    ensures Strtoll(s, base) == Ranged(Signed(p.sign, Value(p.d, p.counts)), |s|)
  {
    hide Value, Ranged, Form, IsSpace, Magnitude, AllDigits, AllSpaces, Signed, Strtoll;
    FirstCharacter(p.prefix, p.d, p.counts, base);
    MagnitudeOfForm(base, p.prefix, p.d, p.counts);
    StrtollParts(p.w, p.sign, p.prefix + p.d, base);
    assert s == p.w + p.sign + (p.prefix + p.d);
  }

  lemma BaseExists(base: int, prefix: string, d: string, counts: nat)
    requires Form(base, prefix, d, counts)
    ensures base == 0 || 2 <= base <= 36
  {
  }

  lemma SignExact(sign: string, t: string)
    requires sign == "" || sign == "+" || sign == "-"
    requires t != "" && !IsSpace(t[0]) && t[0] != '+' && t[0] != '-'
    ensures SignOf(sign + t) == sign && sign + t != "" && !IsSpace((sign + t)[0])
  {
    assert (sign + t)[0] == if sign == "" then t[0] else sign[0];
    assert sign != "" ==> (sign + t)[..1] == sign;
  }

  lemma FirstCharacter(prefix: string, d: string, counts: nat, base: int)
    requires Form(base, prefix, d, counts) && counts <= 36 && d != "" && AllDigits(d, counts)
    ensures prefix + d != "" && var c := (prefix + d)[0]; !IsSpace(c) && c != '+' && c != '-'
  {
    assert IsDigit(d[0], counts);
  }

  /** The number at the start of a text. */
  lemma FormOfMagnitude(t: string, base: int)
    requires (base == 0 || 2 <= base <= 36) && Magnitude(t, base).1 != 0
    ensures var prefix, b, n := PrefixOf(t, base), BaseOf(t, base), Magnitude(t, base).1;
            && |prefix| < n && t[..n] == prefix + t[|prefix|..n]
            && AllDigits(t[|prefix|..n], b) && Form(base, prefix, t[|prefix|..n], b)
  {
    hide Value, Digits, PrefixOf, BaseOf, Form;
    var prefix, b, n := PrefixOf(t, base), BaseOf(t, base), Magnitude(t, base).1;
    PrefixForm(t, base);
    assert t[|prefix|..][..n - |prefix|] == t[|prefix|..n];
    FormOfFront(base, prefix, t[|prefix|..], b, n - |prefix|);
  }

  lemma FormOfFront(base: int, prefix: string, u: string, counts: nat, n: nat)
    requires u != "" && Form(base, prefix, u, counts) && 0 < n <= |u|
    ensures Form(base, prefix, u[..n], counts)
  {
  }

  lemma ReadInBase(s: string, base: int)
    requires Strtoll(s, base).end != 0
    ensures base == 0 || 2 <= base <= 36
  {
  }

  lemma FrontParts(s: string, a: nat, b: nat, n: nat, x: nat)
    requires a + b + n <= |s| && x <= n
    ensures var t := s[a + b..]; s[..a + b + n] == s[..a] + s[a..a + b] + t[..x] + t[x..n]
  {
  }

  lemma SignIsSign(s: string)
    ensures SignOf(s) == "" || SignOf(s) == "+" || SignOf(s) == "-"
  {
  }

  /** What strtoll reads is a number. */
  lemma SpelledByStrtoll(s: string, base: int)
    requires Strtoll(s, base).end != 0
    ensures Strtoll(s, base).end <= |s| && exists p :: Spelled(s[..Strtoll(s, base).end], base, p)
  {
    hide Value, Spaces, SignOf, Ranged, Form, IsSpace, Magnitude, PrefixOf, BaseOf, AllDigits, Strtoll;
    hide AllSpaces, Spelled;
    ReadInBase(s, base);
    StrtollUnfolded(s, base);
    var w := Spaces(s);
    var sign := SignOf(s[w..]);
    var t := AfterSign(s, w, sign);
    var (v, n) := Magnitude(t, base);
    RangedEnd(Signed(sign, v), w + |sign| + n);
    SignIsSign(s[w..]);
    FormOfMagnitude(t, base);
    var prefix := PrefixOf(t, base);
    FrontParts(s, w, |sign|, n, |prefix|);
    PrefixLength(t[..n], prefix, t[|prefix|..n]);
    Respelled(s[..w], sign, prefix, t[|prefix|..n], base, BaseOf(t, base));
    assert s[..w + |sign| + n] == s[..w] + sign + prefix + t[|prefix|..n];
  }

  lemma PrefixLength(s: string, a: string, b: string)
    requires s == a + b
    ensures s[..|a|] == a
  {
  }

  lemma Respelled(w: string, sign: string, prefix: string, d: string, base: int, counts: nat)
    requires AllSpaces(w) && (sign == "" || sign == "+" || sign == "-")
    requires counts <= 36 && d != "" && AllDigits(d, counts) && Form(base, prefix, d, counts)
    ensures Spelled(w + sign + prefix + d, base, Spelling(w, sign, prefix, d, counts))
  {
    hide AllSpaces, AllDigits, Form;
  }

  ghost predicate IsNumber(s: string, base: int) {
    exists v :: Denotes(s, base, v)
  }

  /** The digits at the start of a text that begins with a number are read, with a longer prefix if there is one. */
  lemma MagnitudeAtFront(base: int, prefix: string, d: string, counts: nat, rest: string)
    requires Form(base, prefix, d, counts) && counts <= 36 && d != "" && AllDigits(d, counts)
    ensures (base == 0 || 2 <= base <= 36) && Magnitude(prefix + d + rest, base).1 != 0
  {
    hide Value;
    var t := prefix + d + rest;
    assert IsDigit(d[0], counts) && t[|prefix|] == d[0];
    if prefix != "" {
      assert t[..2] == prefix;
    }
  }

  lemma ReadAtFront(s: string, n: nat, base: int, p: Spelling)
    requires n <= |s| && Spelled(s[..n], base, p)
    ensures Strtoll(s, base).end != 0
  {
    hide Value, Ranged, Form, IsSpace, Magnitude, AllDigits, AllSpaces, Signed, Strtoll;
    var t := p.prefix + p.d + s[n..];
    FirstCharacter(p.prefix, p.d, p.counts, base);
    MagnitudeAtFront(base, p.prefix, p.d, p.counts, s[n..]);
    assert t[0] == (p.prefix + p.d)[0];
    assert s == s[..n] + s[n..] == p.w + p.sign + t;
    StrtollParts(p.w, p.sign, t, base);
    var (v, k) := Magnitude(t, base);
    RangedEnd(Signed(p.sign, v), |p.w| + |p.sign| + k);
  }

  /** strtoll reads something exactly if a number stands at the start of the text. */
  lemma ReadsNumber(s: string, base: int)
    ensures Strtoll(s, base).end != 0 <==> exists n | 0 <= n <= |s| :: IsNumber(s[..n], base)
  {
    hide Strtoll, Value;
    if Strtoll(s, base).end != 0 {
      SpelledByStrtoll(s, base);
      var n := Strtoll(s, base).end;
      var p :| Spelled(s[..n], base, p);
      assert Denotes(s[..n], base, Signed(p.sign, Value(p.d, p.counts)));
      assert IsNumber(s[..n], base);
    }
    forall n | 0 <= n <= |s| && IsNumber(s[..n], base)
      ensures Strtoll(s, base).end != 0
    {
      var v :| Denotes(s[..n], base, v);
      var p :| Spelled(s[..n], base, p) && v == Signed(p.sign, Value(p.d, p.counts));
      ReadAtFront(s, n, base, p);
    }
  }

  lemma RangedEnd(v: int, end: nat)
    ensures Ranged(v, end).end == end
  {
  }

  lemma PrefixForm(t: string, base: int)
    requires base == 0 || 2 <= base <= 36
    ensures var prefix := PrefixOf(t, base);
            |prefix| <= |t| && t == prefix + t[|prefix|..]
            && (t[|prefix|..] != "" ==> Form(base, prefix, t[|prefix|..], BaseOf(t, base)))
  {
  }

  /** A text denotes at most one number in a base, which strtoll returns if it fits. */
  lemma DenotesIsStrtoll(s: string, base: int)
    ensures forall v :: Denotes(s, base, v) ==> Strtoll(s, base) == Ranged(v, |s|) && s != ""
    ensures Strtoll(s, base).end == |s| != 0 ==> exists v :: Denotes(s, base, v)
    ensures s != "" && Strtoll(s, base).end == |s| && Strtoll(s, base).errno.NoErrno? ==>
              Denotes(s, base, Strtoll(s, base).value)
  {
    hide Strtoll;
    forall v | Denotes(s, base, v)
      ensures Strtoll(s, base) == Ranged(v, |s|) && s != ""
    {
      var p :| Spelled(s, base, p) && v == Signed(p.sign, Value(p.d, p.counts));
      StrtollOfSpelled(s, base, p);
    }
    if Strtoll(s, base).end == |s| != 0 {
      SpelledByStrtoll(s, base);
      assert s[..|s|] == s;
      var p :| Spelled(s, base, p);
      assert Denotes(s, base, Signed(p.sign, Value(p.d, p.counts)));
    }
  }

  ghost predicate DenotesWithin(s: string, base: int, lo: int, hi: int) {
    exists v :: Denotes(s, base, v) && lo <= v <= hi
  }

  /** Without an error exactly for the numbers in the range of a long long, and then with their value; there are none in
      a base that does not exist. In the others an integer is expected exactly if the text does not begin with one. */
  method StrictStrtoll(str: string, base: int) returns (ret: int, err: Err)
    ensures err == NoError <==> DenotesWithin(str, base, LLONG_MIN, LLONG_MAX)
    ensures err == NoError ==> Denotes(str, base, ret) && LLONG_MIN <= ret <= LLONG_MAX
    ensures err != NoError ==> ret == 0 && (err == Invalid || err == Expected)
    ensures err == Expected <==>
              (base == 0 || 2 <= base <= 36) && forall n | 0 <= n <= |str| :: !IsNumber(str[..n], base)
  {
    hide Denotes, Strtoll, IsNumber;
    DenotesIsStrtoll(str, base);
    ReadsNumber(str, base);
    StrtollFacts(str, base);
    var r := Strtoll(str, base);
    ret := r.value;
    if (r.errno.ERANGE? && (ret == LLONG_MAX || ret == LLONG_MIN)) || (!r.errno.NoErrno? && ret == 0) {
      return 0, Invalid;
    }
    if r.end == 0 {
      return 0, Expected;
    }
    if r.end != |str| {
      return 0, Invalid;
    }
    err := NoError;
  }

  lemma StrtollFacts(s: string, base: int)
    ensures var r := Strtoll(s, base);
            && LLONG_MIN <= r.value <= LLONG_MAX && r.end <= |s|
            && (r.errno.ERANGE? ==> r.value == LLONG_MIN || r.value == LLONG_MAX)
            && (r.errno.EINVAL? ==> r.value == 0) && (r.errno.EINVAL? <==> base < 0 || base == 1 || base > 36)
            && (r.end == 0 ==> !r.errno.ERANGE?)
  {
    hide Value;
  }

  /** The int version also refuses the two ends of the range of an int. */
  method StrictStrtol(str: string, base: int) returns (ret: int, err: Err)
    ensures err == NoError <==> DenotesWithin(str, base, INT_MIN + 1, INT_MAX - 1)
    ensures err == NoError ==> Denotes(str, base, ret)
    ensures err != NoError ==> ret == 0 && (err == Invalid || err == Expected)
    ensures err == Expected <==>
              (base == 0 || 2 <= base <= 36) && forall n | 0 <= n <= |str| :: !IsNumber(str[..n], base)
  {
    hide Denotes;
    DenotedOnce(str, base);
    ret, err := StrictStrtoll(str, base);
    if err != NoError {
      return 0, err;
    }
    if ret <= INT_MIN || ret >= INT_MAX {
      return 0, Invalid;
    }
  }

  /** Where two numbers in range would be denoted, they are the same. */
  lemma DenotedOnce(s: string, base: int)
    ensures forall v, v' :: Denotes(s, base, v) && Denotes(s, base, v') && LLONG_MIN <= v <= LLONG_MAX ==> v == v'
  {
    hide Strtoll, Denotes;
    DenotesIsStrtoll(s, base);
  }

  // ---- SI suffixes ----

  datatype IntType = IntType(bits: nat, signed: bool)

  /** The types the template is instantiated for: int, long and long long, uint64_t, uint32_t. */
  predicate Instantiated(t: IntType) {
    t == IntType(32, true) || t == IntType(64, true) || t == IntType(64, false) || t == IntType(32, false)
  }

  function Min(t: IntType): int {
    if !t.signed then 0 else if t.bits == 32 then INT_MIN else LLONG_MIN
  }

  function Max(t: IntType): int {
    if t.signed then (if t.bits == 32 then INT_MAX else LLONG_MAX)
    else if t.bits == 32 then 0xFFFF_FFFF else 0xFFFF_FFFF_FFFF_FFFF
  }

  function Pow2(m: nat): (p: int)
    ensures p >= 1
  {
    if m == 0 then 1 else 2 * Pow2(m - 1)
  }

  lemma Pow2Zero()
    ensures Pow2(0) == 1
  {
  }

  lemma Pow2Five(m: nat)
    ensures Pow2(m + 5) == 32 * Pow2(m)
  {
    assert Pow2(m + 5) == 2 * Pow2(m + 4);
    assert Pow2(m + 4) == 2 * Pow2(m + 3);
    assert Pow2(m + 3) == 2 * Pow2(m + 2);
    assert Pow2(m + 2) == 2 * Pow2(m + 1);
  }

  lemma Pow2Ten(m: nat)
    ensures Pow2(m + 10) == 1024 * Pow2(m)
  {
    Pow2Five(m);
    Pow2Five(m + 5);
  }

  lemma Pow2Values()
    ensures Pow2(0) == 1 && Pow2(10) == 0x400 && Pow2(20) == 0x10_0000 && Pow2(30) == 0x4000_0000
    ensures Pow2(40) == 0x100_0000_0000 && Pow2(50) == 0x4_0000_0000_0000 && Pow2(60) == 0x1000_0000_0000_0000
  {
    hide Pow2;
    Pow2Zero();
    Pow2Ten(0);
    Pow2Ten(10);
    Pow2Ten(20);
    Pow2Ten(30);
    Pow2Ten(40);
    Pow2Ten(50);
  }

  /** The suffix of a text, as a power of two; -1 for none. */
  function SuffixOf(s: string): int
    requires s != ""
  {
    match s[|s| - 1]
    case 'B' => 0
    case 'K' => 10
    case 'M' => 20
    case 'G' => 30
    case 'T' => 40
    case 'P' => 50
    case 'E' => 60
    case _ => -1
  }

  function Shift(s: string): nat
    requires s != ""
  {
    if SuffixOf(s) < 0 then 0 else SuffixOf(s)
  }

  function Body(s: string): string
    requires s != ""
  {
    if SuffixOf(s) < 0 then s else s[..|s| - 1]
  }

  /** The common type of long long and t is long long, except for uint64_t. */
  function Promoted(x: int, t: IntType): int {
    if t == IntType(64, false) then x % 0x1_0000_0000_0000_0000 else x
  }

  /** The bits of a long long. */
  function LongLong(x: int): int {
    var low := x % 0x1_0000_0000_0000_0000;
    if low > LLONG_MAX then low - 0x1_0000_0000_0000_0000 else low
  }

  function Converted(x: int, t: IntType): int {
    var modulus := if t.bits == 32 then 0x1_0000_0000 else 0x1_0000_0000_0000_0000;
    var low := x % modulus;
    if t.signed && low > Max(t) then low - modulus else low
  }

  /** v is a value whose multiple by 2^m fits type t, with m less than the width of t. */
  predicate Fits(v: int, m: nat, t: IntType) {
    LLONG_MIN <= v <= LLONG_MAX && m < t.bits && Min(t) <= v * Pow2(m) <= Max(t)
  }

  predicate SuffixShift(m: nat) {
    m == 0 || m == 10 || m == 20 || m == 30 || m == 40 || m == 50 || m == 60
  }

  lemma DividedLow(v: int, p: int, lo: int)
    requires p >= 1 && lo % p == 0
    ensures v < lo / p <==> v * p < lo
  {
    Divided(lo, p);
    if v < lo / p {
      TimesLe(v + 1, lo / p, p);
      OneTimesMore(v, p);
    } else {
      TimesLe(lo / p, v, p);
    }
  }

  lemma DividedHigh(v: int, p: int, hi: int)
    requires p >= 1
    ensures v > hi / p <==> v * p > hi
  {
    Divided(hi, p);
    if v > hi / p {
      TimesLe(hi / p + 1, v, p);
    } else {
      TimesLe(v, hi / p, p);
    }
  }

  lemma OneTimesMore(v: int, p: int)
    ensures (v + 1) * p == v * p + p
  {
  }

  lemma LimitsEven(m: nat, t: IntType)
    requires Instantiated(t) && SuffixShift(m) && m < t.bits
    ensures Min(t) % Pow2(m) == 0
  {
    Pow2Values();
    hide Pow2;
  }

  /** Comparing with the shifted limits is comparing the shifted value with the limits. */
  lemma ShiftedLimits(v: int, m: nat, t: IntType)
    requires Instantiated(t) && SuffixShift(m) && m < t.bits && (v < 0 ==> t.signed)
    requires LLONG_MIN <= v <= LLONG_MAX
    ensures Promoted(v, t) < Promoted(Min(t), t) / Pow2(m) <==> v * Pow2(m) < Min(t)
    ensures Promoted(v, t) > Promoted(Max(t), t) / Pow2(m) <==> v * Pow2(m) > Max(t)
  {
    LimitsEven(m, t);
    DividedLow(v, Pow2(m), Min(t));
    DividedHigh(v, Pow2(m), Max(t));
    assert Promoted(v, t) == v && Promoted(Min(t), t) == Min(t) && Promoted(Max(t), t) == Max(t);
  }

  /** A product in the range of t survives the shift as a long long and the conversion to t. */
  lemma ShiftedExactly(v: int, m: nat, t: IntType)
    requires Instantiated(t) && SuffixShift(m) && Fits(v, m, t)
    ensures Converted(LongLong(v * Pow2(m)), t) == v * Pow2(m)
    ensures v == 0 ==> Converted(LongLong(v * Pow2(m)), t) == 0
  {
    hide Pow2;
  }

  /** The number in front of the suffix, scaled, fits the type. */
  ghost predicate Accepted(s: string, t: IntType, v: int) {
    s != "" && Denotes(Body(s), 10, v) && Fits(v, Shift(s), t)
  }

  /** The text s is d, or d and the letter of a factor. */
  predicate Scales(d: string, s: string, factor: int) {
    || (factor == 1 && (s == d || s == d + "B"))
    || (factor == 1024 && s == d + "K")
    || (factor == 1_048_576 && s == d + "M")
    || (factor == 1_073_741_824 && s == d + "G")
    || (factor == 1_099_511_627_776 && s == d + "T")
    || (factor == 1_125_899_906_842_624 && s == d + "P")
    || (factor == 1_152_921_504_606_846_976 && s == d + "E")
  }

  /** The text s gives the number v, in the range of a long long, and a factor. */
  ghost predicate Given(s: string, factor: int, v: int) {
    && -9_223_372_036_854_775_808 <= v <= 9_223_372_036_854_775_807
    && exists d :: Denotes(d, 10, v) && Scales(d, s, factor)
  }

  /** The types of 32 bits have no values for the last three letters. */
  predicate FactorExists(factor: int, t: IntType) {
    t.bits == 64 || factor <= 1_073_741_824
  }

  predicate InType(x: int, t: IntType) {
    || (t == IntType(32, true) && -2_147_483_648 <= x <= 2_147_483_647)
    || (t == IntType(64, true) && -9_223_372_036_854_775_808 <= x <= 9_223_372_036_854_775_807)
    || (t == IntType(32, false) && 0 <= x <= 4_294_967_295)
    || (t == IntType(64, false) && 0 <= x <= 18_446_744_073_709_551_615)
  }

  /** A number ends in a digit. */
  lemma LastIsDigit(s: string, v: int)
    requires Denotes(s, 10, v)
    ensures s != "" && IsDigit(s[|s| - 1], 10)
  {
    hide Value;
    var p :| Spelled(s, 10, p) && v == Signed(p.sign, Value(p.d, p.counts));
    assert s[|s| - 1] == p.d[|p.d| - 1];
  }

  /** The factor and the number of a text are those of its suffix and of the text before it. */
  lemma GivenByBody(s: string, factor: int, v: int)
    ensures Given(s, factor, v) <==>
              s != "" && Denotes(Body(s), 10, v) && LLONG_MIN <= v <= LLONG_MAX && factor == Pow2(Shift(s))
  {
    Pow2Values();
    hide Denotes, Pow2;
    if Given(s, factor, v) {
      var d :| Denotes(d, 10, v) && Scales(d, s, factor);
      LastIsDigit(d, v);
      BodyOf(d, s, factor);
    }
    if s != "" && Denotes(Body(s), 10, v) && factor == Pow2(Shift(s)) {
      assert Scales(Body(s), s, factor);
    }
  }

  lemma BodyOf(d: string, s: string, factor: int)
    requires Scales(d, s, factor) && d != "" && IsDigit(d[|d| - 1], 10)
    ensures Body(s) == d && factor == Pow2(Shift(s))
  {
    Pow2Values();
    hide Pow2;
    if s != d {
      assert s[..|s| - 1] == d;
    }
  }

  /** The number read in front of the suffix is the number given, if there is one, and the limits are as written out. */
  lemma GivenIsParsed(s: string, t: IntType, ll: int, parsed: bool)
    requires Instantiated(t) && s != ""
    requires parsed <==> DenotesWithin(Body(s), 10, LLONG_MIN, LLONG_MAX)
    requires parsed ==> Denotes(Body(s), 10, ll) && LLONG_MIN <= ll <= LLONG_MAX
    ensures forall factor, v :: Given(s, factor, v) <==> parsed && v == ll && factor == Pow2(Shift(s))
    ensures forall v :: Accepted(s, t, v) <==> parsed && v == ll && Fits(ll, Shift(s), t)
    ensures parsed ==> Given(s, Pow2(Shift(s)), ll) && (Fits(ll, Shift(s), t) ==> Accepted(s, t, ll))
    ensures FactorExists(Pow2(Shift(s)), t) <==> Shift(s) < t.bits
    ensures forall x :: InType(x, t) <==> Min(t) <= x <= Max(t)
  {
    Pow2Values();
    hide Denotes, Given, Pow2;
    DenotedOnce(Body(s), 10);
    forall factor, v
      ensures Given(s, factor, v) <==> parsed && v == ll && factor == Pow2(Shift(s))
    {
      GivenByBody(s, factor, v);
    }
  }

  predicate NoFactor(s: string, t: IntType)
    requires s != ""
  {
    t.bits == 32 && (s[|s| - 1] == 'T' || s[|s| - 1] == 'P' || s[|s| - 1] == 'E')
  }

  lemma NoFactorByShift(s: string, t: IntType)
    requires Instantiated(t) && s != ""
    ensures NoFactor(s, t) <==> Shift(s) >= t.bits
  {
  }

  /** What the number v with a factor gives: the product, if the type has the factor and the product, or the error that
      applies. */
  predicate Returns(t: IntType, factor: int, v: int, r: int, err: Err) {
    && (err == NoError <==> FactorExists(factor, t) && InType(v * factor, t))
    && (err == NoError ==> r == v * factor)
    && (err == Negative <==> v < 0 && !t.signed)
    && (err == PrefixTooLarge <==> !FactorExists(factor, t) && (v < 0 ==> t.signed))
    && (err == TooSmall ==> v < 0)
    && (err == TooLarge ==> v > 0)
    && (err == NoError || err == Negative || err == PrefixTooLarge || err == TooSmall || err == TooLarge)
  }

  /** The comparisons with the shifted limits, made in the common type. */
  predicate BelowLimit(ll: int, m: nat, t: IntType) {
    Promoted(ll, t) < Promoted(Min(t), t) / Pow2(m)
  }

  predicate AboveLimit(ll: int, m: nat, t: IntType) {
    Promoted(ll, t) > Promoted(Max(t), t) / Pow2(m)
  }

  function Shifted(ll: int, m: nat, t: IntType): int {
    Converted(LongLong(ll * Pow2(m)), t)
  }

  /** What has been found when the parsed number and the shift have been looked at. */
  predicate Decided(t: IntType, ll: int, m: nat, parsed: bool, r: int, err: Err) {
    && (err == NoError <==> parsed && Fits(ll, m, t))
    && (err == NoError ==> r == ll * Pow2(m))
    && (err != NoError ==> r == 0)
    && (err == Negative <==> ll < 0 && !t.signed)
    && (err == PrefixTooLarge <==> m >= t.bits && (ll < 0 ==> t.signed))
    && (err == TooSmall ==> ll * Pow2(m) < Min(t))
    && (err == TooLarge ==> ll * Pow2(m) > Max(t))
    && err != NotSpecified && (err == Invalid || err == Expected ==> !parsed)
  }

  lemma ReturnsAsDecided(s: string, t: IntType, ll: int, parsed: bool, r: int, err: Err)
    requires Instantiated(t) && s != ""
    requires parsed <==> DenotesWithin(Body(s), 10, LLONG_MIN, LLONG_MAX)
    requires parsed ==> Denotes(Body(s), 10, ll) && LLONG_MIN <= ll <= LLONG_MAX
    requires !parsed ==> ll == 0
    requires Decided(t, ll, Shift(s), parsed, r, err)
    ensures forall factor, v :: Given(s, factor, v) ==> Returns(t, factor, v, r, err)
    ensures (forall factor, v :: !Given(s, factor, v)) ==>
              && (err == PrefixTooLarge || err == Invalid || err == Expected)
              && (err == PrefixTooLarge <==> NoFactor(s, t))
    ensures err != NotSpecified && (err != NoError ==> r == 0)
    ensures err == NoError <==> exists v :: Accepted(s, t, v)
    ensures forall v :: Accepted(s, t, v) ==> r == v * Pow2(Shift(s))
  {
    hide Denotes, Given, Pow2, FactorExists, InType, Accepted, Shift, NoFactor;
    NoFactorByShift(s, t);
    GivenIsParsed(s, t, ll, parsed);
    ProductSign(ll, Shift(s), t);
  }

  lemma Decides(ll: int, m: nat, t: IntType, parsed: bool, e: Err)
    requires Instantiated(t) && SuffixShift(m) && LLONG_MIN <= ll <= LLONG_MAX
    requires if parsed then e == NoError else ll == 0 && (e == Invalid || e == Expected)
    ensures ll < 0 && !t.signed ==> Decided(t, ll, m, parsed, 0, Negative)
    ensures !(ll < 0 && !t.signed) ==>
              if m >= t.bits then Decided(t, ll, m, parsed, 0, PrefixTooLarge)
              else if BelowLimit(ll, m, t) then Decided(t, ll, m, parsed, 0, TooSmall)
              else if AboveLimit(ll, m, t) then Decided(t, ll, m, parsed, 0, TooLarge)
              else Decided(t, ll, m, parsed, Shifted(ll, m, t), e)
  {
    hide Pow2, Promoted, Converted, LongLong;
    if ll < 0 && !t.signed {
      NegativeProduct(ll, m);
    } else if m < t.bits {
      ShiftedLimits(ll, m, t);
      if !BelowLimit(ll, m, t) && !AboveLimit(ll, m, t) {
        ShiftedExactly(ll, m, t);
      }
    }
  }

  lemma ProductSign(v: int, m: nat, t: IntType)
    requires Instantiated(t)
    ensures v * Pow2(m) < Min(t) ==> v < 0
    ensures v * Pow2(m) > Max(t) ==> v > 0
    ensures Min(t) <= v * Pow2(m) && !t.signed ==> v >= 0
  {
  }

  lemma NothingGiven()
    ensures forall factor, v :: !Given("", factor, v)
    ensures forall t, v :: !Accepted("", t, v)
  {
    hide Given, Denotes;
    forall factor, v
      ensures !Given("", factor, v)
    {
      GivenByBody("", factor, v);
    }
  }

  /** The text in front of the suffix is a number in the range of a long long: without an error exactly if the factor
      exists in the type and the product is in its range, and the result is the product. Anything else is an error, and
      all errors have the result 0. */
  method StrictSiCast(str: string, t: IntType) returns (r: int, err: Err)
    requires Instantiated(t)
    ensures forall factor, v :: Given(str, factor, v) ==> Returns(t, factor, v, r, err)
    ensures err == NotSpecified <==> str == ""
    ensures str != "" && (forall factor, v :: !Given(str, factor, v)) ==>
              && (err == PrefixTooLarge || err == Invalid || err == Expected)
              && (err == PrefixTooLarge <==> NoFactor(str, t))
    ensures err == NoError <==> exists v :: Accepted(str, t, v)
    ensures forall v :: Accepted(str, t, v) ==> r == v * Pow2(Shift(str))
    ensures err != NoError ==> r == 0
  {
    hide Denotes, Pow2, Shifted, BelowLimit, AboveLimit, Decided, Given, Returns, Accepted;
    if str == "" {
      NothingGiven();
      return 0, NotSpecified;
    }
    var s := str;
    var m := SuffixOf(s);
    if 0 <= m {
      s := s[..|s| - 1];
    } else {
      m := 0;
    }
    DenotedOnce(s, 10);
    var ll;
    ll, err := StrictStrtoll(s, 10);
    ghost var parsed := err == NoError;
    Decides(ll, m, t, parsed, err);
    if 0 > ll && !t.signed {
      r, err := 0, Negative;
    } else if m >= t.bits {
      r, err := 0, PrefixTooLarge;
    } else if BelowLimit(ll, m, t) {
      r, err := 0, TooSmall;
    } else if AboveLimit(ll, m, t) {
      r, err := 0, TooLarge;
    } else {
      r := Shifted(ll, m, t);
    }
    ReturnsAsDecided(str, t, ll, parsed, r, err);
  }

  lemma NegativeProduct(v: int, m: nat)
    requires v < 0
    ensures v * Pow2(m) < 0
  {
  }

  method StrictSistrtoll(str: string) returns (r: int, err: Err)
    ensures forall factor, v :: Given(str, factor, v) ==>
              && (err == NoError <==> 0 <= v * factor <= 18_446_744_073_709_551_615)
              && (err == NoError ==> r == v * factor) && (err == Negative <==> v < 0)
    ensures (forall factor, v :: !Given(str, factor, v)) ==> err != NoError
    ensures err == NoError <==> exists v :: Accepted(str, IntType(64, false), v)
    ensures forall v :: Accepted(str, IntType(64, false), v) ==> r == v * Pow2(Shift(str))
    ensures err != NoError ==> r == 0
  {
    hide Denotes, Given, Accepted, Pow2, Shift, NoFactor;
    r, err := StrictSiCast(str, IntType(64, false));
  }

  // ---- printing and reading back ----

  function DigitOf(v: nat, upper: bool): (c: char)
    requires v < 36
    ensures DigitValue(c) == v
  {
    if v < 10 then ('0' as int + v) as char
    else ((if upper then 'A' as int else 'a' as int) + v - 10) as char
  }

  /** The digits of v in a base, with letters of one case. */
  function DigitsOf(v: nat, base: nat, upper: bool): (s: string)
    requires 2 <= base <= 36
    ensures s != "" && AllDigits(s, base)
    ensures v != 0 ==> s[0] != '0'
    decreases v
  {
    if v < base then [DigitOf(v, upper)]
    else
      Smaller(v, base);
      DigitsOf(v / base, base, upper) + [DigitOf(v % base, upper)]
  }

  lemma Smaller(v: nat, base: nat)
    requires 2 <= base <= v
    ensures 0 < v / base < v && v == base * (v / base) + v % base
  {
    Divided(v, base);
    QuotientNotNegative(v, base);
    TimesLe(2, base, v / base);
  }

  function Printed(v: int, base: nat, upper: bool): string
    requires 2 <= base <= 36
  {
    if v < 0 then "-" + DigitsOf(-v, base, upper) else DigitsOf(v, base, upper)
  }

  lemma {:induction false} ValueOfDigits(v: nat, base: nat, upper: bool)
    requires 2 <= base <= 36
    ensures Value(DigitsOf(v, base, upper), base) == v
    decreases v
  {
    var s := DigitsOf(v, base, upper);
    if v < base {
      assert s[..0] == "";
      assert Value("", base) == 0;
    } else {
      Smaller(v, base);
      ValueOfDigits(v / base, base, upper);
      assert s[..|s| - 1] == DigitsOf(v / base, base, upper);
    }
  }

  lemma SpelledParts(sign: string, prefix: string, d: string, base: int, counts: nat)
    requires (sign == "" || sign == "-") && d != ""
    requires counts <= 36 && AllDigits(d, counts) && Form(base, prefix, d, counts)
    ensures Denotes(sign + prefix + d, base, Signed(sign, Value(d, counts)))
  {
    hide AllDigits, Value, Spelled, Form;
    Respelled("", sign, prefix, d, base, counts);
    assert "" + sign + prefix + d == sign + prefix + d;
  }

  /** Every integer is read back from its spelling in every base, with letters of either case; in base 0 from its
      decimal spelling, which does not begin with 0 unless it is 0. */
  lemma PrintedDenotes(v: int, base: nat, upper: bool)
    requires 2 <= base <= 36
    ensures Denotes(Printed(v, base, upper), base, v)
    ensures base == 10 ==> Denotes(Printed(v, base, upper), 0, v)
  {
    hide DigitsOf, Value, AllDigits, Denotes;
    var sign, d := if v < 0 then "-" else "", DigitsOf(if v < 0 then -v else v, base, upper);
    ValueOfDigits(if v < 0 then -v else v, base, upper);
    assert Printed(v, base, upper) == sign + "" + d;
    SpelledParts(sign, "", d, base, base);
    if base == 10 {
      PrintedInBaseZero(v, upper);
    }
  }

  lemma PrintedInBaseZero(v: int, upper: bool)
    ensures Denotes(Printed(v, 10, upper), 0, v)
  {
    hide AllDigits, Denotes, Value, DigitsOf;
    if v == 0 {
      ZeroInBaseZero(upper);
    } else {
      var sign, d := if v < 0 then "-" else "", DigitsOf(if v < 0 then -v else v, 10, upper);
      ValueOfDigits(if v < 0 then -v else v, 10, upper);
      assert Printed(v, 10, upper) == sign + "" + d;
      SpelledParts(sign, "", d, 0, 10);
    }
  }

  lemma ZeroInBaseZero(upper: bool)
    ensures Denotes(Printed(0, 10, upper), 0, 0)
  {
    hide Denotes;
    assert "0"[..0] == "" && Value("", 8) == 0 && Value("0", 8) == 0;
    SpelledParts("", "", "0", 0, 8);
    assert Printed(0, 10, upper) == "" + "" + "0";
  }

  /** In base 0 a leading 0 makes a number octal, and 0x or 0X hexadecimal, which base 16 allows as well. */
  lemma PrefixedDenotes(v: nat, upper: bool)
    ensures Denotes("0" + DigitsOf(v, 8, upper), 0, v)
    ensures forall base | base == 0 || base == 16 ::
              Denotes("0x" + DigitsOf(v, 16, upper), base, v) && Denotes("0X" + DigitsOf(v, 16, upper), base, v)
  {
    hide DigitsOf, Denotes, Value;
    ValueOfDigits(v, 8, upper);
    ValueOfDigits(v, 16, upper);
    var octal, hex := DigitsOf(v, 8, upper), DigitsOf(v, 16, upper);
    LeadingZero(octal);
    forall base | base == 0 || base == 16
      ensures Denotes("0x" + hex, base, v) && Denotes("0X" + hex, base, v)
    {
      SpelledParts("", "0x", hex, base, 16);
      SpelledParts("", "0X", hex, base, 16);
      assert "" + "0x" + hex == "0x" + hex && "" + "0X" + hex == "0X" + hex;
    }
    SpelledParts("", "", "0" + octal, 0, 8);
    assert "" + "" + ("0" + octal) == "0" + octal;
  }

  lemma {:induction false} LeadingZero(d: string)
    requires AllDigits(d, 8)
    ensures AllDigits("0" + d, 8) && Value("0" + d, 8) == Value(d, 8)
  {
    if d == "" {
      assert ("0" + d)[..0] == "" && Value("", 8) == 0;
    } else {
      LeadingZero(d[..|d| - 1]);
      assert ("0" + d)[..|d|] == "0" + d[..|d| - 1];
    }
  }

  /** The product of a number and its factor can be in the range of the type and yet be refused: exactly if the number
      itself is beyond a long long, which only uint64_t has room for, or it is 0 with a factor that the type does not
      have. */
  lemma RefusedInRange(s: string, d: string, t: IntType, factor: int, v: int)
    requires Instantiated(t) && Denotes(d, 10, v) && Scales(d, s, factor) && InType(v * factor, t)
    ensures Accepted(s, t, v) <==> v <= 9_223_372_036_854_775_807 && (v == 0 ==> FactorExists(factor, t))
  {
    Pow2Values();
    hide Denotes, Pow2;
    LastIsDigit(d, v);
    BodyOf(d, s, factor);
  }

  /** Although 2^63 is a value of uint64_t, no spelling of it without a suffix is accepted. */
  lemma LargeUnsignedRefused(s: string, v: int)
    requires s != "" && Denotes(s, 10, v) && v > LLONG_MAX && SuffixOf(s) < 0
    ensures !exists u :: Accepted(s, IntType(64, false), u)
  {
    hide Denotes, Strtoll;
    DenotesIsStrtoll(s, 10);
  }
}
