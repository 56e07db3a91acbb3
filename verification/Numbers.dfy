/** The C string functions on which comparisons in expressions rest: strcmp, strtoll, strtoull. */
module Numbers {
  /** Result of expr_parse_string: k_string, k_signed with a long long, or k_unsigned with an
      unsigned long long. */
  datatype Parsed = NotNumber | Signed(s: int) | Unsigned(u: int)

  const TWO63 := 0x8000_0000_0000_0000
  const TWO64 := 0x1_0000_0000_0000_0000

  /** strcmp, as the sign of the first difference. */
  function StrCmp(a: string, b: string): int {
    if a == [] then (if b == [] then 0 else -1)
    else if b == [] then 1
    else if a[0] < b[0] then -1
    else if a[0] > b[0] then 1
    else StrCmp(a[1..], b[1..])
  }

  lemma {:induction false} StrCmpZero(a: string, b: string)
    ensures StrCmp(a, b) == 0 <==> a == b
  {
    if a != [] && b != [] {
      assert a == [a[0]] + a[1..] && b == [b[0]] + b[1..];
      StrCmpZero(a[1..], b[1..]);
    }
  }

  predicate IsSpace(c: char) {
    c == ' ' || '\t' <= c <= '\r'
  }

  function SkipSpace(str: string): string {
    if str != [] && IsSpace(str[0]) then SkipSpace(str[1..]) else str
  }

  /** The digit a character stands for in bases up to 16, or 16 when it is no such digit. */
  function DigitOf(c: char): nat {
    if '0' <= c <= '9' then (c - '0') as nat
    else if 'a' <= c <= 'f' then (c - 'a') as nat + 10
    else if 'A' <= c <= 'F' then (c - 'A') as nat + 10
    else 16
  }

  predicate AllDigits(str: string, base: nat) {
    forall i | 0 <= i < |str| :: DigitOf(str[i]) < base
  }

  function DigitsValue(str: string, base: nat): nat {
    if str == [] then 0
    else DigitsValue(str[..|str| - 1], base) * base + DigitOf(str[|str| - 1])
  }

  datatype Magnitude = NoMagnitude | Magnitude(neg: bool, n: nat)

  /** A string that strtoll or strtoull reads to its end: blanks, a sign, a base prefix, digits. */
  function ParseMagnitude(str: string, base: nat): Magnitude {
    var t := SkipSpace(str);
    var neg := t != [] && t[0] == '-';
    var t := if t != [] && (t[0] == '-' || t[0] == '+') then t[1..] else t;
    var hex := (base == 0 || base == 16) && |t| >= 2 && t[0] == '0' && t[1] in "xX";
    var digits := if hex then t[2..] else t;
    var b := if hex then 16 else if base != 0 then base else if t != [] && t[0] == '0' then 8 else 10;
    if digits != [] && AllDigits(digits, b) then Magnitude(neg, DigitsValue(digits, b))
    else NoMagnitude
  }

  /** strtoll with the end-of-string and ERANGE tests of expr_parse_string. */
  function ParseSigned(str: string, base: nat): Parsed {
    match ParseMagnitude(str, base)
    case NoMagnitude => NotNumber
    case Magnitude(neg, n) =>
      var v: int := if neg then -(n as int) else n;
      if -TWO63 <= v < TWO63 then Signed(v) else NotNumber
  }

  /** strtoull with the same tests; a minus sign negates modulo 2^64. */
  function ParseUnsigned(str: string, base: nat): Parsed {
    match ParseMagnitude(str, base)
    case NoMagnitude => NotNumber
    case Magnitude(neg, n) =>
      if n >= TWO64 then NotNumber else Unsigned((if neg then TWO64 - n else n) % TWO64)
  }

  function Sign(a: int, b: int): int {
    if a < b then -1 else if a > b then 1 else 0
  }

  /** The union member u of a parsed number. */
  function AsUnsigned(p: Parsed): int
    requires !p.NotNumber?
  {
    if p.Unsigned? then p.u else p.s % TWO64
  }

  /** Comparison as strings, as unsigned numbers, or as signed numbers. */
  function CompareParsed(str1: string, k1: Parsed, str2: string, k2: Parsed): int {
    if k1.NotNumber? || k2.NotNumber? then StrCmp(str1, str2)
    else if k1.Unsigned? || k2.Unsigned? then Sign(AsUnsigned(k1), AsUnsigned(k2))
    else Sign(k1.s, k2.s)
  }

  lemma LetterIsNotNumber(c: char)
    requires !IsSpace(c) && c != '-' && c != '+' && DigitOf(c) == 16
    ensures ParseMagnitude([c], 0) == NoMagnitude
  {
    assert SkipSpace([c]) == [c];
    assert !AllDigits([c], 10) && !AllDigits([c], 8) by { assert DigitOf([c][0]) == 16; }
  }

  lemma YmnAreNotNumbers()
    ensures ParseSigned("y", 0) == ParseSigned("m", 0) == ParseSigned("n", 0) == NotNumber
  {
    LetterIsNotNumber('y');
    LetterIsNotNumber('m');
    LetterIsNotNumber('n');
  }
}
