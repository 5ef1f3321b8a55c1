/** The small part of PHP's value semantics the library relies on: the values a
    cell, a converter or a property can hold, ASCII case mapping (`strtolower`),
    integer/string conversion (`(string) $i`, `(int) $s`) and the rule that turns
    a canonical decimal string array key into an integer key. */
module Php {

  /** A PHP value as it flows through the library. `Float(text)` stands for the
      IEEE-754 double that PHP's `(float)` cast produces from the string `text`;
      the double itself is not modelled. */
  datatype Value = Null | Str(s: string) | Int(i: int) | Bool(b: bool) | Float(text: string)

  /** The values a cell or a converter can produce: everything but a float. */
  type Scalar = v: Value | !v.Float? witness Null

  /** `null === $v || '' === $v` */
  predicate IsBlank(v: Value) {
    v == Null || v == Str("")
  }

  // ----- characters -------------------------------------------------------

  predicate IsDigit(c: char) {
    '0' <= c <= '9'
  }

  predicate IsUpper(c: char) {
    'A' <= c <= 'Z'
  }

  predicate IsLower(c: char) {
    'a' <= c <= 'z'
  }

  /** ASCII lower-casing of one character, as `strtolower` does. */
  function LowerChar(c: char): char {
    if IsUpper(c) then (c as int + 32) as char else c
  }

  /** ASCII upper-casing of one character, as `ucwords` does. */
  function UpperChar(c: char): char {
    if IsLower(c) then (c as int - 32) as char else c
  }

  /** `strtolower`: every character lower-cased, nothing else changed. */
  function Lower(s: string): (r: string)
    ensures |r| == |s|
    ensures forall i :: 0 <= i < |s| ==> r[i] == LowerChar(s[i])
  {
    if s == [] then [] else [LowerChar(s[0])] + Lower(s[1..])
  }

  lemma LowerAppend(a: string, b: string)
    ensures Lower(a + b) == Lower(a) + Lower(b)
  {
  }

  lemma LowerIdempotent(s: string)
    ensures Lower(Lower(s)) == Lower(s)
  {
  }

  // ----- integers as text --------------------------------------------------

  function DigitChar(d: nat): char
    requires d < 10
  {
    ('0' as int + d) as char
  }

  function DigitValue(c: char): nat
    requires IsDigit(c)
  {
    c as int - '0' as int
  }

  predicate AllDigits(s: string) {
    forall i :: 0 <= i < |s| ==> IsDigit(s[i])
  }

  /** Decimal notation of a natural number, without leading zeros. */
  function NatToString(n: nat): (r: string)
    ensures |r| > 0 && AllDigits(r)
    ensures n >= 10 <==> |r| > 1
    decreases n
  {
    if n < 10 then [DigitChar(n)] else NatToString(n / 10) + [DigitChar(n % 10)]
  }

  /** `(string) $i` for a PHP integer. */
  function IntToString(i: int): string {
    if i < 0 then "-" + NatToString(-i) else NatToString(i)
  }

  /** The value of a string of decimal digits. */
  function DigitsValue(d: string): nat
    requires AllDigits(d)
    decreases |d|
  {
    if d == [] then 0 else DigitsValue(d[..|d| - 1]) * 10 + DigitValue(d[|d| - 1])
  }

  /** The longest prefix of `s` made of decimal digits. */
  function LeadingDigits(s: string): (r: string)
    ensures r <= s && AllDigits(r)
    ensures |r| < |s| ==> !IsDigit(s[|r|])
  {
    if s == [] || !IsDigit(s[0]) then [] else [s[0]] + LeadingDigits(s[1..])
  }

  /** `(int) $s`: an optional sign followed by the longest run of digits; a
      string that does not start that way gives 0. */
  function ParseInt(s: string): int {
    if |s| > 0 && s[0] == '-' then 0 - DigitsValue(LeadingDigits(s[1..]))
    else if |s| > 0 && s[0] == '+' then DigitsValue(LeadingDigits(s[1..]))
    else DigitsValue(LeadingDigits(s))
  }

  /** After an optional sign, `s` does not start with a digit. */
  predicate NonNumeric(s: string) {
    var body := if |s| > 0 && (s[0] == '-' || s[0] == '+') then s[1..] else s;
    body == [] || !IsDigit(body[0])
  }

  /** Text that, after an optional sign, does not start with a digit reads as 0. */
  lemma ParseIntOfNonNumeric(s: string)
    requires NonNumeric(s)
    ensures ParseInt(s) == 0
  {
  }

  /** A string PHP stores as an integer when used as an array key: a canonical
      decimal integer ("0", or an optional '-' and a digit string without a
      leading zero). */
  predicate IsIntKey(s: string) {
    s == "0" ||
    var body := if |s| > 0 && s[0] == '-' then s[1..] else s;
    |body| > 0 && AllDigits(body) && body[0] != '0'
  }

  lemma {:induction false} DigitsValueOfNatToString(n: nat)
    ensures DigitsValue(NatToString(n)) == n
    decreases n
  {
    if n >= 10 {
      var r := NatToString(n);
      assert r[..|r| - 1] == NatToString(n / 10);
      DigitsValueOfNatToString(n / 10);
    }
  }

  lemma LeadingDigitsOfDigits(d: string)
    requires AllDigits(d)
    ensures LeadingDigits(d) == d
    decreases |d|
  {
    if d != [] {
      LeadingDigitsOfDigits(d[1..]);
    }
  }

  /** Reading back the decimal text of an integer gives the integer. */
  lemma ParseIntRoundTrip(i: int)
    ensures ParseInt(IntToString(i)) == i
  {
    var n: nat := if i < 0 then -i else i;
    var d := NatToString(n);
    LeadingDigitsOfDigits(d);
    DigitsValueOfNatToString(n);
    if i < 0 {
      assert IntToString(i)[1..] == d;
    } else {
      assert d[0] != '-' && d[0] != '+';
    }
  }

  lemma {:induction false} NatToStringNoLeadingZero(n: nat)
    requires n > 0
    ensures NatToString(n)[0] != '0'
    decreases n
  {
    if n >= 10 {
      NatToStringNoLeadingZero(n / 10);
    }
  }

  lemma {:induction false} NatToStringOfDigits(d: string)
    requires |d| > 0 && AllDigits(d) && d[0] != '0'
    ensures DigitsValue(d) > 0
    ensures NatToString(DigitsValue(d)) == d
    decreases |d|
  {
    if |d| == 1 {
    } else {
      var p := d[..|d| - 1];
      NatToStringOfDigits(p);
      assert DigitsValue(d) >= 10;
      assert d == p + [d[|d| - 1]];
    }
  }

  /** The decimal text of every integer is an integer key ... */
  lemma IntToStringIsIntKey(i: int)
    ensures IsIntKey(IntToString(i))
  {
    if i < 0 {
      NatToStringNoLeadingZero(-i);
      assert IntToString(i)[1..] == NatToString(-i);
    } else if i > 0 {
      NatToStringNoLeadingZero(i);
    }
  }

  /** ... and every integer key is the decimal text of the integer PHP makes of
      it, so comparing keys as strings is the same as comparing PHP's keys. */
  lemma IntKeyIsCanonical(s: string)
    requires IsIntKey(s)
    ensures IntToString(ParseInt(s)) == s
  {
    if s == "0" {
    } else if |s| > 0 && s[0] == '-' {
      var body := s[1..];
      LeadingDigitsOfDigits(body);
      NatToStringOfDigits(body);
      assert s == "-" + body;
    } else {
      LeadingDigitsOfDigits(s);
      NatToStringOfDigits(s);
    }
  }

  // ----- conversions -------------------------------------------------------

  /** `(string) $v` for a non-float value. */
  function ToStr(v: Scalar): string {
    match v
    case Null => ""
    case Str(s) => s
    case Int(i) => IntToString(i)
    case Bool(b) => if b then "1" else ""
  }

  /** `(int) $v` for a non-float value. */
  function ToInt(v: Scalar): int {
    match v
    case Null => 0
    case Str(s) => ParseInt(s)
    case Int(i) => i
    case Bool(b) => if b then 1 else 0
  }

  /** `t` occurs in `s` as a contiguous substring (`str_contains`). */
  ghost predicate Contains(s: string, t: string) {
    exists i :: OccursAt(s, t, i)
  }

  predicate OccursAt(s: string, t: string, i: int) {
    0 <= i <= |s| - |t| && s[i..i + |t|] == t
  }
}
