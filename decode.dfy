/**
  The decode rules applied to a present value: base-10 integers with an
  optional sign, the booleans "true" and "false", and the set built from the
  parts of a split value.
*/
module Decode {
  import opened Options

  predicate IsDigit(c: char) {
    '0' <= c <= '9'
  }

  predicate AllDigits(s: string) {
    forall i :: 0 <= i < |s| ==> IsDigit(s[i])
  }

  function DigitValue(c: char): nat
    requires IsDigit(c)
  {
    c as int - '0' as int
  }

  function DigitChar(n: nat): (c: char)
    requires n < 10
    ensures IsDigit(c) && DigitValue(c) == n
  {
    ('0' as int + n) as char
  }

  /** The number a string of decimal digits denotes, most significant digit first. */
  function DigitsValue(s: string): nat
    requires AllDigits(s)
  {
    if s == [] then 0
    else DigitsValue(s[..|s| - 1]) * 10 + DigitValue(s[|s| - 1])
  }

  /** One or more decimal digits; anything else is not a magnitude. */
  function ParseMagnitude(s: string): (r: Option<nat>)
    ensures r.Some? <==> s != [] && AllDigits(s)
  {
    if s != [] && AllDigits(s) then Some(DigitsValue(s)) else None
  }

  /**
    A base-10 integer: an optional '+' or '-' followed by one or more digits.
    Any other text (the empty string, a lone sign, a letter, a space) is
    rejected.
  */
  function ParseInt(s: string): (r: Option<int>)
    ensures r.Some? <==>
      (s != [] && if s[0] == '+' || s[0] == '-' then |s| >= 2 && AllDigits(s[1..]) else AllDigits(s))
    ensures s == [] ==> r.None?
    ensures r.Some? && s[0] == '-' ==> r.value <= 0
    ensures r.Some? && s[0] != '-' ==> r.value >= 0
  {
    if s != [] && (s[0] == '+' || s[0] == '-') then
      match ParseMagnitude(s[1..])
      case None => None
      case Some(n) => Some(if s[0] == '-' then -(n as int) else n as int)
    else
      match ParseMagnitude(s)
      case None => None
      case Some(n) => Some(n)
  }

  /** The shortest decimal spelling of a natural number. */
  function FormatNat(n: nat): (r: string)
    ensures r != [] && AllDigits(r)
  {
    if n < 10 then [DigitChar(n)] else FormatNat(n / 10) + [DigitChar(n % 10)]
  }

  /** Go's decimal spelling of an integer, as fmt's %v and strconv.Itoa print it. */
  function FormatInt(i: int): (r: string)
    ensures r != []
  {
    if i < 0 then "-" + FormatNat(-i) else FormatNat(i)
  }

  lemma {:induction false} DigitsValueFormatNat(n: nat)
    ensures DigitsValue(FormatNat(n)) == n
  {
    if n >= 10 {
      DigitsValueFormatNat(n / 10);
      var s := FormatNat(n);
      assert s[..|s| - 1] == FormatNat(n / 10);
    }
  }

  /** Parsing the decimal spelling of any integer gives that integer back. */
  lemma IntRoundTrip(i: int)
    ensures ParseInt(FormatInt(i)) == Some(i)
  {
    var s := FormatInt(i);
    if i < 0 {
      DigitsValueFormatNat(-i);
      assert s[1..] == FormatNat(-i);
    } else {
      DigitsValueFormatNat(i);
      assert IsDigit(s[0]);
    }
  }

  /** `z` zero digits. */
  function Zeros(z: nat): (r: string)
    ensures |r| == z && AllDigits(r)
  {
    if z == 0 then "" else Zeros(z - 1) + "0"
  }

  /** Leading zeros do not change the number a string of digits denotes. */
  lemma {:induction false} LeadingZeros(z: nat, t: string)
    requires AllDigits(t)
    ensures AllDigits(Zeros(z) + t) && DigitsValue(Zeros(z) + t) == DigitsValue(t)
    decreases z + |t|
  {
    var s := Zeros(z) + t;
    if t == [] {
      assert s == Zeros(z);
      if z > 0 {
        LeadingZeros(z - 1, t);
        assert s[..|s| - 1] == Zeros(z - 1) + t;
      }
    } else {
      LeadingZeros(z, t[..|t| - 1]);
      assert s[..|s| - 1] == Zeros(z) + t[..|t| - 1];
      assert s[|s| - 1] == t[|t| - 1];
    }
  }

  /** Digits alone: their value. */
  lemma ParseUnsigned(t: string, v: nat)
    requires t != [] && AllDigits(t) && DigitsValue(t) == v
    ensures ParseInt(t) == Some(v)
  {
    assert IsDigit(t[0]);
  }

  /** A sign followed by digits: the digits' value, negated after '-'. */
  lemma ParseSigned(sign: string, t: string, v: nat)
    requires (sign == "+" || sign == "-") && t != [] && AllDigits(t) && DigitsValue(t) == v
    ensures sign == "+" ==> ParseInt(sign + t) == Some(v)
    ensures sign == "-" ==> ParseInt(sign + t) == Some(-(v as int))
  {
    assert (sign + t)[0] == sign[0] && (sign + t)[1..] == t;
  }

  /** Zeros in front of a canonical spelling: digits that still denote the number. */
  lemma PaddedDigits(z: nat, n: nat)
    ensures var t := Zeros(z) + FormatNat(n); t != [] && AllDigits(t) && DigitsValue(t) == n
  {
    LeadingZeros(z, FormatNat(n));
    DigitsValueFormatNat(n);
  }

  /**
    Non-canonical spellings parse as strconv.Atoi parses them: any number of
    leading zeros, and an explicit '+', leave the value unchanged, and "-"
    negates it (so "-0" is 0).
  */
  lemma ParseIntPadded(z: nat, n: nat)
    ensures ParseInt(Zeros(z) + FormatNat(n)) == Some(n)
    ensures ParseInt("+" + Zeros(z) + FormatNat(n)) == Some(n)
    ensures ParseInt("-" + Zeros(z) + FormatNat(n)) == Some(-(n as int))
  {
    ParsePaddedUnsigned(z, n);
    ParsePaddedSigned("+", z, n);
    ParsePaddedSigned("-", z, n);
  }

  /** Leading zeros alone. */
  lemma ParsePaddedUnsigned(z: nat, n: nat)
    ensures ParseInt(Zeros(z) + FormatNat(n)) == Some(n)
  {
    PaddedDigits(z, n);
    ParseUnsigned(Zeros(z) + FormatNat(n), n);
  }

  /** A sign before leading zeros. */
  lemma ParsePaddedSigned(sign: string, z: nat, n: nat)
    requires sign == "+" || sign == "-"
    ensures sign == "+" ==> ParseInt(sign + Zeros(z) + FormatNat(n)) == Some(n)
    ensures sign == "-" ==> ParseInt(sign + Zeros(z) + FormatNat(n)) == Some(-(n as int))
  {
    PaddedDigits(z, n);
    ParseSigned(sign, Zeros(z) + FormatNat(n), n);
    ConcatAssoc(sign, Zeros(z), FormatNat(n));
  }

  /** Concatenation regroups freely. */
  lemma ConcatAssoc(a: string, b: string, c: string)
    ensures a + b + c == a + (b + c)
  {
  }

  lemma ParseInt123()
    ensures ParseInt("123") == Some(123)
  {
    assert AllDigits("123");
    assert "123"[..2] == "12" && "12"[..1] == "1" && "1"[..0] == "";
    assert DigitsValue("1") == 1;
    assert DigitsValue("12") == 12;
    assert DigitsValue("123") == 123;
  }

  function FormatBool(b: bool): string {
    if b then "true" else "false"
  }

  /** The two canonical spellings; every other text is malformed. */
  function ParseBool(s: string): (r: Option<bool>)
    ensures forall b :: r == Some(b) <==> s == FormatBool(b)
  {
    if s == "true" then Some(true)
    else if s == "false" then Some(false)
    else None
  }

  /** The set of the parts, as Go's map[string]bool with every member mapped to true. */
  function ToSet(parts: seq<string>): (r: map<string, bool>)
    ensures forall k :: k in r <==> k in parts
    ensures forall k :: k in r ==> r[k]
  {
    map p | p in parts :: true
  }
}
