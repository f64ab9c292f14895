/** Signed 64-bit integers as decimal text: `std::to_string` and the prefix parser behind
    `std::stoll` and `std::stoi`. */
module Numbers {
  import opened Text

  const INT64_MIN: int := -0x8000_0000_0000_0000
  const INT64_MAX: int := 0x7fff_ffff_ffff_ffff
  const INT32_MIN: int := -0x8000_0000
  const INT32_MAX: int := 0x7fff_ffff

  predicate IsInt64(n: int) { INT64_MIN <= n <= INT64_MAX }

  /** Two's-complement wrap-around of a sum that leaves the 64-bit range. */
  function Wrap64(n: int): (r: int)
    ensures IsInt64(r)
    ensures IsInt64(n) ==> r == n
  {
    var m := n % 0x1_0000_0000_0000_0000;
    if m > INT64_MAX then m - 0x1_0000_0000_0000_0000 else m
  }

  lemma WrapPeriod(q: int, n: int)
    ensures Wrap64(q * 0x1_0000_0000_0000_0000 + n) == Wrap64(n)
  {
  }

  lemma WrapIsShift(n: int) returns (q: int)
    ensures Wrap64(n) == q * 0x1_0000_0000_0000_0000 + n
  {
    q := -(n / 0x1_0000_0000_0000_0000);
    if Wrap64(n) < 0 { q := q - 1; }
  }

  /** Wrapping early or late makes no difference. */
  lemma WrapOnce(n: int, m: int)
    ensures Wrap64(Wrap64(n) + m) == Wrap64(n + m)
  {
    var q := WrapIsShift(n);
    WrapPeriod(q, n + m);
    assert Wrap64(n) + m == q * 0x1_0000_0000_0000_0000 + (n + m);
  }

  lemma WrapsCommute(n: int, a: int, b: int)
    ensures Wrap64(Wrap64(n + a) + b) == Wrap64(Wrap64(n + b) + a)
  {
    WrapOnce(n + a, b);
    WrapOnce(n + b, a);
    assert n + a + b == n + b + a;
  }

  predicate IsDigit(c: char) { '0' <= c <= '9' }

  predicate AllDigits(s: string) { forall i :: 0 <= i < |s| ==> IsDigit(s[i]) }

  function DigitOf(d: nat): (c: char)
    requires d < 10
    ensures IsDigit(c) && ValueOf(c) == d
  {
    (d + '0' as int) as char
  }

  function ValueOf(c: char): nat
    requires IsDigit(c)
  {
    c as int - '0' as int
  }

  // ---------------------------------------------------------------- printing

  function DecimalNat(n: nat): (s: string)
    ensures s != "" && AllDigits(s)
  {
    if n < 10 then [DigitOf(n)] else DecimalNat(n / 10) + [DigitOf(n % 10)]
  }

  /** `std::to_string`. */
  function Decimal(n: int): (s: string)
    ensures s != ""
  {
    if n < 0 then "-" + DecimalNat(-n) else DecimalNat(n)
  }

  // ---------------------------------------------------------------- parsing

  function NatValue(s: string): nat
    requires AllDigits(s)
  {
    if s == "" then 0 else 10 * NatValue(s[..|s| - 1]) + ValueOf(s[|s| - 1])
  }

  function DigitPrefix(s: string): (n: nat)
    ensures n <= |s| && AllDigits(s[..n])
    ensures n < |s| ==> !IsDigit(s[n])
  {
    if s == "" || !IsDigit(s[0]) then 0 else
      var n := DigitPrefix(s[1..]);
      assert forall i :: 1 <= i < n + 1 ==> s[i] == s[1..][..n][i - 1];
      1 + n
  }

  function SkipSpaces(s: string): string {
    if s != "" && IsSpace(s[0]) then SkipSpaces(s[1..]) else s
  }

  /** `strtoll` with base 10: leading whitespace, one sign, then as many digits as there are.
      None when there is no digit or the value leaves [lo, hi] (both are exceptions in C++). */
  function ParsePrefix(s: string, lo: int, hi: int): (r: Option<int>)
    ensures r.Some? ==> lo <= r.value <= hi
  {
    var t := SkipSpaces(s);
    var signed := t != "" && (t[0] == '-' || t[0] == '+');
    var negative := t != "" && t[0] == '-';
    var body := if signed then t[1..] else t;
    var n := DigitPrefix(body);
    if n == 0 then None
    else
      var magnitude: int := NatValue(body[..n]);
      var value: int := if negative then -magnitude else magnitude;
      if lo <= value <= hi then Some(value) else None
  }

  function Stoll(s: string): Option<int> { ParsePrefix(s, INT64_MIN, INT64_MAX) }

  function Stoi(s: string): Option<int> { ParsePrefix(s, INT32_MIN, INT32_MAX) }

  /** The argument of EX and EXPIRE: digits only, in range, strictly positive. */
  function PositiveSeconds(s: string): Option<int> {
    if s == "" || !AllDigits(s) then None
    else match Stoll(s)
      case Some(n) => if n <= 0 then None else Some(n)
      case None => None
  }

  // ---------------------------------------------------------------- round trip

  lemma {:induction false} NatValueDecimal(n: nat)
    ensures NatValue(DecimalNat(n)) == n
  {
    var s := DecimalNat(n);
    if n >= 10 {
      NatValueDecimal(n / 10);
      assert s[..|s| - 1] == DecimalNat(n / 10);
    } else {
      assert s[..|s| - 1] == "";
    }
  }

  lemma {:induction false} DigitPrefixOf(digits: string, rest: string)
    requires AllDigits(digits) && (rest != "" ==> !IsDigit(rest[0]))
    ensures DigitPrefix(digits + rest) == |digits|
  {
    if digits == "" {
      assert digits + rest == rest;
    } else {
      DigitPrefixOf(digits[1..], rest);
      assert (digits + rest)[1..] == digits[1..] + rest;
    }
  }

  lemma ParseDecimalNat(n: nat, rest: string)
    requires rest != "" ==> !IsDigit(rest[0])
    ensures var s := DecimalNat(n) + rest;
            DigitPrefix(s) == |DecimalNat(n)| && NatValue(s[..DigitPrefix(s)]) == n
  {
    var digits := DecimalNat(n);
    DigitPrefixOf(digits, rest);
    NatValueDecimal(n);
    assert (digits + rest)[..|digits|] == digits;
  }

  lemma ParseUnsigned(n: nat, rest: string, lo: int, hi: int)
    requires lo <= n <= hi && (rest != "" ==> !IsDigit(rest[0]))
    ensures ParsePrefix(DecimalNat(n) + rest, lo, hi) == Some(n)
  {
    var s := DecimalNat(n) + rest;
    ParseDecimalNat(n, rest);
    assert s[0] == DecimalNat(n)[0] && IsDigit(s[0]);
    assert SkipSpaces(s) == s;
  }

  lemma ParseNegative(n: nat, rest: string, lo: int, hi: int)
    requires lo <= 0 - n <= hi && (rest != "" ==> !IsDigit(rest[0]))
    ensures ParsePrefix("-" + DecimalNat(n) + rest, lo, hi) == Some(0 - n)
  {
    var s := "-" + DecimalNat(n) + rest;
    ParseDecimalNat(n, rest);
    assert SkipSpaces(s) == s;
    assert s[1..] == DecimalNat(n) + rest;
  }

  /** Printing a 64-bit integer and parsing it back is the identity, and so it is when anything that
      does not start with a digit follows: the parser reads the longest numeric prefix. */
  lemma StollReadsPrefix(n: int, rest: string)
    requires IsInt64(n) && (rest != "" ==> !IsDigit(rest[0]))
    ensures Stoll(Decimal(n) + rest) == Some(n)
  {
    if n < 0 {
      ParseNegative(-n, rest, INT64_MIN, INT64_MAX);
    } else {
      ParseUnsigned(n, rest, INT64_MIN, INT64_MAX);
    }
  }

  /** A port is a number of 32 bits. */
  lemma StoiOfDecimal(n: int)
    ensures Stoi(Decimal(n)) == if INT32_MIN <= n <= INT32_MAX then Some(n) else None
  {
    ParseDecimalNat(if n < 0 then -n else n, "");
    var digits := DecimalNat(if n < 0 then -n else n);
    assert digits + "" == digits && IsDigit(digits[0]);
    assert SkipSpaces(Decimal(n)) == Decimal(n);
    if n < 0 { assert Decimal(n)[1..] == digits; }
  }

  /** A plus sign is read over, and text without a digit where the number should be is none. */
  lemma StollSigns(n: nat, text: string)
    requires n <= INT64_MAX
    ensures Stoll("+" + Decimal(n)) == Some(n)
    ensures text != "" && !IsSpace(text[0]) && !IsDigit(text[0]) && text[0] != '-' && text[0] != '+' ==>
              Stoll(text) == None
    ensures Stoll("") == None && Stoll("-") == None && Stoll("+") == None
  {
    var s := "+" + Decimal(n);
    ParseDecimalNat(n, "");
    assert DecimalNat(n) + "" == DecimalNat(n) && s[1..] == DecimalNat(n) && SkipSpaces(s) == s;
  }

  lemma StollDecimal(n: int)
    requires IsInt64(n)
    ensures Stoll(Decimal(n)) == Some(n)
  {
    StollReadsPrefix(n, "");
    assert Decimal(n) + "" == Decimal(n);
  }

  lemma StollOfDigits(s: string)
    requires s != "" && AllDigits(s)
    ensures Stoll(s) == if NatValue(s) <= INT64_MAX then Some(NatValue(s)) else None
  {
    DigitPrefixOf(s, "");
    assert s + "" == s && s[..|s|] == s;
    assert SkipSpaces(s) == s by { assert IsDigit(s[0]); }
  }

  /** Exactly the digit strings from 1 to the largest 64-bit integer are expiry times. */
  lemma PositiveSecondsExact(s: string)
    ensures PositiveSeconds(s)
            == if s != "" && AllDigits(s) && 1 <= NatValue(s) <= INT64_MAX then Some(NatValue(s)) else None
  {
    if s != "" && AllDigits(s) { StollOfDigits(s); }
  }

  lemma PositiveSecondsDecimal(n: int)
    requires 0 < n <= INT64_MAX
    ensures PositiveSeconds(Decimal(n)) == Some(n)
  {
    StollDecimal(n);
  }

  function Pow10(d: nat): nat { if d == 0 then 1 else 10 * Pow10(d - 1) }

  lemma {:induction false} DecimalNatLength(n: nat, d: nat)
    requires d > 0 && n < Pow10(d)
    ensures |DecimalNat(n)| <= d
  {
    if n >= 10 { DecimalNatLength(n / 10, d - 1); }
  }

  /** A counter's text is a token of at most 20 bytes (19 digits and a sign). */
  lemma DecimalIsShortToken(n: int)
    requires IsInt64(n)
    ensures IsToken(Decimal(n)) && |Decimal(n)| <= 20
  {
    var m: nat := if n < 0 then -n else n;
    assert Pow10(10) == 10_000_000_000;
    assert Pow10(19) == 10_000_000_000_000_000_000;
    DecimalNatLength(m, 19);
  }
}
