/** Decimal numerals: Python's `int(text)` for base-10 strings, and `str(n)`. */
module Numbers {
  import opened Wrappers
  import opened Text

  predicate AllDigits(s: string) {
    forall k :: 0 <= k < |s| ==> IsDecimal(s[k])
  }

  function DigitValue(c: char): nat
    requires IsDecimal(c)
  {
    c as int - '0' as int
  }

  function DigitChar(d: nat): (c: char)
    requires d < 10
    ensures IsDecimal(c) && DigitValue(c) == d
  {
    ('0' as int + d) as char
  }

  /** The value of a string of decimal digits, leading zeros allowed. */
  function DigitsValue(s: string): nat
    requires AllDigits(s)
  {
    if s == [] then 0 else 10 * DigitsValue(s[..|s| - 1]) + DigitValue(s[|s| - 1])
  }

  /** `str(n)` for a natural number: shortest decimal numeral, no leading zero. */
  function NatToString(n: nat): (s: string)
    ensures |s| > 0 && AllDigits(s)
    ensures |s| > 1 ==> s[0] != '0'
  {
    if n < 10 then [DigitChar(n)] else NatToString(n / 10) + [DigitChar(n % 10)]
  }

  /** Reading back a rendered natural number gives the number. */
  lemma {:induction false} NatToStringRoundTrip(n: nat)
    ensures DigitsValue(NatToString(n)) == n
  {
    if n >= 10 {
      var s := NatToString(n);
      assert s[..|s| - 1] == NatToString(n / 10);
      NatToStringRoundTrip(n / 10);
    }
  }

  /** The digits of an integer literal as `int()` accepts them: decimal digits, optionally
      grouped by single underscores that neither start nor end the numeral. */
  predicate IsDigitGroups(s: string) {
    && |s| > 0 && IsDecimal(s[0]) && IsDecimal(s[|s| - 1])
    && (forall k :: 0 <= k < |s| ==> IsDecimal(s[k]) || s[k] == '_')
    && (forall k :: 0 < k < |s| && s[k] == '_' ==> s[k - 1] != '_')
  }

  function DropUnderscores(s: string): (r: string)
    requires forall k :: 0 <= k < |s| ==> IsDecimal(s[k]) || s[k] == '_'
    ensures AllDigits(r)
    ensures AllDigits(s) ==> r == s
  {
    if s == [] then []
    else if s[0] == '_' then DropUnderscores(s[1..])
    else [s[0]] + DropUnderscores(s[1..])
  }

  /** `int(s)`: surrounding whitespace, an optional sign, then grouped decimal digits;
      `None` where Python raises `ValueError`. */
  function ParseInt(s: string): Option<int> {
    ParseSigned(Strip(s))
  }

  /** An optional sign, then grouped decimal digits. */
  function ParseSigned(t: string): Option<int> {
    var signed := |t| > 0 && (t[0] == '-' || t[0] == '+');
    var body := if signed then t[1..] else t;
    if IsDigitGroups(body) then
      var n: int := DigitsValue(DropUnderscores(body));
      Some(if signed && t[0] == '-' then -n else n)
    else None
  }

  /** `str(i)`. */
  function IntToString(i: int): string {
    if i < 0 then "-" + NatToString(-i) else NatToString(i)
  }

  /** `int(str(i)) == i`. */
  lemma IntToStringRoundTrip(i: int)
    ensures ParseInt(IntToString(i)) == Some(i)
  {
    if i < 0 {
      ParseNegativeDigits(NatToString(-i));
      NatToStringRoundTrip(-i);
    } else {
      ParseDigits(NatToString(i));
      NatToStringRoundTrip(i);
    }
  }

  /** A numeral of plain digits reads as its value. */
  lemma ParseDigits(s: string)
    requires |s| > 0 && AllDigits(s)
    ensures ParseInt(s) == Some(DigitsValue(s))
  {
    assert IsDecimal(s[0]) && IsDecimal(s[|s| - 1]);
    StripUnspaced(s);
    assert ParseSigned(Strip(s)) == ParseSigned(s);
    assert IsDigitGroups(s);
  }

  /** A minus sign and a numeral of plain digits read as the negated value. */
  lemma ParseNegativeDigits(s: string)
    requires |s| > 0 && AllDigits(s)
    ensures ParseInt("-" + s).Some? && ParseInt("-" + s).value == -(DigitsValue(s) as int)
  {
    var t := "-" + s;
    assert t[0] == '-' && t[|t| - 1] == s[|s| - 1] && t[1..] == s;
    assert IsDigitGroups(s) && DropUnderscores(s) == s;
    var n: int := DigitsValue(s);
    assert ParseSigned(t).Some? && ParseSigned(t).value == -n;
    StripUnspaced(t);
    assert ParseInt(t) == ParseSigned(t);
  }
}
