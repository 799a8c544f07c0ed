/** The JavaScript numbers the plugin handles. Every number it computes with is either a whole
    number, `NaN` (what `parseInt` returns for text without leading digits) or `undefined` (a
    field that was never assigned), and its arithmetic and comparisons follow JavaScript:
    anything involving `undefined` or `NaN` compares false and adds up to `NaN`.
 */
module JsNumber {
  import opened Results
  import opened JsString

  datatype Num = Undefined | NaN | Int(value: int)

  /** `a < b` (and, swapped, `b > a`). */
  predicate Less(a: Num, b: Num) {
    a.Int? && b.Int? && a.value < b.value
  }

  /** `a + b`. */
  function Plus(a: Num, b: Num): (r: Num)
    ensures a.Int? && b.Int? ==> r == Int(a.value + b.value)
    ensures !(a.Int? && b.Int?) ==> r == NaN
  {
    if a.Int? && b.Int? then Int(a.value + b.value) else NaN
  }

  // ---------------------------------------------------------------------------------------------
  // Decimal text
  // ---------------------------------------------------------------------------------------------

  predicate IsDigit(c: char) {
    '0' <= c <= '9'
  }

  predicate AllDigits(s: string) {
    forall k :: 0 <= k < |s| ==> IsDigit(s[k])
  }

  function DigitChar(d: nat): (c: char)
    requires d < 10
    ensures IsDigit(c)
  {
    "0123456789"[d]
  }

  function DigitValue(c: char): (d: nat)
    requires IsDigit(c)
    ensures d < 10
  {
    c as int - '0' as int
  }

  /** Decimal digits of `n`, most significant first, without leading zeros. */
  function NatToDecimal(n: nat): (s: string)
    ensures s != [] && AllDigits(s)
    ensures s[0] == '0' ==> n == 0
  {
    if n < 10 then [DigitChar(n)] else NatToDecimal(n / 10) + [DigitChar(n % 10)]
  }

  /** The decimal text of a whole number, `-` first when it is negative. */
  function IntToDecimal(n: int): (s: string)
    ensures s != []
    ensures n < 0 <==> s[0] == '-'
    ensures AllDigits(s[1..])
  {
    if n < 0 then
      var d := NatToDecimal(-n);
      assert ("-" + d)[1..] == d;
      "-" + d
    else
      NatToDecimal(n)
  }

  /** `${x}`: how a template literal renders the number. */
  function ToText(x: Num): string {
    match x
    case Undefined => "undefined"
    case NaN => "NaN"
    case Int(n) => IntToDecimal(n)
  }

  // ---------------------------------------------------------------------------------------------
  // parseInt(value, 10)
  // ---------------------------------------------------------------------------------------------

  /** The number a run of decimal digits denotes. */
  function DigitsValue(ds: string): nat
    requires AllDigits(ds)
  {
    if ds == [] then 0 else DigitsValue(ds[..|ds| - 1]) * 10 + DigitValue(ds[|ds| - 1])
  }

  /** The longest prefix of `s` made of decimal digits. */
  function LeadingDigits(s: string): (r: string)
    ensures |r| <= |s| && r == s[..|r|]
    ensures AllDigits(r)
    ensures |r| < |s| ==> !IsDigit(s[|r|])
  {
    if s != [] && IsDigit(s[0]) then [s[0]] + LeadingDigits(s[1..]) else []
  }

  /** `parseInt(s, 10)`: skip leading whitespace, then read a signed run of digits. */
  function ParseInt(s: string): (r: Num)
    ensures r != Undefined
  {
    ParseSigned(TrimStart(s))
  }

  /** An optional sign, then the longest run of decimal digits; `NaN` when that run is empty.
      Whatever follows the digits is ignored. */
  function ParseSigned(t: string): (r: Num)
    ensures r != Undefined
  {
    var negative := t != [] && t[0] == '-';
    var body := if t != [] && (t[0] == '-' || t[0] == '+') then t[1..] else t;
    var ds := LeadingDigits(body);
    var magnitude: int := DigitsValue(ds);
    if ds == [] then NaN
    else if negative then Int(-magnitude)
    else Int(magnitude)
  }

  /** `parseInt(value, 10)` where `value` may be `undefined`, which `parseInt` reads as the text
      "undefined". */
  function ParseIntOf(value: Option<string>): Num {
    ParseInt(value.GetOr("undefined"))
  }

  /** A missing value parses as `NaN`. */
  lemma ParseIntOfMissing()
    ensures ParseIntOf(None) == NaN
  {
    assert !IsDigit("undefined"[0]);
    TrimStartOfWhitePrefix([], "undefined");
    assert [] + "undefined" == "undefined";
  }

  lemma {:induction false} DigitsValueOfDecimal(n: nat)
    ensures DigitsValue(NatToDecimal(n)) == n
  {
    var s := NatToDecimal(n);
    if n >= 10 {
      assert s[..|s| - 1] == NatToDecimal(n / 10);
      DigitsValueOfDecimal(n / 10);
    }
  }

  lemma LeadingDigitsOfDigits(ds: string, rest: string)
    requires AllDigits(ds)
    requires rest == [] || !IsDigit(rest[0])
    ensures LeadingDigits(ds + rest) == ds
  {
    var s := ds + rest;
    assert forall k :: 0 <= k < |ds| ==> s[k] == ds[k];
    assert |ds| < |s| ==> s[|ds|] == rest[0];
  }

  /** Leading whitespace does not change what `parseInt` reads. */
  lemma ParseIntSkipsWhiteSpace(a: string, t: string)
    requires AllWhiteSpace(a)
    requires t == [] || !IsWhiteSpace(t[0])
    ensures ParseInt(a + t) == ParseInt(t)
  {
    TrimStartOfWhitePrefix(a, t);
    TrimStartOfWhitePrefix([], t);
    assert [] + t == t;
  }

  lemma ParseSignedOfDigits(digits: string, rest: string)
    requires digits != [] && AllDigits(digits)
    requires rest == [] || !IsDigit(rest[0])
    ensures ParseSigned(digits + rest) == Int(DigitsValue(digits))
  {
    LeadingDigitsOfDigits(digits, rest);
    assert (digits + rest)[0] == digits[0];
  }

  lemma ParseSignedOfNegated(digits: string, rest: string)
    requires digits != [] && AllDigits(digits)
    requires rest == [] || !IsDigit(rest[0])
    ensures ParseSigned("-" + (digits + rest)) == Int(0 - DigitsValue(digits))
  {
    LeadingDigitsOfDigits(digits, rest);
    var t := "-" + (digits + rest);
    assert t[0] == '-';
    assert t[1..] == digits + rest;
  }

  lemma ParseSignedOfNat(n: nat, rest: string)
    requires rest == [] || !IsDigit(rest[0])
    ensures ParseSigned(NatToDecimal(n) + rest) == Int(n)
  {
    ParseSignedOfDigits(NatToDecimal(n), rest);
    DigitsValueOfDecimal(n);
  }

  lemma ParseSignedOfNegatedNat(n: nat, rest: string)
    requires rest == [] || !IsDigit(rest[0])
    ensures ParseSigned("-" + (NatToDecimal(n) + rest)) == Int(0 - n)
  {
    ParseSignedOfNegated(NatToDecimal(n), rest);
    DigitsValueOfDecimal(n);
  }

  lemma NegativeDecimal(n: int, m: nat)
    requires n < 0 && m == -n
    ensures IntToDecimal(n) == "-" + NatToDecimal(m)
  {
  }

  lemma ParseSignedOfNegative(n: int, rest: string)
    requires n < 0
    requires rest == [] || !IsDigit(rest[0])
    ensures ParseSigned(IntToDecimal(n) + rest) == Int(n)
  {
    var m: nat := -n;
    NegativeDecimal(n, m);
    ConcatAssoc("-", NatToDecimal(m), rest);
    ParseSignedOfNegatedNat(m, rest);
    assert 0 - m == n;
  }

  lemma ParseSignedOfNonNegative(n: int, rest: string)
    requires 0 <= n
    requires rest == [] || !IsDigit(rest[0])
    ensures ParseSigned(IntToDecimal(n) + rest) == Int(n)
  {
    assert IntToDecimal(n) == NatToDecimal(n);
    ParseSignedOfNat(n, rest);
  }

  lemma ParseIntOfDecimalText(n: int, rest: string)
    requires rest == [] || !IsDigit(rest[0])
    ensures ParseInt(IntToDecimal(n) + rest) == Int(n)
  {
    var text := IntToDecimal(n) + rest;
    assert text[0] == IntToDecimal(n)[0];
    assert n >= 0 ==> IsDigit(text[0]);
    TrimStartOfWhitePrefix([], text);
    assert [] + text == text;
    if n < 0 { ParseSignedOfNegative(n, rest); } else { ParseSignedOfNonNegative(n, rest); }
  }

  /** `parseInt` reads back the decimal text of any whole number, whatever whitespace comes
      before it and whatever non-digit text follows it (so `parseInt("12px")` is 12). */
  lemma ParseIntOfDecimal(a: string, n: int, rest: string)
    requires AllWhiteSpace(a)
    requires rest == [] || !IsDigit(rest[0])
    ensures ParseInt(a + IntToDecimal(n) + rest) == Int(n)
  {
    var text := IntToDecimal(n) + rest;
    assert a + IntToDecimal(n) + rest == a + text;
    assert text[0] == IntToDecimal(n)[0];
    assert n >= 0 ==> IsDigit(text[0]);
    ParseIntSkipsWhiteSpace(a, text);
    ParseIntOfDecimalText(n, rest);
  }
}
