/**
 * The few JavaScript built-ins whose behaviour decides a handler's result: `String(v)` on a request
 * value, the decimal rendering of a number, and `parseInt(s)` with no radix argument.
 */
module Js {
  import opened Optional

  /** A JSON request value, as Express hands it to a handler (an absent field is an `Option` None). */
  datatype JsValue = JsNull | JsBool(b: bool) | JsNumber(n: int) | JsString(s: string)

  predicate IsDigit(c: char) {
    '0' <= c <= '9'
  }

  function DigitChar(d: nat): (c: char)
    requires d < 10
    ensures IsDigit(c)
  {
    (48 + d) as char
  }

  /** The decimal rendering of a non-negative integer, without leading zeros. */
  function NatToString(n: nat): (s: string)
    ensures |s| >= 1
    ensures forall i :: 0 <= i < |s| ==> IsDigit(s[i])
    ensures n > 0 ==> s[0] != '0'
  {
    if n < 10 then [DigitChar(n)] else NatToString(n / 10) + [DigitChar(n % 10)]
  }

  /** `String(i)` for an integral number. */
  function IntToString(i: int): (s: string)
    ensures |s| >= 1 && (s[0] == '-' || IsDigit(s[0]))
  {
    if i < 0 then "-" + NatToString(-i) else NatToString(i)
  }

  /** `String(v)`. */
  function ToString(v: JsValue): (s: string)
    ensures v.JsString? ==> s == v.s
    ensures s == "true" <==> v == JsBool(true) || v == JsString("true")
  {
    match v
    case JsNull => "null"
    case JsBool(b) => if b then "true" else "false"
    case JsNumber(n) => IntToString(n)
    case JsString(s) => s
  }

  /** The characters `parseInt` skips before the number (ECMAScript's WhiteSpace and LineTerminator). */
  predicate IsJsSpace(c: char) {
    c == '\t' || c == '\n' || c == '\U{B}' || c == '\U{C}' || c == '\r' || c == ' ' ||
    c == '\U{A0}' || c == '\U{1680}' || ('\U{2000}' <= c <= '\U{200A}') || c == '\U{2028}' ||
    c == '\U{2029}' || c == '\U{202F}' || c == '\U{205F}' || c == '\U{3000}' || c == '\U{FEFF}'
  }

  function TrimStart(s: string): (r: string)
    ensures |r| <= |s|
    ensures r == s[|s| - |r|..]
    ensures r != [] ==> !IsJsSpace(r[0])
  {
    if s != [] && IsJsSpace(s[0]) then TrimStart(s[1..]) else s
  }

  /** The value of `c` as a digit in base `radix` (10 or 16), or None when it is not one. */
  function DigitIn(c: char, radix: nat): (r: Option<nat>)
    ensures r.Some? ==> r.value < radix
  {
    if '0' <= c <= '9' && (c as int) - 48 < radix then Some((c as int) - 48)
    else if radix == 16 && 'a' <= c <= 'f' then Some((c as int) - 87)
    else if radix == 16 && 'A' <= c <= 'F' then Some((c as int) - 55)
    else None
  }

  /** The digits of the longest prefix of `s` made of digits in base `radix`. */
  function LeadingDigits(s: string, radix: nat): (ds: seq<nat>)
    ensures |ds| <= |s|
  {
    if s != [] && DigitIn(s[0], radix).Some? then [DigitIn(s[0], radix).value] + LeadingDigits(s[1..], radix)
    else []
  }

  /** The number a digit sequence denotes, most significant digit first. */
  function ValueOf(ds: seq<nat>, radix: nat): nat {
    if ds == [] then 0 else ValueOf(ds[..|ds| - 1], radix) * radix + ds[|ds| - 1]
  }

  /**
   * `parseInt(s)` with no radix: skip leading white space, read an optional sign, read a `0x`/`0X`
   * prefix as base 16, then take the longest run of digits. None stands for NaN (no digit at all).
   */
  function ParseInt(s: string): (r: Option<int>)
    ensures TrimStart(s) == [] ==> r.None?
    ensures TrimStart(s) != [] && !IsDigit(TrimStart(s)[0]) && TrimStart(s)[0] != '-' && TrimStart(s)[0] != '+' ==>
              r.None?
    ensures r.Some? && r.value < 0 ==> TrimStart(s)[0] == '-'
  {
    var t := TrimStart(s);
    var negative := t != [] && t[0] == '-';
    var u := if t != [] && (t[0] == '-' || t[0] == '+') then t[1..] else t;
    var hex := |u| >= 2 && u[0] == '0' && (u[1] == 'x' || u[1] == 'X');
    var radix := if hex then 16 else 10;
    var ds := LeadingDigits(if hex then u[2..] else u, radix);
    var v: int := ValueOf(ds, radix);
    if ds == [] then None else if negative then Some(-v) else Some(v)
  }

  /**
   * `parseInt(q) || fallback` for a query-string value `q` (None when the parameter is absent,
   * where `parseInt(undefined)` is NaN): NaN and 0 are falsy, so both give the fallback.
   */
  function ParseIntOr(q: Option<string>, fallback: int): (r: int)
    ensures q.None? ==> r == fallback
    ensures r == fallback || (q.Some? && ParseInt(q.value) == Some(r) && r != 0)
    ensures q.Some? && ParseInt(q.value).Some? && ParseInt(q.value).value != 0 ==> r == ParseInt(q.value).value
  {
    if q.None? then fallback
    else match ParseInt(q.value)
      case None => fallback
      case Some(v) => if v == 0 then fallback else v
  }

  /** Reading digits stops at the first non-digit: the digits of `a + [c]` extend those of `a` by `c`. */
  lemma {:induction false} LeadingDigitsSnoc(a: string, c: char)
    requires forall i :: 0 <= i < |a| ==> IsDigit(a[i])
    requires IsDigit(c)
    ensures LeadingDigits(a + [c], 10) == LeadingDigits(a, 10) + [DigitIn(c, 10).value]
    ensures |LeadingDigits(a, 10)| == |a|
  {
    if a != [] {
      assert (a + [c])[1..] == a[1..] + [c];
      LeadingDigitsSnoc(a[1..], c);
    }
  }

  /** The digits of a number's decimal rendering denote that number. */
  lemma {:induction false} DecimalDigits(n: nat)
    ensures LeadingDigits(NatToString(n), 10) != []
    ensures ValueOf(LeadingDigits(NatToString(n), 10), 10) == n
  {
    if n >= 10 {
      DecimalDigits(n / 10);
      var d := DigitChar(n % 10);
      LeadingDigitsSnoc(NatToString(n / 10), d);
      var ds := LeadingDigits(NatToString(n), 10);
      assert ds[..|ds| - 1] == LeadingDigits(NatToString(n / 10), 10);
    }
  }

  /** `parseInt` reads back the decimal rendering of any non-negative integer. */
  lemma ParseIntRoundTrip(n: nat)
    ensures ParseInt(NatToString(n)) == Some(n)
  {
    var s := NatToString(n);
    assert !IsJsSpace(s[0]);
    assert TrimStart(s) == s;
    DecimalDigits(n);
  }

  /** Distinct numbers render differently, so a name built from an id determines the id. */
  lemma NatToStringInjective(a: nat, b: nat)
    requires NatToString(a) == NatToString(b)
    ensures a == b
  {
    ParseIntRoundTrip(a);
    ParseIntRoundTrip(b);
  }

  /** `parseInt(String(n)) || fallback` is `n` for every positive `n`. */
  lemma ParseIntOrPositive(n: nat, fallback: int)
    requires n > 0
    ensures ParseIntOr(Some(NatToString(n)), fallback) == n
  {
    ParseIntRoundTrip(n);
  }

  /** A value whose first non-blank character cannot start a number parses to NaN, hence to the fallback. */
  lemma ParseIntOrNonNumeric(s: string, fallback: int)
    requires TrimStart(s) != [] && !IsDigit(TrimStart(s)[0])
    requires TrimStart(s)[0] != '-' && TrimStart(s)[0] != '+'
    ensures ParseIntOr(Some(s), fallback) == fallback
  {
  }
}
