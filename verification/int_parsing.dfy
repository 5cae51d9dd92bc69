/** `parseInt(x, 10)` of ECMA-262 (section 19.2.5, "parseInt ( string,
    radix )") on the text of a query parameter, and the `|| default` that
    the list-query middleware puts after it. The result of `parseInt` is an
    integer or NaN; `None` stands for NaN. */
module IntParsing {
  import opened Wrappers
  import QueryValues

  /** StrWhiteSpaceChar: the WhiteSpace and LineTerminator code points
      (tab, vertical tab, form feed, space, no-break space, the byte order
      mark, the other space separators of category Zs, line feed, carriage
      return, line and paragraph separator). */
  predicate IsSpace(c: char) {
    c == '\t' || c == '\n' || c as int == 0x0B || c as int == 0x0C || c == '\r'
    || c == ' ' || c as int == 0xA0 || c as int == 0x1680
    || (0x2000 <= c as int <= 0x200A)
    || c as int == 0x2028 || c as int == 0x2029 || c as int == 0x202F
    || c as int == 0x205F || c as int == 0x3000 || c as int == 0xFEFF
  }

  predicate IsDigit(c: char) {
    '0' <= c <= '9'
  }

  predicate AllSpace(s: string) {
    forall i :: 0 <= i < |s| ==> IsSpace(s[i])
  }

  predicate AllDigits(s: string) {
    forall i :: 0 <= i < |s| ==> IsDigit(s[i])
  }

  /** The text with its leading white space removed. */
  function TrimStart(s: string): (r: string)
    ensures |r| <= |s|
    ensures r == [] || !IsSpace(r[0])
  {
    if s != [] && IsSpace(s[0]) then TrimStart(s[1..]) else s
  }

  /** The longest prefix made of decimal digits. */
  function LeadingDigits(s: string): (r: string)
    ensures |r| <= |s| && AllDigits(r)
  {
    if s != [] && IsDigit(s[0]) then [s[0]] + LeadingDigits(s[1..]) else []
  }

  function DigitValue(c: char): int
    requires IsDigit(c)
  {
    c as int - '0' as int
  }

  /** The number a string of decimal digits denotes. */
  function Value(d: string): (n: nat)
    requires AllDigits(d)
  {
    if d == [] then 0 else Value(d[..|d| - 1]) * 10 + DigitValue(d[|d| - 1])
  }

  /** `parseInt(s, 10)`: white space, an optional sign, then as many digits
      as there are; NaN when there is no digit. A radix prefix such as `0x`
      is not recognised with radix 10, so it stops at the `x`. */
  function ParseInt(s: string): Option<int>
  {
    ParseSigned(TrimStart(s))
  }

  /** The part of `parseInt` after the white space. */
  function ParseSigned(t: string): Option<int>
  {
    var negative := t != [] && t[0] == '-';
    var body := if t != [] && (t[0] == '+' || t[0] == '-') then t[1..] else t;
    var digits := LeadingDigits(body);
    var v: int := if digits == [] then 0 else Value(digits);
    if digits == [] then None
    else Some(if negative then -v else v)
  }

  /** `parseInt(String(x), 10) || default`: NaN and zero (also `-0`) are
      falsy and give the default; every other result, negative ones
      included, is kept. */
  function ParamOr(x: Option<QueryValues.QValue>, default: int): (r: int)
    ensures r == default || ParseInt(QueryValues.ParamText(x)) == Some(r)
    ensures r != default ==> r != 0
    ensures var n := ParseInt(QueryValues.ParamText(x));
      n.Some? && n.value != 0 ==> r == n.value
    ensures var n := ParseInt(QueryValues.ParamText(x));
      n.None? || n == Some(0) ==> r == default
  {
    match ParseInt(QueryValues.ParamText(x))
    case Some(n) => if n != 0 then n else default
    case None => default
  }

  // ---------------------------------------------------------------------
  // The decimal text of an integer, and parsing it back

  function DigitChar(d: int): (c: char)
    requires 0 <= d < 10
    ensures IsDigit(c) && DigitValue(c) == d
  {
    ('0' as int + d) as char
  }

  /** The decimal digits of a natural number, without leading zeros. */
  function Digits(n: nat): (d: string)
    ensures |d| >= 1 && AllDigits(d)
  {
    if n < 10 then [DigitChar(n)] else Digits(n / 10) + [DigitChar(n % 10)]
  }

  /** `String(n)` for an integer (within the range JavaScript prints
      without an exponent). */
  function Decimal(n: int): string {
    if n < 0 then "-" + Digits(-n) else Digits(n)
  }

  lemma {:induction false} ValueOfDigits(n: nat)
    ensures Value(Digits(n)) == n
  {
    if n >= 10 {
      var d := Digits(n);
      assert d[..|d| - 1] == Digits(n / 10);
      ValueOfDigits(n / 10);
    }
  }

  lemma {:induction false} TrimSpaces(ws: string, t: string)
    requires AllSpace(ws) && (t == [] || !IsSpace(t[0]))
    ensures TrimStart(ws + t) == t
    decreases |ws|
  {
    if ws == [] {
      assert ws + t == t;
    } else {
      assert (ws + t)[1..] == ws[1..] + t;
      TrimSpaces(ws[1..], t);
    }
  }

  lemma {:induction false} LeadingDigitsStop(d: string, rest: string)
    requires AllDigits(d) && (rest == [] || !IsDigit(rest[0]))
    ensures LeadingDigits(d + rest) == d
    decreases |d|
  {
    if d == [] {
      assert d + rest == rest;
    } else {
      assert (d + rest)[1..] == d[1..] + rest;
      LeadingDigitsStop(d[1..], rest);
      assert [d[0]] + d[1..] == d;
    }
  }

  /** After optional white space, the decimal text of any integer parses
      back to that integer, whatever non-digit text follows it. */
  lemma ParseDecimal(ws: string, n: int, rest: string)
    requires AllSpace(ws) && (rest == [] || !IsDigit(rest[0]))
    ensures ParseInt(ws + Decimal(n) + rest) == Some(n)
  {
    var t := Decimal(n) + rest;
    assert ws + Decimal(n) + rest == ws + t;
    TrimSpaces(ws, t);
    ParseDecimalSigned(n, rest);
  }

  lemma ParseDecimalSigned(n: int, rest: string)
    requires rest == [] || !IsDigit(rest[0])
    ensures ParseSigned(Decimal(n) + rest) == Some(n)
  {
    var m := if n < 0 then -n else n;
    var d := Digits(m);
    ValueOfDigits(m);
    LeadingDigitsStop(d, rest);
    if n < 0 {
      assert Decimal(n) + rest == "-" + (d + rest);
      assert ("-" + (d + rest))[1..] == d + rest;
    }
  }

  /** The round trip on the bare decimal text. */
  lemma ParseDecimalText(n: int)
    ensures ParseInt(Decimal(n)) == Some(n)
  {
    ParseDecimal([], n, []);
    assert [] + Decimal(n) + [] == Decimal(n);
  }

  /** Text whose first character after the white space is neither a digit
      nor a sign followed by a digit is NaN. */
  lemma ParseNaN(s: string)
    requires var t := TrimStart(s);
      t == [] || (!IsDigit(t[0]) && ((t[0] != '+' && t[0] != '-') || |t| == 1 || !IsDigit(t[1])))
    ensures ParseInt(s) == None
  {
  }

  /** A missing parameter, which `String` turns into "undefined", and a
      parameter without leading digits give the default; so does zero. */
  lemma ParamDefaults(default: int)
    ensures ParamOr(None, default) == default
    ensures ParamOr(Some(QueryValues.Str("abc")), default) == default
    ensures ParamOr(Some(QueryValues.Str("0")), default) == default
    ensures ParamOr(Some(QueryValues.Str("")), default) == default
  {
    ParseNaN("undefined");
    ParseNaN("abc");
    ParseDecimalText(0);
    ParseNaN("");
  }

  /** A parameter holding the decimal text of a non-zero integer, negative
      ones included, gives that integer. */
  lemma ParamKeepsNonZero(n: int, default: int)
    requires n != 0
    ensures ParamOr(Some(QueryValues.Str(Decimal(n))), default) == n
  {
    ParseDecimalText(n);
  }
}
