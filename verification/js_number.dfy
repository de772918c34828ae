/**
 The slice of JavaScript number semantics the artist browser relies on:
 truthiness (`x || d`), `parseInt(s, 10)` (section 19.2.5 of ECMA-262) and
 `toString()` of an integer (Number::toString, section 6.1.6.1.20 of ECMA-262).
 Numbers are NaN or integers; fractions, infinities, exponent notation and the
 sign of zero are not modelled.
 */
module JsNumber {

  /** A JavaScript number as this program produces them: NaN or an integer. */
  datatype Num = NaN | Finite(n: int)

  /** JavaScript truthiness of a number: 0 and NaN are falsy, every other number is truthy. */
  predicate Truthy(x: Num)
  {
    x.Finite? && x.n != 0
  }

  /** StrWhiteSpaceChar of ECMA-262: WhiteSpace (TAB, VT, FF, ZWNBSP, category Zs) or LineTerminator. */
  predicate IsStrWhiteSpace(c: char)
  {
    || c == '\t' || c == '\U{000B}' || c == '\U{000C}' || c == '\U{FEFF}'
    || c == ' ' || c == '\U{00A0}' || c == '\U{1680}' || ('\U{2000}' <= c <= '\U{200A}')
    || c == '\U{202F}' || c == '\U{205F}' || c == '\U{3000}'
    || c == '\n' || c == '\r' || c == '\U{2028}' || c == '\U{2029}'
  }

  predicate IsDigit(c: char)
  {
    '0' <= c <= '9'
  }

  predicate AllDigits(s: string)
  {
    forall i :: 0 <= i < |s| ==> IsDigit(s[i])
  }

  function DigitValue(c: char): nat
    requires IsDigit(c)
  {
    (c as int) - ('0' as int)
  }

  function DigitChar(d: nat): (c: char)
    requires d < 10
    ensures IsDigit(c) && DigitValue(c) == d
  {
    (('0' as int) + d) as char
  }

  /** The string with its leading StrWhiteSpaceChar characters removed (TrimString with `start`). */
  function TrimStart(s: string): (t: string)
    ensures |t| <= |s| && t == s[|s| - |t|..]
    ensures forall i :: 0 <= i < |s| - |t| ==> IsStrWhiteSpace(s[i])
    ensures t == [] || !IsStrWhiteSpace(t[0])
  {
    if s != [] && IsStrWhiteSpace(s[0]) then TrimStart(s[1..]) else s
  }

  /** The longest prefix of decimal digits. */
  function DigitPrefix(s: string): (d: string)
    ensures d <= s && AllDigits(d)
    ensures |d| == |s| || !IsDigit(s[|d|])
  {
    if s != [] && IsDigit(s[0]) then [s[0]] + DigitPrefix(s[1..]) else []
  }

  /** The mathematical value of a string of decimal digits. */
  function DigitsValue(d: string): nat
    requires AllDigits(d)
  {
    if d == [] then 0 else DigitsValue(d[..|d| - 1]) * 10 + DigitValue(d[|d| - 1])
  }

  /** The text after an optional leading `+` or `-`. */
  function Unsigned(t: string): string
  {
    if t != [] && (t[0] == '-' || t[0] == '+') then t[1..] else t
  }

  /**
   `parseInt(s, 10)`: skip leading white space, read an optional sign, then the
   longest run of decimal digits; NaN when that run is empty. Trailing text is
   ignored, and a `0x` prefix is not special with an explicit radix of 10.
   */
  function ParseInt(s: string): Num
  {
    var t := TrimStart(s);
    var sign := if t != [] && t[0] == '-' then -1 else 1;
    var digits := DigitPrefix(Unsigned(t));
    if digits == [] then NaN else Finite(sign * DigitsValue(digits))
  }

  /** Decimal digits of a natural number, without leading zeros. */
  function NatToString(n: nat): (s: string)
    ensures s != [] && AllDigits(s)
    ensures s[0] == '0' ==> n == 0
  {
    (if n < 10 then [] else NatToString(n / 10)) + [DigitChar(n % 10)]
  }

  /** `n.toString()` for an integer `n`. */
  function IntToString(n: int): (s: string)
    ensures s != []
    ensures n < 0 <==> s[0] == '-'
  {
    if n < 0 then "-" + NatToString(-n) else NatToString(n)
  }

  /** Reading back the digits of `n` yields `n`. */
  lemma {:induction false} DigitsValueOfNatToString(n: nat)
    ensures DigitsValue(NatToString(n)) == n
  {
    var s := NatToString(n);
    assert s[..|s| - 1] == (if n < 10 then [] else NatToString(n / 10));
    assert s[|s| - 1] == DigitChar(n % 10);
    if n >= 10 {
      DigitsValueOfNatToString(n / 10);
    }
  }

  /** A run of digits followed by a non-digit (or nothing) is the digit prefix. */
  lemma {:induction false} DigitPrefixOfDigits(d: string, rest: string)
    requires AllDigits(d)
    requires rest == [] || !IsDigit(rest[0])
    ensures DigitPrefix(d + rest) == d
  {
    if d == [] {
      assert d + rest == rest;
    } else {
      assert (d + rest)[0] == d[0];
      assert (d + rest)[1..] == d[1..] + rest;
      DigitPrefixOfDigits(d[1..], rest);
      assert d == [d[0]] + d[1..];
    }
  }

  /** A numeral starts with a digit or a minus sign, so trimming leaves it alone. */
  lemma TrimStartOfNumeral(s: string)
    requires s != [] && (IsDigit(s[0]) || s[0] == '-')
    ensures TrimStart(s) == s
  {
    assert !IsStrWhiteSpace(s[0]);
  }

  /** `parseInt` of an optional minus sign, digits, and text that does not continue the digits. */
  lemma ParseIntOfNumeral(negative: bool, digits: string, rest: string)
    requires digits != [] && AllDigits(digits)
    requires rest == [] || !IsDigit(rest[0])
    ensures ParseInt((if negative then "-" else "") + digits + rest)
         == Finite((if negative then -1 else 1) * DigitsValue(digits))
  {
    var u := digits + rest;
    var s := (if negative then "-" else "") + digits + rest;
    assert s == (if negative then "-" + u else u);
    assert TrimStart(s) == s by {
      assert IsDigit(u[0]);
      TrimStartOfNumeral(s);
    }
    assert Unsigned(s) == u;
    assert DigitPrefix(u) == digits by {
      DigitPrefixOfDigits(digits, rest);
    }
  }

  /**
   `parseInt` reads back what `toString` printed, whatever non-digit text
   follows: `parseInt(String(n) + rest, 10) == n`.
   */
  lemma ParseIntOfIntToString(n: int, rest: string)
    requires rest == [] || !IsDigit(rest[0])
    ensures ParseInt(IntToString(n) + rest) == Finite(n)
  {
    var m: nat := if n < 0 then -n else n;
    assert IntToString(n) == (if n < 0 then "-" else "") + NatToString(m);
    ParseIntOfNumeral(n < 0, NatToString(m), rest);
    DigitsValueOfNatToString(m);
  }

  lemma ParseIntOne()
    ensures ParseInt("1") == Finite(1)
  {
    ParseIntOfIntToString(1, "");
    assert IntToString(1) + "" == "1";
  }

  /** Leading white space is exactly what `TrimStart` removes. */
  lemma {:induction false} TrimStartSkipsWhiteSpace(ws: string, s: string)
    requires forall i :: 0 <= i < |ws| ==> IsStrWhiteSpace(ws[i])
    ensures TrimStart(ws + s) == TrimStart(s)
  {
    if ws == [] {
      assert ws + s == s;
    } else {
      var w := ws + s;
      assert w[0] == ws[0];
      assert w[1..] == ws[1..] + s;
      TrimStartSkipsWhiteSpace(ws[1..], s);
    }
  }

  /** Leading white space does not change what `parseInt` reads. */
  lemma ParseIntSkipsWhiteSpace(ws: string, s: string)
    requires forall i :: 0 <= i < |ws| ==> IsStrWhiteSpace(ws[i])
    ensures ParseInt(ws + s) == ParseInt(s)
  {
    TrimStartSkipsWhiteSpace(ws, s);
  }

  /** Text whose first character is neither white space, a sign nor a digit is NaN. */
  lemma ParseIntNonNumeric(s: string)
    requires s != [] && !IsStrWhiteSpace(s[0]) && !IsDigit(s[0]) && s[0] != '-' && s[0] != '+'
    ensures ParseInt(s) == NaN
  {
    assert TrimStart(s) == s;
  }
}
