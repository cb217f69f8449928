/**
  The global `parseInt(string)` of ECMAScript (section 19.2.5 of ECMA-262),
  called with the radix left undefined, as the score badge calls it:

    1. leading white space and line terminators are skipped;
    2. one `+` or `-` is consumed, `-` making the result negative;
    3. a `0x` or `0X` prefix switches the radix from 10 to 16;
    4. the longest run of radix digits is read; whatever follows it is ignored;
    5. an empty run gives NaN.

  The result is a mathematical integer: IEEE rounding of very long digit runs
  and the distinction between +0 and -0 are not modelled (see README).
 */
module JsParseInt {

  /** A number `parseInt` can return: NaN or an integer. */
  datatype JsInt = NaN | Num(n: int)

  /**
    WhiteSpace and LineTerminator code points of ECMAScript: tab, vertical tab,
    form feed, the byte order mark, every space separator (general category Zs),
    line feed, carriage return, line separator and paragraph separator.
   */
  predicate IsStrWhiteSpace(c: char)
  {
    || c == '\t' || c == '\U{000B}' || c == '\U{000C}' || c == '\U{FEFF}'
    || c == ' ' || c == '\U{00A0}' || c == '\U{1680}'
    || ('\U{2000}' <= c <= '\U{200A}')
    || c == '\U{202F}' || c == '\U{205F}' || c == '\U{3000}'
    || c == '\n' || c == '\r' || c == '\U{2028}' || c == '\U{2029}'
  }

  predicate AllWhiteSpace(w: string)
  {
    forall i :: 0 <= i < |w| ==> IsStrWhiteSpace(w[i])
  }

  /** Numeric value of an ASCII letter or digit: `0`-`9` are 0-9, `a`-`z` and `A`-`Z` are 10-35. */
  function DigitValue(c: char): nat
  {
    if '0' <= c <= '9' then c as nat - '0' as nat
    else if 'a' <= c <= 'z' then c as nat - 'a' as nat + 10
    else if 'A' <= c <= 'Z' then c as nat - 'A' as nat + 10
    else 36
  }

  /** `c` is a digit of base `radix`. */
  predicate IsDigit(c: char, radix: nat)
  {
    DigitValue(c) < radix
  }

  predicate AllDigits(d: string, radix: nat)
  {
    forall i :: 0 <= i < |d| ==> IsDigit(d[i], radix)
  }

  /** Value of a run of digits, most significant first. */
  function DigitsValue(d: string, radix: nat): nat
    requires AllDigits(d, radix)
  {
    if |d| == 0 then 0
    else DigitsValue(d[..|d| - 1], radix) * radix + DigitValue(d[|d| - 1])
  }

  /** `s` with its leading white space removed. */
  function TrimStart(s: string): (r: string)
    ensures |r| <= |s| && r == s[|s| - |r|..]
    ensures AllWhiteSpace(s[..|s| - |r|])
    ensures r == [] || !IsStrWhiteSpace(r[0])
  {
    if |s| > 0 && IsStrWhiteSpace(s[0]) then
      var r := TrimStart(s[1..]);
      var skipped := s[..|s| - |r|];
      assert forall i :: 1 <= i < |skipped| ==> skipped[i] == s[1..][i - 1];
      r
    else s
  }

  /** Length of the longest prefix of `s` made of base-`radix` digits. */
  function DigitRun(s: string, radix: nat): (n: nat)
    ensures n <= |s|
    ensures AllDigits(s[..n], radix)
    ensures n == |s| || !IsDigit(s[n], radix)
  {
    if |s| > 0 && IsDigit(s[0], radix) then 1 + DigitRun(s[1..], radix) else 0
  }

  predicate HasHexPrefix(s: string)
  {
    |s| >= 2 && s[0] == '0' && (s[1] == 'x' || s[1] == 'X')
  }

  /** `parseInt(s)` with no radix argument: steps 1 and 2, then `ParseBody`. */
  function ParseInt(s: string): JsInt
  {
    var t := TrimStart(s);
    if |t| > 0 && t[0] == '-' then ParseBody(-1, t[1..])
    else if |t| > 0 && t[0] == '+' then ParseBody(1, t[1..])
    else ParseBody(1, t)
  }

  /** Steps 3 to 5 on the text `u` after the sign, `sign` being -1 or 1. */
  function ParseBody(sign: int, u: string): JsInt
  {
    var radix := if HasHexPrefix(u) then 16 else 10;
    var v := if HasHexPrefix(u) then u[2..] else u;
    var n := DigitRun(v, radix);
    if n == 0 then NaN else Num(sign * DigitsValue(v[..n], radix))
  }

  // ---------------------------------------------------------------------------
  // The shape of an input and what `ParseInt` makes of it

  /** The sign text step 2 may consume. */
  predicate IsSignText(sg: string)
  {
    sg == "" || sg == "+" || sg == "-"
  }

  function SignOf(sg: string): int
  {
    if sg == "-" then -1 else 1
  }

  /** Skipping white space stops exactly where the white space ends. */
  lemma {:induction false} TrimStartSkips(w: string, x: string)
    requires AllWhiteSpace(w)
    requires x == [] || !IsStrWhiteSpace(x[0])
    ensures TrimStart(w + x) == x
  {
    if |w| > 0 {
      assert (w + x)[1..] == w[1..] + x;
      TrimStartSkips(w[1..], x);
    } else {
      assert w + x == x;
    }
  }

  /** The digit run of `d + rest` is exactly `d` when `rest` does not continue it. */
  lemma {:induction false} DigitRunStops(d: string, rest: string, radix: nat)
    requires AllDigits(d, radix)
    requires rest == [] || !IsDigit(rest[0], radix)
    ensures DigitRun(d + rest, radix) == |d|
  {
    if |d| > 0 {
      assert (d + rest)[1..] == d[1..] + rest;
      DigitRunStops(d[1..], rest, radix);
    } else {
      assert d + rest == rest;
    }
  }

  /** After white space and a sign, what `ParseInt` reads from the remainder `u`. */
  lemma {:induction false} AfterWhiteSpaceAndSign(w: string, sg: string, u: string)
    requires AllWhiteSpace(w) && IsSignText(sg)
    requires sg == "" ==> u == [] || (!IsStrWhiteSpace(u[0]) && u[0] != '+' && u[0] != '-')
    ensures ParseInt(w + sg + u) == ParseBody(SignOf(sg), u)
  {
    if sg == "" {
      assert w + sg + u == w + u;
      TrimStartSkips(w, u);
    } else {
      assert w + sg + u == w + (sg + u);
      TrimStartSkips(w, sg + u);
      assert (sg + u)[1..] == u;
    }
  }

  /**
    A decimal input: white space, an optional sign, a non-empty run of decimal
    digits and anything that does not continue the run reads as the signed
    value of the run (unless the run is a lone `0` followed by `x`, which is a
    hex prefix).
   */
  lemma {:induction false} ParseIntDecimal(w: string, sg: string, d: string, rest: string)
    requires AllWhiteSpace(w) && IsSignText(sg)
    requires |d| > 0 && AllDigits(d, 10)
    requires rest == [] || !IsDigit(rest[0], 10)
    requires !HasHexPrefix(d + rest)
    ensures ParseInt(w + sg + d + rest) == Num(SignOf(sg) * DigitsValue(d, 10))
  {
    assert w + sg + d + rest == w + sg + (d + rest);
    assert (d + rest)[0] == d[0];
    AfterWhiteSpaceAndSign(w, sg, d + rest);
    DigitRunStops(d, rest, 10);
    assert (d + rest)[..|d|] == d;
  }

  /** The value of a one-digit run is the digit's value. */
  lemma SingleDigitValue(s: string)
    requires |s| == 1 && IsDigit(s[0], 10)
    ensures DigitsValue(s, 10) == DigitValue(s[0])
  {
    assert s[..|s| - 1] == [];
  }

  /** A single decimal digit reads as its own value. */
  lemma OneDigit(s: string)
    requires |s| == 1 && IsDigit(s[0], 10)
    ensures ParseInt(s) == Num(DigitValue(s[0]))
  {
    assert [] + [] + s + [] == s;
    ParseIntDecimal([], [], s, []);
    SingleDigitValue(s);
    assert SignOf([]) == 1;
  }

  /** Steps 3 to 5 on a hex-prefixed remainder. */
  lemma {:induction false} ParseBodyHex(sign: int, x: string, h: string, rest: string)
    requires x == "0x" || x == "0X"
    requires AllDigits(h, 16)
    requires rest == [] || !IsDigit(rest[0], 16)
    ensures ParseBody(sign, x + h + rest) ==
      if |h| == 0 then NaN else Num(sign * DigitsValue(h, 16))
  {
    var u := x + h + rest;
    assert u[0] == '0' && u[1] == x[1];
    assert HasHexPrefix(u);
    assert u[2..] == h + rest;
    DigitRunStops(h, rest, 16);
    assert (h + rest)[..|h|] == h;
  }

  /**
    A hexadecimal input: after the `0x` or `0X` prefix the run of hex digits is
    read in base 16; a prefix with no hex digit after it gives NaN.
   */
  lemma {:induction false} ParseIntHex(w: string, sg: string, x: string, h: string, rest: string)
    requires AllWhiteSpace(w) && IsSignText(sg)
    requires x == "0x" || x == "0X"
    requires AllDigits(h, 16)
    requires rest == [] || !IsDigit(rest[0], 16)
    ensures ParseInt(w + sg + x + h + rest) ==
      if |h| == 0 then NaN else Num(SignOf(sg) * DigitsValue(h, 16))
  {
    var u := x + h + rest;
    assert w + sg + x + h + rest == w + sg + u;
    assert u[0] == '0';
    AfterWhiteSpaceAndSign(w, sg, u);
    ParseBodyHex(SignOf(sg), x, h, rest);
  }

  /**
    An input whose first character after white space and an optional sign is
    not a decimal digit gives NaN.
   */
  lemma ParseIntNoDigits(w: string, sg: string, rest: string)
    requires AllWhiteSpace(w) && IsSignText(sg)
    requires rest == [] || !IsDigit(rest[0], 10)
    requires sg == "" ==> rest == [] || (!IsStrWhiteSpace(rest[0]) && rest[0] != '+' && rest[0] != '-')
    ensures ParseInt(w + sg + rest) == NaN
  {
    AfterWhiteSpaceAndSign(w, sg, rest);
  }

  // ---------------------------------------------------------------------------
  // Decimal rendering of an integer, the inverse of `ParseInt`

  function DigitChar(k: nat): (c: char)
    requires k < 10
    ensures IsDigit(c, 10) && DigitValue(c) == k
  {
    ('0' as nat + k) as char
  }

  /** The decimal digits of `n`, without leading zeros. */
  function ShowNat(n: nat): (r: string)
    ensures |r| > 0 && AllDigits(r, 10)
    ensures |r| > 1 ==> r[0] != '0'
  {
    if n < 10 then [DigitChar(n)] else ShowNat(n / 10) + [DigitChar(n % 10)]
  }

  /** `n` written in decimal, with a leading `-` when negative. */
  function ShowInt(n: int): string
  {
    if n < 0 then "-" + ShowNat(-n) else ShowNat(n)
  }

  lemma {:induction false} ShowNatValue(n: nat)
    ensures DigitsValue(ShowNat(n), 10) == n
  {
    if n >= 10 {
      ShowNatValue(n / 10);
      var s := ShowNat(n);
      assert s[..|s| - 1] == ShowNat(n / 10);
    }
  }

  /** A rendered natural number only starts a hex prefix when it is `0` followed by `x`. */
  lemma {:induction false} ShowNatNotHex(m: nat, tail: string)
    requires m == 0 ==> tail == [] || (tail[0] != 'x' && tail[0] != 'X')
    ensures !HasHexPrefix(ShowNat(m) + tail)
  {
    var d := ShowNat(m);
    if |d| > 1 {
      assert (d + tail)[1] == d[1] && IsDigit(d[1], 10);
    } else if m < 10 {
      assert d == [DigitChar(m)];
      if tail != [] {
        assert (d + tail)[0] == DigitChar(m) && (d + tail)[1] == tail[0];
      }
    }
  }

  /**
    Reading back a rendered integer gives the integer, whatever follows it, as
    long as the text after it does not continue the digit run (and, for zero,
    does not turn the `0` into a hex prefix).
   */
  lemma {:induction false} ParseShowInt(n: int, tail: string)
    requires tail == [] || !IsDigit(tail[0], 10)
    requires n == 0 ==> tail == [] || (tail[0] != 'x' && tail[0] != 'X')
    ensures ParseInt(ShowInt(n) + tail) == Num(n)
  {
    var sg := if n < 0 then "-" else "";
    var m: nat := if n < 0 then -n else n;
    var d := ShowNat(m);
    ShowNatValue(m);
    ShowNatNotHex(m, tail);
    assert ShowInt(n) == sg + d;
    assert ShowInt(n) + tail == [] + sg + d + tail;
    ParseIntDecimal([], sg, d, tail);
    assert SignOf(sg) * m == n;
  }

  /** In particular, rendering then parsing is the identity. */
  lemma ParseShowRoundTrip(n: int)
    ensures ParseInt(ShowInt(n)) == Num(n)
  {
    ParseShowInt(n, []);
    assert ShowInt(n) + [] == ShowInt(n);
  }
}
