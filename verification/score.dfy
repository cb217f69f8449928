/**
  The colour of a lead's score badge. The page parses the score text with
  `parseInt` and compares the result with 8 and then 5; the three outcomes are
  the green, yellow and red badge styles, named here by what they mean.
 */
module Score {
  import opened JsParseInt

  /** High is the green badge, Medium the yellow one, Low the red one. */
  datatype ScoreColor = High | Medium | Low

  /** JavaScript `x >= k` for a number `x` and an integer `k`: false whenever `x` is NaN. */
  predicate AtLeast(x: JsInt, k: int)
  {
    match x
    case NaN => false
    case Num(n) => n >= k
  }

  /** The colour for an already parsed score: the two comparisons of the page, in order. */
  function ColorOf(x: JsInt): ScoreColor
  {
    if AtLeast(x, 8) then High
    else if AtLeast(x, 5) then Medium
    else Low
  }

  /** `getScoreColor(score)`: the colour of the score text, by its parsed value. */
  function GetScoreColor(score: string): (c: ScoreColor)
    ensures c == High <==> ParseInt(score).Num? && ParseInt(score).n >= 8
    ensures c == Medium <==> ParseInt(score).Num? && 5 <= ParseInt(score).n < 8
    ensures c == Low <==> ParseInt(score).NaN? || ParseInt(score).n < 5
  {
    ColorOf(ParseInt(score))
  }

  /** Colours ordered from Low (0) to High (2). */
  function Rank(c: ScoreColor): nat
  {
    match c
    case Low => 0
    case Medium => 1
    case High => 2
  }

  /** A larger parsed score never gets a lower colour, and NaN sits with the lowest. */
  lemma ColorMonotone(x: JsInt, y: JsInt)
    requires x.NaN? || (y.Num? && x.n <= y.n)
    ensures Rank(ColorOf(x)) <= Rank(ColorOf(y))
  {
  }

  /** NaN is coloured exactly like every integer below 5. */
  lemma NaNIsLow(n: int)
    requires n < 5
    ensures ColorOf(NaN) == ColorOf(Num(n)) == Low
  {
  }

  /** A score the number input renders, read back by the badge, lands in the bucket of its value. */
  lemma ColorOfRenderedScore(n: int)
    ensures GetScoreColor(ShowInt(n)) == ColorOf(Num(n))
    ensures GetScoreColor(ShowInt(n)) == High <==> n >= 8
    ensures GetScoreColor(ShowInt(n)) == Medium <==> 5 <= n < 8
    ensures GetScoreColor(ShowInt(n)) == Low <==> n < 5
  {
    ParseShowRoundTrip(n);
  }

  /**
    Only the leading integer counts: a fraction, an exponent or trailing letters
    are ignored, except that a `0` followed by `x` or `X` starts a hex number
    (`"0x9"` reads as 9).
   */
  lemma ColorIgnoresTail(n: int, tail: string)
    requires tail == [] || !IsDigit(tail[0], 10)
    requires n == 0 ==> tail == [] || (tail[0] != 'x' && tail[0] != 'X')
    ensures GetScoreColor(ShowInt(n) + tail) == ColorOf(Num(n))
  {
    ParseShowInt(n, tail);
  }

  /** Score texts with no leading digits (the empty text among them) are coloured Low. */
  lemma NoDigitsIsLow(w: string, sg: string, rest: string)
    requires AllWhiteSpace(w) && IsSignText(sg)
    requires rest == [] || !IsDigit(rest[0], 10)
    requires sg == "" ==> rest == [] || (!IsStrWhiteSpace(rest[0]) && rest[0] != '+' && rest[0] != '-')
    ensures GetScoreColor(w + sg + rest) == Low
  {
    ParseIntNoDigits(w, sg, rest);
  }

  /** 9 and above are High. */
  lemma NineIsHigh()
    ensures GetScoreColor("9") == High
  {
    OneDigit("9");
  }

  /** 8 is the lowest High score. */
  lemma EightIsHigh()
    ensures GetScoreColor("8") == High
  {
    OneDigit("8");
  }

  /** A fraction is cut off: "8.5" reads as 8. */
  lemma EightPointFiveIsHigh()
    ensures GetScoreColor("8.5") == High
  {
    assert "" + "" + "8" + ".5" == "8.5";
    ParseIntDecimal("", "", "8", ".5");
  }

  /** White space is skipped and a `0x` prefix reads hex: " 0x10" is 16. */
  lemma HexSixteenIsHigh()
    ensures GetScoreColor(" 0x10") == High
  {
    assert " " + "" + "0x" + "10" + "" == " 0x10";
    ParseIntHex(" ", "", "0x", "10", "");
    assert "10"[..1] == "1";
  }

  /** 5 to 7 are Medium. */
  lemma SixIsMedium()
    ensures GetScoreColor("6") == Medium
  {
    OneDigit("6");
  }

  /** Trailing letters are ignored: "7abc" reads as 7. */
  lemma SevenAbcIsMedium()
    ensures GetScoreColor("7abc") == Medium
  {
    assert "" + "" + "7" + "abc" == "7abc";
    ParseIntDecimal("", "", "7", "abc");
  }

  /** Below 5 is Low. */
  lemma TwoIsLow()
    ensures GetScoreColor("2") == Low
  {
    OneDigit("2");
  }

  /** An exponent is not read: "1e1" is 1, not 10. */
  lemma OneEOneIsLow()
    ensures GetScoreColor("1e1") == Low
  {
    assert "" + "" + "1" + "e1" == "1e1";
    ParseIntDecimal("", "", "1", "e1");
  }

  /** A negative score is Low. */
  lemma MinusNineIsLow()
    ensures GetScoreColor("-9") == Low
  {
    assert "" + "-" + "9" + "" == "-9";
    ParseIntDecimal("", "-", "9", "");
  }

  /** An empty score parses to NaN and is Low. */
  lemma EmptyIsLow()
    ensures GetScoreColor("") == Low
  {
    assert "" + "" + "" == "";
    NoDigitsIsLow("", "", "");
  }

  /** A score without digits parses to NaN and is Low. */
  lemma AbcIsLow()
    ensures GetScoreColor("abc") == Low
  {
    assert "" + "" + "abc" == "abc";
    NoDigitsIsLow("", "", "abc");
  }
}
