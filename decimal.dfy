/**
  Decimal text for integers, as the route uses it: `parseInt(s, 10)` on the
  request parameters, and the template literal `${n}` that renders a contest
  id inside a seen-set key.
 */
module Decimal {
  import opened Wrappers

  predicate IsDigit(c: char) {
    '0' <= c <= '9'
  }

  function DigitValue(c: char): (d: nat)
    requires IsDigit(c)
    ensures d < 10
  {
    (c as int) - ('0' as int)
  }

  function DigitChar(d: nat): (c: char)
    requires d < 10
    ensures IsDigit(c) && DigitValue(c) == d
  {
    (('0' as int) + d) as char
  }

  predicate AllDigits(t: string) {
    forall k :: 0 <= k < |t| ==> IsDigit(t[k])
  }

  /** The value of a string of decimal digits, most significant first. */
  function DigitsValue(t: string): nat
    requires AllDigits(t)
    decreases |t|
  {
    if t == [] then 0 else 10 * DigitsValue(t[..|t| - 1]) + DigitValue(t[|t| - 1])
  }

  /** Shortest decimal rendering of a natural number. */
  function NatToString(n: nat): (s: string)
    ensures |s| > 0 && AllDigits(s)
    decreases n
  {
    if n < 10 then [DigitChar(n)] else NatToString(n / 10) + [DigitChar(n % 10)]
  }

  /** How `${n}` renders an integer: a minus sign for negatives, then the digits. */
  function IntToString(i: int): (s: string)
    ensures |s| > 0
    ensures ':' !in s
    decreases if i < 0 then 1 else 0
  {
    if i < 0 then "-" + IntToString(-i) else NatToString(i)
  }

  /**
    Integer parsing of a request parameter: an optional sign followed by one
    or more decimal digits, and nothing else.
   */
  function Parse(s: string): (r: Option<int>)
    ensures r.Some? ==> |s| > 0 && ':' !in s
  {
    if |s| > 1 && (s[0] == '-' || s[0] == '+') && AllDigits(s[1..]) then
      var magnitude := DigitsValue(s[1..]);
      Some(if s[0] == '-' then 0 - magnitude else magnitude)
    else if |s| > 0 && AllDigits(s) then
      Some(DigitsValue(s))
    else
      None
  }

  lemma {:induction false} DigitsValueOfRendering(n: nat)
    ensures DigitsValue(NatToString(n)) == n
    decreases n
  {
    var s := NatToString(n);
    if n >= 10 {
      DigitsValueOfRendering(n / 10);
      assert s[..|s| - 1] == NatToString(n / 10);
    }
  }

  /** Parsing undoes rendering, so the rendering of integers is injective. */
  lemma ParseRendered(i: int)
    ensures Parse(IntToString(i)) == Some(i)
  {
    if i < 0 {
      var t := NatToString(-i);
      assert IntToString(i) == "-" + t;
      assert ("-" + t)[0] == '-' && ("-" + t)[1..] == t;
      DigitsValueOfRendering(-i);
    } else {
      var t := NatToString(i);
      assert IntToString(i) == t && IsDigit(t[0]);
      DigitsValueOfRendering(i);
    }
  }

  /** A leading zero does not change the value read. */
  lemma {:induction false} LeadingZero(t: string)
    requires AllDigits(t)
    ensures AllDigits("0" + t) && DigitsValue("0" + t) == DigitsValue(t)
    decreases |t|
  {
    if t != [] {
      assert ("0" + t)[..|t|] == "0" + t[..|t| - 1];
      LeadingZero(t[..|t| - 1]);
    }
  }

  /** Position of the first colon in a key, or its length when there is none. */
  function ColonIndex(w: string): (k: nat)
    ensures k <= |w|
  {
    if w == [] || w[0] == ':' then 0 else 1 + ColonIndex(w[1..])
  }

  lemma {:induction false} ColonIndexAfterPrefix(p: string, s: string)
    requires ':' !in p
    ensures ColonIndex(p + ":" + s) == |p|
  {
    if p != [] {
      assert (p + ":" + s)[1..] == p[1..] + ":" + s;
      ColonIndexAfterPrefix(p[1..], s);
    }
  }

  /**
    A key of the form `<prefix>:<rest>` splits uniquely at its first colon
    when the prefix holds none.
   */
  lemma SplitAtColon(p1: string, s1: string, p2: string, s2: string)
    requires ':' !in p1 && ':' !in p2
    ensures p1 + ":" + s1 == p2 + ":" + s2 <==> p1 == p2 && s1 == s2
  {
    var w1, w2 := p1 + ":" + s1, p2 + ":" + s2;
    if w1 == w2 {
      ColonIndexAfterPrefix(p1, s1);
      ColonIndexAfterPrefix(p2, s2);
      assert p1 == w1[..|p1|] && p2 == w2[..|p2|];
      assert s1 == w1[|p1| + 1..] && s2 == w2[|p2| + 1..];
    }
  }
}
