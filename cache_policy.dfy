/**
  Which ladder requests may be served from, and stored into, the result
  cache, and the key they use there.
 */
module CachePolicy {
  import opened Wrappers
  import opened Decimal

  /** The bucket width of a cacheable rating window. */
  const BucketWidth := 100

  /** JavaScript's `%`: the remainder takes the sign of the dividend. */
  function JsRemainder(a: int, m: int): (r: int)
    requires m > 0
    ensures -m < r < m
    ensures a >= 0 ==> r >= 0
    ensures a < 0 ==> r <= 0
    ensures exists q :: a == m * q + r
  {
    if a >= 0 then
      assert a == m * (a / m) + a % m;
      a % m
    else
      assert a == m * (-((-a) / m)) + -((-a) % m);
      -((-a) % m)
  }

  /** The window `[start, end)` is one of the canonical 100-point buckets. */
  predicate IsCanonicalBucket(start: int, end: int) {
    start % BucketWidth == 0 && end % BucketWidth == 0 && end - start == BucketWidth
  }

  /** For the divisibility test the source makes, the two remainders agree. */
  lemma JsRemainderZero(a: int)
    ensures JsRemainder(a, BucketWidth) == 0 <==> a % BucketWidth == 0
  {
    if a < 0 {
      var q, r := (-a) / BucketWidth, (-a) % BucketWidth;
      if r == 0 {
        assert a == BucketWidth * (-q);
      } else {
        assert a == BucketWidth * (-q - 1) + (BucketWidth - r);
      }
    }
  }

  /**
    `isEligibleForCache`: both raw parameters are parsed again; a parameter
    that does not parse is NaN in the source, and every comparison with NaN
    is false.
   */
  function IsEligibleForCache(startRating: string, endRating: string): (r: bool)
    ensures r <==> Parse(startRating).Some? && Parse(endRating).Some?
                   && IsCanonicalBucket(Parse(startRating).value, Parse(endRating).value)
  {
    match (Parse(startRating), Parse(endRating))
    case (Some(start), Some(end)) =>
      JsRemainderZero(start);
      JsRemainderZero(end);
      JsRemainder(start, BucketWidth) == 0 && JsRemainder(end, BucketWidth) == 0 && end - start == BucketWidth
    case _ => false
  }

  /** The key `ladder:<startRating>:<endRating>`, built from the raw parameter text. */
  function CacheKey(startRating: string, endRating: string): string {
    "ladder:" + startRating + ":" + endRating
  }

  /** Two validated requests share a cache entry only if their parameter texts agree. */
  lemma CacheKeyInjective(s1: string, e1: string, s2: string, e2: string)
    requires Parse(s1).Some? && Parse(s2).Some?
    ensures CacheKey(s1, e1) == CacheKey(s2, e2) <==> s1 == s2 && e1 == e2
  {
    if CacheKey(s1, e1) == CacheKey(s2, e2) {
      var prefix := "ladder:";
      assert CacheKey(s1, e1)[|prefix|..] == s1 + ":" + e1;
      assert CacheKey(s2, e2)[|prefix|..] == s2 + ":" + e2;
      SplitAtColon(s1, e1, s2, e2);
    }
  }

  /** Multiples of the bucket width are exactly the values with no remainder. */
  lemma MultipleOfWidth(a: int, k: int)
    requires a == BucketWidth * k
    ensures a % BucketWidth == 0 && a / BucketWidth == k
  {
  }

  /** Eligible windows are exactly the buckets `[100k, 100k + 100)`. */
  lemma EligibleBuckets(startRating: string, endRating: string)
    requires Parse(startRating).Some? && Parse(endRating).Some?
    ensures IsEligibleForCache(startRating, endRating) <==>
      exists k :: Parse(startRating).value == BucketWidth * k && Parse(endRating).value == BucketWidth * (k + 1)
  {
    var start, end := Parse(startRating).value, Parse(endRating).value;
    if IsEligibleForCache(startRating, endRating) {
      var k := start / BucketWidth;
      assert start == BucketWidth * k;
      assert end == BucketWidth * (k + 1);
    }
    if exists k :: start == BucketWidth * k && end == BucketWidth * (k + 1) {
      var k :| start == BucketWidth * k && end == BucketWidth * (k + 1);
      MultipleOfWidth(start, k);
      MultipleOfWidth(end, k + 1);
    }
  }

  /**
    The key is built from the raw text, not the parsed values: "01200" and
    "1200" name the same eligible bucket but different cache entries.
   */
  lemma KeyDependsOnSpelling()
    ensures Parse("01200") == Parse("1200") == Some(1200)
    ensures IsEligibleForCache("01200", "1300") && IsEligibleForCache("1200", "1300")
    ensures CacheKey("01200", "1300") != CacheKey("1200", "1300")
  {
    ParsesAs1200();
    LeadingZero("1200");
    assert "01200" == "0" + "1200";
    ParseRendered(1300);
    assert NatToString(1) == "1" && NatToString(13) == "13" && NatToString(130) == "130";
    assert IntToString(1300) == "1300";
    assert CacheKey("01200", "1300")[7] != CacheKey("1200", "1300")[7];
  }

  lemma ParsesAs1200()
    ensures Parse("1200") == Some(1200)
  {
    ParseRendered(1200);
    assert NatToString(1) == "1" && NatToString(12) == "12" && NatToString(120) == "120";
    assert IntToString(1200) == "1200";
  }

  /** A window narrower than a bucket is never cached, e.g. 1200 to 1250. */
  lemma NarrowWindowIneligible()
    ensures !IsEligibleForCache("1200", "1250")
    ensures IsEligibleForCache("1200", "1300")
  {
    ParsesAs1200();
    ParseRendered(1250);
    assert NatToString(1) == "1" && NatToString(12) == "12" && NatToString(125) == "125";
    assert IntToString(1250) == "1250";
    ParseRendered(1300);
    assert NatToString(1) == "1" && NatToString(13) == "13" && NatToString(130) == "130";
    assert IntToString(1300) == "1300";
  }
}
