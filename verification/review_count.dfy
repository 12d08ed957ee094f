/** The review count shown on a product page (`#acrCustomerReviewText`):
    `process_review_count`, the live definition at scraper_script.py:268,
    called from `get_review_count`. */
module ReviewCount {
  import opened Maybe
  import opened Text
  import opened Numbers

  /** The exception `int()` and `float()` raise; `get_review_count` catches it. */
  datatype ParseError = ValueError

  const ThousandsMark := "K+"

  /** `int(float(rest.strip()) * 1000)`, the "K+" branch after the mark is gone. */
  function ThousandsCount(rest: string): Result<int, ParseError> {
    match ParseDecimal(Strip(rest))
    case Some(x) => Ok(Trunc(x * 1000.0))
    case None => Err(ValueError)
  }

  /** `int(rest.strip())`, the other branch after commas and "ratings" are gone. */
  function PlainCount(rest: string): Result<int, ParseError> {
    match ParseInt(Strip(rest))
    case Some(n) => Ok(n)
    case None => Err(ValueError)
  }

  /** `process_review_count`: text containing "K+" is a number of thousands,
      truncated after scaling; any other text loses its commas and the word
      "ratings" and must then be an integer. */
  function ProcessReviewCount(text: string): Result<int, ParseError> {
    if Contains(text, ThousandsMark) then ThousandsCount(ReplaceAll(text, ThousandsMark, ""))
    else PlainCount(ReplaceAll(ReplaceAll(text, ",", ""), "ratings", ""))
  }

  /** `get_review_count`: `element` is the element's text, `None` when the
      page has no such element (the `AttributeError` case). Every failure
      yields 0. */
  function GetReviewCount(element: Option<string>): (r: int)
    ensures element.None? ==> r == 0
    ensures r != 0 ==> element.Some? && ProcessReviewCount(Strip(element.value)) == Ok(r)
  {
    match element
    case None => 0
    case Some(t) =>
      match ProcessReviewCount(Strip(t))
      case Ok(n) => n
      case Err(_) => 0
  }

  /** Digits grouped in threes from the right with commas, as the page
      writes a count ("1,234"). */
  function GroupThousands(ds: string): string
    decreases |ds|
  {
    if |ds| <= 3 then ds else GroupThousands(ds[..|ds| - 3]) + "," + ds[|ds| - 3..]
  }

  /** The page's rendering of a count of `n` ratings. */
  function RatingsText(n: nat): string {
    GroupThousands(NatToString(n)) + " ratings"
  }

  lemma DigitsHaveNoComma(ds: string)
    requires AllDigits(ds)
    ensures ReplaceAll(ds, ",", "") == ds
  {
    NotContainsWithoutHead(ds, ",");
    ReplaceAbsent(ds, ",", "");
  }

  /** Grouping keeps the first and last digit and adds only commas. */
  lemma {:induction false} GroupThousandsShape(ds: string)
    requires IsDigits(ds)
    ensures |GroupThousands(ds)| > 0
    ensures GroupThousands(ds)[0] == ds[0]
    ensures GroupThousands(ds)[|GroupThousands(ds)| - 1] == ds[|ds| - 1]
    ensures forall i :: 0 <= i < |GroupThousands(ds)| ==> IsDigit(GroupThousands(ds)[i]) || GroupThousands(ds)[i] == ','
    decreases |ds|
  {
    if |ds| > 3 {
      var head := ds[..|ds| - 3];
      GroupThousandsShape(head);
    }
  }

  /** Removing the commas from grouped digits gives the digits back. */
  lemma {:induction false} GroupThousandsUngroup(ds: string)
    requires AllDigits(ds)
    ensures ReplaceAll(GroupThousands(ds), ",", "") == ds
    decreases |ds|
  {
    if |ds| <= 3 {
      DigitsHaveNoComma(ds);
    } else {
      var head := ds[..|ds| - 3];
      var low := ds[|ds| - 3..];
      var g := GroupThousands(head);
      assert GroupThousands(ds) == g + ("," + low);
      assert ReplaceAll(g, ",", "") == head by {
        GroupThousandsUngroup(head);
      }
      assert ReplaceAll("," + low, ",", "") == low by {
        assert StartsWith("," + low, ",");
        assert ("," + low)[1..] == low;
        DigitsHaveNoComma(low);
      }
      ReplaceCharConcat(g, "," + low, ",", "");
      assert head + low == ds;
    }
  }

  /** The branch without "K+", for text that strips to itself. */
  lemma PlainBranch(t: string)
    requires Strip(t) == t && !Contains(t, ThousandsMark)
    ensures GetReviewCount(Some(t)) == PlainCount(ReplaceAll(ReplaceAll(t, ",", ""), "ratings", "")).GetOr(0)
  {
  }

  /** The "K+" branch, for text that strips to itself. */
  lemma ThousandsBranch(t: string)
    requires Strip(t) == t && Contains(t, ThousandsMark)
    ensures GetReviewCount(Some(t)) == ThousandsCount(ReplaceAll(t, ThousandsMark, "")).GetOr(0)
  {
  }

  lemma RatingsTextStrips(ds: string)
    requires IsDigits(ds)
    ensures Strip(GroupThousands(ds) + " ratings") == GroupThousands(ds) + " ratings"
    ensures !Contains(GroupThousands(ds) + " ratings", ThousandsMark)
  {
    var g := GroupThousands(ds);
    var t := g + " ratings";
    GroupThousandsShape(ds);
    StripUnchanged(t);
    assert forall i :: 0 <= i < |g| ==> t[i] == g[i];
    NotContainsWithoutHead(t, ThousandsMark);
  }

  lemma RatingsTextUncomma(ds: string)
    requires AllDigits(ds)
    ensures ReplaceAll(GroupThousands(ds) + " ratings", ",", "") == ds + " ratings"
  {
    GroupThousandsUngroup(ds);
    ReplaceCharConcat(GroupThousands(ds), " ratings", ",", "");
    NotContainsWithoutHead(" ratings", ",");
    ReplaceAbsent(" ratings", ",", "");
  }

  lemma DropRatingsWord(ds: string)
    requires AllDigits(ds)
    ensures ReplaceAll(ds + " ratings", "ratings", "") == ds + " "
  {
    ReplaceSkipsPrefix(ds, " ratings", "ratings", "");
    ReplaceSkipsPrefix(" ", "ratings", "ratings", "");
    assert " " + "ratings" == " ratings";
    assert ReplaceAll("ratings", "ratings", "") == [];
  }

  lemma RatingsTextCleans(ds: string)
    requires IsDigits(ds)
    ensures Strip(ReplaceAll(ReplaceAll(GroupThousands(ds) + " ratings", ",", ""), "ratings", "")) == ds
  {
    RatingsTextUncomma(ds);
    DropRatingsWord(ds);
    StripPadded([], ds, " ");
    assert [] + ds + " " == ds + " ";
  }

  /** Digits grouped by commas and followed by " ratings" read back as
      their value. */
  lemma GroupedCountRoundTrip(ds: string)
    requires IsDigits(ds)
    ensures GetReviewCount(Some(GroupThousands(ds) + " ratings")) == DigitsValue(ds)
  {
    RatingsTextStrips(ds);
    PlainBranch(GroupThousands(ds) + " ratings");
    RatingsTextCleans(ds);
    StripUnchanged(ds);
  }

  /** Reading back the page's "N ratings" text gives N. */
  lemma CountRoundTrip(n: nat)
    ensures GetReviewCount(Some(RatingsText(n))) == n
  {
    GroupedCountRoundTrip(NatToString(n));
  }

  /** Text `x` followed by "K+", where `x` holds no 'K' and strips to itself. */
  lemma ThousandsText(x: string)
    requires |x| > 0 && !IsSpace(x[0]) && !IsSpace(x[|x| - 1])
    requires forall i :: 0 <= i < |x| ==> x[i] != 'K'
    ensures Strip(x + ThousandsMark) == x + ThousandsMark
    ensures Contains(x + ThousandsMark, ThousandsMark)
    ensures Strip(ReplaceAll(x + ThousandsMark, ThousandsMark, "")) == x
  {
    var t := x + ThousandsMark;
    StripUnchanged(t);
    assert OccursAt(t, ThousandsMark, |x|);
    ReplaceSkipsPrefix(x, ThousandsMark, ThousandsMark, "");
    assert ReplaceAll(ThousandsMark, ThousandsMark, "") == [];
    assert x + [] == x;
    StripUnchanged(x);
  }

  /** "<digits>.<d>K+" counts that many thousands plus d hundreds. */
  lemma ThousandsRoundTrip(ds: string, c: char)
    requires IsDigits(ds) && IsDigit(c)
    ensures GetReviewCount(Some(ds + "." + [c] + "K+")) == DigitsValue(ds) * 1000 + DigitValue(c) * 100
  {
    var x := ds + "." + [c];
    assert x[0] == ds[0];
    ThousandsText(x);
    ThousandsBranch(x + ThousandsMark);
    ParseDecimalTenths(ds, c);
    var v := DigitsValue(ds) as real + DigitValue(c) as real / 10.0;
    assert v * 1000.0 == (DigitsValue(ds) * 1000 + DigitValue(c) * 100) as real;
  }

  /** A thousands figure written with a comma ("1,2K+") is not a number in
      this branch, which does not drop commas, so it counts as 0. */
  lemma CommaBreaksThousands(a: string, b: string)
    requires IsDigits(a) && IsDigits(b)
    ensures GetReviewCount(Some(a + "," + b + "K+")) == 0
  {
    var x := a + "," + b;
    assert x[0] == a[0] && x[|x| - 1] == b[|b| - 1];
    ThousandsText(x);
    ThousandsBranch(x + ThousandsMark);
    CommaIsNotDecimal(a, b);
  }

  lemma CommaIsNotDecimal(a: string, b: string)
    requires IsDigits(a) && IsDigits(b)
    ensures ParseDecimal(a + "," + b) == None
  {
    var x := a + "," + b;
    assert x[0] == a[0] && x[|x| - 1] == b[|b| - 1];
    StripUnchanged(x);
    assert x[|a|] == ',';
    DecimalRejects(x, |a|);
  }

  lemma NoRatingsWord(ds: string)
    requires AllDigits(ds)
    ensures ReplaceAll(ReplaceAll(ds + " rating", ",", ""), "ratings", "") == ds + " rating"
  {
    var t := ds + " rating";
    NotContainsWithoutHead(t, ",");
    ReplaceAbsent(t, ",", "");
    forall i | 0 <= i <= |t| - 7
      ensures !OccursAt(t, "ratings", i)
    {
      assert t[i..i + 7][0] == t[i];
    }
    ReplaceAbsent(t, "ratings", "");
  }

  /** The singular "1 rating" keeps its word, is not an integer, and counts as 0. */
  lemma SingularRatingIsZero(ds: string)
    requires IsDigits(ds)
    ensures GetReviewCount(Some(ds + " rating")) == 0
  {
    var t := ds + " rating";
    StripUnchanged(t);
    NotContainsWithoutHead(t, ThousandsMark);
    PlainBranch(t);
    NoRatingsWord(ds);
    assert Strip(t)[|ds|] == ' ';
  }
}
