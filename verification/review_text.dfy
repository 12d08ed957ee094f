/** The per-review text fields the harvester reads: the review title with its
    "<k> out of 5 stars" line removed, the helpful-vote counts and the star
    rating. A field whose reading raises is `None` here. */
module ReviewText {
  import opened Maybe
  import opened Text
  import opened Numbers

  /** The literal tail of the rating line the title cleanup removes. */
  const StarsTail := " out of 5 stars\n"

  /** Length of the leading run of digits. */
  function DigitRun(s: string): (k: nat)
    ensures k <= |s|
    ensures AllDigits(s[..k])
    ensures k == |s| || !IsDigit(s[k])
  {
    if |s| > 0 && IsDigit(s[0]) then
      var k := 1 + DigitRun(s[1..]);
      assert s[..k] == [s[0]] + s[1..][..k - 1];
      k
    else 0
  }

  /** Length of a match of `\d+(\.\d+)?` followed by `tail` at the start of
      `s`, or 0 when there is none. Both digit runs are greedy and the
      characters after them are not digits, so backtracking finds no other
      match. */
  function NumberThenAt(s: string, tail: string): (k: nat)
    ensures k <= |s|
  {
    var a := DigitRun(s);
    if a == 0 then 0
    else if OccursAt(s, tail, a) then a + |tail|
    else if a < |s| && s[a] == '.' then
      var m := FractionThenAt(s[a + 1..], tail);
      if m > 0 then a + 1 + m else 0
    else 0
  }

  /** After the point: the length of `\d+` followed by `tail`, so that the
      whole match is the point and this; 0 (no match) otherwise. */
  function FractionThenAt(r: string, tail: string): (k: nat)
    ensures k <= |r|
  {
    var b := DigitRun(r);
    if b > 0 && OccursAt(r, tail, b) then b + |tail| else 0
  }

  /** Length of a match of `\d+(\.\d+)? out of 5 stars\n` at the start of `s`,
      or 0 when there is none. */
  function RatingLineAt(s: string): (k: nat)
    ensures k <= |s|
  {
    NumberThenAt(s, StarsTail)
  }

  /** `re.sub(r'\d+(\.\d+)? out of 5 stars\n', '', s)`: matches are taken
      left to right and never overlap. */
  function CleanTitle(s: string): (r: string)
    ensures |r| <= |s|
    decreases |s|
  {
    if |s| == 0 then []
    else
      var k := RatingLineAt(s);
      if k > 0 then CleanTitle(s[k..]) else [s[0]] + CleanTitle(s[1..])
  }

  /** The rating line a review page puts before the title text. */
  function RatingLine(whole: string, fraction: Option<string>): string {
    match fraction
    case None => whole + StarsTail
    case Some(f) => whole + "." + f + StarsTail
  }

  lemma {:induction false} DigitRunPrefix(ds: string, t: string)
    requires AllDigits(ds)
    requires t == [] || !IsDigit(t[0])
    ensures DigitRun(ds + t) == |ds|
    decreases |ds|
  {
    if |ds| == 0 {
      assert ds + t == t;
    } else {
      assert (ds + t)[1..] == ds[1..] + t;
      DigitRunPrefix(ds[1..], t);
    }
  }

  lemma WholeLineMatches(whole: string, t: string)
    requires IsDigits(whole)
    ensures RatingLineAt(whole + StarsTail + t) == |whole| + |StarsTail|
  {
    var s := whole + StarsTail + t;
    assert s == whole + (StarsTail + t);
    DigitRunPrefix(whole, StarsTail + t);
    assert s[|whole|..|whole| + |StarsTail|] == StarsTail;
  }

  lemma FractionLineMatches(whole: string, f: string, t: string)
    requires IsDigits(whole) && IsDigits(f)
    ensures RatingLineAt(whole + "." + f + StarsTail + t) == |whole| + 1 + |f| + |StarsTail|
  {
    var s := whole + "." + f + StarsTail + t;
    var a := |whole|;
    PointAfterDigits(whole, f + StarsTail + t);
    assert s == whole + "." + (f + StarsTail + t);
    var r := s[a + 1..];
    assert r == f + (StarsTail + t);
    DigitRunPrefix(f, StarsTail + t);
    assert r[|f|..|f| + |StarsTail|] == StarsTail;
    FractionStep(s, StarsTail, a, |f|);
  }

  /** After a run of digits stopped by a point, the rating tail does not
      start there. */
  lemma PointAfterDigits(whole: string, rest: string)
    requires IsDigits(whole)
    ensures var s := whole + "." + rest;
      DigitRun(s) == |whole| && s[|whole|] == '.' && !OccursAt(s, StarsTail, |whole|)
  {
    var s := whole + "." + rest;
    assert s == whole + ("." + rest);
    DigitRunPrefix(whole, "." + rest);
    assert s[|whole|] == '.';
    if |whole| + |StarsTail| <= |s| {
      assert s[|whole|..|whole| + |StarsTail|][0] == '.';
    }
  }

  /** A digit run, a point and a second digit run followed by `tail` match as
      a whole. */
  lemma FractionStep(s: string, tail: string, a: nat, b: nat)
    requires 0 < a < |s| && DigitRun(s) == a && s[a] == '.' && !OccursAt(s, tail, a)
    requires b > 0 && DigitRun(s[a + 1..]) == b && OccursAt(s[a + 1..], tail, b)
    ensures NumberThenAt(s, tail) == a + 1 + b + |tail|
  {
    assert FractionThenAt(s[a + 1..], tail) == b + |tail|;
  }

  lemma RatingLineMatches(whole: string, fraction: Option<string>, t: string)
    requires IsDigits(whole)
    requires fraction.Some? ==> IsDigits(fraction.value)
    ensures RatingLineAt(RatingLine(whole, fraction) + t) == |RatingLine(whole, fraction)|
  {
    match fraction
    case None => WholeLineMatches(whole, t);
    case Some(f) => FractionLineMatches(whole, f, t);
  }

  /** The rating line in front of a title is removed and the rest is
      cleaned as it would be on its own. */
  lemma RemovesRatingLine(whole: string, fraction: Option<string>, t: string)
    requires IsDigits(whole)
    requires fraction.Some? ==> IsDigits(fraction.value)
    ensures CleanTitle(RatingLine(whole, fraction) + t) == CleanTitle(t)
  {
    var line := RatingLine(whole, fraction);
    RatingLineMatches(whole, fraction, t);
    assert (line + t)[|line|..] == t;
  }

  /** A title without digits is kept as it is. */
  lemma {:induction false} NoDigitsUnchanged(s: string)
    requires forall i :: 0 <= i < |s| ==> !IsDigit(s[i])
    ensures CleanTitle(s) == s
    decreases |s|
  {
    if |s| > 0 {
      assert DigitRun(s) == 0;
      NoDigitsUnchanged(s[1..]);
      assert s == [s[0]] + s[1..];
    }
  }

  /** "4.0 out of 5 stars\n" followed by a digit-free title leaves the title. */
  lemma RatedTitle(whole: string, fraction: Option<string>, title: string)
    requires IsDigits(whole)
    requires fraction.Some? ==> IsDigits(fraction.value)
    requires forall i :: 0 <= i < |title| ==> !IsDigit(title[i])
    ensures CleanTitle(RatingLine(whole, fraction) + title) == title
  {
    RemovesRatingLine(whole, fraction, title);
    NoDigitsUnchanged(title);
  }

  /** `w2n.word_to_num` from the word2number package, which this model does
      not contain: the number a word names, `None` where it raises. */
  type WordToNum = string -> Option<int>

  /** The helpful-vote count of a featured review in
      `extract_specific_review`: 0 without the element; otherwise the
      leading digits of the stripped text, or failing those the first word
      given to `word_to_num`. `None` where that raises, including the
      `IndexError` of a text with no word at all. */
  function FeaturedHelpful(element: Option<string>, wordToNum: WordToNum): (r: Option<int>)
    ensures element.None? ==> r == Some(0)
    ensures element.Some? && DigitRun(Strip(element.value)) > 0 ==> r.Some? && r.value >= 0
  {
    match element
    case None => Some(0)
    case Some(raw) =>
      var text := Strip(raw);
      var k := DigitRun(text);
      if k > 0 then Some(DigitsValue(text[..k]) as int)
      else
        match FirstWord(text)
        case None => None
        case Some(w) => wordToNum(w)
  }

  /** The helpful-vote count of a general review in `scrape_extra_parameters`:
      0 without the element, otherwise `word_to_num` of its first word, even
      when that word is written in digits. */
  function GeneralHelpful(element: Option<string>, wordToNum: WordToNum): (r: Option<int>)
    ensures element.None? ==> r == Some(0)
    ensures element.Some? && AllSpace(element.value) ==> r.None?
  {
    match element
    case None => Some(0)
    case Some(text) =>
      match FirstWord(text)
      case None => None
      case Some(w) => wordToNum(w)
  }

  /** "12 people found this helpful" counts 12 on a featured review,
      whatever `word_to_num` would make of the words. */
  lemma LeadingCount(n: nat, rest: string, wordToNum: WordToNum)
    requires rest == [] || (!IsDigit(rest[0]) && !IsSpace(rest[|rest| - 1]))
    ensures FeaturedHelpful(Some(NatToString(n) + rest), wordToNum) == Some(n)
  {
    var s := NatToString(n) + rest;
    var ds := NatToString(n);
    assert s[0] == ds[0];
    assert s[|s| - 1] == if rest == [] then ds[|ds| - 1] else rest[|rest| - 1];
    StripUnchanged(s);
    DigitRunPrefix(ds, rest);
    assert s[..|ds|] == ds;
  }

  /** Any run of digits, leading zeros allowed and whitespace around the
      text allowed, counts as the value of that run: "  007 people found
      this helpful\n" counts 7. */
  lemma LeadingDigits(a: string, ds: string, rest: string, b: string, wordToNum: WordToNum)
    requires AllSpace(a) && AllSpace(b) && IsDigits(ds)
    requires rest == [] || (!IsDigit(rest[0]) && !IsSpace(rest[|rest| - 1]))
    ensures FeaturedHelpful(Some(a + ds + rest + b), wordToNum) == Some(DigitsValue(ds) as int)
  {
    var s := ds + rest;
    assert s[0] == ds[0];
    assert s[|s| - 1] == if rest == [] then ds[|ds| - 1] else rest[|rest| - 1];
    assert a + ds + rest + b == a + s + b;
    StripPadded(a, s, b);
    DigitRunPrefix(ds, rest);
    assert s[..|ds|] == ds;
  }

  /** A featured count spelled in words, "One person found this helpful",
      is whatever `word_to_num` makes of the first word. */
  lemma WordCount(w: string, rest: string, wordToNum: WordToNum)
    requires |w| > 0 && !IsDigit(w[0]) && forall i :: 0 <= i < |w| ==> !IsSpace(w[i])
    requires rest == [] || (IsSpace(rest[0]) && !IsSpace(rest[|rest| - 1]))
    ensures FeaturedHelpful(Some(w + rest), wordToNum) == wordToNum(w)
  {
    var s := w + rest;
    assert s[0] == w[0];
    assert s[|s| - 1] == if rest == [] then w[|w| - 1] else rest[|rest| - 1];
    StripUnchanged(s);
    assert DigitRun(s) == 0;
    assert LeadingSpace(s) == 0;
    assert s[0..] == s;
    WordLengthPrefix(w, rest);
    assert s[..|w|] == w;
  }

  /** A general review's count is whatever `word_to_num` makes of the first
      word of the text, whitespace around it aside, whether that word is
      spelled in letters or in digits. */
  lemma GeneralWordCount(a: string, w: string, rest: string, wordToNum: WordToNum)
    requires AllSpace(a)
    requires |w| > 0 && forall i :: 0 <= i < |w| ==> !IsSpace(w[i])
    requires rest == [] || IsSpace(rest[0])
    ensures GeneralHelpful(Some(a + w + rest), wordToNum) == wordToNum(w)
  {
    FirstWordOf(a, w, rest);
  }

  /** "12 people found this helpful" counts 12 on a featured review but
      `word_to_num("12")` on a general one. */
  lemma GeneralDigitCount(n: nat, rest: string, wordToNum: WordToNum)
    requires rest == [] || (IsSpace(rest[0]) && !IsSpace(rest[|rest| - 1]))
    ensures GeneralHelpful(Some(NatToString(n) + rest), wordToNum) == wordToNum(NatToString(n))
    ensures FeaturedHelpful(Some(NatToString(n) + rest), wordToNum) == Some(n)
  {
    var ds := NatToString(n);
    assert forall i :: 0 <= i < |ds| ==> !IsSpace(ds[i]) by {
      forall i | 0 <= i < |ds|
        ensures !IsSpace(ds[i])
      {
        assert IsDigit(ds[i]);
      }
    }
    assert [] + ds + rest == ds + rest;
    GeneralWordCount([], ds, rest, wordToNum);
    LeadingCount(n, rest, wordToNum);
  }

  /** The star rating of a review: 0.0 without the element, otherwise
      `float` of the first word of its text ("4.0 out of 5 stars" gives 4.0).
      `None` where that raises. */
  function StarRating(element: Option<string>): (r: Option<real>)
    ensures element.None? ==> r == Some(0.0)
    ensures element.Some? && AllSpace(element.value) ==> r.None?
  {
    match element
    case None => Some(0.0)
    case Some(text) =>
      match FirstWord(text)
      case None => None
      case Some(w) => ParseDecimal(w)
  }

  /** "4.5 out of 5 stars" rates 4.5. */
  lemma StarRatingOfText(ds: string, c: char, rest: string)
    requires IsDigits(ds) && IsDigit(c)
    requires rest == [] || (IsSpace(rest[0]) && !IsSpace(rest[|rest| - 1]))
    ensures StarRating(Some(ds + "." + [c] + rest)) == Some(DigitsValue(ds) as real + DigitValue(c) as real / 10.0)
  {
    var w := ds + "." + [c];
    var s := w + rest;
    assert w[0] == ds[0];
    assert forall i :: 0 <= i < |w| ==> !IsSpace(w[i]);
    assert s[0] == w[0];
    assert LeadingSpace(s) == 0;
    assert s[0..] == s;
    WordLengthPrefix(w, rest);
    assert s[..|w|] == w;
    ParseDecimalTenths(ds, c);
  }
}
