/** The review fields of a product, read from its reviews page: up to five
    general reviews and the two featured viewpoints, Top_Positive and
    Critical (`scrape_extra_parameters`, `extract_specific_review`,
    `set_default_values`). Each element the page lookups found is given as
    its text; `None` is an element that was not found. */
module ExtraParameters {
  import opened Maybe
  import opened Text
  import opened Json
  import opened RecordKeys
  import opened PostDate
  import opened ReviewText

  /** At most this many general reviews are read. */
  const MaxGeneralReviews := 5

  /** One general review block: its `id` attribute and the texts of its
      star-rating, title, alternate-title, helpful-vote and post-date
      elements. */
  datatype ReviewBlock = ReviewBlock(
    id: Option<string>,
    stars: Option<string>,
    title: Option<string>,
    altTitle: Option<string>,
    votes: Option<string>,
    dateLine: Option<string>)

  /** One featured viewpoint block: its `id` attribute and the texts of its
      profile-name, helpful-vote, comment, title, post-date and star-rating
      elements. */
  datatype Viewpoint = Viewpoint(
    id: Option<string>,
    name: Option<string>,
    votes: Option<string>,
    comment: Option<string>,
    title: Option<string>,
    dateLine: Option<string>,
    stars: Option<string>)

  /** A reviews page that loaded: its general review blocks and its
      viewpoint blocks, in page order. */
  datatype ReviewPage = ReviewPage(reviews: seq<ReviewBlock>, viewpoints: seq<Viewpoint>)

  /** The seven keys of one featured review. */
  function FeaturedKeys(t: ReviewType): set<Key> {
    {Featured(t, FId), Featured(t, FName), Featured(t, FComment), Featured(t, FCommentTitle),
     Featured(t, FInfluenced), Featured(t, FStarRating), Featured(t, FDate)}
  }

  /** The five keys of general review `i`. */
  function ReviewKeys(i: nat): set<Key> {
    {General(i, GId), General(i, GStarRating), General(i, GComment), General(i, GBuyingInfluence), General(i, GDate)}
  }

  /** The keys of general reviews 1 to `n`. */
  function GeneralKeys(n: nat): set<Key> {
    if n == 0 then {} else GeneralKeys(n - 1) + ReviewKeys(n)
  }

  function Min(a: nat, b: nat): nat {
    if a < b then a else b
  }

  /** All keys of a page whose reviews were read without an exception. */
  function ExtraKeys(reviewCount: nat): set<Key> {
    GeneralKeys(Min(reviewCount, MaxGeneralReviews)) + FeaturedKeys(TopPositive) + FeaturedKeys(Critical)
  }

  /** The stored post date: the string, or `None` for a missing element. */
  function DateValue(tag: Option<string>): (v: Value)
    ensures v.Null? <==> tag.None?
    ensures v.Text? ==> v.s == Dash || exists d :: Calendar.ValidDate(d) && v.s == Calendar.IsoString(Calendar.Midnight(d))
  {
    OptionalText(ExtractPostDate(tag))
  }

  /** `set_default_values`: the featured record of a page without that
      viewpoint. */
  function SetDefaultValues(t: ReviewType): (r: Fields)
    ensures r.Keys == FeaturedKeys(t)
    ensures forall f :: f in {FId, FName, FComment, FCommentTitle} ==> r[Featured(t, f)] == Text("None")
    ensures r[Featured(t, FInfluenced)] == Number(0.0) && r[Featured(t, FStarRating)] == Number(0.0)
    ensures r[Featured(t, FDate)].Null?
  {
    map[Featured(t, FId) := Text("None"),
        Featured(t, FName) := Text("None"),
        Featured(t, FComment) := Text("None"),
        Featured(t, FCommentTitle) := Text("None"),
        Featured(t, FInfluenced) := Number(0.0),
        Featured(t, FStarRating) := Number(0.0),
        Featured(t, FDate) := Null]
  }

  /** The general review title: the stripped title, else the stripped
      alternate title, else 'NaN', with its rating line removed. */
  function GeneralComment(b: ReviewBlock): string {
    var title := if b.title.Some? then Strip(b.title.value)
                 else if b.altTitle.Some? then Strip(b.altTitle.value)
                 else "NaN";
    CleanTitle(title)
  }

  /** Reading the star rating or the helpful votes of a general review
      raises. */
  predicate ReviewFaults(b: ReviewBlock, wordToNum: WordToNum) {
    StarRating(b.stars).None? || GeneralHelpful(b.votes, wordToNum).None?
  }

  /** The values read from one general review block. */
  datatype GeneralRead = GeneralRead(id: string, stars: real, comment: string, helpful: int, date: Value)

  /** The body of the general-review loop for one block; `None` where reading
      the star rating or the helpful votes raises. */
  function ReadGeneralReview(b: ReviewBlock, wordToNum: WordToNum): (r: Option<GeneralRead>)
    ensures r.None? <==> ReviewFaults(b, wordToNum)
    ensures r.Some? ==> r.value.id == b.id.GetOr("None") && r.value.comment == GeneralComment(b)
    ensures r.Some? && b.stars.None? ==> r.value.stars == 0.0
    ensures r.Some? && b.votes.None? ==> r.value.helpful == 0
    ensures r.Some? ==> (r.value.date.Null? <==> b.dateLine.None?)
  {
    var stars := StarRating(b.stars);
    var helpful := GeneralHelpful(b.votes, wordToNum);
    if stars.None? || helpful.None? then None
    else Some(GeneralRead(b.id.GetOr("None"), stars.value, GeneralComment(b), helpful.value, DateValue(b.dateLine)))
  }

  /** The values of every block, in page order. */
  function ReadGeneralReviews(blocks: seq<ReviewBlock>, wordToNum: WordToNum): (r: seq<Option<GeneralRead>>)
    ensures |r| == |blocks|
    ensures forall i :: 0 <= i < |blocks| ==> r[i] == ReadGeneralReview(blocks[i], wordToNum)
  {
    seq(|blocks|, i requires 0 <= i < |blocks| => ReadGeneralReview(blocks[i], wordToNum))
  }

  /** The five fields of general review `i` (1-based). */
  function GeneralFields(i: nat, g: GeneralRead): (r: Fields)
    ensures r.Keys == ReviewKeys(i)
  {
    map[General(i, GId) := Text(g.id),
        General(i, GStarRating) := Number(g.stars),
        General(i, GComment) := Text(g.comment),
        General(i, GBuyingInfluence) := Number(g.helpful as real),
        General(i, GDate) := g.date]
  }

  /** The fields of reviews 1 to `|values|`; `None` where reading any of them
      raised, since the exception ends the whole page. */
  function GeneralReviews(values: seq<Option<GeneralRead>>): (r: Option<Fields>)
    ensures r.Some? ==> r.value.Keys == GeneralKeys(|values|)
    ensures r.None? <==> exists i :: 0 <= i < |values| && values[i].None?
    decreases |values|
  {
    if |values| == 0 then Some(map[])
    else
      var n := |values|;
      var earlier := GeneralReviews(values[..n - 1]);
      FaultInPrefix(values, values[..n - 1]);
      if earlier.None? || values[n - 1].None? then None
      else
        GeneralKeysStep(earlier.value, n, values[n - 1].value);
        Some(earlier.value + GeneralFields(n, values[n - 1].value))
  }

  /** A read that raised is among the earlier blocks or is the last one. */
  lemma FaultInPrefix(values: seq<Option<GeneralRead>>, init: seq<Option<GeneralRead>>)
    requires |values| > 0 && init == values[..|values| - 1]
    ensures (exists i :: 0 <= i < |values| && values[i].None?) <==>
      (exists i :: 0 <= i < |init| && init[i].None?) || values[|values| - 1].None?
  {
    assert forall i :: 0 <= i < |init| ==> init[i] == values[i];
  }

  lemma GeneralKeysStep(earlier: Fields, n: nat, g: GeneralRead)
    requires n > 0 && earlier.Keys == GeneralKeys(n - 1)
    ensures (earlier + GeneralFields(n, g)).Keys == GeneralKeys(n)
  {
  }

  /** Reading the helpful votes or the star rating of a viewpoint raises. */
  predicate ViewpointFaults(v: Viewpoint, wordToNum: WordToNum) {
    FeaturedHelpful(v.votes, wordToNum).None? || StarRating(v.stars).None?
  }

  /** The values read from one viewpoint block. */
  datatype FeaturedRead = FeaturedRead(
    id: string, name: string, influenced: int, comment: string, title: string, date: Value, stars: real)

  /** The body of `extract_specific_review` for one viewpoint; `None` where
      reading its helpful votes or star rating raises. The `id` loses every
      "viewpoint-"; a missing name, comment or title is 'None'. */
  function ReadViewpoint(v: Viewpoint, wordToNum: WordToNum): (r: Option<FeaturedRead>)
    ensures r.None? <==> ViewpointFaults(v, wordToNum)
    ensures r.Some? && v.votes.None? ==> r.value.influenced == 0
    ensures r.Some? && v.stars.None? ==> r.value.stars == 0.0
    ensures r.Some? ==> (r.value.date.Null? <==> v.dateLine.None?)
  {
    var influenced := FeaturedHelpful(v.votes, wordToNum);
    var stars := StarRating(v.stars);
    if influenced.None? || stars.None? then None
    else
      Some(FeaturedRead(
        ReplaceAll(v.id.GetOr("None"), "viewpoint-", ""),
        v.name.GetOr("None"),
        influenced.value,
        if v.comment.Some? then Strip(v.comment.value) else "None",
        v.title.GetOr("None"),
        DateValue(v.dateLine),
        stars.value))
  }

  /** The seven fields of a featured review. */
  function FeaturedFields(t: ReviewType, f: FeaturedRead): (r: Fields)
    ensures r.Keys == FeaturedKeys(t)
  {
    map[Featured(t, FId) := Text(f.id),
        Featured(t, FName) := Text(f.name),
        Featured(t, FInfluenced) := Number(f.influenced as real),
        Featured(t, FComment) := Text(f.comment),
        Featured(t, FCommentTitle) := Text(f.title),
        Featured(t, FDate) := f.date,
        Featured(t, FStarRating) := Number(f.stars)]
  }

  /** `extract_specific_review`: the featured record of one viewpoint. */
  function ExtractSpecificReview(t: ReviewType, v: Viewpoint, wordToNum: WordToNum): (r: Option<Fields>)
    ensures r.Some? <==> !ViewpointFaults(v, wordToNum)
    ensures r.Some? ==> r.value.Keys == FeaturedKeys(t)
  {
    match ReadViewpoint(v, wordToNum)
    case None => None
    case Some(f) => Some(FeaturedFields(t, f))
  }

  /** The featured record for viewpoint `k` of the page, or the defaults
      when the page has fewer viewpoints. */
  function FeaturedReview(t: ReviewType, viewpoints: seq<Viewpoint>, k: nat, wordToNum: WordToNum): (r: Option<Fields>)
    ensures r.Some? ==> r.value.Keys == FeaturedKeys(t)
    ensures r.None? <==> k < |viewpoints| && ViewpointFaults(viewpoints[k], wordToNum)
    ensures k >= |viewpoints| ==> r == Some(SetDefaultValues(t))
  {
    if k < |viewpoints| then ExtractSpecificReview(t, viewpoints[k], wordToNum)
    else Some(SetDefaultValues(t))
  }

  /** Some field the page reading visits raises: one of the first five
      general reviews, or one of the first two viewpoints. */
  predicate PageFaults(p: ReviewPage, wordToNum: WordToNum) {
    || (exists i :: 0 <= i < Min(|p.reviews|, MaxGeneralReviews) && ReviewFaults(p.reviews[i], wordToNum))
    || (|p.viewpoints| > 0 && ViewpointFaults(p.viewpoints[0], wordToNum))
    || (|p.viewpoints| > 1 && ViewpointFaults(p.viewpoints[1], wordToNum))
  }

  /** Every key of `m` is a key of the featured review `t`. */
  predicate OfReviewType(m: Fields, t: ReviewType) {
    forall k :: k in m ==> k.Featured? && k.reviewType == t
  }

  /** Every key of `m` is a general review key. */
  predicate OfGeneralReviews(m: Fields) {
    forall k :: k in m ==> k.General?
  }

  /** The general fields, then the Top_Positive ones, then the Critical ones,
      each `result.update` adding its keys; no fields at all once any part
      raised. The three parts have disjoint keys, so none overwrites
      another. */
  function Assemble(general: Option<Fields>, top: Option<Fields>, critical: Option<Fields>): (r: Fields)
    requires general.Some? ==> OfGeneralReviews(general.value)
    requires top.Some? ==> OfReviewType(top.value, TopPositive)
    requires critical.Some? ==> OfReviewType(critical.value, Critical) && Featured(Critical, FId) in critical.value
    ensures r == map[] <==> general.None? || top.None? || critical.None?
    ensures forall k :: k in r ==> !k.Detail?
    ensures r != map[] ==> r.Keys == general.value.Keys + top.value.Keys + critical.value.Keys
    ensures r != map[] ==> forall k :: k in general.value ==> r[k] == general.value[k]
    ensures r != map[] ==> forall k :: k in top.value ==> r[k] == top.value[k]
    ensures r != map[] ==> forall k :: k in critical.value ==> r[k] == critical.value[k]
  {
    if general.Some? && top.Some? && critical.Some? then
      var r := general.value + top.value + critical.value;
      assert Featured(Critical, FId) in r;
      r
    else map[]
  }

  /** `scrape_extra_parameters`: `None` for a page whose reviews did not
      appear in time, which yields no fields at all, as does an exception
      while reading any field. Otherwise every key of the first five general
      reviews and of both featured reviews is present. */
  function ScrapeExtraParameters(page: Option<ReviewPage>, wordToNum: WordToNum): (r: Fields)
    ensures r == map[] <==> page.None? || PageFaults(page.value, wordToNum)
    ensures forall k :: k in r ==> !k.Detail?
    ensures r != map[] ==> r.Keys == ExtraKeys(|page.value.reviews|)
  {
    match page
    case None => map[]
    case Some(p) =>
      var general := FirstGeneralReviews(p, wordToNum);
      FeaturedKeysOfType(TopPositive);
      FeaturedKeysOfType(Critical);
      Assemble(general,
               FeaturedReview(TopPositive, p.viewpoints, 0, wordToNum),
               FeaturedReview(Critical, p.viewpoints, 1, wordToNum))
  }

  /** The viewpoint each featured review is read from. */
  function ViewpointSlot(t: ReviewType): nat {
    match t
    case TopPositive => 0
    case Critical => 1
  }

  /** The general loop over the first five review blocks of the page. */
  function FirstGeneralReviews(p: ReviewPage, wordToNum: WordToNum): (r: Option<Fields>)
    ensures r.None? <==> exists i :: 0 <= i < Min(|p.reviews|, MaxGeneralReviews) && ReviewFaults(p.reviews[i], wordToNum)
    ensures r.Some? ==> r.value.Keys == GeneralKeys(Min(|p.reviews|, MaxGeneralReviews))
    ensures r.Some? ==> OfGeneralReviews(r.value)
  {
    var firsts := p.reviews[..Min(|p.reviews|, MaxGeneralReviews)];
    assert forall i :: 0 <= i < |firsts| ==> firsts[i] == p.reviews[i];
    GeneralKeysAreGeneral(|firsts|);
    GeneralReviews(ReadGeneralReviews(firsts, wordToNum))
  }

  /** Membership in the keys of reviews 1 to `n`. */
  lemma {:induction false} InGeneralKeys(n: nat, k: Key)
    ensures k in GeneralKeys(n) <==> k.General? && 1 <= k.review <= n
    decreases n
  {
    if n > 0 {
      InGeneralKeys(n - 1, k);
      KeyInReviewKeys(k, n);
    }
  }

  lemma FeaturedKeysOfType(t: ReviewType)
    ensures forall m: Fields :: m.Keys == FeaturedKeys(t) ==> OfReviewType(m, t) && Featured(t, FId) in m
  {
  }

  lemma GeneralKeysAreGeneral(n: nat)
    ensures forall m: Fields :: m.Keys == GeneralKeys(n) ==> OfGeneralReviews(m)
  {
    forall k | k in GeneralKeys(n)
      ensures k.General?
    {
      InGeneralKeys(n, k);
    }
  }

  /** The fields of general review `i` are the values read from the `i`-th
      block: the reviews after it do not overwrite them. */
  lemma {:induction false} GeneralReviewsLookup(values: seq<Option<GeneralRead>>, i: nat, k: Key)
    requires GeneralReviews(values).Some?
    requires 1 <= i <= |values| && k in ReviewKeys(i)
    ensures values[i - 1].Some?
    ensures k in GeneralReviews(values).value
    ensures GeneralReviews(values).value[k] == GeneralFields(i, values[i - 1].value)[k]
    decreases |values|
  {
    var n := |values|;
    var earlier := GeneralReviews(values[..n - 1]);
    assert GeneralReviews(values).value == earlier.value + GeneralFields(n, values[n - 1].value);
    if i < n {
      assert values[..n - 1][i - 1] == values[i - 1];
      GeneralReviewsLookup(values[..n - 1], i, k);
      assert k !in ReviewKeys(n) by {
        KeyInReviewKeys(k, i);
        KeyInReviewKeys(k, n);
      }
    }
  }

  lemma KeyInReviewKeys(k: Key, i: nat)
    ensures k in ReviewKeys(i) <==> k.General? && k.review == i
  {
    if k.General? && k.review == i {
      match k.general
      case GId =>
      case GStarRating =>
      case GComment =>
      case GBuyingInfluence =>
      case GDate =>
    }
  }

  /** On a page read without an exception, review `i` (of the first five)
      holds the values read from the `i`-th review block. */
  lemma ExtraGeneralFields(page: ReviewPage, wordToNum: WordToNum, i: nat, k: Key)
    requires !PageFaults(page, wordToNum)
    requires 1 <= i <= Min(|page.reviews|, MaxGeneralReviews) && k in ReviewKeys(i)
    ensures ReadGeneralReview(page.reviews[i - 1], wordToNum).Some?
    ensures k in ScrapeExtraParameters(Some(page), wordToNum)
    ensures ScrapeExtraParameters(Some(page), wordToNum)[k]
         == GeneralFields(i, ReadGeneralReview(page.reviews[i - 1], wordToNum).value)[k]
  {
    var firsts := page.reviews[..Min(|page.reviews|, MaxGeneralReviews)];
    var values := ReadGeneralReviews(firsts, wordToNum);
    assert firsts[i - 1] == page.reviews[i - 1];
    assert FirstGeneralReviews(page, wordToNum) == GeneralReviews(values);
    GeneralReviewsLookup(values, i, k);
  }

  /** On a page read without an exception, the Top_Positive fields come from
      the first viewpoint and the Critical fields from the second, and a
      page with fewer viewpoints gets the defaults instead. */
  lemma ExtraFeaturedFields(page: ReviewPage, wordToNum: WordToNum, t: ReviewType, f: FeaturedField)
    requires !PageFaults(page, wordToNum)
    ensures FeaturedReview(t, page.viewpoints, ViewpointSlot(t), wordToNum).Some?
    ensures Featured(t, f) in ScrapeExtraParameters(Some(page), wordToNum)
    ensures ScrapeExtraParameters(Some(page), wordToNum)[Featured(t, f)]
         == FeaturedReview(t, page.viewpoints, ViewpointSlot(t), wordToNum).value[Featured(t, f)]
    ensures |page.viewpoints| <= ViewpointSlot(t) ==>
      ScrapeExtraParameters(Some(page), wordToNum)[Featured(t, f)] == SetDefaultValues(t)[Featured(t, f)]
  {
    var general := FirstGeneralReviews(page, wordToNum);
    var top := FeaturedReview(TopPositive, page.viewpoints, 0, wordToNum);
    var critical := FeaturedReview(Critical, page.viewpoints, 1, wordToNum);
    FeaturedKeysOfType(TopPositive);
    FeaturedKeysOfType(Critical);
    assert ScrapeExtraParameters(Some(page), wordToNum) == Assemble(general, top, critical);
    assert Featured(t, f) in FeaturedKeys(t) by {
      match f
      case FId =>
      case FName =>
      case FComment =>
      case FCommentTitle =>
      case FInfluenced =>
      case FStarRating =>
      case FDate =>
    }
  }

  /** The featured ID is the viewpoint's `id` without its "viewpoint-"
      prefix. */
  lemma ViewpointIdStripped(v: Viewpoint, wordToNum: WordToNum, x: string)
    requires !ViewpointFaults(v, wordToNum)
    requires v.id == Some("viewpoint-" + x) && !Contains(x, "viewpoint-")
    ensures ReadViewpoint(v, wordToNum).value.id == x
  {
    var id := "viewpoint-" + x;
    assert StartsWith(id, "viewpoint-");
    assert id[|"viewpoint-"|..] == x;
    ReplaceAbsent(x, "viewpoint-", "");
  }

  /** A viewpoint without an `id` has the ID 'None'. The selector
      `div[id^="viewpoint-"]` (scraper_script.py:111) only finds elements
      with an `id`, so this is the fallback of `.get('id', 'None')` rather
      than a case the harvested pages produce. */
  lemma MissingViewpointId(v: Viewpoint, wordToNum: WordToNum)
    requires !ViewpointFaults(v, wordToNum)
    requires v.id.None?
    ensures ReadViewpoint(v, wordToNum).value.id == "None"
  {
    NoneKeepsName();
  }

  lemma NoneKeepsName()
    ensures ReplaceAll("None", "viewpoint-", "") == "None"
  {
    var none := "None";
    assert forall i :: 0 <= i < |none| ==> none[i] in {'N', 'o', 'n', 'e'};
    NotContainsWithoutHead(none, "viewpoint-");
    ReplaceAbsent(none, "viewpoint-", "");
  }
}
