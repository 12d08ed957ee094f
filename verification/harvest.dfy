/** The harvest loop (`scrape_amazon`): the ASINs of each search page, the
    product fields of each product page, and the "seen identifier" set that
    keeps one record per ASIN. */
module Harvest {
  import opened Maybe
  import opened Text
  import opened Json
  import opened RecordKeys
  import opened Price
  import opened ReviewCount
  import opened ReviewText
  import opened ExtraParameters
  import opened Dedup

  /** `extract_data_asins_from_html`: the distinct `data-asin` attribute
      values of a search page that are not blank. */
  function ExtractAsins(attributes: seq<string>): (r: set<string>)
    ensures forall a :: a in r <==> a in attributes && !AllSpace(a)
  {
    set a | a in attributes && Strip(a) != []
  }

  /** No extracted ASIN is the empty string, so the harvest loop's
      `if identifier` test never rejects one. */
  lemma AsinsNotEmpty(attributes: seq<string>)
    ensures "" !in ExtractAsins(attributes)
  {
  }

  /** The elements of a product page the harvester reads: the title's
      `.string` (`None` also where the title has nested markup), the two
      price elements, the texts of every element the rating selector finds,
      in document order, and the review-count element. */
  datatype ProductPage = ProductPage(
    title: Option<string>,
    offscreen: Option<string>,
    fallback: Option<string>,
    ratings: seq<string>,
    reviewCount: Option<string>)

  /** `get_title`: the stripped title, "" without one. */
  function GetTitle(title: Option<string>): (r: string)
    ensures title.None? ==> r == ""
    ensures title.Some? ==> r == [] || (!IsSpace(r[0]) && !IsSpace(r[|r| - 1]))
  {
    match title
    case None => ""
    case Some(s) => Strip(s)
  }

  /** `get_rating`: the stripped text of the first element the selector
      finds, "" when it finds none. */
  function GetRating(ratings: seq<string>): (r: string)
    ensures ratings == [] ==> r == ""
    ensures ratings != [] ==> |r| <= |ratings[0]|
    ensures ratings != [] ==> r == [] || (!IsSpace(r[0]) && !IsSpace(r[|r| - 1]))
  {
    if ratings == [] then "" else Strip(ratings[0])
  }

  /** The title keeps everything between its surrounding whitespace. */
  lemma TitleKept(a: string, s: string, b: string)
    requires AllSpace(a) && AllSpace(b)
    requires s == [] || (!IsSpace(s[0]) && !IsSpace(s[|s| - 1]))
    ensures GetTitle(Some(a + s + b)) == s
  {
    StripPadded(a, s, b);
  }

  /** ... and drops nothing but whitespace. */
  lemma TitleCuts(x: string) returns (a: string, b: string)
    ensures AllSpace(a) && AllSpace(b)
    ensures x == a + GetTitle(Some(x)) + b
  {
    a, b := StripCuts(x);
  }

  /** The rating is the first element's text between its surrounding
      whitespace, whatever the later elements hold. */
  lemma RatingKept(a: string, s: string, b: string, later: seq<string>)
    requires AllSpace(a) && AllSpace(b)
    requires s == [] || (!IsSpace(s[0]) && !IsSpace(s[|s| - 1]))
    ensures GetRating([a + s + b] + later) == s
  {
    StripPadded(a, s, b);
  }

  /** ... and drops nothing of the first element's text but whitespace. */
  lemma RatingCuts(first: string, later: seq<string>) returns (a: string, b: string)
    ensures AllSpace(a) && AllSpace(b)
    ensures first == a + GetRating([first] + later) + b
  {
    a, b := StripCuts(first);
  }

  const ReviewsPath := "https://www.amazon.com/product-reviews/"
  const NewestFirst := "/ref=cm_cr_dp_d_show_all_top?ie=UTF8&reviewerType=all_reviews&sortBy=recent"

  /** The all-reviews page of a product, newest first. */
  function ReviewsUrl(asin: string): string {
    ReviewsPath + asin + NewestFirst
  }

  /** What `extract_product_details` reads from a product page. */
  datatype Details = Details(title: string, price: string, rating: string, reviews: int)

  function ReadProductPage(page: ProductPage): (d: Details)
    ensures d.price == "" || IsAmount(d.price)
  {
    Details(GetTitle(page.title), GetPrice(page.offscreen, page.fallback), GetRating(page.ratings),
            GetReviewCount(page.reviewCount))
  }

  /** The `product_dict` of `extract_product_details`, with the category the
      loop adds. */
  function ProductDetails(asin: string, category: string, d: Details): (r: Fields)
    ensures r.Keys == DetailKeys()
    ensures r[Detail(ProductId)] == Text(asin) && r[Detail(Category)] == Text(category)
    ensures r[Detail(Url)] == Text(ReviewsUrl(asin))
  {
    map[Detail(ProductId) := Text(asin),
        Detail(Product) := Text(d.title),
        Detail(Price) := Text(d.price),
        Detail(Ratings) := Text(d.rating),
        Detail(Reviews) := Number(d.reviews as real),
        Detail(Url) := Text(ReviewsUrl(asin)),
        Detail(Category) := Text(category)]
  }

  /** The seven product-detail keys. */
  function DetailKeys(): set<Key> {
    {Detail(ProductId), Detail(Product), Detail(Price), Detail(Ratings), Detail(Reviews), Detail(Url), Detail(Category)}
  }

  lemma InDetailKeys(k: Key)
    ensures k in DetailKeys() <==> k.Detail?
  {
    if k.Detail? {
      match k.detail
      case ProductId =>
      case Product =>
      case Price =>
      case Ratings =>
      case Reviews =>
      case Url =>
      case Category =>
    }
  }

  /** One ASIN as the loop meets it: its category, its product page (`None`
      where waiting for the title timed out, which raises out of
      `extract_product_details`) and its reviews page (`None` where the
      reviews did not appear in time). */
  datatype Visit = Visit(asin: string, category: string, page: Option<ProductPage>, reviews: Option<ReviewPage>)

  function AsinOf(v: Visit): string {
    v.asin
  }

  /** The loop reaches the seen test: the product page loaded and the
      identifier is not empty. */
  predicate Reached(v: Visit) {
    v.page.Some? && v.asin != ""
  }

  /** The visits that reach the seen test, in loop order. */
  function Reaching(visits: seq<Visit>): (r: seq<Visit>)
    ensures forall v :: v in r <==> v in visits && Reached(v)
    decreases |visits|
  {
    if |visits| == 0 then []
    else
      var init := visits[..|visits| - 1];
      var v := visits[|visits| - 1];
      assert visits == init + [v];
      Reaching(init) + (if Reached(v) then [v] else [])
  }

  /** The record of a product the loop keeps: its details updated with the
      extra review fields. The loop builds it only for a visit whose product
      page loaded. */
  function ProductRecord(v: Visit, wordToNum: WordToNum): (r: Fields)
  {
    match v.page
    case None => map[]
    case Some(page) => ProductDetails(v.asin, v.category, ReadProductPage(page)) + ScrapeExtraParameters(v.reviews, wordToNum)
  }

  /** The review fields never overwrite a product detail. */
  lemma ExtraKeepsDetails(v: Visit, wordToNum: WordToNum, d: DetailField)
    requires v.page.Some?
    ensures Detail(d) in ProductRecord(v, wordToNum)
    ensures ProductRecord(v, wordToNum)[Detail(d)] == ProductDetails(v.asin, v.category, ReadProductPage(v.page.value))[Detail(d)]
  {
    var details := ProductDetails(v.asin, v.category, ReadProductPage(v.page.value));
    var extra := ScrapeExtraParameters(v.reviews, wordToNum);
    InDetailKeys(Detail(d));
    MergeKeepsLeft(details, extra, Detail(d));
  }

  /** A key only the left map holds keeps its left value in the union. */
  lemma MergeKeepsLeft<K, V>(left: map<K, V>, right: map<K, V>, k: K)
    requires k in left && k !in right
    ensures k in left + right && (left + right)[k] == left[k]
  {
  }

  /** Every record the loop keeps is filed under its ASIN. */
  ghost predicate KeepsProductId(record: Visit -> Fields) {
    forall v :: Reached(v) ==> Detail(ProductId) in record(v) && record(v)[Detail(ProductId)] == Text(v.asin)
  }

  lemma ProductRecordKeepsProductId(wordToNum: WordToNum)
    ensures KeepsProductId(v => ProductRecord(v, wordToNum))
  {
    forall v | Reached(v)
      ensures Detail(ProductId) in ProductRecord(v, wordToNum)
      ensures ProductRecord(v, wordToNum)[Detail(ProductId)] == Text(v.asin)
    {
      ExtraKeepsDetails(v, wordToNum, ProductId);
    }
  }

  function Records(kept: seq<Visit>, record: Visit -> Fields): (r: seq<Fields>)
    ensures |r| == |kept|
    ensures forall i :: 0 <= i < |kept| ==> r[i] == record(kept[i])
  {
    seq(|kept|, i requires 0 <= i < |kept| => record(kept[i]))
  }

  /** Reference definition of the harvest: the records of the first visit of
      each ASIN among those that reach the seen test. */
  function HarvestRecords(visits: seq<Visit>, record: Visit -> Fields): seq<Fields> {
    Records(KeepFirst(Reaching(visits), AsinOf), record)
  }

  /** The harvest loop of `scrape_amazon` over the ASINs in the order it
      meets them; `record` builds the record of a product whose page
      loaded (`extract_product_details` updated with
      `scrape_extra_parameters`). */
  method CollectProducts(visits: seq<Visit>, record: Visit -> Fields) returns (products: seq<Fields>)
    ensures products == HarvestRecords(visits, record)
  {
    var seen: set<string> := {};
    products := [];
    ghost var kept: seq<Visit> := [];
    for i := 0 to |visits|
      invariant kept == KeepFirst(Reaching(visits[..i]), AsinOf)
      invariant seen == Keys(kept, AsinOf)
      invariant products == Records(kept, record)
    {
      var v := visits[i];
      HarvestStep(visits, i);
      if v.page.Some? {
        var identifier := v.asin;
        if identifier != "" && identifier !in seen {
          seen := seen + {identifier};
          KeysAppend(kept, v, AsinOf);
          RecordsAppend(kept, v, record);
          kept := kept + [v];
          products := products + [record(v)];
        }
      }
    }
    assert visits[..|visits|] == visits;
  }

  /** One turn of the harvest loop: the visit is kept exactly when it
      reaches the seen test with an ASIN not kept before. */
  lemma HarvestStep(visits: seq<Visit>, i: nat)
    requires i < |visits|
    ensures var kept := KeepFirst(Reaching(visits[..i]), AsinOf);
      KeepFirst(Reaching(visits[..i + 1]), AsinOf) ==
        if Reached(visits[i]) && visits[i].asin !in Keys(kept, AsinOf) then kept + [visits[i]] else kept
  {
    var v := visits[i];
    var before := Reaching(visits[..i]);
    assert visits[..i + 1][..i] == visits[..i];
    if Reached(v) {
      var after := before + [v];
      assert after[..|after| - 1] == before;
      assert Reaching(visits[..i + 1]) == after;
    } else {
      assert Reaching(visits[..i + 1]) == before;
    }
  }

  lemma RecordsAppend(kept: seq<Visit>, v: Visit, record: Visit -> Fields)
    ensures Records(kept + [v], record) == Records(kept, record) + [record(v)]
  {
  }

  /** The harvest keeps at most one record per ASIN, and one for every ASIN
      whose product page loaded. */
  lemma HarvestFacts(visits: seq<Visit>, record: Visit -> Fields)
    requires KeepsProductId(record)
    ensures |HarvestRecords(visits, record)| <= |visits|
    ensures forall i :: 0 <= i < |HarvestRecords(visits, record)| ==> Detail(ProductId) in HarvestRecords(visits, record)[i]
    ensures forall i, j :: 0 <= i < j < |HarvestRecords(visits, record)| ==>
      HarvestRecords(visits, record)[i][Detail(ProductId)] != HarvestRecords(visits, record)[j][Detail(ProductId)]
    ensures forall v :: v in visits && Reached(v) ==>
      exists i :: 0 <= i < |HarvestRecords(visits, record)| && HarvestRecords(visits, record)[i][Detail(ProductId)] == Text(v.asin)
  {
    ReachingLength(visits);
    HarvestIdsDistinct(visits, record);
    HarvestCoversReached(visits, record);
  }

  lemma HarvestIdsDistinct(visits: seq<Visit>, record: Visit -> Fields)
    requires KeepsProductId(record)
    ensures forall i :: 0 <= i < |HarvestRecords(visits, record)| ==> Detail(ProductId) in HarvestRecords(visits, record)[i]
    ensures forall i, j :: 0 <= i < j < |HarvestRecords(visits, record)| ==>
      HarvestRecords(visits, record)[i][Detail(ProductId)] != HarvestRecords(visits, record)[j][Detail(ProductId)]
  {
    var reaching := Reaching(visits);
    var kept := KeepFirst(reaching, AsinOf);
    var records := HarvestRecords(visits, record);
    KeepFirstMembers(reaching, AsinOf);
    KeepFirstDistinct(reaching, AsinOf);
    forall i | 0 <= i < |kept|
      ensures Detail(ProductId) in records[i] && records[i][Detail(ProductId)] == Text(kept[i].asin)
    {
      assert kept[i] in reaching;
    }
  }

  lemma HarvestCoversReached(visits: seq<Visit>, record: Visit -> Fields)
    requires KeepsProductId(record)
    ensures forall i :: 0 <= i < |HarvestRecords(visits, record)| ==> Detail(ProductId) in HarvestRecords(visits, record)[i]
    ensures forall v :: v in visits && Reached(v) ==>
      exists i :: 0 <= i < |HarvestRecords(visits, record)| && HarvestRecords(visits, record)[i][Detail(ProductId)] == Text(v.asin)
  {
    var reaching := Reaching(visits);
    var kept := KeepFirst(reaching, AsinOf);
    var records := HarvestRecords(visits, record);
    HarvestIdsDistinct(visits, record);
    KeepFirstMembers(reaching, AsinOf);
    KeepFirstKeys(reaching, AsinOf);
    forall v | v in visits && Reached(v)
      ensures exists i :: 0 <= i < |records| && records[i][Detail(ProductId)] == Text(v.asin)
    {
      var j :| 0 <= j < |reaching| && reaching[j] == v;
      assert AsinOf(reaching[j]) in Keys(reaching, AsinOf);
      var i :| 0 <= i < |kept| && AsinOf(kept[i]) == v.asin;
      assert kept[i] in reaching;
      assert records[i][Detail(ProductId)] == Text(v.asin);
    }
  }

  lemma {:induction false} ReachingLength(visits: seq<Visit>)
    ensures |Reaching(visits)| <= |visits|
    decreases |visits|
  {
    if |visits| > 0 {
      ReachingLength(visits[..|visits| - 1]);
    }
  }

  /** `scrape_amazon` on the ASINs in the order the loop meets them: one
      record per ASIN, from its first visit whose product page loaded. */
  method ScrapeAmazon(visits: seq<Visit>, wordToNum: WordToNum) returns (products: seq<Fields>)
    ensures products == HarvestRecords(visits, v => ProductRecord(v, wordToNum))
    ensures |products| <= |visits|
    ensures forall i :: 0 <= i < |products| ==> Detail(ProductId) in products[i]
    ensures forall i, j :: 0 <= i < j < |products| ==> products[i][Detail(ProductId)] != products[j][Detail(ProductId)]
    ensures forall v :: v in visits && Reached(v) ==> exists i :: 0 <= i < |products| && products[i][Detail(ProductId)] == Text(v.asin)
  {
    var record := v => ProductRecord(v, wordToNum);
    products := CollectProducts(visits, record);
    ProductRecordKeepsProductId(wordToNum);
    HarvestFacts(visits, record);
  }
}
