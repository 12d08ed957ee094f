/** The field names of a harvested product record. The harvester builds its
    keys with f-strings; here a key is a value of `Key`, and `KeyName` spells
    it exactly as the harvester does. `KeyNameInjective` shows that distinct
    keys are distinct strings, so a record over `Key` and the JSON object
    over strings hold the same fields. */
module RecordKeys {
  import opened Text
  import opened Numbers
  import opened Json

  /** The fields `extract_product_details` and the harvest loop set. */
  datatype DetailField = ProductId | Product | Price | Ratings | Reviews | Url | Category

  /** The two featured viewpoints. */
  datatype ReviewType = TopPositive | Critical

  /** The fields of a featured review. */
  datatype FeaturedField = FId | FName | FComment | FCommentTitle | FInfluenced | FStarRating | FDate

  /** The fields of a general review. */
  datatype GeneralField = GId | GStarRating | GComment | GBuyingInfluence | GDate

  datatype Key =
    | Detail(detail: DetailField)
    | Featured(reviewType: ReviewType, featured: FeaturedField)
    | General(review: nat, general: GeneralField)

  type Fields = map<Key, Value>

  function DetailName(f: DetailField): string {
    match f
    case ProductId => "Product_ID"
    case Product => "product"
    case Price => "price"
    case Ratings => "ratings"
    case Reviews => "reviews"
    case Url => "url"
    case Category => "category"
  }

  function ReviewTypeName(t: ReviewType): string {
    match t
    case TopPositive => "Top_Positive"
    case Critical => "Critical"
  }

  function FeaturedName(f: FeaturedField): string {
    match f
    case FId => "ID"
    case FName => "Name"
    case FComment => "Comment"
    case FCommentTitle => "Comment_Title"
    case FInfluenced => "Influenced"
    case FStarRating => "Star_Rating"
    case FDate => "Date"
  }

  function GeneralName(f: GeneralField): string {
    match f
    case GId => "ID"
    case GStarRating => "Star_Rating"
    case GComment => "Comment"
    case GBuyingInfluence => "buying_influence"
    case GDate => "Date"
  }

  /** The key as the harvester writes it: `f'{review_type}_Review_Cust_{field}'`
      for a featured review and `f'Customer_{i}_{field}'` for a general one. */
  function KeyName(k: Key): string {
    match k
    case Detail(f) => DetailName(f)
    case Featured(t, f) => ReviewTypeName(t) + "_Review_Cust_" + FeaturedName(f)
    case General(i, f) => "Customer_" + NatToString(i) + "_" + GeneralName(f)
  }

  /** Two strings split at the first `c` of each are equal piecewise. */
  lemma SplitAtFirst(a: string, x: string, b: string, y: string, c: char)
    requires c !in a && c !in b
    requires a + [c] + x == b + [c] + y
    ensures a == b && x == y
  {
    var t := a + [c] + x;
    assert t[|a|] == c && t[|b|] == c;
    var k := FirstIndexOf(t, c);
    assert forall i :: 0 <= i < |a| ==> t[i] == a[i];
    assert forall i :: 0 <= i < |b| ==> t[i] == (b + [c] + y)[i] == b[i];
    assert k == |a| && k == |b|;
    assert a == t[..k] && b == (b + [c] + y)[..k];
    assert x == t[k + 1..] && y == (b + [c] + y)[k + 1..];
  }

  /** The review number and the field of a general key can be read back. */
  lemma GeneralNameInjective(i: nat, f: GeneralField, j: nat, g: GeneralField)
    requires KeyName(General(i, f)) == KeyName(General(j, g))
    ensures i == j && f == g
  {
    var a := NatToString(i);
    var b := NatToString(j);
    var x := GeneralName(f);
    var y := GeneralName(g);
    var p := "Customer_";
    assert KeyName(General(i, f)) == p + (a + "_" + x);
    assert KeyName(General(j, g)) == p + (b + "_" + y);
    PrefixCancel(p, a + "_" + x, b + "_" + y);
    assert '_' !in a && '_' !in b by {
      DigitsHaveNoUnderscore(a);
      DigitsHaveNoUnderscore(b);
    }
    SplitAtFirst(a, x, b, y, '_');
    assert i == DigitsValue(a) && j == DigitsValue(b);
    GeneralFieldFromName(f, g);
  }

  lemma PrefixCancel(p: string, u: string, v: string)
    requires p + u == p + v
    ensures u == v
  {
    assert (p + u)[|p|..] == u;
    assert (p + v)[|p|..] == v;
  }

  lemma DigitsHaveNoUnderscore(s: string)
    requires IsDigits(s)
    ensures '_' !in s
  {
    forall k | 0 <= k < |s|
      ensures s[k] != '_'
    {
      assert IsDigit(s[k]);
    }
  }

  /** The five general field names have five different lengths. */
  lemma GeneralFieldFromName(f: GeneralField, g: GeneralField)
    requires GeneralName(f) == GeneralName(g)
    ensures f == g
  {
    var n := |GeneralName(f)|;
    assert n == |GeneralName(g)|;
    match f
    case GId => assert n == 2;
    case GStarRating => assert n == 11;
    case GComment => assert n == 7;
    case GBuyingInfluence => assert n == 16;
    case GDate => assert n == 4;
  }

  /** The field of a featured key can be read back. */
  lemma FeaturedNameInjective(t: ReviewType, f: FeaturedField, g: FeaturedField)
    requires KeyName(Featured(t, f)) == KeyName(Featured(t, g))
    ensures f == g
  {
    var n := |ReviewTypeName(t)| + |"_Review_Cust_"|;
    assert FeaturedName(f) == KeyName(Featured(t, f))[n..];
    assert FeaturedName(g) == KeyName(Featured(t, g))[n..];
  }

  /** Keys of different kinds, or of different viewpoints, differ in their
      first two characters. */
  lemma KeyNameHead(k: Key)
    ensures |KeyName(k)| >= 3
    ensures k.General? ==> KeyName(k)[..2] == "Cu"
    ensures k.Featured? && k.reviewType == TopPositive ==> KeyName(k)[0] == 'T'
    ensures k.Featured? && k.reviewType == Critical ==> KeyName(k)[..2] == "Cr"
    ensures k.Detail? ==> KeyName(k)[0] in "Ppruc"
  {
    match k
    case Detail(f) =>
    case Featured(t, f) =>
    case General(i, f) =>
  }

  /** Distinct keys have distinct names. */
  lemma KeyNameInjective(k: Key, m: Key)
    requires KeyName(k) == KeyName(m)
    ensures k == m
  {
    KeyNameHead(k);
    KeyNameHead(m);
    match k
    case Detail(_) =>
    case Featured(t, f) =>
      FeaturedNameInjective(t, f, m.featured);
    case General(i, f) =>
      GeneralNameInjective(i, f, m.review, m.general);
  }

  /** The record as the JSON object the harvester writes. */
  function ToJson(r: Fields): (o: Record)
    ensures o.Keys == set k | k in r :: KeyName(k)
    ensures forall k :: k in r ==> o[KeyName(k)] == r[k]
  {
    assert forall k, m :: k in r && m in r && KeyName(k) == KeyName(m) ==> k == m by {
      forall k, m | k in r && m in r && KeyName(k) == KeyName(m)
        ensures k == m
      {
        KeyNameInjective(k, m);
      }
    }
    map k | k in r :: KeyName(k) := r[k]
  }
}
