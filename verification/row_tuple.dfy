/** `clean_format_data`: one normalised row as the 46 values of the insert,
    in the order of the insert's columns, with the per-slot substitutions
    and the lookups that raise `KeyError`. */
module CleanFormat {
  import opened Maybe
  import opened Json
  import opened RecordKeys
  import opened Cells
  import opened Table
  import opened Normalise

  /** The seven fields of a featured review, in the order of the insert. */
  function FeaturedKeys(t: ReviewType): seq<Key> {
    [Featured(t, FId), Featured(t, FName), Featured(t, FDate), Featured(t, FComment),
     Featured(t, FCommentTitle), Featured(t, FInfluenced), Featured(t, FStarRating)]
  }

  /** The five fields of general review `i`, in the order of the insert. */
  function CustomerKeys(i: nat): seq<Key> {
    [General(i, GId), General(i, GStarRating), General(i, GComment), General(i, GBuyingInfluence), General(i, GDate)]
  }

  /** The fields of general reviews `1..n`, review by review. */
  function CustomerRange(n: nat): (r: seq<Key>)
    ensures |r| == 5 * n
  {
    if n == 0 then [] else CustomerRange(n - 1) + CustomerKeys(n)
  }

  const DetailList: seq<Key> :=
    [Detail(ProductId), Detail(Product), Detail(Price), Detail(Ratings), Detail(Reviews), Detail(Category), Detail(Url)]

  /** The columns of the insert, in order: the product, the top positive
      review, the critical review and five general reviews. */
  const TupleKeys: seq<Key> := DetailList + FeaturedKeys(TopPositive) + FeaturedKeys(Critical) + CustomerRange(5)

  /** The columns `clean_format_data` looks up, in the order it looks them
      up; a column looked up again is listed once, since a second lookup of
      a column that exists cannot raise. The top positive comment is never
      looked up. */
  const AccessList: seq<Key> := [
    Detail(Ratings), Detail(Price), Detail(Reviews), Detail(ProductId), Detail(Product), Detail(Category), Detail(Url),
    Featured(Critical, FId), Featured(Critical, FName), Featured(Critical, FComment), Featured(Critical, FCommentTitle),
    Featured(Critical, FInfluenced), Featured(Critical, FStarRating), Featured(Critical, FDate),
    Featured(TopPositive, FId), Featured(TopPositive, FName), Featured(TopPositive, FCommentTitle),
    Featured(TopPositive, FInfluenced), Featured(TopPositive, FStarRating), Featured(TopPositive, FDate)
  ] + CustomerRange(5)

  /** The keys `clean_format_data` reads, by shape. */
  predicate Read(k: Key) {
    match k
    case Detail(_) => true
    case Featured(t, f) => !(t == TopPositive && f == FComment)
    case General(i, _) => 1 <= i <= 5
  }

  /** The row holds every column `clean_format_data` reads. */
  ghost predicate Has(row: Record) {
    forall k :: Read(k) ==> KeyName(k) in row
  }

  /** The column a slot's value comes from: its own, except that the top
      positive comment slot is filled from the critical comment. */
  function Reads(k: Key): Key {
    if k == Featured(TopPositive, FComment) then Featured(Critical, FComment) else k
  }

  /** `x if x != 'None' else None`. */
  function NoneToNull(v: Value): (r: Value)
    ensures r.Null? <==> v.Null? || v == Text(NoneText)
    ensures !r.Null? ==> r == v
  {
    if v == Text(NoneText) then Null else v
  }

  /** `x if x != 'None' else 0`. */
  function NoneToZero(v: Value): (r: Value)
    ensures r != v <==> v == Text(NoneText)
    ensures r != v ==> r == Number(0.0)
  {
    if v == Text(NoneText) then Number(0.0) else v
  }

  /** `x if pd.notna(x) else 0.0`. */
  function MissingToZero(v: Value): (r: Value)
    ensures !r.Null?
    ensures r != v <==> v.Null?
    ensures v.Null? ==> r == Number(0.0)
  {
    if v.Null? then Number(0.0) else v
  }

  /** `x if x != 'None' else text`. */
  function NoneTo(v: Value, text: string): (r: Value)
    requires text != NoneText
    ensures r != Text(NoneText)
    ensures r != v <==> v == Text(NoneText)
    ensures r != v ==> r == Text(text)
  {
    if v == Text(NoneText) then Text(text) else v
  }

  /** The critical comment slot: a null-like comment becomes
      "Unavailable". A missing comment is taken to be the `np.nan` object,
      the one missing value the list membership test matches. */
  function CriticalComment(v: Value): (r: Value)
    ensures !NullLike(r)
    ensures r != v <==> NullLike(v)
    ensures r != v ==> r == Text(Unavailable)
  {
    if NullLike(v) then Text(Unavailable) else v
  }

  /** The top positive comment slot, filled from the critical comment: a
      null-like comment becomes `None`. */
  function TopPositiveComment(v: Value): (r: Value)
    ensures r.Null? <==> NullLike(v)
    ensures !r.Null? ==> r == v
  {
    if NullLike(v) then Null else v
  }

  /** Reference definition of a slot: the rule `clean_format_data` applies
      to the value it reads for the column `k`. */
  function SlotRule(k: Key, v: Value): Value {
    match k
    case Detail(_) => v
    case Featured(t, f) =>
      (match f
       case FId => NoneToNull(v)
       case FName => NoneToNull(v)
       case FCommentTitle => NoneToNull(v)
       case FComment => if t == Critical then CriticalComment(v) else TopPositiveComment(v)
       case FInfluenced => NoneToZero(v)
       case FStarRating => MissingToZero(v)
       case FDate => FormatDate(v))
    case General(_, f) =>
      (match f
       case GId => NoneTo(v, Unavailable)
       case GStarRating => MissingToZero(v)
       case GComment => NoneTo(v, Unavailable)
       case GBuyingInfluence => MissingToZero(v)
       case GDate => NoneTo(v, DefaultDate))
  }

  /** The product fields, as read. */
  function DetailSlots(row: Record): seq<Value>
    requires Has(row)
  {
    [row[KeyName(Detail(ProductId))], row[KeyName(Detail(Product))], row[KeyName(Detail(Price))],
     row[KeyName(Detail(Ratings))], row[KeyName(Detail(Reviews))], row[KeyName(Detail(Category))],
     row[KeyName(Detail(Url))]]
  }

  /** The slots of a featured review. The comment comes from the critical
      review for both viewpoints; the date is the `format_date` of the
      column, which replaces the first computation of the date slot. */
  function FeaturedSlots(row: Record, t: ReviewType): seq<Value>
    requires Has(row)
  {
    var comment := row[KeyName(Featured(Critical, FComment))];
    [NoneToNull(row[KeyName(Featured(t, FId))]),
     NoneToNull(row[KeyName(Featured(t, FName))]),
     FormatDate(row[KeyName(Featured(t, FDate))]),
     if t == Critical then CriticalComment(comment) else TopPositiveComment(comment),
     NoneToNull(row[KeyName(Featured(t, FCommentTitle))]),
     NoneToZero(row[KeyName(Featured(t, FInfluenced))]),
     MissingToZero(row[KeyName(Featured(t, FStarRating))])]
  }

  /** The slots of general review `i`. */
  function CustomerSlots(row: Record, i: nat): seq<Value>
    requires Has(row) && 1 <= i <= 5
  {
    [NoneTo(row[KeyName(General(i, GId))], Unavailable),
     MissingToZero(row[KeyName(General(i, GStarRating))]),
     NoneTo(row[KeyName(General(i, GComment))], Unavailable),
     MissingToZero(row[KeyName(General(i, GBuyingInfluence))]),
     NoneTo(row[KeyName(General(i, GDate))], DefaultDate)]
  }

  /** `customer_data` after the loop has run for reviews `1..n`. */
  function CustomerData(row: Record, n: nat): (r: seq<Value>)
    requires Has(row) && n <= 5
    ensures |r| == 5 * n
  {
    if n == 0 then [] else CustomerData(row, n - 1) + CustomerSlots(row, n)
  }

  /** `clean_format_data` of one row: `Err` with the first column it looks
      up that the row lacks (the `KeyError`), otherwise the tuple. */
  function RowTuple(row: Record): (r: Result<seq<Value>, string>)
    ensures r.Err? <==> !Has(row)
    ensures r.Err? ==> exists i :: 0 <= i < |AccessList| && r.error == KeyName(AccessList[i]) && r.error !in row &&
                                (forall j :: 0 <= j < i ==> KeyName(AccessList[j]) in row)
    ensures r.Ok? ==> |r.value| == |TupleKeys| == 46
  {
    NoneMissingHas(row);
    match FirstMissing(NameList(AccessList), row.Keys)
    case Some(c) => Err(c)
    case None =>
      Ok(DetailSlots(row) + FeaturedSlots(row, TopPositive) + FeaturedSlots(row, Critical) + CustomerData(row, 5))
  }

  lemma InCustomerKeys(i: nat, k: Key)
    ensures k in CustomerKeys(i) <==> k.General? && k.review == i
  {
    if k.General? && k.review == i {
      match k.general
      case GId =>
      case GStarRating =>
      case GComment =>
      case GBuyingInfluence =>
      case GDate =>
    }
  }

  lemma {:induction false} InCustomerRange(n: nat, k: Key)
    ensures k in CustomerRange(n) <==> k.General? && 1 <= k.review <= n
    decreases n
  {
    if n > 0 {
      InCustomerRange(n - 1, k);
      InCustomerKeys(n, k);
    }
  }

  lemma InDetailList(d: DetailField)
    ensures Detail(d) in AccessList
  {
    match d
    case ProductId =>
    case Product =>
    case Price =>
    case Ratings =>
    case Reviews =>
    case Url =>
    case Category =>
  }

  lemma InFeaturedList(t: ReviewType, f: FeaturedField)
    ensures Featured(t, f) in AccessList <==> !(t == TopPositive && f == FComment)
  {
    InCustomerRange(5, Featured(t, f));
    if t == Critical {
      match f
      case FId =>
      case FName =>
      case FComment =>
      case FCommentTitle =>
      case FInfluenced =>
      case FStarRating =>
      case FDate =>
    } else {
      match f
      case FId =>
      case FName =>
      case FComment =>
      case FCommentTitle =>
      case FInfluenced =>
      case FStarRating =>
      case FDate =>
    }
  }

  /** The lookup list holds exactly the columns read. */
  lemma AccessListReads()
    ensures forall k :: k in AccessList <==> Read(k)
  {
    forall k
      ensures k in AccessList <==> Read(k)
    {
      match k
      case Detail(d) =>
        InDetailList(d);
      case Featured(t, f) =>
        InFeaturedList(t, f);
      case General(_, _) =>
        InCustomerRange(5, k);
    }
  }

  /** The lookups raise no `KeyError` exactly when the row has every column
      read. */
  lemma NoneMissingHas(row: Record)
    ensures FirstMissing(NameList(AccessList), row.Keys).None? <==> Has(row)
  {
    AccessListReads();
    var names := NameList(AccessList);
    if FirstMissing(names, row.Keys).None? {
      forall k | Read(k)
        ensures KeyName(k) in row
      {
        var i :| 0 <= i < |AccessList| && AccessList[i] == k;
        assert names[i] == KeyName(k);
      }
    }
  }

  /** `values` are the slots of the columns `keys`, each the slot rule of
      the value read for it. */
  ghost predicate Slots(values: seq<Value>, keys: seq<Key>, row: Record) {
    |values| == |keys| && forall j :: 0 <= j < |keys| ==> values[j] == SlotRule(keys[j], Cell(row, KeyName(Reads(keys[j]))))
  }

  lemma SlotsAppend(a: seq<Value>, ka: seq<Key>, b: seq<Value>, kb: seq<Key>, row: Record)
    requires Slots(a, ka, row) && Slots(b, kb, row)
    ensures Slots(a + b, ka + kb, row)
  {
    forall j | |ka| <= j < |ka| + |kb|
      ensures (a + b)[j] == SlotRule((ka + kb)[j], Cell(row, KeyName(Reads((ka + kb)[j]))))
    {
      assert (a + b)[j] == b[j - |ka|] && (ka + kb)[j] == kb[j - |ka|];
    }
  }

  lemma DetailSlotsRule(row: Record)
    requires Has(row)
    ensures Slots(DetailSlots(row), DetailList, row)
  {
  }

  lemma FeaturedSlotsRule(row: Record, t: ReviewType)
    requires Has(row)
    ensures Slots(FeaturedSlots(row, t), FeaturedKeys(t), row)
  {
    var values := FeaturedSlots(row, t);
    var keys := FeaturedKeys(t);
    forall j | 0 <= j < 7
      ensures values[j] == SlotRule(keys[j], Cell(row, KeyName(Reads(keys[j]))))
    {
      FeaturedSlotRule(row, t, j);
    }
  }

  lemma FeaturedSlotRule(row: Record, t: ReviewType, j: nat)
    requires Has(row) && j < 7
    ensures FeaturedSlots(row, t)[j] == SlotRule(FeaturedKeys(t)[j], Cell(row, KeyName(Reads(FeaturedKeys(t)[j]))))
  {
    var k := FeaturedKeys(t)[j];
    if j == 3 {
      assert Reads(k) == Featured(Critical, FComment);
    } else {
      assert Reads(k) == k;
    }
  }

  lemma CustomerSlotsRule(row: Record, i: nat)
    requires Has(row) && 1 <= i <= 5
    ensures Slots(CustomerSlots(row, i), CustomerKeys(i), row)
  {
  }

  lemma {:induction false} CustomerDataRule(row: Record, n: nat)
    requires Has(row) && n <= 5
    ensures Slots(CustomerData(row, n), CustomerRange(n), row)
    decreases n
  {
    if n > 0 {
      CustomerDataRule(row, n - 1);
      CustomerSlotsRule(row, n);
      SlotsAppend(CustomerData(row, n - 1), CustomerRange(n - 1), CustomerSlots(row, n), CustomerKeys(n), row);
    }
  }

  /** Each slot of the tuple is the slot rule of its insert column applied
      to the value read for it: the tuple is in the order of the insert's
      columns, and only the top positive comment slot reads another
      column. */
  lemma RowTupleSlots(row: Record)
    requires RowTuple(row).Ok?
    ensures Slots(RowTuple(row).value, TupleKeys, row)
  {
    DetailSlotsRule(row);
    FeaturedSlotsRule(row, TopPositive);
    FeaturedSlotsRule(row, Critical);
    CustomerDataRule(row, 5);
    var d := DetailSlots(row);
    var p := FeaturedSlots(row, TopPositive);
    var c := FeaturedSlots(row, Critical);
    var g := CustomerData(row, 5);
    SlotsAppend(d, DetailList, p, FeaturedKeys(TopPositive), row);
    SlotsAppend(d + p, DetailList + FeaturedKeys(TopPositive), c, FeaturedKeys(Critical), row);
    SlotsAppend(d + p + c, DetailList + FeaturedKeys(TopPositive) + FeaturedKeys(Critical), g, CustomerRange(5), row);
  }

  /** The top positive comment slot (10) is filled from the critical
      comment, as is the critical comment slot (17): a null-like critical
      comment leaves slot 10 `None` and slot 17 "Unavailable", and any other
      comment appears in both. */
  lemma TopPositiveCommentSlot(row: Record)
    requires RowTuple(row).Ok?
    ensures RowTuple(row).value[10].Null? <==> NullLike(Cell(row, KeyName(Featured(Critical, FComment))))
    ensures RowTuple(row).value[17] == Text(Unavailable) <==>
      NullLike(Cell(row, KeyName(Featured(Critical, FComment)))) || Cell(row, KeyName(Featured(Critical, FComment))) == Text(Unavailable)
    ensures !RowTuple(row).value[10].Null? ==>
      RowTuple(row).value[10] == RowTuple(row).value[17] == Cell(row, KeyName(Featured(Critical, FComment)))
  {
    RowTupleSlots(row);
    assert TupleKeys[10] == Featured(TopPositive, FComment);
    assert TupleKeys[17] == Featured(Critical, FComment);
  }

  /** What a featured slot holds once the normaliser's rule for its column
      has run: the text slots and the critical comment are the cleaned
      value, never `None` (their 'None' test never succeeds), and the top
      positive comment slot is the cleaned critical comment; the date slot
      passes the normalised date through `format_date` unchanged; the
      influence slot holds the filled and zeroed value. */
  lemma FeaturedSlotAfterNormalise(t: ReviewType, f: FeaturedField, v: Value)
    ensures f in {FId, FName, FCommentTitle} || (f == FComment && t == Critical) ==>
      SlotRule(Featured(t, f), ColumnRule(KeyName(Featured(t, f)), v)) == CleanFeaturedCell(v)
    ensures f == FComment && t == TopPositive ==>
      SlotRule(Featured(t, f), ColumnRule(KeyName(Reads(Featured(t, f))), v)) == CleanFeaturedCell(v)
    ensures f == FDate ==> SlotRule(Featured(t, f), ColumnRule(KeyName(Featured(t, f)), v)) == NormalizeDate(v)
    ensures f == FInfluenced ==> SlotRule(Featured(t, f), ColumnRule(KeyName(Featured(t, f)), v)) == ZeroInfluence(FillNone(v))
    ensures f == FStarRating ==> SlotRule(Featured(t, f), ColumnRule(KeyName(Featured(t, f)), v)) == MissingToZero(v)
  {
    ColumnRuleByKey(Featured(t, f), v);
    ColumnRuleByKey(Featured(Critical, FComment), v);
    FormatNormalizedDate(v);
  }

  /** What a general-review slot holds once the normaliser's rule for its
      column has run: a missing or null-token comment is "Unavailable", a
      missing or 'None' identifier is "Unavailable", the normalised date
      passes through, and a missing rating or buying-influence count is
      zero. */
  lemma GeneralSlotAfterNormalise(i: nat, f: GeneralField, v: Value)
    requires 1 <= i <= 5
    ensures f == GComment ==>
      SlotRule(General(i, f), ColumnRule(KeyName(General(i, f)), v)) == if NullLike(v) then Text(Unavailable) else v
    ensures f == GId ==>
      SlotRule(General(i, f), ColumnRule(KeyName(General(i, f)), v)) ==
        if v.Null? || v == Text(NoneText) then Text(Unavailable) else v
    ensures f == GDate ==> SlotRule(General(i, f), ColumnRule(KeyName(General(i, f)), v)) == NormalizeDate(v)
    ensures f in {GStarRating, GBuyingInfluence} ==>
      SlotRule(General(i, f), ColumnRule(KeyName(General(i, f)), v)) == MissingToZero(v)
  {
    ColumnRuleByKey(General(i, f), v);
  }
}
