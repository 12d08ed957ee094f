/** What the harvester's output becomes once the normaliser has read it:
    the post dates it records and the one-record-per-ASIN rule it keeps. */
module Pipeline {
  import opened Maybe
  import opened Text
  import opened Json
  import opened RecordKeys
  import opened Calendar
  import opened PostDate
  import opened ExtraParameters
  import opened Harvest
  import opened Cells
  import opened Table
  import opened Dedup
  import opened Normalise

  /** A post date the harvester stores reaches the table as the `NaT` date
      when it is missing or `Dash`, and as its own `YYYY-MM-DD` day when it
      is a midnight a `Timestamp` can hold; "-" never survives the date
      pass. */
  lemma HarvestedDateNormalised(tag: Option<string>)
    ensures DateValue(tag).Null? || DateValue(tag) == Text(Dash) ==> NormalizeDate(DateValue(tag)) == Text(NaTDate)
    ensures forall d :: ValidDate(d) && DateValue(tag) == Text(IsoString(Midnight(d))) ==>
      NormalizeDate(DateValue(tag)) == if InTimestampRange(Midnight(d)) then Text(DateString(d)) else Text(NaTDate)
    ensures NormalizeDate(DateValue(tag)) != Text(Dash)
  {
    forall d | ValidDate(d) && DateValue(tag) == Text(IsoString(Midnight(d)))
      ensures NormalizeDate(DateValue(tag)) == if InTimestampRange(Midnight(d)) then Text(DateString(d)) else Text(NaTDate)
    {
      MidnightNormalised(d);
    }
  }

  /** The `isoformat()` of a midnight keeps its day when a `Timestamp` can
      hold it and is `NaT` otherwise. */
  lemma MidnightNormalised(d: Date)
    requires ValidDate(d)
    ensures NormalizeDate(Text(IsoString(Midnight(d)))) == if InTimestampRange(Midnight(d)) then Text(DateString(d)) else Text(NaTDate)
  {
    IsoStringFields(Midnight(d));
  }

  /** A review dated "... on March 1, 2023" reaches the table, and the
      insert, as "2023-03-01". */
  lemma PostDateReachesTable(p: string, d: Date)
    requires ValidDate(d) && InTimestampRange(Midnight(d))
    requires p == [] || !IsSpace(p[0])
    requires !Contains(p, OnMarker)
    ensures NormalizeDate(DateValue(Some(p + OnMarker + ReviewDateText(d)))) == Text(DateString(d))
    ensures FormatDate(NormalizeDate(DateValue(Some(p + OnMarker + ReviewDateText(d))))) == Text(DateString(d))
  {
    PostDateRoundTrip(p, d);
    NormalizeIsoString(Midnight(d));
    FormatNormalizedDate(DateValue(Some(p + OnMarker + ReviewDateText(d))));
  }

  /** The defaults of a product page without a featured review reach the
      table as "Unavailable" text, the `NaT` date and zero counts. */
  lemma DefaultsNormalised(t: ReviewType, f: FeaturedField)
    ensures var v := ColumnRule(KeyName(Featured(t, f)), SetDefaultValues(t)[Featured(t, f)]);
      && (f in {FId, FName, FComment, FCommentTitle} ==> v == Text(Unavailable))
      && (f == FDate ==> v == Text(NaTDate))
      && (f in {FInfluenced, FStarRating} ==> v == Number(0.0))
  {
    ColumnRuleByKey(Featured(t, f), SetDefaultValues(t)[Featured(t, f)]);
  }

  /** The harvested file as the normaliser loads it. */
  function HarvestTable(visits: seq<Visit>, record: Visit -> Fields): Frame {
    Load(MapSeq(HarvestRecords(visits, record), ToJson))
  }

  /** Row `i` of the harvested table is filed under the ASIN of the visit
      its record came from. */
  lemma HarvestTableKey(visits: seq<Visit>, record: Visit -> Fields, i: nat)
    requires KeepsProductId(record)
    requires i < |HarvestRecords(visits, record)|
    ensures i < |HarvestTable(visits, record).rows|
    ensures var v := KeepFirst(Reaching(visits), AsinOf)[i];
      && v in visits && Reached(v)
      && CellOf(ProductIdColumn)(HarvestTable(visits, record).rows[i]) == Text(v.asin)
  {
    var records := HarvestRecords(visits, record);
    var json := MapSeq(records, ToJson);
    var kept := KeepFirst(Reaching(visits), AsinOf);
    KeepFirstMembers(Reaching(visits), AsinOf);
    assert kept[i] in Reaching(visits);
    assert records[i] == record(kept[i]);
    assert ProductIdColumn in json[i];
  }

  /** The harvest already keeps one record per ASIN, so the normaliser's
      `drop_duplicates` on `Product_ID` removes no row: every harvested
      product is rewritten and kept, in harvest order. */
  lemma HarvestKeepsEveryRow(visits: seq<Visit>, record: Visit -> Fields)
    requires KeepsProductId(record)
    ensures Reference(HarvestTable(visits, record)).rows ==
      MapSeq(HarvestTable(visits, record).rows, row => ReferenceRow(row, Padding(HarvestTable(visits, record))))
    ensures |Reference(HarvestTable(visits, record)).rows| == |HarvestRecords(visits, record)|
  {
    var f := HarvestTable(visits, record);
    var key := CellOf(ProductIdColumn);
    var kept := KeepFirst(Reaching(visits), AsinOf);
    KeepFirstDistinct(Reaching(visits), AsinOf);
    forall i, j | 0 <= i < j < |f.rows|
      ensures key(f.rows[i]) != key(f.rows[j])
    {
      HarvestTableKey(visits, record, i);
      HarvestTableKey(visits, record, j);
      assert AsinOf(kept[i]) != AsinOf(kept[j]);
    }
    KeepFirstOfDistinct(f.rows, key);
  }

  /** The product IDs of the harvested table are exactly the ASINs whose
      product page loaded. */
  lemma HarvestTableIds(visits: seq<Visit>, record: Visit -> Fields)
    requires KeepsProductId(record)
    ensures Keys(HarvestTable(visits, record).rows, CellOf(ProductIdColumn)) == set v | v in visits && Reached(v) :: Text(v.asin)
  {
    TableIdsReached(visits, record);
    ReachedIdsInTable(visits, record);
  }

  lemma TableIdsReached(visits: seq<Visit>, record: Visit -> Fields)
    requires KeepsProductId(record)
    ensures Keys(HarvestTable(visits, record).rows, CellOf(ProductIdColumn)) <= set v | v in visits && Reached(v) :: Text(v.asin)
  {
    var f := HarvestTable(visits, record);
    var key := CellOf(ProductIdColumn);
    forall x | x in Keys(f.rows, key)
      ensures x in set v | v in visits && Reached(v) :: Text(v.asin)
    {
      var i :| 0 <= i < |f.rows| && key(f.rows[i]) == x;
      HarvestTableKey(visits, record, i);
    }
  }

  lemma ReachedIdsInTable(visits: seq<Visit>, record: Visit -> Fields)
    requires KeepsProductId(record)
    ensures (set v | v in visits && Reached(v) :: Text(v.asin)) <= Keys(HarvestTable(visits, record).rows, CellOf(ProductIdColumn))
  {
    var f := HarvestTable(visits, record);
    var key := CellOf(ProductIdColumn);
    var reaching := Reaching(visits);
    var kept := KeepFirst(reaching, AsinOf);
    KeepFirstKeys(reaching, AsinOf);
    forall v | v in visits && Reached(v)
      ensures Text(v.asin) in Keys(f.rows, key)
    {
      var j :| 0 <= j < |reaching| && reaching[j] == v;
      assert AsinOf(v) in Keys(reaching, AsinOf);
      var i :| 0 <= i < |kept| && AsinOf(kept[i]) == v.asin;
      assert i < |HarvestRecords(visits, record)|;
      HarvestTableKey(visits, record, i);
      assert key(f.rows[i]) == Text(v.asin);
    }
  }

  /** The product IDs in the normalised table are exactly the ASINs whose
      product page loaded. */
  lemma HarvestedProductIds(visits: seq<Visit>, record: Visit -> Fields)
    requires KeepsProductId(record)
    ensures Keys(Reference(HarvestTable(visits, record)).rows, CellOf(ProductIdColumn)) ==
      set v | v in visits && Reached(v) :: Text(v.asin)
  {
    ReferenceShape(HarvestTable(visits, record));
    HarvestTableIds(visits, record);
  }
}
