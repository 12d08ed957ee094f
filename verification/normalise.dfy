/** The normaliser's column passes, from loading the harvested file up to the
    row-by-row insert: which columns each pass touches, in what order, and
    which lookups raise `KeyError`. */
module Normalise {
  import opened Maybe
  import opened Json
  import opened RecordKeys
  import opened Cells
  import opened Table
  import opened Dedup
  import opened Calendar

  /** The names of a list of keys, in order. */
  function NameList(keys: seq<Key>): (r: seq<string>)
    ensures |r| == |keys| && forall i :: 0 <= i < |keys| ==> r[i] == KeyName(keys[i])
  {
    seq(|keys|, i requires 0 <= i < |keys| => KeyName(keys[i]))
  }

  lemma NameListAppend(a: seq<Key>, b: seq<Key>)
    ensures NameList(a + b) == NameList(a) + NameList(b)
  {
    assert forall i :: 0 <= i < |b| ==> (a + b)[|a| + i] == b[i];
  }

  /** The names of a list of keys, as a set of columns. */
  function Named(keys: seq<Key>): set<string> {
    set k | k in keys :: KeyName(k)
  }

  /** A key's column is in a group exactly when the key is. */
  lemma InNamed(k: Key, keys: seq<Key>)
    ensures KeyName(k) in Named(keys) <==> k in keys
  {
    if KeyName(k) in Named(keys) {
      var m :| m in keys && KeyName(m) == KeyName(k);
      KeyNameInjective(m, k);
    }
  }

  /** The featured columns the first pass cleans (their text fields). */
  const FeaturedTextList: seq<Key> := [
    Featured(Critical, FId), Featured(Critical, FName), Featured(Critical, FComment), Featured(Critical, FCommentTitle),
    Featured(TopPositive, FId), Featured(TopPositive, FName), Featured(TopPositive, FComment), Featured(TopPositive, FCommentTitle)]

  /** The date columns, featured first. */
  const DateList: seq<Key> := [
    Featured(Critical, FDate), Featured(TopPositive, FDate),
    General(1, GDate), General(2, GDate), General(3, GDate), General(4, GDate), General(5, GDate)]

  /** The featured columns whose missing values become "None". */
  const NoneList: seq<Key> := [
    Featured(Critical, FId), Featured(Critical, FName), Featured(Critical, FComment), Featured(Critical, FCommentTitle),
    Featured(Critical, FInfluenced),
    Featured(TopPositive, FId), Featured(TopPositive, FName), Featured(TopPositive, FComment), Featured(TopPositive, FCommentTitle),
    Featured(TopPositive, FInfluenced)]

  /** The general comment and identifier columns, in the order they are
      filled. */
  const CustomerFillList: seq<Key> := [
    General(1, GComment), General(1, GId), General(2, GComment), General(2, GId), General(3, GComment), General(3, GId),
    General(4, GComment), General(4, GId), General(5, GComment), General(5, GId)]

  const CustomerCommentList: seq<Key> := [
    General(1, GComment), General(2, GComment), General(3, GComment), General(4, GComment), General(5, GComment)]

  const InfluenceList: seq<Key> := [Featured(Critical, FInfluenced), Featured(TopPositive, FInfluenced)]

  /** Every column a pass looks up without checking for it, in the order of
      the lookups: the first one missing raises `KeyError`. */
  const RequiredList: seq<Key> :=
    DateList + NoneList + [Detail(ProductId)] + CustomerFillList + [Detail(Price), Detail(Ratings), Detail(Reviews)]

  const ProductIdColumn := KeyName(Detail(ProductId))

  /** The column dropped at the end when it exists. */
  const Responders := "review_responders"

  /** The passes before the first unchecked lookup: clean the featured text
      columns that exist, then pad to `Width` columns. */
  function Cleaned(f: Frame): (r: Frame)
    ensures r.columns == f.columns + Padding(f) && |r.rows| == |f.rows|
  {
    Pad(Apply(f, Named(FeaturedTextList), CleanFeaturedCell))
  }

  /** The passes after it: normalise the dates, fill the featured columns
      with "None", keep the first row of each `Product_ID`, fill the general
      comments and identifiers, rewrite the null tokens of the general
      comments, zero the influence tokens and drop `review_responders`. */
  function Rewritten(padded: Frame): Frame {
    var dated := Apply(padded, Named(DateList), NormalizeDate);
    var filled := Apply(dated, Named(NoneList), FillNone);
    var unique := DropDuplicates(filled, ProductIdColumn);
    var customers := Apply(unique, Named(CustomerFillList), FillUnavailable);
    var comments := Apply(customers, Named(CustomerCommentList), CommentToken);
    var zeroed := Apply(comments, Named(InfluenceList), ZeroInfluence);
    DropColumn(zeroed, Responders)
  }

  /** The normaliser up to the insert loop. A required column that is
      missing raises `KeyError`: `Err` with the first such column. */
  function NormalizeFrame(f: Frame): (r: Result<Frame, string>)
    ensures r.Err? <==> FirstMissing(NameList(RequiredList), f.columns).Some?
    ensures r.Err? ==> r.error == FirstMissing(NameList(RequiredList), f.columns).value
  {
    var padded := Cleaned(f);
    RequiredNotPadding(PadCount(f));
    FirstMissingExtra(NameList(RequiredList), f.columns, Padding(f));
    match FirstMissing(NameList(RequiredList), padded.columns)
    case Some(c) => Err(c)
    case None => Ok(Rewritten(padded))
  }

  /** `pd.read_json` followed by the passes. */
  function Normalise(records: seq<Record>): (r: Result<Frame, string>)
    ensures r.Err? <==> exists i :: 0 <= i < |RequiredList| && KeyName(RequiredList[i]) !in ColumnsOf(records)
  {
    NormalizeFrame(Load(records))
  }

  /** No key names a padding column or `review_responders`. */
  lemma KeyNameNotPadding(k: Key, n: nat)
    ensures KeyName(k) !in ExtraNames(n) && KeyName(k) != Responders
  {
    KeyNameNotResponders(k);
    InExtraNames(n, KeyName(k));
    if KeyName(k) in ExtraNames(n) {
      var j :| 0 <= j < n && KeyName(k) == ExtraName(j);
      KeyNameNotExtra(k, j);
    }
  }

  lemma KeyNameNotExtra(k: Key, j: nat)
    ensures KeyName(k) != ExtraName(j)
  {
    KeyNameHead(k);
    assert ExtraName(j)[0] == 'E';
  }

  lemma KeyNameNotResponders(k: Key)
    ensures KeyName(k) != Responders
  {
    KeyNameHead(k);
    if k.Detail? {
      match k.detail
      case ProductId =>
      case Product =>
      case Price =>
      case Ratings =>
      case Reviews =>
      case Url =>
      case Category =>
    }
  }

  lemma RequiredNotPadding(n: nat)
    ensures forall i :: 0 <= i < |NameList(RequiredList)| ==> NameList(RequiredList)[i] !in ExtraNames(n)
  {
    forall i | 0 <= i < |RequiredList|
      ensures KeyName(RequiredList[i]) !in ExtraNames(n)
    {
      KeyNameNotPadding(RequiredList[i], n);
    }
  }

  /** The rule the passes compose to on one column: a featured text column
      is cleaned (it is never missing afterwards, so filling it with "None"
      changes nothing), a date column is normalised, an influence column is
      filled and zeroed, a general comment is filled and its null tokens
      rewritten, a general identifier is filled, and every other column is
      left as it was. */
  function ColumnRule(c: string, v: Value): Value {
    if c in Named(FeaturedTextList) then CleanFeaturedCell(v)
    else if c in Named(DateList) then NormalizeDate(v)
    else if c in Named(InfluenceList) then ZeroInfluence(FillNone(v))
    else if c in Named(CustomerCommentList) then CommentToken(FillUnavailable(v))
    else if c in Named(CustomerFillList) then FillUnavailable(v)
    else v
  }

  /** One input row as the normaliser leaves it: each column under its
      rule, the padding columns `None`, `review_responders` gone. */
  function ReferenceRow(row: Record, extra: set<string>): (r: Record)
    ensures r.Keys == (row.Keys + extra) - {Responders}
  {
    map c | c in row.Keys + extra && c != Responders :: if c in extra then Null else ColumnRule(c, row[c])
  }

  /** Reference definition of the normaliser: the first row of each
      `Product_ID`, in input order, each rewritten column by column. */
  function Reference(f: Frame): Frame {
    Frame((f.columns + Padding(f)) - {Responders},
          MapSeq(KeepFirst(f.rows, CellOf(ProductIdColumn)), row => ReferenceRow(row, Padding(f))))
  }

  /** One row through the passes before the deduplication. */
  function EarlyRow(row: Record, extra: set<string>): Record {
    UpdateRow(UpdateRow(PadRow(UpdateRow(row, Named(FeaturedTextList), CleanFeaturedCell), extra),
                        Named(DateList), NormalizeDate),
              Named(NoneList), FillNone)
  }

  /** One row through the passes after the deduplication. */
  function LateRow(row: Record): Record {
    DropKey(UpdateRow(UpdateRow(UpdateRow(row, Named(CustomerFillList), FillUnavailable),
                                Named(CustomerCommentList), CommentToken),
                      Named(InfluenceList), ZeroInfluence),
            Responders)
  }

  /** Membership in each group, by the shape of the key. */
  lemma GroupShapes(k: Key)
    ensures k in FeaturedTextList <==> k.Featured? && k.featured in {FId, FName, FComment, FCommentTitle}
    ensures k in DateList <==> (k.Featured? && k.featured == FDate) || (k.General? && 1 <= k.review <= 5 && k.general == GDate)
    ensures k in NoneList <==> k.Featured? && k.featured in {FId, FName, FComment, FCommentTitle, FInfluenced}
    ensures k in InfluenceList <==> k.Featured? && k.featured == FInfluenced
    ensures k in CustomerCommentList <==> k.General? && 1 <= k.review <= 5 && k.general == GComment
    ensures k in CustomerFillList <==> k.General? && 1 <= k.review <= 5 && k.general in {GComment, GId}
  {
    match k
    case Detail(_) =>
    case Featured(t, f) =>
      if t == Critical {
      }
    case General(i, f) =>
  }

  /** How the column groups overlap: the featured text and influence
      columns make up the "None" columns, the general comments are among the
      filled general columns, and nothing else is shared. */
  lemma ColumnClasses(c: string)
    ensures c in Named(FeaturedTextList) ==> c in Named(NoneList) && c !in Named(DateList) && c !in Named(InfluenceList)
    ensures c in Named(FeaturedTextList) ==> c !in Named(CustomerCommentList) && c !in Named(CustomerFillList)
    ensures c in Named(DateList) ==> c !in Named(NoneList) && c !in Named(InfluenceList)
    ensures c in Named(DateList) ==> c !in Named(CustomerCommentList) && c !in Named(CustomerFillList)
    ensures c in Named(InfluenceList) ==> c in Named(NoneList) && c !in Named(CustomerCommentList) && c !in Named(CustomerFillList)
    ensures c in Named(CustomerCommentList) ==> c in Named(CustomerFillList) && c !in Named(NoneList)
    ensures c in Named(CustomerFillList) ==> c !in Named(NoneList)
    ensures c in Named(NoneList) ==> c in Named(FeaturedTextList) || c in Named(InfluenceList)
  {
    if exists k :: KeyName(k) == c {
      var k :| KeyName(k) == c;
      GroupShapes(k);
      InNamed(k, FeaturedTextList);
      InNamed(k, DateList);
      InNamed(k, NoneList);
      InNamed(k, CustomerFillList);
      InNamed(k, CustomerCommentList);
      InNamed(k, InfluenceList);
    }
  }

  /** A padding column or `review_responders` is in no group. */
  lemma PaddingInNoGroup(c: string, n: nat)
    requires c in ExtraNames(n) || c == Responders
    ensures c !in Named(FeaturedTextList) && c !in Named(DateList) && c !in Named(NoneList)
    ensures c !in Named(InfluenceList) && c !in Named(CustomerCommentList) && c !in Named(CustomerFillList)
  {
    if exists k :: KeyName(k) == c {
      var k :| KeyName(k) == c;
      KeyNameNotPadding(k, n);
    }
  }

  /** The passes, row by row, compose to the column rules. */
  lemma RowRule(x: Record, n: nat)
    ensures LateRow(EarlyRow(x, ExtraNames(n))) == ReferenceRow(x, ExtraNames(n))
  {
    var extra := ExtraNames(n);
    var l := LateRow(EarlyRow(x, extra));
    var r := ReferenceRow(x, extra);
    forall c | c in r
      ensures l[c] == r[c]
    {
      ColumnClasses(c);
      if c in extra {
        PaddingInNoGroup(c, n);
      }
    }
    assert l == r;
  }

  /** `Product_ID` is in no group and is never a padding column. */
  lemma ProductIdUntouched(n: nat)
    ensures ProductIdColumn !in ExtraNames(n) && ProductIdColumn != Responders
    ensures ProductIdColumn !in Named(FeaturedTextList) && ProductIdColumn !in Named(DateList) && ProductIdColumn !in Named(NoneList)
    ensures ProductIdColumn !in Named(InfluenceList) && ProductIdColumn !in Named(CustomerCommentList) && ProductIdColumn !in Named(CustomerFillList)
  {
    KeyNameNotPadding(Detail(ProductId), n);
    ColumnClasses(ProductIdColumn);
    InNamed(Detail(ProductId), FeaturedTextList);
    InNamed(Detail(ProductId), DateList);
    InNamed(Detail(ProductId), CustomerFillList);
    InNamed(Detail(ProductId), InfluenceList);
  }

  lemma EarlyKeepsProductId(n: nat)
    ensures forall x :: CellOf(ProductIdColumn)(EarlyRow(x, ExtraNames(n))) == CellOf(ProductIdColumn)(x)
  {
    ProductIdUntouched(n);
  }

  lemma ReferenceKeepsProductId(n: nat)
    ensures forall x :: CellOf(ProductIdColumn)(ReferenceRow(x, ExtraNames(n))) == CellOf(ProductIdColumn)(x)
  {
    ProductIdUntouched(n);
  }

  /** The rows after the passes that precede the deduplication. */
  lemma EarlyRows(f: Frame)
    ensures var padded := Cleaned(f);
      Apply(Apply(padded, Named(DateList), NormalizeDate), Named(NoneList), FillNone).rows == MapSeq(f.rows, x => EarlyRow(x, Padding(f)))
  {
    var filled := Apply(Apply(Cleaned(f), Named(DateList), NormalizeDate), Named(NoneList), FillNone);
    var early := MapSeq(f.rows, x => EarlyRow(x, Padding(f)));
    forall i | 0 <= i < |f.rows|
      ensures filled.rows[i] == early[i]
    {
      EarlyRowAt(f, i);
    }
  }

  lemma EarlyRowAt(f: Frame, i: nat)
    requires i < |f.rows|
    ensures Apply(Apply(Cleaned(f), Named(DateList), NormalizeDate), Named(NoneList), FillNone).rows[i] == EarlyRow(f.rows[i], Padding(f))
  {
    var cleaned := Apply(f, Named(FeaturedTextList), CleanFeaturedCell);
    assert Cleaned(f).rows[i] == PadRow(cleaned.rows[i], Padding(f));
  }

  /** The passes after the deduplication, row by row. */
  lemma LateRows(padded: Frame)
    ensures var unique := DropDuplicates(Apply(Apply(padded, Named(DateList), NormalizeDate), Named(NoneList), FillNone), ProductIdColumn);
      Rewritten(padded) == Frame(padded.columns - {Responders}, MapSeq(unique.rows, LateRow))
  {
  }

  /** The column passes compute the reference definition: keep-first
      deduplication of the input rows by `Product_ID`, then each row
      rewritten column by column. */
  lemma NormalizeIsReference(f: Frame)
    requires FirstMissing(NameList(RequiredList), f.columns).None?
    ensures NormalizeFrame(f) == Ok(Reference(f))
  {
    var n := PadCount(f);
    var extra := Padding(f);
    var key := CellOf(ProductIdColumn);
    var early := x => EarlyRow(x, extra);
    var padded := Cleaned(f);
    var filled := Apply(Apply(padded, Named(DateList), NormalizeDate), Named(NoneList), FillNone);
    EarlyRows(f);
    EarlyKeepsProductId(n);
    KeepFirstMap(f.rows, early, key, key);
    var kept := KeepFirst(f.rows, key);
    var unique := DropDuplicates(filled, ProductIdColumn);
    assert unique.rows == MapSeq(kept, early);
    LateRows(padded);
    forall x
      ensures LateRow(early(x)) == ReferenceRow(x, extra)
    {
      RowRule(x, n);
    }
    MapSeqCompose(kept, early, LateRow, x => ReferenceRow(x, extra));
    var out := Rewritten(padded);
    assert NormalizeFrame(f) == Ok(out);
    assert out.rows == Reference(f).rows;
  }

  /** The rule each harvested key's column ends under. */
  lemma ColumnRuleByKey(k: Key, v: Value)
    ensures k.Featured? && k.featured in {FId, FName, FComment, FCommentTitle} ==> ColumnRule(KeyName(k), v) == CleanFeaturedCell(v)
    ensures k.Featured? && k.featured == FDate ==> ColumnRule(KeyName(k), v) == NormalizeDate(v)
    ensures k.Featured? && k.featured == FInfluenced ==> ColumnRule(KeyName(k), v) == ZeroInfluence(FillNone(v))
    ensures k.Featured? && k.featured == FStarRating ==> ColumnRule(KeyName(k), v) == v
    ensures k.General? && 1 <= k.review <= 5 && k.general == GDate ==> ColumnRule(KeyName(k), v) == NormalizeDate(v)
    ensures k.General? && 1 <= k.review <= 5 && k.general == GComment ==> ColumnRule(KeyName(k), v) == CommentToken(FillUnavailable(v))
    ensures k.General? && 1 <= k.review <= 5 && k.general == GId ==> ColumnRule(KeyName(k), v) == FillUnavailable(v)
    ensures k.General? && k.general in {GStarRating, GBuyingInfluence} ==> ColumnRule(KeyName(k), v) == v
    ensures k.General? && !(1 <= k.review <= 5) ==> ColumnRule(KeyName(k), v) == v
    ensures k.Detail? ==> ColumnRule(KeyName(k), v) == v
  {
    GroupShapes(k);
    InNamed(k, FeaturedTextList);
    InNamed(k, DateList);
    InNamed(k, InfluenceList);
    InNamed(k, CustomerCommentList);
    InNamed(k, CustomerFillList);
  }

  /** What the normaliser leaves of the table (`NormalizeIsReference`): the
      padded columns without `review_responders`, at most as many rows, no
      two rows with the same `Product_ID`, and every `Product_ID` of the
      input still present. */
  lemma ReferenceShape(f: Frame)
    ensures Reference(f).columns == (f.columns + Padding(f)) - {Responders}
    ensures |Reference(f).rows| <= |f.rows|
    ensures DistinctKeys(Reference(f).rows, CellOf(ProductIdColumn))
    ensures Keys(Reference(f).rows, CellOf(ProductIdColumn)) == Keys(f.rows, CellOf(ProductIdColumn))
  {
    var extra := Padding(f);
    var key := CellOf(ProductIdColumn);
    var g := x => ReferenceRow(x, extra);
    var kept := KeepFirst(f.rows, key);
    KeepFirstDistinct(f.rows, key);
    KeepFirstKeys(f.rows, key);
    ReferenceKeepsProductId(PadCount(f));
    DistinctMap(kept, g, key, key);
    KeysMap(kept, g, key, key);
  }

  /** Each output row is the column-wise rewrite of an input row, and the
      first row of each `Product_ID` is among them. */
  lemma ReferenceRows(f: Frame)
    ensures forall i :: 0 <= i < |Reference(f).rows| ==>
      exists j :: 0 <= j < |f.rows| && Reference(f).rows[i] == ReferenceRow(f.rows[j], Padding(f))
    ensures forall j :: 0 <= j < |f.rows| && IsFirst(f.rows, CellOf(ProductIdColumn), j) ==>
      ReferenceRow(f.rows[j], Padding(f)) in Reference(f).rows
  {
    var g := row => ReferenceRow(row, Padding(f));
    assert Reference(f).rows == MapSeq(KeepFirst(f.rows, CellOf(ProductIdColumn)), g);
    MapKeepFirstMembers(f.rows, CellOf(ProductIdColumn), g);
  }

  /** Every output row holds exactly the output columns when every input
      row held the input columns. */
  lemma ReferenceRectangular(f: Frame)
    requires Rectangular(f)
    ensures Rectangular(Reference(f))
  {
    ReferenceRows(f);
    forall i | 0 <= i < |Reference(f).rows|
      ensures Reference(f).rows[i].Keys == Reference(f).columns
    {
      var j :| 0 <= j < |f.rows| && Reference(f).rows[i] == ReferenceRow(f.rows[j], Padding(f));
      assert f.rows[j].Keys == f.columns;
    }
  }

  /** What each column group holds after its rule: no null token in a
      featured text column, no null token but "None" in a general comment,
      only the `YYYY-MM-DD` text
      of a valid date or the `NaT` date in a date column, and no missing
      value in a filled column. */
  lemma ColumnRuleResults(c: string, v: Value)
    ensures c in Named(FeaturedTextList) ==> !NullLike(ColumnRule(c, v))
    ensures c in Named(DateList) ==>
      ColumnRule(c, v) == Text(NaTDate) || exists d :: ValidDate(d) && ColumnRule(c, v) == Text(DateString(d))
    ensures c in Named(CustomerFillList) ==> !ColumnRule(c, v).Null?
    ensures c in Named(CustomerCommentList) && NullLike(ColumnRule(c, v)) ==> ColumnRule(c, v) == Text(NoneText)
    ensures c in Named(InfluenceList) ==> !ColumnRule(c, v).Null?
  {
    ColumnClasses(c);
    if c in Named(InfluenceList) {
      assert ColumnRule(c, v) == ZeroInfluence(FillNone(v));
    }
  }

  /** The same of every row the normaliser outputs (`ReferenceRows`), by
      key. */
  lemma NormalizedColumns(row: Record, n: nat, k: Key)
    requires KeyName(k) in row
    ensures k.Featured? && k.featured in {FId, FName, FComment, FCommentTitle} ==>
      !NullLike(ReferenceRow(row, ExtraNames(n))[KeyName(k)])
    ensures k in DateList ==>
      ReferenceRow(row, ExtraNames(n))[KeyName(k)] == Text(NaTDate) ||
      exists d :: ValidDate(d) && ReferenceRow(row, ExtraNames(n))[KeyName(k)] == Text(DateString(d))
    ensures k in CustomerFillList ==> !ReferenceRow(row, ExtraNames(n))[KeyName(k)].Null?
    ensures k in CustomerCommentList && NullLike(ReferenceRow(row, ExtraNames(n))[KeyName(k)]) ==>
      ReferenceRow(row, ExtraNames(n))[KeyName(k)] == Text(NoneText)
    ensures k in InfluenceList ==> !ReferenceRow(row, ExtraNames(n))[KeyName(k)].Null?
  {
    var c := KeyName(k);
    KeyNameNotPadding(k, n);
    var v := row[c];
    var out := ReferenceRow(row, ExtraNames(n))[c];
    assert out == ColumnRule(c, v);
    ColumnRuleResults(c, v);
    if k.Featured? && k.featured in {FId, FName, FComment, FCommentTitle} {
      GroupShapes(k);
      InNamed(k, FeaturedTextList);
    }
    InNamed(k, DateList);
    InNamed(k, CustomerFillList);
    InNamed(k, CustomerCommentList);
    InNamed(k, InfluenceList);
  }
}
