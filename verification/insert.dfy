/** The insert step of the normaliser: the `INSERT` statement with one `%s`
    placeholder per column, and the loop that hands each row's tuple to the
    cursor unless its length differs from the placeholder count. */
module Insert {
  import opened Maybe
  import opened Text
  import opened Numbers
  import opened Json
  import opened RecordKeys
  import opened Table
  import opened Normalise
  import opened CleanFormat

  /** `sep.join(parts)`. */
  function Join(parts: seq<string>, sep: string): string
    decreases |parts|
  {
    if |parts| == 0 then ""
    else if |parts| == 1 then parts[0]
    else parts[0] + sep + Join(parts[1..], sep)
  }

  /** `[s] * n`. */
  function Repeat(s: string, n: nat): (r: seq<string>)
    ensures |r| == n && forall i :: 0 <= i < n ==> r[i] == s
  {
    seq(n, _ => s)
  }

  /** The product and featured columns, as the statement names them (one
      list in the statement; three here, one per group). */
  const ProductColumns: seq<string> := ["Product_ID", "product", "price", "ratings", "reviews", "category", "url"]

  const TopPositiveColumns: seq<string> := [
    "Top_Positive_Review_Cust_ID", "Top_Positive_Review_Cust_Name", "Top_Positive_Review_Cust_Date",
    "Top_Positive_Review_Cust_Comment", "Top_Positive_Review_Cust_Comment_Title", "Top_Positive_Review_Cust_Influenced",
    "Top_Positive_Review_Cust_Star_Rating"]

  const CriticalColumns: seq<string> := [
    "Critical_Review_Cust_ID", "Critical_Review_Cust_Name", "Critical_Review_Cust_Date",
    "Critical_Review_Cust_Comment", "Critical_Review_Cust_Comment_Title", "Critical_Review_Cust_Influenced",
    "Critical_Review_Cust_Star_Rating"]

  const FixedColumns: seq<string> := ProductColumns + TopPositiveColumns + CriticalColumns

  /** The columns of general review `i`, as the statement's f-string names
      them. */
  function CustomerColumns(i: nat): seq<string> {
    var n := NatToString(i);
    ["Customer_" + n + "_ID", "Customer_" + n + "_Star_Rating", "Customer_" + n + "_Comment",
     "Customer_" + n + "_buying_influence", "Customer_" + n + "_Date"]
  }

  /** The columns of general reviews `1..n`. */
  function CustomerColumnRange(n: nat): seq<string> {
    if n == 0 then [] else CustomerColumnRange(n - 1) + CustomerColumns(n)
  }

  /** The statement's column list. */
  function InsertColumns(): seq<string> {
    FixedColumns + CustomerColumnRange(5)
  }

  /** `21 + 25`: the number of placeholders the statement is built with. */
  const PlaceholderTotal := 21 + 25

  /** The text before the placeholders. */
  function QueryHead(): string {
    "INSERT INTO amazon_data_ext (" + Join(InsertColumns(), ", ") + ") VALUES ("
  }

  /** The placeholders and the closing parenthesis. */
  function Placeholders(n: nat): string {
    Join(Repeat("%s", n), ", ") + ")"
  }

  function InsertQuery(): string {
    QueryHead() + Placeholders(PlaceholderTotal)
  }

  /** The statement names the tuple's columns, in the tuple's order. */
  lemma InsertColumnsMatch()
    ensures InsertColumns() == NameList(TupleKeys)
  {
    FixedColumnsMatch();
    CustomerColumnRangeMatch(5);
    NameListAppend(DetailList + FeaturedKeys(TopPositive) + FeaturedKeys(Critical), CustomerRange(5));
  }

  lemma FixedColumnsMatch()
    ensures FixedColumns == NameList(DetailList + FeaturedKeys(TopPositive) + FeaturedKeys(Critical))
  {
    ProductColumnsMatch();
    FeaturedColumnsMatch(TopPositive);
    FeaturedColumnsMatch(Critical);
    NameListAppend(DetailList, FeaturedKeys(TopPositive));
    NameListAppend(DetailList + FeaturedKeys(TopPositive), FeaturedKeys(Critical));
  }

  lemma ProductColumnsMatch()
    ensures ProductColumns == NameList(DetailList)
  {
  }

  lemma FeaturedColumnsMatch(t: ReviewType)
    ensures NameList(FeaturedKeys(t)) == if t == TopPositive then TopPositiveColumns else CriticalColumns
  {
    var stem := ReviewTypeName(t) + "_Review_Cust_";
    assert NameList(FeaturedKeys(t)) == [stem + "ID", stem + "Name", stem + "Date", stem + "Comment",
                                         stem + "Comment_Title", stem + "Influenced", stem + "Star_Rating"];
    if t == TopPositive {
      assert stem == "Top_Positive_Review_Cust_";
      TopPositiveSpelling(stem);
    } else {
      assert stem == "Critical_Review_Cust_";
      CriticalSpelling(stem);
    }
  }

  lemma TopPositiveSpelling(stem: string)
    requires stem == "Top_Positive_Review_Cust_"
    ensures [stem + "ID", stem + "Name", stem + "Date", stem + "Comment", stem + "Comment_Title", stem + "Influenced",
             stem + "Star_Rating"] == TopPositiveColumns
  {
    assert stem + "ID" == "Top_Positive_Review_Cust_ID";
    assert stem + "Name" == "Top_Positive_Review_Cust_Name";
    assert stem + "Date" == "Top_Positive_Review_Cust_Date";
    assert stem + "Comment" == "Top_Positive_Review_Cust_Comment";
    assert stem + "Comment_Title" == "Top_Positive_Review_Cust_Comment_Title";
    assert stem + "Influenced" == "Top_Positive_Review_Cust_Influenced";
    assert stem + "Star_Rating" == "Top_Positive_Review_Cust_Star_Rating";
  }

  lemma CriticalSpelling(stem: string)
    requires stem == "Critical_Review_Cust_"
    ensures [stem + "ID", stem + "Name", stem + "Date", stem + "Comment", stem + "Comment_Title", stem + "Influenced",
             stem + "Star_Rating"] == CriticalColumns
  {
    assert stem + "ID" == "Critical_Review_Cust_ID";
    assert stem + "Name" == "Critical_Review_Cust_Name";
    assert stem + "Date" == "Critical_Review_Cust_Date";
    assert stem + "Comment" == "Critical_Review_Cust_Comment";
    assert stem + "Comment_Title" == "Critical_Review_Cust_Comment_Title";
    assert stem + "Influenced" == "Critical_Review_Cust_Influenced";
    assert stem + "Star_Rating" == "Critical_Review_Cust_Star_Rating";
  }

  lemma CustomerColumnsMatch(i: nat)
    ensures CustomerColumns(i) == NameList(CustomerKeys(i))
  {
    var n := NatToString(i);
    assert "Customer_" + n + "_ID" == "Customer_" + n + "_" + "ID";
    assert "Customer_" + n + "_Star_Rating" == "Customer_" + n + "_" + "Star_Rating";
    assert "Customer_" + n + "_Comment" == "Customer_" + n + "_" + "Comment";
    assert "Customer_" + n + "_buying_influence" == "Customer_" + n + "_" + "buying_influence";
    assert "Customer_" + n + "_Date" == "Customer_" + n + "_" + "Date";
  }

  lemma {:induction false} CustomerColumnRangeMatch(n: nat)
    ensures CustomerColumnRange(n) == NameList(CustomerRange(n))
    decreases n
  {
    if n > 0 {
      CustomerColumnRangeMatch(n - 1);
      CustomerColumnsMatch(n);
      NameListAppend(CustomerRange(n - 1), CustomerKeys(n));
    }
  }

  /** No column name holds a `%`. */
  lemma KeyNameNoPercent(k: Key)
    ensures '%' !in KeyName(k)
  {
    match k
    case Detail(d) =>
      assert '%' !in DetailName(d) by {
        match d
        case ProductId =>
        case Product =>
        case Price =>
        case Ratings =>
        case Reviews =>
        case Url =>
        case Category =>
      }
    case Featured(t, f) =>
      assert '%' !in ReviewTypeName(t) by {
        if t == Critical {
        }
      }
      assert '%' !in FeaturedName(f) by {
        match f
        case FId =>
        case FName =>
        case FComment =>
        case FCommentTitle =>
        case FInfluenced =>
        case FStarRating =>
        case FDate =>
      }
    case General(i, f) =>
      assert '%' !in GeneralName(f) by {
        match f
        case GId =>
        case GStarRating =>
        case GComment =>
        case GBuyingInfluence =>
        case GDate =>
      }
  }

  /** A separator and parts without `c` join to a text without `c`. */
  lemma {:induction false} JoinAvoids(parts: seq<string>, sep: string, c: char)
    requires c !in sep
    requires forall i :: 0 <= i < |parts| ==> c !in parts[i]
    ensures c !in Join(parts, sep)
    decreases |parts|
  {
    if |parts| > 1 {
      JoinAvoids(parts[1..], sep, c);
    }
  }

  /** No column of the statement holds a `%`. */
  lemma ColumnsNoPercent()
    ensures forall i :: 0 <= i < |InsertColumns()| ==> '%' !in InsertColumns()[i]
  {
    InsertColumnsMatch();
    forall i | 0 <= i < |TupleKeys|
      ensures '%' !in KeyName(TupleKeys[i])
    {
      KeyNameNoPercent(TupleKeys[i]);
    }
  }

  /** The text before the placeholders holds no `%`. */
  lemma QueryHeadNoPercent()
    ensures forall i :: 0 <= i < |QueryHead()| ==> QueryHead()[i] != '%'
  {
    ColumnsNoPercent();
    var joined := Join(InsertColumns(), ", ");
    JoinAvoids(InsertColumns(), ", ", '%');
    QueryTextNoPercent();
    assert '%' !in QueryHead();
  }

  lemma QueryTextNoPercent()
    ensures '%' !in "INSERT INTO amazon_data_ext (" && '%' !in ") VALUES ("
  {
  }

  /** `n` placeholders count `n` times. */
  lemma {:induction false} PlaceholdersCount(n: nat)
    ensures CountOf(Placeholders(n), "%s") == n
    decreases n
  {
    var p := "%s";
    if n == 0 {
      assert Placeholders(0) == ")";
      assert !StartsWith(")", p);
      assert ")"[1..] == "";
    } else if n == 1 {
      assert Placeholders(1) == "%s)";
      assert StartsWith("%s)", p);
      assert "%s)"[2..] == ")";
      assert !StartsWith(")", p);
      assert ")"[1..] == "";
    } else {
      PlaceholdersCount(n - 1);
      var rest := Placeholders(n - 1);
      assert Repeat(p, n)[1..] == Repeat(p, n - 1);
      assert Placeholders(n) == p + (", " + rest);
      assert StartsWith(Placeholders(n), p);
      assert Placeholders(n)[2..] == ", " + rest;
      CountSkipsPrefix(", ", rest, p);
    }
  }

  /** The statement has exactly one placeholder per column of the tuple. */
  lemma QueryPlaceholders()
    ensures CountOf(InsertQuery(), "%s") == PlaceholderTotal == |TupleKeys|
  {
    QueryHeadNoPercent();
    CountSkipsPrefix(QueryHead(), Placeholders(PlaceholderTotal), "%s");
    PlaceholdersCount(PlaceholderTotal);
  }

  /** Reference definition of the insert loop, for a row builder `build`:
      the tuples of the rows in order, or the error of the first row whose
      build raises. */
  function Executed<R>(rows: seq<R>, build: R -> Result<seq<Value>, string>): Result<seq<seq<Value>>, string>
    decreases |rows|
  {
    if |rows| == 0 then Ok([])
    else
      match Executed(rows[..|rows| - 1], build)
      case Err(c) => Err(c)
      case Ok(tuples) =>
        match build(rows[|rows| - 1])
        case Err(c) => Err(c)
        case Ok(t) => Ok(tuples + [t])
  }

  /** `Ok` exactly when no row raises, with one tuple per row in row
      order. */
  lemma {:induction false} ExecutedFacts<R>(rows: seq<R>, build: R -> Result<seq<Value>, string>)
    ensures Executed(rows, build).Ok? <==> forall i :: 0 <= i < |rows| ==> build(rows[i]).Ok?
    ensures Executed(rows, build).Ok? ==>
              (&& |Executed(rows, build).value| == |rows|
               && forall i :: 0 <= i < |rows| ==> Executed(rows, build).value[i] == build(rows[i]).value)
    decreases |rows|
  {
    if |rows| > 0 {
      var init := rows[..|rows| - 1];
      ExecutedFacts(init, build);
      assert forall i :: 0 <= i < |init| ==> init[i] == rows[i];
    }
  }

  /** One more row: its error ends the loop, its tuple is appended. */
  lemma ExecutedStep<R>(rows: seq<R>, build: R -> Result<seq<Value>, string>, i: nat)
    requires i < |rows| && Executed(rows[..i], build).Ok?
    ensures build(rows[i]).Err? ==> Executed(rows[..i + 1], build) == Err(build(rows[i]).error)
    ensures build(rows[i]).Ok? ==> Executed(rows[..i + 1], build) == Ok(Executed(rows[..i], build).value + [build(rows[i]).value])
  {
    assert rows[..i + 1][..i] == rows[..i];
  }

  /** A row that raises ends the loop: nothing after it changes the
      outcome. */
  lemma {:induction false} ExecutedStops<R>(rows: seq<R>, build: R -> Result<seq<Value>, string>, n: nat)
    requires n <= |rows| && Executed(rows[..n], build).Err?
    ensures Executed(rows, build) == Executed(rows[..n], build)
    decreases |rows| - n
  {
    if n < |rows| {
      assert rows[..n + 1][..n] == rows[..n];
      ExecutedStops(rows, build, n + 1);
    } else {
      assert rows[..n] == rows;
    }
  }

  /** The insert loop: each row's `clean_format_data`, skipped when empty
      or when its length differs from the placeholder count, otherwise
      handed to `cur.execute`. `Err` is the `KeyError` that ends the
      script. The skips never happen: every row's tuple is executed. */
  method InsertRows(rows: seq<Record>) returns (r: Result<seq<seq<Value>>, string>)
    ensures r == Executed(rows, RowTuple)
    ensures r.Ok? <==> forall i :: 0 <= i < |rows| ==> RowTuple(rows[i]).Ok?
    ensures r.Ok? ==> |r.value| == |rows| && forall i :: 0 <= i < |rows| ==> r.value[i] == RowTuple(rows[i]).value
  {
    var placeholders := CountOf(InsertQuery(), "%s");
    QueryPlaceholders();
    r := ExecuteEach(rows, RowTuple, placeholders);
    ExecutedFacts(rows, RowTuple);
  }

  /** The loop itself, for any row builder whose tuples all have
      `placeholders` values. */
  method ExecuteEach<R>(rows: seq<R>, build: R -> Result<seq<Value>, string>, placeholders: nat)
    returns (r: Result<seq<seq<Value>>, string>)
    requires placeholders > 0
    requires forall x :: build(x).Ok? ==> |build(x).value| == placeholders
    ensures r == Executed(rows, build)
  {
    var executed: seq<seq<Value>> := [];
    for i := 0 to |rows|
      invariant Executed(rows[..i], build) == Ok(executed)
    {
      ExecutedStep(rows, build, i);
      match build(rows[i])
      case Err(c) =>
        ExecutedStops(rows, build, i + 1);
        return Err(c);
      case Ok(t) =>
        if |t| == 0 {
          continue;
        }
        if placeholders != |t| {
          continue;
        }
        executed := executed + [t];
    }
    assert rows[..|rows|] == rows;
    r := Ok(executed);
  }

  /** On a table whose rows hold exactly its columns, either every row
      raises or none does: the loop succeeds on a non-empty table exactly
      when the table has every column `clean_format_data` reads. */
  lemma ExecutedOnTable(f: Frame)
    requires Rectangular(f) && |f.rows| > 0
    ensures Executed(f.rows, RowTuple).Ok? <==> forall k :: Read(k) ==> KeyName(k) in f.columns
  {
    ExecutedFacts(f.rows, RowTuple);
    assert f.rows[0].Keys == f.columns;
  }
}
