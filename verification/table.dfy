/** The normaliser's table: the columns of the harvested file and one row
    per product, with the column operations the script applies to it. */
module Table {
  import opened Maybe
  import opened Numbers
  import opened Json
  import opened Dedup

  /** A table: its column names and its rows, each row holding one cell per
      column (`Null` where the product's object had no such key). */
  datatype Frame = Frame(columns: set<string>, rows: seq<Record>)

  /** Every row holds exactly the table's columns. */
  predicate Rectangular(f: Frame) {
    forall i :: 0 <= i < |f.rows| ==> f.rows[i].Keys == f.columns
  }

  /** A cell of a row; `Null` for a column the row lacks. */
  function Cell(row: Record, c: string): Value {
    if c in row then row[c] else Null
  }

  /** The union of the keys of a list of objects. */
  function ColumnsOf(records: seq<Record>): (r: set<string>)
    ensures forall c :: c in r <==> exists i :: 0 <= i < |records| && c in records[i]
    decreases |records|
  {
    if |records| == 0 then {}
    else
      var init := records[..|records| - 1];
      var r := ColumnsOf(init) + records[|records| - 1].Keys;
      assert forall i :: 0 <= i < |init| ==> init[i] == records[i];
      r
  }

  /** `pd.read_json` of a list of objects: a column per key that occurs in
      any object, a row per object, `NaN` where an object lacks a key. */
  function Load(records: seq<Record>): (f: Frame)
    ensures Rectangular(f) && |f.rows| == |records|
    ensures forall i, c :: 0 <= i < |records| && c in records[i] ==> c in f.columns && f.rows[i][c] == records[i][c]
    ensures forall i, c :: 0 <= i < |records| && c in f.columns && c !in records[i] ==> f.rows[i][c] == Null
    ensures forall c :: c in f.columns ==> exists i :: 0 <= i < |records| && c in records[i]
  {
    var columns := ColumnsOf(records);
    Frame(columns, seq(|records|, i requires 0 <= i < |records| => map c | c in columns :: Cell(records[i], c)))
  }

  /** One row after `df[c] = df[c].<rule>` for every `c` of `cols`. */
  function UpdateRow(row: Record, cols: set<string>, rule: Value -> Value): (r: Record)
    ensures r.Keys == row.Keys
  {
    map c | c in row :: if c in cols then rule(row[c]) else row[c]
  }

  /** A rule applied to every cell of the columns `cols`; a column in `cols`
      the table lacks is skipped (the callers check for the columns that
      must exist). */
  function Apply(f: Frame, cols: set<string>, rule: Value -> Value): (r: Frame)
    ensures r.columns == f.columns && |r.rows| == |f.rows|
    ensures forall i :: 0 <= i < |f.rows| ==> r.rows[i] == UpdateRow(f.rows[i], cols, rule)
    ensures Rectangular(f) ==> Rectangular(r)
  {
    Frame(f.columns, seq(|f.rows|, i requires 0 <= i < |f.rows| => UpdateRow(f.rows[i], cols, rule)))
  }

  /** The width `fix_products_length` pads to. */
  const Width := 42

  function ExtraName(j: nat): string {
    "Extra_Column_" + NatToString(j)
  }

  /** `Extra_Column_0`, ..., `Extra_Column_{n-1}`. */
  function ExtraNames(n: nat): set<string> {
    if n == 0 then {} else ExtraNames(n - 1) + {ExtraName(n - 1)}
  }

  /** The columns `fix_products_length` adds to a table: `Extra_Column_0`
      ... `Extra_Column_{Width - w - 1}` for a table of width `w < Width`. */
  function Padding(f: Frame): set<string> {
    ExtraNames(PadCount(f))
  }

  /** How many columns `fix_products_length` adds. */
  function PadCount(f: Frame): nat {
    if |f.columns| < Width then Width - |f.columns| else 0
  }

  /** One row with the padding columns set to `None`. */
  function PadRow(row: Record, extra: set<string>): (r: Record)
    ensures r.Keys == row.Keys + extra
  {
    map c | c in row.Keys + extra :: if c in extra then Null else row[c]
  }

  /** `fix_products_length`: the padding columns, all `None`; a column of
      that name that already exists is overwritten with `None`. */
  function Pad(f: Frame): (r: Frame)
    ensures |f.columns| >= Width ==> r == f
    ensures r.columns == f.columns + Padding(f)
    ensures |r.rows| == |f.rows|
    ensures forall i :: 0 <= i < |f.rows| ==> r.rows[i] == PadRow(f.rows[i], Padding(f))
    ensures Rectangular(f) ==> Rectangular(r)
  {
    if |f.columns| >= Width then
      assert forall i :: 0 <= i < |f.rows| ==> f.rows[i] == PadRow(f.rows[i], {});
      f
    else
      var extra := Padding(f);
      Frame(f.columns + extra, seq(|f.rows|, i requires 0 <= i < |f.rows| => PadRow(f.rows[i], extra)))
  }

  lemma ExtraNameInjective(j: nat, k: nat)
    requires ExtraName(j) == ExtraName(k)
    ensures j == k
  {
    var n := |"Extra_Column_"|;
    assert NatToString(j) == ExtraName(j)[n..];
    assert NatToString(k) == ExtraName(k)[n..];
  }

  lemma {:induction false} InExtraNames(n: nat, c: string)
    ensures c in ExtraNames(n) <==> exists j :: 0 <= j < n && c == ExtraName(j)
    decreases n
  {
    if n > 0 {
      InExtraNames(n - 1, c);
    }
  }

  /** There are `n` extra names: no two coincide. */
  lemma {:induction false} ExtraNamesCount(n: nat)
    ensures |ExtraNames(n)| == n
    decreases n
  {
    if n > 0 {
      ExtraNamesCount(n - 1);
      InExtraNames(n - 1, ExtraName(n - 1));
      if ExtraName(n - 1) in ExtraNames(n - 1) {
        var j :| 0 <= j < n - 1 && ExtraName(n - 1) == ExtraName(j);
        ExtraNameInjective(n - 1, j);
      }
    }
  }

  /** After padding the table has `max(w, Width)` columns, unless one of the
      names the padding uses was already a column. */
  lemma PadWidth(f: Frame)
    requires f.columns !! Padding(f)
    ensures |Pad(f).columns| == if |f.columns| < Width then Width else |f.columns|
  {
    ExtraNamesCount(PadCount(f));
  }

  /** The cell of column `c`, as a key to deduplicate by. */
  function CellOf(c: string): Record -> Value {
    row => Cell(row, c)
  }

  /** `drop_duplicates(subset=[c], keep='first')`. */
  function DropDuplicates(f: Frame, c: string): (r: Frame)
    ensures r.columns == f.columns
  {
    Frame(f.columns, KeepFirst(f.rows, CellOf(c)))
  }

  /** One row without the column `c`. */
  function DropKey(row: Record, c: string): (r: Record)
    ensures r.Keys == row.Keys - {c}
  {
    map k | k in row && k != c :: row[k]
  }

  /** `drop(columns=[c])` when `c` is a column; the table as it was
      otherwise. */
  function DropColumn(f: Frame, c: string): (r: Frame)
    ensures r.columns == f.columns - {c} && |r.rows| == |f.rows|
    ensures forall i :: 0 <= i < |f.rows| ==> r.rows[i] == DropKey(f.rows[i], c)
    ensures Rectangular(f) ==> Rectangular(r)
  {
    Frame(f.columns - {c}, seq(|f.rows|, i requires 0 <= i < |f.rows| => DropKey(f.rows[i], c)))
  }

  /** The first of `cols` that is not in `present`: the column whose lookup
      raises `KeyError` when the lookups happen in the order of `cols`. */
  function FirstMissing(cols: seq<string>, present: set<string>): (r: Option<string>)
    ensures r.None? <==> forall i :: 0 <= i < |cols| ==> cols[i] in present
    ensures r.Some? ==> exists i :: 0 <= i < |cols| && cols[i] == r.value && r.value !in present && forall j :: 0 <= j < i ==> cols[j] in present
  {
    if |cols| == 0 then None
    else if cols[0] !in present then Some(cols[0])
    else
      var r := FirstMissing(cols[1..], present);
      assert forall i :: 1 <= i < |cols| ==> cols[i] == cols[1..][i - 1];
      if r.Some? then
        ghost var i :| 0 <= i < |cols[1..]| && cols[1..][i] == r.value && r.value !in present && forall j :: 0 <= j < i ==> cols[1..][j] in present;
        assert cols[i + 1] == r.value;
        r
      else r
  }

  /** Every cell of column `c` satisfies `p`. */
  ghost predicate ColumnHolds(f: Frame, c: string, p: Value -> bool) {
    forall i :: 0 <= i < |f.rows| && c in f.rows[i] ==> p(f.rows[i][c])
  }

  /** Keep-first deduplication keeps the ASIN set of the table and leaves
      no two rows with the same key. */
  lemma DropDuplicatesFacts(f: Frame, c: string)
    ensures |DropDuplicates(f, c).rows| <= |f.rows|
    ensures DistinctKeys(DropDuplicates(f, c).rows, CellOf(c))
    ensures Keys(DropDuplicates(f, c).rows, CellOf(c)) == Keys(f.rows, CellOf(c))
    ensures forall row :: row in DropDuplicates(f, c).rows ==> row in f.rows
    ensures Rectangular(f) ==> Rectangular(DropDuplicates(f, c))
  {
    KeepFirstDistinct(f.rows, CellOf(c));
    KeepFirstKeys(f.rows, CellOf(c));
    KeepFirstMembers(f.rows, CellOf(c));
    var r := DropDuplicates(f, c);
    forall i | 0 <= i < |r.rows| && Rectangular(f)
      ensures r.rows[i].Keys == f.columns
    {
      assert r.rows[i] in f.rows;
    }
  }

  /** Columns that cannot be missing do not change the first missing one. */
  lemma {:induction false} FirstMissingExtra(cols: seq<string>, present: set<string>, extra: set<string>)
    requires forall i :: 0 <= i < |cols| ==> cols[i] !in extra
    ensures FirstMissing(cols, present + extra) == FirstMissing(cols, present)
    decreases |cols|
  {
    if |cols| > 0 {
      FirstMissingExtra(cols[1..], present, extra);
    }
  }
}
