/** The cell rules of the normaliser: what each column-cleaning pass does to
    one value, and the two date rewrites. */
module Cells {
  import opened Text
  import opened Json
  import opened Calendar

  /** The strings the normaliser treats as a missing value (its
      `nan_variants`, without `np.nan`, which is `Null` here). */
  const NullTokens: set<string> := {"NaN", "nan", "None", "none", "N/A", "n/a", "NA", "na", "null", ""}

  const Unavailable := "Unavailable"
  const NoneText := "None"

  /** What `strftime('%Y-%m-%d')` is replaced with for `NaT`. */
  const NaTDate := "1677-09-21"

  /** The date `format_date` writes for a value it rejects. */
  const DefaultDate := "0001-01-01"

  /** The literal tokens the influence pass turns into `0.0`. */
  const InfluenceTokens: set<string> := {"\"NaN\"", "NaN", "None"}

  /** A cell equal to one of the `nan_variants`. */
  predicate NullLike(v: Value) {
    v.Null? || (v.Text? && v.s in NullTokens)
  }

  /** The featured-column cleanup: `replace('(', '')`, then `replace(')', '')`,
      then every null token and every missing value become "Unavailable".
      Each `replace` compares whole cells, so only a cell that is exactly a
      parenthesis is emptied, and the empty string is itself a null token. */
  function CleanFeaturedCell(v: Value): (r: Value)
    ensures r == Text(Unavailable) <==> NullLike(v) || v == Text("(") || v == Text(")") || v == Text(Unavailable)
    ensures r != Text(Unavailable) ==> r == v
    ensures !NullLike(r)
  {
    var unopened := if v == Text("(") then Text("") else v;
    var unclosed := if unopened == Text(")") then Text("") else unopened;
    if NullLike(unclosed) then Text(Unavailable) else unclosed
  }

  /** `replace({np.nan: 'None'})`. */
  function FillNone(v: Value): (r: Value)
    ensures !r.Null?
    ensures r != v <==> v.Null?
    ensures v.Null? ==> r == Text(NoneText)
  {
    if v.Null? then Text(NoneText) else v
  }

  /** `replace({np.nan: 'Unavailable'})`. */
  function FillUnavailable(v: Value): (r: Value)
    ensures !r.Null?
    ensures r != v <==> v.Null?
    ensures v.Null? ==> r == Text(Unavailable)
  {
    if v.Null? then Text(Unavailable) else v
  }

  /** `astype(str).replace(nan_variants, 'None')` on a general comment:
      a missing value reads "None" or "nan" once converted, and every null
      token becomes "None". */
  function CommentToken(v: Value): (r: Value)
    ensures !NullLike(v) ==> r == v
    ensures NullLike(v) ==> r == Text(NoneText)
    ensures !r.Null?
  {
    match v
    case Null => Text(NoneText)
    case Text(s) => if s in NullTokens then Text(NoneText) else v
    case Number(_) => v
  }

  /** `replace({'"NaN"': 0.0, 'NaN': 0.0, 'None': 0.0})`. */
  function ZeroInfluence(v: Value): (r: Value)
    ensures !(r.Text? && r.s in InfluenceTokens)
    ensures v.Text? && v.s in InfluenceTokens ==> r == Number(0.0)
    ensures !(v.Text? && v.s in InfluenceTokens) ==> r == v
  {
    if v.Text? && v.s in InfluenceTokens then Number(0.0) else v
  }

  /** The date pass: `to_datetime(format='%Y-%m-%dT%H:%M:%S',
      errors='coerce')` and then `strftime('%Y-%m-%d')`, with `NaT` written
      as `NaTDate`. A missing value and a number are `NaT`. */
  function NormalizeDate(v: Value): (r: Value)
    ensures r.Text?
    ensures r.s == NaTDate || exists d :: ValidDate(d) && r.s == DateString(d)
  {
    if v.Text? && ParseTimestamp(v.s).Some? then Text(DateString(ParseTimestamp(v.s).value.date))
    else Text(NaTDate)
  }

  /** The `\d{4}-\d{2}-\d{2}` match at the start of a string (`re.match`
      anchors only at the start). */
  predicate DatePrefix(s: string) {
    && |s| >= 10
    && IsDigit(s[0]) && IsDigit(s[1]) && IsDigit(s[2]) && IsDigit(s[3]) && s[4] == '-'
    && IsDigit(s[5]) && IsDigit(s[6]) && s[7] == '-' && IsDigit(s[8]) && IsDigit(s[9])
  }

  /** `format_date` of `clean_format_data`: a string with a date prefix is
      kept whole, anything else becomes `DefaultDate`. */
  function FormatDate(v: Value): (r: Value)
    ensures r == v <==> v.Text? && DatePrefix(v.s)
    ensures r != v ==> r == Text(DefaultDate)
  {
    if v.Text? && DatePrefix(v.s) then v else Text(DefaultDate)
  }

  /** Stripping featured cells a second time changes nothing. */
  lemma CleanFeaturedIdempotent(v: Value)
    ensures CleanFeaturedCell(CleanFeaturedCell(v)) == CleanFeaturedCell(v)
  {
  }

  /** A missing featured influence count ends as `0.0`: first "None", then
      zero. */
  lemma MissingInfluenceIsZero()
    ensures ZeroInfluence(FillNone(Null)) == Number(0.0)
  {
  }

  /** Every `YYYY-MM-DD` the date pass writes has the date prefix. */
  lemma DateStringPrefix(d: Date)
    requires ValidDate(d)
    ensures DatePrefix(DateString(d))
  {
    var s := DateString(d);
    var y := FourDigits(d.year);
    assert s[..4] == y && s[4] == '-';
    assert s[5..7] == TwoDigits(d.month) && s[7] == '-' && s[8..10] == TwoDigits(d.day);
    assert s[0] == y[0] && s[1] == y[1] && s[2] == y[2] && s[3] == y[3];
    assert s[5] == s[5..7][0] && s[6] == s[5..7][1] && s[8] == s[8..10][0] && s[9] == s[8..10][1];
  }

  /** `format_date` passes every normalised date through unchanged. */
  lemma FormatNormalizedDate(v: Value)
    ensures FormatDate(NormalizeDate(v)) == NormalizeDate(v)
  {
    var r := NormalizeDate(v);
    if r.s != NaTDate {
      var d :| ValidDate(d) && r.s == DateString(d);
      DateStringPrefix(d);
    }
  }

  /** A text the date pass accepts is exactly the `isoformat()` text of a
      moment a `Timestamp` can hold, and it is rewritten to that moment's
      date. */
  lemma NormalizeDateOfText(s: string)
    ensures NormalizeDate(Text(s)) != Text(NaTDate) ==>
      exists t :: ValidDateTime(t) && InTimestampRange(t) && s == IsoString(t) && NormalizeDate(Text(s)) == Text(DateString(t.date))
  {
    if ParseTimestamp(s).Some? {
      TimestampExact(s);
    }
  }

  /** What `isoformat()` writes for a moment a `Timestamp` can hold reaches
      the table as its date. */
  lemma NormalizeIsoString(t: DateTime)
    requires ValidDateTime(t) && InTimestampRange(t)
    ensures NormalizeDate(Text(IsoString(t))) == Text(DateString(t.date))
  {
    TimestampRoundTrip(t);
  }

  /** The date pass is not idempotent: its own output does not have the
      `%Y-%m-%dT%H:%M:%S` shape, so a second pass writes `NaTDate`. */
  lemma NormalizeDateTwice(v: Value)
    ensures NormalizeDate(NormalizeDate(v)) == Text(NaTDate)
  {
  }
}
