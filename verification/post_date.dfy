/** The review post date the harvester records: the text after the leftmost
    "on " of the date line, read with `datetime.strptime(_, '%B %d, %Y')`
    and written back with `isoformat()`. */
module PostDate {
  import opened Maybe
  import opened Text
  import opened Numbers
  import opened Calendar

  /** What the harvester stores when the date line has no date it can read. */
  const Dash := "-"

  const OnMarker := "on "

  const Months: seq<string> := ["January", "February", "March", "April", "May", "June", "July",
                                "August", "September", "October", "November", "December"]

  /** `%B`: the full English month name. */
  function MonthName(m: int): (r: string)
    requires 1 <= m <= 12
    ensures |r| >= 3
  {
    Months[m - 1]
  }

  /** `s` starts with the name of month `m`, in any ASCII case. */
  predicate StartsWithMonth(s: string, m: int)
    requires 1 <= m <= 12
  {
    |MonthName(m)| <= |s| && EqualsIgnoreCase(s[..|MonthName(m)|], MonthName(m))
  }

  /** The first month from `k` on whose name starts `s`; 0 when there is none. */
  function MonthFrom(s: string, k: int): (m: int)
    requires 1 <= k <= 13
    ensures m == 0 || (k <= m <= 12 && StartsWithMonth(s, m))
    ensures m == 0 ==> forall j :: k <= j <= 12 ==> !StartsWithMonth(s, j)
    ensures m != 0 ==> forall j :: k <= j < m ==> !StartsWithMonth(s, j)
    decreases 13 - k
  {
    if k == 13 then 0
    else if StartsWithMonth(s, k) then k
    else MonthFrom(s, k + 1)
  }

  /** The `%B` directive: the month whose name begins `s`, or 0. */
  function MonthPrefix(s: string): (m: int)
    ensures 0 <= m <= 12
    ensures m != 0 ==> StartsWithMonth(s, m)
    ensures m == 0 <==> forall j :: 1 <= j <= 12 ==> !StartsWithMonth(s, j)
  {
    MonthFrom(s, 1)
  }

  /** The first three letters of the month names differ even ignoring case,
      so no name is a case-insensitive prefix of text starting with another. */
  lemma MonthsDistinct(j: int, k: int)
    requires 1 <= j <= 12 && 1 <= k <= 12 && j != k
    ensures exists i :: 0 <= i < 3 && Lower(MonthName(j)[i]) != Lower(MonthName(k)[i])
  {
    var a := [Lower(MonthName(j)[0]), Lower(MonthName(j)[1]), Lower(MonthName(j)[2])];
    var b := [Lower(MonthName(k)[0]), Lower(MonthName(k)[1]), Lower(MonthName(k)[2])];
    assert a != b;
  }

  lemma MonthPrefixOf(m: int, rest: string)
    requires 1 <= m <= 12
    ensures MonthPrefix(MonthName(m) + rest) == m
  {
    var s := MonthName(m) + rest;
    assert s[..|MonthName(m)|] == MonthName(m);
    assert StartsWithMonth(s, m);
    forall j | 1 <= j < m
      ensures !StartsWithMonth(s, j)
    {
      MonthsDistinct(j, m);
      var i :| 0 <= i < 3 && Lower(MonthName(j)[i]) != Lower(MonthName(m)[i]);
      assert s[i] == MonthName(m)[i];
    }
  }

  /** The `%d` directive: one or two digits with value 1 to 31, so "7",
      "07" and "31" are days and "0", "00" and "32" are not. */
  predicate IsDayToken(t: string) {
    1 <= |t| <= 2 && AllDigits(t) && 1 <= DigitsValue(t) <= 31
  }

  /** `datetime.strptime(s, '%B %d, %Y')`, `None` where it raises
      `ValueError`. Each space of the format matches one or more whitespace
      characters, the year has exactly four digits, nothing may follow it,
      and the date must exist. */
  function ParseMonthDayYear(s: string): (r: Option<Date>)
    ensures r.Some? ==> ValidDate(r.value)
  {
    var m := MonthPrefix(s);
    if m == 0 then None
    else
      var t := s[|MonthName(m)|..];
      var a := LeadingSpace(t);
      var u := t[a..];
      if a == 0 || ',' !in u then None
      else
        var c := FirstIndexOf(u, ',');
        var v := u[c + 1..];
        var b := LeadingSpace(v);
        var y := v[b..];
        if b == 0 || !IsDayToken(u[..c]) || |y| != 4 || !AllDigits(y) then None
        else
          var d := Date(DigitsValue(y), m, DigitsValue(u[..c]));
          if ValidDate(d) then Some(d) else None
  }

  /** `.+$` at the start of `r`: the longest run without a line break,
      provided it reaches the end of `r` or its one final line break. */
  function LineRest(r: string): (g: Option<string>)
    ensures g.Some? ==> |g.value| > 0 && '\n' !in g.value
  {
    if '\n' !in r then (if |r| > 0 then Some(r) else None)
    else if |r| > 1 && r[|r| - 1] == '\n' && '\n' !in r[..|r| - 1] then Some(r[..|r| - 1])
    else None
  }

  /** Group 1 of `re.search(r'on (.+)$', text)`: the rest of the text after
      the leftmost "on " at which the rest of the pattern matches. */
  function OnGroup(text: string): (r: Option<string>)
    ensures r.Some? ==> Contains(text, OnMarker) && |r.value| > 0 && '\n' !in r.value
    decreases |text|
  {
    if |text| < |OnMarker| then None
    else if StartsWith(text, OnMarker) && LineRest(text[|OnMarker|..]).Some? then
      assert OccursAt(text, OnMarker, 0);
      LineRest(text[|OnMarker|..])
    else
      var r := OnGroup(text[1..]);
      assert r.Some? ==> Contains(text, OnMarker) by {
        if r.Some? {
          var i :| 0 <= i <= |text[1..]| - |OnMarker| && OccursAt(text[1..], OnMarker, i);
          assert text[1..][i..i + |OnMarker|] == text[i + 1..i + 1 + |OnMarker|];
          assert OccursAt(text, OnMarker, i + 1);
        }
      }
      r
  }

  /** The date post-processing of `scrape_extra_parameters` and
      `extract_specific_review`: `None` when the date element is missing,
      otherwise the stripped text's date as `YYYY-MM-DDT00:00:00`, or
      `Dash` when there is no "on " or the text after it is not a date. */
  function ExtractPostDate(tag: Option<string>): (r: Option<string>)
    ensures r.None? <==> tag.None?
    ensures r.Some? && r.value != Dash ==> exists d :: ValidDate(d) && r.value == IsoString(Midnight(d))
  {
    match tag
    case None => None
    case Some(raw) =>
      match OnGroup(Strip(raw))
      case None => Some(Dash)
      case Some(g) =>
        match ParseMonthDayYear(g)
        case None => Some(Dash)
        case Some(d) => Some(IsoString(Midnight(d)))
  }

  /** The date as a review page shows it, "March 1, 2023". */
  function ReviewDateText(d: Date): string
    requires ValidDate(d)
  {
    MonthName(d.month) + " " + NatToString(d.day) + ", " + FourDigits(d.year)
  }

  /** Any spelling the `%B %d, %Y` format allows: the month in any case,
      runs of whitespace, a zero-padded or plain day. */
  function DateSpelling(month: string, sp1: string, day: string, sp2: string, year: string): string {
    month + sp1 + day + "," + sp2 + year
  }

  lemma SpellingSteps(m: int, sp1: string, day: string, sp2: string, year: string)
    requires 1 <= m <= 12
    requires |sp1| > 0 && AllSpace(sp1) && |sp2| > 0 && AllSpace(sp2)
    requires IsDigits(day) && |year| == 4 && AllDigits(year)
    ensures var s := DateSpelling(MonthName(m), sp1, day, sp2, year);
      var t := s[|MonthName(m)|..];
      && t == sp1 + (day + "," + sp2 + year)
      && LeadingSpace(t) == |sp1|
      && t[|sp1|..] == day + "," + sp2 + year
  {
    var s := DateSpelling(MonthName(m), sp1, day, sp2, year);
    var w := day + "," + sp2 + year;
    assert s == MonthName(m) + (sp1 + w);
    LeadingSpaceAppend(sp1, w);
    assert w[0] == day[0];
  }

  lemma DayCommaSteps(day: string, sp2: string, year: string)
    requires IsDigits(day) && |sp2| > 0 && AllSpace(sp2) && |year| == 4 && AllDigits(year)
    ensures var u := day + "," + sp2 + year;
      && ',' in u
      && FirstIndexOf(u, ',') == |day|
      && u[..|day|] == day
      && u[|day| + 1..] == sp2 + year
      && LeadingSpace(sp2 + year) == |sp2|
      && (sp2 + year)[|sp2|..] == year
  {
    var u := day + "," + sp2 + year;
    assert u[|day|] == ',';
    LeadingSpaceAppend(sp2, year);
    assert year[0] == year[0];
  }

  /** Every spelling of a valid date that the format allows reads back as
      that date. */
  lemma ParseSpelling(d: Date, sp1: string, day: string, sp2: string)
    requires ValidDate(d)
    requires |sp1| > 0 && AllSpace(sp1) && |sp2| > 0 && AllSpace(sp2)
    requires IsDayToken(day) && DigitsValue(day) == d.day
    ensures ParseMonthDayYear(DateSpelling(MonthName(d.month), sp1, day, sp2, FourDigits(d.year))) == Some(d)
  {
    var year := FourDigits(d.year);
    var s := DateSpelling(MonthName(d.month), sp1, day, sp2, year);
    assert s == MonthName(d.month) + (sp1 + day + "," + sp2 + year);
    MonthPrefixOf(d.month, sp1 + day + "," + sp2 + year);
    SpellingSteps(d.month, sp1, day, sp2, year);
    DayCommaSteps(day, sp2, year);
    FourDigitsValue(d.year);
  }

  lemma FourDigitsValue(n: nat)
    requires n < 10000
    ensures DigitsValue(FourDigits(n)) == n
  {
    var r := FourDigits(n);
    assert r[..3][..2] == r[..2] && r[..2][..1] == r[..1] && r[..1][..0] == [];
    assert DigitsValue(r[..1]) == DigitValue(r[0]);
    assert DigitsValue(r[..2]) == DigitValue(r[0]) * 10 + DigitValue(r[1]);
    assert DigitsValue(r[..3]) == DigitsValue(r[..2]) * 10 + DigitValue(r[2]);
    assert DigitsValue(r) == DigitsValue(r[..3]) * 10 + DigitValue(r[3]);
    assert DigitValue(r[0]) * 10 + DigitValue(r[1]) == n / 100;
    assert DigitValue(r[2]) * 10 + DigitValue(r[3]) == n % 100;
  }

  /** A day or year that does not exist, in the right shape, is rejected. */
  lemma ParseRejectsInvalid(d: Date, sp1: string, day: string, sp2: string)
    requires 1 <= d.month <= 12 && 0 <= d.year < 10000 && !ValidDate(d)
    requires |sp1| > 0 && AllSpace(sp1) && |sp2| > 0 && AllSpace(sp2)
    requires IsDayToken(day) && DigitsValue(day) == d.day
    ensures ParseMonthDayYear(DateSpelling(MonthName(d.month), sp1, day, sp2, FourDigits(d.year))) == None
  {
    var year := FourDigits(d.year);
    var s := DateSpelling(MonthName(d.month), sp1, day, sp2, year);
    assert s == MonthName(d.month) + (sp1 + day + "," + sp2 + year);
    MonthPrefixOf(d.month, sp1 + day + "," + sp2 + year);
    SpellingSteps(d.month, sp1, day, sp2, year);
    DayCommaSteps(day, sp2, year);
    FourDigitsValue(d.year);
  }

  /** The page's own rendering of a date is one of the allowed spellings. */
  lemma ReviewDateSpelling(d: Date)
    requires ValidDate(d)
    ensures IsDayToken(NatToString(d.day)) && DigitsValue(NatToString(d.day)) == d.day
    ensures ReviewDateText(d) == DateSpelling(MonthName(d.month), " ", NatToString(d.day), " ", FourDigits(d.year))
  {
    if d.day >= 10 {
      assert NatToString(d.day) == NatToString(d.day / 10) + [DigitChar(d.day % 10)];
    }
  }

  /** The "on " group of a date line whose only "on " introduces the date. */
  lemma {:induction false} OnGroupAfter(p: string, x: string)
    requires !Contains(p, OnMarker)
    requires |x| > 0 && '\n' !in x
    ensures OnGroup(p + OnMarker + x) == Some(x)
    decreases |p|
  {
    var text := p + OnMarker + x;
    if |p| == 0 {
      assert text == OnMarker + x;
      assert text[|OnMarker|..] == x;
    } else {
      assert !StartsWith(text, OnMarker) by {
        if |p| >= 3 {
          assert text[..3] == p[..3];
          assert !OccursAt(p, OnMarker, 0);
        } else if |p| == 2 {
          assert text[2] == 'o';
        } else {
          assert text[1] == 'o';
        }
      }
      assert text[1..] == p[1..] + OnMarker + x;
      assert !Contains(p[1..], OnMarker) by {
        forall i | 0 <= i <= |p[1..]| - |OnMarker|
          ensures !OccursAt(p[1..], OnMarker, i)
        {
          assert p[1..][i..i + |OnMarker|] == p[i + 1..i + 1 + |OnMarker|];
          assert !OccursAt(p, OnMarker, i + 1);
        }
      }
      OnGroupAfter(p[1..], x);
    }
  }

  /** A spelled date is one line and ends in the last digit of its year. */
  lemma SpellingLine(m: int, day: string, year: string)
    requires 1 <= m <= 12 && IsDigits(day) && |year| == 4 && AllDigits(year)
    ensures var x := DateSpelling(MonthName(m), " ", day, " ", year);
      |x| > 0 && '\n' !in x && !IsSpace(x[|x| - 1])
  {
    var x := DateSpelling(MonthName(m), " ", day, " ", year);
    assert x[|x| - 1] == year[3];
    forall i | 0 <= i < |x|
      ensures x[i] != '\n'
    {
    }
  }

  /** The group of a stripped date line whose only "on " introduces `x`. */
  lemma DateLineGroup(p: string, x: string)
    requires p == [] || !IsSpace(p[0])
    requires !Contains(p, OnMarker)
    requires |x| > 0 && '\n' !in x && !IsSpace(x[|x| - 1])
    ensures OnGroup(Strip(p + OnMarker + x)) == Some(x)
  {
    var text := p + OnMarker + x;
    assert text[|text| - 1] == x[|x| - 1];
    assert text[0] == (if p == [] then 'o' else p[0]);
    StripUnchanged(text);
    OnGroupAfter(p, x);
  }

  /** A date line "... on March 1, 2023" in which that is the only "on "
      is recorded as "2023-03-01T00:00:00". */
  lemma PostDateRoundTrip(p: string, d: Date)
    requires ValidDate(d)
    requires p == [] || !IsSpace(p[0])
    requires !Contains(p, OnMarker)
    ensures ExtractPostDate(Some(p + OnMarker + ReviewDateText(d))) == Some(IsoString(Midnight(d)))
  {
    ReviewDateSpelling(d);
    SpellingLine(d.month, NatToString(d.day), FourDigits(d.year));
    DateLineGroup(p, ReviewDateText(d));
    ParseSpelling(d, " ", NatToString(d.day), " ");
  }

  /** A date line naming a day its month does not have, such as February
      30, is recorded as `Dash`. */
  lemma InvalidDateIsDash(p: string, d: Date, day: string)
    requires 1 <= d.month <= 12 && 0 <= d.year < 10000 && !ValidDate(d)
    requires IsDayToken(day) && DigitsValue(day) == d.day
    requires p == [] || !IsSpace(p[0])
    requires !Contains(p, OnMarker)
    ensures ExtractPostDate(Some(p + OnMarker + DateSpelling(MonthName(d.month), " ", day, " ", FourDigits(d.year)))) == Some(Dash)
  {
    SpellingLine(d.month, day, FourDigits(d.year));
    DateLineGroup(p, DateSpelling(MonthName(d.month), " ", day, " ", FourDigits(d.year)));
    ParseRejectsInvalid(d, " ", day, " ");
  }

  /** February 30 of any year is recorded as `Dash`. */
  lemma FebruaryThirtiethIsDash(p: string, year: nat)
    requires year < 10000
    requires p == [] || !IsSpace(p[0])
    requires !Contains(p, OnMarker)
    ensures ExtractPostDate(Some(p + OnMarker + DateSpelling(MonthName(2), " ", "30", " ", FourDigits(year)))) == Some(Dash)
  {
    assert "30"[..1] == "3" && "3"[..0] == [];
    InvalidDateIsDash(p, Date(year, 2, 30), "30");
  }

  /** Date text without any "on " is recorded as `Dash`. */
  lemma NoMarkerIsDash(raw: string)
    requires !Contains(Strip(raw), OnMarker)
    ensures ExtractPostDate(Some(raw)) == Some(Dash)
  {
  }
}
