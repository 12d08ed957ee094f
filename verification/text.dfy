/** Python string primitives used by both scripts: whitespace, digits,
    `str.strip`, `str.split()[0]`, `in`, `str.replace` and `str.count`. */
module Text {
  import opened Maybe

  /** The characters for which Python's `str.isspace()` holds. `str.strip()`,
      `str.split()` and the `\s` class of `re` all use this set. */
  predicate IsSpace(c: char) {
    || ('\t' <= c <= '\r')
    || ('\U{1C}' <= c <= ' ')
    || c == '\U{85}' || c == '\U{A0}' || c == '\U{1680}'
    || ('\U{2000}' <= c <= '\U{200A}')
    || c == '\U{2028}' || c == '\U{2029}' || c == '\U{202F}'
    || c == '\U{205F}' || c == '\U{3000}'
  }

  predicate AllSpace(s: string) {
    forall i :: 0 <= i < |s| ==> IsSpace(s[i])
  }

  /** An ASCII decimal digit, the `\d` of the modelled regular expressions. */
  predicate IsDigit(c: char) {
    '0' <= c <= '9'
  }

  predicate AllDigits(s: string) {
    forall i :: 0 <= i < |s| ==> IsDigit(s[i])
  }

  /** A non-empty run of digits (`\d+`). */
  predicate IsDigits(s: string) {
    |s| > 0 && AllDigits(s)
  }

  /** ASCII lower-casing, used for the case-insensitive month names. */
  function Lower(c: char): char {
    if 'A' <= c <= 'Z' then (c as int + 32) as char else c
  }

  predicate EqualsIgnoreCase(a: string, b: string) {
    |a| == |b| && forall i :: 0 <= i < |a| ==> Lower(a[i]) == Lower(b[i])
  }

  predicate OccursAt(s: string, p: string, i: int) {
    0 <= i && i + |p| <= |s| && s[i..i + |p|] == p
  }

  predicate StartsWith(s: string, p: string) {
    |p| <= |s| && s[..|p|] == p
  }

  /** Python's `p in s`. */
  predicate Contains(s: string, p: string) {
    exists i | 0 <= i <= |s| - |p| :: OccursAt(s, p, i)
  }

  /** Number of leading characters of `s` that are whitespace. */
  function LeadingSpace(s: string): (k: nat)
    ensures k <= |s|
    ensures AllSpace(s[..k])
    ensures k == |s| || !IsSpace(s[k])
  {
    if |s| > 0 && IsSpace(s[0]) then
      var k := 1 + LeadingSpace(s[1..]);
      assert s[..k] == [s[0]] + s[1..][..k - 1];
      k
    else 0
  }

  /** Number of trailing characters of `s` that are whitespace. */
  function TrailingSpace(s: string): (k: nat)
    ensures k <= |s|
    ensures AllSpace(s[|s| - k..])
    ensures k == |s| || !IsSpace(s[|s| - 1 - k])
  {
    if |s| > 0 && IsSpace(s[|s| - 1]) then
      var k := 1 + TrailingSpace(s[..|s| - 1]);
      assert s[|s| - k..] == s[..|s| - 1][|s| - k..] + [s[|s| - 1]];
      k
    else 0
  }

  /** Python's `s.strip()` with no argument. */
  function Strip(s: string): (r: string)
    ensures |r| <= |s|
    ensures r == [] <==> AllSpace(s)
    ensures r != [] ==> !IsSpace(r[0]) && !IsSpace(r[|r| - 1])
  {
    var a := LeadingSpace(s);
    var t := s[a..];
    var b := TrailingSpace(t);
    StripSpaces(s, a, b);
    t[..|t| - b]
  }

  /** Cutting `a` leading and `b` trailing whitespace characters leaves an
      empty string only when every character was whitespace. */
  lemma StripSpaces(s: string, a: nat, b: nat)
    requires a <= |s| && AllSpace(s[..a])
    requires b <= |s| - a && AllSpace(s[a..][|s| - a - b..])
    requires a == |s| || !IsSpace(s[a])
    ensures s[a..][..|s| - a - b] == [] <==> AllSpace(s)
  {
    var t := s[a..];
    if a == |s| {
      assert s[..a] == s;
    } else {
      assert t[0] == s[a];
      assert b < |t|;
      assert s[a] == t[..|t| - b][0];
    }
  }

  /** A string that neither begins nor ends with whitespace is its own strip. */
  lemma StripUnchanged(s: string)
    requires s == [] || (!IsSpace(s[0]) && !IsSpace(s[|s| - 1]))
    ensures Strip(s) == s
  {
    assert LeadingSpace(s) == 0;
    assert s[0..] == s;
    assert TrailingSpace(s) == 0;
  }

  /** Stripping twice is stripping once. */
  lemma StripIdempotent(s: string)
    ensures Strip(Strip(s)) == Strip(s)
  {
    StripUnchanged(Strip(s));
  }

  /** Length of the leading run of non-whitespace characters. */
  function WordLength(s: string): (k: nat)
    ensures k <= |s|
    ensures forall i :: 0 <= i < k ==> !IsSpace(s[i])
    ensures k == |s| || IsSpace(s[k])
  {
    if |s| > 0 && !IsSpace(s[0]) then 1 + WordLength(s[1..]) else 0
  }

  /** Python's `s.split()[0]`; `None` where that raises `IndexError`
      because `s` holds no word at all. */
  function FirstWord(s: string): (r: Option<string>)
    ensures r.None? <==> AllSpace(s)
    ensures r.Some? ==> |r.value| > 0 && forall i :: 0 <= i < |r.value| ==> !IsSpace(r.value[i])
    ensures r.Some? ==> exists i :: 0 <= i <= |s| - |r.value| && AllSpace(s[..i]) && s[i..i + |r.value|] == r.value
                                    && (i + |r.value| == |s| || IsSpace(s[i + |r.value|]))
  {
    var a := LeadingSpace(s);
    var t := s[a..];
    if t == [] then
      assert s == s[..a];
      None
    else
      var w := t[..WordLength(t)];
      assert s[a..a + |w|] == w;
      assert w[0] == s[a];
      Some(w)
  }

  /** Position of the first `c` in `s`. */
  function FirstIndexOf(s: string, c: char): (k: nat)
    requires c in s
    ensures k < |s| && s[k] == c
    ensures forall i :: 0 <= i < k ==> s[i] != c
  {
    if s[0] == c then 0 else 1 + FirstIndexOf(s[1..], c)
  }

  lemma {:induction false} LeadingSpaceAppend(a: string, t: string)
    requires AllSpace(a)
    ensures LeadingSpace(a + t) == |a| + LeadingSpace(t)
    decreases |a|
  {
    if |a| == 0 {
      assert a + t == t;
    } else {
      assert (a + t)[1..] == a[1..] + t;
      LeadingSpaceAppend(a[1..], t);
    }
  }

  lemma {:induction false} TrailingSpaceAppend(t: string, b: string)
    requires AllSpace(b)
    ensures TrailingSpace(t + b) == |b| + TrailingSpace(t)
    decreases |b|
  {
    if |b| == 0 {
      assert t + b == t;
    } else {
      assert (t + b)[..|t + b| - 1] == t + b[..|b| - 1];
      TrailingSpaceAppend(t, b[..|b| - 1]);
    }
  }

  lemma {:induction false} WordLengthPrefix(w: string, rest: string)
    requires forall i :: 0 <= i < |w| ==> !IsSpace(w[i])
    requires rest == [] || IsSpace(rest[0])
    ensures WordLength(w + rest) == |w|
    decreases |w|
  {
    if |w| == 0 {
      assert w + rest == rest;
    } else {
      assert (w + rest)[1..] == w[1..] + rest;
      WordLengthPrefix(w[1..], rest);
    }
  }

  /** `s.split()[0]` of a text whose first word is `w`. */
  lemma FirstWordOf(a: string, w: string, rest: string)
    requires AllSpace(a)
    requires |w| > 0 && forall i :: 0 <= i < |w| ==> !IsSpace(w[i])
    requires rest == [] || IsSpace(rest[0])
    ensures FirstWord(a + w + rest) == Some(w)
  {
    var s := a + w + rest;
    assert s == a + (w + rest);
    LeadingSpaceAppend(a, w + rest);
    assert (w + rest)[0] == w[0];
    assert LeadingSpace(w + rest) == 0;
    assert s[|a|..] == w + rest;
    WordLengthPrefix(w, rest);
    assert (w + rest)[..|w|] == w;
  }

  /** A string surrounded by whitespace strips back to itself. */
  lemma StripPadded(a: string, s: string, b: string)
    requires AllSpace(a) && AllSpace(b)
    requires s == [] || (!IsSpace(s[0]) && !IsSpace(s[|s| - 1]))
    ensures Strip(a + s + b) == s
  {
    var x := a + s + b;
    if s == [] {
      assert x == a + b;
      assert AllSpace(x);
    } else {
      assert x == a + (s + b);
      LeadingSpaceAppend(a, s + b);
      assert (s + b)[0] == s[0];
      assert LeadingSpace(s + b) == 0;
      assert x[|a|..] == s + b;
      TrailingSpaceAppend(s, b);
      assert TrailingSpace(s) == 0;
      assert (s + b)[..|s|] == s;
    }
  }

  /** Stripping removes whitespace and nothing else: `s` is the stripped text
      with a run of whitespace on either side (the converse of `StripPadded`). */
  lemma StripCuts(s: string) returns (a: string, b: string)
    ensures AllSpace(a) && AllSpace(b)
    ensures s == a + Strip(s) + b
  {
    var i := LeadingSpace(s);
    var t := s[i..];
    var j := TrailingSpace(t);
    a := s[..i];
    b := t[|t| - j..];
    ThreeCuts(s, i, j);
  }

  lemma ThreeCuts(s: string, i: nat, j: nat)
    requires i <= |s| && j <= |s| - i
    ensures s == s[..i] + s[i..][..|s| - i - j] + s[i..][|s| - i - j..]
  {
    var t := s[i..];
    assert s == s[..i] + t;
    assert t == t[..|t| - j] + t[|t| - j..];
  }

  /** A pattern whose first character does not occur in `s` does not occur in `s`. */
  lemma NotContainsWithoutHead(s: string, p: string)
    requires |p| > 0
    requires forall i :: 0 <= i < |s| ==> s[i] != p[0]
    ensures !Contains(s, p)
  {
    forall i | 0 <= i <= |s| - |p|
      ensures !OccursAt(s, p, i)
    {
      assert s[i..i + |p|][0] == s[i];
    }
  }

  /** Replacing a single character by nothing removes every copy of it and
      keeps every other character, in order. */
  lemma {:induction false} RemoveCharFacts(s: string, pat: string)
    requires |pat| == 1
    ensures forall i :: 0 <= i < |ReplaceAll(s, pat, "")| ==> ReplaceAll(s, pat, "")[i] != pat[0]
    ensures forall i :: 0 <= i < |ReplaceAll(s, pat, "")| ==> ReplaceAll(s, pat, "")[i] in s
    decreases |s|
  {
    if |s| > 0 {
      RemoveCharFacts(s[1..], pat);
      var tail := ReplaceAll(s[1..], pat, "");
      assert forall c :: c in s[1..] ==> c in s;
      if StartsWith(s, pat) {
        assert ReplaceAll(s, pat, "") == tail;
      } else {
        assert s[..1] == [s[0]];
        assert ReplaceAll(s, pat, "") == [s[0]] + tail;
      }
    }
  }

  /** Python's `s.replace(pat, rep)`: occurrences of `pat` are found left to
      right and never overlap. */
  function ReplaceAll(s: string, pat: string, rep: string): string
    requires |pat| > 0
    decreases |s|
  {
    if |s| == 0 then []
    else if StartsWith(s, pat) then rep + ReplaceAll(s[|pat|..], pat, rep)
    else [s[0]] + ReplaceAll(s[1..], pat, rep)
  }

  /** Replacing a pattern that does not occur leaves the string as it was. */
  lemma {:induction false} ReplaceAbsent(s: string, pat: string, rep: string)
    requires |pat| > 0
    requires !Contains(s, pat)
    ensures ReplaceAll(s, pat, rep) == s
    decreases |s|
  {
    if |s| > 0 {
      assert !StartsWith(s, pat) by { assert !OccursAt(s, pat, 0); }
      if Contains(s[1..], pat) {
        var i :| 0 <= i <= |s[1..]| - |pat| && OccursAt(s[1..], pat, i);
        assert s[1..][i..i + |pat|] == s[i + 1..i + 1 + |pat|];
        assert OccursAt(s, pat, i + 1);
      }
      ReplaceAbsent(s[1..], pat, rep);
    }
  }

  /** A prefix in which the pattern's first character never appears passes
      through a replacement untouched. */
  lemma {:induction false} ReplaceSkipsPrefix(s: string, t: string, pat: string, rep: string)
    requires |pat| > 0
    requires forall i :: 0 <= i < |s| ==> s[i] != pat[0]
    ensures ReplaceAll(s + t, pat, rep) == s + ReplaceAll(t, pat, rep)
    decreases |s|
  {
    if |s| > 0 {
      var st := s + t;
      assert st[0] == s[0];
      assert !StartsWith(st, pat) by { assert st[0] == s[0] != pat[0]; }
      assert st[1..] == s[1..] + t;
      ReplaceSkipsPrefix(s[1..], t, pat, rep);
    } else {
      assert s + t == t;
    }
  }

  /** Replacing a single character distributes over concatenation. */
  lemma {:induction false} ReplaceCharConcat(s: string, t: string, pat: string, rep: string)
    requires |pat| == 1
    ensures ReplaceAll(s + t, pat, rep) == ReplaceAll(s, pat, rep) + ReplaceAll(t, pat, rep)
    decreases |s|
  {
    if |s| > 0 {
      var st := s + t;
      assert st[1..] == s[1..] + t;
      assert StartsWith(st, pat) <==> StartsWith(s, pat) by {
        assert st[..1] == s[..1];
      }
      ReplaceCharConcat(s[1..], t, pat, rep);
    } else {
      assert s + t == t;
    }
  }

  /** Python's `s.count(p)`: non-overlapping occurrences, left to right. */
  function CountOf(s: string, p: string): nat
    requires |p| > 0
    decreases |s|
  {
    if |s| == 0 then 0
    else if StartsWith(s, p) then 1 + CountOf(s[|p|..], p)
    else CountOf(s[1..], p)
  }

  /** A prefix without the pattern's first character adds nothing to a count. */
  lemma {:induction false} CountSkipsPrefix(s: string, t: string, p: string)
    requires |p| > 0
    requires forall i :: 0 <= i < |s| ==> s[i] != p[0]
    ensures CountOf(s + t, p) == CountOf(t, p)
    decreases |s|
  {
    if |s| > 0 {
      var st := s + t;
      assert !StartsWith(st, p) by { assert st[0] == s[0] != p[0]; }
      assert st[1..] == s[1..] + t;
      CountSkipsPrefix(s[1..], t, p);
    } else {
      assert s + t == t;
    }
  }
}
