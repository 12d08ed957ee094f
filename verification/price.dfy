/** The product price the harvester records: the first `$<digits and
    commas>.<two digits>` figure in the price element's text, without its
    dollar sign. */
module Price {
  import opened Maybe
  import opened Text

  /** The `[\d,]` class of the price pattern. */
  predicate IsAmountChar(c: char) {
    IsDigit(c) || c == ','
  }

  /** Length of the leading run of `[\d,]` characters. */
  function AmountRun(s: string): (k: nat)
    ensures k <= |s|
    ensures forall i :: 0 <= i < k ==> IsAmountChar(s[i])
    ensures k == |s| || !IsAmountChar(s[k])
  {
    if |s| > 0 && IsAmountChar(s[0]) then 1 + AmountRun(s[1..]) else 0
  }

  /** A figure of the price pattern's group: one or more `[\d,]`, a point
      and two digits. */
  predicate IsAmount(a: string) {
    && |a| >= 4
    && (forall i :: 0 <= i < |a| - 3 ==> IsAmountChar(a[i]))
    && a[|a| - 3] == '.' && IsDigit(a[|a| - 2]) && IsDigit(a[|a| - 1])
  }

  /** The group `([\d,]+\.\d{2})` matched at the start of `s`, the text just
      after a dollar sign. The run of `[\d,]` is greedy and cannot give
      characters back, since none of them is a point. */
  function AmountAt(s: string): (r: Option<string>)
    ensures r.Some? ==> IsAmount(r.value) && StartsWith(s, r.value)
  {
    var k := AmountRun(s);
    if k >= 1 && k + 3 <= |s| && s[k] == '.' && IsDigit(s[k + 1]) && IsDigit(s[k + 2]) then
      Some(s[..k + 3])
    else None
  }

  /** Group 1 of `re.search(r"\$([\d,]+\.\d{2})", text)`: the figure after the
      leftmost dollar sign that starts one. */
  function SearchAmount(text: string): (r: Option<string>)
    ensures r.Some? ==> IsAmount(r.value) && '$' in text
    decreases |text|
  {
    if |text| == 0 then None
    else if text[0] == '$' && AmountAt(text[1..]).Some? then AmountAt(text[1..])
    else
      var r := SearchAmount(text[1..]);
      assert r.Some? ==> '$' in text by {
        if r.Some? {
          var i :| 0 <= i < |text[1..]| && text[1..][i] == '$';
          assert text[i + 1] == '$';
        }
      }
      r
  }

  /** `get_price`: the text of the `aok-offscreen` element, or failing that
      of the `a-offscreen` element, searched for a price; "" when neither
      element exists or the text holds no price. */
  function GetPrice(offscreen: Option<string>, fallback: Option<string>): (r: string)
    ensures r == "" || IsAmount(r)
    ensures offscreen.None? && fallback.None? ==> r == ""
  {
    match PriceElement(offscreen, fallback)
    case None => ""
    case Some(text) => SearchAmount(text).GetOr("")
  }

  /** The element `get_price` reads: `aok-offscreen` when present, else
      `a-offscreen`. */
  function PriceElement(offscreen: Option<string>, fallback: Option<string>): Option<string> {
    if offscreen.Some? then offscreen else fallback
  }

  /** A dollar sign at `i` that starts a figure: a match of the price
      pattern begins there. */
  predicate FigureAt(text: string, i: int) {
    0 <= i < |text| && text[i] == '$' && AmountAt(text[i + 1..]).Some?
  }

  /** A figure at the start of `s` is the one `AmountAt` finds, so `AmountAt`
      fails exactly when no prefix of `s` is a figure. */
  lemma AmountAtExact(s: string, a: string)
    requires IsAmount(a) && StartsWith(s, a)
    ensures AmountAt(s) == Some(a)
  {
    assert s == a + s[|a|..];
    AmountAtFigure(a, s[|a|..]);
  }

  lemma AmountAtNone(s: string)
    ensures AmountAt(s).None? <==> forall k :: 0 <= k <= |s| ==> !IsAmount(s[..k])
  {
    if AmountAt(s).Some? {
      var a := AmountAt(s).value;
      assert s[..|a|] == a;
    } else {
      forall k | 0 <= k <= |s| && IsAmount(s[..k])
        ensures false
      {
        AmountAtExact(s, s[..k]);
      }
    }
  }

  /** `re.search` semantics: no match exactly when no dollar sign starts a
      figure; otherwise the figure after the leftmost dollar sign that starts
      one, so a dollar sign with no figure after it is passed over. */
  lemma {:induction false} SearchAmountLeftmost(text: string)
    ensures SearchAmount(text).None? <==> forall i :: 0 <= i < |text| ==> !FigureAt(text, i)
    ensures SearchAmount(text).Some? ==> exists i :: && FigureAt(text, i)
                                                      && SearchAmount(text) == AmountAt(text[i + 1..])
                                                      && forall j :: 0 <= j < i ==> !FigureAt(text, j)
    decreases |text|
  {
    if |text| > 0 {
      var tail := text[1..];
      SearchAmountLeftmost(tail);
      forall i | 0 <= i < |tail|
        ensures FigureAt(text, i + 1) <==> FigureAt(tail, i)
      {
        assert text[i + 1] == tail[i];
        assert text[i + 2..] == tail[i + 1..];
      }
      if text[0] == '$' && AmountAt(tail).Some? {
        assert FigureAt(text, 0);
      } else {
        assert !FigureAt(text, 0);
        if SearchAmount(tail).Some? {
          var i :| && FigureAt(tail, i) && SearchAmount(tail) == AmountAt(tail[i + 1..])
                   && forall j :: 0 <= j < i ==> !FigureAt(tail, j);
          assert tail[i + 1..] == text[i + 2..];
          assert forall j :: 0 <= j < i + 1 ==> !FigureAt(text, j) by {
            forall j | 1 <= j < i + 1
              ensures !FigureAt(text, j)
            {
              assert !FigureAt(tail, j - 1);
            }
          }
          assert FigureAt(text, i + 1);
        } else {
          forall i | 0 <= i < |text|
            ensures !FigureAt(text, i)
          {
            if i > 0 {
              assert !FigureAt(tail, i - 1);
            }
          }
        }
      }
    }
  }

  /** A dollar sign with no figure after it is passed over for a later
      one: "$x $1.00" gives "1.00". */
  lemma BareDollarSkipped(x: char, a: string, rest: string)
    requires !IsAmountChar(x) && x != '$' && IsAmount(a)
    ensures SearchAmount(['$', x, ' ', '$'] + a + rest) == Some(a)
  {
    var text := ['$', x, ' ', '$'] + a + rest;
    var p := [x, ' '];
    assert text[1..] == p + "$" + a + rest;
    assert text[1..][0] == x;
    SkipHead(text);
    FirstDollarFigure(p, a, rest);
  }

  /** A character that does not start a figure is passed over. */
  lemma SkipHead(text: string)
    requires |text| > 0 && !FigureAt(text, 0)
    ensures SearchAmount(text) == SearchAmount(text[1..])
  {
  }

  /** A dollar sign that starts no figure gives no price. */
  lemma DollarWithoutFigure()
    ensures SearchAmount("$5 only") == None
  {
    var u, u1 := "$5 only", "5 only";
    assert u[1..] == u1;
    assert u1[1..][0] == ' ';
    assert AmountRun(u1) == 1;
    assert '$' !in u1;
  }

  /** `get_price` on the element it reads: "" exactly when no dollar sign
      of its text starts a figure, and otherwise the figure after the
      leftmost one that does. */
  lemma GetPriceLeftmost(offscreen: Option<string>, fallback: Option<string>)
    ensures PriceElement(offscreen, fallback).None? ==> GetPrice(offscreen, fallback) == ""
    ensures PriceElement(offscreen, fallback).Some? ==>
      var text := PriceElement(offscreen, fallback).value;
      && (GetPrice(offscreen, fallback) == "" <==> forall i :: 0 <= i < |text| ==> !FigureAt(text, i))
      && (GetPrice(offscreen, fallback) != "" ==>
            exists i :: && FigureAt(text, i)
                        && GetPrice(offscreen, fallback) == AmountAt(text[i + 1..]).value
                        && forall j :: 0 <= j < i ==> !FigureAt(text, j))
  {
    if PriceElement(offscreen, fallback).Some? {
      SearchAmountLeftmost(PriceElement(offscreen, fallback).value);
    }
  }

  /** A figure is found whole at the start of the text after its dollar sign,
      whatever follows it. */
  lemma AmountAtFigure(a: string, rest: string)
    requires IsAmount(a)
    ensures AmountAt(a + rest) == Some(a)
  {
    var s := a + rest;
    var k := |a| - 3;
    AmountRunPrefix(a[..k], a[k..] + rest);
    assert a[..k] + (a[k..] + rest) == s;
    assert s[..k + 3] == a;
  }

  /** The `[\d,]` run stops at the first character outside the class. */
  lemma {:induction false} AmountRunPrefix(run: string, t: string)
    requires forall i :: 0 <= i < |run| ==> IsAmountChar(run[i])
    requires |t| > 0 && !IsAmountChar(t[0])
    ensures AmountRun(run + t) == |run|
    decreases |run|
  {
    if |run| == 0 {
      assert run + t == t;
    } else {
      assert (run + t)[1..] == run[1..] + t;
      AmountRunPrefix(run[1..], t);
    }
  }

  /** The price after the first dollar sign of the text is the one found:
      "List: $1,299.99 (save $100.00)" gives "1,299.99". */
  lemma {:induction false} FirstDollarFigure(p: string, a: string, rest: string)
    requires '$' !in p
    requires IsAmount(a)
    ensures SearchAmount(p + "$" + a + rest) == Some(a)
    decreases |p|
  {
    var text := p + "$" + a + rest;
    if |p| == 0 {
      assert text == "$" + (a + rest);
      assert text[1..] == a + rest;
      AmountAtFigure(a, rest);
    } else {
      assert text[0] == p[0];
      assert text[1..] == p[1..] + "$" + a + rest;
      FirstDollarFigure(p[1..], a, rest);
    }
  }

  /** Text without a dollar sign holds no price. */
  lemma NoDollarNoPrice(offscreen: Option<string>, fallback: Option<string>)
    requires offscreen.Some? ==> '$' !in offscreen.value
    requires offscreen.None? && fallback.Some? ==> '$' !in fallback.value
    ensures GetPrice(offscreen, fallback) == ""
  {
  }

  /** The `aok-offscreen` element wins over the `a-offscreen` one, even when
      only the latter holds a price. */
  lemma OffscreenFirst(p: string, a: string, rest: string, fallback: Option<string>)
    requires '$' !in p && IsAmount(a)
    ensures GetPrice(Some(p + "$" + a + rest), fallback) == a
    ensures GetPrice(None, Some(p + "$" + a + rest)) == a
    ensures GetPrice(Some(p), fallback) == ""
  {
    FirstDollarFigure(p, a, rest);
  }
}
