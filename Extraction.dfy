/** The fragment extractor (`scrape_item_between`), its best-effort wrapper
    (`safe_scrape_item_between`) and the section locator (`scrape_section`). */
module Extraction {
  import opened Text
  import opened Errors

  /** `r` is the text at the front of `rest` that ends at the first of: an
      `after` that ends before the next `before`, the next `before`, or the end
      of `rest`. */
  ghost predicate Delimited(rest: string, before: string, after: string, r: string)
  {
    |r| <= |rest| && r == rest[..|r|]
    // no `before` starts inside r
    && ClearOf(rest, before, |r|)
    // every `after` that starts inside r runs into the next `before`
    && (forall k :: 0 <= k < |r| && IsAt(rest, after, k) ==> !ClearOf(rest, before, k + |after|))
    // r stops at the end, at a `before`, or at an `after` that lies before the next `before`
    && (|r| == |rest| || IsAt(rest, before, |r|)
        || (IsAt(rest, after, |r|) && ClearOf(rest, before, |r| + |after|)))
  }

  /** `source.split(before)[instance].split(after)[0]`, with the `IndexError`
      of an out-of-range `instance` raised as a `ScrapingError`. */
  function Extract(source: string, before: string, after: string, instance: nat): (r: Result<string>)
    requires |before| > 0 && |after| > 0
    ensures r.Err? <==> Count(source, before) < instance
    ensures r.Err? ==> r.error == ScrapingError(ItemMissing(before, after))
  {
    SplitCount(source, before);
    var pieces := Split(source, before);
    if instance < |pieces| then Ok(Split(pieces[instance], after)[0])
    else Err(ScrapingError(ItemMissing(before, after)))
  }

  /** A successful extraction is the delimited text right after the
      `instance`-th `before`; it holds neither delimiter and is a substring of
      the source. */
  lemma ExtractOk(source: string, before: string, after: string, instance: nat)
    requires |before| > 0 && |after| > 0
    requires Extract(source, before, after, instance).Ok?
    ensures Past(source, before, instance).Some?
    ensures var rest, r := Past(source, before, instance).value, Extract(source, before, after, instance).value;
      Delimited(rest, before, after, r)
      && !Contains(r, before) && !Contains(r, after)
      && |rest| <= |source| && rest == source[|source| - |rest|..]
      && (instance >= 1 ==> IsAt(source, before, |source| - |rest| - |before|))
  {
    SplitPast(source, before, instance);
    var rest := Past(source, before, instance).value;
    var piece := Split(rest, before)[0];
    PastSuffix(source, before, instance);
    SplitHead(rest, before);
    SplitHead(piece, after);
    HeadDelimited(rest, before, after, piece, Split(piece, after)[0]);
  }

  /** The first `after`-piece of the first `before`-piece of `rest` is
      delimited in `rest` and holds neither delimiter. */
  lemma HeadDelimited(rest: string, before: string, after: string, piece: string, r: string)
    requires |before| > 0 && |after| > 0
    requires |piece| <= |rest| && piece == rest[..|piece|] && ClearOf(rest, before, |piece|)
    requires |piece| == |rest| || IsAt(rest, before, |piece|)
    requires |r| <= |piece| && r == piece[..|r|] && ClearOf(piece, after, |r|)
    requires |r| == |piece| || IsAt(piece, after, |r|)
    ensures Delimited(rest, before, after, r)
    ensures !Contains(r, before) && !Contains(r, after)
  {
    assert rest == piece + rest[|piece|..];
    forall k | 0 <= k < |r| && IsAt(rest, after, k)
      ensures !ClearOf(rest, before, k + |after|)
    {
      assert !IsAt(piece, after, k);
      if k + |after| <= |piece| {
        IsAtPrefix(piece, rest[|piece|..], after, k);
      }
      assert IsAt(rest, before, |piece|);
    }
    if |r| < |piece| {
      IsAtPrefix(piece, rest[|piece|..], after, |r|);
    }
    PrefixFree(piece, after, |r|);
    PrefixFree(rest, before, |r|);
    assert rest[..|r|] == r;
  }

  /** At most one string is delimited in `rest`, so `ExtractOk` pins the
      result down exactly. */
  lemma DelimitedUnique(rest: string, before: string, after: string, r1: string, r2: string)
    requires |before| > 0 && |after| > 0
    requires Delimited(rest, before, after, r1) && Delimited(rest, before, after, r2)
    ensures r1 == r2
  {
    if |r1| < |r2| {
      DelimitedShorter(rest, before, after, r1, r2);
    } else if |r2| < |r1| {
      DelimitedShorter(rest, before, after, r2, r1);
    }
  }

  lemma DelimitedShorter(rest: string, before: string, after: string, r1: string, r2: string)
    requires |before| > 0 && |after| > 0
    requires Delimited(rest, before, after, r1) && Delimited(rest, before, after, r2)
    ensures |r1| >= |r2|
  {
    if |r1| < |r2| {
      assert false;
    }
  }

  /** `safe_scrape_item_between`: the strict extraction, with `""` when it
      fails. */
  function SafeExtract(source: string, before: string, after: string, instance: nat): (r: string)
    requires |before| > 0 && |after| > 0
    ensures Count(source, before) < instance ==> r == ""
    ensures Count(source, before) >= instance ==> Extract(source, before, after, instance) == Ok(r)
  {
    match Extract(source, before, after, instance)
    case Ok(text) => text
    case Err(_) => ""
  }

  /** What a best-effort extraction of the `instance`-th item means: `""`
      when there are too few `before` delimiters, the delimited text after
      the `instance`-th one otherwise. */
  ghost predicate BestEffort(source: string, before: string, after: string, instance: nat, r: string)
    requires |before| > 0
  {
    if Count(source, before) < instance then r == ""
    else Past(source, before, instance).Some? && Delimited(Past(source, before, instance).value, before, after, r)
  }

  lemma SafeExtractMeaning(source: string, before: string, after: string, instance: nat)
    requires |before| > 0 && |after| > 0
    ensures BestEffort(source, before, after, instance, SafeExtract(source, before, after, instance))
  {
    if Count(source, before) >= instance {
      ExtractOk(source, before, after, instance);
    }
  }

  /** The character of a decimal digit. */
  function Digit(d: nat): char
    requires d < 10
  {
    ('0' as int + d) as char
  }

  /** The number a string of decimal digits denotes. */
  function DigitsValue(s: string): nat
    requires forall i :: 0 <= i < |s| ==> '0' <= s[i] <= '9'
  {
    if s == [] then 0 else 10 * DigitsValue(s[..|s| - 1]) + (s[|s| - 1] as int - '0' as int)
  }

  /** `'{}'.format(n)` for a non-negative integer: its decimal digits, without
      leading zeros. */
  function Decimal(n: nat): (r: string)
    ensures |r| >= 1 && forall i :: 0 <= i < |r| ==> '0' <= r[i] <= '9'
    ensures DigitsValue(r) == n
    ensures r[0] == '0' ==> n == 0
  {
    if n < 10 then [Digit(n)]
    else
      var r := Decimal(n / 10) + [Digit(n % 10)];
      assert r[..|r| - 1] == Decimal(n / 10);
      r
  }

  /** The marker that opens section `n` of a page, `'{}.&nbsp;'.format(n)`. */
  function Marker(n: nat): (r: string)
    ensures |r| > 7 && r[|r| - 7..] == ".&nbsp;"
  {
    Decimal(n) + ".&nbsp;"
  }

  /** In front of the `.&nbsp;` of a marker stand the digits of `n`. */
  lemma MarkerDigits(n: nat)
    ensures var r := Marker(n);
      (forall i :: 0 <= i < |r| - 7 ==> '0' <= r[i] <= '9') && DigitsValue(r[..|r| - 7]) == n
  {
    var r := Marker(n);
    assert r[..|r| - 7] == Decimal(n);
  }

  /** Different sections have different markers. */
  lemma MarkerInjective(n: nat, m: nat)
    requires Marker(n) == Marker(m)
    ensures n == m
  {
    var dn, dm := Decimal(n), Decimal(m);
    if |dn| < |dm| {
      assert false;
    } else if |dm| < |dn| {
      assert false;
    } else {
      assert dn == Marker(n)[..|dn|];
      assert dm == Marker(m)[..|dm|];
    }
  }

  /** `scrape_section`: the strict extraction between the marker of section
      `n` and that of section `n + 1`; fails exactly when the first marker is
      missing. */
  function ScrapeSection(source: string, n: nat): (r: Result<string>)
    ensures r.Err? <==> !Contains(source, Marker(n))
    ensures r.Err? ==> r.error == ScrapingError(ItemMissing(Marker(n), Marker(n + 1)))
  {
    CountPositive(source, Marker(n));
    Extract(source, Marker(n), Marker(n + 1), 1)
  }

  /** The text between a first `before` and an `after` that follows it is
      what the extraction returns. */
  lemma ExtractBetween(lead: string, before: string, v: string, after: string, tail: string)
    requires |before| > 0 && |after| > 0
    requires ClearOf(lead + before, before, |lead|)
    requires ClearOf(v + after + tail, before, |v| + |after|)
    requires ClearOf(v + after, after, |v|)
    ensures Extract(lead + before + v + after + tail, before, after, 1) == Ok(v)
  {
    var x := v + after + tail;
    var s := lead + before + v + after + tail;
    assert Split(s, before)[1] == Split(x, before)[0] by {
      assert s == lead + before + x;
      SplitCons(lead, before, x);
    }
    var piece := Split(x, before)[0];
    var w := v + after;
    assert piece == w + piece[|w|..] by {
      assert x == w + tail;
      PieceKeeps(x, before, w);
    }
    SplitCons(v, after, piece[|w|..]);
  }

  /** With no `after` behind the first `before`, the extraction does not
      fail: it returns everything up to the next `before` or the end. */
  lemma ExtractToEnd(lead: string, before: string, v: string, after: string)
    requires |before| > 0 && |after| > 0
    requires ClearOf(lead + before, before, |lead|)
    requires !Contains(v, before) && !Contains(v, after)
    ensures Extract(lead + before + v, before, after, 1) == Ok(v)
  {
    SplitCons(lead, before, v);
    assert Split(v, before) == [v];
    assert Split(v, after) == [v];
  }

  /** The first piece of a split keeps any prefix in which no separator
      starts. */
  lemma PieceKeeps(x: string, sep: string, w: string)
    requires |sep| > 0 && |w| <= |x| && w == x[..|w|] && ClearOf(x, sep, |w|)
    ensures var piece := Split(x, sep)[0];
      |w| <= |piece| && piece == w + piece[|w|..]
  {
    SplitHead(x, sep);
  }
}
