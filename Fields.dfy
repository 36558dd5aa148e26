/** The field parsers (`scrape_name` … `scrape_last_updated`) and the record
    they fill in (`ResidencyInfo`, `ResidentDemographics`). */
module Fields {
  import opened Text
  import opened Errors
  import opened Extraction

  const NameLabel: string := "Program Name:&nbsp;<span class=\"bold\">"
  const StateLabel: string := "&nbsp;State/Providence:&nbsp;<span class=\"bold\">"
  const CityLabel: string := "City:&nbsp;<span class=\"bold\">"
  const UpdatedLabel: string := "Last Updated: <span class=\"bold\">"
  const Bold: string := "<span class=\"bold\">"
  const SpanEnd: string := "</span>"

  /** Sections of a page the record needs. */
  const SalarySection: nat := 10
  const DemographicsSection: nat := 17
  const AvgScoreSection: nat := 19
  const MinScoreSection: nat := 27

  datatype Demographics = Demographics(total: string, male: string, female: string)

  datatype Record = Record(
    name: string,
    state: string,
    city: string,
    salary: seq<string>,
    pto: seq<string>,
    minStepScores: seq<string>,
    avgStepScores: seq<string>,
    demographics: Demographics,
    lastUpdated: string)

  /** The shape every assembled record has. */
  predicate WellFormed(r: Record)
  {
    |r.salary| == 4 && |r.pto| == 4 && |r.minStepScores| == 2 && |r.avgStepScores| == 2
  }

  /** The error `scrape_section` raises when section `n` is missing. */
  function MissingSection(n: nat): Failure
  {
    ScrapingError(ItemMissing(Marker(n), Marker(n + 1)))
  }

  function ScrapeName(source: string): (r: string)
    ensures BestEffort(source, NameLabel, SpanEnd, 1, r)
  {
    SafeExtractMeaning(source, NameLabel, SpanEnd, 1);
    SafeExtract(source, NameLabel, SpanEnd, 1)
  }

  function ScrapeState(source: string): (r: string)
    ensures BestEffort(source, StateLabel, SpanEnd, 1, r)
  {
    SafeExtractMeaning(source, StateLabel, SpanEnd, 1);
    SafeExtract(source, StateLabel, SpanEnd, 1)
  }

  function ScrapeCity(source: string): (r: string)
    ensures BestEffort(source, CityLabel, SpanEnd, 1, r)
  {
    SafeExtractMeaning(source, CityLabel, SpanEnd, 1);
    SafeExtract(source, CityLabel, SpanEnd, 1)
  }

  /** Salary by postgraduate year: the odd bold spans 1, 3, 5, 7 of section 10. */
  function ScrapeSalary(source: string): (r: Result<seq<string>>)
    ensures r.Err? <==> !Contains(source, Marker(SalarySection))
    ensures r.Err? ==> r.error == MissingSection(SalarySection)
    ensures r.Ok? ==> |r.value| == 4
    ensures r.Ok? ==> (
      var section := ScrapeSection(source, SalarySection).value;
      BestEffort(section, Bold, SpanEnd, 1, r.value[0]) && BestEffort(section, Bold, SpanEnd, 3, r.value[1])
      && BestEffort(section, Bold, SpanEnd, 5, r.value[2]) && BestEffort(section, Bold, SpanEnd, 7, r.value[3]))
  {
    var section :- ScrapeSection(source, SalarySection);
    SafeExtractMeaning(section, Bold, SpanEnd, 1);
    SafeExtractMeaning(section, Bold, SpanEnd, 3);
    SafeExtractMeaning(section, Bold, SpanEnd, 5);
    SafeExtractMeaning(section, Bold, SpanEnd, 7);
    Ok([SafeExtract(section, Bold, SpanEnd, 1),
        SafeExtract(section, Bold, SpanEnd, 3),
        SafeExtract(section, Bold, SpanEnd, 5),
        SafeExtract(section, Bold, SpanEnd, 7)])
  }

  /** Paid time off by year: the even bold spans 2, 4, 6, 8 of section 10. */
  function ScrapePto(source: string): (r: Result<seq<string>>)
    ensures r.Err? <==> !Contains(source, Marker(SalarySection))
    ensures r.Err? ==> r.error == MissingSection(SalarySection)
    ensures r.Ok? ==> |r.value| == 4
    ensures r.Ok? ==> (
      var section := ScrapeSection(source, SalarySection).value;
      BestEffort(section, Bold, SpanEnd, 2, r.value[0]) && BestEffort(section, Bold, SpanEnd, 4, r.value[1])
      && BestEffort(section, Bold, SpanEnd, 6, r.value[2]) && BestEffort(section, Bold, SpanEnd, 8, r.value[3]))
  {
    var section :- ScrapeSection(source, SalarySection);
    SafeExtractMeaning(section, Bold, SpanEnd, 2);
    SafeExtractMeaning(section, Bold, SpanEnd, 4);
    SafeExtractMeaning(section, Bold, SpanEnd, 6);
    SafeExtractMeaning(section, Bold, SpanEnd, 8);
    Ok([SafeExtract(section, Bold, SpanEnd, 2),
        SafeExtract(section, Bold, SpanEnd, 4),
        SafeExtract(section, Bold, SpanEnd, 6),
        SafeExtract(section, Bold, SpanEnd, 8)])
  }

  /** Average step 1 and 2 scores: bold spans 1 and 2 of section 19. */
  function ScrapeAvgStepScores(source: string): (r: Result<seq<string>>)
    ensures r.Err? <==> !Contains(source, Marker(AvgScoreSection))
    ensures r.Err? ==> r.error == MissingSection(AvgScoreSection)
    ensures r.Ok? ==> |r.value| == 2
    ensures r.Ok? ==> (
      var section := ScrapeSection(source, AvgScoreSection).value;
      BestEffort(section, Bold, SpanEnd, 1, r.value[0]) && BestEffort(section, Bold, SpanEnd, 2, r.value[1]))
  {
    var section :- ScrapeSection(source, AvgScoreSection);
    SafeExtractMeaning(section, Bold, SpanEnd, 1);
    SafeExtractMeaning(section, Bold, SpanEnd, 2);
    Ok([SafeExtract(section, Bold, SpanEnd, 1),
        SafeExtract(section, Bold, SpanEnd, 2)])
  }

  /** Minimum step 1 and 2 scores: bold spans 2 and 3 of section 27 (span 1
      is not a score). */
  function ScrapeMinStepScores(source: string): (r: Result<seq<string>>)
    ensures r.Err? <==> !Contains(source, Marker(MinScoreSection))
    ensures r.Err? ==> r.error == MissingSection(MinScoreSection)
    ensures r.Ok? ==> |r.value| == 2
    ensures r.Ok? ==> (
      var section := ScrapeSection(source, MinScoreSection).value;
      BestEffort(section, Bold, SpanEnd, 2, r.value[0]) && BestEffort(section, Bold, SpanEnd, 3, r.value[1]))
  {
    var section :- ScrapeSection(source, MinScoreSection);
    SafeExtractMeaning(section, Bold, SpanEnd, 2);
    SafeExtractMeaning(section, Bold, SpanEnd, 3);
    Ok([SafeExtract(section, Bold, SpanEnd, 2),
        SafeExtract(section, Bold, SpanEnd, 3)])
  }

  /** Residents: total is bold span 1, female span 3 and male span 4 of
      section 17 (span 2 is skipped). */
  function ScrapeDemographics(source: string): (r: Result<Demographics>)
    ensures r.Err? <==> !Contains(source, Marker(DemographicsSection))
    ensures r.Err? ==> r.error == MissingSection(DemographicsSection)
    ensures r.Ok? ==> (
      var section := ScrapeSection(source, DemographicsSection).value;
      BestEffort(section, Bold, SpanEnd, 1, r.value.total)
      && BestEffort(section, Bold, SpanEnd, 3, r.value.female)
      && BestEffort(section, Bold, SpanEnd, 4, r.value.male))
  {
    var section :- ScrapeSection(source, DemographicsSection);
    SafeExtractMeaning(section, Bold, SpanEnd, 1);
    SafeExtractMeaning(section, Bold, SpanEnd, 3);
    SafeExtractMeaning(section, Bold, SpanEnd, 4);
    var total := SafeExtract(section, Bold, SpanEnd, 1);
    var female := SafeExtract(section, Bold, SpanEnd, 3);
    var male := SafeExtract(section, Bold, SpanEnd, 4);
    Ok(Demographics(total := total, male := male, female := female))
  }

  /** When the data was last updated: up to the next tag after the label. */
  function ScrapeLastUpdated(source: string): (r: string)
    ensures BestEffort(source, UpdatedLabel, "<", 1, r)
  {
    SafeExtractMeaning(source, UpdatedLabel, "<", 1);
    SafeExtract(source, UpdatedLabel, "<", 1)
  }

  /** All four sections the record needs are on the page. */
  ghost predicate SectionsPresent(page: string)
  {
    Contains(page, Marker(SalarySection)) && Contains(page, Marker(DemographicsSection))
    && Contains(page, Marker(AvgScoreSection)) && Contains(page, Marker(MinScoreSection))
  }

  /** The parsing half of `get_residency_info`: every field parser on one
      page. The record exists exactly when the four sections do; the error is
      that of the first missing one in the order the fields are filled in
      (salary, time off, minimum scores, average scores, demographics). */
  function ParsePage(page: string): (r: Result<Record>)
    ensures r.Ok? <==> SectionsPresent(page)
    ensures !Contains(page, Marker(SalarySection)) ==> r == Err(MissingSection(SalarySection))
    ensures Contains(page, Marker(SalarySection)) && !Contains(page, Marker(MinScoreSection))
      ==> r == Err(MissingSection(MinScoreSection))
    ensures Contains(page, Marker(SalarySection)) && Contains(page, Marker(MinScoreSection))
      && !Contains(page, Marker(AvgScoreSection))
      ==> r == Err(MissingSection(AvgScoreSection))
    ensures Contains(page, Marker(SalarySection)) && Contains(page, Marker(MinScoreSection))
      && Contains(page, Marker(AvgScoreSection)) && !Contains(page, Marker(DemographicsSection))
      ==> r == Err(MissingSection(DemographicsSection))
    ensures r.Err? ==> r.error.ScrapingError? && r.error.reason.ItemMissing?
    ensures r.Ok? ==> WellFormed(r.value)
    ensures r.Ok? ==> (r.value.name == ScrapeName(page) && r.value.state == ScrapeState(page)
      && r.value.city == ScrapeCity(page) && r.value.lastUpdated == ScrapeLastUpdated(page)
      && Ok(r.value.salary) == ScrapeSalary(page) && Ok(r.value.pto) == ScrapePto(page)
      && Ok(r.value.minStepScores) == ScrapeMinStepScores(page)
      && Ok(r.value.avgStepScores) == ScrapeAvgStepScores(page)
      && Ok(r.value.demographics) == ScrapeDemographics(page))
  {
    var salary :- ScrapeSalary(page);
    // the time-off section is the salary section, so it is there too
    var pto := ScrapePto(page).value;
    var minStepScores :- ScrapeMinStepScores(page);
    var avgStepScores :- ScrapeAvgStepScores(page);
    var demographics :- ScrapeDemographics(page);
    Ok(Record(
      name := ScrapeName(page),
      state := ScrapeState(page),
      city := ScrapeCity(page),
      salary := salary,
      pto := pto,
      minStepScores := minStepScores,
      avgStepScores := avgStepScores,
      demographics := demographics,
      lastUpdated := ScrapeLastUpdated(page)))
  }

  // ---------------------------------------------------------------------
  // Sections laid out as a run of bold spans

  /** No tag starts in `s`. */
  ghost predicate Plain(s: string)
  {
    forall i :: 0 <= i < |s| ==> s[i] != '<'
  }

  /** An opening and a closing tag neither of which can start inside the
      other's text. */
  ghost predicate TagPair(open: string, close: string)
  {
    |open| >= 2 && |close| >= 2 && open[0] == '<' && close[0] == '<' && open[1] != close[1]
    && forall i :: 1 <= i < |close| ==> close[i] != '<'
  }

  lemma BoldTagPair()
    ensures TagPair(Bold, SpanEnd)
  {
  }

  /** The values `vs`, each wrapped in `open` … `close`, one after another. */
  function Spans(vs: seq<string>, open: string, close: string): string
  {
    if vs == [] then "" else open + vs[0] + close + Spans(vs[1..], open, close)
  }

  /** Nothing that starts with `<` starts where `x` has no `<`. */
  lemma PlainClear(x: string, t: string, n: nat)
    requires |t| > 0 && t[0] == '<'
    requires forall i :: 0 <= i < n && i < |x| ==> x[i] != '<'
    ensures ClearOf(x, t, n)
  {
    forall k | 0 <= k < n && k + |t| <= |x|
      ensures !IsAt(x, t, k)
    {
      assert x[k..k + |t|][0] == x[k];
    }
  }

  /** No opening tag starts inside a plain value or the closing tag after it. */
  lemma SpanTailClear(v: string, open: string, close: string, rest: string)
    requires TagPair(open, close) && Plain(v)
    ensures ClearOf(v + close + rest, open, |v| + |close|)
  {
    var x := v + close + rest;
    forall k | 0 <= k < |v| + |close| && k + |open| <= |x|
      ensures !IsAt(x, open, k)
    {
      var w := x[k..k + |open|];
      assert w[0] == x[k] && w[1] == x[k + 1];
      if k < |v| {
        assert x[k] == v[k];
      } else if k == |v| {
        assert x[k + 1] == close[1];
      } else {
        assert x[k] == close[k - |v|];
      }
    }
  }

  /** Splitting plain text, a first span and the rest at the opening tag. */
  lemma SplitFirstSpan(lead: string, v: string, open: string, close: string, u: string)
    requires TagPair(open, close) && Plain(lead) && Plain(v)
    ensures Split(lead + open + v + close + open + u, open) == [lead, v + close] + Split(u, open)
  {
    var w := (v + close) + open + u;
    assert Split(lead + open + v + close + open + u, open) == [lead] + Split(w, open) by {
      assert lead + open + v + close + open + u == lead + open + w;
      PlainClear(lead + open, open, |lead|);
      SplitCons(lead, open, w);
    }
    assert Split(w, open) == [v + close] + Split(u, open) by {
      SpanTailClear(v, open, close, open);
      assert v + close + open == (v + close) + open;
      SplitCons(v + close, open, u);
    }
  }

  lemma SpansUnfold(vs: seq<string>, open: string, close: string, tail: string)
    requires |vs| >= 1
    ensures Spans(vs, open, close) + tail == open + vs[0] + close + (Spans(vs[1..], open, close) + tail)
  {
  }

  /** Dropping a first piece from the split moves every later extraction one
      instance down. */
  lemma ExtractShift(s: string, t: string, open: string, close: string, j: nat)
    requires |open| > 0 && |close| > 0 && j >= 1
    requires |Split(s, open)| >= 2 && Split(s, open)[2..] == Split(t, open)[1..]
    ensures Extract(s, open, close, j + 1) == Extract(t, open, close, j)
  {
    if j + 1 < |Split(s, open)| {
      assert Split(s, open)[j + 1] == Split(s, open)[2..][j - 1];
    }
  }

  /** Splitting spans at the opening tag: the first value drops out and the
      rest is the split of the remaining spans. */
  lemma SplitSpans(lead: string, vs: seq<string>, open: string, close: string, tail: string)
    requires TagPair(open, close)
    requires Plain(lead) && |vs| >= 2 && Plain(vs[0])
    ensures |Split(lead + Spans(vs, open, close) + tail, open)| >= 2
    ensures Split(lead + Spans(vs, open, close) + tail, open)[2..]
         == Split(Spans(vs[1..], open, close) + tail, open)[1..]
  {
    var s := lead + Spans(vs, open, close) + tail;
    var t := Spans(vs[1..], open, close) + tail;
    SpansUnfold(vs, open, close, tail);
    SpansUnfold(vs[1..], open, close, tail);
    assert vs[1..][1..] == vs[2..];
    var u := vs[1] + close + (Spans(vs[2..], open, close) + tail);
    assert t == open + u;
    assert s == lead + open + vs[0] + close + open + u;
    SplitFirstSpan(lead, vs[0], open, close, u);
    SplitOpen(open, u);
  }

  lemma SplitOpen(open: string, u: string)
    requires |open| > 0
    ensures Split(open + u, open) == [""] + Split(u, open)
  {
    assert open + u == "" + open + u;
    SplitCons("", open, u);
  }

  /** The first span of plain text followed by spans of plain values is the
      first value. */
  lemma SpanFirst(lead: string, vs: seq<string>, open: string, close: string, tail: string)
    requires TagPair(open, close)
    requires Plain(lead) && |vs| >= 1 && Plain(vs[0])
    ensures Extract(lead + Spans(vs, open, close) + tail, open, close, 1) == Ok(vs[0])
  {
    var t := Spans(vs[1..], open, close) + tail;
    var v := vs[0];
    SpansUnfold(vs, open, close, tail);
    assert lead + Spans(vs, open, close) + tail == lead + open + v + close + t;
    PlainClear(lead + open, open, |lead|);
    SpanTailClear(v, open, close, t);
    PlainClear(v + close, close, |v|);
    ExtractBetween(lead, open, v, close, t);
  }

  /** Past the first span, the `j + 1`-th span is the `j`-th of the rest. */
  lemma SpanAtStep(lead: string, vs: seq<string>, open: string, close: string, tail: string, j: nat)
    requires TagPair(open, close)
    requires Plain(lead) && |vs| >= 2 && Plain(vs[0]) && 1 <= j
    ensures Extract(lead + Spans(vs, open, close) + tail, open, close, j + 1)
         == Extract(Spans(vs[1..], open, close) + tail, open, close, j)
  {
    SplitSpans(lead, vs, open, close, tail);
    ExtractShift(lead + Spans(vs, open, close) + tail, Spans(vs[1..], open, close) + tail, open, close, j);
  }

  /** The `j + 1`-th span of plain text followed by spans of plain values is
      the `j`-th value, whatever follows. */
  lemma {:induction false} SpanAt(lead: string, vs: seq<string>, open: string, close: string, tail: string, j: nat)
    requires TagPair(open, close)
    requires Plain(lead) && forall k :: 0 <= k < |vs| ==> Plain(vs[k])
    requires j < |vs|
    ensures Extract(lead + Spans(vs, open, close) + tail, open, close, j + 1) == Ok(vs[j])
    decreases |vs|
  {
    if j == 0 {
      SpanFirst(lead, vs, open, close, tail);
    } else {
      var t := Spans(vs[1..], open, close) + tail;
      assert Extract(lead + Spans(vs, open, close) + tail, open, close, j + 1) == Extract(t, open, close, j) by {
        SpanAtStep(lead, vs, open, close, tail, j);
      }
      assert Extract(t, open, close, j) == Ok(vs[j]) by {
        var rest := vs[1..];
        assert "" + Spans(rest, open, close) + tail == t by {
          assert "" + Spans(rest, open, close) == Spans(rest, open, close);
        }
        assert forall k :: 0 <= k < |rest| ==> Plain(rest[k]);
        SpanAt("", rest, open, close, tail, j - 1);
      }
    }
  }

  /** Past plain text and one span of a plain value the count drops by one. */
  lemma SpansCountStep(lead: string, vs: seq<string>, open: string, close: string, tail: string)
    requires TagPair(open, close)
    requires Plain(lead) && |vs| >= 1 && Plain(vs[0])
    ensures Count(lead + Spans(vs, open, close) + tail, open)
         == 1 + Count(Spans(vs[1..], open, close) + tail, open)
  {
    var s := lead + Spans(vs, open, close) + tail;
    var v := vs[0];
    var t := Spans(vs[1..], open, close) + tail;
    var b := open + v + close + t;
    SpansUnfold(vs, open, close, tail);
    assert s == lead + b;
    PlainClear(s, open, |lead|);
    ScanSkipCount(s, open, |lead|);
    assert s[|lead|..] == b;
    assert b[..|open|] == open;
    ScanHit(b, open, 1);
    assert b[|open|..] == v + close + t;
    SpanTailClear(v, open, close, t);
    ScanSkipCount(v + close + t, open, |v| + |close|);
    assert (v + close + t)[|v| + |close|..] == t;
  }

  /** Plain text followed by spans of plain values and plain text holds as many
      opening tags as values. */
  lemma {:induction false} SpansCount(lead: string, vs: seq<string>, open: string, close: string, tail: string)
    requires TagPair(open, close)
    requires Plain(lead) && Plain(tail) && forall k :: 0 <= k < |vs| ==> Plain(vs[k])
    ensures Count(lead + Spans(vs, open, close) + tail, open) == |vs|
    decreases |vs|
  {
    if vs == [] {
      var s := lead + Spans(vs, open, close) + tail;
      assert s == lead + tail;
      PlainClear(s, open, |s|);
      ScanNone(s, open, 1);
    } else {
      SpansCountStep(lead, vs, open, close, tail);
      SpansCount("", vs[1..], open, close, tail);
      assert "" + Spans(vs[1..], open, close) + tail == Spans(vs[1..], open, close) + tail;
    }
  }

  /** A section holding eight or more plain bold spans gives the odd spans as
      salaries and the even ones as time off: the two never share a span. */
  lemma SalaryPtoLayout(page: string, section: string, lead: string, vs: seq<string>, tail: string)
    requires ScrapeSection(page, SalarySection) == Ok(section)
    requires section == lead + Spans(vs, Bold, SpanEnd) + tail
    requires Plain(lead) && forall k :: 0 <= k < |vs| ==> Plain(vs[k])
    requires |vs| >= 8
    ensures ScrapeSalary(page) == Ok([vs[0], vs[2], vs[4], vs[6]])
    ensures ScrapePto(page) == Ok([vs[1], vs[3], vs[5], vs[7]])
  {
    BoldTagPair();
    EightSpans(lead, vs, Bold, SpanEnd, tail);
    SalaryOf(page, section);
    PtoOf(page, section);
  }

  /** The first eight spans of plain text followed by spans of plain values
      are the first eight values. */
  lemma EightSpans(lead: string, vs: seq<string>, open: string, close: string, tail: string)
    requires TagPair(open, close)
    requires Plain(lead) && forall k :: 0 <= k < |vs| ==> Plain(vs[k])
    requires |vs| >= 8
    ensures var section := lead + Spans(vs, open, close) + tail;
      SafeExtract(section, open, close, 1) == vs[0] && SafeExtract(section, open, close, 2) == vs[1]
      && SafeExtract(section, open, close, 3) == vs[2] && SafeExtract(section, open, close, 4) == vs[3]
      && SafeExtract(section, open, close, 5) == vs[4] && SafeExtract(section, open, close, 6) == vs[5]
      && SafeExtract(section, open, close, 7) == vs[6] && SafeExtract(section, open, close, 8) == vs[7]
  {
    LeadingSpans(lead, vs, open, close, tail);
    SpanValue(lead, vs, open, close, tail, 4);
    SpanValue(lead, vs, open, close, tail, 5);
    SpanValue(lead, vs, open, close, tail, 6);
    SpanValue(lead, vs, open, close, tail, 7);
  }

  /** The first (up to four) spans of plain text followed by spans of plain
      values are the first values. */
  lemma LeadingSpans(lead: string, vs: seq<string>, open: string, close: string, tail: string)
    requires TagPair(open, close)
    requires Plain(lead) && forall k :: 0 <= k < |vs| ==> Plain(vs[k])
    requires |vs| >= 2
    ensures var section := lead + Spans(vs, open, close) + tail;
      SafeExtract(section, open, close, 1) == vs[0] && SafeExtract(section, open, close, 2) == vs[1]
      && (|vs| >= 3 ==> SafeExtract(section, open, close, 3) == vs[2])
      && (|vs| >= 4 ==> SafeExtract(section, open, close, 4) == vs[3])
  {
    SpanValue(lead, vs, open, close, tail, 0);
    SpanValue(lead, vs, open, close, tail, 1);
    if |vs| >= 3 {
      SpanValue(lead, vs, open, close, tail, 2);
    }
    if |vs| >= 4 {
      SpanValue(lead, vs, open, close, tail, 3);
    }
  }

  /** Average scores from a section holding plain bold spans: spans 1 and 2. */
  lemma AvgScoresLayout(page: string, section: string, lead: string, vs: seq<string>, tail: string)
    requires ScrapeSection(page, AvgScoreSection) == Ok(section)
    requires section == lead + Spans(vs, Bold, SpanEnd) + tail
    requires Plain(lead) && forall k :: 0 <= k < |vs| ==> Plain(vs[k])
    requires |vs| >= 2
    ensures ScrapeAvgStepScores(page) == Ok([vs[0], vs[1]])
  {
    BoldTagPair();
    LeadingSpans(lead, vs, Bold, SpanEnd, tail);
    AvgOf(page, section);
  }

  /** Minimum scores from a section holding plain bold spans: spans 2 and 3,
      never the first. */
  lemma MinScoresLayout(page: string, section: string, lead: string, vs: seq<string>, tail: string)
    requires ScrapeSection(page, MinScoreSection) == Ok(section)
    requires section == lead + Spans(vs, Bold, SpanEnd) + tail
    requires Plain(lead) && forall k :: 0 <= k < |vs| ==> Plain(vs[k])
    requires |vs| >= 3
    ensures ScrapeMinStepScores(page) == Ok([vs[1], vs[2]])
  {
    BoldTagPair();
    LeadingSpans(lead, vs, Bold, SpanEnd, tail);
    MinOf(page, section);
  }

  /** A demographics section holding plain bold spans: total is span 1,
      female span 3, male span 4. */
  lemma DemographicsLayout(page: string, section: string, lead: string, vs: seq<string>, tail: string)
    requires ScrapeSection(page, DemographicsSection) == Ok(section)
    requires section == lead + Spans(vs, Bold, SpanEnd) + tail
    requires Plain(lead) && forall k :: 0 <= k < |vs| ==> Plain(vs[k])
    requires |vs| >= 4
    ensures ScrapeDemographics(page) == Ok(Demographics(total := vs[0], male := vs[3], female := vs[2]))
  {
    BoldTagPair();
    LeadingSpans(lead, vs, Bold, SpanEnd, tail);
    DemographicsOf(page, section);
  }

  /** The best-effort extraction of a span that is there is its value. */
  lemma SpanValue(lead: string, vs: seq<string>, open: string, close: string, tail: string, j: nat)
    requires TagPair(open, close)
    requires Plain(lead) && forall k :: 0 <= k < |vs| ==> Plain(vs[k])
    requires j < |vs|
    ensures SafeExtract(lead + Spans(vs, open, close) + tail, open, close, j + 1) == vs[j]
  {
    SpanAt(lead, vs, open, close, tail, j);
  }

  lemma DemographicsOf(page: string, section: string)
    requires ScrapeSection(page, DemographicsSection) == Ok(section)
    ensures ScrapeDemographics(page) == Ok(Demographics(
      total := SafeExtract(section, Bold, SpanEnd, 1),
      male := SafeExtract(section, Bold, SpanEnd, 4),
      female := SafeExtract(section, Bold, SpanEnd, 3)))
  {
  }

  /** A salary section with fewer spans than a year needs leaves that year
      empty instead of failing the record. */
  lemma SalaryMissingYears(page: string, section: string, lead: string, vs: seq<string>, tail: string, k: nat)
    requires ScrapeSection(page, SalarySection) == Ok(section)
    requires section == lead + Spans(vs, Bold, SpanEnd) + tail
    requires Plain(lead) && Plain(tail) && forall i :: 0 <= i < |vs| ==> Plain(vs[i])
    requires k < 4 && |vs| < 2 * k + 1
    ensures ScrapeSalary(page).Ok? && ScrapeSalary(page).value[k] == ""
  {
    assert Count(section, Bold) == |vs| by {
      BoldTagPair();
      SpansCount(lead, vs, Bold, SpanEnd, tail);
    }
    SalaryYearMissing(page, section, k);
  }

  /** Year `k` of the salaries is empty when the section has fewer than
      `2 * k + 1` bold spans. */
  lemma SalaryYearMissing(page: string, section: string, k: nat)
    requires ScrapeSection(page, SalarySection) == Ok(section)
    requires k < 4 && Count(section, Bold) < 2 * k + 1
    ensures ScrapeSalary(page).Ok? && ScrapeSalary(page).value[k] == ""
  {
    SalaryOf(page, section);
    assert SafeExtract(section, Bold, SpanEnd, 2 * k + 1) == "";
    if k == 0 {
    } else if k == 1 {
    } else if k == 2 {
    }
  }

  lemma PtoOf(page: string, section: string)
    requires ScrapeSection(page, SalarySection) == Ok(section)
    ensures ScrapePto(page) == Ok([
      SafeExtract(section, Bold, SpanEnd, 2), SafeExtract(section, Bold, SpanEnd, 4),
      SafeExtract(section, Bold, SpanEnd, 6), SafeExtract(section, Bold, SpanEnd, 8)])
  {
  }

  lemma AvgOf(page: string, section: string)
    requires ScrapeSection(page, AvgScoreSection) == Ok(section)
    ensures ScrapeAvgStepScores(page) == Ok([
      SafeExtract(section, Bold, SpanEnd, 1), SafeExtract(section, Bold, SpanEnd, 2)])
  {
  }

  lemma MinOf(page: string, section: string)
    requires ScrapeSection(page, MinScoreSection) == Ok(section)
    ensures ScrapeMinStepScores(page) == Ok([
      SafeExtract(section, Bold, SpanEnd, 2), SafeExtract(section, Bold, SpanEnd, 3)])
  {
  }

  lemma SalaryOf(page: string, section: string)
    requires ScrapeSection(page, SalarySection) == Ok(section)
    ensures ScrapeSalary(page) == Ok([
      SafeExtract(section, Bold, SpanEnd, 1), SafeExtract(section, Bold, SpanEnd, 3),
      SafeExtract(section, Bold, SpanEnd, 5), SafeExtract(section, Bold, SpanEnd, 7)])
  {
  }
}
