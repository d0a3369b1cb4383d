/** `validate_multiple_feeds` and the report assembly of
    `save_failed_feeds_report`. A `{name: url}` dict reaches the model as its
    items in iteration order. */
module Batch {
  import opened Wrappers
  import opened Feeds

  /** `validate_feed(url, name)` for every entry, in order. */
  function ResultsOf(libs: Libs, web: Web, feeds: seq<(string, string)>): seq<ValidationResult> {
    seq(|feeds|, i requires 0 <= i < |feeds| => ValidateFeed(libs, web, feeds[i].1, Some(feeds[i].0)))
  }

  /** The results whose `is_valid` is `wanted`, in their original order. */
  function Keep(rs: seq<ValidationResult>, wanted: bool): seq<ValidationResult>
    decreases |rs|
  {
    if rs == [] then []
    else
      var last := rs[|rs| - 1];
      Keep(rs[..|rs| - 1], wanted) + (if last.isValid == wanted then [last] else [])
  }

  /** The two lists together hold every result exactly once. */
  lemma {:induction false} KeepSplits(rs: seq<ValidationResult>)
    ensures multiset(Keep(rs, true)) + multiset(Keep(rs, false)) == multiset(rs)
    ensures |Keep(rs, true)| + |Keep(rs, false)| == |rs|
    decreases |rs|
  {
    if rs != [] {
      var init, last := rs[..|rs| - 1], rs[|rs| - 1];
      KeepSplits(init);
      assert rs == init + [last];
      assert multiset(rs) == multiset(init) + multiset{last};
      if last.isValid {
        assert Keep(rs, true) == Keep(init, true) + [last];
        assert Keep(rs, false) == Keep(init, false);
      } else {
        assert Keep(rs, true) == Keep(init, true);
        assert Keep(rs, false) == Keep(init, false) + [last];
      }
    }
  }

  /** A kept result comes from the input and has the wanted verdict. */
  lemma {:induction false} KeepSound(rs: seq<ValidationResult>, wanted: bool)
    ensures forall r :: r in Keep(rs, wanted) ==> r in rs && r.isValid == wanted
    decreases |rs|
  {
    if rs != [] {
      var init := rs[..|rs| - 1];
      KeepSound(init, wanted);
      assert forall r :: r in init ==> r in rs;
    }
  }

  lemma ResultsOfSnoc(libs: Libs, web: Web, feeds: seq<(string, string)>, i: nat)
    requires i < |feeds|
    ensures ResultsOf(libs, web, feeds[..i + 1])
            == ResultsOf(libs, web, feeds[..i]) + [ValidateFeed(libs, web, feeds[i].1, Some(feeds[i].0))]
  {
  }

  /** Every result is coherent and names the entry it came from. */
  lemma ResultsOfFacts(libs: Libs, web: Web, feeds: seq<(string, string)>)
    ensures forall r :: r in ResultsOf(libs, web, feeds) ==>
              && Coherent(libs.splitUrl, r)
              && r.name.Some? && (r.name.value, r.url) in feeds
  {
    var rs := ResultsOf(libs, web, feeds);
    forall r | r in rs
      ensures Coherent(libs.splitUrl, r) && r.name.Some? && (r.name.value, r.url) in feeds
    {
      var k :| 0 <= k < |rs| && rs[k] == r;
      assert feeds[k] in feeds;
    }
  }

  /** `validate_multiple_feeds`: one result per entry, valid ones to `valid`
      and the others to `invalid`, each in entry order. */
  method ValidateMultipleFeeds(libs: Libs, web: Web, feeds: seq<(string, string)>)
    returns (valid: seq<ValidationResult>, invalid: seq<ValidationResult>)
    ensures valid == Keep(ResultsOf(libs, web, feeds), true)
    ensures invalid == Keep(ResultsOf(libs, web, feeds), false)
    ensures multiset(valid) + multiset(invalid) == multiset(ResultsOf(libs, web, feeds))
    ensures |valid| + |invalid| == |feeds|
    ensures forall r :: r in valid ==> r.isValid && Coherent(libs.splitUrl, r)
    ensures forall r :: r in invalid ==> !r.isValid && r.errorMessage.Some? && r.imageUrl.None?
    ensures forall r :: r in valid + invalid ==> r.name.Some? && (r.name.value, r.url) in feeds
  {
    valid, invalid := [], [];
    var i := 0;
    while i < |feeds|
      invariant 0 <= i <= |feeds|
      invariant valid == Keep(ResultsOf(libs, web, feeds[..i]), true)
      invariant invalid == Keep(ResultsOf(libs, web, feeds[..i]), false)
    {
      var (name, url) := feeds[i];
      var result := ValidateFeed(libs, web, url, Some(name));
      ResultsOfSnoc(libs, web, feeds, i);
      if result.isValid {
        valid := valid + [result];
      } else {
        invalid := invalid + [result];
      }
      i := i + 1;
    }
    assert feeds[..i] == feeds;
    var rs := ResultsOf(libs, web, feeds);
    KeepSplits(rs);
    KeepSound(rs, true);
    KeepSound(rs, false);
    ResultsOfFacts(libs, web, feeds);
  }

  /** One entry of the report's `failed_feeds` list. */
  datatype FailedFeed = FailedFeed(name: Option<string>, url: string, error: Option<string>,
                                   feedType: Option<FeedType>, status: string)

  /** The report dict: `report_date`, `total_failed`, `failed_feeds`. */
  datatype Report = Report(reportDate: string, totalFailed: nat, failedFeeds: seq<FailedFeed>)

  const NeedsInvestigation := "needs_investigation"

  function EntryFor(r: ValidationResult): FailedFeed {
    FailedFeed(r.name, r.url, r.errorMessage, r.feedType, NeedsInvestigation)
  }

  /** The report written for a list of failed results: none for an empty
      list, otherwise one entry per result, in order. */
  function ReportFor(invalidResults: seq<ValidationResult>, reportDate: string): Option<Report> {
    if invalidResults == [] then None
    else Some(Report(reportDate, |invalidResults|, seq(|invalidResults|, i requires 0 <= i < |invalidResults| => EntryFor(invalidResults[i]))))
  }

  /** `save_failed_feeds_report` up to the YAML dump: no report for an empty
      list; otherwise one entry per failed result, in order. `reportDate` is
      the formatted `datetime.now()`. */
  method SaveFailedFeedsReport(invalidResults: seq<ValidationResult>, reportDate: string)
    returns (report: Option<Report>)
    ensures report == ReportFor(invalidResults, reportDate)
    ensures report.None? <==> invalidResults == []
    ensures report.Some? ==>
              && report.value.reportDate == reportDate
              && report.value.totalFailed == |invalidResults| == |report.value.failedFeeds|
              && forall i :: 0 <= i < |invalidResults| ==>
                   && report.value.failedFeeds[i].name == invalidResults[i].name
                   && report.value.failedFeeds[i].url == invalidResults[i].url
                   && report.value.failedFeeds[i].error == invalidResults[i].errorMessage
                   && report.value.failedFeeds[i].feedType == invalidResults[i].feedType
                   && report.value.failedFeeds[i].status == NeedsInvestigation
  {
    if invalidResults == [] {
      return None;
    }
    var failedFeeds: seq<FailedFeed> := [];
    var i := 0;
    while i < |invalidResults|
      invariant 0 <= i <= |invalidResults|
      invariant |failedFeeds| == i
      invariant forall j :: 0 <= j < i ==> failedFeeds[j] == EntryFor(invalidResults[j])
    {
      failedFeeds := failedFeeds + [EntryFor(invalidResults[i])];
      i := i + 1;
    }
    assert failedFeeds == seq(|invalidResults|, i requires 0 <= i < |invalidResults| => EntryFor(invalidResults[i]));
    report := Some(Report(reportDate, |invalidResults|, failedFeeds));
  }
}
