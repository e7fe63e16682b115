/** Turning the store's documents into `StatRecord`s (branch normalisation,
    metric-name choice, ordering by timestamp) and dropping the metrics that
    are excluded as unstable. */
module StatsData {
  import opened Strings
  import opened Seqs
  import opened Records
  import opened Sorting

  // ---------------------------------------------------------------------
  // Branch normalisation: re.sub('_perf\d+', '', branch)

  /** A match of `_perf\d` starts at index `i` of `s`. */
  predicate MatchAt(s: string, i: nat)
  {
    i + 6 <= |s| && s[i..i + 5] == "_perf" && IsDigit(s[i + 5])
  }

  /** The length of the run of digits that `s` starts with (`\d+` is greedy). */
  function DigitRun(s: string): (n: nat)
    ensures n <= |s|
    ensures forall j :: 0 <= j < n ==> IsDigit(s[j])
    ensures n < |s| ==> !IsDigit(s[n])
  {
    if s == [] || !IsDigit(s[0]) then 0 else 1 + DigitRun(s[1..])
  }

  /** Deletes every `_perf` followed by one or more digits, scanning left to
      right and resuming the scan after each deleted match. */
  function StripPerf(s: string): (r: string)
    ensures |r| <= |s|
    decreases |s|
  {
    if s == [] then []
    else if MatchAt(s, 0) then StripPerf(s[5 + DigitRun(s[5..])..])
    else [s[0]] + StripPerf(s[1..])
  }

  lemma MatchAtTail(s: string, i: nat)
    requires s != []
    ensures MatchAt(s[1..], i) <==> MatchAt(s, i + 1)
  {
    if i + 7 <= |s| {
      assert s[1..][i..i + 5] == s[i + 1..i + 6];
    }
  }

  /** A prefix in which no match starts passes through unchanged. */
  lemma {:induction false} StripPerfPrefix(p: string, t: string)
    requires forall i :: 0 <= i < |p| ==> !MatchAt(p + t, i)
    ensures StripPerf(p + t) == p + StripPerf(t)
  {
    if p != [] {
      var s := p + t;
      assert !MatchAt(s, 0);
      TailOfAppend(p, t);
      forall i | 0 <= i < |p[1..]| ensures !MatchAt(p[1..] + t, i) {
        MatchAtTail(s, i);
      }
      StripPerfPrefix(p[1..], t);
      assert StripPerf(s) == [p[0]] + StripPerf(p[1..] + t);
      ConsAppend(p[0], p[1..], StripPerf(t));
    } else {
      assert p + t == t && p + StripPerf(t) == StripPerf(t);
    }
  }

  /** A branch with no `_perf<digits>` in it is left unchanged. */
  lemma NoMatchUnchanged(s: string)
    requires forall i :: 0 <= i < |s| ==> !MatchAt(s, i)
    ensures StripPerf(s) == s
  {
    assert s + [] == s;
    StripPerfPrefix(s, []);
  }

  /** `_perf` with all the digits after it is deleted. */
  lemma DeleteMatch(digits: string, rest: string)
    requires digits != [] && forall j :: 0 <= j < |digits| ==> IsDigit(digits[j])
    requires rest == [] || !IsDigit(rest[0])
    ensures StripPerf("_perf" + digits + rest) == StripPerf(rest)
  {
    var q := digits + rest;
    var s := "_perf" + q;
    AppendAssoc("_perf", digits, rest);
    assert s[0..5] == "_perf";
    assert s[5..] == q;
    assert s[5] == q[0] == digits[0];
    assert MatchAt(s, 0);
    DigitRunOf(digits, rest);
    assert q[|digits|..] == rest;
    assert s[5 + |digits|..] == rest;
    assert StripPerf(s) == StripPerf(s[5 + DigitRun(s[5..])..]);
  }

  lemma {:induction false} DigitRunOf(digits: string, rest: string)
    requires forall j :: 0 <= j < |digits| ==> IsDigit(digits[j])
    requires rest == [] || !IsDigit(rest[0])
    ensures DigitRun(digits + rest) == |digits|
  {
    if digits != [] {
      assert (digits + rest)[1..] == digits[1..] + rest;
      DigitRunOf(digits[1..], rest);
    } else {
      assert digits + rest == rest;
    }
  }

  /** Every `_perf<digits>` occurrence is deleted wherever it stands: a prefix
      without a match is kept, the occurrence with all its digits removed,
      and the scan carries on with what follows. */
  lemma StripPerfDeletes(p: string, digits: string, rest: string)
    requires forall i :: 0 <= i < |p| ==> !MatchAt(p + "_perf" + digits + rest, i)
    requires digits != [] && forall j :: 0 <= j < |digits| ==> IsDigit(digits[j])
    requires rest == [] || !IsDigit(rest[0])
    ensures StripPerf(p + "_perf" + digits + rest) == p + StripPerf(rest)
  {
    var t := "_perf" + digits + rest;
    assert p + "_perf" + digits + rest == p + t;
    StripPerfPrefix(p, t);
    DeleteMatch(digits, rest);
  }

  function GetBranch(r: SourceRecord): (b: string)
    ensures r.branch != r.build ==> b == r.branch
    ensures |b| <= |r.branch|
  {
    if r.branch != r.build then r.branch else StripPerf(r.branch)
  }

  /** A perf-run branch built from itself merges into its base branch; the
      same branch name built elsewhere is kept verbatim. */
  lemma GetBranchExamples()
    ensures GetBranch(SourceRecord("release_perf12", "release_perf12", "http_metric", "n", "n", "t", 0.0)) == "release"
    ensures GetBranch(SourceRecord("release_perf12", "other", "http_metric", "n", "n", "t", 0.0)) == "release_perf12"
  {
    var p := "release";
    forall i | 0 <= i < |p| ensures !MatchAt(p + "_perf" + "12" + "", i) {
      var s := p + "_perf" + "12" + "";
      if i + 6 <= |s| {
        assert s[i..i + 5][0] == s[i];
        assert s[i] != '_';
      }
    }
    StripPerfDeletes(p, "12", "");
    assert p + "_perf" + "12" + "" == "release_perf12";
  }

  const HTTP_METRIC := "http_metric"

  function GetName(r: SourceRecord): (n: string)
    ensures r.metricType == HTTP_METRIC ==> n == r.nameWithTest
    ensures r.metricType != HTTP_METRIC ==> n == r.name
  {
    if r.metricType == HTTP_METRIC then r.nameWithTest else r.name
  }

  function ToStat(r: SourceRecord): StatRecord
  {
    StatRecord(GetBranch(r), GetName(r), r.datetime, r.median)
  }

  function MapToStat(hits: seq<SourceRecord>): (s: seq<StatRecord>)
    ensures |s| == |hits|
    ensures forall i :: 0 <= i < |hits| ==> s[i] == ToStat(hits[i])
  {
    if hits == [] then [] else [ToStat(hits[0])] + MapToStat(hits[1..])
  }

  /** The records of the search hits, ordered by timestamp; a stable sort, so
      hits with equal timestamps keep the store's order. */
  function GetStatsData(hits: seq<SourceRecord>): (stats: seq<StatRecord>)
    ensures SortedBy(stats, Timestamp)
    ensures multiset(stats) == multiset(MapToStat(hits))
    ensures forall t :: Select(stats, Timestamp, t) == Select(MapToStat(hits), Timestamp, t)
  {
    SortBySorted(MapToStat(hits), Timestamp);
    SortByStableAll(MapToStat(hits), Timestamp);
    SortBy(MapToStat(hits), Timestamp)
  }

  // ---------------------------------------------------------------------
  // Exclusion of unstable metrics

  /** One predicate of the exclusion list. */
  datatype Exclusion = NameIn(names: seq<string>) | NameStartsWith(prefix: string)

  const EXCLUDE_METRIC: seq<Exclusion> := [
    NameIn(["tc by us list - treeView # basic_load_cat"]),
    NameStartsWith("notifications")
  ]

  predicate Excludes(e: Exclusion, m: StatRecord)
  {
    match e
    case NameIn(names) => m.name in names
    case NameStartsWith(prefix) => StartsWith(m.name, prefix)
  }

  /** No exclusion predicate holds of `m`. */
  predicate Kept(m: StatRecord)
  {
    forall e :: e in EXCLUDE_METRIC ==> !Excludes(e, m)
  }

  /** The exclusion list spelled out: a metric is dropped iff it is the
      unstable tree-view load metric or its name starts with "notifications". */
  lemma KeptIff(m: StatRecord)
    ensures Kept(m) <==> m.name != "tc by us list - treeView # basic_load_cat" && !StartsWith(m.name, "notifications")
  {
    assert EXCLUDE_METRIC[0] in EXCLUDE_METRIC && EXCLUDE_METRIC[1] in EXCLUDE_METRIC;
  }

  function FilterExcluded(metrics: seq<StatRecord>): (r: seq<StatRecord>)
    ensures IsSubsequence(r, metrics)
    ensures forall m :: m in r ==> Kept(m)
    ensures forall m :: m in metrics && Kept(m) ==> m in r
    ensures forall m :: multiset(r)[m] == if Kept(m) then multiset(metrics)[m] else 0
  {
    if metrics == [] then []
    else
      var rest := FilterExcluded(metrics[1..]);
      assert metrics == [metrics[0]] + metrics[1..];
      assert multiset(metrics) == multiset{metrics[0]} + multiset(metrics[1..]);
      if Kept(metrics[0]) then
        assert ([metrics[0]] + rest)[1..] == rest;
        assert multiset([metrics[0]] + rest) == multiset{metrics[0]} + multiset(rest);
        [metrics[0]] + rest
      else
        assert rest != [] ==> rest[0] in rest && rest[0] != metrics[0];
        rest
  }

  /** The values of every (branch, name) group the analysis smooths are in
      timestamp order: the search results are sorted by timestamp, and the
      filter and both selections keep that order. */
  lemma GroupsInTimestampOrder(hits: seq<SourceRecord>, b: string, n: string)
    ensures SortedBy(Group(FilterExcluded(GetStatsData(hits)), b, n), Timestamp)
  {
    var stats := GetStatsData(hits);
    var kept := FilterExcluded(stats);
    SubsequenceKeepsSorted(kept, stats, Timestamp);
    SelectKeepsSorted(kept, Branch, b, Timestamp);
    SelectKeepsSorted(Select(kept, Branch, b), Name, n, Timestamp);
  }

  /** Filtering works record by record: it distributes over concatenation. */
  lemma {:induction false} FilterExcludedConcat(a: seq<StatRecord>, b: seq<StatRecord>)
    ensures FilterExcluded(a + b) == FilterExcluded(a) + FilterExcluded(b)
  {
    if a != [] {
      TailOfAppend(a, b);
      FilterExcludedConcat(a[1..], b);
      var x := a[0];
      var rest := FilterExcluded(a[1..] + b);
      assert FilterExcluded(a + b) == if Kept(x) then [x] + rest else rest;
      assert FilterExcluded(a) == if Kept(x) then [x] + FilterExcluded(a[1..]) else FilterExcluded(a[1..]);
      if Kept(x) {
        ConsAppend(x, FilterExcluded(a[1..]), FilterExcluded(b));
      }
    } else {
      assert a + b == b;
    }
  }
}
