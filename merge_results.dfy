/** Merging the reports of several test runs into one: the counters are
    summed and the test cases concatenated in report order. The reports are
    given already parsed. */
module MergeResults {
  import opened Seqs

  /** The attributes of one `<testsuite>` report and its test cases. The
      cases are kept as opaque strings. */
  datatype TestSuite = TestSuite(tests: int, failures: int, errors: int, time: real, cases: seq<string>)

  const EMPTY := TestSuite(0, 0, 0, 0.0, [])

  /** Two reports side by side: counters and times added, cases of `a` first. */
  function Combine(a: TestSuite, b: TestSuite): (r: TestSuite)
    ensures r.tests == a.tests + b.tests && r.failures == a.failures + b.failures
    ensures r.errors == a.errors + b.errors && r.time == a.time + b.time
    ensures r.cases == a.cases + b.cases
  {
    TestSuite(a.tests + b.tests, a.failures + b.failures, a.errors + b.errors, a.time + b.time, a.cases + b.cases)
  }

  /** The merged report of `suites`, taken in order. */
  function Merged(suites: seq<TestSuite>): TestSuite
  {
    if suites == [] then EMPTY else Combine(Merged(suites[..|suites| - 1]), suites[|suites| - 1])
  }

  // Reference definitions, front to back: the sums of the counters and
  // times, and the cases of all reports in order.

  function SumTests(suites: seq<TestSuite>): int
  {
    if suites == [] then 0 else suites[0].tests + SumTests(suites[1..])
  }

  function SumFailures(suites: seq<TestSuite>): int
  {
    if suites == [] then 0 else suites[0].failures + SumFailures(suites[1..])
  }

  function SumErrors(suites: seq<TestSuite>): int
  {
    if suites == [] then 0 else suites[0].errors + SumErrors(suites[1..])
  }

  function SumTime(suites: seq<TestSuite>): real
  {
    if suites == [] then 0.0 else suites[0].time + SumTime(suites[1..])
  }

  function AllCases(suites: seq<TestSuite>): seq<string>
  {
    if suites == [] then [] else suites[0].cases + AllCases(suites[1..])
  }

  /** `merge_test_results`: adds up the counters of every report, collects
      their case lists, then appends the cases one list after the other. */
  method MergeTestResults(suites: seq<TestSuite>) returns (merged: TestSuite)
    ensures merged == Merged(suites)
  {
    var failures := 0;
    var tests := 0;
    var errors := 0;
    var time := 0.0;
    var cases: seq<seq<string>> := [];
    for i := 0 to |suites|
      invariant |cases| == i
      invariant forall j :: 0 <= j < i ==> cases[j] == suites[j].cases
      invariant Merged(suites[..i]) == TestSuite(tests, failures, errors, time, Concat(cases))
    {
      assert suites[..i + 1][..i] == suites[..i];
      failures := failures + suites[i].failures;
      tests := tests + suites[i].tests;
      errors := errors + suites[i].errors;
      time := time + suites[i].time;
      ConcatSnoc(cases, suites[i].cases);
      cases := cases + [suites[i].cases];
    }
    var all: seq<string> := [];
    for i := 0 to |cases|
      invariant all == Concat(cases[..i])
    {
      assert cases[..i + 1][..i] == cases[..i];
      all := all + cases[i];
    }
    assert cases[..|cases|] == cases;
    assert suites[..|suites|] == suites;
    merged := TestSuite(tests, failures, errors, time, all);
  }


  /** Combining is associative and has the empty report as its unit. */
  lemma CombineAssoc(a: TestSuite, b: TestSuite, c: TestSuite)
    ensures Combine(Combine(a, b), c) == Combine(a, Combine(b, c))
  {
    assert a.cases + b.cases + c.cases == a.cases + (b.cases + c.cases);
  }

  lemma CombineEmpty(a: TestSuite)
    ensures Combine(EMPTY, a) == a && Combine(a, EMPTY) == a
  {
    assert [] + a.cases == a.cases && a.cases + [] == a.cases;
  }

  /** Merging distributes over splitting the reports into two batches. */
  lemma {:induction false} MergedSplit(a: seq<TestSuite>, b: seq<TestSuite>)
    ensures Merged(a + b) == Combine(Merged(a), Merged(b))
    decreases |b|
  {
    if b == [] {
      assert a + b == a;
      CombineEmpty(Merged(a));
    } else {
      var n := |b| - 1;
      assert (a + b)[..|a + b| - 1] == a + b[..n];
      assert (a + b)[|a + b| - 1] == b[n];
      assert Merged(a + b) == Combine(Merged(a + b[..n]), b[n]);
      assert Merged(b) == Combine(Merged(b[..n]), b[n]);
      MergedSplit(a, b[..n]);
      CombineAssoc(Merged(a), Merged(b[..n]), b[n]);
    }
  }

  /** The merged report holds the sums of the counters and times of all
      reports and all their cases in report order. */
  lemma {:induction false} MergedSums(suites: seq<TestSuite>)
    ensures Merged(suites) == TestSuite(SumTests(suites), SumFailures(suites), SumErrors(suites), SumTime(suites), AllCases(suites))
  {
    if suites != [] {
      MergedSingle(suites[0]);
      MergedSplit([suites[0]], suites[1..]);
      assert [suites[0]] + suites[1..] == suites;
      MergedSums(suites[1..]);
    }
  }

  /** Merging an already merged report with others gives the same result as
      merging all the original reports at once. */
  lemma MergeOfMerged(a: seq<TestSuite>, b: seq<TestSuite>)
    ensures Merged([Merged(a), Merged(b)]) == Merged(a + b)
  {
    var m := [Merged(a), Merged(b)];
    assert m[..1] == [Merged(a)];
    assert Merged(m) == Combine(Merged([Merged(a)]), Merged(b));
    MergedSingle(Merged(a));
    MergedSplit(a, b);
  }

  /** Merging a single report leaves it as it is. */
  lemma MergedSingle(s: TestSuite)
    ensures Merged([s]) == s
  {
    assert [s][..0] == [];
    CombineEmpty(s);
  }
}
