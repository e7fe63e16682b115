/** The gate of the TargetProcess notifier: a bug is filed only when the
    merged report ran some tests and some of them failed or errored. */
module NotifyTp {

  /** The attributes of the merged report's root element, with the counters
      already parsed as integers; the time stays text as it is never parsed. */
  datatype TestStats = TestStats(tests: int, failures: int, errors: int, time: string)

  /** `tests_failed`. */
  predicate TestsFailed(s: TestStats)
  {
    s.tests > 0 && s.failures + s.errors > 0
  }

  /** A report with no tests never triggers a notification, whatever its
      failure and error counts say. */
  lemma NoTestsNoNotice(s: TestStats)
    requires s.tests <= 0
    ensures !TestsFailed(s)
  {
  }

  /** Nor does one whose failures and errors add up to nothing. */
  lemma NoFailuresNoNotice(s: TestStats)
    requires s.failures + s.errors <= 0
    ensures !TestsFailed(s)
  {
  }

  /** A failure or an error among some tests does trigger it, as long as the
      other counter is not negative. */
  lemma FailuresNotice(s: TestStats)
    requires s.tests > 0 && s.failures >= 0 && s.errors >= 0
    ensures TestsFailed(s) <==> s.failures > 0 || s.errors > 0
  {
  }

  /** The time attribute plays no part in the decision. */
  lemma TimeIrrelevant(s: TestStats, time: string)
    ensures TestsFailed(s.(time := time)) == TestsFailed(s)
  {
  }
}
