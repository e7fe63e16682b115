/** The gate and the delivery check of the Slack notifier. Its `tests_failed`
    is the same expression over the same report attributes as the
    TargetProcess notifier's, so `NotifyTp.TestsFailed` serves both. */
module NotifySlack {
  import opened NotifyTp

  /** The parts of the HTTP response the notifier looks at. */
  datatype Response = Response(statusCode: int, text: string)

  function UpperChar(c: char): (u: char)
    ensures 'a' <= c <= 'z' ==> u as int == c as int - 32
    ensures !('a' <= c <= 'z') ==> u == c
  {
    if 'a' <= c <= 'z' then (c as int - 32) as char else c
  }

  /** `text.upper()`, on ASCII letters. */
  function Upper(s: string): (u: string)
    ensures |u| == |s|
    ensures forall i :: 0 <= i < |s| ==> u[i] == UpperChar(s[i])
  {
    if s == [] then [] else [UpperChar(s[0])] + Upper(s[1..])
  }

  /** `notify_success`: a 2xx status and a body that reads "OK" in any case. */
  predicate NotifySuccess(r: Response)
  {
    200 <= r.statusCode < 300 && Upper(r.text) == "OK"
  }

  /** The Slack gate is the TargetProcess one: zero tests never notify,
      failures or errors among some tests do. */
  lemma SlackGate(s: TestStats)
    ensures s.tests == 0 ==> !TestsFailed(s)
    ensures s.tests > 0 && s.failures >= 0 && s.errors >= 0 ==> (TestsFailed(s) <==> s.failures > 0 || s.errors > 0)
  {
  }

  /** Outside 2xx the delivery failed, whatever the body. */
  lemma NonSuccessStatus(r: Response)
    requires !(200 <= r.statusCode < 300)
    ensures !NotifySuccess(r)
  {
  }

  /** The letters whose upper case is the capital `u`: `u` itself and its
      lower case. */
  lemma UpperCharIs(c: char, u: char)
    requires 'A' <= u <= 'Z'
    ensures UpperChar(c) == u <==> c == u || c as int == u as int + 32
  {
  }

  /** For a 2xx status exactly the four spellings of "ok" are accepted. */
  lemma SuccessIff(r: Response)
    requires 200 <= r.statusCode < 300
    ensures NotifySuccess(r) <==> r.text in {"OK", "Ok", "oK", "ok"}
  {
    var t := r.text;
    if |t| == 2 {
      UpperCharIs(t[0], 'O');
      UpperCharIs(t[1], 'K');
      assert Upper(t) == [UpperChar(t[0]), UpperChar(t[1])];
      assert t == [t[0], t[1]];
    } else {
      assert |Upper(t)| != |"OK"|;
    }
  }

  /** An empty body or a longer word such as "OKAY" is a failed delivery. */
  lemma RejectedBodies(code: int)
    requires 200 <= code < 300
    ensures !NotifySuccess(Response(code, ""))
    ensures !NotifySuccess(Response(code, "OKAY"))
  {
    SuccessIff(Response(code, ""));
    SuccessIff(Response(code, "OKAY"));
  }
}
