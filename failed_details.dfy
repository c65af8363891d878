/** failed_details.py: for every suite with at least one failed assertion,
    its name, then each failed assertion's full name with the first line of
    its first failure message. The output is modelled as one record per
    printed suite. */
module FailedDetails {
  import opened Text
  import opened Report
  import VitestReportSummary

  /** The two lines printed for one failed assertion. */
  datatype Detail = Detail(fullName: string, message: string)

  /** A printed suite heading with the details under it. */
  datatype SuiteDetails = SuiteDetails(name: string, failures: seq<Detail>)

  /** `(a.get('failureMessages') or [''])[0].split('\n')[0]`: a missing,
      `null` or empty message list stands for `['']`. */
  function FirstMessageLine(a: Assertion): (r: string)
    ensures '\n' !in r
    ensures a.failureMessages.Present? && a.failureMessages.value != [] ==>
      r <= a.failureMessages.value[0]
    ensures a.failureMessages.Present? && a.failureMessages.value != [] ==>
      |r| == |a.failureMessages.value[0]| || a.failureMessages.value[0][|r|] == '\n'
    ensures !(a.failureMessages.Present? && a.failureMessages.value != []) ==> r == ""
  {
    var ms := if a.failureMessages.Present? && a.failureMessages.value != []
              then a.failureMessages.value else [""];
    FirstLine(ms[0])
  }

  /** The details printed for a suite's failed assertions, in order. */
  function DescribeFailures(fails: seq<Assertion>): (r: seq<Detail>)
    ensures |r| == |fails|
  {
    seq(|fails|, j requires 0 <= j < |fails| => Detail(fails[j].fullName, FirstMessageLine(fails[j])))
  }

  /** Lines 4-11: `suite.get('assertionResults', [])` is filtered to the
      failed assertions; a suite is printed only when some remain. A `null`
      assertion list aborts the loop. */
  function Details(ss: seq<Suite>): (r: Result<seq<SuiteDetails>>)
    ensures r.Ok? ==> |r.value| <= |ss|
    ensures r.Ok? ==> forall k :: 0 <= k < |r.value| ==> r.value[k].failures != []
  {
    if ss == [] then Ok([])
    else
      match ListOrEmpty(ss[0].assertionResults, "assertionResults")
      case Err(e) => Err(e)
      case Ok(tests) =>
        var fails := FailedOnly(tests);
        var here := if fails != [] then [SuiteDetails(ss[0].name, DescribeFailures(fails))] else [];
        match Details(ss[1..])
        case Err(e) => Err(e)
        case Ok(rest) => Ok(here + rest)
  }

  /** The whole script on a parsed report: `j['testResults']` must exist
      and be a list. */
  function FailedDetails(r: Report): (res: Result<seq<SuiteDetails>>)
    ensures res.Ok? <==> (r.testResults.Present? &&
      forall i :: 0 <= i < |r.testResults.value| ==> !r.testResults.value[i].assertionResults.Null?)
  {
    match r.testResults
    case Absent => Err(KeyError("testResults"))
    case Null => Err(TypeError("testResults"))
    case Present(ss) => DetailsOkIff(ss); Details(ss)
  }

  /** The suite-inclusion rule of line 6. */
  predicate HasFailure(s: Suite)
  {
    FailedOnly(AssertionsOf(s)) != []
  }

  /** A suite is printed exactly when one of its assertions has status
      `failed`; a missing list or a missing status counts as no failure. */
  lemma HasFailureIff(s: Suite)
    ensures HasFailure(s) <==> exists a :: a in AssertionsOf(s) && AssertionFailed(a)
  {
    if HasFailure(s) {
      assert FailedOnly(AssertionsOf(s))[0] in FailedOnly(AssertionsOf(s));
    }
  }

  /** The record printed for a suite with failures. */
  function Describe(s: Suite): (r: SuiteDetails)
    ensures r.name == s.name
    ensures |r.failures| == |FailedOnly(AssertionsOf(s))|
  {
    SuiteDetails(s.name, DescribeFailures(FailedOnly(AssertionsOf(s))))
  }

  /** The printed records are exactly the suites with a failed assertion,
      in report order, each with one detail per failed assertion in suite
      order (lines 4-11). */
  lemma {:induction false} DetailsAreFailingSuites(ss: seq<Suite>)
    requires Details(ss).Ok?
    ensures var failing := Filter(ss, HasFailure);
      && |Details(ss).value| == |failing|
      && forall k :: 0 <= k < |failing| ==> Details(ss).value[k] == Describe(failing[k])
  {
    if ss != [] {
      var rest := ss[1..];
      DetailsAreFailingSuites(rest);
      var failing := Filter(ss, HasFailure);
      if HasFailure(ss[0]) {
        assert failing == [ss[0]] + Filter(rest, HasFailure);
        assert Details(ss).value == [Describe(ss[0])] + Details(rest).value;
      } else {
        assert failing == [] + Filter(rest, HasFailure);
        assert Details(ss).value == [] + Details(rest).value;
      }
    }
  }

  /** The loop aborts exactly when some suite's `assertionResults` is
      `null`; a missing one is read as empty. */
  lemma {:induction false} DetailsOkIff(ss: seq<Suite>)
    ensures Details(ss).Ok? <==> forall i :: 0 <= i < |ss| ==> !ss[i].assertionResults.Null?
  {
    if ss != [] {
      DetailsOkIff(ss[1..]);
      assert forall i :: 1 <= i < |ss| ==> ss[i] == ss[1..][i - 1];
    }
  }

  /** Every printed message is a single line, the start of the first
      failure message. */
  lemma DetailMessagesAreFirstLines(ss: seq<Suite>)
    requires Details(ss).Ok?
    ensures forall k, j :: 0 <= k < |Details(ss).value| && 0 <= j < |Details(ss).value[k].failures| ==>
      '\n' !in Details(ss).value[k].failures[j].message
  {
    DetailsAreFailingSuites(ss);
  }

  /** Where both scripts read the same assertion, they print the same first
      line, except that vitest-report-summary.py prints `No message` when
      the joined messages are empty and this script prints an empty line.
      `null` messages are excluded because vitest-report-summary.py raises
      TypeError on them (line 12), so it prints no line to compare. */
  lemma SameFirstLineAsSummary(a: Assertion)
    requires !a.failureMessages.Null?
    ensures var joined := VitestReportSummary.JoinedMessage(a);
      VitestReportSummary.MessageLine(joined)
        == if joined == "" then VitestReportSummary.NoMessage else FirstMessageLine(a)
  {
    var ms := if a.failureMessages.Present? then a.failureMessages.value else [];
    VitestReportSummary.MessageLineOfMessages(ms);
    JoinEmptyIff(ms);
  }
}
