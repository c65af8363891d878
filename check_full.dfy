/** check_full.py: one line of the runner's own totals, then, for each
    suite whose status is `failed`, its name and its number of failed
    assertions. */
module CheckFull {
  import opened Report

  /** The totals line: four counters, echoed as the report gives them. */
  datatype Totals = Totals(total: int, passed: int, failed: int, failedSuites: int)

  /** One printed `name :: count` line. */
  datatype FailedSuiteLine = FailedSuiteLine(name: string, failedCount: nat)

  datatype Output = Output(totals: Totals, suites: seq<FailedSuiteLine>)

  /** Line 4. */
  function TotalsLine(c: Counters): Totals
  {
    Totals(c.numTotalTests, c.numPassedTests, c.numFailedTests, c.numFailedTestSuites)
  }

  /** Lines 5-8: a suite is listed when `s.get('status') == 'failed'`, with
      the length of its failed-assertion list; a `null` assertion list of a
      listed suite aborts the loop. */
  function FailedSuiteLines(ss: seq<Suite>): (r: Result<seq<FailedSuiteLine>>)
    ensures r.Ok? ==> |r.value| <= |ss|
  {
    if ss == [] then Ok([])
    else if !SuiteFailed(ss[0]) then FailedSuiteLines(ss[1..])
    else
      match ListOrEmpty(ss[0].assertionResults, "assertionResults")
      case Err(e) => Err(e)
      case Ok(tests) =>
        match FailedSuiteLines(ss[1..])
        case Err(e) => Err(e)
        case Ok(rest) => Ok([FailedSuiteLine(ss[0].name, |FailedOnly(tests)|)] + rest)
  }

  /** The whole script on a parsed report: `j['testResults']` must exist
      and be a list. */
  function CheckFull(r: Report): (res: Result<Output>)
    ensures res.Ok? <==> (r.testResults.Present? &&
      forall i :: 0 <= i < |r.testResults.value| && SuiteFailed(r.testResults.value[i]) ==>
        !r.testResults.value[i].assertionResults.Null?)
  {
    match r.testResults
    case Absent => Err(KeyError("testResults"))
    case Null => Err(TypeError("testResults"))
    case Present(ss) =>
      FailedSuiteLinesOkIff(ss);
      match FailedSuiteLines(ss)
      case Err(e) => Err(e)
      case Ok(lines) => Ok(Output(TotalsLine(r.counters), lines))
  }

  /** The line listed for a failed suite. Its count never exceeds the
      suite's assertions, and it is 0 exactly when none of them failed,
      which the suite's own `failed` status does not rule out. */
  function LineFor(s: Suite): (r: FailedSuiteLine)
    ensures r.name == s.name
    ensures r.failedCount <= |AssertionsOf(s)|
    ensures r.failedCount == 0 <==> forall a :: a in AssertionsOf(s) ==> !AssertionFailed(a)
  {
    var fails := FailedOnly(AssertionsOf(s));
    assert fails != [] ==> fails[0] in fails;
    FailedSuiteLine(s.name, |fails|)
  }

  /** One pass of the loop: the first suite adds its line in front of the
      rest exactly when its status is `failed`. */
  lemma FailedSuiteLinesStep(ss: seq<Suite>)
    requires ss != [] && FailedSuiteLines(ss).Ok?
    ensures FailedSuiteLines(ss[1..]).Ok?
    ensures FailedSuiteLines(ss).value
      == (if SuiteFailed(ss[0]) then [LineFor(ss[0])] else []) + FailedSuiteLines(ss[1..]).value
    ensures Filter(ss, SuiteFailed)
      == (if SuiteFailed(ss[0]) then [ss[0]] else []) + Filter(ss[1..], SuiteFailed)
  {
    if SuiteFailed(ss[0]) {
      assert ListOrEmpty(ss[0].assertionResults, "assertionResults") == Ok(AssertionsOf(ss[0]));
    }
  }

  /** The line of each suite of a list, in order. */
  function LinesFor(fs: seq<Suite>): seq<FailedSuiteLine>
  {
    if fs == [] then [] else [LineFor(fs[0])] + LinesFor(fs[1..])
  }

  lemma {:induction false} LinesForAt(fs: seq<Suite>)
    ensures |LinesFor(fs)| == |fs|
    ensures forall k :: 0 <= k < |fs| ==> LinesFor(fs)[k] == LineFor(fs[k])
  {
    if fs != [] {
      LinesForAt(fs[1..]);
    }
  }

  lemma {:induction false} FailedSuiteLinesAreLinesFor(ss: seq<Suite>)
    requires FailedSuiteLines(ss).Ok?
    ensures FailedSuiteLines(ss).value == LinesFor(Filter(ss, SuiteFailed))
  {
    if ss != [] {
      FailedSuiteLinesStep(ss);
      FailedSuiteLinesAreLinesFor(ss[1..]);
      if SuiteFailed(ss[0]) {
        var failed := Filter(ss, SuiteFailed);
        assert failed == [ss[0]] + Filter(ss[1..], SuiteFailed);
        assert failed[0] == ss[0] && failed[1..] == Filter(ss[1..], SuiteFailed);
        assert LinesFor(failed) == [LineFor(ss[0])] + LinesFor(failed[1..]);
        assert FailedSuiteLines(ss).value == [LineFor(ss[0])] + FailedSuiteLines(ss[1..]).value;
      } else {
        assert Filter(ss, SuiteFailed) == Filter(ss[1..], SuiteFailed);
        assert FailedSuiteLines(ss).value == FailedSuiteLines(ss[1..]).value;
      }
    }
  }

  /** The listed lines are exactly the suites whose status is `failed`, in
      report order, each with its number of failed assertions (lines 5-8). */
  lemma ListedSuitesAreFailedSuites(ss: seq<Suite>)
    requires FailedSuiteLines(ss).Ok?
    ensures var failed := Filter(ss, SuiteFailed);
      && |FailedSuiteLines(ss).value| == |failed|
      && forall k :: 0 <= k < |failed| ==> FailedSuiteLines(ss).value[k] == LineFor(failed[k])
  {
    FailedSuiteLinesAreLinesFor(ss);
    LinesForAt(Filter(ss, SuiteFailed));
  }

  /** The loop aborts exactly when a suite with status `failed` has a
      `null` assertion list; other suites' lists are never read. */
  lemma {:induction false} FailedSuiteLinesOkIff(ss: seq<Suite>)
    ensures FailedSuiteLines(ss).Ok? <==>
      forall i :: 0 <= i < |ss| && SuiteFailed(ss[i]) ==> !ss[i].assertionResults.Null?
  {
    if ss != [] {
      FailedSuiteLinesOkIff(ss[1..]);
      assert forall i :: 1 <= i < |ss| ==> ss[i] == ss[1..][i - 1];
    }
  }

  /** The totals line repeats the report's counters; nothing is recomputed
      from the suites. */
  lemma TotalsEchoed(r: Report)
    requires CheckFull(r).Ok?
    ensures CheckFull(r).value.totals
      == Totals(r.counters.numTotalTests, r.counters.numPassedTests,
                r.counters.numFailedTests, r.counters.numFailedTestSuites)
  {
  }

  /** A suite marked `failed` whose assertions all passed is still listed,
      with count 0. */
  lemma FailedSuiteWithoutFailedAssertions(name: string, tests: seq<Assertion>)
    requires forall a :: a in tests ==> !AssertionFailed(a)
    ensures FailedSuiteLines([Suite(name, Present(Failed), Present(tests))])
      == Ok([FailedSuiteLine(name, 0)])
  {
    var s := Suite(name, Present(Failed), Present(tests));
    assert LineFor(s).failedCount == 0;
    assert [s][1..] == [];
    assert FailedSuiteLines([s][1..]) == Ok([]);
    assert [FailedSuiteLine(name, 0)] + [] == [FailedSuiteLine(name, 0)];
  }
}
