/** vitest-report-summary.py: echoes the counters, collects every failed
    assertion into a `failures` list, counts it, looks up the first suite
    whose name contains the E2E file name, and prints one line per failure
    with the first line of its joined failure messages.

    The specification functions below describe each step on values; the
    method `Summarize` runs the script's loops and is proved to compute
    exactly `SummarySpec`. */
module VitestReportSummary {
  import opened Text
  import opened Report

  const E2EFile := "e2e-quality-orchestration.test.ts"
  const NoMessage := "No message"

  /** One entry of the script's `failures` list. */
  datatype Failure = Failure(suite: string, fullName: string, message: string)

  /** The E2E status line: the matched suite's name and its status, which is
      present (or `null`, printed as `None`) since a missing one aborts. */
  datatype E2ELine = E2ELine(name: string, status: Field<string>)

  /** One printed `- fullName: first_line` line. */
  datatype FailureLine = FailureLine(fullName: string, firstLine: string)

  /** What the script prints when it runs to the end. */
  datatype Summary = Summary(
    counters: Counters,
    failureCount: nat,
    e2e: Option<E2ELine>,
    failures: seq<FailureLine>)

  /** `data.get('testResults', [])`, iterated. */
  function SuitesOf(r: Report): Result<seq<Suite>>
  {
    ListOrEmpty(r.testResults, "testResults")
  }

  /** `'\n'.join(assertion.get('failureMessages', []))` when the messages
      are not `null`. */
  function JoinedMessage(a: Assertion): string
  {
    Join(if a.failureMessages.Present? then a.failureMessages.value else [])
  }

  /** One pass of the inner loop: `assertion['status']` must exist; a failed
      assertion yields an entry, whose messages must not be `null`. */
  function AssertionFailure(suiteName: string, a: Assertion): Result<Option<Failure>>
  {
    if a.status.Absent? then Err(KeyError("status"))
    else if !AssertionFailed(a) then Ok(None)
    else if a.failureMessages.Null? then Err(TypeError("failureMessages"))
    else Ok(Some(Failure(suiteName, a.fullName, JoinedMessage(a))))
  }

  /** The entries the inner loop appends for a list of assertions, or the
      first error it meets. */
  function AssertionFailures(suiteName: string, tests: seq<Assertion>): (r: Result<seq<Failure>>)
    ensures r.Ok? ==> |r.value| <= |tests|
    ensures r.Ok? ==> forall f :: f in r.value ==> f.suite == suiteName
  {
    if tests == [] then Ok([])
    else
      match AssertionFailures(suiteName, tests[..|tests| - 1])
      case Err(e) => Err(e)
      case Ok(fs) =>
        match AssertionFailure(suiteName, tests[|tests| - 1])
        case Err(e) => Err(e)
        case Ok(None) => Ok(fs)
        case Ok(Some(f)) => Ok(fs + [f])
  }

  /** The entries for one suite: `suite['assertionResults']` must exist and
      be a list. */
  function SuiteFailures(s: Suite): (r: Result<seq<Failure>>)
    ensures r.Ok? ==> s.assertionResults.Present?
    ensures r.Ok? ==> forall f :: f in r.value ==> f.suite == s.name
  {
    match s.assertionResults
    case Absent => Err(KeyError("assertionResults"))
    case Null => Err(TypeError("assertionResults"))
    case Present(tests) => AssertionFailures(s.name, tests)
  }

  /** The `failures` list after the outer loop, or the first error. */
  function CollectFailures(ss: seq<Suite>): (r: Result<seq<Failure>>)
    ensures r.Ok? ==> forall i :: 0 <= i < |ss| ==> ss[i].assertionResults.Present?
    ensures r.Ok? ==> forall f :: f in r.value ==> exists i :: 0 <= i < |ss| && f.suite == ss[i].name
  {
    if ss == [] then Ok([])
    else
      var init := ss[..|ss| - 1];
      assert forall i :: 0 <= i < |init| ==> init[i] == ss[i];
      match CollectFailures(init)
      case Err(e) => Err(e)
      case Ok(fs) =>
        match SuiteFailures(ss[|ss| - 1])
        case Err(e) => Err(e)
        case Ok(gs) =>
          assert forall f :: f in gs ==> f.suite == ss[|ss| - 1].name;
          Ok(fs + gs)
  }

  /** The index of the first suite whose name contains `t`: the `for` loop
      with `break`. */
  function FirstMatch(ss: seq<Suite>, t: string): (r: Option<nat>)
    ensures r.Some? ==> r.value < |ss| && Contains(ss[r.value].name, t)
    ensures r.Some? ==> forall j :: 0 <= j < r.value ==> !Contains(ss[j].name, t)
    ensures r.None? ==> forall j :: 0 <= j < |ss| ==> !Contains(ss[j].name, t)
  {
    if ss == [] then None
    else if Contains(ss[0].name, t) then Some(0)
    else
      match FirstMatch(ss[1..], t)
      case None => None
      case Some(i) => Some(i + 1)
  }

  /** The E2E lookup: nothing when no suite matches; otherwise the first
      match, whose `suite['status']` must exist. */
  function E2ELookup(ss: seq<Suite>): (r: Result<Option<E2ELine>>)
    ensures r.Ok? && r.value.Some? ==>
      Contains(r.value.value.name, E2EFile) && !r.value.value.status.Absent?
    ensures r.Err? ==> r.error == KeyError("status")
    ensures r.Err? <==>
      (FirstMatch(ss, E2EFile).Some? && ss[FirstMatch(ss, E2EFile).value].status.Absent?)
  {
    match FirstMatch(ss, E2EFile)
    case None => Ok(None)
    case Some(i) =>
      if ss[i].status.Absent? then Err(KeyError("status"))
      else Ok(Some(E2ELine(ss[i].name, ss[i].status)))
  }

  /** The printed message of one failure: the text before the first line
      break, or `No message` when the joined message is empty. */
  function MessageLine(msg: string): (r: string)
    ensures '\n' !in r
    ensures msg == "" ==> r == NoMessage
    ensures msg != "" ==> r <= msg && (|r| == |msg| || msg[|r|] == '\n')
  {
    if msg != "" then FirstLine(msg) else NoMessage
  }

  /** The lines of the final loop, one per failure, in order. */
  function FailureLines(fs: seq<Failure>): (r: seq<FailureLine>)
    ensures |r| == |fs|
    ensures forall i :: 0 <= i < |r| ==> r[i].fullName == fs[i].fullName && '\n' !in r[i].firstLine
  {
    seq(|fs|, i requires 0 <= i < |fs| => FailureLine(fs[i].fullName, MessageLine(fs[i].message)))
  }

  /** The whole script on a parsed report. */
  function SummarySpec(r: Report): (res: Result<Summary>)
    ensures res.Ok? ==> res.value.counters == r.counters
    ensures res.Ok? ==> |res.value.failures| == res.value.failureCount
    ensures res.Ok? ==> forall i :: 0 <= i < |res.value.failures| ==> '\n' !in res.value.failures[i].firstLine
  {
    match SuitesOf(r)
    case Err(e) => Err(e)
    case Ok(ss) =>
      match CollectFailures(ss)
      case Err(e) => Err(e)
      case Ok(fs) =>
        match E2ELookup(ss)
        case Err(e) => Err(e)
        case Ok(e2e) => Ok(Summary(r.counters, |fs|, e2e, FailureLines(fs)))
  }

  /** An error in a prefix of the assertions is the error of the whole
      list: the script stops at it. */
  lemma {:induction false} AssertionFailuresKeepsError(suiteName: string, tests: seq<Assertion>, k: nat)
    requires k <= |tests|
    requires AssertionFailures(suiteName, tests[..k]).Err?
    ensures AssertionFailures(suiteName, tests) == AssertionFailures(suiteName, tests[..k])
    decreases |tests| - k
  {
    if k < |tests| {
      assert tests[..k + 1][..k] == tests[..k];
      AssertionFailuresKeepsError(suiteName, tests, k + 1);
    } else {
      assert tests[..k] == tests;
    }
  }

  /** An error in a prefix of the suites is the error of the whole run. */
  lemma {:induction false} CollectFailuresKeepsError(ss: seq<Suite>, k: nat)
    requires k <= |ss|
    requires CollectFailures(ss[..k]).Err?
    ensures CollectFailures(ss) == CollectFailures(ss[..k])
    decreases |ss| - k
  {
    if k < |ss| {
      assert ss[..k + 1][..k] == ss[..k];
      CollectFailuresKeepsError(ss, k + 1);
    } else {
      assert ss[..k] == ss;
    }
  }

  /** The inner loop of lines 10-13 for one suite's assertions: the
      entries it appends to `failures`, or the error that aborts it. */
  method CollectAssertionFailures(suiteName: string, tests: seq<Assertion>) returns (res: Result<seq<Failure>>)
    ensures res == AssertionFailures(suiteName, tests)
  {
    var added: seq<Failure> := [];
    var j := 0;
    while j < |tests|
      invariant 0 <= j <= |tests|
      invariant AssertionFailures(suiteName, tests[..j]) == Ok(added)
    {
      var a := tests[j];
      assert tests[..j + 1][..j] == tests[..j];
      assert tests[..j + 1][j] == a;
      if a.status.Absent? {
        AssertionFailuresKeepsError(suiteName, tests, j + 1);
        return Err(KeyError("status"));
      }
      if a.status == Present(Failed) {
        var msg: string;
        match a.failureMessages {
          case Absent => msg := Join([]);
          case Null =>
            AssertionFailuresKeepsError(suiteName, tests, j + 1);
            return Err(TypeError("failureMessages"));
          case Present(ms) => msg := Join(ms);
        }
        added := added + [Failure(suiteName, a.fullName, msg)];
      }
      j := j + 1;
    }
    assert tests[..|tests|] == tests;
    res := Ok(added);
  }

  /** The outer loop of lines 8-13: the `failures` list in report order,
      or the error that aborts the script. */
  method CollectAllFailures(suites: seq<Suite>) returns (res: Result<seq<Failure>>)
    ensures res == CollectFailures(suites)
  {
    var failures: seq<Failure> := [];
    var i := 0;
    while i < |suites|
      invariant 0 <= i <= |suites|
      invariant CollectFailures(suites[..i]) == Ok(failures)
    {
      var suite := suites[i];
      assert suites[..i + 1][..i] == suites[..i];
      assert suites[..i + 1][i] == suite;
      var found: Result<seq<Failure>>;
      match suite.assertionResults {
        case Absent => found := Err(KeyError("assertionResults"));
        case Null => found := Err(TypeError("assertionResults"));
        case Present(tests) => found := CollectAssertionFailures(suite.name, tests);
      }
      if found.Err? {
        CollectFailuresKeepsError(suites, i + 1);
        return Err(found.error);
      }
      failures := failures + found.value;
      i := i + 1;
    }
    assert suites[..|suites|] == suites;
    res := Ok(failures);
  }

  /** Lines 16-19: the search that stops at the first suite whose name
      contains the E2E file name. */
  method FindE2E(suites: seq<Suite>) returns (res: Result<Option<E2ELine>>)
    ensures res == E2ELookup(suites)
  {
    var k := 0;
    while k < |suites|
      invariant 0 <= k <= |suites|
      invariant forall m :: 0 <= m < k ==> !Contains(suites[m].name, E2EFile)
    {
      if Contains(suites[k].name, E2EFile) {
        if suites[k].status.Absent? {
          return Err(KeyError("status"));
        }
        return Ok(Some(E2ELine(suites[k].name, suites[k].status)));
      }
      k := k + 1;
    }
    res := Ok(None);
  }

  /** Lines 21-23: one line per failure, in order. */
  method RenderFailures(failures: seq<Failure>) returns (lines: seq<FailureLine>)
    ensures lines == FailureLines(failures)
  {
    lines := [];
    var n := 0;
    while n < |failures|
      invariant 0 <= n <= |failures|
      invariant lines == FailureLines(failures[..n])
    {
      lines := lines + [FailureLine(failures[n].fullName, MessageLine(failures[n].message))];
      n := n + 1;
    }
    assert failures[..|failures|] == failures;
  }

  /** Lines 7-23 of the script, run in order on a parsed report; the
      result is exactly the specification `SummarySpec`. */
  method Summarize(r: Report) returns (res: Result<Summary>)
    ensures res == SummarySpec(r)
  {
    var suites: seq<Suite>;
    match r.testResults {
      case Absent => suites := [];
      case Null => return Err(TypeError("testResults"));
      case Present(ss) => suites := ss;
    }
    var failures := CollectAllFailures(suites);
    if failures.Err? {
      return Err(failures.error);
    }
    var e2e := FindE2E(suites);
    if e2e.Err? {
      return Err(e2e.error);
    }
    var lines := RenderFailures(failures.value);
    res := Ok(Summary(r.counters, |failures.value|, e2e.value, lines));
  }

  /** Reference for one suite's entries: its failed assertions in order,
      each tagged with the suite's name and its joined messages. */
  function Tagged(suiteName: string, tests: seq<Assertion>): (r: seq<Failure>)
    ensures |r| == |tests|
  {
    seq(|tests|, i requires 0 <= i < |tests| => Failure(suiteName, tests[i].fullName, JoinedMessage(tests[i])))
  }

  /** `f` is the entry of one of the failed assertions of suite `s`. */
  ghost predicate FromFailedAssertion(f: Failure, s: Suite)
  {
    exists a :: a in FailedOnly(AssertionsOf(s)) && f == Failure(s.name, a.fullName, JoinedMessage(a))
  }

  /** Reference for the whole `failures` list: the suites' entries one
      after the other, in report order. */
  function ExpectedFailures(ss: seq<Suite>): (r: seq<Failure>)
    ensures forall f :: f in r ==> exists i :: 0 <= i < |ss| && FromFailedAssertion(f, ss[i])
  {
    if ss == [] then []
    else
      var last := ss[|ss| - 1];
      var tagged := Tagged(last.name, FailedOnly(AssertionsOf(last)));
      assert forall f :: f in tagged ==> FromFailedAssertion(f, last) by {
        forall f | f in tagged ensures FromFailedAssertion(f, last) {
          var k :| 0 <= k < |tagged| && tagged[k] == f;
          assert FailedOnly(AssertionsOf(last))[k] in FailedOnly(AssertionsOf(last));
        }
      }
      var r := ExpectedFailures(ss[..|ss| - 1]) + tagged;
      assert forall f :: f in r ==> exists i :: 0 <= i < |ss| && FromFailedAssertion(f, ss[i]) by {
        forall f | f in r ensures exists i :: 0 <= i < |ss| && FromFailedAssertion(f, ss[i]) {
          if f in tagged {
            assert FromFailedAssertion(f, ss[|ss| - 1]);
          } else {
            var i :| 0 <= i < |ss| - 1 && FromFailedAssertion(f, ss[..|ss| - 1][i]);
            assert ss[..|ss| - 1][i] == ss[i];
          }
        }
      }
      r
  }

  /** The number of failed assertions summed over all suites. */
  function TotalFailed(ss: seq<Suite>): nat
  {
    if ss == [] then 0 else |FailedOnly(AssertionsOf(ss[0]))| + TotalFailed(ss[1..])
  }

  /** `TotalFailed` splits at the last suite. */
  lemma {:induction false} TotalFailedSnoc(ss: seq<Suite>)
    requires ss != []
    ensures TotalFailed(ss) == TotalFailed(ss[..|ss| - 1]) + |FailedOnly(AssertionsOf(ss[|ss| - 1]))|
  {
    if |ss| > 1 {
      TotalFailedSnoc(ss[1..]);
      assert ss[1..][..|ss[1..]| - 1] == ss[..|ss| - 1][1..];
    }
  }

  /** The entries of the inner loop are exactly the suite's failed
      assertions, in order, tagged with the suite's name (lines 10-13). */
  lemma {:induction false} AssertionFailuresAreFailed(suiteName: string, tests: seq<Assertion>)
    requires AssertionFailures(suiteName, tests).Ok?
    ensures AssertionFailures(suiteName, tests).value == Tagged(suiteName, FailedOnly(tests))
  {
    if tests != [] {
      var init, a := tests[..|tests| - 1], tests[|tests| - 1];
      AssertionFailuresAreFailed(suiteName, init);
      assert init + [a] == tests;
      FailedOnlySnoc(init, a);
    }
  }

  /** The `failures` list is exactly the failed assertions of all suites,
      suites in report order and assertions in suite order, each tagged
      with its suite's name; nothing else enters it (lines 8-13). */
  lemma {:induction false} CollectFailuresAreFailed(ss: seq<Suite>)
    requires CollectFailures(ss).Ok?
    ensures CollectFailures(ss).value == ExpectedFailures(ss)
  {
    if ss != [] {
      CollectFailuresAreFailed(ss[..|ss| - 1]);
      var last := ss[|ss| - 1];
      AssertionFailuresAreFailed(last.name, last.assertionResults.value);
    }
  }

  /** `FAILURE COUNT` is the number of assertions with status `failed`
      summed over all suites (lines 7-14). */
  lemma {:induction false} FailureCountIsTotalFailed(ss: seq<Suite>)
    requires CollectFailures(ss).Ok?
    ensures |CollectFailures(ss).value| == TotalFailed(ss)
  {
    if ss != [] {
      FailureCountIsTotalFailed(ss[..|ss| - 1]);
      TotalFailedSnoc(ss);
      var last := ss[|ss| - 1];
      AssertionFailuresAreFailed(last.name, last.assertionResults.value);
    }
  }

  /** The printed summary carries the counters unchanged, a failure count
      equal to the failed assertions summed over all suites, and one line
      per failed assertion. */
  lemma SummaryCounts(r: Report)
    requires SummarySpec(r).Ok?
    ensures SuitesOf(r).Ok?
    ensures SummarySpec(r).value.counters == r.counters
    ensures SummarySpec(r).value.failureCount == TotalFailed(SuitesOf(r).value)
    ensures |SummarySpec(r).value.failures| == SummarySpec(r).value.failureCount
  {
    FailureCountIsTotalFailed(SuitesOf(r).value);
  }

  /** What the first loop needs of a suite to get past it:
      `assertionResults` is a list, every assertion has a `status`, and every
      failed one has messages that are not `null`. */
  predicate Summarizable(s: Suite)
  {
    && s.assertionResults.Present?
    && forall a :: a in s.assertionResults.value ==>
         !a.status.Absent? && (AssertionFailed(a) ==> !a.failureMessages.Null?)
  }

  lemma {:induction false} AssertionFailuresOkIff(suiteName: string, tests: seq<Assertion>)
    ensures AssertionFailures(suiteName, tests).Ok? <==>
      forall a :: a in tests ==> !a.status.Absent? && (AssertionFailed(a) ==> !a.failureMessages.Null?)
  {
    if tests != [] {
      var init, a := tests[..|tests| - 1], tests[|tests| - 1];
      AssertionFailuresOkIff(suiteName, init);
      assert init + [a] == tests;
    }
  }

  /** The first loop aborts exactly when some suite is not summarizable
      (lines 8-13: `suite['assertionResults']`, `assertion['status']` and
      the join of `null` messages). */
  lemma {:induction false} CollectFailuresOkIff(ss: seq<Suite>)
    ensures CollectFailures(ss).Ok? <==> forall i :: 0 <= i < |ss| ==> Summarizable(ss[i])
  {
    if ss != [] {
      var init, last := ss[..|ss| - 1], ss[|ss| - 1];
      CollectFailuresOkIff(init);
      if last.assertionResults.Present? {
        AssertionFailuresOkIff(last.name, last.assertionResults.value);
      }
      assert forall i :: 0 <= i < |ss| - 1 ==> ss[i] == init[i];
    }
  }

  /** A report without `testResults` reads as one without suites: the
      count is 0, there is no E2E line and no failure line. */
  lemma MissingTestResults(r: Report)
    requires r.testResults.Absent?
    ensures SummarySpec(r) == Ok(Summary(r.counters, 0, None, []))
  {
    assert FailureLines([]) == [];
  }

  /** The E2E lookup reports nothing exactly when no suite name contains
      the E2E file name; otherwise it reports the first such suite only. */
  lemma E2ELookupIsFirstMatch(ss: seq<Suite>)
    ensures E2ELookup(ss) == Ok(None) <==> forall j :: 0 <= j < |ss| ==> !Contains(ss[j].name, E2EFile)
    ensures E2ELookup(ss).Ok? && E2ELookup(ss).value.Some? ==>
      exists i :: 0 <= i < |ss| && Contains(ss[i].name, E2EFile)
        && (forall j :: 0 <= j < i ==> !Contains(ss[j].name, E2EFile))
        && E2ELookup(ss).value.value == E2ELine(ss[i].name, ss[i].status)
  {
    match FirstMatch(ss, E2EFile)
    case None =>
    case Some(i) =>
      assert Contains(ss[i].name, E2EFile);
  }

  /** The printed message for a list of failure messages: `No message`
      exactly when the list is missing-as-empty, empty or one empty string;
      otherwise the first line of the first message. */
  lemma MessageLineOfMessages(ms: seq<string>)
    ensures MessageLine(Join(ms)) == if ms == [] || ms == [""] then NoMessage else FirstLine(ms[0])
  {
    JoinEmptyIff(ms);
    if ms != [] {
      FirstLineOfJoin(ms);
    }
  }

  /** A first message that is empty is printed as an empty line, not as
      `No message`, when more messages follow. */
  lemma EmptyFirstMessage()
    ensures MessageLine(Join(["", "x"])) == ""
  {
    MessageLineOfMessages(["", "x"]);
  }

  /** The lookup alone never reads the assertions: a lone suite at any
      path ending in the E2E file name is reported with its status, whatever
      its assertion list, as long as the `status` key exists. */
  lemma E2EOnlySuiteLookup(dir: string, st: Field<string>, tests: Field<seq<Assertion>>)
    requires !st.Absent?
    ensures var name := dir + E2EFile;
      E2ELookup([Suite(name, st, tests)]) == Ok(Some(E2ELine(name, st)))
  {
    var name := dir + E2EFile;
    assert name[|dir|..|dir| + |E2EFile|] == E2EFile;
    assert OccursAt(name, E2EFile, |dir|);
  }

  /** The whole script reaches and prints the E2E line for a lone matching
      suite exactly as far as the first loop lets it: the suite must be
      summarizable and carry its `status`. */
  lemma E2EOnlySuiteReported(c: Counters, dir: string, s: Suite)
    requires s.name == dir + E2EFile && !s.status.Absent? && Summarizable(s)
    ensures SummarySpec(Report(c, Present([s]))).Ok?
    ensures SummarySpec(Report(c, Present([s]))).value.e2e == Some(E2ELine(s.name, s.status))
  {
    CollectFailuresOkIff([s]);
    E2EOnlySuiteLookup(dir, s.status, s.assertionResults);
    assert [Suite(dir + E2EFile, s.status, s.assertionResults)] == [s];
  }

  /** A report whose only suite is a test file at any path ending in the
      E2E file name, with a present status and no assertions, prints count
      0, that suite with its status, and no failure lines. */
  lemma E2EOnlySuite(c: Counters, dir: string, status: string)
    ensures
      var name := dir + E2EFile;
      SummarySpec(Report(c, Present([Suite(name, Present(status), Present([]))])))
        == Ok(Summary(c, 0, Some(E2ELine(name, Present(status))), []))
  {
    var name := dir + E2EFile;
    assert name[|dir|..|dir| + |E2EFile|] == E2EFile;
    assert OccursAt(name, E2EFile, |dir|);
    var ss := [Suite(name, Present(status), Present([]))];
    assert FirstMatch(ss, E2EFile) == Some(0);
    assert ss[..|ss| - 1] == [];
    assert SuiteFailures(ss[0]) == Ok([]);
    assert CollectFailures(ss) == Ok([] + []);
    assert FailureLines([]) == [];
  }
}
