# Vitest report summaries, modelled in Dafny

Three one-shot Python scripts read a vitest JSON report and print summaries
of it. This project models what they do with the report once `json.loads`
has parsed it:

- `vitest-report-summary.py` echoes the eight counters. It collects every
  failed assertion into a `failures` list, using two nested loops, and prints
  the list's length as `FAILURE COUNT`. It then looks for the first suite
  whose name contains `e2e-quality-orchestration.test.ts`, stopping at the
  first match. Last, it prints one line per failure: the text before the first
  line break of the joined failure messages, or `No message` when the joined
  messages are empty. (For messages `['', 'x']` the joined text is not empty
  and the printed line is empty.)
- `failed_details.py` prints each suite that has at least one failed
  assertion. Under it, it prints each failed assertion's full name and the
  first line of its first failure message.
- `check_full.py` prints four of the counters as they are. Then it prints, for
  each suite whose status is `failed`, the suite's name and its number of
  failed assertions.

Files:

- `report.dfy` (module `Report`) holds the parsed report. A JSON member is a
  `Field`: `Absent`, `Null` or `Present(v)`. This is how the model tells
  `d[k]` (KeyError on a missing key) from `d.get(k, default)` (default only
  for a missing key) and from a JSON `null`. An abort is a `Result` whose
  `Error` is `KeyError` or `TypeError`. The module also holds the
  list-comprehension filter and the shared "status is `failed`" rule.
- `text.dfy` (module `Text`) holds the parts of Python's `str` the scripts
  use: `split('\n')`, its first element, `'\n'.join` and the substring test.
- `vitest_report_summary.dfy` is the imperative script. There is one method
  per loop, and each method is proved to compute its specification function.
  `Summarize` is proved equal to `SummarySpec`, and lemmas state what
  `SummarySpec` promises.
- `failed_details.dfy` and `check_full.dfy` are the two pure scripts. Each
  is a function from a report to its output records, with lemmas.

## What the scripts do not do

- No script compares the recomputed failure count with `numFailedTests`.
- `failed_details.py` and `check_full.py` do not fail on undecodable
  bytes: they read with `errors='ignore'`, which drops them.
- `failed_details.py` and `check_full.py` do not require `status`: they
  read it with `.get`, and a missing one counts as not failed.
  `vitest-report-summary.py` does require it: it aborts with KeyError when
  any assertion lacks `status` (line 11) or when the first suite matching
  the E2E file name lacks it (line 18).
- No script requires `failureMessages`: a missing list reads as empty.

## Model

| member | source | states |
|---|---|---|
| `Text.FirstLine` | vitest-report-summary.py:22 | the result is the longest prefix of the message that holds no line break: it is a prefix, it holds no `'\n'`, and it ends at the end of the string or at a `'\n'` |
| `Text.Split` | failed_details.py:9 | `s.split('\n')` gives at least one piece, and no piece holds a line break |
| `Text.SplitHeadIsFirstLine` | failed_details.py:9 | `FirstLine(s)` is the first piece of `s.split('\n')` |
| `Text.Join` | vitest-report-summary.py:12 | `'\n'.join(ms)` starts with `ms[0]`, and a line break follows `ms[0]` when there are two or more messages |
| `Text.JoinSplit` | vitest-report-summary.py:12 | joining the pieces of a split gives back the string |
| `Text.SplitJoin` | vitest-report-summary.py:12 | splitting a join of one or more pieces without line breaks gives back the pieces |
| `Text.FirstLineOfJoin` | vitest-report-summary.py:12-22 | for a non-empty message list, the first line of the joined string is the first line of the first message |
| `Text.JoinEmptyIff` | vitest-report-summary.py:12-22 | the joined message is empty exactly when the list is `[]` or `['']` |
| `Text.Contains` | vitest-report-summary.py:17 | `t in s` holds exactly when `t` occurs in `s` at some position |
| `Report.Filter` | failed_details.py:5 | a list comprehension keeps exactly the elements that pass the test, and never more than the input holds |
| `Report.FailedOnly` | failed_details.py:5 | the kept assertions are exactly those whose status is `failed`; a missing or `null` status is not failed |
| `VitestReportSummary.CollectAssertionFailures` | vitest-report-summary.py:10-13 | the inner loop appends exactly the entries `AssertionFailures` gives, or aborts with its error (missing `status`, `null` messages of a failed assertion) |
| `VitestReportSummary.AssertionFailures` | vitest-report-summary.py:10-13 | the definition of the inner loop over one suite: no more entries than assertions, each tagged with that suite's name; `AssertionFailuresAreFailed` and `AssertionFailuresOkIff` describe it |
| `VitestReportSummary.SuiteFailures` | vitest-report-summary.py:9-13 | the definition for one suite: it completes only when `assertionResults` is present, and every entry carries the suite's name |
| `VitestReportSummary.CollectAllFailures` | vitest-report-summary.py:8-13 | the outer loop yields exactly `CollectFailures(suites)`, stopping at the first missing or `null` `assertionResults` |
| `VitestReportSummary.CollectFailures` | vitest-report-summary.py:8-13 | the definition of `failures`: it completes only when every suite has an `assertionResults` list, and every entry names one of the suites; `CollectFailuresAreFailed` and `CollectFailuresOkIff` describe it |
| `VitestReportSummary.FirstMatch` | vitest-report-summary.py:16-19 | the index found is that of a suite whose name contains the target, and no earlier suite's name does; no index means that no suite's name does |
| `VitestReportSummary.FindE2E` | vitest-report-summary.py:16-19 | the search with `break` yields exactly `E2ELookup(suites)`: no line, or the first match's name and status, or a KeyError for that suite's missing status |
| `VitestReportSummary.E2ELookup` | vitest-report-summary.py:16-19 | the definition of the E2E search: a reported suite's name contains the E2E file name and its `status` key exists (it may be `null`); the only error is a KeyError for `status`, raised exactly when the first matching suite lacks it; `E2ELookupIsFirstMatch` describes it |
| `VitestReportSummary.MessageLine` | vitest-report-summary.py:22 | the printed message holds no line break; it is `No message` for an empty message, otherwise a prefix that ends at the message's first line break, or at its end when it has none |
| `VitestReportSummary.RenderFailures` | vitest-report-summary.py:21-23 | the final loop prints one line per failure, in order, with that failure's full name and message line |
| `VitestReportSummary.FailureLines` | vitest-report-summary.py:21-23 | the definition of the final loop: one line per failure, each with that failure's full name and a message line without line breaks |
| `VitestReportSummary.Summarize` | vitest-report-summary.py:7-23 | the script's loops, run in order, give exactly `SummarySpec(r)`: its error or its full output |
| `VitestReportSummary.SummarySpec` | vitest-report-summary.py:5-23 | the definition of the whole script: a completed run echoes the counters, prints as many failure lines as `FAILURE COUNT`, and no failure line holds a line break; `SummaryCounts` and `CollectFailuresOkIff` describe it |
| `VitestReportSummary.ExpectedFailures` | vitest-report-summary.py:8-13 | every entry of the reference `failures` list comes from a failed assertion of one of the suites, tagged with that suite's name |
| `VitestReportSummary.AssertionFailuresAreFailed` | vitest-report-summary.py:10-13 | the entries for one suite are its failed assertions, in suite order, each tagged with the suite's name and its joined messages |
| `VitestReportSummary.CollectFailuresAreFailed` | vitest-report-summary.py:8-13 | `failures` is exactly the failed assertions of all suites: suites in report order, assertions in suite order; passed and other assertions never appear |
| `VitestReportSummary.FailureCountIsTotalFailed` | vitest-report-summary.py:7-14 | the length of `failures` is the number of assertions with status `failed`, summed over all suites |
| `VitestReportSummary.SummaryCounts` | vitest-report-summary.py:5-14 | a completed run echoes the counters unchanged, prints `FAILURE COUNT` equal to the failed assertions over all suites, and prints that many failure lines |
| `VitestReportSummary.AssertionFailuresOkIff` | vitest-report-summary.py:10-13 | the inner loop completes exactly when every assertion has a `status` and no failed assertion has `null` messages |
| `VitestReportSummary.CollectFailuresOkIff` | vitest-report-summary.py:8-13 | the first loop completes exactly when every suite has an `assertionResults` list, every assertion has a `status`, and no failed assertion has `null` messages |
| `VitestReportSummary.MissingTestResults` | vitest-report-summary.py:8-19 | a report without `testResults` gives count 0, no E2E line and no failure lines |
| `VitestReportSummary.E2ELookupIsFirstMatch` | vitest-report-summary.py:16-19 | the lookup reports nothing exactly when no suite name contains the E2E file name; otherwise it reports only the first suite that does, with its status |
| `VitestReportSummary.E2EOnlySuiteLookup` | vitest-report-summary.py:16-19 | the lookup reports a lone suite at any path ending in the E2E file name with its own status, whatever its assertion list, whenever its `status` key exists |
| `VitestReportSummary.E2EOnlySuiteReported` | vitest-report-summary.py:8-19 | the whole script completes and prints that suite's E2E line when the lone matching suite has a `status` and passes the first loop (an `assertionResults` list, every assertion with a `status`, no `null` messages on a failed one) |
| `VitestReportSummary.E2EOnlySuite` | vitest-report-summary.py:7-23 | a report whose only suite has a present status and an empty assertion list, at any path ending in the E2E file name, prints count 0, that suite with its status, and no failure lines |
| `VitestReportSummary.MessageLineOfMessages` | vitest-report-summary.py:12-22 | the printed message is `No message` for a missing, empty or `['']` message list, and otherwise the first line of the first message |
| `VitestReportSummary.EmptyFirstMessage` | vitest-report-summary.py:22 | for messages `['', 'x']` the printed message is empty, not `No message` |
| `FailedDetails.FirstMessageLine` | failed_details.py:9 | the printed message holds no line break and is a prefix of the first failure message; it is empty when the messages are missing, `null` or `[]` |
| `FailedDetails.HasFailureIff` | failed_details.py:5-6 | a suite is printed exactly when one of its assertions has status `failed`; a missing `assertionResults` or a missing status counts as no failure |
| `FailedDetails.Describe` | failed_details.py:7-11 | a printed suite carries its own name and one detail per failed assertion |
| `FailedDetails.Details` | failed_details.py:4-11 | the definition of the loop: never more records than suites, and no printed suite without a failed assertion; `DetailsAreFailingSuites` and `DetailsOkIff` describe it |
| `FailedDetails.FailedDetails` | failed_details.py:3-11 | the whole script: it completes exactly when `testResults` is present and no suite's `assertionResults` is `null` |
| `FailedDetails.DetailsAreFailingSuites` | failed_details.py:4-11 | the printed records are exactly the suites that have a failed assertion, in report order, each listing its failed assertions in suite order |
| `FailedDetails.DetailsOkIff` | failed_details.py:4-5 | the loop aborts exactly when some suite's `assertionResults` is `null` |
| `FailedDetails.DetailMessagesAreFirstLines` | failed_details.py:9-11 | no printed message holds a line break |
| `FailedDetails.SameFirstLineAsSummary` | failed_details.py:9 | this script prints the same first line as vitest-report-summary.py, except where the joined messages are empty: there the other script prints `No message` and this one an empty line |
| `CheckFull.LineFor` | check_full.py:7-8 | a listed suite's count is at most its number of assertions, and it is 0 exactly when none of them failed |
| `CheckFull.FailedSuiteLines` | check_full.py:5-8 | the definition of the loop: never more lines than suites; `ListedSuitesAreFailedSuites` and `FailedSuiteLinesOkIff` describe it |
| `CheckFull.CheckFull` | check_full.py:3-8 | the whole script: it completes exactly when `testResults` is present and no suite with status `failed` has a `null` assertion list |
| `CheckFull.ListedSuitesAreFailedSuites` | check_full.py:5-8 | the listed lines are exactly the suites whose status is `failed`, in report order, each with its number of failed assertions |
| `CheckFull.FailedSuiteLinesOkIff` | check_full.py:5-7 | the loop aborts exactly when a suite with status `failed` has a `null` assertion list |
| `CheckFull.TotalsEchoed` | check_full.py:4 | the totals line repeats four of the report's counters; nothing is recomputed |
| `CheckFull.FailedSuiteWithoutFailedAssertions` | check_full.py:6-8 | a suite marked `failed` whose assertions all passed is still listed, with count 0 |

## Left out

- Reading the file and decoding its text (`utf-8-sig`, `utf-8` with
  `errors='ignore'`, `utf-16-le` with `errors='ignore'`) and `json.loads`.
  The model starts from the parsed report. `temp_decode.py` only decodes the
  file and prints one counter, so it is not part of this model.
- Printing: the model returns the content of each output line as records.
  It does not model the column layout, how integers are formatted, or how
  `None` is printed.
- Lines printed before an abort: a failing run gives the error alone. In
  the Python, some lines (the counter lines, for example) are already on the
  screen when the exception is raised.
- The eight counters, `name` and `fullName` are always present and
  well-typed here. The KeyError a missing counter, name or full name would
  raise is not modelled.
- Values of the wrong JSON type (a number where a string or list is
  expected, a non-string failure message) are not modelled. The only
  wrong-typed value modelled is `null`, where the scripts treat it
  differently from a missing key.
- Totals are echoed; no script compares the recomputed failure count with
  `numFailedTests`, so the model does not relate them either.
