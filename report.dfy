/** The parsed test-runner report (a vitest JSON report) as the scripts see
    it once `json.loads` has run, and the few rules all scripts share. */
module Report {

  /** A JSON object member: missing from the object, present with the value
      `null`, or present with a value. Python tells the three apart:
      `d[k]` raises KeyError on a missing key, `d.get(k, default)` yields the
      default only when the key is missing, and `null` arrives as `None`. */
  datatype Field<T> = Absent | Null | Present(value: T)

  datatype Option<T> = None | Some(value: T)

  /** One test case of a suite. */
  datatype Assertion = Assertion(
    fullName: string,
    status: Field<string>,
    failureMessages: Field<seq<string>>)

  /** One test file's aggregated results. */
  datatype Suite = Suite(
    name: string,
    status: Field<string>,
    assertionResults: Field<seq<Assertion>>)

  /** The runner's own counters, which the scripts only echo. */
  datatype Counters = Counters(
    numTotalTestSuites: int,
    numPassedTestSuites: int,
    numFailedTestSuites: int,
    numPendingTestSuites: int,
    numTotalTests: int,
    numPassedTests: int,
    numFailedTests: int,
    numPendingTests: int)

  datatype Report = Report(counters: Counters, testResults: Field<seq<Suite>>)

  /** The exceptions that abort a script: a missing key (`d[k]`), or a `None`
      where a list is iterated or joined. Each names the key involved. */
  datatype Error = KeyError(key: string) | TypeError(key: string)

  datatype Result<T> = Ok(value: T) | Err(error: Error)

  const Failed := "failed"

  /** `x.get('status') == 'failed'`; also `x['status'] == 'failed'` once the
      key is known to be present. Neither a missing status nor `null` is
      failed. */
  predicate IsFailed(status: Field<string>)
  {
    status == Present(Failed)
  }

  predicate AssertionFailed(a: Assertion)
  {
    IsFailed(a.status)
  }

  predicate SuiteFailed(s: Suite)
  {
    IsFailed(s.status)
  }

  /** `d.get(k, [])` for a list that is then iterated: a missing key gives
      the empty list, `null` gives `None`, whose iteration raises TypeError. */
  function ListOrEmpty<T>(f: Field<seq<T>>, key: string): Result<seq<T>>
  {
    match f
    case Absent => Ok([])
    case Null => Err(TypeError(key))
    case Present(xs) => Ok(xs)
  }

  /** The assertions a suite lists, with missing or `null` read as none. */
  function AssertionsOf(s: Suite): seq<Assertion>
  {
    if s.assertionResults.Present? then s.assertionResults.value else []
  }

  /** A list comprehension `[x for x in s if p(x)]`. */
  function Filter<T(!new)>(s: seq<T>, p: T -> bool): (r: seq<T>)
    ensures |r| <= |s|
    ensures forall x :: x in r <==> x in s && p(x)
  {
    if s == [] then []
    else (if p(s[0]) then [s[0]] else []) + Filter(s[1..], p)
  }

  /** Filtering distributes over concatenation, so it keeps the input
      order. */
  lemma {:induction false} FilterAppend<T(!new)>(s: seq<T>, t: seq<T>, p: T -> bool)
    ensures Filter(s + t, p) == Filter(s, p) + Filter(t, p)
  {
    if s == [] {
      assert s + t == t;
    } else {
      assert (s + t)[1..] == s[1..] + t;
      FilterAppend(s[1..], t, p);
    }
  }

  /** The failed assertions of a list, in their order:
      `[a for a in tests if a.get('status') == 'failed']`. */
  function FailedOnly(tests: seq<Assertion>): (r: seq<Assertion>)
    ensures |r| <= |tests|
    ensures forall a :: a in r <==> a in tests && AssertionFailed(a)
  {
    Filter(tests, AssertionFailed)
  }

  /** Adding one assertion at the end adds it to the failed ones exactly
      when it failed. */
  lemma FailedOnlySnoc(tests: seq<Assertion>, a: Assertion)
    ensures FailedOnly(tests + [a]) == FailedOnly(tests) + (if AssertionFailed(a) then [a] else [])
  {
    FilterAppend(tests, [a], AssertionFailed);
  }
}
