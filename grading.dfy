/** The grading loop of the code-submission service: every test case is sent
    to an external judge, the judge is polled until it reports a final
    status, the program's output is compared with the expected output
    (ignoring surrounding whitespace), and one result record per test case
    is collected together with the number of passes.

    The judge itself is an oracle: for the k-th submission of a grading call
    it hands out a token (or none), and for a token it answers a finite
    sequence of poll responses. */
module Grading {
  import opened Common

  // ---------------------------------------------------------------------
  // Whitespace stripping (Python's str.strip() without arguments)
  // ---------------------------------------------------------------------

  /** The characters for which Python's `str.isspace()` holds. */
  predicate IsSpace(c: char) {
    || c == ' '
    || ('\U{9}' <= c <= '\U{D}')
    || ('\U{1C}' <= c <= '\U{1F}')
    || c == '\U{85}' || c == '\U{A0}' || c == '\U{1680}'
    || ('\U{2000}' <= c <= '\U{200A}')
    || c == '\U{2028}' || c == '\U{2029}' || c == '\U{202F}' || c == '\U{205F}' || c == '\U{3000}'
  }

  predicate AllSpace(s: string) {
    forall i :: 0 <= i < |s| ==> IsSpace(s[i])
  }

  /** A string that neither starts nor ends with whitespace. */
  predicate Core(s: string) {
    s == [] || (!IsSpace(s[0]) && !IsSpace(s[|s| - 1]))
  }

  /** `s.strip()`: `s` without its leading and trailing whitespace. The
      result is no longer than `s` and neither starts nor ends with
      whitespace. */
  function Strip(s: string): (r: string)
    ensures |r| <= |s| && Core(r)
  {
    if |s| > 0 && IsSpace(s[0]) then Strip(s[1..])
    else if |s| > 0 && IsSpace(s[|s| - 1]) then Strip(s[..|s| - 1])
    else s
  }

  /** One step of `Strip` at the front. */
  lemma StripFront(s: string)
    requires |s| > 0 && IsSpace(s[0])
    ensures Strip(s) == Strip(s[1..])
  {
  }

  /** One step of `Strip` at the back. */
  lemma StripBack(s: string)
    requires |s| > 0 && !IsSpace(s[0]) && IsSpace(s[|s| - 1])
    ensures Strip(s) == Strip(s[..|s| - 1])
  {
  }

  /** Taking the first character off a padded string takes it off the padding. */
  lemma DropFront(p: string, m: string, q: string)
    requires |p| > 0
    ensures (p + m + q)[0] == p[0] && (p + m + q)[1..] == p[1..] + m + q
  {
  }

  /** Taking the last character off a padded string takes it off the padding. */
  lemma DropBack(p: string, m: string, q: string)
    requires |q| > 0
    ensures (p + m + q)[|p + m + q| - 1] == q[|q| - 1]
    ensures (p + m + q)[..|p + m + q| - 1] == p + m + q[..|q| - 1]
  {
    assert (p + m + q)[..|p + m + q| - 1] == p + m + q[..|q| - 1];
  }

  /** Whitespace put in front of a padded string joins the leading padding. */
  lemma ConsSpace(c: char, p: string, m: string, q: string)
    requires IsSpace(c) && AllSpace(p)
    ensures AllSpace([c] + p) && [c] + (p + m + q) == ([c] + p) + m + q
  {
    assert [c] + (p + m + q) == ([c] + p) + m + q;
  }

  /** Whitespace put behind a padded string joins the trailing padding. */
  lemma SnocSpace(c: char, p: string, m: string, q: string)
    requires IsSpace(c) && AllSpace(q)
    ensures AllSpace(q + [c]) && (p + m + q) + [c] == p + m + (q + [c])
  {
    assert (p + m + q) + [c] == p + m + (q + [c]);
  }

  /** Stripping removes exactly the surrounding whitespace: whatever lies
      between the first and the last non-whitespace character, internal
      whitespace included, is kept as it is. */
  lemma {:induction false} StripPadded(p: string, m: string, q: string)
    requires AllSpace(p) && AllSpace(q) && Core(m)
    ensures Strip(p + m + q) == m
    decreases |p| + |q|
  {
    var s := p + m + q;
    if |p| > 0 {
      DropFront(p, m, q);
      StripPadded(p[1..], m, q);
      StripFront(s);
    } else if m == [] && |q| > 0 {
      DropFront(q, [], []);
      assert s == q + [] + [];
      StripPadded(q[1..], [], []);
      StripFront(s);
    } else if |q| > 0 {
      DropBack(p, m, q);
      assert s[0] == m[0];
      StripPadded(p, m, q[..|q| - 1]);
      StripBack(s);
    } else {
      assert s == m;
    }
  }

  /** Every string is its stripped form with whitespace around it. */
  lemma {:induction false} StripDecomposes(s: string) returns (p: string, q: string)
    ensures AllSpace(p) && AllSpace(q) && s == p + Strip(s) + q
  {
    if |s| > 0 && IsSpace(s[0]) {
      var t := s[1..];
      var p', q' := StripDecomposes(t);
      StripFront(s);
      ConsSpace(s[0], p', Strip(t), q');
      assert s == [s[0]] + t;
      p, q := [s[0]] + p', q';
    } else if |s| > 0 && IsSpace(s[|s| - 1]) {
      var t := s[..|s| - 1];
      var p', q' := StripDecomposes(t);
      StripBack(s);
      SnocSpace(s[|s| - 1], p', Strip(t), q');
      assert s == t + [s[|s| - 1]];
      p, q := p', q' + [s[|s| - 1]];
    } else {
      p, q := [], [];
      assert Strip(s) == s;
      assert s == p + s + q;
    }
  }

  lemma StripIdempotent(s: string)
    ensures Strip(Strip(s)) == Strip(s)
  {
    StripPadded([], Strip(s), []);
    assert [] + Strip(s) + [] == Strip(s);
  }

  // ---------------------------------------------------------------------
  // The judge
  // ---------------------------------------------------------------------

  datatype TestCase = TestCase(id: nat, stdin: string, expectedOutput: string)

  /** The body of one submit request. */
  datatype Submission = Submission(sourceCode: string, languageId: int, stdin: string)

  /** A text key of a JSON answer: absent, present with `null`, or present
      with a string. */
  datatype JsonText = Absent | Null | Text(text: string)

  /** `data.get(key, default)` on a text key: the default when the key is
      absent, Python's None (here `None`) for a `null`, the string otherwise. */
  function GetText(v: JsonText, default: string): Option<string> {
    match v
    case Absent => Some(default)
    case Null => None
    case Text(t) => Some(t)
  }

  /** The `status` object of a poll response; each key may be absent. */
  datatype JudgeStatus = JudgeStatus(id: Option<int>, description: JsonText)

  /** One poll response; every key may be absent, and the text keys the
      record copies may also be `null`. */
  datatype JudgeResponse = JudgeResponse(
    status: Option<JudgeStatus>,
    stdout: Option<string>,
    compileOutput: JsonText,
    stderr: JsonText,
    message: JsonText)

  /** The judge as an oracle. `tokenFor(k, s)` is the `token` key of the
      answer to the k-th submit request of a grading call (absent: None);
      `polls(t)` is the sequence of answers successive polls of token `t` get. */
  datatype Judge = Judge(
    tokenFor: (nat, Submission) -> Option<string>,
    polls: string -> seq<JudgeResponse>)

  /** `result_data.get("status", {}).get("id")`. */
  function StatusId(r: JudgeResponse): Option<int> {
    if r.status.Some? then r.status.value.id else None
  }

  /** Status ids 1 (queued) and 2 (processing) make the loop poll again. */
  predicate StillRunning(r: JudgeResponse) {
    StatusId(r) == Some(1) || StatusId(r) == Some(2)
  }

  /** `not token`: a missing token or an empty one. */
  predicate TokenMissing(token: Option<string>) {
    token.None? || token.value == ""
  }

  /** The index of the first response from position `i` on whose status is
      final, or `|rs|` when every one of them is still running. */
  function FirstFinalFrom(rs: seq<JudgeResponse>, i: nat): (k: nat)
    requires i <= |rs|
    ensures i <= k <= |rs|
    ensures forall j :: i <= j < k ==> StillRunning(rs[j])
    ensures k < |rs| ==> !StillRunning(rs[k])
    decreases |rs| - i
  {
    if i == |rs| || !StillRunning(rs[i]) then i else FirstFinalFrom(rs, i + 1)
  }

  /** The number of leading responses that are still running. */
  function FirstFinal(rs: seq<JudgeResponse>): nat {
    FirstFinalFrom(rs, 0)
  }

  /** Polls `token` until the judge reports a status other than 1 or 2.
      Yields None when the oracle's answers run out first: the source polls
      without bound, so that case stands for a loop that never ends. */
  method PollUntilDone(judge: Judge, token: string) returns (response: Option<JudgeResponse>, polls: nat)
    ensures var rs := judge.polls(token);
      && (response.Some? <==> FirstFinal(rs) < |rs|)
      && (response.Some? ==> response.value == rs[FirstFinal(rs)] && polls == FirstFinal(rs) + 1)
      && (response.None? ==> polls == |rs|)
  {
    var rs := judge.polls(token);
    var statusId: Option<int> := Some(1);
    polls := 0;
    while statusId == Some(1) || statusId == Some(2)
      invariant polls <= |rs|
      invariant forall j :: 0 <= j < polls - 1 ==> StillRunning(rs[j])
      invariant polls == 0 ==> statusId == Some(1)
      invariant polls > 0 ==> statusId == StatusId(rs[polls - 1])
      decreases |rs| - polls
    {
      if polls == |rs| {
        assert forall j :: 0 <= j < |rs| ==> StillRunning(rs[j]);
        FirstFinalAllRunning(rs, 0);
        return None, polls;
      }
      var data := rs[polls];
      polls := polls + 1;
      statusId := StatusId(data);
    }
    FirstFinalAt(rs, 0, polls - 1);
    response := Some(rs[polls - 1]);
  }

  lemma {:induction false} FirstFinalAllRunning(rs: seq<JudgeResponse>, i: nat)
    requires i <= |rs|
    requires forall j :: i <= j < |rs| ==> StillRunning(rs[j])
    ensures FirstFinalFrom(rs, i) == |rs|
    decreases |rs| - i
  {
    if i < |rs| {
      FirstFinalAllRunning(rs, i + 1);
    }
  }

  lemma {:induction false} FirstFinalAt(rs: seq<JudgeResponse>, i: nat, k: nat)
    requires i <= k < |rs| && !StillRunning(rs[k])
    requires forall j :: i <= j < k ==> StillRunning(rs[j])
    ensures FirstFinalFrom(rs, i) == k
    decreases k - i
  {
    if i < k {
      FirstFinalAt(rs, i + 1, k);
    }
  }

  // ---------------------------------------------------------------------
  // Results
  // ---------------------------------------------------------------------

  /** One entry of the `results` list. The four text fields copied from
      the judge hold `None` where the judge answered `null`. */
  datatype TestCaseResult = TestCaseResult(
    testCaseId: nat,
    input: string,
    expectedOutput: string,
    actualOutput: string,
    status: Option<string>,
    passed: bool,
    compileOutput: Option<string>,
    stderr: Option<string>,
    message: Option<string>)

  /** The result record built from a test case and the judge's final
      response: it carries the test case unchanged, the program's output
      ("" when the judge sent none), and passes exactly when the two outputs
      agree once stripped. */
  function Evaluate(tc: TestCase, r: JudgeResponse): (res: TestCaseResult)
    ensures res.testCaseId == tc.id && res.input == tc.stdin && res.expectedOutput == tc.expectedOutput
    ensures res.actualOutput == if r.stdout.Some? then r.stdout.value else ""
    ensures res.passed <==> Strip(res.actualOutput) == Strip(tc.expectedOutput)
  {
    var stdout := r.stdout.GetOr("");
    TestCaseResult(
      tc.id, tc.stdin, tc.expectedOutput, stdout,
      if r.status.Some? then GetText(r.status.value.description, "") else Some(""),
      Strip(stdout) == Strip(tc.expectedOutput),
      GetText(r.compileOutput, ""), GetText(r.stderr, ""), GetText(r.message, ""))
  }

  /** The judge's text keys reach the record as the judge sent them: an
      absent key (or an absent `status` object) becomes "", a `null` stays
      None, and a string is copied. */
  lemma EvaluateFields(tc: TestCase, r: JudgeResponse)
    ensures var res := Evaluate(tc, r);
      && (r.status.None? || r.status.value.description.Absent? ==> res.status == Some(""))
      && (r.status.Some? && r.status.value.description.Null? ==> res.status == None)
      && (r.status.Some? && r.status.value.description.Text? ==> res.status == Some(r.status.value.description.text))
      && (r.compileOutput.Absent? ==> res.compileOutput == Some(""))
      && (r.compileOutput.Null? ==> res.compileOutput == None)
      && (r.compileOutput.Text? ==> res.compileOutput == Some(r.compileOutput.text))
      && (r.stderr.Absent? ==> res.stderr == Some(""))
      && (r.stderr.Null? ==> res.stderr == None)
      && (r.stderr.Text? ==> res.stderr == Some(r.stderr.text))
      && (r.message.Absent? ==> res.message == Some(""))
      && (r.message.Null? ==> res.message == None)
      && (r.message.Text? ==> res.message == Some(r.message.text))
  {
  }

  /** A result passes exactly when the program printed the expected output
      with at most whitespace added or removed at either end. */
  lemma PassedIffSameCore(tc: TestCase, r: JudgeResponse, p: string, m: string, q: string)
    requires r.stdout.GetOr("") == p + m + q
    requires AllSpace(p) && AllSpace(q) && Core(m)
    ensures Evaluate(tc, r).passed <==> Strip(tc.expectedOutput) == m
  {
    StripPadded(p, m, q);
  }

  /** Expected "5\n", printed "5": the trailing newline does not matter. */
  lemma TrailingNewlineIgnored(r: JudgeResponse)
    requires r.stdout == Some("5")
    ensures Evaluate(TestCase(1, "", "5\n"), r).passed
  {
    StripPadded([], "5", "\n");
    StripPadded([], "5", []);
    assert "5\n" == [] + "5" + "\n";
    assert "5" == [] + "5" + [];
  }

  /** Expected "1 2", printed "1  2": internal whitespace is significant. */
  lemma InternalWhitespaceMatters(r: JudgeResponse)
    requires r.stdout == Some("1  2")
    ensures !Evaluate(TestCase(1, "", "1 2"), r).passed
  {
    StripPadded([], "1 2", []);
    StripPadded([], "1  2", []);
    assert "1 2" == [] + "1 2" + [];
    assert "1  2" == [] + "1  2" + [];
  }

  /** An absent stdout counts as "", which passes only an all-whitespace expectation. */
  lemma AbsentStdout(tc: TestCase, r: JudgeResponse)
    requires r.stdout.None?
    ensures Evaluate(tc, r).actualOutput == ""
    ensures Evaluate(tc, r).passed <==> AllSpace(tc.expectedOutput)
  {
    StripPadded([], [], []);
    assert [] + [] + [] == "";
    if AllSpace(tc.expectedOutput) {
      StripPadded(tc.expectedOutput, [], []);
      assert tc.expectedOutput + [] + [] == tc.expectedOutput;
    } else {
      var p, q := StripDecomposes(tc.expectedOutput);
    }
  }

  /** The number of passed results (counted the way the loop counts them). */
  function CountPassed(rs: seq<TestCaseResult>): (n: nat)
    ensures n <= |rs|
  {
    if rs == [] then 0
    else CountPassed(rs[..|rs| - 1]) + (if rs[|rs| - 1].passed then 1 else 0)
  }

  lemma CountPassedExtend(rs: seq<TestCaseResult>, r: TestCaseResult)
    ensures CountPassed(rs + [r]) == CountPassed(rs) + (if r.passed then 1 else 0)
  {
    assert (rs + [r])[..|rs|] == rs;
  }

  /** The count agrees with the number of positions whose result passed. */
  lemma {:induction false} CountPassedIsCardinality(rs: seq<TestCaseResult>)
    ensures CountPassed(rs) == |set i | 0 <= i < |rs| && rs[i].passed|
  {
    if rs != [] {
      var init := rs[..|rs| - 1];
      CountPassedIsCardinality(init);
      var before := set i | 0 <= i < |init| && init[i].passed;
      var after := set i | 0 <= i < |rs| && rs[i].passed;
      if rs[|rs| - 1].passed {
        assert after == before + {|rs| - 1};
      } else {
        assert after == before;
      }
    }
  }

  // ---------------------------------------------------------------------
  // The grading call
  // ---------------------------------------------------------------------

  /** What one test case's round trip with the judge ends in. */
  datatype Run = NoToken | Unfinished | Finished(response: JudgeResponse, polls: nat)

  /** Submits test case `tc` as the k-th submission and follows its token:
      no run without a usable token; otherwise the run finishes with a
      poll answer whose status is final, after polling up to it
      (`RunTestCasePolls` says which one), or stays unfinished. */
  function RunTestCase(judge: Judge, sourceCode: string, languageId: int, tc: TestCase, k: nat): (run: Run)
    ensures run.NoToken? <==> TokenMissing(judge.tokenFor(k, Submission(sourceCode, languageId, tc.stdin)))
    ensures run.Finished? ==>
      && 1 <= run.polls <= |judge.polls(judge.tokenFor(k, Submission(sourceCode, languageId, tc.stdin)).value)|
      && run.response == judge.polls(judge.tokenFor(k, Submission(sourceCode, languageId, tc.stdin)).value)[run.polls - 1]
      && !StillRunning(run.response)
  {
    var token := judge.tokenFor(k, Submission(sourceCode, languageId, tc.stdin));
    if TokenMissing(token) then NoToken
    else
      var rs := judge.polls(token.value);
      var n := FirstFinal(rs);
      if n < |rs| then Finished(rs[n], n + 1) else Unfinished
  }

  /** The answer a run finishes with is the first final one: every earlier
      answer was still running; a run stays unfinished exactly when every
      answer is still running. */
  lemma RunTestCasePolls(judge: Judge, sourceCode: string, languageId: int, tc: TestCase, k: nat)
    requires !TokenMissing(judge.tokenFor(k, Submission(sourceCode, languageId, tc.stdin)))
    ensures var rs := judge.polls(judge.tokenFor(k, Submission(sourceCode, languageId, tc.stdin)).value);
      && (RunTestCase(judge, sourceCode, languageId, tc, k).Finished? ==>
            forall j :: 0 <= j < RunTestCase(judge, sourceCode, languageId, tc, k).polls - 1 ==> StillRunning(rs[j]))
      && (RunTestCase(judge, sourceCode, languageId, tc, k).Unfinished? <==>
            forall j :: 0 <= j < |rs| ==> StillRunning(rs[j]))
  {
    var rs := judge.polls(judge.tokenFor(k, Submission(sourceCode, languageId, tc.stdin)).value);
    if forall j :: 0 <= j < |rs| ==> StillRunning(rs[j]) {
      FirstFinalAllRunning(rs, 0);
    }
  }

  /** What `submit_and_test_code` returns: 200 with the report, or 400 with
      an error; `PollsExhausted` stands for a poll loop that never ends. */
  datatype GradeOutcome =
    | Graded(results: seq<TestCaseResult>, passedCount: nat, totalCount: nat)
    | Failed(code: int, error: string)
    | PollsExhausted

  const TokenError: string := "Failed to get token"

  predicate FinishedUpTo(judge: Judge, sourceCode: string, languageId: int, tcs: seq<TestCase>, n: nat)
    requires n <= |tcs|
  {
    forall i :: 0 <= i < n ==> RunTestCase(judge, sourceCode, languageId, tcs[i], i).Finished?
  }

  /** `results` holds, position by position, the record built from each
      test case and the judge's final response to it. */
  predicate Reported(judge: Judge, sourceCode: string, languageId: int, tcs: seq<TestCase>, results: seq<TestCaseResult>)
    requires |results| <= |tcs|
  {
    forall i :: 0 <= i < |results| ==>
      && RunTestCase(judge, sourceCode, languageId, tcs[i], i).Finished?
      && results[i] == Evaluate(tcs[i], RunTestCase(judge, sourceCode, languageId, tcs[i], i).response)
  }

  lemma ReportedExtend(judge: Judge, sourceCode: string, languageId: int, tcs: seq<TestCase>,
                       results: seq<TestCaseResult>, response: JudgeResponse)
    requires |results| < |tcs|
    requires Reported(judge, sourceCode, languageId, tcs, results)
    requires RunTestCase(judge, sourceCode, languageId, tcs[|results|], |results|).Finished?
    requires RunTestCase(judge, sourceCode, languageId, tcs[|results|], |results|).response == response
    ensures Reported(judge, sourceCode, languageId, tcs, results + [Evaluate(tcs[|results|], response)])
  {
    var ext := results + [Evaluate(tcs[|results|], response)];
    forall i | 0 <= i < |ext|
      ensures RunTestCase(judge, sourceCode, languageId, tcs[i], i).Finished?
      ensures ext[i] == Evaluate(tcs[i], RunTestCase(judge, sourceCode, languageId, tcs[i], i).response)
    {
      if i < |results| {
        assert ext[i] == results[i];
      }
    }
  }

  /** How collecting the judge's final responses for a prefix of the test
      cases ends: all of them collected, or stopped by a missing token or by
      a poll loop that never ends. */
  datatype Collection = Collected(responses: seq<JudgeResponse>) | NoTokenStop | NeverFinalStop

  /** The final responses for the first `n` test cases, submitted in order;
      the first test case without a final response stops the collection. */
  function CollectPrefix(judge: Judge, sourceCode: string, languageId: int, tcs: seq<TestCase>, n: nat): (c: Collection)
    requires n <= |tcs|
    ensures c.Collected? ==> |c.responses| == n
  {
    if n == 0 then Collected([])
    else
      var c := CollectPrefix(judge, sourceCode, languageId, tcs, n - 1);
      var run := RunTestCase(judge, sourceCode, languageId, tcs[n - 1], n - 1);
      if !c.Collected? then c
      else if run.NoToken? then NoTokenStop
      else if run.Unfinished? then NeverFinalStop
      else Collected(c.responses + [run.response])
  }

  /** The records for the first |rs| test cases, paired with the responses. */
  function Results(tcs: seq<TestCase>, rs: seq<JudgeResponse>): (results: seq<TestCaseResult>)
    requires |rs| <= |tcs|
    ensures |results| == |rs|
  {
    if rs == [] then []
    else Results(tcs, rs[..|rs| - 1]) + [Evaluate(tcs[|rs| - 1], rs[|rs| - 1])]
  }

  /** Record i is the evaluation of test case i against response i. */
  lemma {:induction false} ResultsAt(tcs: seq<TestCase>, rs: seq<JudgeResponse>)
    requires |rs| <= |tcs|
    ensures |Results(tcs, rs)| == |rs|
    ensures forall i :: 0 <= i < |rs| ==> Results(tcs, rs)[i] == Evaluate(tcs[i], rs[i])
  {
    if rs != [] {
      var init := rs[..|rs| - 1];
      ResultsAt(tcs, init);
      forall i | 0 <= i < |rs|
        ensures Results(tcs, rs)[i] == Evaluate(tcs[i], rs[i])
      {
        if i < |init| {
          assert rs[i] == init[i];
        }
      }
    }
  }

  lemma ResultsExtend(tcs: seq<TestCase>, rs: seq<JudgeResponse>, r: JudgeResponse)
    requires |rs| < |tcs|
    ensures Results(tcs, rs + [r]) == Results(tcs, rs) + [Evaluate(tcs[|rs|], r)]
  {
    assert (rs + [r])[..|rs|] == rs;
  }

  /** Collection succeeds exactly when every test case of the prefix reached a
      final status, and then holds, in order, each one's final response. */
  lemma {:induction false} CollectPrefixReport(judge: Judge, sourceCode: string, languageId: int, tcs: seq<TestCase>, n: nat)
    requires n <= |tcs|
    ensures var c := CollectPrefix(judge, sourceCode, languageId, tcs, n);
      && (c.Collected? <==> FinishedUpTo(judge, sourceCode, languageId, tcs, n))
      && (c.Collected? ==>
            && |c.responses| == n
            && forall i :: 0 <= i < n ==>
                 c.responses[i] == RunTestCase(judge, sourceCode, languageId, tcs[i], i).response)
  {
    if n > 0 {
      CollectPrefixReport(judge, sourceCode, languageId, tcs, n - 1);
      FinishedUpToStep(judge, sourceCode, languageId, tcs, n);
      var c := CollectPrefix(judge, sourceCode, languageId, tcs, n - 1);
      if c.Collected? {
        var run := RunTestCase(judge, sourceCode, languageId, tcs[n - 1], n - 1);
        if run.Finished? {
          var ext := c.responses + [run.response];
          forall i | 0 <= i < n
            ensures ext[i] == RunTestCase(judge, sourceCode, languageId, tcs[i], i).response
          {
            if i < n - 1 {
              assert ext[i] == c.responses[i];
            }
          }
        }
      }
    }
  }

  lemma FinishedUpToStep(judge: Judge, sourceCode: string, languageId: int, tcs: seq<TestCase>, n: nat)
    requires 0 < n <= |tcs|
    ensures FinishedUpTo(judge, sourceCode, languageId, tcs, n) <==>
      FinishedUpTo(judge, sourceCode, languageId, tcs, n - 1) &&
      RunTestCase(judge, sourceCode, languageId, tcs[n - 1], n - 1).Finished?
  {
  }

  /** Once a collection has stopped, every longer prefix stops the same way. */
  lemma {:induction false} CollectStops(judge: Judge, sourceCode: string, languageId: int, tcs: seq<TestCase>, k: nat, m: nat)
    requires k < m <= |tcs|
    requires CollectPrefix(judge, sourceCode, languageId, tcs, k).Collected?
    requires !RunTestCase(judge, sourceCode, languageId, tcs[k], k).Finished?
    ensures CollectPrefix(judge, sourceCode, languageId, tcs, m) ==
      if RunTestCase(judge, sourceCode, languageId, tcs[k], k).NoToken? then NoTokenStop else NeverFinalStop
    decreases m
  {
    if m > k + 1 {
      CollectStops(judge, sourceCode, languageId, tcs, k, m - 1);
    }
  }

  /** The outcome of grading all test cases: the report of the evaluated
      responses, or the token error, or a poll loop that never ends. */
  function Grade(judge: Judge, sourceCode: string, languageId: int, tcs: seq<TestCase>): (g: GradeOutcome)
    ensures g.Graded? ==> g.totalCount == |tcs| == |g.results| && g.passedCount <= g.totalCount
    ensures g.Failed? ==> g == Failed(400, TokenError)
  {
    match CollectPrefix(judge, sourceCode, languageId, tcs, |tcs|)
    case Collected(rs) =>
      var results := Results(tcs, rs);
      Graded(results, CountPassed(results), |tcs|)
    case NoTokenStop => Failed(400, TokenError)
    case NeverFinalStop => PollsExhausted
  }

  /** What grading produces: a full report exactly when every test case
      reached a final status, with one record per test case in input order,
      the passes counted, and the count bounded by the total; otherwise the
      token error or the endless poll. */
  lemma GradeReport(judge: Judge, sourceCode: string, languageId: int, tcs: seq<TestCase>)
    ensures var g := Grade(judge, sourceCode, languageId, tcs);
      && (g.Graded? <==> FinishedUpTo(judge, sourceCode, languageId, tcs, |tcs|))
      && (g.Graded? ==>
            && g.totalCount == |tcs| == |g.results|
            && Reported(judge, sourceCode, languageId, tcs, g.results)
            && 0 <= g.passedCount <= g.totalCount
            && g.passedCount == |set i | 0 <= i < |g.results| && g.results[i].passed|)
      && (g.Failed? ==> g == Failed(400, TokenError))
  {
    CollectPrefixReport(judge, sourceCode, languageId, tcs, |tcs|);
    var c := CollectPrefix(judge, sourceCode, languageId, tcs, |tcs|);
    if c.Collected? {
      ResultsAt(tcs, c.responses);
      CountPassedIsCardinality(Results(tcs, c.responses));
    }
  }

  /** Grading stopped at the n-th test case: the ones before it reached a
      final status, and the n-th did not. */
  predicate HaltedAt(judge: Judge, sourceCode: string, languageId: int, tcs: seq<TestCase>, n: nat) {
    && 0 < n <= |tcs|
    && FinishedUpTo(judge, sourceCode, languageId, tcs, n - 1)
    && !RunTestCase(judge, sourceCode, languageId, tcs[n - 1], n - 1).Finished?
  }

  /** `submit_and_test_code`: submits the test cases one at a time, in order,
      follows each token until a final status, and builds the report; the
      first missing token ends it with the 400 answer. */
  method SubmitAndTestCode(judge: Judge, sourceCode: string, languageId: int, testCases: seq<TestCase>)
    returns (outcome: GradeOutcome, submitted: seq<Submission>)
    ensures outcome == Grade(judge, sourceCode, languageId, testCases)
    ensures InOrder(sourceCode, languageId, testCases, submitted)
    ensures outcome.Graded? ==> |submitted| == |testCases|
    ensures !outcome.Graded? ==> HaltedAt(judge, sourceCode, languageId, testCases, |submitted|)
  {
    var results: seq<TestCaseResult> := [];
    var passedCount: nat := 0;
    ghost var responses: seq<JudgeResponse> := [];
    submitted := [];
    var i := 0;
    while i < |testCases|
      invariant 0 <= i <= |testCases|
      invariant CollectPrefix(judge, sourceCode, languageId, testCases, i) == Collected(responses)
      invariant results == Results(testCases, responses)
      invariant passedCount == CountPassed(results)
      invariant |submitted| == i
      invariant InOrder(sourceCode, languageId, testCases, submitted)
    {
      var testCase := testCases[i];
      var submission := Submission(sourceCode, languageId, testCase.stdin);
      SubmittedExtend(sourceCode, languageId, testCases, submitted);
      submitted := submitted + [submission];
      var token := judge.tokenFor(i, submission);
      if token.None? || token.value == "" {
        outcome := Failed(400, TokenError);
        NoTokenStep(judge, sourceCode, languageId, testCases, i);
        return;
      }
      var response, polls := PollUntilDone(judge, token.value);
      if response.None? {
        outcome := PollsExhausted;
        NeverFinalStep(judge, sourceCode, languageId, testCases, i, token.value);
        return;
      }
      FinishedStep(judge, sourceCode, languageId, testCases, i, token.value, responses, response.value);
      var result := Evaluate(testCase, response.value);
      if result.passed {
        passedCount := passedCount + 1;
      }
      CountPassedExtend(results, result);
      results := results + [result];
      responses := responses + [response.value];
      i := i + 1;
    }
    outcome := Graded(results, passedCount, |testCases|);
  }

  /** The submit requests sent so far are one per test case, in test-case
      order, each carrying the code, the language and that case's input. */
  predicate InOrder(sourceCode: string, languageId: int, tcs: seq<TestCase>, submitted: seq<Submission>) {
    && |submitted| <= |tcs|
    && forall j :: 0 <= j < |submitted| ==>
         submitted[j] == Submission(sourceCode, languageId, tcs[j].stdin)
  }

  /** One more submit request, for the next test case, keeps the list of
      requests in test-case order. */
  lemma SubmittedExtend(sourceCode: string, languageId: int, tcs: seq<TestCase>, submitted: seq<Submission>)
    requires |submitted| < |tcs| && InOrder(sourceCode, languageId, tcs, submitted)
    ensures InOrder(sourceCode, languageId, tcs, submitted + [Submission(sourceCode, languageId, tcs[|submitted|].stdin)])
  {
  }

  /** A missing token for the k-th test case, after k collected responses,
      decides the outcome: the 400 answer. */
  lemma NoTokenStep(judge: Judge, sourceCode: string, languageId: int, tcs: seq<TestCase>, k: nat)
    requires k < |tcs|
    requires CollectPrefix(judge, sourceCode, languageId, tcs, k).Collected?
    requires TokenMissing(judge.tokenFor(k, Submission(sourceCode, languageId, tcs[k].stdin)))
    ensures Grade(judge, sourceCode, languageId, tcs) == Failed(400, TokenError)
    ensures HaltedAt(judge, sourceCode, languageId, tcs, k + 1)
  {
    StoppedAt(judge, sourceCode, languageId, tcs, k);
  }

  /** A token whose polls never reach a final status decides the outcome. */
  lemma NeverFinalStep(judge: Judge, sourceCode: string, languageId: int, tcs: seq<TestCase>, k: nat, token: string)
    requires k < |tcs|
    requires CollectPrefix(judge, sourceCode, languageId, tcs, k).Collected?
    requires judge.tokenFor(k, Submission(sourceCode, languageId, tcs[k].stdin)) == Some(token) && token != ""
    requires FirstFinal(judge.polls(token)) >= |judge.polls(token)|
    ensures Grade(judge, sourceCode, languageId, tcs) == PollsExhausted
    ensures HaltedAt(judge, sourceCode, languageId, tcs, k + 1)
  {
    StoppedAt(judge, sourceCode, languageId, tcs, k);
  }

  /** A final response for the k-th test case extends the collected responses
      and the records by one. */
  lemma FinishedStep(judge: Judge, sourceCode: string, languageId: int, tcs: seq<TestCase>, k: nat, token: string,
                     responses: seq<JudgeResponse>, response: JudgeResponse)
    requires k < |tcs|
    requires CollectPrefix(judge, sourceCode, languageId, tcs, k) == Collected(responses)
    requires judge.tokenFor(k, Submission(sourceCode, languageId, tcs[k].stdin)) == Some(token) && token != ""
    requires FirstFinal(judge.polls(token)) < |judge.polls(token)|
    requires response == judge.polls(token)[FirstFinal(judge.polls(token))]
    ensures CollectPrefix(judge, sourceCode, languageId, tcs, k + 1) == Collected(responses + [response])
    ensures Results(tcs, responses + [response]) == Results(tcs, responses) + [Evaluate(tcs[k], response)]
  {
    ResultsExtend(tcs, responses, response);
  }

  /** A test case without a final response decides the whole outcome, and
      every test case before it had one. */
  lemma StoppedAt(judge: Judge, sourceCode: string, languageId: int, tcs: seq<TestCase>, k: nat)
    requires k < |tcs|
    requires CollectPrefix(judge, sourceCode, languageId, tcs, k).Collected?
    requires !RunTestCase(judge, sourceCode, languageId, tcs[k], k).Finished?
    ensures Grade(judge, sourceCode, languageId, tcs) ==
      if RunTestCase(judge, sourceCode, languageId, tcs[k], k).NoToken? then Failed(400, TokenError) else PollsExhausted
    ensures FinishedUpTo(judge, sourceCode, languageId, tcs, k)
  {
    CollectStops(judge, sourceCode, languageId, tcs, k, |tcs|);
    CollectPrefixReport(judge, sourceCode, languageId, tcs, k);
  }
}
