/** packages/core/integrations/CircleCIClient.ts, the parts that compute
    rather than fetch: the overall status of a pipeline and the status counts
    of its workflows and jobs, the pipeline summary, the reading of test
    results and of a failed step's log, and `parseTestInfo`. Every HTTP
    response is a parameter. */
module CircleCI {
  import opened Wrappers
  import opened JsString
  import opened TestFailureModel

  const Failed: string := "failed"
  const Running: string := "running"
  const Succeeded: string := "success"
  const Unknown: string := "unknown"

  // ---------------------------------------------------------------------
  // Statuses and summaries
  // ---------------------------------------------------------------------

  /** `items.filter(w => w.status === status).length`. */
  function CountStatus(statuses: seq<string>, status: string): (n: nat)
    ensures n <= |statuses|
    ensures n == 0 <==> status !in statuses
    ensures n == |statuses| <==> forall i :: 0 <= i < |statuses| ==> statuses[i] == status
  {
    if statuses == [] then 0
    else
      assert statuses == [statuses[0]] + statuses[1..];
      (if statuses[0] == status then 1 else 0) + CountStatus(statuses[1..], status)
  }

  /** Three different statuses never count more items than there are. */
  lemma {:induction false} CountsFit(statuses: seq<string>, a: string, b: string, c: string)
    requires a != b && b != c && a != c
    ensures CountStatus(statuses, a) + CountStatus(statuses, b) + CountStatus(statuses, c) <= |statuses|
  {
    if statuses != [] {
      CountsFit(statuses[1..], a, b, c);
    }
  }

  /** The status rule of `getRecentPipelines` and `getPipelineDetails`:
      any failure wins, then anything running; a non-empty list of successes
      is a success; everything else (an empty list included) is unknown. */
  function OverallStatus(statuses: seq<string>): (r: string)
    ensures r == Failed <==> Failed in statuses
    ensures r == Running <==> Failed !in statuses && Running in statuses
    ensures r == Succeeded <==> |statuses| > 0 && forall i :: 0 <= i < |statuses| ==> statuses[i] == Succeeded
    ensures r == Unknown <==> r != Failed && r != Running && r != Succeeded
    ensures statuses == [] ==> r == Unknown
  {
    if Failed in statuses then Failed
    else if Running in statuses then Running
    else if |statuses| > 0 && forall i :: 0 <= i < |statuses| ==> statuses[i] == Succeeded then Succeeded
    else Unknown
  }

  /** `workflowSummary` / `summary`: how many items there are, and how many
      have each of the three statuses. */
  datatype StatusSummary = StatusSummary(total: nat, failed: nat, success: nat, running: nat)

  function Summarize(statuses: seq<string>): (s: StatusSummary)
    ensures s.total == |statuses|
    ensures s.failed == CountStatus(statuses, Failed)
    ensures s.success == CountStatus(statuses, Succeeded)
    ensures s.running == CountStatus(statuses, Running)
    ensures s.failed + s.success + s.running <= s.total
  {
    CountsFit(statuses, Failed, Succeeded, Running);
    StatusSummary(|statuses|, CountStatus(statuses, Failed), CountStatus(statuses, Succeeded),
                  CountStatus(statuses, Running))
  }

  /** The overall status can be read off the summary alone. */
  lemma StatusFromSummary(statuses: seq<string>)
    ensures var s := Summarize(statuses);
      OverallStatus(statuses) ==
        if s.failed > 0 then Failed
        else if s.running > 0 then Running
        else if s.total > 0 && s.success == s.total then Succeeded
        else Unknown
  {
  }

  /** The status and summary `getRecentPipelines` attaches to a pipeline:
      from its workflows' statuses, or "unknown" and zero counts when they
      could not be fetched. */
  function PipelineStatus(workflows: Result<seq<string>, string>): (r: (string, StatusSummary))
    ensures workflows.Success? ==> r == (OverallStatus(workflows.value), Summarize(workflows.value))
    ensures workflows.Failure? ==> r == (Unknown, StatusSummary(0, 0, 0, 0))
  {
    match workflows
    case Success(statuses) => (OverallStatus(statuses), Summarize(statuses))
    case Failure(_) => (Unknown, StatusSummary(0, 0, 0, 0))
  }

  // ---------------------------------------------------------------------
  // `getPipelineDetails`
  // ---------------------------------------------------------------------

  /** The fields of a job the client reads. */
  datatype Job = Job(id: string, name: string, jobNumber: int, startedAt: string, status: string)

  /** A workflow as fetched, with its jobs. */
  datatype Workflow = Workflow(id: string, name: string, status: string, jobs: seq<Job>)

  /** A failed job as listed in the pipeline's `failedJobs`. */
  datatype FailedJobRef = FailedJobRef(id: string, name: string, jobNumber: int, startedAt: string, buildNumber: int)

  datatype WorkflowDetails = WorkflowDetails(workflow: Workflow, summary: StatusSummary, failedJobs: seq<Job>)

  datatype PipelineSummary = PipelineSummary(totalWorkflows: nat, totalJobs: nat, failedJobs: nat)

  datatype PipelineDetails = PipelineDetails(
    status: string, workflows: seq<WorkflowDetails>, summary: PipelineSummary, failedJobs: seq<FailedJobRef>)

  function JobStatuses(jobs: seq<Job>): (r: seq<string>)
    ensures |r| == |jobs| && forall i :: 0 <= i < |jobs| ==> r[i] == jobs[i].status
  {
    seq(|jobs|, i requires 0 <= i < |jobs| => jobs[i].status)
  }

  /** `jobs.filter(j => j.status === 'failed')`, in order. */
  function FailedJobs(jobs: seq<Job>): (r: seq<Job>)
    ensures |r| == CountStatus(JobStatuses(jobs), Failed)
    ensures forall j :: j in r <==> j in jobs && j.status == Failed
  {
    if jobs == [] then []
    else
      assert JobStatuses(jobs)[1..] == JobStatuses(jobs[1..]);
      assert jobs == [jobs[0]] + jobs[1..];
      (if jobs[0].status == Failed then [jobs[0]] else []) + FailedJobs(jobs[1..])
  }

  /** The failed jobs keep the jobs' order: those of a concatenation are
      those of each part, one after the other, and a single job is kept
      exactly when it failed. */
  lemma {:induction false} FailedJobsAppend(a: seq<Job>, b: seq<Job>)
    ensures FailedJobs(a + b) == FailedJobs(a) + FailedJobs(b)
    ensures forall j :: FailedJobs([j]) == if j.status == Failed then [j] else []
  {
    if a == [] {
      assert a + b == b;
    } else {
      var head := if a[0].status == Failed then [a[0]] else [];
      calc {
        FailedJobs(a + b);
      ==  { assert (a + b)[0] == a[0] && (a + b)[1..] == a[1..] + b; }
        head + FailedJobs(a[1..] + b);
      ==  { FailedJobsAppend(a[1..], b); }
        head + (FailedJobs(a[1..]) + FailedJobs(b));
      ==
        FailedJobs(a) + FailedJobs(b);
      }
    }
    forall j ensures FailedJobs([j]) == if j.status == Failed then [j] else [] {
      assert [j][1..] == [];
    }
  }

  /** One workflow's entry in `getPipelineDetails`. */
  function DescribeWorkflow(w: Workflow): (d: WorkflowDetails)
    ensures d.workflow == w
    ensures d.summary == Summarize(JobStatuses(w.jobs))
    ensures |d.failedJobs| == d.summary.failed
    ensures forall j :: j in d.failedJobs <==> j in w.jobs && j.status == Failed
    ensures d.failedJobs == FailedJobs(w.jobs)
  {
    WorkflowDetails(w, Summarize(JobStatuses(w.jobs)), FailedJobs(w.jobs))
  }

  function DescribeWorkflows(ws: seq<Workflow>): (ds: seq<WorkflowDetails>)
    ensures |ds| == |ws| && forall i :: 0 <= i < |ws| ==> ds[i] == DescribeWorkflow(ws[i])
  {
    seq(|ws|, i requires 0 <= i < |ws| => DescribeWorkflow(ws[i]))
  }

  function WorkflowStatuses(ds: seq<WorkflowDetails>): (r: seq<string>)
    ensures |r| == |ds| && forall i :: 0 <= i < |ds| ==> r[i] == ds[i].workflow.status
  {
    seq(|ds|, i requires 0 <= i < |ds| => ds[i].workflow.status)
  }

  function FailedRef(j: Job, pipelineNumber: int): FailedJobRef {
    FailedJobRef(j.id, j.name, j.jobNumber, j.startedAt, pipelineNumber)
  }

  /** `flatMap(w => w.failedJobs)` with the pipeline number added to each. */
  function AllFailedJobs(ds: seq<WorkflowDetails>, pipelineNumber: int): (r: seq<FailedJobRef>)
    ensures forall k :: 0 <= k < |r| ==> r[k].buildNumber == pipelineNumber
  {
    if ds == [] then [] else RefsOf(ds[0].failedJobs, pipelineNumber) + AllFailedJobs(ds[1..], pipelineNumber)
  }

  /** The pipeline's failed jobs keep the workflows' order: those of a
      concatenation are those of each part, one after the other, and one
      workflow contributes its own failed jobs. */
  lemma {:induction false} AllFailedJobsAppend(a: seq<WorkflowDetails>, b: seq<WorkflowDetails>, pipelineNumber: int)
    ensures AllFailedJobs(a + b, pipelineNumber) == AllFailedJobs(a, pipelineNumber) + AllFailedJobs(b, pipelineNumber)
    ensures forall d :: AllFailedJobs([d], pipelineNumber) == RefsOf(d.failedJobs, pipelineNumber)
  {
    if a == [] {
      assert a + b == b;
    } else {
      assert (a + b)[1..] == a[1..] + b;
      AllFailedJobsAppend(a[1..], b, pipelineNumber);
    }
    forall d ensures AllFailedJobs([d], pipelineNumber) == RefsOf(d.failedJobs, pipelineNumber) {
      assert [d][1..] == [];
    }
  }

  /** A reference is in the pipeline's list exactly when it comes from a
      failed job of one of its workflows. */
  lemma {:induction false} InAllFailedJobs(ds: seq<WorkflowDetails>, pipelineNumber: int, x: FailedJobRef)
    ensures x in AllFailedJobs(ds, pipelineNumber) <==>
      exists i :: 0 <= i < |ds| && x in RefsOf(ds[i].failedJobs, pipelineNumber)
  {
    if ds != [] {
      InAllFailedJobs(ds[1..], pipelineNumber, x);
      assert forall i :: 1 <= i < |ds| ==> ds[i] == ds[1..][i - 1];
      if exists i :: 0 <= i < |ds| && x in RefsOf(ds[i].failedJobs, pipelineNumber) {
        var i :| 0 <= i < |ds| && x in RefsOf(ds[i].failedJobs, pipelineNumber);
        if i > 0 {
          assert x in RefsOf(ds[1..][i - 1].failedJobs, pipelineNumber);
        }
      }
    }
  }

  function RefsOf(jobs: seq<Job>, pipelineNumber: int): (r: seq<FailedJobRef>)
    ensures |r| == |jobs| && forall i :: 0 <= i < |jobs| ==> r[i] == FailedRef(jobs[i], pipelineNumber)
  {
    seq(|jobs|, i requires 0 <= i < |jobs| => FailedRef(jobs[i], pipelineNumber))
  }

  /** `workflows.reduce((sum, w) => sum + w.summary.total, 0)`. */
  function TotalJobs(ds: seq<WorkflowDetails>): nat {
    if ds == [] then 0 else ds[0].summary.total + TotalJobs(ds[1..])
  }

  /** The sum of the per-workflow failed counts. */
  function FailedCount(ds: seq<WorkflowDetails>): nat {
    if ds == [] then 0 else ds[0].summary.failed + FailedCount(ds[1..])
  }

  /** `getPipelineDetails`, from the fetched workflows and their jobs. */
  function DescribePipeline(ws: seq<Workflow>, pipelineNumber: int): (p: PipelineDetails)
    ensures |p.workflows| == |ws| && p.summary.totalWorkflows == |ws|
    ensures p.status == OverallStatus(WorkflowStatuses(p.workflows))
    ensures p.summary.failedJobs == |p.failedJobs|
    ensures forall k :: 0 <= k < |p.failedJobs| ==> p.failedJobs[k].buildNumber == pipelineNumber
    ensures forall i :: 0 <= i < |ws| ==> p.workflows[i] == DescribeWorkflow(ws[i])
    ensures p.failedJobs == AllFailedJobs(p.workflows, pipelineNumber)
  {
    var ds := DescribeWorkflows(ws);
    var failed := AllFailedJobs(ds, pipelineNumber);
    PipelineDetails(OverallStatus(WorkflowStatuses(ds)), ds,
                    PipelineSummary(|ds|, TotalJobs(ds), |failed|), failed)
  }

  /** The pipeline's failed-job count is the sum of its workflows' failed
      counts, and never exceeds its job count. */
  lemma {:induction false} FailedJobsAddUp(ds: seq<WorkflowDetails>, pipelineNumber: int)
    requires forall i :: 0 <= i < |ds| ==> |ds[i].failedJobs| == ds[i].summary.failed
    requires forall i :: 0 <= i < |ds| ==> ds[i].summary.failed <= ds[i].summary.total
    ensures |AllFailedJobs(ds, pipelineNumber)| == FailedCount(ds)
    ensures FailedCount(ds) <= TotalJobs(ds)
  {
    if ds != [] {
      FailedJobsAddUp(ds[1..], pipelineNumber);
    }
  }

  /** The summary of `getPipelineDetails`: the failed jobs add up over the
      workflows and never exceed the jobs. */
  lemma PipelineSummaryAddsUp(ws: seq<Workflow>, pipelineNumber: int)
    ensures var p := DescribePipeline(ws, pipelineNumber);
      p.summary.failedJobs == FailedCount(p.workflows) &&
      p.summary.totalJobs == TotalJobs(p.workflows) &&
      p.summary.failedJobs <= p.summary.totalJobs
  {
    var ds := DescribeWorkflows(ws);
    forall i | 0 <= i < |ds|
      ensures |ds[i].failedJobs| == ds[i].summary.failed && ds[i].summary.failed <= ds[i].summary.total
    {
      assert ds[i] == DescribeWorkflow(ws[i]);
    }
    FailedJobsAddUp(ds, pipelineNumber);
  }

  /** Every failed job of every workflow, and nothing else, is listed in the
      pipeline's `failedJobs`, tagged with the pipeline number. */
  lemma PipelineFailedJobs(ws: seq<Workflow>, pipelineNumber: int, x: FailedJobRef)
    ensures x in DescribePipeline(ws, pipelineNumber).failedJobs <==>
      exists i, j :: 0 <= i < |ws| && j in ws[i].jobs && j.status == Failed && x == FailedRef(j, pipelineNumber)
  {
    var ds := DescribePipeline(ws, pipelineNumber).workflows;
    InAllFailedJobs(ds, pipelineNumber, x);
    forall i | 0 <= i < |ws|
      ensures x in RefsOf(ds[i].failedJobs, pipelineNumber) <==>
        exists j :: j in ws[i].jobs && j.status == Failed && x == FailedRef(j, pipelineNumber)
    {
      WorkflowRefs(ws[i], pipelineNumber, x);
    }
  }

  /** A reference comes from one workflow's failed jobs exactly when it is
      built from one of its jobs that failed. */
  lemma WorkflowRefs(w: Workflow, pipelineNumber: int, x: FailedJobRef)
    ensures x in RefsOf(DescribeWorkflow(w).failedJobs, pipelineNumber) <==>
      exists j :: j in w.jobs && j.status == Failed && x == FailedRef(j, pipelineNumber)
  {
    var jobs := DescribeWorkflow(w).failedJobs;
    var r := RefsOf(jobs, pipelineNumber);
    if x in r {
      var k :| 0 <= k < |r| && r[k] == x;
      assert jobs[k] in jobs;
    }
    if exists j :: j in w.jobs && j.status == Failed && x == FailedRef(j, pipelineNumber) {
      var j :| j in w.jobs && j.status == Failed && x == FailedRef(j, pipelineNumber);
      var k :| 0 <= k < |jobs| && jobs[k] == j;
      assert r[k] == x;
    }
  }

  // ---------------------------------------------------------------------
  // `parseTestResults`
  // ---------------------------------------------------------------------

  /** A test-metadata item; a field that is absent is None. */
  datatype TestItem = TestItem(
    name: string, file: Option<string>, classname: Option<string>, result: string,
    message: Option<string>, runTime: Option<nat>)

  const RuntimePrefix: string := "Runtime: "

  /** The failure one failing item becomes; the caller fills in job, build
      and commit later, and `now` is the moment of parsing. */
  function ItemToFailure(item: TestItem, now: Timestamp): (f: TestFailure)
    ensures f.testName == item.name
    ensures f.testFile == if Truthy(item.file) then item.file.value else item.classname.GetOr("")
    ensures f.errorMessage == item.message.GetOr("")
    ensures f.stackTrace == [] <==> item.runTime.None? || item.runTime == Some(0)
    ensures item.runTime.Some? && item.runTime.value != 0 ==>
      f.stackTrace == RuntimePrefix + NatToString(item.runTime.value) + "ms"
    ensures f.jobId == "" && f.buildNumber == 0 && f.commitSha == "" && f.runner == Jest
    ensures f.branch.None? && f.timestamp == now
  {
    TestFailure(
      item.name,
      if Truthy(item.file) then item.file.value else item.classname.GetOr(""),
      item.message.GetOr(""),
      if item.runTime.Some? && item.runTime.value != 0 then RuntimePrefix + NatToString(item.runTime.value) + "ms" else "",
      "", 0, "", None, now, Jest)
  }

  /** `parseTestResults`: one failure per item whose result is "failure",
      in order. */
  function ParseTestResults(items: seq<TestItem>, now: Timestamp): (r: seq<TestFailure>)
    ensures |r| <= |items|
    ensures forall i :: 0 <= i < |items| && items[i].result == "failure" ==> ItemToFailure(items[i], now) in r
    ensures forall f :: f in r ==> exists i :: 0 <= i < |items| && items[i].result == "failure" && f == ItemToFailure(items[i], now)
    ensures forall f :: f in r ==> f.jobId == "" && f.buildNumber == 0 && f.commitSha == ""
  {
    if items == [] then []
    else
      var head := if items[0].result == "failure" then [ItemToFailure(items[0], now)] else [];
      var rest := ParseTestResults(items[1..], now);
      assert forall i :: 1 <= i < |items| ==> items[i] == items[1..][i - 1];
      head + rest
  }

  /** Parsing respects the order of the items: the failures of a
      concatenation are the failures of each part, one after the other. */
  lemma {:induction false} ParseTestResultsAppend(a: seq<TestItem>, b: seq<TestItem>, now: Timestamp)
    ensures ParseTestResults(a + b, now) == ParseTestResults(a, now) + ParseTestResults(b, now)
  {
    if a != [] {
      assert (a + b)[1..] == a[1..] + b;
      ParseTestResultsAppend(a[1..], b, now);
    } else {
      assert a + b == b;
    }
  }

  // ---------------------------------------------------------------------
  // The log of a failed step (the tail of `getPipelineErrorMessages`)
  // ---------------------------------------------------------------------

  /** The shapes the fetched log can take: an array of entries (each with
      its `message` field, None when absent), a string, an object with a
      `message` (already rendered by `String`), or anything else. */
  datatype LogOutput = Entries(messages: seq<Option<string>>) | Text(text: string) | Record(message: string) | Other

  const Unparsable: string := "Unable to parse error output"

  /** `map(item => item.message || '').filter(msg => msg.length > 0)`. */
  function NonEmptyMessages(messages: seq<Option<string>>): (r: seq<string>)
    ensures |r| <= |messages|
    ensures forall i :: 0 <= i < |r| ==> r[i] != []
    ensures forall i :: 0 <= i < |messages| && Truthy(messages[i]) ==> messages[i].value in r
    ensures forall x :: x in r <==> exists i :: 0 <= i < |messages| && Truthy(messages[i]) && messages[i].value == x
  {
    if messages == [] then []
    else
      assert forall i :: 1 <= i < |messages| ==> messages[i] == messages[1..][i - 1];
      (if Truthy(messages[0]) then [messages[0].value] else []) + NonEmptyMessages(messages[1..])
  }

  /** The messages keep the log's order: those of a concatenation are those
      of each part, one after the other, and one entry contributes its
      message exactly when it is non-empty. */
  lemma {:induction false} NonEmptyMessagesAppend(a: seq<Option<string>>, b: seq<Option<string>>)
    ensures NonEmptyMessages(a + b) == NonEmptyMessages(a) + NonEmptyMessages(b)
    ensures forall m :: NonEmptyMessages([m]) == if Truthy(m) then [m.value] else []
  {
    if a != [] {
      var head := if Truthy(a[0]) then [a[0].value] else [];
      calc {
        NonEmptyMessages(a + b);
      ==  { assert (a + b)[0] == a[0] && (a + b)[1..] == a[1..] + b; }
        head + NonEmptyMessages(a[1..] + b);
      ==  { NonEmptyMessagesAppend(a[1..], b); }
        head + (NonEmptyMessages(a[1..]) + NonEmptyMessages(b));
      ==
        NonEmptyMessages(a) + NonEmptyMessages(b);
      }
    } else {
      assert a + b == b;
    }
    forall m ensures NonEmptyMessages([m]) == if Truthy(m) then [m.value] else [] {
      assert [m][1..] == [];
    }
  }

  function NormalizeOutput(output: LogOutput): (s: string)
    ensures output.Entries? ==> s == Join(NonEmptyMessages(output.messages), "\n")
    ensures output.Text? ==> s == output.text
    ensures output.Record? ==> s == output.message
    ensures output.Other? ==> s == Unparsable
  {
    match output
    case Entries(messages) => Join(NonEmptyMessages(messages), "\n")
    case Text(text) => text
    case Record(message) => message
    case Other => Unparsable
  }

  /** Joining parts without the separator and splitting again gives the
      parts back. */
  lemma {:induction false} SplitJoin(parts: seq<string>, sep: char)
    requires parts != []
    requires forall i :: 0 <= i < |parts| ==> sep !in parts[i]
    ensures Split(Join(parts, [sep]), sep) == parts
  {
    if |parts| == 1 {
      IndexOfCharAbsent(parts[0], sep);
    } else {
      var rest := Join(parts[1..], [sep]);
      JoinCons(parts[0], parts[1..], [sep]);
      assert [parts[0]] + parts[1..] == parts;
      SplitFirst(parts[0], sep, rest);
      SplitJoin(parts[1..], sep);
    }
  }

  /** Splitting a separator-free piece, the separator and a rest. */
  lemma SplitFirst(p: string, sep: char, rest: string)
    requires sep !in p
    ensures Split(p + [sep] + rest, sep) == [p] + Split(rest, sep)
  {
    var s := p + [sep] + rest;
    IndexOfCharAfter(p, sep, rest);
    assert s[..|p|] == p;
    assert s[|p| + 1..] == rest;
  }

  lemma {:induction false} IndexOfCharAbsent(s: string, c: char)
    requires c !in s
    ensures IndexOfChar(s, c) == |s|
  {
    if s != [] {
      assert c !in s[1..] by {
        assert forall x :: x in s[1..] ==> x in s;
      }
      IndexOfCharAbsent(s[1..], c);
    }
  }

  lemma {:induction false} IndexOfCharAfter(s: string, c: char, rest: string)
    requires c !in s
    ensures IndexOfChar(s + [c] + rest, c) == |s|
  {
    if s != [] {
      assert (s + [c] + rest)[1..] == s[1..] + [c] + rest;
      assert c !in s[1..] by {
        assert forall x :: x in s[1..] ==> x in s;
      }
      IndexOfCharAfter(s[1..], c, rest);
    }
  }

  /** The log, as one string, splits back into exactly the non-empty
      messages, when none of them holds a line break. */
  lemma EntriesSplitBack(messages: seq<Option<string>>)
    requires forall i :: 0 <= i < |messages| && messages[i].Some? ==> '\n' !in messages[i].value
    requires NonEmptyMessages(messages) != []
    ensures Split(NormalizeOutput(Entries(messages)), '\n') == NonEmptyMessages(messages)
  {
    NoBreakInMessages(messages);
    SplitJoin(NonEmptyMessages(messages), '\n');
  }

  lemma {:induction false} NoBreakInMessages(messages: seq<Option<string>>)
    requires forall i :: 0 <= i < |messages| && messages[i].Some? ==> '\n' !in messages[i].value
    ensures forall i :: 0 <= i < |NonEmptyMessages(messages)| ==> '\n' !in NonEmptyMessages(messages)[i]
  {
    if messages != [] {
      NoBreakInMessages(messages[1..]);
    }
  }

  // ---------------------------------------------------------------------
  // `parseTestInfo`
  // ---------------------------------------------------------------------

  /** `\.spec\.[jt]sx?` (with `word` ".spec.") or `\.test\.[jt]sx?` (with
      ".test.") at `j`; the result is where the match ends, the optional
      `x` taken when it is there. */
  function SuffixAt(s: string, j: nat, word: string): (r: Option<nat>)
    requires |word| == 6
    ensures r.Some? ==> j + 8 <= r.value <= |s| && r.value <= j + 9
    ensures r.Some? ==> s[j..j + 6] == word && (s[j + 6] == 'j' || s[j + 6] == 't') && s[j + 7] == 's'
    ensures r.Some? ==> r.value == j + 8 || s[j + 8] == 'x'
  {
    if j + 8 <= |s| && s[j..j + 6] == word && (s[j + 6] == 'j' || s[j + 6] == 't') && s[j + 7] == 's' then
      Some(if j + 8 < |s| && s[j + 8] == 'x' then j + 9 else j + 8)
    else None
  }

  /** `.+` then the suffix, the `.+` starting at `k`: the greedy run gives
      back one character at a time, so the suffix found is the last one
      that starts in `(k, j]`. */
  function GreedyPath(s: string, k: nat, j: nat, word: string): (r: Option<nat>)
    requires |word| == 6 && k < j
    ensures r.Some? ==> exists i :: k < i <= j && SuffixAt(s, i, word) == Some(r.value)
    ensures r.None? ==> forall i :: k < i <= j ==> SuffixAt(s, i, word).None?
    decreases j
  {
    var here := SuffixAt(s, j, word);
    if here.Some? then here
    else if j > k + 1 then GreedyPath(s, k, j - 1, word)
    else None
  }

  /** One alternative of the group, tried from `k`. */
  function PathAt(s: string, k: nat, word: string): (r: Option<nat>)
    requires |word| == 6 && k <= |s|
    ensures r.Some? ==> exists i :: k < i <= LineEnd(s, k) && SuffixAt(s, i, word) == Some(r.value)
  {
    var m := LineEnd(s, k);
    if m > k then GreedyPath(s, k, m, word) else None
  }

  const SpecWord: string := ".spec."
  const TestWord: string := ".test."

  /** The group `s[k..end]` ends with one of the two suffixes, and what
      precedes the suffix is at least one character that `.` matches. */
  predicate SuffixBefore(s: string, k: nat, end: nat) {
    k <= |s| &&
    exists i :: k < i <= LineEnd(s, k) &&
      (SuffixAt(s, i, SpecWord) == Some(end) || SuffixAt(s, i, TestWord) == Some(end))
  }

  /** After `FAIL` at `p`, `\s+` is tried longest first, down to `k`; for
      each length the `.spec.` alternative comes before the `.test.` one.
      The result is the group's span. */
  function GroupAfterFail(s: string, p: nat, k: nat): (r: Option<(nat, nat)>)
    requires p + 5 <= k <= |s|
    ensures r.Some? ==> p + 5 <= r.value.0 <= k && r.value.0 < r.value.1 <= |s|
    ensures r.Some? ==> SuffixBefore(s, r.value.0, r.value.1)
    decreases k
  {
    var spec := PathAt(s, k, SpecWord);
    if spec.Some? then Some((k, spec.value))
    else
      var test := PathAt(s, k, TestWord);
      if test.Some? then Some((k, test.value))
      else if k > p + 5 then GroupAfterFail(s, p, k - 1)
      else None
  }

  /** `FAIL\s+(...)` tried at `p`. */
  function FailMatchAt(s: string, p: nat): (r: Option<(nat, nat)>)
    requires p <= |s|
    ensures r.Some? ==> p + 5 <= r.value.0 < r.value.1 <= |s|
    ensures r.Some? ==> SuffixBefore(s, r.value.0, r.value.1)
  {
    if p + 4 <= |s| && s[p..p + 4] == "FAIL" then
      var e := SpaceEnd(s, p + 4);
      if e > p + 4 then GroupAfterFail(s, p, e) else None
    else None
  }

  /** The leftmost match at or after `p`. */
  function FailMatchFrom(s: string, p: nat): (r: Option<(nat, nat)>)
    requires p <= |s|
    ensures r.Some? ==> r.value.0 < r.value.1 <= |s|
    ensures r.Some? ==> SuffixBefore(s, r.value.0, r.value.1)
    decreases |s| - p
  {
    var here := FailMatchAt(s, p);
    if here.Some? then here else if p < |s| then FailMatchFrom(s, p + 1) else None
  }

  /** `s` ends with `.spec.` or `.test.`, then `j` or `t`, `s`, and
      possibly `x`: a test file's name. */
  predicate IsTestFileName(s: string) {
    exists j :: 0 <= j <= |s| && (SuffixAt(s, j, SpecWord) == Some(|s|) || SuffixAt(s, j, TestWord) == Some(|s|))
  }

  /** The test file the FAIL line names: the trimmed group of the leftmost
      match, if there is one. */
  function TestFileOf(line: string): (r: Option<string>)
    ensures r.Some? ==> IsTestFileName(r.value) && Contains(line, r.value)
  {
    match FailMatchFrom(line, 0)
    case None => None
    case Some(span) =>
      var group := line[span.0..span.1];
      GroupIsTestFileName(line, span.0, span.1);
      TrimIsInside(group);
      ContainsTransitive(line, group, Trim(group));
      Some(Trim(group))
  }

  /** The group itself, and its trim, name a test file. */
  lemma GroupIsTestFileName(line: string, k: nat, end: nat)
    requires k <= end <= |line| && SuffixBefore(line, k, end)
    ensures IsTestFileName(line[k..end]) && IsTestFileName(Trim(line[k..end]))
    ensures Contains(line, line[k..end])
  {
    var i :| k < i <= LineEnd(line, k) &&
      (SuffixAt(line, i, SpecWord) == Some(end) || SuffixAt(line, i, TestWord) == Some(end));
    if SuffixAt(line, i, SpecWord) == Some(end) {
      GroupSuffix(line, k, i, end, SpecWord);
    } else {
      GroupSuffix(line, k, i, end, TestWord);
    }
    SliceIsContained(line, k, end);
  }

  lemma GroupSuffix(line: string, k: nat, i: nat, end: nat, w: string)
    requires (w == SpecWord || w == TestWord) && k <= i && end <= |line| && SuffixAt(line, i, w) == Some(end)
    ensures IsTestFileName(line[k..end]) && IsTestFileName(Trim(line[k..end]))
  {
    var g := line[k..end];
    SuffixInGroup(line, k, i, end, w);
    assert SuffixAt(g, i - k, w) == Some(|g|);
    SuffixSurvivesTrim(g, i - k, w);
  }

  lemma SliceIsContained(line: string, k: nat, end: nat)
    requires k <= end <= |line|
    ensures Contains(line, line[k..end])
  {
    assert OccursAt(line, line[k..end], k);
  }

  /** A suffix match survives cutting the text at its start `k < i` and
      right after the match. */
  lemma SuffixInGroup(line: string, k: nat, i: nat, end: nat, w: string)
    requires |w| == 6 && k <= i && end <= |line| && SuffixAt(line, i, w) == Some(end)
    ensures SuffixAt(line[k..end], i - k, w) == Some(end - k)
  {
    var g := line[k..end];
    forall n | 0 <= n < |g| ensures g[n] == line[n + k] {
    }
    assert g[i - k..i - k + 6] == line[i..i + 6];
    assert g[i - k + 6] == line[i + 6] && g[i - k + 7] == line[i + 7];
    if end == i + 9 {
      assert g[i - k + 8] == line[i + 8];
    }
  }

  /** The trim of a string occurs in it. */
  lemma TrimIsInside(g: string)
    ensures Contains(g, Trim(g))
  {
    var t := TrimStart(g);
    var d := |g| - |t|;
    var r := TrimEnd(t);
    assert t == g[d..] && r == t[..|r|];
    assert g[d..d + |r|] == r;
    assert OccursAt(g, r, d);
  }

  /** Trimming keeps a suffix that starts with a dot and ends the text. */
  lemma SuffixSurvivesTrim(g: string, j: nat, w: string)
    requires (w == SpecWord || w == TestWord) && SuffixAt(g, j, w) == Some(|g|)
    ensures IsTestFileName(Trim(g))
  {
    var t := TrimStart(g);
    var i := SuffixSurvivesTrimStart(g, j, w);
    SuffixSurvivesTrimEnd(t, i, w);
    assert Trim(g) == t;
    assert SuffixAt(Trim(g), i, w) == Some(|Trim(g)|);
  }

  /** Leading white space stops before the suffix's dot. */
  lemma SuffixSurvivesTrimStart(g: string, j: nat, w: string) returns (i: nat)
    requires |w| == 6 && w[0] == '.' && SuffixAt(g, j, w) == Some(|g|)
    ensures SuffixAt(TrimStart(g), i, w) == Some(|TrimStart(g)|)
  {
    DotStartsSuffix(g, j, w);
    var d := TrimStartStops(g, j);
    SuffixInGroup(g, d, j, |g|, w);
    i := j - d;
  }

  lemma DotStartsSuffix(g: string, j: nat, w: string)
    requires |w| == 6 && w[0] == '.' && SuffixAt(g, j, w).Some?
    ensures j < |g| && g[j] == '.'
  {
    assert g[j] == g[j..j + 6][0];
  }

  /** A text that ends with the suffix ends with `s` or `x`, so trimming
      its end changes nothing. */
  lemma SuffixSurvivesTrimEnd(t: string, i: nat, w: string)
    requires |w| == 6 && SuffixAt(t, i, w) == Some(|t|)
    ensures TrimEnd(t) == t
  {
    assert t[|t| - 1] == 's' || t[|t| - 1] == 'x';
    TrimEndKeeps(t);
  }

  /** White space stops at the first character that is not white space. */
  lemma TrimStartStops(g: string, j: nat) returns (d: nat)
    requires j < |g| && g[j] == '.'
    ensures d <= j && TrimStart(g) == g[d..|g|]
  {
    assert !IsJsSpace(g[j]);
    d := |g| - |TrimStart(g)|;
  }

  lemma TrimEndKeeps(t: string)
    requires t != [] && (t[|t| - 1] == 's' || t[|t| - 1] == 'x')
    ensures TrimEnd(t) == t
  {
  }

  /** The greedy search returns the last suffix start in `(k, j]`. */
  lemma {:induction false} GreedyPathIs(s: string, k: nat, j: nat, i: nat, w: string)
    requires |w| == 6 && k < i <= j
    requires SuffixAt(s, i, w).Some?
    requires forall n :: i < n <= j ==> SuffixAt(s, n, w).None?
    ensures GreedyPath(s, k, j, w) == SuffixAt(s, i, w)
    decreases j
  {
    if j > i {
      GreedyPathIs(s, k, j - 1, i, w);
    }
  }

  /** A suffix that ends the tail `s[k..]` is one that ends `s`. */
  lemma SuffixFromTail(s: string, k: nat, j: nat, w: string)
    requires |w| == 6 && k <= |s| && SuffixAt(s[k..], j, w) == Some(|s| - k)
    ensures SuffixAt(s, j + k, w) == Some(|s|)
  {
    var t := s[k..];
    assert t[j..j + 6] == s[j + k..j + k + 6];
    assert t[j + 6] == s[j + k + 6] && t[j + 7] == s[j + k + 7];
    if |t| == j + 9 {
      assert t[j + 8] == s[j + k + 8];
    }
  }

  /** A suffix starts at `i >= k` in `s` exactly when one starts there in
      the tail `s[k..]`. */
  lemma SuffixInTail(s: string, k: nat, i: nat, w: string)
    requires |w| == 6 && k <= i && k <= |s|
    ensures SuffixAt(s, i, w).Some? <==> SuffixAt(s[k..], i - k, w).Some?
  {
    var t := s[k..];
    if i + 8 <= |s| {
      assert t[i - k..i - k + 6] == s[i..i + 6];
      assert t[i - k + 6] == s[i + 6] && t[i - k + 7] == s[i + 7];
    }
  }

  /** `.` runs to the end of a text with no line terminator from `i` on. */
  lemma LineEndAll(s: string, i: nat)
    requires i <= |s| && forall n :: i <= n < |s| ==> !IsLineTerminator(s[n])
    ensures LineEnd(s, i) == |s|
  {
  }

  /** A line "FAIL " followed by a path that ends in `.spec.ts` or
      `.spec.js` (or in `.test.ts` or `.test.js`, when `.spec.` followed by
      `js` or `ts` appears nowhere in it) names exactly that path, provided
      the path starts with something other than white space and holds no
      line terminator. */
  lemma FailLineNamesPath(path: string, w: string)
    requires w == SpecWord || w == TestWord
    requires |path| >= 9 && !IsJsSpace(path[0])
    requires forall n :: 0 <= n < |path| ==> !IsLineTerminator(path[n])
    requires SuffixAt(path, |path| - 8, w) == Some(|path|)
    requires w == TestWord ==> forall n :: 0 <= n <= |path| ==> SuffixAt(path, n, SpecWord).None?
    ensures TestFileOf("FAIL " + path) == Some(path)
  {
    var line := "FAIL " + path;
    assert line[5..] == path && line[..5] == "FAIL ";
    FailLineSpan(line, w);
    assert line[5..|line|] == path;
    assert TestFileOf(line) == Some(Trim(path));
    assert path[|path| - 1] == 's';
    TrimOfTrimmed(path);
  }

  /** The match on such a line spans the whole path. */
  lemma FailLineSpan(line: string, w: string)
    requires w == SpecWord || w == TestWord
    requires |line| >= 14 && line[..5] == "FAIL " && !IsJsSpace(line[5])
    requires forall n :: 5 <= n < |line| ==> !IsLineTerminator(line[n])
    requires SuffixAt(line[5..], |line| - 13, w) == Some(|line| - 5)
    requires w == TestWord ==> forall n :: 0 <= n <= |line| - 5 ==> SuffixAt(line[5..], n, SpecWord).None?
    ensures FailMatchFrom(line, 0) == Some((5, |line|))
  {
    FailPrefix(line);
    PathSpansTail(line, w);
    if w == TestWord {
      NoSpecInTail(line);
    }
    assert GroupAfterFail(line, 0, 5) == Some((5, |line|));
    assert FailMatchAt(line, 0) == Some((5, |line|));
  }

  /** `FAIL` then exactly one white space character. */
  lemma FailPrefix(line: string)
    requires |line| >= 6 && line[..5] == "FAIL " && !IsJsSpace(line[5])
    ensures line[0..4] == "FAIL" && SpaceEnd(line, 4) == 5
  {
    assert line[0..4] == line[..5][..4];
    assert IsJsSpace(line[4]) by {
      assert line[4] == line[..5][4];
    }
  }

  /** The alternative for `w`, tried right after the space, runs to the
      end of the line. */
  lemma PathSpansTail(line: string, w: string)
    requires |w| == 6 && |line| >= 14
    requires forall n :: 5 <= n < |line| ==> !IsLineTerminator(line[n])
    requires SuffixAt(line[5..], |line| - 13, w) == Some(|line| - 5)
    ensures PathAt(line, 5, w) == Some(|line|)
  {
    LineEndAll(line, 5);
    SuffixFromTail(line, 5, |line| - 13, w);
    GreedyPathIs(line, 5, |line|, |line| - 8, w);
  }

  /** With no `.spec.` suffix in the tail, the `.spec.` alternative fails. */
  lemma NoSpecInTail(line: string)
    requires |line| >= 14
    requires forall n :: 0 <= n <= |line| - 5 ==> SuffixAt(line[5..], n, SpecWord).None?
    ensures PathAt(line, 5, SpecWord).None?
  {
    forall n | 5 < n <= |line| ensures SuffixAt(line, n, SpecWord).None? {
      SuffixInTail(line, 5, n, SpecWord);
    }
  }

  /** Index of the first line whose trim starts with "FAIL", `|lines|` when
      there is none (`lines.find(...)`). */
  function FirstFailLine(lines: seq<string>, from: nat): (k: nat)
    requires from <= |lines|
    ensures from <= k <= |lines|
    ensures k < |lines| ==> IsFailLine(lines[k])
    ensures forall i :: from <= i < k ==> !IsFailLine(lines[i])
    decreases |lines| - from
  {
    if from == |lines| then from
    else if IsFailLine(lines[from]) then from
    else FirstFailLine(lines, from + 1)
  }

  predicate IsFailLine(line: string) {
    StartsWith(Trim(line), "FAIL")
  }

  const Bullet: char := '\U{25CF}'

  /** Index of the first line holding the bullet `●`, `|lines|` when there
      is none. */
  function FirstBulletLine(lines: seq<string>): (k: nat)
    ensures k <= |lines|
    ensures k < |lines| ==> Bullet in lines[k]
    ensures forall i :: 0 <= i < k ==> Bullet !in lines[i]
  {
    if lines == [] then 0
    else if Bullet in lines[0] then 0
    else
      var k := FirstBulletLine(lines[1..]);
      assert forall i :: 1 <= i < 1 + k ==> lines[i] == lines[1..][i - 1];
      1 + k
  }

  /** End of the run of decimal digits from `i` (`\d*`). */
  function DigitEnd(s: string, i: nat): (j: nat)
    requires i <= |s|
    ensures i <= j <= |s|
    ensures forall k :: i <= k < j ==> '0' <= s[k] <= '9'
    decreases |s| - i
  {
    if i < |s| && '0' <= s[i] <= '9' then DigitEnd(s, i + 1) else i
  }

  /** `/^\s+\d+\s+\|/`: white space, digits, white space and a bar at the
      start. No backtracking can change the outcome, since white space and
      digits are disjoint. */
  predicate JestGutter(t: string) {
    var a := SpaceEnd(t, 0);
    a > 0 &&
    var d := DigitEnd(t, a);
    d > a &&
    var b := SpaceEnd(t, d);
    b > d && b < |t| && t[b] == '|'
  }

  /** The filter of `parseTestInfo`, applied to the trimmed line. */
  predicate IsStackLine(line: string) {
    var t := Trim(line);
    StartsWith(t, "at ") || Contains(t, ".ts:") || Contains(t, ".js:") || JestGutter(t)
  }

  /** The gutter pattern is tested on a trimmed line, which never starts
      with white space: that clause of the filter never holds. */
  lemma GutterNeverOnTrimmed(line: string)
    ensures !JestGutter(Trim(line))
    ensures IsStackLine(line) <==>
      StartsWith(Trim(line), "at ") || Contains(Trim(line), ".ts:") || Contains(Trim(line), ".js:")
  {
    var t := Trim(line);
    assert SpaceEnd(t, 0) == 0;
  }

  /** `xs.filter(p)`. */
  function Filter<T(!new)>(xs: seq<T>, p: T -> bool): (r: seq<T>)
    ensures |r| <= |xs|
    ensures forall i :: 0 <= i < |r| ==> p(r[i])
    ensures forall x :: x in r <==> x in xs && p(x)
  {
    if xs == [] then []
    else
      assert xs == [xs[0]] + xs[1..];
      (if p(xs[0]) then [xs[0]] else []) + Filter(xs[1..], p)
  }

  /** Filtering keeps the order: the kept elements of a concatenation are
      those of each part, one after the other, and a single element is kept
      exactly when it passes. */
  lemma {:induction false} FilterAppend<T(!new)>(a: seq<T>, b: seq<T>, p: T -> bool)
    ensures Filter(a + b, p) == Filter(a, p) + Filter(b, p)
    ensures forall x :: Filter([x], p) == if p(x) then [x] else []
  {
    if a != [] {
      var head := if p(a[0]) then [a[0]] else [];
      calc {
        Filter(a + b, p);
      ==  { assert (a + b)[0] == a[0] && (a + b)[1..] == a[1..] + b; }
        head + Filter(a[1..] + b, p);
      ==  { FilterAppend(a[1..], b, p); }
        head + (Filter(a[1..], p) + Filter(b, p));
      ==
        Filter(a, p) + Filter(b, p);
      }
    } else {
      assert a + b == b;
    }
    forall x ensures Filter([x], p) == if p(x) then [x] else [] {
      assert [x][1..] == [];
    }
  }

  /** The stack lines, in order. */
  function StackLines(lines: seq<string>): (r: seq<string>)
    ensures |r| <= |lines|
    ensures forall i :: 0 <= i < |r| ==> IsStackLine(r[i])
    ensures forall l :: l in r <==> l in lines && IsStackLine(l)
  {
    Filter(lines, IsStackLine)
  }

  /** The stack lines keep the order of the output: those of a
      concatenation are those of each part, one after the other, and a
      single line is kept exactly when it is a stack line. */
  lemma StackLinesAppend(a: seq<string>, b: seq<string>)
    ensures StackLines(a + b) == StackLines(a) + StackLines(b)
    ensures forall l :: StackLines([l]) == if IsStackLine(l) then [l] else []
  {
    FilterAppend(a, b, IsStackLine);
  }

  /** What `parseTestInfo` returns; an absent field is None. */
  datatype TestInfo = TestInfo(testFile: Option<string>, testName: Option<string>, stackTrace: Option<string>)

  /** `parseTestInfo`. */
  function ParseTestInfo(errorOutput: string): (info: TestInfo)
    ensures var lines := Split(errorOutput, '\n'); var k := FirstFailLine(lines, 0);
      info.testFile == (if k < |lines| then TestFileOf(lines[k]) else None)
    ensures info.testFile.Some? ==> IsTestFileName(info.testFile.value)
    ensures info.testName.Some? ==> Bullet !in info.testName.value && Trim(info.testName.value) == info.testName.value
    ensures info.testName.None? <==> Bullet !in errorOutput
    ensures var lines := Split(errorOutput, '\n'); var k := FirstBulletLine(lines);
      info.testName == (if k < |lines| then Some(CleanName(lines[k])) else None)
    ensures info.stackTrace.None? <==> StackLines(Split(errorOutput, '\n')) == []
    ensures info.stackTrace.Some? ==> Split(info.stackTrace.value, '\n') == StackLines(Split(errorOutput, '\n'))
    ensures info.stackTrace.Some? ==> info.stackTrace.value == Join(StackLines(Split(errorOutput, '\n')), "\n")
  {
    var lines := Split(errorOutput, '\n');
    var failAt := FirstFailLine(lines, 0);
    var nameAt := FirstBulletLine(lines);
    var stackLines := StackLines(lines);
    BulletInLines(errorOutput);
    StackTraceSplits(lines);
    TestInfo(
      if failAt < |lines| then TestFileOf(lines[failAt]) else None,
      if nameAt < |lines| then Some(CleanName(lines[nameAt])) else None,
      if |stackLines| > 0 then Some(Join(stackLines, "\n")) else None)
  }

  /** `line.replace(/●/g, '').trim()`. */
  function CleanName(line: string): (name: string)
    ensures Bullet !in name && Trim(name) == name
    ensures name == Trim(RemoveAll(line, Bullet))
  {
    var bare := RemoveAll(line, Bullet);
    TrimKeepsAbsent(bare, Bullet);
    TrimOfTrimmed(Trim(bare));
    Trim(bare)
  }

  /** Trimming adds no character. */
  lemma TrimKeepsAbsent(s: string, c: char)
    requires c !in s
    ensures c !in Trim(s)
  {
    var t := TrimStart(s);
    var d := |s| - |t|;
    var r := TrimEnd(t);
    assert t == s[d..] && r == t[..|r|];
    forall i | 0 <= i < |r| ensures r[i] != c {
      assert r[i] == s[d + i];
    }
  }

  /** A character other than the separator occurs in a text exactly when it
      occurs in one of its split parts. */
  lemma BulletInLines(s: string)
    ensures Bullet in s <==> FirstBulletLine(Split(s, '\n')) < |Split(s, '\n')|
  {
    JoinSplit(s, '\n');
    InJoin(Split(s, '\n'), '\n', Bullet);
  }

  lemma {:induction false} InJoin(parts: seq<string>, sep: char, c: char)
    requires c != sep
    ensures c in Join(parts, [sep]) <==> exists i :: 0 <= i < |parts| && c in parts[i]
  {
    if |parts| > 1 {
      InJoin(parts[1..], sep, c);
      assert Join(parts, [sep]) == parts[0] + [sep] + Join(parts[1..], [sep]);
      assert forall i :: 1 <= i < |parts| ==> parts[i] == parts[1..][i - 1];
      if exists i :: 0 <= i < |parts| && c in parts[i] {
        var i :| 0 <= i < |parts| && c in parts[i];
        if i > 0 {
          assert c in parts[1..][i - 1];
        }
      }
    }
  }

  /** The stack trace splits back into the stack lines. */
  lemma StackTraceSplits(lines: seq<string>)
    requires forall i :: 0 <= i < |lines| ==> '\n' !in lines[i]
    ensures StackLines(lines) != [] ==> Split(Join(StackLines(lines), "\n"), '\n') == StackLines(lines)
  {
    var st := StackLines(lines);
    if st != [] {
      forall i | 0 <= i < |st| ensures '\n' !in st[i] {
        assert st[i] in lines;
      }
      SplitJoin(st, '\n');
    }
  }
}
