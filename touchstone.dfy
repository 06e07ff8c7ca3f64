/**
 * The `Touchstone` session of ts.py reduced to its bookkeeping: the list of
 * started executions, the polling loop that brings their status up to date
 * (`awaitExecutions`), and the launch loop (`executeTargets`,
 * `executeTarget`). The web forms and the HTTP calls are replaced by their
 * answers: one launch reply per target and a feed of poll responses.
 */
module Touchstone {
  import opened Wrappers
  import opened Strings
  import opened Decimal
  import opened Yaml
  import opened KnownTargets

  /** An execution started on the platform and what the last poll said about it. */
  datatype Execution = Execution(
    target: ExecutionTarget,
    executionId: string,
    status: string,
    total: int,
    passes: int,
    warns: int,
    fails: int,
    duration: string)

  /** `Execution(target, execution_id)`: not polled yet. */
  function Started(target: ExecutionTarget, id: string): Execution {
    Execution(target, id, "", 0, 0, 0, 0, "")
  }

  const MAX_PARALLEL_EXECUTIONS: nat := 4
  const RUNNING: string := "Running"
  const UNKNOWN: string := "Unknown"
  const PASSED: string := "Passed"

  /** The statuses that are still polled: not polled yet, or running. */
  const ACTIVE: set<string> := {"", RUNNING}
  const RUNNING_ONLY: set<string> := {RUNNING}

  datatype AwaitMode = All | Blocking | Max

  predicate Active(e: Execution) {
    e.status in ACTIVE
  }

  /** `block_until_complete` as Python's truth value of the setting. */
  predicate Blocks(t: ExecutionTarget) {
    t.block.Some? && Truthy(t.block.value)
  }

  // ------------------------------------------------------ working set

  /** Every position in `ws` is a position of a list of length `n`. */
  predicate InRange(ws: seq<nat>, n: nat) {
    forall k :: 0 <= k < |ws| ==> ws[k] < n
  }

  predicate Increasing(ws: seq<nat>) {
    forall j, k :: 0 <= j < k < |ws| ==> ws[j] < ws[k]
  }

  /** The positions `0 .. n-1`. */
  function Upto(n: nat): (ws: seq<nat>)
    ensures |ws| == n && InRange(ws, n)
  {
    if n == 0 then [] else Upto(n - 1) + [n - 1]
  }

  /** Position `k` of `Upto(n)` holds `k`. */
  lemma {:induction false} UptoAt(n: nat, k: nat)
    requires k < n
    ensures Upto(n)[k] == k
  {
    if k < n - 1 {
      UptoAt(n - 1, k);
    }
  }

  /** The positions below `n` of the blocking executions that have not settled. */
  function BlockingPositions(execs: seq<Execution>, n: nat): (ws: seq<nat>)
    requires n <= |execs|
    ensures InRange(ws, n)
  {
    if n == 0 then []
    else
      var before := BlockingPositions(execs, n - 1);
      if Blocks(execs[n - 1].target) && Active(execs[n - 1]) then before + [n - 1] else before
  }

  lemma {:induction false} BlockingPositionsMembers(execs: seq<Execution>, n: nat, i: nat)
    requires i < n <= |execs|
    ensures i in BlockingPositions(execs, n) <==> Blocks(execs[i].target) && Active(execs[i])
  {
    if i < n - 1 {
      BlockingPositionsMembers(execs, n - 1, i);
    }
  }

  lemma {:induction false} BlockingPositionsIncreasing(execs: seq<Execution>, n: nat)
    requires n <= |execs|
    ensures Increasing(BlockingPositions(execs, n))
  {
    if n > 0 {
      BlockingPositionsIncreasing(execs, n - 1);
    }
  }

  /**
   * The executions `awaitExecutions` looks at: for BLOCKING the blocking
   * ones still running, otherwise all of them. The positions refer to
   * `self.executions`, whose objects the filtered list shares.
   */
  function WorkingSet(mode: AwaitMode, execs: seq<Execution>): (ws: seq<nat>)
    ensures InRange(ws, |execs|)
  {
    if mode == Blocking then BlockingPositions(execs, |execs|) else Upto(|execs|)
  }

  /** The working set of BLOCKING holds the blocking executions not settled yet; otherwise it holds all. */
  lemma WorkingSetMembers(mode: AwaitMode, execs: seq<Execution>, i: nat)
    requires i < |execs|
    ensures i in WorkingSet(mode, execs) <==> mode != Blocking || (Blocks(execs[i].target) && Active(execs[i]))
  {
    if mode == Blocking {
      BlockingPositionsMembers(execs, |execs|, i);
    } else {
      UptoAt(|execs|, i);
    }
  }

  /** Each execution is in the working set at most once, in list order. */
  lemma WorkingSetIncreasing(mode: AwaitMode, execs: seq<Execution>)
    ensures Increasing(WorkingSet(mode, execs))
  {
    if mode == Blocking {
      BlockingPositionsIncreasing(execs, |execs|);
    } else {
      forall j, k | 0 <= j < k < |execs|
        ensures Upto(|execs|)[j] < Upto(|execs|)[k]
      {
        UptoAt(|execs|, j);
        UptoAt(|execs|, k);
      }
    }
  }

  /** How many executions of the working set have one of the `statuses`. */
  function CountStatus(execs: seq<Execution>, ws: seq<nat>, statuses: set<string>): (c: nat)
    requires InRange(ws, |execs|)
    ensures c <= |ws|
  {
    if ws == [] then 0
    else CountStatus(execs, ws[..|ws| - 1], statuses) + (if execs[ws[|ws| - 1]].status in statuses then 1 else 0)
  }

  /** A count of zero means no execution of the working set has any of the statuses. */
  lemma {:induction false} CountZero(execs: seq<Execution>, ws: seq<nat>, statuses: set<string>)
    requires InRange(ws, |execs|) && CountStatus(execs, ws, statuses) == 0
    ensures forall j :: 0 <= j < |ws| ==> execs[ws[j]].status !in statuses
  {
    if ws != [] {
      CountZero(execs, ws[..|ws| - 1], statuses);
      forall j | 0 <= j < |ws| - 1
        ensures ws[..|ws| - 1][j] == ws[j]
      {
      }
    }
  }

  /** Counting fewer statuses never gives more. */
  lemma {:induction false} CountSubset(execs: seq<Execution>, ws: seq<nat>, fewer: set<string>, more: set<string>)
    requires InRange(ws, |execs|) && fewer <= more
    ensures CountStatus(execs, ws, fewer) <= CountStatus(execs, ws, more)
  {
    if ws != [] {
      CountSubset(execs, ws[..|ws| - 1], fewer, more);
    }
  }

  /** The count only looks at the statuses at the positions of the working set. */
  lemma {:induction false} CountFrame(a: seq<Execution>, b: seq<Execution>, ws: seq<nat>, statuses: set<string>)
    requires InRange(ws, |a|) && |a| <= |b|
    requires forall j :: 0 <= j < |ws| ==> b[ws[j]].status == a[ws[j]].status
    ensures CountStatus(a, ws, statuses) == CountStatus(b, ws, statuses)
  {
    if ws != [] {
      CountFrame(a, b, ws[..|ws| - 1], statuses);
    }
  }

  /**
   * The conditions of the wait: with MAX, at least `MAX_PARALLEL_EXECUTIONS`
   * executions of the working set have one of the statuses; otherwise at
   * least one has.
   */
  predicate Waits(mode: AwaitMode, execs: seq<Execution>, ws: seq<nat>, statuses: set<string>)
    requires InRange(ws, |execs|)
  {
    if mode == Max then CountStatus(execs, ws, statuses) >= MAX_PARALLEL_EXECUTIONS
    else CountStatus(execs, ws, statuses) > 0
  }

  // ------------------------------------------------------------ polling

  /** One `GET testExecution/<id>`: HTTP status code and the JSON fields read. */
  datatype PollResponse = PollResponse(
    code: int,
    status: Option<string>,
    duration: Option<string>,
    counts: Option<map<string, int>>)

  /** A counter of `statusCounts`, 0 when the platform left it out. */
  function Counter(counts: map<string, int>, key: string): int {
    if key in counts then counts[key] else 0
  }

  /** The execution after a response; `raised` when reading it raised KeyError half-way. */
  datatype Applied = Applied(e: Execution, raised: bool)

  /** How one poll response updates an execution. */
  function ApplyResponse(e: Execution, resp: PollResponse): Applied
  {
    if resp.code != 200 || resp.status.None? then Applied(e.(status := UNKNOWN), false)
    else
      var e1 := e.(status := resp.status.value);
      if resp.duration.None? then Applied(e1, true)
      else
        var e2 := e1.(duration := resp.duration.value);
        if resp.counts.None? || "numberOfTests" !in resp.counts.value then Applied(e2, true)
        else
          var c := resp.counts.value;
          Applied(e2.(total := c["numberOfTests"],
                      passes := Counter(c, "numberOfTestPasses"),
                      warns := Counter(c, "numberOfTestPassesWarn"),
                      fails := Counter(c, "numberOfTestFailures")), false)
  }

  /**
   * A response keeps the execution's target and id. A failed request or a
   * missing status sets "Unknown", which is never polled again; otherwise
   * status, duration and total are copied, and absent counters read as 0.
   * Reading raises KeyError when the duration, the counts or the number of
   * tests is missing.
   */
  lemma ApplyResponseFacts(e: Execution, resp: PollResponse)
    ensures var a := ApplyResponse(e, resp);
      a.e.target == e.target && a.e.executionId == e.executionId &&
      (resp.code != 200 || resp.status.None? ==> !a.raised && a.e == e.(status := UNKNOWN) && !Active(a.e)) &&
      (a.raised <==> (resp.code == 200 && resp.status.Some? &&
        (resp.duration.None? || resp.counts.None? || "numberOfTests" !in resp.counts.value))) &&
      (resp.code == 200 && resp.status.Some? && !a.raised ==>
        a.e.status == resp.status.value && a.e.duration == resp.duration.value &&
        a.e.total == resp.counts.value["numberOfTests"] &&
        a.e.passes == Counter(resp.counts.value, "numberOfTestPasses") &&
        a.e.warns == Counter(resp.counts.value, "numberOfTestPassesWarn") &&
        a.e.fails == Counter(resp.counts.value, "numberOfTestFailures"))
  {
  }

  /**
   * How a run of the session ended: `Finished` normally, `Raised` when a
   * poll response raised KeyError, `OutOfResponses` when the supplied
   * answers ran out before the session was done with them.
   */
  datatype Stop = Finished | OutOfResponses | Raised

  /** The executions, the responses not consumed yet, and how the run ended. */
  datatype Run = Run(execs: seq<Execution>, feed: seq<PollResponse>, stop: Stop)

  /** The body of the poll loop for the execution at position `i`. */
  function PollAt(r: Run, i: nat): Run
    requires i < |r.execs|
  {
    if r.stop != Finished || !Active(r.execs[i]) then r
    else if r.feed == [] then r.(stop := OutOfResponses)
    else
      var a := ApplyResponse(r.execs[i], r.feed[0]);
      Run(r.execs[i := a.e], r.feed[1..], if a.raised then Raised else Finished)
  }

  /** One pass of `for execution in executions` over the working set. */
  function PollPass(execs: seq<Execution>, ws: seq<nat>, feed: seq<PollResponse>): (r: Run)
    requires InRange(ws, |execs|)
    ensures |r.execs| == |execs|
  {
    if ws == [] then Run(execs, feed, Finished)
    else PollAt(PollPass(execs, ws[..|ws| - 1], feed), ws[|ws| - 1])
  }

  /** `rest` is what is left of `feed` after consuming some of it from the front. */
  predicate IsSuffix(rest: seq<PollResponse>, feed: seq<PollResponse>) {
    |rest| <= |feed| && rest == feed[|feed| - |rest|..]
  }

  /**
   * `b` is `a` after polling the working set `ws`: the same executions with
   * the same targets and ids, where only the working-set executions that
   * had not settled may have changed.
   */
  predicate Evolves(a: seq<Execution>, b: seq<Execution>, ws: seq<nat>) {
    |b| == |a| &&
    forall k :: 0 <= k < |a| ==>
      b[k].target == a[k].target && b[k].executionId == a[k].executionId &&
      ((k !in ws || !Active(a[k])) ==> b[k] == a[k])
  }

  lemma EvolvesTransitive(a: seq<Execution>, b: seq<Execution>, c: seq<Execution>, ws: seq<nat>)
    requires Evolves(a, b, ws) && Evolves(b, c, ws)
    ensures Evolves(a, c, ws)
  {
  }

  lemma SuffixTransitive(a: seq<PollResponse>, b: seq<PollResponse>, c: seq<PollResponse>)
    requires IsSuffix(a, b) && IsSuffix(b, c)
    ensures IsSuffix(a, c)
  {
    assert c[|c| - |b|..][|b| - |a|..] == c[|c| - |a|..];
  }

  /**
   * A pass consumes responses from the front and changes only working-set
   * executions that had not settled, keeping their targets and ids.
   */
  lemma {:induction false} PassFrame(execs: seq<Execution>, ws: seq<nat>, feed: seq<PollResponse>)
    requires InRange(ws, |execs|)
    ensures Evolves(execs, PollPass(execs, ws, feed).execs, ws)
    ensures IsSuffix(PollPass(execs, ws, feed).feed, feed)
  {
    if ws != [] {
      var init := ws[..|ws| - 1];
      var i := ws[|ws| - 1];
      PassFrame(execs, init, feed);
      var p' := PollPass(execs, init, feed);
      var p := PollAt(p', i);
      if p'.stop == Finished && Active(p'.execs[i]) && p'.feed != [] {
        ApplyResponseFacts(p'.execs[i], p'.feed[0]);
        assert feed[|feed| - |p'.feed|..][1..] == feed[|feed| - |p.feed|..];
      }
      forall k | 0 <= k < |execs|
        ensures p.execs[k].target == execs[k].target && p.execs[k].executionId == execs[k].executionId
        ensures (k !in ws || !Active(execs[k])) ==> p.execs[k] == execs[k]
      {
        if k != i {
          assert p.execs[k] == p'.execs[k];
          if k !in ws {
            assert k !in init;
          }
        }
      }
    }
  }

  /** A pass that finished without consuming a response found nothing to poll. */
  lemma {:induction false} PassProgress(execs: seq<Execution>, ws: seq<nat>, feed: seq<PollResponse>)
    requires InRange(ws, |execs|)
    ensures var p := PollPass(execs, ws, feed);
      p.stop == Finished && |p.feed| == |feed| ==> p.execs == execs && CountStatus(execs, ws, ACTIVE) == 0
  {
    if ws != [] {
      var init := ws[..|ws| - 1];
      PassFrame(execs, init, feed);
      PassProgress(execs, init, feed);
    }
  }

  /** With each execution in the working set once, a pass takes exactly one response per unsettled execution. */
  lemma {:induction false} PassCount(execs: seq<Execution>, ws: seq<nat>, feed: seq<PollResponse>)
    requires InRange(ws, |execs|) && Increasing(ws)
    ensures PollPass(execs, ws, feed).stop == Finished ==>
      |feed| - |PollPass(execs, ws, feed).feed| == CountStatus(execs, ws, ACTIVE)
  {
    if ws != [] {
      var init := ws[..|ws| - 1];
      var i := ws[|ws| - 1];
      PassFrame(execs, init, feed);
      PassCount(execs, init, feed);
      assert i !in init;
      assert PollPass(execs, init, feed).execs[i] == execs[i];
    }
  }

  /**
   * The `while waiting` loop: poll the working set, then wait on while
   * enough of it is still "Running". It stops early when a response raised
   * or the responses ran out.
   */
  function AwaitLoop(mode: AwaitMode, execs: seq<Execution>, ws: seq<nat>, waiting: bool, feed: seq<PollResponse>): (r: Run)
    requires InRange(ws, |execs|)
    requires waiting ==> CountStatus(execs, ws, ACTIVE) > 0
    ensures |r.execs| == |execs|
    decreases |feed|
  {
    if !waiting then Run(execs, feed, Finished)
    else
      var p := PollPass(execs, ws, feed);
      if p.stop != Finished then p
      else
        PassFrame(execs, ws, feed);
        PassProgress(execs, ws, feed);
        var still := Waits(mode, p.execs, ws, RUNNING_ONLY);
        CountSubset(p.execs, ws, RUNNING_ONLY, ACTIVE);
        AwaitLoop(mode, p.execs, ws, still, p.feed)
  }

  /** `awaitExecutions(mode)` on the executions started so far. */
  function Await(mode: AwaitMode, execs: seq<Execution>, feed: seq<PollResponse>): (r: Run)
    ensures |r.execs| == |execs|
  {
    var ws := WorkingSet(mode, execs);
    AwaitLoop(mode, execs, ws, Waits(mode, execs, ws, ACTIVE), feed)
  }

  /** The loop keeps targets and ids, leaves settled executions alone and consumes responses in order. */
  lemma {:induction false} AwaitLoopFacts(mode: AwaitMode, execs: seq<Execution>, ws: seq<nat>, waiting: bool, feed: seq<PollResponse>)
    requires InRange(ws, |execs|)
    requires waiting ==> CountStatus(execs, ws, ACTIVE) > 0
    ensures Evolves(execs, AwaitLoop(mode, execs, ws, waiting, feed).execs, ws)
    ensures IsSuffix(AwaitLoop(mode, execs, ws, waiting, feed).feed, feed)
    ensures AwaitLoop(mode, execs, ws, waiting, feed).stop == Finished ==>
      if waiting then !Waits(mode, AwaitLoop(mode, execs, ws, waiting, feed).execs, ws, RUNNING_ONLY)
      else AwaitLoop(mode, execs, ws, waiting, feed).execs == execs
    decreases |feed|
  {
    if waiting {
      PassFrame(execs, ws, feed);
      PassProgress(execs, ws, feed);
      var p := PollPass(execs, ws, feed);
      if p.stop == Finished {
        var still := Waits(mode, p.execs, ws, RUNNING_ONLY);
        CountSubset(p.execs, ws, RUNNING_ONLY, ACTIVE);
        AwaitLoopFacts(mode, p.execs, ws, still, p.feed);
        var r := AwaitLoop(mode, p.execs, ws, still, p.feed);
        EvolvesTransitive(execs, p.execs, r.execs, ws);
        SuffixTransitive(r.feed, p.feed, feed);
      }
    } else {
      assert Evolves(execs, execs, ws);
    }
  }

  /** `awaitExecutions` keeps targets and ids, and never changes an execution that had settled. */
  lemma AwaitKeeps(mode: AwaitMode, execs: seq<Execution>, feed: seq<PollResponse>)
    ensures Evolves(execs, Await(mode, execs, feed).execs, WorkingSet(mode, execs))
    ensures IsSuffix(Await(mode, execs, feed).feed, feed)
  {
    var ws := WorkingSet(mode, execs);
    AwaitLoopFacts(mode, execs, ws, Waits(mode, execs, ws, ACTIVE), feed);
  }

  /**
   * What a completed wait guarantees. MAX: fewer than
   * `MAX_PARALLEL_EXECUTIONS` executions are "Running". ALL: none is.
   * BLOCKING: no blocking execution is.
   */
  lemma AwaitSettles(mode: AwaitMode, execs: seq<Execution>, feed: seq<PollResponse>)
    ensures var r := Await(mode, execs, feed);
      r.stop == Finished ==>
        (mode == Max ==> CountStatus(r.execs, Upto(|r.execs|), RUNNING_ONLY) < MAX_PARALLEL_EXECUTIONS) &&
        (mode == All ==> forall k :: 0 <= k < |r.execs| ==> r.execs[k].status != RUNNING) &&
        (mode == Blocking ==> forall k :: 0 <= k < |r.execs| && Blocks(r.execs[k].target) ==> r.execs[k].status != RUNNING)
  {
    var ws := WorkingSet(mode, execs);
    var waiting := Waits(mode, execs, ws, ACTIVE);
    var r := Await(mode, execs, feed);
    AwaitLoopFacts(mode, execs, ws, waiting, feed);
    if r.stop == Finished {
      if waiting {
        if mode != Max {
          CountZero(r.execs, ws, RUNNING_ONLY);
        }
      } else {
        CountSubset(execs, ws, RUNNING_ONLY, ACTIVE);
        if mode != Max {
          CountZero(execs, ws, ACTIVE);
        }
      }
      if mode == All {
        forall k | 0 <= k < |r.execs|
          ensures r.execs[k].status != RUNNING
        {
          UptoAt(|execs|, k);
        }
      }
      if mode == Blocking {
        forall k | 0 <= k < |r.execs| && Blocks(r.execs[k].target)
          ensures r.execs[k].status != RUNNING
        {
          WorkingSetMembers(mode, execs, k);
          if Active(execs[k]) {
            var j :| 0 <= j < |ws| && ws[j] == k;
          }
        }
      }
    }
  }

  // ---------------------------------------------------------- status line

  const CHECK_MARK: char := '\U{2705}'
  const CROSS_MARK: char := '\U{274C}'

  /** The line `awaitExecutions` prints under an execution's folder. */
  function StatusLine(e: Execution): string {
    var completed := e.passes + e.warns + e.fails;
    if e.status == UNKNOWN then "  Status couldn't be retrieved"
    else if e.status == RUNNING then
      "  " + IntToString(completed) + "/" + IntToString(e.total) + " tests completed with " +
      IntToString(e.passes) + " passes, " + IntToString(e.warns) + " warnings and " +
      IntToString(e.fails) + " failures (running for " + e.duration + ")"
    else
      "  " + [if e.status == PASSED then CHECK_MARK else CROSS_MARK] + " " +
      IntToString(e.passes) + " passed, " + IntToString(e.warns) + " passed with warnings, " +
      IntToString(e.fails) + " failed" +
      (if e.total > completed then " (" + IntToString(e.total - completed) + " never started)" else "")
  }

  /**
   * For a settled execution the line shows a check mark exactly when it
   * passed, and ends with the "never started" remark exactly when fewer
   * tests completed than were planned.
   */
  lemma StatusLineSettled(e: Execution)
    requires e.status != UNKNOWN && e.status != RUNNING
    ensures |StatusLine(e)| > 3
    ensures StatusLine(e)[2] == CHECK_MARK <==> e.status == PASSED
    ensures StatusLine(e)[|StatusLine(e)| - 1] == ')' <==> e.total > e.passes + e.warns + e.fails
  {
  }

  // ------------------------------------------------------------ launching

  /** The form's test scripts that mark a folder's load scripts. */
  const LOADSCRIPT_MARKER: string := "load-resources-purgecreateupdate"

  /** A load script outside a `_LoadResources` folder is not selected. */
  predicate Excluded(value: string, isLoadscriptFolder: bool) {
    Contains(value, LOADSCRIPT_MARKER) && !isLoadscriptFolder
  }

  /** The selected test scripts, in form order. */
  function Kept(values: seq<string>, isLoadscriptFolder: bool): seq<string> {
    if values == [] then []
    else
      var last := values[|values| - 1];
      Kept(values[..|values| - 1], isLoadscriptFolder) + (if Excluded(last, isLoadscriptFolder) then [] else [last])
  }

  /** The test scripts `executeTarget` ticks, and whether "all selected" stays on. */
  method SelectTestScripts(values: seq<string>, isLoadscriptFolder: bool) returns (selected: seq<string>, selectAll: bool)
    ensures selected == Kept(values, isLoadscriptFolder)
    ensures selectAll <==> forall i :: 0 <= i < |values| ==> !Excluded(values[i], isLoadscriptFolder)
  {
    selectAll := true;
    selected := [];
    for i := 0 to |values|
      invariant selected == Kept(values[..i], isLoadscriptFolder)
      invariant selectAll <==> forall j :: 0 <= j < i ==> !Excluded(values[j], isLoadscriptFolder)
    {
      assert values[..i + 1][..i] == values[..i];
      if Excluded(values[i], isLoadscriptFolder) {
        selectAll := false;
      } else {
        selected := selected + [values[i]];
      }
    }
    assert values[..|values|] == values;
  }

  /** A script is selected iff it is on the form and not an excluded load script. */
  lemma {:induction false} KeptMembers(values: seq<string>, isLoadscriptFolder: bool, v: string)
    ensures v in Kept(values, isLoadscriptFolder) <==> v in values && !Excluded(v, isLoadscriptFolder)
  {
    if values != [] {
      var init := values[..|values| - 1];
      KeptMembers(init, isLoadscriptFolder, v);
      assert values == init + [values[|values| - 1]];
    }
  }

  /** In a `_LoadResources` folder every script is selected. */
  lemma {:induction false} LoadFolderKeepsAll(values: seq<string>)
    ensures Kept(values, true) == values
  {
    if values != [] {
      LoadFolderKeepsAll(values[..|values| - 1]);
      assert values == values[..|values| - 1] + [values[|values| - 1]];
    }
  }

  /** The params an execution is set up with: "T" defaults to the session's date. */
  function DefaultT(params: Option<map<string, Value>>, dateT: string): map<string, Value> {
    match params
    case None => map["T" := Str(dateT)]
    case Some(p) => if "T" in p then p else p["T" := Str(dateT)]
  }

  /**
   * The params keep every key and value they had and gain "T", which is
   * the session's date unless they already set it.
   */
  lemma DefaultTProperties(params: Option<map<string, Value>>, dateT: string)
    ensures "T" in DefaultT(params, dateT)
    ensures DefaultT(params, dateT).Keys == (if params.Some? then params.value.Keys else {}) + {"T"}
    ensures params.Some? ==> forall k :: k in params.value ==> DefaultT(params, dateT)[k] == params.value[k]
    ensures params.None? || "T" !in params.value ==> DefaultT(params, dateT)["T"] == Str(dateT)
  {
  }

  /** Defaulting twice changes nothing, whatever the second date. */
  lemma DefaultTIdempotent(params: Option<map<string, Value>>, dateT: string, later: string)
    ensures DefaultT(Some(DefaultT(params, dateT)), later) == DefaultT(params, dateT)
  {
  }

  const EXECUTION_URL: string := "https://touchstone.aegis.net/touchstone/execution?exec="

  /** The execution id: the page address with every copy of the execution URL removed. */
  function ExtractId(url: string): string {
    ReplaceAll(url, EXECUTION_URL, "")
  }

  /** The id is read back from the address of the execution page. */
  lemma ExtractIdOfUrl(id: string)
    requires !Contains(id, EXECUTION_URL)
    ensures ExtractId(EXECUTION_URL + id) == id
  {
    var s := EXECUTION_URL + id;
    assert s[..|EXECUTION_URL|] == EXECUTION_URL;
    assert s[|EXECUTION_URL|..] == id;
    ReplaceAllAbsent(id, EXECUTION_URL, "");
  }

  /** A launch: HTTP status of the submitted setup form and the address it led to. */
  datatype LaunchReply = LaunchReply(code: int, url: string)

  /** The executions after a launch: a new one is recorded only on HTTP 200. */
  function Launched(execs: seq<Execution>, dateT: string, target: ExecutionTarget, reply: LaunchReply): seq<Execution> {
    if reply.code == 200 then
      execs + [Started(target.(params := DefaultT(Some(target.params), dateT)), ExtractId(reply.url))]
    else execs
  }

  /** `executeTarget`: wait for a free slot, then launch. */
  function ExecuteTargetRun(execs: seq<Execution>, dateT: string, target: ExecutionTarget, reply: LaunchReply, feed: seq<PollResponse>): Run {
    var w := Await(Max, execs, feed);
    if w.stop != Finished then w else w.(execs := Launched(w.execs, dateT, target, reply))
  }

  /**
   * A launch happens with fewer than `MAX_PARALLEL_EXECUTIONS` executions
   * running, so right after it that is still true.
   */
  lemma ExecuteTargetRespectsMax(execs: seq<Execution>, dateT: string, target: ExecutionTarget, reply: LaunchReply, feed: seq<PollResponse>)
    ensures var r := ExecuteTargetRun(execs, dateT, target, reply, feed);
      r.stop == Finished ==> CountStatus(r.execs, Upto(|r.execs|), RUNNING_ONLY) < MAX_PARALLEL_EXECUTIONS
  {
    var w := Await(Max, execs, feed);
    AwaitSettles(Max, execs, feed);
    LaunchKeepsRunning(w.execs, dateT, target, reply);
  }

  /** A launch records an execution that is not yet "Running", so the number running is unchanged. */
  lemma LaunchKeepsRunning(execs: seq<Execution>, dateT: string, target: ExecutionTarget, reply: LaunchReply)
    ensures var l := Launched(execs, dateT, target, reply);
      CountStatus(l, Upto(|l|), RUNNING_ONLY) == CountStatus(execs, Upto(|execs|), RUNNING_ONLY)
  {
    var l := Launched(execs, dateT, target, reply);
    if reply.code == 200 {
      var n := |execs|;
      assert Upto(n + 1)[..n] == Upto(n);
      CountFrame(execs, l, Upto(n), RUNNING_ONLY);
    }
  }

  // ---------------------------------------------- ts.py:281 as written

  /** Evaluating an undefined name. */
  datatype NameError = NameError(name: string)

  /**
   * The blocking condition of `executeTargets` as written: with start_only
   * set it evaluates `len(unwrapped)`, and `unwrapped` is not defined.
   */
  function BlockingWaitAsWritten(block: Option<Value>, startOnly: bool): (r: Result<bool, NameError>)
    ensures r.Err? <==> startOnly && block.Some? && Truthy(block.value)
    ensures r.Ok? ==> (r.value <==> block.Some? && Truthy(block.value))
  {
    if !(block.Some? && Truthy(block.value)) then Ok(false)
    else if !startOnly then Ok(true)
    else Err(NameError("unwrapped"))
  }

  /** A blocking target with start_only set makes the condition raise. */
  lemma StartOnlyBlockingRaises()
    ensures BlockingWaitAsWritten(Some(Bool(true)), true) == Err(NameError("unwrapped"))
  {
  }

  /**
   * The condition as intended: wait for a blocking target, except for the
   * last one when start_only is set. Position `i` of `n` targets.
   */
  function NeedsBlockingWait(t: ExecutionTarget, i: nat, n: nat, startOnly: bool): (w: bool)
    ensures w ==> Blocks(t)
    ensures Blocks(t) && !startOnly ==> w
    ensures Blocks(t) && startOnly ==> (w <==> i + 1 != n)
  {
    Blocks(t) && (!startOnly || i != n - 1)
  }

  /** Wherever the written condition evaluates, it agrees with the intended one. */
  lemma BlockingWaitAgrees(t: ExecutionTarget, i: nat, n: nat, startOnly: bool)
    requires BlockingWaitAsWritten(t.block, startOnly).Ok?
    ensures BlockingWaitAsWritten(t.block, startOnly).value == NeedsBlockingWait(t, i, n, startOnly)
  {
  }

  // ------------------------------------------------------ executeTargets

  /** The launch loop after its first `n` targets. */
  function StepsRun(execs: seq<Execution>, dateT: string, targets: seq<ExecutionTarget>, startOnly: bool,
                    replies: seq<LaunchReply>, feed: seq<PollResponse>, n: nat): Run
    requires n <= |targets|
    decreases n, 0
  {
    if n == 0 then Run(execs, feed, Finished)
    else AfterTarget(execs, dateT, targets, startOnly, replies, feed, n - 1)
  }

  /** The launch loop after target `i`: the body runs only if nothing stopped the loop before it. */
  function AfterTarget(execs: seq<Execution>, dateT: string, targets: seq<ExecutionTarget>, startOnly: bool,
                       replies: seq<LaunchReply>, feed: seq<PollResponse>, i: nat): Run
    requires i < |targets|
    decreases i, 2
  {
    var r := StepsRun(execs, dateT, targets, startOnly, replies, feed, i);
    if r.stop != Finished then r else LaunchBody(execs, dateT, targets, startOnly, replies, feed, i)
  }

  /** The body of the launch loop for target `i`, run on the state the first `i` targets left. */
  function LaunchBody(execs: seq<Execution>, dateT: string, targets: seq<ExecutionTarget>, startOnly: bool,
                      replies: seq<LaunchReply>, feed: seq<PollResponse>, i: nat): Run
    requires i < |targets|
    decreases i, 1
  {
    Step(StepsRun(execs, dateT, targets, startOnly, replies, feed, i), dateT, targets, startOnly, replies, i)
  }

  /** The body of the launch loop for target `i`. */
  function Step(r: Run, dateT: string, targets: seq<ExecutionTarget>, startOnly: bool, replies: seq<LaunchReply>, i: nat): (s: Run)
    requires i < |targets|
    ensures s.stop == Finished ==> i < |replies| && |r.execs| <= |s.execs| <= |r.execs| + 1
  {
    if i >= |replies| then r.(stop := OutOfResponses)
    else
      var s := ExecuteTargetRun(r.execs, dateT, targets[i], replies[i], r.feed);
      if s.stop == Finished && NeedsBlockingWait(targets[i], i, |targets|, startOnly) then
        Await(Blocking, s.execs, s.feed)
      else s
  }

  /** Target `n - 1` runs the loop body on what the targets before it left, unless they stopped the loop. */
  lemma StepsRunNext(execs: seq<Execution>, dateT: string, targets: seq<ExecutionTarget>, startOnly: bool,
                     replies: seq<LaunchReply>, feed: seq<PollResponse>, n: nat)
    requires 1 <= n <= |targets|
    ensures var r := StepsRun(execs, dateT, targets, startOnly, replies, feed, n - 1);
      StepsRun(execs, dateT, targets, startOnly, replies, feed, n) ==
        if r.stop != Finished then r else Step(r, dateT, targets, startOnly, replies, n - 1)
  {
    assert LaunchBody(execs, dateT, targets, startOnly, replies, feed, n - 1) ==
      Step(StepsRun(execs, dateT, targets, startOnly, replies, feed, n - 1), dateT, targets, startOnly, replies, n - 1);
  }

  /** `executeTargets`: launch every target in order, then wait for all unless start_only. */
  function ExecuteTargetsRun(execs: seq<Execution>, dateT: string, targets: seq<ExecutionTarget>, startOnly: bool,
                             replies: seq<LaunchReply>, feed: seq<PollResponse>): (r: Run)
    ensures r.stop == Finished ==> |targets| <= |replies| && Ids(r.execs) == Ids(execs) + StartedIds(replies[..|targets|])
  {
    var w := StepsRun(execs, dateT, targets, startOnly, replies, feed, |targets|);
    StepsIds(execs, dateT, targets, startOnly, replies, feed, |targets|);
    AwaitIds(All, w.execs, w.feed);
    if w.stop != Finished || startOnly then w else Await(All, w.execs, w.feed)
  }

  /** Once the launch loop has stopped early, later targets change nothing. */
  lemma {:induction false} StepsStopPersists(execs: seq<Execution>, dateT: string, targets: seq<ExecutionTarget>, startOnly: bool,
                                             replies: seq<LaunchReply>, feed: seq<PollResponse>, n: nat)
    requires n <= |targets| && StepsRun(execs, dateT, targets, startOnly, replies, feed, n).stop != Finished
    ensures StepsRun(execs, dateT, targets, startOnly, replies, feed, |targets|) == StepsRun(execs, dateT, targets, startOnly, replies, feed, n)
    decreases |targets| - n
  {
    if n < |targets| {
      StepsStopPersists(execs, dateT, targets, startOnly, replies, feed, n + 1);
    }
  }

  /** The ids of the executions, in list order. */
  function Ids(execs: seq<Execution>): (ids: seq<string>)
    ensures |ids| == |execs| && forall k {:trigger ids[k]} :: 0 <= k < |execs| ==> ids[k] == execs[k].executionId
  {
    if execs == [] then [] else Ids(execs[..|execs| - 1]) + [execs[|execs| - 1].executionId]
  }

  /** The ids of the launches that were accepted, in launch order. */
  function StartedIds(replies: seq<LaunchReply>): seq<string> {
    if replies == [] then []
    else
      var last := replies[|replies| - 1];
      StartedIds(replies[..|replies| - 1]) + (if last.code == 200 then [ExtractId(last.url)] else [])
  }

  lemma EvolvesKeepsIds(a: seq<Execution>, b: seq<Execution>, ws: seq<nat>)
    requires Evolves(a, b, ws)
    ensures Ids(a) == Ids(b)
  {
  }

  /** One launch adds the id of an accepted launch after the ids already there. */
  lemma StepIds(r: Run, dateT: string, targets: seq<ExecutionTarget>, startOnly: bool, replies: seq<LaunchReply>, i: nat)
    requires i < |targets|
    ensures var s := Step(r, dateT, targets, startOnly, replies, i);
      s.stop == Finished ==> (i < |replies| &&
        Ids(s.execs) == Ids(r.execs) + (if replies[i].code == 200 then [ExtractId(replies[i].url)] else []))
  {
    if i < |replies| {
      var s := ExecuteTargetRun(r.execs, dateT, targets[i], replies[i], r.feed);
      ExecuteTargetIds(r.execs, dateT, targets[i], replies[i], r.feed);
      if s.stop == Finished {
        AwaitIds(Blocking, s.execs, s.feed);
      }
    }
  }

  /** A wait keeps the ids. */
  lemma AwaitIds(mode: AwaitMode, execs: seq<Execution>, feed: seq<PollResponse>)
    ensures Ids(Await(mode, execs, feed).execs) == Ids(execs)
  {
    AwaitKeeps(mode, execs, feed);
    EvolvesKeepsIds(execs, Await(mode, execs, feed).execs, WorkingSet(mode, execs));
  }

  /** `executeTarget` adds the id of an accepted launch after the ids already there. */
  lemma ExecuteTargetIds(execs: seq<Execution>, dateT: string, target: ExecutionTarget, reply: LaunchReply, feed: seq<PollResponse>)
    ensures var s := ExecuteTargetRun(execs, dateT, target, reply, feed);
      s.stop == Finished ==> Ids(s.execs) == Ids(execs) + (if reply.code == 200 then [ExtractId(reply.url)] else [])
  {
    var w := Await(Max, execs, feed);
    AwaitIds(Max, execs, feed);
    var s := ExecuteTargetRun(execs, dateT, target, reply, feed);
    if s.stop == Finished && reply.code == 200 {
      assert s.execs[..|w.execs|] == w.execs;
    }
  }

  lemma StartedIdsSnoc(replies: seq<LaunchReply>, n: nat)
    requires 1 <= n <= |replies|
    ensures StartedIds(replies[..n]) ==
      StartedIds(replies[..n - 1]) + (if replies[n - 1].code == 200 then [ExtractId(replies[n - 1].url)] else [])
  {
    assert replies[..n][..n - 1] == replies[..n - 1];
  }

  lemma AppendAssociative(a: seq<string>, b: seq<string>, c: seq<string>)
    ensures (a + b) + c == a + (b + c)
  {
  }

  /**
   * After the first `n` launches the session holds the executions it had,
   * with their ids, followed by one new execution per accepted launch, in
   * launch order, with the id taken from its address.
   */
  lemma {:induction false} StepsIds(execs: seq<Execution>, dateT: string, targets: seq<ExecutionTarget>, startOnly: bool,
                                    replies: seq<LaunchReply>, feed: seq<PollResponse>, n: nat)
    requires n <= |targets|
    ensures var r := StepsRun(execs, dateT, targets, startOnly, replies, feed, n);
      r.stop == Finished ==> n <= |replies| && Ids(r.execs) == Ids(execs) + StartedIds(replies[..n])
  {
    if n > 0 {
      StepsIds(execs, dateT, targets, startOnly, replies, feed, n - 1);
      StepsRunIds(execs, dateT, targets, startOnly, replies, feed, n);
      var r := StepsRun(execs, dateT, targets, startOnly, replies, feed, n - 1);
      var s := StepsRun(execs, dateT, targets, startOnly, replies, feed, n);
      if s.stop == Finished {
        IdsExtend(execs, r.execs, s.execs, replies, n);
      }
    }
  }

  /** Target `n - 1` of the loop: it runs only after the loop got that far, and adds the id of an accepted launch. */
  lemma StepsRunIds(execs: seq<Execution>, dateT: string, targets: seq<ExecutionTarget>, startOnly: bool,
                    replies: seq<LaunchReply>, feed: seq<PollResponse>, n: nat)
    requires 1 <= n <= |targets|
    ensures var r := StepsRun(execs, dateT, targets, startOnly, replies, feed, n - 1);
      var s := StepsRun(execs, dateT, targets, startOnly, replies, feed, n);
      s.stop == Finished ==>
        r.stop == Finished && n <= |replies| &&
        Ids(s.execs) == Ids(r.execs) + (if replies[n - 1].code == 200 then [ExtractId(replies[n - 1].url)] else [])
  {
    var r := StepsRun(execs, dateT, targets, startOnly, replies, feed, n - 1);
    StepsRunNext(execs, dateT, targets, startOnly, replies, feed, n);
    if r.stop == Finished {
      StepIds(r, dateT, targets, startOnly, replies, n - 1);
      assert StepsRun(execs, dateT, targets, startOnly, replies, feed, n) == Step(r, dateT, targets, startOnly, replies, n - 1);
    } else {
      assert StepsRun(execs, dateT, targets, startOnly, replies, feed, n) == r;
    }
  }

  /** One more launch adds its id, if it was accepted, to the ids of the launches before it. */
  lemma IdsExtend(execs: seq<Execution>, before: seq<Execution>, after: seq<Execution>, replies: seq<LaunchReply>, n: nat)
    requires 1 <= n <= |replies|
    requires Ids(before) == Ids(execs) + StartedIds(replies[..n - 1])
    requires Ids(after) == Ids(before) + (if replies[n - 1].code == 200 then [ExtractId(replies[n - 1].url)] else [])
    ensures Ids(after) == Ids(execs) + StartedIds(replies[..n])
  {
    StartedIdsSnoc(replies, n);
    var last := replies[n - 1];
    AppendAssociative(Ids(execs), StartedIds(replies[..n - 1]), if last.code == 200 then [ExtractId(last.url)] else []);
  }

  /**
   * A completed `executeTargets` records one execution per accepted launch
   * after the ones it had; without start_only none of them is left
   * "Running".
   */
  lemma ExecuteTargetsOutcome(execs: seq<Execution>, dateT: string, targets: seq<ExecutionTarget>, startOnly: bool,
                              replies: seq<LaunchReply>, feed: seq<PollResponse>)
    ensures var r := ExecuteTargetsRun(execs, dateT, targets, startOnly, replies, feed);
      r.stop == Finished ==>
        |targets| <= |replies| && Ids(r.execs) == Ids(execs) + StartedIds(replies[..|targets|]) &&
        (!startOnly ==> forall k :: 0 <= k < |r.execs| ==> r.execs[k].status != RUNNING)
  {
    var r := StepsRun(execs, dateT, targets, startOnly, replies, feed, |targets|);
    StepsIds(execs, dateT, targets, startOnly, replies, feed, |targets|);
    if r.stop == Finished && !startOnly {
      AwaitKeeps(All, r.execs, r.feed);
      EvolvesKeepsIds(r.execs, Await(All, r.execs, r.feed).execs, WorkingSet(All, r.execs));
      AwaitSettles(All, r.execs, r.feed);
    }
  }

  /**
   * After a target that needs the blocking wait, no blocking execution is
   * still "Running" when the loop goes on to the next target.
   */
  lemma BlockingTargetAwaited(execs: seq<Execution>, dateT: string, targets: seq<ExecutionTarget>, startOnly: bool,
                              replies: seq<LaunchReply>, feed: seq<PollResponse>, n: nat)
    requires 1 <= n <= |targets| && NeedsBlockingWait(targets[n - 1], n - 1, |targets|, startOnly)
    ensures var r := StepsRun(execs, dateT, targets, startOnly, replies, feed, n);
      r.stop == Finished ==> forall k :: 0 <= k < |r.execs| && Blocks(r.execs[k].target) ==> r.execs[k].status != RUNNING
  {
    var r := StepsRun(execs, dateT, targets, startOnly, replies, feed, n - 1);
    StepsRunNext(execs, dateT, targets, startOnly, replies, feed, n);
    if r.stop == Finished && n - 1 < |replies| {
      var s := ExecuteTargetRun(r.execs, dateT, targets[n - 1], replies[n - 1], r.feed);
      AwaitSettles(Blocking, s.execs, s.feed);
    }
  }

  // ------------------------------------------------------------ session

  /** The session: the executions it started and the date used for "T". */
  class Touchstone {
    var executions: seq<Execution>
    var dateT: string

    constructor(dateT: string)
      ensures executions == [] && this.dateT == dateT
    {
      executions := [];
      this.dateT := dateT;
    }

    /** One pass over the working set, as `awaitExecutions` polls it. */
    method PollOnce(ws: seq<nat>, feed: seq<PollResponse>) returns (rest: seq<PollResponse>, stop: Stop)
      requires InRange(ws, |executions|)
      modifies this
      ensures Run(executions, rest, stop) == PollPass(old(executions), ws, feed)
      ensures dateT == old(dateT)
    {
      ghost var e0 := executions;
      rest, stop := feed, Finished;
      for j := 0 to |ws|
        invariant |executions| == |e0|
        invariant Run(executions, rest, stop) == PollPass(e0, ws[..j], feed)
        invariant dateT == old(dateT)
      {
        assert ws[..j + 1][..j] == ws[..j];
        var i := ws[j];
        if Active(executions[i]) {
          if rest == [] {
            stop := OutOfResponses;
            PassStopPersists(e0, ws, feed, j + 1);
            return;
          }
          var a := ApplyResponse(executions[i], rest[0]);
          executions := executions[i := a.e];
          rest := rest[1..];
          if a.raised {
            stop := Raised;
            PassStopPersists(e0, ws, feed, j + 1);
            return;
          }
        }
      }
      assert ws[..|ws|] == ws;
    }

    /** `awaitExecutions(mode)`. */
    method AwaitExecutions(mode: AwaitMode, feed: seq<PollResponse>) returns (rest: seq<PollResponse>, stop: Stop)
      modifies this
      ensures Run(executions, rest, stop) == Await(mode, old(executions), feed)
      ensures dateT == old(dateT)
    {
      var ws := WorkingSet(mode, executions);
      var waiting := Waits(mode, executions, ws, ACTIVE);
      rest, stop := feed, Finished;
      while waiting
        invariant |executions| == |old(executions)|
        invariant waiting ==> CountStatus(executions, ws, ACTIVE) > 0
        invariant AwaitLoop(mode, executions, ws, waiting, rest) == Await(mode, old(executions), feed)
        invariant stop == Finished && dateT == old(dateT)
        decreases |rest|
      {
        ghost var before, feedBefore := executions, rest;
        rest, stop := PollOnce(ws, rest);
        PassFrame(before, ws, feedBefore);
        PassProgress(before, ws, feedBefore);
        if stop != Finished {
          return;
        }
        waiting := Waits(mode, executions, ws, RUNNING_ONLY);
        CountSubset(executions, ws, RUNNING_ONLY, ACTIVE);
      }
    }

    /** `executeTarget`: wait for a free slot, default "T", and record the execution if it started. */
    method ExecuteTarget(target: ExecutionTarget, reply: LaunchReply, feed: seq<PollResponse>) returns (rest: seq<PollResponse>, stop: Stop)
      modifies this
      ensures Run(executions, rest, stop) == ExecuteTargetRun(old(executions), old(dateT), target, reply, feed)
      ensures dateT == old(dateT)
    {
      rest, stop := AwaitExecutions(Max, feed);
      if stop != Finished {
        return;
      }
      var launched := target.(params := DefaultT(Some(target.params), dateT));
      if reply.code == 200 {
        executions := executions + [Started(launched, ExtractId(reply.url))];
      }
    }

    /** The body of the launch loop of `executeTargets` for target `i`. */
    method LaunchStep(ghost e0: seq<Execution>, ghost feed0: seq<PollResponse>,
                      targets: seq<ExecutionTarget>, startOnly: bool, replies: seq<LaunchReply>, i: nat, feed: seq<PollResponse>)
      returns (rest: seq<PollResponse>, stop: Stop)
      requires i < |targets|
      requires Run(executions, feed, Finished) == StepsRun(e0, dateT, targets, startOnly, replies, feed0, i)
      modifies this
      ensures Run(executions, rest, stop) == StepsRun(e0, old(dateT), targets, startOnly, replies, feed0, i + 1)
      ensures dateT == old(dateT)
    {
      StepsRunNext(e0, dateT, targets, startOnly, replies, feed0, i + 1);
      if i >= |replies| {
        return feed, OutOfResponses;
      }
      rest, stop := ExecuteTarget(targets[i], replies[i], feed);
      if stop == Finished && NeedsBlockingWait(targets[i], i, |targets|, startOnly) {
        rest, stop := AwaitExecutions(Blocking, rest);
      }
    }

    /** `executeTargets`, with the blocking condition as intended. */
    method ExecuteTargets(targets: seq<ExecutionTarget>, startOnly: bool, replies: seq<LaunchReply>, feed: seq<PollResponse>)
      returns (rest: seq<PollResponse>, stop: Stop)
      modifies this
      ensures Run(executions, rest, stop) == ExecuteTargetsRun(old(executions), old(dateT), targets, startOnly, replies, feed)
      ensures dateT == old(dateT)
    {
      rest, stop := LaunchAll(targets, startOnly, replies, feed);
      if stop == Finished && !startOnly {
        rest, stop := AwaitExecutions(All, rest);
      }
    }

    /** The launch loop of `executeTargets`. */
    method LaunchAll(targets: seq<ExecutionTarget>, startOnly: bool, replies: seq<LaunchReply>, feed: seq<PollResponse>)
      returns (rest: seq<PollResponse>, stop: Stop)
      modifies this
      ensures Run(executions, rest, stop) == StepsRun(old(executions), old(dateT), targets, startOnly, replies, feed, |targets|)
      ensures dateT == old(dateT)
    {
      rest, stop := feed, Finished;
      var i := 0;
      while i < |targets| && stop == Finished
        invariant i <= |targets|
        invariant Run(executions, rest, stop) == StepsRun(old(executions), old(dateT), targets, startOnly, replies, feed, i)
        invariant dateT == old(dateT)
      {
        rest, stop := LaunchStep(old(executions), feed, targets, startOnly, replies, i, rest);
        i := i + 1;
      }
      if stop != Finished {
        StepsStopPersists(old(executions), old(dateT), targets, startOnly, replies, feed, i);
      }
    }
  }

  /** Once a pass has stopped early, the rest of the working set is not polled. */
  lemma {:induction false} PassStopPersists(execs: seq<Execution>, ws: seq<nat>, feed: seq<PollResponse>, n: nat)
    requires InRange(ws, |execs|) && n <= |ws| && PollPass(execs, ws[..n], feed).stop != Finished
    ensures PollPass(execs, ws, feed) == PollPass(execs, ws[..n], feed)
    decreases |ws| - n
  {
    if n < |ws| {
      assert ws[..n + 1][..n] == ws[..n];
      PassStopPersists(execs, ws, feed, n + 1);
    } else {
      assert ws[..n] == ws;
    }
  }

  // ------------------------------------------------------- small helpers

  const GROUP_ROOT: string := "/FHIRSandbox/Nictiz"

  /** Where `uploadTarget` puts a folder: its parent, its own name and the parent's test group. */
  datatype UploadLocation = UploadLocation(parentFolder: string, leafFolder: string, parentGroupPath: string)

  function UploadLocationOf(relPath: string): UploadLocation {
    var parts := Split(relPath, '/');
    var parent := Join(parts[..|parts| - 1], "/");
    UploadLocation(parent, parts[|parts| - 1], GROUP_ROOT + (if parent != "" then "/" + parent else ""))
  }

  /**
   * The folder name has no slash; with a slash in the path, parent and name
   * put back together give the path, and without one the folder goes
   * directly under the root group.
   */
  lemma UploadLocationRebuilds(relPath: string)
    ensures '/' !in UploadLocationOf(relPath).leafFolder
    ensures '/' in relPath ==> UploadLocationOf(relPath).parentFolder + "/" + UploadLocationOf(relPath).leafFolder == relPath
    ensures '/' !in relPath ==> UploadLocationOf(relPath) == UploadLocation("", relPath, GROUP_ROOT)
    ensures StartsWith(UploadLocationOf(relPath).parentGroupPath, GROUP_ROOT)
  {
    var parts := Split(relPath, '/');
    JoinSplit(relPath, '/');
    if |parts| >= 2 {
      JoinInit(parts, "/");
      var init := Join(parts[..|parts| - 1], "/");
      assert relPath == init + "/" + parts[|parts| - 1];
      assert relPath[|init|] == '/';
    } else {
      assert relPath == parts[0];
    }
  }

  /** The ids of the dropdowns that may receive value `i` of an origin or destination list. */
  function DropdownIds(kind: string, i: nat): seq<string> {
    if i == 0 then ["main" + Lower(kind) + "1TsSelect", "single" + Capitalize(kind) + "TsSelect"]
    else ["main" + Lower(kind) + NatToString(i + 1) + "TsSelect"]
  }

  /** The `main` dropdown id of value `i`. */
  lemma MainDropdownId(kind: string, i: nat)
    ensures DropdownIds(kind, i)[0] == "main" + Lower(kind) + NatToString(i + 1) + "TsSelect"
  {
  }

  /** Different values of the list go to different dropdowns. */
  lemma DropdownIdsDistinct(kind: string, i: nat, j: nat)
    requires i != j
    ensures forall a, b :: a in DropdownIds(kind, i) && b in DropdownIds(kind, j) ==> a != b
  {
    forall a, b | a in DropdownIds(kind, i) && b in DropdownIds(kind, j)
      ensures a != b
    {
      var m := "main" + Lower(kind);
      MainDropdownId(kind, i);
      MainDropdownId(kind, j);
      if a == b && a[0] == 'm' && b[0] == 'm' {
        var ni, nj := NatToString(i + 1), NatToString(j + 1);
        assert a == m + ni + "TsSelect" && b == m + nj + "TsSelect";
        assert |ni| == |nj|;
        assert ni == a[|m|..|m| + |ni|];
        assert nj == b[|m|..|m| + |nj|];
        NatToStringInjective(i + 1, j + 1);
      }
    }
  }
}
