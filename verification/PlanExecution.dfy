/** The whole task over a plan: which runs it reaches, what it reports, and the tracker it leaves; and the
    plan split into single-run plans executed one after another. */
module PlanExecution {
  import opened RuntimeCache
  import opened RunTracker
  import opened RunExecutor

  predicate RunOk(plan: Plan, i: nat, w: World) {
    i < |plan.runs| ==>
      plan.runs[i].RunSpec? && EndingOf(plan.runs[i], IdOf(plan.runs, i), plan.precheck, w) == Completed
  }

  /** The first run that does not succeed, or the number of runs. */
  function FirstBadRun(plan: Plan, w: World): (i: nat)
    ensures i <= |plan.runs| && (forall j: nat | j < i :: RunOk(plan, j, w)) && (i < |plan.runs| ==> !RunOk(plan, i, w))
  {
    var ok := (i: nat) => RunOk(plan, i, w);
    var bad := FirstBad(|plan.runs|, ok);
    assert forall j: nat | j < bad :: RunOk(plan, j, w) by { forall j: nat | j < bad ensures RunOk(plan, j, w) { assert ok(j); } }
    bad
  }

  /** How many runs the loop reaches. */
  function Reached(plan: Plan, w: World): (n: nat)
    ensures n <= |plan.runs|
  {
    var bad := FirstBadRun(plan, w);
    if plan.stopOnFailure && bad < |plan.runs| then bad + 1 else |plan.runs|
  }

  function Successes(plan: Plan, w: World, n: nat): (r: nat)
    requires n <= |plan.runs|
    ensures r <= n
  {
    if n == 0 then 0 else Successes(plan, w, n - 1) + if RunOk(plan, n - 1, w) then 1 else 0
  }

  function Results(plan: Plan, w: World, n: nat): seq<RunResult>
    requires n <= |plan.runs|
  {
    if n == 0 then []
    else if plan.runs[n - 1].Malformed? then Results(plan, w, n - 1)
    else Results(plan, w, n - 1) + [ResultOf(plan.runs[n - 1], IdOf(plan.runs, n - 1), plan.precheck, w)]
  }

  /** The connectivity checks of a whole task after its first n runs, in order. */
  ghost function PlanLog(plan: Plan, w: World, n: nat): seq<Check>
    requires n <= |plan.runs|
  {
    if n == 0 then []
    else if plan.runs[n - 1].Malformed? then PlanLog(plan, w, n - 1)
    else RunLog(PlanLog(plan, w, n - 1), plan.runs[n - 1], IdOf(plan.runs, n - 1), plan.precheck, w)
  }

  /** What a task reports. Without an inventory no run is looked at and all of them count as failed. */
  function ReportOf(plan: Plan, w: World): Report {
    if !w.resolvable then Report(false, 0, if |plan.runs| > 0 then |plan.runs| else 1, [])
    else
      var n := Reached(plan, w);
      Report(Successes(plan, w, n) == n, Successes(plan, w, n), n - Successes(plan, w, n), Results(plan, w, n))
  }

  /** The loop stopped at a run whose prechecks or actions failed; only then are waiting runs marked. */
  predicate MarksSkipped(plan: Plan, w: World) {
    var bad := FirstBadRun(plan, w);
    plan.stopOnFailure && bad < |plan.runs| && plan.runs[bad].RunSpec?
    && EndingOf(plan.runs[bad], IdOf(plan.runs, bad), plan.precheck, w) != NoRuntime
  }

  /** The entry of the i-th run once the first n runs have been executed and the others are `rest`. */
  ghost function EntryAt(plan: Plan, n: nat, rest: Status, i: nat, w: World): RunEntry
    requires i < |plan.runs| && plan.runs[i].RunSpec?
  {
    if i < n then EntryAfter(plan.runs[i], IdOf(plan.runs, i), plan.precheck, w)
    else PendingRun(plan.runs[i].phases).(status := rest)
  }

  /** The tracker has exactly one entry per run, each as it should be after n runs. */
  ghost predicate TracksAt(entries: map<string, RunEntry>, plan: Plan, n: nat, rest: Status, w: World) {
    && entries.Keys == (set i | 0 <= i < |plan.runs| && plan.runs[i].RunSpec? :: IdOf(plan.runs, i))
    && forall i: nat | i < |plan.runs| && plan.runs[i].RunSpec? ::
        entries[IdOf(plan.runs, i)] == EntryAt(plan, n, rest, i, w)
  }

  /** The tracker at the end of a run task. */
  ghost predicate FinallyTracks(entries: map<string, RunEntry>, plan: Plan, w: World) {
    if !w.resolvable then TracksAt(entries, plan, 0, Failed, w)
    else TracksAt(entries, plan, Reached(plan, w), if MarksSkipped(plan, w) then Skipped else Pending, w)
  }

  lemma TrackerStarts(plan: Plan, w: World)
    requires DistinctIds(plan.runs)
    ensures TracksAt(Built(plan.runs, |plan.runs|), plan, 0, Pending, w)
  {
    BuiltHasRuns(plan.runs, |plan.runs|);
  }

  /** Executing the n-th run moves the tracker on by one. */
  lemma TrackerSteps(entries: map<string, RunEntry>, plan: Plan, n: nat, w: World)
    requires DistinctIds(plan.runs) && n < |plan.runs| && TracksAt(entries, plan, n, Pending, w)
    ensures plan.runs[n].Malformed? ==> TracksAt(entries, plan, n + 1, Pending, w)
    ensures plan.runs[n].RunSpec? ==>
      var id := IdOf(plan.runs, n);
      id in entries && entries[id] == PendingRun(plan.runs[n].phases)
      && TracksAt(entries[id := EntryAfter(plan.runs[n], id, plan.precheck, w)], plan, n + 1, Pending, w)
  {
    hide EntryAfter, PendingRun, IdOf;
    PendingIsPending(plan);
    if plan.runs[n].RunSpec? { assert IdOf(plan.runs, n) in entries; }
  }

  lemma PendingIsPending(plan: Plan)
    ensures forall i | 0 <= i < |plan.runs| && plan.runs[i].RunSpec? ::
      PendingRun(plan.runs[i].phases).(status := Pending) == PendingRun(plan.runs[i].phases)
  {
  }

  /** An executed run is no longer pending. */
  lemma ExecutedIsSettled(run: RunSpec, id: string, precheck: bool, w: World)
    requires run.RunSpec?
    ensures EntryAfter(run, id, precheck, w).status
            == if EndingOf(run, id, precheck, w) == Completed then Succeeded else Failed
  {
    hide EndingOf, PhasesAfter;
  }

  lemma SkippingMarksTheRest(entries: map<string, RunEntry>, plan: Plan, n: nat, w: World)
    requires TracksAt(entries, plan, n, Pending, w)
    ensures TracksAt(SkipPending(entries), plan, n, Skipped, w)
  {
    hide EndingOf, EntryAfter;
    forall i: nat | i < |plan.runs| && plan.runs[i].RunSpec?
      ensures SkipPending(entries)[IdOf(plan.runs, i)] == EntryAt(plan, n, Skipped, i, w)
    {
      assert IdOf(plan.runs, i) in entries;
      ExecutedIsSettled(plan.runs[i], IdOf(plan.runs, i), plan.precheck, w);
    }
  }

  lemma FailingMarksAll(entries: map<string, RunEntry>, failed: map<string, RunEntry>, plan: Plan, w: World)
    requires TracksAt(entries, plan, 0, Pending, w) && failed.Keys == entries.Keys
    requires forall id | id in failed :: failed[id] == entries[id].(status := Failed)
    ensures TracksAt(failed, plan, 0, Failed, w)
  {
  }

  /** The counters and results after i runs, and whether the loop has stopped there. */
  ghost predicate Counted(plan: Plan, w: World, i: nat, t: Report, stopped: bool) {
    && i <= |plan.runs|
    && t == Report(Successes(plan, w, i) == i, Successes(plan, w, i), i - Successes(plan, w, i), Results(plan, w, i))
    && (stopped ==> plan.stopOnFailure && i == FirstBadRun(plan, w) + 1)
    && (!stopped && plan.stopOnFailure ==> i <= FirstBadRun(plan, w))
  }

  lemma CountingStarts(plan: Plan, w: World)
    ensures Counted(plan, w, 0, Report(true, 0, 0, []), false)
  {
  }

  lemma MalformedCounts(plan: Plan, w: World, i: nat, t: Report)
    requires Counted(plan, w, i, t, false) && i < |plan.runs| && plan.runs[i].Malformed?
    ensures Counted(plan, w, i + 1, Report(false, t.completed, t.failed + 1, t.results), plan.stopOnFailure)
    ensures plan.stopOnFailure ==> !MarksSkipped(plan, w)
  {
    hide EndingOf, ResultOf;
    assert !RunOk(plan, i, w);
  }

  lemma RunCounts(plan: Plan, w: World, i: nat, t: Report)
    requires Counted(plan, w, i, t, false) && i < |plan.runs| && plan.runs[i].RunSpec?
    ensures var id := IdOf(plan.runs, i);
      var ending, results := EndingOf(plan.runs[i], id, plan.precheck, w), t.results + [ResultOf(plan.runs[i], id, plan.precheck, w)];
      if ending == Completed then Counted(plan, w, i + 1, Report(t.ok, t.completed + 1, t.failed, results), false)
      else
        && Counted(plan, w, i + 1, Report(false, t.completed, t.failed + 1, results), plan.stopOnFailure)
        && (plan.stopOnFailure ==> (MarksSkipped(plan, w) <==> ending != NoRuntime))
  {
    hide EndingOf, ResultOf;
    assert RunOk(plan, i, w) <==> EndingOf(plan.runs[i], IdOf(plan.runs, i), plan.precheck, w) == Completed;
  }

  lemma CountingEnds(plan: Plan, w: World, i: nat, t: Report, stopped: bool)
    requires Counted(plan, w, i, t, stopped) && (stopped || i == |plan.runs|) && w.resolvable
    ensures t == ReportOf(plan, w) && i == Reached(plan, w)
    ensures !stopped ==> !MarksSkipped(plan, w)
  {
    hide EndingOf, RunOk;
  }

  method FailAll(tracker: Tracker)
    modifies tracker
    ensures tracker.runs.Keys == old(tracker.runs).Keys
    ensures forall id | id in tracker.runs :: tracker.runs[id] == old(tracker.runs)[id].(status := Failed)
  {
    var ids := tracker.runs.Keys;
    ghost var before := tracker.runs;
    while ids != {}
      invariant ids <= before.Keys && tracker.runs.Keys == before.Keys
      invariant forall id | id in before ::
        tracker.runs[id] == if id in ids then before[id] else before[id].(status := Failed)
      decreases ids
    {
      var id :| id in ids;
      ids := ids - {id};
      tracker.SetRunStatus(id, Failed);
    }
  }

  /** The body of `execute_generated_plan_run_task` between claiming the record and dispatching the next one. */
  method ExecutePlan(plan: Plan, w: World) returns (r: Report, tracker: Tracker, cache: Cache)
    ensures fresh(tracker) && fresh(cache)
    ensures r == ReportOf(plan, w)
    ensures cache.Valid(w.known)
    ensures DistinctIds(plan.runs) ==> FinallyTracks(tracker.runs, plan, w)
    ensures cache.log == if w.resolvable then PlanLog(plan, w, Reached(plan, w)) else []
  {
    hide EndingOf, EntryAfter, ResultOf, PendingRun, SkipPending, TracksAt, Verified, IdOf, DistinctIds, Counted,
        ReportOf, Reached, MarksSkipped, RunLog;
    var runs := plan.runs;
    tracker := new Tracker(runs);
    cache := new Cache();
    ghost var distinct := DistinctIds(runs);
    if distinct { TrackerStarts(plan, w); }
    if !w.resolvable {
      ghost var entries := tracker.runs;
      FailAll(tracker);
      if distinct { FailingMarksAll(entries, tracker.runs, plan, w); }
      r := Report(false, 0, if |runs| > 0 then |runs| else 1, []);
      NoInventoryReport(plan, w);
      return;
    }
    var overallOk, completed, failed := true, 0, 0;
    var results: seq<RunResult> := [];
    var i, stopped := 0, false;
    ghost var rest := Pending;
    CountingStarts(plan, w);
    while i < |runs| && !stopped
      invariant i <= |runs| && cache.Valid(w.known)
      invariant Counted(plan, w, i, Report(overallOk, completed, failed, results), stopped)
      invariant rest == if stopped && MarksSkipped(plan, w) then Skipped else Pending
      invariant distinct ==> TracksAt(tracker.runs, plan, i, rest, w)
      invariant cache.log == PlanLog(plan, w, i)
      decreases |runs| - i, !stopped
    {
      if distinct { TrackerSteps(tracker.runs, plan, i, w); }
      if runs[i].Malformed? {
        MalformedCounts(plan, w, i, Report(overallOk, completed, failed, results));
        failed, overallOk := failed + 1, false;
        i, stopped := i + 1, plan.stopOnFailure;
        continue;
      }
      RunCounts(plan, w, i, Report(overallOk, completed, failed, results));
      var ending, result := ExecuteRun(runs[i], IdOf(runs, i), plan.precheck, w, tracker, cache);
      i, results := i + 1, results + [result];
      if ending == Completed {
        completed := completed + 1;
      } else {
        failed, overallOk := failed + 1, false;
        if plan.stopOnFailure && ending != NoRuntime {
          if distinct { SkippingMarksTheRest(tracker.runs, plan, i, w); }
          tracker.MarkPendingSkipped();
          rest := Skipped;
        }
        stopped := plan.stopOnFailure;
      }
    }
    r := Report(overallOk, completed, failed, results);
    CountingEnds(plan, w, i, r, stopped);
  }

  lemma NoInventoryReport(plan: Plan, w: World)
    requires !w.resolvable
    ensures ReportOf(plan, w) == Report(false, 0, if |plan.runs| > 0 then |plan.runs| else 1, [])
  {
  }
}
