/** What the tracker, the results and the counters say about each other, and what splitting a plan changes. */
module ExecutionTheorems {
  import opened Values
  import opened Ordering
  import opened RuntimeCache
  import opened RunTracker
  import opened RunExecutor
  import opened PlanExecution

  // ---------------------------------------------------------------- one run

  ghost predicate IsAction(phases: seq<PhasePlan>, p: nat, a: nat) {
    p < |phases| && a < |phases[p].actions|
  }

  /** Execution order of actions. */
  predicate Precedes(p: nat, a: nat, q: nat, b: nat) {
    p < q || (p == q && a < b)
  }

  ghost predicate AllActionsSucceed(phases: seq<PhasePlan>, id: string, w: World) {
    forall p: nat, a: nat | IsAction(phases, p, a) :: w.act(id, p, a)
  }

  /** The action names this node, as its target or among its targets. */
  predicate Names(action: ActionSpec, t: string) {
    t != "" && (Trim(action.target) == t || exists i | 0 <= i < |action.targets| :: Trim(action.targets[i]) == t)
  }

  ghost predicate IsNamed(phases: seq<PhasePlan>, t: string) {
    exists p: nat, a: nat | IsAction(phases, p, a) :: Names(phases[p].actions[a], t)
  }

  /** A precheck of these phases looks at this node: an inventory node that an action names, or any inventory node
      when the actions name none. */
  ghost predicate LooksAt(phases: seq<PhasePlan>, inventory: set<string>, t: string) {
    t in inventory && (IsNamed(phases, t) || forall u | u in inventory :: !IsNamed(phases, u))
  }

  /** Connectivity is checked before the first phase: it is asked for, and no action checks it itself. */
  ghost predicate ChecksFirst(phases: seq<PhasePlan>, precheck: bool) {
    precheck && forall p: nat, a: nat | IsAction(phases, p, a) :: phases[p].actions[a].kind != "check_connectivity"
  }

  ghost predicate RuntimeExists(run: RunSpec, w: World)
    requires run.RunSpec?
  {
    run.runtime != "" && run.runtime in w.envs
  }

  ghost predicate ChecksPass(run: RunSpec, id: string, precheck: bool, w: World)
    requires run.RunSpec?
  {
    ChecksFirst(run.phases, precheck) ==> forall t | LooksAt(run.phases, w.inventory, t) :: w.check(id, t)
  }

  ghost predicate RuntimeAndChecksPass(run: RunSpec, id: string, precheck: bool, w: World)
    requires run.RunSpec?
  {
    RuntimeExists(run, w) && ChecksPass(run, id, precheck, w)
  }

  lemma ConnectivityExactly(phases: seq<PhasePlan>, precheck: bool)
    ensures ChecksFirst(phases, precheck) <==> precheck && !HasConnectivity(phases)
  {
    if p: nat, a: nat :| IsAction(phases, p, a) && phases[p].actions[a].kind == CONNECTIVITY {
      assert phases[p] in phases && phases[p].actions[a] in phases[p].actions;
    }
    if HasConnectivity(phases) {
      var phase :| phase in phases && exists a | a in phase.actions :: a.kind == CONNECTIVITY;
      var p :| 0 <= p < |phases| && phases[p] == phase;
      var a :| 0 <= a < |phase.actions| && phase.actions[a].kind == CONNECTIVITY;
      assert IsAction(phases, p, a);
    }
  }

  lemma NamedExactly(phases: seq<PhasePlan>, t: string)
    ensures t in RunTargets(phases) <==> IsNamed(phases, t)
  {
    if t in RunTargets(phases) {
      var phase, action :| phase in phases && action in phase.actions && t in ActionTargets(action);
      var p :| 0 <= p < |phases| && phases[p] == phase;
      var a :| 0 <= a < |phase.actions| && phase.actions[a] == action;
      var u :| u in [action.target] + action.targets && Trim(u) == t;
      assert IsAction(phases, p, a) && Names(action, t);
    }
    if p: nat, a: nat :| IsAction(phases, p, a) && Names(phases[p].actions[a], t) {
      var action := phases[p].actions[a];
      var u :| u in [action.target] + action.targets && Trim(u) == t;
      assert phases[p] in phases && action in phases[p].actions && t in ActionTargets(action);
    }
  }

  lemma PrechecksExactly(run: RunSpec, precheck: bool, w: World, t: string)
    requires run.RunSpec?
    ensures t in Prechecks(run, precheck, w) <==> ChecksFirst(run.phases, precheck) && LooksAt(run.phases, w.inventory, t)
  {
    hide RunTargets, HasConnectivity, IsNamed, ChecksFirst, StrLess;
    ConnectivityExactly(run.phases, precheck);
    forall u ensures u in RunTargets(run.phases) <==> IsNamed(run.phases, u) { NamedExactly(run.phases, u); }
  }

  /** How a run ends: without its runtime environment it does not start; connectivity is checked when that is asked
      for and no action does it, on the nodes the run names or on the whole inventory; and it completes when every
      action succeeds. */
  lemma EndingExactly(run: RunSpec, id: string, precheck: bool, w: World)
    requires run.RunSpec?
    ensures var ending := EndingOf(run, id, precheck, w);
      var fails := exists t | LooksAt(run.phases, w.inventory, t) :: !w.check(id, t);
      && (ending == NoRuntime <==> !RuntimeExists(run, w))
      && (ending == CheckFailed <==> RuntimeExists(run, w) && ChecksFirst(run.phases, precheck) && fails)
      && (ending == Completed <==> RuntimeAndChecksPass(run, id, precheck, w) && AllActionsSucceed(run.phases, id, w))
  {
    NoBadPhaseExactly(run.phases, id, w);
    forall t
      ensures t in Prechecks(run, precheck, w)
              <==> ChecksFirst(run.phases, precheck) && LooksAt(run.phases, w.inventory, t)
    {
      PrechecksExactly(run, precheck, w, t);
    }
    hide Prechecks, ChecksFirst, LooksAt, BadPhase, AllActionsSucceed;
  }

  lemma NoBadPhaseExactly(phases: seq<PhasePlan>, id: string, w: World)
    ensures BadPhase(phases, id, w) == |phases| <==> AllActionsSucceed(phases, id, w)
  {
    if BadPhase(phases, id, w) == |phases| {
      forall p: nat, a: nat | IsAction(phases, p, a) ensures w.act(id, p, a) { assert PhaseSucceeds(phases, id, p, w); }
    } else {
      var p := BadPhase(phases, id, w);
      assert IsAction(phases, p, BadAction(phases, id, p, w));
    }
  }

  /** A run succeeds exactly when its runtime environment exists, every precheck passes and every action succeeds. */
  lemma RunSucceedsExactly(run: RunSpec, id: string, precheck: bool, w: World)
    requires run.RunSpec?
    ensures EntryAfter(run, id, precheck, w).status == ResultStatus(ResultOf(run, id, precheck, w))
    ensures EntryAfter(run, id, precheck, w).status == Succeeded
            <==> RuntimeAndChecksPass(run, id, precheck, w) && AllActionsSucceed(run.phases, id, w)
  {
    hide EndingOf, PhasesAfter, RuntimeAndChecksPass, AllActionsSucceed;
    EndingExactly(run, id, precheck, w);
  }

  function ResultStatus(r: RunResult): Status {
    if r.succeeded then Succeeded else Failed
  }

  lemma PhasesBeforeTheBadOne(phases: seq<PhasePlan>, id: string, w: World)
    ensures forall q: nat | q < BadPhase(phases, id, w) && q < |phases| ::
        BadAction(phases, id, q, w) == |phases[q].actions|
  {
    forall q: nat | q < BadPhase(phases, id, w) && q < |phases|
      ensures BadAction(phases, id, q, w) == |phases[q].actions| {
      assert PhaseSucceeds(phases, id, q, w);
    }
  }

  /** What the tracker shows when action a of phase p is the first to fail. */
  ghost predicate ShowsFailureAt(entries: seq<PhaseEntry>, phases: seq<PhasePlan>, p: nat, a: nat) {
    && |entries| == |phases|
    && (forall q: nat | q < |entries| ::
          entries[q].status == (if q < p then Succeeded else if q == p then Failed else Pending)
          && |entries[q].actions| == |phases[q].actions|)
    && forall q: nat, b: nat | IsAction(phases, q, b) ::
         entries[q].actions[b] == (if Precedes(q, b, p, a) then Succeeded else if q == p && b == a then Failed else Pending)
  }

  lemma PhasesShowTheFailure(phases: seq<PhasePlan>, id: string, w: World)
    requires BadPhase(phases, id, w) < |phases|
    ensures var p := BadPhase(phases, id, w);
      ShowsFailureAt(PhasesAfter(phases, id, w, p + 1), phases, p, BadAction(phases, id, p, w))
  {
    PhasesBeforeTheBadOne(phases, id, w);
    hide BadPhase, BadAction;
  }

  lemma OutcomesShowTheFailure(phases: seq<PhasePlan>, id: string, w: World, q: nat)
    requires q <= BadPhase(phases, id, w) < |phases|
    ensures var p := BadPhase(phases, id, w);
      Outcomes(phases, id, q, w)
      == if q < p then seq(|phases[q].actions|, _ => true) else seq(BadAction(phases, id, p, w), _ => true) + [false]
  {
    PhasesBeforeTheBadOne(phases, id, w);
  }

  /** A run that starts its phases and fails has exactly one failed action. Every action before it succeeded
      and every action after it is pending; its phase failed, the phases before it succeeded and the phases
      after it are pending. Its results list exactly the actions up to that one. */
  lemma FailureIsUnique(run: RunSpec, id: string, precheck: bool, w: World) returns (p: nat, a: nat)
    requires run.RunSpec? && RuntimeAndChecksPass(run, id, precheck, w) && !AllActionsSucceed(run.phases, id, w)
    ensures IsAction(run.phases, p, a) && !w.act(id, p, a)
    ensures ShowsFailureAt(EntryAfter(run, id, precheck, w).phases, run.phases, p, a)
    ensures ResultOf(run, id, precheck, w).phases == seq(p + 1, q requires 0 <= q <= p =>
              if q < p then seq(|run.phases[q].actions|, _ => true) else seq(a, _ => true) + [false])
  {
    EndingExactly(run, id, precheck, w);
    hide EndingOf, RuntimeAndChecksPass, Outcomes, PhasesAfter, ShowsFailureAt;
    NoBadPhaseExactly(run.phases, id, w);
    p := BadPhase(run.phases, id, w);
    a := BadAction(run.phases, id, p, w);
    PhasesShowTheFailure(run.phases, id, w);
    forall q: nat | q <= p
      ensures Outcomes(run.phases, id, q, w) == if q < p then seq(|run.phases[q].actions|, _ => true) else seq(a, _ => true) + [false]
    {
      OutcomesShowTheFailure(run.phases, id, w, q);
    }
  }

  /** Every phase and action shows this status. */
  ghost predicate ShowsAll(entries: seq<PhaseEntry>, phases: seq<PhasePlan>, s: Status) {
    && |entries| == |phases|
    && forall q: nat | q < |entries| :: entries[q].status == s && |entries[q].actions| == |phases[q].actions|
         && forall b: nat | b < |entries[q].actions| :: entries[q].actions[b] == s
  }

  /** A run that does not start leaves all its phases pending and an empty result; one that completes leaves them all
      succeeded and lists every action. */
  lemma RunLeavesExactly(run: RunSpec, id: string, precheck: bool, w: World)
    requires run.RunSpec?
    ensures var entry, result := EntryAfter(run, id, precheck, w), ResultOf(run, id, precheck, w);
      && result.id == id
      && (!RuntimeAndChecksPass(run, id, precheck, w) ==>
            entry.status == Failed && ShowsAll(entry.phases, run.phases, Pending) && result.phases == [])
      && (RuntimeAndChecksPass(run, id, precheck, w) && AllActionsSucceed(run.phases, id, w) ==>
            && entry.status == Succeeded && ShowsAll(entry.phases, run.phases, Succeeded)
            && AllTrue(result.phases, run.phases))
  {
    EndingExactly(run, id, precheck, w);
    if EndingOf(run, id, precheck, w) == Completed { SuccessIsEverywhere(run.phases, id, w); }
    hide EndingOf, RuntimeAndChecksPass, AllActionsSucceed, BadPhase, BadAction, AllTrue, PhasesAfter, Outcomes;
  }

  /** The outcomes of a run all of whose actions were executed with success. */
  ghost predicate AllTrue(outcomes: seq<seq<bool>>, phases: seq<PhasePlan>) {
    |outcomes| == |phases| && forall p | 0 <= p < |phases| :: outcomes[p] == seq(|phases[p].actions|, _ => true)
  }

  lemma SuccessIsEverywhere(phases: seq<PhasePlan>, id: string, w: World)
    requires AllActionsSucceed(phases, id, w)
    ensures Started(phases, id, w) == |phases|
    ensures ShowsAll(PhasesAfter(phases, id, w, |phases|), phases, Succeeded)
    ensures AllTrue(seq(|phases|, p requires 0 <= p < |phases| => Outcomes(phases, id, p, w)), phases)
  {
    NoBadPhaseExactly(phases, id, w);
    PhasesBeforeTheBadOne(phases, id, w);
    forall p | 0 <= p < |phases| ensures Outcomes(phases, id, p, w) == seq(|phases[p].actions|, _ => true) {
      forall a: nat | a < |phases[p].actions| ensures w.act(id, p, a) { assert IsAction(phases, p, a); }
    }
    hide BadPhase, BadAction, AllActionsSucceed, Outcomes;
  }

  // ---------------------------------------------------------------- one task

  lemma {:induction false} SuccessesAllOrLess(plan: Plan, w: World, n: nat)
    requires n <= |plan.runs|
    ensures Successes(plan, w, n) == n <==> forall i: nat | i < n :: RunOk(plan, i, w)
  {
    if n > 0 { SuccessesAllOrLess(plan, w, n - 1); }
  }

  lemma {:induction false} SuccessesOfPrefix(plan: Plan, w: World, n: nat)
    requires n <= |plan.runs| && forall i: nat | i < n :: RunOk(plan, i, w)
    ensures Successes(plan, w, n) == n
  {
    if n > 0 { SuccessesOfPrefix(plan, w, n - 1); }
  }

  /** The report and the runs: a run task succeeds exactly when the inventory was built and every run succeeded,
      which is when nothing failed; without stopOnFailure every run is counted; with it the runs before the
      first failure succeed, that one fails, and no later run is started. */
  lemma ReportAgrees(plan: Plan, w: World)
    ensures ReportOf(plan, w).ok <==> w.resolvable && forall i: nat | i < |plan.runs| :: RunOk(plan, i, w)
    ensures ReportOf(plan, w).ok <==> ReportOf(plan, w).failed == 0
    ensures w.resolvable && !plan.stopOnFailure ==>
        ReportOf(plan, w).completed + ReportOf(plan, w).failed == |plan.runs|
    ensures w.resolvable && plan.stopOnFailure ==>
      var first := FirstBadRun(plan, w);
      && ReportOf(plan, w).completed == first
      && ReportOf(plan, w).failed == (if first < |plan.runs| then 1 else 0)
      && ReportOf(plan, w).results == Results(plan, w, Reached(plan, w))
  {
    hide RunOk, Results;
    var first := FirstBadRun(plan, w);
    SuccessesOfPrefix(plan, w, first);
    SuccessesAllOrLess(plan, w, |plan.runs|);
    SuccessesAllOrLess(plan, w, Reached(plan, w));
  }

  function Count(results: seq<RunResult>, succeeded: bool): nat {
    if results == [] then 0
    else Count(results[..|results| - 1], succeeded) + if results[|results| - 1].succeeded == succeeded then 1 else 0
  }

  lemma CountStep(results: seq<RunResult>, r: RunResult, succeeded: bool)
    ensures Count(results + [r], succeeded) == Count(results, succeeded) + if r.succeeded == succeeded then 1 else 0
  {
    assert (results + [r])[..|results|] == results;
  }

  lemma ResultsStep(plan: Plan, w: World, n: nat)
    requires n < |plan.runs|
    ensures Successes(plan, w, n + 1) == Successes(plan, w, n) + if RunOk(plan, n, w) then 1 else 0
    ensures Malformeds(plan.runs[..n + 1]) == Malformeds(plan.runs[..n]) + if plan.runs[n].Malformed? then 1 else 0
    ensures plan.runs[n].Malformed? ==> !RunOk(plan, n, w) && Results(plan, w, n + 1) == Results(plan, w, n)
    ensures plan.runs[n].RunSpec? ==> exists r: RunResult ::
        Results(plan, w, n + 1) == Results(plan, w, n) + [r] && r.succeeded == RunOk(plan, n, w)
  {
    hide EndingOf;
    assert plan.runs[..n + 1][..n] == plan.runs[..n];
    if plan.runs[n].RunSpec? {
      var r := ResultOf(plan.runs[n], IdOf(plan.runs, n), plan.precheck, w);
      assert Results(plan, w, n + 1) == Results(plan, w, n) + [r] && r.succeeded == RunOk(plan, n, w);
    }
  }

  /** The counters count the entries of the results list; an entry of the plan that is no object only counts as
      failed. */
  lemma {:induction false} ResultsAgree(plan: Plan, w: World, n: nat)
    requires n <= |plan.runs|
    ensures Count(Results(plan, w, n), true) == Successes(plan, w, n)
    ensures Count(Results(plan, w, n), false) + Malformeds(plan.runs[..n]) == n - Successes(plan, w, n)
  {
    if n > 0 {
      ResultsAgree(plan, w, n - 1);
      ResultsStep(plan, w, n - 1);
      hide Results, Successes, Malformeds, RunOk, Count;
      if plan.runs[n - 1].RunSpec? {
        var r: RunResult :| Results(plan, w, n) == Results(plan, w, n - 1) + [r]
            && r.succeeded == RunOk(plan, n - 1, w);
        CountStep(Results(plan, w, n - 1), r, true);
        CountStep(Results(plan, w, n - 1), r, false);
      }
    }
  }

  /** The results list has the reached runs that are objects, in order: the i-th run stands after exactly the
      objects before it. */
  lemma {:induction false} ResultsInOrder(plan: Plan, w: World, n: nat, i: nat)
    requires i < n <= |plan.runs| && plan.runs[i].RunSpec?
    ensures |Results(plan, w, n)| == n - Malformeds(plan.runs[..n])
    ensures var k := i - Malformeds(plan.runs[..i]);
      0 <= k < |Results(plan, w, n)|
      && Results(plan, w, n)[k] == ResultOf(plan.runs[i], IdOf(plan.runs, i), plan.precheck, w)
  {
    hide ResultOf;
    ResultsSize(plan, w, i);
    ResultsSize(plan, w, n);
    assert plan.runs[..n][..n - 1] == plan.runs[..n - 1];
    if i < n - 1 { ResultsInOrder(plan, w, n - 1, i); }
  }

  lemma {:induction false} ResultsSize(plan: Plan, w: World, n: nat)
    requires n <= |plan.runs|
    ensures |Results(plan, w, n)| == n - Malformeds(plan.runs[..n])
  {
    hide ResultOf;
    if n > 0 {
      ResultsSize(plan, w, n - 1);
      assert plan.runs[..n][..n - 1] == plan.runs[..n - 1];
    }
  }

  function Malformeds(runs: seq<RunSpec>): nat {
    if runs == [] then 0 else Malformeds(runs[..|runs| - 1]) + if runs[|runs| - 1].Malformed? then 1 else 0
  }

  /** The task gets to the i-th run: with stopOnFailure only if all runs before it succeed. */
  ghost predicate GetsTo(plan: Plan, i: nat, w: World) {
    plan.stopOnFailure ==> forall j: nat | j < i :: RunOk(plan, j, w)
  }

  /** The first run that fails is an object whose runtime environment exists. */
  ghost predicate FailsWithRuntime(plan: Plan, w: World) {
    exists j: nat | j < |plan.runs| && !RunOk(plan, j, w) && (forall k: nat | k < j :: RunOk(plan, k, w)) ::
      plan.runs[j].RunSpec? && RuntimeExists(plan.runs[j], w)
  }

  /** In the tracker a run is succeeded exactly when the task gets to it and it succeeds, and failed exactly when the
      task gets to it and it does not; a run it does not get to is untouched but for the mark that it was skipped,
      which is missing when the run that failed had no runtime environment. Without an inventory every run is marked
      failed and untouched. */
  lemma TrackerAgrees(entries: map<string, RunEntry>, plan: Plan, i: nat, w: World)
    requires FinallyTracks(entries, plan, w) && i < |plan.runs| && plan.runs[i].RunSpec?
    ensures IdOf(plan.runs, i) in entries
    ensures var entry := entries[IdOf(plan.runs, i)];
      if !w.resolvable then entry.status == Failed && ShowsAll(entry.phases, plan.runs[i].phases, Pending)
      else
        && (entry.status == Succeeded <==> GetsTo(plan, i, w) && RunOk(plan, i, w))
        && (entry.status == Failed <==> GetsTo(plan, i, w) && !RunOk(plan, i, w))
        && (entry.status == Skipped <==> !GetsTo(plan, i, w) && FailsWithRuntime(plan, w))
        && (!GetsTo(plan, i, w) ==> ShowsAll(entry.phases, plan.runs[i].phases, Pending))
  {
    ReachedExactly(plan, i, w);
    SkippingExactly(plan, w);
    hide EntryAfter, EndingOf, FirstBadRun, Reached, MarksSkipped, GetsTo, FailsWithRuntime;
    ExecutedIsSettled(plan.runs[i], IdOf(plan.runs, i), plan.precheck, w);
  }

  lemma ReachedExactly(plan: Plan, i: nat, w: World)
    requires i < |plan.runs|
    ensures i < Reached(plan, w) <==> GetsTo(plan, i, w)
  {
    hide RunOk;
  }

  lemma SkippingExactly(plan: Plan, w: World)
    ensures MarksSkipped(plan, w) <==> plan.stopOnFailure && FailsWithRuntime(plan, w)
  {
    var bad := FirstBadRun(plan, w);
    if bad < |plan.runs| && plan.runs[bad].RunSpec? {
      EndingExactly(plan.runs[bad], IdOf(plan.runs, bad), plan.precheck, w);
    }
    hide RunOk, EndingOf;
    forall j: nat | j < |plan.runs| && !RunOk(plan, j, w) && (forall k: nat | k < j :: RunOk(plan, k, w))
      ensures j == bad
    {
    }
  }

  // ---------------------------------------------------------------- splitting a plan

  /** The plans that generation produces: every entry is an object with an identifier. */
  ghost predicate Generated(plan: Plan) {
    forall run | run in plan.runs :: run.RunSpec? && run.id != ""
  }

  /** `_single_run_payload_snapshot`. */
  function Single(plan: Plan, k: nat): Plan
    requires k < |plan.runs|
  {
    plan.(runs := [plan.runs[k]])
  }

  /** Executing the single-run plans one after another from the k-th on, as long as a task allows dispatching the
      next. */
  function Chain(plan: Plan, w: World, k: nat): seq<Report>
    requires k <= |plan.runs|
    decreases |plan.runs| - k
  {
    if k == |plan.runs| then [] else
      var r := ReportOf(Single(plan, k), w);
      [r] + if r.ok || !plan.stopOnFailure then Chain(plan, w, k + 1) else []
  }

  function Completions(reports: seq<Report>): nat {
    if reports == [] then 0 else reports[0].completed + Completions(reports[1..])
  }

  function Failures(reports: seq<Report>): nat {
    if reports == [] then 0 else reports[0].failed + Failures(reports[1..])
  }

  function AllResults(reports: seq<Report>): seq<RunResult> {
    if reports == [] then [] else reports[0].results + AllResults(reports[1..])
  }

  predicate AllOk(reports: seq<Report>) {
    forall r | r in reports :: r.ok
  }

  lemma SingleReport(plan: Plan, w: World, k: nat)
    requires w.resolvable && Generated(plan) && k < |plan.runs|
    ensures ReportOf(Single(plan, k), w) ==
      Report(RunOk(plan, k, w), if RunOk(plan, k, w) then 1 else 0, if RunOk(plan, k, w) then 0 else 1,
             [ResultOf(plan.runs[k], plan.runs[k].id, plan.precheck, w)])
  {
    hide EndingOf, ResultOf;
    var one := Single(plan, k);
    assert plan.runs[k] in plan.runs;
    assert RunOk(one, 0, w) == RunOk(plan, k, w);
    assert Reached(one, w) == 1;
    assert Successes(one, w, 1) == Successes(one, w, 0) + if RunOk(one, 0, w) then 1 else 0;
    assert Results(one, w, 1) == Results(one, w, 0) + [ResultOf(one.runs[0], IdOf(one.runs, 0), one.precheck, w)];
  }

  lemma ChainUnfolds(plan: Plan, w: World, k: nat)
    requires k < |plan.runs|
    ensures var r := ReportOf(Single(plan, k), w);
      var rest := if r.ok || !plan.stopOnFailure then Chain(plan, w, k + 1) else [];
      && Chain(plan, w, k) == [r] + rest
      && Completions(Chain(plan, w, k)) == r.completed + Completions(rest)
      && Failures(Chain(plan, w, k)) == r.failed + Failures(rest)
      && AllResults(Chain(plan, w, k)) == r.results + AllResults(rest)
      && (AllOk(Chain(plan, w, k)) <==> r.ok && AllOk(rest))
  {
    hide ReportOf;
    var r := ReportOf(Single(plan, k), w);
    assert Chain(plan, w, k)[1..] == if r.ok || !plan.stopOnFailure then Chain(plan, w, k + 1) else [];
  }

  /** One more run of the whole plan, as its single-run report tells it. */
  lemma PlanSteps(plan: Plan, w: World, k: nat)
    requires w.resolvable && Generated(plan) && k < |plan.runs|
    ensures var r := ReportOf(Single(plan, k), w);
      && (r.ok <==> RunOk(plan, k, w)) && r.completed + r.failed == 1
      && Successes(plan, w, k + 1) == Successes(plan, w, k) + r.completed
      && Results(plan, w, k + 1) == Results(plan, w, k) + r.results
  {
    hide ReportOf, RunOk, ResultOf;
    assert plan.runs[k] in plan.runs;
    SingleReport(plan, w, k);
  }

  /** After the k-th run the plan goes on exactly when the single-run chain does. */
  lemma PlanGoesOn(plan: Plan, w: World, k: nat)
    requires k < Reached(plan, w) && (plan.stopOnFailure ==> k <= FirstBadRun(plan, w))
    ensures if RunOk(plan, k, w) || !plan.stopOnFailure
            then k + 1 <= Reached(plan, w) && (plan.stopOnFailure ==> k + 1 <= FirstBadRun(plan, w))
            else Reached(plan, w) == k + 1
  {
    hide RunOk;
  }

  lemma JoinedThrice(a: seq<RunResult>, b: seq<RunResult>, c: seq<RunResult>)
    ensures a + b + c == a + (b + c)
    ensures c == [] ==> b + c == b
  {
  }

  /** From a run before which everything went on, the chain completes the whole plan's report. */
  lemma {:induction false} ChainCompletes(plan: Plan, w: World, k: nat)
    requires w.resolvable && Generated(plan) && k <= Reached(plan, w)
    requires plan.stopOnFailure ==> k <= FirstBadRun(plan, w)
    ensures var chain, n := Chain(plan, w, k), Reached(plan, w);
      && |chain| == n - k
      && Completions(chain) == Successes(plan, w, n) - Successes(plan, w, k)
      && Failures(chain) == (n - k) - Completions(chain)
      && Results(plan, w, n) == Results(plan, w, k) + AllResults(chain)
    decreases |plan.runs| - k
  {
    hide Generated, RunOk, ReportOf, Successes, Results, FirstBadRun, Completions, Failures, AllResults, Single;
    NoReports();
    ChainEnds(plan, w);
    if k < Reached(plan, w) {
      PlanGoesOn(plan, w, k);
      PlanSteps(plan, w, k);
      ChainUnfolds(plan, w, k);
      hide Chain, Reached;
      var r := ReportOf(Single(plan, k), w);
      if r.ok || !plan.stopOnFailure {
        ChainCompletes(plan, w, k + 1);
        JoinedThrice(Results(plan, w, k), r.results, AllResults(Chain(plan, w, k + 1)));
      } else {
        JoinedThrice(Results(plan, w, k), r.results, []);
      }
    }
  }

  lemma NoReports()
    ensures Completions([]) == 0 && Failures([]) == 0 && AllResults([]) == []
  {
  }

  lemma ChainEnds(plan: Plan, w: World)
    ensures Reached(plan, w) == |plan.runs| || (plan.stopOnFailure && Reached(plan, w) == FirstBadRun(plan, w) + 1)
    ensures Chain(plan, w, |plan.runs|) == []
  {
  }

  /** Executing the single-run plans in order does exactly what the one task over the whole plan does: the same
      runs with the same results in the same order, the same stop, and counters with the same sums. */
  lemma SplittingRefinesThePlan(plan: Plan, w: World)
    requires w.resolvable && Generated(plan)
    ensures |Chain(plan, w, 0)| == Reached(plan, w)
    ensures AllResults(Chain(plan, w, 0)) == ReportOf(plan, w).results
    ensures Completions(Chain(plan, w, 0)) == ReportOf(plan, w).completed
    ensures Failures(Chain(plan, w, 0)) == ReportOf(plan, w).failed
    ensures ReportOf(plan, w).ok <==> AllOk(Chain(plan, w, 0))
  {
    ChainCompletes(plan, w, 0);
    ChainIsOkExactly(plan, w, 0);
    ReportAgrees(plan, w);
  }

  lemma {:induction false} ChainIsOkExactly(plan: Plan, w: World, k: nat)
    requires w.resolvable && Generated(plan) && k <= |plan.runs|
    ensures AllOk(Chain(plan, w, k)) <==> forall i: nat | k <= i < |plan.runs| :: RunOk(plan, i, w)
    decreases |plan.runs| - k
  {
    hide RunOk, ReportOf, Generated, Completions, Failures, AllResults, Results, Successes;
    if k < |plan.runs| {
      PlanSteps(plan, w, k);
      ChainUnfolds(plan, w, k);
      hide Chain, AllOk;
      ChainIsOkExactly(plan, w, k + 1);
    }
  }

  /** When the inventory cannot be built the counters agree only if nothing stops the chain. */
  lemma SplittingWithoutInventory(plan: Plan, w: World)
    requires !w.resolvable
    ensures Failures(Chain(plan, w, 0)) == ReportOf(plan, w).failed
            <==> |plan.runs| == 1 || (|plan.runs| > 1 && !plan.stopOnFailure)
  {
    ChainWithoutInventory(plan, w, 0);
  }

  lemma {:induction false} ChainWithoutInventory(plan: Plan, w: World, k: nat)
    requires !w.resolvable && k <= |plan.runs|
    ensures Failures(Chain(plan, w, k)) == if plan.stopOnFailure && k < |plan.runs| then 1 else |plan.runs| - k
    decreases |plan.runs| - k
  {
    if k < |plan.runs| {
      ChainUnfolds(plan, w, k);
      ChainWithoutInventory(plan, w, k + 1);
    }
  }
}
