/** Executing a generated plan: the nested loop over runs, phases and actions, with its tracker, counters,
    results and connectivity prechecks. */
module RunExecutor {
  import opened Values
  import opened Ordering
  import opened RuntimeCache
  import opened RunTracker

  datatype Plan = Plan(runs: seq<RunSpec>, stopOnFailure: bool, precheck: bool)

  /** The world a task meets: the inventory by node (or that it cannot be built), the nodes whose VM record
      is found when a check is written back, the user's runtime environments, and how every connectivity
      check and every action of a run turns out. */
  datatype World = World(resolvable: bool, inventory: set<string>, known: set<string>, envs: set<string>,
                         check: (string, string) -> bool, act: (string, nat, nat) -> bool)

  datatype Ending = NoRuntime | CheckFailed | ActionFailed | Completed

  /** An entry of the results list: per started phase, whether each executed action succeeded. */
  datatype RunResult = RunResult(id: string, succeeded: bool, phases: seq<seq<bool>>)

  datatype Report = Report(ok: bool, completed: nat, failed: nat, results: seq<RunResult>)

  // ---------------------------------------------------------------- first failures

  /** The first index below n that fails the test, or n. */
  function FirstBad(n: nat, ok: nat -> bool): (i: nat)
    ensures i <= n && (forall j: nat | j < i :: ok(j)) && (i < n ==> !ok(i))
  {
    FirstBadFrom(0, n, ok)
  }

  function FirstBadFrom(i: nat, n: nat, ok: nat -> bool): (r: nat)
    requires i <= n && forall j: nat | j < i :: ok(j)
    ensures i <= r <= n && (forall j: nat | j < r :: ok(j)) && (r < n ==> !ok(r))
    decreases n - i
  {
    if i == n || !ok(i) then i else FirstBadFrom(i + 1, n, ok)
  }

  /** The first failing action of the p-th phase, or its number of actions. */
  function BadAction(phases: seq<PhasePlan>, id: string, p: nat, w: World): (a: nat)
    requires p < |phases|
    ensures a <= |phases[p].actions| && (forall b: nat | b < a :: w.act(id, p, b))
        && (a < |phases[p].actions| ==> !w.act(id, p, a))
  {
    var ok := (a: nat) => w.act(id, p, a);
    var bad := FirstBad(|phases[p].actions|, ok);
    assert forall b: nat | b < bad :: w.act(id, p, b) by { forall b: nat | b < bad ensures w.act(id, p, b) { assert ok(b); } }
    bad
  }

  predicate PhaseSucceeds(phases: seq<PhasePlan>, id: string, p: nat, w: World) {
    p < |phases| ==> BadAction(phases, id, p, w) == |phases[p].actions|
  }

  /** The first failing phase, or the number of phases. */
  function BadPhase(phases: seq<PhasePlan>, id: string, w: World): (p: nat)
    ensures p <= |phases| && (forall q: nat | q < p :: PhaseSucceeds(phases, id, q, w))
    ensures p < |phases| ==> !PhaseSucceeds(phases, id, p, w)
  {
    var ok := (p: nat) => PhaseSucceeds(phases, id, p, w);
    var bad := FirstBad(|phases|, ok);
    assert forall q: nat | q < bad :: PhaseSucceeds(phases, id, q, w) by {
      forall q: nat | q < bad ensures PhaseSucceeds(phases, id, q, w) { assert ok(q); }
    }
    bad
  }

  // ---------------------------------------------------------------- what a run leaves behind

  /** A phase whose action `bad` failed, or all of whose actions succeeded. */
  function EndedPhase(phase: PhasePlan, bad: nat): PhaseEntry {
    PhaseEntry(if bad < |phase.actions| then Failed else Succeeded,
               seq(|phase.actions|, a requires 0 <= a < |phase.actions| =>
                 if a < bad then Succeeded else if a == bad then Failed else Pending))
  }

  /** The phases once the first `done` of them have ended. */
  function PhasesAfter(phases: seq<PhasePlan>, id: string, w: World, done: nat): seq<PhaseEntry> {
    seq(|phases|, p requires 0 <= p < |phases| =>
      if p < done then EndedPhase(phases[p], BadAction(phases, id, p, w)) else PendingPhase(phases[p]))
  }

  /** The number of phases a run starts: up to and including the first failing one. */
  function Started(phases: seq<PhasePlan>, id: string, w: World): (n: nat)
    ensures n <= |phases|
  {
    var bad := BadPhase(phases, id, w);
    if bad < |phases| then bad + 1 else bad
  }

  function Outcomes(phases: seq<PhasePlan>, id: string, p: nat, w: World): seq<bool>
    requires p < |phases|
  {
    var bad := BadAction(phases, id, p, w);
    seq(if bad < |phases[p].actions| then bad + 1 else bad, a requires 0 <= a => w.act(id, p, a))
  }

  predicate HasConnectivity(phases: seq<PhasePlan>) {
    exists p | p in phases :: exists a | a in p.actions :: a.kind == CONNECTIVITY
  }

  function ActionTargets(a: ActionSpec): set<string> {
    set t | t in [a.target] + a.targets && Trim(t) != "" :: Trim(t)
  }

  function RunTargets(phases: seq<PhasePlan>): set<string> {
    set p, a, t | p in phases && a in p.actions && t in ActionTargets(a) :: t
  }

  /** The nodes a run is checked against: its targets in the inventory, or the whole inventory when it has none
      there. */
  function PrecheckTargets(phases: seq<PhasePlan>, inventory: set<string>): seq<string> {
    var own := RunTargets(phases) * inventory;
    if own != {} then SortedNames(own) else SortedNames(inventory)
  }

  function Prechecks(run: RunSpec, precheck: bool, w: World): seq<string>
    requires run.RunSpec?
  {
    if precheck && !HasConnectivity(run.phases) then PrecheckTargets(run.phases, w.inventory) else []
  }

  function EndingOf(run: RunSpec, id: string, precheck: bool, w: World): Ending
    requires run.RunSpec?
  {
    if run.runtime == "" || run.runtime !in w.envs then NoRuntime
    else if exists t | t in Prechecks(run, precheck, w) :: !w.check(id, t) then CheckFailed
    else if BadPhase(run.phases, id, w) < |run.phases| then ActionFailed
    else Completed
  }

  function EntryAfter(run: RunSpec, id: string, precheck: bool, w: World): RunEntry
    requires run.RunSpec?
  {
    match EndingOf(run, id, precheck, w)
    case Completed => RunEntry(Succeeded, PhasesAfter(run.phases, id, w, |run.phases|))
    case ActionFailed => RunEntry(Failed, PhasesAfter(run.phases, id, w, Started(run.phases, id, w)))
    case _ => PendingRun(run.phases).(status := Failed)
  }

  function ResultOf(run: RunSpec, id: string, precheck: bool, w: World): RunResult
    requires run.RunSpec?
  {
    var ending := EndingOf(run, id, precheck, w);
    RunResult(id, ending == Completed,
              if ending == NoRuntime || ending == CheckFailed then []
              else seq(Started(run.phases, id, w), p requires 0 <= p < Started(run.phases, id, w) => Outcomes(run.phases, id, p, w)))
  }

  // ---------------------------------------------------------------- one phase

  function Put(runs: map<string, RunEntry>, id: string, p: nat, e: PhaseEntry): map<string, RunEntry>
    requires id in runs && p < |runs[id].phases|
  {
    runs[id := runs[id].(phases := runs[id].phases[p := e])]
  }

  lemma PutTwice(runs: map<string, RunEntry>, id: string, p: nat, e: PhaseEntry, f: PhaseEntry)
    requires id in runs && p < |runs[id].phases|
    ensures Put(Put(runs, id, p, e), id, p, f) == Put(runs, id, p, f)
  {
    assert runs[id].phases[p := e][p := f] == runs[id].phases[p := f];
  }

  lemma PutAction(runs: map<string, RunEntry>, id: string, p: nat, e: PhaseEntry, a: nat, s: Status)
    requires id in runs && p < |runs[id].phases| && a < |e.actions|
    ensures WithAction(Put(runs, id, p, e), id, p, a, s) == Put(runs, id, p, e.(actions := e.actions[a := s]))
  {
    PutTwice(runs, id, p, e, e.(actions := e.actions[a := s]));
  }

  lemma PutPhase(runs: map<string, RunEntry>, id: string, p: nat, e: PhaseEntry, s: Status)
    requires id in runs && p < |runs[id].phases|
    ensures WithPhase(Put(runs, id, p, e), id, p, s) == Put(runs, id, p, e.(status := s))
  {
    PutTwice(runs, id, p, e, e.(status := s));
  }

  /** A running phase whose first `done` actions have succeeded. */
  function Midway(n: nat, done: nat): PhaseEntry {
    PhaseEntry(Running, seq(n, a requires 0 <= a < n => if a < done then Succeeded else Pending))
  }

  /** The entry of this phase is still untouched. */
  ghost predicate Untouched(runs: map<string, RunEntry>, id: string, p: nat, phase: PhasePlan) {
    id in runs && p < |runs[id].phases| && runs[id].phases[p] == PendingPhase(phase)
  }

  lemma PhaseStarts(runs: map<string, RunEntry>, id: string, p: nat, phase: PhasePlan)
    requires Untouched(runs, id, p, phase)
    ensures WithPhase(runs, id, p, Running) == Put(runs, id, p, Midway(|phase.actions|, 0))
  {
    assert PendingPhase(phase).(status := Running) == Midway(|phase.actions|, 0);
  }

  lemma ActionRuns(runs: map<string, RunEntry>, id: string, p: nat, n: nat, a: nat, s: Status)
    requires id in runs && p < |runs[id].phases| && a < n
    ensures WithAction(WithAction(Put(runs, id, p, Midway(n, a)), id, p, a, Running), id, p, a, s)
         == Put(runs, id, p, Midway(n, a).(actions := Midway(n, a).actions[a := Running][a := s]))
  {
    PutAction(runs, id, p, Midway(n, a), a, Running);
    PutAction(runs, id, p, Midway(n, a).(actions := Midway(n, a).actions[a := Running]), a, s);
  }

  lemma ActionEnds(runs: map<string, RunEntry>, id: string, p: nat, phase: PhasePlan, a: nat)
    requires id in runs && p < |runs[id].phases| && a < |phase.actions|
    ensures WithAction(WithAction(Put(runs, id, p, Midway(|phase.actions|, a)), id, p, a, Running), id, p, a, Succeeded)
         == Put(runs, id, p, Midway(|phase.actions|, a + 1))
    ensures WithAction(WithAction(Put(runs, id, p, Midway(|phase.actions|, a)), id, p, a, Running), id, p, a, Failed)
         == Put(runs, id, p, EndedPhase(phase, a).(status := Running))
  {
    hide Put, WithAction;
    var n := |phase.actions|;
    ActionRuns(runs, id, p, n, a, Succeeded);
    ActionRuns(runs, id, p, n, a, Failed);
    assert Midway(n, a + 1).actions == Midway(n, a).actions[a := Running][a := Succeeded];
    assert EndedPhase(phase, a).actions == Midway(n, a).actions[a := Running][a := Failed];
  }

  lemma PhaseEnds(runs: map<string, RunEntry>, id: string, p: nat, phase: PhasePlan, a: nat)
    requires id in runs && p < |runs[id].phases| && a <= |phase.actions|
    ensures WithPhase(Put(runs, id, p, if a == |phase.actions| then Midway(a, a) else EndedPhase(phase, a).(status := Running)),
                      id, p, if a == |phase.actions| then Succeeded else Failed)
         == Put(runs, id, p, EndedPhase(phase, a))
  {
    hide Put, WithPhase;
    if a == |phase.actions| {
      PutPhase(runs, id, p, Midway(a, a), Succeeded);
      assert Midway(a, a).actions == EndedPhase(phase, a).actions;
    } else {
      PutPhase(runs, id, p, EndedPhase(phase, a).(status := Running), Failed);
    }
  }

  /** One action: sent with the cached flag, executed, and its outcome recorded. */
  method ExecuteAction(action: ActionSpec, id: string, p: nat, a: nat, w: World, tracker: Tracker, cache: Cache)
    returns (success: bool)
    requires cache.Valid(w.known)
    modifies tracker, cache
    ensures success == w.act(id, p, a) && cache.Valid(w.known)
    ensures cache.log == Noted(old(cache.log), action, success, w.known)
    ensures tracker.runs ==
      WithAction(WithAction(old(tracker.runs), id, p, a, Running), id, p, a, if success then Succeeded else Failed)
  {
    hide WithAction, WithCachedFlag, Noted, VerifiedNodes;
    var sent := WithCachedFlag(action, cache.verified);
    tracker.SetActionStatus(id, p, a, Running);
    success := w.act(id, p, a);
    cache.Record(sent, success, w.known);
    tracker.SetActionStatus(id, p, a, if success then Succeeded else Failed);
  }

  method ExecutePhase(phases: seq<PhasePlan>, p: nat, id: string, w: World, tracker: Tracker, cache: Cache)
    returns (ok: bool, outcomes: seq<bool>)
    requires p < |phases| && cache.Valid(w.known)
    modifies tracker, cache
    ensures ok <==> PhaseSucceeds(phases, id, p, w)
    ensures outcomes == Outcomes(phases, id, p, w)
    ensures cache.Valid(w.known)
    ensures Untouched(old(tracker.runs), id, p, phases[p]) ==>
      tracker.runs == Put(old(tracker.runs), id, p, EndedPhase(phases[p], BadAction(phases, id, p, w)))
    ensures cache.log == Logged(old(cache.log), phases[p].actions, outcomes, w.known)
  {
    hide Put, WithAction, WithPhase, Midway, EndedPhase, PendingPhase, BadAction, Noted, VerifiedNodes;
    ghost var before, clean := tracker.runs, Untouched(tracker.runs, id, p, phases[p]);
    var actions, n := phases[p].actions, |phases[p].actions|;
    ghost var bad := BadAction(phases, id, p, w);
    tracker.SetPhaseStatus(id, p, Running);
    if clean { PhaseStarts(before, id, p, phases[p]); }
    ok, outcomes := true, [];
    var a := 0;
    while a < n && ok
      invariant a <= n && cache.Valid(w.known)
      invariant if ok then a <= bad else a == bad < n
      invariant outcomes == seq(if ok then a else a + 1, b requires 0 <= b => w.act(id, p, b))
      invariant clean ==> tracker.runs == Put(before, id, p, if ok then Midway(n, a) else EndedPhase(phases[p], a).(status := Running))
      invariant cache.log == Logged(old(cache.log), actions, outcomes, w.known)
      decreases n - a, ok
    {
      var success := ExecuteAction(actions[a], id, p, a, w, tracker, cache);
      LoggedStep(old(cache.log), actions, outcomes, success, w.known);
      outcomes := outcomes + [success];
      if clean { ActionEnds(before, id, p, phases[p], a); }
      if success { a := a + 1; } else { ok := false; }
    }
    tracker.SetPhaseStatus(id, p, if ok then Succeeded else Failed);
    if clean { PhaseEnds(before, id, p, phases[p], a); }
  }

  // ---------------------------------------------------------------- one run

  method CollectTargets(phases: seq<PhasePlan>) returns (targets: set<string>)
    ensures targets == RunTargets(phases)
  {
    hide ActionTargets;
    targets := {};
    for p := 0 to |phases|
      invariant targets == RunTargets(phases[..p])
    {
      var actions := phases[p].actions;
      ghost var before := targets;
      for a := 0 to |actions|
        invariant targets == before + set b, t | b in actions[..a] && t in ActionTargets(b) :: t
      {
        assert actions[..a + 1] == actions[..a] + [actions[a]];
        targets := targets + ActionTargets(actions[a]);
      }
      assert actions[..|actions|] == actions;
      assert phases[..p + 1] == phases[..p] + [phases[p]];
    }
    assert phases[..|phases|] == phases;
  }

  function CheckActions(targets: seq<string>): seq<ActionSpec> {
    seq(|targets|, i requires 0 <= i < |targets| => Connectivity(targets[i]))
  }

  function CheckOutcomes(targets: seq<string>, id: string, w: World): seq<bool> {
    seq(|targets|, i requires 0 <= i < |targets| => w.check(id, targets[i]))
  }

  /** One check: sent with the cached flag, executed, and its outcome recorded. */
  method CheckNode(node: string, id: string, w: World, cache: Cache) returns (success: bool)
    requires cache.Valid(w.known)
    modifies cache
    ensures success == w.check(id, node) && cache.Valid(w.known)
    ensures cache.log == Noted(old(cache.log), Connectivity(node), success, w.known)
  {
    hide WithCachedFlag, Noted, VerifiedNodes;
    var sent := WithCachedFlag(Connectivity(node), cache.verified);
    success := w.check(id, node);
    cache.Record(sent, success, w.known);
  }

  /** The history after the first i checks. */
  ghost function ChecksLog(log: seq<Check>, targets: seq<string>, id: string, w: World, i: nat): seq<Check>
    requires i <= |targets|
  {
    Logged(log, CheckActions(targets), CheckOutcomes(targets, id, w)[..i], w.known)
  }

  lemma ChecksLogStep(log: seq<Check>, targets: seq<string>, id: string, w: World, i: nat)
    requires i < |targets|
    ensures ChecksLog(log, targets, id, w, i + 1)
            == Noted(ChecksLog(log, targets, id, w, i), Connectivity(targets[i]), w.check(id, targets[i]), w.known)
  {
    hide Noted, Connectivity;
    var outcomes := CheckOutcomes(targets, id, w);
    assert outcomes[..i + 1] == outcomes[..i] + [outcomes[i]];
    LoggedStep(log, CheckActions(targets), outcomes[..i], outcomes[i], w.known);
  }

  /** The connectivity prechecks of a run: every target is checked, also after a failure. */
  method Precheck(targets: seq<string>, id: string, w: World, cache: Cache) returns (ok: bool)
    requires cache.Valid(w.known)
    modifies cache
    ensures ok <==> forall t | t in targets :: w.check(id, t)
    ensures cache.Valid(w.known)
    ensures cache.log == Logged(old(cache.log), CheckActions(targets), CheckOutcomes(targets, id, w), w.known)
  {
    ghost var log := cache.log;
    assert ChecksLog(log, targets, id, w, 0) == log;
    assert CheckOutcomes(targets, id, w)[..|targets|] == CheckOutcomes(targets, id, w);
    hide Noted, VerifiedNodes, Logged;
    ok := true;
    for i := 0 to |targets|
      invariant cache.Valid(w.known)
      invariant ok <==> forall j | 0 <= j < i :: w.check(id, targets[j])
      invariant cache.log == ChecksLog(log, targets, id, w, i)
    {
      hide ChecksLog;
      ChecksLogStep(log, targets, id, w, i);
      var success := CheckNode(targets[i], id, w, cache);
      if !success { ok := false; }
    }
  }

  /** The history after the first phases of a run. */
  ghost function PhasesLog(log: seq<Check>, phases: seq<PhasePlan>, id: string, w: World, done: nat): seq<Check>
    requires done <= |phases|
  {
    if done == 0 then log
    else Logged(PhasesLog(log, phases, id, w, done - 1), phases[done - 1].actions, Outcomes(phases, id, done - 1, w), w.known)
  }

  /** The history after a run: its prechecks, then the actions it got to. */
  ghost function RunLog(log: seq<Check>, run: RunSpec, id: string, precheck: bool, w: World): seq<Check>
    requires run.RunSpec?
  {
    var targets, ending := Prechecks(run, precheck, w), EndingOf(run, id, precheck, w);
    if ending == NoRuntime then log
    else
      var checked := Logged(log, CheckActions(targets), CheckOutcomes(targets, id, w), w.known);
      if ending == CheckFailed then checked else PhasesLog(checked, run.phases, id, w, Started(run.phases, id, w))
  }

  method ExecutePhases(phases: seq<PhasePlan>, id: string, w: World, tracker: Tracker, cache: Cache)
    returns (ok: bool, outcomes: seq<seq<bool>>)
    requires cache.Valid(w.known)
    modifies tracker, cache
    ensures ok <==> BadPhase(phases, id, w) == |phases|
    ensures outcomes == seq(Started(phases, id, w), p requires 0 <= p < Started(phases, id, w) => Outcomes(phases, id, p, w))
    ensures cache.Valid(w.known)
    ensures id in old(tracker.runs) && old(tracker.runs)[id] == RunEntry(Running, PendingRun(phases).phases) ==>
      tracker.runs == old(tracker.runs)[id := RunEntry(Running, PhasesAfter(phases, id, w, Started(phases, id, w)))]
    ensures cache.log == PhasesLog(old(cache.log), phases, id, w, Started(phases, id, w))
  {
    hide Logged, Outcomes, EndedPhase, PendingPhase, PhaseSucceeds, Verified, VerifiedNodes, PhasesAfter, Put,
        Untouched;
    ghost var before, clean := tracker.runs, id in tracker.runs
        && tracker.runs[id] == RunEntry(Running, PendingRun(phases).phases);
    ghost var bad, started := BadPhase(phases, id, w), Started(phases, id, w);
    ok, outcomes := true, [];
    var p := 0;
    if clean { StartOfRun(before, phases, id, w); }
    while p < |phases| && ok
      invariant p <= started && cache.Valid(w.known)
      invariant if ok then p <= bad else bad < |phases| && p == started
      invariant outcomes == seq(p, q requires 0 <= q < p => Outcomes(phases, id, q, w))
      invariant clean ==> tracker.runs == before[id := RunEntry(Running, PhasesAfter(phases, id, w, p))]
      invariant cache.log == PhasesLog(old(cache.log), phases, id, w, p)
    {
      if clean { PutIsNext(before, phases, id, w, p); }
      var done, one := ExecutePhase(phases, p, id, w, tracker, cache);
      outcomes := outcomes + [one];
      ok := done;
      p := p + 1;
    }
  }

  lemma StartOfRun(before: map<string, RunEntry>, phases: seq<PhasePlan>, id: string, w: World)
    requires id in before && before[id] == RunEntry(Running, PendingRun(phases).phases)
    ensures before == before[id := RunEntry(Running, PhasesAfter(phases, id, w, 0))]
  {
    assert PhasesAfter(phases, id, w, 0) == PendingRun(phases).phases;
  }

  lemma PutIsNext(before: map<string, RunEntry>, phases: seq<PhasePlan>, id: string, w: World, p: nat)
    requires id in before && p < |phases|
    ensures var now := before[id := RunEntry(Running, PhasesAfter(phases, id, w, p))];
      && Untouched(now, id, p, phases[p])
      && Put(now, id, p, EndedPhase(phases[p], BadAction(phases, id, p, w)))
         == before[id := RunEntry(Running, PhasesAfter(phases, id, w, p + 1))]
  {
    assert PhasesAfter(phases, id, w, p)[p := EndedPhase(phases[p], BadAction(phases, id, p, w))]
        == PhasesAfter(phases, id, w, p + 1);
  }

  lemma NoChecksNoLog(log: seq<Check>, id: string, w: World)
    ensures Logged(log, CheckActions([]), CheckOutcomes([], id, w), w.known) == log
  {
  }

  method ExecuteRun(run: RunSpec, id: string, precheck: bool, w: World, tracker: Tracker, cache: Cache)
    returns (ending: Ending, result: RunResult)
    requires run.RunSpec? && cache.Valid(w.known)
    modifies tracker, cache
    ensures ending == EndingOf(run, id, precheck, w) && result == ResultOf(run, id, precheck, w)
    ensures cache.Valid(w.known)
    ensures id in old(tracker.runs) && old(tracker.runs)[id] == PendingRun(run.phases) ==>
      tracker.runs == old(tracker.runs)[id := EntryAfter(run, id, precheck, w)]
    ensures cache.log == RunLog(old(cache.log), run, id, precheck, w)
  {
    hide Logged, PhasesLog, Outcomes, EndedPhase, PendingPhase, PhaseSucceeds, BadPhase, HasConnectivity,
        PrecheckTargets, PhasesAfter, Verified;
    NoChecksNoLog(cache.log, id, w);
    tracker.SetRunStatus(id, Running);
    if run.runtime == "" || run.runtime !in w.envs {
      tracker.SetRunStatus(id, Failed);
      return NoRuntime, RunResult(id, false, []);
    }
    if precheck && !HasConnectivity(run.phases) {
      var targets := TargetsToCheck(run.phases, w.inventory);
      var passed := Precheck(targets, id, w, cache);
      if !passed {
        tracker.SetRunStatus(id, Failed);
        return CheckFailed, RunResult(id, false, []);
      }
    }
    var ok, outcomes := ExecutePhases(run.phases, id, w, tracker, cache);
    tracker.SetRunStatus(id, if ok then Succeeded else Failed);
    return if ok then Completed else ActionFailed, RunResult(id, ok, outcomes);
  }

  /** `_precheck_target_nodes`. */
  method TargetsToCheck(phases: seq<PhasePlan>, inventory: set<string>) returns (targets: seq<string>)
    ensures targets == PrecheckTargets(phases, inventory)
  {
    var own := CollectTargets(phases);
    targets := SortedNames(own * inventory);
    if targets == [] {
      assert own * inventory == {} by { forall t ensures t !in own * inventory { assert t in targets <==> t in own * inventory; } }
      targets := SortedNames(inventory);
    } else {
      assert targets[0] in own * inventory;
    }
  }
}
