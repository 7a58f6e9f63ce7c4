/** The indexed status tracker of a generated run: one entry per run, its phases, and their actions. */
module RunTracker {
  import opened RuntimeCache
  import opened RunIds

  datatype Status = Pending | Running | Succeeded | Failed | Skipped

  datatype PhasePlan = PhasePlan(name: string, actions: seq<ActionSpec>)

  /** One entry of a plan's run list; entries that are not objects are Malformed. */
  datatype RunSpec = Malformed | RunSpec(id: string, runtime: string, phases: seq<PhasePlan>)

  datatype PhaseEntry = PhaseEntry(status: Status, actions: seq<Status>)

  datatype RunEntry = RunEntry(status: Status, phases: seq<PhaseEntry>)

  /** `str(run.get("run_id") or f"run-{index:03d}")`, with positions counted from 0. */
  function IdOf(runs: seq<RunSpec>, i: nat): string
    requires i < |runs| && runs[i].RunSpec?
  {
    if runs[i].id != "" then runs[i].id else RunId(i + 1)
  }

  /** A run keeps its identifier; one without gets the number of its position, counted from 1. */
  lemma IdOfExactly(runs: seq<RunSpec>, i: nat)
    requires i < |runs| && runs[i].RunSpec?
    ensures if runs[i].id != "" then IdOf(runs, i) == runs[i].id
            else IdOf(runs, i)[..4] == "run-" && Decoded(IdOf(runs, i)[4..]) == i + 1
  {
    RunIdIsRead(i + 1);
  }

  function PendingPhase(phase: PhasePlan): PhaseEntry {
    PhaseEntry(Pending, seq(|phase.actions|, _ => Pending))
  }

  function PendingRun(phases: seq<PhasePlan>): RunEntry {
    RunEntry(Pending, seq(|phases|, p requires 0 <= p < |phases| => PendingPhase(phases[p])))
  }

  /** `_build_phase_action_tracker`: a later run with the same identifier replaces an earlier one. */
  function Built(runs: seq<RunSpec>, n: nat): map<string, RunEntry>
    requires n <= |runs|
  {
    if n == 0 then map[]
    else if runs[n - 1].Malformed? then Built(runs, n - 1)
    else Built(runs, n - 1)[IdOf(runs, n - 1) := PendingRun(runs[n - 1].phases)]
  }

  /** No two runs share an identifier. */
  ghost predicate DistinctIds(runs: seq<RunSpec>) {
    forall i, j | 0 <= i < j < |runs| && runs[i].RunSpec? && runs[j].RunSpec? :: IdOf(runs, i) != IdOf(runs, j)
  }

  lemma {:induction false} BuiltHasRuns(runs: seq<RunSpec>, n: nat)
    requires DistinctIds(runs) && n <= |runs|
    ensures Built(runs, n).Keys == set i | 0 <= i < n && runs[i].RunSpec? :: IdOf(runs, i)
    ensures forall i | 0 <= i < n && runs[i].RunSpec? :: Built(runs, n)[IdOf(runs, i)] == PendingRun(runs[i].phases)
  {
    if n > 0 { BuiltHasRuns(runs, n - 1); }
  }

  function SkipPending(runs: map<string, RunEntry>): map<string, RunEntry> {
    map id | id in runs :: if runs[id].status == Pending then runs[id].(status := Skipped) else runs[id]
  }

  function WithRun(runs: map<string, RunEntry>, id: string, status: Status): map<string, RunEntry> {
    if id in runs then runs[id := runs[id].(status := status)] else runs
  }

  function WithPhase(runs: map<string, RunEntry>, id: string, p: nat, status: Status): map<string, RunEntry> {
    if id in runs && p < |runs[id].phases| then
      runs[id := runs[id].(phases := runs[id].phases[p := runs[id].phases[p].(status := status)])]
    else runs
  }

  function WithAction(runs: map<string, RunEntry>, id: string, p: nat, a: nat, status: Status): map<string, RunEntry> {
    if id in runs && p < |runs[id].phases| && a < |runs[id].phases[p].actions| then
      var phase := runs[id].phases[p];
      runs[id := runs[id].(phases := runs[id].phases[p := phase.(actions := phase.actions[a := status])])]
    else runs
  }

  class Tracker {
    var runs: map<string, RunEntry>

    constructor (specs: seq<RunSpec>)
      ensures runs == Built(specs, |specs|)
    {
      runs := map[];
      new;
      for i := 0 to |specs|
        invariant runs == Built(specs, i)
      {
        if specs[i].RunSpec? {
          var phases: seq<PhaseEntry> := [];
          for p := 0 to |specs[i].phases|
            invariant phases == PendingRun(specs[i].phases).phases[..p]
          {
            phases := phases + [PendingPhase(specs[i].phases[p])];
          }
          assert phases == PendingRun(specs[i].phases).phases;
          runs := runs[IdOf(specs, i) := RunEntry(Pending, phases)];
        }
      }
    }

    method SetRunStatus(id: string, status: Status)
      modifies this
      ensures runs == WithRun(old(runs), id, status)
    {
      if id !in runs { return; }
      runs := runs[id := runs[id].(status := status)];
    }

    method SetPhaseStatus(id: string, p: nat, status: Status)
      modifies this
      ensures runs == WithPhase(old(runs), id, p, status)
    {
      if id !in runs { return; }
      var phases := runs[id].phases;
      if p >= |phases| { return; }
      runs := runs[id := runs[id].(phases := phases[p := phases[p].(status := status)])];
    }

    method SetActionStatus(id: string, p: nat, a: nat, status: Status)
      modifies this
      ensures runs == WithAction(old(runs), id, p, a, status)
    {
      if id !in runs { return; }
      var phases := runs[id].phases;
      if p >= |phases| { return; }
      var phase := phases[p];
      if a >= |phase.actions| { return; }
      runs := runs[id := runs[id].(phases := phases[p := phase.(actions := phase.actions[a := status])])];
    }

    /** `_mark_pending_runs_skipped`. */
    method MarkPendingSkipped()
      modifies this
      ensures runs == SkipPending(old(runs))
    {
      var ids := runs.Keys;
      while ids != {}
        invariant ids <= old(runs).Keys && runs.Keys == old(runs).Keys
        invariant forall id | id in runs :: runs[id] == if id in ids then old(runs)[id] else SkipPending(old(runs))[id]
        decreases ids
      {
        var id :| id in ids;
        ids := ids - {id};
        if runs[id].status == Pending { runs := runs[id := runs[id].(status := Skipped)]; }
      }
    }
  }
}
