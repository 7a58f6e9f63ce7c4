/** The single-run records of an experiment and what draining a generation does to them. */
module RunRecords {
  import opened Values
  import opened Ordering
  import opened Sequences
  import opened RunTracker
  import opened RunExecutor
  import opened PlanExecution
  import opened ExecutionTheorems

  /** One ProfilingRun record; `plan` is its compiled payload snapshot with its execution policy. */
  datatype Record = Record(created: int, gen: nat, status: Status, plan: Plan, report: Report)

  type Records = map<int, Record>

  datatype ExperimentStatus = New | Waiting | InProgress | Finished | Error

  const NO_REPORT := Report(false, 0, 0, [])

  function PendingIds(records: Records, gen: nat): set<int> {
    set id | id in records && records[id].gen == gen && records[id].status == Pending
  }

  function RunningIds(records: Records): set<int> {
    set id | id in records && records[id].status == Running
  }

  function Created(records: Records): map<int, int> {
    map id | id in records :: records[id].created
  }

  /** `order_by("created_at", "id")`. */
  function Before(created: map<int, int>): (int, int) -> bool {
    (a: int, b: int) =>
      var s, t := if a in created then created[a] else 0, if b in created then created[b] else 0;
      s < t || (s == t && a < b)
  }

  lemma BeforeIsTotal(created: map<int, int>)
    ensures StrictTotal(Before(created))
  {
  }

  /** The waiting records of a generation in dispatch order. */
  function WaitingIds(records: Records, gen: nat): (ids: seq<int>)
    ensures Ascending(ids, Before(Created(records))) && forall id :: id in ids <==> id in PendingIds(records, gen)
  {
    BeforeIsTotal(Created(records));
    Sorted(PendingIds(records, gen), Before(Created(records)))
  }

  /** `….order_by("created_at", "id").first()`. */
  function NextPending(records: Records, gen: nat): (next: Option<int>)
    ensures next.None? <==> PendingIds(records, gen) == {}
    ensures next.Some? ==> IsLeast(next.value, PendingIds(records, gen), Before(Created(records)))
  {
    BeforeIsTotal(Created(records));
    if PendingIds(records, gen) == {} then None else Some(Least(PendingIds(records, gen), Before(Created(records))))
  }

  function Claimed(records: Records, id: int): Records
    requires id in records
  {
    records[id := records[id].(status := Running)]
  }

  /** The record once its task has executed its plan. */
  function Ended(record: Record, w: World): Record {
    var r := ReportOf(record.plan, w);
    record.(status := if r.ok then Succeeded else Failed, report := r)
  }

  /** Its task goes on to dispatch the next record. */
  predicate Allows(record: Record, w: World) {
    ReportOf(record.plan, w).ok || !record.plan.stopOnFailure
  }

  /** The records when a running record and everything dispatched after it have ended, and the order of execution. */
  function Drained(records: Records, id: int, w: World): (r: (Records, seq<int>))
    requires id in records && records[id].status == Running
    decreases PendingIds(records, records[id].gen)
  {
    var gen := records[id].gen;
    var done := records[id := Ended(records[id], w)];
    assert PendingIds(done, gen) == PendingIds(records, gen);
    var next := NextPending(done, gen);
    if !Allows(records[id], w) || next.None? then (done, [id])
    else
      assert next.value !in PendingIds(Claimed(done, next.value), gen) && next.value in PendingIds(records, gen);
      var rest := Drained(Claimed(done, next.value), next.value, w);
      (rest.0, [id] + rest.1)
  }

  // ---------------------------------------------------------------- which records a drain executes

  lemma WaitingUnfolds(records: Records, gen: nat, n: int)
    requires n in PendingIds(records, gen) && IsLeast(n, PendingIds(records, gen), Before(Created(records)))
    ensures WaitingIds(records, gen) == [n] + WaitingIds(Claimed(records, n), gen)
  {
    var order := Before(Created(records));
    BeforeIsTotal(Created(records));
    assert Created(Claimed(records, n)) == Created(records);
    assert PendingIds(Claimed(records, n), gen) == PendingIds(records, gen) - {n};
    AscendingUnique(WaitingIds(records, gen), [n] + WaitingIds(Claimed(records, n), gen), order);
  }

  lemma EndingKeepsWaiting(records: Records, id: int, w: World, gen: nat)
    requires id in records && records[id].status == Running
    ensures WaitingIds(records[id := Ended(records[id], w)], gen) == WaitingIds(records, gen)
    ensures Created(records[id := Ended(records[id], w)]) == Created(records)
  {
    hide ReportOf;
    var done := records[id := Ended(records[id], w)];
    assert Created(done) == Created(records) && PendingIds(done, gen) == PendingIds(records, gen);
  }

  /** A drain executes the chosen record and then the waiting records of its generation in (created_at, id) order,
      each once, until one does not allow the next; if none forbids it, all of them. Every executed record ends
      with its own report, and no other record changes. */
  lemma {:induction false} DrainExecutes(records: Records, id: int, w: World)
    requires id in records && records[id].status == Running
    ensures var (after, order) := Drained(records, id, w);
      var waiting := WaitingIds(records, records[id].gen);
      && 1 <= |order| <= 1 + |waiting| && order == [id] + waiting[..|order| - 1]
      && (forall i | 0 <= i < |order| :: order[i] in records)
      && (forall i | 0 <= i < |order| - 1 :: Allows(records[order[i]], w))
      && (|order| < 1 + |waiting| ==> !Allows(records[order[|order| - 1]], w))
    decreases PendingIds(records, records[id].gen)
  {
    hide ReportOf, Allows, WaitingIds, Least;
    var gen := records[id].gen;
    var done := records[id := Ended(records[id], w)];
    EndingKeepsWaiting(records, id, w, gen);
    var next := NextPending(done, gen);
    assert PendingIds(done, gen) == PendingIds(records, gen);
    if next.None? {
      assert WaitingIds(records, gen) == [] by { NothingWaits(records, gen); }
    } else if Allows(records[id], w) {
      var n := next.value;
      WaitingUnfolds(done, gen, n);
      assert n !in PendingIds(Claimed(done, n), gen);
      DrainExecutes(Claimed(done, n), n, w);
      DrainPlansKeep(records, done, id, n, w);
    } else {
      assert Drained(records, id, w).1 == [id];
    }
  }

  /** Apart from the chosen record a drain executes waiting records of its generation, the oldest first, and among
      records created at the same time the one with the smaller id. */
  lemma DrainGoesByAge(records: Records, id: int, w: World)
    requires id in records && records[id].status == Running
    ensures var order := Drained(records, id, w).1;
      && (forall i | 1 <= i < |order| :: order[i] in records
            && records[order[i]].gen == records[id].gen && records[order[i]].status == Pending)
      && forall i, j | 1 <= i < j < |order| ::
           var a, b := records[order[i]].created, records[order[j]].created; a < b || (a == b && order[i] < order[j])
  {
    hide Drained, ReportOf;
    DrainExecutes(records, id, w);
    var order, waiting := Drained(records, id, w).1, WaitingIds(records, records[id].gen);
    forall i | 1 <= i < |order| ensures order[i] == waiting[i - 1] && order[i] in PendingIds(records, records[id].gen) {
      assert waiting[i - 1] in waiting;
    }
    forall i, j | 1 <= i < j < |order| ensures Before(Created(records))(order[i], order[j]) {}
  }

  lemma NothingWaits(records: Records, gen: nat)
    ensures PendingIds(records, gen) == {} <==> WaitingIds(records, gen) == []
  {
    var ids := WaitingIds(records, gen);
    if ids != [] { assert ids[0] in PendingIds(records, gen); }
    if k :| k in PendingIds(records, gen) { assert k in ids; }
  }

  /** Ending and claiming keep every plan. */
  lemma DrainPlansKeep(records: Records, done: Records, id: int, n: int, w: World)
    requires id in records && done == records[id := Ended(records[id], w)] && n in done
    ensures forall k | k in records :: k in done && Claimed(done, n)[k].plan == records[k].plan
    ensures forall k | k in records :: Allows(Claimed(done, n)[k], w) == Allows(records[k], w)
  {
  }

  lemma {:induction false} DrainEnds(records: Records, id: int, w: World)
    requires id in records && records[id].status == Running
    ensures var (after, order) := Drained(records, id, w);
      && after.Keys == records.Keys
      && (forall k | k in order :: k in records && after[k] == Ended(records[k], w))
      && (forall k | k in records && k !in order :: after[k] == records[k])
    decreases PendingIds(records, records[id].gen)
  {
    hide ReportOf, Allows, WaitingIds, Least;
    var gen := records[id].gen;
    var done := records[id := Ended(records[id], w)];
    var next := NextPending(done, gen);
    assert PendingIds(done, gen) == PendingIds(records, gen);
    if Allows(records[id], w) && next.Some? {
      var n := next.value;
      assert n !in PendingIds(Claimed(done, n), gen);
      DrainEnds(Claimed(done, n), n, w);
      var rest := Drained(Claimed(done, n), n, w);
      StartedOnly(Claimed(done, n), n, w);
      assert id !in rest.1;
      assert Drained(records, id, w) == (rest.0, [id] + rest.1);
    } else {
      assert Drained(records, id, w) == (done, [id]);
    }
  }

  /** What a drain leaves: each executed record has the report of its plan, is succeeded exactly when that report is
      ok and failed otherwise, and is unchanged apart from that; every other record is as it was. */
  lemma DrainLeaves(records: Records, id: int, w: World)
    requires id in records && records[id].status == Running
    ensures var (after, order) := Drained(records, id, w);
      && after.Keys == records.Keys
      && (forall k | k in order ::
            && k in records && after[k].report == ReportOf(records[k].plan, w)
            && (after[k].status == Succeeded <==> after[k].report.ok)
            && (after[k].status == Failed <==> !after[k].report.ok)
            && after[k] == records[k].(status := after[k].status, report := after[k].report))
      && (forall k | k in records && k !in order :: after[k] == records[k])
  {
    hide ReportOf, Drained;
    DrainEnds(records, id, w);
  }

  /** Only the running record and waiting ones are executed. */
  lemma StartedOnly(records: Records, id: int, w: World)
    requires id in records && records[id].status == Running
    ensures forall k | k in Drained(records, id, w).1 :: k == id || k in PendingIds(records, records[id].gen)
  {
    DrainExecutes(records, id, w);
    var order, waiting := Drained(records, id, w).1, WaitingIds(records, records[id].gen);
    forall k | k in order ensures k == id || k in PendingIds(records, records[id].gen) {
      if k != id { assert k in waiting; }
    }
  }

  // ---------------------------------------------------------------- the status of the experiment

  /** `derive_status_from_runs`; `current` is the current generation and `planned` says whether there is a plan. */
  function Derived(records: Records, current: nat, planned: bool): ExperimentStatus {
    if !planned then New
    else
      var own := set id | id in records && records[id].gen == current;
      var statuses := if current > 0 && own != {} then set id | id in own :: records[id].status
                      else set id | id in records :: records[id].status;
      if statuses == {} then ExperimentStatus.Waiting
      else if Running in statuses then InProgress
      else if Pending in statuses then ExperimentStatus.Waiting
      else if statuses == {Succeeded} then Finished
      else Error
  }

  ghost predicate GenerationSucceeded(records: Records, gen: nat) {
    forall id | id in records && records[id].gen == gen :: records[id].status == Succeeded
  }

  /** Every run of the plan succeeds. */
  ghost predicate PlanSucceeds(plan: Plan, w: World) {
    w.resolvable && forall i: nat | i < |plan.runs| :: RunOk(plan, i, w)
  }

  /** Every record of the generation was executed with success, or had succeeded before and was not executed. */
  ghost predicate AllSucceed(records: Records, order: seq<int>, gen: nat, w: World) {
    forall k | k in records && records[k].gen == gen ::
      if k in order then PlanSucceeds(records[k].plan, w) else records[k].status == Succeeded
  }

  /** After an undisturbed drain of the current generation the experiment is finished exactly when every record of
      the generation was executed and all runs of its plan succeeded, or had succeeded before; waiting exactly when
      the drain stopped before the last waiting run; and in error otherwise. */
  lemma StatusAfterDrain(records: Records, id: int, w: World, current: nat)
    requires id in records && current > 0 && records[id].gen == current && RunningIds(records) == {id}
    requires forall k | k in records :: records[k].status != Skipped
    ensures var order := Drained(records, id, w).1;
      var derived, all := Derived(Drained(records, id, w).0, current, true), 1 + |WaitingIds(records, current)|;
      && (derived == Finished <==> AllSucceed(records, order, current, w))
      && (derived == ExperimentStatus.Waiting <==> |order| < all)
      && (derived == Error <==> |order| == all && !AllSucceed(records, order, current, w))
  {
    hide ReportOf, Allows, WaitingIds, Drained;
    DrainExecutes(records, id, w);
    DrainLeaves(records, id, w);
    var (after, order) := Drained(records, id, w);
    LeftoversWait(records, id, w);
    DrainStopsRunning(records, id, w);
    assert order[0] in order;
    assert after[id].gen == current;
    DerivedExactly(after, current, id);
    SucceededAfterDrain(records, id, w, current);
  }

  lemma SucceededAfterDrain(records: Records, id: int, w: World, gen: nat)
    requires id in records && records[id].status == Running
    ensures GenerationSucceeded(Drained(records, id, w).0, gen) <==> AllSucceed(records, Drained(records, id, w).1, gen, w)
  {
    DrainLeaves(records, id, w);
    forall k | k in Drained(records, id, w).1
      ensures k in records && (ReportOf(records[k].plan, w).ok <==> PlanSucceeds(records[k].plan, w))
    {
      ReportAgrees(records[k].plan, w);
    }
    hide ReportOf, Drained, PlanSucceeds;
    var (after, order) := Drained(records, id, w);
    forall k | k in records
      ensures after[k].gen == records[k].gen
      ensures after[k].status == Succeeded <==>
        if k in order then PlanSucceeds(records[k].plan, w) else records[k].status == Succeeded
    {
    }
  }

  /** The records whose statuses count: those of the current generation, or all when it has none. */
  ghost predicate Shown(records: Records, current: nat, k: int) {
    k in records && (current > 0 && (exists j | j in records :: records[j].gen == current) ==> records[k].gen == current)
  }

  ghost predicate ShowsStatus(records: Records, current: nat, status: Status) {
    exists k | Shown(records, current, k) :: records[k].status == status
  }

  /** The status an experiment shows, whatever its records: in progress with one running record, waiting with one
      waiting record and none running, or without any record, finished only when all of them succeeded. */
  lemma StatusExactly(records: Records, current: nat)
    ensures Derived(records, current, false) == New
    ensures var derived := Derived(records, current, true);
      var running, waiting := ShowsStatus(records, current, Running), ShowsStatus(records, current, Pending);
      var some := exists k :: Shown(records, current, k);
      && (derived == InProgress <==> running)
      && (derived == ExperimentStatus.Waiting <==> !running && (waiting || !some))
      && (derived == Finished <==> some && forall k | Shown(records, current, k) :: records[k].status == Succeeded)
      && derived != New
  {
    var own := set k | k in records && records[k].gen == current;
    var shown := if current > 0 && own != {} then own else records.Keys;
    assert (forall j :: j !in own) ==> own == {};
    if j :| j in records && records[j].gen == current { assert j in own; }
    forall k ensures k in shown <==> Shown(records, current, k) {}
    hide Shown;
    var statuses := set k | k in shown :: records[k].status;
    forall s ensures s in statuses <==> ShowsStatus(records, current, s) {}
    assert statuses == if current > 0 && own != {} then set k | k in own :: records[k].status
                       else set k | k in records :: records[k].status;
    if k :| Shown(records, current, k) { assert records[k].status in statuses; }
    if statuses == {Succeeded} {
      forall k | Shown(records, current, k) ensures records[k].status == Succeeded { assert records[k].status in statuses; }
    }
    if (exists k :: Shown(records, current, k)) && forall k | Shown(records, current, k) :: records[k].status == Succeeded {
      assert statuses == {Succeeded};
    }
  }

  /** What is left pending is what was not executed. */
  lemma LeftoversWait(records: Records, id: int, w: World)
    requires id in records && records[id].status == Running
    ensures var (after, order) := Drained(records, id, w);
      PendingIds(after, records[id].gen) == {} <==> |order| == 1 + |WaitingIds(records, records[id].gen)|
  {
    hide ReportOf, Drained, Least, Allows, WaitingIds;
    DrainExecutes(records, id, w);
    DrainEnds(records, id, w);
    var (after, order) := Drained(records, id, w);
    var waiting := WaitingIds(records, records[id].gen);
    if |order| < 1 + |waiting| {
      var k := waiting[|order| - 1];
      assert k in waiting && k in PendingIds(records, records[id].gen);
      NextIsNotExecuted(records, id, waiting, |order| - 1);
      assert k in PendingIds(after, records[id].gen);
    } else {
      assert waiting[..|order| - 1] == waiting;
      forall k ensures k !in PendingIds(after, records[id].gen) {
        if k in order {
          EndedIsNotPending(records[k], w);
        } else if k in records {
          assert k !in waiting;
        }
      }
    }
  }

  lemma EndedIsNotPending(record: Record, w: World)
    ensures Ended(record, w).status == Succeeded || Ended(record, w).status == Failed
    ensures Ended(record, w).gen == record.gen && Ended(record, w).created == record.created
  {
  }

  lemma NextIsNotExecuted(records: Records, id: int, waiting: seq<int>, n: nat)
    requires id in records && records[id].status == Running && n < |waiting|
        && waiting == WaitingIds(records, records[id].gen)
    ensures waiting[n] !in [id] + waiting[..n]
  {
    BeforeIsTotal(Created(records));
    assert waiting[n] in waiting;
    forall i | 0 <= i < n ensures waiting[i] != waiting[n] { assert Before(Created(records))(waiting[i], waiting[n]); }
  }

  /** Nothing runs after a drain that did not run before. */
  lemma DrainStopsRunning(records: Records, id: int, w: World)
    requires id in records && records[id].status == Running
    ensures RunningIds(Drained(records, id, w).0) == RunningIds(records) - {id}
  {
    hide ReportOf, Drained, Least, Allows, WaitingIds;
    DrainExecutes(records, id, w);
    DrainEnds(records, id, w);
    StartedOnly(records, id, w);
    var (after, order) := Drained(records, id, w);
    forall k ensures k in RunningIds(after) <==> k in RunningIds(records) - {id} {
      if k in order { EndedIsNotPending(records[k], w); }
      assert order[0] == id && id in order;
    }
  }

  lemma DerivedExactly(records: Records, current: nat, id: int)
    requires current > 0 && id in records && records[id].gen == current && RunningIds(records) == {}
    requires forall k | k in records :: records[k].status != Skipped
    ensures var derived := Derived(records, current, true);
      && (derived == Finished <==> GenerationSucceeded(records, current))
      && (derived == ExperimentStatus.Waiting <==> PendingIds(records, current) != {})
      && (derived == Error <==> PendingIds(records, current) == {} && !GenerationSucceeded(records, current))
  {
    var own := set k | k in records && records[k].gen == current;
    assert id in own;
    var statuses := set k | k in own :: records[k].status;
    assert records[id].status in statuses;
    forall k | k in own ensures records[k].status != Running { assert k !in RunningIds(records); }
    if Pending in statuses {
      var k :| k in own && records[k].status == Pending;
      assert k in PendingIds(records, current);
    } else {
      forall k ensures k !in PendingIds(records, current) {
        if k in own { assert records[k].status in statuses; }
      }
      assert PendingIds(records, current) == {};
    }
    if GenerationSucceeded(records, current) {
      assert statuses == {Succeeded};
    } else {
      var k :| k in own && records[k].status != Succeeded;
      assert records[k].status in statuses;
    }
  }

  // ---------------------------------------------------------------- the records of a generated plan

  /** The records after generation has created the first n single-run records of a plan. */
  function Recorded(records: Records, nextId: nat, gen: nat, plan: Plan, times: seq<int>, n: nat): Records
    requires n <= |plan.runs| && |times| == |plan.runs|
  {
    if n == 0 then records
    else Recorded(records, nextId, gen, plan, times, n - 1)
         [nextId + n - 1 := Record(times[n - 1], gen, Pending, Single(plan, n - 1), NO_REPORT)]
  }

  /** The clock does not run backwards while records are created. */
  ghost predicate Nondecreasing(times: seq<int>) {
    forall i, j | 0 <= i < j < |times| :: times[i] <= times[j]
  }

  lemma {:induction false} RecordedAre(records: Records, nextId: nat, gen: nat, plan: Plan, times: seq<int>, n: nat)
    requires n <= |plan.runs| && |times| == |plan.runs| && forall id | id in records :: id < nextId
    ensures var all := Recorded(records, nextId, gen, plan, times, n);
      && (forall id :: id in all <==> id in records || nextId <= id < nextId + n)
      && (forall id | id in records :: all[id] == records[id])
      && (forall id | nextId <= id < nextId + n ::
            all[id] == Record(times[id - nextId], gen, Pending, Single(plan, id - nextId), NO_REPORT))
  {
    if n > 0 { RecordedAre(records, nextId, gen, plan, times, n - 1); }
  }

  /** The waiting records of a fresh generation are those of the plan, in plan order. */
  lemma RecordedWaitInOrder(records: Records, nextId: nat, gen: nat, plan: Plan, times: seq<int>)
    requires |times| == |plan.runs| && Nondecreasing(times)
    requires forall id | id in records :: id < nextId && records[id].gen != gen
    ensures WaitingIds(Recorded(records, nextId, gen, plan, times, |plan.runs|), gen)
        == seq(|plan.runs|, i requires 0 <= i => nextId + i)
  {
    var n := |plan.runs|;
    var all, ids := Recorded(records, nextId, gen, plan, times, n), seq(n, i requires 0 <= i => nextId + i);
    RecordedAre(records, nextId, gen, plan, times, n);
    BeforeIsTotal(Created(all));
    hide Recorded, Single;
    forall id ensures id in PendingIds(all, gen) <==> id in ids {
      if nextId <= id < nextId + n { assert ids[id - nextId] == id; }
    }
    forall i, j | 0 <= i < j < n ensures Before(Created(all))(ids[i], ids[j]) {
      assert all[ids[i]].created == times[i] && all[ids[j]].created == times[j];
    }
    SortedOfAscending(ids, PendingIds(all, gen), Before(Created(all)));
  }

  /** What is known of a chain from its k-th run on. */
  ghost predicate ChainFrom(chain: seq<Report>, plan: Plan, w: World, k: nat) {
    && |chain| <= |plan.runs| - k && (k < |plan.runs| ==> chain != [])
    && (forall i: nat | i < |chain| :: chain[i] == ReportOf(Single(plan, k + i), w))
    && (forall i: nat | i + 1 < |chain| :: chain[i].ok || !plan.stopOnFailure)
    && (0 < |chain| < |plan.runs| - k ==> !chain[|chain| - 1].ok && plan.stopOnFailure)
  }

  lemma ChainFromStep(rest: seq<Report>, plan: Plan, w: World, k: nat)
    requires k < |plan.runs|
    requires var r := ReportOf(Single(plan, k), w);
      if r.ok || !plan.stopOnFailure then ChainFrom(rest, plan, w, k + 1) else rest == []
    ensures ChainFrom([ReportOf(Single(plan, k), w)] + rest, plan, w, k)
  {
    hide ReportOf, Single;
    var chain := [ReportOf(Single(plan, k), w)] + rest;
    forall i: nat | i < |chain|
      ensures chain[i] == ReportOf(Single(plan, k + i), w)
      ensures i + 1 < |chain| ==> chain[i].ok || !plan.stopOnFailure
    {
      if i > 0 { assert chain[i] == rest[i - 1] == ReportOf(Single(plan, k + 1 + (i - 1)), w); }
    }
  }

  lemma {:induction false} ChainIs(plan: Plan, w: World, k: nat)
    requires k <= |plan.runs|
    ensures ChainFrom(Chain(plan, w, k), plan, w, k)
    decreases |plan.runs| - k
  {
    hide ReportOf, Single;
    if k < |plan.runs| {
      var r := ReportOf(Single(plan, k), w);
      ChainIs(plan, w, k + 1);
      ChainFromStep(if r.ok || !plan.stopOnFailure then Chain(plan, w, k + 1) else [], plan, w, k);
    }
  }

  /** The reports of the executed records, in order of execution. */
  function ReportsOf(records: Records, order: seq<int>): seq<Report>
    requires forall i | 0 <= i < |order| :: order[i] in records
  {
    seq(|order|, i requires 0 <= i < |order| => records[order[i]].report)
  }

  /** The i-th record of the generation holds the i-th run of the plan. */
  ghost predicate Holds(records: Records, nextId: nat, plan: Plan, i: nat) {
    i < |plan.runs| && nextId + i in records && records[nextId + i].plan == Single(plan, i)
  }

  predicate GoesOn(plan: Plan, i: nat, w: World) {
    i < |plan.runs| ==> ReportOf(Single(plan, i), w).ok || !plan.stopOnFailure
  }

  /** Executing single-run plans from the first stops after k of them. */
  ghost predicate StopsAfter(plan: Plan, k: nat, w: World) {
    1 <= k <= |plan.runs| && (forall i: nat | i + 1 < k :: GoesOn(plan, i, w))
        && (k < |plan.runs| ==> !GoesOn(plan, k - 1, w))
  }

  lemma StopsOnce(plan: Plan, j: nat, k: nat, w: World)
    requires StopsAfter(plan, j, w) && StopsAfter(plan, k, w)
    ensures j == k
  {
    hide GoesOn;
  }

  lemma FirstWaits(records: Records, gen: nat)
    requires WaitingIds(records, gen) != []
    ensures WaitingIds(records, gen)[0] in records
    ensures WaitingIds(Claimed(records, WaitingIds(records, gen)[0]), gen) == WaitingIds(records, gen)[1..]
  {
    var ids := WaitingIds(records, gen);
    assert ids[0] in ids && ids[0] in PendingIds(records, gen);
    forall k | k in PendingIds(records, gen) ensures k == ids[0] || Before(Created(records))(ids[0], k) {
      var i :| 0 <= i < |ids| && ids[i] == k;
    }
    WaitingUnfolds(records, gen, ids[0]);
  }

  /** A drain that starts at the first record of a plan, with the others waiting in plan order, follows the plan. */
  lemma DrainFollowsThePlan(started: Records, nextId: nat, plan: Plan, w: World)
    requires plan.runs != [] && (forall i: nat | i < |plan.runs| :: Holds(started, nextId, plan, i))
    requires nextId in started && started[nextId].status == Running
    requires WaitingIds(started, started[nextId].gen) == seq(|plan.runs| - 1, i requires 0 <= i => nextId + 1 + i)
    ensures var order := Drained(started, nextId, w).1;
      order == seq(|order|, i requires 0 <= i => nextId + i) && StopsAfter(plan, |order|, w)
  {
    hide ReportOf, Drained, WaitingIds, Holds;
    DrainExecutes(started, nextId, w);
    var order := Drained(started, nextId, w).1;
    var waiting := WaitingIds(started, started[nextId].gen);
    forall i: nat | i < |order| ensures order[i] == nextId + i {
      if i > 0 { assert order[i] == waiting[i - 1]; }
    }
    forall i: nat | i < |order| ensures Allows(started[order[i]], w) <==> GoesOn(plan, i, w) {
      AllowsAsPlanned(started, nextId, plan, i, w);
    }
  }

  lemma AllowsAsPlanned(records: Records, nextId: nat, plan: Plan, i: nat, w: World)
    requires Holds(records, nextId, plan, i)
    ensures Allows(records[nextId + i], w) <==> GoesOn(plan, i, w)
  {
  }

  lemma ChainStops(plan: Plan, w: World)
    requires plan.runs != []
    ensures StopsAfter(plan, |Chain(plan, w, 0)|, w)
  {
    hide ReportOf, Chain;
    ChainIs(plan, w, 0);
    var chain := Chain(plan, w, 0);
    forall i: nat | i < |chain| ensures GoesOn(plan, i, w) <==> chain[i].ok || !plan.stopOnFailure {
      assert chain[i] == ReportOf(Single(plan, 0 + i), w);
    }
  }

  lemma DrainReports(started: Records, nextId: nat, plan: Plan, w: World)
    requires plan.runs != [] && (forall i: nat | i < |plan.runs| :: Holds(started, nextId, plan, i))
    requires nextId in started && started[nextId].status == Running
    requires WaitingIds(started, started[nextId].gen) == seq(|plan.runs| - 1, i requires 0 <= i => nextId + 1 + i)
    ensures var (after, order) := Drained(started, nextId, w);
      && order == seq(|Chain(plan, w, 0)|, i requires 0 <= i => nextId + i)
      && (forall i | 0 <= i < |order| :: order[i] in after)
      && ReportsOf(after, order) == Chain(plan, w, 0)
  {
    hide ReportOf, Drained, WaitingIds, Chain, StopsAfter, Holds;
    var (after, order) := Drained(started, nextId, w);
    DrainFollowsThePlan(started, nextId, plan, w);
    ChainStops(plan, w);
    StopsOnce(plan, |order|, |Chain(plan, w, 0)|, w);
    DrainEnds(started, nextId, w);
    ChainIs(plan, w, 0);
    forall i: nat | i < |order| ensures order[i] in after && after[order[i]].report == Chain(plan, w, 0)[i] {
      assert order[i] == nextId + i && order[i] in order;
      PlannedReport(started, nextId, plan, i, w);
      assert Chain(plan, w, 0)[i] == ReportOf(Single(plan, 0 + i), w);
    }
  }

  lemma PlannedReport(records: Records, nextId: nat, plan: Plan, i: nat, w: World)
    requires Holds(records, nextId, plan, i)
    ensures nextId + i in records && Ended(records[nextId + i], w).report == ReportOf(Single(plan, i), w)
  {
  }

  /** Starting the first record of a freshly generated plan and letting the chain run executes the records in plan
      order and produces exactly the reports of the single-run plans executed one after another. */
  lemma DrainIsTheChain(records: Records, nextId: nat, gen: nat, plan: Plan, times: seq<int>, w: World)
    requires |times| == |plan.runs| > 0 && Nondecreasing(times)
    requires forall id | id in records :: id < nextId && records[id].gen != gen
    ensures nextId in Recorded(records, nextId, gen, plan, times, |plan.runs|)
    ensures var (after, order) := Drained(Claimed(Recorded(records, nextId, gen, plan, times, |plan.runs|), nextId), nextId, w);
      && order == seq(|Chain(plan, w, 0)|, i requires 0 <= i => nextId + i)
      && (forall i | 0 <= i < |order| :: order[i] in after)
      && ReportsOf(after, order) == Chain(plan, w, 0)
  {
    hide ReportOf, Drained, Chain, WaitingIds, Recorded, ReportsOf;
    var n := |plan.runs|;
    var all := Recorded(records, nextId, gen, plan, times, n);
    RecordedAre(records, nextId, gen, plan, times, n);
    RecordedWaitInOrder(records, nextId, gen, plan, times);
    var ids := WaitingIds(all, gen);
    FirstWaits(all, gen);
    assert ids[1..] == seq(n - 1, i requires 0 <= i => nextId + 1 + i);
    var started := Claimed(all, nextId);
    forall i: nat | i < n ensures Holds(started, nextId, plan, i) {}
    DrainReports(started, nextId, plan, w);
  }

  /** Starting the first record of a freshly generated plan does what one task over the whole plan would do: the
      results of the executed records are those of the plan, in order, and their counters add up to the plan's. */
  lemma DrainRefinesThePlan(records: Records, nextId: nat, gen: nat, plan: Plan, times: seq<int>, w: World)
    requires |times| == |plan.runs| > 0 && Nondecreasing(times) && w.resolvable && Generated(plan)
    requires forall id | id in records :: id < nextId && records[id].gen != gen
    ensures nextId in Recorded(records, nextId, gen, plan, times, |plan.runs|)
    ensures var (after, order) := Drained(Claimed(Recorded(records, nextId, gen, plan, times, |plan.runs|), nextId), nextId, w);
      && (forall i | 0 <= i < |order| :: order[i] in after)
      && var reports := ReportsOf(after, order);
         && AllResults(reports) == ReportOf(plan, w).results
         && Completions(reports) == ReportOf(plan, w).completed
         && Failures(reports) == ReportOf(plan, w).failed
         && (AllOk(reports) <==> ReportOf(plan, w).ok)
  {
    hide ReportOf, Drained, Recorded, Chain, Generated, ReportsOf;
    DrainIsTheChain(records, nextId, gen, plan, times, w);
    SplittingRefinesThePlan(plan, w);
  }
}
