/** Starting, rerunning and dispatching the records of one experiment, with the broker up or down. */
module RunDispatch {
  import opened Values
  import opened RunTracker
  import opened RunExecutor
  import opened PlanExecution
  import opened RunRecords

  datatype Answer = Accepted(id: int) | NoPlan | AlreadyRunning | NothingPending | NotFound | NotStartable

  /** One experiment of one user. API calls, and the end of a task with the dispatch that follows it, are single
      steps. */
  class Experiment {
    var records: Records
    var nextId: nat
    var current: nat
    var planned: bool
    var status: ExperimentStatus
    /** The task messages that the broker holds. */
    var queue: seq<int>
    var attempts: nat
    /** Whether the n-th attempt to enqueue succeeds. */
    const broker: nat -> bool
    /** How runs turn out from the last accepted start or rerun on. */
    var w: World
    ghost var executed: seq<int>

    ghost predicate Sound()
      reads this
    {
      forall id | id in records ::
        id < nextId && 1 <= records[id].gen <= current && records[id].plan.runs != []
        && records[id].status != Skipped
    }

    /** At most one record is running, and it is the one whose message is in flight; when nothing is in flight the
        experiment shows the status its records give. */
    ghost predicate Valid()
      reads this
    {
      && Sound() && |queue| <= 1
      && (queue == [] ==> RunningIds(records) == {} && status == Derived(records, current, planned))
      && (queue != [] ==> RunningIds(records) == {queue[0]})
    }

    /** The records and the execution order once everything in flight has been handled. */
    ghost function Outlook(): (Records, seq<int>)
      requires Valid()
      reads this
    {
      if queue == [] then (records, executed)
      else
        assert queue[0] in RunningIds(records);
        var d := Drained(records, queue[0], w);
        (d.0, executed + d.1)
    }

    constructor (broker: nat -> bool, w: World)
      ensures Valid() && records == map[] && queue == [] && executed == []
      ensures this.broker == broker
    {
      records, nextId, current, planned, status := map[], 0, 0, false, New;
      queue, attempts, executed := [], 0, [];
      this.broker, this.w := broker, w;
    }

    method SyncStatus()
      modifies this`status
      ensures status == Derived(records, current, planned)
    {
      var derived := Derived(records, current, planned);
      if status != derived { status := derived; }
    }

    /** `execute_generated_plan_run_task` for a record that has been claimed. */
    method Task(id: int)
      requires Sound() && queue == [] && id in records && RunningIds(records) == {id}
      modifies this
      ensures Valid() && w == old(w) && current == old(current) && planned == old(planned) && nextId == old(nextId)
      ensures old(records)[id].status == Running
      ensures var d := Drained(old(records), id, w); Outlook() == (d.0, old(executed) + d.1)
      ensures PendingIds(records, old(records)[id].gen) <= PendingIds(old(records), old(records)[id].gen)
      ensures queue != [] ==> queue[0] in records && records[queue[0]].gen == old(records)[id].gen
                              && PendingIds(records, old(records)[id].gen) < PendingIds(old(records), old(records)[id].gen)
      decreases PendingIds(records, records[id].gen), 1
    {
      hide ReportOf, Derived, NextPending, FinallyTracks;
      assert id in RunningIds(records);
      var record := records[id];
      SyncStatus();
      var report, _, _ := ExecutePlan(record.plan, w);
      ghost var before := records;
      records := records[id := record.(status := if report.ok then Succeeded else Failed, report := report)];
      executed := executed + [id];
      SyncStatus();
      assert records == before[id := Ended(before[id], w)];
      EndedRecords(before, id, w);
      DrainedUnfolds(before, id, w, old(executed));
      hide Drained, Ended, Claimed, PendingIds;
      Dispatch(record.gen, report.ok || !record.plan.stopOnFailure);
    }

    /** `_dispatch_next_pending_run`: claim the next record, then enqueue its task or, when the broker refuses, run
        it right here. */
    method Dispatch(gen: nat, allowed: bool)
      requires Sound() && queue == [] && RunningIds(records) == {} && status == Derived(records, current, planned)
      modifies this
      ensures Valid() && w == old(w) && current == old(current) && planned == old(planned) && nextId == old(nextId)
      ensures PendingIds(records, gen) <= PendingIds(old(records), gen)
      ensures var next := NextPending(old(records), gen);
        if !allowed || next.None? then queue == [] && records == old(records) && executed == old(executed)
        else var d := Drained(Claimed(old(records), next.value), next.value, w); Outlook() == (d.0, old(executed) + d.1)
      ensures queue != [] ==> queue[0] in records && records[queue[0]].gen == gen
                              && PendingIds(records, gen) < PendingIds(old(records), gen)
      decreases PendingIds(records, gen), 0
    {
      hide ReportOf, Derived;
      if !allowed { return; }
      var next := NextPending(records, gen);
      if next.None? { return; }
      ghost var before := records;
      records := Claimed(records, next.value);
      ClaimedRecords(before, gen, next.value);
      Enqueue(next.value);
    }

    /** `apply_async`, and running it synchronously when it fails. */
    method Enqueue(id: int)
      requires Sound() && queue == [] && id in records && RunningIds(records) == {id}
      modifies this
      ensures Valid() && w == old(w) && current == old(current) && planned == old(planned) && nextId == old(nextId)
      ensures old(records)[id].status == Running
      ensures var d := Drained(old(records), id, w); Outlook() == (d.0, old(executed) + d.1)
      ensures PendingIds(records, old(records)[id].gen) <= PendingIds(old(records), old(records)[id].gen)
      ensures queue != [] ==> queue[0] in records && records[queue[0]].gen == old(records)[id].gen
      decreases PendingIds(records, records[id].gen), 2
    {
      assert id in RunningIds(records);
      var up := broker(attempts);
      attempts := attempts + 1;
      if up { queue := [id]; } else { Task(id); }
    }

    /** A worker takes a message and runs its record. */
    method Deliver()
      requires Valid() && queue != []
      modifies this
      ensures Valid() && w == old(w) && Outlook() == old(Outlook())
      ensures old(queue)[0] in old(records)
      ensures var gen := old(records)[old(queue)[0]].gen;
        && PendingIds(records, gen) <= PendingIds(old(records), gen)
        && (queue != [] ==>
              queue[0] in records && records[queue[0]].gen == gen
              && PendingIds(records, gen) < PendingIds(old(records), gen))
    {
      var id := queue[0];
      assert id in RunningIds(records);
      queue := queue[1..];
      Task(id);
    }

    /** Workers handle messages until none is left. Whichever attempts to enqueue fail, the records and the execution
        order come out as the specification of draining says. */
    method Drain()
      requires Valid()
      modifies this
      ensures Valid() && queue == []
      ensures (records, executed) == old(Outlook())
      ensures status == Derived(records, current, planned)
      ensures old(executed) <= executed
      ensures forall k | k in executed[|old(executed)|..] ::
        && k in old(records) && k in records && records[k].report == ReportOf(old(records)[k].plan, old(w))
        && records[k].status == if records[k].report.ok then Succeeded else Failed
    {
      hide ReportOf, Derived;
      ghost var gen := 0;
      if queue != [] {
        assert queue[0] in RunningIds(records);
        gen := records[queue[0]].gen;
      }
      while queue != []
        invariant Valid() && Outlook() == old(Outlook())
        invariant queue != [] ==> queue[0] in records && records[queue[0]].gen == gen
        decreases PendingIds(records, gen), |queue|
      {
        Deliver();
      }
      if old(queue) != [] {
        DrainLeaves(old(records), old(queue)[0], old(w));
        hide Drained;
        assert executed[|old(executed)|..] == Drained(old(records), old(queue)[0], old(w)).1;
      }
    }

    /** The generation of a plan: one waiting record per run, under the next generation number. */
    method Generate(plan: Plan, times: seq<int>)
      requires Valid() && plan.runs != [] && |times| == |plan.runs|
      modifies this
      ensures Valid() && current == old(current) + 1 && planned && queue == old(queue)
      ensures records == Recorded(old(records), old(nextId), current, plan, times, |plan.runs|)
      ensures forall id | id in old(records) :: id < old(nextId) && old(records)[id].gen != current
    {
      hide Derived, Recorded;
      current, planned := current + 1, true;
      ghost var before, first := records, nextId;
      CreateRecords(plan, times);
      RecordedAre(before, first, current, plan, times, |plan.runs|);
      SyncStatus();
    }

    method CreateRecords(plan: Plan, times: seq<int>)
      requires |times| == |plan.runs|
      modifies this`records, this`nextId
      ensures records == Recorded(old(records), old(nextId), current, plan, times, |plan.runs|)
      ensures nextId == old(nextId) + |plan.runs|
    {
      ghost var before, first := records, nextId;
      for i := 0 to |plan.runs|
        invariant records == Recorded(before, first, current, plan, times, i) && nextId == first + i
      {
        records := records[nextId := Record(times[i], current, Pending, plan.(runs := [plan.runs[i]]), NO_REPORT)];
        nextId := nextId + 1;
      }
    }

    /** The start call. */
    method Start(gen: nat, requested: Option<int>, world: World) returns (answer: Answer)
      requires Valid()
      modifies this
      ensures Valid()
      ensures answer ==
        if !planned then NoPlan
        else if RunningIds(old(records)) != {} then AlreadyRunning
        else if PendingIds(old(records), gen) == {} then NothingPending
        else if requested.None? then Accepted(WaitingIds(old(records), gen)[0])
        else if requested.value in PendingIds(old(records), gen) then Accepted(requested.value)
        else if requested.value in old(records) then NotStartable else NotFound
      ensures answer.Accepted? ==>
        && answer.id in PendingIds(old(records), gen)
        && var d := Drained(Claimed(old(records), answer.id), answer.id, world); Outlook() == (d.0, old(executed) + d.1)
      ensures !answer.Accepted? ==>
        records == old(records) && queue == old(queue) && executed == old(executed) && status == old(status)
    {
      hide Derived, ReportOf, WaitingIds, Drained;
      if !planned { return NoPlan; }
      if exists id | id in records :: records[id].status == Running {
        var id :| id in records && records[id].status == Running;
        assert id in RunningIds(records);
        return AlreadyRunning;
      }
      assert RunningIds(records) == {};
      var pending := WaitingIds(records, gen);
      NothingWaits(records, gen);
      if pending == [] { return NothingPending; }
      assert pending[0] in pending;
      var id := pending[0];
      if requested.Some? {
        if requested.value !in pending { return if requested.value in records then NotStartable else NotFound; }
        id := requested.value;
      }
      ghost var before := records;
      records := Claimed(records, id);
      ClaimedRecords(before, gen, id);
      SyncStatus();
      w := world;
      Enqueue(id);
      answer := Accepted(id);
    }

    /** The rerun call: in place, or as a new record of a new generation. */
    method Rerun(source: int, inPlace: bool, now: int, world: World) returns (answer: Answer)
      requires Valid()
      modifies this
      ensures Valid()
      ensures answer ==
        if source !in old(records) then NotFound
        else if RunningIds(old(records)) != {} then AlreadyRunning
        else Accepted(if inPlace then source else old(nextId))
      ensures answer.Accepted? && inPlace ==>
        && current == old(current)
        && var d := Drained(old(records)[source := Again(old(records)[source])], source, world);
           Outlook() == (d.0, old(executed) + d.1)
      ensures answer.Accepted? && !inPlace ==>
        && current == old(current) + 1
        && var renewed := Record(now, current, Running, old(records)[source].plan, NO_REPORT);
           Outlook() == (old(records)[answer.id := Ended(renewed, world)], old(executed) + [answer.id])
      ensures !answer.Accepted? ==>
        records == old(records) && queue == old(queue) && executed == old(executed) && status == old(status)
    {
      hide Derived, ReportOf, WaitingIds, Drained;
      if source !in records { return NotFound; }
      if exists id | id in records :: records[id].status == Running {
        var id :| id in records && records[id].status == Running;
        assert id in RunningIds(records);
        return AlreadyRunning;
      }
      assert RunningIds(records) == {};
      var id := Renew(source, inPlace, now);
      if !inPlace {
        LoneRecord(records, id, world);
        assert records[id := Ended(records[id], world)] == old(records)[id := Ended(records[id], world)];
      }
      hide RunningIds, Ended;
      SyncStatus();
      w := world;
      Enqueue(id);
      answer := Accepted(id);
    }

    /** The record to rerun, claimed: the old one, or a copy of its plan in a new generation. */
    method Renew(source: int, inPlace: bool, now: int) returns (id: int)
      requires Sound() && queue == [] && RunningIds(records) == {} && source in records
      modifies this`records, this`current, this`planned, this`nextId
      ensures Sound() && RunningIds(records) == {id} && id == if inPlace then source else old(nextId)
      ensures inPlace ==> current == old(current) && records == old(records)[id := Again(old(records)[source])]
      ensures !inPlace ==>
        && current == old(current) + 1
        && records == old(records)[id := Record(now, current, Running, old(records)[source].plan, NO_REPORT)]
    {
      id := source;
      if inPlace {
        records := records[source := records[source].(status := Pending, report := NO_REPORT)];
      } else {
        id := nextId;
        current := current + 1;
        planned := true;
        records := records[id := Record(now, current, Pending, records[source].plan, NO_REPORT)];
        nextId := nextId + 1;
      }
      records := records[id := records[id].(status := Running)];
      assert records == old(records)[id := records[id]];
      OnlyOneRuns(old(records), id, records[id]);
    }
  }

  /** A record that a rerun in place has claimed. */
  function Again(record: Record): Record {
    record.(status := Running, report := NO_REPORT)
  }

  lemma OnlyOneRuns(records: Records, id: int, record: Record)
    requires RunningIds(records) == {} && record.status == Running
    ensures RunningIds(records[id := record]) == {id}
  {
    forall k | k in records ensures records[k].status != Running { assert k !in RunningIds(records); }
  }

  lemma EndedRecords(records: Records, id: int, w: World)
    requires id in records && RunningIds(records) == {id}
    ensures RunningIds(records[id := Ended(records[id], w)]) == {}
    ensures PendingIds(records[id := Ended(records[id], w)], records[id].gen) == PendingIds(records, records[id].gen)
  {
    hide ReportOf;
    EndedIsNotPending(records[id], w);
    forall k | k in records && k != id ensures records[k].status != Running { assert k !in RunningIds(records); }
    assert id in RunningIds(records);
  }

  lemma ClaimedRecords(records: Records, gen: nat, id: int)
    requires id in PendingIds(records, gen) && RunningIds(records) == {}
    ensures RunningIds(Claimed(records, id)) == {id}
    ensures PendingIds(Claimed(records, id), gen) < PendingIds(records, gen)
  {
    forall k | k in records ensures records[k].status != Running { assert k !in RunningIds(records); }
    assert id !in PendingIds(Claimed(records, id), gen);
  }

  lemma DrainedUnfolds(records: Records, id: int, w: World, executed: seq<int>)
    requires id in records && records[id].status == Running
    ensures var done := records[id := Ended(records[id], w)];
      var next := NextPending(done, records[id].gen);
      var d := Drained(records, id, w);
      if !Allows(records[id], w) || next.None? then d == (done, [id])
      else
        var rest := Drained(Claimed(done, next.value), next.value, w);
        d.0 == rest.0 && executed + d.1 == executed + [id] + rest.1
  {
    hide ReportOf, NextPending;
    var done := records[id := Ended(records[id], w)];
    var next := NextPending(done, records[id].gen);
    if Allows(records[id], w) && next.Some? {
      var rest := Drained(Claimed(done, next.value), next.value, w);
      assert executed + [id] + rest.1 == executed + ([id] + rest.1);
    }
  }

  /** A record alone in its generation is executed alone. */
  lemma LoneRecord(records: Records, id: int, w: World)
    requires id in records && records[id].status == Running && forall k | k in records && k != id ::
        records[k].gen != records[id].gen
    ensures Drained(records, id, w) == (records[id := Ended(records[id], w)], [id])
  {
    var done := records[id := Ended(records[id], w)];
    EndedIsNotPending(records[id], w);
    forall k ensures k !in PendingIds(done, records[id].gen) {
      if k in done { assert k == id || done[k] == records[k]; }
    }
    assert PendingIds(done, records[id].gen) == {};
    DrainedUnfolds(records, id, w, []);
  }
}
