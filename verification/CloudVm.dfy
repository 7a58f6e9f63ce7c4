/** The lifecycle of cloud VM records: API calls with status guards, interleaved with the begin and end steps of the
    tasks they enqueue. */
module CloudVm {
  import opened Values

  datatype Status = Initialized | Pending | Running | Succeeded | Failed | Deleting | Deleted

  datatype Job = Provision | Deprovision

  /** A provision or deprovision task in flight. */
  datatype Task = Task(job: Job, begun: bool)

  datatype Power = Up | Down

  /** The part of an inventory VM that the tasks write. */
  datatype InventoryVm = InventoryVm(power: Power, archived: bool)

  /** `tasks` are the provision and deprovision tasks in flight, `linked` is the name of the record's inventory VM,
      and `starts` and `stops` count the start and stop tasks in flight. */
  datatype Record = Record(status: Status, tasks: seq<Task>, linked: Option<string>, starts: nat, stops: nat)

  /** `names` gives the inventory name under which a record's VM is stored. */
  datatype State = State(names: map<int, string>, records: map<int, Record>, inventory: map<string, InventoryVm>)

  /** `queued` says whether the broker takes the message; `ok` how the cloud answers. */
  datatype Event =
    | CallCreate(id: int, queued: bool) | CallDelete(id: int, queued: bool)
    | CallStart(id: int, queued: bool) | CallStop(id: int, queued: bool)
    | Begin(id: int, k: nat) | End(id: int, k: nat, ok: bool) | EndStart(id: int, ok: bool) | EndStop(id: int, ok: bool)

  /** The uploaded records, beside whatever the inventory already holds. */
  function Uploaded(names: map<int, string>, inventory: map<string, InventoryVm>): State {
    State(names, map id | id in names :: Record(Initialized, [], None, 0, 0), inventory)
  }

  predicate Created(r: Record) {
    r.status == Succeeded || r.status == Failed
  }

  function InFlight(job: Job, queued: bool): seq<Task> {
    if queued then [Task(job, false)] else []
  }

  predicate HasTask(r: Record, k: nat, begun: bool) {
    k < |r.tasks| && r.tasks[k].begun == begun
  }

  /** The record after a step of its own; a task works on the record whatever its status has become. */
  function Stepped(r: Record, name: string, e: Event): Record {
    match e
    case CallCreate(_, queued) =>
      if r.status == Initialized || r.status == Failed then
        r.(status := Pending, tasks := r.tasks + InFlight(Provision, queued))
      else r
    case CallDelete(_, queued) =>
      if r.status == Initialized then r.(status := Deleted)
      else if Created(r) then r.(status := Deleting, tasks := r.tasks + InFlight(Deprovision, queued))
      else r
    case CallStart(_, queued) => if Created(r) && queued then r.(starts := r.starts + 1) else r
    case CallStop(_, queued) => if Created(r) && queued then r.(stops := r.stops + 1) else r
    case Begin(_, k) =>
      if HasTask(r, k, false) then
        r.(status := if r.tasks[k].job == Provision then Running else Deleting,
           tasks := r.tasks[k := r.tasks[k].(begun := true)])
      else r
    case End(_, k, ok) =>
      if !HasTask(r, k, true) then r
      else
        var rest := r.tasks[..k] + r.tasks[k + 1..];
        if !ok then r.(status := Failed, tasks := rest)
        else if r.tasks[k].job == Provision then r.(status := Succeeded, tasks := rest, linked := Some(name))
        else r.(status := Deleted, tasks := rest)
    case EndStart(_, ok) =>
      if r.starts == 0 then r
      else r.(starts := r.starts - 1, status := if ok && Created(r) then Succeeded else r.status)
    case EndStop(_, ok) => if r.stops == 0 then r else r.(stops := r.stops - 1)
  }

  /** The inventory VM that a step writes, and what it becomes. */
  function Written(r: Record, name: string, e: Event, inventory: map<string, InventoryVm>): map<string, InventoryVm> {
    if e.End? && e.ok && HasTask(r, e.k, true) then
      if r.tasks[e.k].job == Provision then inventory[name := InventoryVm(Up, false)]
      else if r.linked.Some? && r.linked.value in inventory then inventory[r.linked.value := InventoryVm(Down, true)]
      else inventory
    else if e.EndStart? && e.ok && r.starts > 0 && r.linked.Some? && r.linked.value in inventory then
      inventory[r.linked.value := inventory[r.linked.value].(power := Up)]
    else if e.EndStop? && e.ok && r.stops > 0 && r.linked.Some? && r.linked.value in inventory then
      inventory[r.linked.value := inventory[r.linked.value].(power := Down)]
    else inventory
  }

  function Next(st: State, e: Event): State {
    if e.id !in st.records || e.id !in st.names then st
    else
      var r, name := st.records[e.id], st.names[e.id];
      State(st.names, st.records[e.id := Stepped(r, name, e)], Written(r, name, e, st.inventory))
  }

  function Run(st: State, events: seq<Event>): State
    decreases |events|
  {
    if events == [] then st else Run(Next(st, events[0]), events[1..])
  }

  // ---------------------------------------------------------------- the task in flight

  /** The status that a provision or deprovision task in flight goes with. */
  function StatusFor(task: Task): Status {
    if task.job == Deprovision then Deleting else if task.begun then Running else Pending
  }

  /** There is at most one task, and it fits the status: waiting to provision while PENDING, provisioning while
      RUNNING, deprovisioning while DELETING. */
  ghost predicate TaskFits(r: Record) {
    && |r.tasks| <= 1
    && (r.tasks != [] ==> r.status == StatusFor(r.tasks[0]))
    && (r.status == Running ==> r.tasks != [])
    && (r.status == Initialized ==> r.linked.None?)
  }

  ghost predicate Linked(st: State) {
    && st.records.Keys == st.names.Keys
    && forall id | id in st.records && st.records[id].linked.Some? ::
         st.records[id].linked.value == st.names[id] && st.names[id] in st.inventory
  }

  ghost predicate Inv(st: State) {
    Linked(st) && forall id | id in st.records :: TaskFits(st.records[id])
  }

  lemma StepKeepsFit(r: Record, name: string, e: Event)
    requires TaskFits(r)
    ensures TaskFits(Stepped(r, name, e))
  {
  }

  lemma EventKeepsInv(st: State, e: Event)
    requires Inv(st)
    ensures Inv(Next(st, e)) && Next(st, e).names == st.names
  {
    if e.id in st.records {
      StepKeepsFit(st.records[e.id], st.names[e.id], e);
      EventKeepsLinks(st, e);
    }
    hide Stepped, Written, TaskFits;
  }

  lemma EventKeepsLinks(st: State, e: Event)
    requires Linked(st)
    ensures Linked(Next(st, e))
  {
  }

  lemma {:induction false} RunKeepsInv(st: State, events: seq<Event>)
    requires Inv(st)
    ensures Inv(Run(st, events)) && Run(st, events).names == st.names
    decreases |events|
  {
    hide Inv, Next;
    if events != [] {
      EventKeepsInv(st, events[0]);
      RunKeepsInv(Next(st, events[0]), events[1..]);
    }
  }

  /** After any events every record has at most one provision or deprovision task in flight, and its kind and stage
      fit the status; a record is RUNNING only with such a task. */
  lemma TaskAlwaysFits(names: map<int, string>, inventory: map<string, InventoryVm>, events: seq<Event>)
    ensures forall id | id in Run(Uploaded(names, inventory), events).records ::
      var r := Run(Uploaded(names, inventory), events).records[id];
      && |r.tasks| <= 1
      && (r.tasks != [] ==> r.status == StatusFor(r.tasks[0]))
      && (r.status == Running ==> r.tasks != [])
  {
    RunKeepsInv(Uploaded(names, inventory), events);
    var st := Run(Uploaded(names, inventory), events);
    forall id | id in st.records ensures TaskFits(st.records[id]) {}
  }

  // ---------------------------------------------------------------- runs

  lemma RunSteps(st: State, e: Event, rest: seq<Event>)
    ensures Run(st, [e] + rest) == Run(Next(st, e), rest)
  {
    assert ([e] + rest)[1..] == rest;
  }

  lemma {:induction false} RunAppend(st: State, a: seq<Event>, b: seq<Event>)
    ensures Run(st, a + b) == Run(Run(st, a), b)
    decreases |a|
  {
    if a == [] {
      assert a + b == b;
    } else {
      assert (a + b)[1..] == a[1..] + b;
      RunAppend(Next(st, a[0]), a[1..], b);
    }
  }

  lemma RunOne(st: State, a: Event)
    ensures Run(st, [a]) == Next(st, a)
  {
    hide Next;
    assert [a] == [a] + [];
    RunSteps(st, a, []);
  }

  lemma RunThree(st: State, a: Event, b: Event, c: Event)
    ensures Run(st, [a, b, c]) == Next(Next(Next(st, a), b), c)
  {
    hide Next;
    assert [a, b, c] == [a] + ([b] + ([c] + []));
    RunSteps(st, a, [b] + ([c] + []));
    RunSteps(Next(st, a), b, [c] + []);
    RunSteps(Next(Next(st, a), b), c, []);
  }

  /** Creating a record whose task succeeds, and deleting it again. */
  function Provisioning(id: int): seq<Event> { [CallCreate(id, true), Begin(id, 0), End(id, 0, true)] }

  function Deprovisioning(id: int): seq<Event> { [CallDelete(id, true), Begin(id, 0), End(id, 0, true)] }

  lemma ProvisioningRun(st: State, id: int)
    requires id in st.records && id in st.names && st.records[id].status == Initialized && st.records[id].tasks == []
    ensures Run(st, Provisioning(id))
      == State(st.names, st.records[id := st.records[id].(status := Succeeded, linked := Some(st.names[id]))],
               st.inventory[st.names[id] := InventoryVm(Up, false)])
  {
    var r := st.records[id];
    RunThree(st, CallCreate(id, true), Begin(id, 0), End(id, 0, true));
    var a := Next(st, CallCreate(id, true));
    assert a.records == st.records[id := r.(status := Pending, tasks := [Task(Provision, false)])];
    var b := Next(a, Begin(id, 0));
    assert [Task(Provision, false)][0 := Task(Provision, true)] == [Task(Provision, true)];
    assert b.records == st.records[id := r.(status := Running, tasks := [Task(Provision, true)])];
    assert Next(b, End(id, 0, true)).records[id].tasks == [];
    assert Next(b, End(id, 0, true)).records == st.records[id := r.(status := Succeeded, linked := Some(st.names[id]))];
  }

  lemma DeprovisioningRun(st: State, id: int)
    requires id in st.records && id in st.names && st.records[id].status == Succeeded && st.records[id].tasks == []
    requires st.records[id].linked == Some(st.names[id]) && st.names[id] in st.inventory
    ensures Run(st, Deprovisioning(id))
      == State(st.names, st.records[id := st.records[id].(status := Deleted)],
               st.inventory[st.names[id] := InventoryVm(Down, true)])
  {
    var r := st.records[id];
    RunThree(st, CallDelete(id, true), Begin(id, 0), End(id, 0, true));
    var a := Next(st, CallDelete(id, true));
    assert a.records == st.records[id := r.(status := Deleting, tasks := [Task(Deprovision, false)])];
    var b := Next(a, Begin(id, 0));
    assert [Task(Deprovision, false)][0 := Task(Deprovision, true)] == [Task(Deprovision, true)];
    assert b.records == st.records[id := r.(status := Deleting, tasks := [Task(Deprovision, true)])];
    assert Next(b, End(id, 0, true)).records[id].tasks == [];
    assert Next(b, End(id, 0, true)).records == st.records[id := r.(status := Deleted)];
  }

  // ---------------------------------------------------------------- tasks that were never enqueued

  lemma {:induction false} LostTaskIsForever(st: State, events: seq<Event>, id: int)
    requires id in st.records && id in st.names && st.records[id].tasks == []
    requires st.records[id].status == Pending || st.records[id].status == Deleting
    ensures id in Run(st, events).records && Run(st, events).records[id].status == st.records[id].status
    decreases |events|
  {
    if events != [] { LostTaskIsForever(Next(st, events[0]), events[1..], id); }
  }

  /** The way out of a record that has its task: the task begins, if it has not, and fails. */
  function WayOut(r: Record, id: int): seq<Event> {
    if HasTask(r, 0, true) then [End(id, 0, false)] else [Begin(id, 0), End(id, 0, false)]
  }

  lemma WayOutLeads(st: State, id: int)
    requires Inv(st) && id in st.records && st.records[id].tasks != []
    ensures id in Run(st, WayOut(st.records[id], id)).records
    ensures Run(st, WayOut(st.records[id], id)).records[id].status == Failed
  {
    if HasTask(st.records[id], 0, true) {
      RunOne(st, End(id, 0, false));
    } else {
      assert WayOut(st.records[id], id) == [Begin(id, 0)] + [End(id, 0, false)];
      RunSteps(st, Begin(id, 0), [End(id, 0, false)]);
      RunOne(Next(st, Begin(id, 0)), End(id, 0, false));
    }
  }

  ghost predicate StatusAfter(st: State, events: seq<Event>, id: int, status: Status) {
    id in Run(st, events).records && Run(st, events).records[id].status == status
  }

  /** A PENDING or DELETING record can get to another status exactly when its task is in flight; without it no
      events lead out. */
  lemma LeavesWaitingExactly(st: State, id: int)
    requires Inv(st) && id in st.records && (st.records[id].status == Pending || st.records[id].status == Deleting)
    ensures (exists events, status :: status != st.records[id].status && StatusAfter(st, events, id, status))
            <==> st.records[id].tasks != []
  {
    if st.records[id].tasks != [] {
      WayOutLeads(st, id);
      assert StatusAfter(st, WayOut(st.records[id], id), id, Failed);
    } else {
      forall events, status | StatusAfter(st, events, id, status) ensures status == st.records[id].status {
        LostTaskIsForever(st, events, id);
      }
    }
  }

  /** One refused enqueue is enough: a create call leaves an uploaded record PENDING without a task, a delete call a
      created one DELETING. */
  lemma LostTasksAreReachable(names: map<int, string>, inventory: map<string, InventoryVm>, id: int)
    requires id in names
    ensures var r := Run(Uploaded(names, inventory), [CallCreate(id, false)]).records;
      id in r && r[id].status == Pending && r[id].tasks == []
    ensures var r := Run(Uploaded(names, inventory), Provisioning(id) + [CallDelete(id, false)]).records;
      id in r && r[id].status == Deleting && r[id].tasks == []
  {
    var st := Uploaded(names, inventory);
    RunOne(st, CallCreate(id, false));
    ProvisioningRun(st, id);
    RunAppend(st, Provisioning(id), [CallDelete(id, false)]);
    RunOne(Run(st, Provisioning(id)), CallDelete(id, false));
  }

  // ---------------------------------------------------------------- deleted records

  lemma DeletedStays(r: Record, name: string, e: Event)
    requires TaskFits(r) && r.status == Deleted
    ensures Stepped(r, name, e).status == Deleted && Stepped(r, name, e).linked == r.linked
    ensures Stepped(r, name, e).starts <= r.starts
  {
  }

  /** Nothing revives a deleted record. */
  lemma {:induction false} DeletedIsForever(st: State, events: seq<Event>, id: int)
    requires Inv(st) && id in st.records && st.records[id].status == Deleted
    ensures id in Run(st, events).records && Run(st, events).records[id].status == Deleted
    ensures Run(st, events).records[id].linked == st.records[id].linked
    decreases |events|
  {
    if events != [] {
      EventKeepsInv(st, events[0]);
      DeletedStays(st.records[id], st.names[id], events[0]);
      DeletedIsForever(Next(st, events[0]), events[1..], id);
    }
  }

  ghost predicate Archived(st: State, id: int) {
    id in st.records && st.records[id].status == Deleted && st.records[id].linked.Some? ==>
      st.records[id].linked.value in st.inventory && st.inventory[st.records[id].linked.value].archived
  }

  ghost predicate AllArchived(st: State) {
    forall id | id in st.records :: Archived(st, id)
  }

  /** No other record is stored under the inventory name of this one. */
  ghost predicate OwnName(names: map<int, string>, id: int) {
    id in names && forall j | j in names && j != id :: names[j] != names[id]
  }

  /** Different records are stored under different inventory names. */
  ghost predicate DistinctNames(names: map<int, string>) {
    forall id | id in names :: OwnName(names, id)
  }

  lemma EventKeepsArchived(st: State, e: Event)
    requires Inv(st) && AllArchived(st) && DistinctNames(st.names)
    ensures AllArchived(Next(st, e))
  {
    forall id | id in Next(st, e).records ensures Archived(Next(st, e), id) {
      assert Archived(st, id) && OwnName(st.names, id);
      if id == e.id { OwnStepArchives(st, e); } else { OthersKeepTheVm(st, e, id); }
    }
  }

  lemma OwnStepArchives(st: State, e: Event)
    requires Inv(st) && e.id in st.records && Archived(st, e.id)
    ensures Archived(Next(st, e), e.id)
  {
    assert TaskFits(st.records[e.id]);
  }

  /** Another record's steps do not touch the VM stored under a name of its own. */
  lemma OthersKeepTheVm(st: State, e: Event, id: int)
    requires Inv(st) && id in st.records && OwnName(st.names, id) && id != e.id
    ensures st.names[id] in st.inventory ==>
      st.names[id] in Next(st, e).inventory && Next(st, e).inventory[st.names[id]] == st.inventory[st.names[id]]
    ensures id in Next(st, e).records && Next(st, e).records[id] == st.records[id]
  {
    if e.id in st.records { assert st.names[e.id] != st.names[id]; }
  }

  lemma {:induction false} RunKeepsArchived(st: State, events: seq<Event>)
    requires Inv(st) && AllArchived(st) && DistinctNames(st.names)
    ensures AllArchived(Run(st, events))
    decreases |events|
  {
    hide Inv, Next, AllArchived;
    if events != [] {
      EventKeepsInv(st, events[0]);
      EventKeepsArchived(st, events[0]);
      RunKeepsArchived(Next(st, events[0]), events[1..]);
    }
  }

  lemma ReuseUnarchives(names: map<int, string>, inventory: map<string, InventoryVm>, a: int, b: int)
    requires a in names && b in names && a != b && names[a] == names[b]
    ensures !AllArchived(Run(Uploaded(names, inventory), Provisioning(a) + Deprovisioning(a) + Provisioning(b)))
  {
    hide Next;
    var st := Uploaded(names, inventory);
    RunAppend(st, Provisioning(a) + Deprovisioning(a), Provisioning(b));
    RunAppend(st, Provisioning(a), Deprovisioning(a));
    ProvisioningRun(st, a);
    DeprovisioningRun(Run(st, Provisioning(a)), a);
    var after := Run(Run(st, Provisioning(a)), Deprovisioning(a));
    ProvisioningRun(after, b);
    assert !Archived(Run(after, Provisioning(b)), a);
  }

  /** A deleted record's inventory VM is archived in every run exactly when no two records share an inventory name:
      provisioning a second record under the name of a deleted one takes the archive mark away again. */
  lemma DeletedMeansArchivedExactly(names: map<int, string>, inventory: map<string, InventoryVm>)
    ensures (forall events: seq<Event> :: AllArchived(Run(Uploaded(names, inventory), events))) <==> DistinctNames(names)
  {
    var st := Uploaded(names, inventory);
    if DistinctNames(names) {
      forall events: seq<Event> ensures AllArchived(Run(st, events)) { RunKeepsArchived(st, events); }
    } else {
      var a, b :| a in names && b in names && a != b && names[a] == names[b];
      ReuseUnarchives(names, inventory, a, b);
    }
  }

  // ---------------------------------------------------------------- archived VMs and late start tasks

  /** A deleted record with a VM of its own that is down. */
  ghost predicate DownForGood(st: State, id: int) {
    && Inv(st) && id in st.records && OwnName(st.names, id)
    && st.records[id].status == Deleted && st.records[id].linked.Some? && st.inventory[st.names[id]].power == Down
  }

  ghost predicate VmIs(st: State, events: seq<Event>, id: int, power: Power) {
    var after := Run(st, events);
    id in after.names && after.names[id] in after.inventory && after.inventory[after.names[id]].power == power
  }

  lemma StaysDown(st: State, e: Event, id: int)
    requires DownForGood(st, id) && st.records[id].starts == 0
    ensures DownForGood(Next(st, e), id) && Next(st, e).records[id].starts == 0
  {
    EventKeepsInv(st, e);
    if e.id == id {
      DeletedStays(st.records[id], st.names[id], e);
      assert TaskFits(st.records[id]);
    } else {
      OthersKeepTheVm(st, e, id);
    }
  }

  lemma {:induction false} WithoutStartsItStaysDown(st: State, events: seq<Event>, id: int)
    requires DownForGood(st, id) && st.records[id].starts == 0
    ensures VmIs(st, events, id, Down)
    decreases |events|
  {
    hide Next;
    if events != [] {
      StaysDown(st, events[0], id);
      WithoutStartsItStaysDown(Next(st, events[0]), events[1..], id);
    }
  }

  /** The VM of a deleted record can come up again exactly when a start task of the record is still in flight. */
  lemma ComesUpAgainExactly(st: State, id: int)
    requires DownForGood(st, id)
    ensures (exists events :: VmIs(st, events, id, Up)) <==> st.records[id].starts > 0
  {
    if st.records[id].starts > 0 {
      RunOne(st, EndStart(id, true));
      assert VmIs(st, [EndStart(id, true)], id, Up);
    } else {
      forall events ensures !VmIs(st, events, id, Up) { WithoutStartsItStaysDown(st, events, id); }
    }
  }

  /** Provision a record, start its VM, and delete it before the start task ends. */
  function LateStart(id: int): seq<Event> {
    Provisioning(id) + [CallStart(id, true)] + Deprovisioning(id)
  }

  /** That situation is reachable: the record is deleted, its VM is down and archived, a start task is in flight, and
      its end marks the archived VM active. */
  lemma LateStartIsReachable(names: map<int, string>, inventory: map<string, InventoryVm>, id: int)
    requires OwnName(names, id)
    ensures var st := Run(Uploaded(names, inventory), LateStart(id));
      st.names == names && DownForGood(st, id) && st.records[id].starts == 1 && st.inventory[names[id]].archived
    ensures var st := Run(Uploaded(names, inventory), LateStart(id) + [EndStart(id, true)]);
      names[id] in st.inventory && st.inventory[names[id]] == InventoryVm(Up, true)
  {
    hide Next, Inv;
    var st := Uploaded(names, inventory);
    assert Inv(st) by { UploadedIsFine(names, inventory); }
    RunAppend(st, Provisioning(id) + [CallStart(id, true)], Deprovisioning(id));
    RunAppend(st, Provisioning(id), [CallStart(id, true)]);
    ProvisioningRun(st, id);
    var one := Run(st, Provisioning(id));
    RunOne(one, CallStart(id, true));
    StartQueued(one, id);
    var two := Run(one, [CallStart(id, true)]);
    DeprovisioningRun(two, id);
    var three := Run(two, Deprovisioning(id));
    RunKeepsInv(st, LateStart(id));
    RunAppend(st, LateStart(id), [EndStart(id, true)]);
    RunOne(three, EndStart(id, true));
    StartEnds(three, id);
  }

  lemma UploadedIsFine(names: map<int, string>, inventory: map<string, InventoryVm>)
    ensures Inv(Uploaded(names, inventory))
  {
  }

  lemma StartQueued(st: State, id: int)
    requires id in st.records && id in st.names && Created(st.records[id])
    ensures var r := st.records[id];
      Next(st, CallStart(id, true)) == st.(records := st.records[id := r.(starts := r.starts + 1)])
  {
  }

  lemma StartEnds(st: State, id: int)
    requires id in st.records && id in st.names && st.records[id].starts > 0
    requires st.records[id].linked == Some(st.names[id]) && st.names[id] in st.inventory
    ensures Next(st, EndStart(id, true)).inventory
            == st.inventory[st.names[id] := st.inventory[st.names[id]].(power := Up)]
  {
  }

  // ---------------------------------------------------------------- starting, stopping and deleting at once

  lemma RunTwo(st: State, a: Event, b: Event)
    ensures Run(st, [a, b]) == Next(Next(st, a), b)
  {
    hide Next;
    assert [a, b] == [a] + ([b] + []);
    RunSteps(st, a, [b] + []);
    RunSteps(Next(st, a), b, []);
  }

  /** A start that succeeds marks the record's VM up and the record SUCCEEDED, also after a failure; one that does not
      leaves everything as it was. */
  lemma StartExactly(st: State, id: int, ok: bool)
    requires Inv(st) && id in st.records && Created(st.records[id]) && st.records[id].linked.Some?
    ensures st.names[id] in st.inventory
    ensures var vm := st.inventory[st.names[id]];
      Run(st, [CallStart(id, true), EndStart(id, ok)])
      == if ok then st.(records := st.records[id := st.records[id].(status := Succeeded)],
                        inventory := st.inventory[st.names[id] := vm.(power := Up)])
         else st
  {
    RunTwo(st, CallStart(id, true), EndStart(id, ok));
    StartQueued(st, id);
    var r := st.records[id];
    var started := st.records[id := r.(starts := r.starts + 1)];
    assert started[id := r] == st.records;
    assert started[id := r.(status := Succeeded)] == st.records[id := r.(status := Succeeded)];
  }

  /** A stop that succeeds marks the record's VM down and leaves the record's status; one that does not leaves
      everything as it was. */
  lemma StopExactly(st: State, id: int, ok: bool)
    requires Inv(st) && id in st.records && Created(st.records[id]) && st.records[id].linked.Some?
    ensures st.names[id] in st.inventory
    ensures var vm := st.inventory[st.names[id]];
      Run(st, [CallStop(id, true), EndStop(id, ok)])
      == if ok then st.(inventory := st.inventory[st.names[id] := vm.(power := Down)]) else st
  {
    RunTwo(st, CallStop(id, true), EndStop(id, ok));
    StopQueued(st, id);
    var r := st.records[id];
    var stopping := Next(st, CallStop(id, true));
    hide Next, Inv;
    StopEnds(stopping, id, ok);
    assert stopping.records[id := r] == st.records;
  }

  lemma StopQueued(st: State, id: int)
    requires id in st.records && id in st.names && Created(st.records[id])
    ensures var r := st.records[id];
      Next(st, CallStop(id, true)) == st.(records := st.records[id := r.(stops := r.stops + 1)])
  {
  }

  lemma StopEnds(st: State, id: int, ok: bool)
    requires id in st.records && id in st.names && st.records[id].stops > 0
    requires st.records[id].linked == Some(st.names[id]) && st.names[id] in st.inventory
    ensures var r, vm := st.records[id], st.inventory[st.names[id]];
      Next(st, EndStop(id, ok)) == State(st.names, st.records[id := r.(stops := r.stops - 1)],
        if ok then st.inventory[st.names[id] := vm.(power := Down)] else st.inventory)
  {
  }

  /** An uploaded record is deleted at once, without a task. */
  lemma UploadedIsDeletedAtOnce(names: map<int, string>, inventory: map<string, InventoryVm>, id: int, queued: bool)
    requires id in names
    ensures var st := Run(Uploaded(names, inventory), [CallDelete(id, queued)]);
      && id in st.records && st.records[id].status == Deleted && st.records[id].tasks == []
      && st.inventory == inventory
  {
    RunOne(Uploaded(names, inventory), CallDelete(id, queued));
  }

  /** A record whose provisioning failed can be created again. */
  lemma FailedIsCreatedAgain(st: State, id: int)
    requires id in st.records && id in st.names && st.records[id].status == Failed && st.records[id].tasks == []
    ensures var after := Run(st, Provisioning(id));
      && id in after.records && after.records[id].status == Succeeded
      && st.names[id] in after.inventory && after.inventory[st.names[id]] == InventoryVm(Up, false)
  {
    var r := st.records[id];
    RunThree(st, CallCreate(id, true), Begin(id, 0), End(id, 0, true));
    var a := Next(st, CallCreate(id, true));
    assert a.records == st.records[id := r.(status := Pending, tasks := [Task(Provision, false)])];
    var b := Next(a, Begin(id, 0));
    assert [Task(Provision, false)][0 := Task(Provision, true)] == [Task(Provision, true)];
    assert b.records == st.records[id := r.(status := Running, tasks := [Task(Provision, true)])];
  }
}
