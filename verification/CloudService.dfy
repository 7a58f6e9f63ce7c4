/** The API views and task bodies of cloud provisioning, each atomic piece shown to be one event of CloudVm. */
module CloudService {
  import opened Values
  import opened CloudVm

  /** A call whose task the broker does not take ends in an error, after it has changed the record. */
  datatype Answer = Accepted | Refused(status: Status) | NotFound | NotQueued

  /** How a call to the cloud ends; a new VM may come without an address. */
  datatype CloudAnswer = Done(address: string) | Unsuccessful | Crashed

  /** The answer of a call that is allowed in these statuses and enqueues a task. */
  function Answered(records: map<int, Record>, id: int, allowed: set<Status>, queued: bool): Answer {
    if id !in records then NotFound
    else if records[id].status !in allowed then Refused(records[id].status)
    else if queued then Accepted
    else NotQueued
  }

  class Service {
    const names: map<int, string>
    var records: map<int, Record>
    var inventory: map<string, InventoryVm>

    ghost function Now(): State
      reads this
    {
      State(names, records, inventory)
    }

    ghost predicate Valid()
      reads this
    {
      Inv(Now())
    }

    constructor (names: map<int, string>, inventory: map<string, InventoryVm>)
      ensures Valid() && Now() == Uploaded(names, inventory)
    {
      this.names, this.inventory := names, inventory;
      records := map id | id in names :: Record(Initialized, [], None, 0, 0);
    }

    /** The create view. */
    method Create(id: int, queued: bool) returns (answer: Answer)
      requires Valid()
      modifies this
      ensures Valid() && Now() == Next(old(Now()), CallCreate(id, queued))
      ensures answer == Answered(old(records), id, {Initialized, Failed}, queued)
      ensures answer.Refused? || answer.NotFound? ==> Now() == old(Now())
    {
      EventKeepsInv(Now(), CallCreate(id, queued));
      if id !in records { return NotFound; }
      var r := records[id];
      assert records == records[id := r];
      if r.status == Pending || r.status == Running || r.status == Deleting { return Refused(r.status); }
      if r.status == Succeeded { return Refused(r.status); }
      if r.status == Deleted { return Refused(r.status); }
      records := records[id := r.(status := Pending)];
      assert queued || records[id].tasks + [] == r.tasks;
      if !queued { return NotQueued; }
      records := records[id := records[id].(tasks := r.tasks + [Task(Provision, false)])];
      answer := Accepted;
    }

    /** The delete view; an uploaded record is deleted at once. */
    method Delete(id: int, queued: bool) returns (answer: Answer)
      requires Valid()
      modifies this
      ensures Valid() && Now() == Next(old(Now()), CallDelete(id, queued))
      ensures answer ==
        if id in old(records) && old(records)[id].status == Initialized then Accepted
        else Answered(old(records), id, {Succeeded, Failed}, queued)
      ensures answer.Refused? || answer.NotFound? ==> Now() == old(Now())
    {
      EventKeepsInv(Now(), CallDelete(id, queued));
      if id !in records { return NotFound; }
      var r := records[id];
      assert records == records[id := r];
      if r.status == Pending || r.status == Running || r.status == Deleting { return Refused(r.status); }
      if r.status == Deleted { return Refused(r.status); }
      if r.status == Initialized {
        records := records[id := r.(status := Deleted)];
        return Accepted;
      }
      records := records[id := r.(status := Deleting)];
      assert queued || records[id].tasks + [] == r.tasks;
      if !queued { return NotQueued; }
      records := records[id := records[id].(tasks := r.tasks + [Task(Deprovision, false)])];
      answer := Accepted;
    }

    /** The start view. */
    method Start(id: int, queued: bool) returns (answer: Answer)
      requires Valid()
      modifies this
      ensures Valid() && Now() == Next(old(Now()), CallStart(id, queued))
      ensures answer == Answered(old(records), id, {Succeeded, Failed}, queued)
      ensures answer != Accepted ==> Now() == old(Now())
    {
      EventKeepsInv(Now(), CallStart(id, queued));
      if id !in records { return NotFound; }
      var r := records[id];
      assert records == records[id := r];
      if r.status == Initialized || r.status == Pending || r.status == Running || r.status == Deleting
          || r.status == Deleted {
        return Refused(r.status);
      }
      if !queued { return NotQueued; }
      records := records[id := r.(starts := r.starts + 1)];
      answer := Accepted;
    }

    /** The stop view. */
    method Stop(id: int, queued: bool) returns (answer: Answer)
      requires Valid()
      modifies this
      ensures Valid() && Now() == Next(old(Now()), CallStop(id, queued))
      ensures answer == Answered(old(records), id, {Succeeded, Failed}, queued)
      ensures answer != Accepted ==> Now() == old(Now())
    {
      EventKeepsInv(Now(), CallStop(id, queued));
      if id !in records { return NotFound; }
      var r := records[id];
      assert records == records[id := r];
      if r.status == Initialized || r.status == Pending || r.status == Running || r.status == Deleting
          || r.status == Deleted {
        return Refused(r.status);
      }
      if !queued { return NotQueued; }
      records := records[id := r.(stops := r.stops + 1)];
      answer := Accepted;
    }

    /** The first transaction of `provision_vm_task` and of `deprovision_vm_task`. */
    method BeginTask(id: int, k: nat)
      requires Valid() && id in records && HasTask(records[id], k, false)
      modifies this
      ensures Valid() && Now() == Next(old(Now()), Begin(id, k))
    {
      EventKeepsInv(Now(), Begin(id, k));
      var r := records[id];
      var job := r.tasks[k].job;
      records := records[id := r.(status := if job == Provision then Running else Deleting,
                                  tasks := r.tasks[k := Task(job, true)])];
    }

    /** The last transaction of `provision_vm_task`: a VM without an address counts as a failure. */
    method EndProvision(id: int, k: nat, answer: CloudAnswer) returns (ok: bool)
      requires Valid() && id in records && HasTask(records[id], k, true) && records[id].tasks[k].job == Provision
      modifies this
      ensures Valid() && Now() == Next(old(Now()), End(id, k, ok))
      ensures ok <==> answer.Done? && Trim(answer.address) != ""
    {
      ok := answer.Done? && Trim(answer.address) != "";
      EventKeepsInv(Now(), End(id, k, ok));
      var r := records[id].(tasks := records[id].tasks[..k] + records[id].tasks[k + 1..]);
      if ok {
        inventory := inventory[names[id] := InventoryVm(Up, false)];
        records := records[id := r.(status := Succeeded, linked := Some(names[id]))];
      } else {
        records := records[id := r.(status := Failed)];
      }
    }

    /** The last transaction of `deprovision_vm_task`. */
    method EndDeprovision(id: int, k: nat, answer: CloudAnswer)
      requires Valid() && id in records && HasTask(records[id], k, true) && records[id].tasks[k].job == Deprovision
      modifies this
      ensures Valid() && Now() == Next(old(Now()), End(id, k, answer.Done?))
    {
      EventKeepsInv(Now(), End(id, k, answer.Done?));
      var r := records[id].(tasks := records[id].tasks[..k] + records[id].tasks[k + 1..]);
      if !answer.Done? {
        records := records[id := r.(status := Failed)];
        return;
      }
      if r.linked.Some? { inventory := inventory[r.linked.value := InventoryVm(Down, true)]; }
      records := records[id := r.(status := Deleted)];
    }

    /** The last transaction of `start_provisioning_vm_task`. */
    method FinishStart(id: int, answer: CloudAnswer)
      requires Valid() && id in records && records[id].starts > 0
      modifies this
      ensures Valid() && Now() == Next(old(Now()), EndStart(id, answer.Done?))
    {
      EventKeepsInv(Now(), EndStart(id, answer.Done?));
      var r := records[id].(starts := records[id].starts - 1);
      if answer.Done? {
        if r.status == Failed || r.status == Succeeded { r := r.(status := Succeeded); }
        if r.linked.Some? { inventory := inventory[r.linked.value := inventory[r.linked.value].(power := Up)]; }
      }
      records := records[id := r];
    }

    /** The last transaction of `stop_provisioning_vm_task`. */
    method FinishStop(id: int, answer: CloudAnswer)
      requires Valid() && id in records && records[id].stops > 0
      modifies this
      ensures Valid() && Now() == Next(old(Now()), EndStop(id, answer.Done?))
    {
      EventKeepsInv(Now(), EndStop(id, answer.Done?));
      var r := records[id].(stops := records[id].stops - 1);
      if answer.Done? && r.linked.Some? {
        inventory := inventory[r.linked.value := inventory[r.linked.value].(power := Down)];
      }
      records := records[id := r];
    }
  }
}
