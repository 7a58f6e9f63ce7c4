/** The worker's loop as it is written, refining the machine of ProbeSessions while the rest of the system moves
    between any two of its database accesses. */
module ProbeWorker {
  import opened Values
  import opened ProbeSessions

  /** Events in which this worker takes no part. */
  ghost predicate Foreign(events: seq<Event>, worker: int) {
    forall e | e in events ::
      (e.Step? || e.Raise? || e.Crash? || e.Deliver?) ==> e.worker != worker
  }

  lemma {:induction false} ForeignKeeps(st: State, events: seq<Event>, worker: int)
    requires Foreign(events, worker) && worker in st.workers
    ensures worker in Run(st, events).workers && Run(st, events).workers[worker] == st.workers[worker]
    decreases |events|
  {
    if events != [] {
      assert events[0] in events;
      assert Foreign(events[1..], worker);
      ForeignKeeps(Next(st, events[0]), events[1..], worker);
    }
  }

  lemma RunOne(st: State, past: seq<Event>, e: Event)
    ensures Run(st, past + [e]) == Next(Run(st, past), e)
  {
    RunAppend(st, past, [e]);
    assert [e][1..] == [];
  }

  class Hub {
    var sessions: map<int, Session>
    var workers: map<int, Worker>
    var moment: nat
    /** What the rest of the system does at the n-th moment the worker lets it. */
    const others: nat -> seq<Event>
    ghost var start: State
    ghost var trace: seq<Event>

    function Now(): State
      reads this
    {
      State(sessions, workers)
    }

    /** The state is one of the machine's, reached by the recorded events. */
    ghost predicate Valid()
      reads this
    {
      Inv(start) && Now() == Run(start, trace) && Inv(Now())
    }

    /** The worker exists and stands here. */
    ghost predicate At(worker: int, id: int, pc: Pc)
      reads this
    {
      worker in workers && workers[worker] == Worker(id, pc) && id in sessions
    }

    constructor (st: State, others: nat -> seq<Event>)
      requires Inv(st)
      ensures Valid() && Now() == st == start && trace == [] && this.others == others
    {
      sessions, workers, moment, this.others := st.sessions, st.workers, 0, others;
      start, trace := st, [];
    }

    /** Let the rest of the system act. */
    method Interleave(worker: int)
      requires Valid() && worker in workers && forall n :: Foreign(others(n), worker)
      modifies this
      ensures Valid() && start == old(start) && old(trace) <= trace
      ensures worker in workers && workers[worker] == old(workers)[worker]
      ensures forall id | id in old(sessions) ::
        id in sessions && Later(old(sessions)[id], sessions[id])
        && sessions[id].interval == old(sessions)[id].interval
      ensures moment == old(moment) + 1
      ensures others(old(moment)) == [] ==> sessions == old(sessions)
    {
      hide Inv, Next, Later;
      var events := others(moment);
      moment := moment + 1;
      RunAppend(start, trace, events);
      RunKeepsInv(Now(), events);
      ForeignKeeps(Now(), events, worker);
      forall id | id in sessions ensures id in Run(Now(), events).sessions
          && Later(sessions[id], Run(Now(), events).sessions[id])
      {
        TerminalIsForever(Now(), events, id);
      }
      forall id | id in sessions ensures id in Run(Now(), events).sessions
          && Run(Now(), events).sessions[id].interval == sessions[id].interval {
        IntervalStays(Now(), events, id);
      }
      var next := Run(State(sessions, workers), events);
      sessions, workers := next.sessions, next.workers;
      trace := trace + events;
    }

    /** Record that what just happened is the worker's step. */
    ghost method Account(before: State, worker: int, good: bool)
      requires Inv(start) && before == Run(start, trace) && Inv(before) && Now() == Next(before, Step(worker, good))
      modifies this`trace
      ensures Valid() && trace == old(trace) + [Step(worker, good)]
    {
      RunOne(start, trace, Step(worker, good));
      EventKeepsInv(before, Step(worker, good));
      trace := trace + [Step(worker, good)];
    }

    /** The conditional update that claims a session. */
    method Claim(worker: int, id: int) returns (claimed: bool)
      requires Valid() && At(worker, id, Claiming)
      modifies this`sessions, this`workers, this`trace
      ensures Valid() && old(trace) <= trace
      ensures claimed <==> old(sessions)[id].status == Pending
      ensures At(worker, id, if claimed then Looping(1) else Gone)
      ensures !claimed ==> sessions == old(sessions)
      ensures claimed ==>
        sessions == old(sessions)[id := old(sessions)[id].(status := Running, claims := old(sessions)[id].claims + 1)]
    {
      hide Inv;
      ghost var before := Now();
      claimed := sessions[id].status == Pending;
      if claimed { sessions := sessions[id := sessions[id].(status := Running, claims := sessions[id].claims + 1)]; }
      workers := workers[worker := Worker(id, if claimed then Looping(1) else Gone)];
      assert claimed || sessions == sessions[id := sessions[id]];
      Account(before, worker, true);
    }

    /** `ProbeSession.finish`, called by the worker. */
    method Finish(worker: int, id: int, succeeded: bool)
      requires Valid() && At(worker, id, Finishing(succeeded))
      modifies this`sessions, this`workers, this`trace
      ensures Valid() && old(trace) <= trace && At(worker, id, Closing)
      ensures sessions == old(sessions)[id := Closed(old(sessions)[id], if succeeded then Succeeded else Failed)]
    {
      hide Inv;
      ghost var before := Now();
      var s := sessions[id];
      if s.status == Pending || s.status == Running {
        sessions := sessions[id := s.(status := if succeeded then Succeeded else Failed, left := Some(|s.windows|))];
      }
      workers := workers[worker := Worker(id, Closing)];
      assert sessions == before.sessions[id := Closed(s, if succeeded then Succeeded else Failed)];
      Account(before, worker, true);
    }

    /** Store the window just measured. */
    method CreateWindow(worker: int, id: int, k: nat, ok: bool)
      requires Valid() && At(worker, id, Measuring(k))
      modifies this`sessions, this`workers, this`trace
      ensures Valid() && old(trace) <= trace
      ensures At(worker, id, if !ok then Finishing(false) else AfterWindow(old(sessions)[id], k))
      ensures sessions == old(sessions)[id := old(sessions)[id].(windows := old(sessions)[id].windows + [Window(k, ok)])]
    {
      ghost var before := Now();
      var s := sessions[id];
      assert WorkerOk(s, Measuring(k)) && SessionOk(s);
      assert !exists w | w in s.windows :: w.sequence == k;
      hide Inv, SessionOk, WorkerOk;
      sessions := sessions[id := s.(windows := s.windows + [Window(k, ok)])];
      workers := workers[worker := Worker(id, if !ok then Finishing(false) else AfterWindow(s, k))];
      Account(before, worker, ok);
    }

    /** Go on without writing to the database. */
    method Move(worker: int, id: int, pc: Pc, ghost good: bool)
      requires Valid() && worker in workers && At(worker, id, workers[worker].pc)
      requires Stepped(sessions[id], workers[worker].pc, good) == (sessions[id], pc)
      modifies this`workers, this`trace
      ensures Valid() && old(trace) <= trace && At(worker, id, pc)
    {
      hide Inv, Stepped;
      ghost var before := Now();
      workers := workers[worker := Worker(id, pc)];
      assert sessions == sessions[id := sessions[id]];
      Account(before, worker, good);
    }

    /** Nobody interferes. */
    ghost predicate Undisturbed() {
      forall n :: others(n) == []
    }

    /** One turn of the loop up to the stored window. */
    method ProbeWindow(worker: int, id: int, k: nat, available: bool, measured: bool) returns (go: bool)
      requires Valid() && At(worker, id, Looping(k)) && k <= sessions[id].count && forall n ::
          Foreign(others(n), worker)
      modifies this
      ensures Valid() && start == old(start) && old(trace) <= trace && id in sessions
      ensures sessions[id].count == old(sessions)[id].count && sessions[id].interval == old(sessions)[id].interval
      ensures go ==> At(worker, id, AfterWindow(sessions[id], k))
      ensures !go ==> At(worker, id, Gone) || At(worker, id, Closing)
      ensures Undisturbed() && old(sessions)[id].status == Running ==>
        (go <==> available && measured) && sessions[id].status == if go then Running else Failed
    {
      hide Inv, Stepped, Closed;
      Interleave(worker);
      CheckSteps(sessions[id], k);
      if sessions[id].status != Running {
        Move(worker, id, Gone, true);
        return false;
      }
      if !available {
        Move(worker, id, Finishing(false), false);
        Abandon(worker, id);
        return false;
      }
      Move(worker, id, Measuring(k), true);
      Interleave(worker);
      CreateWindow(worker, id, k, measured);
      if !measured { Abandon(worker, id); }
      go := measured;
    }

    /** Finish as failed. */
    method Abandon(worker: int, id: int)
      requires Valid() && At(worker, id, Finishing(false)) && forall n :: Foreign(others(n), worker)
      modifies this
      ensures Valid() && start == old(start) && old(trace) <= trace && At(worker, id, Closing)
      ensures sessions[id].count == old(sessions)[id].count && sessions[id].interval == old(sessions)[id].interval
      ensures Undisturbed() && old(sessions)[id].status == Running ==> sessions[id].status == Failed
    {
      hide Inv;
      Interleave(worker);
      Finish(worker, id, false);
    }

    /** The pause between two windows, looking at the status once a second. */
    method Pause(worker: int, id: int, k: nat) returns (go: bool)
      requires Valid() && id in sessions && At(worker, id, Polling(k, sessions[id].interval)) && forall n ::
          Foreign(others(n), worker)
      modifies this
      ensures Valid() && start == old(start) && old(trace) <= trace && id in sessions
      ensures sessions[id].count == old(sessions)[id].count
      ensures At(worker, id, if go then Looping(k + 1) else Gone)
      ensures !go ==> sessions[id].status != Running
      ensures go ==> moment == old(moment) + old(sessions)[id].interval
      ensures Undisturbed() && old(sessions)[id].status == Running ==> go && sessions[id].status == Running
    {
      hide Inv, Stepped;
      var left: nat := sessions[id].interval;
      while left > 0
        invariant Valid() && start == old(start) && old(trace) <= trace
        invariant left <= old(sessions)[id].interval && moment == old(moment) + (old(sessions)[id].interval - left)
        invariant At(worker, id, Polling(k, left)) && sessions[id].count == old(sessions)[id].count
        invariant Undisturbed() && old(sessions)[id].status == Running ==> sessions[id].status == Running
      {
        Interleave(worker);
        PollSteps(sessions[id], k, left);
        if sessions[id].status != Running {
          Move(worker, id, Gone, true);
          return false;
        }
        left := left - 1;
        Move(worker, id, Polling(k, left), true);
      }
      PollSteps(sessions[id], k, left);
      Move(worker, id, Looping(k + 1), true);
      go := true;
    }

    /** The loop over the windows of a claimed session. */
    method MeasureWindows(worker: int, id: int, inventory: nat -> bool, measure: nat -> bool) returns (go: bool)
      requires Valid() && At(worker, id, Looping(1)) && forall n :: Foreign(others(n), worker)
      modifies this
      ensures Valid() && start == old(start) && old(trace) <= trace && id in sessions
      ensures sessions[id].count == old(sessions)[id].count
      ensures if go then At(worker, id, Finishing(true)) else At(worker, id, Gone) || At(worker, id, Closing)
      ensures Undisturbed() && old(sessions)[id].status == Running ==>
        && (go <==> forall k | 1 <= k <= old(sessions)[id].count :: inventory(k) && measure(k))
        && sessions[id].status == if go then Running else Failed
    {
      hide Inv, Stepped, Closed;
      ghost var quiet := Undisturbed() && sessions[id].status == Running;
      var count, sequence := sessions[id].count, 1;
      while sequence <= count
        invariant Valid() && start == old(start) && old(trace) <= trace
        invariant 1 <= sequence && At(worker, id, Looping(sequence))
            && sessions[id].count == count == old(sessions)[id].count
        invariant sequence <= count + 1
        invariant quiet ==>
          sessions[id].status == Running && forall k | 1 <= k < sequence :: inventory(k) && measure(k)
      {
        go := ProbeWindow(worker, id, sequence, inventory(sequence), measure(sequence));
        if !go { return; }
        if sequence < count {
          go := Pause(worker, id, sequence);
          if !go { return; }
        }
        sequence := sequence + 1;
      }
      CheckSteps(sessions[id], sequence);
      Move(worker, id, Finishing(true), true);
      go := true;
    }

    /** `execute_probe_session`: whatever the others do, its accesses are the machine's steps for this worker, and it
        ends gone or having finished the session. Undisturbed it makes a waiting session succeed with all its windows
        when the inventory is complete and the measurement works every time, and fail otherwise. */
    method ExecuteProbeSession(worker: int, id: int, inventory: nat -> bool, measure: nat -> bool)
      requires Valid() && At(worker, id, Claiming) && forall n :: Foreign(others(n), worker)
      modifies this
      ensures Valid() && start == old(start) && old(trace) <= trace
      ensures At(worker, id, Gone) || At(worker, id, Closing)
      ensures Undisturbed() && old(sessions)[id].status == Pending ==>
        if forall k | 1 <= k <= old(sessions)[id].count :: inventory(k) && measure(k)
        then sessions[id].status == Succeeded && |sessions[id].windows| == sessions[id].count == old(sessions)[id].count
        else sessions[id].status == Failed
    {
      hide Inv, Stepped, Closed;
      Interleave(worker);
      var claimed := Claim(worker, id);
      if !claimed { return; }
      var go := MeasureWindows(worker, id, inventory, measure);
      if !go { return; }
      Interleave(worker);
      FinishSucceeds(Now(), worker, id);
      Finish(worker, id, true);
    }
  }

  /** Where a successful window leaves the worker. */
  function AfterWindow(s: Session, k: nat): Pc {
    if k < s.count then Polling(k, s.interval) else Looping(k + 1)
  }

  lemma CheckSteps(s: Session, k: nat)
    ensures k > s.count ==> Stepped(s, Looping(k), true) == (s, Finishing(true))
    ensures k <= s.count && s.status != Running ==> Stepped(s, Looping(k), true) == (s, Gone)
    ensures k <= s.count && s.status == Running ==>
      Stepped(s, Looping(k), true) == (s, Measuring(k)) && Stepped(s, Looping(k), false) == (s, Finishing(false))
  {
  }

  lemma PollSteps(s: Session, k: nat, left: nat)
    ensures left == 0 ==> Stepped(s, Polling(k, left), true) == (s, Looping(k + 1))
    ensures left > 0 ==>
      Stepped(s, Polling(k, left), true) == (s, if s.status != Running then Gone else Polling(k, left - 1))
  {
  }

  lemma FinishSucceeds(st: State, worker: int, id: int)
    requires Inv(st) && worker in st.workers && st.workers[worker] == Worker(id, Finishing(true)) && id in st.sessions
    ensures st.sessions[id].status == Running ==>
      Closed(st.sessions[id], Succeeded).status == Succeeded
      && |Closed(st.sessions[id], Succeeded).windows| == st.sessions[id].count
          == Closed(st.sessions[id], Succeeded).count
  {
    assert WorkerOk(st.sessions[id], Finishing(true));
  }

  lemma {:induction false} IntervalStays(st: State, events: seq<Event>, id: int)
    requires id in st.sessions
    ensures id in Run(st, events).sessions && Run(st, events).sessions[id].interval == st.sessions[id].interval
    decreases |events|
  {
    if events != [] { IntervalStays(Next(st, events[0]), events[1..], id); }
  }
}
