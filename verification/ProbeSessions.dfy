/** Online probe sessions as a state machine: creation, dispatch failures, duplicate task deliveries, user stops and
    the steps of the workers' measurement loops, in any interleaving. */
module ProbeSessions {
  import opened Values

  datatype Status = Pending | Running | Succeeded | Failed | Stopped

  datatype Window = Window(sequence: nat, ok: bool)

  /** A session record with its windows, and two history variables: how often it was claimed, and how many windows
      it had when it became terminal. */
  datatype Session = Session(owner: int, source: int, target: int, interval: nat, count: nat, status: Status,
                             windows: seq<Window>, claims: nat, left: Option<nat>)

  /** Where a worker stands: about to claim; at the head of the loop for window k; past the checks and measuring it;
      waiting `left` more seconds; about to finish the session; done finishing; gone. */
  datatype Pc =
    | Claiming
    | Looping(k: nat)
    | Measuring(k: nat)
    | Polling(k: nat, left: nat)
    | Finishing(succeeded: bool)
    | Closing
    | Gone

  datatype Worker = Worker(session: int, pc: Pc)

  datatype State = State(sessions: map<int, Session>, workers: map<int, Worker>)

  /** `good` says how the inventory check or the measurement of a step turns out. */
  datatype Event =
    | Create(id: int, owner: int, source: int, target: int, interval: nat, count: nat)
    | DispatchFails(id: int)
    | Deliver(worker: int, id: int)
    | Step(worker: int, good: bool)
    | Raise(worker: int)
    | Crash(worker: int)
    | Stop(id: int)

  const INITIAL := State(map[], map[])

  predicate Active(s: Session) {
    s.status == Pending || s.status == Running
  }

  /** `finish`: a conditional update that only leaves active statuses. */
  function Closed(s: Session, status: Status): Session {
    if Active(s) then s.(status := status, left := Some(|s.windows|)) else s
  }

  /** One atomic step of a worker on its session. */
  function Stepped(s: Session, pc: Pc, good: bool): (Session, Pc) {
    match pc
    case Claiming =>
      if s.status == Pending then (s.(status := Running, claims := s.claims + 1), Looping(1)) else (s, Gone)
    case Looping(k) =>
      if k > s.count then (s, Finishing(true))
      else if s.status != Running then (s, Gone)
      else if good then (s, Measuring(k)) else (s, Finishing(false))
    case Measuring(k) =>
      if exists w | w in s.windows :: w.sequence == k then (s, Finishing(false))
      else
        (s.(windows := s.windows + [Window(k, good)]),
         if !good then Finishing(false) else if k < s.count then Polling(k, s.interval) else Looping(k + 1))
    case Polling(k, left) =>
      if left == 0 then (s, Looping(k + 1)) else if s.status != Running then (s, Gone) else (s, Polling(k, left - 1))
    case Finishing(succeeded) => (Closed(s, if succeeded then Succeeded else Failed), Closing)
    case _ => (s, Gone)
  }

  /** A worker that has claimed its session and may still act on it. */
  predicate Acting(pc: Pc) {
    !pc.Claiming? && !pc.Gone?
  }

  /** The pair is free: no active session of the owner has it. */
  predicate PairFree(st: State, owner: int, source: int, target: int) {
    forall id | id in st.sessions && Active(st.sessions[id]) ::
      st.sessions[id].owner != owner || st.sessions[id].source != source || st.sessions[id].target != target
  }

  function Next(st: State, e: Event): State {
    match e
    case Create(id, owner, source, target, interval, count) =>
      if id in st.sessions || !PairFree(st, owner, source, target) || !(1 <= interval <= 30 && 1 <= count <= 60) then st
      else st.(sessions := st.sessions[id := Session(owner, source, target, interval, count, Pending, [], 0, None)])
    case DispatchFails(id) =>
      if id in st.sessions then st.(sessions := st.sessions[id := Closed(st.sessions[id], Failed)]) else st
    case Stop(id) =>
      if id in st.sessions then st.(sessions := st.sessions[id := Closed(st.sessions[id], Stopped)]) else st
    case Deliver(worker, id) =>
      if worker in st.workers || id !in st.sessions then st
      else st.(workers := st.workers[worker := Worker(id, Claiming)])
    case Crash(worker) =>
      if worker in st.workers then st.(workers := st.workers[worker := st.workers[worker].(pc := Gone)]) else st
    case Raise(worker) =>
      if worker in st.workers && Acting(st.workers[worker].pc)
      then st.(workers := st.workers[worker := st.workers[worker].(pc := Finishing(false))]) else st
    case Step(worker, good) =>
      if worker !in st.workers || st.workers[worker].session !in st.sessions then st
      else
        var id := st.workers[worker].session;
        var (s, pc) := Stepped(st.sessions[id], st.workers[worker].pc, good);
        State(st.sessions[id := s], st.workers[worker := Worker(id, pc)])
  }

  function Run(st: State, events: seq<Event>): State
    decreases |events|
  {
    if events == [] then st else Run(Next(st, events[0]), events[1..])
  }

  // ---------------------------------------------------------------- invariants

  ghost predicate AllOk(windows: seq<Window>) {
    forall i | 0 <= i < |windows| :: windows[i].ok
  }

  /** Windows are numbered 1..k without a gap, and only the last can have failed. */
  ghost predicate Numbered(windows: seq<Window>) {
    forall i | 0 <= i < |windows| :: windows[i].sequence == i + 1 && (i < |windows| - 1 ==> windows[i].ok)
  }

  ghost predicate SessionOk(s: Session) {
    && s.claims <= 1 && Numbered(s.windows) && |s.windows| <= s.count
    && 1 <= s.interval <= 30 && 1 <= s.count <= 60
    && (s.claims == 0 ==> s.windows == [])
    && (s.status == Pending ==> s.claims == 0)
    && (s.status == Running ==> s.claims == 1)
    && (Active(s) <==> s.left.None?)
    && (s.left.Some? ==> s.left.value <= |s.windows| <= s.left.value + 1)
    && (s.status == Succeeded ==> |s.windows| == s.count && AllOk(s.windows) && s.left == Some(s.count))
  }

  ghost predicate WorkerOk(s: Session, pc: Pc) {
    && (Acting(pc) ==> s.claims == 1)
    && match pc
       case Looping(k) => 1 <= k <= s.count + 1 && |s.windows| == k - 1 && AllOk(s.windows) && s.status != Succeeded
       case Measuring(k) =>
         1 <= k <= s.count && |s.windows| == k - 1 && AllOk(s.windows) && s.status != Succeeded
         && (s.left.Some? ==> s.left.value == |s.windows|)
       case Polling(k, left) => 1 <= k < s.count && |s.windows| == k && AllOk(s.windows) && s.status != Succeeded
       case Finishing(succeeded) => succeeded ==> |s.windows| == s.count && AllOk(s.windows)
       case _ => true
  }

  /** Two sessions of one owner for one pair. */
  predicate SamePair(s: Session, t: Session) {
    s.owner == t.owner && s.source == t.source && s.target == t.target
  }

  ghost predicate Inv(st: State) {
    && (forall id | id in st.sessions :: SessionOk(st.sessions[id]))
    && (forall w | w in st.workers ::
          st.workers[w].session in st.sessions && WorkerOk(st.sessions[st.workers[w].session], st.workers[w].pc))
    && (forall v, w | v in st.workers && w in st.workers && v != w && Acting(st.workers[v].pc) && Acting(st.workers[w].pc) ::
          st.workers[v].session != st.workers[w].session)
    && (forall i, j | i in st.sessions && j in st.sessions && i != j && Active(st.sessions[i]) && Active(st.sessions[j]) ::
          !SamePair(st.sessions[i], st.sessions[j]))
  }

  lemma ClosedKeeps(s: Session, status: Status)
    requires SessionOk(s) && status != Pending && status != Running
    requires status == Succeeded ==> |s.windows| == s.count && AllOk(s.windows)
    ensures SessionOk(Closed(s, status))
  {
  }

  /** Closing a session from outside disturbs no worker's view of it. */
  lemma ClosedKeepsWorkers(s: Session, status: Status, pc: Pc)
    requires WorkerOk(s, pc) && (status == Failed || status == Stopped)
    ensures WorkerOk(Closed(s, status), pc)
  {
  }

  lemma SteppedKeeps(s: Session, pc: Pc, good: bool)
    requires SessionOk(s) && WorkerOk(s, pc)
    ensures var (t, next) := Stepped(s, pc, good);
      && SessionOk(t) && WorkerOk(t, next) && SamePair(s, t)
      && (Active(t) ==> Active(s))
      && (Acting(next) ==> Acting(pc) || (pc == Claiming && s.claims == 0))
  {
    match pc
    case Measuring(k) =>
      forall i | 0 <= i < |s.windows| ensures s.windows[i].sequence != k {}
      var t := s.windows + [Window(k, good)];
      assert good ==> AllOk(t);
    case Finishing(succeeded) => ClosedKeeps(s, if succeeded then Succeeded else Failed);
    case _ =>
  }

  /** A worker that is not acting, or has not claimed, is indifferent to what happens to the session. */
  lemma IdleWorkerIsFine(s: Session, pc: Pc)
    requires !Acting(pc)
    ensures WorkerOk(s, pc)
  {
  }

  lemma StepKeepsInv(st: State, worker: int, good: bool)
    requires Inv(st)
    ensures Inv(Next(st, Step(worker, good)))
  {
    hide Stepped, SessionOk, WorkerOk;
    if worker in st.workers {
      var id, pc := st.workers[worker].session, st.workers[worker].pc;
      var s := st.sessions[id];
      var (t, next) := Stepped(s, pc, good);
      SteppedKeeps(s, pc, good);
      forall v | v in st.workers && v != worker && st.workers[v].session == id
        ensures WorkerOk(t, st.workers[v].pc) && !(Acting(st.workers[v].pc) && Acting(next))
      {
        if Acting(st.workers[v].pc) {
          ActingHasClaim(s, st.workers[v].pc);
          ClaimedStaysPut(s, pc, good);
        } else {
          IdleWorkerIsFine(t, st.workers[v].pc);
        }
      }
    }
  }

  lemma ActingHasClaim(s: Session, pc: Pc)
    requires WorkerOk(s, pc) && Acting(pc)
    ensures s.claims == 1
  {
  }

  /** A worker that is not acting on a claimed session leaves it alone. */
  lemma ClaimedStaysPut(s: Session, pc: Pc, good: bool)
    requires SessionOk(s) && s.claims == 1 && !Acting(pc)
    ensures Stepped(s, pc, good) == (s, Gone)
  {
  }

  lemma ClosingKeepsInv(st: State, id: int, status: Status)
    requires Inv(st) && id in st.sessions && (status == Failed || status == Stopped)
    ensures Inv(st.(sessions := st.sessions[id := Closed(st.sessions[id], status)]))
  {
    hide SessionOk, WorkerOk;
    ClosedKeeps(st.sessions[id], status);
    forall w | w in st.workers && st.workers[w].session == id
      ensures WorkerOk(Closed(st.sessions[id], status), st.workers[w].pc) {
      ClosedKeepsWorkers(st.sessions[id], status, st.workers[w].pc);
    }
  }

  lemma EventKeepsInv(st: State, e: Event)
    requires Inv(st)
    ensures Inv(Next(st, e))
  {
    match e
    case Create(id, owner, source, target, interval, count) =>
      hide WorkerOk;
    case DispatchFails(id) =>
      hide SessionOk, WorkerOk;
      if id in st.sessions { ClosingKeepsInv(st, id, Failed); }
    case Stop(id) =>
      hide SessionOk, WorkerOk;
      if id in st.sessions { ClosingKeepsInv(st, id, Stopped); }
    case Deliver(worker, id) => hide SessionOk;
    case Crash(worker) => hide SessionOk;
    case Raise(worker) => hide SessionOk;
    case Step(worker, good) =>
      hide SessionOk, WorkerOk, Stepped;
      StepKeepsInv(st, worker, good);
  }

  lemma {:induction false} RunKeepsInv(st: State, events: seq<Event>)
    requires Inv(st)
    ensures Inv(Run(st, events))
    decreases |events|
  {
    if events != [] {
      EventKeepsInv(st, events[0]);
      RunKeepsInv(Next(st, events[0]), events[1..]);
    }
  }

  /** After any events: a session's interval and number of windows are within bounds; it was claimed at most once; its
      windows are numbered 1..k; it succeeded only with exactly its number of windows, none failed; it gained at most
      one window after leaving its active statuses; and an owner has at most one active session per pair. */
  lemma EveryRunIsSafe(events: seq<Event>)
    ensures var st := Run(INITIAL, events);
      && (forall id | id in st.sessions :: var s := st.sessions[id];
            && s.claims <= 1 && 1 <= s.interval <= 30 && 1 <= s.count <= 60
            && (forall i | 0 <= i < |s.windows| :: s.windows[i].sequence == i + 1)
            && (s.status == Succeeded ==> |s.windows| == s.count && forall i | 0 <= i < |s.windows| :: s.windows[i].ok)
            && (!Active(s) ==> s.left.Some? && s.left.value <= |s.windows| <= s.left.value + 1))
      && (forall i, j | i in st.sessions && j in st.sessions && i != j && SamePair(st.sessions[i], st.sessions[j]) ::
            !Active(st.sessions[i]) || !Active(st.sessions[j]))
  {
    RunKeepsInv(INITIAL, events);
    var st := Run(INITIAL, events);
    forall id | id in st.sessions ensures SessionOk(st.sessions[id]) {}
  }

  // ---------------------------------------------------------------- terminal statuses

  /** The session keeps its terminal status and its owner and pair; windows are only added. */
  ghost predicate Later(s: Session, t: Session) {
    && SamePair(s, t) && s.count == t.count && s.windows <= t.windows
    && (!Active(s) ==> t.status == s.status && t.left == s.left)
    && (s.status == Running ==> t.status != Pending)
  }

  lemma EventIsLater(st: State, e: Event, id: int)
    requires id in st.sessions
    ensures id in Next(st, e).sessions && Later(st.sessions[id], Next(st, e).sessions[id])
  {
    if e.Step? && e.worker in st.workers && st.workers[e.worker].session in st.sessions {
      StepIsLater(st.sessions[st.workers[e.worker].session], st.workers[e.worker].pc, e.good);
    }
    hide Stepped;
  }

  lemma StepIsLater(s: Session, pc: Pc, good: bool)
    ensures Later(s, Stepped(s, pc, good).0)
  {
  }

  /** Whatever happens, a terminal status never changes, windows are never lost, and a running session never
      becomes pending again. */
  lemma {:induction false} TerminalIsForever(st: State, events: seq<Event>, id: int)
    requires id in st.sessions
    ensures id in Run(st, events).sessions && Later(st.sessions[id], Run(st, events).sessions[id])
    decreases |events|
  {
    if events != [] {
      EventIsLater(st, events[0], id);
      TerminalIsForever(Next(st, events[0]), events[1..], id);
      hide Next;
    }
  }

  /** A stop by the user ends an active session as stopped, and a dispatch that fails ends it as failed, for good. */
  lemma EndingFromOutsideIsFinal(st: State, id: int, events: seq<Event>)
    requires id in st.sessions && (st.sessions[id].status == Pending || st.sessions[id].status == Running)
    ensures var after := Run(Next(st, Stop(id)), events);
      id in after.sessions && after.sessions[id].status == Stopped
    ensures var after := Run(Next(st, DispatchFails(id)), events);
      id in after.sessions && after.sessions[id].status == Failed
  {
    TerminalIsForever(Next(st, Stop(id)), events, id);
    TerminalIsForever(Next(st, DispatchFails(id)), events, id);
  }

  ghost predicate IsStopped(st: State, id: int) {
    id in st.sessions && st.sessions[id].status == Stopped
  }

  /** Only the user stops a session. */
  lemma {:induction false} OnlyTheUserStops(st: State, events: seq<Event>, id: int)
    requires Stop(id) !in events && !IsStopped(st, id)
    ensures !IsStopped(Run(st, events), id)
    decreases |events|
  {
    if events != [] {
      assert events[0] in events && events[0] != Stop(id);
      NothingElseStops(st, events[0], id);
      OnlyTheUserStops(Next(st, events[0]), events[1..], id);
    }
  }

  lemma NothingElseStops(st: State, e: Event, id: int)
    requires e != Stop(id) && !IsStopped(st, id)
    ensures !IsStopped(Next(st, e), id)
  {
  }

  /** The session waits or runs, for this owner and pair. */
  predicate Occupies(s: Session, owner: int, source: int, target: int) {
    (s.status == Pending || s.status == Running) && s.owner == owner && s.source == source && s.target == target
  }

  /** A session is created, waiting and without windows, exactly for a new identifier, within the bounds, and when its
      owner has no waiting or running session for the pair. */
  lemma CreatedExactly(st: State, id: int, owner: int, source: int, target: int, interval: nat, count: nat)
    requires id !in st.sessions
    ensures var after := Next(st, Create(id, owner, source, target, interval, count));
      var taken := exists k | k in st.sessions :: Occupies(st.sessions[k], owner, source, target);
      && (id in after.sessions <==> 1 <= interval <= 30 && 1 <= count <= 60 && !taken)
      && (id in after.sessions ==>
            var s := after.sessions[id];
            && s.status == Pending && s.windows == [] && s.claims == 0
            && (s.owner, s.source, s.target, s.interval, s.count) == (owner, source, target, interval, count))
  {
    if PairFree(st, owner, source, target) {
      forall k | k in st.sessions ensures !Occupies(st.sessions[k], owner, source, target) {}
    }
    if forall k | k in st.sessions :: !Occupies(st.sessions[k], owner, source, target) {
      assert PairFree(st, owner, source, target);
    }
  }

  lemma {:induction false} RunAppend(st: State, a: seq<Event>, b: seq<Event>)
    ensures Run(st, a + b) == Run(Run(st, a), b)
    decreases |a|
  {
    if a == [] {
      assert a + b == b;
    } else {
      assert (a + b)[1..] == a[1..] + b;
      RunAppend(Next(st, a[0]), a[1..], b);
    }
  }

  /** A session that has left its active statuses gains at most one window more, whatever happens afterwards. */
  lemma AtMostOneLateWindow(past: seq<Event>, future: seq<Event>, id: int)
    requires id in Run(INITIAL, past).sessions && !Active(Run(INITIAL, past).sessions[id])
    ensures id in Run(INITIAL, past + future).sessions
    ensures |Run(INITIAL, past + future).sessions[id].windows| <= |Run(INITIAL, past).sessions[id].windows| + 1
  {
    var now := Run(INITIAL, past);
    RunAppend(INITIAL, past, future);
    RunKeepsInv(INITIAL, past);
    RunKeepsInv(now, future);
    TerminalIsForever(now, future, id);
    assert SessionOk(now.sessions[id]) && SessionOk(Run(now, future).sessions[id]);
  }
}
