/** The scheduler's lookup: the newest window of each pair of VMs, newest pair first. */
module ProbeLookup {
  import opened Values
  import opened Ordering
  import opened ProbeSessions

  datatype Vm = Vm(owner: int, archived: bool, address: string)

  datatype SessionRow = SessionRow(owner: int, source: int, target: int, status: Status)

  datatype WindowRow = WindowRow(session: int, measuredAt: int, sourceAddress: string, targetAddress: string,
      reachable: bool, error: string)

  /** The three tables, by primary key. */
  datatype Tables = Tables(vms: map<int, Vm>, sessions: map<int, SessionRow>, windows: map<int, WindowRow>)

  datatype Query = Query(user: int, maxAge: int, limit: nat, source: Option<int>, target: Option<int>)

  datatype Row = Row(window: int, source: int, target: int, recent: bool, inventoryMatches: bool, usable: bool)

  /** Foreign keys resolve. */
  ghost predicate Linked(db: Tables) {
    && (forall w | w in db.windows :: db.windows[w].session in db.sessions)
    && (forall s | s in db.sessions :: db.sessions[s].source in db.vms && db.sessions[s].target in db.vms)
  }

  function SessionOf(db: Tables, w: int): SessionRow
    requires Linked(db) && w in db.windows
  {
    db.sessions[db.windows[w].session]
  }

  /** `order_by("-measured_at", "-pk")`. */
  function Newer(windows: map<int, WindowRow>): (int, int) -> bool {
    (a: int, b: int) =>
      var s, t := if a in windows then windows[a].measuredAt else 0, if b in windows then windows[b].measuredAt else 0;
      s > t || (s == t && a > b)
  }

  lemma NewerIsTotal(windows: map<int, WindowRow>)
    ensures StrictTotal(Newer(windows))
  {
  }

  /** The user's windows of one pair. */
  function PairWindows(db: Tables, user: int, source: int, target: int): set<int>
    requires Linked(db)
  {
    set w | w in db.windows && SessionOf(db, w).owner == user && SessionOf(db, w).source == source
        && SessionOf(db, w).target == target
  }

  predicate Matches(db: Tables, q: Query, w: int)
    requires Linked(db) && w in db.windows
  {
    var s := SessionOf(db, w);
    s.owner == q.user && (q.source.Some? ==> s.source == q.source.value)
        && (q.target.Some? ==> s.target == q.target.value)
  }

  /** The subquery of the lookup: the first window of this window's pair. */
  function NewestOfPair(db: Tables, q: Query, w: int): int
    requires Linked(db) && w in db.windows && Matches(db, q, w)
  {
    NewerIsTotal(db.windows);
    var s := SessionOf(db, w);
    assert w in PairWindows(db, q.user, s.source, s.target);
    Least(PairWindows(db, q.user, s.source, s.target), Newer(db.windows))
  }

  function Selected(db: Tables, q: Query): set<int>
    requires Linked(db)
  {
    set w | w in db.windows && Matches(db, q, w) && NewestOfPair(db, q, w) == w
  }

  function Listed(db: Tables, q: Query): seq<int>
    requires Linked(db)
  {
    NewerIsTotal(db.windows);
    var all := Sorted(Selected(db, q), Newer(db.windows));
    if |all| <= q.limit then all else all[..q.limit]
  }

  function RowOf(db: Tables, q: Query, now: int, w: int): Row
    requires Linked(db) && w in db.windows
  {
    var window, s := db.windows[w], SessionOf(db, w);
    var source, target := db.vms[s.source], db.vms[s.target];
    var age := if now - window.measuredAt > 0 then now - window.measuredAt else 0;
    var recent := age <= q.maxAge;
    var matching := !source.archived && !target.archived && source.owner == q.user && target.owner == q.user
                   && window.sourceAddress == source.address && window.targetAddress == target.address;
    Row(w, s.source, s.target, recent, matching,
        recent && matching && window.error == "" && window.reachable && (s.status == Running || s.status == Succeeded))
  }

  /** `latest_measurements`. */
  method LatestMeasurements(db: Tables, q: Query, now: int) returns (rows: seq<Row>)
    requires Linked(db)
    ensures |rows| == |Listed(db, q)|
    ensures forall i | 0 <= i < |rows| ::
      Listed(db, q)[i] in db.windows && rows[i] == RowOf(db, q, now, Listed(db, q)[i])
  {
    var listed := Listed(db, q);
    ListedAreSelected(db, q);
    rows := [];
    for i := 0 to |listed|
      invariant |rows| == i && forall j | 0 <= j < i ::
          listed[j] in db.windows && rows[j] == RowOf(db, q, now, listed[j])
    {
      assert listed[i] in listed;
      rows := rows + [RowOf(db, q, now, listed[i])];
    }
  }

  lemma ListedAreSelected(db: Tables, q: Query)
    requires Linked(db)
    ensures forall w | w in Listed(db, q) :: w in Selected(db, q) && w in db.windows
    ensures forall i, j | 0 <= i < j < |Listed(db, q)| :: Newer(db.windows)(Listed(db, q)[i], Listed(db, q)[j])
  {
    NewerIsTotal(db.windows);
    var all := Sorted(Selected(db, q), Newer(db.windows));
    forall w | w in Listed(db, q) ensures w in all {}
  }

  ghost predicate SamePairOf(db: Tables, v: int, w: int)
    requires Linked(db) && v in db.windows && w in db.windows
  {
    var s, t := SessionOf(db, v), SessionOf(db, w);
    s.owner == t.owner && s.source == t.source && s.target == t.target
  }

  /** A selected window matches the query and is the newest of the user's windows of its pair. */
  lemma SelectedExactly(db: Tables, q: Query, w: int)
    requires Linked(db) && w in db.windows
    ensures w in Selected(db, q) <==>
      Matches(db, q, w) && forall v | v in db.windows && v != w && SamePairOf(db, v, w) :: Newer(db.windows)(w, v)
  {
    NewerIsTotal(db.windows);
    if Matches(db, q, w) {
      var s := SessionOf(db, w);
      var own := PairWindows(db, q.user, s.source, s.target);
      var m := NewestOfPair(db, q, w);
      assert IsLeast(m, own, Newer(db.windows));
      forall v | v in db.windows ensures v in own <==> SamePairOf(db, v, w) {}
      assert w in own;
    }
  }

  /** Every matching pair with a window has exactly one candidate. */
  lemma PairHasCandidate(db: Tables, q: Query, w: int) returns (m: int)
    requires Linked(db) && w in db.windows && Matches(db, q, w)
    ensures m in db.windows && SamePairOf(db, m, w) && m in Selected(db, q)
    ensures m == w || Newer(db.windows)(m, w)
  {
    NewerIsTotal(db.windows);
    var s := SessionOf(db, w);
    var own := PairWindows(db, q.user, s.source, s.target);
    assert w in own;
    m := Least(own, Newer(db.windows));
    assert m in own;
    forall v | v in db.windows && v != m && SamePairOf(db, v, m) ensures Newer(db.windows)(m, v) { assert v in own; }
    SelectedExactly(db, q, m);
  }

  /** The listing: newest first; one window per pair, the pair's newest that matches; cut only by the limit, and
      what is cut is older than everything listed. */
  lemma ListingExactly(db: Tables, q: Query)
    requires Linked(db)
    ensures var listed := Listed(db, q);
      && |listed| <= q.limit
      && (forall w | w in listed :: w in db.windows && Matches(db, q, w)
            && forall v | v in db.windows && v != w && SamePairOf(db, v, w) :: Newer(db.windows)(w, v))
      && (forall i, j | 0 <= i < j < |listed| ::
            Newer(db.windows)(listed[i], listed[j]) && !SamePairOf(db, listed[i], listed[j]))
      && (forall w | w in db.windows && Matches(db, q, w) && (forall v | v in listed :: !SamePairOf(db, v, w)) ::
            |listed| == q.limit && forall v | v in listed :: Newer(db.windows)(v, w))
  {
    NewerIsTotal(db.windows);
    ListedAreSelected(db, q);
    var listed := Listed(db, q);
    forall w | w in listed { SelectedExactly(db, q, w); }
    forall i, j | 0 <= i < j < |listed| ensures !SamePairOf(db, listed[i], listed[j]) {
      SelectedExactly(db, q, listed[j]);
      assert listed[i] in listed && listed[j] in listed && Newer(db.windows)(listed[i], listed[j]);
    }
    forall w | w in db.windows && Matches(db, q, w) && (forall v | v in listed :: !SamePairOf(db, v, w))
      ensures |listed| == q.limit && forall v | v in listed :: Newer(db.windows)(v, w)
    {
      var m := PairHasCandidate(db, q, w);
      CutIsOlder(db, q, m);
      forall v | v in listed ensures Newer(db.windows)(v, w) { assert Newer(db.windows)(v, m); }
    }
  }

  lemma CutIsOlder(db: Tables, q: Query, m: int)
    requires Linked(db) && m in Selected(db, q) && m !in Listed(db, q)
    ensures |Listed(db, q)| == q.limit && forall v | v in Listed(db, q) :: Newer(db.windows)(v, m)
  {
    NewerIsTotal(db.windows);
    var all := Sorted(Selected(db, q), Newer(db.windows));
    var i :| 0 <= i < |all| && all[i] == m;
    forall v | v in Listed(db, q) ensures Newer(db.windows)(v, m) {
      var j :| 0 <= j < |Listed(db, q)| && Listed(db, q)[j] == v;
      assert all[j] == v;
    }
  }

  /** A usable row shows the newest of the user's windows of its pair, and that one succeeded recently. */
  lemma UsableIsNewest(db: Tables, q: Query, now: int, w: int)
    requires Linked(db) && w in Listed(db, q)
    ensures w in db.windows
    ensures RowOf(db, q, now, w).usable ==>
      && db.windows[w].error == "" && db.windows[w].reachable && now - db.windows[w].measuredAt <= q.maxAge
      && forall v | v in db.windows && v != w && SamePairOf(db, v, w) ::
           db.windows[v].measuredAt < db.windows[w].measuredAt
               || (db.windows[v].measuredAt == db.windows[w].measuredAt && v < w)
  {
    ListedAreSelected(db, q);
    SelectedExactly(db, q, w);
    hide Listed, Selected, Matches, SamePairOf;
    forall v | v in db.windows && v != w && SamePairOf(db, v, w)
      ensures db.windows[v].measuredAt < db.windows[w].measuredAt
              || (db.windows[v].measuredAt == db.windows[w].measuredAt && v < w)
    {
      assert Newer(db.windows)(w, v);
    }
  }

  /** The VM is what the user's inventory still has: not archived, the user's own, at this address. */
  predicate StillThere(vm: Vm, user: int, address: string) {
    !vm.archived && vm.owner == user && vm.address == address
  }

  /** A listed row is usable exactly when its window was measured without error and found the target reachable, is not
      too old, both VMs are still there at the addresses measured, and its session runs or has succeeded. */
  lemma UsableExactly(db: Tables, q: Query, now: int, w: int)
    requires Linked(db) && w in Listed(db, q)
    ensures w in db.windows
    ensures var row, window := RowOf(db, q, now, w), db.windows[w];
      var s := db.sessions[window.session];
      && row.window == w && row.source == s.source && row.target == s.target
      && (row.usable <==>
            && window.error == "" && window.reachable && now - window.measuredAt <= q.maxAge && 0 <= q.maxAge
            && StillThere(db.vms[s.source], q.user, window.sourceAddress)
            && StillThere(db.vms[s.target], q.user, window.targetAddress)
            && (s.status == Running || s.status == Succeeded))
  {
    ListedAreSelected(db, q);
    hide Listed, Selected;
  }

  /** When the newest window of a pair failed, no row of the pair is usable, whatever older windows say. */
  lemma NewestFailureHidesThePair(db: Tables, q: Query, now: int, v: int)
    requires Linked(db) && v in db.windows && db.windows[v].error != ""
    requires forall u | u in db.windows && u != v && SamePairOf(db, u, v) :: Newer(db.windows)(v, u)
    ensures forall w | w in Listed(db, q) :: w in db.windows && (SamePairOf(db, w, v) ==> !RowOf(db, q, now, w).usable)
  {
    NewerIsTotal(db.windows);
    ListingExactly(db, q);
    forall w | w in Listed(db, q) ensures w in db.windows && (SamePairOf(db, w, v) ==> w == v) {}
  }
}
