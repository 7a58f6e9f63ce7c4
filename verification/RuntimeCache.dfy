/** The set of nodes whose container runtime need not be checked again, and the history it stands for. */
module RuntimeCache {
  import opened Values

  /** An action as the executor sees it; `runtimeCheck` is its own `check_container_runtime` parameter. */
  datatype ActionSpec = ActionSpec(kind: string, target: string, targets: seq<string>, runtimeCheck: Option<bool>)

  /** One executed connectivity check. */
  datatype Check = Check(node: string, runtime: bool, ok: bool)

  const CONNECTIVITY := "check_connectivity"

  function Connectivity(node: string): ActionSpec {
    ActionSpec(CONNECTIVITY, node, [], None)
  }

  /** Some check of the node that included the runtime succeeded, and no later check of it failed. */
  ghost predicate Verified(log: seq<Check>, node: string) {
    exists i | 0 <= i < |log| :: log[i] == Check(node, true, true) && OkAfter(log, node, i)
  }

  ghost predicate OkAfter(log: seq<Check>, node: string, i: nat) {
    forall j | i < j < |log| :: log[j].node == node ==> log[j].ok
  }

  lemma VerifiedStep(log: seq<Check>, c: Check, node: string)
    ensures Verified(log + [c], node) <==>
      if c.node == node then c.ok && (c.runtime || Verified(log, node)) else Verified(log, node)
  {
    var all := log + [c];
    if c.node == node && c.ok && c.runtime { assert all[|log|] == Check(node, true, true) && OkAfter(all, node, |log|); }
    if i :| 0 <= i < |log| && log[i] == Check(node, true, true) && OkAfter(log, node, i) {
      if c.node != node || c.ok { assert all[i] == Check(node, true, true) && OkAfter(all, node, i); }
    }
    if i :| 0 <= i < |all| && all[i] == Check(node, true, true) && OkAfter(all, node, i) {
      if i < |log| {
        assert log[i] == all[i] && all[|log|] == c;
        forall j | i < j < |log| && log[j].node == node ensures log[j].ok { assert all[j] == log[j]; }
        assert OkAfter(log, node, i);
      }
    }
  }

  /** `_with_cached_connectivity_runtime_flag`. */
  function WithCachedFlag(action: ActionSpec, verified: set<string>): ActionSpec {
    if action.kind != CONNECTIVITY || Trim(action.target) == "" || Trim(action.target) !in verified then action
    else if action.runtimeCheck.Some? then action
    else action.(runtimeCheck := Some(false))
  }

  /** Whether executing the action checks the container runtime. */
  predicate ChecksRuntime(action: ActionSpec) {
    action.runtimeCheck.None? || action.runtimeCheck.value
  }

  /** The nodes of the inventory that the history shows verified. */
  ghost function VerifiedNodes(log: seq<Check>, known: set<string>): set<string> {
    set n | n in known && Verified(log, n)
  }

  /** A runtime check is dropped exactly for an action without a flag of its own, on a node of the inventory
      that the history shows verified; every other action goes out as it is. */
  lemma ElidedExactly(action: ActionSpec, log: seq<Check>, known: set<string>)
    ensures var sent := WithCachedFlag(action, VerifiedNodes(log, known));
      if action.kind == CONNECTIVITY && action.runtimeCheck.None? && Trim(action.target) != ""
         && Trim(action.target) in known && Verified(log, Trim(action.target))
      then ChecksRuntime(action) && !ChecksRuntime(sent) && sent == action.(runtimeCheck := sent.runtimeCheck)
      else sent == action
  {
  }

  /** The history after an action has gone out as the history so far lets it and has turned out like this. */
  ghost function Noted(log: seq<Check>, action: ActionSpec, ok: bool, known: set<string>): seq<Check> {
    if action.kind != CONNECTIVITY || Trim(action.target) == "" then log
    else log + [Check(Trim(action.target), ChecksRuntime(WithCachedFlag(action, VerifiedNodes(log, known))), ok)]
  }

  /** The history after the first actions of a list have been executed with these outcomes. */
  ghost function Logged(log: seq<Check>, actions: seq<ActionSpec>, outcomes: seq<bool>, known: set<string>): seq<Check>
    requires |outcomes| <= |actions|
    decreases |outcomes|
  {
    if outcomes == [] then log
    else
      var n := |outcomes| - 1;
      Noted(Logged(log, actions, outcomes[..n], known), actions[n], outcomes[n], known)
  }

  lemma LoggedStep(log: seq<Check>, actions: seq<ActionSpec>, outcomes: seq<bool>, ok: bool, known: set<string>)
    requires |outcomes| < |actions|
    ensures Logged(log, actions, outcomes + [ok], known)
        == Noted(Logged(log, actions, outcomes, known), actions[|outcomes|], ok, known)
  {
    assert (outcomes + [ok])[..|outcomes|] == outcomes;
  }

  class Cache {
    var verified: set<string>
    ghost var log: seq<Check>

    /** The set says what the history says, for the nodes the inventory knows. */
    ghost predicate Valid(known: set<string>)
      reads this
    {
      verified == VerifiedNodes(log, known)
    }

    constructor ()
      ensures forall known :: Valid(known)
      ensures log == []
    {
      verified := {};
      log := [];
    }

    /** `_sync_connectivity_result_to_inventory`; `known` are the nodes whose inventory lookups succeed. */
    method Record(sent: ActionSpec, ok: bool, known: set<string>)
      requires Valid(known)
      modifies this
      ensures Valid(known)
      ensures log == if sent.kind == CONNECTIVITY && Trim(sent.target) != ""
                     then old(log) + [Check(Trim(sent.target), ChecksRuntime(sent), ok)] else old(log)
      ensures forall action | sent == WithCachedFlag(action, old(verified)) :: log == Noted(old(log), action, ok, known)
    {
      if sent.kind != CONNECTIVITY { return; }
      var node := Trim(sent.target);
      if node == "" { return; }
      forall n ensures Verified(log + [Check(node, ChecksRuntime(sent), ok)], n) <==>
        if node == n then ok && (ChecksRuntime(sent) || Verified(log, n)) else Verified(log, n)
      {
        VerifiedStep(log, Check(node, ChecksRuntime(sent), ok), n);
      }
      log := log + [Check(node, ChecksRuntime(sent), ok)];
      if node !in known { return; }
      if ok && ChecksRuntime(sent) { verified := verified + {node}; }
      if !ok { verified := verified - {node}; }
    }
  }
}
