/** The inventory a task builds for the VM nodes of a scenario, and whether it covers the targets of a plan. */
module Inventory {
  import opened Values
  import opened Targeting
  import opened ActionCenter
  import opened PlanCompiler
  import PlanGrid

  datatype InventoryError = VmMissing(node: string) | CredentialMissing(node: string)

  /** The user's inventory: VM names, and whether the VM has a credential. */
  type VmTable = map<string, bool>

  /** What this module takes for a VM node: unlike targeting it does not strip the name or the kind. */
  predicate HubVm(node: Node) {
    node.name != "" && Lower(node.kind) == "vm"
  }

  function HubNames(nodes: seq<Node>): set<string> {
    set n | n in nodes && HubVm(n) :: n.name
  }

  /** The VM of a node: the one its `ref` names, or else the one its name names. */
  function Lookup(node: Node, vms: VmTable): Option<string> {
    if node.ref != "" && node.ref in vms then Some(node.ref)
    else if node.name != "" && node.name in vms then Some(node.name)
    else None
  }

  predicate Usable(node: Node, vms: VmTable) {
    var vm := Lookup(node, vms);
    vm.Some? && vms[vm.value]
  }

  method Candidates(node: Node) returns (names: seq<string>)
    ensures names == (if node.ref != "" then [node.ref] else [])
                     + if node.name != "" && node.name != node.ref then [node.name] else []
  {
    names := [];
    if node.ref != "" { names := names + [node.ref]; }
    if node.name != "" && node.name !in names { names := names + [node.name]; }
  }

  method ResolveVm(node: Node, vms: VmTable) returns (vm: Option<string>)
    ensures vm == Lookup(node, vms)
  {
    var names := Candidates(node);
    for i := 0 to |names|
      invariant forall j | 0 <= j < i :: names[j] !in vms
    {
      if names[i] in vms {
        assert node.ref != "" ==> names[0] == node.ref;
        return Some(names[i]);
      }
    }
    assert node.ref != "" ==> node.ref in names;
    assert node.name != "" ==> node.name in names;
    vm := None;
  }

  /** The entries of the VM nodes that have a usable VM; a later node replaces an earlier one of the same name. */
  function InventoryOf(nodes: seq<Node>, vms: VmTable): map<string, string> {
    if nodes == [] then map[]
    else
      var before, node := InventoryOf(nodes[..|nodes| - 1], vms), nodes[|nodes| - 1];
      if HubVm(node) && Usable(node, vms) then before[node.name := Lookup(node, vms).value] else before
  }

  /** One error per VM node without a usable VM, in the order of the nodes. */
  function ErrorsOf(nodes: seq<Node>, vms: VmTable): seq<InventoryError> {
    if nodes == [] then []
    else
      var before, node := ErrorsOf(nodes[..|nodes| - 1], vms), nodes[|nodes| - 1];
      if !HubVm(node) || Usable(node, vms) then before
      else before + [if Lookup(node, vms).None? then VmMissing(node.name) else CredentialMissing(node.name)]
  }

  /** `_build_inventory_by_node`. */
  method BuildInventory(nodes: seq<Node>, vms: VmTable)
    returns (inventory: map<string, string>, errors: seq<InventoryError>)
    ensures inventory == InventoryOf(nodes, vms) && errors == ErrorsOf(nodes, vms)
  {
    inventory, errors := map[], [];
    for i := 0 to |nodes|
      invariant inventory == InventoryOf(nodes[..i], vms) && errors == ErrorsOf(nodes[..i], vms)
    {
      assert nodes[..i + 1][..i] == nodes[..i];
      var node := nodes[i];
      if node.name == "" || Lower(node.kind) != "vm" { continue; }
      var vm := ResolveVm(node, vms);
      if vm.None? {
        errors := errors + [VmMissing(node.name)];
        continue;
      }
      if !vms[vm.value] {
        errors := errors + [CredentialMissing(node.name)];
        continue;
      }
      inventory := inventory[node.name := vm.value];
    }
    assert nodes[..|nodes|] == nodes;
  }

  /** The inventory has exactly the VM nodes with a usable VM; it is built without errors exactly when that is all
      of them. */
  lemma {:induction false} InventoryExactly(nodes: seq<Node>, vms: VmTable)
    ensures InventoryOf(nodes, vms).Keys == set n | n in nodes && HubVm(n) && Usable(n, vms) :: n.name
    ensures ErrorsOf(nodes, vms) == [] <==> forall n | n in nodes && HubVm(n) :: Usable(n, vms)
    ensures ErrorsOf(nodes, vms) == [] ==> InventoryOf(nodes, vms).Keys == HubNames(nodes)
  {
    if nodes != [] {
      InventoryExactly(nodes[..|nodes| - 1], vms);
      assert nodes == nodes[..|nodes| - 1] + [nodes[|nodes| - 1]];
    }
  }

  /** An inventory entry holds the VM of a node with its name: the one the node's `ref` names if there is such a VM, and
      otherwise the one its own name names. */
  lemma {:induction false} EntriesExactly(nodes: seq<Node>, vms: VmTable)
    ensures forall name | name in InventoryOf(nodes, vms) ::
      exists node | node in nodes && Lower(node.kind) == "vm" && node.name == name ::
        var vm := InventoryOf(nodes, vms)[name];
        vm in vms && vms[vm] && vm == if node.ref != "" && node.ref in vms then node.ref else name
  {
    if nodes != [] {
      var before, node := nodes[..|nodes| - 1], nodes[|nodes| - 1];
      EntriesExactly(before, vms);
      hide Lower;
      assert nodes == before + [node];
    }
  }

  /** An error is raised for exactly the VM nodes whose VM does not exist, and for those whose VM has no credential. */
  lemma {:induction false} ErrorsExactly(nodes: seq<Node>, vms: VmTable, name: string)
    ensures VmMissing(name) in ErrorsOf(nodes, vms) <==>
      exists node | node in nodes && HubVm(node) && node.name == name :: name !in vms && (node.ref == "" || node.ref !in vms)
    ensures CredentialMissing(name) in ErrorsOf(nodes, vms) <==>
      exists node | node in nodes && HubVm(node) && node.name == name ::
        if node.ref != "" && node.ref in vms then !vms[node.ref] else name in vms && !vms[name]
  {
    if nodes != [] {
      var before, node := nodes[..|nodes| - 1], nodes[|nodes| - 1];
      ErrorsExactly(before, vms, name);
      hide Lower;
      assert nodes == before + [node];
    }
  }

  /** Nodes whose name and kind carry no surrounding whitespace. */
  ghost predicate TrimmedNodes(nodes: seq<Node>) {
    forall n | n in nodes :: Trimmed(n.name) && Trimmed(n.kind)
  }

  /** A VM node, its name as targeting reads it, is an inventory key of some node verbatim. */
  ghost predicate Verbatim(nodes: seq<Node>, name: string) {
    exists n | n in nodes :: HubVm(n) && n.name == name
  }

  /** An inventory built without errors has every VM node of targeting among its keys exactly when each of those
      names is written without surrounding whitespace by some node whose kind is too. */
  lemma CoverageExactly(nodes: seq<Node>, vms: VmTable)
    requires ErrorsOf(nodes, vms) == []
    ensures VmNames(nodes) <= InventoryOf(nodes, vms).Keys <==> forall v | v in VmNames(nodes) :: Verbatim(nodes, v)
  {
    InventoryExactly(nodes, vms);
  }

  lemma TrimmedNodesAreCovered(nodes: seq<Node>)
    requires TrimmedNodes(nodes)
    ensures VmNames(nodes) == HubNames(nodes)
  {
    forall n | n in nodes ensures IsVm(n) <==> HubVm(n) {}
  }

  /** One node whose name carries a blank is a target the inventory does not have. */
  lemma BlankInNameIsNotCovered(vms: VmTable)
    requires " a" in vms && vms[" a"]
    ensures var nodes := [Node(" a", "vm", "", None)];
            ErrorsOf(nodes, vms) == [] && "a" in VmNames(nodes) && "a" !in InventoryOf(nodes, vms)
  {
    var node := Node(" a", "vm", "", None);
    assert TrimLeft(" a") == "a" by { assert " a"[1..] == "a"; }
    assert NodeName(node) == "a";
    assert Lower("vm") == "vm" && Trimmed("vm");
    assert node in [node] && IsVm(node);
    InventoryExactly([node], vms);
    assert forall n | n in [node] :: n.name == " a";
  }

  /** Every target of a compiled plan is an inventory key when the inventory of the same scenario is built
      without errors and every VM node's name is written without surrounding whitespace by some VM node. */
  lemma PlanTargetsAreInInventory(x: Input, vms: VmTable)
    requires Compiled(x).Ok? && ErrorsOf(x.ctx.nodes, vms) == []
    requires forall v | v in VmNames(x.ctx.nodes) :: Verbatim(x.ctx.nodes, v)
    ensures forall r | r in Compiled(x).value :: forall p | p in r.draft.phases :: forall a | a in p.actions ::
        TargetsOf(a) <= InventoryOf(x.ctx.nodes, vms).Keys
  {
    hide Compiled, VmNames, HubVm, Usable, TargetsOf, InventoryOf, ErrorsOf, Verbatim;
    PlanGrid.PlanTargetsExist(x);
    CoverageExactly(x.ctx.nodes, vms);
  }
}
