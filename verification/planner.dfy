/**
 * Turning a symbolic graph into a plan (`planned()` in
 * tellur_core/src/tree/mod.rs): node ids become positions in ascending id
 * order, parameter names become indices among the graph's parameters in key
 * order, output names become indices among the producer's returns in key
 * order, and each node's inputs are listed in the order of the node's
 * declared parameters. Every `unwrap`, map index and `panic!` of the source
 * is an `Err` here.
 */
module Planner {
  import opened Wrappers
  import opened Order
  import opened SortedMap
  import opened Types
  import opened Tree
  import Plan

  /** The position of an id among the graph's node ids (`nodes_map`). */
  function Position(t: NodeTree, id: NodeId): (r: Option<nat>)
    ensures r.Some? <==> Get(t.nodes, id).Some?
    ensures r.Some? ==> r.value < |t.nodes| && t.nodes[r.value].0 == id
    ensures r.Some? && Sorted(t.nodes, IdLess) ==> r.value == CountLess(NodeIds(t), id, IdLess)
  {
    var r := IndexOf(NodeIds(t), id);
    KeyOfGet(t.nodes, id);
    if r.Some? && Sorted(t.nodes, IdLess) then
      IdLessIsStrictTotal();
      IndexIsRank(t.nodes, IdLess, r.value);
      r
    else r
  }

  function ResolveInput(t: NodeTree, input: TreeInput): (r: Result<Plan.PlannedInput>)
    ensures r.Ok? ==> Plan.InRange(r.value, |t.nodes|)
    ensures input.Fixed? ==> r == Ok(Plan.Fixed(input.value))
  {
    match input
    case Parameter(name) =>
      (match IndexOf(Keys(t.parameters), name)
       case None => Err(UnknownParameter(name))
       case Some(i) => Ok(Plan.Parameter(i)))
    case NodeOutput(id, outputName) =>
      (match Position(t, id)
       case None => Err(UnknownNode(id))
       case Some(pos) =>
         match IndexOf(Keys(NodeReturns(t.nodes[pos].1.node)), outputName)
         case None => Err(UnknownOutput(id, outputName))
         case Some(o) => Ok(Plan.NodeOutput(pos, o)))
    case Fixed(value) => Ok(Plan.Fixed(value))
  }

  /** Every name is bound and its binding resolves. */
  predicate BindingsResolve(t: NodeTree, bindings: Assoc<string, TreeInput>, names: seq<string>) {
    forall k :: 0 <= k < |names| ==> Get(bindings, names[k]).Some? && ResolveInput(t, Get(bindings, names[k]).value).Ok?
  }

  function Unbound(name: string, forReturns: bool): Error {
    if forReturns then UnboundReturn(name) else UnboundParameter(name)
  }

  /**
   * The planned inputs for `names`, in that order: the binding of each name,
   * resolved. A name without a binding is `Unbound`.
   */
  function ResolveBindings(t: NodeTree, bindings: Assoc<string, TreeInput>, names: seq<string>, forReturns: bool)
    : (r: Result<seq<Plan.PlannedInput>>)
    ensures r.Ok? <==> BindingsResolve(t, bindings, names)
    ensures r.Ok? ==> |r.value| == |names|
    ensures r.Ok? ==> forall k :: 0 <= k < |names| ==> r.value[k] == ResolveInput(t, Get(bindings, names[k]).value).value
    ensures r.Ok? ==> forall k :: 0 <= k < |names| ==> Plan.InRange(r.value[k], |t.nodes|)
    ensures |names| > 0 && Get(bindings, names[0]).None? ==> r == Err(Unbound(names[0], forReturns))
  {
    if |names| == 0 then Ok([])
    else
      match Get(bindings, names[0])
      case None => Err(Unbound(names[0], forReturns))
      case Some(b) =>
        var i :- ResolveInput(t, b);
        var rest :- ResolveBindings(t, bindings, names[1..], forReturns);
        assert forall k :: 1 <= k < |names| ==> names[1..][k - 1] == names[k];
        Ok([i] + rest)
  }

  /** What planning promises about node `j` of `t` and its planned form `n`. */
  predicate PlannedAs(t: NodeTree, j: nat, n: Plan.PlannedNode)
    requires j < |t.nodes|
  {
    var entry := t.nodes[j].1;
    && ResolveBindings(t, entry.inputs, Keys(NodeParameters(entry.node)), false) == Ok(n.inputs)
    && PlanNode(entry.node) == Ok(n.strategy)
  }

  /** Node `j` of `t` can be planned. */
  predicate NodePlannable(t: NodeTree, j: nat)
    requires j < |t.nodes|
  {
    var entry := t.nodes[j].1;
    BindingsResolve(t, entry.inputs, Keys(NodeParameters(entry.node))) && PlanNode(entry.node).Ok?
  }

  function PlanNode(n: Node): (r: Result<Plan.Strategy>)
    ensures r.Ok? ==> Plan.StrategyWellFormed(r.value)
    decreases n, 3, 0
  {
    match n
    case Not => Ok(Plan.NotPlanned)
    case And => Ok(Plan.AndPlanned)
    case Composite(t) =>
      var p :- PlanTree(t);
      Ok(Plan.TreePlanned(p))
  }

  function PlanTree(t: NodeTree): (r: Result<Plan.TreePlan>)
    ensures r.Ok? ==> Plan.PlanWellFormed(r.value)
    ensures r.Ok? ==> |r.value.nodes| == |t.nodes| && forall j :: 0 <= j < |t.nodes| ==> PlanEntry(t, j) == Ok(r.value.nodes[j])
    ensures r.Ok? ==> ResolveBindings(t, t.outputs, Keys(t.returnTypes), true) == Ok(r.value.outputs)
    decreases t, 2, 0
  {
    var planned := PlanNodes(t, |t.nodes|);
    if planned.Err? then
      Err(planned.error)
    else
      var outputs := ResolveBindings(t, t.outputs, Keys(t.returnTypes), true);
      if outputs.Err? then
        Err(outputs.error)
      else
        var nodes := planned.value;
        var p := Plan.TreePlan(nodes, outputs.value);
        assert Plan.PlanWellFormed(p) by {
          forall i, k | 0 <= i < |nodes| && 0 <= k < |nodes[i].inputs|
            ensures Plan.InRange(nodes[i].inputs[k], |nodes|)
          {
            assert PlanEntry(t, i) == Ok(nodes[i]);
          }
          forall i | 0 <= i < |nodes|
            ensures Plan.StrategyWellFormed(nodes[i].strategy)
          {
            assert PlanEntry(t, i) == Ok(nodes[i]);
          }
        }
        Ok(p)
  }

  /** The planned form of node `j`: its inputs in parameter order, then its strategy. */
  function PlanEntry(t: NodeTree, j: nat): (r: Result<Plan.PlannedNode>)
    requires j < |t.nodes|
    ensures r.Ok? ==> forall k :: 0 <= k < |r.value.inputs| ==> Plan.InRange(r.value.inputs[k], |t.nodes|)
    ensures r.Ok? ==> Plan.StrategyWellFormed(r.value.strategy)
    decreases t, 0
  {
    var entry := t.nodes[j].1;
    var inputs :- ResolveBindings(t, entry.inputs, Keys(NodeParameters(entry.node)), false);
    var strategy :- PlanNode(entry.node);
    Ok(Plan.PlannedNode(inputs, strategy))
  }

  /**
   * The planned forms of the first `n` nodes of `t`, in position order; the
   * error, if any, is that of the first node that cannot be planned.
   */
  function PlanNodes(t: NodeTree, n: nat): (r: Result<seq<Plan.PlannedNode>>)
    requires n <= |t.nodes|
    ensures r.Ok? ==> |r.value| == n
    ensures r.Ok? ==> forall i :: 0 <= i < n ==> PlanEntry(t, i) == Ok(r.value[i])
    decreases t, 1, n
  {
    if n == 0 then Ok([])
    else
      var prefix :- PlanNodes(t, n - 1);
      var last :- PlanEntry(t, n - 1);
      Ok(prefix + [last])
  }

  /** Node `j` can be planned exactly when its planned form exists, and then it is that form. */
  lemma PlanEntryMeaning(t: NodeTree, j: nat)
    requires j < |t.nodes|
    ensures PlanEntry(t, j).Ok? <==> NodePlannable(t, j)
    ensures PlanEntry(t, j).Ok? ==> PlannedAs(t, j, PlanEntry(t, j).value)
  {
  }

  /** The first `n` nodes can be planned exactly when each of them can. */
  lemma {:induction false} PlanNodesOkIff(t: NodeTree, n: nat)
    requires n <= |t.nodes|
    ensures PlanNodes(t, n).Ok? <==> forall i :: 0 <= i < n ==> PlanEntry(t, i).Ok?
    decreases n
  {
    if n > 0 {
      PlanNodesOkIff(t, n - 1);
      assert PlanNodes(t, n).Ok? <==> PlanNodes(t, n - 1).Ok? && PlanEntry(t, n - 1).Ok?;
    }
  }

  /**
   * Planning succeeds exactly when every node's declared parameters are all
   * bound and resolve, every nested graph can be planned, and every declared
   * return is bound and resolves.
   */
  lemma PlanTreeOkIff(t: NodeTree)
    ensures PlanTree(t).Ok? <==>
      (forall j :: 0 <= j < |t.nodes| ==> NodePlannable(t, j)) && BindingsResolve(t, t.outputs, Keys(t.returnTypes))
  {
    PlanNodesOkIff(t, |t.nodes|);
    forall j | 0 <= j < |t.nodes| {
      PlanEntryMeaning(t, j);
    }
  }

  // ---------------------------------------------------------------------------
  // What the resolved indices mean, for graphs whose maps are in key order
  // ---------------------------------------------------------------------------

  /**
   * A parameter reference resolves to index `i` exactly when `i` is where
   * that name is declared, which is the number of declared names below it.
   */
  lemma ParameterResolution(t: NodeTree, name: string, i: nat)
    requires Sorted(t.parameters, StrLess)
    ensures ResolveInput(t, Parameter(name)) == Ok(Plan.Parameter(i)) <==>
      i < |t.parameters| && t.parameters[i].0 == name
    ensures ResolveInput(t, Parameter(name)) == Ok(Plan.Parameter(i)) ==>
      i == CountLess(Keys(t.parameters), name, StrLess)
    ensures ResolveInput(t, Parameter(name)).Err? <==> name !in Keys(t.parameters)
  {
    StrLessIsStrictTotal();
    if i < |t.parameters| && t.parameters[i].0 == name {
      IndexOfAt(t.parameters, StrLess, i);
      IndexIsRank(t.parameters, StrLess, i);
    }
  }

  /**
   * A reference to output `o` of node `id` resolves to slot (`pos`, `k`)
   * exactly when `id` is the node at position `pos` and `o` is its `k`-th
   * declared return; `pos` is the number of smaller node ids.
   */
  lemma NodeOutputResolution(t: NodeTree, id: NodeId, o: string, pos: nat, k: nat)
    requires Sorted(t.nodes, IdLess)
    requires forall j :: 0 <= j < |t.nodes| ==> Sorted(NodeReturns(t.nodes[j].1.node), StrLess)
    ensures ResolveInput(t, NodeOutput(id, o)) == Ok(Plan.NodeOutput(pos, k)) <==>
      && pos < |t.nodes| && t.nodes[pos].0 == id
      && k < |NodeReturns(t.nodes[pos].1.node)| && NodeReturns(t.nodes[pos].1.node)[k].0 == o
    ensures ResolveInput(t, NodeOutput(id, o)) == Ok(Plan.NodeOutput(pos, k)) ==>
      pos == CountLess(NodeIds(t), id, IdLess)
    ensures ResolveInput(t, NodeOutput(id, o)) == Err(UnknownNode(id)) <==> id !in NodeIds(t)
  {
    IdLessIsStrictTotal();
    StrLessIsStrictTotal();
    if pos < |t.nodes| && t.nodes[pos].0 == id {
      IndexOfAt(t.nodes, IdLess, pos);
      IndexIsRank(t.nodes, IdLess, pos);
      var rets := NodeReturns(t.nodes[pos].1.node);
      if k < |rets| && rets[k].0 == o {
        IndexOfAt(rets, StrLess, k);
      }
    }
  }

  /**
   * If some node leaves a declared parameter without a binding, or the graph
   * leaves a declared return without one, planning fails.
   */
  lemma UnboundFails(t: NodeTree, j: nat, name: string)
    requires j < |t.nodes|
    requires name in Keys(NodeParameters(t.nodes[j].1.node)) && name !in Keys(t.nodes[j].1.inputs)
    ensures PlanTree(t).Err?
  {
    var names := Keys(NodeParameters(t.nodes[j].1.node));
    var k :| 0 <= k < |names| && names[k] == name;
    assert Get(t.nodes[j].1.inputs, names[k]).None?;
    assert !NodePlannable(t, j);
    PlanTreeOkIff(t);
  }

  lemma UnboundReturnFails(t: NodeTree, name: string)
    requires name in Keys(t.returnTypes) && name !in Keys(t.outputs)
    ensures PlanTree(t).Err?
  {
    var names := Keys(t.returnTypes);
    var k :| 0 <= k < |names| && names[k] == name;
    assert Get(t.outputs, names[k]).None?;
    PlanTreeOkIff(t);
  }
}
