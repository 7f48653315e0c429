/**
 * The first generation of the graph (core/src/tree/mod.rs). Its wiring has
 * no constants: a node parameter is bound to a graph parameter or to another
 * node's output, and a graph return is always bound to a node output. Its
 * planner and scheduler are the newer ones (tellur_core/src/tree/mod.rs and
 * plan.rs) restricted to such graphs, so a legacy graph is planned by
 * embedding it into the newer graph (`Upgrade`); the lemmas below show that
 * the plans obtained have exactly the legacy plan's shape.
 */
module LegacyTree {
  import opened Wrappers
  import opened SortedMap
  import opened Types
  import opened Tree
  import Plan
  import Planner

  /** `Input`: where a node parameter's value comes from. */
  datatype LegacyInput =
    | LegacyParameter(name: string)
    | LegacyNodeOutput(id: NodeId, outputName: string)

  datatype LegacyNode = LegacyNot | LegacyAnd | LegacyComposite(tree: LegacyGraph)

  datatype LegacyEntry = LegacyEntry(inputs: Assoc<string, LegacyInput>, node: LegacyNode)

  /** The legacy `TellurNodeTree`: each return names a (node id, output name) pair. */
  datatype LegacyGraph = LegacyGraph(
    name: string,
    parameters: Parameters,
    returnTypes: Returns,
    nodes: Assoc<NodeId, LegacyEntry>,
    outputs: Assoc<string, (NodeId, string)>)

  /**
   * The newer graphs the first generation can express: no constant in any
   * wire and every return a node output, here and in every nested graph.
   */
  predicate NoConstants(inputs: Assoc<string, TreeInput>) {
    forall k :: 0 <= k < |inputs| ==> !inputs[k].1.Fixed?
  }

  predicate OutputsOnly(outputs: Assoc<string, TreeInput>) {
    forall k :: 0 <= k < |outputs| ==> outputs[k].1.NodeOutput?
  }

  predicate Expressible(t: NodeTree)
    decreases t, 1
  {
    && OutputsOnly(t.outputs)
    && forall j :: 0 <= j < |t.nodes| ==> NoConstants(t.nodes[j].1.inputs) && NodeExpressible(t.nodes[j].1.node)
  }

  predicate NodeExpressible(n: Node)
    decreases n, 2
  {
    match n
    case Composite(t) => Expressible(t)
    case _ => true
  }

  // ---------------------------------------------------------------------------
  // From the newer graph back to the first generation
  // ---------------------------------------------------------------------------

  function DowngradeInput(i: TreeInput): LegacyInput
    requires !i.Fixed?
  {
    match i
    case Parameter(name) => LegacyParameter(name)
    case NodeOutput(id, o) => LegacyNodeOutput(id, o)
  }

  function DowngradeInputs(inputs: Assoc<string, TreeInput>): Assoc<string, LegacyInput>
    requires NoConstants(inputs)
  {
    seq(|inputs|, k requires 0 <= k < |inputs| => (inputs[k].0, DowngradeInput(inputs[k].1)))
  }

  function DowngradeOutputs(outputs: Assoc<string, TreeInput>): Assoc<string, (NodeId, string)>
    requires OutputsOnly(outputs)
  {
    seq(|outputs|, k requires 0 <= k < |outputs| => (outputs[k].0, (outputs[k].1.id, outputs[k].1.outputName)))
  }

  function DowngradeNode(n: Node): LegacyNode
    requires NodeExpressible(n)
    decreases n, 1
  {
    match n
    case Not => LegacyNot
    case And => LegacyAnd
    case Composite(t) => LegacyComposite(Downgrade(t))
  }

  function Downgrade(t: NodeTree): LegacyGraph
    requires Expressible(t)
    decreases t, 0
  {
    var nodes := seq(|t.nodes|, j requires 0 <= j < |t.nodes| =>
      assert t.nodes[j] in t.nodes;
      (t.nodes[j].0, LegacyEntry(DowngradeInputs(t.nodes[j].1.inputs), DowngradeNode(t.nodes[j].1.node))));
    LegacyGraph(t.name, t.parameters, t.returnTypes, nodes, DowngradeOutputs(t.outputs))
  }

  // ---------------------------------------------------------------------------
  // From the first generation to the newer graph
  // ---------------------------------------------------------------------------

  /** A legacy wire is a wire of the newer graph that is never a constant, and nothing is lost. */
  function UpgradeInput(i: LegacyInput): (r: TreeInput)
    ensures !r.Fixed? && DowngradeInput(r) == i
  {
    match i
    case LegacyParameter(name) => Parameter(name)
    case LegacyNodeOutput(id, o) => NodeOutput(id, o)
  }

  /** A node's wiring keeps its names in order, gains no constant, and can be recovered. */
  function UpgradeInputs(inputs: Assoc<string, LegacyInput>): (r: Assoc<string, TreeInput>)
    ensures Keys(r) == Keys(inputs)
    ensures NoConstants(r) && DowngradeInputs(r) == inputs
  {
    seq(|inputs|, k requires 0 <= k < |inputs| => (inputs[k].0, UpgradeInput(inputs[k].1)))
  }

  /** Each return's (node, output) pair becomes a node-output wire under the same name, recoverably. */
  function UpgradeOutputs(outputs: Assoc<string, (NodeId, string)>): (r: Assoc<string, TreeInput>)
    ensures Keys(r) == Keys(outputs)
    ensures OutputsOnly(r) && DowngradeOutputs(r) == outputs
  {
    seq(|outputs|, k requires 0 <= k < |outputs| => (outputs[k].0, NodeOutput(outputs[k].1.0, outputs[k].1.1)))
  }

  function UpgradeNode(n: LegacyNode): (r: Node)
    ensures Ident(r) == LegacyIdent(n)
    ensures NodeExpressible(r) && DowngradeNode(r) == n
    decreases n, 1
  {
    match n
    case LegacyNot => Not
    case LegacyAnd => And
    case LegacyComposite(t) => Composite(Upgrade(t))
  }

  /**
   * The same graph in the newer representation: the node ids are kept, the
   * result is expressible in the first generation, and downgrading it gives
   * the legacy graph back.
   */
  function Upgrade(t: LegacyGraph): (r: NodeTree)
    ensures NodeIds(r) == Keys(t.nodes)
    ensures Expressible(r) && Downgrade(r) == t
    decreases t, 0
  {
    var nodes := seq(|t.nodes|, j requires 0 <= j < |t.nodes| =>
      assert t.nodes[j] in t.nodes;
      (t.nodes[j].0, NodeEntry(UpgradeInputs(t.nodes[j].1.inputs), UpgradeNode(t.nodes[j].1.node))));
    NodeTree(t.name, t.parameters, t.returnTypes, nodes, UpgradeOutputs(t.outputs))
  }

  /** Upgrading what was downgraded gives back the newer graph: every expressible graph is a legacy graph. */
  lemma {:induction false} UpgradeDowngrade(u: NodeTree)
    requires Expressible(u)
    ensures Upgrade(Downgrade(u)) == u
    decreases u, 0
  {
    var t := Downgrade(u);
    var r := Upgrade(t);
    assert |r.nodes| == |u.nodes|;
    forall j | 0 <= j < |u.nodes|
      ensures r.nodes[j] == u.nodes[j]
    {
      assert u.nodes[j] in u.nodes;
      UpgradeDowngradeNode(u.nodes[j].1.node);
      assert UpgradeInputs(DowngradeInputs(u.nodes[j].1.inputs)) == u.nodes[j].1.inputs;
    }
    assert r.outputs == u.outputs;
  }

  lemma {:induction false} UpgradeDowngradeNode(n: Node)
    requires NodeExpressible(n)
    ensures UpgradeNode(DowngradeNode(n)) == n
    decreases n, 1
  {
    if n.Composite? {
      UpgradeDowngrade(n.tree);
    }
  }

  function LegacyIdent(n: LegacyNode): string {
    match n
    case LegacyNot => Logical.NotIdent
    case LegacyAnd => Logical.AndIdent
    case LegacyComposite(t) => t.name
  }

  /** `planned()` of a legacy graph. */
  function LegacyPlanned(t: LegacyGraph): Result<Plan.TreePlan> {
    Planner.PlanTree(Upgrade(t))
  }

  /**
   * The shape of a legacy plan: node inputs are parameter indices or output
   * slots, never constants, and every return is an output slot; likewise in
   * every nested plan.
   */
  predicate LegacyShaped(p: Plan.TreePlan)
    decreases p, 0
  {
    && (forall i, k :: 0 <= i < |p.nodes| && 0 <= k < |p.nodes[i].inputs| ==> !p.nodes[i].inputs[k].Fixed?)
    && (forall k :: 0 <= k < |p.outputs| ==> p.outputs[k].NodeOutput?)
    && (forall i :: 0 <= i < |p.nodes| ==> StrategyLegacyShaped(p.nodes[i].strategy))
  }

  predicate StrategyLegacyShaped(s: Plan.Strategy)
    decreases s, 1
  {
    match s
    case TreePlanned(p) => LegacyShaped(p)
    case _ => true
  }

  /** Resolving a wire without a constant never yields a constant. */
  lemma ResolveKeepsShape(t: NodeTree, bindings: Assoc<string, TreeInput>, names: seq<string>, forReturns: bool)
    requires forall k :: 0 <= k < |bindings| ==> !bindings[k].1.Fixed?
    ensures var r := Planner.ResolveBindings(t, bindings, names, forReturns);
      r.Ok? ==> forall k :: 0 <= k < |r.value| ==> !r.value[k].Fixed?
  {
    var r := Planner.ResolveBindings(t, bindings, names, forReturns);
    if r.Ok? {
      forall k | 0 <= k < |r.value|
        ensures !r.value[k].Fixed?
      {
        var b := Get(bindings, names[k]).value;
        KeyOfGet(bindings, names[k]);
      }
    }
  }

  /** Every plan of a legacy graph has the legacy plan's shape. */
  lemma {:induction false} LegacyPlanShape(t: LegacyGraph)
    ensures LegacyPlanned(t).Ok? ==> LegacyShaped(LegacyPlanned(t).value)
    decreases t, 1
  {
    var u := Upgrade(t);
    var r := Planner.PlanTree(u);
    if r.Ok? {
      var p := r.value;
      forall i | 0 <= i < |p.nodes|
        ensures forall k :: 0 <= k < |p.nodes[i].inputs| ==> !p.nodes[i].inputs[k].Fixed?
        ensures StrategyLegacyShaped(p.nodes[i].strategy)
      {
        assert Planner.PlanEntry(u, i) == Ok(p.nodes[i]);
        LegacyEntryShape(t, i);
      }
      LegacyOutputsShape(t);
    }
  }

  /** A planned entry of a legacy graph reads no constant and plans its node in the legacy shape. */
  lemma {:induction false} LegacyEntryShape(t: LegacyGraph, i: nat)
    requires i < |t.nodes| && Planner.PlanEntry(Upgrade(t), i).Ok?
    ensures var e := Planner.PlanEntry(Upgrade(t), i).value;
      && (forall k :: 0 <= k < |e.inputs| ==> !e.inputs[k].Fixed?)
      && StrategyLegacyShaped(e.strategy)
    decreases t, 0
  {
    var u := Upgrade(t);
    var entry := u.nodes[i].1;
    ResolveKeepsShape(u, entry.inputs, Keys(NodeParameters(entry.node)), false);
    LegacyNodeShape(t.nodes[i].1.node);
  }

  /** The returns of a planned legacy graph are output slots. */
  lemma LegacyOutputsShape(t: LegacyGraph)
    requires Planner.PlanTree(Upgrade(t)).Ok?
    ensures var p := Planner.PlanTree(Upgrade(t)).value;
      forall k :: 0 <= k < |p.outputs| ==> p.outputs[k].NodeOutput?
  {
    var u := Upgrade(t);
    ResolveOutputsShape(u, u.outputs, Keys(u.returnTypes), true);
  }

  /** Resolving wires that are all node outputs yields output slots only. */
  lemma ResolveOutputsShape(t: NodeTree, bindings: Assoc<string, TreeInput>, names: seq<string>, forReturns: bool)
    requires forall k :: 0 <= k < |bindings| ==> bindings[k].1.NodeOutput?
    ensures var r := Planner.ResolveBindings(t, bindings, names, forReturns);
      r.Ok? ==> forall k :: 0 <= k < |r.value| ==> r.value[k].NodeOutput?
  {
    var r := Planner.ResolveBindings(t, bindings, names, forReturns);
    if r.Ok? {
      forall k | 0 <= k < |r.value|
        ensures r.value[k].NodeOutput?
      {
        var b := Get(bindings, names[k]).value;
        KeyOfGet(bindings, names[k]);
      }
    }
  }

  lemma {:induction false} LegacyNodeShape(n: LegacyNode)
    ensures var r := Planner.PlanNode(UpgradeNode(n));
      r.Ok? ==> StrategyLegacyShaped(r.value)
    decreases n, 2
  {
    if n.LegacyComposite? {
      LegacyPlanShape(n.tree);
    }
  }

  /** A declared return with no output binding fails planning (the `unwrap` on the outputs). */
  lemma LegacyUnboundReturn(t: LegacyGraph, name: string)
    requires name in Keys(t.returnTypes) && name !in Keys(t.outputs)
    ensures LegacyPlanned(t).Err?
  {
    Planner.UnboundReturnFails(Upgrade(t), name);
  }
}
