/**
 * The two example graphs both generations of the engine are built around:
 * OR as NOT(AND(NOT left, NOT right)), and AND as NOT(OR(NOT left, NOT right))
 * with the OR graph nested as a node. Planning them gives the expected plans,
 * and evaluating those plans computes the Boolean functions for every input.
 */
module Circuits {
  import opened Wrappers
  import opened SortedMap
  import opened Types
  import opened Logical
  import opened Tree
  import opened Denotation
  import Plan
  import Planner
  import LegacyTree

  function NotOf(from: TreeInput): NodeEntry {
    NodeEntry([("value", from)], Not)
  }

  /** NOT(AND(NOT left, NOT right)) over node ids 0..3, wrapping `middle` as node 2. */
  function DeMorganTree(name: string, middle: Node): NodeTree {
    NodeTree(
      name,
      AndParameters(),
      BoolResult(),
      [ (0, NotOf(Parameter("left"))),
        (1, NotOf(Parameter("right"))),
        (2, NodeEntry([("left", NodeOutput(0, "result")), ("right", NodeOutput(1, "result"))], middle)),
        (3, NotOf(NodeOutput(2, "result"))) ],
      [("result", NodeOutput(3, "result"))])
  }

  function OrTree(): NodeTree {
    DeMorganTree("or", And)
  }

  function AndTree(): NodeTree {
    DeMorganTree("and", Composite(OrTree()))
  }

  function DeMorganPlan(middle: Plan.Strategy): Plan.TreePlan {
    Plan.TreePlan(
      [ Plan.PlannedNode([Plan.Parameter(0)], Plan.NotPlanned),
        Plan.PlannedNode([Plan.Parameter(1)], Plan.NotPlanned),
        Plan.PlannedNode([Plan.NodeOutput(0, 0), Plan.NodeOutput(1, 0)], middle),
        Plan.PlannedNode([Plan.NodeOutput(2, 0)], Plan.NotPlanned) ],
      [Plan.NodeOutput(3, 0)])
  }

  function OrPlan(): Plan.TreePlan {
    DeMorganPlan(Plan.AndPlanned)
  }

  function AndPlan(): Plan.TreePlan {
    DeMorganPlan(Plan.TreePlanned(OrPlan()))
  }

  /** Bindings that each resolve to the expected input resolve, together, to the expected list. */
  lemma ResolvesTo(t: NodeTree, bindings: Assoc<string, TreeInput>, names: seq<string>, expected: seq<Plan.PlannedInput>)
    requires |expected| == |names|
    requires forall k :: 0 <= k < |names| ==>
      Get(bindings, names[k]).Some? && Planner.ResolveInput(t, Get(bindings, names[k]).value) == Ok(expected[k])
    ensures Planner.ResolveBindings(t, bindings, names, false) == Ok(expected)
    ensures Planner.ResolveBindings(t, bindings, names, true) == Ok(expected)
  {
    var r := Planner.ResolveBindings(t, bindings, names, false);
    assert r.value == expected;
    var r' := Planner.ResolveBindings(t, bindings, names, true);
    assert r'.value == expected;
  }

  /** A NOT node whose one wire resolves to `from` plans to a NOT reading `from`. */
  lemma NotEntryPlans(t: NodeTree, j: nat, from: TreeInput, resolved: Plan.PlannedInput)
    requires j < |t.nodes| && t.nodes[j].1 == NotOf(from)
    requires Planner.ResolveInput(t, from) == Ok(resolved)
    ensures Planner.PlanEntry(t, j) == Ok(Plan.PlannedNode([resolved], Plan.NotPlanned))
  {
    assert Keys(NotParameters()) == ["value"];
    ResolvesTo(t, t.nodes[j].1.inputs, ["value"], [resolved]);
  }

  lemma DeMorganPositions(name: string, middle: Node)
    ensures var t := DeMorganTree(name, middle);
      && Keys(t.parameters) == ["left", "right"]
      && Planner.Position(t, 0) == Some(0) && Planner.Position(t, 1) == Some(1)
      && Planner.Position(t, 2) == Some(2) && Planner.Position(t, 3) == Some(3)
  {
    var t := DeMorganTree(name, middle);
    assert Keys(t.parameters) == ["left", "right"];
    var ids := NodeIds(t);
    assert ids == [0, 1, 2, 3];
    assert forall i :: 0 <= i < 4 ==> t.nodes[i].0 == i && ids[i] == i;
  }

  /** In a De Morgan shaped graph the two parameters resolve to their indices. */
  lemma DeMorganResolvesParameters(name: string, middle: Node)
    ensures var t := DeMorganTree(name, middle);
      && Planner.ResolveInput(t, Parameter("left")) == Ok(Plan.Parameter(0))
      && Planner.ResolveInput(t, Parameter("right")) == Ok(Plan.Parameter(1))
  {
    assert Keys(DeMorganTree(name, middle).parameters) == ["left", "right"];
  }

  /** A wire to the only output, `result`, of a node found at position `pos` resolves to slot 0 there. */
  lemma ResultResolves(t: NodeTree, id: NodeId, pos: nat)
    requires Planner.Position(t, id) == Some(pos)
    requires NodeReturns(t.nodes[pos].1.node) == BoolResult()
    ensures Planner.ResolveInput(t, NodeOutput(id, "result")) == Ok(Plan.NodeOutput(pos, 0))
  {
    assert Keys(BoolResult()) == ["result"];
  }

  /** A node with `left` and `right` wires that resolve plans to that node reading them in order. */
  lemma BinaryEntryPlans(t: NodeTree, j: nat, left: TreeInput, right: TreeInput, middle: Node,
                         l: Plan.PlannedInput, r: Plan.PlannedInput, s: Plan.Strategy)
    requires j < |t.nodes| && t.nodes[j].1 == NodeEntry([("left", left), ("right", right)], middle)
    requires Tree.NodeParameters(middle) == AndParameters() && Planner.PlanNode(middle) == Ok(s)
    requires Planner.ResolveInput(t, left) == Ok(l) && Planner.ResolveInput(t, right) == Ok(r)
    ensures Planner.PlanEntry(t, j) == Ok(Plan.PlannedNode([l, r], s))
  {
    assert Keys(AndParameters()) == ["left", "right"];
    var wires, names := [("left", left), ("right", right)], ["left", "right"];
    assert Get(wires, names[0]) == Some(left) && Get(wires, names[1]) == Some(right);
    ResolvesTo(t, t.nodes[j].1.inputs, ["left", "right"], [l, r]);
  }

  lemma DeMorganEntries(name: string, middle: Node, s: Plan.Strategy)
    requires Planner.PlanNode(middle) == Ok(s)
    requires Tree.NodeParameters(middle) == AndParameters() && NodeReturns(middle) == BoolResult()
    ensures var t := DeMorganTree(name, middle);
      var p := DeMorganPlan(s);
      && Planner.PlanEntry(t, 0) == Ok(p.nodes[0])
      && Planner.PlanEntry(t, 1) == Ok(p.nodes[1])
      && Planner.PlanEntry(t, 2) == Ok(p.nodes[2])
      && Planner.PlanEntry(t, 3) == Ok(p.nodes[3])
  {
    var t := DeMorganTree(name, middle);
    DeMorganResolvesParameters(name, middle);
    DeMorganPositions(name, middle);
    ResultResolves(t, 0, 0);
    ResultResolves(t, 1, 1);
    ResultResolves(t, 2, 2);
    NotEntryPlans(t, 0, Parameter("left"), Plan.Parameter(0));
    NotEntryPlans(t, 1, Parameter("right"), Plan.Parameter(1));
    NotEntryPlans(t, 3, NodeOutput(2, "result"), Plan.NodeOutput(2, 0));
    BinaryEntryPlans(t, 2, NodeOutput(0, "result"), NodeOutput(1, "result"), middle,
      Plan.NodeOutput(0, 0), Plan.NodeOutput(1, 0), s);
  }

  /** A graph whose every node and return plan as given plans to exactly those. */
  lemma PlansTo(t: NodeTree, p: Plan.TreePlan)
    requires |p.nodes| == |t.nodes|
    requires forall j :: 0 <= j < |t.nodes| ==> Planner.PlanEntry(t, j) == Ok(p.nodes[j])
    requires Planner.ResolveBindings(t, t.outputs, Keys(t.returnTypes), true) == Ok(p.outputs)
    ensures Planner.PlanTree(t) == Ok(p)
  {
    Planner.PlanNodesOkIff(t, |t.nodes|);
    assert Planner.PlanNodes(t, |t.nodes|).value == p.nodes;
  }

  lemma DeMorganOutputs(name: string, middle: Node)
    ensures var t := DeMorganTree(name, middle);
      Planner.ResolveBindings(t, t.outputs, Keys(t.returnTypes), true) == Ok([Plan.NodeOutput(3, 0)])
  {
    var t := DeMorganTree(name, middle);
    DeMorganPositions(name, middle);
    assert Keys(t.returnTypes) == ["result"];
    ResultResolves(t, 3, 3);
    ResolvesTo(t, t.outputs, ["result"], [Plan.NodeOutput(3, 0)]);
  }

  /** Planning a De Morgan shaped graph resolves every wire to the expected slot. */
  lemma DeMorganPlans(name: string, middle: Node, s: Plan.Strategy)
    requires Planner.PlanNode(middle) == Ok(s)
    requires Tree.NodeParameters(middle) == AndParameters() && NodeReturns(middle) == BoolResult()
    ensures Planner.PlanTree(DeMorganTree(name, middle)) == Ok(DeMorganPlan(s))
  {
    var t := DeMorganTree(name, middle);
    var p := DeMorganPlan(s);
    DeMorganEntries(name, middle, s);
    DeMorganOutputs(name, middle);
    forall j | 0 <= j < |t.nodes|
      ensures Planner.PlanEntry(t, j) == Ok(p.nodes[j])
    {
      if j == 0 {} else if j == 1 {} else if j == 2 {} else {}
    }
    PlansTo(t, p);
  }

  lemma OrTreePlans()
    ensures Planner.PlanTree(OrTree()) == Ok(OrPlan())
  {
    DeMorganPlans("or", And, Plan.AndPlanned);
  }

  lemma AndTreePlans()
    ensures Planner.PlanTree(AndTree()) == Ok(AndPlan())
  {
    OrTreePlans();
    DeMorganPlans("and", Composite(OrTree()), Plan.TreePlanned(OrPlan()));
  }

  // ---------------------------------------------------------------------------
  // Evaluating the plans
  // ---------------------------------------------------------------------------

  function Bools(a: bool, b: bool): seq<TypedValue> {
    [BoolValue(a), BoolValue(b)]
  }

  lemma DeMorganWellFormed(s: Plan.Strategy)
    requires Plan.StrategyWellFormed(s)
    ensures Plan.PlanWellFormed(DeMorganPlan(s))
  {
  }

  /** Each node of a De Morgan shaped plan reads only from nodes before it. */
  lemma DeMorganTopological(s: Plan.Strategy)
    ensures Topological(DeMorganPlan(s))
  {
  }

  /** Reading argument `k` alone. */
  lemma FetchArgument(k: nat, args: seq<TypedValue>, m: Plan.Memory)
    requires k < |args|
    ensures Plan.Fetch([Plan.Parameter(k)], args, m) == Ok([args[k]])
  {
    assert Plan.Fetch([Plan.Parameter(k)], args, m).value == [args[k]];
  }

  /** Reading output slot 0 of node `n` from position-order results. */
  lemma FetchSlot(n: nat, args: seq<TypedValue>, d: seq<seq<TypedValue>>)
    requires n < |d| && |d[n]| > 0
    ensures Plan.Fetch([Plan.NodeOutput(n, 0)], args, Memo(d)) == Ok([d[n][0]])
  {
    assert (n, 0) in Memo(d);
    assert Plan.Fetch([Plan.NodeOutput(n, 0)], args, Memo(d)).value == [d[n][0]];
  }

  /** Reading output slots 0 of nodes 0 and 1 from position-order results. */
  lemma FetchFirstSlots(args: seq<TypedValue>, d: seq<seq<TypedValue>>)
    requires |d| >= 2 && |d[0]| > 0 && |d[1]| > 0
    ensures Plan.Fetch([Plan.NodeOutput(0, 0), Plan.NodeOutput(1, 0)], args, Memo(d)) == Ok([d[0][0], d[1][0]])
  {
    assert (0, 0) in Memo(d) && (1, 0) in Memo(d);
    assert Plan.Fetch([Plan.NodeOutput(0, 0), Plan.NodeOutput(1, 0)], args, Memo(d)).value == [d[0][0], d[1][0]];
  }

  lemma NotOfBool(x: bool)
    ensures NotEvaluate([BoolValue(x)]) == Ok([BoolValue(!x)])
  {
    assert NotEvaluate([BoolValue(x)]).value == [BoolValue(!x)];
  }

  /** The two NOT nodes on the parameters negate them. */
  lemma DenoteParameterNots(s: Plan.Strategy, a: bool, b: bool)
    requires Plan.StrategyWellFormed(s)
    ensures Plan.PlanWellFormed(DeMorganPlan(s))
    ensures Denote(DeMorganPlan(s), Bools(a, b), 2) == Ok([[BoolValue(!a)]] + [[BoolValue(!b)]])
  {
    var p := DeMorganPlan(s);
    var args := Bools(a, b);
    DeMorganWellFormed(s);
    FetchArgument(0, args, Memo([]));
    NotOfBool(a);
    DenoteStep(p, args, 0, [], [BoolValue(a)], [BoolValue(!a)]);
    assert [] + [[BoolValue(!a)]] == [[BoolValue(!a)]];
    FetchArgument(1, args, Memo([[BoolValue(!a)]]));
    NotOfBool(b);
    DenoteStep(p, args, 1, [[BoolValue(!a)]], [BoolValue(b)], [BoolValue(!b)]);
  }

  /** The middle node reads both negations. */
  lemma DenoteMiddle(s: Plan.Strategy, a: bool, b: bool, mid: bool)
    requires Plan.StrategyWellFormed(s)
    requires Plan.EvalStrategy(s, [BoolValue(!a), BoolValue(!b)]) == Ok([BoolValue(mid)])
    ensures Plan.PlanWellFormed(DeMorganPlan(s))
    ensures Denote(DeMorganPlan(s), Bools(a, b), 3) == Ok([[BoolValue(!a)]] + [[BoolValue(!b)]] + [[BoolValue(mid)]])
  {
    var p := DeMorganPlan(s);
    var args := Bools(a, b);
    DenoteParameterNots(s, a, b);
    var d2 := [[BoolValue(!a)]] + [[BoolValue(!b)]];
    FetchFirstSlots(args, d2);
    DenoteStep(p, args, 2, d2, [BoolValue(!a), BoolValue(!b)], [BoolValue(mid)]);
  }

  /** A NOT node reading output slot 0 of an earlier node negates it. */
  lemma DenoteNotStep(p: Plan.TreePlan, args: seq<TypedValue>, n: nat, prior: seq<seq<TypedValue>>, m: nat, x: bool)
    requires Plan.PlanWellFormed(p) && n < |p.nodes| && Denote(p, args, n) == Ok(prior)
    requires p.nodes[n] == Plan.PlannedNode([Plan.NodeOutput(m, 0)], Plan.NotPlanned)
    requires m < |prior| && prior[m] == [BoolValue(x)]
    ensures Denote(p, args, n + 1) == Ok(prior + [[BoolValue(!x)]])
  {
    FetchSlot(m, args, prior);
    NotOfBool(x);
    DenoteStep(p, args, n, prior, [BoolValue(x)], [BoolValue(!x)]);
  }

  /** The last NOT negates the middle node's result. */
  lemma DenoteRest(s: Plan.Strategy, a: bool, b: bool, mid: bool)
    requires Plan.StrategyWellFormed(s)
    requires Plan.EvalStrategy(s, [BoolValue(!a), BoolValue(!b)]) == Ok([BoolValue(mid)])
    ensures Plan.PlanWellFormed(DeMorganPlan(s))
    ensures Denote(DeMorganPlan(s), Bools(a, b), 4)
      == Ok([[BoolValue(!a)]] + [[BoolValue(!b)]] + [[BoolValue(mid)]] + [[BoolValue(!mid)]])
  {
    DenoteMiddle(s, a, b, mid);
    var d3 := [[BoolValue(!a)]] + [[BoolValue(!b)]] + [[BoolValue(mid)]];
    assert |d3| == 3 && d3[2] == [BoolValue(mid)];
    DenoteNotStep(DeMorganPlan(s), Bools(a, b), 3, d3, 2, mid);
  }

  /**
   * A De Morgan shaped plan whose middle node maps the negated inputs to
   * `mid` evaluates to the negation of `mid`.
   */
  lemma DeMorganEvaluates(s: Plan.Strategy, a: bool, b: bool, mid: bool)
    requires Plan.StrategyWellFormed(s)
    requires Plan.EvalStrategy(s, [BoolValue(!a), BoolValue(!b)]) == Ok([BoolValue(mid)])
    ensures Plan.PlanWellFormed(DeMorganPlan(s))
    ensures Plan.Execute(DeMorganPlan(s), Bools(a, b)) == Ok([BoolValue(!mid)])
  {
    var p := DeMorganPlan(s);
    var args := Bools(a, b);
    DenoteRest(s, a, b, mid);
    DeMorganTopological(s);
    ExecuteDenotes(p, args);
    var d := [[BoolValue(!a)]] + [[BoolValue(!b)]] + [[BoolValue(mid)]] + [[BoolValue(!mid)]];
    FetchSlot(3, args, d);
  }

  /** The OR graph computes OR on every pair of Booleans. */
  lemma OrTreeComputesOr(a: bool, b: bool)
    ensures Planner.PlanTree(OrTree()) == Ok(OrPlan())
    ensures Plan.Execute(OrPlan(), Bools(a, b)) == Ok([BoolValue(a || b)])
  {
    OrTreePlans();
    assert AndEvaluate([BoolValue(!a), BoolValue(!b)]) == Ok([BoolValue(!a && !b)]);
    DeMorganEvaluates(Plan.AndPlanned, a, b, !a && !b);
  }

  /** The AND graph, which nests the OR graph, computes AND on every pair of Booleans. */
  lemma AndTreeComputesAnd(a: bool, b: bool)
    ensures Planner.PlanTree(AndTree()) == Ok(AndPlan())
    ensures Plan.Execute(AndPlan(), Bools(a, b)) == Ok([BoolValue(a && b)])
  {
    AndTreePlans();
    OrTreeComputesOr(!a, !b);
    DeMorganEvaluates(Plan.TreePlanned(OrPlan()), a, b, !a || !b);
  }

  // ---------------------------------------------------------------------------
  // The same graphs in the first generation
  // ---------------------------------------------------------------------------

  function LegacyNotOf(from: LegacyTree.LegacyInput): LegacyTree.LegacyEntry {
    LegacyTree.LegacyEntry([("value", from)], LegacyTree.LegacyNot)
  }

  /** The first generation's NOT(AND(NOT left, NOT right)) shape; returns name (node, output) pairs. */
  function LegacyDeMorganTree(name: string, middle: LegacyTree.LegacyNode): LegacyTree.LegacyGraph {
    LegacyTree.LegacyGraph(
      name,
      AndParameters(),
      BoolResult(),
      [ (0, LegacyNotOf(LegacyTree.LegacyParameter("left"))),
        (1, LegacyNotOf(LegacyTree.LegacyParameter("right"))),
        (2, LegacyTree.LegacyEntry(
              [("left", LegacyTree.LegacyNodeOutput(0, "result")), ("right", LegacyTree.LegacyNodeOutput(1, "result"))],
              middle)),
        (3, LegacyNotOf(LegacyTree.LegacyNodeOutput(2, "result"))) ],
      [("result", (3, "result"))])
  }

  /** `construct_or_tree` of the first generation's tests. */
  function LegacyOrTree(): LegacyTree.LegacyGraph {
    LegacyDeMorganTree("or", LegacyTree.LegacyAnd)
  }

  /** `construct_and_tree` of the first generation's tests, nesting the OR graph. */
  function LegacyAndTree(): LegacyTree.LegacyGraph {
    LegacyDeMorganTree("and", LegacyTree.LegacyComposite(LegacyOrTree()))
  }

  /** Embedding a legacy De Morgan shaped graph gives the newer graph of the same shape. */
  lemma LegacyDeMorganUpgrades(name: string, middle: LegacyTree.LegacyNode)
    ensures LegacyTree.Upgrade(LegacyDeMorganTree(name, middle)) == DeMorganTree(name, LegacyTree.UpgradeNode(middle))
  {
    var l := LegacyDeMorganTree(name, middle);
    var u := LegacyTree.Upgrade(l);
    var t := DeMorganTree(name, LegacyTree.UpgradeNode(middle));
    forall j | 0 <= j < 4
      ensures u.nodes[j] == t.nodes[j]
    {
      var wires := l.nodes[j].1.inputs;
      var upgraded := LegacyTree.UpgradeInputs(wires);
      assert |upgraded| == |wires|;
      assert forall k :: 0 <= k < |wires| ==> upgraded[k] == (wires[k].0, LegacyTree.UpgradeInput(wires[k].1));
      assert upgraded == t.nodes[j].1.inputs;
    }
    assert u.nodes == t.nodes;
    assert u.outputs == t.outputs;
  }

  lemma LegacyOrTreeUpgrades()
    ensures LegacyTree.Upgrade(LegacyOrTree()) == OrTree()
  {
    LegacyDeMorganUpgrades("or", LegacyTree.LegacyAnd);
  }

  lemma LegacyAndTreeUpgrades()
    ensures LegacyTree.Upgrade(LegacyAndTree()) == AndTree()
  {
    LegacyOrTreeUpgrades();
    LegacyDeMorganUpgrades("and", LegacyTree.LegacyComposite(LegacyOrTree()));
  }

  /** `or_tree_should_work`: the legacy OR graph plans to the OR plan, which computes OR. */
  lemma LegacyOrTreeComputesOr(a: bool, b: bool)
    ensures LegacyTree.LegacyPlanned(LegacyOrTree()) == Ok(OrPlan())
    ensures Plan.Execute(OrPlan(), Bools(a, b)) == Ok([BoolValue(a || b)])
  {
    LegacyOrTreeUpgrades();
    OrTreeComputesOr(a, b);
  }

  /** `and_tree_should_work`: the legacy AND graph plans to the AND plan, which computes AND. */
  lemma LegacyAndTreeComputesAnd(a: bool, b: bool)
    ensures LegacyTree.LegacyPlanned(LegacyAndTree()) == Ok(AndPlan())
    ensures Plan.Execute(AndPlan(), Bools(a, b)) == Ok([BoolValue(a && b)])
  {
    LegacyAndTreeUpgrades();
    AndTreeComputesAnd(a, b);
  }
}
