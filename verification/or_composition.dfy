/**
 * The OR graph built through the editor, as tellur_core/tests/or_composition.rs
 * builds it: a graph named "or" with parameters `left` and `right` and the
 * return `result`, four nodes (NOT, NOT, AND, NOT) and six edges. The editor
 * produces exactly the OR graph, and evaluating it gives `left || right`.
 */
module OrComposition {
  import opened Wrappers
  import opened Order
  import opened SortedMap
  import opened Types
  import opened Logical
  import opened Tree
  import opened Composition
  import Circuits

  /**
   * A node entry re-deriving leaves as it is: it binds only declared
   * parameters and binds every declared immutable one.
   */
  ghost predicate Settled(entry: NodeEntry) {
    var params := NodeParameters(entry.node);
    && (forall k :: k in Keys(entry.inputs) ==> Get(params, k).Some?)
    && (forall k :: k in Keys(params) && Get(params, k).value.0 == Immutable ==> Get(entry.inputs, k).Some?)
  }

  ghost predicate AllSettled(nodes: Assoc<NodeId, NodeEntry>) {
    forall i :: 0 <= i < |nodes| ==> Settled(nodes[i].1)
  }

  lemma CleanEntrySettled(id: NodeId, entry: NodeEntry, edges: EdgeSet, dflt: Defaults)
    requires Settled(entry)
    ensures CleanEntry(id, entry, edges, dflt) == entry
  {
    var params := NodeParameters(entry.node);
    forall i | 0 <= i < |entry.inputs|
      ensures !(Get(entry.inputs, entry.inputs[i].0).Some? && Stale(params, id, entry.inputs[i].0, Get(entry.inputs, entry.inputs[i].0).value, edges))
    {
      assert Keys(entry.inputs)[i] == entry.inputs[i].0;
    }
    assert DropStale(id, entry.inputs, params, edges) == entry.inputs;
  }

  /** Re-deriving leaves a graph whose entries are all settled unchanged. */
  lemma CleanTreeSettled(c: Composition, dflt: Defaults)
    requires AllSettled(c.tree.nodes)
    ensures CleanParameters(c, dflt).tree == c.tree
  {
    forall i | 0 <= i < |c.tree.nodes|
      ensures CleanEntry(c.tree.nodes[i].0, c.tree.nodes[i].1, c.edges, dflt) == c.tree.nodes[i].1
    {
      CleanEntrySettled(c.tree.nodes[i].0, c.tree.nodes[i].1, c.edges, dflt);
    }
  }

  /** The nodes hold the ids 0, 1, ... in order. */
  ghost predicate Dense(nodes: Assoc<NodeId, NodeEntry>) {
    forall i :: 0 <= i < |nodes| ==> nodes[i].0 == i
  }

  lemma DenseHasNode(c: Composition, j: NodeId)
    requires Dense(c.tree.nodes)
    ensures HasNode(c, j) <==> j < |c.tree.nodes|
  {
    if j < |c.tree.nodes| {
      assert Keys(c.tree.nodes)[j] == j;
    } else {
      assert forall i :: 0 <= i < |c.tree.nodes| ==> Keys(c.tree.nodes)[i] != j;
    }
  }

  /** On dense nodes, `add_node` takes the next id. */
  lemma AddNodeNextId(c: Composition, node: Node, dflt: Defaults)
    requires Dense(c.tree.nodes) && |c.tree.nodes| < IdLimit
    ensures AddNode(c, node, dflt).Ok? && AddNode(c, node, dflt).value.1 == |c.tree.nodes|
  {
    var k: NodeId := |c.tree.nodes|;
    DenseHasNode(c, k);
    var id := AddNode(c, node, dflt).value.1;
    DenseHasNode(c, id);
    assert !(k < id);
  }

  /** Re-deriving settled nodes with one new entry appended re-derives only the new entry. */
  lemma CleanAppended(c: Composition, m: Assoc<NodeId, NodeEntry>, k: NodeId, blank: NodeEntry, dflt: Defaults)
    requires AllSettled(m) && c.tree.nodes == m + [(k, blank)]
    ensures CleanParameters(c, dflt).tree.nodes == m + [(k, CleanEntry(k, blank, c.edges, dflt))]
  {
    var d := CleanParameters(c, dflt);
    var expected := m + [(k, CleanEntry(k, blank, c.edges, dflt))];
    forall i | 0 <= i < |expected| ensures d.tree.nodes[i] == expected[i] {
      assert c.tree.nodes[i] == if i < |m| then m[i] else (k, blank);
      if i < |m| {
        CleanEntrySettled(m[i].0, m[i].1, c.edges, dflt);
      }
    }
  }

  /** On dense, settled nodes, `add_node` takes the next id and appends the re-derived entry. */
  lemma AddNodeNext(c: Composition, node: Node, dflt: Defaults)
    requires Dense(c.tree.nodes) && AllSettled(c.tree.nodes) && |c.tree.nodes| < IdLimit
    ensures AddNode(c, node, dflt).Ok? && AddNode(c, node, dflt).value.1 == |c.tree.nodes|
    ensures AddNode(c, node, dflt).value.0.tree ==
      c.tree.(nodes := c.tree.nodes + [(|c.tree.nodes| as NodeId, CleanEntry(|c.tree.nodes| as NodeId, NodeEntry([], node), c.edges, dflt))])
  {
    AddNodeNextId(c, node, dflt);
    var k: NodeId := |c.tree.nodes|;
    AddNodeUnfolds(c, node, dflt);
    AppendedNode(c, k, node);
    CleanAppended(Added(c, k, node), c.tree.nodes, k, NodeEntry([], node), dflt);
  }

  /** `add_node` re-derives the wiring of the composition with the new node registered. */
  lemma AddNodeUnfolds(c: Composition, node: Node, dflt: Defaults)
    requires AddNode(c, node, dflt).Ok?
    ensures AddNode(c, node, dflt).value.0 == CleanParameters(Added(c, AddNode(c, node, dflt).value.1, node), dflt)
  {
  }

  /** On dense nodes, registering the next id appends its entry. */
  lemma AppendedNode(c: Composition, k: NodeId, node: Node)
    requires Dense(c.tree.nodes) && k == |c.tree.nodes|
    ensures Added(c, k, node).tree.nodes == c.tree.nodes + [(k, NodeEntry([], node))]
  {
    InsertAfterAll(c.tree.nodes, k, NodeEntry([], node), IdLess);
  }

  function DefaultBool(dflt: Defaults): TreeInput {
    Fixed(dflt(Bool))
  }

  /** A new NOT node gets the default Boolean at `value`. */
  lemma FreshNot(id: NodeId, edges: EdgeSet, dflt: Defaults)
    ensures CleanEntry(id, NodeEntry([], Not), edges, dflt) == Circuits.NotOf(DefaultBool(dflt))
  {
    assert DropStale(id, [], NotParameters(), edges) == [];
    assert Keys(NotParameters()) == ["value"];
  }

  /** A new AND node gets the default Boolean at `left` and at `right`. */
  lemma FreshAnd(id: NodeId, edges: EdgeSet, dflt: Defaults)
    ensures CleanEntry(id, NodeEntry([], And), edges, dflt) == NodeEntry([("left", DefaultBool(dflt)), ("right", DefaultBool(dflt))], And)
  {
    var f := DefaultBool(dflt);
    assert DropStale(id, [], AndParameters(), edges) == [];
    assert Keys(AndParameters()) == ["left", "right"];
    assert DefaultOf(AndParameters(), "left", dflt) == Some(f);
    assert DefaultOf(AndParameters(), "right", dflt) == Some(f);
    assert !StrLess("right", "left");
    assert Insert([("left", f)], "right", f, StrLess) == [("left", f), ("right", f)];
    assert ["left", "right"][1..] == ["right"];
    assert FillDefaults([("left", f)], [], AndParameters(), ["right"], dflt) == [("left", f), ("right", f)];
  }

  lemma SettledNot(from: TreeInput)
    ensures Settled(Circuits.NotOf(from))
  {
    assert Keys(NotParameters()) == ["value"];
    assert Keys(Circuits.NotOf(from).inputs) == ["value"];
  }

  lemma SettledBinary(left: TreeInput, right: TreeInput)
    ensures Settled(NodeEntry([("left", left), ("right", right)], And))
  {
    assert Keys(AndParameters()) == ["left", "right"];
    assert Keys([("left", left), ("right", right)]) == ["left", "right"];
  }

  /** The four nodes of the OR graph with the given wires: NOT, NOT, AND, NOT at ids 0 to 3. */
  function Stage(a: TreeInput, b: TreeInput, l: TreeInput, r: TreeInput, n: TreeInput): Assoc<NodeId, NodeEntry> {
    [ (0, Circuits.NotOf(a)),
      (1, Circuits.NotOf(b)),
      (2, NodeEntry([("left", l), ("right", r)], And)),
      (3, Circuits.NotOf(n)) ]
  }

  lemma StageSettled(a: TreeInput, b: TreeInput, l: TreeInput, r: TreeInput, n: TreeInput)
    ensures AllSettled(Stage(a, b, l, r, n)) && Dense(Stage(a, b, l, r, n))
  {
    SettledNot(a);
    SettledNot(b);
    SettledBinary(l, r);
    SettledNot(n);
  }

  /** The nodes right after they are added: every port holds the default Boolean. */
  function Unwired(dflt: Defaults): Assoc<NodeId, NodeEntry> {
    var f := DefaultBool(dflt);
    Stage(f, f, f, f, f)
  }

  lemma PrefixSettled(m: Assoc<NodeId, NodeEntry>, k: nat)
    requires AllSettled(m) && Dense(m) && k <= |m|
    ensures AllSettled(m[..k]) && Dense(m[..k])
  {
    assert forall i :: 0 <= i < k ==> m[..k][i] == m[i];
  }

  lemma TakeOneMore<T>(m: seq<T>, k: nat)
    requires k < |m|
    ensures m[..k] + [m[k]] == m[..k + 1]
  {
  }

  /** The re-derived new node is the next node of `Unwired`. */
  lemma FreshStageNode(k: nat, node: Node, edges: EdgeSet, dflt: Defaults)
    requires k < 4 && node == if k == 2 then And else Not
    ensures (k as NodeId, CleanEntry(k as NodeId, NodeEntry([], node), edges, dflt)) == Unwired(dflt)[k]
  {
    if k == 2 {
      FreshAnd(k, edges, dflt);
    } else {
      FreshNot(k, edges, dflt);
    }
  }

  /** The `k`-th `add_node` of the test appends the `k`-th node, every port at its default. */
  lemma AddStageNode(c: Composition, node: Node, dflt: Defaults, k: nat)
    requires k < 4 && c.tree.nodes == Unwired(dflt)[..k]
    requires node == if k == 2 then And else Not
    ensures AddNode(c, node, dflt).Ok? && AddNode(c, node, dflt).value.1 == k
    ensures AddNode(c, node, dflt).value.0.tree == c.tree.(nodes := Unwired(dflt)[..k + 1])
  {
    var f := DefaultBool(dflt);
    StageSettled(f, f, f, f, f);
    PrefixSettled(Unwired(dflt), k);
    AddNodeNext(c, node, dflt);
    FreshStageNode(k, node, c.edges, dflt);
    TakeOneMore(Unwired(dflt), k);
  }

  /** Drawing an edge whose binding keeps every node settled changes the graph by that binding only. */
  lemma AddEdgeSettled(c: Composition, e: Edge, dflt: Defaults)
    requires !e.from.0.OutputComponent? && Removable(c, e)
    requires AllSettled(Bind(c, e.to, ToTreeInput(e.from).value).value.tree.nodes)
    ensures AddEdge(c, e, dflt).Ok?
    ensures AddEdge(c, e, dflt).value.tree == Bind(c, e.to, ToTreeInput(e.from).value).value.tree
  {
    var wired := Bind(c, e.to, ToTreeInput(e.from).value).value;
    CleanTreeSettled(wired.(edges := Insert(wired.edges, e, (), EdgeLess)), dflt);
  }

  /** Node `j` of `nodes` with its `q`-th binding replaced by `input`. */
  function Rewire(nodes: Assoc<NodeId, NodeEntry>, j: nat, q: nat, input: TreeInput): Assoc<NodeId, NodeEntry>
    requires j < |nodes| && q < |nodes[j].1.inputs|
  {
    var entry := nodes[j].1;
    nodes[j := (nodes[j].0, entry.(inputs := entry.inputs[q := (entry.inputs[q].0, input)]))]
  }

  /** Binding port `q` of node `j` of dense nodes replaces that binding in place. */
  lemma BindAt(c: Composition, j: NodeId, q: nat, input: TreeInput)
    requires Dense(c.tree.nodes) && j < |c.tree.nodes| && q < |c.tree.nodes[j].1.inputs|
    requires var inputs := c.tree.nodes[j].1.inputs;
      forall p :: 0 <= p < q ==> inputs[p].0 != inputs[q].0 && !StrLess(inputs[q].0, inputs[p].0)
    ensures Bind(c, (NodeComponent(j), c.tree.nodes[j].1.inputs[q].0), input) ==
      Ok(c.(tree := c.tree.(nodes := Rewire(c.tree.nodes, j, q, input))))
  {
    var entry := c.tree.nodes[j].1;
    var key := entry.inputs[q].0;
    var entry' := entry.(inputs := entry.inputs[q := (key, input)]);
    GetFirst(c.tree.nodes, j);
    var inserted := entry.(inputs := Insert(entry.inputs, key, input, StrLess));
    BindNode(c, j, key, input, entry);
    InsertExisting(entry.inputs, key, input, StrLess, q);
    assert inserted == entry';
    assert forall p :: 0 <= p < j ==> c.tree.nodes[p].0 != j && !IdLess(j, c.tree.nodes[p].0);
    InsertExisting(c.tree.nodes, j, entry', IdLess, j);
  }

  /** Binding a port of an existing node re-inserts its entry with the new binding. */
  lemma BindNode(c: Composition, id: NodeId, key: string, input: TreeInput, entry: NodeEntry)
    requires Get(c.tree.nodes, id) == Some(entry)
    ensures Bind(c, (NodeComponent(id), key), input) ==
      Ok(c.(tree := c.tree.(nodes := Insert(c.tree.nodes, id, entry.(inputs := Insert(entry.inputs, key, input, StrLess)), IdLess))))
  {
  }

  /** In dense nodes the entry for id `j` is the one at position `j`. */
  lemma {:induction false} GetFirst(m: Assoc<NodeId, NodeEntry>, j: NodeId)
    requires Dense(m) && j < |m|
    ensures Get(m, j) == Some(m[j].1)
  {
    GetShifted(m, j, 0);
  }

  lemma {:induction false} GetShifted(m: Assoc<NodeId, NodeEntry>, j: NodeId, s: nat)
    requires forall i :: 0 <= i < |m| ==> m[i].0 == i + s
    requires s <= j < |m| + s
    ensures Get(m, j) == Some(m[j - s].1)
    decreases |m|
  {
    if j > s {
      assert m[0].0 != j;
      GetShifted(m[1..], j, s + 1);
    }
  }

  /**
   * Drawing an edge into port `q` of node `j` of dense nodes rewires that
   * port alone, when the rewired nodes are still settled.
   */
  lemma DrawNodeEdge(c: Composition, e: Edge, dflt: Defaults, q: nat)
    requires !e.from.0.OutputComponent? && e.to.0.NodeComponent?
    requires Dense(c.tree.nodes) && e.to.0.id < |c.tree.nodes|
    requires var inputs := c.tree.nodes[e.to.0.id].1.inputs;
      && q < |inputs| && inputs[q].0 == e.to.1
      && forall p :: 0 <= p < q ==> inputs[p].0 != e.to.1 && !StrLess(e.to.1, inputs[p].0)
    requires AllSettled(Rewire(c.tree.nodes, e.to.0.id, q, ToTreeInput(e.from).value))
    ensures AddEdge(c, e, dflt).Ok?
    ensures AddEdge(c, e, dflt).value.tree == c.tree.(nodes := Rewire(c.tree.nodes, e.to.0.id, q, ToTreeInput(e.from).value))
  {
    DenseHasNode(c, e.to.0.id);
    BindAt(c, e.to.0.id, q, ToTreeInput(e.from).value);
    AddEdgeSettled(c, e, dflt);
  }

  /** Drawing an edge into a graph return of settled nodes binds that return alone. */
  lemma DrawOutputEdge(c: Composition, e: Edge, dflt: Defaults)
    requires !e.from.0.OutputComponent? && e.to.0.OutputComponent?
    requires AllSettled(c.tree.nodes)
    ensures AddEdge(c, e, dflt).Ok?
    ensures AddEdge(c, e, dflt).value.tree ==
      c.tree.(outputs := Insert(c.tree.outputs, e.to.1, ToTreeInput(e.from).value, StrLess))
  {
    AddEdgeSettled(c, e, dflt);
  }

  /** The graph of the test before any node is added: `new("or")` with its parameters and return declared. */
  function Declared(): Composition {
    var c := New("or");
    var c' := SetParameters(c, Insert(Insert(c.tree.parameters, "left", (Immutable, Bool), StrLess), "right", (Immutable, Bool), StrLess));
    SetReturns(c', Insert(c'.tree.returnTypes, "result", Bool, StrLess))
  }

  /** `add_node` of each node in turn, collecting the returned ids. */
  function AddNodes(c: Composition, nodes: seq<Node>, dflt: Defaults): (r: Result<(Composition, seq<NodeId>)>)
    ensures r.Ok? ==> |r.value.1| == |nodes|
    decreases |nodes|
  {
    if |nodes| == 0 then Ok((c, []))
    else
      var first :- AddNode(c, nodes[0], dflt);
      var rest :- AddNodes(first.0, nodes[1..], dflt);
      Ok((rest.0, [first.1] + rest.1))
  }

  /** The nodes the test adds, in order. */
  function OrKinds(): seq<Node> {
    [Not, Not, And, Not]
  }

  /** `add_edge` of each edge in turn. */
  function AddEdges(c: Composition, es: seq<Edge>, dflt: Defaults): Result<Composition>
    decreases |es|
  {
    if |es| == 0 then Ok(c)
    else
      var d :- AddEdge(c, es[0], dflt);
      AddEdges(d, es[1..], dflt)
  }

  /** The six edges of the test, between the nodes with the given ids (NOT, NOT, AND, NOT). */
  function OrEdges(ids: seq<NodeId>): seq<Edge>
    requires |ids| == 4
  {
    var leftNot, rightNot, conj, neg := ids[0], ids[1], ids[2], ids[3];
    [ Edge((InputComponent, "left"), (NodeComponent(leftNot), "value")),
      Edge((InputComponent, "right"), (NodeComponent(rightNot), "value")),
      Edge((NodeComponent(leftNot), "result"), (NodeComponent(conj), "left")),
      Edge((NodeComponent(rightNot), "result"), (NodeComponent(conj), "right")),
      Edge((NodeComponent(conj), "result"), (NodeComponent(neg), "value")),
      Edge((NodeComponent(neg), "result"), (OutputComponent, "result")) ]
  }

  /** The edit sequence of the test: declare, add the nodes, draw the edges using the returned ids. */
  function BuildOr(dflt: Defaults): Result<Composition> {
    var added :- AddNodes(Declared(), OrKinds(), dflt);
    AddEdges(added.0, OrEdges(added.1), dflt)
  }

  lemma DeclaredShape()
    ensures Declared().tree == NodeTree("or", AndParameters(), BoolResult(), [], [])
  {
    var f := (Immutable, Bool);
    assert Insert([], "left", f, StrLess) == [("left", f)];
    InsertAfterAll([("left", f)], "right", f, StrLess);
    assert Insert([], "result", Bool, StrLess) == [("result", Bool)];
  }

  /** The `k`-th `add_node` of the test, on the graph holding the first `k` unwired nodes. */
  lemma AddOrNode(c: Composition, node: Node, dflt: Defaults, k: nat)
    requires k < 4 && c.tree == NodeTree("or", AndParameters(), BoolResult(), Unwired(dflt)[..k], [])
    requires node == if k == 2 then And else Not
    ensures AddNode(c, node, dflt).Ok? && AddNode(c, node, dflt).value.1 == k
    ensures AddNode(c, node, dflt).value.0.tree == NodeTree("or", AndParameters(), BoolResult(), Unwired(dflt)[..k + 1], [])
  {
    AddStageNode(c, node, dflt, k);
  }

  lemma AddOrNodeStep(c: Composition, dflt: Defaults, k: nat)
    requires k < 4 && c.tree == NodeTree("or", AndParameters(), BoolResult(), Unwired(dflt)[..k], [])
    ensures var kinds := OrKinds()[k..];
      && |kinds| > 0 && kinds[1..] == OrKinds()[k + 1..]
      && AddNode(c, kinds[0], dflt).Ok? && AddNode(c, kinds[0], dflt).value.1 == k
      && AddNode(c, kinds[0], dflt).value.0.tree == NodeTree("or", AndParameters(), BoolResult(), Unwired(dflt)[..k + 1], [])
  {
    DropCons(OrKinds(), k);
    OrKindAt(k);
    AddOrNode(c, OrKinds()[k], dflt, k);
  }

  /** The remaining `add_node`s of the test add the remaining unwired nodes at the next ids. */
  lemma {:induction false} AddsOrNodesFrom(c: Composition, dflt: Defaults, k: nat)
    requires k <= 4 && c.tree == NodeTree("or", AndParameters(), BoolResult(), Unwired(dflt)[..k], [])
    ensures var r := AddNodes(c, OrKinds()[k..], dflt);
      && r.Ok? && |r.value.1| == 4 - k && (forall i :: 0 <= i < 4 - k ==> r.value.1[i] == k + i)
      && r.value.0.tree == NodeTree("or", AndParameters(), BoolResult(), Unwired(dflt), [])
    decreases 4 - k
  {
    if k == 4 {
      FullStage(dflt);
    } else {
      var kinds := OrKinds()[k..];
      AddOrNodeStep(c, dflt, k);
      var first := AddNode(c, kinds[0], dflt).value;
      AddsOrNodesFrom(first.0, dflt, k + 1);
      AddNodesFrom(c, kinds, dflt, k);
    }
  }

  lemma DropCons<T>(s: seq<T>, k: nat)
    requires k < |s|
    ensures s[k..][0] == s[k] && s[k..][1..] == s[k + 1..]
  {
  }

  lemma OrKindAt(k: nat)
    requires k < 4
    ensures OrKinds()[k] == if k == 2 then And else Not
  {
  }

  /** `add_node` of a non-empty list: the first node, then the rest. */
  lemma AddNodesCons(c: Composition, nodes: seq<Node>, dflt: Defaults)
    requires |nodes| > 0 && AddNode(c, nodes[0], dflt).Ok?
    requires AddNodes(AddNode(c, nodes[0], dflt).value.0, nodes[1..], dflt).Ok?
    ensures var first := AddNode(c, nodes[0], dflt).value;
      var rest := AddNodes(first.0, nodes[1..], dflt).value;
      AddNodes(c, nodes, dflt) == Ok((rest.0, [first.1] + rest.1))
  {
  }

  /** If the rest of the list lands at consecutive ids after the first node's id `k`, the whole list lands from `k`. */
  lemma AddNodesFrom(c: Composition, nodes: seq<Node>, dflt: Defaults, k: nat)
    requires |nodes| > 0 && AddNode(c, nodes[0], dflt).Ok? && AddNode(c, nodes[0], dflt).value.1 == k
    requires var rest := AddNodes(AddNode(c, nodes[0], dflt).value.0, nodes[1..], dflt);
      rest.Ok? && forall i :: 0 <= i < |rest.value.1| ==> rest.value.1[i] == k + 1 + i
    ensures var rest := AddNodes(AddNode(c, nodes[0], dflt).value.0, nodes[1..], dflt);
      var r := AddNodes(c, nodes, dflt);
      && r.Ok? && r.value.0 == rest.value.0
      && forall i :: 0 <= i < |r.value.1| ==> r.value.1[i] == k + i
  {
    AddNodesCons(c, nodes, dflt);
    var first := AddNode(c, nodes[0], dflt).value;
    ConsecutiveIds(first.1, AddNodes(first.0, nodes[1..], dflt).value.1);
  }

  lemma ConsecutiveIds(first: NodeId, rest: seq<NodeId>)
    requires forall i :: 0 <= i < |rest| ==> rest[i] == first + 1 + i
    ensures forall i :: 0 <= i < |rest| + 1 ==> ([first] + rest)[i] == first + i
  {
    forall i | 0 <= i < |rest| + 1
      ensures ([first] + rest)[i] == first + i
    {
      if i > 0 {
        assert ([first] + rest)[i] == rest[i - 1];
      }
    }
  }

  /** The four `add_node`s of the test add NOT, NOT, AND, NOT at ids 0 to 3, all unwired. */
  lemma AddsOrNodes(dflt: Defaults)
    ensures var r := AddNodes(Declared(), OrKinds(), dflt);
      && r.Ok? && |r.value.1| == 4 && (forall i :: 0 <= i < 4 ==> r.value.1[i] == i)
      && r.value.0.tree == NodeTree("or", AndParameters(), BoolResult(), Unwired(dflt), [])
  {
    DeclaredShape();
    AddsOrNodesFrom(Declared(), dflt, 0);
  }

  lemma FullStage(dflt: Defaults)
    ensures Unwired(dflt)[..4] == Unwired(dflt)
  {
  }

  /** What the `k`-th node-port edge of the test binds. */
  function FinalWire(k: nat): TreeInput
    requires k < 5
  {
    [Parameter("left"), Parameter("right"), NodeOutput(0, "result"), NodeOutput(1, "result"), NodeOutput(2, "result")][k]
  }

  /** Node port `i` after the first `k` edges: its final wire once drawn, the default before. */
  function Wire(k: nat, i: nat, dflt: Defaults): TreeInput
    requires i < 5
  {
    if i < k then FinalWire(i) else DefaultBool(dflt)
  }

  /** The graph after the first `k` of the six edges. */
  function TreeAfter(k: nat, dflt: Defaults): NodeTree {
    NodeTree("or", AndParameters(), BoolResult(), StageAt(k, dflt), if k < 6 then [] else [("result", NodeOutput(3, "result"))])
  }

  /** The node and the port position the `k`-th node-port edge of the test leads to. */
  function PortNode(k: nat): NodeId
    requires k < 5
  {
    [0, 1, 2, 2, 3][k]
  }

  function PortSlot(k: nat): nat {
    if k == 3 then 1 else 0
  }

  function StageAt(k: nat, dflt: Defaults): Assoc<NodeId, NodeEntry> {
    Stage(Wire(k, 0, dflt), Wire(k, 1, dflt), Wire(k, 2, dflt), Wire(k, 3, dflt), Wire(k, 4, dflt))
  }

  /** Rewiring the port of a NOT node makes it the NOT of the new wire. */
  lemma RewireNot(nodes: Assoc<NodeId, NodeEntry>, j: nat, x: TreeInput, input: TreeInput)
    requires j < |nodes| && nodes[j].1 == Circuits.NotOf(x)
    ensures Rewire(nodes, j, 0, input) == nodes[j := (nodes[j].0, Circuits.NotOf(input))]
  {
    assert [("value", x)][0 := ("value", input)] == [("value", input)];
  }

  /** Rewiring a port of the AND node. */
  lemma RewireAnd(nodes: Assoc<NodeId, NodeEntry>, j: nat, l: TreeInput, r: TreeInput, q: nat, input: TreeInput)
    requires j < |nodes| && nodes[j].1 == NodeEntry([("left", l), ("right", r)], And) && q < 2
    ensures Rewire(nodes, j, q, input) ==
      nodes[j := (nodes[j].0, NodeEntry(if q == 0 then [("left", input), ("right", r)] else [("left", l), ("right", input)], And))]
  {
    if q == 0 {
      assert [("left", l), ("right", r)][0 := ("left", input)] == [("left", input), ("right", r)];
    } else {
      assert [("left", l), ("right", r)][1 := ("right", input)] == [("left", l), ("right", input)];
    }
  }

  /** Drawing the `k`-th node-port edge rewires one port of the stage. */
  lemma RewireStage(k: nat, dflt: Defaults)
    requires k < 5
    ensures PortSlot(k) < |StageAt(k, dflt)[PortNode(k)].1.inputs|
    ensures Rewire(StageAt(k, dflt), PortNode(k), PortSlot(k), FinalWire(k)) == StageAt(k + 1, dflt)
  {
    var f := DefaultBool(dflt);
    var w := [Parameter("left"), Parameter("right"), NodeOutput(0, "result"), NodeOutput(1, "result"), NodeOutput(2, "result")];
    if k == 0 {
      assert StageAt(0, dflt) == Stage(f, f, f, f, f);
      assert StageAt(1, dflt) == Stage(w[0], f, f, f, f);
      RewireNot(Stage(f, f, f, f, f), 0, f, w[0]);
    } else if k == 1 {
      assert StageAt(1, dflt) == Stage(w[0], f, f, f, f);
      assert StageAt(2, dflt) == Stage(w[0], w[1], f, f, f);
      RewireNot(Stage(w[0], f, f, f, f), 1, f, w[1]);
    } else if k == 2 {
      assert StageAt(2, dflt) == Stage(w[0], w[1], f, f, f);
      assert StageAt(3, dflt) == Stage(w[0], w[1], w[2], f, f);
      RewireAnd(Stage(w[0], w[1], f, f, f), 2, f, f, 0, w[2]);
    } else if k == 3 {
      assert StageAt(3, dflt) == Stage(w[0], w[1], w[2], f, f);
      assert StageAt(4, dflt) == Stage(w[0], w[1], w[2], w[3], f);
      RewireAnd(Stage(w[0], w[1], w[2], f, f), 2, w[2], f, 1, w[3]);
    } else {
      assert StageAt(4, dflt) == Stage(w[0], w[1], w[2], w[3], f);
      assert StageAt(5, dflt) == Stage(w[0], w[1], w[2], w[3], w[4]);
      RewireNot(Stage(w[0], w[1], w[2], w[3], f), 3, f, w[4]);
    }
  }

  /** The `k`-th node-port `add_edge` of the test rewires exactly its destination port. */
  lemma DrawPortEdge(c: Composition, dflt: Defaults, k: nat)
    requires k < 5 && c.tree == TreeAfter(k, dflt)
    ensures AddEdge(c, OrEdges([0, 1, 2, 3])[k], dflt).Ok?
    ensures AddEdge(c, OrEdges([0, 1, 2, 3])[k], dflt).value.tree == TreeAfter(k + 1, dflt)
  {
    var e := OrEdges([0, 1, 2, 3])[k];
    assert e.to.0 == NodeComponent(PortNode(k)) && ToTreeInput(e.from).value == FinalWire(k);
    RewireStage(k, dflt);
    StageSettled(Wire(k + 1, 0, dflt), Wire(k + 1, 1, dflt), Wire(k + 1, 2, dflt), Wire(k + 1, 3, dflt), Wire(k + 1, 4, dflt));
    StageSettled(Wire(k, 0, dflt), Wire(k, 1, dflt), Wire(k, 2, dflt), Wire(k, 3, dflt), Wire(k, 4, dflt));
    assert !StrLess("right", "left");
    DrawNodeEdge(c, e, dflt, PortSlot(k));
  }

  /** The last `add_edge` of the test binds the graph's return to the last NOT. */
  lemma DrawResultEdge(c: Composition, dflt: Defaults)
    requires c.tree == TreeAfter(5, dflt)
    ensures AddEdge(c, OrEdges([0, 1, 2, 3])[5], dflt).Ok?
    ensures AddEdge(c, OrEdges([0, 1, 2, 3])[5], dflt).value.tree == TreeAfter(6, dflt)
  {
    var e := OrEdges([0, 1, 2, 3])[5];
    StageSettled(Wire(5, 0, dflt), Wire(5, 1, dflt), Wire(5, 2, dflt), Wire(5, 3, dflt), Wire(5, 4, dflt));
    DrawOutputEdge(c, e, dflt);
    assert Insert([], "result", NodeOutput(3, "result"), StrLess) == [("result", NodeOutput(3, "result"))];
  }

  /** `add_edge` of a non-empty list: the first edge, then the rest. */
  lemma AddEdgesCons(c: Composition, es: seq<Edge>, dflt: Defaults)
    requires |es| > 0 && AddEdge(c, es[0], dflt).Ok?
    ensures AddEdges(c, es, dflt) == AddEdges(AddEdge(c, es[0], dflt).value, es[1..], dflt)
  {
  }

  /** The remaining `add_edge`s of the test complete the OR graph. */
  lemma {:induction false} DrawsOrEdgesFrom(c: Composition, dflt: Defaults, k: nat)
    requires k <= 6 && c.tree == TreeAfter(k, dflt)
    ensures AddEdges(c, OrEdges([0, 1, 2, 3])[k..], dflt).Ok?
    ensures AddEdges(c, OrEdges([0, 1, 2, 3])[k..], dflt).value.tree == TreeAfter(6, dflt)
    decreases 6 - k
  {
    var es := OrEdges([0, 1, 2, 3])[k..];
    if k < 6 {
      DropCons(OrEdges([0, 1, 2, 3]), k);
      if k == 5 {
        DrawResultEdge(c, dflt);
      } else {
        DrawPortEdge(c, dflt, k);
      }
      AddEdgesCons(c, es, dflt);
      DrawsOrEdgesFrom(AddEdge(c, es[0], dflt).value, dflt, k + 1);
    }
  }

  lemma FinishedStages(dflt: Defaults)
    ensures TreeAfter(0, dflt) == NodeTree("or", AndParameters(), BoolResult(), Unwired(dflt), [])
    ensures TreeAfter(6, dflt) == Circuits.OrTree()
  {
    assert StageAt(0, dflt) == Unwired(dflt);
  }

  /** The editing steps of the test succeed and produce exactly the OR graph. */
  lemma BuildsOrTree(dflt: Defaults)
    ensures BuildOr(dflt).Ok? && BuildOr(dflt).value.tree == Circuits.OrTree()
  {
    AddsOrNodes(dflt);
    var added := AddNodes(Declared(), OrKinds(), dflt).value;
    OrEdgesOfIds(added.1);
    FinishedStages(dflt);
    DrawsOrEdgesFrom(added.0, dflt, 0);
    assert OrEdges([0, 1, 2, 3])[0..] == OrEdges([0, 1, 2, 3]);
  }

  /** The edges depend only on the ids. */
  lemma OrEdgesOfIds(ids: seq<NodeId>)
    requires |ids| == 4 && forall i :: 0 <= i < 4 ==> ids[i] == i
    ensures OrEdges(ids) == OrEdges([0, 1, 2, 3])
  {
    assert ids[0] == 0 && ids[1] == 1 && ids[2] == 2 && ids[3] == 3;
  }

  /** The inputs of the test, `left` and `right`. */
  function OrInputs(a: bool, b: bool): Assoc<string, TypedValue> {
    [("left", BoolValue(a)), ("right", BoolValue(b))]
  }

  /** Evaluating any composition whose graph is the OR graph gives `left || right`. */
  lemma OrTreeEvaluates(c: Composition, a: bool, b: bool)
    requires c.tree == Circuits.OrTree()
    ensures Evaluate(c, OrInputs(a, b)) == Ok([("result", BoolValue(a || b))])
  {
    OrInputValues(a, b);
    Circuits.OrTreeComputesOr(a, b);
    var r := Evaluate(c, OrInputs(a, b)).value;
    assert Keys(BoolResult()) == ["result"];
    SingleEntry(r, "result", BoolValue(a || b));
  }

  lemma OrInputValues(a: bool, b: bool)
    ensures Values(OrInputs(a, b)) == Circuits.Bools(a, b)
  {
    assert Values(OrInputs(a, b))[0] == BoolValue(a);
  }

  lemma SingleEntry<K, V>(m: Assoc<K, V>, k: K, v: V)
    requires Keys(m) == [k] && Values(m) == [v]
    ensures m == [(k, v)]
  {
    assert |m| == |Keys(m)| == 1;
    assert m[0].0 == Keys(m)[0] && m[0].1 == Values(m)[0];
  }

  /** The four assertions of the test: evaluating the built graph gives `left || right` at `result`. */
  lemma OrCompositionComputesOr(dflt: Defaults, a: bool, b: bool)
    ensures BuildOr(dflt).Ok?
    ensures Evaluate(BuildOr(dflt).value, OrInputs(a, b)) == Ok([("result", BoolValue(a || b))])
  {
    BuildsOrTree(dflt);
    OrTreeEvaluates(BuildOr(dflt).value, a, b);
  }
}
