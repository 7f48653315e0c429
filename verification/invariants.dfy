/**
 * What the editor keeps true from one edit to the next
 * (tellur_core/src/composition/mod.rs). Three facts hold of every
 * composition reachable from `new` by the editing operations:
 *   - every wire (a binding that is not a constant) was drawn by an edge
 *     that is still in the edge set;
 *   - every edge leads to the Output component or to a node that exists;
 *   - the placed components are exactly the nodes.
 * The converse of the first does not hold: `add_edge` into a port that is
 * already wired replaces the binding and keeps the old edge.
 */
module EditorInvariants {
  import opened Wrappers
  import opened SortedMap
  import opened Types
  import opened Tree
  import opened Composition

  /** Every wire at a port was drawn by an edge of the edge set. */
  ghost predicate Wired(c: Composition) {
    forall comp, key :: Binding(c, comp, key).Some? && !Binding(c, comp, key).value.Fixed? ==>
      HasEdge(c, EdgeFor(comp, key, Binding(c, comp, key).value).value)
  }

  /** The placed components are exactly the nodes of the graph. */
  ghost predicate Placed(c: Composition) {
    forall comp :: comp in c.placements <==> comp.NodeComponent? && HasNode(c, comp.id)
  }

  ghost predicate Invariant(c: Composition) {
    Wired(c) && Targets(c) && Placed(c)
  }

  // ---------------------------------------------------------------------------
  // clean_parameters
  // ---------------------------------------------------------------------------

  /** A wire left after re-deriving was there before. */
  lemma CleanWireWasThere(c: Composition, dflt: Defaults, comp: ComponentId, key: string)
    requires Binding(CleanParameters(c, dflt), comp, key).Some?
    requires !Binding(CleanParameters(c, dflt), comp, key).value.Fixed?
    ensures Binding(c, comp, key) == Binding(CleanParameters(c, dflt), comp, key)
  {
    CleanBinding(c, dflt, comp, key);
  }

  /** Re-deriving keeps every wire's edge: the edges it drops only drew bindings it drops too. */
  lemma CleanKeepsWired(c: Composition, dflt: Defaults)
    requires Wired(c)
    ensures Wired(CleanParameters(c, dflt))
  {
    var d := CleanParameters(c, dflt);
    forall comp, key | Binding(d, comp, key).Some? && !Binding(d, comp, key).value.Fixed?
      ensures HasEdge(d, EdgeFor(comp, key, Binding(d, comp, key).value).value)
    {
      CleanWireWasThere(c, dflt, comp, key);
      var e := EdgeFor(comp, key, Binding(d, comp, key).value).value;
      CleanEdges(c, dflt, e);
      if comp.NodeComponent? {
        assert NodeOf(d, comp.id) == NodeOf(c, comp.id);
        CleanBinding(c, dflt, comp, key);
      }
    }
  }

  /** After re-deriving, every declared immutable parameter is bound: to what it had, or to its default. */
  lemma CleanFillsDefaults(c: Composition, dflt: Defaults, id: NodeId, key: string)
    requires HasNode(c, id) && DefaultOf(ParamsOf(c, id), key, dflt).Some?
    ensures Binding(CleanParameters(c, dflt), NodeComponent(id), key) ==
      if Binding(c, NodeComponent(id), key).Some? then Binding(c, NodeComponent(id), key) else DefaultOf(ParamsOf(c, id), key, dflt)
  {
    CleanBinding(c, dflt, NodeComponent(id), key);
  }

  /** On a wired composition, re-deriving leaves no binding for a name the node does not declare. */
  lemma CleanDropsUndeclared(c: Composition, dflt: Defaults, id: NodeId, key: string)
    requires Wired(c) && Get(ParamsOf(c, id), key).None?
    ensures Binding(CleanParameters(c, dflt), NodeComponent(id), key) == None
  {
    CleanBinding(c, dflt, NodeComponent(id), key);
    var b := Binding(c, NodeComponent(id), key);
    if b.Some? && !b.value.Fixed? {
      assert HasEdge(c, EdgeFor(NodeComponent(id), key, b.value).value);
    }
  }

  /** A wire that re-deriving keeps at an undeclared name is one no edge of the set draws. */
  lemma RederivedUndeclared(c: Composition, id: NodeId, key: string, dflt: Defaults)
    requires Get(ParamsOf(c, id), key).None? && Rederived(c, id, key, dflt).Some?
    ensures !Rederived(c, id, key, dflt).value.Fixed?
    ensures !HasEdge(c, EdgeFor(NodeComponent(id), key, Rederived(c, id, key, dflt).value).value)
  {
  }

  /** No edge that re-deriving keeps is one it would drop. */
  lemma CleanLeavesNoStaleEdge(c: Composition, dflt: Defaults, e: Edge)
    ensures var d := CleanParameters(c, dflt); HasEdge(d, e) ==> !StaleEdge(d, e)
  {
    var d := CleanParameters(c, dflt);
    if HasEdge(d, e) && e.to.0.NodeComponent? {
      var id := e.to.0.id;
      CleanEdges(c, dflt, e);
      CleanBinding(c, dflt, e.to.0, e.to.1);
      assert ParamsOf(d, id) == ParamsOf(c, id) by {
        assert NodeOf(d, id) == NodeOf(c, id);
      }
      if Get(ParamsOf(c, id), e.to.1).None? && Rederived(c, id, e.to.1, dflt).Some? {
        RederivedUndeclared(c, id, e.to.1, dflt);
      }
    }
  }

  /** Re-deriving a node entry a second time, against fewer edges, changes nothing. */
  lemma CleanEntryTwice(id: NodeId, entry: NodeEntry, edges: EdgeSet, edges': EdgeSet, dflt: Defaults)
    requires forall e :: Get(edges', e).Some? ==> Get(edges, e).Some?
    ensures CleanEntry(id, CleanEntry(id, entry, edges, dflt), edges', dflt) == CleanEntry(id, entry, edges, dflt)
  {
    var once := CleanEntry(id, entry, edges, dflt);
    var params := NodeParameters(entry.node);
    var inputs := once.inputs;
    forall j | 0 <= j < |inputs|
      ensures !(Get(inputs, inputs[j].0).Some? && Stale(params, id, inputs[j].0, Get(inputs, inputs[j].0).value, edges'))
    {
      var k := inputs[j].0;
      assert Keys(inputs)[j] == k;
      CleanEntryAt(id, entry, edges, k, dflt);
    }
    assert DropStale(id, inputs, params, edges') == inputs;
    forall k | k in Keys(params) && DefaultOf(params, k, dflt).Some?
      ensures Get(inputs, k).Some?
    {
      CleanEntryAt(id, entry, edges, k, dflt);
    }
  }

  /** `clean_parameters` is idempotent: a second pass finds nothing to do. */
  lemma CleanIdempotent(c: Composition, dflt: Defaults)
    ensures CleanParameters(CleanParameters(c, dflt), dflt) == CleanParameters(c, dflt)
  {
    var d := CleanParameters(c, dflt);
    forall i | 0 <= i < |d.tree.nodes|
      ensures CleanEntry(d.tree.nodes[i].0, d.tree.nodes[i].1, d.edges, dflt) == d.tree.nodes[i].1
    {
      CleanEntryTwice(c.tree.nodes[i].0, c.tree.nodes[i].1, c.edges, d.edges, dflt);
    }
    forall i | 0 <= i < |d.edges|
      ensures !StaleEdge(d, d.edges[i].0)
    {
      assert Keys(d.edges)[i] == d.edges[i].0;
      CleanLeavesNoStaleEdge(c, dflt, d.edges[i].0);
    }
  }

  // ---------------------------------------------------------------------------
  // Transfer of the invariants
  // ---------------------------------------------------------------------------

  /** Edge targets carry over to a composition with the same nodes and no new edges. */
  lemma TargetsTransfer(c: Composition, d: Composition)
    requires Targets(c) && SameNodes(c, d) && SubEdges(d, c)
    ensures Targets(d)
  {
    forall e | HasEdge(d, e) ensures Removable(d, e) {
      assert HasEdge(c, e);
      if e.to.0.NodeComponent? {
        assert NodeOf(d, e.to.0.id) == NodeOf(c, e.to.0.id);
      }
    }
  }

  /** Placements carry over to a composition with the same nodes and the same placements. */
  lemma PlacedTransfer(c: Composition, d: Composition)
    requires Placed(c) && SameNodes(c, d) && d.placements == c.placements
    ensures Placed(d)
  {
    forall comp ensures comp in d.placements <==> comp.NodeComponent? && HasNode(d, comp.id) {
      if comp.NodeComponent? {
        assert NodeOf(d, comp.id) == NodeOf(c, comp.id);
      }
    }
  }

  /** Registering a node adds an unbound component and leaves every other binding. */
  lemma AddedBinding(c: Composition, id: NodeId, node: Node, comp: ComponentId, key: string)
    ensures Binding(Added(c, id, node), comp, key) == if comp == NodeComponent(id) then None else Binding(c, comp, key)
  {
  }

  /** Dropping a node drops its bindings and leaves every other binding. */
  lemma DetachBinding(c: Composition, id: NodeId, comp: ComponentId, key: string)
    ensures Binding(Detach(c, id), comp, key) == if comp == NodeComponent(id) then None else Binding(c, comp, key)
  {
  }

  // ---------------------------------------------------------------------------
  // Each edit keeps the invariant
  // ---------------------------------------------------------------------------

  lemma AddEdgeKeepsWired(c: Composition, e: Edge, dflt: Defaults)
    requires Wired(c) && AddEdge(c, e, dflt).Ok?
    ensures Wired(AddEdge(c, e, dflt).value)
  {
    DrawnWired(c, e);
    CleanKeepsWired(Drawn(c, e), dflt);
  }

  /** `add_edge` before the wiring is re-derived: the port bound and the edge recorded. */
  function Drawn(c: Composition, e: Edge): Composition
    requires !e.from.0.OutputComponent? && Bind(c, e.to, ToTreeInput(e.from).value).Ok?
  {
    var wired := Bind(c, e.to, ToTreeInput(e.from).value).value;
    wired.(edges := Insert(wired.edges, e, (), EdgeLess))
  }

  lemma DrawnWired(c: Composition, e: Edge)
    requires Wired(c) && !e.from.0.OutputComponent? && Bind(c, e.to, ToTreeInput(e.from).value).Ok?
    ensures Wired(Drawn(c, e))
  {
    var input := ToTreeInput(e.from).value;
    var drawn := Drawn(c, e);
    forall comp, key | Binding(drawn, comp, key).Some? && !Binding(drawn, comp, key).value.Fixed?
      ensures HasEdge(drawn, EdgeFor(comp, key, Binding(drawn, comp, key).value).value)
    {
      if (comp, key) == e.to {
        assert EdgeFor(comp, key, input) == Some(e);
      } else {
        assert Binding(drawn, comp, key) == Binding(c, comp, key);
      }
    }
  }

  lemma AddEdgeKeepsTargets(c: Composition, e: Edge, dflt: Defaults)
    requires Targets(c) && AddEdge(c, e, dflt).Ok?
    ensures Targets(AddEdge(c, e, dflt).value)
  {
    var input := ToTreeInput(e.from).value;
    var wired := Bind(c, e.to, input).value;
    var drawn := wired.(edges := Insert(wired.edges, e, (), EdgeLess));
    forall x | HasEdge(drawn, x) ensures Removable(drawn, x) {
      if x.to.0.NodeComponent? {
        assert NodeOf(drawn, x.to.0.id) == NodeOf(c, x.to.0.id);
      }
      if x != e {
        assert HasEdge(c, x);
      }
    }
    TargetsTransfer(drawn, CleanParameters(drawn, dflt));
  }

  lemma RemoveEdgeKeepsWired(c: Composition, e: Edge, dflt: Defaults)
    requires Wired(c) && RemoveEdge(c, e, dflt).Ok?
    ensures Wired(RemoveEdge(c, e, dflt).value)
  {
    var unwired := Unbind(c, e.to).value;
    var erased := unwired.(edges := Remove(unwired.edges, e));
    forall comp, key | Binding(erased, comp, key).Some? && !Binding(erased, comp, key).value.Fixed?
      ensures HasEdge(erased, EdgeFor(comp, key, Binding(erased, comp, key).value).value)
    {
      var x := EdgeFor(comp, key, Binding(erased, comp, key).value).value;
      assert x.to == (comp, key);
      assert HasEdge(c, x);
    }
    CleanKeepsWired(erased, dflt);
  }

  lemma RemoveEdgesKeepsWired(c: Composition, es: seq<Edge>, dflt: Defaults)
    requires Wired(c) && RemoveEdges(c, es, dflt).Ok?
    ensures Wired(RemoveEdges(c, es, dflt).value)
    decreases |es|
  {
    if |es| > 0 {
      RemoveEdgeKeepsWired(c, es[0], dflt);
      RemoveEdgesKeepsWired(RemoveEdge(c, es[0], dflt).value, es[1..], dflt);
    }
  }

  lemma AddNodeKeepsWired(c: Composition, node: Node, dflt: Defaults)
    requires Wired(c) && AddNode(c, node, dflt).Ok?
    ensures Wired(AddNode(c, node, dflt).value.0)
  {
    var added := Added(c, AddNode(c, node, dflt).value.1, node);
    forall comp, key | Binding(added, comp, key).Some? && !Binding(added, comp, key).value.Fixed?
      ensures HasEdge(added, EdgeFor(comp, key, Binding(added, comp, key).value).value)
    {
      AddedBinding(c, AddNode(c, node, dflt).value.1, node, comp, key);
    }
    CleanKeepsWired(added, dflt);
  }

  lemma AddNodeKeepsTargets(c: Composition, node: Node, dflt: Defaults)
    requires Targets(c) && AddNode(c, node, dflt).Ok?
    ensures Targets(AddNode(c, node, dflt).value.0)
  {
    var added := Added(c, AddNode(c, node, dflt).value.1, node);
    forall x | HasEdge(added, x) ensures Removable(added, x) {
      assert HasEdge(c, x);
      if x.to.0.NodeComponent? {
        assert NodeOf(c, x.to.0.id).Some?;
      }
    }
    TargetsTransfer(added, CleanParameters(added, dflt));
  }

  /** Placing one more node that the graph gained keeps placements and nodes in step. */
  lemma PlacedAfterAdding(c: Composition, d: Composition, id: NodeId)
    requires Placed(c) && HasNode(d, id) && d.placements == c.placements + {NodeComponent(id)}
    requires forall n :: n != id ==> NodeOf(d, n) == NodeOf(c, n)
    ensures Placed(d)
  {
    forall comp ensures comp in d.placements <==> comp.NodeComponent? && HasNode(d, comp.id) {
      if comp.NodeComponent? && comp.id != id {
        assert NodeOf(d, comp.id) == NodeOf(c, comp.id);
      }
    }
  }

  lemma AddNodeKeepsPlaced(c: Composition, node: Node, dflt: Defaults)
    requires Placed(c) && AddNode(c, node, dflt).Ok?
    ensures Placed(AddNode(c, node, dflt).value.0)
  {
    PlacedAfterAdding(c, AddNode(c, node, dflt).value.0, AddNode(c, node, dflt).value.1);
  }

  lemma SetValueKeeps(c: Composition, comp: ComponentId, key: string, value: TypedValue)
    requires Invariant(c) && SetValue(c, comp, key, value).Ok?
    ensures Invariant(SetValue(c, comp, key, value).value)
  {
    var d := SetValue(c, comp, key, value).value;
    forall comp', key' | Binding(d, comp', key').Some? && !Binding(d, comp', key').value.Fixed?
      ensures HasEdge(d, EdgeFor(comp', key', Binding(d, comp', key').value).value)
    {
      assert Binding(d, comp', key') == Binding(c, comp', key');
    }
    TargetsTransfer(c, d);
    PlacedTransfer(c, d);
  }

  lemma RemoveNodeFixedKeepsWired(c: Composition, id: NodeId, dflt: Defaults)
    requires Wired(c) && RemoveNodeFixed(c, id, dflt).Ok?
    ensures Wired(RemoveNodeFixed(c, id, dflt).value)
  {
    var pruned := RemoveEdges(c, TouchingEdges(c, id), dflt).value;
    RemoveEdgesKeepsWired(c, TouchingEdges(c, id), dflt);
    var detached := Detach(pruned, id);
    forall comp, key | Binding(detached, comp, key).Some? && !Binding(detached, comp, key).value.Fixed?
      ensures HasEdge(detached, EdgeFor(comp, key, Binding(detached, comp, key).value).value)
    {
      DetachBinding(pruned, id, comp, key);
    }
    CleanKeepsWired(detached, dflt);
  }

  lemma RemoveNodeFixedKeepsTargets(c: Composition, id: NodeId, dflt: Defaults)
    requires Targets(c) && RemoveNodeFixed(c, id, dflt).Ok?
    ensures Targets(RemoveNodeFixed(c, id, dflt).value)
  {
    var d := RemoveNodeFixed(c, id, dflt).value;
    forall x | HasEdge(d, x) ensures Removable(d, x) {
      assert HasEdge(c, x) && !Touches(x, id);
      if x.to.0.NodeComponent? {
        assert NodeOf(d, x.to.0.id) == NodeOf(c, x.to.0.id);
      }
    }
  }

  /** Unplacing a node that the graph lost keeps placements and nodes in step. */
  lemma PlacedAfterRemoving(c: Composition, d: Composition, id: NodeId)
    requires Placed(c) && !HasNode(d, id) && d.placements == c.placements - {NodeComponent(id)}
    requires forall n :: n != id ==> NodeOf(d, n) == NodeOf(c, n)
    ensures Placed(d)
  {
    forall comp ensures comp in d.placements <==> comp.NodeComponent? && HasNode(d, comp.id) {
      if comp.NodeComponent? && comp.id != id {
        assert NodeOf(d, comp.id) == NodeOf(c, comp.id);
      }
    }
  }

  lemma RemoveNodeFixedKeepsPlaced(c: Composition, id: NodeId, dflt: Defaults)
    requires Placed(c) && RemoveNodeFixed(c, id, dflt).Ok?
    ensures Placed(RemoveNodeFixed(c, id, dflt).value)
  {
    PlacedAfterRemoving(c, RemoveNodeFixed(c, id, dflt).value, id);
  }

  lemma AddEdgeKeepsPlaced(c: Composition, e: Edge, dflt: Defaults)
    requires Placed(c) && AddEdge(c, e, dflt).Ok?
    ensures Placed(AddEdge(c, e, dflt).value)
  {
    PlacedTransfer(c, AddEdge(c, e, dflt).value);
  }

  lemma RemoveEdgeKeepsTargets(c: Composition, e: Edge, dflt: Defaults)
    requires Targets(c) && RemoveEdge(c, e, dflt).Ok?
    ensures Targets(RemoveEdge(c, e, dflt).value)
  {
    TargetsTransfer(c, RemoveEdge(c, e, dflt).value);
  }

  lemma RemoveEdgeKeepsPlaced(c: Composition, e: Edge, dflt: Defaults)
    requires Placed(c) && RemoveEdge(c, e, dflt).Ok?
    ensures Placed(RemoveEdge(c, e, dflt).value)
  {
    PlacedTransfer(c, RemoveEdge(c, e, dflt).value);
  }

  /** Replacing the graph's own parameters or returns touches no binding, edge, node or placement. */
  lemma SetSignatureKeeps(c: Composition, params: Parameters, rets: Returns)
    requires Invariant(c)
    ensures Invariant(SetParameters(c, params)) && Invariant(SetReturns(c, rets))
  {
    var d, d' := SetParameters(c, params), SetReturns(c, rets);
    assert forall comp, key :: Binding(d, comp, key) == Binding(c, comp, key) && Binding(d', comp, key) == Binding(c, comp, key);
    TargetsTransfer(c, d);
    TargetsTransfer(c, d');
    PlacedTransfer(c, d);
    PlacedTransfer(c, d');
  }
}
