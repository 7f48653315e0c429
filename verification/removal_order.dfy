/**
 * Removing a node before or after its edges
 * (`remove_node` in tellur_core/src/composition/mod.rs). The code as written
 * drops the node first and then removes each touching edge; the repaired
 * removal does it the other way round. When the code as written does not
 * panic, no edge leads into the node, and then the two orders give the same
 * composition: dropping a node commutes with unbinding another node's port,
 * with removing an edge and with re-deriving the wiring.
 */
module RemovalOrder {
  import opened Wrappers
  import opened Order
  import opened SortedMap
  import opened Types
  import opened Tree
  import opened Composition

  /** The nodes are kept in ascending id order, as in a `BTreeMap`. */
  ghost predicate NodesSorted(c: Composition) {
    Sorted(c.tree.nodes, IdLess)
  }

  /** No edge of `c` leads into node `id`. */
  ghost predicate NoEdgeInto(c: Composition, id: NodeId) {
    forall e :: HasEdge(c, e) ==> e.to.0 != NodeComponent(id)
  }

  // ---------------------------------------------------------------------------
  // Every edit keeps the nodes in id order
  // ---------------------------------------------------------------------------

  lemma CleanSorted(c: Composition, dflt: Defaults)
    requires NodesSorted(c)
    ensures NodesSorted(CleanParameters(c, dflt))
  {
    SortedByKeys(c.tree.nodes, CleanParameters(c, dflt).tree.nodes, IdLess);
  }

  lemma BindSorted(c: Composition, to: Port, input: TreeInput)
    requires NodesSorted(c) && Bind(c, to, input).Ok?
    ensures NodesSorted(Bind(c, to, input).value)
  {
    if to.0.NodeComponent? {
      IdLessIsStrictTotal();
      var entry := Get(c.tree.nodes, to.0.id).value;
      InsertSorted(c.tree.nodes, to.0.id, entry.(inputs := Insert(entry.inputs, to.1, input, StrLess)), IdLess);
    }
  }

  lemma UnbindSorted(c: Composition, to: Port)
    requires NodesSorted(c) && Unbind(c, to).Ok?
    ensures NodesSorted(Unbind(c, to).value)
  {
    if to.0.NodeComponent? {
      IdLessIsStrictTotal();
      var entry := Get(c.tree.nodes, to.0.id).value;
      InsertSorted(c.tree.nodes, to.0.id, entry.(inputs := Remove(entry.inputs, to.1)), IdLess);
    }
  }

  lemma AddEdgeSorted(c: Composition, e: Edge, dflt: Defaults)
    requires NodesSorted(c) && AddEdge(c, e, dflt).Ok?
    ensures NodesSorted(AddEdge(c, e, dflt).value)
  {
    var input := ToTreeInput(e.from).value;
    BindSorted(c, e.to, input);
    var wired := Bind(c, e.to, input).value;
    CleanSorted(wired.(edges := Insert(wired.edges, e, (), EdgeLess)), dflt);
  }

  lemma RemoveEdgeSorted(c: Composition, e: Edge, dflt: Defaults)
    requires NodesSorted(c) && RemoveEdge(c, e, dflt).Ok?
    ensures NodesSorted(RemoveEdge(c, e, dflt).value)
  {
    UnbindSorted(c, e.to);
    var unwired := Unbind(c, e.to).value;
    CleanSorted(unwired.(edges := Remove(unwired.edges, e)), dflt);
  }

  lemma {:induction false} RemoveEdgesSorted(c: Composition, es: seq<Edge>, dflt: Defaults)
    requires NodesSorted(c) && RemoveEdges(c, es, dflt).Ok?
    ensures NodesSorted(RemoveEdges(c, es, dflt).value)
    decreases |es|
  {
    if |es| > 0 {
      RemoveEdgeSorted(c, es[0], dflt);
      RemoveEdgesSorted(RemoveEdge(c, es[0], dflt).value, es[1..], dflt);
    }
  }

  lemma DetachSorted(c: Composition, id: NodeId)
    requires NodesSorted(c)
    ensures NodesSorted(Detach(c, id))
  {
    RemoveSorted(c.tree.nodes, id, IdLess);
  }

  lemma RemoveNodeFixedSorted(c: Composition, id: NodeId, dflt: Defaults)
    requires NodesSorted(c) && RemoveNodeFixed(c, id, dflt).Ok?
    ensures NodesSorted(RemoveNodeFixed(c, id, dflt).value)
  {
    RemoveEdgesSorted(c, TouchingEdges(c, id), dflt);
    var pruned := RemoveEdges(c, TouchingEdges(c, id), dflt).value;
    DetachSorted(pruned, id);
    CleanSorted(Detach(pruned, id), dflt);
  }

  lemma AddNodeSorted(c: Composition, node: Node, dflt: Defaults)
    requires NodesSorted(c) && AddNode(c, node, dflt).Ok?
    ensures NodesSorted(AddNode(c, node, dflt).value.0)
  {
    var id := AddNode(c, node, dflt).value.1;
    IdLessIsStrictTotal();
    InsertSorted(c.tree.nodes, id, NodeEntry([], node), IdLess);
    CleanSorted(Added(c, id, node), dflt);
  }

  lemma SetValueSorted(c: Composition, comp: ComponentId, key: string, value: TypedValue)
    requires NodesSorted(c) && SetValue(c, comp, key, value).Ok?
    ensures NodesSorted(SetValue(c, comp, key, value).value)
  {
    BindSorted(c, (comp, key), Fixed(value));
  }

  // ---------------------------------------------------------------------------
  // Dropping a node commutes with the edge edits
  // ---------------------------------------------------------------------------

  /** Unbinding a port of another component, before or after dropping node `id`. */
  lemma UnbindDetach(x: Composition, id: NodeId, to: Port)
    requires NodesSorted(x) && to.0 != NodeComponent(id)
    ensures Unbind(Detach(x, id), to).Ok? == Unbind(x, to).Ok?
    ensures Unbind(x, to).Ok? ==> Unbind(Detach(x, id), to).value == Detach(Unbind(x, to).value, id)
  {
    if to.0.NodeComponent? && Unbind(x, to).Ok? {
      var n := to.0.id;
      var entry := Get(x.tree.nodes, n).value;
      assert Get(Detach(x, id).tree.nodes, n) == Some(entry);
      IdLessIsStrictTotal();
      InsertRemoveCommute(x.tree.nodes, n, entry.(inputs := Remove(entry.inputs, to.1)), id, IdLess);
    }
  }

  /** Dropping a node that no edge leads into does not change whether an existing edge is stale. */
  lemma DetachKeepsStale(y: Composition, id: NodeId, e: Edge)
    requires NoEdgeInto(y, id) && HasEdge(y, e)
    ensures StaleEdge(Detach(y, id), e) == StaleEdge(y, e)
  {
    if e.to.0.NodeComponent? {
      assert Get(Detach(y, id).tree.nodes, e.to.0.id) == Get(y.tree.nodes, e.to.0.id);
    }
  }

  /** Re-deriving the wiring, before or after dropping a node that no edge leads into. */
  lemma CleanDetach(y: Composition, id: NodeId, dflt: Defaults)
    requires NoEdgeInto(y, id)
    ensures CleanParameters(Detach(y, id), dflt) == Detach(CleanParameters(y, dflt), id)
  {
    var d := Detach(y, id);
    MapValuesRemove(y.tree.nodes, id,
      (id, entry) => CleanEntry(id, entry, d.edges, dflt),
      (id, entry) => CleanEntry(id, entry, y.edges, dflt));
    forall i | 0 <= i < |y.edges|
      ensures !StaleEdge(d, y.edges[i].0) == !StaleEdge(y, y.edges[i].0)
    {
      assert Keys(y.edges)[i] == y.edges[i].0;
      KeyOfGet(y.edges, y.edges[i].0);
      DetachKeepsStale(y, id, y.edges[i].0);
    }
    FilterKeysAgree(y.edges, e => !StaleEdge(d, e), e => !StaleEdge(y, e));
  }

  /** Removing an edge that does not lead into node `id`, before or after dropping the node. */
  lemma RemoveEdgeDetach(x: Composition, id: NodeId, e: Edge, dflt: Defaults)
    requires NodesSorted(x) && NoEdgeInto(x, id) && e.to.0 != NodeComponent(id)
    ensures RemoveEdge(Detach(x, id), e, dflt).Ok? == RemoveEdge(x, e, dflt).Ok?
    ensures RemoveEdge(x, e, dflt).Ok? ==>
      var y := RemoveEdge(x, e, dflt).value;
      RemoveEdge(Detach(x, id), e, dflt).value == Detach(y, id) && NodesSorted(y) && NoEdgeInto(y, id)
  {
    UnbindDetach(x, id, e.to);
    if RemoveEdge(x, e, dflt).Ok? {
      RemoveEdgeSorted(x, e, dflt);
      var unwired := Unbind(x, e.to).value;
      var erased := unwired.(edges := Remove(unwired.edges, e));
      var detached := Detach(unwired, id);
      assert detached.(edges := Remove(detached.edges, e)) == Detach(erased, id);
      assert NoEdgeInto(erased, id) by {
        forall f | HasEdge(erased, f) ensures f.to.0 != NodeComponent(id) {
          assert HasEdge(x, f);
        }
      }
      CleanDetach(erased, id, dflt);
    }
  }

  lemma {:induction false} RemoveEdgesDetach(x: Composition, id: NodeId, es: seq<Edge>, dflt: Defaults)
    requires NodesSorted(x) && NoEdgeInto(x, id)
    requires forall e :: e in es ==> e.to.0 != NodeComponent(id)
    ensures RemoveEdges(Detach(x, id), es, dflt).Ok? == RemoveEdges(x, es, dflt).Ok?
    ensures RemoveEdges(x, es, dflt).Ok? ==>
      RemoveEdges(Detach(x, id), es, dflt).value == Detach(RemoveEdges(x, es, dflt).value, id)
    decreases |es|
  {
    if |es| > 0 {
      RemoveEdgeDetach(x, id, es[0], dflt);
      if RemoveEdge(x, es[0], dflt).Ok? {
        var y := RemoveEdge(x, es[0], dflt).value;
        assert forall e :: e in es[1..] ==> e in es;
        RemoveEdgesDetach(y, id, es[1..], dflt);
      }
    }
  }

  /**
   * When `remove_node` as written does not panic, it leaves exactly the
   * composition the repaired removal leaves.
   */
  lemma RemoveNodeAgrees(c: Composition, id: NodeId, dflt: Defaults)
    requires NodesSorted(c) && RemoveNode(c, id, dflt).Ok?
    ensures RemoveNode(c, id, dflt) == RemoveNodeFixed(c, id, dflt)
  {
    assert NoEdgeInto(c, id) by {
      forall e | HasEdge(c, e) ensures e.to.0 != NodeComponent(id) {
        if Touches(e, id) {}
      }
    }
    var es := TouchingEdges(c, id);
    RemoveEdgesDetach(c, id, es, dflt);
  }
}
