/**
 * Sequences of edits on a `TellurComposition`
 * (tellur_core/src/composition/mod.rs): every public mutator as one `Edit`,
 * applied in order, stopping at the first one that panics. The editor
 * invariant holds for every composition reached this way from `new`, so the
 * repaired node removal never fails on one; the removal as written does fail
 * on a composition reached after two edits.
 */
module Replay {
  import opened Wrappers
  import opened Types
  import opened Logical
  import opened Tree
  import opened Composition
  import opened EditorInvariants
  import opened RemovalOrder

  datatype Edit =
    | AddNodeEdit(node: Node)
    | RemoveNodeEdit(id: NodeId)
    | AddEdgeEdit(edge: Edge)
    | RemoveEdgeEdit(edge: Edge)
    | SetValueEdit(comp: ComponentId, key: string, value: TypedValue)
    | SetParametersEdit(params: Parameters)
    | SetReturnsEdit(rets: Returns)

  /** One mutator call; node removal is the repaired one. */
  function Apply(c: Composition, edit: Edit, dflt: Defaults): Result<Composition> {
    match edit
    case AddNodeEdit(node) =>
      var added :- AddNode(c, node, dflt);
      Ok(added.0)
    case RemoveNodeEdit(id) => RemoveNodeFixed(c, id, dflt)
    case AddEdgeEdit(e) => AddEdge(c, e, dflt)
    case RemoveEdgeEdit(e) => RemoveEdge(c, e, dflt)
    case SetValueEdit(comp, key, value) => SetValue(c, comp, key, value)
    case SetParametersEdit(params) => Ok(SetParameters(c, params))
    case SetReturnsEdit(rets) => Ok(SetReturns(c, rets))
  }

  /** The edits in order; the first failing one ends the sequence. */
  function Replay(c: Composition, edits: seq<Edit>, dflt: Defaults): Result<Composition>
    decreases |edits|
  {
    if |edits| == 0 then Ok(c)
    else
      var d :- Apply(c, edits[0], dflt);
      Replay(d, edits[1..], dflt)
  }

  /** A fresh composition has no binding, no edge and no placement. */
  lemma NewInvariant(name: string)
    ensures Invariant(New(name))
  {
  }

  /** Every mutator that succeeds keeps the invariant. */
  lemma ApplyKeeps(c: Composition, edit: Edit, dflt: Defaults)
    requires Invariant(c) && Apply(c, edit, dflt).Ok?
    ensures Invariant(Apply(c, edit, dflt).value)
  {
    match edit
    case AddNodeEdit(node) =>
      AddNodeKeepsWired(c, node, dflt);
      AddNodeKeepsTargets(c, node, dflt);
      AddNodeKeepsPlaced(c, node, dflt);
    case RemoveNodeEdit(id) =>
      RemoveNodeFixedKeepsWired(c, id, dflt);
      RemoveNodeFixedKeepsTargets(c, id, dflt);
      RemoveNodeFixedKeepsPlaced(c, id, dflt);
    case AddEdgeEdit(e) =>
      AddEdgeKeepsWired(c, e, dflt);
      AddEdgeKeepsTargets(c, e, dflt);
      AddEdgeKeepsPlaced(c, e, dflt);
    case RemoveEdgeEdit(e) =>
      RemoveEdgeKeepsWired(c, e, dflt);
      RemoveEdgeKeepsTargets(c, e, dflt);
      RemoveEdgeKeepsPlaced(c, e, dflt);
    case SetValueEdit(comp, key, value) =>
      SetValueKeeps(c, comp, key, value);
    case SetParametersEdit(params) =>
      SetSignatureKeeps(c, params, c.tree.returnTypes);
    case SetReturnsEdit(rets) =>
      SetSignatureKeeps(c, c.tree.parameters, rets);
  }

  lemma {:induction false} ReplayKeeps(c: Composition, edits: seq<Edit>, dflt: Defaults)
    requires Invariant(c) && Replay(c, edits, dflt).Ok?
    ensures Invariant(Replay(c, edits, dflt).value)
    decreases |edits|
  {
    if |edits| > 0 {
      ApplyKeeps(c, edits[0], dflt);
      ReplayKeeps(Apply(c, edits[0], dflt).value, edits[1..], dflt);
    }
  }

  /**
   * Every composition reached from `new` keeps its wires, edges and
   * placements in step, and the repaired node removal succeeds on it for
   * any id.
   */
  lemma Reachable(name: string, edits: seq<Edit>, dflt: Defaults, id: NodeId)
    requires Replay(New(name), edits, dflt).Ok?
    ensures Invariant(Replay(New(name), edits, dflt).value)
    ensures RemoveNodeFixed(Replay(New(name), edits, dflt).value, id, dflt).Ok?
  {
    NewInvariant(name);
    ReplayKeeps(New(name), edits, dflt);
    RemoveNodeFixedSucceeds(Replay(New(name), edits, dflt).value, id, dflt);
  }

  // ---------------------------------------------------------------------------
  // The node removal as written
  // ---------------------------------------------------------------------------

  /** One mutator call with the node removal as written. */
  function ApplyAsWritten(c: Composition, edit: Edit, dflt: Defaults): Result<Composition> {
    if edit.RemoveNodeEdit? then RemoveNode(c, edit.id, dflt) else Apply(c, edit, dflt)
  }

  function ReplayAsWritten(c: Composition, edits: seq<Edit>, dflt: Defaults): Result<Composition>
    decreases |edits|
  {
    if |edits| == 0 then Ok(c)
    else
      var d :- ApplyAsWritten(c, edits[0], dflt);
      ReplayAsWritten(d, edits[1..], dflt)
  }

  /** Every mutator that succeeds keeps the nodes in id order. */
  lemma ApplySorted(c: Composition, edit: Edit, dflt: Defaults)
    requires NodesSorted(c) && Apply(c, edit, dflt).Ok?
    ensures NodesSorted(Apply(c, edit, dflt).value)
  {
    match edit
    case AddNodeEdit(node) => AddNodeSorted(c, node, dflt);
    case RemoveNodeEdit(id) => RemoveNodeFixedSorted(c, id, dflt);
    case AddEdgeEdit(e) => AddEdgeSorted(c, e, dflt);
    case RemoveEdgeEdit(e) => RemoveEdgeSorted(c, e, dflt);
    case SetValueEdit(comp, key, value) => SetValueSorted(c, comp, key, value);
    case SetParametersEdit(params) =>
    case SetReturnsEdit(rets) =>
  }

  /** An edit sequence whose removals as written do not panic ends where the repaired one does. */
  lemma {:induction false} ReplayAsWrittenAgrees(c: Composition, edits: seq<Edit>, dflt: Defaults)
    requires NodesSorted(c) && ReplayAsWritten(c, edits, dflt).Ok?
    ensures ReplayAsWritten(c, edits, dflt) == Replay(c, edits, dflt)
    decreases |edits|
  {
    if |edits| > 0 {
      if edits[0].RemoveNodeEdit? {
        RemoveNodeAgrees(c, edits[0].id, dflt);
      }
      assert ApplyAsWritten(c, edits[0], dflt) == Apply(c, edits[0], dflt);
      ApplySorted(c, edits[0], dflt);
      ReplayAsWrittenAgrees(Apply(c, edits[0], dflt).value, edits[1..], dflt);
    }
  }

  /**
   * The program as written: every composition it reaches from `new`
   * without panicking is the one the repaired removal reaches, so it keeps
   * its wires, edges and placements in step.
   */
  lemma ReachableAsWritten(name: string, edits: seq<Edit>, dflt: Defaults)
    requires ReplayAsWritten(New(name), edits, dflt).Ok?
    ensures ReplayAsWritten(New(name), edits, dflt) == Replay(New(name), edits, dflt)
    ensures Invariant(ReplayAsWritten(New(name), edits, dflt).value)
  {
    ReplayAsWrittenAgrees(New(name), edits, dflt);
    NewInvariant(name);
    ReplayKeeps(New(name), edits, dflt);
  }

  /** On every composition reached from `new`, `components()` lists exactly the nodes. */
  lemma ReachableComponents(name: string, edits: seq<Edit>, dflt: Defaults)
    requires Replay(New(name), edits, dflt).Ok?
    ensures var c := Replay(New(name), edits, dflt).value;
      forall comp :: comp in Components(c) <==> comp.NodeComponent? && HasNode(c, comp.id)
  {
    NewInvariant(name);
    ReplayKeeps(New(name), edits, dflt);
  }

  /** Add a NOT node, then draw an edge from graph parameter `x` into its `value` port. */
  function WiredNot(): seq<Edit> {
    [AddNodeEdit(Not), AddEdgeEdit(Edge((InputComponent, "x"), (NodeComponent(0), "value")))]
  }

  /** The first node added to a fresh composition takes id 0. */
  lemma FirstNodeIsZero(name: string, node: Node, dflt: Defaults)
    ensures AddNode(New(name), node, dflt).Ok? && AddNode(New(name), node, dflt).value.1 == 0
    ensures NodeOf(AddNode(New(name), node, dflt).value.0, 0) == Some(node)
  {
    var c := New(name);
    assert !HasNode(c, 0);
  }

  /** After the two edits the edge into the NOT node is recorded. */
  lemma WiredNotHasEdge(name: string, dflt: Defaults)
    ensures Replay(New(name), WiredNot(), dflt).Ok?
    ensures HasEdge(Replay(New(name), WiredNot(), dflt).value, WiredNot()[1].edge)
  {
    var c := New(name);
    var e := WiredNot()[1].edge;
    FirstNodeIsZero(name, Not, dflt);
    var added := AddNode(c, Not, dflt).value.0;
    assert ParamsOf(added, 0) == NotParameters();
    AddEdgeEffect(added, e, dflt);
    ReplayAddThenDraw(c, Not, e, dflt);
  }

  /** Adding a node and then drawing an edge is the edge drawn on the grown composition. */
  lemma ReplayAddThenDraw(c: Composition, node: Node, e: Edge, dflt: Defaults)
    requires AddNode(c, node, dflt).Ok?
    ensures Replay(c, [AddNodeEdit(node), AddEdgeEdit(e)], dflt)
         == AddEdge(AddNode(c, node, dflt).value.0, e, dflt)
  {
    var edits := [AddNodeEdit(node), AddEdgeEdit(e)];
    var d := AddNode(c, node, dflt).value.0;
    assert Apply(c, edits[0], dflt) == Ok(d);
    assert edits[1..] == [AddEdgeEdit(e)];
    assert Replay(c, edits, dflt) == Replay(d, [AddEdgeEdit(e)], dflt);
    assert [AddEdgeEdit(e)][1..] == [];
    var drawn := AddEdge(d, e, dflt);
    if drawn.Ok? {
      assert Replay(drawn.value, [], dflt) == drawn;
    }
  }

  /**
   * The removal as written panics on a composition reached after two edits:
   * removing the wired NOT node, while the repaired removal succeeds there.
   */
  lemma WiredNotRemoval(name: string, dflt: Defaults)
    ensures Replay(New(name), WiredNot(), dflt).Ok?
    ensures RemoveNode(Replay(New(name), WiredNot(), dflt).value, 0, dflt).Err?
    ensures RemoveNodeFixed(Replay(New(name), WiredNot(), dflt).value, 0, dflt).Ok?
  {
    WiredNotHasEdge(name, dflt);
    RemoveNodeIncomingFails(Replay(New(name), WiredNot(), dflt).value, 0, WiredNot()[1].edge, dflt);
    Reachable(name, WiredNot(), dflt, 0);
  }
}
