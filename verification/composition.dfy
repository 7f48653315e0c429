/**
 * The graph editor (tellur_core/src/composition/mod.rs): a graph, the set of
 * components placed on the canvas and the set of edges drawn between ports.
 * Every structural edit ends by re-deriving the wiring (`clean_parameters`):
 * a declared immutable parameter left unbound gets its type's default value,
 * and a binding for a name the node does not declare is dropped together
 * with the edge that drew it.
 */
module Composition {
  import opened Wrappers
  import opened Order
  import opened SortedMap
  import opened Types
  import opened Tree
  import Plan
  import Planner

  /** `u32::MAX`: `add_node` searches `0..u32::MAX`, which leaves this id out. */
  const IdLimit: nat := 0xFFFF_FFFF

  datatype ComponentId = InputComponent | NodeComponent(id: NodeId) | OutputComponent

  /** One end of an edge: a component and one of its port names. */
  type Port = (ComponentId, string)

  datatype Edge = Edge(from: Port, to: Port)

  /** The derived order on `ComponentId`: Input, then the nodes by id, then Output. */
  predicate ComponentLess(a: ComponentId, b: ComponentId) {
    match a
    case InputComponent => !b.InputComponent?
    case NodeComponent(x) => (b.NodeComponent? && x < b.id) || b.OutputComponent?
    case OutputComponent => false
  }

  predicate PortLess(a: Port, b: Port) {
    ComponentLess(a.0, b.0) || (a.0 == b.0 && StrLess(a.1, b.1))
  }

  /** The derived order on `Edge`: by source port, then by destination port. */
  predicate EdgeLess(a: Edge, b: Edge) {
    PortLess(a.from, b.from) || (a.from == b.from && PortLess(a.to, b.to))
  }

  /** `BTreeSet<Edge>`, as a map to the unit value. */
  type EdgeSet = Assoc<Edge, ()>

  /**
   * `TellurComposition`. Placement coordinates carry no meaning for the
   * computation, so only the set of placed components is kept.
   */
  datatype Composition = Composition(tree: NodeTree, placements: set<ComponentId>, edges: EdgeSet)

  /** `TellurType::default_value` for every type. */
  type Defaults = TellurType -> TypedValue

  predicate HasEdge(c: Composition, e: Edge) {
    Get(c.edges, e).Some?
  }

  /** The kind of node `id`, if there is one. */
  function NodeOf(c: Composition, id: NodeId): Option<Node> {
    if Get(c.tree.nodes, id).Some? then Some(Get(c.tree.nodes, id).value.node) else None
  }

  predicate HasNode(c: Composition, id: NodeId) {
    NodeOf(c, id).Some?
  }

  /** The parameters a node declares; none for a node that is not there. */
  function ParamsOf(c: Composition, id: NodeId): Parameters {
    if HasNode(c, id) then NodeParameters(NodeOf(c, id).value) else []
  }

  /** Both compositions hold the same nodes, whatever their bindings. */
  ghost predicate SameNodes(c: Composition, d: Composition) {
    forall id :: NodeOf(d, id) == NodeOf(c, id)
  }

  /** Every edge of `d` is an edge of `c`. */
  ghost predicate SubEdges(d: Composition, c: Composition) {
    forall e :: HasEdge(d, e) ==> HasEdge(c, e)
  }

  /** The wiring input bound to port `key` of a component; the Input component has no ports to bind. */
  function Binding(c: Composition, comp: ComponentId, key: string): Option<TreeInput> {
    match comp
    case InputComponent => None
    case NodeComponent(id) => if Get(c.tree.nodes, id).Some? then Get(Get(c.tree.nodes, id).value.inputs, key) else None
    case OutputComponent => Get(c.tree.outputs, key)
  }

  /** What re-deriving puts on an unbound port: the default constant of a declared immutable parameter. */
  function DefaultOf(params: Parameters, key: string, dflt: Defaults): Option<TreeInput> {
    var d := Get(params, key);
    if d.Some? && d.value.0 == Immutable then Some(Fixed(dflt(d.value.1))) else None
  }

  /** The edge that draws binding `b` at port `key` of `to`; a constant is not drawn. */
  function EdgeFor(to: ComponentId, key: string, b: TreeInput): Option<Edge> {
    match b
    case Parameter(name) => Some(Edge((InputComponent, name), (to, key)))
    case NodeOutput(id, o) => Some(Edge((NodeComponent(id), o), (to, key)))
    case Fixed(_) => None
  }

  /** `to_tree_input`: the wiring input that an edge leaving `from` denotes. */
  function ToTreeInput(from: Port): (r: Result<TreeInput>)
    ensures r.Err? <==> from.0 == OutputComponent
    ensures r.Err? ==> r.error == OutputAsSource
    ensures r.Ok? ==> forall to, key :: EdgeFor(to, key, r.value) == Some(Edge(from, (to, key)))
  {
    match from.0
    case InputComponent => Ok(Parameter(from.1))
    case OutputComponent => Err(OutputAsSource)
    case NodeComponent(id) => Ok(NodeOutput(id, from.1))
  }

  /** `TellurComposition::new`: an empty graph with no placements and no edges. */
  function New(name: string): (r: Composition)
    ensures r.tree.name == name && r.tree.parameters == [] && r.tree.returnTypes == []
    ensures forall id :: !HasNode(r, id)
    ensures forall comp, key :: Binding(r, comp, key) == None
    ensures forall e :: !HasEdge(r, e)
    ensures r.placements == {}
  {
    Composition(NodeTree(name, [], [], [], []), {}, [])
  }

  // ---------------------------------------------------------------------------
  // clean_parameters
  // ---------------------------------------------------------------------------

  /**
   * A binding at port `key` of node `id` is stale when the node does not
   * declare `key` and the binding is a constant or was drawn by an edge that
   * is still in `edges`.
   */
  predicate Stale(params: Parameters, id: NodeId, key: string, b: TreeInput, edges: EdgeSet) {
    Get(params, key).None? && (b.Fixed? || Get(edges, EdgeFor(NodeComponent(id), key, b).value).Some?)
  }

  function DropStale(id: NodeId, inputs: Assoc<string, TreeInput>, params: Parameters, edges: EdgeSet): Assoc<string, TreeInput> {
    FilterKeys(inputs, k => !(Get(inputs, k).Some? && Stale(params, id, k, Get(inputs, k).value, edges)))
  }

  /**
   * Inserts, for every name of `keys` that `original` leaves unbound and
   * `params` declares immutable, the default constant of its type.
   */
  function FillDefaults(inputs: Assoc<string, TreeInput>, original: Assoc<string, TreeInput>,
                        params: Parameters, keys: seq<string>, dflt: Defaults): (r: Assoc<string, TreeInput>)
    ensures forall k :: Get(r, k) == (if k in keys && Get(original, k).None? && DefaultOf(params, k, dflt).Some?
                                      then DefaultOf(params, k, dflt) else Get(inputs, k))
    ensures (forall k :: k in keys && DefaultOf(params, k, dflt).Some? ==> Get(original, k).Some?) ==> r == inputs
    decreases |keys|
  {
    if |keys| == 0 then inputs
    else
      var k := keys[0];
      var next := if Get(original, k).None? && DefaultOf(params, k, dflt).Some?
        then Insert(inputs, k, DefaultOf(params, k, dflt).value, StrLess) else inputs;
      FillDefaults(next, original, params, keys[1..], dflt)
  }

  /** The per-node part of `clean_parameters`. */
  function CleanEntry(id: NodeId, entry: NodeEntry, edges: EdgeSet, dflt: Defaults): NodeEntry {
    var params := NodeParameters(entry.node);
    NodeEntry(FillDefaults(DropStale(id, entry.inputs, params, edges), entry.inputs, params, Keys(params), dflt), entry.node)
  }

  /** An edge that `clean_parameters` removes: it drew a binding for a name its node does not declare. */
  predicate StaleEdge(c: Composition, e: Edge) {
    && e.to.0.NodeComponent?
    && Get(ParamsOf(c, e.to.0.id), e.to.1).None?
    && Binding(c, e.to.0, e.to.1).Some?
    && EdgeFor(e.to.0, e.to.1, Binding(c, e.to.0, e.to.1).value) == Some(e)
  }

  /**
   * What re-deriving leaves at port `key` of a node: a declared parameter
   * keeps its binding or, if immutable and unbound, gets its default; an
   * undeclared name keeps only a wire whose edge is not in the edge set.
   */
  function RederivedEntry(id: NodeId, entry: NodeEntry, edges: EdgeSet, key: string, dflt: Defaults): Option<TreeInput> {
    var params := NodeParameters(entry.node);
    var b := Get(entry.inputs, key);
    if Get(params, key).Some? then
      if b.None? then DefaultOf(params, key, dflt) else b
    else if b.Some? && !b.value.Fixed? && Get(edges, EdgeFor(NodeComponent(id), key, b.value).value).None? then b
    else None
  }

  function Rederived(c: Composition, id: NodeId, key: string, dflt: Defaults): Option<TreeInput> {
    if Get(c.tree.nodes, id).Some? then RederivedEntry(id, Get(c.tree.nodes, id).value, c.edges, key, dflt) else None
  }

  /**
   * `clean_parameters`. The source removes each stale edge through
   * `remove_edge`, which re-enters `clean_parameters`; the nested passes find
   * the remaining stale edges of the same list and nothing else, so the net
   * effect is one pass that fills defaults, drops stale bindings and drops
   * the edges that drew them.
   */
  function CleanParameters(c: Composition, dflt: Defaults): (r: Composition)
    ensures r.tree.(nodes := c.tree.nodes) == c.tree && r.placements == c.placements
    ensures SameNodes(c, r) && SubEdges(r, c)
  {
    var nodes := MapValues(c.tree.nodes, (id, entry) => CleanEntry(id, entry, c.edges, dflt));
    var edges := FilterKeys(c.edges, e => !StaleEdge(c, e));
    Composition(c.tree.(nodes := nodes), c.placements, edges)
  }

  /** Re-deriving one port of one node entry. */
  lemma CleanEntryAt(id: NodeId, entry: NodeEntry, edges: EdgeSet, key: string, dflt: Defaults)
    ensures Get(CleanEntry(id, entry, edges, dflt).inputs, key) == RederivedEntry(id, entry, edges, key, dflt)
  {
    var params := NodeParameters(entry.node);
    var dropped := DropStale(id, entry.inputs, params, edges);
    var b := Get(entry.inputs, key);
    assert Get(dropped, key) == if b.Some? && Stale(params, id, key, b.value, edges) then None else b;
    KeyOfGet(params, key);
  }

  /** The bindings `clean_parameters` leaves: node ports are re-derived, graph returns kept. */
  lemma CleanBinding(c: Composition, dflt: Defaults, comp: ComponentId, key: string)
    ensures Binding(CleanParameters(c, dflt), comp, key) ==
      if comp.NodeComponent? then Rederived(c, comp.id, key, dflt) else Binding(c, comp, key)
  {
    if comp.NodeComponent? && Get(c.tree.nodes, comp.id).Some? {
      CleanEntryAt(comp.id, Get(c.tree.nodes, comp.id).value, c.edges, key, dflt);
    }
  }

  /** The edges `clean_parameters` keeps: all but the stale ones. */
  lemma CleanEdges(c: Composition, dflt: Defaults, e: Edge)
    ensures HasEdge(CleanParameters(c, dflt), e) <==> HasEdge(c, e) && !StaleEdge(c, e)
  {
  }

  // ---------------------------------------------------------------------------
  // Binding and unbinding a port
  // ---------------------------------------------------------------------------

  /** Binds port `to` to `input`: a node parameter or a graph return. */
  function Bind(c: Composition, to: Port, input: TreeInput): (r: Result<Composition>)
    ensures r.Err? <==> to.0.InputComponent? || (to.0.NodeComponent? && !HasNode(c, to.0.id))
    ensures to.0.InputComponent? ==> r == Err(InputAsDestination)
    ensures to.0.NodeComponent? && !HasNode(c, to.0.id) ==> r == Err(UnknownNode(to.0.id))
    ensures r.Ok? ==> Binding(r.value, to.0, to.1) == Some(input)
    ensures r.Ok? ==> forall comp, key :: (comp, key) != to ==> Binding(r.value, comp, key) == Binding(c, comp, key)
    ensures r.Ok? ==> r.value.edges == c.edges && r.value.placements == c.placements && SameNodes(c, r.value)
    ensures r.Ok? ==> r.value.tree.(nodes := c.tree.nodes, outputs := c.tree.outputs) == c.tree
  {
    match to.0
    case InputComponent => Err(InputAsDestination)
    case OutputComponent => Ok(c.(tree := c.tree.(outputs := Insert(c.tree.outputs, to.1, input, StrLess))))
    case NodeComponent(id) =>
      match Get(c.tree.nodes, id)
      case None => Err(UnknownNode(id))
      case Some(entry) =>
        var entry' := entry.(inputs := Insert(entry.inputs, to.1, input, StrLess));
        Ok(c.(tree := c.tree.(nodes := Insert(c.tree.nodes, id, entry', IdLess))))
  }

  /** Deletes the binding of port `to`. */
  function Unbind(c: Composition, to: Port): (r: Result<Composition>)
    ensures r.Err? <==> to.0.InputComponent? || (to.0.NodeComponent? && !HasNode(c, to.0.id))
    ensures to.0.InputComponent? ==> r == Err(InputAsDestination)
    ensures to.0.NodeComponent? && !HasNode(c, to.0.id) ==> r == Err(UnknownNode(to.0.id))
    ensures r.Ok? ==> Binding(r.value, to.0, to.1) == None
    ensures r.Ok? ==> forall comp, key :: (comp, key) != to ==> Binding(r.value, comp, key) == Binding(c, comp, key)
    ensures r.Ok? ==> r.value.edges == c.edges && r.value.placements == c.placements && SameNodes(c, r.value)
  {
    match to.0
    case InputComponent => Err(InputAsDestination)
    case OutputComponent => Ok(c.(tree := c.tree.(outputs := Remove(c.tree.outputs, to.1))))
    case NodeComponent(id) =>
      match Get(c.tree.nodes, id)
      case None => Err(UnknownNode(id))
      case Some(entry) =>
        var entry' := entry.(inputs := Remove(entry.inputs, to.1));
        Ok(c.(tree := c.tree.(nodes := Insert(c.tree.nodes, id, entry', IdLess))))
  }

  // ---------------------------------------------------------------------------
  // The editing operations
  // ---------------------------------------------------------------------------

  /**
   * `add_edge`: the source must not be the Output component (checked first,
   * by `to_tree_input`) and the destination must be the Output component or
   * an existing node. The destination port is bound to the source, the edge
   * is inserted, and the wiring is re-derived.
   */
  function AddEdge(c: Composition, e: Edge, dflt: Defaults): (r: Result<Composition>)
    ensures e.from.0.OutputComponent? ==> r == Err(OutputAsSource)
    ensures !e.from.0.OutputComponent? && e.to.0.InputComponent? ==> r == Err(InputAsDestination)
    ensures !e.from.0.OutputComponent? && e.to.0.NodeComponent? && !HasNode(c, e.to.0.id) ==> r == Err(UnknownNode(e.to.0.id))
    ensures r.Ok? <==> !e.from.0.OutputComponent? && Removable(c, e)
    ensures r.Ok? ==> SameNodes(c, r.value) && r.value.placements == c.placements
  {
    var input :- ToTreeInput(e.from);
    var wired :- Bind(c, e.to, input);
    Ok(CleanParameters(wired.(edges := Insert(wired.edges, e, (), EdgeLess)), dflt))
  }

  /**
   * `add_edge` to a declared port or a graph return binds it to the source
   * and keeps the edge; to a port the node does not declare, re-deriving
   * takes both away again.
   */
  lemma AddEdgeEffect(c: Composition, e: Edge, dflt: Defaults)
    requires AddEdge(c, e, dflt).Ok?
    ensures var d := AddEdge(c, e, dflt).value;
      if e.to.0.OutputComponent? || Get(ParamsOf(c, e.to.0.id), e.to.1).Some? then
        Binding(d, e.to.0, e.to.1) == Some(ToTreeInput(e.from).value) && HasEdge(d, e)
      else
        Binding(d, e.to.0, e.to.1) == None && !HasEdge(d, e)
  {
    var input := ToTreeInput(e.from).value;
    var wired := Bind(c, e.to, input).value;
    var drawn := wired.(edges := Insert(wired.edges, e, (), EdgeLess));
    assert Binding(drawn, e.to.0, e.to.1) == Some(input);
    assert HasEdge(drawn, e);
    assert EdgeFor(e.to.0, e.to.1, input) == Some(e);
    CleanBinding(drawn, dflt, e.to.0, e.to.1);
    CleanEdges(drawn, dflt, e);
  }

  /** `remove_edge` can act on an edge: its destination is the Output component or an existing node. */
  predicate Removable(c: Composition, e: Edge) {
    e.to.0.OutputComponent? || (e.to.0.NodeComponent? && HasNode(c, e.to.0.id))
  }

  /**
   * `remove_edge`: the destination port loses its binding, the edge leaves
   * the set, and the wiring is re-derived.
   */
  function RemoveEdge(c: Composition, e: Edge, dflt: Defaults): (r: Result<Composition>)
    ensures e.to.0.InputComponent? ==> r == Err(InputAsDestination)
    ensures e.to.0.NodeComponent? && !HasNode(c, e.to.0.id) ==> r == Err(UnknownNode(e.to.0.id))
    ensures r.Ok? <==> Removable(c, e)
    ensures r.Ok? ==> !HasEdge(r.value, e) && SubEdges(r.value, c)
    ensures r.Ok? ==> SameNodes(c, r.value) && r.value.placements == c.placements
  {
    var unwired :- Unbind(c, e.to);
    Ok(CleanParameters(unwired.(edges := Remove(unwired.edges, e)), dflt))
  }

  /**
   * After `remove_edge`, a node port holds its default when it is a
   * declared immutable parameter and nothing otherwise; a graph return is
   * left unbound.
   */
  lemma RemoveEdgeEffect(c: Composition, e: Edge, dflt: Defaults)
    requires RemoveEdge(c, e, dflt).Ok?
    ensures var d := RemoveEdge(c, e, dflt).value;
      Binding(d, e.to.0, e.to.1) == if e.to.0.NodeComponent? then DefaultOf(ParamsOf(c, e.to.0.id), e.to.1, dflt) else None
  {
    var unwired := Unbind(c, e.to).value;
    var erased := unwired.(edges := Remove(unwired.edges, e));
    CleanBinding(erased, dflt, e.to.0, e.to.1);
    if e.to.0.NodeComponent? {
      assert ParamsOf(erased, e.to.0.id) == ParamsOf(c, e.to.0.id);
    }
  }

  /** The edges that `remove_node` collects: those with the node at either end. */
  predicate Touches(e: Edge, id: NodeId) {
    e.from.0 == NodeComponent(id) || e.to.0 == NodeComponent(id)
  }

  function Touching(es: seq<Edge>, id: NodeId): (r: seq<Edge>)
    ensures forall e :: e in r <==> e in es && Touches(e, id)
  {
    if |es| == 0 then []
    else (if Touches(es[0], id) then [es[0]] else []) + Touching(es[1..], id)
  }

  /** `remove_edge` on each edge in turn; the first failure aborts. */
  function RemoveEdges(c: Composition, es: seq<Edge>, dflt: Defaults): (r: Result<Composition>)
    ensures r.Ok? <==> forall e :: e in es ==> Removable(c, e)
    ensures r.Ok? ==> forall e :: e in es ==> !HasEdge(r.value, e)
    ensures r.Ok? ==> SubEdges(r.value, c) && SameNodes(c, r.value) && r.value.placements == c.placements
    decreases |es|
  {
    if |es| == 0 then Ok(c)
    else
      match RemoveEdge(c, es[0], dflt)
      case Err(err) => Err(err)
      case Ok(c1) =>
        var r := RemoveEdges(c1, es[1..], dflt);
        assert forall e :: e in es <==> e == es[0] || e in es[1..];
        assert SameNodes(c, c1) && SubEdges(c1, c);
        assert r.Ok? ==> SameNodes(c1, r.value) && SubEdges(r.value, c1);
        assert forall e :: Removable(c1, e) == Removable(c, e) by {
          forall e ensures Removable(c1, e) == Removable(c, e) {
            if e.to.0.NodeComponent? {
              assert NodeOf(c1, e.to.0.id) == NodeOf(c, e.to.0.id);
            }
          }
        }
        r
  }

  /** The edges of `c` that touch node `id`, in set order. */
  function TouchingEdges(c: Composition, id: NodeId): (r: seq<Edge>)
    ensures forall e :: e in r <==> HasEdge(c, e) && Touches(e, id)
  {
    Touching(Keys(c.edges), id)
  }

  /** The composition without node `id` and its placement, edges untouched. */
  function Detach(c: Composition, id: NodeId): (r: Composition)
    ensures forall n :: NodeOf(r, n) == if n == id then None else NodeOf(c, n)
    ensures r.placements == c.placements - {NodeComponent(id)} && r.edges == c.edges
  {
    c.(tree := c.tree.(nodes := Remove(c.tree.nodes, id)), placements := c.placements - {NodeComponent(id)})
  }

  /**
   * `remove_node` as written: the node and its placement go first, then
   * every edge touching the node is removed through `remove_edge`. An edge
   * into the node then finds its destination gone, so the call succeeds only
   * when every touching edge leads to the Output component or to another
   * existing node.
   */
  function RemoveNode(c: Composition, id: NodeId, dflt: Defaults): (r: Result<Composition>)
    ensures r.Ok? <==> forall e :: HasEdge(c, e) && Touches(e, id) ==>
      e.to.0.OutputComponent? || (e.to.0.NodeComponent? && e.to.0.id != id && HasNode(c, e.to.0.id))
    ensures r.Ok? ==> !HasNode(r.value, id) && r.value.placements == c.placements - {NodeComponent(id)}
    ensures r.Ok? ==> forall n :: n != id ==> NodeOf(r.value, n) == NodeOf(c, n)
    ensures r.Ok? ==> forall e :: HasEdge(r.value, e) ==> HasEdge(c, e) && !Touches(e, id)
  {
    var detached := Detach(c, id);
    forall e ensures Removable(detached, e) <==> e.to.0.OutputComponent? || (e.to.0.NodeComponent? && e.to.0.id != id && HasNode(c, e.to.0.id)) {
      if e.to.0.NodeComponent? {
        assert NodeOf(detached, e.to.0.id) == if e.to.0.id == id then None else NodeOf(c, e.to.0.id);
      }
    }
    var pruned :- RemoveEdges(detached, TouchingEdges(c, id), dflt);
    Ok(CleanParameters(pruned, dflt))
  }

  /** An edge into the node makes `remove_node` as written fail: its `remove_edge` finds no node. */
  lemma RemoveNodeIncomingFails(c: Composition, id: NodeId, e: Edge, dflt: Defaults)
    requires HasEdge(c, e) && e.to.0 == NodeComponent(id)
    ensures RemoveNode(c, id, dflt).Err?
  {
    assert Touches(e, id);
  }

  /**
   * `remove_node` with the touching edges removed while the node is still
   * there, and the node and its placement removed afterwards.
   */
  function RemoveNodeFixed(c: Composition, id: NodeId, dflt: Defaults): (r: Result<Composition>)
    ensures r.Ok? <==> forall e :: HasEdge(c, e) && Touches(e, id) ==> Removable(c, e)
    ensures r.Ok? ==> !HasNode(r.value, id) && r.value.placements == c.placements - {NodeComponent(id)}
    ensures r.Ok? ==> forall n :: n != id ==> NodeOf(r.value, n) == NodeOf(c, n)
    ensures r.Ok? ==> forall e :: HasEdge(r.value, e) ==> HasEdge(c, e) && !Touches(e, id)
  {
    var pruned :- RemoveEdges(c, TouchingEdges(c, id), dflt);
    Ok(CleanParameters(Detach(pruned, id), dflt))
  }

  /** Every edge leads to the Output component or to a node that exists. */
  ghost predicate Targets(c: Composition) {
    forall e :: HasEdge(c, e) ==> Removable(c, e)
  }

  /** On a composition whose edges all lead somewhere, the repaired `remove_node` always succeeds. */
  lemma RemoveNodeFixedSucceeds(c: Composition, id: NodeId, dflt: Defaults)
    requires Targets(c)
    ensures RemoveNodeFixed(c, id, dflt).Ok?
  {
    forall e | HasEdge(c, e) && Touches(e, id) ensures Removable(c, e) {
      assert HasEdge(c, e);
    }
  }

  /** The smallest id from `from` on that no node uses (`position` over `from..u32::MAX`). */
  function FirstFree(nodes: Assoc<NodeId, NodeEntry>, from: NodeId): (r: Option<NodeId>)
    requires from <= IdLimit
    ensures r.Some? ==> from <= r.value < IdLimit && Get(nodes, r.value).None?
    ensures r.Some? ==> forall j: NodeId :: from <= j < r.value ==> Get(nodes, j).Some?
    ensures r.None? ==> forall j: NodeId :: from <= j < IdLimit ==> Get(nodes, j).Some?
    decreases IdLimit - from
  {
    if from == IdLimit then None
    else if Get(nodes, from).Some? then FirstFree(nodes, from + 1)
    else Some(from)
  }

  /**
   * `add_node`: the smallest free id, an empty binding set, a placement, and
   * then the wiring re-derived.
   */
  function AddNode(c: Composition, node: Node, dflt: Defaults): (r: Result<(Composition, NodeId)>)
    ensures r.Err? <==> forall j: NodeId :: j < IdLimit ==> HasNode(c, j)
    ensures r.Err? ==> r.error == IdsExhausted
    ensures r.Ok? ==> !HasNode(c, r.value.1) && r.value.1 < IdLimit && forall j: NodeId :: j < r.value.1 ==> HasNode(c, j)
    ensures r.Ok? ==> NodeOf(r.value.0, r.value.1) == Some(node)
    ensures r.Ok? ==> forall n :: n != r.value.1 ==> NodeOf(r.value.0, n) == NodeOf(c, n)
    ensures r.Ok? ==> r.value.0.placements == c.placements + {NodeComponent(r.value.1)}
  {
    match FirstFree(c.tree.nodes, 0)
    case None =>
      assert forall j: NodeId :: j < IdLimit ==> HasNode(c, j) by {
        forall j: NodeId | j < IdLimit ensures HasNode(c, j) {
          assert Get(c.tree.nodes, j).Some?;
        }
      }
      Err(IdsExhausted)
    case Some(id) =>
      assert !HasNode(c, id);
      var added := Added(c, id, node);
      var d := CleanParameters(added, dflt);
      assert SameNodes(added, d);
      Ok((d, id))
  }

  /** The composition with node `id` registered with no bindings and placed. */
  function Added(c: Composition, id: NodeId, node: Node): (r: Composition)
    ensures forall n :: NodeOf(r, n) == if n == id then Some(node) else NodeOf(c, n)
    ensures Get(r.tree.nodes, id) == Some(NodeEntry([], node))
    ensures r.placements == c.placements + {NodeComponent(id)} && r.edges == c.edges
  {
    c.(tree := c.tree.(nodes := Insert(c.tree.nodes, id, NodeEntry([], node), IdLess)),
       placements := c.placements + {NodeComponent(id)})
  }

  /** The new node's ports hold exactly the defaults of its immutable parameters. */
  lemma AddNodeDefaults(c: Composition, node: Node, dflt: Defaults, key: string)
    requires AddNode(c, node, dflt).Ok?
    ensures var (d, id) := AddNode(c, node, dflt).value;
      Binding(d, NodeComponent(id), key) == DefaultOf(NodeParameters(node), key, dflt)
  {
    var id := AddNode(c, node, dflt).value.1;
    CleanBinding(Added(c, id, node), dflt, NodeComponent(id), key);
  }

  /**
   * `set_value`: replaces a constant already bound at a node port or a graph
   * return. The Input component, a wired port and an unbound port are
   * refused; the wiring is not re-derived.
   */
  function SetValue(c: Composition, comp: ComponentId, key: string, value: TypedValue): (r: Result<Composition>)
    ensures comp.InputComponent? ==> r == Err(InputIsNotSettable)
    ensures comp.NodeComponent? && !HasNode(c, comp.id) ==> r == Err(UnknownNode(comp.id))
    ensures !comp.InputComponent? ==> (r.Ok? <==> Binding(c, comp, key).Some? && Binding(c, comp, key).value.Fixed?)
    ensures (comp.OutputComponent? || (comp.NodeComponent? && HasNode(c, comp.id))) && Binding(c, comp, key).None? ==> r == Err(MissingInput(key))
    ensures Binding(c, comp, key).Some? && !Binding(c, comp, key).value.Fixed? ==> r == Err(InputConnected)
    ensures r.Ok? ==> Binding(r.value, comp, key) == Some(Fixed(value))
    ensures r.Ok? ==> forall comp', key' :: (comp', key') != (comp, key) ==> Binding(r.value, comp', key') == Binding(c, comp', key')
    ensures r.Ok? ==> r.value.edges == c.edges && r.value.placements == c.placements && SameNodes(c, r.value)
  {
    if comp.InputComponent? then Err(InputIsNotSettable)
    else if comp.NodeComponent? && !HasNode(c, comp.id) then Err(UnknownNode(comp.id))
    else
      match Binding(c, comp, key)
      case None => Err(MissingInput(key))
      case Some(Fixed(_)) => Bind(c, (comp, key), Fixed(value))
      case Some(_) => Err(InputConnected)
  }

  /**
   * `mut_parameters()`: the graph's own parameters are replaced; nothing is
   * re-derived, so every binding, edge, node and placement stays.
   */
  function SetParameters(c: Composition, params: Parameters): (r: Composition)
    ensures r.tree.parameters == params && r.tree.returnTypes == c.tree.returnTypes
    ensures forall comp, key :: Binding(r, comp, key) == Binding(c, comp, key)
    ensures r.edges == c.edges && r.placements == c.placements && SameNodes(c, r)
  {
    c.(tree := c.tree.(parameters := params))
  }

  /**
   * `mut_returns()`: the graph's own returns are replaced; nothing is
   * re-derived, so every binding, edge, node and placement stays.
   */
  function SetReturns(c: Composition, rets: Returns): (r: Composition)
    ensures r.tree.returnTypes == rets && r.tree.parameters == c.tree.parameters
    ensures forall comp, key :: Binding(r, comp, key) == Binding(c, comp, key)
    ensures r.edges == c.edges && r.placements == c.placements && SameNodes(c, r)
  {
    c.(tree := c.tree.(returnTypes := rets))
  }

  /** `components()`: the placed components. */
  function Components(c: Composition): set<ComponentId> {
    c.placements
  }

  /** Pairs each return name with the value in the same position, as far as both lists go. */
  function Named(names: seq<string>, values: seq<TypedValue>): (r: Assoc<string, TypedValue>)
    ensures |r| == if |names| < |values| then |names| else |values|
    ensures forall i :: 0 <= i < |r| ==> r[i] == (names[i], values[i])
  {
    if |names| == 0 || |values| == 0 then [] else [(names[0], values[0])] + Named(names[1..], values[1..])
  }

  /**
   * `evaluate`: plans the graph afresh, runs the plan on the argument values
   * in the order of their names, and names the results after the graph's
   * returns in order.
   */
  function Evaluate(c: Composition, inputs: Assoc<string, TypedValue>): (r: Result<Assoc<string, TypedValue>>)
    ensures Planner.PlanTree(c.tree).Err? ==> r == Err(Planner.PlanTree(c.tree).error)
    ensures r.Ok? <==> Planner.PlanTree(c.tree).Ok? && Plan.Execute(Planner.PlanTree(c.tree).value, Values(inputs)).Ok?
    ensures r.Ok? ==> var results := Plan.Execute(Planner.PlanTree(c.tree).value, Values(inputs)).value;
      Keys(r.value) == Keys(c.tree.returnTypes) && Values(r.value) == results
  {
    var plan :- Planner.PlanTree(c.tree);
    var results :- Plan.Execute(plan, Values(inputs));
    var named := Named(Keys(c.tree.returnTypes), results);
    assert Keys(named) == Keys(c.tree.returnTypes);
    assert Values(named) == results;
    Ok(named)
  }
}
