/**
 * The symbolic, name-wired graph (tellur_core/src/tree/mod.rs) and the closed
 * set of node kinds it holds: the two primitives and nested graphs.
 */
module Tree {
  import opened Wrappers
  import opened Order
  import opened SortedMap
  import opened Types
  import opened Logical

  /** `NodeId(u32)`. */
  type NodeId = x: nat | x < 0x1_0000_0000

  /** The derived order on `NodeId`. */
  predicate IdLess(a: NodeId, b: NodeId) {
    a < b
  }

  lemma IdLessIsStrictTotal()
    ensures StrictTotalOrder(IdLess)
  {
  }

  type Parameters = Assoc<string, (RefType, TellurType)>
  type Returns = Assoc<string, TellurType>

  /** Where one parameter's value comes from inside a graph. */
  datatype TreeInput =
    | Parameter(name: string)
    | Fixed(value: TypedValue)
    | NodeOutput(id: NodeId, outputName: string)

  /** A node of a graph: NOT, AND, or a nested graph. */
  datatype Node = Not | And | Composite(tree: NodeTree)

  /** One internal node with its wiring, keyed by parameter name. */
  datatype NodeEntry = NodeEntry(inputs: Assoc<string, TreeInput>, node: Node)

  datatype NodeTree = NodeTree(
    name: string,
    parameters: Parameters,
    returnTypes: Returns,
    nodes: Assoc<NodeId, NodeEntry>,
    outputs: Assoc<string, TreeInput>)

  function Ident(n: Node): string {
    match n
    case Not => NotIdent
    case And => AndIdent
    case Composite(t) => t.name
  }

  function NodeParameters(n: Node): Parameters {
    match n
    case Not => NotParameters()
    case And => AndParameters()
    case Composite(t) => t.parameters
  }

  function NodeReturns(n: Node): Returns {
    match n
    case Not => BoolResult()
    case And => BoolResult()
    case Composite(t) => t.returnTypes
  }

  /** Ids of the internal nodes in ascending order. */
  function NodeIds(t: NodeTree): seq<NodeId> {
    Keys(t.nodes)
  }

  /**
   * Every ordered collection of the graph, and of every nested graph, lists
   * its keys in strictly increasing order, as a `BTreeMap` does.
   */
  ghost predicate TreeSorted(t: NodeTree)
    decreases t, 1
  {
    && Sorted(t.parameters, StrLess)
    && Sorted(t.returnTypes, StrLess)
    && Sorted(t.nodes, IdLess)
    && Sorted(t.outputs, StrLess)
    && forall i :: 0 <= i < |t.nodes| ==> Sorted(t.nodes[i].1.inputs, StrLess) && NodeSorted(t.nodes[i].1.node)
  }

  ghost predicate NodeSorted(n: Node)
    decreases n, 2
  {
    match n
    case Composite(t) => TreeSorted(t)
    case _ => true
  }
}
