/**
 * The planned form of a graph and its scheduler (tellur_core/src/tree/plan.rs).
 *
 * A plan lists internal nodes by position; each node's inputs are resolved
 * to a parameter index, a fixed value, or an output slot (position, index) of
 * another node. Evaluation repeatedly makes every waiting node whose
 * producers have all finished ready, returns the outputs as soon as they are
 * available, and otherwise runs the oldest ready node.
 *
 * `Execute` is the functional reference, one scheduler iteration at a time
 * (`StepOnce`); the method `Evaluate` is the loop as the source writes it and
 * is proved to compute exactly `Execute`.
 */
module Plan {
  import opened Wrappers
  import opened Types
  import opened Logical

  datatype PlannedInput =
    | Parameter(index: nat)
    | Fixed(value: TypedValue)
    | NodeOutput(position: nat, outputIndex: nat)

  /** How a node evaluates once its arguments are known. */
  datatype Strategy = NotPlanned | AndPlanned | TreePlanned(plan: TreePlan)

  datatype PlannedNode = PlannedNode(inputs: seq<PlannedInput>, strategy: Strategy)

  datatype TreePlan = TreePlan(nodes: seq<PlannedNode>, outputs: seq<PlannedInput>)

  datatype State = Waiting | Ready | Running | Finished

  /** Output slots already produced, keyed by (node position, output index). */
  type Memory = map<(nat, nat), TypedValue>

  /** States only move forward in this order. */
  function Progress(s: State): nat {
    match s
    case Waiting => 0
    case Ready => 1
    case Running => 2
    case Finished => 3
  }

  predicate InRange(i: PlannedInput, n: nat) {
    i.NodeOutput? ==> i.position < n
  }

  /** Every node reference of the plan, and of every nested plan, names an existing position. */
  predicate StrategyWellFormed(s: Strategy)
    decreases s, 1
  {
    match s
    case TreePlanned(p) => PlanWellFormed(p)
    case _ => true
  }

  predicate PlanWellFormed(p: TreePlan)
    decreases p, 0
  {
    && (forall i, k :: 0 <= i < |p.nodes| && 0 <= k < |p.nodes[i].inputs| ==> InRange(p.nodes[i].inputs[k], |p.nodes|))
    && (forall k :: 0 <= k < |p.outputs| ==> InRange(p.outputs[k], |p.nodes|))
    && (forall i :: 0 <= i < |p.nodes| ==> StrategyWellFormed(p.nodes[i].strategy))
  }

  // ---------------------------------------------------------------------------
  // Reading and writing values
  // ---------------------------------------------------------------------------

  /** The value of one input: an argument, a constant, or a stored output slot. */
  function FetchOne(i: PlannedInput, args: seq<TypedValue>, memory: Memory): Result<TypedValue> {
    match i
    case Parameter(k) => if k < |args| then Ok(args[k]) else Err(MissingArgument(k))
    case Fixed(v) => Ok(v)
    case NodeOutput(n, o) => if (n, o) in memory then Ok(memory[(n, o)]) else Err(MissingOutput(n, o))
  }

  /** All values of an input list in order, or the error of the first one that is missing. */
  function Fetch(ins: seq<PlannedInput>, args: seq<TypedValue>, memory: Memory): (r: Result<seq<TypedValue>>)
    ensures r.Ok? <==> forall k :: 0 <= k < |ins| ==> FetchOne(ins[k], args, memory).Ok?
    ensures r.Ok? ==> |r.value| == |ins|
    ensures r.Ok? ==> forall k :: 0 <= k < |ins| ==> r.value[k] == FetchOne(ins[k], args, memory).value
    ensures r.Err? ==> exists k :: 0 <= k < |ins| && FetchOne(ins[k], args, memory) == Err(r.error)
  {
    if |ins| == 0 then Ok([])
    else
      match FetchOne(ins[0], args, memory)
      case Err(e) => Err(e)
      case Ok(v) =>
        var rest := Fetch(ins[1..], args, memory);
        if rest.Err? then
          var k :| 0 <= k < |ins[1..]| && FetchOne(ins[1..][k], args, memory) == Err(rest.error);
          assert FetchOne(ins[k + 1], args, memory) == Err(rest.error);
          Err(rest.error)
        else
          Ok([v] + rest.value)
  }

  /** Records the results of the node at `position`, slot by slot in order. */
  function Store(memory: Memory, position: nat, results: seq<TypedValue>): (m: Memory)
    ensures forall i :: 0 <= i < |results| ==> (position, i) in m && m[(position, i)] == results[i]
    ensures forall key :: key in memory && !(key.0 == position && key.1 < |results|) ==> key in m && m[key] == memory[key]
    ensures forall key :: key in m ==> key in memory || (key.0 == position && key.1 < |results|)
  {
    if |results| == 0 then memory
    else Store(memory, position, results[..|results| - 1])[(position, |results| - 1) := results[|results| - 1]]
  }

  // ---------------------------------------------------------------------------
  // Scheduler state
  // ---------------------------------------------------------------------------

  datatype Config = Config(state: seq<State>, queue: seq<nat>, memory: Memory)

  function Initial(p: TreePlan): Config {
    Config(seq(|p.nodes|, _ => Waiting), [], map[])
  }

  /** An input is available once its producer has finished; arguments and constants always are. */
  predicate Available(i: PlannedInput, state: seq<State>) {
    match i
    case NodeOutput(n, _) => n < |state| && state[n] == Finished
    case _ => true
  }

  predicate DepsFinished(ins: seq<PlannedInput>, state: seq<State>) {
    forall k :: 0 <= k < |ins| ==> Available(ins[k], state)
  }

  predicate OutputsReady(p: TreePlan, state: seq<State>) {
    DepsFinished(p.outputs, state)
  }

  /**
   * The invariant of the scheduler loop at the top of each iteration: the
   * queue holds exactly the ready nodes, each once, every ready node's
   * producers have finished, and no node is left running.
   */
  predicate Valid(p: TreePlan, c: Config) {
    && |c.state| == |p.nodes|
    && (forall k :: 0 <= k < |c.queue| ==> c.queue[k] < |c.state| && c.state[c.queue[k]] == Ready)
    && (forall a, b :: 0 <= a < b < |c.queue| ==> c.queue[a] != c.queue[b])
    && (forall i :: 0 <= i < |c.state| && c.state[i] == Ready ==> i in c.queue)
    && (forall i :: 0 <= i < |c.state| ==> c.state[i] != Running)
    && (forall i :: 0 <= i < |c.state| && c.state[i] == Ready ==> DepsFinished(p.nodes[i].inputs, c.state))
  }

  function Unfinished(state: seq<State>): nat {
    if |state| == 0 then 0
    else Unfinished(state[..|state| - 1]) + (if state[|state| - 1] == Finished then 0 else 1)
  }

  /** Two state vectors agree on which nodes have finished. */
  predicate SameFinished(a: seq<State>, b: seq<State>) {
    |a| == |b| && forall i :: 0 <= i < |a| ==> (a[i] == Finished <==> b[i] == Finished)
  }

  /** No node moves backwards from `a` to `b`. */
  predicate Advances(a: seq<State>, b: seq<State>) {
    |a| == |b| && forall i :: 0 <= i < |a| ==> Progress(a[i]) <= Progress(b[i])
  }

  lemma {:induction false} UnfinishedSame(a: seq<State>, b: seq<State>)
    requires SameFinished(a, b)
    ensures Unfinished(a) == Unfinished(b)
  {
    if |a| > 0 {
      UnfinishedSame(a[..|a| - 1], b[..|b| - 1]);
    }
  }

  lemma {:induction false} UnfinishedFinish(state: seq<State>, x: nat)
    requires x < |state| && state[x] != Finished
    ensures Unfinished(state[x := Finished]) == Unfinished(state) - 1
  {
    var n := |state| - 1;
    if x < n {
      assert state[x := Finished][..n] == state[..n][x := Finished];
      UnfinishedFinish(state[..n], x);
    } else {
      assert state[x := Finished][..n] == state[..n];
    }
  }

  lemma DepsFinishedSame(ins: seq<PlannedInput>, a: seq<State>, b: seq<State>)
    requires SameFinished(a, b)
    ensures DepsFinished(ins, a) <==> DepsFinished(ins, b)
  {
  }

  // ---------------------------------------------------------------------------
  // One scheduler iteration
  // ---------------------------------------------------------------------------

  /** A waiting node all of whose producers have finished. */
  predicate Enabled(p: TreePlan, state: seq<State>, i: nat)
    requires |state| == |p.nodes| && i < |state|
  {
    state[i] == Waiting && DepsFinished(p.nodes[i].inputs, state)
  }

  /** The states after a rescan: every enabled node becomes ready. */
  function Promote(p: TreePlan, state: seq<State>): (r: seq<State>)
    requires |state| == |p.nodes|
  {
    seq(|state|, i requires 0 <= i < |state| => if Enabled(p, state, i) then Ready else state[i])
  }

  /** The enabled positions below `n`, in ascending order. */
  function EnabledBelow(p: TreePlan, state: seq<State>, n: nat): (q: seq<nat>)
    requires |state| == |p.nodes| && n <= |state|
    ensures forall k :: 0 <= k < |q| ==> q[k] < n && Enabled(p, state, q[k])
    ensures forall i :: 0 <= i < n && Enabled(p, state, i) ==> i in q
    ensures forall a, b :: 0 <= a < b < |q| ==> q[a] < q[b]
  {
    if n == 0 then []
    else EnabledBelow(p, state, n - 1) + (if Enabled(p, state, n - 1) then [n - 1] else [])
  }

  /** The rescan done whenever the queue is empty. */
  function Rescan(p: TreePlan, c: Config): Config
    requires |c.state| == |p.nodes|
  {
    Config(Promote(p, c.state), EnabledBelow(p, c.state, |c.state|), c.memory)
  }

  lemma RescanValid(p: TreePlan, c: Config)
    requires Valid(p, c) && |c.queue| == 0
    ensures Valid(p, Rescan(p, c))
    ensures SameFinished(c.state, Rescan(p, c).state)
    ensures Advances(c.state, Rescan(p, c).state)
  {
    var r := Rescan(p, c);
    assert SameFinished(c.state, r.state);
    forall i | 0 <= i < |r.state| && r.state[i] == Ready
      ensures DepsFinished(p.nodes[i].inputs, r.state)
    {
      DepsFinishedSame(p.nodes[i].inputs, c.state, r.state);
    }
  }

  /** The queue at the top of an iteration: rescanned when it is empty. */
  function Refill(p: TreePlan, c: Config): (c1: Config)
    requires Valid(p, c)
    ensures Valid(p, c1) && SameFinished(c.state, c1.state) && Advances(c.state, c1.state)
    ensures Unfinished(c1.state) == Unfinished(c.state)
    ensures c1.memory == c.memory
    ensures |c.queue| > 0 ==> c1 == c
  {
    if |c.queue| == 0 then
      RescanValid(p, c);
      UnfinishedSame(c.state, Rescan(p, c).state);
      Rescan(p, c)
    else c
  }

  /** The configuration after the head of the queue has run and produced `results`. */
  function Finish(c1: Config, results: seq<TypedValue>): Config
    requires |c1.queue| > 0 && c1.queue[0] < |c1.state|
  {
    var x := c1.queue[0];
    Config(c1.state[x := Finished], c1.queue[1..], Store(c1.memory, x, results))
  }

  /** Running the head of a non-empty queue keeps the invariant and finishes exactly that node. */
  lemma FinishValid(p: TreePlan, c1: Config, results: seq<TypedValue>)
    requires Valid(p, c1) && |c1.queue| > 0
    ensures var x := c1.queue[0];
      var next := Finish(c1, results);
      && Valid(p, next)
      && Unfinished(next.state) == Unfinished(c1.state) - 1
      && x < |c1.state| && c1.state[x] == Ready && next.state == c1.state[x := Finished]
      && DepsFinished(p.nodes[x].inputs, c1.state)
  {
    var x := c1.queue[0];
    var next := Finish(c1, results);
    UnfinishedFinish(c1.state, x);
    forall i | 0 <= i < |next.state| && next.state[i] == Ready
      ensures i in next.queue && DepsFinished(p.nodes[i].inputs, next.state)
    {
      StillQueued(p, c1, results, i);
    }
  }

  /** A node still ready after the head has run is in the rest of the queue, its producers still finished. */
  lemma StillQueued(p: TreePlan, c1: Config, results: seq<TypedValue>, i: nat)
    requires Valid(p, c1) && |c1.queue| > 0
    requires i < |c1.state| && Finish(c1, results).state[i] == Ready
    ensures i in Finish(c1, results).queue && DepsFinished(p.nodes[i].inputs, Finish(c1, results).state)
  {
    var x := c1.queue[0];
    var next := Finish(c1, results);
    assert i in c1.queue && i != x;
    var k :| 0 <= k < |c1.queue| && c1.queue[k] == i;
    assert next.queue[k - 1] == i;
  }

  /** The same facts, seen from the configuration before the queue was refilled. */
  lemma RefillFinish(p: TreePlan, c: Config, results: seq<TypedValue>)
    requires Valid(p, c) && |Refill(p, c).queue| > 0
    ensures var c1 := Refill(p, c);
      var x := c1.queue[0];
      var next := Finish(c1, results);
      && Valid(p, next)
      && Unfinished(next.state) == Unfinished(c.state) - 1
      && Advances(c.state, next.state)
      && x < |c.state| && c.state[x] != Finished && next.state[x] == Finished
      && (forall i :: 0 <= i < |c.state| && i != x ==> (next.state[i] == Finished <==> c.state[i] == Finished))
      && DepsFinished(p.nodes[x].inputs, c.state)
  {
    var c1 := Refill(p, c);
    var x := c1.queue[0];
    FinishValid(p, c1, results);
    DepsFinishedSame(p.nodes[x].inputs, c.state, c1.state);
    AdvancesFinish(c.state, c1.state, x);
  }

  /** Finishing a node is a step forward. */
  lemma AdvancesFinish(a: seq<State>, b: seq<State>, x: nat)
    requires Advances(a, b) && x < |b|
    ensures Advances(a, b[x := Finished])
  {
    forall i | 0 <= i < |a|
      ensures Progress(a[i]) <= Progress(b[x := Finished][i])
    {
      assert Progress(a[i]) <= Progress(b[i]);
    }
  }

  /** What one iteration does: return a result, or run one node and continue. */
  datatype Step = Return(result: Result<seq<TypedValue>>) | Continue(next: Config, ran: nat)

  /**
   * `n.evaluate(..)` on a planned node: a primitive accepts exactly its
   * declared Boolean arguments and yields one Boolean; a nested plan yields
   * one value per graph return.
   */
  function EvalStrategy(s: Strategy, args: seq<TypedValue>): (r: Result<seq<TypedValue>>)
    requires StrategyWellFormed(s)
    ensures s.NotPlanned? ==> (r.Ok? <==> ArgsConform(args, NotParameters()))
    ensures s.AndPlanned? ==> (r.Ok? <==> ArgsConform(args, AndParameters()))
    ensures r.Ok? && !s.TreePlanned? ==> |r.value| == 1 && r.value[0].BoolValue?
    ensures r.Ok? && s.TreePlanned? ==> |r.value| == |s.plan.outputs|
    decreases s, 2, 0, 0
  {
    match s
    case NotPlanned => NotEvaluate(args)
    case AndPlanned => AndEvaluate(args)
    case TreePlanned(p) => Execute(p, args)
  }

  /**
   * `evaluate` of a plan: on success one value per graph return, where a
   * return bound to a constant yields that constant and a return bound to a
   * graph parameter yields that argument.
   */
  function Execute(p: TreePlan, args: seq<TypedValue>): (r: Result<seq<TypedValue>>)
    requires PlanWellFormed(p)
    ensures r.Ok? ==> |r.value| == |p.outputs|
    ensures r.Ok? ==> forall k :: 0 <= k < |p.outputs| && p.outputs[k].Fixed? ==> r.value[k] == p.outputs[k].value
    ensures r.Ok? ==> forall k :: 0 <= k < |p.outputs| && p.outputs[k].Parameter? ==>
      p.outputs[k].index < |args| && r.value[k] == args[p.outputs[k].index]
    decreases p, 1, 0, 0
  {
    InitialValid(p);
    Loop(p, args, Initial(p))
  }

  function Loop(p: TreePlan, args: seq<TypedValue>, c: Config): (r: Result<seq<TypedValue>>)
    requires PlanWellFormed(p) && Valid(p, c)
    ensures r.Ok? ==> |r.value| == |p.outputs|
    ensures r.Ok? ==> forall k :: 0 <= k < |p.outputs| && p.outputs[k].Fixed? ==> r.value[k] == p.outputs[k].value
    ensures r.Ok? ==> forall k :: 0 <= k < |p.outputs| && p.outputs[k].Parameter? ==>
      p.outputs[k].index < |args| && r.value[k] == args[p.outputs[k].index]
    decreases p, 0, Unfinished(c.state), 1
  {
    match StepOnce(p, args, c)
    case Return(r) => r
    case Continue(next, _) => Loop(p, args, next)
  }

  function StepOnce(p: TreePlan, args: seq<TypedValue>, c: Config): (s: Step)
    requires PlanWellFormed(p) && Valid(p, c)
    ensures s.Continue? ==> Valid(p, s.next)
    ensures s.Continue? ==> Unfinished(s.next.state) < Unfinished(c.state)
    ensures s.Continue? ==> Advances(c.state, s.next.state)
    ensures s.Continue? ==> s.ran < |c.state| && c.state[s.ran] != Finished && s.next.state[s.ran] == Finished
    ensures s.Continue? ==> forall i :: 0 <= i < |c.state| && i != s.ran ==> (s.next.state[i] == Finished <==> c.state[i] == Finished)
    ensures s.Continue? ==> DepsFinished(p.nodes[s.ran].inputs, c.state)
    ensures s.Return? && s.result.Ok? ==> OutputsReady(p, c.state) && s.result == Fetch(p.outputs, args, c.memory)
    decreases p, 0, Unfinished(c.state), 0
  {
    var c1 := Refill(p, c);
    DepsFinishedSame(p.outputs, c.state, c1.state);
    if OutputsReady(p, c1.state) then
      Return(Fetch(p.outputs, args, c1.memory))
    else if |c1.queue| == 0 then
      Return(Err(Stalled))
    else
      var x := c1.queue[0];
      match Fetch(p.nodes[x].inputs, args, c1.memory)
      case Err(e) => Return(Err(e))
      case Ok(inputs) =>
        match EvalStrategy(p.nodes[x].strategy, inputs)
        case Err(e) => Return(Err(e))
        case Ok(results) =>
          RefillFinish(p, c, results);
          Continue(Finish(c1, results), x)
  }

  // ---------------------------------------------------------------------------
  // Properties of the reference scheduler
  // ---------------------------------------------------------------------------

  lemma InitialValid(p: TreePlan)
    ensures Valid(p, Initial(p))
    ensures Unfinished(Initial(p).state) == |p.nodes|
  {
    var s := Initial(p).state;
    if |p.nodes| > 0 {
      UnfinishedAllWaiting(s);
    }
  }

  lemma {:induction false} UnfinishedAllWaiting(s: seq<State>)
    requires forall i :: 0 <= i < |s| ==> s[i] == Waiting
    ensures Unfinished(s) == |s|
  {
    if |s| > 0 {
      UnfinishedAllWaiting(s[..|s| - 1]);
    }
  }

  /**
   * With the outputs unavailable, the scheduler finds nothing to run exactly
   * when nothing is queued and no waiting node has all its producers finished.
   */
  lemma StalledIff(p: TreePlan, args: seq<TypedValue>, c: Config)
    requires PlanWellFormed(p) && Valid(p, c)
    ensures |Refill(p, c).queue| == 0 <==> (|c.queue| == 0 && forall i :: 0 <= i < |c.state| ==> !Enabled(p, c.state, i))
    ensures !OutputsReady(p, c.state) && |Refill(p, c).queue| == 0 ==> StepOnce(p, args, c) == Return(Err(Stalled))
  {
    DepsFinishedSame(p.outputs, c.state, Refill(p, c).state);
    if |c.queue| == 0 {
      var q := Rescan(p, c).queue;
      assert Refill(p, c).queue == q;
      if |q| > 0 {
        assert Enabled(p, c.state, q[0]);
      }
      if exists i :: 0 <= i < |c.state| && Enabled(p, c.state, i) {
        var i :| 0 <= i < |c.state| && Enabled(p, c.state, i);
        assert i in q;
      }
    }
  }

  /** A graph with no outputs returns at once, running nothing. */
  lemma NoOutputsReturnEmpty(p: TreePlan, args: seq<TypedValue>)
    requires PlanWellFormed(p) && p.outputs == []
    ensures Execute(p, args) == Ok([])
  {
    InitialValid(p);
    assert StepOnce(p, args, Initial(p)) == Return(Ok([]));
  }

  /** Once every node has finished, the next iteration returns the outputs. */
  lemma AllFinishedReturns(p: TreePlan, args: seq<TypedValue>, c: Config)
    requires PlanWellFormed(p) && Valid(p, c)
    requires forall i :: 0 <= i < |c.state| ==> c.state[i] == Finished
    ensures Loop(p, args, c) == Fetch(p.outputs, args, c.memory)
  {
    assert OutputsReady(p, Refill(p, c).state) by {
      DepsFinishedSame(p.outputs, c.state, Refill(p, c).state);
    }
    StepReady(p, args, c);
  }

  /** The nodes run during the first `fuel` iterations, in order. */
  function Ran(p: TreePlan, args: seq<TypedValue>, c: Config, fuel: nat): (ran: seq<nat>)
    requires PlanWellFormed(p) && Valid(p, c)
    decreases fuel
  {
    if fuel == 0 then []
    else
      var step := StepOnce(p, args, c);
      if step.Return? then [] else [step.ran] + Ran(p, args, step.next, fuel - 1)
  }

  predicate Distinct(xs: seq<nat>) {
    forall a, b :: 0 <= a < b < |xs| ==> xs[a] != xs[b]
  }

  lemma ConsDistinct(x: nat, rest: seq<nat>)
    requires Distinct(rest) && x !in rest
    ensures Distinct([x] + rest)
  {
  }

  /**
   * Every node run from `c` on was unfinished in `c`, and no node is run
   * twice in one evaluation of a graph.
   */
  lemma RanAtMostOnce(p: TreePlan, args: seq<TypedValue>, c: Config, fuel: nat)
    requires PlanWellFormed(p) && Valid(p, c)
    ensures forall x | x in Ran(p, args, c, fuel) :: x < |c.state| && c.state[x] != Finished
    ensures Distinct(Ran(p, args, c, fuel))
    decreases fuel
  {
    var step := StepOnce(p, args, c);
    if fuel > 0 && step.Continue? {
      var rest := Ran(p, args, step.next, fuel - 1);
      RanAtMostOnce(p, args, step.next, fuel - 1);
      RanFirst(c.state, step.next.state, step.ran, rest);
      assert Ran(p, args, c, fuel) == [step.ran] + rest;
    }
  }

  /** A node finished by a step is unfinished before it and is not run again after it. */
  lemma RanFirst(before: seq<State>, after: seq<State>, ran: nat, rest: seq<nat>)
    requires Advances(before, after) && ran < |before| && before[ran] != Finished && after[ran] == Finished
    requires (forall x | x in rest :: x < |after| && after[x] != Finished) && Distinct(rest)
    ensures forall x | x in [ran] + rest :: x < |before| && before[x] != Finished
    ensures Distinct([ran] + rest)
  {
    assert ran !in rest;
    ConsDistinct(ran, rest);
    forall x | x in rest
      ensures x < |before| && before[x] != Finished
    {
      assert Progress(before[x]) <= Progress(after[x]);
    }
  }

  // ---------------------------------------------------------------------------
  // The scheduler loop as written
  // ---------------------------------------------------------------------------

  method RunStrategy(s: Strategy, args: seq<TypedValue>) returns (r: Result<seq<TypedValue>>)
    requires StrategyWellFormed(s)
    ensures r == EvalStrategy(s, args)
    decreases s, 1
  {
    match s
    case NotPlanned => r := NotEvaluate(args);
    case AndPlanned => r := AndEvaluate(args);
    case TreePlanned(p) => r := Evaluate(p, args);
  }

  /** The iteration from `c` ends when the outputs are available or nothing can run. */
  lemma StepReturns(p: TreePlan, args: seq<TypedValue>, c: Config)
    requires PlanWellFormed(p) && Valid(p, c)
    ensures OutputsReady(p, Refill(p, c).state) ==> Loop(p, args, c) == Fetch(p.outputs, args, c.memory)
    ensures !OutputsReady(p, Refill(p, c).state) && |Refill(p, c).queue| == 0 ==> Loop(p, args, c) == Err(Stalled)
    ensures !OutputsReady(p, Refill(p, c).state) && |Refill(p, c).queue| > 0 ==> Loop(p, args, c) == Loop(p, args, Refill(p, c))
  {
    if OutputsReady(p, Refill(p, c).state) {
      StepReady(p, args, c);
    } else if |Refill(p, c).queue| > 0 {
      StepRefilled(p, args, c);
    }
  }

  lemma StepReady(p: TreePlan, args: seq<TypedValue>, c: Config)
    requires PlanWellFormed(p) && Valid(p, c) && OutputsReady(p, Refill(p, c).state)
    ensures Loop(p, args, c) == Fetch(p.outputs, args, c.memory)
  {
  }

  lemma StepRefilled(p: TreePlan, args: seq<TypedValue>, c: Config)
    requires PlanWellFormed(p) && Valid(p, c)
    requires !OutputsReady(p, Refill(p, c).state) && |Refill(p, c).queue| > 0
    ensures Loop(p, args, c) == Loop(p, args, Refill(p, c))
  {
    var c1 := Refill(p, c);
    assert Refill(p, c1) == c1;
    assert StepOnce(p, args, c) == StepOnce(p, args, c1);
  }

  /** With a non-empty queue and unavailable outputs, an iteration fetches the head's arguments ... */
  lemma RunFetchFails(p: TreePlan, args: seq<TypedValue>, c: Config)
    requires PlanWellFormed(p) && Valid(p, c) && |c.queue| > 0 && !OutputsReady(p, c.state)
    requires Fetch(p.nodes[c.queue[0]].inputs, args, c.memory).Err?
    ensures Loop(p, args, c) == Err(Fetch(p.nodes[c.queue[0]].inputs, args, c.memory).error)
  {
  }

  /** ... evaluates the head ... */
  lemma RunEvalFails(p: TreePlan, args: seq<TypedValue>, c: Config, inputs: seq<TypedValue>)
    requires PlanWellFormed(p) && Valid(p, c) && |c.queue| > 0 && !OutputsReady(p, c.state)
    requires Fetch(p.nodes[c.queue[0]].inputs, args, c.memory) == Ok(inputs)
    requires EvalStrategy(p.nodes[c.queue[0]].strategy, inputs).Err?
    ensures Loop(p, args, c) == EvalStrategy(p.nodes[c.queue[0]].strategy, inputs)
  {
  }

  /** ... and otherwise continues from the configuration where the head has finished. */
  lemma RunContinues(p: TreePlan, args: seq<TypedValue>, c: Config, inputs: seq<TypedValue>, results: seq<TypedValue>)
    requires PlanWellFormed(p) && Valid(p, c) && |c.queue| > 0 && !OutputsReady(p, c.state)
    requires Fetch(p.nodes[c.queue[0]].inputs, args, c.memory) == Ok(inputs)
    requires EvalStrategy(p.nodes[c.queue[0]].strategy, inputs) == Ok(results)
    ensures Valid(p, Finish(c, results))
    ensures Loop(p, args, c) == Loop(p, args, Finish(c, results))
  {
    FinishValid(p, c, results);
  }

  /** The rescan loop: marks enabled nodes ready and queues them in position order. */
  method RescanLoop(p: TreePlan, state0: seq<State>) returns (state: seq<State>, executable: seq<nat>)
    requires |state0| == |p.nodes|
    ensures state == Promote(p, state0)
    ensures executable == EnabledBelow(p, state0, |state0|)
  {
    state := state0;
    executable := [];
    var idx := 0;
    while idx < |p.nodes|
      invariant idx <= |p.nodes| && |state| == |p.nodes|
      invariant forall i :: 0 <= i < idx ==> state[i] == if Enabled(p, state0, i) then Ready else state0[i]
      invariant forall i :: idx <= i < |state| ==> state[i] == state0[i]
      invariant executable == EnabledBelow(p, state0, idx)
    {
      assert SameFinished(state0, state);
      DepsFinishedSame(p.nodes[idx].inputs, state0, state);
      if state[idx] == Waiting && DepsFinished(p.nodes[idx].inputs, state) {
        state := state[idx := Ready];
        executable := executable + [idx];
      }
      idx := idx + 1;
    }
    PromoteIs(p, state0, state);
  }

  /** A state vector that is `Ready` exactly where the original was enabled, and equal elsewhere, is the promotion. */
  lemma PromoteIs(p: TreePlan, state0: seq<State>, state: seq<State>)
    requires |state0| == |p.nodes| && |state| == |state0|
    requires forall i :: 0 <= i < |state| ==> state[i] == if Enabled(p, state0, i) then Ready else state0[i]
    ensures state == Promote(p, state0)
  {
  }

  /** The store loop: writes each result to its slot of node `executing`. */
  method StoreResults(memory0: Memory, executing: nat, results: seq<TypedValue>) returns (memory: Memory)
    ensures memory == Store(memory0, executing, results)
  {
    memory := memory0;
    var i := 0;
    while i < |results|
      invariant i <= |results|
      invariant memory == Store(memory0, executing, results[..i])
    {
      StoreOneMore(memory0, executing, results, i);
      memory := memory[(executing, i) := results[i]];
      i := i + 1;
    }
    assert results[..|results|] == results;
  }

  /** Storing one more result slot is one more map update. */
  lemma StoreOneMore(memory: Memory, executing: nat, results: seq<TypedValue>, i: nat)
    requires i < |results|
    ensures Store(memory, executing, results[..i + 1]) == Store(memory, executing, results[..i])[(executing, i) := results[i]]
  {
    var prefix := results[..i + 1];
    assert prefix[..|prefix| - 1] == results[..i];
    assert prefix[|prefix| - 1] == results[i];
  }

  /**
   * One pass of the loop body. It either decides the result (`done`) or
   * runs one node and hands the loop its new state.
   */
  method Iterate(p: TreePlan, args: seq<TypedValue>, state0: seq<State>, executable0: seq<nat>, memory0: Memory)
    returns (done: bool, r: Result<seq<TypedValue>>, state: seq<State>, executable: seq<nat>, memory: Memory)
    requires PlanWellFormed(p) && Valid(p, Config(state0, executable0, memory0))
    ensures done ==> r == Loop(p, args, Config(state0, executable0, memory0))
    ensures !done ==> Valid(p, Config(state, executable, memory))
    ensures !done ==> Unfinished(state) < Unfinished(state0)
    ensures !done ==> Loop(p, args, Config(state, executable, memory)) == Loop(p, args, Config(state0, executable0, memory0))
    decreases p, 1
  {
    ghost var c := Config(state0, executable0, memory0);
    StepReturns(p, args, c);
    ghost var c1 := Refill(p, c);
    state, executable, memory := state0, executable0, memory0;
    if |executable| == 0 {
      state, executable := RescanLoop(p, state);
      assert c1 == Rescan(p, c);
    } else {
      assert c1 == c;
    }
    assert Config(state, executable, memory) == c1;
    assert Valid(p, c1) && Unfinished(c1.state) == Unfinished(state0);
    if OutputsReady(p, state) {
      done, r := true, Fetch(p.outputs, args, memory);
    } else if |executable| == 0 {
      done, r := true, Err(Stalled);
    } else {
      done, r, state, executable, memory := RunNext(p, args, state, executable, memory);
    }
  }

  /** Runs the head of the queue and records its results. */
  method RunNext(p: TreePlan, args: seq<TypedValue>, state0: seq<State>, executable0: seq<nat>, memory0: Memory)
    returns (done: bool, r: Result<seq<TypedValue>>, state: seq<State>, executable: seq<nat>, memory: Memory)
    requires PlanWellFormed(p) && Valid(p, Config(state0, executable0, memory0))
    requires |executable0| > 0 && !OutputsReady(p, state0)
    ensures done ==> r == Loop(p, args, Config(state0, executable0, memory0))
    ensures !done ==> Valid(p, Config(state, executable, memory))
    ensures !done ==> Unfinished(state) < Unfinished(state0)
    ensures !done ==> Loop(p, args, Config(state, executable, memory)) == Loop(p, args, Config(state0, executable0, memory0))
    decreases p, 0
  {
    ghost var c := Config(state0, executable0, memory0);
    state, executable, memory := state0, executable0, memory0;
    done := true;
    var executing := executable[0];
    executable := executable[1..];
    state := state[executing := Running];
    var inputs := Fetch(p.nodes[executing].inputs, args, memory);
    if inputs.Err? {
      RunFetchFails(p, args, c);
      r := Err(inputs.error);
      return;
    }
    r := RunStrategy(p.nodes[executing].strategy, inputs.value);
    if r.Err? {
      RunEvalFails(p, args, c, inputs.value);
      return;
    }
    memory := StoreResults(memory, executing, r.value);
    state := state[executing := Finished];
    ghost var next := Finish(c, r.value);
    assert state == next.state;
    RunContinues(p, args, c, inputs.value, r.value);
    FinishValid(p, c, r.value);
    assert Config(state, executable, memory) == next;
    done := false;
  }

  method Evaluate(p: TreePlan, args: seq<TypedValue>) returns (r: Result<seq<TypedValue>>)
    requires PlanWellFormed(p)
    ensures r == Execute(p, args)
    decreases p, 2
  {
    var memory: Memory := map[];
    var state: seq<State> := seq(|p.nodes|, _ => Waiting);
    var executable: seq<nat> := [];
    InitialValid(p);
    var done := false;
    while true
      invariant Valid(p, Config(state, executable, memory))
      invariant Loop(p, args, Config(state, executable, memory)) == Execute(p, args)
      decreases Unfinished(state)
    {
      done, r, state, executable, memory := Iterate(p, args, state, executable, memory);
      if done {
        return;
      }
    }
  }
}
