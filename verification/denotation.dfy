/**
 * What a plan means, independently of the scheduler: evaluate the nodes one
 * after another in position order, each reading its inputs from the results
 * of the nodes before it, then read the outputs. For a plan whose nodes only
 * read outputs of earlier positions (as every plan of a graph whose node ids
 * follow the data flow is), the scheduler of tellur_core/src/tree/plan.rs
 * computes exactly this whenever every node evaluates successfully: the
 * order in which it runs the nodes, and the point at which it stops, make no
 * difference.
 */
module Denotation {
  import opened Wrappers
  import opened Types
  import opened Plan

  /** Every node reads only outputs of nodes at earlier positions. */
  predicate Topological(p: TreePlan) {
    forall i, k :: 0 <= i < |p.nodes| && 0 <= k < |p.nodes[i].inputs| && p.nodes[i].inputs[k].NodeOutput? ==>
      p.nodes[i].inputs[k].position < i
  }

  /** The output slots of a list of per-node results. */
  function Memo(results: seq<seq<TypedValue>>): (m: Memory)
    ensures forall n: nat, o: nat :: (n, o) in m <==> n < |results| && o < |results[n]|
    ensures forall n: nat, o: nat :: (n, o) in m ==> m[(n, o)] == results[n][o]
  {
    map n: nat, o: nat | n < |results| && o < |results[n]| :: (n, o) := results[n][o]
  }

  /** The results of the first `n` nodes, evaluated in position order. */
  function Denote(p: TreePlan, args: seq<TypedValue>, n: nat): (r: Result<seq<seq<TypedValue>>>)
    requires PlanWellFormed(p) && n <= |p.nodes|
    ensures r.Ok? ==> |r.value| == n
  {
    if n == 0 then Ok([])
    else
      var prior :- Denote(p, args, n - 1);
      var inputs :- Fetch(p.nodes[n - 1].inputs, args, Memo(prior));
      var results :- EvalStrategy(p.nodes[n - 1].strategy, inputs);
      Ok(prior + [results])
  }

  /** The outputs of the plan under position-order evaluation. */
  function DenoteTree(p: TreePlan, args: seq<TypedValue>): Result<seq<TypedValue>>
    requires PlanWellFormed(p)
  {
    var all :- Denote(p, args, |p.nodes|);
    Fetch(p.outputs, args, Memo(all))
  }

  // ---------------------------------------------------------------------------
  // Facts about position-order evaluation
  // ---------------------------------------------------------------------------

  /** One more node: its inputs read from the results so far, and its results appended. */
  lemma DenoteStep(p: TreePlan, args: seq<TypedValue>, n: nat, prior: seq<seq<TypedValue>>,
                   inputs: seq<TypedValue>, results: seq<TypedValue>)
    requires PlanWellFormed(p) && n < |p.nodes| && Denote(p, args, n) == Ok(prior)
    requires Fetch(p.nodes[n].inputs, args, Memo(prior)) == Ok(inputs)
    requires EvalStrategy(p.nodes[n].strategy, inputs) == Ok(results)
    ensures Denote(p, args, n + 1) == Ok(prior + [results])
  {
  }

  /** Evaluating fewer nodes gives a prefix of the results. */
  lemma {:induction false} DenotePrefix(p: TreePlan, args: seq<TypedValue>, n: nat, m: nat, all: seq<seq<TypedValue>>)
    requires PlanWellFormed(p) && n <= m <= |p.nodes|
    requires Denote(p, args, m) == Ok(all)
    ensures Denote(p, args, n) == Ok(all[..n])
    decreases m
  {
    if n < m {
      var k := m - 1;
      var prior, last := all[..k], all[k];
      SplitLast(all);
      assert Denote(p, args, k + 1) == Ok(prior + [last]);
      DenoteLast(p, args, k, prior, last);
      DenotePrefix(p, args, n, k, prior);
      TakeTake(all, k, n);
    } else {
      assert all[..n] == all;
    }
  }

  /** Node `x` reads its inputs from the nodes before it and produces its entry of the results. */
  lemma DenoteNode(p: TreePlan, args: seq<TypedValue>, x: nat, d: seq<seq<TypedValue>>)
    requires PlanWellFormed(p) && x < |p.nodes| && Denote(p, args, |p.nodes|) == Ok(d)
    ensures var inputs := Fetch(p.nodes[x].inputs, args, Memo(d[..x]));
      inputs.Ok? && EvalStrategy(p.nodes[x].strategy, inputs.value) == Ok(d[x])
  {
    DenotePrefix(p, args, x + 1, |p.nodes|, d);
    SplitAt(d, x);
    DenoteLast(p, args, x, d[..x], d[x]);
  }

  /** A successful evaluation of `n + 1` nodes is that of `n` nodes followed by node `n`'s results. */
  lemma DenoteLast(p: TreePlan, args: seq<TypedValue>, n: nat, prior: seq<seq<TypedValue>>, last: seq<TypedValue>)
    requires PlanWellFormed(p) && n < |p.nodes| && Denote(p, args, n + 1) == Ok(prior + [last])
    ensures Denote(p, args, n) == Ok(prior)
    ensures var inputs := Fetch(p.nodes[n].inputs, args, Memo(prior));
      inputs.Ok? && EvalStrategy(p.nodes[n].strategy, inputs.value) == Ok(last)
  {
    var before := Denote(p, args, n).value;
    var inputs := Fetch(p.nodes[n].inputs, args, Memo(before)).value;
    AppendInjective(before, EvalStrategy(p.nodes[n].strategy, inputs).value, prior, last);
  }

  lemma TakeTake<T>(s: seq<T>, m: nat, n: nat)
    requires n <= m <= |s|
    ensures s[..m][..n] == s[..n]
  {
  }

  lemma SplitAt<T>(s: seq<T>, k: nat)
    requires k < |s|
    ensures s[..k + 1] == s[..k] + [s[k]]
  {
  }

  lemma SplitLast<T>(s: seq<T>)
    requires |s| > 0
    ensures s == s[..|s| - 1] + [s[|s| - 1]]
  {
  }

  lemma AppendInjective<T>(a: seq<T>, b: T, c: seq<T>, d: T)
    requires a + [b] == c + [d]
    ensures a == c && b == d
  {
    assert |a| == |c|;
    assert (a + [b])[..|a|] == a && (c + [d])[..|c|] == c;
    assert (a + [b])[|a|] == b && (c + [d])[|c|] == d;
  }

  /** Two memories that answer every input of a list alike give the same fetch. */
  lemma {:induction false} FetchAgrees(ins: seq<PlannedInput>, args: seq<TypedValue>, m1: Memory, m2: Memory)
    requires forall k :: 0 <= k < |ins| ==> FetchOne(ins[k], args, m1) == FetchOne(ins[k], args, m2)
    ensures Fetch(ins, args, m1) == Fetch(ins, args, m2)
  {
    if |ins| > 0 {
      FetchAgrees(ins[1..], args, m1, m2);
    }
  }

  // ---------------------------------------------------------------------------
  // The scheduler against position-order evaluation
  // ---------------------------------------------------------------------------

  /**
   * The scheduler's memory holds exactly the slots of the finished nodes,
   * with the values position-order evaluation gives them.
   */
  predicate Agrees(state: seq<State>, memory: Memory, d: seq<seq<TypedValue>>) {
    && |state| == |d|
    && (forall key :: key in memory ==>
          key.0 < |d| && state[key.0] == Finished && key.1 < |d[key.0]| && memory[key] == d[key.0][key.1])
    && (forall n, o :: 0 <= n < |d| && 0 <= o < |d[n]| && state[n] == Finished ==> (n, o) in memory)
  }

  lemma AgreesSameFinished(a: seq<State>, b: seq<State>, memory: Memory, d: seq<seq<TypedValue>>)
    requires Agrees(a, memory, d) && SameFinished(a, b)
    ensures Agrees(b, memory, d)
  {
  }

  /** An available input reads the same from the scheduler's memory as from the results before `x`. */
  lemma FetchOneAgrees(i: PlannedInput, args: seq<TypedValue>, state: seq<State>, memory: Memory,
                       d: seq<seq<TypedValue>>, x: nat)
    requires Agrees(state, memory, d) && Available(i, state) && x <= |d|
    requires i.NodeOutput? ==> i.position < x
    ensures FetchOne(i, args, memory) == FetchOne(i, args, Memo(d[..x]))
  {
    if i.NodeOutput? {
      var key := (i.position, i.outputIndex);
      assert d[..x][i.position] == d[i.position];
      if key in memory {
        assert key in Memo(d[..x]);
      }
      if key in Memo(d[..x]) {
        assert key in memory;
      }
    }
  }

  /** Finishing node `x` with its results keeps the memory in agreement. */
  lemma FinishAgrees(state: seq<State>, memory: Memory, d: seq<seq<TypedValue>>, x: nat)
    requires Agrees(state, memory, d) && x < |state| && state[x] != Finished
    ensures Agrees(state[x := Finished], Store(memory, x, d[x]), d)
  {
    var m := Store(memory, x, d[x]);
    var s := state[x := Finished];
    forall key | key in m
      ensures key.0 < |d| && s[key.0] == Finished && key.1 < |d[key.0]| && m[key] == d[key.0][key.1]
    {
      if key.0 == x && key.1 < |d[x]| {
      } else {
        assert key in memory;
      }
    }
  }

  /** The first position that has not finished, or the length when all have. */
  function FirstUnfinished(state: seq<State>): (i: nat)
    ensures i <= |state|
    ensures forall j :: 0 <= j < i ==> state[j] == Finished
    ensures i < |state| ==> state[i] != Finished
  {
    if |state| == 0 then 0
    else if state[0] != Finished then 0
    else 1 + FirstUnfinished(state[1..])
  }

  /**
   * In a topological plan the scheduler never stalls: while the outputs are
   * unavailable, the earliest unfinished node is queued or can be.
   */
  lemma NeverStalls(p: TreePlan, c: Config)
    requires PlanWellFormed(p) && Topological(p) && Valid(p, c)
    requires !OutputsReady(p, c.state)
    ensures |Refill(p, c).queue| > 0
  {
    var k :| 0 <= k < |p.outputs| && !Available(p.outputs[k], c.state);
    var i := FirstUnfinished(c.state);
    assert i < |c.state|;
    if c.state[i] == Ready {
      assert i in c.queue;
    } else {
      assert Enabled(p, c.state, i);
      StalledIff(p, [], c);
    }
  }

  /** Once the outputs are available, the scheduler returns the position-order outputs. */
  lemma ReadyDenotes(p: TreePlan, args: seq<TypedValue>, c: Config, d: seq<seq<TypedValue>>)
    requires PlanWellFormed(p) && Valid(p, c) && |p.nodes| == |d|
    requires Agrees(c.state, c.memory, d) && OutputsReady(p, c.state)
    ensures Fetch(p.outputs, args, c.memory) == Fetch(p.outputs, args, Memo(d))
  {
    assert d[..|d|] == d;
    forall k | 0 <= k < |p.outputs|
      ensures FetchOne(p.outputs[k], args, c.memory) == FetchOne(p.outputs[k], args, Memo(d))
    {
      FetchOneAgrees(p.outputs[k], args, c.state, c.memory, d, |d|);
    }
    FetchAgrees(p.outputs, args, c.memory, Memo(d));
  }

  /** The head of the queue reads the same inputs from the memory as from the results before it. */
  lemma HeadFetchAgrees(p: TreePlan, args: seq<TypedValue>, c1: Config, d: seq<seq<TypedValue>>)
    requires PlanWellFormed(p) && Topological(p) && Valid(p, c1) && |c1.queue| > 0
    requires Agrees(c1.state, c1.memory, d)
    ensures var x := c1.queue[0];
      Fetch(p.nodes[x].inputs, args, c1.memory) == Fetch(p.nodes[x].inputs, args, Memo(d[..x]))
  {
    var x := c1.queue[0];
    var ins := p.nodes[x].inputs;
    assert DepsFinished(ins, c1.state);
    forall k | 0 <= k < |ins|
      ensures FetchOne(ins[k], args, c1.memory) == FetchOne(ins[k], args, Memo(d[..x]))
    {
      assert Available(ins[k], c1.state);
      FetchOneAgrees(ins[k], args, c1.state, c1.memory, d, x);
    }
    FetchAgrees(ins, args, c1.memory, Memo(d[..x]));
  }

  /**
   * While the outputs are unavailable, an iteration runs the head of the
   * queue, which reads what position-order evaluation gave its inputs and
   * produces its entry of the results.
   */
  lemma RunDenotes(p: TreePlan, args: seq<TypedValue>, c: Config, d: seq<seq<TypedValue>>)
    requires PlanWellFormed(p) && Topological(p) && Valid(p, c)
    requires Denote(p, args, |p.nodes|) == Ok(d)
    requires Agrees(c.state, c.memory, d) && !OutputsReady(p, Refill(p, c).state)
    ensures |Refill(p, c).queue| > 0
    ensures var next := Finish(Refill(p, c), d[Refill(p, c).queue[0]]);
      && Valid(p, next) && Agrees(next.state, next.memory, d)
      && Unfinished(next.state) < Unfinished(c.state)
      && Loop(p, args, c) == Loop(p, args, next)
  {
    var c1 := Refill(p, c);
    AgreesSameFinished(c.state, c1.state, c.memory, d);
    StepReturns(p, args, c);
    DepsFinishedSame(p.outputs, c.state, c1.state);
    NeverStalls(p, c);
    var x := c1.queue[0];
    var ins := p.nodes[x].inputs;
    HeadFetchAgrees(p, args, c1, d);
    DenoteNode(p, args, x, d);
    RunContinues(p, args, c1, Fetch(ins, args, c1.memory).value, d[x]);
    FinishValid(p, c1, d[x]);
    FinishAgrees(c1.state, c1.memory, d, x);
  }

  /** From any reachable configuration the scheduler ends with the position-order outputs. */
  lemma {:induction false} LoopDenotes(p: TreePlan, args: seq<TypedValue>, c: Config, d: seq<seq<TypedValue>>)
    requires PlanWellFormed(p) && Topological(p) && Valid(p, c)
    requires Denote(p, args, |p.nodes|) == Ok(d)
    requires Agrees(c.state, c.memory, d)
    ensures Loop(p, args, c) == Fetch(p.outputs, args, Memo(d))
    decreases Unfinished(c.state)
  {
    var c1 := Refill(p, c);
    StepReturns(p, args, c);
    if OutputsReady(p, c1.state) {
      AgreesSameFinished(c.state, c1.state, c.memory, d);
      ReadyDenotes(p, args, c1, d);
    } else {
      RunDenotes(p, args, c, d);
      LoopDenotes(p, args, Finish(c1, d[c1.queue[0]]), d);
    }
  }

  /**
   * The scheduler computes the position-order meaning of a topological plan
   * whenever every node evaluates successfully in that order.
   */
  lemma ExecuteDenotes(p: TreePlan, args: seq<TypedValue>)
    requires PlanWellFormed(p) && Topological(p) && Denote(p, args, |p.nodes|).Ok?
    ensures Execute(p, args) == DenoteTree(p, args)
  {
    InitialValid(p);
    LoopDenotes(p, args, Initial(p), Denote(p, args, |p.nodes|).value);
  }
}
