/** The interference graph of the register allocator (`RegisterAllocation.InterferenceGraph`):
    one node per allocation candidate and an edge between two candidates that are both defined or
    live-out at some instruction. */
module Interference {
  import opened Ir
  import opened Sets
  import opened Liveness

  /** The allocation candidates: entries of scope LOCAL other than `this`. */
  ghost function Candidates(vt: map<string, Descriptor>): set<string> {
    set x | x in vt && vt[x].scope == Local && x != THIS
  }

  /** `getLocalVariablesToAllocate` and `collectVariables`: one pass over the variable table that
      keeps the LOCAL entries other than `this`. */
  method LocalVariables(vt: map<string, Descriptor>) returns (vars: set<string>)
    ensures vars == Candidates(vt)
    ensures forall x :: x in vars <==> x in vt && vt[x].scope == Local && x != THIS
  {
    vars := {};
    var remaining := vt.Keys;
    while remaining != {}
      invariant remaining <= vt.Keys
      invariant forall x :: x in vars <==> x in vt.Keys - remaining && vt[x].scope == Local && x != THIS
      decreases |remaining|
    {
      var name :| name in remaining;
      if vt[name].scope == Local && name != THIS {
        vars := vars + {name};
      }
      remaining := remaining - {name};
    }
  }

  /** The variables defined or live on exit at instruction `k`. */
  function Interfering(defs: seq<set<string>>, outs: seq<set<string>>, k: int): set<string>
    requires 0 <= k < |defs| && k < |outs|
  {
    defs[k] + outs[k]
  }

  /** `v` and `w` are both defined or live-out at one of the first `n` instructions. */
  ghost predicate InterfereBefore(defs: seq<set<string>>, outs: seq<set<string>>, n: int, v: string, w: string) {
    exists k :: 0 <= k < n && k < |defs| && k < |outs| && v in Interfering(defs, outs, k) && w in Interfering(defs, outs, k)
  }

  ghost predicate Interfere(defs: seq<set<string>>, outs: seq<set<string>>, v: string, w: string) {
    InterfereBefore(defs, outs, |defs|, v, w)
  }

  /** An undirected simple graph over `vars`: every node has an entry, edges join nodes of the
      graph, and they are symmetric and never loops. */
  ghost predicate IsGraph(adj: map<string, set<string>>, vars: set<string>) {
    adj.Keys == vars &&
    forall v, w :: v in adj && w in adj[v] ==> w in adj && v in adj[w] && v != w
  }

  /** The nodes an edge-update has connected so far while scanning the pairs `(p, q)`, `p < q`,
      of `list` in order, up to row `a` and column `b`. */
  ghost predicate PairsDone(adj: map<string, set<string>>, vars: set<string>, list: seq<string>, a: int, b: int) {
    forall p, q :: 0 <= p < q < |list| && (p < a || (p == a && q < b)) && list[p] in vars && list[q] in vars ==>
      list[p] in adj && list[q] in adj && list[q] in adj[list[p]] && list[p] in adj[list[q]]
  }

  /** Every edge joins two variables that interfere at one of the first `n` instructions. */
  ghost predicate Sound(adj: map<string, set<string>>, defs: seq<set<string>>, outs: seq<set<string>>, n: int) {
    forall v, w :: v in adj && w in adj[v] ==> InterfereBefore(defs, outs, n, v, w)
  }

  /** Every two distinct nodes that interfere at one of the first `n` instructions are adjacent. */
  ghost predicate Complete(adj: map<string, set<string>>, vars: set<string>, defs: seq<set<string>>,
                           outs: seq<set<string>>, n: int) {
    forall v, w :: v in vars && w in vars && v != w && InterfereBefore(defs, outs, n, v, w) ==> v in adj && w in adj[v]
  }

  lemma SoundGrow(adj: map<string, set<string>>, defs: seq<set<string>>, outs: seq<set<string>>, n: int)
    requires Sound(adj, defs, outs, n)
    ensures Sound(adj, defs, outs, n + 1)
  {
    forall v, w | v in adj && w in adj[v]
      ensures InterfereBefore(defs, outs, n + 1, v, w)
    {
      var k :| 0 <= k < n && k < |defs| && k < |outs| && v in Interfering(defs, outs, k) && w in Interfering(defs, outs, k);
    }
  }

  lemma Characterization(adj: map<string, set<string>>, vars: set<string>, defs: seq<set<string>>,
                         outs: seq<set<string>>)
    requires IsGraph(adj, vars)
    requires Sound(adj, defs, outs, |defs|)
    requires Complete(adj, vars, defs, outs, |defs|)
    ensures forall v, w :: v in adj && w in adj[v] <==> v in vars && w in vars && v != w && Interfere(defs, outs, v, w)
  {
  }

  /** Once every pair of `list` has been scanned, the interferences of instruction `k` are in. */
  lemma CompleteStep(adj: map<string, set<string>>, vars: set<string>, defs: seq<set<string>>,
                     outs: seq<set<string>>, k: int, list: seq<string>)
    requires 0 <= k < |defs| && k < |outs| && Elems(list) == defs[k] + outs[k] && Distinct(list)
    requires IsGraph(adj, vars)
    requires Complete(adj, vars, defs, outs, k)
    requires PairsDone(adj, vars, list, |list|, 0)
    ensures Complete(adj, vars, defs, outs, k + 1)
  {
    forall v, w | v in vars && w in vars && v != w && InterfereBefore(defs, outs, k + 1, v, w)
      ensures v in adj && w in adj[v]
    {
      if !InterfereBefore(defs, outs, k, v, w) {
        var j :| 0 <= j < k + 1 && j < |defs| && j < |outs| && v in Interfering(defs, outs, j) && w in Interfering(defs, outs, j);
        assert j == k;
        assert v in Elems(list) && w in Elems(list);
        var p :| 0 <= p < |list| && list[p] == v;
        var q :| 0 <= q < |list| && list[q] == w;
        assert p != q;
      }
    }
  }

  class InterferenceGraph {
    const meth: Method
    const liveness: LivenessAnalysis
    var adjacencyList: map<string, set<string>>
    var variables: set<string>

    ghost predicate Valid()
      reads this
    {
      IsGraph(adjacencyList, variables)
    }

    constructor(meth: Method, liveness: LivenessAnalysis)
      ensures this.meth == meth && this.liveness == liveness
      ensures adjacencyList == map[] && variables == {} && Valid()
    {
      this.meth := meth;
      this.liveness := liveness;
      adjacencyList := map[];
      variables := {};
    }

    /** `getNeighbors`: the neighbours of `v`, or none when `v` is not a node. */
    function Neighbors(v: string): (r: set<string>)
      reads this
      ensures v !in adjacencyList ==> r == {}
      ensures v in adjacencyList ==> r == adjacencyList[v]
    {
      if v in adjacencyList then adjacencyList[v] else {}
    }

    /** `getDegree`. */
    function Degree(v: string): (d: nat)
      reads this
      ensures d == |Neighbors(v)|
    {
      |if v in adjacencyList then adjacencyList[v] else {}|
    }

    /** A node has fewer neighbours than the graph has nodes. */
    lemma DegreeBound(v: string)
      requires Valid()
      ensures v in variables ==> Degree(v) < |variables|
    {
      if v in variables {
        SubsetCard(adjacencyList[v], variables - {v});
      }
    }

    /** `build`: the nodes are the allocation candidates, and two candidates are adjacent exactly
        when they are both in `def(i) ∪ liveOut(i)` for some instruction `i`. */
    method Build()
      requires adjacencyList == map[] && variables == {}
      requires liveness.analyzed && liveness.Valid() && liveness.meth == meth
      modifies this
      ensures Valid()
      ensures variables == Candidates(meth.varTable)
      ensures forall v, w :: v in adjacencyList && w in adjacencyList[v] <==>
        v in variables && w in variables && v != w && Interfere(liveness.defSets, liveness.liveOuts, v, w)
    {
      variables := LocalVariables(meth.varTable);
      adjacencyList := map v | v in variables :: {};
      var insts := meth.instructions;
      var defs := liveness.defSets;
      var outs := liveness.liveOuts;
      assert |defs| == |outs| == |insts| by {
        assert IsSolution(defs, liveness.useSets, Succs(insts), liveness.liveIns, outs);
      }
      ghost var vars := variables;
      for k := 0 to |insts|
        invariant variables == vars
        invariant IsGraph(adjacencyList, variables)
        invariant Sound(adjacencyList, defs, outs, k)
        invariant Complete(adjacencyList, variables, defs, outs, k)
      {
        AddInterferences(k, defs, outs);
      }
      Characterization(adjacencyList, variables, defs, outs);
    }

    /** The body of the instruction loop of `build`: connects every two distinct candidates of
        `def(k) ∪ liveOut(k)`, scanning the pairs of a list of that set. */
    method AddInterferences(k: int, defs: seq<set<string>>, outs: seq<set<string>>)
      requires 0 <= k < |defs| && k < |outs|
      requires IsGraph(adjacencyList, variables)
      requires Sound(adjacencyList, defs, outs, k)
      requires Complete(adjacencyList, variables, defs, outs, k)
      modifies this
      ensures variables == old(variables) && IsGraph(adjacencyList, variables)
      ensures Sound(adjacencyList, defs, outs, k + 1)
      ensures Complete(adjacencyList, variables, defs, outs, k + 1)
    {
      SoundGrow(adjacencyList, defs, outs, k);
      var interferingVars := defs[k] + outs[k];
      var varList := ToSeq(interferingVars);
      for a := 0 to |varList|
        invariant variables == old(variables) && IsGraph(adjacencyList, variables)
        invariant Sound(adjacencyList, defs, outs, k + 1)
        invariant Complete(adjacencyList, variables, defs, outs, k)
        invariant PairsDone(adjacencyList, variables, varList, a, 0)
      {
        ScanRow(k, defs, outs, varList, a);
      }
      CompleteStep(adjacencyList, variables, defs, outs, k, varList);
    }

    /** The inner `j` loop of `build` for row `a` of the pair scan. */
    method ScanRow(k: int, defs: seq<set<string>>, outs: seq<set<string>>, varList: seq<string>, a: int)
      requires 0 <= k < |defs| && k < |outs| && Elems(varList) == defs[k] + outs[k] && Distinct(varList)
      requires 0 <= a < |varList|
      requires IsGraph(adjacencyList, variables)
      requires Sound(adjacencyList, defs, outs, k + 1)
      requires Complete(adjacencyList, variables, defs, outs, k)
      requires PairsDone(adjacencyList, variables, varList, a, 0)
      modifies this
      ensures variables == old(variables) && IsGraph(adjacencyList, variables)
      ensures Sound(adjacencyList, defs, outs, k + 1)
      ensures Complete(adjacencyList, variables, defs, outs, k)
      ensures PairsDone(adjacencyList, variables, varList, a + 1, 0)
    {
      for b := a + 1 to |varList|
        invariant variables == old(variables) && IsGraph(adjacencyList, variables)
        invariant Sound(adjacencyList, defs, outs, k + 1)
        invariant Complete(adjacencyList, variables, defs, outs, k)
        invariant PairsDone(adjacencyList, variables, varList, a, b)
      {
        var var1 := varList[a];
        var var2 := varList[b];
        if var1 in variables && var2 in variables {
          AddEdge(var1, var2, k, defs, outs, varList, a, b);
        } else {
          PairsSkip(adjacencyList, variables, varList, a, b);
        }
      }
      PairsRowDone(adjacencyList, variables, varList, a);
    }

    /** One update of the pair loop of `build`: `var1` and `var2` become adjacent, both ways. */
    method AddEdge(var1: string, var2: string, ghost k: int, ghost defs: seq<set<string>>, ghost outs: seq<set<string>>,
                   ghost varList: seq<string>, ghost a: int, ghost b: int)
      requires 0 <= a < b < |varList| && varList[a] == var1 && varList[b] == var2 && Distinct(varList)
      requires 0 <= k < |defs| && k < |outs| && Elems(varList) == defs[k] + outs[k]
      requires var1 in variables && var2 in variables
      requires IsGraph(adjacencyList, variables)
      requires Sound(adjacencyList, defs, outs, k + 1)
      requires PairsDone(adjacencyList, variables, varList, a, b)
      requires Complete(adjacencyList, variables, defs, outs, k)
      modifies this
      ensures variables == old(variables) && IsGraph(adjacencyList, variables)
      ensures Sound(adjacencyList, defs, outs, k + 1)
      ensures Complete(adjacencyList, variables, defs, outs, k)
      ensures PairsDone(adjacencyList, variables, varList, a, b + 1)
    {
      ghost var adj0 := adjacencyList;
      assert var1 != var2;
      adjacencyList := adjacencyList[var1 := adjacencyList[var1] + {var2}];
      adjacencyList := adjacencyList[var2 := adjacencyList[var2] + {var1}];
      assert adjacencyList == Connect(adj0, var1, var2);
      ConnectIsGraph(adj0, variables, var1, var2);
      ConnectSound(adj0, defs, outs, k, var1, var2);
      ConnectComplete(adj0, variables, defs, outs, k, var1, var2);
      ConnectPairsDone(adj0, variables, varList, a, b);
    }

    /** `removeVariable`: deletes `v` with every edge that touches it and leaves the rest of the
        graph as it was. */
    method RemoveVariable(v: string)
      requires Valid()
      modifies this
      ensures Valid()
      ensures variables == old(variables) - {v}
      ensures adjacencyList == Removed(old(adjacencyList), v)
    {
      ghost var adj0 := adjacencyList;
      RemovedIsGraph(adj0, variables, v);
      if v in adjacencyList {
        var neighbors := adjacencyList[v];
        adjacencyList := adjacencyList - {v};
        DropEdgesTo(v, neighbors, adj0);
        assert adjacencyList == Removed(adj0, v);
      }
      variables := variables - {v};
    }

    /** The loop of `removeVariable` over the neighbours of `v`: each loses its edge to `v`. */
    method DropEdgesTo(v: string, neighbors: set<string>, ghost adj0: map<string, set<string>>)
      requires adjacencyList.Keys == adj0.Keys - {v} && neighbors <= adjacencyList.Keys
      requires forall x :: x in adjacencyList ==> adjacencyList[x] == adj0[x]
      modifies this
      ensures variables == old(variables)
      ensures adjacencyList.Keys == adj0.Keys - {v}
      ensures forall x :: x in adjacencyList ==>
        adjacencyList[x] == (if x in neighbors then adj0[x] - {v} else adj0[x])
    {
      var rest := neighbors;
      while rest != {}
        invariant rest <= neighbors && variables == old(variables)
        invariant adjacencyList.Keys == adj0.Keys - {v}
        invariant forall x :: x in adjacencyList ==>
          adjacencyList[x] == (if x in neighbors - rest then adj0[x] - {v} else adj0[x])
        decreases |rest|
      {
        var neighbor :| neighbor in rest;
        adjacencyList := adjacencyList[neighbor := adjacencyList[neighbor] - {v}];
        rest := rest - {neighbor};
      }
    }
  }

  /** The graph with an edge between `v` and `w` added. */
  function Connect(adj: map<string, set<string>>, v: string, w: string): map<string, set<string>>
    requires v in adj && w in adj && v != w
  {
    adj[v := adj[v] + {w}][w := adj[w] + {v}]
  }

  lemma ConnectKeeps(adj: map<string, set<string>>, v: string, w: string)
    requires v in adj && w in adj && v != w
    ensures Connect(adj, v, w).Keys == adj.Keys
    ensures forall x :: x in adj ==> adj[x] <= Connect(adj, v, w)[x]
    ensures forall x, y :: x in adj && y in Connect(adj, v, w)[x] ==> y in adj[x] || (x == v && y == w) || (x == w && y == v)
  {
  }

  lemma ConnectIsGraph(adj: map<string, set<string>>, vars: set<string>, v: string, w: string)
    requires IsGraph(adj, vars) && v in vars && w in vars && v != w
    ensures IsGraph(Connect(adj, v, w), vars)
  {
    ConnectKeeps(adj, v, w);
  }

  lemma ConnectSound(adj: map<string, set<string>>, defs: seq<set<string>>, outs: seq<set<string>>, k: int,
                     v: string, w: string)
    requires v in adj && w in adj && v != w && 0 <= k < |defs| && k < |outs|
    requires v in Interfering(defs, outs, k) && w in Interfering(defs, outs, k)
    requires Sound(adj, defs, outs, k + 1)
    ensures Sound(Connect(adj, v, w), defs, outs, k + 1)
  {
    ConnectKeeps(adj, v, w);
    assert InterfereBefore(defs, outs, k + 1, v, w) && InterfereBefore(defs, outs, k + 1, w, v);
  }

  lemma ConnectComplete(adj: map<string, set<string>>, vars: set<string>, defs: seq<set<string>>,
                        outs: seq<set<string>>, k: int, v: string, w: string)
    requires v in adj && w in adj && v != w
    requires Complete(adj, vars, defs, outs, k)
    ensures Complete(Connect(adj, v, w), vars, defs, outs, k)
  {
    ConnectKeeps(adj, v, w);
  }

  lemma ConnectPairsDone(adj: map<string, set<string>>, vars: set<string>, list: seq<string>, a: int, b: int)
    requires 0 <= a < b < |list| && list[a] in adj && list[b] in adj && list[a] != list[b]
    requires PairsDone(adj, vars, list, a, b)
    ensures PairsDone(Connect(adj, list[a], list[b]), vars, list, a, b + 1)
  {
    ConnectKeeps(adj, list[a], list[b]);
  }

  /** A pair with an end outside the graph needs no edge. */
  lemma PairsSkip(adj: map<string, set<string>>, vars: set<string>, list: seq<string>, a: int, b: int)
    requires 0 <= a < b < |list| && !(list[a] in vars && list[b] in vars)
    requires PairsDone(adj, vars, list, a, b)
    ensures PairsDone(adj, vars, list, a, b + 1)
  {
  }

  lemma PairsRowDone(adj: map<string, set<string>>, vars: set<string>, list: seq<string>, a: int)
    requires 0 <= a < |list| && PairsDone(adj, vars, list, a, |list|)
    ensures PairsDone(adj, vars, list, a + 1, 0)
  {
  }

  /** The graph without `v` and its edges. */
  function Removed(adj: map<string, set<string>>, v: string): map<string, set<string>> {
    map x | x in adj && x != v :: adj[x] - {v}
  }

  /** Removing a node from a graph leaves a graph on the other nodes; only the neighbours of the
      node lose an edge. */
  lemma RemovedIsGraph(adj: map<string, set<string>>, vars: set<string>, v: string)
    requires IsGraph(adj, vars)
    ensures IsGraph(Removed(adj, v), vars - {v})
    ensures v !in adj ==> Removed(adj, v) == adj
    ensures v in adj ==> forall x :: x in adj && x != v && x !in adj[v] ==> adj[x] - {v} == adj[x]
  {
    var r := Removed(adj, v);
    forall x, w | x in r && w in r[x]
      ensures w in r && x in r[w] && x != w
    {
      assert w in adj[x] && w != v;
      assert x in adj[w];
    }
    if v !in adj {
      forall x | x in adj
        ensures adj[x] - {v} == adj[x]
      {
        assert v !in adj[x];
      }
    }
  }
}
