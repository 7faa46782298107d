/** The simplify/select colouring of the interference graph (`RegisterAllocation.GraphColoring`).
    Simplify removes, one at a time, a node with fewer than `maxColors` neighbours and pushes it on
    a stack; select pops the stack and gives each node the smallest register, from the first
    register not held by a parameter or by `this`, that no already coloured original neighbour
    and no reserved slot uses. */
module Coloring {
  import opened Wrappers
  import opened Ir
  import opened Sets
  import opened Strings
  import Int32
  import opened Liveness
  import opened Interference

  /** The slots of the entries that are parameters or `this`. */
  ghost function Reserved(vt: map<string, Descriptor>): set<int> {
    set x | x in vt && (vt[x].scope == Parameter || x == THIS) :: vt[x].virtualReg
  }

  /** The loop that `reserveParameterRegisters` and `assignColor` both run over the variable table. */
  method ReservedRegisters(vt: map<string, Descriptor>) returns (r: set<int>)
    ensures r == Reserved(vt)
    ensures forall s :: s in r <==> exists x :: x in vt && (vt[x].scope == Parameter || x == THIS) && vt[x].virtualReg == s
  {
    r := {};
    var remaining := vt.Keys;
    ghost var done: set<string> := {};
    while remaining != {}
      invariant remaining <= vt.Keys && done == vt.Keys - remaining
      invariant r == set x | x in done && (vt[x].scope == Parameter || x == THIS) :: vt[x].virtualReg
      decreases |remaining|
    {
      var name :| name in remaining;
      if vt[name].scope == Parameter || name == THIS {
        r := r + {vt[name].virtualReg};
      }
      remaining := remaining - {name};
      done := done + {name};
    }
    assert done == vt.Keys;
  }

  /** `c` is the smallest integer from `start` on that is not in `used`. */
  predicate LeastFree(c: int, start: int, used: set<int>) {
    start <= c && c !in used && forall i :: start <= i < c ==> i in used
  }

  lemma LeastFreeUnique(c: int, d: int, start: int, used: set<int>)
    requires LeastFree(c, start, used) && LeastFree(d, start, used)
    ensures c == d
  {
  }

  /** The counting loop `while (used.contains(c)) c++` of both register searches. */
  method FirstFree(start: int, used: set<int>) returns (c: int)
    ensures LeastFree(c, start, used)
  {
    c := start;
    ghost var ahead := set x | x in used && x >= c;
    while c in used
      invariant start <= c && forall i :: start <= i < c ==> i in used
      invariant ahead == set x | x in used && x >= c
      decreases |ahead|
    {
      assert c in ahead;
      ahead := ahead - {c};
      c := c + 1;
    }
  }

  /** A run of integers from `start` up to `c` that all lie in `used` is no longer than `used`. */
  lemma {:induction false} CoveredBound(start: int, c: int, used: set<int>)
    requires start <= c && forall i :: start <= i < c ==> i in used
    ensures c - start <= |used|
    decreases c - start
  {
    if start < c {
      assert start in used;
      CoveredBound(start + 1, c, used - {start});
    }
  }

  /** The search passes over at most `|used|` taken registers. */
  lemma LeastFreeBound(c: int, start: int, used: set<int>)
    requires LeastFree(c, start, used)
    ensures c - start <= |used|
  {
    CoveredBound(start, c, used);
  }

  /** The registers of the already coloured members of `neighbors`. */
  function NeighborColors(neighbors: set<string>, allocation: map<string, int>): (r: set<int>)
    ensures forall n :: n in neighbors && n in allocation ==> allocation[n] in r
    ensures forall c :: c in r ==> exists n :: n in neighbors && n in allocation && allocation[n] == c
  {
    set n | n in neighbors && n in allocation :: allocation[n]
  }

  lemma {:induction false} NeighborColorsCard(neighbors: set<string>, allocation: map<string, int>)
    ensures |NeighborColors(neighbors, allocation)| <= |neighbors * allocation.Keys|
    decreases |neighbors|
  {
    if neighbors != {} {
      var n :| n in neighbors;
      var rest := neighbors - {n};
      NeighborColorsCard(rest, allocation);
      assert neighbors == rest + {n};
      NeighborColorsAdd(rest, n, allocation);
      IntersectAdd(rest, n, allocation.Keys);
      var small := NeighborColors(rest, allocation);
      if n in allocation {
        assert |small + {allocation[n]}| <= |small| + 1;
      }
    }
  }

  lemma IntersectAdd(rest: set<string>, n: string, keys: set<string>)
    requires n !in rest
    ensures n in keys ==> (rest + {n}) * keys == rest * keys + {n} && |(rest + {n}) * keys| == |rest * keys| + 1
    ensures n !in keys ==> (rest + {n}) * keys == rest * keys
  {
  }

  /** Adding one node adds at most its own register. */
  lemma NeighborColorsAdd(rest: set<string>, n: string, allocation: map<string, int>)
    ensures n in allocation ==> NeighborColors(rest + {n}, allocation) == NeighborColors(rest, allocation) + {allocation[n]}
    ensures n !in allocation ==> NeighborColors(rest + {n}, allocation) == NeighborColors(rest, allocation)
  {
    var big, small := NeighborColors(rest + {n}, allocation), NeighborColors(rest, allocation);
    forall c | c in big
      ensures c in small || (n in allocation && c == allocation[n])
    {
      var m :| m in rest + {n} && m in allocation && allocation[m] == c;
      if m != n {
        assert m in rest;
      }
    }
  }

  /** `getOrDefault(v, emptySet())` on an adjacency map. */
  function NeighborsIn(adj: map<string, set<string>>, v: string): set<string> {
    if v in adj then adj[v] else {}
  }

  /** No two adjacent coloured nodes share a register. */
  ghost predicate Proper(orig: map<string, set<string>>, allocation: map<string, int>) {
    forall v, w :: v in allocation && w in allocation && v in orig && w in orig[v] ==> allocation[v] != allocation[w]
  }

  /** Every register of `allocation` lies in `[lo, hi)` and is not in `reserved`. */
  ghost predicate InRange(allocation: map<string, int>, reserved: set<int>, lo: int, hi: int) {
    forall v :: v in allocation ==> allocation[v] !in reserved && lo <= allocation[v] < hi
  }

  lemma InRangeStep(allocation: map<string, int>, reserved: set<int>, lo: int, hi: int, u: string, c: int)
    requires InRange(allocation, reserved, lo, hi) && c !in reserved && lo <= c < hi
    ensures InRange(allocation[u := c], reserved, lo, hi)
  {
  }

  /** While simplify runs, the working graph is the original one restricted to the nodes left. */
  ghost predicate Restricted(adj: map<string, set<string>>, orig: map<string, set<string>>, vars: set<string>) {
    vars <= orig.Keys && adj.Keys == vars && forall x :: x in vars ==> adj[x] == orig[x] * vars
  }

  /** Each node on the stack had fewer than `k` neighbours among the nodes still in the graph when
      it was removed: those pushed after it and those not removed yet. */
  ghost predicate RemovedLow(orig: map<string, set<string>>, stack: seq<string>, rest: set<string>, k: int) {
    forall i :: 0 <= i < |stack| ==> LowAt(orig, stack, rest, i, k)
  }

  /** The node at position `i` of the stack had fewer than `k` neighbours left when it was removed. */
  ghost predicate LowAt(orig: map<string, set<string>>, stack: seq<string>, rest: set<string>, i: int, k: int)
    requires 0 <= i < |stack|
  {
    stack[i] in orig && |orig[stack[i]] * (Elems(stack[i + 1..]) + rest)| < k
  }

  lemma InitiallyRestricted(adj: map<string, set<string>>, vars: set<string>)
    requires IsGraph(adj, vars)
    ensures Restricted(adj, adj, vars)
  {
    forall x | x in vars
      ensures adj[x] == adj[x] * vars
    {
    }
  }

  /** Removing a node `v` of degree below `k` keeps the simplify invariants. */
  lemma SimplifyStep(orig: map<string, set<string>>, stack: seq<string>, adj: map<string, set<string>>,
                     vars: set<string>, v: string, k: int)
    requires IsGraph(adj, vars) && Restricted(adj, orig, vars) && RemovedLow(orig, stack, vars, k)
    requires v in vars && |adj[v]| < k
    ensures Restricted(map x | x in adj && x != v :: adj[x] - {v}, orig, vars - {v})
    ensures RemovedLow(orig, stack + [v], vars - {v}, k)
  {
    RestrictedStep(orig, adj, vars, v);
    forall i | 0 <= i < |stack| + 1
      ensures LowAt(orig, stack + [v], vars - {v}, i, k)
    {
      if i < |stack| {
        RemovedLowOld(orig, stack, vars, v, i, k);
      } else {
        RemovedLowNew(orig, stack, adj, vars, v);
      }
    }
  }

  lemma RestrictedStep(orig: map<string, set<string>>, adj: map<string, set<string>>, vars: set<string>, v: string)
    requires Restricted(adj, orig, vars)
    ensures Restricted(map x | x in adj && x != v :: adj[x] - {v}, orig, vars - {v})
  {
  }

  lemma RemovedLowOld(orig: map<string, set<string>>, stack: seq<string>, vars: set<string>, v: string, i: int, k: int)
    requires RemovedLow(orig, stack, vars, k) && v in vars && 0 <= i < |stack|
    ensures LowAt(orig, stack + [v], vars - {v}, i, k)
    ensures (stack + [v])[i] == stack[i]
    ensures Elems((stack + [v])[i + 1..]) + (vars - {v}) == Elems(stack[i + 1..]) + vars
    ensures stack[i] in orig && |orig[stack[i]] * (Elems(stack[i + 1..]) + vars)| < k
  {
    assert LowAt(orig, stack, vars, i, k);
    assert (stack + [v])[i + 1..] == stack[i + 1..] + [v];
    assert Elems(stack[i + 1..] + [v]) == Elems(stack[i + 1..]) + {v};
    assert Elems((stack + [v])[i + 1..]) + (vars - {v}) == Elems(stack[i + 1..]) + vars;
  }

  lemma RemovedLowNew(orig: map<string, set<string>>, stack: seq<string>, adj: map<string, set<string>>,
                      vars: set<string>, v: string)
    requires IsGraph(adj, vars) && Restricted(adj, orig, vars) && v in vars
    ensures (stack + [v])[|stack|] == v && v in orig
    ensures orig[v] * (Elems((stack + [v])[|stack| + 1..]) + (vars - {v})) == adj[v]
  {
    assert (stack + [v])[|stack| + 1..] == [];
    assert Elems<string>([]) == {};
  }

  /** Colouring `u` with a register that none of its coloured neighbours has keeps the colouring
      proper, given a symmetric original graph. */
  lemma SelectStep(orig: map<string, set<string>>, vars: set<string>, allocation: map<string, int>, u: string, c: int)
    requires IsGraph(orig, vars) && Proper(orig, allocation) && u !in allocation
    requires c !in NeighborColors(NeighborsIn(orig, u), allocation)
    ensures Proper(orig, allocation[u := c])
  {
    var a := allocation[u := c];
    forall v, w | v in a && w in a && v in orig && w in orig[v]
      ensures a[v] != a[w]
    {
      if v == u {
        assert w != u && w in allocation;
      } else if w == u {
        assert v in orig[u];
      }
    }
  }

  const CANNOT_OPENING: string := "Cannot allocate with "
  const CANNOT_MIDDLE: string := " registers. Need at least "
  const CANNOT_CLOSING: string := " registers."

  /** `"Cannot allocate with " + maxColors + " registers. Need at least " + n + " registers."`:
      the first word after the opening is the register limit, and the message ends with the
      number of registers needed and the closing words. */
  function CannotAllocate(maxColors: int, needed: int): (msg: string)
    ensures |msg| >= |CANNOT_OPENING| && msg[..|CANNOT_OPENING|] == CANNOT_OPENING
    ensures var rest := msg[|CANNOT_OPENING|..];
            IndexOf(rest, ' ') == |IntToString(maxColors)| && rest[..IndexOf(rest, ' ')] == IntToString(maxColors)
    ensures var tail := IntToString(needed) + CANNOT_CLOSING;
            |msg| >= |tail| && msg[|msg| - |tail|..] == tail
  {
    NoSpaceInNumeral(maxColors);
    MiddleOpensWithSpace();
    var limit, tail := IntToString(maxColors), IntToString(needed) + CANNOT_CLOSING;
    FirstWordAfter(CANNOT_OPENING, limit, CANNOT_MIDDLE, tail);
    CANNOT_OPENING + limit + CANNOT_MIDDLE + tail
  }

  lemma MiddleOpensWithSpace()
    ensures |CANNOT_MIDDLE| > 0 && CANNOT_MIDDLE[0] == ' '
  {
  }

  /** In `o + w + m + t`, with `w` one word and `m` starting with a space, `w` is the first word
      after `o`, and the text ends with `t`. */
  lemma FirstWordAfter(o: string, w: string, m: string, t: string)
    requires ' ' !in w && |m| > 0 && m[0] == ' '
    ensures var msg := o + w + m + t;
            |msg| >= |o| && msg[..|o|] == o &&
            IndexOf(msg[|o|..], ' ') == |w| && msg[|o|..][..|w|] == w &&
            |msg| >= |t| && msg[|msg| - |t|..] == t
  {
    var msg := o + w + m + t;
    assert msg[|o|..] == w + (m + t);
    IndexOfAppend(w, m + t, ' ');
    assert (m + t)[0] == ' ';
  }

  /** The message tells both numbers back: two messages are equal only for equal limits and
      equal needed counts. */
  lemma CannotAllocateDetermines(a: int, b: int, c: int, d: int)
    requires Int32.IsInt32(a) && Int32.IsInt32(b) && Int32.IsInt32(c) && Int32.IsInt32(d)
    requires CannotAllocate(a, b) == CannotAllocate(c, d)
    ensures a == c && b == d
  {
    IntToStringInjective(a, c);
    var k := CANNOT_OPENING + IntToString(a) + CANNOT_MIDDLE;
    var x, y := IntToString(b) + CANNOT_CLOSING, IntToString(d) + CANNOT_CLOSING;
    ConcatAssoc(k, IntToString(b), CANNOT_CLOSING);
    ConcatAssoc(k, IntToString(d), CANNOT_CLOSING);
    assert k + x == k + y;
    assert x == (k + x)[|k|..] == (k + y)[|k|..] == y;
    assert IntToString(b) == x[..|x| - |CANNOT_CLOSING|] == y[..|y| - |CANNOT_CLOSING|] == IntToString(d);
    IntToStringInjective(b, d);
  }

  class GraphColoring {
    const graph: InterferenceGraph
    const meth: Method
    const maxColors: int
    var removalStack: seq<string>

    /** A bound of 0 means no bound (`Integer.MAX_VALUE`). */
    constructor(graph: InterferenceGraph, meth: Method, maxColors: int)
      ensures this.graph == graph && this.meth == meth && removalStack == []
      ensures this.maxColors == if maxColors == 0 then Int32.MAX else maxColors
    {
      this.graph := graph;
      this.meth := meth;
      this.maxColors := if maxColors == 0 then Int32.MAX else maxColors;
      removalStack := [];
    }

    /** `findRemovableNode`: some node of degree below `maxColors`, or none when there is none. */
    method FindRemovableNode() returns (r: Option<string>)
      ensures r.Some? ==> r.value in graph.variables && graph.Degree(r.value) < maxColors
      ensures r.None? ==> forall v :: v in graph.variables ==> graph.Degree(v) >= maxColors
    {
      var remaining := graph.variables;
      while remaining != {}
        invariant remaining <= graph.variables
        invariant forall v :: v in graph.variables - remaining ==> graph.Degree(v) >= maxColors
        decreases |remaining|
      {
        var v :| v in remaining;
        if graph.Degree(v) < maxColors {
          return Some(v);
        }
        remaining := remaining - {v};
      }
      return None;
    }

    /** `calculateMinimumRegisters`: one more than the largest degree, or 1 for an empty graph. */
    method CalculateMinimumRegisters() returns (r: int)
      ensures graph.variables == {} ==> r == 1
      ensures graph.variables != {} ==> exists v :: v in graph.variables && r == graph.Degree(v) + 1
      ensures forall v :: v in graph.variables ==> graph.Degree(v) + 1 <= r
    {
      var best := 0;
      var remaining := graph.variables;
      while remaining != {}
        invariant remaining <= graph.variables
        invariant forall v :: v in graph.variables - remaining ==> graph.Degree(v) <= best
        invariant graph.variables - remaining == {} ==> best == 0
        invariant graph.variables - remaining != {} ==> exists v :: v in graph.variables - remaining && best == graph.Degree(v)
        decreases |remaining|
      {
        var v :| v in remaining;
        var d := graph.Degree(v);
        if graph.variables - remaining == {} || d > best {
          best := d;
        }
        remaining := remaining - {v};
      }
      r := best + 1;
    }

    /** `reserveParameterRegisters`: the first register no parameter and no `this` occupies. */
    method ReserveParameterRegisters() returns (next: int)
      ensures LeastFree(next, 0, Reserved(meth.varTable))
    {
      var reservedRegisters := ReservedRegisters(meth.varTable);
      next := FirstFree(0, reservedRegisters);
    }

    /** `assignColor`: the first register from `startRegister` on that neither an original
        neighbour already coloured nor a reserved slot uses. */
    method AssignColor(variable: string, allocation: map<string, int>, startRegister: int,
                       originalAdjacencyList: map<string, set<string>>) returns (color: int)
      ensures LeastFree(color, startRegister,
                        NeighborColors(NeighborsIn(originalAdjacencyList, variable), allocation) + Reserved(meth.varTable))
    {
      var neighbors := NeighborsIn(originalAdjacencyList, variable);
      var usedColors := NeighborColors(neighbors, allocation);
      var reservedRegisters := ReservedRegisters(meth.varTable);
      usedColors := usedColors + reservedRegisters;
      color := FirstFree(startRegister, usedColors);
    }

    /** The copy of the adjacency lists that `color` takes before simplify empties the graph. */
    method SnapshotAdjacency() returns (orig: map<string, set<string>>)
      requires graph.Valid()
      ensures orig == graph.adjacencyList
    {
      orig := map[];
      var remaining := graph.variables;
      while remaining != {}
        invariant remaining <= graph.variables
        invariant orig == map x | x in graph.variables - remaining :: graph.adjacencyList[x]
        decreases |remaining|
      {
        var v :| v in remaining;
        orig := orig[v := graph.Neighbors(v)];
        remaining := remaining - {v};
      }
    }

    /** `color`: registers for every node of the graph, or the failure message when simplify gets
        stuck on a graph whose every node has at least `maxColors` neighbours. */
    method Color() returns (r: Result<map<string, int>>)
      requires graph.Valid() && removalStack == []
      modifies this, graph
      ensures graph.Valid()
      ensures r.Ok? ==> r.value.Keys == old(graph.variables) && graph.variables == {}
      ensures r.Ok? ==> Proper(old(graph.adjacencyList), r.value)
      ensures r.Ok? ==> forall v :: v in r.value ==> r.value[v] !in Reserved(meth.varTable)
      ensures r.Ok? ==> forall s, v :: LeastFree(s, 0, Reserved(meth.varTable)) && v in r.value ==>
        s <= r.value[v] < s + maxColors + |Reserved(meth.varTable)|
      ensures r.Err? ==> graph.variables != {} && graph.variables <= old(graph.variables)
      ensures r.Err? ==> forall v :: v in graph.variables ==> graph.Degree(v) >= maxColors
      ensures r.Err? ==> exists v :: v in graph.variables && r.error == CannotAllocate(maxColors, graph.Degree(v) + 1) &&
                                     (forall w :: w in graph.variables ==> graph.Degree(w) <= graph.Degree(v))
      ensures maxColors >= |old(graph.variables)| ==> r.Ok?
    {
      if graph.variables == {} {
        return Ok(map[]);
      }
      var originalAdjacencyList := SnapshotAdjacency();
      ghost var vars0 := graph.variables;
      InitiallyRestricted(originalAdjacencyList, vars0);
      var stuck := Simplify(originalAdjacencyList, vars0);
      if stuck {
        var needed := CalculateMinimumRegisters();
        return Err(CannotAllocate(maxColors, needed));
      }
      var allocation := Select(originalAdjacencyList, vars0);
      return Ok(allocation);
    }

    /** The first loop of `color`: pushes removable nodes until the graph is empty, or stops when
        no node has fewer than `maxColors` neighbours. */
    method Simplify(orig: map<string, set<string>>, ghost vars0: set<string>) returns (stuck: bool)
      requires graph.Valid() && graph.variables == vars0 && removalStack == []
      requires IsGraph(orig, vars0) && Restricted(graph.adjacencyList, orig, vars0)
      modifies this, graph
      ensures graph.Valid() && graph.variables <= vars0
      ensures stuck ==> graph.variables != {} && forall v :: v in graph.variables ==> graph.Degree(v) >= maxColors
      ensures stuck ==> maxColors < |vars0|
      ensures !stuck ==> graph.variables == {} && Elems(removalStack) == vars0 && Distinct(removalStack)
      ensures !stuck ==> RemovedLow(orig, removalStack, {}, maxColors)
    {
      while graph.variables != {}
        invariant Simplifying(orig, vars0)
        decreases |graph.variables|
      {
        var nodeToRemove := FindRemovableNode();
        if nodeToRemove.None? {
          var v :| v in graph.variables;
          graph.DegreeBound(v);
          SubsetCard(graph.variables, vars0);
          return true;
        }
        Push(nodeToRemove.value, orig, vars0);
      }
      return false;
    }

    /** The second loop of `color`: pops the stack and colours each node in turn. */
    method Select(orig: map<string, set<string>>, ghost vars0: set<string>) returns (allocation: map<string, int>)
      requires IsGraph(orig, vars0) && Elems(removalStack) == vars0 && Distinct(removalStack)
      requires RemovedLow(orig, removalStack, {}, maxColors)
      modifies this
      ensures removalStack == []
      ensures allocation.Keys == vars0 && Proper(orig, allocation)
      ensures forall v :: v in allocation ==> allocation[v] !in Reserved(meth.varTable)
      ensures forall s, v :: LeastFree(s, 0, Reserved(meth.varTable)) && v in allocation ==>
        s <= allocation[v] < s + maxColors + |Reserved(meth.varTable)|
    {
      allocation := map[];
      var nextAvailableRegister := ReserveParameterRegisters();
      ghost var full := removalStack;
      ghost var reserved := Reserved(meth.varTable);
      ghost var n := |full|;
      ghost var hi := nextAvailableRegister + maxColors + |reserved|;
      assert full[n..] == [];
      while removalStack != []
        invariant 0 <= n <= |full| && removalStack == full[..n]
        invariant allocation.Keys == Elems(full[n..])
        invariant Proper(orig, allocation)
        invariant InRange(allocation, reserved, nextAvailableRegister, hi)
        decreases n
      {
        var variable := removalStack[|removalStack| - 1];
        removalStack := removalStack[..|removalStack| - 1];
        n := n - 1;
        assert variable == full[n] && removalStack == full[..n];
        var color := AssignColor(variable, allocation, nextAvailableRegister, orig);
        SelectBound(orig, vars0, full, n, maxColors, allocation, reserved, nextAvailableRegister, color);
        InRangeStep(allocation, reserved, nextAvailableRegister, hi, variable, color);
        allocation := allocation[variable := color];
      }
      assert InRange(allocation, reserved, nextAvailableRegister, hi);
      forall s, v | LeastFree(s, 0, reserved) && v in allocation
        ensures s <= allocation[v] < s + maxColors + |reserved|
      {
        LeastFreeUnique(s, nextAvailableRegister, 0, reserved);
      }
      assert full[0..] == full;
    }

    /** What the first loop of `color` keeps: the stack and the graph partition the nodes, no node
        is pushed twice, the graph is the original one restricted to its nodes, and every pushed
        node had fewer than `maxColors` neighbours among the nodes below it and those still in
        the graph. */
    ghost predicate Simplifying(orig: map<string, set<string>>, vars0: set<string>)
      reads this, graph
    {
      graph.Valid() && graph.variables <= vars0 &&
      Elems(removalStack) + graph.variables == vars0 && Elems(removalStack) * graph.variables == {} &&
      Distinct(removalStack) &&
      Restricted(graph.adjacencyList, orig, graph.variables) &&
      RemovedLow(orig, removalStack, graph.variables, maxColors)
    }

    /** One simplify step: push `v` and take it out of the graph. */
    method Push(v: string, ghost orig: map<string, set<string>>, ghost vars0: set<string>)
      requires v in graph.variables && graph.Degree(v) < maxColors
      requires Simplifying(orig, vars0)
      modifies this, graph
      ensures graph.variables == old(graph.variables) - {v}
      ensures Simplifying(orig, vars0)
    {
      SimplifyStep(orig, removalStack, graph.adjacencyList, graph.variables, v, maxColors);
      StackPush(removalStack, graph.variables, vars0, v);
      removalStack := removalStack + [v];
      graph.RemoveVariable(v);
    }
  }

  /** Pushing a node that is still in the graph keeps the stack and the graph a partition of the
      nodes, with no node pushed twice. */
  lemma StackPush(stack: seq<string>, vars: set<string>, vars0: set<string>, v: string)
    requires Elems(stack) + vars == vars0 && Elems(stack) * vars == {} && Distinct(stack) && v in vars
    ensures Elems(stack + [v]) + (vars - {v}) == vars0 && Elems(stack + [v]) * (vars - {v}) == {}
    ensures Distinct(stack + [v])
  {
    assert Elems(stack + [v]) == Elems(stack) + {v};
    assert (v in Elems(stack) * vars) == (v in Elems(stack) && v in vars);
    assert v !in Elems(stack);
    var t := stack + [v];
    forall p, q | 0 <= p < q < |t|
      ensures t[p] != t[q]
    {
      if q == |stack| {
        assert t[p] == stack[p] && t[p] in Elems(stack);
      } else {
        assert t[p] == stack[p] && t[q] == stack[q];
      }
    }
  }

  /** The node popped at position `n` is not coloured yet, and once coloured the coloured nodes are
      the stack from `n` on. */
  lemma PopFresh(full: seq<string>, n: int, allocation: map<string, int>, c: int)
    requires 0 <= n < |full| && Distinct(full) && allocation.Keys == Elems(full[n + 1..])
    ensures full[n] !in allocation
    ensures allocation[full[n] := c].Keys == Elems(full[n..])
  {
    assert full[n..] == [full[n]] + full[n + 1..];
    var tail := full[n + 1..];
    forall j | 0 <= j < |tail|
      ensures tail[j] != full[n]
    {
      assert tail[j] == full[n + 1 + j];
    }
    assert full[n] !in tail;
  }

  /** The register `c` given to `u`, whose coloured neighbours number fewer than `k`, lies below
      `start + k + |reserved|`. */
  lemma ColorBound(orig: map<string, set<string>>, u: string, k: int, allocation: map<string, int>,
                   reserved: set<int>, start: int, c: int)
    requires u in orig && |orig[u] * allocation.Keys| < k
    requires LeastFree(c, start, NeighborColors(NeighborsIn(orig, u), allocation) + reserved)
    ensures c !in reserved && start <= c < start + k + |reserved|
  {
    var nc := NeighborColors(NeighborsIn(orig, u), allocation);
    LeastFreeBound(c, start, nc + reserved);
    NeighborColorsCard(NeighborsIn(orig, u), allocation);
  }

  /** The register `c` picked for the node popped at position `n` keeps the select invariants. */
  lemma SelectBound(orig: map<string, set<string>>, vars0: set<string>, full: seq<string>, n: int, k: int,
                    allocation: map<string, int>, reserved: set<int>, start: int, c: int)
    requires 0 <= n < |full| && Distinct(full) && IsGraph(orig, vars0)
    requires RemovedLow(orig, full, {}, k)
    requires allocation.Keys == Elems(full[n + 1..]) && Proper(orig, allocation)
    requires LeastFree(c, start, NeighborColors(NeighborsIn(orig, full[n]), allocation) + reserved)
    ensures full[n] !in allocation && Proper(orig, allocation[full[n] := c])
    ensures c !in reserved && start <= c < start + k + |reserved|
    ensures allocation[full[n] := c].Keys == Elems(full[n..])
  {
    PopFresh(full, n, allocation, c);
    SelectStep(orig, vars0, allocation, full[n], c);
    assert LowAt(orig, full, {}, n, k);
    assert full[n] in orig && |orig[full[n]] * (Elems(full[n + 1..]) + {})| < k;
    assert Elems(full[n + 1..]) + {} == allocation.Keys;
    ColorBound(orig, full[n], k, allocation, reserved, start, c);
  }
}
