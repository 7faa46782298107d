/** The register allocation pass (`RegisterAllocation`): for every method, liveness analysis, the
    interference graph, its colouring, and the rewrite of the variable table with the registers
    found. A method whose graph cannot be coloured keeps its table and yields an error report. */
module RegisterAllocation {
  import opened Wrappers
  import opened Ir
  import opened Reports
  import opened Liveness
  import opened Interference
  import opened Coloring
  import Int32

  /** The variable table once `allocation` is written into it: the LOCAL entries other than `this`
      that the allocation covers take their new register; every other entry stays as it was. */
  function UpdatedTable(vt: map<string, Descriptor>, allocation: map<string, int>): (r: map<string, Descriptor>)
    ensures r.Keys == vt.Keys
    ensures forall x :: x in vt && x in allocation && vt[x].scope == Local && x != THIS ==>
      r[x] == vt[x].(virtualReg := allocation[x])
    ensures forall x :: x in vt && (x !in allocation || vt[x].scope != Local || x == THIS) ==> r[x] == vt[x]
  {
    map x | x in vt :: if x in allocation && vt[x].scope == Local && x != THIS then vt[x].(virtualReg := allocation[x]) else vt[x]
  }

  /** Writing an allocation never changes a scope or a type, and writes exactly the allocated slots. */
  lemma UpdatedTableKeepsKinds(vt: map<string, Descriptor>, allocation: map<string, int>, x: string)
    requires x in vt
    ensures UpdatedTable(vt, allocation)[x].scope == vt[x].scope
    ensures UpdatedTable(vt, allocation)[x].varType == vt[x].varType
    ensures x in Candidates(vt) && x in allocation <==> x in Candidates(UpdatedTable(vt, allocation)) && x in allocation
    ensures x in Candidates(vt) && x in allocation ==> UpdatedTable(vt, allocation)[x].virtualReg == allocation[x]
  {
  }

  /** The table after allocation, against the table before: same entries, same scopes and types,
      parameters and `this` untouched, no candidate on a reserved slot, candidate registers in the
      window from the first free slot on, and two distinct candidates that are both defined or
      live-out at one instruction (in the least solution of the liveness equations) hold
      different registers. */
  ghost predicate AllocationSound(vt0: map<string, Descriptor>, vt1: map<string, Descriptor>, insts: seq<CfgNode>, k: int) {
    vt1.Keys == vt0.Keys &&
    (forall x :: x in vt0 && x !in Candidates(vt0) ==> vt1[x] == vt0[x]) &&
    (forall x :: x in Candidates(vt0) ==>
       vt1[x].scope == vt0[x].scope && vt1[x].varType == vt0[x].varType && vt1[x].virtualReg !in Reserved(vt0)) &&
    (forall s, x :: LeastFree(s, 0, Reserved(vt0)) && x in Candidates(vt0) ==>
       s <= vt1[x].virtualReg < s + k + |Reserved(vt0)|) &&
    (forall ins, outs, v, w ::
       IsLeastSolution(Defs(insts), Uses(insts), Succs(insts), ins, outs) &&
       v in Candidates(vt0) && w in Candidates(vt0) && v != w && Interfere(Defs(insts), outs, v, w) ==>
       vt1[v].virtualReg != vt1[w].virtualReg)
  }

  /** The bound `GraphColoring` works with: 0 stands for `Integer.MAX_VALUE`. */
  function ColorLimit(maxRegisters: int): (k: int)
    ensures maxRegisters != 0 ==> k == maxRegisters
    ensures maxRegisters == 0 ==> k == Int32.MAX
  {
    if maxRegisters == 0 then Int32.MAX else maxRegisters
  }

  /** A table with no candidates is sound against itself. */
  lemma NothingToAllocate(vt: map<string, Descriptor>, insts: seq<CfgNode>, k: int)
    requires Candidates(vt) == {}
    ensures AllocationSound(vt, vt, insts, k)
  {
  }

  /** A proper colouring of the interference graph, written into the table, is a sound allocation. */
  lemma ColoringIsSound(vt0: map<string, Descriptor>, insts: seq<CfgNode>, k: int, adj: map<string, set<string>>,
                        liveIns: seq<set<string>>, liveOuts: seq<set<string>>, allocation: map<string, int>)
    requires IsLeastSolution(Defs(insts), Uses(insts), Succs(insts), liveIns, liveOuts)
    requires forall v, w :: v in adj && w in adj[v] <==>
      v in Candidates(vt0) && w in Candidates(vt0) && v != w && Interfere(Defs(insts), liveOuts, v, w)
    requires allocation.Keys == Candidates(vt0) && Proper(adj, allocation)
    requires forall v :: v in allocation ==> allocation[v] !in Reserved(vt0)
    requires forall s, v :: LeastFree(s, 0, Reserved(vt0)) && v in allocation ==>
      s <= allocation[v] < s + k + |Reserved(vt0)|
    ensures AllocationSound(vt0, UpdatedTable(vt0, allocation), insts, k)
  {
    var vt1 := UpdatedTable(vt0, allocation);
    forall ins, outs, v, w |
      IsLeastSolution(Defs(insts), Uses(insts), Succs(insts), ins, outs) &&
      v in Candidates(vt0) && w in Candidates(vt0) && v != w && Interfere(Defs(insts), outs, v, w)
      ensures vt1[v].virtualReg != vt1[w].virtualReg
    {
      LeastSolutionUnique(Defs(insts), Uses(insts), Succs(insts), ins, outs, liveIns, liveOuts);
      assert v in adj && w in adj[v];
    }
  }

  /** The opening of a failure report, naming the method. */
  function FailurePrefix(methodName: string): string {
    "Register allocation failed for method " + methodName + ": "
  }

  /** `"Register allocation failed for method " + name + ": " + message`: the report opens with
      the method's name, and the rest of it is the colouring's message, which reads back. */
  function FailedFor(methodName: string, message: string): (s: string)
    ensures |s| == |FailurePrefix(methodName)| + |message|
    ensures s[..|FailurePrefix(methodName)|] == FailurePrefix(methodName)
    ensures s[|FailurePrefix(methodName)|..] == message
  {
    FailurePrefix(methodName) + message
  }

  /** Reports for the same method carry the same message only when they are the same report. */
  lemma FailedForDetermines(methodName: string, m1: string, m2: string)
    requires FailedFor(methodName, m1) == FailedFor(methodName, m2)
    ensures m1 == m2
  {
    assert m1 == FailedFor(methodName, m1)[|FailurePrefix(methodName)|..];
  }

  /** `updateVarTable`: writes the register of every allocated LOCAL entry other than `this`. */
  method UpdateVarTable(m: Method, allocation: map<string, int>)
    modifies m
    ensures m.varTable == UpdatedTable(old(m.varTable), allocation)
  {
    ghost var vt0 := m.varTable;
    var remaining := allocation.Keys;
    while remaining != {}
      invariant remaining <= allocation.Keys
      invariant m.varTable.Keys == vt0.Keys
      invariant forall x :: x in vt0 ==>
        m.varTable[x] == if x in allocation && x !in remaining && vt0[x].scope == Local && x != THIS
                         then vt0[x].(virtualReg := allocation[x]) else vt0[x]
      decreases |remaining|
    {
      var varName :| varName in remaining;
      var register := allocation[varName];
      if varName in m.varTable {
        var descriptor := m.varTable[varName];
        if descriptor.scope == Local && varName != THIS {
          m.varTable := m.varTable[varName := descriptor.(virtualReg := register)];
        }
      }
      remaining := remaining - {varName};
    }
  }

  /** `allocateRegistersForMethod`: either the table is rewritten with a sound allocation, or the
      colouring failed, the table is untouched and the failure message is returned. */
  method AllocateRegistersForMethod(m: Method, maxRegisters: int) returns (failure: Option<string>)
    modifies m
    ensures failure.Some? ==> m.varTable == old(m.varTable)
    ensures failure.None? ==> AllocationSound(old(m.varTable), m.varTable, m.instructions, ColorLimit(maxRegisters))
    ensures failure.None? ==> exists allocation :: m.varTable == UpdatedTable(old(m.varTable), allocation)
    ensures failure.Some? ==> exists k, n :: failure.value == CannotAllocate(k, n) && k == ColorLimit(maxRegisters)
    ensures ColorLimit(maxRegisters) >= |Candidates(old(m.varTable))| ==> failure.None?
  {
    ghost var vt0 := m.varTable;
    var localVariables := LocalVariables(m.varTable);
    if localVariables == {} {
      NothingToAllocate(vt0, m.instructions, ColorLimit(maxRegisters));
      assert m.varTable == UpdatedTable(vt0, map[]);
      return None;
    }
    failure := AllocateNonEmpty(m, maxRegisters);
  }

  /** Liveness and the interference graph of `m`, built on fresh objects. */
  method BuildInterference(m: Method) returns (graph: InterferenceGraph)
    ensures fresh(graph) && fresh(graph.liveness) && graph.meth == m && graph.Valid()
    ensures graph.variables == Candidates(m.varTable)
    ensures IsLeastSolution(Defs(m.instructions), Uses(m.instructions), Succs(m.instructions),
                            graph.liveness.liveIns, graph.liveness.liveOuts)
    ensures forall v, w :: v in graph.adjacencyList && w in graph.adjacencyList[v] <==>
      v in Candidates(m.varTable) && w in Candidates(m.varTable) && v != w &&
      Interfere(Defs(m.instructions), graph.liveness.liveOuts, v, w)
  {
    var liveness := new LivenessAnalysis(m);
    liveness.Analyze();
    graph := new InterferenceGraph(m, liveness);
    graph.Build();
  }

  /** The allocation proper: liveness, interference, colouring and write-back. */
  method AllocateNonEmpty(m: Method, maxRegisters: int) returns (failure: Option<string>)
    modifies m
    ensures failure.Some? ==> m.varTable == old(m.varTable)
    ensures failure.None? ==> AllocationSound(old(m.varTable), m.varTable, m.instructions, ColorLimit(maxRegisters))
    ensures failure.None? ==> exists allocation :: m.varTable == UpdatedTable(old(m.varTable), allocation)
    ensures failure.Some? ==> exists k, n :: failure.value == CannotAllocate(k, n) && k == ColorLimit(maxRegisters)
    ensures ColorLimit(maxRegisters) >= |Candidates(old(m.varTable))| ==> failure.None?
  {
    var colors := ColorInterference(m, maxRegisters);
    if colors.Err? {
      return Some(colors.error);
    }
    UpdateVarTable(m, colors.value);
    return None;
  }

  /** Liveness, interference and colouring of `m`, which they leave as it is: on success the
      colours are a sound allocation for `m`'s table. */
  method ColorInterference(m: Method, maxRegisters: int) returns (colors: Result<map<string, int>>)
    ensures colors.Ok? ==> AllocationSound(m.varTable, UpdatedTable(m.varTable, colors.value), m.instructions, ColorLimit(maxRegisters))
    ensures colors.Err? ==> exists k, n :: colors.error == CannotAllocate(k, n) && k == ColorLimit(maxRegisters)
    ensures ColorLimit(maxRegisters) >= |Candidates(m.varTable)| ==> colors.Ok?
  {
    var interferenceGraph := BuildInterference(m);
    ghost var adj := interferenceGraph.adjacencyList;
    ghost var liveness := interferenceGraph.liveness;
    var coloring := new GraphColoring(interferenceGraph, m, maxRegisters);
    colors := coloring.Color();
    if colors.Ok? {
      ColoringIsSound(m.varTable, m.instructions, ColorLimit(maxRegisters), adj, liveness.liveIns, liveness.liveOuts, colors.value);
    }
  }

  /** Method `m`, whose table was `vt0`, either got a sound allocation or kept its table and has a
      failure report in `all` from position `base` on. */
  ghost predicate Handled(m: Method, vt0: map<string, Descriptor>, all: seq<Report>, base: int, k: int)
    reads m
  {
    AllocationSound(vt0, m.varTable, m.instructions, k) ||
    (m.varTable == vt0 &&
     exists j, msg :: 0 <= base <= j < |all| && all[j] == NewError(Optimization, -1, -1, FailedFor(m.methodName, msg)))
  }

  lemma HandledGrow(m: Method, vt0: map<string, Descriptor>, all: seq<Report>, all': seq<Report>, base: int, k: int)
    requires Handled(m, vt0, all, base, k) && |all| <= |all'| && all'[..|all|] == all
    ensures Handled(m, vt0, all', base, k)
  {
    if !AllocationSound(vt0, m.varTable, m.instructions, k) {
      var j, msg :| 0 <= base <= j < |all| && all[j] == NewError(Optimization, -1, -1, FailedFor(m.methodName, msg));
      assert all'[j] == all[j];
    }
  }

  /** One step of the loop of `allocateRegisters`: allocates `m` and, when that fails, appends the
      error report naming it. */
  method AllocateAndReport(m: Method, maxRegisters: int, all: seq<Report>, ghost base: int) returns (all': seq<Report>)
    requires 0 <= base <= |all|
    modifies m
    ensures |all| <= |all'| <= |all| + 1 && all'[..|all|] == all
    ensures forall j :: |all| <= j < |all'| ==>
      all'[j].kind == Error && all'[j].stage == Optimization && all'[j].line == -1 && all'[j].column == -1
    ensures Handled(m, old(m.varTable), all', base, ColorLimit(maxRegisters))
  {
    all' := all;
    var failure := AllocateRegistersForMethod(m, maxRegisters);
    if failure.Some? {
      all' := all + [NewError(Optimization, -1, -1, FailedFor(m.methodName, failure.value))];
      assert all'[|all|] == NewError(Optimization, -1, -1, FailedFor(m.methodName, failure.value));
    }
  }

  /** The pass object: `maxRegisters < 0` switches it off. */
  class RegisterAllocation {
    const classUnit: ClassUnit
    const reports: seq<Report>
    const maxRegisters: int
    const optimize: bool

    constructor(classUnit: ClassUnit, reports: seq<Report>, maxRegisters: int)
      ensures this.classUnit == classUnit && this.reports == reports && this.maxRegisters == maxRegisters
      ensures optimize == (maxRegisters >= 0)
    {
      this.classUnit := classUnit;
      this.reports := reports;
      this.maxRegisters := maxRegisters;
      optimize := maxRegisters >= 0;
    }

    /** `allocateRegisters`: allocates every method in turn. Returns the reports list the pass
        builds: the incoming reports followed by one error per method whose allocation failed. */
    method AllocateRegisters() returns (allReports: seq<Report>)
      requires forall i, j :: 0 <= i < j < |classUnit.methods| ==> classUnit.methods[i] != classUnit.methods[j]
      modifies set i | 0 <= i < |classUnit.methods| :: classUnit.methods[i]
      ensures !optimize ==> allReports == reports
      ensures !optimize ==> forall i :: 0 <= i < |classUnit.methods| ==> unchanged(classUnit.methods[i])
      ensures |reports| <= |allReports| && allReports[..|reports|] == reports
      ensures forall j :: |reports| <= j < |allReports| ==>
        allReports[j].kind == Error && allReports[j].stage == Optimization &&
        allReports[j].line == -1 && allReports[j].column == -1
      ensures optimize ==> forall i :: 0 <= i < |classUnit.methods| ==>
        Handled(classUnit.methods[i], old(classUnit.methods[i].varTable), allReports, |reports|, ColorLimit(maxRegisters))
    {
      if !optimize {
        return reports;
      }
      allReports := reports;
      var methods := classUnit.methods;
      for i := 0 to |methods|
        invariant |reports| <= |allReports| && allReports[..|reports|] == reports
        invariant forall j :: |reports| <= j < |allReports| ==>
          allReports[j].kind == Error && allReports[j].stage == Optimization &&
          allReports[j].line == -1 && allReports[j].column == -1
        invariant forall p :: i <= p < |methods| ==> methods[p].varTable == old(methods[p].varTable)
        invariant forall p :: 0 <= p < i ==>
          Handled(methods[p], old(methods[p].varTable), allReports, |reports|, ColorLimit(maxRegisters))
      {
        ghost var before := allReports;
        allReports := AllocateAndReport(methods[i], maxRegisters, allReports, |reports|);
        forall p | 0 <= p < i
          ensures Handled(methods[p], old(methods[p].varTable), allReports, |reports|, ColorLimit(maxRegisters))
        {
          assert methods[p] != methods[i];
          HandledGrow(methods[p], old(methods[p].varTable), before, allReports, |reports|, ColorLimit(maxRegisters));
        }
      }
    }
  }
}
