/** Liveness analysis of the register allocator (`RegisterAllocation.LivenessAnalysis`): the def and
    use set of every instruction and the backward fixpoint that computes live-in and live-out sets.
    Instructions are identified by their index in the method's instruction list. */
module Liveness {
  import opened Wrappers
  import opened Ir
  import opened Sets

  const THIS: string := "this"

  /** The name an element contributes when it is an `Operand` (array operands included) other
      than `this`; literals contribute nothing. */
  function OperandName(e: Element): (r: set<string>)
    ensures !e.IsOperand() ==> r == {}
    ensures THIS !in r
    ensures e.IsOperand() ==> r <= {e.name}
  {
    if e.IsOperand() && e.name != THIS then {e.name} else {}
  }

  function OperandNames(es: seq<Element>): (r: set<string>)
    ensures THIS !in r
    ensures forall x :: x in r <==> exists k :: 0 <= k < |es| && x in OperandName(es[k])
  {
    if es == [] then {} else OperandNames(es[..|es| - 1]) + OperandName(es[|es| - 1])
  }

  // ---------------------------------------------------------------------------------------------
  // Def and use sets as the source computes them.

  /** `calculateDefUseSets`, def part: an assignment to an `Operand` defines its name; array
      operands count as `Operand`s, so `a[i] := v` defines `a`. */
  function DefAsWritten(inst: Instruction): (r: set<string>)
    ensures THIS !in r
    ensures !inst.Assign? ==> r == {}
    ensures inst.Assign? && inst.dest.IsOperand() ==> r <= {inst.dest.name}
  {
    if inst.Assign? then OperandName(inst.dest) else {}
  }

  /** `addOperandsToUseSet` on the right-hand side of an assignment. */
  function RhsUsesAsWritten(rhs: Instruction): (r: set<string>)
    ensures THIS !in r
  {
    match rhs
    case BinaryOp(l, _, rr) => OperandName(l) + OperandName(rr)
    case UnaryOp(_, e) => OperandName(e)
    case SingleOp(e) => OperandName(e)
    case Call(_, caller, _, args, _) => OperandNames(args) + (if caller.Some? then OperandName(caller.value) else {})
    case _ => {}
  }

  /** `calculateDefUseSets`, use part. `PUTFIELD`, `GETFIELD` and `GOTO` fall into the default
      case and use nothing; array indices are never looked at. */
  function UseAsWritten(inst: Instruction): (r: set<string>)
    ensures THIS !in r
    ensures inst.Goto? || inst.PutField? || inst.GetField? ==> r == {}
  {
    match inst
    case Assign(_, rhs, _) => RhsUsesAsWritten(rhs)
    case Call(_, caller, _, args, _) => OperandNames(args) + (if caller.Some? then OperandName(caller.value) else {})
    case Return(v) => if v.Some? then OperandName(v.value) else {}
    case CondBranch(c, _) => OperandNames(CondOperands(c))
    case _ => {}
  }

  // ---------------------------------------------------------------------------------------------
  // Corrected def and use sets: every operand that is read, array indices included, is a use;
  // storing into an array element reads the array reference and defines no variable.

  /** Every variable an element reads: its own name and, for an array access, the names in its
      index operands. */
  function ReadNames(e: Element): (r: set<string>)
    ensures THIS !in r
    ensures OperandName(e) <= r
    ensures e.Literal? ==> r == {}
    decreases e
  {
    match e
    case Literal(_, _) => {}
    case Operand(n, _) => if n != THIS then {n} else {}
    case ArrayOperand(n, idx, _) => (if n != THIS then {n} else {}) + ReadNamesOf(idx)
  }

  function ReadNamesOf(es: seq<Element>): (r: set<string>)
    ensures THIS !in r
    ensures OperandNames(es) <= r
    decreases es
  {
    if es == [] then {} else ReadNamesOf(es[..|es| - 1]) + ReadNames(es[|es| - 1])
  }

  function RhsUses(rhs: Instruction): (r: set<string>)
    ensures THIS !in r
    ensures RhsUsesAsWritten(rhs) <= r
  {
    match rhs
    case BinaryOp(l, _, rr) => ReadNames(l) + ReadNames(rr)
    case UnaryOp(_, e) => ReadNames(e)
    case SingleOp(e) => ReadNames(e)
    case Call(_, caller, _, args, _) => ReadNamesOf(args) + (if caller.Some? then ReadNames(caller.value) else {})
    case GetField(obj, _, _) => ReadNames(obj)
    case _ => {}
  }

  /** Corrected def set: only an assignment to a plain operand defines a variable. */
  function Def(inst: Instruction): (r: set<string>)
    ensures THIS !in r
    ensures !(inst.Assign? && inst.dest.Operand?) ==> r == {}
    ensures inst.Assign? && inst.dest.Operand? ==> r == DefAsWritten(inst) && r <= {inst.dest.name}
  {
    if inst.Assign? && inst.dest.Operand? then OperandName(inst.dest) else {}
  }

  /** Corrected use set. */
  function Use(inst: Instruction): (r: set<string>)
    ensures THIS !in r
    ensures inst.Goto? ==> r == {}
  {
    match inst
    case Assign(dest, rhs, _) => (if dest.ArrayOperand? then ReadNames(dest) else {}) + RhsUses(rhs)
    case Call(_, caller, _, args, _) => ReadNamesOf(args) + (if caller.Some? then ReadNames(caller.value) else {})
    case Return(v) => if v.Some? then ReadNames(v.value) else {}
    case CondBranch(c, _) => ReadNamesOf(CondOperands(c))
    case GetField(obj, _, _) => ReadNames(obj)
    case PutField(obj, _, v, _) => ReadNames(obj) + ReadNames(v)
    case _ => RhsUses(inst)
  }

  /** The corrected sets only add uses and only drop definitions: every variable the source
      counts as used is still used, and only array-element stores lose their definition. The
      corrected use set is every name the instruction's elements read. Where the source's switch
      handles the instruction, the added uses are exactly the names read by its array accesses;
      everywhere else (`GETFIELD`, `PUTFIELD`, a bare operator, an assignment from a field) the
      source uses nothing. */
  lemma CorrectedDefUseRefine(inst: Instruction)
    ensures UseAsWritten(inst) <= Use(inst)
    ensures Def(inst) <= DefAsWritten(inst)
    ensures DefAsWritten(inst) - Def(inst) != {} ==> inst.Assign? && inst.dest.ArrayOperand?
    ensures Use(inst) == ReadNamesOf(ReadElements(inst))
    ensures SourceHandles(inst) ==> Use(inst) == UseAsWritten(inst) + ArrayReads(ReadElements(inst))
    ensures !SourceHandles(inst) ==> UseAsWritten(inst) == {}
  {
    if inst.Assign? {
      AssignRefine(inst);
    } else if inst.Call? {
      CallRefine(inst);
    } else {
      OtherRefine(inst);
    }
  }

  lemma AssignRefine(inst: Instruction)
    requires inst.Assign?
    ensures UseAsWritten(inst) <= Use(inst)
    ensures Def(inst) <= DefAsWritten(inst)
    ensures DefAsWritten(inst) - Def(inst) != {} ==> inst.Assign? && inst.dest.ArrayOperand?
    ensures Use(inst) == ReadNamesOf(ReadElements(inst))
    ensures SourceHandles(inst) ==> Use(inst) == UseAsWritten(inst) + ArrayReads(ReadElements(inst))
    ensures !SourceHandles(inst) ==> UseAsWritten(inst) == {}
  {
    var d := if inst.dest.ArrayOperand? then [inst.dest] else [];
    ReadNamesOfAppend(d, RhsElements(inst.rhs));
    ArrayReadsAppend(d, RhsElements(inst.rhs));
    ReadNamesOfSplit(d);
    RhsElementsRead(inst.rhs);
  }

  lemma CallRefine(inst: Instruction)
    requires inst.Call?
    ensures UseAsWritten(inst) <= Use(inst)
    ensures Def(inst) <= DefAsWritten(inst)
    ensures DefAsWritten(inst) - Def(inst) != {} ==> inst.Assign? && inst.dest.ArrayOperand?
    ensures Use(inst) == ReadNamesOf(ReadElements(inst))
    ensures SourceHandles(inst) ==> Use(inst) == UseAsWritten(inst) + ArrayReads(ReadElements(inst))
    ensures !SourceHandles(inst) ==> UseAsWritten(inst) == {}
  {
    var c := if inst.caller.Some? then [inst.caller.value] else [];
    ReadNamesOfAppend(inst.arguments, c);
    ArrayReadsAppend(inst.arguments, c);
    ReadNamesOfSplit(inst.arguments);
    ReadNamesOfSplit(c);
    OperandNamesAppend(inst.arguments, c);
  }

  lemma OtherRefine(inst: Instruction)
    requires !inst.Assign? && !inst.Call?
    ensures UseAsWritten(inst) <= Use(inst)
    ensures Def(inst) <= DefAsWritten(inst)
    ensures DefAsWritten(inst) - Def(inst) != {} ==> inst.Assign? && inst.dest.ArrayOperand?
    ensures Use(inst) == ReadNamesOf(ReadElements(inst))
    ensures SourceHandles(inst) ==> Use(inst) == UseAsWritten(inst) + ArrayReads(ReadElements(inst))
    ensures !SourceHandles(inst) ==> UseAsWritten(inst) == {}
  {
    match inst
    case Return(v) =>
      ReadNamesOfSplit(if v.Some? then [v.value] else []);
    case CondBranch(c, _) =>
      ReadNamesOfSplit(CondOperands(c));
    case GetField(obj, _, _) =>
      ReadNamesOfSplit([obj]);
    case PutField(obj, _, v, _) =>
      ReadNamesOfPair(obj, v);
    case BinaryOp(l, _, r) =>
      ReadNamesOfPair(l, r);
    case UnaryOp(_, e) =>
      ReadNamesOfSplit([e]);
    case SingleOp(e) =>
      ReadNamesOfSplit([e]);
    case Goto(_) =>
  }

  /** The instruction kinds `calculateDefUseSets` looks into: an assignment (whose right-hand
      side `addOperandsToUseSet` reads unless it is a field access), a call, a return and a
      conditional branch. */
  predicate SourceHandles(inst: Instruction) {
    (inst.Assign? && !inst.rhs.GetField?) || inst.Call? || inst.Return? || inst.CondBranch?
  }

  /** The elements a right-hand side reads. */
  function RhsElements(rhs: Instruction): seq<Element> {
    match rhs
    case BinaryOp(l, _, r) => [l, r]
    case UnaryOp(_, e) => [e]
    case SingleOp(e) => [e]
    case Call(_, caller, _, args, _) => args + (if caller.Some? then [caller.value] else [])
    case GetField(obj, _, _) => [obj]
    case _ => []
  }

  /** The elements an instruction reads: an array-element destination and the right-hand side of
      an assignment, a call's arguments and caller, the returned value, the condition's operands,
      a field access's object and a stored field value. */
  function ReadElements(inst: Instruction): seq<Element> {
    match inst
    case Assign(dest, rhs, _) => (if dest.ArrayOperand? then [dest] else []) + RhsElements(rhs)
    case Return(v) => if v.Some? then [v.value] else []
    case CondBranch(c, _) => CondOperands(c)
    case PutField(obj, _, v, _) => [obj, v]
    case Goto(_) => []
    case _ => RhsElements(inst)
  }

  /** The names read by the array accesses of a list of elements, their indices included. */
  function ArrayReads(es: seq<Element>): (r: set<string>)
    ensures r <= ReadNamesOf(es)
  {
    if es == [] then {}
    else ArrayReads(es[..|es| - 1]) + (if es[|es| - 1].ArrayOperand? then ReadNames(es[|es| - 1]) else {})
  }

  /** What a list of elements reads is what its plain names contribute plus what its array
      accesses read. */
  lemma {:induction false} ReadNamesOfSplit(es: seq<Element>)
    ensures ReadNamesOf(es) == OperandNames(es) + ArrayReads(es)
  {
    if es != [] {
      ReadNamesOfSplit(es[..|es| - 1]);
    }
  }

  lemma ReadNamesOfPair(x: Element, y: Element)
    ensures ReadNamesOf([x, y]) == ReadNames(x) + ReadNames(y)
  {
    assert [x, y][..1] == [x];
    assert [x][..0] == [];
    assert ReadNamesOf([x]) == ReadNames(x);
  }

  lemma {:induction false} ReadNamesOfAppend(a: seq<Element>, b: seq<Element>)
    ensures ReadNamesOf(a + b) == ReadNamesOf(a) + ReadNamesOf(b)
  {
    if b != [] {
      assert (a + b)[..|a + b| - 1] == a + b[..|b| - 1];
      ReadNamesOfAppend(a, b[..|b| - 1]);
    } else {
      assert a + b == a;
    }
  }

  lemma {:induction false} ArrayReadsAppend(a: seq<Element>, b: seq<Element>)
    ensures ArrayReads(a + b) == ArrayReads(a) + ArrayReads(b)
  {
    if b != [] {
      assert (a + b)[..|a + b| - 1] == a + b[..|b| - 1];
      ArrayReadsAppend(a, b[..|b| - 1]);
    } else {
      assert a + b == a;
    }
  }

  lemma {:induction false} OperandNamesAppend(a: seq<Element>, b: seq<Element>)
    ensures OperandNames(a + b) == OperandNames(a) + OperandNames(b)
  {
    if b != [] {
      assert (a + b)[..|a + b| - 1] == a + b[..|b| - 1];
      OperandNamesAppend(a, b[..|b| - 1]);
    } else {
      assert a + b == a;
    }
  }

  /** A right-hand side reads the names of its elements; where `addOperandsToUseSet` handles
      it, it adds to the source's uses exactly the reads of its array accesses. */
  lemma RhsElementsRead(rhs: Instruction)
    ensures RhsUses(rhs) == ReadNamesOf(RhsElements(rhs))
    ensures !rhs.GetField? ==> RhsUses(rhs) == RhsUsesAsWritten(rhs) + ArrayReads(RhsElements(rhs))
    ensures rhs.GetField? ==> RhsUsesAsWritten(rhs) == {}
  {
    match rhs
    case BinaryOp(l, _, r) =>
      ReadNamesOfPair(l, r);
      ReadNamesOfSplit([l, r]);
      assert [l, r][..1] == [l];
      assert OperandNames([l, r]) == OperandName(l) + OperandName(r);
    case Call(_, caller, _, args, _) =>
      var c := if caller.Some? then [caller.value] else [];
      ReadNamesOfAppend(args, c);
      ArrayReadsAppend(args, c);
      ReadNamesOfSplit(args);
      ReadNamesOfSplit(c);
      OperandNamesAppend(args, c);
    case UnaryOp(_, e) =>
      ReadNamesOfSplit([e]);
    case SingleOp(e) =>
      ReadNamesOfSplit([e]);
    case GetField(obj, _, _) =>
      ReadNamesOfSplit([obj]);
    case _ =>
  }

  function Defs(insts: seq<CfgNode>): (r: seq<set<string>>)
    ensures |r| == |insts|
    ensures forall k :: 0 <= k < |insts| ==> r[k] == Def(insts[k].inst)
  {
    seq(|insts|, k requires 0 <= k < |insts| => Def(insts[k].inst))
  }

  function Uses(insts: seq<CfgNode>): (r: seq<set<string>>)
    ensures |r| == |insts|
    ensures forall k :: 0 <= k < |insts| ==> r[k] == Use(insts[k].inst)
  {
    seq(|insts|, k requires 0 <= k < |insts| => Use(insts[k].inst))
  }

  function Succs(insts: seq<CfgNode>): (r: seq<seq<int>>)
    ensures |r| == |insts|
    ensures forall k :: 0 <= k < |insts| ==> r[k] == insts[k].successors
  {
    seq(|insts|, k requires 0 <= k < |insts| => insts[k].successors)
  }

  // ---------------------------------------------------------------------------------------------
  // The dataflow equations.

  /** The union of the live-in sets of the successors that are instructions (indices inside the
      list); other successors contribute nothing. */
  function OutOf(ins: seq<set<string>>, succ: seq<int>): set<string> {
    if succ == [] then {}
    else
      var s := succ[|succ| - 1];
      OutOf(ins, succ[..|succ| - 1]) + (if 0 <= s < |ins| then ins[s] else {})
  }

  lemma {:induction false} OutOfMembers(ins: seq<set<string>>, succ: seq<int>, x: string)
    ensures x in OutOf(ins, succ) <==> exists k :: 0 <= k < |succ| && 0 <= succ[k] < |ins| && x in ins[succ[k]]
  {
    if succ != [] {
      OutOfMembers(ins, succ[..|succ| - 1], x);
      var last := |succ| - 1;
      if x in OutOf(ins, succ[..last]) {
        var k :| 0 <= k < |succ[..last]| && 0 <= succ[..last][k] < |ins| && x in ins[succ[..last][k]];
        assert succ[k] == succ[..last][k];
      }
      if exists k :: 0 <= k < |succ| && 0 <= succ[k] < |ins| && x in ins[succ[k]] {
        var k :| 0 <= k < |succ| && 0 <= succ[k] < |ins| && x in ins[succ[k]];
        if k < last {
          assert succ[..last][k] == succ[k];
        }
      }
    }
  }

  /** Pointwise inclusion of two sequences of sets of the same length. */
  ghost predicate Below(a: seq<set<string>>, b: seq<set<string>>) {
    |a| == |b| && forall k :: 0 <= k < |a| ==> a[k] <= b[k]
  }

  lemma {:induction false} OutOfMonotone(a: seq<set<string>>, b: seq<set<string>>, succ: seq<int>)
    requires Below(a, b)
    ensures OutOf(a, succ) <= OutOf(b, succ)
  {
    if succ != [] {
      OutOfMonotone(a, b, succ[..|succ| - 1]);
    }
  }

  lemma {:induction false} OutOfBounded(ins: seq<set<string>>, succ: seq<int>, u: set<string>)
    requires forall k :: 0 <= k < |ins| ==> ins[k] <= u
    ensures OutOf(ins, succ) <= u
  {
    if succ != [] {
      OutOfBounded(ins, succ[..|succ| - 1], u);
    }
  }

  /** The two liveness equations hold at every instruction:
      `out(i) = ∪ in(s)` over instruction successors and `in(i) = use(i) ∪ (out(i) − def(i))`. */
  ghost predicate IsSolution(defs: seq<set<string>>, uses: seq<set<string>>, succs: seq<seq<int>>,
                             ins: seq<set<string>>, outs: seq<set<string>>) {
    |defs| == |uses| == |succs| == |ins| == |outs| &&
    forall k :: 0 <= k < |defs| ==>
      outs[k] == OutOf(ins, succs[k]) && ins[k] == uses[k] + (outs[k] - defs[k])
  }

  /** A solution contained, pointwise, in every other solution. */
  ghost predicate IsLeastSolution(defs: seq<set<string>>, uses: seq<set<string>>, succs: seq<seq<int>>,
                                  ins: seq<set<string>>, outs: seq<set<string>>) {
    IsSolution(defs, uses, succs, ins, outs) &&
    forall ins', outs' :: IsSolution(defs, uses, succs, ins', outs') ==> Below(ins, ins') && Below(outs, outs')
  }

  /** The least solution is unique. */
  lemma LeastSolutionUnique(defs: seq<set<string>>, uses: seq<set<string>>, succs: seq<seq<int>>,
                            ins1: seq<set<string>>, outs1: seq<set<string>>,
                            ins2: seq<set<string>>, outs2: seq<set<string>>)
    requires IsLeastSolution(defs, uses, succs, ins1, outs1)
    requires IsLeastSolution(defs, uses, succs, ins2, outs2)
    ensures ins1 == ins2 && outs1 == outs2
  {
    assert IsSolution(defs, uses, succs, ins1, outs1) && IsSolution(defs, uses, succs, ins2, outs2);
    assert Below(ins1, ins2) && Below(ins2, ins1);
    assert Below(outs1, outs2) && Below(outs2, outs1);
    assert forall k :: 0 <= k < |ins1| ==> ins1[k] == ins2[k];
    assert forall k :: 0 <= k < |outs1| ==> outs1[k] == outs2[k];
  }

  /** All the variables any instruction uses. */
  function UnionAll(ss: seq<set<string>>): (u: set<string>)
    ensures forall k :: 0 <= k < |ss| ==> ss[k] <= u
  {
    if ss == [] then {} else UnionAll(ss[..|ss| - 1]) + ss[|ss| - 1]
  }

  /** How far a sequence of subsets of `u` is from `u` everywhere. */
  function Deficit(ss: seq<set<string>>, u: set<string>): nat {
    if ss == [] then 0 else Deficit(ss[..|ss| - 1], u) + |u - ss[|ss| - 1]|
  }

  lemma {:induction false} DeficitGrow(ss: seq<set<string>>, i: int, t: set<string>, u: set<string>)
    requires 0 <= i < |ss| && ss[i] <= t <= u
    ensures Deficit(ss[i := t], u) <= Deficit(ss, u)
    ensures t != ss[i] ==> Deficit(ss[i := t], u) < Deficit(ss, u)
  {
    var last := |ss| - 1;
    if i == last {
      assert ss[i := t][..last] == ss[..last];
      assert ss[i := t][last] == t;
      SubsetCard(u - t, u - ss[i]);
      if t != ss[i] {
        var x :| x in t && x !in ss[i];
        assert x in (u - ss[i]) - (u - t);
      }
    } else {
      assert ss[i := t][..last] == ss[..last][i := t];
      DeficitGrow(ss[..last], i, t, u);
    }
  }

  /** The live-in and live-out sets lie below `u`, below every solution, and below what one more
      application of the equations gives (so applying them only ever adds variables). */
  ghost predicate Approximation(defs: seq<set<string>>, uses: seq<set<string>>, succs: seq<seq<int>>,
                                ins: seq<set<string>>, outs: seq<set<string>>, u: set<string>) {
    |defs| == |uses| == |succs| == |ins| == |outs| &&
    (forall k :: 0 <= k < |ins| ==> ins[k] <= u && outs[k] <= u) &&
    (forall k :: 0 <= k < |ins| ==>
       outs[k] <= OutOf(ins, succs[k]) && ins[k] <= uses[k] + (OutOf(ins, succs[k]) - defs[k])) &&
    (forall ins', outs' :: IsSolution(defs, uses, succs, ins', outs') ==> Below(ins, ins') && Below(outs, outs'))
  }

  /** Both equations hold at the instructions before `i`. */
  ghost predicate HoldsBelow(defs: seq<set<string>>, uses: seq<set<string>>, succs: seq<seq<int>>,
                             ins: seq<set<string>>, outs: seq<set<string>>, i: int) {
    |defs| == |uses| == |succs| == |ins| == |outs| && 0 <= i <= |defs| &&
    forall k :: 0 <= k < i ==> outs[k] == OutOf(ins, succs[k]) && ins[k] == uses[k] + (outs[k] - defs[k])
  }

  lemma HoldsBelowStep(defs: seq<set<string>>, uses: seq<set<string>>, succs: seq<seq<int>>,
                       ins: seq<set<string>>, outs: seq<set<string>>, i: int)
    requires HoldsBelow(defs, uses, succs, ins, outs, i) && i < |defs|
    requires outs[i] == OutOf(ins, succs[i]) && ins[i] == uses[i] + (outs[i] - defs[i])
    ensures HoldsBelow(defs, uses, succs, ins, outs, i + 1)
  {
  }

  lemma HoldsBelowAll(defs: seq<set<string>>, uses: seq<set<string>>, succs: seq<seq<int>>,
                      ins: seq<set<string>>, outs: seq<set<string>>)
    requires HoldsBelow(defs, uses, succs, ins, outs, |defs|)
    ensures IsSolution(defs, uses, succs, ins, outs)
  {
  }

  lemma EmptyApproximation(defs: seq<set<string>>, uses: seq<set<string>>, succs: seq<seq<int>>,
                           ins: seq<set<string>>, outs: seq<set<string>>, u: set<string>)
    requires |defs| == |uses| == |succs| == |ins| == |outs|
    requires forall k :: 0 <= k < |ins| ==> ins[k] == {} && outs[k] == {}
    ensures Approximation(defs, uses, succs, ins, outs, u)
  {
  }

  /** A solution that lies below every solution is the least one. */
  lemma ApproximateSolutionIsLeast(defs: seq<set<string>>, uses: seq<set<string>>, succs: seq<seq<int>>,
                                   ins: seq<set<string>>, outs: seq<set<string>>, u: set<string>)
    requires Approximation(defs, uses, succs, ins, outs, u)
    requires IsSolution(defs, uses, succs, ins, outs)
    ensures IsLeastSolution(defs, uses, succs, ins, outs)
  {
  }

  /** Updating instruction `i` with one application of the equations keeps the approximation. */
  lemma StepKeepsApproximation(defs: seq<set<string>>, uses: seq<set<string>>, succs: seq<seq<int>>,
                               ins: seq<set<string>>, outs: seq<set<string>>, u: set<string>, i: int)
    requires Approximation(defs, uses, succs, ins, outs, u)
    requires 0 <= i < |ins|
    requires forall k :: 0 <= k < |uses| ==> uses[k] <= u
    ensures var newOut := OutOf(ins, succs[i]);
            var newIn := uses[i] + (newOut - defs[i]);
            ins[i] <= newIn && outs[i] <= newOut && newIn <= u && newOut <= u &&
            Approximation(defs, uses, succs, ins[i := newIn], outs[i := newOut], u)
  {
    var newOut := OutOf(ins, succs[i]);
    var newIn := uses[i] + (newOut - defs[i]);
    var ins2 := ins[i := newIn];
    var outs2 := outs[i := newOut];
    OutOfBounded(ins, succs[i], u);
    assert Below(ins, ins2);
    forall k | 0 <= k < |ins2|
      ensures outs2[k] <= OutOf(ins2, succs[k]) && ins2[k] <= uses[k] + (OutOf(ins2, succs[k]) - defs[k])
    {
      OutOfMonotone(ins, ins2, succs[k]);
    }
    forall ins', outs' | IsSolution(defs, uses, succs, ins', outs')
      ensures Below(ins2, ins') && Below(outs2, outs')
    {
      assert Below(ins, ins');
      OutOfMonotone(ins, ins', succs[i]);
    }
  }

  class LivenessAnalysis {
    const meth: Method
    var defSets: seq<set<string>>
    var useSets: seq<set<string>>
    var liveIns: seq<set<string>>
    var liveOuts: seq<set<string>>
    var analyzed: bool

    /** Once analysed, the def and use sets are those of the instructions and the live sets are
        the least solution of the liveness equations. */
    ghost predicate Valid()
      reads this
    {
      analyzed ==>
        defSets == Defs(meth.instructions) && useSets == Uses(meth.instructions) &&
        IsLeastSolution(defSets, useSets, Succs(meth.instructions), liveIns, liveOuts)
    }

    constructor(meth: Method)
      ensures this.meth == meth && !analyzed && Valid()
      ensures defSets == [] && useSets == [] && liveIns == [] && liveOuts == []
    {
      this.meth := meth;
      defSets := [];
      useSets := [];
      liveIns := [];
      liveOuts := [];
      analyzed := false;
    }

    /** `analyze()`: runs once; later calls return at once. */
    method Analyze()
      requires Valid()
      modifies this
      ensures Valid() && analyzed
      ensures defSets == Defs(meth.instructions) && useSets == Uses(meth.instructions)
      ensures IsLeastSolution(defSets, useSets, Succs(meth.instructions), liveIns, liveOuts)
      ensures old(analyzed) ==> unchanged(this)
    {
      if analyzed {
        return;
      }
      var n := |meth.instructions|;
      defSets := seq(n, _ => {});
      useSets := seq(n, _ => {});
      liveIns := seq(n, _ => {});
      liveOuts := seq(n, _ => {});
      CalculateDefUseSets();
      CalculateLiveInOut();
      analyzed := true;
    }

    /** `calculateDefUseSets`: fills in the def and use set of every instruction. */
    method CalculateDefUseSets()
      requires |defSets| == |useSets| == |meth.instructions|
      modifies this
      ensures defSets == Defs(meth.instructions) && useSets == Uses(meth.instructions)
      ensures liveIns == old(liveIns) && liveOuts == old(liveOuts) && analyzed == old(analyzed)
    {
      var insts := meth.instructions;
      for k := 0 to |insts|
        invariant |defSets| == |useSets| == |insts|
        invariant forall j :: 0 <= j < k ==> defSets[j] == Def(insts[j].inst) && useSets[j] == Use(insts[j].inst)
        invariant liveIns == old(liveIns) && liveOuts == old(liveOuts) && analyzed == old(analyzed)
      {
        defSets := defSets[k := Def(insts[k].inst)];
        useSets := useSets[k := Use(insts[k].inst)];
      }
    }

    /** `calculateLiveInOut`: starting from empty sets, re-applies the equations to every
        instruction in order, reading the live-in sets already updated in the same pass, until a
        whole pass changes nothing. The result is the least solution. */
    method CalculateLiveInOut()
      requires |defSets| == |useSets| == |liveIns| == |liveOuts| == |meth.instructions|
      requires forall k :: 0 <= k < |liveIns| ==> liveIns[k] == {} && liveOuts[k] == {}
      modifies this
      ensures IsLeastSolution(defSets, useSets, Succs(meth.instructions), liveIns, liveOuts)
      ensures defSets == old(defSets) && useSets == old(useSets) && analyzed == old(analyzed)
    {
      var n := |meth.instructions|;
      ghost var succs := Succs(meth.instructions);
      ghost var u := UnionAll(useSets);
      EmptyApproximation(defSets, useSets, succs, liveIns, liveOuts, u);
      var changed := true;
      while changed
        invariant defSets == old(defSets) && useSets == old(useSets) && analyzed == old(analyzed)
        invariant Approximation(defSets, useSets, succs, liveIns, liveOuts, u)
        invariant !changed ==> IsSolution(defSets, useSets, succs, liveIns, liveOuts)
        decreases Deficit(liveIns, u) + Deficit(liveOuts, u) + (if changed then 1 else 0)
      {
        changed := Pass(succs, u);
      }
      ApproximateSolutionIsLeast(defSets, useSets, succs, liveIns, liveOuts, u);
    }

    /** One pass of the `while (changed)` loop of `calculateLiveInOut` over every instruction:
        either the deficit dropped, or nothing changed and the equations hold everywhere. */
    method Pass(ghost succs: seq<seq<int>>, ghost u: set<string>) returns (changed: bool)
      requires succs == Succs(meth.instructions)
      requires forall k :: 0 <= k < |useSets| ==> useSets[k] <= u
      requires Approximation(defSets, useSets, succs, liveIns, liveOuts, u)
      modifies this
      ensures defSets == old(defSets) && useSets == old(useSets) && analyzed == old(analyzed)
      ensures Approximation(defSets, useSets, succs, liveIns, liveOuts, u)
      ensures changed ==> Deficit(liveIns, u) + Deficit(liveOuts, u) < Deficit(old(liveIns), u) + Deficit(old(liveOuts), u)
      ensures !changed ==> liveIns == old(liveIns) && liveOuts == old(liveOuts)
      ensures !changed ==> IsSolution(defSets, useSets, succs, liveIns, liveOuts)
    {
      changed := false;
      for i := 0 to |meth.instructions|
        invariant defSets == old(defSets) && useSets == old(useSets) && analyzed == old(analyzed)
        invariant Approximation(defSets, useSets, succs, liveIns, liveOuts, u)
        invariant changed ==> Deficit(liveIns, u) + Deficit(liveOuts, u) < Deficit(old(liveIns), u) + Deficit(old(liveOuts), u)
        invariant !changed ==> liveIns == old(liveIns) && liveOuts == old(liveOuts)
        invariant !changed ==> HoldsBelow(defSets, useSets, succs, liveIns, liveOuts, i)
      {
        var changedHere := UpdateInstruction(i, succs, u);
        if !changed && !changedHere {
          HoldsBelowStep(defSets, useSets, succs, liveIns, liveOuts, i);
        }
        changed := changed || changedHere;
      }
      if !changed {
        HoldsBelowAll(defSets, useSets, succs, liveIns, liveOuts);
      }
    }

    /** The union of the current live-in sets of the instruction successors among `successors`. */
    method JoinSuccessors(successors: seq<int>) returns (newLiveOut: set<string>)
      ensures newLiveOut == OutOf(liveIns, successors)
    {
      newLiveOut := {};
      for j := 0 to |successors|
        invariant newLiveOut == OutOf(liveIns, successors[..j])
      {
        assert successors[..j + 1][..j] == successors[..j];
        var s := successors[j];
        if 0 <= s < |liveIns| {
          newLiveOut := newLiveOut + liveIns[s];
        }
      }
      assert successors[..|successors|] == successors;
    }

    /** One step of the inner loop of `calculateLiveInOut`: recomputes the live-out set of
        instruction `i` from the current live-in sets of its successors and then its live-in set,
        and reports whether either changed. */
    method UpdateInstruction(i: int, ghost succs: seq<seq<int>>, ghost u: set<string>) returns (changedHere: bool)
      requires succs == Succs(meth.instructions) && 0 <= i < |meth.instructions|
      requires forall k :: 0 <= k < |useSets| ==> useSets[k] <= u
      requires Approximation(defSets, useSets, succs, liveIns, liveOuts, u)
      modifies this
      ensures defSets == old(defSets) && useSets == old(useSets) && analyzed == old(analyzed)
      ensures Approximation(defSets, useSets, succs, liveIns, liveOuts, u)
      ensures changedHere ==> Deficit(liveIns, u) + Deficit(liveOuts, u) < Deficit(old(liveIns), u) + Deficit(old(liveOuts), u)
      ensures !changedHere ==> liveIns == old(liveIns) && liveOuts == old(liveOuts)
      ensures !changedHere ==> liveOuts[i] == OutOf(liveIns, succs[i]) && liveIns[i] == useSets[i] + (liveOuts[i] - defSets[i])
    {
      var oldLiveIn := liveIns[i];
      var oldLiveOut := liveOuts[i];
      var newLiveOut := JoinSuccessors(meth.instructions[i].successors);
      var newLiveIn := useSets[i] + (newLiveOut - defSets[i]);
      StepKeepsApproximation(defSets, useSets, succs, liveIns, liveOuts, u, i);
      DeficitGrow(liveIns, i, newLiveIn, u);
      DeficitGrow(liveOuts, i, newLiveOut, u);
      liveIns := liveIns[i := newLiveIn];
      liveOuts := liveOuts[i := newLiveOut];
      changedHere := oldLiveIn != newLiveIn || oldLiveOut != newLiveOut;
      if !changedHere {
        assert liveIns == old(liveIns) && liveOuts == old(liveOuts);
      }
    }
  }
}
