/** The `.limit stack` and `.limit locals` directives of a method. The stack limit follows the
    emitter's own accounting: for every instruction kind it adds and removes fixed amounts from a
    running depth, in a fixed order. As written it records the running depth only once each
    instruction has been accounted in full, so the values an instruction pushes before popping them
    (a receiver and its arguments) never reach the limit; the corrected limit records the highest
    depth the accounting passes through. The accounting itself is taken as given: it is not
    compared with the code the emitter writes. */
module JasminLimits {
  import opened Wrappers
  import opened Ir

  function Max(a: int, b: int): int {
    if a >= b then a else b
  }

  /** The number of values a call pushes before it is made: the receiver, if any, and the arguments. */
  function ArgCount(caller: Option<Element>, args: seq<Element>): nat {
    (if caller.Some? then 1 else 0) + |args|
  }

  /** The amounts `calculateStackLimit` adds to and removes from the running depth for one
      instruction, in the order it applies them. */
  function Steps(inst: Instruction): seq<int> {
    match inst
    case Assign(_, rhs, _) =>
      (match rhs
       case BinaryOp(_, _, _) => [2, -1]
       case UnaryOp(_, _) => [1]
       case Call(kind, caller, _, args, _) =>
         var n: int := ArgCount(caller, args);
         [n, -n] + (if kind != InvokeStatic then [1] else [])
       case _ => [1]) + [-1]
    case Call(_, caller, _, args, _) =>
      var n: int := ArgCount(caller, args);
      [n, -n, 1]
    case CondBranch(condition, _) =>
      if condition.BinaryOp? then [2, -2]
      else if condition.UnaryOp? then [1, -1]
      else [|CondOperands(condition)|, -|CondOperands(condition)|]
    case Return(value) => if value.Some? then [1, -1] else []
    case PutField(_, _, _, _) => [2, -2]
    case GetField(_, _, _) => [1, -1, 1]
    case Goto(_) => []
    case _ => [1, -1]
  }

  /** What the step table says of each instruction: all but a `goto` and a bare `return` start by
      pushing, and a call first pushes its receiver and arguments; net, a call statement and a
      field read leave one value, an assignment from a static call takes one away, and every
      other instruction leaves the depth as it was. */
  lemma StepsShape(inst: Instruction)
    ensures Steps(inst) == [] <==> inst.Goto? || (inst.Return? && inst.returnValue.None?)
    ensures Steps(inst) != [] ==> Steps(inst)[0] >= 0
    ensures inst.Call? ==> |Steps(inst)| > 0 && Steps(inst)[0] == ArgCount(inst.caller, inst.arguments) && Sum(Steps(inst)) == 1
    ensures inst.Assign? && inst.rhs.Call? ==> |Steps(inst)| > 0 && Steps(inst)[0] == ArgCount(inst.rhs.caller, inst.rhs.arguments)
    ensures inst.Assign? ==> Sum(Steps(inst)) == (if inst.rhs.Call? && inst.rhs.kind == InvokeStatic then -1 else 0)
    ensures inst.GetField? ==> Sum(Steps(inst)) == 1
    ensures !inst.Assign? && !inst.Call? && !inst.GetField? ==> Sum(Steps(inst)) == 0
  {
    SumShort(Steps(inst));
  }

  function Sum(s: seq<int>): int {
    if s == [] then 0 else s[0] + Sum(s[1..])
  }

  lemma SumShort(s: seq<int>)
    requires |s| <= 4
    ensures Sum(s) == (if |s| == 0 then 0 else s[0]) + (if |s| <= 1 then 0 else s[1]) +
                      (if |s| <= 2 then 0 else s[2]) + (if |s| <= 3 then 0 else s[3])
  {
    if s != [] {
      var t := s[1..];
      if t != [] {
        var u := t[1..];
        if u != [] {
          assert Sum(u) == u[0] + Sum(u[1..]);
        }
      }
    }
  }

  /** The highest the running depth rises above its starting value while the steps are applied
      (0 when it never rises). */
  function PeakRise(s: seq<int>): (r: int)
    ensures r >= 0 && r >= Sum(s)
  {
    if s == [] then 0 else Max(0, s[0] + PeakRise(s[1..]))
  }

  /** The peak is the largest running total over every prefix of the steps, and it is reached. */
  lemma {:induction false} PeakRiseIsLargestPrefix(s: seq<int>)
    ensures forall k :: 0 <= k <= |s| ==> Sum(s[..k]) <= PeakRise(s)
    ensures exists k :: 0 <= k <= |s| && Sum(s[..k]) == PeakRise(s)
  {
    if s == [] {
      assert Sum(s[..0]) == 0;
    } else {
      PeakRiseIsLargestPrefix(s[1..]);
      forall k | 0 <= k <= |s|
        ensures Sum(s[..k]) <= PeakRise(s)
      {
        if k > 0 {
          assert s[..k][1..] == s[1..][..k - 1];
        }
      }
      var j :| 0 <= j <= |s[1..]| && Sum(s[1..][..j]) == PeakRise(s[1..]);
      if s[0] + PeakRise(s[1..]) >= 0 {
        assert s[..j + 1][1..] == s[1..][..j];
        assert Sum(s[..j + 1]) == PeakRise(s);
      } else {
        assert Sum(s[..0]) == PeakRise(s);
      }
    }
  }

  /** `calculateStackLimit` as written, from a running depth and maximum: each instruction's
      steps are applied in full before the maximum is updated, and the depth is then kept at 0 or
      above. */
  function RunAsWritten(insts: seq<Instruction>, current: int, maxStack: int): int {
    if insts == [] then maxStack
    else
      var after := current + Sum(Steps(insts[0]));
      RunAsWritten(insts[1..], Max(0, after), Max(maxStack, after))
  }

  /** The limit as written: at least 4; for a single instruction it is that instruction's net
      effect, however high the stack rises inside it. */
  function StackLimitAsWritten(insts: seq<Instruction>): (r: int)
    ensures r >= 4
    ensures |insts| == 1 ==> r == Max(4, Sum(Steps(insts[0])))
  {
    if |insts| == 1 then
      var after := Sum(Steps(insts[0]));
      assert insts[1..] == [] && RunAsWritten(insts[1..], Max(0, after), Max(0, after)) == Max(0, after);
      Max(4, RunAsWritten(insts, 0, 0))
    else Max(4, RunAsWritten(insts, 0, 0))
  }

  /** The corrected accounting: the maximum also records the peak within each instruction. */
  function Run(insts: seq<Instruction>, current: int, maxStack: int): int {
    if insts == [] then maxStack
    else
      var after := current + Sum(Steps(insts[0]));
      Run(insts[1..], Max(0, after), Max(maxStack, current + PeakRise(Steps(insts[0]))))
  }

  /** The corrected limit: at least 4, at least the limit as written, and at least the peak of
      every instruction's steps, by the emitter's own step table. */
  function StackLimit(insts: seq<Instruction>): (r: int)
    ensures r >= 4 && r >= StackLimitAsWritten(insts)
    ensures forall k :: 0 <= k < |insts| ==> r >= PeakRise(Steps(insts[k]))
  {
    RunCoversPeaks(insts, 0, 0);
    RunDominatesAsWritten(insts, 0, 0, 0);
    Max(4, Run(insts, 0, 0))
  }

  /** From a depth of 0 or more, the corrected maximum covers the peak of every instruction. */
  lemma {:induction false} RunCoversPeaks(insts: seq<Instruction>, current: int, maxStack: int)
    requires current >= 0
    ensures Run(insts, current, maxStack) >= maxStack
    ensures forall k :: 0 <= k < |insts| ==> Run(insts, current, maxStack) >= PeakRise(Steps(insts[k]))
  {
    if insts != [] {
      var after := current + Sum(Steps(insts[0]));
      var m := Max(maxStack, current + PeakRise(Steps(insts[0])));
      RunCoversPeaks(insts[1..], Max(0, after), m);
      forall k | 1 <= k < |insts|
        ensures Run(insts, current, maxStack) >= PeakRise(Steps(insts[k]))
      {
        assert insts[k] == insts[1..][k - 1];
      }
    }
  }

  /** The corrected maximum is never below the one as written. */
  lemma {:induction false} RunDominatesAsWritten(insts: seq<Instruction>, current: int, m: int, mw: int)
    requires m >= mw
    ensures Run(insts, current, m) >= RunAsWritten(insts, current, mw)
  {
    if insts != [] {
      var after := current + Sum(Steps(insts[0]));
      RunDominatesAsWritten(insts[1..], Max(0, after), Max(m, current + PeakRise(Steps(insts[0]))),
                            Max(mw, after));
    }
  }

  /** One instruction of the running maximum. */
  lemma RunStep(insts: seq<Instruction>, i: int, current: int, maxStack: int)
    requires 0 <= i < |insts|
    ensures Run(insts[i..], current, maxStack) ==
            Run(insts[i + 1..], Max(0, current + Sum(Steps(insts[i]))), Max(maxStack, current + PeakRise(Steps(insts[i]))))
  {
    var rest := insts[i..];
    assert rest[0] == insts[i] && rest[1..] == insts[i + 1..];
  }

  /** `calculateStackLimit`, corrected, over the instructions of a method. */
  method CalculateStackLimit(m: Method) returns (limit: int)
    ensures limit == StackLimit(Instructions(m.instructions))
  {
    var insts := Instructions(m.instructions);
    var maxStack := 0;
    var current := 0;
    var i := 0;
    while i < |insts|
      invariant 0 <= i <= |insts|
      invariant Run(insts[i..], current, maxStack) == Run(insts, 0, 0)
    {
      var steps := Steps(insts[i]);
      RunStep(insts, i, current, maxStack);
      maxStack := Max(maxStack, current + PeakRise(steps));
      current := Max(0, current + Sum(steps));
      i := i + 1;
    }
    limit := Max(4, maxStack);
  }

  /** `o.f(a, b, c, d)` as a statement: the receiver and four arguments are on the stack at once. */
  function FourArgumentCall(): Instruction {
    Call(InvokeVirtual, Some(Operand("o", ClassType("C"))), "f",
         [Operand("a", IntType), Operand("b", IntType), Operand("c", IntType), Operand("d", IntType)],
         VoidType)
  }

  /** As written, the limit of a method made of that call is 4, while the emitter's own count has
      5 values on the stack; the corrected limit is 5. */
  lemma CallPeakMissedAsWritten()
    ensures PeakRise(Steps(FourArgumentCall())) == 5
    ensures StackLimitAsWritten([FourArgumentCall()]) == 4
    ensures StackLimit([FourArgumentCall()]) == 5
  {
    var steps := Steps(FourArgumentCall());
    assert steps == [5, -5, 1];
    assert PeakRise(steps[2..]) == 1;
    assert PeakRise(steps[1..]) == 0;
    assert Sum(steps) == 1;
  }

  /** The instructions of a method, in order. */
  function Instructions(nodes: seq<CfgNode>): (insts: seq<Instruction>)
    ensures |insts| == |nodes| && forall i :: 0 <= i < |nodes| ==> insts[i] == nodes[i].inst
  {
    seq(|nodes|, i requires 0 <= i < |nodes| => nodes[i].inst)
  }

  /** `calculateLocalsLimit`: one more than the highest slot in the variable table, and 1 for an
      empty table. */
  function LocalsLimit(varTable: map<string, Descriptor>): (r: int)
    ensures forall name :: name in varTable ==> varTable[name].virtualReg < r
    ensures varTable != map[] ==> exists name :: name in varTable && varTable[name].virtualReg == r - 1
    ensures varTable == map[] ==> r == 1
  {
    if varTable == map[] then 1
    else
      var regs := set name | name in varTable :: varTable[name].virtualReg;
      var some :| some in varTable;
      HasLargest(regs, varTable[some].virtualReg);
      var top :| top in regs && forall x :: x in regs ==> x <= top;
      assert forall name :: name in varTable ==> varTable[name].virtualReg in regs;
      top + 1
  }

  /** A finite set of integers that holds `w` has a largest element. */
  lemma {:induction false} HasLargest(s: set<int>, w: int)
    requires w in s
    ensures exists top :: top in s && forall x :: x in s ==> x <= top
    decreases |s|
  {
    if !forall x :: x in s ==> x <= w {
      var y :| y in s && y > w;
      HasLargest(s - {w}, y);
      var top :| top in s - {w} && forall x :: x in s - {w} ==> x <= top;
      assert top >= y > w;
      forall x | x in s
        ensures x <= top
      {
        if x != w {
          assert x in s - {w};
        }
      }
    }
  }
}
