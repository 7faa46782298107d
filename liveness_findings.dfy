/** Two small programs on which the source's def/use sets (`DefAsWritten`, `UseAsWritten`) make
    the register allocator put two simultaneously needed variables into one register, and the
    same programs under the corrected sets, which keep them apart. */
module LivenessFindings {
  import opened Wrappers
  import opened Ir
  import opened Liveness
  import opened Interference

  function DefsAsWritten(insts: seq<CfgNode>): (r: seq<set<string>>)
    ensures |r| == |insts|
    ensures forall k :: 0 <= k < |insts| ==> r[k] == DefAsWritten(insts[k].inst)
  {
    seq(|insts|, k requires 0 <= k < |insts| => DefAsWritten(insts[k].inst))
  }

  function UsesAsWritten(insts: seq<CfgNode>): (r: seq<set<string>>)
    ensures |r| == |insts|
    ensures forall k :: 0 <= k < |insts| ==> r[k] == UseAsWritten(insts[k].inst)
  {
    seq(|insts|, k requires 0 <= k < |insts| => UseAsWritten(insts[k].inst))
  }

  function Var(name: string): Element {
    Operand(name, IntType)
  }

  function Const(literal: string): Instruction {
    SingleOp(Literal(literal, IntType))
  }

  // ---------------------------------------------------------------------------------------------
  // Array index operands.
  //   i := 0;  j := 5;  x := a[i];  y := x + j;  ret y

  /** Each instruction falls through to the next one; the last one to the end of the method. */
  function ArrayReadProgram(): seq<CfgNode> {
    [CfgNode(Assign(Var("i"), Const("0"), IntType), [1], []),
     CfgNode(Assign(Var("j"), Const("5"), IntType), [2], []),
     CfgNode(Assign(Var("x"), SingleOp(ArrayOperand("a", [Var("i")], IntType)), IntType), [3], []),
     CfgNode(Assign(Var("y"), BinaryOp(Var("x"), ADD, Var("j")), IntType), [4], []),
     CfgNode(Return(Some(Var("y"))), [5], [])]
  }

  lemma ArrayReadSetsAsWritten()
    ensures DefsAsWritten(ArrayReadProgram()) == [{"i"}, {"j"}, {"x"}, {"y"}, {}]
    ensures UsesAsWritten(ArrayReadProgram()) == [{}, {}, {"a"}, {"x", "j"}, {"y"}]
    ensures Succs(ArrayReadProgram()) == [[1], [2], [3], [4], [5]]
  {
    ArrayReadDefsAsWritten();
    ArrayReadUsesAsWritten();
  }

  lemma ArrayReadDefsAsWritten()
    ensures DefsAsWritten(ArrayReadProgram()) == [{"i"}, {"j"}, {"x"}, {"y"}, {}]
  {
    var defs := DefsAsWritten(ArrayReadProgram());
    assert defs[0] == {"i"} && defs[1] == {"j"} && defs[2] == {"x"} && defs[3] == {"y"} && defs[4] == {};
  }

  lemma ArrayReadUsesAsWritten()
    ensures UsesAsWritten(ArrayReadProgram()) == [{}, {}, {"a"}, {"x", "j"}, {"y"}]
  {
    var uses := UsesAsWritten(ArrayReadProgram());
    assert uses[0] == {} && uses[1] == {};
    assert uses[2] == OperandName(ArrayOperand("a", [Var("i")], IntType)) == {"a"};
    assert uses[3] == OperandName(Var("x")) + OperandName(Var("j")) == {"x", "j"};
    assert uses[4] == {"y"};
  }

  /** The least solution of the equations for the source's sets of the array-read program. */
  lemma ArrayReadLeastAsWritten()
    ensures IsLeastSolution([{"i"}, {"j"}, {"x"}, {"y"}, {}], [{}, {}, {"a"}, {"x", "j"}, {"y"}],
                            [[1], [2], [3], [4], [5]],
                            [{"a"}, {"a"}, {"a", "j"}, {"x", "j"}, {"y"}],
                            [{"a"}, {"a", "j"}, {"x", "j"}, {"y"}, {}])
  {
    var defs: seq<set<string>> := [{"i"}, {"j"}, {"x"}, {"y"}, {}];
    var uses: seq<set<string>> := [{}, {}, {"a"}, {"x", "j"}, {"y"}];
    var succs: seq<seq<int>> := [[1], [2], [3], [4], [5]];
    var ins: seq<set<string>> := [{"a"}, {"a"}, {"a", "j"}, {"x", "j"}, {"y"}];
    var outs: seq<set<string>> := [{"a"}, {"a", "j"}, {"x", "j"}, {"y"}, {}];
    forall ins', outs' | IsSolution(defs, uses, succs, ins', outs')
      ensures Below(ins, ins') && Below(outs, outs')
    {
      assert outs'[4] == OutOf(ins', [5]) == {};
      assert ins'[4] == uses[4] + (outs'[4] - defs[4]);
      assert outs'[3] == OutOf(ins', [4]) == ins'[4];
      assert ins'[3] == uses[3] + (outs'[3] - defs[3]);
      assert outs'[2] == OutOf(ins', [3]) == ins'[3];
      assert ins'[2] == uses[2] + (outs'[2] - defs[2]);
      assert outs'[1] == OutOf(ins', [2]) == ins'[2];
      assert ins'[1] == uses[1] + (outs'[1] - defs[1]);
      assert outs'[0] == OutOf(ins', [1]) == ins'[1];
      assert ins'[0] == uses[0] + (outs'[0] - defs[0]);
    }
    assert OutOf(ins, [1]) == ins[1] && OutOf(ins, [2]) == ins[2] && OutOf(ins, [3]) == ins[3];
    assert OutOf(ins, [4]) == ins[4] && OutOf(ins, [5]) == {};
  }

  /** Under the source's sets the least solution is the one above, and in it `i` and `j` are
      never both defined or live-out at one instruction, so they may share a register although
      `i` is read at instruction 2 while `j` still holds 5. */
  lemma ArrayIndexIgnoredAsWritten()
    ensures var p := ArrayReadProgram();
            IsLeastSolution(DefsAsWritten(p), UsesAsWritten(p), Succs(p),
                            [{"a"}, {"a"}, {"a", "j"}, {"x", "j"}, {"y"}],
                            [{"a"}, {"a", "j"}, {"x", "j"}, {"y"}, {}]) &&
            !Interfere(DefsAsWritten(p), [{"a"}, {"a", "j"}, {"x", "j"}, {"y"}, {}], "i", "j")
  {
    ArrayReadSetsAsWritten();
    ArrayReadLeastAsWritten();
    var defs := DefsAsWritten(ArrayReadProgram());
    var outs: seq<set<string>> := [{"a"}, {"a", "j"}, {"x", "j"}, {"y"}, {}];
    forall k | 0 <= k < 5
      ensures !("i" in Interfering(defs, outs, k) && "j" in Interfering(defs, outs, k))
    {
    }
  }

  /** Under the corrected sets `i` is live on exit from instruction 1, which defines `j`, in every
      solution of the equations, so the two always interfere. */
  lemma ArrayIndexUsedCorrected(ins: seq<set<string>>, outs: seq<set<string>>)
    requires var p := ArrayReadProgram(); IsSolution(Defs(p), Uses(p), Succs(p), ins, outs)
    ensures Interfere(Defs(ArrayReadProgram()), outs, "i", "j")
  {
    var p := ArrayReadProgram();
    var defs, uses, succs := Defs(p), Uses(p), Succs(p);
    assert "i" in uses[2] && defs[1] == {"j"} && succs[1] == [2];
    assert outs[1] == OutOf(ins, [2]) == ins[2];
    assert "i" in Interfering(defs, outs, 1) && "j" in Interfering(defs, outs, 1);
  }

  // ---------------------------------------------------------------------------------------------
  // PUTFIELD value operands.
  //   v := 1;  w := 2;  putfield(this, f, v);  ret w

  function FieldStoreProgram(): seq<CfgNode> {
    [CfgNode(Assign(Var("v"), Const("1"), IntType), [1], []),
     CfgNode(Assign(Var("w"), Const("2"), IntType), [2], []),
     CfgNode(PutField(Operand(THIS, ClassType("C")), "f", Var("v"), IntType), [3], []),
     CfgNode(Return(Some(Var("w"))), [4], [])]
  }

  lemma FieldStoreSetsAsWritten()
    ensures DefsAsWritten(FieldStoreProgram()) == [{"v"}, {"w"}, {}, {}]
    ensures UsesAsWritten(FieldStoreProgram()) == [{}, {}, {}, {"w"}]
    ensures Succs(FieldStoreProgram()) == [[1], [2], [3], [4]]
  {
    var p := FieldStoreProgram();
    var defs, uses := DefsAsWritten(p), UsesAsWritten(p);
    assert defs[0] == {"v"} && defs[1] == {"w"} && defs[2] == {} && defs[3] == {};
    assert uses[0] == {} && uses[1] == {} && uses[2] == {} && uses[3] == {"w"};
  }

  lemma FieldStoreLeastAsWritten()
    ensures IsLeastSolution([{"v"}, {"w"}, {}, {}], [{}, {}, {}, {"w"}], [[1], [2], [3], [4]],
                            [{}, {}, {"w"}, {"w"}], [{}, {"w"}, {"w"}, {}])
  {
    var defs: seq<set<string>> := [{"v"}, {"w"}, {}, {}];
    var uses: seq<set<string>> := [{}, {}, {}, {"w"}];
    var succs: seq<seq<int>> := [[1], [2], [3], [4]];
    var ins: seq<set<string>> := [{}, {}, {"w"}, {"w"}];
    var outs: seq<set<string>> := [{}, {"w"}, {"w"}, {}];
    forall ins', outs' | IsSolution(defs, uses, succs, ins', outs')
      ensures Below(ins, ins') && Below(outs, outs')
    {
      assert outs'[3] == OutOf(ins', [4]) == {};
      assert ins'[3] == uses[3] + (outs'[3] - defs[3]);
      assert outs'[2] == OutOf(ins', [3]) == ins'[3];
      assert ins'[2] == uses[2] + (outs'[2] - defs[2]);
      assert outs'[1] == OutOf(ins', [2]) == ins'[2];
    }
    assert OutOf(ins, [1]) == ins[1] && OutOf(ins, [2]) == ins[2] && OutOf(ins, [3]) == ins[3];
    assert OutOf(ins, [4]) == {};
  }

  /** Under the source's sets `v` is dead once assigned, so `v` and `w` never interfere and may
      share a register, and the field receives 2 instead of 1. */
  lemma FieldValueIgnoredAsWritten()
    ensures var p := FieldStoreProgram();
            IsLeastSolution(DefsAsWritten(p), UsesAsWritten(p), Succs(p),
                            [{}, {}, {"w"}, {"w"}], [{}, {"w"}, {"w"}, {}]) &&
            !Interfere(DefsAsWritten(p), [{}, {"w"}, {"w"}, {}], "v", "w")
  {
    FieldStoreSetsAsWritten();
    FieldStoreLeastAsWritten();
    var defs := DefsAsWritten(FieldStoreProgram());
    var outs: seq<set<string>> := [{}, {"w"}, {"w"}, {}];
    forall k | 0 <= k < 4
      ensures !("v" in Interfering(defs, outs, k) && "w" in Interfering(defs, outs, k))
    {
    }
  }

  /** Under the corrected sets `v` is live on exit from instruction 1, which defines `w`. */
  lemma FieldValueUsedCorrected(ins: seq<set<string>>, outs: seq<set<string>>)
    requires var p := FieldStoreProgram(); IsSolution(Defs(p), Uses(p), Succs(p), ins, outs)
    ensures Interfere(Defs(FieldStoreProgram()), outs, "v", "w")
  {
    var p := FieldStoreProgram();
    var defs, uses, succs := Defs(p), Uses(p), Succs(p);
    assert "v" in uses[2] && defs[1] == {"w"} && succs[1] == [2];
    assert outs[1] == OutOf(ins, [2]) == ins[2];
    assert "v" in Interfering(defs, outs, 1) && "w" in Interfering(defs, outs, 1);
  }

  // ---------------------------------------------------------------------------------------------
  // GETFIELD object operands.
  //   o := p;  x := 1;  y := getfield(o, f);  ret x

  function Ref(name: string): Element {
    Operand(name, ClassType("C"))
  }

  function FieldReadProgram(): seq<CfgNode> {
    [CfgNode(Assign(Ref("o"), SingleOp(Ref("p")), ClassType("C")), [1], []),
     CfgNode(Assign(Var("x"), Const("1"), IntType), [2], []),
     CfgNode(Assign(Var("y"), GetField(Ref("o"), "f", IntType), IntType), [3], []),
     CfgNode(Return(Some(Var("x"))), [4], [])]
  }

  lemma FieldReadSetsAsWritten()
    ensures DefsAsWritten(FieldReadProgram()) == [{"o"}, {"x"}, {"y"}, {}]
    ensures UsesAsWritten(FieldReadProgram()) == [{"p"}, {}, {}, {"x"}]
    ensures Succs(FieldReadProgram()) == [[1], [2], [3], [4]]
  {
    var p := FieldReadProgram();
    var defs, uses := DefsAsWritten(p), UsesAsWritten(p);
    assert defs[0] == {"o"} && defs[1] == {"x"} && defs[2] == {"y"} && defs[3] == {};
    assert uses[0] == {"p"} && uses[1] == {} && uses[2] == {} && uses[3] == {"x"};
  }

  lemma FieldReadLeastAsWritten()
    ensures IsLeastSolution([{"o"}, {"x"}, {"y"}, {}], [{"p"}, {}, {}, {"x"}], [[1], [2], [3], [4]],
                            [{"p"}, {}, {"x"}, {"x"}], [{}, {"x"}, {"x"}, {}])
  {
    var defs: seq<set<string>> := [{"o"}, {"x"}, {"y"}, {}];
    var uses: seq<set<string>> := [{"p"}, {}, {}, {"x"}];
    var succs: seq<seq<int>> := [[1], [2], [3], [4]];
    var ins: seq<set<string>> := [{"p"}, {}, {"x"}, {"x"}];
    var outs: seq<set<string>> := [{}, {"x"}, {"x"}, {}];
    forall ins', outs' | IsSolution(defs, uses, succs, ins', outs')
      ensures Below(ins, ins') && Below(outs, outs')
    {
      assert outs'[3] == OutOf(ins', [4]) == {};
      assert ins'[3] == uses[3] + (outs'[3] - defs[3]);
      assert outs'[2] == OutOf(ins', [3]) == ins'[3];
      assert ins'[2] == uses[2] + (outs'[2] - defs[2]);
      assert outs'[1] == OutOf(ins', [2]) == ins'[2];
      assert ins'[0] == uses[0] + (outs'[0] - defs[0]);
    }
    assert OutOf(ins, [1]) == ins[1] && OutOf(ins, [2]) == ins[2] && OutOf(ins, [3]) == ins[3];
    assert OutOf(ins, [4]) == {};
  }

  /** Under the source's sets `o` is dead once assigned, so `o` and `x` never interfere and may
      share a register, and the field is read from the value 1 instead of the object. */
  lemma FieldObjectIgnoredAsWritten()
    ensures var p := FieldReadProgram();
            IsLeastSolution(DefsAsWritten(p), UsesAsWritten(p), Succs(p),
                            [{"p"}, {}, {"x"}, {"x"}], [{}, {"x"}, {"x"}, {}]) &&
            !Interfere(DefsAsWritten(p), [{}, {"x"}, {"x"}, {}], "o", "x")
  {
    FieldReadSetsAsWritten();
    FieldReadLeastAsWritten();
    var defs := DefsAsWritten(FieldReadProgram());
    var outs: seq<set<string>> := [{}, {"x"}, {"x"}, {}];
    forall k | 0 <= k < 4
      ensures !("o" in Interfering(defs, outs, k) && "x" in Interfering(defs, outs, k))
    {
    }
  }

  /** Under the corrected sets `o` is live on exit from instruction 1, which defines `x`. */
  lemma FieldObjectUsedCorrected(ins: seq<set<string>>, outs: seq<set<string>>)
    requires var p := FieldReadProgram(); IsSolution(Defs(p), Uses(p), Succs(p), ins, outs)
    ensures Interfere(Defs(FieldReadProgram()), outs, "o", "x")
  {
    var p := FieldReadProgram();
    var defs, uses, succs := Defs(p), Uses(p), Succs(p);
    assert "o" in uses[2] && defs[1] == {"x"} && succs[1] == [2];
    assert outs[1] == OutOf(ins, [2]) == ins[2];
    assert "o" in Interfering(defs, outs, 1) && "x" in Interfering(defs, outs, 1);
  }
}
