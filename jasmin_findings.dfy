/** Inputs on which the emitter as written produces wrong Jasmin, next to what the corrected
    emitter produces for the same input. */
module JasminFindings {
  import opened Wrappers
  import opened Strings
  import opened Ir
  import opened Jvm
  import opened JasminCode

  // ---------------------------------------------------------------------------------------------
  // `x < y` loads its operands twice.

  /** As written, `x < y` on two simple operands reaches its comparison with two values too many
      on the stack: the first copies the operands are never taken off again. */
  lemma LessLeavesOperandsAsWritten(left: Element, right: Element, ctx: Context, ts: Stamps)
    requires SimpleElement(left, ctx) && SimpleElement(right, ctx)
    ensures GenerateBinaryOpAsWritten(left, LTH, right, ctx, ts).Ok?
    ensures DepthAfterJump(Lines(GenerateBinaryOpAsWritten(left, LTH, right, ctx, ts).value)) == Some(2)
  {
    var first, tail := LessLines(left, right, ctx, ts);
    SimpleLinePushes(left, ctx);
    SimpleLinePushes(right, ctx);
    DepthAfterOperands(SimpleLine(left, ctx), SimpleLine(right, ctx), first, tail,
                       if IsZeroLiteral(right) then -1 else -2);
  }

  /** `x` in slot 1 and `y` in slot 2. */
  function TwoLocals(): Context {
    Context("Main", map["x" := Descriptor(Local, 1, IntType), "y" := Descriptor(Local, 2, IntType)])
  }

  /** `x < y` and `x < 0`, as written and corrected. */
  lemma LessOnLocals(ts: Stamps)
    ensures GenerateBinaryOpAsWritten(Operand("x", IntType), LTH, Operand("y", IntType), TwoLocals(), ts).Ok?
    ensures GenerateBinaryOp(Operand("x", IntType), LTH, Operand("y", IntType), TwoLocals(), ts).Ok?
    ensures GenerateBinaryOpAsWritten(Operand("x", IntType), LTH, Literal("0", IntType), TwoLocals(), ts).Ok?
    ensures GenerateBinaryOp(Operand("x", IntType), LTH, Literal("0", IntType), TwoLocals(), ts).Ok?
    ensures DepthAfterJump(Lines(GenerateBinaryOpAsWritten(Operand("x", IntType), LTH, Operand("y", IntType), TwoLocals(), ts).value)) == Some(2)
    ensures DepthAfterJump(Lines(GenerateBinaryOp(Operand("x", IntType), LTH, Operand("y", IntType), TwoLocals(), ts).value)) == Some(0)
    ensures DepthAfterJump(Lines(GenerateBinaryOpAsWritten(Operand("x", IntType), LTH, Literal("0", IntType), TwoLocals(), ts).value)) == Some(2)
    ensures DepthAfterJump(Lines(GenerateBinaryOp(Operand("x", IntType), LTH, Literal("0", IntType), TwoLocals(), ts).value)) == Some(0)
  {
    var ctx := TwoLocals();
    assert SimpleElement(Operand("x", IntType), ctx) && SimpleElement(Operand("y", IntType), ctx);
    assert ParseInt("0") == Some(0) by { ZeroParses(); }
    LessLeavesOperandsAsWritten(Operand("x", IntType), Operand("y", IntType), ctx, ts);
    LessBalanced(Operand("x", IntType), Operand("y", IntType), ctx, ts);
    LessLeavesOperandsAsWritten(Operand("x", IntType), Literal("0", IntType), ctx, ts);
    LessBalanced(Operand("x", IntType), Literal("0", IntType), ctx, ts);
  }

  lemma ZeroParses()
    ensures ParseInt("0") == Some(0)
  {
    ParseIntOfIntToString(0);
    assert IntToString(0) == "0";
  }

  // ---------------------------------------------------------------------------------------------
  // `iinc` on an array element.

  /** `a` is an `int[]` in slot 1, `i` and `j` are in slots 2 and 3. */
  function ArrayLocals(): Context {
    Context("Main", map["a" := Descriptor(Local, 1, ArrayType(IntType)),
                        "i" := Descriptor(Local, 2, IntType),
                        "j" := Descriptor(Local, 3, IntType)])
  }

  function ElementOf(index: string): Element {
    ArrayOperand("a", [Operand(index, IntType)], IntType)
  }

  /** The right-hand side of `a[i] = a[j] + 1`. */
  function ElementPlusOne(): Instruction {
    BinaryOp(ElementOf("j"), ADD, Literal("1", IntType))
  }

  /** As written, `a[i] = a[j] + 1` becomes `iinc 1 1`: it adds 1 to the local that holds the
      array reference and stores nothing into the array. */
  lemma ElementIncrementAsWritten(ts: Stamps)
    ensures GenerateAssignAsWritten(ElementOf("i"), ElementPlusOne(), IntType, ArrayLocals(), ts) == Ok(IncrementLine(1, 1) + NL)
    ensures Jvm.Increment(IncrementLine(1, 1)) == Some((1, 1))
  {
    assert IincAmountAsWritten(ElementOf("i"), ElementPlusOne()) == Some(1);
    IncrementLineMeans(1, 1);
  }

  /** Corrected, the same assignment loads the array from slot 1, then the index, then the value,
      and stores it with `iastore`. */
  lemma ElementIncrementCorrected(ts: Stamps) returns (line: string, rest: string)
    ensures GenerateAssign(ElementOf("i"), ElementPlusOne(), IntType, ArrayLocals(), ts) == Ok(line + NL + rest + "iastore" + NL)
    ensures AccessOf(line) == Some(Load(RefKind, 1))
  {
    var dest, rhs, ctx := ElementOf("i"), ElementPlusOne(), ArrayLocals();
    assert IincAmount(dest, rhs).None?;
    var index := ElementCode(Operand("i", IntType), ctx);
    assert index.Ok?;
    var value := GenerateInstruction(rhs, ctx, ts);
    assert value.Ok? by {
      assert ElementCode(ElementOf("j"), ctx).Ok?;
    }
    var store;
    line, store := ElementAssignOrder(dest, rhs, IntType, ctx, ts);
    rest := index.value + value.value;
    ConcatAssoc(line + NL, index.value, value.value);
  }
}
