/** The instruction emitters of `JasminGenerator`: the Jasmin text written for each OLLIR element
    and instruction of a method, given the class name and the method's variable table. A Java
    exception the emitter would throw is an `Err` naming it. Fresh labels are built from two
    readings of a clock (`System.nanoTime()`), passed in as `Stamps`. */
module JasminCode {
  import opened Wrappers
  import opened Strings
  import opened Ir
  import opened Jvm
  import opened JasminTypes
  import opened JasminUtils
  import Int32

  const NL: string := "\n"
  const TAB: string := "   "

  const NotImplemented: string := "NotImplementedException"
  const NullPointer: string := "NullPointerException"
  const IndexOutOfBounds: string := "IndexOutOfBoundsException"

  /** The exceptions the emitter can throw. */
  predicate Thrown(error: string) {
    error == NotImplemented || error == NullPointer || error == IndexOutOfBounds
  }

  /** What the emitter knows while it writes one method (`ollirResult` and `currentMethod`). */
  datatype Context = Context(className: string, varTable: map<string, Descriptor>)

  /** Two clock readings, for the two labels of a comparison or negation idiom. */
  datatype Stamps = Stamps(first: int, second: int)

  /** Type codes `I` and `Z` select the `int` instructions, every other code the reference ones. */
  predicate IsIntCode(code: string) {
    code == "I" || code == "Z"
  }

  // ---------------------------------------------------------------------------------------------
  // Literals and operands.

  /** `generateLiteral`: a numeral that `Integer.parseInt` accepts is pushed with the most compact
      instruction, the one `getConstInstruction` writes for its value, so that it pushes exactly
      that value; any other literal text (a string constant) is pushed with `ldc` verbatim. */
  function GenerateLiteral(value: string): (r: string)
    ensures ParseInt(value).Some? ==> r == GetConstInstruction(ParseInt(value).value) + NL
    ensures ParseInt(value).Some? ==> PushedConstant(r[..|r| - 1]) == ParseInt(value)
    ensures ParseInt(value).None? ==> r == "ldc " + value + NL
  {
    match ParseInt(value)
    case Some(v) =>
      var line :=
        if v == -1 then "iconst_m1"
        else if 0 <= v <= 5 then "iconst_" + IntToString(v)
        else if -128 <= v <= 127 then "bipush " + IntToString(v)
        else if -32768 <= v <= 32767 then "sipush " + IntToString(v)
        else "ldc " + IntToString(v);
      assert line == GetConstInstruction(v);
      assert (line + NL)[..|line|] == line;
      line + NL
    case None => "ldc " + value + NL
  }

  /** The two helpers agree on the decimal text of every `int`. */
  lemma LiteralAgreesWithConstInstruction(v: int)
    requires Int32.IsInt32(v)
    ensures GenerateLiteral(IntToString(v)) == GetConstInstruction(v) + NL
  {
    ParseIntOfIntToString(v);
  }

  /** The load written by `generateOperand`: `_0` to `_3` forms for slots 0 to 3. It is the load
      of the corrected `JasminUtils` helper, so it addresses exactly the slot it is given, with the
      kind the type code selects, on one line. */
  function LoadForm(isInt: bool, reg: int): (r: string)
    ensures r == LoadInstruction(if isInt then "i" else "a", reg)
    ensures '\n' !in r
  {
    var d := IntToString(reg);
    if isInt then
      if 0 <= reg <= 3 then
        assert d == [DigitChar(reg)] && "iload_" + d == ILOAD[reg + 1];
        NoNewlineAfter("iload_", reg);
        "iload_" + d
      else
        assert "iload " + d == ILOAD[0] + " " + d;
        NoNewlineAfter("iload ", reg);
        "iload " + d
    else if 0 <= reg <= 3 then
      assert d == [DigitChar(reg)] && "aload_" + d == ALOAD[reg + 1];
      NoNewlineAfter("aload_", reg);
      "aload_" + d
    else
      assert "aload " + d == ALOAD[0] + " " + d;
      NoNewlineAfter("aload ", reg);
      "aload " + d
  }

  /** The store written by `generateAssign`, in the same two forms, that of the corrected helper. */
  function StoreForm(isInt: bool, reg: int): (r: string)
    ensures r == StoreInstruction(if isInt then "i" else "a", reg)
    ensures '\n' !in r
  {
    var d := IntToString(reg);
    if isInt then
      if 0 <= reg <= 3 then
        assert d == [DigitChar(reg)] && "istore_" + d == ISTORE[reg + 1];
        NoNewlineAfter("istore_", reg);
        "istore_" + d
      else
        assert "istore " + d == ISTORE[0] + " " + d;
        NoNewlineAfter("istore ", reg);
        "istore " + d
    else if 0 <= reg <= 3 then
      assert d == [DigitChar(reg)] && "astore_" + d == ASTORE[reg + 1];
      NoNewlineAfter("astore_", reg);
      "astore_" + d
    else
      assert "astore " + d == ASTORE[0] + " " + d;
      NoNewlineAfter("astore ", reg);
      "astore " + d
  }

  /** `apply` on an element: `generateLiteral`, or `generateOperand`, which reads an array
      element through `generateArrayAccess`. A name missing from the variable table throws. */
  function ElementCode(e: Element, ctx: Context): (r: Result<string>)
    ensures r.Err? ==> r.error == NullPointer || r.error == IndexOutOfBounds
    ensures e.Literal? ==> r.Ok?
    ensures e.Operand? ==> (r.Ok? <==> e.name in ctx.varTable)
    decreases e
  {
    match e
    case Literal(value, _) => Ok(GenerateLiteral(value))
    case Operand(name, ty) =>
      if name !in ctx.varTable then Err(NullPointer)
      else Ok(LoadForm(IsIntCode(JasminType(ty)), ctx.varTable[name].virtualReg) + NL)
    case ArrayOperand(name, indexOperands, _) =>
      if name !in ctx.varTable then Err(NullPointer)
      else if indexOperands == [] then Err(IndexOutOfBounds)
      else
        var index :- ElementCode(indexOperands[0], ctx);
        Ok("aload " + IntToString(ctx.varTable[name].virtualReg) + NL + index + "iaload" + NL)
  }

  /** The kind of value (`int` or reference) a type code selects. */
  function KindOf(ty: Type): Kind {
    if IsIntCode(JasminType(ty)) then IntKind else RefKind
  }

  /** A variable is read with one load of its own slot and kind. */
  lemma OperandLoadsItsSlot(name: string, ty: Type, ctx: Context)
    requires name in ctx.varTable && ctx.varTable[name].virtualReg >= 0
    ensures ElementCode(Operand(name, ty), ctx).Ok?
    ensures var code := ElementCode(Operand(name, ty), ctx).value;
            exists line :: code == line + NL && '\n' !in line &&
                           AccessOf(line) == Some(Load(KindOf(ty), ctx.varTable[name].virtualReg))
  {
    var reg := ctx.varTable[name].virtualReg;
    var isInt := IsIntCode(JasminType(ty));
    var line := LoadForm(isInt, reg);
    assert ElementCode(Operand(name, ty), ctx).value == line + NL;
  }

  lemma NoNewlineAfter(text: string, v: int)
    requires '\n' !in text
    ensures '\n' !in text + IntToString(v)
  {
    NoNewlineInNumeral(v);
  }

  lemma NoNewlineInNumeral(v: int)
    ensures '\n' !in IntToString(v)
  {
    var s := IntToString(v);
    if v < 0 {
      assert s == "-" + NatToString(-v);
      assert forall i :: 1 <= i < |s| ==> s[i] == NatToString(-v)[i - 1];
    }
  }

  // ---------------------------------------------------------------------------------------------
  // Operators.

  /** The arithmetic mnemonics of `generateBinaryOp`; `LTH` and the others are not arithmetic. */
  function ArithMnemonic(op: OpType): (r: Option<string>)
    ensures r.Some? <==> op in {ADD, SUB, MUL, DIV, AND}
  {
    match op
    case ADD => Some("iadd")
    case SUB => Some("isub")
    case MUL => Some("imul")
    case DIV => Some("idiv")
    case AND => Some("iand")
    case _ => None
  }

  /** Each arithmetic mnemonic takes the two operands off the stack, leaves the result and does
      not jump. */
  lemma ArithMnemonicEffect(op: OpType)
    ensures ArithMnemonic(op).Some? ==> StackEffect(ArithMnemonic(op).value) == Some(-1) && !IsConditionalJump(ArithMnemonic(op).value)
  {
    if ArithMnemonic(op).Some? {
      ArithLine(ArithMnemonic(op).value);
    }
  }

  /** What the arithmetic operators mean on Java `int` operands, and `&&` on booleans (0 is false,
      1 is true); `/` by zero throws `ArithmeticException`. Other operands of `&&` are not read. */
  function Operates(op: OpType, a: int, b: int): Option<Result<int>> {
    match op
    case ADD => Some(Ok(Int32.Wrap(a + b)))
    case SUB => Some(Ok(Int32.Wrap(a - b)))
    case MUL => Some(Ok(Int32.Wrap(a * b)))
    case DIV => Some(if b == 0 then Err("ArithmeticException") else Ok(Int32.JavaDiv(a, b)))
    case AND =>
      if (a == 0 || a == 1) && (b == 0 || b == 1) then Some(Ok(if a == 1 && b == 1 then 1 else 0))
      else None
    case _ => None
  }

  /** The instruction written for an arithmetic operator computes what the operator means, and the
      operators without a mnemonic are exactly those that are not arithmetic. */
  lemma ArithMnemonicMeansOperator(op: OpType, a: int, b: int)
    ensures ArithMnemonic(op).Some? <==> op in {ADD, SUB, MUL, DIV, AND}
    ensures Operates(op, a, b).Some? ==> ArithMnemonic(op).Some? && IntArith(ArithMnemonic(op).value, a, b) == Operates(op, a, b)
    ensures ArithMnemonic(op).Some? && IntArith(ArithMnemonic(op).value, a, b).Some? ==> IntArith(ArithMnemonic(op).value, a, b) == Operates(op, a, b)
  {
    IntArithTable(a, b);
  }

  /** The end of the `<` and `!` idioms: push 0, or push 1 at `trueLabel`, and meet at `endLabel`. */
  function PushBoolean(trueLabel: string, endLabel: string): string {
    "iconst_0" + NL + "goto " + endLabel + NL + trueLabel + ":" + NL + "iconst_1" + NL + endLabel + ":" + NL
  }

  /** The tail of the `<` idiom: jump to `LT_TRUE_…` on the comparison, push 0 or 1. */
  function LessIdiom(jump: string, ts: Stamps): string {
    var trueLabel := "LT_TRUE_" + IntToString(ts.first);
    jump + " " + trueLabel + NL + PushBoolean(trueLabel, "LT_END_" + IntToString(ts.second))
  }

  predicate IsZeroLiteral(e: Element) {
    e.Literal? && e.literal == "0"
  }

  /** `generateBinaryOp` as written: both operands are loaded before the operator is looked at,
      and the `<` idiom loads them (or the left one) once more. */
  function GenerateBinaryOpAsWritten(left: Element, op: OpType, right: Element, ctx: Context, ts: Stamps): (r: Result<string>)
    ensures r.Ok? <==> ElementCode(left, ctx).Ok? && ElementCode(right, ctx).Ok? && op in {ADD, SUB, MUL, DIV, AND, LTH}
    ensures r.Err? ==> Thrown(r.error)
  {
    var l :- ElementCode(left, ctx);
    var r :- ElementCode(right, ctx);
    if ArithMnemonic(op).Some? then Ok(l + r + ArithMnemonic(op).value + NL)
    else if op == LTH then
      if IsZeroLiteral(right) then Ok(l + r + l + LessIdiom("iflt", ts))
      else Ok(l + r + l + r + LessIdiom("if_icmplt", ts))
    else Err(NotImplemented)
  }

  /** `generateBinaryOp` with each operand loaded once: `x < 0` loads only `x` and uses `iflt`.
      Only `+ - * / &&` and `<` are emitted; every other operator throws. */
  function GenerateBinaryOp(left: Element, op: OpType, right: Element, ctx: Context, ts: Stamps): (r: Result<string>)
    ensures r.Ok? <==> ElementCode(left, ctx).Ok? && ElementCode(right, ctx).Ok? && op in {ADD, SUB, MUL, DIV, AND, LTH}
    ensures r.Err? && ElementCode(left, ctx).Ok? && ElementCode(right, ctx).Ok? ==> r.error == NotImplemented
    ensures r.Err? ==> Thrown(r.error)
  {
    var l :- ElementCode(left, ctx);
    var r :- ElementCode(right, ctx);
    if ArithMnemonic(op).Some? then Ok(l + r + ArithMnemonic(op).value + NL)
    else if op == LTH then
      if IsZeroLiteral(right) then Ok(l + LessIdiom("iflt", ts))
      else Ok(l + r + LessIdiom("if_icmplt", ts))
    else Err(NotImplemented)
  }

  /** `generateUnaryOp`: `!x` pushes 1 when `x` is 0 and 0 otherwise. */
  function GenerateUnaryOp(op: OpType, operand: Element, ctx: Context, ts: Stamps): (r: Result<string>)
    ensures r.Ok? <==> ElementCode(operand, ctx).Ok? && op in {NOT, NOTB}
    ensures r.Err? ==> Thrown(r.error)
  {
    var code :- ElementCode(operand, ctx);
    if op == NOT || op == NOTB then
      var trueLabel := "NOT_TRUE_" + IntToString(ts.first);
      Ok(code + "ifeq " + trueLabel + NL + PushBoolean(trueLabel, "NOT_END_" + IntToString(ts.second)))
    else Err(NotImplemented)
  }

  /** `generateCondBranch`'s comparison mnemonics, with `if_icmplt` for any other operator. */
  function CondMnemonic(op: OpType): (m: string)
    ensures CompareJumps(m, 0, 0).Some?
    ensures op !in {LTH, GTH, LTE, GTE, EQ, NEQ} ==> m == "if_icmplt"
  {
    match op
    case LTH => "if_icmplt"
    case GTH => "if_icmpgt"
    case LTE => "if_icmple"
    case GTE => "if_icmpge"
    case EQ => "if_icmpeq"
    case NEQ => "if_icmpne"
    case _ => "if_icmplt"
  }

  /** What the Java comparison operators mean on two `int`s. */
  function Compares(op: OpType, a: int, b: int): Option<bool> {
    match op
    case LTH => Some(a < b)
    case GTH => Some(a > b)
    case LTE => Some(a <= b)
    case GTE => Some(a >= b)
    case EQ => Some(a == b)
    case NEQ => Some(a != b)
    case _ => None
  }

  /** The branch written for a comparison is taken exactly when the comparison holds; any other
      operator falls back to `<`. */
  lemma CondMnemonicMeansOperator(op: OpType, a: int, b: int)
    ensures Compares(op, a, b).Some? ==> CompareJumps(CondMnemonic(op), a, b) == Compares(op, a, b)
    ensures Compares(op, a, b).None? ==> CompareJumps(CondMnemonic(op), a, b) == Some(a < b)
  {
  }

  /** The code of several elements, one after the other (`apply` on each argument). */
  function ElementsCode(es: seq<Element>, ctx: Context): (r: Result<string>)
    ensures r.Ok? <==> forall i :: 0 <= i < |es| ==> ElementCode(es[i], ctx).Ok?
    ensures r.Err? ==> Thrown(r.error)
    decreases |es|
  {
    if es == [] then Ok("")
    else
      var first :- ElementCode(es[0], ctx);
      var rest :- ElementsCode(es[1..], ctx);
      Ok(first + rest)
  }

  /** `generateCondBranch`: the operands of the condition, then the jump to `labelName`. */
  function GenerateCondBranch(condition: Instruction, labelName: string, ctx: Context): (r: Result<string>)
    ensures condition.BinaryOp? ==>
      (r.Ok? <==> ElementCode(condition.left, ctx).Ok? && ElementCode(condition.right, ctx).Ok?)
    ensures condition.SingleOp? ==> (r.Ok? <==> ElementCode(condition.operand, ctx).Ok?)
    ensures !condition.BinaryOp? && !condition.SingleOp? ==>
      (r.Ok? <==> forall i :: 0 <= i < |CondOperands(condition)| ==> ElementCode(CondOperands(condition)[i], ctx).Ok?)
    ensures r.Err? ==> Thrown(r.error)
  {
    if condition.BinaryOp? then
      var l :- ElementCode(condition.left, ctx);
      var r :- ElementCode(condition.right, ctx);
      Ok(l + r + CondMnemonic(condition.op) + " " + labelName + NL)
    else if condition.SingleOp? then
      var code :- ElementCode(condition.operand, ctx);
      Ok(code + "ifne " + labelName + NL)
    else
      var operands := CondOperands(condition);
      var code :- ElementsCode(operands, ctx);
      Ok(code + (if |operands| == 1 then "ifne " else "if_icmpne ") + labelName + NL)
  }

  /** The value a method of this return type hands back. */
  function ReturnedFor(ty: Type): Returned {
    if ty == VoidType then Nothing else if IsIntCode(JasminType(ty)) then Value(IntKind) else Value(RefKind)
  }

  /** `generateReturn`: `ireturn` for `I`/`Z`, `return` for `V` or no value, `areturn` otherwise.
      A returned value is loaded first, and the return instruction last returns what the type of
      the value says. */
  function GenerateReturn(returnValue: Option<Element>, ctx: Context): (r: Result<string>)
    ensures returnValue.None? ==> r == Ok("return" + NL) && ReturnOf("return") == Some(Nothing)
    ensures returnValue.Some? ==> (r.Ok? <==> ElementCode(returnValue.value, ctx).Ok?)
    ensures returnValue.Some? && r.Ok? ==>
      exists line :: r.value == ElementCode(returnValue.value, ctx).value + line + NL &&
                     ReturnOf(line) == Some(ReturnedFor(returnValue.value.ty))
    ensures r.Err? ==> Thrown(r.error)
  {
    match returnValue
    case None => Ok("return" + NL)
    case Some(e) =>
      var code :- ElementCode(e, ctx);
      var returnType := JasminType(e.ty);
      var line := if IsIntCode(returnType) then "ireturn" else if returnType == "V" then "return" else "areturn";
      assert ReturnOf(line) == Some(ReturnedFor(e.ty));
      Ok(code + line + NL)
  }

  // ---------------------------------------------------------------------------------------------
  // Calls, objects and fields.

  /** `arg.getType()` of each argument. */
  function ArgTypes(args: seq<Element>): (ts: seq<Type>)
    ensures |ts| == |args| && forall i :: 0 <= i < |args| ==> ts[i] == args[i].ty
  {
    seq(|args|, i requires 0 <= i < |args| => args[i].ty)
  }

  /** `Type.toString()`, which OLLIR renders with the class name for class types. */
  function TypeText(t: Type): string {
    if t.ClassType? then t.name else JasminType(t)
  }

  /** The class an `invokespecial` names: for `<init>`, the current class when the caller's type
      mentions it, else the caller's class; for any other method, the current class. */
  function SpecialClass(caller: Element, methodName: string, ctx: Context): string {
    if methodName == "<init>" then
      if Contains(TypeText(caller.ty), ctx.className) then ctx.className else StripRef(JasminType(caller.ty))
    else ctx.className
  }

  /** `generateInvokeVirtual`, `generateInvokeSpecial` and `generateInvokeStatic`: receiver (not
      for static calls), arguments, then the call with its method descriptor. */
  function GenerateInvoke(kind: CallKind, caller: Option<Element>, methodName: string, args: seq<Element>,
                          returnType: Type, ctx: Context): (r: Result<string>)
    requires !kind.New? && !kind.ArrayLength?
    ensures kind == InvokeStatic ==> (r.Ok? <==> forall i :: 0 <= i < |args| ==> ElementCode(args[i], ctx).Ok?)
    ensures kind != InvokeStatic && caller.None? ==> r == Err(NullPointer)
    ensures kind != InvokeStatic && caller.Some? ==>
      (r.Ok? <==> ElementCode(caller.value, ctx).Ok? && forall i :: 0 <= i < |args| ==> ElementCode(args[i], ctx).Ok?)
    ensures r.Err? ==> Thrown(r.error)
  {
    var name := RemoveChar(methodName, '"');
    var descriptor := MethodDescriptor(ArgTypes(args), returnType);
    if kind == InvokeStatic then
      var a :- ElementsCode(args, ctx);
      var cls := if caller.Some? && caller.value.IsOperand() then caller.value.name else "UnknownClass";
      Ok(a + "invokestatic " + cls + "/" + name + descriptor + NL)
    else if caller.None? then Err(NullPointer)
    else
      var c :- ElementCode(caller.value, ctx);
      var a :- ElementsCode(args, ctx);
      var cls := if kind == InvokeVirtual then ctx.className else SpecialClass(caller.value, name, ctx);
      Ok(c + a + (if kind == InvokeVirtual then "invokevirtual " else "invokespecial ") + cls + "/" + name + descriptor + NL)
  }

  /** The descriptor of every call is read back as the argument types and the return type. */
  lemma InvokeDescriptor(args: seq<Element>, returnType: Type)
    requires forall i :: 0 <= i < |args| ==> IsFieldType(args[i].ty)
    requires IsReturnType(returnType)
    ensures ParseMethodDescriptor(MethodDescriptor(ArgTypes(args), returnType)) == Some((ArgTypes(args), returnType))
  {
    MethodDescriptorRoundTrip(ArgTypes(args), returnType);
  }

  /** `generateNew`: an `int` array, an array of references, or an object and its duplicate. */
  function GenerateNew(args: seq<Element>, returnType: Type, ctx: Context): (r: Result<string>)
    ensures r.Ok? <==> !returnType.ArrayType? || args == [] || ElementCode(args[0], ctx).Ok?
    ensures r.Err? ==> Thrown(r.error)
  {
    if returnType.ArrayType? then
      var size :- if args != [] then ElementCode(args[0], ctx) else Ok("");
      var elem := returnType.elem;
      Ok(size + (if elem == IntType then "newarray int" else "anewarray " + StripRef(JasminType(elem))) + NL)
    else
      Ok("new " + StripRef(JasminType(returnType)) + NL + "dup" + NL)
  }

  /** `new` names the class of a class type. */
  lemma NewNamesClass(name: string, ctx: Context)
    requires ';' !in name && |name| >= 1 && name[0] != 'L'
    ensures GenerateNew([], ClassType(name), ctx) == Ok("new " + name + NL + "dup" + NL)
  {
    var code := JasminType(ClassType(name));
    assert code[1..|code| - 1] == name;
  }

  /** `generateArrayLength`; its `arraylength` line carries an extra indent. */
  function GenerateArrayLength(caller: Option<Element>, ctx: Context): (r: Result<string>)
    ensures r.Ok? <==> caller.Some? && ElementCode(caller.value, ctx).Ok?
    ensures r.Err? ==> Thrown(r.error)
  {
    if caller.None? then Err(NullPointer)
    else
      var c :- ElementCode(caller.value, ctx);
      Ok(c + TAB + "arraylength" + NL)
  }

  /** `generateGetField` and `generatePutField`. */
  function GenerateGetField(obj: Element, field: string, fieldType: Type, ctx: Context): (r: Result<string>)
    ensures r.Ok? <==> ElementCode(obj, ctx).Ok?
    ensures r.Err? ==> Thrown(r.error)
  {
    var o :- ElementCode(obj, ctx);
    Ok(o + "getfield " + ctx.className + "/" + field + " " + JasminType(fieldType) + NL)
  }

  function GeneratePutField(obj: Element, field: string, value: Element, fieldType: Type, ctx: Context): (r: Result<string>)
    ensures r.Ok? <==> ElementCode(obj, ctx).Ok? && ElementCode(value, ctx).Ok?
    ensures r.Err? ==> Thrown(r.error)
  {
    var o :- ElementCode(obj, ctx);
    var v :- ElementCode(value, ctx);
    Ok(o + v + "putfield " + ctx.className + "/" + field + " " + JasminType(fieldType) + NL)
  }

  // ---------------------------------------------------------------------------------------------
  // Assignments and the instruction dispatch.

  /** The `iinc` fusion test as written: the destination and the left operand are compared by
      name only, and both may be array elements (`ArrayOperand` is an `Operand`). */
  function IincAmountAsWritten(dest: Element, rhs: Instruction): Option<int> {
    if rhs.BinaryOp? && rhs.left.IsOperand() && rhs.right.Literal? && dest.IsOperand() &&
       rhs.left.name == dest.name
    then
      var amount := if rhs.op == ADD then 1 else if rhs.op == SUB then -1 else 0;
      if (amount == 1 || amount == -1) && rhs.right.literal == "1" then Some(amount) else None
    else None
  }

  /** The fusion test for plain variables only: `x = x + 1` and `x = x - 1`. */
  function IincAmount(dest: Element, rhs: Instruction): Option<int> {
    if dest.Operand? && rhs.BinaryOp? && rhs.left.Operand? then IincAmountAsWritten(dest, rhs) else None
  }

  /** `generateAssign` as written: `iinc` also for an array element. */
  function GenerateAssignAsWritten(dest: Element, rhs: Instruction, typeOfAssign: Type, ctx: Context, ts: Stamps): Result<string> {
    match IincAmountAsWritten(dest, rhs)
    case Some(amount) =>
      if dest.name !in ctx.varTable then Err(NullPointer)
      else Ok(IncrementLine(ctx.varTable[dest.name].virtualReg, amount) + NL)
    case None => GenerateAssign(dest, rhs, typeOfAssign, ctx, ts)
  }

  /** `generateAssign`: `iinc` for `x = x ± 1`; an element store `aload`, index, value,
      `iastore`/`aastore`; otherwise the value and a store into the destination's slot. */
  function GenerateAssign(dest: Element, rhs: Instruction, typeOfAssign: Type, ctx: Context, ts: Stamps): (r: Result<string>)
    ensures dest.Literal? ==> r.Err?
    ensures !dest.Literal? && dest.name !in ctx.varTable ==> r.Err?
    ensures dest.ArrayOperand? && dest.name !in ctx.varTable ==> r == Err(NullPointer)
    ensures r.Ok? && IincAmount(dest, rhs).None? ==> GenerateInstruction(rhs, ctx, ts).Ok?
    ensures r.Err? ==> Thrown(r.error)
    decreases rhs, 1
  {
    match IincAmount(dest, rhs)
    case Some(amount) =>
      if dest.name !in ctx.varTable then Err(NullPointer)
      else Ok(IncrementLine(ctx.varTable[dest.name].virtualReg, amount) + NL)
    case None =>
      if dest.ArrayOperand? then
        if dest.name !in ctx.varTable then Err(NullPointer)
        else if dest.indexOperands == [] then Err(IndexOutOfBounds)
        else
          var index :- ElementCode(dest.indexOperands[0], ctx);
          var value :- GenerateInstruction(rhs, ctx, ts);
          Ok("aload " + IntToString(ctx.varTable[dest.name].virtualReg) + NL + index + value +
             (if IsIntCode(JasminType(typeOfAssign)) then "iastore" else "aastore") + NL)
      else
        var value :- GenerateInstruction(rhs, ctx, ts);
        if !dest.Operand? then Err(NotImplemented)
        else if dest.name !in ctx.varTable then Err(NullPointer)
        else Ok(value + StoreForm(IsIntCode(JasminType(dest.ty)), ctx.varTable[dest.name].virtualReg) + NL)
  }

  /** `apply` on an instruction. Only the three exceptions of the emitters can be thrown. */
  function GenerateInstruction(inst: Instruction, ctx: Context, ts: Stamps): (r: Result<string>)
    ensures r.Err? ==> Thrown(r.error)
    ensures inst.Goto? ==> r.Ok?
    decreases inst, 0
  {
    match inst
    case Assign(dest, rhs, typeOfAssign) => GenerateAssign(dest, rhs, typeOfAssign, ctx, ts)
    case SingleOp(operand) => ElementCode(operand, ctx)
    case BinaryOp(left, op, right) => GenerateBinaryOp(left, op, right, ctx, ts)
    case UnaryOp(op, operand) => GenerateUnaryOp(op, operand, ctx, ts)
    case Call(kind, caller, methodName, args, returnType) =>
      if kind == New then GenerateNew(args, returnType, ctx)
      else if kind == ArrayLength then GenerateArrayLength(caller, ctx)
      else GenerateInvoke(kind, caller, methodName, args, returnType, ctx)
    case Return(returnValue) => GenerateReturn(returnValue, ctx)
    case CondBranch(condition, labelName) => GenerateCondBranch(condition, labelName, ctx)
    case Goto(labelName) => Ok("goto " + labelName + NL)
    case GetField(obj, field, fieldType) => GenerateGetField(obj, field, fieldType, ctx)
    case PutField(obj, field, value, fieldType) => GeneratePutField(obj, field, value, fieldType, ctx)
  }

  // ---------------------------------------------------------------------------------------------
  // What the emitted code does.

  /** `iinc` is written exactly for `x = x + 1` and `x = x - 1` on a plain variable, and then it
      adds 1 or -1 to the variable's own slot. */
  lemma IncrementFusion(dest: Element, rhs: Instruction, typeOfAssign: Type, ctx: Context, ts: Stamps)
    ensures IincAmount(dest, rhs).Some? <==>
            dest.Operand? && rhs.BinaryOp? && rhs.left.Operand? && rhs.left.name == dest.name &&
            rhs.op in {ADD, SUB} && rhs.right.Literal? && rhs.right.literal == "1"
    ensures IincAmount(dest, rhs).Some? ==> IincAmount(dest, rhs).value == (if rhs.op == ADD then 1 else -1)
    ensures IincAmount(dest, rhs).Some? && dest.name in ctx.varTable && ctx.varTable[dest.name].virtualReg >= 0 ==>
            var r := GenerateAssign(dest, rhs, typeOfAssign, ctx, ts);
            r.Ok? && r.value == IncrementLine(ctx.varTable[dest.name].virtualReg, IincAmount(dest, rhs).value) + NL &&
            Jvm.Increment(IncrementLine(ctx.varTable[dest.name].virtualReg, IincAmount(dest, rhs).value))
              == Some((ctx.varTable[dest.name].virtualReg, IincAmount(dest, rhs).value))
  {
    if IincAmount(dest, rhs).Some? && dest.name in ctx.varTable && ctx.varTable[dest.name].virtualReg >= 0 {
      IncrementLineMeans(ctx.varTable[dest.name].virtualReg, IincAmount(dest, rhs).value);
    }
  }

  function IncrementLine(reg: int, amount: int): string {
    "iinc " + IntToString(reg) + " " + IntToString(amount)
  }

  lemma IncrementLineMeans(reg: nat, amount: int)
    requires amount == 1 || amount == -1
    ensures Jvm.Increment(IncrementLine(reg, amount)) == Some((reg, amount))
  {
    NoSpaceInNumeral(reg);
    DigitsValueOfNatToString(reg);
    ParseIntOfIntToString(amount);
    IincLine(IntToString(reg), IntToString(amount), reg, amount);
  }

  lemma IincLine(a: string, b: string, slot: nat, c: int)
    requires ' ' !in a && Index(a) == Some(slot) && ParseInt(b) == Some(c) && -128 <= c <= 127
    ensures Jvm.Increment("iinc " + a + " " + b) == Some((slot, c))
  {
    var args := a + " " + b;
    SplitLine(a, b);
    SplitLine("iinc", args);
    IincText(a, b);
  }

  lemma IincText(a: string, b: string)
    ensures "iinc " + a + " " + b == "iinc" + " " + (a + " " + b)
  {
    ConcatAssoc("iinc " + a, " ", b);
    ConcatAssoc("iinc ", a, " " + b);
    ConcatAssoc(a, " ", b);
    ConcatAssoc("iinc", " ", a + " " + b);
  }

  /** The assignment of a plain variable ends with one store into the variable's slot, of the
      kind its type selects, after the code of the value. */
  lemma AssignStoresIntoSlot(dest: Element, rhs: Instruction, typeOfAssign: Type, ctx: Context, ts: Stamps)
    requires dest.Operand? && dest.name in ctx.varTable && ctx.varTable[dest.name].virtualReg >= 0
    requires IincAmount(dest, rhs).None? && GenerateInstruction(rhs, ctx, ts).Ok?
    ensures var r := GenerateAssign(dest, rhs, typeOfAssign, ctx, ts);
            r.Ok? && exists line :: r.value == GenerateInstruction(rhs, ctx, ts).value + line + NL &&
                                    AccessOf(line) == Some(Store(KindOf(dest.ty), ctx.varTable[dest.name].virtualReg))
  {
    var isInt := IsIntCode(JasminType(dest.ty));
  }

  /** An array-element assignment loads the array reference from its slot, then the index, then
      the value, and ends with `iastore` for `int`/`boolean` elements or `aastore`. */
  lemma ElementAssignOrder(dest: Element, rhs: Instruction, typeOfAssign: Type, ctx: Context, ts: Stamps)
      returns (line: string, store: string)
    requires dest.ArrayOperand? && dest.name in ctx.varTable && ctx.varTable[dest.name].virtualReg >= 0
    requires dest.indexOperands != [] && ElementCode(dest.indexOperands[0], ctx).Ok?
    requires GenerateInstruction(rhs, ctx, ts).Ok?
    ensures GenerateAssign(dest, rhs, typeOfAssign, ctx, ts)
         == Ok(line + NL + ElementCode(dest.indexOperands[0], ctx).value +
               GenerateInstruction(rhs, ctx, ts).value + store + NL)
    ensures AccessOf(line) == Some(Load(RefKind, ctx.varTable[dest.name].virtualReg))
    ensures store == (if KindOf(typeOfAssign) == IntKind then "iastore" else "aastore")
  {
    var reg := ctx.varTable[dest.name].virtualReg;
    line := "aload " + IntToString(reg);
    store := if KindOf(typeOfAssign) == IntKind then "iastore" else "aastore";
    AloadLine(reg);
  }

  /** `aload n` loads the reference in slot `n`. */
  lemma AloadLine(reg: nat)
    ensures AccessOf("aload " + IntToString(reg)) == Some(Load(RefKind, reg))
  {
    assert "aload" + " " == "aload ";
    ConcatAssoc("aload", " ", IntToString(reg));
    AccessOfGeneral("aload", reg);
  }

  /** Elements that are pushed by one line: numerals, and variables with a slot. */
  predicate SimpleElement(e: Element, ctx: Context) {
    (e.Literal? && ParseInt(e.literal).Some?) ||
    (e.Operand? && e.name in ctx.varTable && ctx.varTable[e.name].virtualReg >= 0)
  }

  /** The one line a simple element is pushed with. */
  function SimpleLine(e: Element, ctx: Context): string
    requires SimpleElement(e, ctx)
  {
    if e.Literal? then GetConstInstruction(ParseInt(e.literal).value)
    else LoadForm(IsIntCode(JasminType(e.ty)), ctx.varTable[e.name].virtualReg)
  }

  lemma SimpleElementCode(e: Element, ctx: Context)
    requires SimpleElement(e, ctx)
    ensures ElementCode(e, ctx) == Ok(SimpleLine(e, ctx) + NL) && '\n' !in SimpleLine(e, ctx)
  {
    if e.Literal? {
      ConstLineIsPush(ParseInt(e.literal).value);
    } else {
    }
  }

  /** A simple element's line pushes one value and is not a jump. */
  lemma SimpleLinePushes(e: Element, ctx: Context)
    requires SimpleElement(e, ctx)
    ensures PushLine(SimpleLine(e, ctx))
  {
    if e.Literal? {
      ConstLineIsPush(ParseInt(e.literal).value);
    } else {
      var reg := ctx.varTable[e.name].virtualReg;
      var isInt := IsIntCode(JasminType(e.ty));
      LoadLineIsNotJump(isInt, reg);
    }
  }

  lemma ConstLineIsPush(v: int)
    requires Int32.IsInt32(v)
    ensures '\n' !in GetConstInstruction(v)
    ensures StackEffect(GetConstInstruction(v)) == Some(1) && !IsConditionalJump(GetConstInstruction(v))
  {
    if -1 <= v <= 5 {
      IconstIsPush(v);
    } else {
      ConstOperandIsPush(v);
    }
  }

  lemma ConstOperandIsPush(v: int)
    requires Int32.IsInt32(v) && (v < -1 || v > 5)
    ensures '\n' !in GetConstInstruction(v)
    ensures StackEffect(GetConstInstruction(v)) == Some(1) && !IsConditionalJump(GetConstInstruction(v))
  {
    var m := if -128 <= v <= 127 then "bipush" else if -32768 <= v <= 32767 then "sipush" else "ldc";
    ConstOperandText(v, m);
    NoNewlineInOperandLine(m, v);
    OperandPushLine(m, IntToString(v));
  }

  lemma NoNewlineInOperandLine(m: string, v: int)
    requires m in {"bipush", "sipush", "ldc"}
    ensures '\n' !in m + " " + IntToString(v)
  {
    NoNewlineInNumeral(v);
    assert '\n' !in m + " ";
  }

  lemma IconstIsPush(v: int)
    requires -1 <= v <= 5
    ensures '\n' !in GetConstInstruction(v)
    ensures StackEffect(GetConstInstruction(v)) == Some(1) && !IsConditionalJump(GetConstInstruction(v))
  {
    var line := GetConstInstruction(v);
    IconstText(v);
    assert '\n' !in line by {
      if v != -1 {
        assert IntToString(v) == [DigitChar(v)];
      }
    }
    if v == -1 {
      assert line[|line| - 2] == 'm';
    } else {
      assert line[..|line| - 2] == "iconst";
    }
    assert AccessOf(line) == None;
    assert line[1] == 'c';
  }

  lemma OperandPushLine(m: string, s: string)
    requires m in {"bipush", "sipush", "ldc"} && PushedConstant(m + " " + s).Some?
    ensures StackEffect(m + " " + s) == Some(1) && !IsConditionalJump(m + " " + s)
  {
    SplitLine(m, s);
    assert Family(m) == None;
    assert m[1] != 'f';
    NotAJump(m + " " + s);
  }

  lemma LoadLineIsNotJump(isInt: bool, reg: int)
    requires reg >= 0
    ensures !IsConditionalJump(LoadForm(isInt, reg))
  {
    if reg <= 3 {
      CompactLoadIsNotJump(isInt, reg);
    } else {
      GeneralLoadIsNotJump(isInt, reg);
    }
  }

  lemma CompactLoadIsNotJump(isInt: bool, reg: int)
    requires 0 <= reg <= 3
    ensures !IsConditionalJump(LoadForm(isInt, reg))
  {
    assert IntToString(reg) == [DigitChar(reg)];
    WordIsNotJump((if isInt then "iload_" else "aload_") + [DigitChar(reg)]);
  }

  lemma GeneralLoadIsNotJump(isInt: bool, reg: int)
    requires reg > 3
    ensures !IsConditionalJump(LoadForm(isInt, reg))
  {
    var m := if isInt then "iload" else "aload";
    assert ' ' !in m && |m| >= 2 && m[1] != 'f';
    assert LoadForm(isInt, reg) == m + " " + IntToString(reg);
    SpacedWordIsNotJump(m, IntToString(reg));
  }

  /** A line whose mnemonic's second letter is not `f` is no conditional jump, whatever follows. */
  lemma SpacedWordIsNotJump(m: string, arg: string)
    requires ' ' !in m && |m| >= 2 && m[1] != 'f'
    ensures !IsConditionalJump(m + " " + arg)
  {
    SplitLine(m, arg);
    NotAJump(m + " " + arg);
  }

  /** A one-word line whose second letter is not `f` is no conditional jump. */
  lemma WordIsNotJump(line: string)
    requires ' ' !in line && |line| >= 2 && line[1] != 'f'
    ensures !IsConditionalJump(line)
  {
    NotAJump(line);
  }

  /** The conditional jump of the `<` idiom takes its operands off the stack. */
  lemma JumpLineEffect(jump: string, target: string)
    requires jump in {"if_icmplt", "iflt"} && ' ' !in target
    ensures StackEffect(jump + " " + target) == Some(if jump == "iflt" then -1 else -2)
    ensures IsConditionalJump(jump + " " + target)
  {
    var line := jump + " " + target;
    SplitLine(jump, target);
    assert line[1] == 'f';
    assert PushedConstant(line) == None;
  }

  lemma LessIdiomLines(jump: string, ts: Stamps) returns (first: string, tail: seq<string>)
    requires jump in {"if_icmplt", "iflt"}
    ensures Lines(LessIdiom(jump, ts)) == [first] + tail
    ensures StackEffect(first) == Some(if jump == "iflt" then -1 else -2) && IsConditionalJump(first)
  {
    var trueLabel := "LT_TRUE_" + IntToString(ts.first);
    var rest := PushBoolean(trueLabel, "LT_END_" + IntToString(ts.second));
    first := jump + " " + trueLabel;
    LabelText("LT_TRUE_", ts.first);
    JumpLineEffect(jump, trueLabel);
    NoNewlineInJump(jump, trueLabel);
    assert LessIdiom(jump, ts) == first + "\n" + rest;
    LinesCons(first, rest);
    tail := Lines(rest);
  }

  lemma NoNewlineInJump(jump: string, target: string)
    requires jump in {"if_icmplt", "iflt"} && '\n' !in target
    ensures '\n' !in jump + " " + target
  {
    assert '\n' !in jump + " ";
  }

  /** A label built from a prefix and a clock reading is one word on one line. */
  lemma LabelText(prefix: string, n: int)
    requires ' ' !in prefix && '\n' !in prefix
    ensures ' ' !in prefix + IntToString(n) && '\n' !in prefix + IntToString(n)
  {
    NoSpaceInNumeral(n);
    NoNewlineInNumeral(n);
  }

  /** The lines of `line + NL` followed by more code start with `line`. */
  lemma LinesAfter(line: string, rest: string)
    requires '\n' !in line
    ensures Lines(line + NL + rest) == [line] + Lines(rest)
  {
    LinesCons(line, rest);
  }

  /** At the jump of the `<` idiom the stack is the given depth lower. */
  lemma DepthAtLessIdiom(jump: string, ts: Stamps)
    requires jump in {"if_icmplt", "iflt"}
    ensures DepthAfterJump(Lines(LessIdiom(jump, ts))) == Some(if jump == "iflt" then -1 else -2)
  {
    var first, tail := LessIdiomLines(jump, ts);
    DepthAtJump(first, tail, if jump == "iflt" then -1 else -2);
  }

  /** The code of `x < y` from the code of its operands. */
  lemma LessCode(left: Element, right: Element, ctx: Context, ts: Stamps, l: string, r: string)
    requires ElementCode(left, ctx) == Ok(l) && ElementCode(right, ctx) == Ok(r)
    ensures GenerateBinaryOp(left, LTH, right, ctx, ts)
         == Ok(if IsZeroLiteral(right) then l + LessIdiom("iflt", ts) else l + (r + LessIdiom("if_icmplt", ts)))
    ensures GenerateBinaryOpAsWritten(left, LTH, right, ctx, ts)
         == Ok(if IsZeroLiteral(right) then l + (r + (l + LessIdiom("iflt", ts)))
               else l + (r + (l + (r + LessIdiom("if_icmplt", ts)))))
  {
    LessCodeCorrected(left, right, ctx, ts, l, r);
    LessCodeAsWritten(left, right, ctx, ts, l, r);
  }

  lemma LessCodeCorrected(left: Element, right: Element, ctx: Context, ts: Stamps, l: string, r: string)
    requires ElementCode(left, ctx) == Ok(l) && ElementCode(right, ctx) == Ok(r)
    ensures GenerateBinaryOp(left, LTH, right, ctx, ts)
         == Ok(if IsZeroLiteral(right) then l + LessIdiom("iflt", ts) else l + (r + LessIdiom("if_icmplt", ts)))
  {
    var c := LessIdiom("if_icmplt", ts);
    if !IsZeroLiteral(right) {
      assert GenerateBinaryOp(left, LTH, right, ctx, ts) == Ok(l + r + c);
      ConcatAssoc(l, r, c);
    }
  }

  lemma LessCodeAsWritten(left: Element, right: Element, ctx: Context, ts: Stamps, l: string, r: string)
    requires ElementCode(left, ctx) == Ok(l) && ElementCode(right, ctx) == Ok(r)
    ensures GenerateBinaryOpAsWritten(left, LTH, right, ctx, ts)
         == Ok(if IsZeroLiteral(right) then l + (r + (l + LessIdiom("iflt", ts)))
               else l + (r + (l + (r + LessIdiom("if_icmplt", ts)))))
  {
    var z, c := LessIdiom("iflt", ts), LessIdiom("if_icmplt", ts);
    if IsZeroLiteral(right) {
      Regroup(l, r, l, z);
    } else {
      Regroup(l, r, l, r + c);
      ConcatAssoc(l + r + l, r, c);
    }
  }

  lemma Regroup(a: string, b: string, c: string, d: string)
    ensures a + b + c + d == a + (b + (c + d))
  {
    ConcatAssoc(a + b, c, d);
    ConcatAssoc(a, b, c + d);
  }

  /** The lines of `x < y` on two simple operands, as emitted and as written. */
  lemma LessLines(left: Element, right: Element, ctx: Context, ts: Stamps) returns (first: string, tail: seq<string>)
    requires SimpleElement(left, ctx) && SimpleElement(right, ctx)
    ensures GenerateBinaryOp(left, LTH, right, ctx, ts).Ok? && GenerateBinaryOpAsWritten(left, LTH, right, ctx, ts).Ok?
    ensures var a, b, j := SimpleLine(left, ctx), SimpleLine(right, ctx), [first] + tail;
            Lines(GenerateBinaryOp(left, LTH, right, ctx, ts).value)
              == (if IsZeroLiteral(right) then [a] + j else [a] + ([b] + j)) &&
            Lines(GenerateBinaryOpAsWritten(left, LTH, right, ctx, ts).value)
              == (if IsZeroLiteral(right) then [a] + ([b] + ([a] + j)) else [a] + ([b] + ([a] + ([b] + j))))
    ensures StackEffect(first) == Some(if IsZeroLiteral(right) then -1 else -2) && IsConditionalJump(first)
  {
    var a, b := SimpleLine(left, ctx), SimpleLine(right, ctx);
    SimpleElementCode(left, ctx);
    SimpleElementCode(right, ctx);
    LessCode(left, right, ctx, ts, a + NL, b + NL);
    var jump := if IsZeroLiteral(right) then "iflt" else "if_icmplt";
    var idiom := LessIdiom(jump, ts);
    first, tail := LessIdiomLines(jump, ts);
    LinesAfter(a, idiom);
    LinesAfter(b, idiom);
    LinesAfter(a, b + NL + idiom);
    LinesAfter(a, b + NL + (a + NL + idiom));
    LinesAfter(b, a + NL + idiom);
    LinesAfter(a, b + NL + (a + NL + (b + NL + idiom)));
    LinesAfter(b, a + NL + (b + NL + idiom));
    LinesAfter(a, b + NL + idiom);
  }

  /** `x < y` on two simple operands: by the time the comparison jumps, both operands have been
      taken off the stack again, so only the 0 or 1 the idiom pushes is left behind. */
  lemma LessBalanced(left: Element, right: Element, ctx: Context, ts: Stamps)
    requires SimpleElement(left, ctx) && SimpleElement(right, ctx)
    ensures GenerateBinaryOp(left, LTH, right, ctx, ts).Ok?
    ensures DepthAfterJump(Lines(GenerateBinaryOp(left, LTH, right, ctx, ts).value)) == Some(0)
  {
    var first, tail := LessLines(left, right, ctx, ts);
    SimpleLinePushes(left, ctx);
    SimpleLinePushes(right, ctx);
    DepthAfterOperands(SimpleLine(left, ctx), SimpleLine(right, ctx), first, tail,
                       if IsZeroLiteral(right) then -1 else -2);
  }
}
