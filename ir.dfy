/** The slice of the OLLIR intermediate representation that the register allocator and the Jasmin
    emitter consume: types, elements (literals and operands), instructions, per-method variable
    tables and the class unit. The control-flow graph that `buildCFGs` attaches to a method is
    given here as a successor index list per instruction; an index outside the instruction list
    stands for a non-instruction successor (the method's end node). */
module Ir {
  import opened Wrappers

  datatype Type =
    | IntType
    | BoolType
    | VoidType
    | StringType
    | ClassType(name: string)
    | ArrayType(elem: Type)

  /** An element: `LiteralElement`, `Operand`, or `ArrayOperand` (which is a kind of `Operand`). */
  datatype Element =
    | Literal(literal: string, ty: Type)
    | Operand(name: string, ty: Type)
    | ArrayOperand(name: string, indexOperands: seq<Element>, ty: Type)
  {
    /** `element instanceof Operand` holds for plain and array operands alike. */
    predicate IsOperand() {
      Operand? || ArrayOperand?
    }
  }

  datatype OpType = ADD | SUB | MUL | DIV | AND | OR | LTH | GTH | LTE | GTE | EQ | NEQ | NOT | NOTB

  datatype CallKind = InvokeVirtual | InvokeSpecial | InvokeStatic | New | ArrayLength

  datatype Instruction =
    | Assign(dest: Element, rhs: Instruction, typeOfAssign: Type)
    | SingleOp(operand: Element)
    | BinaryOp(left: Element, op: OpType, right: Element)
    | UnaryOp(op: OpType, operand: Element)
    | Call(kind: CallKind, caller: Option<Element>, methodName: string, arguments: seq<Element>, returnType: Type)
    | Return(returnValue: Option<Element>)
    | CondBranch(condition: Instruction, labelName: string)
    | Goto(labelName: string)
    | GetField(obj: Element, field: string, fieldType: Type)
    | PutField(obj: Element, field: string, value: Element, fieldType: Type)

  /** `CondBranchInstruction.getOperands()`: the operands of its condition. */
  function CondOperands(condition: Instruction): (es: seq<Element>)
    ensures condition.BinaryOp? ==> es == [condition.left, condition.right]
    ensures condition.SingleOp? || condition.UnaryOp? ==> es == [condition.operand]
  {
    match condition
    case BinaryOp(l, _, r) => [l, r]
    case UnaryOp(_, e) => [e]
    case SingleOp(e) => [e]
    case _ => []
  }

  /** One node of a method's control-flow graph: the instruction, the indices of its successors
      and the labels attached to it. */
  datatype CfgNode = CfgNode(inst: Instruction, successors: seq<int>, labels: seq<string>)

  datatype Scope = Local | Parameter | Field

  /** A variable-table entry: scope, virtual register (slot) and type. */
  datatype Descriptor = Descriptor(scope: Scope, virtualReg: int, varType: Type)

  datatype AccessModifier = Public | Private | Protected | Default

  /** An OLLIR method. Everything is fixed once built except the variable table, whose slots the
      register allocator rewrites. */
  class Method {
    const methodName: string
    const isConstructMethod: bool
    const isStaticMethod: bool
    const access: AccessModifier
    const params: seq<Element>
    const returnType: Type
    const instructions: seq<CfgNode>
    var varTable: map<string, Descriptor>

    constructor(methodName: string, isConstructMethod: bool, isStaticMethod: bool, access: AccessModifier,
                params: seq<Element>, returnType: Type, instructions: seq<CfgNode>,
                varTable: map<string, Descriptor>)
      ensures this.methodName == methodName && this.isConstructMethod == isConstructMethod
      ensures this.isStaticMethod == isStaticMethod && this.access == access
      ensures this.params == params && this.returnType == returnType
      ensures this.instructions == instructions && this.varTable == varTable
    {
      this.methodName := methodName;
      this.isConstructMethod := isConstructMethod;
      this.isStaticMethod := isStaticMethod;
      this.access := access;
      this.params := params;
      this.returnType := returnType;
      this.instructions := instructions;
      this.varTable := varTable;
    }
  }

  datatype FieldDecl = FieldDecl(fieldName: string, fieldType: Type)

  /** The class being compiled; `superClass` is `None` when OLLIR reports none. */
  datatype ClassUnit = ClassUnit(className: string, superClass: Option<string>, fields: seq<FieldDecl>,
                                 methods: seq<Method>)
}
