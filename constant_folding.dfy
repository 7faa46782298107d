/** Constant folding of one binary expression (`ConstantFoldingVisitor.foldBinary`): a `+`, `-`,
    `*` or `/` of two integer literals becomes the integer literal of its Java `int` value. The
    rewrite, which the visitor performs on the node in place, is modelled by returning the
    rewritten node together with the visitor's answer (whether it folded). */
module ConstantFolding {
  import opened Wrappers
  import opened Strings
  import opened Int32
  import opened JmmAst

  predicate IsIntegerLiteral(n: Node) {
    n.kind == INTEGER_LITERAL
  }

  /** `Integer.parseInt(node.get("value"))`. */
  function LiteralValue(n: Node): (r: Result<int>)
    ensures r.Ok? ==> IsInt32(r.value)
    ensures r.Ok? <==> "value" in n.attributes && ParseInt(n.attributes["value"]).Some?
  {
    var text :- Get(n, "value");
    var v := ParseInt(text);
    if v.None? then Err("NumberFormatException") else Ok(v.value)
  }

  /** The value the operator computes on two `int` operands, or `None` when the code declines to
      fold: a division by zero, or an operator other than `+`, `-`, `*` and `/`. */
  function Evaluate(op: string, lhs: int, rhs: int): (r: Option<int>)
    ensures r.Some? <==> op in {"+", "-", "*"} || (op == "/" && rhs != 0)
    ensures r.Some? ==> IsInt32(r.value)
  {
    if op == "+" then Some(Wrap(lhs + rhs))
    else if op == "-" then Some(Wrap(lhs - rhs))
    else if op == "*" then Some(Wrap(lhs * rhs))
    else if op == "/" then (if rhs == 0 then None else Some(JavaDiv(lhs, rhs)))
    else None
  }

  /** The literal a folded node becomes: kind `IntegerLiteral`, the decimal text of the value as
      its `value`, no children; other attributes and the position stay. */
  function FoldedNode(node: Node, v: int): Node {
    Node(INTEGER_LITERAL, node.attributes["value" := IntToString(v)], [], node.line, node.column)
  }

  /** `foldBinary`: the node after the visit and whether it was folded. Reading a missing child
      or attribute, or a literal `Integer.parseInt` rejects, throws. */
  function FoldBinary(node: Node): (r: Result<(Node, bool)>)
    ensures r.Ok? && !r.value.1 ==> r.value.0 == node
    ensures |node.children| >= 2 && !(IsIntegerLiteral(node.children[0]) && IsIntegerLiteral(node.children[1])) ==>
              r == Ok((node, false))
    ensures r.Err? ==> |node.children| < 2 || (IsIntegerLiteral(node.children[0]) && IsIntegerLiteral(node.children[1]))
    ensures r.Ok? && r.value.1 ==> r.value.0.kind == INTEGER_LITERAL && r.value.0.children == []
  {
    var left :- Child(node, 0);
    var right :- Child(node, 1);
    if !IsIntegerLiteral(left) || !IsIntegerLiteral(right) then Ok((node, false))
    else
      var lhs :- LiteralValue(left);
      var rhs :- LiteralValue(right);
      var op :- Get(node, "op");
      var result := Evaluate(op, lhs, rhs);
      if result.None? then Ok((node, false))
      else Ok((FoldedNode(node, result.value), true))
  }

  /** A node of two integer literals that parse: what `foldBinary` does with each operator. */
  lemma FoldCases(node: Node, op: string, lhs: int, rhs: int)
    requires |node.children| >= 2 && IsIntegerLiteral(node.children[0]) && IsIntegerLiteral(node.children[1])
    requires LiteralValue(node.children[0]) == Ok(lhs) && LiteralValue(node.children[1]) == Ok(rhs)
    requires Get(node, "op") == Ok(op)
    ensures op == "/" && rhs == 0 ==> FoldBinary(node) == Ok((node, false))
    ensures op !in {"+", "-", "*", "/"} ==> FoldBinary(node) == Ok((node, false))
    ensures op in {"+", "-", "*"} || (op == "/" && rhs != 0) ==>
              FoldBinary(node).Ok? && FoldBinary(node).value.1
  {
  }

  /** A folded node holds the Java `int` value of the expression: the literals' values combined
      modulo 2^32 for `+`, `-` and `*`, and for `/` the quotient rounded toward zero (narrowed to
      32 bits, which matters only for `MIN / -1`). Parsing the new literal gives that value back,
      so a later pass reads what was folded. */
  lemma FoldedValue(node: Node, lhs: int, rhs: int, op: string) returns (v: int)
    requires |node.children| >= 2
    requires LiteralValue(node.children[0]) == Ok(lhs) && LiteralValue(node.children[1]) == Ok(rhs)
    requires Get(node, "op") == Ok(op)
    requires FoldBinary(node).Ok? && FoldBinary(node).value.1
    ensures LiteralValue(FoldBinary(node).value.0) == Ok(v)
    ensures op == "+" ==> (v - (lhs + rhs)) % MODULUS == 0
    ensures op == "-" ==> (v - (lhs - rhs)) % MODULUS == 0
    ensures op == "*" ==> (v - lhs * rhs) % MODULUS == 0
    ensures op == "/" ==> rhs != 0 && v == Wrap(TruncDiv(lhs, rhs))
    ensures op in {"+", "-", "*", "/"}
  {
    v := Evaluate(op, lhs, rhs).value;
    ParseIntOfIntToString(v);
  }

  /** Java division is not Dafny's: `-7 / 2` folds to `-3`. */
  lemma FoldNegativeDivision(node: Node)
    requires |node.children| == 2 && IsIntegerLiteral(node.children[0]) && IsIntegerLiteral(node.children[1])
    requires LiteralValue(node.children[0]) == Ok(-7) && LiteralValue(node.children[1]) == Ok(2)
    requires Get(node, "op") == Ok("/")
    ensures FoldBinary(node) == Ok((FoldedNode(node, -3), true))
  {
    TruncDivIsNotEuclidean();
  }

  /** `2147483647 + 1` folds to `-2147483648`, as Java's `int` addition wraps. */
  lemma FoldOverflow(node: Node)
    requires |node.children| == 2 && IsIntegerLiteral(node.children[0]) && IsIntegerLiteral(node.children[1])
    requires LiteralValue(node.children[0]) == Ok(MAX) && LiteralValue(node.children[1]) == Ok(1)
    requires Get(node, "op") == Ok("+")
    ensures FoldBinary(node) == Ok((FoldedNode(node, MIN), true))
  {
    assert Wrap(MAX + 1) == MIN;
  }
}
