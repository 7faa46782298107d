/** Conservative constant propagation (`optimization/ConstantPropagationVisitor`). Per method it
    first collects the variables assigned anywhere inside a loop body; these are never treated as
    constant. It then walks the method: an assignment `x = rhs` outside every loop records the
    constant `rhs` denotes (a literal, or a variable with a recorded constant) and any other
    assignment forgets `x`; a read of a variable with a recorded constant outside every loop is
    replaced by a literal of that constant.

    The visitor is a preorder visitor: `visit(n)` runs the handler registered for the kind of `n`
    (`MethodDecl`, `WhileStmt`, `AssignStmt`, `VarRefExpr`, otherwise `defaultVisit`) and then
    visits the children of `n` once more, with the state the handler left. That traversal is
    `Walk(AsWritten, ...)`. It has three consequences the handlers do not intend: a read that
    precedes an assignment is rewritten with the value assigned after it, a loop body is walked
    again after the loop flag was restored, and the two branches of an `if` are walked one after
    the other with no meeting of their maps. `Walk(Corrected, ...)` is the intended single walk:
    each handler alone, and an `if` whose map afterwards keeps only the entries both branches
    agree on.

    The walk is stated first as functions over the tree and the visitor's state, and the
    visitor's methods are proved to compute the as-written walk; the properties are lemmas about
    the functions. A replacement, which the source performs on the tree in place, is modelled by
    returning the rewritten subtree. */
module ConstantPropagation {
  import opened Wrappers
  import opened JmmAst

  datatype ConstantType = INTEGER | BOOLEAN

  datatype ConstantValue = ConstantValue(constantType: ConstantType, value: string)

  /** The fields of the visitor. */
  datatype State = State(changed: bool, currentMethod: Option<string>, constantMap: map<string, ConstantValue>,
                         loopModifiedVars: set<string>, insideLoop: bool)

  /** The traversal: the one the visitor performs, or the intended single walk. */
  datatype Traversal = AsWritten | Corrected

  /** The attributes and children each handler reads are present: a `VarRefExpr` and an
      `IntegerLiteral` have `value`, a `MethodDecl` has `name`, a `WhileStmt` has its condition
      and body. The source throws on a tree without them. A `VarRefExpr` is a leaf of the
      grammar. */
  ghost predicate WellFormed(n: Node)
    decreases n
  {
    (n.kind == VAR_REF_EXPR ==> "value" in n.attributes && n.children == []) &&
    (n.kind == INTEGER_LITERAL ==> "value" in n.attributes) &&
    (n.kind == METHOD_DECL ==> "name" in n.attributes) &&
    (n.kind == WHILE_STMT ==> |n.children| >= 2) &&
    forall i :: 0 <= i < |n.children| ==> WellFormed(n.children[i])
  }

  /** No method declaration inside the tree (a method body, a statement). */
  ghost predicate NoMethodDecl(n: Node)
    decreases n
  {
    n.kind != METHOD_DECL && forall i :: 0 <= i < |n.children| ==> NoMethodDecl(n.children[i])
  }

  /** The number of nodes of a tree; the as-written walk visits a subtree more than once, so its
      termination is measured by size. */
  function Size(n: Node): nat
    decreases n, 1
  {
    1 + ChildrenSize(n.children)
  }

  function ChildrenSize(cs: seq<Node>): nat
    decreases cs, 0
  {
    if cs == [] then 0 else ChildrenSize(cs[..|cs| - 1]) + Size(cs[|cs| - 1])
  }

  lemma ChildrenSizeSnoc(cs: seq<Node>, c: Node)
    ensures ChildrenSize(cs + [c]) == ChildrenSize(cs) + Size(c)
  {
    assert (cs + [c])[..|cs|] == cs;
  }

  /** The bounds `WalkChildren` keeps survive one more child. */
  lemma SnocBounds(cs: seq<Node>, k: int, prefix: seq<Node>, c: Node)
    requires 0 < k <= |cs| && |prefix| == k - 1 && WellFormed(c) && Size(c) <= Size(cs[k - 1])
    requires forall i :: 0 <= i < k - 1 ==> WellFormed(prefix[i])
    requires ChildrenSize(prefix) <= ChildrenSize(cs[..k - 1])
    ensures |prefix + [c]| == k && forall i :: 0 <= i < k ==> WellFormed((prefix + [c])[i])
    ensures ChildrenSize(prefix + [c]) <= ChildrenSize(cs[..k])
  {
    ChildrenSizeSnoc(prefix, c);
    assert cs[..k] == cs[..k - 1] + [cs[k - 1]];
    ChildrenSizeSnoc(cs[..k - 1], cs[k - 1]);
  }

  lemma {:induction false} ChildSmaller(cs: seq<Node>, i: int)
    requires 0 <= i < |cs|
    ensures Size(cs[i]) <= ChildrenSize(cs)
    decreases |cs|
  {
    if i < |cs| - 1 {
      ChildSmaller(cs[..|cs| - 1], i);
    }
  }

  lemma {:induction false} ChildrenSizeUpdate(cs: seq<Node>, i: int, c: Node)
    requires 0 <= i < |cs|
    ensures ChildrenSize(cs[i := c]) == ChildrenSize(cs) - Size(cs[i]) + Size(c)
    decreases |cs|
  {
    var last := |cs| - 1;
    if i < last {
      assert cs[i := c][..last] == cs[..last][i := c];
      ChildrenSizeUpdate(cs[..last], i, c);
    } else {
      assert cs[i := c][..last] == cs[..last];
    }
  }

  // ---------------------------------------------------------------------------------------------
  // Loop-modified variables.

  /** The variable a node assigns, when it is an `AssignStmt` whose first child is a
      `VarRefExpr`. */
  function AssignedHere(n: Node): set<string> {
    if n.kind == ASSIGN_STMT && |n.children| >= 2 && n.children[0].kind == VAR_REF_EXPR &&
       "value" in n.children[0].attributes
    then {n.children[0].attributes["value"]}
    else {}
  }

  /** `findModifiedVariables`: every variable assigned anywhere in the tree. */
  function Assigned(n: Node): set<string> {
    Collect(AssignedHere, n)
  }

  /** The variables a `WhileStmt` assigns in its body. */
  function LoopBodyAssigns(n: Node): set<string> {
    if n.kind == WHILE_STMT && |n.children| >= 2 then Assigned(n.children[1]) else {}
  }

  /** `identifyLoopModifiedVariables`: the variables assigned inside the body of some loop. */
  function LoopAssigned(n: Node): set<string> {
    Collect(LoopBodyAssigns, n)
  }

  /** The loop-modified variables are exactly the names assigned, as a variable, by some
      assignment anywhere in the body of some `while` of the tree, at any depth of nesting. */
  lemma LoopAssignedMeans(n: Node, x: string)
    ensures x in LoopAssigned(n) <==>
      exists w, s :: w in Preorder(n) && w.kind == WHILE_STMT && |w.children| >= 2 &&
                     s in Preorder(w.children[1]) && x in AssignedHere(s)
  {
    CollectMeansPreorder(LoopBodyAssigns, n, x);
    if x in LoopAssigned(n) {
      var w :| w in Preorder(n) && x in LoopBodyAssigns(w);
      CollectMeansPreorder(AssignedHere, w.children[1], x);
    }
    if exists w, s :: w in Preorder(n) && w.kind == WHILE_STMT && |w.children| >= 2 &&
                      s in Preorder(w.children[1]) && x in AssignedHere(s) {
      var w, s :| w in Preorder(n) && w.kind == WHILE_STMT && |w.children| >= 2 &&
                  s in Preorder(w.children[1]) && x in AssignedHere(s);
      CollectMeansPreorder(AssignedHere, w.children[1], x);
      assert x in LoopBodyAssigns(w);
    }
  }

  // ---------------------------------------------------------------------------------------------
  // The walk.

  /** `getConstantValue`: the constant a node denotes. */
  function ConstantOf(n: Node, constantMap: map<string, ConstantValue>): (r: Option<ConstantValue>)
    requires WellFormed(n)
    ensures r.Some? <==> n.kind in {INTEGER_LITERAL, BOOLEAN_TRUE, BOOLEAN_FALSE} ||
                         (n.kind == VAR_REF_EXPR && n.attributes["value"] in constantMap)
    ensures n.kind == INTEGER_LITERAL ==> r == Some(ConstantValue(INTEGER, n.attributes["value"]))
    ensures n.kind == BOOLEAN_TRUE ==> r == Some(ConstantValue(BOOLEAN, "true"))
    ensures n.kind == BOOLEAN_FALSE ==> r == Some(ConstantValue(BOOLEAN, "false"))
    ensures n.kind == VAR_REF_EXPR && r.Some? ==> r.value == constantMap[n.attributes["value"]]
  {
    if n.kind == INTEGER_LITERAL then Some(ConstantValue(INTEGER, n.attributes["value"]))
    else if n.kind == BOOLEAN_TRUE then Some(ConstantValue(BOOLEAN, "true"))
    else if n.kind == BOOLEAN_FALSE then Some(ConstantValue(BOOLEAN, "false"))
    else if n.kind == VAR_REF_EXPR then
      (if n.attributes["value"] in constantMap then Some(constantMap[n.attributes["value"]]) else None)
    else None
  }

  /** `createConstantNode`: a fresh literal node (its source position is not known). */
  function ConstantNode(c: ConstantValue): (r: Node)
    ensures r.kind in {INTEGER_LITERAL, BOOLEAN_TRUE, BOOLEAN_FALSE} && r.children == [] && WellFormed(r)
  {
    match c.constantType
    case INTEGER => Node(INTEGER_LITERAL, map["value" := c.value], [], 0, 0)
    case BOOLEAN =>
      if c.value == "true" then Node(BOOLEAN_TRUE, map["value" := "true"], [], 0, 0)
      else Node(BOOLEAN_FALSE, map["value" := "false"], [], 0, 0)
  }

  /** A node made by `createConstantNode` denotes the constant it was made from (a boolean
      constant is `"true"` or `"false"`), whatever the map. */
  lemma ConstantNodeRoundTrip(c: ConstantValue, constantMap: map<string, ConstantValue>)
    requires c.constantType == BOOLEAN ==> c.value == "true" || c.value == "false"
    ensures ConstantOf(ConstantNode(c), constantMap) == Some(c)
  {
  }

  /** Whether a node is the first child of an `AssignStmt` (`parent.getChild(0) == varRefExpr`). */
  function IsTarget(parent: Node, i: int): bool {
    parent.kind == ASSIGN_STMT && i == 0
  }


  /** `visit(n)`: the rewritten tree and the visitor's state afterwards. `asTarget` says whether
      `n` is the first child of an assignment. As written, the handler of the node's kind runs
      and then every child of what it left is visited again; the corrected walk is the handler
      alone. */
  function Walk(t: Traversal, n: Node, asTarget: bool, st: State): (r: (Node, State))
    requires WellFormed(n)
    ensures WellFormed(r.0) && Size(r.0) <= Size(n)
    decreases Size(n), 4
  {
    var (h, st1) := Handle(t, n, asTarget, st);
    if t == Corrected then (h, st1)
    else
      var (children, st2) := WalkChildren(t, h, |h.children|, st1);
      assert h.children[..|h.children|] == h.children;
      (h.(children := children), st2)
  }

  /** The handler registered for the node's kind. The corrected walk also gives `if` statements
      a handler that meets the maps of the two branches. */
  function Handle(t: Traversal, n: Node, asTarget: bool, st: State): (r: (Node, State))
    requires WellFormed(n)
    ensures WellFormed(r.0) && Size(r.0) <= Size(n)
    decreases Size(n), 3
  {
    if n.kind == METHOD_DECL then WalkMethodDecl(t, n, st)
    else if n.kind == WHILE_STMT then WalkWhileStmt(t, n, st)
    else if n.kind == ASSIGN_STMT then WalkAssignStmt(t, n, st)
    else if n.kind == VAR_REF_EXPR then WalkVarRefExpr(n, asTarget, st)
    else if t == Corrected && n.kind == WITH_ELSE_STMT && |n.children| == 3 then WalkWithElse(n, st)
    else if t == Corrected && n.kind == NO_ELSE_STMT && |n.children| == 2 then WalkNoElse(n, st)
    else WalkDefault(t, n, st)
  }

  /** `visitMethodDecl`: resets the map, the loop-modified set and the loop flag, collects the
      loop-modified variables, then visits the children. */
  function WalkMethodDecl(t: Traversal, n: Node, st: State): (r: (Node, State))
    requires WellFormed(n) && n.kind == METHOD_DECL
    ensures WellFormed(r.0) && Size(r.0) <= Size(n)
    ensures r.0.kind == METHOD_DECL && r.0.attributes == n.attributes && |r.0.children| == |n.children|
    decreases Size(n), 2
  {
    var name := n.attributes["name"];
    var reset := State(st.changed, Some(if name == "args" then "main" else name), map[], LoopAssigned(n), false);
    var (children, st1) := WalkChildren(t, n, |n.children|, reset);
    assert n.children[..|n.children|] == n.children;
    (n.(children := children), st1)
  }

  /** `visitWhileStmt`: condition and body are visited inside the loop; the flag is restored. */
  function WalkWhileStmt(t: Traversal, n: Node, st: State): (r: (Node, State))
    requires WellFormed(n) && n.kind == WHILE_STMT
    ensures WellFormed(r.0) && Size(r.0) <= Size(n)
    ensures r.0.kind == WHILE_STMT && |r.0.children| == |n.children| && r.0.children[2..] == n.children[2..]
    ensures r.1.insideLoop == st.insideLoop
    decreases Size(n), 2
  {
    ChildSmaller(n.children, 0);
    ChildSmaller(n.children, 1);
    var (cond, st1) := Walk(t, n.children[0], false, st.(insideLoop := true));
    var (body, st2) := Walk(t, n.children[1], false, st1);
    ChildrenSizeUpdate(n.children, 0, cond);
    ChildrenSizeUpdate(n.children[0 := cond], 1, body);
    (n.(children := n.children[0 := cond][1 := body]), st2.(insideLoop := st.insideLoop))
  }

  /** `visitAssignStmt`. */
  function WalkAssignStmt(t: Traversal, n: Node, st: State): (r: (Node, State))
    requires WellFormed(n) && n.kind == ASSIGN_STMT
    ensures WellFormed(r.0) && Size(r.0) <= Size(n)
    ensures r.0.kind == ASSIGN_STMT && |r.0.children| == |n.children|
    ensures |n.children| == 2 ==> r.0.children[0] == n.children[0]
    decreases Size(n), 2
  {
    if |n.children| != 2 then WalkDefault(t, n, st)
    else
      var lhs, rhs := n.children[0], n.children[1];
      assert WellFormed(lhs);
      ChildSmaller(n.children, 1);
      var (rhs', st1) := Walk(t, rhs, false, st);
      ChildrenSizeUpdate(n.children, 1, rhs');
      var n' := n.(children := n.children[1 := rhs']);
      if lhs.kind != VAR_REF_EXPR then (n', st1)
      else (n', st1.(constantMap := AssignEffect(lhs.attributes["value"], rhs, st1)))
  }

  /** What an assignment to `x` of `rhs` leaves in the map, in the state after `rhs` was visited:
      the constant `rhs` denotes, unless `x` is loop-modified, the walk is inside a loop, or
      `rhs` denotes no constant; then `x` is forgotten. */
  function AssignEffect(x: string, rhs: Node, st: State): (r: map<string, ConstantValue>)
    requires WellFormed(rhs)
    ensures x in r <==> x !in st.loopModifiedVars && !st.insideLoop && ConstantOf(rhs, st.constantMap).Some?
    ensures x in r ==> r[x] == ConstantOf(rhs, st.constantMap).value
    ensures r - {x} == st.constantMap - {x}
  {
    var c := ConstantOf(rhs, st.constantMap);
    if x in st.loopModifiedVars then st.constantMap - {x}
    else if c.Some? && !st.insideLoop then st.constantMap[x := c.value]
    else st.constantMap - {x}
  }

  /** `visitVarRefExpr`. */
  function WalkVarRefExpr(n: Node, asTarget: bool, st: State): (r: (Node, State))
    requires WellFormed(n) && n.kind == VAR_REF_EXPR
    ensures WellFormed(r.0) && Size(r.0) <= Size(n)
    ensures r.1.(changed := st.changed) == st
    ensures r.0 == n ==> r.1.changed == st.changed
    ensures r.0 != n ==>
      var x := n.attributes["value"];
      !asTarget && !st.insideLoop && x !in st.loopModifiedVars && x in st.constantMap &&
      r.0 == ConstantNode(st.constantMap[x]) && r.1.changed
    decreases Size(n), 2
  {
    var x := n.attributes["value"];
    if asTarget || x in st.loopModifiedVars || x !in st.constantMap || st.insideLoop then (n, st)
    else (ConstantNode(st.constantMap[x]), st.(changed := true))
  }

  /** The entries two maps agree on. */
  function Meet(a: map<string, ConstantValue>, b: map<string, ConstantValue>): (r: map<string, ConstantValue>)
    ensures forall x :: x in r <==> x in a && x in b && a[x] == b[x]
    ensures forall x :: x in r ==> r[x] == a[x]
  {
    map x | x in a && x in b && a[x] == b[x] :: a[x]
  }

  /** The corrected `if (c) s1 else s2`: both branches start from the state after the condition,
      and afterwards a variable is bound only to a constant both branches leave it bound to. */
  function WalkWithElse(n: Node, st: State): (r: (Node, State))
    requires WellFormed(n) && n.kind == WITH_ELSE_STMT && |n.children| == 3
    ensures WellFormed(r.0) && Size(r.0) <= Size(n)
    ensures r.0.kind == WITH_ELSE_STMT && r.0.attributes == n.attributes && |r.0.children| == 3
    decreases Size(n), 2
  {
    ChildSmaller(n.children, 0);
    ChildSmaller(n.children, 1);
    ChildSmaller(n.children, 2);
    var (cond, st1) := Walk(Corrected, n.children[0], false, st);
    var (thenBranch, st2) := Walk(Corrected, n.children[1], false, st1);
    var (elseBranch, st3) := Walk(Corrected, n.children[2], false, st1.(changed := st2.changed));
    ChildrenSizeUpdate(n.children, 0, cond);
    ChildrenSizeUpdate(n.children[0 := cond], 1, thenBranch);
    ChildrenSizeUpdate(n.children[0 := cond][1 := thenBranch], 2, elseBranch);
    (n.(children := n.children[0 := cond][1 := thenBranch][2 := elseBranch]),
     st3.(constantMap := Meet(st2.constantMap, st3.constantMap)))
  }

  /** The corrected `if (c) s1`: the branch may be skipped, so afterwards a variable is bound
      only to a constant it had both before and after the branch. */
  function WalkNoElse(n: Node, st: State): (r: (Node, State))
    requires WellFormed(n) && n.kind == NO_ELSE_STMT && |n.children| == 2
    ensures WellFormed(r.0) && Size(r.0) <= Size(n)
    ensures r.0.kind == NO_ELSE_STMT && r.0.attributes == n.attributes && |r.0.children| == 2
    decreases Size(n), 2
  {
    ChildSmaller(n.children, 0);
    ChildSmaller(n.children, 1);
    var (cond, st1) := Walk(Corrected, n.children[0], false, st);
    var (thenBranch, st2) := Walk(Corrected, n.children[1], false, st1);
    ChildrenSizeUpdate(n.children, 0, cond);
    ChildrenSizeUpdate(n.children[0 := cond], 1, thenBranch);
    (n.(children := n.children[0 := cond][1 := thenBranch]),
     st2.(constantMap := Meet(st1.constantMap, st2.constantMap)))
  }

  /** `defaultVisit`: every child in order. */
  function WalkDefault(t: Traversal, n: Node, st: State): (r: (Node, State))
    requires WellFormed(n)
    ensures WellFormed(r.0) && Size(r.0) <= Size(n)
    ensures r.0.kind == n.kind && r.0.attributes == n.attributes && |r.0.children| == |n.children|
    decreases Size(n), 1
  {
    var (children, st1) := WalkChildren(t, n, |n.children|, st);
    assert n.children[..|n.children|] == n.children;
    (n.(children := children), st1)
  }

  /** The first `k` children visited in order. */
  function WalkChildren(t: Traversal, p: Node, k: int, st: State): (r: (seq<Node>, State))
    requires WellFormed(p) && 0 <= k <= |p.children|
    ensures |r.0| == k && forall i :: 0 <= i < k ==> WellFormed(r.0[i])
    ensures ChildrenSize(r.0) <= ChildrenSize(p.children[..k])
    decreases Size(p), 0, k
  {
    if k == 0 then ([], st)
    else
      var before := WalkChildren(t, p, k - 1, st);
      ChildSmaller(p.children, k - 1);
      var last := Walk(t, p.children[k - 1], IsTarget(p, k - 1), before.1);
      SnocBounds(p.children, k, before.0, last.0);
      (before.0 + [last.0], last.1)
  }

  // ---------------------------------------------------------------------------------------------
  // Properties of the walk.

  /** The rewritten tree differs from the original only where a read of a variable that is not
      loop-modified, and is not the target of an assignment, became a literal. */
  ghost predicate Rewrites(a: Node, b: Node, lm: set<string>, asTarget: bool)
    decreases a
  {
    a == b ||
    (a.kind == VAR_REF_EXPR && !asTarget && "value" in a.attributes && a.attributes["value"] !in lm &&
     b.kind in {INTEGER_LITERAL, BOOLEAN_TRUE, BOOLEAN_FALSE} && b.children == []) ||
    (b.kind == a.kind && b.attributes == a.attributes && b.line == a.line && b.column == a.column &&
     |b.children| == |a.children| &&
     forall i :: 0 <= i < |a.children| ==> Rewrites(a.children[i], b.children[i], lm, IsTarget(a, i)))
  }

  /** A rewrite of a rewrite is a rewrite. */
  lemma {:induction false} RewritesTrans(a: Node, b: Node, c: Node, lm: set<string>, asTarget: bool)
    requires Rewrites(a, b, lm, asTarget) && Rewrites(b, c, lm, asTarget)
    ensures Rewrites(a, c, lm, asTarget)
    decreases a
  {
    if a != b && b != c && b.kind == a.kind && b.attributes == a.attributes && b.line == a.line &&
       b.column == a.column && |b.children| == |a.children| && c.kind == b.kind &&
       c.attributes == b.attributes && c.line == b.line && c.column == b.column && |c.children| == |b.children| {
      forall i | 0 <= i < |a.children| ensures Rewrites(a.children[i], c.children[i], lm, IsTarget(a, i)) {
        RewritesTrans(a.children[i], b.children[i], c.children[i], lm, IsTarget(a, i));
      }
    }
  }

  /** Rewriting only ever turns reads into literals, so two trees that rewrite to each other are
      the same tree. */
  lemma {:induction false} RewritesAntisymmetric(a: Node, b: Node, lm: set<string>, asTarget: bool)
    requires Rewrites(a, b, lm, asTarget) && Rewrites(b, a, lm, asTarget)
    ensures a == b
    decreases a
  {
    if b.kind == a.kind && b.attributes == a.attributes && b.line == a.line &&
       b.column == a.column && |b.children| == |a.children| {
      forall i | 0 <= i < |a.children| ensures a.children[i] == b.children[i] {
        RewritesAntisymmetric(a.children[i], b.children[i], lm, IsTarget(a, i));
      }
      assert a.children == b.children;
    }
  }

  lemma {:induction false} RewritesNoMethod(a: Node, b: Node, lm: set<string>, asTarget: bool)
    requires NoMethodDecl(a) && Rewrites(a, b, lm, asTarget)
    ensures NoMethodDecl(b)
    decreases a
  {
    if a != b && b.kind == a.kind && |b.children| == |a.children| &&
       b.attributes == a.attributes && b.line == a.line && b.column == a.column {
      forall i | 0 <= i < |b.children| ensures NoMethodDecl(b.children[i]) {
        RewritesNoMethod(a.children[i], b.children[i], lm, IsTarget(a, i));
      }
    }
  }

  /** An expression: no assignment and no method declaration anywhere in it. */
  ghost predicate IsExpression(n: Node)
    decreases n
  {
    n.kind != ASSIGN_STMT && n.kind != METHOD_DECL &&
    forall i :: 0 <= i < |n.children| ==> IsExpression(n.children[i])
  }

  lemma {:induction false} RewritesExpression(a: Node, b: Node, lm: set<string>, asTarget: bool)
    requires IsExpression(a) && Rewrites(a, b, lm, asTarget)
    ensures IsExpression(b)
    decreases a
  {
    if a != b && b.kind == a.kind && |b.children| == |a.children| &&
       b.attributes == a.attributes && b.line == a.line && b.column == a.column {
      forall i | 0 <= i < |b.children| ensures IsExpression(b.children[i]) {
        RewritesExpression(a.children[i], b.children[i], lm, IsTarget(a, i));
      }
    }
  }

  lemma ExpressionHasNoMethod(n: Node)
    requires IsExpression(n)
    ensures NoMethodDecl(n)
    decreases n
  {
    forall i | 0 <= i < |n.children| ensures NoMethodDecl(n.children[i]) {
      ExpressionHasNoMethod(n.children[i]);
    }
  }

  /** What a visit of a tree without method declarations keeps: the loop-modified set and the
      loop flag, and it rewrites only reads as `Rewrites` allows; `changed` becomes true exactly
      when something was rewritten. */
  ghost predicate Keeps(n: Node, asTarget: bool, st: State, r: (Node, State)) {
    r.1.loopModifiedVars == st.loopModifiedVars && r.1.insideLoop == st.insideLoop &&
    r.1.currentMethod == st.currentMethod &&
    Rewrites(n, r.0, st.loopModifiedVars, asTarget) &&
    r.1.changed == (st.changed || r.0 != n)
  }

  /** A node whose children were each rewritten is a rewrite of the node. */
  lemma RewritesChildren(n: Node, children: seq<Node>, lm: set<string>, asTarget: bool)
    requires |children| == |n.children|
    requires forall i :: 0 <= i < |n.children| ==> Rewrites(n.children[i], children[i], lm, IsTarget(n, i))
    ensures Rewrites(n, n.(children := children), lm, asTarget)
    ensures n.(children := children) == n <==> forall i :: 0 <= i < |n.children| ==> children[i] == n.children[i]
  {
    if forall i :: 0 <= i < |n.children| ==> children[i] == n.children[i] {
      assert children == n.children;
    }
  }

  /** After the handler, the as-written walk visits the children again; the second visit keeps
      what the first kept. */
  lemma {:induction false} WalkKeeps(t: Traversal, n: Node, asTarget: bool, st: State)
    requires WellFormed(n) && NoMethodDecl(n)
    ensures Keeps(n, asTarget, st, Walk(t, n, asTarget, st))
    decreases Size(n), 4
  {
    HandleKeeps(t, n, asTarget, st);
    if t == AsWritten {
      var (h, st1) := Handle(t, n, asTarget, st);
      var lm := st.loopModifiedVars;
      RewritesNoMethod(n, h, lm, asTarget);
      RevisitKeeps(t, h, asTarget, st1);
      var (children, st2) := WalkChildren(t, h, |h.children|, st1);
      var f := h.(children := children);
      RewritesTrans(n, h, f, lm, asTarget);
      if f == n {
        RewritesAntisymmetric(n, h, lm, asTarget);
      }
    }
  }

  lemma {:induction false} HandleKeeps(t: Traversal, n: Node, asTarget: bool, st: State)
    requires WellFormed(n) && NoMethodDecl(n)
    ensures Keeps(n, asTarget, st, Handle(t, n, asTarget, st))
    decreases Size(n), 3
  {
    if n.kind == WHILE_STMT {
      WhileKeeps(t, n, asTarget, st);
    } else if n.kind == ASSIGN_STMT {
      AssignKeeps(t, n, asTarget, st);
    } else if n.kind == VAR_REF_EXPR {
    } else if t == Corrected && n.kind == WITH_ELSE_STMT && |n.children| == 3 {
      WithElseKeeps(n, asTarget, st);
    } else if t == Corrected && n.kind == NO_ELSE_STMT && |n.children| == 2 {
      NoElseKeeps(n, asTarget, st);
    } else {
      DefaultKeeps(t, n, asTarget, st);
    }
  }

  lemma WhileKeeps(t: Traversal, n: Node, asTarget: bool, st: State)
    requires WellFormed(n) && NoMethodDecl(n) && n.kind == WHILE_STMT
    ensures Keeps(n, asTarget, st, WalkWhileStmt(t, n, st))
    decreases Size(n), 2
  {
    ChildSmaller(n.children, 0);
    ChildSmaller(n.children, 1);
    var st0 := st.(insideLoop := true);
    var (cond, st1) := Walk(t, n.children[0], false, st0);
    WalkKeeps(t, n.children[0], false, st0);
    var (body, st2) := Walk(t, n.children[1], false, st1);
    WalkKeeps(t, n.children[1], false, st1);
    RewritesChildren(n, n.children[0 := cond][1 := body], st.loopModifiedVars, asTarget);
  }

  lemma AssignKeeps(t: Traversal, n: Node, asTarget: bool, st: State)
    requires WellFormed(n) && NoMethodDecl(n) && n.kind == ASSIGN_STMT
    ensures Keeps(n, asTarget, st, WalkAssignStmt(t, n, st))
    decreases Size(n), 2
  {
    if |n.children| != 2 {
      DefaultKeeps(t, n, asTarget, st);
    } else {
      ChildSmaller(n.children, 1);
      var (rhs', st1) := Walk(t, n.children[1], false, st);
      WalkKeeps(t, n.children[1], false, st);
      RewritesChildren(n, n.children[1 := rhs'], st.loopModifiedVars, asTarget);
    }
  }

  lemma WithElseKeeps(n: Node, asTarget: bool, st: State)
    requires WellFormed(n) && NoMethodDecl(n) && n.kind == WITH_ELSE_STMT && |n.children| == 3
    ensures Keeps(n, asTarget, st, WalkWithElse(n, st))
    decreases Size(n), 2
  {
    ChildSmaller(n.children, 0);
    ChildSmaller(n.children, 1);
    ChildSmaller(n.children, 2);
    var (cond, st1) := Walk(Corrected, n.children[0], false, st);
    WalkKeeps(Corrected, n.children[0], false, st);
    var (thenBranch, st2) := Walk(Corrected, n.children[1], false, st1);
    WalkKeeps(Corrected, n.children[1], false, st1);
    var (elseBranch, st3) := Walk(Corrected, n.children[2], false, st1.(changed := st2.changed));
    WalkKeeps(Corrected, n.children[2], false, st1.(changed := st2.changed));
    RewritesChildren(n, n.children[0 := cond][1 := thenBranch][2 := elseBranch], st.loopModifiedVars, asTarget);
  }

  lemma NoElseKeeps(n: Node, asTarget: bool, st: State)
    requires WellFormed(n) && NoMethodDecl(n) && n.kind == NO_ELSE_STMT && |n.children| == 2
    ensures Keeps(n, asTarget, st, WalkNoElse(n, st))
    decreases Size(n), 2
  {
    ChildSmaller(n.children, 0);
    ChildSmaller(n.children, 1);
    var (cond, st1) := Walk(Corrected, n.children[0], false, st);
    WalkKeeps(Corrected, n.children[0], false, st);
    var (thenBranch, st2) := Walk(Corrected, n.children[1], false, st1);
    WalkKeeps(Corrected, n.children[1], false, st1);
    RewritesChildren(n, n.children[0 := cond][1 := thenBranch], st.loopModifiedVars, asTarget);
  }

  lemma DefaultKeeps(t: Traversal, n: Node, asTarget: bool, st: State)
    requires WellFormed(n) && NoMethodDecl(n)
    ensures Keeps(n, asTarget, st, WalkDefault(t, n, st))
    decreases Size(n), 1
  {
    var k := |n.children|;
    ChildrenKeep(t, n, k, st);
    var (children, st1) := WalkChildren(t, n, k, st);
    RewritesChildren(n, children, st.loopModifiedVars, asTarget);
  }

  /** Visiting the first `k` children of a node whose children hold no method keeps what
      `Keeps` names, child by child. */
  lemma {:induction false} ChildrenKeep(t: Traversal, p: Node, k: int, st: State)
    requires WellFormed(p) && 0 <= k <= |p.children|
    requires forall i :: 0 <= i < |p.children| ==> NoMethodDecl(p.children[i])
    ensures var r := WalkChildren(t, p, k, st);
      r.1.loopModifiedVars == st.loopModifiedVars && r.1.insideLoop == st.insideLoop &&
      r.1.currentMethod == st.currentMethod &&
      (forall i :: 0 <= i < k ==> Rewrites(p.children[i], r.0[i], st.loopModifiedVars, IsTarget(p, i))) &&
      r.1.changed == (st.changed || AnyChanged(r.0, p.children, k))
    decreases Size(p), 0, k
  {
    if k > 0 {
      ChildrenKeep(t, p, k - 1, st);
      var before := WalkChildren(t, p, k - 1, st);
      ChildSmaller(p.children, k - 1);
      WalkKeeps(t, p.children[k - 1], IsTarget(p, k - 1), before.1);
      var last := Walk(t, p.children[k - 1], IsTarget(p, k - 1), before.1);
      ChildrenStep(t, p, k, st);
      ChildrenKeptSnoc(p, k, st, before, last);
      assert WalkChildren(t, p, k, st) == (before.0 + [last.0], last.1);
    }
  }

  /** What `ChildrenKeep` states of the first `k` children, as a predicate of the result. */
  ghost predicate ChildrenKept(p: Node, k: int, st: State, r: (seq<Node>, State))
    requires 0 <= k <= |p.children|
  {
    |r.0| == k &&
    r.1.loopModifiedVars == st.loopModifiedVars && r.1.insideLoop == st.insideLoop &&
    r.1.currentMethod == st.currentMethod &&
    (forall i :: 0 <= i < k ==> Rewrites(p.children[i], r.0[i], st.loopModifiedVars, IsTarget(p, i))) &&
    r.1.changed == (st.changed || AnyChanged(r.0, p.children, k))
  }

  /** One more child kept extends the kept prefix by one. */
  lemma ChildrenKeptSnoc(p: Node, k: int, st: State, before: (seq<Node>, State), last: (Node, State))
    requires 0 < k <= |p.children|
    requires ChildrenKept(p, k - 1, st, before)
    requires Keeps(p.children[k - 1], IsTarget(p, k - 1), before.1, last)
    ensures ChildrenKept(p, k, st, (before.0 + [last.0], last.1))
  {
    ChangedSnoc(before.0, last.0, p.children, k);
    var r := before.0 + [last.0];
    forall i | 0 <= i < k
      ensures Rewrites(p.children[i], r[i], st.loopModifiedVars, IsTarget(p, i))
    {
      if i < k - 1 { assert r[i] == before.0[i]; }
    }
  }

  lemma ChildrenStep(t: Traversal, p: Node, k: int, st: State)
    requires WellFormed(p) && 0 < k <= |p.children|
    ensures var before := WalkChildren(t, p, k - 1, st);
      var last := Walk(t, p.children[k - 1], IsTarget(p, k - 1), before.1);
      WalkChildren(t, p, k, st) == (before.0 + [last.0], last.1)
  {
  }

  /** One of the first `k` children differs from the original. */
  ghost predicate AnyChanged(children: seq<Node>, orig: seq<Node>, k: int)
    requires 0 <= k <= |children| && k <= |orig|
  {
    exists i :: 0 <= i < k && children[i] != orig[i]
  }

  /** Some child among the first `k` changed exactly when one of the first `k - 1` did or the
      last one did. */
  lemma ChangedSnoc(prefix: seq<Node>, child: Node, orig: seq<Node>, k: int)
    requires 0 < k <= |orig| && |prefix| == k - 1
    ensures AnyChanged(prefix + [child], orig, k) <==> AnyChanged(prefix, orig, k - 1) || child != orig[k - 1]
  {
    var r := prefix + [child];
    if AnyChanged(r, orig, k) {
      var i :| 0 <= i < k && r[i] != orig[i];
      if i < k - 1 { assert prefix[i] != orig[i]; }
    }
    if AnyChanged(prefix, orig, k - 1) {
      var i :| 0 <= i < k - 1 && prefix[i] != orig[i];
      assert r[i] != orig[i];
    }
    if child != orig[k - 1] { assert r[k - 1] != orig[k - 1]; }
  }

  /** Inside a loop nothing is rewritten and `changed` stays as it was, under either traversal. */
  lemma {:induction false} InsideLoopUnchanged(t: Traversal, n: Node, asTarget: bool, st: State)
    requires WellFormed(n) && NoMethodDecl(n) && st.insideLoop
    ensures Walk(t, n, asTarget, st).0 == n
    ensures Walk(t, n, asTarget, st).1.changed == st.changed
    decreases Size(n), 4
  {
    WalkKeeps(t, n, asTarget, st);
    HandleKeeps(t, n, asTarget, st);
    HandleInsideLoop(t, n, asTarget, st);
    if t == AsWritten {
      var (h, st1) := Handle(t, n, asTarget, st);
      ChildrenInsideLoop(t, n, |n.children|, st1);
      assert n.children[..|n.children|] == n.children;
    }
  }

  lemma {:induction false} HandleInsideLoop(t: Traversal, n: Node, asTarget: bool, st: State)
    requires WellFormed(n) && NoMethodDecl(n) && st.insideLoop
    ensures Handle(t, n, asTarget, st).0 == n
    decreases Size(n), 3
  {
    if n.kind == WHILE_STMT {
      WhileInsideLoop(t, n, st);
    } else if n.kind == ASSIGN_STMT {
      if |n.children| != 2 {
        DefaultInsideLoop(t, n, st);
      } else {
        AssignInsideLoop(t, n, st);
      }
    } else if n.kind == VAR_REF_EXPR {
    } else if t == Corrected && n.kind == WITH_ELSE_STMT && |n.children| == 3 {
      WithElseInsideLoop(n, st);
    } else if t == Corrected && n.kind == NO_ELSE_STMT && |n.children| == 2 {
      NoElseInsideLoop(n, st);
    } else {
      DefaultInsideLoop(t, n, st);
    }
  }

  lemma WhileInsideLoop(t: Traversal, n: Node, st: State)
    requires WellFormed(n) && NoMethodDecl(n) && n.kind == WHILE_STMT && st.insideLoop
    ensures WalkWhileStmt(t, n, st).0 == n
    decreases Size(n), 2
  {
    ChildSmaller(n.children, 0);
    ChildSmaller(n.children, 1);
    assert st.(insideLoop := true) == st;
    InsideLoopUnchanged(t, n.children[0], false, st);
    WalkKeeps(t, n.children[0], false, st);
    var (cond, st1) := Walk(t, n.children[0], false, st);
    InsideLoopUnchanged(t, n.children[1], false, st1);
    assert n.children[0 := n.children[0]][1 := n.children[1]] == n.children;
  }

  lemma AssignInsideLoop(t: Traversal, n: Node, st: State)
    requires WellFormed(n) && NoMethodDecl(n) && n.kind == ASSIGN_STMT && |n.children| == 2 && st.insideLoop
    ensures WalkAssignStmt(t, n, st).0 == n
    decreases Size(n), 2
  {
    ChildSmaller(n.children, 1);
    InsideLoopUnchanged(t, n.children[1], false, st);
    assert n.children[1 := n.children[1]] == n.children;
  }

  lemma WithElseInsideLoop(n: Node, st: State)
    requires WellFormed(n) && NoMethodDecl(n) && n.kind == WITH_ELSE_STMT && |n.children| == 3 && st.insideLoop
    ensures WalkWithElse(n, st).0 == n
    decreases Size(n), 2
  {
    ChildSmaller(n.children, 0);
    ChildSmaller(n.children, 1);
    ChildSmaller(n.children, 2);
    InsideLoopUnchanged(Corrected, n.children[0], false, st);
    WalkKeeps(Corrected, n.children[0], false, st);
    var (cond, st1) := Walk(Corrected, n.children[0], false, st);
    InsideLoopUnchanged(Corrected, n.children[1], false, st1);
    WalkKeeps(Corrected, n.children[1], false, st1);
    var (thenBranch, st2) := Walk(Corrected, n.children[1], false, st1);
    InsideLoopUnchanged(Corrected, n.children[2], false, st1.(changed := st2.changed));
    assert n.children[0 := n.children[0]][1 := n.children[1]][2 := n.children[2]] == n.children;
  }

  lemma NoElseInsideLoop(n: Node, st: State)
    requires WellFormed(n) && NoMethodDecl(n) && n.kind == NO_ELSE_STMT && |n.children| == 2 && st.insideLoop
    ensures WalkNoElse(n, st).0 == n
    decreases Size(n), 2
  {
    ChildSmaller(n.children, 0);
    ChildSmaller(n.children, 1);
    InsideLoopUnchanged(Corrected, n.children[0], false, st);
    WalkKeeps(Corrected, n.children[0], false, st);
    var (cond, st1) := Walk(Corrected, n.children[0], false, st);
    InsideLoopUnchanged(Corrected, n.children[1], false, st1);
    assert n.children[0 := n.children[0]][1 := n.children[1]] == n.children;
  }

  lemma DefaultInsideLoop(t: Traversal, n: Node, st: State)
    requires WellFormed(n) && NoMethodDecl(n) && st.insideLoop
    ensures WalkDefault(t, n, st).0 == n
    decreases Size(n), 1
  {
    ChildrenInsideLoop(t, n, |n.children|, st);
    assert n.children[..|n.children|] == n.children;
  }

  lemma {:induction false} ChildrenInsideLoop(t: Traversal, p: Node, k: int, st: State)
    requires WellFormed(p) && NoMethodDecl(p) && st.insideLoop && 0 <= k <= |p.children|
    ensures WalkChildren(t, p, k, st).0 == p.children[..k]
    ensures WalkChildren(t, p, k, st).1.insideLoop
    decreases Size(p), 0, k
  {
    if k > 0 {
      ChildrenInsideLoop(t, p, k - 1, st);
      var before := WalkChildren(t, p, k - 1, st);
      ChildSmaller(p.children, k - 1);
      var last := Walk(t, p.children[k - 1], IsTarget(p, k - 1), before.1);
      InsideLoopUnchanged(t, p.children[k - 1], IsTarget(p, k - 1), before.1);
      WalkKeeps(t, p.children[k - 1], IsTarget(p, k - 1), before.1);
      ChildrenStep(t, p, k, st);
      PrefixSnoc(p.children, k, before.0, last.0);
      assert WalkChildren(t, p, k, st) == (before.0 + [last.0], last.1);
    }
  }

  /** Extending the first `k - 1` elements by the `k`-th gives the first `k`. */
  lemma PrefixSnoc(s: seq<Node>, k: int, prefix: seq<Node>, last: Node)
    requires 0 < k <= |s| && prefix == s[..k - 1] && last == s[k - 1]
    ensures prefix + [last] == s[..k]
  {
    assert s[..k] == s[..k - 1] + [s[k - 1]];
  }

  /** The handler of a `while` statement gives it back as it went in: its condition and body
      are visited inside the loop, and the loop flag is what it was before. */
  lemma WhileHandlerUnchanged(t: Traversal, n: Node, st: State)
    requires WellFormed(n) && NoMethodDecl(n) && n.kind == WHILE_STMT
    ensures Handle(t, n, false, st).0 == n
    ensures Handle(t, n, false, st).1.insideLoop == st.insideLoop
    ensures Handle(t, n, false, st).1.changed == st.changed
  {
    var st0 := st.(insideLoop := true);
    ChildSmaller(n.children, 0);
    ChildSmaller(n.children, 1);
    InsideLoopUnchanged(t, n.children[0], false, st0);
    WalkKeeps(t, n.children[0], false, st0);
    var (cond, st1) := Walk(t, n.children[0], false, st0);
    InsideLoopUnchanged(t, n.children[1], false, st1);
    assert n.children[0 := n.children[0]][1 := n.children[1]] == n.children;
  }

  /** The corrected walk propagates nothing into a loop: a `while` statement comes out as it
      went in, with the loop flag and `changed` as they were. */
  lemma WhileUnchanged(n: Node, st: State)
    requires WellFormed(n) && NoMethodDecl(n) && n.kind == WHILE_STMT
    ensures Walk(Corrected, n, false, st).0 == n
    ensures Walk(Corrected, n, false, st).1.insideLoop == st.insideLoop
    ensures Walk(Corrected, n, false, st).1.changed == st.changed
  {
    WhileHandlerUnchanged(Corrected, n, st);
  }

  /** A method comes out with its loop-modified variables collected, outside every loop, and
      with nothing but reads of variables that are not loop-modified rewritten. */
  lemma MethodResets(t: Traversal, n: Node, st: State)
    requires WellFormed(n) && n.kind == METHOD_DECL
    requires forall i :: 0 <= i < |n.children| ==> NoMethodDecl(n.children[i])
    ensures var r := Walk(t, n, false, st);
      r.1.loopModifiedVars == LoopAssigned(n) && !r.1.insideLoop &&
      r.1.currentMethod == Some(if n.attributes["name"] == "args" then "main" else n.attributes["name"]) &&
      |r.0.children| == |n.children| &&
      (forall i :: 0 <= i < |n.children| ==> Rewrites(n.children[i], r.0.children[i], LoopAssigned(n), false)) &&
      r.1.changed == (st.changed || r.0 != n)
  {
    MethodHandlerResets(t, n, st);
    if t == AsWritten {
      var lm := LoopAssigned(n);
      var (h, st1) := Handle(t, n, false, st);
      forall i | 0 <= i < |h.children| ensures NoMethodDecl(h.children[i]) {
        RewritesNoMethod(n.children[i], h.children[i], lm, false);
      }
      RevisitKeeps(t, h, false, st1);
      var (children2, st2) := WalkChildren(t, h, |h.children|, st1);
      var f := h.(children := children2);
      AsWrittenWalk(n, false, st, (h, st1), (children2, st2));
      MethodCompose(n, h, f, lm, st.changed, st1.changed, st2.changed);
    }
  }

  /** The handler's pass over a method declaration's children followed by the second visit of
      them: each child is a rewrite of the original, and `changed` records whether the
      declaration changed. */
  lemma MethodCompose(n: Node, h: Node, f: Node, lm: set<string>, c0: bool, c1: bool, c2: bool)
    requires n.kind == METHOD_DECL && h == n.(children := h.children) && f == h.(children := f.children)
    requires |h.children| == |n.children|
    requires Rewrites(n, h, lm, false) && Rewrites(h, f, lm, false)
    requires c1 == (c0 || h != n) && c2 == (c1 || f != h)
    ensures |f.children| == |n.children|
    ensures forall i :: 0 <= i < |n.children| ==> Rewrites(n.children[i], f.children[i], lm, false)
    ensures c2 == (c0 || f != n)
  {
    assert |f.children| == |h.children|;
    forall i | 0 <= i < |n.children| ensures Rewrites(n.children[i], f.children[i], lm, false) {
      assert !IsTarget(n, i) && !IsTarget(h, i);
      assert Rewrites(n.children[i], h.children[i], lm, false);
      assert Rewrites(h.children[i], f.children[i], lm, false);
      RewritesTrans(n.children[i], h.children[i], f.children[i], lm, false);
    }
    RewritesTrans(n, h, f, lm, false);
    if f == n {
      RewritesAntisymmetric(n, h, lm, false);
    }
  }

  /** The handler of a method declaration: the reset, then its children visited once. */
  lemma MethodHandlerResets(t: Traversal, n: Node, st: State)
    requires WellFormed(n) && n.kind == METHOD_DECL
    requires forall i :: 0 <= i < |n.children| ==> NoMethodDecl(n.children[i])
    ensures var r := Handle(t, n, false, st);
      r.1.loopModifiedVars == LoopAssigned(n) && !r.1.insideLoop &&
      r.1.currentMethod == Some(if n.attributes["name"] == "args" then "main" else n.attributes["name"]) &&
      r.0 == n.(children := r.0.children) && |r.0.children| == |n.children| &&
      Rewrites(n, r.0, LoopAssigned(n), false) &&
      r.1.changed == (st.changed || r.0 != n)
  {
    var name := n.attributes["name"];
    var reset := State(st.changed, Some(if name == "args" then "main" else name), map[], LoopAssigned(n), false);
    RevisitKeeps(t, n, false, reset);
    var w := WalkChildren(t, n, |n.children|, reset);
    assert Handle(t, n, false, st) == (n.(children := w.0), w.1);
  }

  /** The second visit of the children of a node whose children hold no method, after its
      handler ran, keeps what `Keeps` names. */
  lemma RevisitKeeps(t: Traversal, h: Node, asTarget: bool, st: State)
    requires WellFormed(h) && forall i :: 0 <= i < |h.children| ==> NoMethodDecl(h.children[i])
    ensures var r := WalkChildren(t, h, |h.children|, st);
      Keeps(h, asTarget, st, (h.(children := r.0), r.1))
    decreases Size(h), 1
  {
    ChildrenKeep(t, h, |h.children|, st);
    var (children, st1) := WalkChildren(t, h, |h.children|, st);
    RewritesChildren(h, children, st.loopModifiedVars, asTarget);
  }

  /** The map never holds a loop-modified variable. */
  ghost predicate MapAvoidsLoopVars(st: State) {
    forall x :: x in st.constantMap ==> x !in st.loopModifiedVars
  }

  lemma {:induction false} WalkAvoidsLoopVars(t: Traversal, n: Node, asTarget: bool, st: State)
    requires WellFormed(n) && MapAvoidsLoopVars(st)
    ensures MapAvoidsLoopVars(Walk(t, n, asTarget, st).1)
    decreases Size(n), 4
  {
    HandleAvoidsLoopVars(t, n, asTarget, st);
    if t == AsWritten {
      var (h, st1) := Handle(t, n, asTarget, st);
      ChildrenAvoidLoopVars(t, h, |h.children|, st1);
    }
  }

  lemma {:induction false} HandleAvoidsLoopVars(t: Traversal, n: Node, asTarget: bool, st: State)
    requires WellFormed(n) && MapAvoidsLoopVars(st)
    ensures MapAvoidsLoopVars(Handle(t, n, asTarget, st).1)
    decreases Size(n), 3
  {
    if n.kind == METHOD_DECL {
      MethodAvoidsLoopVars(t, n, st);
    } else if n.kind == WHILE_STMT {
      WhileAvoidsLoopVars(t, n, st);
    } else if n.kind == ASSIGN_STMT {
      if |n.children| != 2 {
        ChildrenAvoidLoopVars(t, n, |n.children|, st);
        assert Handle(t, n, asTarget, st) == WalkDefault(t, n, st);
      } else {
        AssignAvoidsLoopVars(t, n, st);
      }
    } else if n.kind == VAR_REF_EXPR {
    } else if t == Corrected && n.kind == WITH_ELSE_STMT && |n.children| == 3 {
      WithElseAvoidsLoopVars(n, st);
    } else if t == Corrected && n.kind == NO_ELSE_STMT && |n.children| == 2 {
      NoElseAvoidsLoopVars(n, st);
    } else {
      ChildrenAvoidLoopVars(t, n, |n.children|, st);
    }
  }

  lemma MethodAvoidsLoopVars(t: Traversal, n: Node, st: State)
    requires WellFormed(n) && n.kind == METHOD_DECL
    ensures MapAvoidsLoopVars(WalkMethodDecl(t, n, st).1)
    decreases Size(n), 2
  {
    var name := n.attributes["name"];
    var reset := State(st.changed, Some(if name == "args" then "main" else name), map[], LoopAssigned(n), false);
    ChildrenAvoidLoopVars(t, n, |n.children|, reset);
  }

  lemma WhileAvoidsLoopVars(t: Traversal, n: Node, st: State)
    requires WellFormed(n) && n.kind == WHILE_STMT && MapAvoidsLoopVars(st)
    ensures MapAvoidsLoopVars(WalkWhileStmt(t, n, st).1)
    decreases Size(n), 2
  {
    ChildSmaller(n.children, 0);
    ChildSmaller(n.children, 1);
    var st0 := st.(insideLoop := true);
    WalkAvoidsLoopVars(t, n.children[0], false, st0);
    var (cond, st1) := Walk(t, n.children[0], false, st0);
    WalkAvoidsLoopVars(t, n.children[1], false, st1);
  }

  lemma AssignAvoidsLoopVars(t: Traversal, n: Node, st: State)
    requires WellFormed(n) && n.kind == ASSIGN_STMT && |n.children| == 2 && MapAvoidsLoopVars(st)
    ensures MapAvoidsLoopVars(WalkAssignStmt(t, n, st).1)
    decreases Size(n), 2
  {
    ChildSmaller(n.children, 1);
    WalkAvoidsLoopVars(t, n.children[1], false, st);
  }

  lemma WithElseAvoidsLoopVars(n: Node, st: State)
    requires WellFormed(n) && n.kind == WITH_ELSE_STMT && |n.children| == 3 && MapAvoidsLoopVars(st)
    ensures MapAvoidsLoopVars(WalkWithElse(n, st).1)
    decreases Size(n), 2
  {
    ChildSmaller(n.children, 0);
    ChildSmaller(n.children, 1);
    ChildSmaller(n.children, 2);
    WalkAvoidsLoopVars(Corrected, n.children[0], false, st);
    var (cond, st1) := Walk(Corrected, n.children[0], false, st);
    WalkAvoidsLoopVars(Corrected, n.children[1], false, st1);
    var (thenBranch, st2) := Walk(Corrected, n.children[1], false, st1);
    WalkAvoidsLoopVars(Corrected, n.children[2], false, st1.(changed := st2.changed));
  }

  lemma NoElseAvoidsLoopVars(n: Node, st: State)
    requires WellFormed(n) && n.kind == NO_ELSE_STMT && |n.children| == 2 && MapAvoidsLoopVars(st)
    ensures MapAvoidsLoopVars(WalkNoElse(n, st).1)
    decreases Size(n), 2
  {
    ChildSmaller(n.children, 0);
    ChildSmaller(n.children, 1);
    WalkAvoidsLoopVars(Corrected, n.children[0], false, st);
    var (cond, st1) := Walk(Corrected, n.children[0], false, st);
    WalkAvoidsLoopVars(Corrected, n.children[1], false, st1);
  }

  lemma {:induction false} ChildrenAvoidLoopVars(t: Traversal, p: Node, k: int, st: State)
    requires WellFormed(p) && 0 <= k <= |p.children| && MapAvoidsLoopVars(st)
    ensures MapAvoidsLoopVars(WalkChildren(t, p, k, st).1)
    decreases Size(p), 0, k
  {
    if k > 0 {
      ChildrenAvoidLoopVars(t, p, k - 1, st);
      var before := WalkChildren(t, p, k - 1, st);
      ChildSmaller(p.children, k - 1);
      WalkAvoidsLoopVars(t, p.children[k - 1], IsTarget(p, k - 1), before.1);
      var last := Walk(t, p.children[k - 1], IsTarget(p, k - 1), before.1);
      ChildrenStep(t, p, k, st);
      assert WalkChildren(t, p, k, st).1 == last.1;
    }
  }

  /** Visiting an expression leaves the map as it was. */
  lemma {:induction false} ExpressionKeepsMap(t: Traversal, n: Node, asTarget: bool, st: State)
    requires WellFormed(n) && IsExpression(n)
    ensures Walk(t, n, asTarget, st).1.constantMap == st.constantMap
    decreases Size(n), 4
  {
    HandleKeepsMap(t, n, asTarget, st);
    if t == AsWritten {
      ExpressionHasNoMethod(n);
      HandleKeeps(t, n, asTarget, st);
      var (h, st1) := Handle(t, n, asTarget, st);
      RewritesExpression(n, h, st.loopModifiedVars, asTarget);
      ChildrenKeepMap(t, h, |h.children|, st1);
    }
  }

  lemma {:induction false} HandleKeepsMap(t: Traversal, n: Node, asTarget: bool, st: State)
    requires WellFormed(n) && IsExpression(n)
    ensures Handle(t, n, asTarget, st).1.constantMap == st.constantMap
    decreases Size(n), 3
  {
    if n.kind == WHILE_STMT {
      WhileKeepsMap(t, n, st);
    } else if n.kind == VAR_REF_EXPR {
    } else if t == Corrected && n.kind == WITH_ELSE_STMT && |n.children| == 3 {
      WithElseKeepsMap(n, st);
    } else if t == Corrected && n.kind == NO_ELSE_STMT && |n.children| == 2 {
      NoElseKeepsMap(n, st);
    } else {
      ChildrenKeepMap(t, n, |n.children|, st);
    }
  }

  lemma WhileKeepsMap(t: Traversal, n: Node, st: State)
    requires WellFormed(n) && IsExpression(n) && n.kind == WHILE_STMT
    ensures WalkWhileStmt(t, n, st).1.constantMap == st.constantMap
    decreases Size(n), 2
  {
    ChildSmaller(n.children, 0);
    ChildSmaller(n.children, 1);
    var st0 := st.(insideLoop := true);
    ExpressionKeepsMap(t, n.children[0], false, st0);
    var (cond, st1) := Walk(t, n.children[0], false, st0);
    ExpressionKeepsMap(t, n.children[1], false, st1);
  }

  lemma WithElseKeepsMap(n: Node, st: State)
    requires WellFormed(n) && IsExpression(n) && n.kind == WITH_ELSE_STMT && |n.children| == 3
    ensures WalkWithElse(n, st).1.constantMap == st.constantMap
    decreases Size(n), 2
  {
    ChildSmaller(n.children, 0);
    ChildSmaller(n.children, 1);
    ChildSmaller(n.children, 2);
    ExpressionKeepsMap(Corrected, n.children[0], false, st);
    var (cond, st1) := Walk(Corrected, n.children[0], false, st);
    ExpressionKeepsMap(Corrected, n.children[1], false, st1);
    var (thenBranch, st2) := Walk(Corrected, n.children[1], false, st1);
    ExpressionKeepsMap(Corrected, n.children[2], false, st1.(changed := st2.changed));
    assert Meet(st.constantMap, st.constantMap) == st.constantMap;
  }

  lemma NoElseKeepsMap(n: Node, st: State)
    requires WellFormed(n) && IsExpression(n) && n.kind == NO_ELSE_STMT && |n.children| == 2
    ensures WalkNoElse(n, st).1.constantMap == st.constantMap
    decreases Size(n), 2
  {
    ChildSmaller(n.children, 0);
    ChildSmaller(n.children, 1);
    ExpressionKeepsMap(Corrected, n.children[0], false, st);
    var (cond, st1) := Walk(Corrected, n.children[0], false, st);
    ExpressionKeepsMap(Corrected, n.children[1], false, st1);
    assert Meet(st.constantMap, st.constantMap) == st.constantMap;
  }

  lemma {:induction false} ChildrenKeepMap(t: Traversal, p: Node, k: int, st: State)
    requires WellFormed(p) && IsExpression(p) && 0 <= k <= |p.children|
    ensures WalkChildren(t, p, k, st).1.constantMap == st.constantMap
    decreases Size(p), 0, k
  {
    if k > 0 {
      ChildrenKeepMap(t, p, k - 1, st);
      var before := WalkChildren(t, p, k - 1, st);
      ChildSmaller(p.children, k - 1);
      var child := p.children[k - 1];
      assert IsExpression(child);
      ExpressionKeepsMap(t, child, IsTarget(p, k - 1), before.1);
      var last := Walk(t, child, IsTarget(p, k - 1), before.1);
      ChildrenStep(t, p, k, st);
      assert WalkChildren(t, p, k, st).1 == last.1;
    }
  }

  /** `x = rhs` with an expression on the right: its target is never rewritten, and afterwards
      the map holds for `x` the constant `rhs` denotes when `x` is not loop-modified, the walk is
      outside every loop and `rhs` denotes a constant; otherwise `x` is gone from the map. The
      entries of other variables are untouched. Under either traversal. */
  lemma AssignRule(t: Traversal, n: Node, st: State)
    requires WellFormed(n) && n.kind == ASSIGN_STMT && |n.children| == 2
    requires n.children[0].kind == VAR_REF_EXPR && "value" in n.children[0].attributes
    requires IsExpression(n.children[1])
    ensures var x, rhs, r := n.children[0].attributes["value"], n.children[1], Walk(t, n, false, st);
      var c := ConstantOf(rhs, st.constantMap);
      |r.0.children| == 2 && r.0.children[0] == n.children[0] &&
      (x !in st.loopModifiedVars && !st.insideLoop && c.Some? ==> r.1.constantMap == st.constantMap[x := c.value]) &&
      (x in st.loopModifiedVars || st.insideLoop || c.None? ==> r.1.constantMap == st.constantMap - {x})
  {
    AssignHandler(t, n, st);
    if t == AsWritten {
      var (h, hs) := Handle(t, n, false, st);
      AssignRevisit(t, h, hs);
    }
  }

  /** The handler of `x = rhs`: the same statement with `rhs` visited, and the map as the rule
      says. */
  lemma AssignHandler(t: Traversal, n: Node, st: State)
    requires WellFormed(n) && n.kind == ASSIGN_STMT && |n.children| == 2
    requires n.children[0].kind == VAR_REF_EXPR && "value" in n.children[0].attributes
    requires IsExpression(n.children[1])
    ensures var x, rhs, r := n.children[0].attributes["value"], n.children[1], Handle(t, n, false, st);
      var c := ConstantOf(rhs, st.constantMap);
      r.0.kind == ASSIGN_STMT && |r.0.children| == 2 && r.0.children[0] == n.children[0] &&
      IsExpression(r.0.children[1]) &&
      (x !in st.loopModifiedVars && !st.insideLoop && c.Some? ==> r.1.constantMap == st.constantMap[x := c.value]) &&
      (x in st.loopModifiedVars || st.insideLoop || c.None? ==> r.1.constantMap == st.constantMap - {x})
  {
    var x, rhs := n.children[0].attributes["value"], n.children[1];
    var w := Walk(t, rhs, false, st);
    assert w.1.constantMap == st.constantMap && w.1.loopModifiedVars == st.loopModifiedVars &&
      w.1.insideLoop == st.insideLoop by {
      ExpressionKeepsMap(t, rhs, false, st);
      ExpressionHasNoMethod(rhs);
      WalkKeeps(t, rhs, false, st);
    }
    assert IsExpression(w.0) by {
      ExpressionHasNoMethod(rhs);
      WalkKeeps(t, rhs, false, st);
      RewritesExpression(rhs, w.0, st.loopModifiedVars, false);
    }
    assert AssignEffect(x, rhs, w.1) == AssignEffect(x, rhs, st);
    var n' := n.(children := n.children[1 := w.0]);
    assert n'.children[0] == n.children[0] && n'.children[1] == w.0;
    assert WalkAssignStmt(t, n, st) == (n', w.1.(constantMap := AssignEffect(x, rhs, w.1)));
    assert Handle(t, n, false, st) == WalkAssignStmt(t, n, st);
  }

  /** The second visit of the children of `x = e`: the target is left alone and the
      expression leaves the map as it was. */
  lemma AssignRevisit(t: Traversal, h: Node, st: State)
    requires WellFormed(h) && h.kind == ASSIGN_STMT && |h.children| == 2
    requires h.children[0].kind == VAR_REF_EXPR && IsExpression(h.children[1])
    ensures WalkChildren(t, h, 2, st).0[0] == h.children[0]
    ensures WalkChildren(t, h, 2, st).1.constantMap == st.constantMap
  {
    var lhs := h.children[0];
    assert Walk(t, lhs, true, st) == (lhs, st) by {
      assert WalkChildren(t, lhs, 0, st) == ([], st);
      assert lhs.(children := []) == lhs;
    }
    ChildrenStep(t, h, 1, st);
    ExpressionKeepsMap(t, h.children[1], false, st);
    ChildrenStep(t, h, 2, st);
  }

  // ---------------------------------------------------------------------------------------------
  // Small trees, and what the two traversals do with them.

  function IntLit(v: string): (r: Node)
    ensures WellFormed(r) && NoMethodDecl(r)
  {
    Node(INTEGER_LITERAL, map["value" := v], [], 0, 0)
  }

  function VarRef(x: string): (r: Node)
    ensures WellFormed(r) && NoMethodDecl(r)
  {
    Node(VAR_REF_EXPR, map["value" := x], [], 0, 0)
  }

  function AssignOf(x: string, rhs: Node): (r: Node)
    ensures WellFormed(rhs) && NoMethodDecl(rhs) ==> WellFormed(r) && NoMethodDecl(r)
  {
    var r := Node(ASSIGN_STMT, map[], [VarRef(x), rhs], 0, 0);
    assert r.children[0] == VarRef(x) && r.children[1] == rhs;
    r
  }

  function ExprStmtOf(e: Node): (r: Node)
    ensures WellFormed(e) && NoMethodDecl(e) ==> WellFormed(r) && NoMethodDecl(r)
  {
    var r := Node(EXPR_STMT, map[], [e], 0, 0);
    assert r.children[0] == e;
    r
  }

  /** A leaf no handler is registered for comes out as it went in. */
  lemma LeafWalk(t: Traversal, n: Node, asTarget: bool, st: State)
    requires WellFormed(n) && n.children == []
    requires n.kind !in {METHOD_DECL, WHILE_STMT, ASSIGN_STMT, VAR_REF_EXPR, WITH_ELSE_STMT, NO_ELSE_STMT}
    ensures Walk(t, n, asTarget, st) == (n, st)
  {
    assert WalkChildren(t, n, 0, st) == ([], st);
    assert n.(children := []) == n;
    assert Handle(t, n, asTarget, st) == WalkDefault(t, n, st) == (n, st);
  }

  /** A read of `x`: the literal of its constant when it has one, it is not loop-modified and
      the walk is outside every loop; otherwise the read itself. */
  lemma VarWalk(t: Traversal, x: string, st: State)
    ensures Walk(t, VarRef(x), false, st) ==
      if x !in st.loopModifiedVars && x in st.constantMap && !st.insideLoop
      then (ConstantNode(st.constantMap[x]), st.(changed := true)) else (VarRef(x), st)
  {
    assert VarRef(x).(children := []) == VarRef(x);
    if x !in st.loopModifiedVars && x in st.constantMap && !st.insideLoop {
      var c := ConstantNode(st.constantMap[x]);
      assert c.(children := []) == c;
    }
  }

  /** `x = v;` for a literal `v` stays as it is and binds `x` as the rule says. */
  lemma AssignLiteralWalk(t: Traversal, x: string, v: string, st: State)
    ensures Walk(t, AssignOf(x, IntLit(v)), false, st) ==
      (AssignOf(x, IntLit(v)), st.(constantMap := AssignEffect(x, IntLit(v), st)))
  {
    var a := AssignOf(x, IntLit(v));
    LeafWalk(t, IntLit(v), false, st);
    assert a.children[1 := IntLit(v)] == a.children;
    assert Handle(t, a, false, st) == WalkAssignStmt(t, a, st);
    if t == AsWritten {
      var s := st.(constantMap := AssignEffect(x, IntLit(v), st));
      assert Walk(t, VarRef(x), true, s) == (VarRef(x), s) by {
        assert VarRef(x).(children := []) == VarRef(x);
      }
      assert a.children[0] == VarRef(x) && a.children[1] == IntLit(v) && IsTarget(a, 0) && !IsTarget(a, 1);
      assert WalkChildren(t, a, 0, s) == ([], s);
      ChildrenStep(t, a, 1, s);
      assert WalkChildren(t, a, 1, s) == ([VarRef(x)], s);
      LeafWalk(t, IntLit(v), false, s);
      assert Walk(t, a.children[1], IsTarget(a, 1), s) == (IntLit(v), s);
      ChildrenStep(t, a, 2, s);
      assert WalkChildren(t, a, 2, s) == (WalkChildren(t, a, 1, s).0 + [IntLit(v)], s);
      assert [VarRef(x)] + [IntLit(v)] == [VarRef(x), IntLit(v)];
      assert WalkChildren(t, a, 2, s) == ([VarRef(x), IntLit(v)], s);
      assert a.(children := [VarRef(x), IntLit(v)]) == a;
      assert Walk(t, a, false, st) == (a.(children := [VarRef(x), IntLit(v)]), s);
    }
  }

  /** `y = x;` where the read of `x` is rewritten: it becomes `y = c;` for the constant `c` of
      `x`, and binds `y` as the rule says. */
  lemma AssignReadWalk(t: Traversal, y: string, x: string, st: State)
    requires x !in st.loopModifiedVars && x in st.constantMap && !st.insideLoop && x != y
    ensures Walk(t, AssignOf(y, VarRef(x)), false, st) ==
      (AssignOf(y, ConstantNode(st.constantMap[x])),
       st.(changed := true, constantMap := AssignEffect(y, VarRef(x), st)))
  {
    var a := AssignOf(y, VarRef(x));
    var c := ConstantNode(st.constantMap[x]);
    VarWalk(t, x, st);
    assert a.children[1 := c] == AssignOf(y, c).children;
    assert Handle(t, a, false, st) == WalkAssignStmt(t, a, st);
    var s := st.(changed := true, constantMap := AssignEffect(y, VarRef(x), st));
    assert Handle(t, a, false, st) == (AssignOf(y, c), s);
    if t == AsWritten {
      var h := AssignOf(y, c);
      assert Walk(t, VarRef(y), true, s) == (VarRef(y), s) by {
        assert VarRef(y).(children := []) == VarRef(y);
      }
      assert h.children[0] == VarRef(y) && h.children[1] == c && IsTarget(h, 0) && !IsTarget(h, 1);
      assert WalkChildren(t, h, 0, s) == ([], s);
      ChildrenStep(t, h, 1, s);
      assert WalkChildren(t, h, 1, s) == ([VarRef(y)], s);
      LeafWalk(t, c, false, s);
      assert Walk(t, h.children[1], IsTarget(h, 1), s) == (c, s);
      ChildrenStep(t, h, 2, s);
      assert WalkChildren(t, h, 2, s) == (WalkChildren(t, h, 1, s).0 + [c], s);
      assert [VarRef(y)] + [c] == [VarRef(y), c];
      assert WalkChildren(t, h, 2, s) == ([VarRef(y), c], s);
      assert h.(children := [VarRef(y), c]) == h;
      assert Walk(t, a, false, st) == (h.(children := [VarRef(y), c]), s);
    }
  }

  /** An expression statement reading `x`. */
  lemma ExprStmtReadWalk(t: Traversal, x: string, st: State)
    ensures var r := Walk(t, VarRef(x), false, st);
      Walk(t, ExprStmtOf(VarRef(x)), false, st) == (ExprStmtOf(r.0), r.1)
  {
    var r := Walk(t, VarRef(x), false, st);
    ExprStmtHandle(t, VarRef(x), st);
    if t == AsWritten {
      VarWalk(t, x, st);
      if r.0 == VarRef(x) {
        ExprStmtRevisit(t, r.0, r.1);
      } else {
        LeafWalk(t, r.0, false, r.1);
        ExprStmtRevisit(t, r.0, r.1);
      }
    }
  }

  lemma ExprStmtHandle(t: Traversal, e: Node, st: State)
    requires WellFormed(e) && NoMethodDecl(e)
    ensures var r := Walk(t, e, false, st);
      Handle(t, ExprStmtOf(e), false, st) == (ExprStmtOf(r.0), r.1)
  {
    var s := ExprStmtOf(e);
    var r := Walk(t, e, false, st);
    assert s.children[0] == e && !IsTarget(s, 0);
    assert WalkChildren(t, s, 0, st) == ([], st);
    ChildrenStep(t, s, 1, st);
    assert WalkChildren(t, s, 1, st) == ([r.0], r.1);
    assert s.(children := [r.0]) == ExprStmtOf(r.0);
  }

  /** An expression statement whose expression a visit leaves alone is left alone. */
  lemma ExprStmtRevisit(t: Traversal, e: Node, st: State)
    requires WellFormed(e) && NoMethodDecl(e) && Walk(t, e, false, st) == (e, st)
    ensures WalkChildren(t, ExprStmtOf(e), 1, st) == ([e], st)
  {
    var s := ExprStmtOf(e);
    assert s.children[0] == e && !IsTarget(s, 0);
    assert WalkChildren(t, s, 0, st) == ([], st);
    ChildrenStep(t, s, 1, st);
  }

  /** Two children, neither an assignment target, visited in order. */
  lemma TwoChildren(t: Traversal, p: Node, st: State)
    requires WellFormed(p) && |p.children| >= 2 && p.kind != ASSIGN_STMT
    ensures var r0 := Walk(t, p.children[0], false, st);
      var r1 := Walk(t, p.children[1], false, r0.1);
      WalkChildren(t, p, 2, st) == ([r0.0, r1.0], r1.1)
  {
    var r0 := Walk(t, p.children[0], false, st);
    var r1 := Walk(t, p.children[1], false, r0.1);
    assert !IsTarget(p, 0) && !IsTarget(p, 1);
    assert WalkChildren(t, p, 0, st) == ([], st);
    StepFrom(t, p, 1, st, ([], st));
    assert [] + [r0.0] == [r0.0];
    StepFrom(t, p, 2, st, ([r0.0], r0.1));
    assert [r0.0] + [r1.0] == [r0.0, r1.0];
  }

  /** `ChildrenStep` with the walk of the first `k - 1` children given. */
  lemma StepFrom(t: Traversal, p: Node, k: int, st: State, before: (seq<Node>, State))
    requires WellFormed(p) && 0 < k <= |p.children| && WalkChildren(t, p, k - 1, st) == before
    ensures var last := Walk(t, p.children[k - 1], IsTarget(p, k - 1), before.1);
      WalkChildren(t, p, k, st) == (before.0 + [last.0], last.1)
  {
    ChildrenStep(t, p, k, st);
  }

  /** Three children, none an assignment target, visited in order. */
  lemma ThreeChildren(t: Traversal, p: Node, st: State)
    requires WellFormed(p) && |p.children| == 3 && p.kind != ASSIGN_STMT
    ensures var r0 := Walk(t, p.children[0], false, st);
      var r1 := Walk(t, p.children[1], false, r0.1);
      var r2 := Walk(t, p.children[2], false, r1.1);
      WalkChildren(t, p, 3, st) == ([r0.0, r1.0, r2.0], r2.1)
  {
    var r0 := Walk(t, p.children[0], false, st);
    var r1 := Walk(t, p.children[1], false, r0.1);
    var r2 := Walk(t, p.children[2], false, r1.1);
    assert !IsTarget(p, 2);
    TwoChildren(t, p, st);
    StepFrom(t, p, 3, st, ([r0.0, r1.0], r1.1));
    assert [r0.0, r1.0] + [r2.0] == [r0.0, r1.0, r2.0];
  }

  function BlockOf(s0: Node, s1: Node): (r: Node)
    ensures WellFormed(s0) && WellFormed(s1) ==> WellFormed(r)
  {
    var r := Node(BLOCK_STMT, map[], [s0, s1], 0, 0);
    assert r.children[0] == s0 && r.children[1] == s1;
    r
  }

  function IfElseOf(c: Node, s1: Node, s2: Node): (r: Node)
    ensures WellFormed(c) && WellFormed(s1) && WellFormed(s2) ==> WellFormed(r)
  {
    var r := Node(WITH_ELSE_STMT, map[], [c, s1, s2], 0, 0);
    assert r.children[0] == c && r.children[1] == s1 && r.children[2] == s2;
    r
  }

  /** A read of a variable the map does not hold stays a read. */
  lemma UnboundRead(t: Traversal, c: string, st: State)
    requires c !in st.constantMap
    ensures Walk(t, VarRef(c), false, st) == (VarRef(c), st)
  {
    VarWalk(t, c, st);
  }

  /** `x = v;` for a literal `v`, outside every loop and with `x` not loop-modified, binds `x`
      to `v`. */
  lemma BindLiteral(t: Traversal, x: string, v: string, st: State)
    requires x !in st.loopModifiedVars && !st.insideLoop
    ensures Walk(t, AssignOf(x, IntLit(v)), false, st) ==
      (AssignOf(x, IntLit(v)), st.(constantMap := st.constantMap[x := ConstantValue(INTEGER, v)]))
  {
    AssignLiteralWalk(t, x, v, st);
  }

  /** `BindLiteral` with the state it leaves given. */
  lemma BindLiteralAs(t: Traversal, x: string, v: string, st: State, st': State)
    requires x !in st.loopModifiedVars && !st.insideLoop
    requires st' == st.(constantMap := st.constantMap[x := ConstantValue(INTEGER, v)])
    ensures Walk(t, AssignOf(x, IntLit(v)), false, st) == (AssignOf(x, IntLit(v)), st')
  {
    BindLiteral(t, x, v, st);
  }

  /** The as-written walk from the handler's result and the walk of that result's children. */
  lemma AsWrittenWalk(n: Node, asTarget: bool, st: State, h: (Node, State), cs: (seq<Node>, State))
    requires WellFormed(n) && Handle(AsWritten, n, asTarget, st) == h
    requires WellFormed(h.0) && WalkChildren(AsWritten, h.0, |h.0.children|, h.1) == cs
    ensures Walk(AsWritten, n, asTarget, st) == (h.0.(children := cs.0), cs.1)
  {
    assert h.0.children[..|h.0.children|] == h.0.children;
  }

  /** Two children, neither an assignment target, from the walks of each. */
  lemma TwoValues(t: Traversal, p: Node, st: State, r0: (Node, State), r1: (Node, State))
    requires WellFormed(p) && |p.children| == 2 && p.kind != ASSIGN_STMT
    requires Walk(t, p.children[0], false, st) == r0 && Walk(t, p.children[1], false, r0.1) == r1
    ensures WalkChildren(t, p, 2, st) == ([r0.0, r1.0], r1.1)
  {
    TwoChildren(t, p, st);
  }

  /** Three children, none an assignment target, from the walks of each. */
  lemma ThreeValues(t: Traversal, p: Node, st: State, r0: (Node, State), r1: (Node, State), r2: (Node, State))
    requires WellFormed(p) && |p.children| == 3 && p.kind != ASSIGN_STMT
    requires Walk(t, p.children[0], false, st) == r0 && Walk(t, p.children[1], false, r0.1) == r1
    requires Walk(t, p.children[2], false, r1.1) == r2
    ensures WalkChildren(t, p, 3, st) == ([r0.0, r1.0, r2.0], r2.1)
  {
    ThreeChildren(t, p, st);
  }

  /** The handler of a block of two statements walks them in order. */
  lemma BlockHandle(t: Traversal, s0: Node, s1: Node, st: State, r0: (Node, State), r1: (Node, State))
    requires WellFormed(s0) && WellFormed(s1)
    requires Walk(t, s0, false, st) == r0 && Walk(t, s1, false, r0.1) == r1
    ensures Handle(t, BlockOf(s0, s1), false, st) == (BlockOf(r0.0, r1.0), r1.1)
  {
    var b := BlockOf(s0, s1);
    assert b.children == [s0, s1];
    TwoValues(t, b, st, r0, r1);
    assert b.(children := [r0.0, r1.0]) == BlockOf(r0.0, r1.0);
    assert Handle(t, b, false, st) == WalkDefault(t, b, st);
  }

  /** The as-written walk of a block: the two statements the handler left are walked again. */
  lemma BlockWalk(s0: Node, s1: Node, st: State, h0: Node, h1: Node, hs: State, r0: (Node, State), r1: (Node, State))
    requires WellFormed(s0) && WellFormed(s1) && WellFormed(h0) && WellFormed(h1)
    requires Handle(AsWritten, BlockOf(s0, s1), false, st) == (BlockOf(h0, h1), hs)
    requires Walk(AsWritten, h0, false, hs) == r0 && Walk(AsWritten, h1, false, r0.1) == r1
    ensures Walk(AsWritten, BlockOf(s0, s1), false, st) == (BlockOf(r0.0, r1.0), r1.1)
  {
    var h := BlockOf(h0, h1);
    assert h.children == [h0, h1];
    TwoValues(AsWritten, h, hs, r0, r1);
    AsWrittenWalk(BlockOf(s0, s1), false, st, (h, hs), ([r0.0, r1.0], r1.1));
    assert h.(children := [r0.0, r1.0]) == BlockOf(r0.0, r1.0);
  }

  /** As written, an `if` has no handler of its own: its three children are walked in order. */
  lemma IfHandleAsWritten(c: Node, s1: Node, s2: Node, st: State, r0: (Node, State), r1: (Node, State), r2: (Node, State))
    requires WellFormed(c) && WellFormed(s1) && WellFormed(s2)
    requires Walk(AsWritten, c, false, st) == r0 && Walk(AsWritten, s1, false, r0.1) == r1
    requires Walk(AsWritten, s2, false, r1.1) == r2
    ensures Handle(AsWritten, IfElseOf(c, s1, s2), false, st) == (IfElseOf(r0.0, r1.0, r2.0), r2.1)
  {
    var n := IfElseOf(c, s1, s2);
    assert n.children == [c, s1, s2];
    ThreeValues(AsWritten, n, st, r0, r1, r2);
    assert n.(children := [r0.0, r1.0, r2.0]) == IfElseOf(r0.0, r1.0, r2.0);
    assert Handle(AsWritten, n, false, st) == WalkDefault(AsWritten, n, st);
  }

  /** The as-written walk of an `if`: the three children the handler left are walked again. */
  lemma IfWalkAsWritten(c: Node, s1: Node, s2: Node, st: State, h0: Node, h1: Node, h2: Node, hs: State,
                        r0: (Node, State), r1: (Node, State), r2: (Node, State))
    requires WellFormed(c) && WellFormed(s1) && WellFormed(s2) && WellFormed(h0) && WellFormed(h1) && WellFormed(h2)
    requires Handle(AsWritten, IfElseOf(c, s1, s2), false, st) == (IfElseOf(h0, h1, h2), hs)
    requires Walk(AsWritten, h0, false, hs) == r0 && Walk(AsWritten, h1, false, r0.1) == r1
    requires Walk(AsWritten, h2, false, r1.1) == r2
    ensures Walk(AsWritten, IfElseOf(c, s1, s2), false, st) == (IfElseOf(r0.0, r1.0, r2.0), r2.1)
  {
    var h := IfElseOf(h0, h1, h2);
    assert h.children == [h0, h1, h2];
    ThreeValues(AsWritten, h, hs, r0, r1, r2);
    AsWrittenWalk(IfElseOf(c, s1, s2), false, st, (h, hs), ([r0.0, r1.0, r2.0], r2.1));
    assert h.(children := [r0.0, r1.0, r2.0]) == IfElseOf(r0.0, r1.0, r2.0);
  }

  /** The corrected walk of an `if`: both branches from the state after the condition, and
      the meet of their maps. */
  lemma IfWalkCorrected(c: Node, s1: Node, s2: Node, st: State, r0: (Node, State), r1: (Node, State), r2: (Node, State))
    requires WellFormed(c) && WellFormed(s1) && WellFormed(s2)
    requires Walk(Corrected, c, false, st) == r0 && Walk(Corrected, s1, false, r0.1) == r1
    requires Walk(Corrected, s2, false, r0.1.(changed := r1.1.changed)) == r2
    ensures Walk(Corrected, IfElseOf(c, s1, s2), false, st) ==
      (IfElseOf(r0.0, r1.0, r2.0), r2.1.(constantMap := Meet(r1.1.constantMap, r2.1.constantMap)))
  {
    var n := IfElseOf(c, s1, s2);
    assert n.children == [c, s1, s2];
    assert n.children[0 := r0.0][1 := r1.0][2 := r2.0] == [r0.0, r1.0, r2.0];
    assert n.(children := [r0.0, r1.0, r2.0]) == IfElseOf(r0.0, r1.0, r2.0);
    assert Handle(Corrected, n, false, st) == WalkWithElse(n, st);
  }

  /** `{ x = 1; y = x; }` outside a loop: the read of `x` becomes the literal `1` and the map
      ends with both variables bound to 1 (the second visit of the block changes nothing). */
  lemma StraightLineExample(st: State)
    requires st.constantMap == map[] && st.loopModifiedVars == {} && !st.insideLoop
    ensures var r := Walk(AsWritten, BlockOf(AssignOf("x", IntLit("1")), AssignOf("y", VarRef("x"))), false, st);
      r.0 == BlockOf(AssignOf("x", IntLit("1")), AssignOf("y", IntLit("1"))) &&
      r.1.constantMap == map["x" := ConstantValue(INTEGER, "1"), "y" := ConstantValue(INTEGER, "1")] &&
      r.1.changed
  {
    StraightLine("x", "y", st);
  }

  lemma StraightLine(x: string, y: string, st: State)
    requires x != y && st.constantMap == map[] && st.loopModifiedVars == {} && !st.insideLoop
    ensures var r := Walk(AsWritten, BlockOf(AssignOf(x, IntLit("1")), AssignOf(y, VarRef(x))), false, st);
      r.0 == BlockOf(AssignOf(x, IntLit("1")), AssignOf(y, IntLit("1"))) &&
      r.1.constantMap == map[x := ConstantValue(INTEGER, "1"), y := ConstantValue(INTEGER, "1")] &&
      r.1.changed
  {
    var one := ConstantValue(INTEGER, "1");
    var a0, a1, a1' := AssignOf(x, IntLit("1")), AssignOf(y, VarRef(x)), AssignOf(y, IntLit("1"));
    var s2 := st.(changed := true, constantMap := map[x := one, y := one]);
    StraightLineHandle(x, y, st);
    StraightLineRevisit(x, y, s2);
    BlockWalk(a0, a1, st, a0, a1', s2, (a0, s2), (a1', s2));
  }

  /** The handler's walk of `{ x = 1; y = x; }`. */
  lemma StraightLineHandle(x: string, y: string, st: State)
    requires x != y && st.constantMap == map[] && st.loopModifiedVars == {} && !st.insideLoop
    ensures Handle(AsWritten, BlockOf(AssignOf(x, IntLit("1")), AssignOf(y, VarRef(x))), false, st) ==
      (BlockOf(AssignOf(x, IntLit("1")), AssignOf(y, IntLit("1"))),
       st.(changed := true, constantMap := map[x := ConstantValue(INTEGER, "1"), y := ConstantValue(INTEGER, "1")]))
  {
    var one := ConstantValue(INTEGER, "1");
    var a0, a1, a1' := AssignOf(x, IntLit("1")), AssignOf(y, VarRef(x)), AssignOf(y, IntLit("1"));
    var s1 := st.(constantMap := map[x := one]);
    var s2 := st.(changed := true, constantMap := map[x := one, y := one]);
    BindLiteral(AsWritten, x, "1", st);
    assert Walk(AsWritten, a1, false, s1) == (a1', s2) by {
      AssignReadWalk(AsWritten, y, x, s1);
      assert ConstantNode(one) == IntLit("1");
    }
    BlockHandle(AsWritten, a0, a1, st, (a0, s1), (a1', s2));
  }

  /** Walking `x = 1;` and `y = 1;` again, with both bound to 1, changes nothing. */
  lemma StraightLineRevisit(x: string, y: string, st: State)
    requires st.constantMap == map[x := ConstantValue(INTEGER, "1"), y := ConstantValue(INTEGER, "1")]
    requires st.loopModifiedVars == {} && !st.insideLoop
    ensures Walk(AsWritten, AssignOf(x, IntLit("1")), false, st) == (AssignOf(x, IntLit("1")), st)
    ensures Walk(AsWritten, AssignOf(y, IntLit("1")), false, st) == (AssignOf(y, IntLit("1")), st)
  {
    var one := ConstantValue(INTEGER, "1");
    assert st.constantMap[x := one] == st.constantMap;
    BindLiteralAs(AsWritten, x, "1", st, st);
    assert st.constantMap[y := one] == st.constantMap;
    BindLiteralAs(AsWritten, y, "1", st, st);
  }

  /** `{ io(x); x = 5; }` from an empty map, as written: the handler's walk binds `x` to 5, and
      the second visit of the block's children then rewrites the read that came before the
      assignment. */
  lemma BackLeakAsWritten(st: State)
    requires st.constantMap == map[] && st.loopModifiedVars == {} && !st.insideLoop
    ensures Walk(AsWritten, BlockOf(ExprStmtOf(VarRef("x")), AssignOf("x", IntLit("5"))), false, st).0 ==
            BlockOf(ExprStmtOf(IntLit("5")), AssignOf("x", IntLit("5")))
  {
    BackLeak("x", st);
  }

  lemma BackLeak(x: string, st: State)
    requires st.constantMap == map[] && st.loopModifiedVars == {} && !st.insideLoop
    ensures Walk(AsWritten, BlockOf(ExprStmtOf(VarRef(x)), AssignOf(x, IntLit("5"))), false, st).0 ==
            BlockOf(ExprStmtOf(IntLit("5")), AssignOf(x, IntLit("5")))
  {
    var e, a, e5 := ExprStmtOf(VarRef(x)), AssignOf(x, IntLit("5")), ExprStmtOf(IntLit("5"));
    var s1 := st.(constantMap := map[x := ConstantValue(INTEGER, "5")]);
    BackLeakFacts(x, st);
    BlockTwice(e, a, st, (e, st), (a, s1), (e5, s1.(changed := true)), (a, s1.(changed := true)));
  }

  /** The walks of the two statements of that block, in the handler's pass and in the second. */
  lemma BackLeakFacts(x: string, st: State)
    requires st.constantMap == map[] && st.loopModifiedVars == {} && !st.insideLoop
    ensures var e, a := ExprStmtOf(VarRef(x)), AssignOf(x, IntLit("5"));
      var s1 := st.(constantMap := map[x := ConstantValue(INTEGER, "5")]);
      Walk(AsWritten, e, false, st) == (e, st) && Walk(AsWritten, a, false, st) == (a, s1) &&
      Walk(AsWritten, e, false, s1) == (ExprStmtOf(IntLit("5")), s1.(changed := true)) &&
      Walk(AsWritten, a, false, s1.(changed := true)) == (a, s1.(changed := true))
  {
    var five := ConstantValue(INTEGER, "5");
    var e, a, e5 := ExprStmtOf(VarRef(x)), AssignOf(x, IntLit("5")), ExprStmtOf(IntLit("5"));
    var s1 := st.(constantMap := map[x := five]);
    var s2 := s1.(changed := true);
    assert Walk(AsWritten, e, false, st) == (e, st) by {
      ExprStmtReadWalk(AsWritten, x, st);
      UnboundRead(AsWritten, x, st);
    }
    BindLiteral(AsWritten, x, "5", st);
    assert Walk(AsWritten, e, false, s1) == (e5, s2) by {
      ExprStmtReadWalk(AsWritten, x, s1);
      VarWalk(AsWritten, x, s1);
      assert ConstantNode(five) == IntLit("5");
    }
    assert s2.constantMap[x := five] == s2.constantMap;
    BindLiteralAs(AsWritten, x, "5", s2, s2);
  }

  /** The as-written walk of a block from the walks of its statements in both passes. */
  lemma BlockTwice(s0: Node, s1: Node, st: State, r0: (Node, State), r1: (Node, State), q0: (Node, State), q1: (Node, State))
    requires WellFormed(s0) && WellFormed(s1)
    requires Walk(AsWritten, s0, false, st) == r0 && Walk(AsWritten, s1, false, r0.1) == r1
    requires WellFormed(r0.0) && WellFormed(r1.0)
    requires Walk(AsWritten, r0.0, false, r1.1) == q0 && Walk(AsWritten, r1.0, false, q0.1) == q1
    ensures Walk(AsWritten, BlockOf(s0, s1), false, st) == (BlockOf(q0.0, q1.0), q1.1)
  {
    BlockHandle(AsWritten, s0, s1, st, r0, r1);
    BlockWalk(s0, s1, st, r0.0, r1.0, r1.1, q0, q1);
  }

  /** The corrected walk leaves the read before the assignment alone. */
  lemma BackLeakCorrected(st: State)
    requires st.constantMap == map[] && st.loopModifiedVars == {} && !st.insideLoop
    ensures var r := Walk(Corrected, BlockOf(ExprStmtOf(VarRef("x")), AssignOf("x", IntLit("5"))), false, st);
      r.0 == BlockOf(ExprStmtOf(VarRef("x")), AssignOf("x", IntLit("5"))) &&
      r.1.constantMap == map["x" := ConstantValue(INTEGER, "5")]
  {
    NoBackLeak("x", st);
  }

  lemma NoBackLeak(x: string, st: State)
    requires st.constantMap == map[] && st.loopModifiedVars == {} && !st.insideLoop
    ensures var r := Walk(Corrected, BlockOf(ExprStmtOf(VarRef(x)), AssignOf(x, IntLit("5"))), false, st);
      r.0 == BlockOf(ExprStmtOf(VarRef(x)), AssignOf(x, IntLit("5"))) &&
      r.1.constantMap == map[x := ConstantValue(INTEGER, "5")]
  {
    var e, a := ExprStmtOf(VarRef(x)), AssignOf(x, IntLit("5"));
    var s1 := st.(constantMap := map[x := ConstantValue(INTEGER, "5")]);
    assert Walk(Corrected, e, false, st) == (e, st) by {
      ExprStmtReadWalk(Corrected, x, st);
      UnboundRead(Corrected, x, st);
    }
    BindLiteral(Corrected, x, "5", st);
    BlockHandle(Corrected, e, a, st, (e, st), (a, s1));
    var b := BlockOf(e, a);
    assert Walk(Corrected, b, false, st) == Handle(Corrected, b, false, st);
  }

  /** `while (c) { y = x; }` with `x` bound to 1 and `y` loop-modified, as written: the handler
      leaves the loop alone, but the second visit of its children runs with the loop flag
      restored and rewrites the body to `y = 1;`. */
  lemma LoopReadAsWritten(st: State)
    requires st.constantMap == map["x" := ConstantValue(INTEGER, "1")] && st.loopModifiedVars == {"y"} && !st.insideLoop
    ensures Walk(AsWritten, Node(WHILE_STMT, map[], [VarRef("c"), AssignOf("y", VarRef("x"))], 0, 0), false, st).0 ==
            Node(WHILE_STMT, map[], [VarRef("c"), AssignOf("y", IntLit("1"))], 0, 0)
  {
    LoopRead("c", "x", "y", st);
  }

  lemma LoopRead(c: string, x: string, y: string, st: State)
    requires c != x && c != y && x != y
    requires st.constantMap == map[x := ConstantValue(INTEGER, "1")] && st.loopModifiedVars == {y} && !st.insideLoop
    ensures Walk(AsWritten, Node(WHILE_STMT, map[], [VarRef(c), AssignOf(y, VarRef(x))], 0, 0), false, st).0 ==
            Node(WHILE_STMT, map[], [VarRef(c), AssignOf(y, IntLit("1"))], 0, 0)
  {
    var one := ConstantValue(INTEGER, "1");
    var body, body' := AssignOf(y, VarRef(x)), AssignOf(y, IntLit("1"));
    var w := Node(WHILE_STMT, map[], [VarRef(c), body], 0, 0);
    assert w.children[0] == VarRef(c) && w.children[1] == body;
    LoopHandlerLeavesAlone(c, x, y, st);
    UnboundRead(AsWritten, c, st);
    var s' := st.(changed := true, constantMap := AssignEffect(y, VarRef(x), st));
    assert Walk(AsWritten, body, false, st) == (body', s') by {
      AssignReadWalk(AsWritten, y, x, st);
      assert ConstantNode(one) == IntLit("1");
    }
    TwoValues(AsWritten, w, st, (VarRef(c), st), (body', s'));
    AsWrittenWalk(w, false, st, (w, st), ([VarRef(c), body'], s'));
  }

  /** The handler of that loop: nothing changes, the state included. */
  lemma LoopHandlerLeavesAlone(c: string, x: string, y: string, st: State)
    requires c != x && c != y && x != y
    requires st.constantMap == map[x := ConstantValue(INTEGER, "1")] && st.loopModifiedVars == {y} && !st.insideLoop
    ensures var w := Node(WHILE_STMT, map[], [VarRef(c), AssignOf(y, VarRef(x))], 0, 0);
      Handle(AsWritten, w, false, st) == (w, st)
  {
    var body := AssignOf(y, VarRef(x));
    var w := Node(WHILE_STMT, map[], [VarRef(c), body], 0, 0);
    assert w.children[0] == VarRef(c) && w.children[1] == body;
    var st0 := st.(insideLoop := true);
    assert Walk(AsWritten, VarRef(c), false, st0) == (VarRef(c), st0) by {
      VarWalk(AsWritten, c, st0);
    }
    assert Walk(AsWritten, body, false, st0) == (body, st0) by {
      InsideLoopUnchanged(AsWritten, body, false, st0);
      WalkKeeps(AsWritten, body, false, st0);
      AssignRule(AsWritten, body, st0);
      assert st0.constantMap - {y} == st0.constantMap;
    }
    assert w.children[0 := VarRef(c)][1 := body] == w.children;
    assert Handle(AsWritten, w, false, st) == WalkWhileStmt(AsWritten, w, st);
  }

  /** `if (c) x = 1; else x = 2;` from an empty map, as written: the branches are walked one
      after the other, so `x` ends bound to 2 although the `then` branch may have run. */
  lemma IfNoMergeAsWritten(st: State)
    requires st.constantMap == map[] && st.loopModifiedVars == {} && !st.insideLoop
    ensures Walk(AsWritten, IfElseOf(VarRef("c"), AssignOf("x", IntLit("1")), AssignOf("x", IntLit("2"))), false, st).1.constantMap ==
            map["x" := ConstantValue(INTEGER, "2")]
  {
    IfNoMergeRead("c", "x", st);
  }

  lemma IfNoMergeRead(c: string, x: string, st: State)
    requires c != x && st.constantMap == map[] && st.loopModifiedVars == {} && !st.insideLoop
    ensures Walk(AsWritten, IfElseOf(VarRef(c), AssignOf(x, IntLit("1")), AssignOf(x, IntLit("2"))), false, st).1.constantMap ==
            map[x := ConstantValue(INTEGER, "2")]
  {
    IfNoMergeFacts(c, x, st);
    IfTwice(VarRef(c), AssignOf(x, IntLit("1")), AssignOf(x, IntLit("2")), st,
            st.(constantMap := map[x := ConstantValue(INTEGER, "1")]), st.(constantMap := map[x := ConstantValue(INTEGER, "2")]));
  }

  /** The walks of the condition and the branches of that `if` that `IfTwice` needs. */
  lemma IfNoMergeFacts(c: string, x: string, st: State)
    requires c != x && st.constantMap == map[] && st.loopModifiedVars == {} && !st.insideLoop
    ensures var s1, s2 := st.(constantMap := map[x := ConstantValue(INTEGER, "1")]), st.(constantMap := map[x := ConstantValue(INTEGER, "2")]);
      var a1, a2 := AssignOf(x, IntLit("1")), AssignOf(x, IntLit("2"));
      Walk(AsWritten, VarRef(c), false, st) == (VarRef(c), st) && Walk(AsWritten, a1, false, st) == (a1, s1) &&
      Walk(AsWritten, a2, false, s1) == (a2, s2) &&
      Walk(AsWritten, VarRef(c), false, s2) == (VarRef(c), s2) && Walk(AsWritten, a1, false, s2) == (a1, s1)
  {
    var s2 := st.(constantMap := map[x := ConstantValue(INTEGER, "2")]);
    UnboundRead(AsWritten, c, st);
    UnboundRead(AsWritten, c, s2);
    IfNoMergeBranches(x, st);
    IfNoMergeBranches(x, s2);
  }

  /** As written, an `if` whose condition changes nothing and whose branches, walked in order,
      take the state from `st` to `s1` to `s2`, and from `s2` back to `s1` and `s2`, ends in
      `s2` unchanged. */
  lemma IfTwice(cond: Node, a1: Node, a2: Node, st: State, s1: State, s2: State)
    requires WellFormed(cond) && WellFormed(a1) && WellFormed(a2)
    requires Walk(AsWritten, cond, false, st) == (cond, st) && Walk(AsWritten, a1, false, st) == (a1, s1)
    requires Walk(AsWritten, a2, false, s1) == (a2, s2)
    requires Walk(AsWritten, cond, false, s2) == (cond, s2) && Walk(AsWritten, a1, false, s2) == (a1, s1)
    ensures Walk(AsWritten, IfElseOf(cond, a1, a2), false, st) == (IfElseOf(cond, a1, a2), s2)
  {
    IfHandleAsWritten(cond, a1, a2, st, (cond, st), (a1, s1), (a2, s2));
    IfWalkAsWritten(cond, a1, a2, st, cond, a1, a2, s2, (cond, s2), (a1, s1), (a2, s2));
  }

  /** The branches of that `if`, one after the other, from a map that holds nothing but `x`. */
  lemma IfNoMergeBranches(x: string, st: State)
    requires st.constantMap.Keys <= {x} && st.loopModifiedVars == {} && !st.insideLoop
    ensures Walk(AsWritten, AssignOf(x, IntLit("1")), false, st) ==
      (AssignOf(x, IntLit("1")), st.(constantMap := map[x := ConstantValue(INTEGER, "1")]))
    ensures Walk(AsWritten, AssignOf(x, IntLit("2")), false, st.(constantMap := map[x := ConstantValue(INTEGER, "1")])) ==
      (AssignOf(x, IntLit("2")), st.(constantMap := map[x := ConstantValue(INTEGER, "2")]))
  {
    var one, two := ConstantValue(INTEGER, "1"), ConstantValue(INTEGER, "2");
    var s1 := st.(constantMap := map[x := one]);
    assert st.constantMap[x := one] == s1.constantMap;
    BindLiteralAs(AsWritten, x, "1", st, s1);
    assert s1.constantMap[x := two] == map[x := two];
    BindLiteralAs(AsWritten, x, "2", s1, st.(constantMap := map[x := two]));
  }

  /** The corrected walk meets the maps of the branches: `x` is bound to no constant after the
      `if`. */
  lemma IfMergeCorrected(st: State)
    requires st.constantMap == map[] && st.loopModifiedVars == {} && !st.insideLoop
    ensures var r := Walk(Corrected, IfElseOf(VarRef("c"), AssignOf("x", IntLit("1")), AssignOf("x", IntLit("2"))), false, st);
      r.0 == IfElseOf(VarRef("c"), AssignOf("x", IntLit("1")), AssignOf("x", IntLit("2"))) &&
      r.1.constantMap == map[]
  {
    IfMerge("c", "x", st);
  }

  lemma IfMerge(c: string, x: string, st: State)
    requires c != x && st.constantMap == map[] && st.loopModifiedVars == {} && !st.insideLoop
    ensures var r := Walk(Corrected, IfElseOf(VarRef(c), AssignOf(x, IntLit("1")), AssignOf(x, IntLit("2"))), false, st);
      r.0 == IfElseOf(VarRef(c), AssignOf(x, IntLit("1")), AssignOf(x, IntLit("2"))) &&
      r.1.constantMap == map[]
  {
    var m1, m2 := map[x := ConstantValue(INTEGER, "1")], map[x := ConstantValue(INTEGER, "2")];
    var a1, a2 := AssignOf(x, IntLit("1")), AssignOf(x, IntLit("2"));
    UnboundRead(Corrected, c, st);
    BindLiteral(Corrected, x, "1", st);
    BindLiteral(Corrected, x, "2", st);
    assert st.(changed := st.changed) == st;
    IfWalkCorrected(VarRef(c), a1, a2, st, (VarRef(c), st), (a1, st.(constantMap := m1)), (a2, st.(constantMap := m2)));
    assert Meet(m1, m2) == map[] by {
      assert forall k :: k !in Meet(m1, m2);
    }
  }

  // ---------------------------------------------------------------------------------------------
  // The visitor object.

  class ConstantPropagationVisitor {
    var changed: bool
    var currentMethod: Option<string>
    var constantMap: map<string, ConstantValue>
    var loopModifiedVars: set<string>
    var insideLoop: bool

    function CurrentState(): State
      reads this
    {
      State(changed, currentMethod, constantMap, loopModifiedVars, insideLoop)
    }

    constructor()
      ensures CurrentState() == State(false, None, map[], {}, false)
    {
      changed := false;
      currentMethod := None;
      constantMap := map[];
      loopModifiedVars := {};
      insideLoop := false;
    }

    /** `didChange`. */
    method DidChange() returns (b: bool)
      ensures b == changed
    {
      b := changed;
    }

    /** `visit(n)` of the preorder base: the handler of the node's kind, then every child of
        what the handler left. */
    method Visit(n: Node, asTarget: bool) returns (r: Node)
      requires WellFormed(n)
      modifies this
      ensures (r, CurrentState()) == Walk(AsWritten, n, asTarget, old(CurrentState()))
      decreases Size(n), 4
    {
      var h := Dispatch(n, asTarget);
      var children := VisitChildren(h);
      r := h.(children := children);
    }

    /** The handler registered for the node's kind. */
    method Dispatch(n: Node, asTarget: bool) returns (r: Node)
      requires WellFormed(n)
      modifies this
      ensures (r, CurrentState()) == Handle(AsWritten, n, asTarget, old(CurrentState()))
      decreases Size(n), 3
    {
      if n.kind == METHOD_DECL {
        r := VisitMethodDecl(n);
      } else if n.kind == WHILE_STMT {
        r := VisitWhileStmt(n);
      } else if n.kind == ASSIGN_STMT {
        r := VisitAssignStmt(n);
      } else if n.kind == VAR_REF_EXPR {
        r := VisitVarRefExpr(n, asTarget);
      } else {
        r := DefaultVisit(n);
      }
    }

    /** `for (var child : node.getChildren()) visit(child)`. */
    method VisitChildren(p: Node) returns (children: seq<Node>)
      requires WellFormed(p)
      modifies this
      ensures (children, CurrentState()) == WalkChildren(AsWritten, p, |p.children|, old(CurrentState()))
      decreases Size(p), 0
    {
      children := [];
      for i := 0 to |p.children|
        invariant (children, CurrentState()) == WalkChildren(AsWritten, p, i, old(CurrentState()))
      {
        ChildSmaller(p.children, i);
        var child := Visit(p.children[i], IsTarget(p, i));
        children := children + [child];
      }
    }

    method VisitMethodDecl(n: Node) returns (r: Node)
      requires WellFormed(n) && n.kind == METHOD_DECL
      modifies this
      ensures (r, CurrentState()) == WalkMethodDecl(AsWritten, n, old(CurrentState()))
      decreases Size(n), 2
    {
      var name := n.attributes["name"];
      ghost var reset := State(changed, Some(if name == "args" then "main" else name), map[], LoopAssigned(n), false);
      currentMethod := Some(if name == "args" then "main" else name);
      constantMap := map[];
      loopModifiedVars := {};
      insideLoop := false;
      IdentifyLoopModifiedVariables(n);
      assert CurrentState() == reset;
      var children := VisitChildren(n);
      r := n.(children := children);
      assert (r, CurrentState()) == WalkMethodDecl(AsWritten, n, old(CurrentState())) by {
        assert n.children[..|n.children|] == n.children;
      }
    }

    method VisitWhileStmt(n: Node) returns (r: Node)
      requires WellFormed(n) && n.kind == WHILE_STMT
      modifies this
      ensures (r, CurrentState()) == WalkWhileStmt(AsWritten, n, old(CurrentState()))
      decreases Size(n), 2
    {
      ChildSmaller(n.children, 0);
      ChildSmaller(n.children, 1);
      var wasInsideLoop := insideLoop;
      insideLoop := true;
      var cond := Visit(n.children[0], false);
      var body := Visit(n.children[1], false);
      insideLoop := wasInsideLoop;
      r := n.(children := n.children[0 := cond][1 := body]);
    }

    method VisitAssignStmt(n: Node) returns (r: Node)
      requires WellFormed(n) && n.kind == ASSIGN_STMT
      modifies this
      ensures (r, CurrentState()) == WalkAssignStmt(AsWritten, n, old(CurrentState()))
      decreases Size(n), 2
    {
      if |n.children| != 2 {
        r := DefaultVisit(n);
        return;
      }
      var lhs, rhs := n.children[0], n.children[1];
      assert WellFormed(lhs) && WellFormed(rhs);
      ChildSmaller(n.children, 1);
      var rhs' := Visit(rhs, false);
      r := n.(children := n.children[1 := rhs']);
      if lhs.kind != VAR_REF_EXPR {
        return;
      }
      var varName := lhs.attributes["value"];
      if varName in loopModifiedVars {
        constantMap := constantMap - {varName};
        return;
      }
      var constantValue := ConstantOf(rhs, constantMap);
      if constantValue.Some? && !insideLoop {
        constantMap := constantMap[varName := constantValue.value];
      } else {
        constantMap := constantMap - {varName};
      }
    }

    method VisitVarRefExpr(n: Node, asTarget: bool) returns (r: Node)
      requires WellFormed(n) && n.kind == VAR_REF_EXPR
      modifies this
      ensures (r, CurrentState()) == WalkVarRefExpr(n, asTarget, old(CurrentState()))
      decreases Size(n), 2
    {
      var varName := n.attributes["value"];
      r := n;
      if asTarget || varName in loopModifiedVars {
        return;
      }
      if varName in constantMap {
        if insideLoop {
          return;
        }
        r := ConstantNode(constantMap[varName]);
        changed := true;
      }
    }

    method DefaultVisit(n: Node) returns (r: Node)
      requires WellFormed(n)
      modifies this
      ensures (r, CurrentState()) == WalkDefault(AsWritten, n, old(CurrentState()))
      decreases Size(n), 1
    {
      var children := VisitChildren(n);
      r := n.(children := children);
    }

    /** `identifyLoopModifiedVariables`: adds the variables assigned in every loop body. */
    method IdentifyLoopModifiedVariables(n: Node)
      modifies this`loopModifiedVars
      ensures loopModifiedVars == old(loopModifiedVars) + LoopAssigned(n)
      decreases n
    {
      if n.kind == WHILE_STMT && |n.children| >= 2 {
        FindModifiedVariables(n.children[1]);
      }
      for i := 0 to |n.children|
        invariant loopModifiedVars == old(loopModifiedVars) + LoopBodyAssigns(n) + CollectChildren(LoopBodyAssigns, n, i)
      {
        IdentifyLoopModifiedVariables(n.children[i]);
      }
    }

    /** `findModifiedVariables`: adds every variable assigned in the tree. */
    method FindModifiedVariables(n: Node)
      modifies this`loopModifiedVars
      ensures loopModifiedVars == old(loopModifiedVars) + Assigned(n)
      decreases n
    {
      if n.kind == ASSIGN_STMT && |n.children| >= 2 && n.children[0].kind == VAR_REF_EXPR &&
         "value" in n.children[0].attributes {
        loopModifiedVars := loopModifiedVars + {n.children[0].attributes["value"]};
      }
      for i := 0 to |n.children|
        invariant loopModifiedVars == old(loopModifiedVars) + AssignedHere(n) + CollectChildren(AssignedHere, n, i)
      {
        FindModifiedVariables(n.children[i]);
      }
    }
  }
}
