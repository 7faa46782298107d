/** The front end's abstract syntax tree (`JmmNode`) as a value: a kind, string attributes,
    children in order and a source position. Rewrites that the passes perform in place are
    modelled by returning the rewritten tree. */
module JmmAst {
  import opened Wrappers

  datatype Node = Node(kind: string, attributes: map<string, string>, children: seq<Node>, line: int, column: int)

  // The node kinds the passes dispatch on, spelled as the grammar names them.
  const PROGRAM: string := "Program"
  const IMPORT_STMT: string := "ImportStmt"
  const CLASS_DECL: string := "ClassDecl"
  const VAR_DECL: string := "VarDecl"
  const METHOD_DECL: string := "MethodDecl"
  const PARAM: string := "Param"
  const ASSIGN_STMT: string := "AssignStmt"
  const WHILE_STMT: string := "WhileStmt"
  const WITH_ELSE_STMT: string := "WithElseStmt"
  const NO_ELSE_STMT: string := "NoElseStmt"
  const BLOCK_STMT: string := "BlockStmt"
  const EXPR_STMT: string := "ExprStmt"
  const BINARY_EXPR: string := "BinaryExpr"
  const INTEGER_LITERAL: string := "IntegerLiteral"
  const BOOLEAN_TRUE: string := "BooleanTrue"
  const BOOLEAN_FALSE: string := "BooleanFalse"
  const VAR_REF_EXPR: string := "VarRefExpr"
  const METHOD_CALL_EXPR: string := "MethodCallExpr"

  /** `node.get(attribute)`: reading an attribute the node does not have throws. */
  function Get(n: Node, attribute: string): (r: Result<string>)
    ensures r.Ok? <==> attribute in n.attributes
    ensures r.Ok? ==> r.value == n.attributes[attribute]
  {
    if attribute in n.attributes then Ok(n.attributes[attribute]) else Err("NullPointerException")
  }

  /** `node.getChild(i)`: an index outside the children throws. */
  function Child(n: Node, i: int): (r: Result<Node>)
    ensures r.Ok? <==> 0 <= i < |n.children|
    ensures r.Ok? ==> r.value == n.children[i]
  {
    if 0 <= i < |n.children| then Ok(n.children[i]) else Err("IndexOutOfBoundsException")
  }

  /** `node.getChildren(kind)`: the children of that kind, in order. */
  function ChildrenOfKind(children: seq<Node>, kind: string): (r: seq<Node>)
    ensures |r| <= |children|
    ensures forall i :: 0 <= i < |r| ==> r[i].kind == kind
  {
    if children == [] then []
    else
      var last := children[|children| - 1];
      ChildrenOfKind(children[..|children| - 1], kind) + (if last.kind == kind then [last] else [])
  }

  /** The children of that kind are exactly the children that have it. */
  lemma {:induction false} ChildrenOfKindMembers(children: seq<Node>, kind: string, c: Node)
    ensures c in ChildrenOfKind(children, kind) <==> c in children && c.kind == kind
    decreases |children|
  {
    if children != [] {
      var init := children[..|children| - 1];
      ChildrenOfKindMembers(init, kind, c);
      assert children == init + [children[|children| - 1]];
    }
  }

  /** The nodes of a tree in the order a preorder visitor meets them: a node, then the trees of
      its children from first to last. */
  function Preorder(n: Node): (r: seq<Node>)
    ensures |r| >= 1 && r[0] == n
    decreases n, 1
  {
    [n] + PreorderAll(n.children)
  }

  function PreorderAll(ns: seq<Node>): seq<Node>
    decreases ns, 0
  {
    if ns == [] then [] else Preorder(ns[0]) + PreorderAll(ns[1..])
  }

  /** A node of the tree rooted at `n` is `n` itself or a node of one of its children's trees. */
  lemma PreorderMember(n: Node, c: Node)
    ensures c in Preorder(n) <==> c == n || exists i :: 0 <= i < |n.children| && c in Preorder(n.children[i])
  {
    PreorderAllMember(n.children, c);
  }

  lemma {:induction false} PreorderAllMember(ns: seq<Node>, c: Node)
    ensures c in PreorderAll(ns) <==> exists i :: 0 <= i < |ns| && c in Preorder(ns[i])
    decreases |ns|
  {
    if ns != [] {
      PreorderAllMember(ns[1..], c);
      if c in PreorderAll(ns[1..]) {
        var i :| 0 <= i < |ns[1..]| && c in Preorder(ns[1..][i]);
        assert c in Preorder(ns[i + 1]);
      }
      if exists i :: 0 <= i < |ns| && c in Preorder(ns[i]) {
        var i :| 0 <= i < |ns| && c in Preorder(ns[i]);
        if i > 0 {
          assert ns[1..][i - 1] == ns[i];
        }
      }
    }
  }

  /** The union of `f` over every node of a tree (a recursive walk that adds to one set). */
  function Collect(f: Node -> set<string>, n: Node): set<string>
    decreases n, 1
  {
    f(n) + CollectChildren(f, n, |n.children|)
  }

  /** The union of `f` over the trees of the first `k` children of `n`. */
  function CollectChildren(f: Node -> set<string>, n: Node, k: int): set<string>
    requires 0 <= k <= |n.children|
    decreases n, 0, k
  {
    if k == 0 then {} else CollectChildren(f, n, k - 1) + Collect(f, n.children[k - 1])
  }

  /** `Collect` gathers `f` from exactly the nodes a preorder walk meets. */
  lemma {:induction false} CollectMeansPreorder(f: Node -> set<string>, n: Node, x: string)
    ensures x in Collect(f, n) <==> exists s :: s in Preorder(n) && x in f(s)
    decreases n, 1
  {
    CollectChildrenMeans(f, n, |n.children|, x);
    if x in Collect(f, n) {
      if x !in f(n) {
        var i :| 0 <= i < |n.children| && exists s :: s in Preorder(n.children[i]) && x in f(s);
        var s :| s in Preorder(n.children[i]) && x in f(s);
        PreorderMember(n, s);
      }
    }
    if exists s :: s in Preorder(n) && x in f(s) {
      var s :| s in Preorder(n) && x in f(s);
      PreorderMember(n, s);
      if s != n {
        var i :| 0 <= i < |n.children| && s in Preorder(n.children[i]);
        assert exists s :: s in Preorder(n.children[i]) && x in f(s);
      }
    }
  }

  lemma {:induction false} CollectChildrenMeans(f: Node -> set<string>, n: Node, k: int, x: string)
    requires 0 <= k <= |n.children|
    ensures x in CollectChildren(f, n, k) <==> exists i :: 0 <= i < k && exists s :: s in Preorder(n.children[i]) && x in f(s)
    decreases n, 0, k
  {
    if k > 0 {
      CollectChildrenMeans(f, n, k - 1, x);
      CollectMeansPreorder(f, n.children[k - 1], x);
    }
  }

  /** A node as a preorder visitor meets it, with the nearest method declaration strictly above
      it (what `getAncestor("MethodDecl")` finds). */
  datatype Visit = Visit(node: Node, enclosingMethod: Option<Node>)

  function PreorderIn(n: Node, enclosing: Option<Node>): (r: seq<Visit>)
    ensures |r| >= 1 && r[0] == Visit(n, enclosing)
    decreases n, 1
  {
    [Visit(n, enclosing)] + PreorderInAll(n.children, if n.kind == METHOD_DECL then Some(n) else enclosing)
  }

  function PreorderInAll(ns: seq<Node>, enclosing: Option<Node>): seq<Visit>
    decreases ns, 0
  {
    if ns == [] then [] else PreorderIn(ns[0], enclosing) + PreorderInAll(ns[1..], enclosing)
  }

  /** The visits are the nodes of `Preorder`, in the same order. */
  lemma {:induction false} PreorderInNodes(n: Node, enclosing: Option<Node>)
    ensures |PreorderIn(n, enclosing)| == |Preorder(n)|
    ensures forall i :: 0 <= i < |Preorder(n)| ==> PreorderIn(n, enclosing)[i].node == Preorder(n)[i]
    decreases n, 1
  {
    PreorderInAllNodes(n.children, if n.kind == METHOD_DECL then Some(n) else enclosing);
  }

  lemma {:induction false} PreorderInAllNodes(ns: seq<Node>, enclosing: Option<Node>)
    ensures |PreorderInAll(ns, enclosing)| == |PreorderAll(ns)|
    ensures forall i :: 0 <= i < |PreorderAll(ns)| ==> PreorderInAll(ns, enclosing)[i].node == PreorderAll(ns)[i]
    decreases ns, 0
  {
    if ns != [] {
      PreorderInNodes(ns[0], enclosing);
      PreorderInAllNodes(ns[1..], enclosing);
    }
  }
}
