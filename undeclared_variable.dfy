/** The identifier-resolution pass (`UndeclaredVariable`): a variable reference must name a
    parameter or a local of the current method, a field, or the simple name of an import. */
module UndeclaredVariable {
  import opened Wrappers
  import opened Strings
  import opened Reports
  import opened JmmAst
  import opened SymbolTables

  /** The part of an import after its last `'.'`, or the whole import when it has none. */
  function SimpleName(importName: string): (r: string)
    ensures '.' !in r
    ensures |r| <= |importName| && r == importName[|importName| - |r|..]
    ensures |r| < |importName| ==> importName[|importName| - |r| - 1] == '.'
    ensures '.' !in importName ==> r == importName
  {
    var lastDot := LastIndexOf(importName, '.');
    if lastDot >= 0 then importName[lastDot + 1..] else importName
  }

  /** An imported class whose simple name is `name`. */
  predicate ImportedAs(imports: seq<string>, name: string) {
    exists i :: 0 <= i < |imports| && SimpleName(imports[i]) == name
  }

  /** The four ways a reference resolves, in the order the visitor tries them; a method the table
      does not know has no parameters or locals to match. */
  predicate Resolves(table: SymbolTable, m: string, name: string) {
    || (m in table.params && Declares(table.params[m], name))
    || (m in table.locals && Declares(table.locals[m], name))
    || Declares(table.fields, name)
    || ImportedAs(table.imports, name)
  }

  /** Every name a reference inside method `m` may use. */
  function VisibleNames(table: SymbolTable, m: string): set<string> {
    (if m in table.params then Names(table.params[m]) else {}) +
    (if m in table.locals then Names(table.locals[m]) else {}) +
    Names(table.fields) +
    (set i | 0 <= i < |table.imports| :: SimpleName(table.imports[i]))
  }

  /** A reference resolves exactly when its name is among the visible names. */
  lemma ResolvesIffVisible(table: SymbolTable, m: string, name: string)
    ensures Resolves(table, m, name) <==> name in VisibleNames(table, m)
  {
    if name in VisibleNames(table, m) {
      if m in table.params && name in Names(table.params[m]) {
        var i :| 0 <= i < |table.params[m]| && table.params[m][i].name == name;
      } else if m in table.locals && name in Names(table.locals[m]) {
        var i :| 0 <= i < |table.locals[m]| && table.locals[m][i].name == name;
      } else if name in Names(table.fields) {
        var i :| 0 <= i < |table.fields| && table.fields[i].name == name;
      }
    }
  }

  function MethodNotFoundMessage(m: string, name: string): string {
    "Method '" + m + "' not found in symbol table when checking variable '" + name + "'."
  }

  function DoesNotExistMessage(name: string): string {
    "Variable '" + name + "' does not exist."
  }

  /** `visitVarRefExpr` on one reference: no current method fails the `checkNotNull`, a missing
      `value` throws; otherwise nothing when the name resolves, and else one report, whose
      message depends on whether the table knows the method's parameters. */
  function RefReport(currentMethod: Option<string>, varRef: Node, table: SymbolTable): (r: Result<Option<Report>>)
    ensures r.Ok? <==> currentMethod.Some? && "value" in varRef.attributes
    ensures r.Ok? ==> (r.value.None? <==> Resolves(table, currentMethod.value, varRef.attributes["value"]))
    ensures r.Ok? && r.value.Some? ==>
              var name := varRef.attributes["value"];
              r.value.value == NewError(Semantic, varRef.line, varRef.column,
                                        if currentMethod.value in table.params then DoesNotExistMessage(name)
                                        else MethodNotFoundMessage(currentMethod.value, name))
  {
    if currentMethod.None? then Err("NullPointerException")
    else
      var m := currentMethod.value;
      var name :- Get(varRef, "value");
      var parameters := table.Parameters(m);
      var locals := table.LocalVariables(m);
      if parameters.Some? && Declares(parameters.value, name) then Ok(None)
      else if locals.Some? && Declares(locals.value, name) then Ok(None)
      else if Declares(table.fields, name) then Ok(None)
      else if ImportedAs(table.imports, name) then Ok(None)
      else if parameters.None? then Ok(Some(NewError(Semantic, varRef.line, varRef.column, MethodNotFoundMessage(m, name))))
      else Ok(Some(NewError(Semantic, varRef.line, varRef.column, DoesNotExistMessage(name))))
  }

  /** The two messages cannot be confused with each other. */
  lemma MessagesDiffer(m: string, a: string, b: string)
    ensures MethodNotFoundMessage(m, a) != DoesNotExistMessage(b)
  {
    assert MethodNotFoundMessage(m, a)[0] == 'M' && DoesNotExistMessage(b)[0] == 'V';
  }

  /** The method context `visitMethodDecl` records: the main method's parameter `args` names
      the main method. */
  function MethodContext(name: string): (r: string)
    ensures name == "args" ==> r == "main"
    ensures name != "args" ==> r == name
  {
    if name == "args" then "main" else name
  }

  /** The visitor of the source: the current method and the reports so far. */
  class UndeclaredVariableVisitor {
    var currentMethod: Option<string>
    var reports: seq<Report>

    constructor()
      ensures currentMethod == None && reports == []
    {
      currentMethod := None;
      reports := [];
    }

    method VisitMethodDecl(methodDecl: Node) returns (r: Result<()>)
      modifies this`currentMethod
      ensures r.Ok? <==> "name" in methodDecl.attributes
      ensures r.Ok? ==> currentMethod == Some(MethodContext(methodDecl.attributes["name"]))
      ensures r.Err? ==> r.error == Get(methodDecl, "name").error && currentMethod == old(currentMethod)
    {
      var name :- Get(methodDecl, "name");
      currentMethod := Some(if name == "args" then "main" else name);
      return Ok(());
    }

    method VisitVarRefExpr(varRef: Node, table: SymbolTable) returns (r: Result<()>)
      modifies this`reports
      ensures match RefReport(currentMethod, varRef, table)
              case Ok(report) => r.Ok? && reports == old(reports) + (if report.Some? then [report.value] else [])
              case Err(e) => r == Err(e) && reports == old(reports)
    {
      if currentMethod.None? {
        return Err("NullPointerException");
      }
      var m := currentMethod.value;
      var name :- Get(varRef, "value");
      var parameters := table.Parameters(m);
      if parameters.Some? && Declares(parameters.value, name) {
        return Ok(());
      }
      var locals := table.LocalVariables(m);
      if locals.Some? && Declares(locals.value, name) {
        return Ok(());
      }
      if Declares(table.fields, name) {
        return Ok(());
      }
      if ImportedAs(table.imports, name) {
        return Ok(());
      }
      if parameters.None? {
        reports := reports + [NewError(Semantic, varRef.line, varRef.column, MethodNotFoundMessage(m, name))];
        return Ok(());
      }
      reports := reports + [NewError(Semantic, varRef.line, varRef.column, DoesNotExistMessage(name))];
      return Ok(());
    }
  }

  /** The method context after the first `k` nodes of a preorder walk: from the last method
      declaration met, or none before the first. */
  function ContextAt(nodes: seq<Node>, k: int): Option<string>
    requires 0 <= k <= |nodes|
  {
    if k == 0 then None
    else if nodes[k - 1].kind == METHOD_DECL && "name" in nodes[k - 1].attributes then
      Some(MethodContext(nodes[k - 1].attributes["name"]))
    else ContextAt(nodes, k - 1)
  }

  /** The visitor's state (current method, reports) after the first `k` nodes; a visit that
      throws ends the pass. */
  function PassState(nodes: seq<Node>, table: SymbolTable, k: int): Result<(Option<string>, seq<Report>)>
    requires 0 <= k <= |nodes|
  {
    if k == 0 then Ok((None, []))
    else
      var st :- PassState(nodes, table, k - 1);
      var n := nodes[k - 1];
      if n.kind == METHOD_DECL then
        var name :- Get(n, "name");
        Ok((Some(MethodContext(name)), st.1))
      else if n.kind == VAR_REF_EXPR then
        var report :- RefReport(st.0, n, table);
        Ok((st.0, st.1 + (if report.Some? then [report.value] else [])))
      else Ok(st)
  }

  /** The pass over a whole tree, visited in preorder. */
  method Analyze(root: Node, table: SymbolTable) returns (r: Result<seq<Report>>)
    ensures var nodes := Preorder(root);
            match PassState(nodes, table, |nodes|)
            case Ok(st) => r == Ok(st.1)
            case Err(e) => r == Err(e)
  {
    var nodes := Preorder(root);
    var visitor := new UndeclaredVariableVisitor();
    for k := 0 to |nodes|
      invariant PassState(nodes, table, k) == Ok((visitor.currentMethod, visitor.reports))
    {
      var n := nodes[k];
      var outcome: Result<()> := Ok(());
      if n.kind == METHOD_DECL {
        outcome := visitor.VisitMethodDecl(n);
      } else if n.kind == VAR_REF_EXPR {
        outcome := visitor.VisitVarRefExpr(n, table);
      }
      if outcome.Err? {
        r := Err(outcome.error);
        assert PassState(nodes, table, k + 1) == Err(outcome.error);
        FailureIsFinal(j => if 0 <= j <= |nodes| then PassState(nodes, table, j) else Err(""), k + 1, |nodes|);
        return;
      }
    }
    r := Ok(visitor.reports);
  }

  /** After a pass that did not throw, the current method is the context of the last method
      declaration; every reference met before any method declaration would have failed. */
  lemma {:induction false} PassContext(nodes: seq<Node>, table: SymbolTable, k: int)
    requires 0 <= k <= |nodes| && PassState(nodes, table, k).Ok?
    ensures PassState(nodes, table, k).value.0 == ContextAt(nodes, k)
    ensures ContextAt(nodes, k).None? ==> forall j :: 0 <= j < k ==> nodes[j].kind != VAR_REF_EXPR
  {
    if k > 0 {
      PassContext(nodes, table, k - 1);
    }
  }

  /** The reports of the pass over the first `k` nodes: one per reference that does not resolve
      in its method's context, in order, and none for a reference that resolves. */
  function ExpectedReports(nodes: seq<Node>, table: SymbolTable, k: int): seq<Report>
    requires 0 <= k <= |nodes|
  {
    if k == 0 then []
    else
      var n := nodes[k - 1];
      var unresolved := n.kind == VAR_REF_EXPR && ContextAt(nodes, k - 1).Some? && "value" in n.attributes &&
                        !Resolves(table, ContextAt(nodes, k - 1).value, n.attributes["value"]);
      ExpectedReports(nodes, table, k - 1) + (if unresolved then [RefReport(ContextAt(nodes, k - 1), n, table).value.value] else [])
  }

  /** A pass that did not throw reports exactly the references that do not resolve. */
  lemma {:induction false} PassReportsUnresolved(nodes: seq<Node>, table: SymbolTable, k: int)
    requires 0 <= k <= |nodes| && PassState(nodes, table, k).Ok?
    ensures PassState(nodes, table, k).value.1 == ExpectedReports(nodes, table, k)
  {
    if k > 0 {
      PassReportsUnresolved(nodes, table, k - 1);
      PassContext(nodes, table, k - 1);
    }
  }
}
