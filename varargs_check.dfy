/** The varargs-position check (`VarargsDeclarationCheck`): every array-typed parameter of a
    method the symbol table knows counts as a varargs parameter; a second one is reported, and so
    is a first one that is not the last parameter. */
module VarargsDeclarationCheck {
  import opened Wrappers
  import opened Reports
  import opened JmmAst
  import opened SymbolTables

  function OnlyOneMessage(name: string): string {
    "Só pode haver um varargs e ele já apareceu: '" + name + "'"
  }

  function MustBeLastMessage(name: string): string {
    "Varargs '" + name + "' tem de ser o último parâmetro"
  }

  predicate IsVarargs(p: Symbol) {
    p.symbolType.isArray
  }

  /** Some parameter before position `i` is an array. */
  predicate ArrayBefore(params: seq<Symbol>, i: int)
    requires 0 <= i <= |params|
  {
    exists j :: 0 <= j < i && IsVarargs(params[j])
  }

  /** What is reported for parameter `i`, stated for that parameter alone: an array after an
      earlier array is a second varargs; the first array must be the last parameter. */
  function ParamMessage(params: seq<Symbol>, i: int): (r: Option<string>)
    requires 0 <= i < |params|
    ensures r.Some? <==> IsVarargs(params[i]) && (ArrayBefore(params, i) || i != |params| - 1)
    ensures r.Some? && ArrayBefore(params, i) ==> r.value == OnlyOneMessage(params[i].name)
    ensures r.Some? && !ArrayBefore(params, i) ==> r.value == MustBeLastMessage(params[i].name)
  {
    if !IsVarargs(params[i]) then None
    else if ArrayBefore(params, i) then Some(OnlyOneMessage(params[i].name))
    else if i != |params| - 1 then Some(MustBeLastMessage(params[i].name))
    else None
  }

  /** The reports for the first `k` parameters, in parameter order, all at the method's position. */
  function ParamReports(params: seq<Symbol>, k: int, line: int, column: int): seq<Report>
    requires 0 <= k <= |params|
  {
    if k == 0 then []
    else
      ParamReports(params, k - 1, line, column) +
      (match ParamMessage(params, k - 1)
       case Some(m) => [NewError(Semantic, line, column, m)]
       case None => [])
  }

  /** What `visitMethodDecl` reports for one method declaration; reading a missing `name`
      throws. */
  function MethodReports(methodDecl: Node, table: SymbolTable): (r: Result<seq<Report>>)
    ensures r.Err? <==> "name" !in methodDecl.attributes
    ensures r.Err? ==> r.error == "NullPointerException"
    ensures r.Ok? && (methodDecl.attributes["name"] !in table.methods || table.Parameters(methodDecl.attributes["name"]).None?) ==>
              r.value == []
    ensures r.Ok? && r.value != [] ==> |r.value| <= |table.Parameters(methodDecl.attributes["name"]).value|
    ensures r.Ok? ==> forall rep :: rep in r.value ==> rep == NewError(Semantic, methodDecl.line, methodDecl.column, rep.message)
  {
    var name :- Get(methodDecl, "name");
    if name !in table.methods then Ok([])
    else
      match table.Parameters(name)
      case None => Ok([])
      case Some(params) =>
        ReportsShape(params, |params|, methodDecl.line, methodDecl.column);
        Ok(ParamReports(params, |params|, methodDecl.line, methodDecl.column))
  }

  /** `visitMethodDecl`: the scan with its `seenVarargs` flag. */
  method VisitMethodDecl(methodDecl: Node, table: SymbolTable) returns (r: Result<seq<Report>>)
    ensures r == MethodReports(methodDecl, table)
    ensures "name" in methodDecl.attributes &&
            (methodDecl.attributes["name"] !in table.methods || methodDecl.attributes["name"] !in table.params) ==>
              r == Ok([])
  {
    var methodName :- Get(methodDecl, "name");
    if methodName !in table.methods {
      return Ok([]);
    }
    var params := table.Parameters(methodName);
    if params.None? {
      return Ok([]);
    }
    var ps := params.value;
    var reports: seq<Report> := [];
    var seenVarargs := false;
    for i := 0 to |ps|
      invariant seenVarargs == ArrayBefore(ps, i)
      invariant reports == ParamReports(ps, i, methodDecl.line, methodDecl.column)
    {
      var p := ps[i];
      if p.symbolType.isArray {
        if seenVarargs {
          reports := reports + [NewError(Semantic, methodDecl.line, methodDecl.column, OnlyOneMessage(p.name))];
        } else if i != |ps| - 1 {
          reports := reports + [NewError(Semantic, methodDecl.line, methodDecl.column, MustBeLastMessage(p.name))];
        }
        seenVarargs := true;
      }
    }
    return Ok(reports);
  }

  /** Each parameter adds at most one report, and every report is at the method's position. */
  lemma {:induction false} ReportsShape(params: seq<Symbol>, k: int, line: int, column: int)
    requires 0 <= k <= |params|
    ensures |ParamReports(params, k, line, column)| <= k
    ensures forall r :: r in ParamReports(params, k, line, column) ==> r == NewError(Semantic, line, column, r.message)
  {
    if k > 0 {
      ReportsShape(params, k - 1, line, column);
      ReportsSnoc(params, k, line, column);
    }
  }

  /** The reports of the first `k` parameters are those of the first `k - 1` and the report of
      parameter `k - 1`, if it has one. */
  lemma ReportsSnoc(params: seq<Symbol>, k: int, line: int, column: int)
    requires 0 < k <= |params|
    ensures forall r :: r in ParamReports(params, k, line, column) <==>
              r in ParamReports(params, k - 1, line, column) ||
              (ParamMessage(params, k - 1) == Some(r.message) && r == NewError(Semantic, line, column, r.message))
  {
  }

  /** A message is reported among the first `k` parameters exactly when some parameter among
      them has it as its `ParamMessage`. */
  lemma {:induction false} ReportsMention(params: seq<Symbol>, k: int, line: int, column: int, m: string)
    requires 0 <= k <= |params|
    ensures (exists r :: r in ParamReports(params, k, line, column) && r.message == m) <==>
            exists i :: 0 <= i < k && ParamMessage(params, i) == Some(m)
  {
    if k > 0 {
      ReportsMention(params, k - 1, line, column, m);
      ReportsSnoc(params, k, line, column);
      if ParamMessage(params, k - 1) == Some(m) {
        assert NewError(Semantic, line, column, m).message == m;
        assert NewError(Semantic, line, column, m) in ParamReports(params, k, line, column);
      }
    }
  }

  /** No report at all exactly when every array parameter is the last one, that is, when there is
      at most one array parameter and it comes last. */
  lemma NoReportsIff(params: seq<Symbol>, line: int, column: int)
    ensures ParamReports(params, |params|, line, column) == [] <==>
            forall i :: 0 <= i < |params| && IsVarargs(params[i]) ==> i == |params| - 1
  {
    var k := |params|;
    NoneIffEmpty(params, k, line, column);
    if forall i :: 0 <= i < k && IsVarargs(params[i]) ==> i == k - 1 {
      forall i | 0 <= i < k ensures ParamMessage(params, i).None? {
        if IsVarargs(params[i]) {
          assert !ArrayBefore(params, i);
        }
      }
    } else {
      var i :| 0 <= i < k && IsVarargs(params[i]) && i != k - 1;
      assert ParamMessage(params, i).Some?;
    }
  }

  lemma {:induction false} NoneIffEmpty(params: seq<Symbol>, k: int, line: int, column: int)
    requires 0 <= k <= |params|
    ensures ParamReports(params, k, line, column) == [] <==> forall i :: 0 <= i < k ==> ParamMessage(params, i).None?
  {
    if k > 0 {
      NoneIffEmpty(params, k - 1, line, column);
    }
  }

  /** An array parameter after an earlier array parameter is always reported as a second
      varargs. */
  lemma SecondVarargsReported(params: seq<Symbol>, j: int, i: int, line: int, column: int)
    requires 0 <= j < i < |params| && IsVarargs(params[j]) && IsVarargs(params[i])
    ensures NewError(Semantic, line, column, OnlyOneMessage(params[i].name)) in ParamReports(params, |params|, line, column)
  {
    assert ArrayBefore(params, i);
    assert ParamMessage(params, i) == Some(OnlyOneMessage(params[i].name));
    ReportsMention(params, |params|, line, column, OnlyOneMessage(params[i].name));
    ReportsShape(params, |params|, line, column);
    var r :| r in ParamReports(params, |params|, line, column) && r.message == OnlyOneMessage(params[i].name);
  }

  lemma MessagesDiffer(a: string, b: string)
    ensures OnlyOneMessage(a) != MustBeLastMessage(b)
  {
    var opening, rest := "Só pode haver um varargs ", "e ele já apareceu: '";
    assert "Só pode haver um varargs e ele já apareceu: '" == opening + rest;
    assert OnlyOneMessage(a) == opening + (rest + a + "'");
    assert OnlyOneMessage(a)[0] == 'S' && MustBeLastMessage(b)[0] == 'V';
  }

  /** The first array parameter is reported as misplaced exactly when it is not the last. */
  lemma FirstVarargsMustBeLast(params: seq<Symbol>, i: int, line: int, column: int)
    requires 0 <= i < |params| && IsVarargs(params[i]) && !ArrayBefore(params, i)
    ensures (exists r :: r in ParamReports(params, |params|, line, column) && r.message == MustBeLastMessage(params[i].name))
            <==> i != |params| - 1
  {
    var m := MustBeLastMessage(params[i].name);
    ReportsMention(params, |params|, line, column, m);
    if i != |params| - 1 {
      assert ParamMessage(params, i) == Some(m);
    }
    if exists i' :: 0 <= i' < |params| && ParamMessage(params, i') == Some(m) {
      var i' :| 0 <= i' < |params| && ParamMessage(params, i') == Some(m);
      MessagesDiffer(params[i'].name, params[i].name);
      if i < i' {
        assert ArrayBefore(params, i');
      }
    }
  }

  /** The reports of the pass over the first `k` nodes of a preorder walk: `visitMethodDecl` on
      every method declaration. */
  function PassReports(nodes: seq<Node>, table: SymbolTable, k: int): Result<seq<Report>>
    requires 0 <= k <= |nodes|
  {
    if k == 0 then Ok([])
    else
      var before :- PassReports(nodes, table, k - 1);
      if nodes[k - 1].kind != METHOD_DECL then Ok(before)
      else
        var here :- MethodReports(nodes[k - 1], table);
        Ok(before + here)
  }

  /** The pass over a whole tree, visited in preorder. */
  method Analyze(root: Node, table: SymbolTable) returns (r: Result<seq<Report>>)
    ensures r == PassReports(Preorder(root), table, |Preorder(root)|)
  {
    var nodes := Preorder(root);
    var reports: seq<Report> := [];
    for k := 0 to |nodes|
      invariant PassReports(nodes, table, k) == Ok(reports)
    {
      if nodes[k].kind == METHOD_DECL {
        var here := VisitMethodDecl(nodes[k], table);
        if here.Err? {
          r := Err(here.error);
          assert PassReports(nodes, table, k + 1) == r;
          PassStaysFailed(nodes, table, k + 1);
          return;
        }
        reports := reports + here.value;
      }
    }
    r := Ok(reports);
  }

  /** Once a visit throws, the pass has failed with that exception. */
  lemma PassStaysFailed(nodes: seq<Node>, table: SymbolTable, k: int)
    requires 0 <= k <= |nodes| && PassReports(nodes, table, k).Err?
    ensures PassReports(nodes, table, |nodes|) == PassReports(nodes, table, k)
  {
    FailureIsFinal(j => if 0 <= j <= |nodes| then PassReports(nodes, table, j) else Err(""), k, |nodes|);
  }
}
