/** The call check (`MethodVerificationVisitor`): a call of a method of this class must pass a
    number of arguments its parameters accept (a last array parameter accepts any number of
    trailing arguments) and each argument must have the type of its parameter. Calls of methods
    the class does not declare (inherited or imported ones) are not checked. */
module MethodVerification {
  import opened Wrappers
  import opened Strings
  import Int32
  import opened Reports
  import opened JmmAst
  import opened SymbolTables

  /** The last formal parameter is an array. */
  predicate IsVarargsCall(formals: seq<Symbol>) {
    |formals| > 0 && formals[|formals| - 1].symbolType.isArray
  }

  function MinArgs(formals: seq<Symbol>): int {
    if IsVarargsCall(formals) then |formals| - 1 else |formals|
  }

  /** `Integer.MAX_VALUE` for a varargs call. */
  function MaxArgs(formals: seq<Symbol>): int {
    if IsVarargsCall(formals) then Int32.MAX else |formals|
  }

  predicate ArityMismatch(formals: seq<Symbol>, n: int) {
    n < MinArgs(formals) || n > MaxArgs(formals)
  }

  /** The accepted argument counts: from one less than the number of parameters upwards for a
      varargs call, exactly the number of parameters otherwise (the number of arguments of a
      Java list is at most `Integer.MAX_VALUE`). */
  lemma ArityWindow(formals: seq<Symbol>, n: int)
    requires 0 <= n <= Int32.MAX
    ensures !ArityMismatch(formals, n) <==>
            if IsVarargsCall(formals) then n >= |formals| - 1 else n == |formals|
  {
  }

  /** The text of a type in messages (the library's `Type.toString` is not part of this model). */
  function TypeText(t: Type): string {
    t.name + (if t.isArray then "[]" else "")
  }

  function UndeclaredMessage(mName: string): string {
    "Método não declarado: '" + mName + "'"
  }

  function ArityMessage(mName: string, n: int, formals: seq<Symbol>): string {
    "Chamada a '" + mName + "' com " + IntToString(n) + " args, mas esperava " +
    (if IsVarargsCall(formals) then IntToString(MinArgs(formals)) + "+" else IntToString(|formals|))
  }

  function MismatchMessage(i: int, mName: string, actual: Type, expected: Type): string {
    "Argumento " + IntToString(i + 1) + " de '" + mName + "' tem tipo " + TypeText(actual) +
    " mas esperava " + TypeText(expected)
  }

  function ErrorAt(n: Node, message: string): Report {
    NewError(Semantic, n.line, n.column, message)
  }

  /** The type expected of argument `i`: its own parameter's, and past the parameters the last
      one's. With no parameters at all there is none and the index `-1` throws. */
  function Expected(formals: seq<Symbol>, i: int): (r: Result<Type>)
    requires 0 <= i
    ensures r.Ok? <==> |formals| > 0
    ensures r.Ok? ==> r.value == formals[if i < |formals| then i else |formals| - 1].symbolType
  {
    var pCount := |formals|;
    if i < pCount then Ok(formals[if i < pCount - 1 then i else pCount - 1].symbolType)
    else if pCount == 0 then Err("IndexOutOfBoundsException")
    else Ok(formals[pCount - 1].symbolType)
  }

  /** `inferType`: a literal's type, a variable's declared type (locals first, then parameters,
      then fields, else `unknown`), a call's return type (`None` when the table has none, the
      Java `null`). Iterating the locals or parameters of a method the table does not know, or
      of no method at all, throws. */
  function InferType(expr: Node, table: SymbolTable, currentMethod: Option<string>): (r: Result<Option<Type>>)
    ensures expr.kind == INTEGER_LITERAL ==> r == Ok(Some(Type("int", false)))
    ensures expr.kind in {BOOLEAN_TRUE, BOOLEAN_FALSE} ==> r == Ok(Some(Type("boolean", false)))
    ensures expr.kind !in {INTEGER_LITERAL, BOOLEAN_TRUE, BOOLEAN_FALSE, VAR_REF_EXPR, METHOD_CALL_EXPR} ==>
              r == Ok(Some(Type("unknown", false)))
    ensures expr.kind == VAR_REF_EXPR && r.Ok? ==> r.value.Some?
    ensures expr.kind == VAR_REF_EXPR && "value" in expr.attributes ==>
              r == (var t := VarType(expr.attributes["value"], table, currentMethod);
                    if t.Ok? then Ok(Some(t.value)) else Err(t.error))
    ensures expr.kind == METHOD_CALL_EXPR && "method" in expr.attributes ==>
              r == Ok(table.ReturnType(expr.attributes["method"]))
    ensures expr.kind in {VAR_REF_EXPR, METHOD_CALL_EXPR} &&
            (if expr.kind == VAR_REF_EXPR then "value" else "method") !in expr.attributes ==>
              r == Err("NullPointerException")
  {
    if expr.kind == INTEGER_LITERAL then Ok(Some(Type("int", false)))
    else if expr.kind == BOOLEAN_TRUE || expr.kind == BOOLEAN_FALSE then Ok(Some(Type("boolean", false)))
    else if expr.kind == VAR_REF_EXPR then
      var name :- Get(expr, "value");
      var t :- VarType(name, table, currentMethod);
      Ok(Some(t))
    else if expr.kind == METHOD_CALL_EXPR then
      var m :- Get(expr, "method");
      Ok(table.ReturnType(m))
    else Ok(Some(Type("unknown", false)))
  }

  /** The declared type of a variable: the first local of that name, else the first parameter,
      else the first field, else `unknown`. */
  function VarType(name: string, table: SymbolTable, currentMethod: Option<string>): (r: Result<Type>)
    ensures r.Ok? <==> currentMethod.Some? && currentMethod.value in table.locals &&
                       (Declares(table.locals[currentMethod.value], name) || currentMethod.value in table.params)
  {
    var locals :- LookupList(if currentMethod.Some? then table.LocalVariables(currentMethod.value) else None);
    var inLocals := FirstTypeOf(locals, name);
    if inLocals.Some? then Ok(inLocals.value)
    else
      var params :- LookupList(if currentMethod.Some? then table.Parameters(currentMethod.value) else None);
      var inParams := FirstTypeOf(params, name);
      if inParams.Some? then Ok(inParams.value)
      else
        var inFields := FirstTypeOf(table.fields, name);
        if inFields.Some? then Ok(inFields.value) else Ok(Type("unknown", false))
  }

  /** The resolution order: a variable has the type of its first declaration among the locals,
      the parameters and the fields of the class, searched in that order. */
  lemma VarTypeIsFirstDeclaration(name: string, table: SymbolTable, m: string)
    requires m in table.locals && m in table.params
    ensures VarType(name, table, Some(m)) ==
            Ok(FirstTypeOf(table.locals[m] + table.params[m] + table.fields, name).GetOr(Type("unknown", false)))
  {
    FirstTypeOfAppend(table.locals[m], table.params[m], name);
    FirstTypeOfAppend(table.locals[m] + table.params[m], table.fields, name);
    var both := table.locals[m] + table.params[m];
    assert Declares(both, name) <==> Declares(table.locals[m], name) || Declares(table.params[m], name) by {
      if Declares(both, name) {
        var i :| 0 <= i < |both| && both[i].name == name;
        if i >= |table.locals[m]| {
          assert table.params[m][i - |table.locals[m]|] == both[i];
        }
      }
      if Declares(table.params[m], name) {
        var i :| 0 <= i < |table.params[m]| && table.params[m][i].name == name;
        assert both[i + |table.locals[m]|] == table.params[m][i];
      }
    }
  }

    /** A list the code iterates: a `null` one throws. */
  function LookupList(l: Option<seq<Symbol>>): (r: Result<seq<Symbol>>)
    ensures r.Ok? <==> l.Some?
    ensures r.Ok? ==> r.value == l.value
  {
    if l.None? then Err("NullPointerException") else Ok(l.value)
  }

  /** The arguments of a call, without the receiver (`subList(1, size)`, which throws when the
      call has no children at all). */
  function Arguments(call: Node): (r: Result<seq<Node>>)
    ensures r.Ok? <==> |call.children| >= 1
    ensures r.Ok? ==> r.value == call.children[1..]
  {
    if |call.children| == 0 then Err("IllegalArgumentException") else Ok(call.children[1..])
  }

  /** What the type check says about argument `i`: a report when its type is not the expected
      one. Comparing a `null` inferred type throws. */
  function ArgReport(args: seq<Node>, i: int, formals: seq<Symbol>, mName: string, table: SymbolTable,
                     currentMethod: Option<string>): Result<Option<Report>>
    requires 0 <= i < |args|
  {
    var expected :- Expected(formals, i);
    var actual :- InferType(args[i], table, currentMethod);
    if actual.None? then Err("NullPointerException")
    else if actual.value != expected then Ok(Some(ErrorAt(args[i], MismatchMessage(i, mName, actual.value, expected))))
    else Ok(None)
  }

  /** The type check of every argument. */
  function ArgChecks(args: seq<Node>, formals: seq<Symbol>, mName: string, table: SymbolTable,
                     currentMethod: Option<string>): (r: seq<Result<Option<Report>>>)
    ensures |r| == |args|
    ensures forall i :: 0 <= i < |args| ==> r[i] == ArgReport(args, i, formals, mName, table, currentMethod)
  {
    seq(|args|, i requires 0 <= i < |args| => ArgReport(args, i, formals, mName, table, currentMethod))
  }

  /** The report of the arity check. */
  function ArityReports(call: Node, mName: string, n: int, formals: seq<Symbol>): seq<Report> {
    if ArityMismatch(formals, n) then [ErrorAt(call, ArityMessage(mName, n, formals))] else []
  }

  /** What `visitMethodCall` reports for one call. */
  function CallReports(call: Node, table: SymbolTable, currentMethod: Option<string>): (r: Result<seq<Report>>)
    ensures "method" in call.attributes && call.attributes["method"] !in table.methods ==> r == Ok([])
  {
    var mName :- Get(call, "method");
    if mName !in table.methods then Ok([])
    else
      match table.Parameters(mName)
      case None => Ok([ErrorAt(call, UndeclaredMessage(mName))])
      case Some(formals) =>
        var args :- Arguments(call);
        var typeReports :- Gather(ArgChecks(args, formals, mName, table, currentMethod), |args|);
        Ok(ArityReports(call, mName, |args|, formals) + typeReports)
  }

  // ---------------------------------------------------------------------------------------------
  // What the checks report.

  /** An argument is reported exactly when its inferred type differs from the expected one. */
  lemma ArgReportMeansMismatch(args: seq<Node>, i: int, formals: seq<Symbol>, mName: string, table: SymbolTable,
                               currentMethod: Option<string>)
    requires 0 <= i < |args|
    requires ArgReport(args, i, formals, mName, table, currentMethod).Ok?
    ensures |formals| > 0
    ensures var expected := formals[if i < |formals| then i else |formals| - 1].symbolType;
      var actual := InferType(args[i], table, currentMethod);
      actual.Ok? && actual.value.Some? &&
      (ArgReport(args, i, formals, mName, table, currentMethod).value.Some? <==> actual.value.value != expected)
  {
  }

  /** Counting the reports that carry one message. */
  function CountMessage(rs: seq<Report>, m: string): nat {
    if rs == [] then 0 else CountMessage(rs[..|rs| - 1], m) + (if rs[|rs| - 1].message == m then 1 else 0)
  }

  lemma {:induction false} CountAppend(a: seq<Report>, b: seq<Report>, m: string)
    ensures CountMessage(a + b, m) == CountMessage(a, m) + CountMessage(b, m)
    decreases |b|
  {
    if b == [] {
      assert a + b == a;
    } else {
      var ab := a + b;
      assert ab[..|ab| - 1] == a + b[..|b| - 1];
      assert ab[|ab| - 1] == b[|b| - 1];
      CountAppend(a, b[..|b| - 1], m);
    }
  }

  lemma {:induction false} CountAbsent(rs: seq<Report>, m: string)
    requires forall r :: r in rs ==> r.message != m
    ensures CountMessage(rs, m) == 0
    decreases |rs|
  {
    if rs != [] {
      CountAbsent(rs[..|rs| - 1], m);
    }
  }

  lemma MessagesDiffer(mName: string, n: int, formals: seq<Symbol>, i: int, mName': string, actual: Type, expected: Type)
    ensures ArityMessage(mName, n, formals) != MismatchMessage(i, mName', actual, expected)
  {
    assert ArityMessage(mName, n, formals)[0] == 'C';
    assert MismatchMessage(i, mName', actual, expected)[0] == 'A';
  }

  /** A checked call whose arguments can all be typed is reported once for its arity exactly
      when the number of arguments is outside the accepted window, and otherwise carries only the
      type check's reports. */
  lemma ArityReportedOnce(call: Node, table: SymbolTable, currentMethod: Option<string>)
    requires "method" in call.attributes && call.attributes["method"] in table.methods
    requires call.attributes["method"] in table.params
    requires CallReports(call, table, currentMethod).Ok?
    ensures var mName, formals, n := call.attributes["method"], table.params[call.attributes["method"]], |call.children| - 1;
      var rs := CallReports(call, table, currentMethod).value;
      n >= 0 &&
      CountMessage(rs, ArityMessage(mName, n, formals)) == (if ArityMismatch(formals, n) then 1 else 0) &&
      rs == ArityReports(call, mName, n, formals) + Gather(ArgChecks(call.children[1..], formals, mName, table, currentMethod), n).value
  {
    var mName, formals := call.attributes["method"], table.params[call.attributes["method"]];
    var args := call.children[1..];
    var n := |args|;
    var m := ArityMessage(mName, n, formals);
    var checks := ArgChecks(args, formals, mName, table, currentMethod);
    var typeReports := Gather(checks, n).value;
    GatherMention(checks, n);
    forall r | r in typeReports ensures r.message != m {
      var i :| 0 <= i < n && checks[i] == Ok(Some(r));
      var expected := Expected(formals, i).value;
      var actual := InferType(args[i], table, currentMethod).value.value;
      MessagesDiffer(mName, n, formals, i, mName, actual, expected);
    }
    CountAbsent(typeReports, m);
    CountAppend(ArityReports(call, mName, n, formals), typeReports, m);
  }

  /** A call of a method with a parameter list reports its arity check, then its type checks. */
  lemma CheckedCall(call: Node, table: SymbolTable, currentMethod: Option<string>)
    requires "method" in call.attributes && call.attributes["method"] in table.methods
    requires call.attributes["method"] in table.params
    ensures var mName := call.attributes["method"];
            var formals := table.params[mName];
            CallReports(call, table, currentMethod) ==
              match Arguments(call)
              case Err(e) => Err(e)
              case Ok(args) =>
                match Gather(ArgChecks(args, formals, mName, table, currentMethod), |args|)
                case Ok(typeReports) => Ok(ArityReports(call, mName, |args|, formals) + typeReports)
                case Err(e) => Err(e)
  {
  }

  /** A call of a method the table lists with no parameter list is reported as undeclared, and
      only that. */
  lemma UndeclaredCall(call: Node, table: SymbolTable, currentMethod: Option<string>)
    requires "method" in call.attributes && call.attributes["method"] in table.methods
    requires call.attributes["method"] !in table.params
    ensures CallReports(call, table, currentMethod) == Ok([ErrorAt(call, UndeclaredMessage(call.attributes["method"]))])
  {
  }

  // ---------------------------------------------------------------------------------------------
  // The visitor object.

  class MethodVerificationVisitor {
    /** The method whose body is being visited (`null` before the first). */
    var currentMethod: Option<string>
    /** The reports added so far (`addReport`). */
    var reports: seq<Report>

    constructor()
      ensures currentMethod == None && reports == []
    {
      currentMethod := None;
      reports := [];
    }

    /** `visitMethodDecl`: remembers the method's name. */
    method VisitMethodDecl(methodDecl: Node) returns (r: Result<()>)
      modifies this`currentMethod
      ensures r.Ok? <==> "name" in methodDecl.attributes
      ensures r.Ok? ==> currentMethod == Some(methodDecl.attributes["name"])
      ensures r.Err? ==> currentMethod == old(currentMethod) && r.error == Get(methodDecl, "name").error
    {
      var name :- Get(methodDecl, "name");
      currentMethod := Some(name);
      r := Ok(());
    }

    /** `visitMethodCall`: the arity check and then one type check per argument. */
    method VisitMethodCall(call: Node, table: SymbolTable) returns (r: Result<()>)
      modifies this`reports
      ensures match CallReports(call, table, currentMethod)
        case Ok(rs) => r.Ok? && reports == old(reports) + rs
        case Err(e) => r == Err(e)
    {
      var mName :- Get(call, "method");
      if mName !in table.methods {
        return Ok(());
      }
      var formals := table.Parameters(mName);
      if formals.None? {
        reports := reports + [ErrorAt(call, UndeclaredMessage(mName))];
        return Ok(());
      }
      CheckedCall(call, table, currentMethod);
      r := CheckCall(call, mName, formals.value, table);
    }

    /** The rest of `visitMethodCall` for a method with a parameter list: the arity report is
        added before the type checks run. */
    method CheckCall(call: Node, mName: string, formals: seq<Symbol>, table: SymbolTable) returns (r: Result<()>)
      modifies this`reports
      ensures match Arguments(call)
        case Err(e) => r == Err(e)
        case Ok(args) =>
          match Gather(ArgChecks(args, formals, mName, table, currentMethod), |args|)
          case Ok(typeReports) => r.Ok? && reports == old(reports) + (ArityReports(call, mName, |args|, formals) + typeReports)
          case Err(e) => r == Err(e)
    {
      var args :- Arguments(call);
      if ArityMismatch(formals, |args|) {
        reports := reports + [ErrorAt(call, ArityMessage(mName, |args|, formals))];
      }
      var typeReports :- CheckArguments(args, formals, mName, table);
      reports := reports + typeReports;
      r := Ok(());
    }

    /** The loop of `visitMethodCall` over the arguments: the reports of the type checks, or the
        exception of the first that throws. */
    method CheckArguments(args: seq<Node>, formals: seq<Symbol>, mName: string, table: SymbolTable)
      returns (r: Result<seq<Report>>)
      ensures r == Gather(ArgChecks(args, formals, mName, table, currentMethod), |args|)
    {
      var typeReports := [];
      ghost var checks := ArgChecks(args, formals, mName, table, currentMethod);
      for i := 0 to |args|
        invariant Gather(checks, i) == Ok(typeReports)
      {
        var step := AddArgumentCheck(args, i, formals, mName, table, checks, typeReports);
        if step.Err? {
          GatherStaysFailed(checks, i + 1);
          return step;
        }
        typeReports := step.value;
      }
      r := Ok(typeReports);
    }

    /** One iteration of that loop: the type check of argument `i` added to the reports so far. */
    method AddArgumentCheck(args: seq<Node>, i: int, formals: seq<Symbol>, mName: string, table: SymbolTable,
                            ghost checks: seq<Result<Option<Report>>>, typeReports: seq<Report>)
      returns (r: Result<seq<Report>>)
      requires 0 <= i < |args| == |checks| && checks[i] == ArgReport(args, i, formals, mName, table, currentMethod)
      requires Gather(checks, i) == Ok(typeReports)
      ensures r == Gather(checks, i + 1)
    {
      var check := CheckArgument(args, i, formals, mName, table);
      if check.Err? {
        return Err(check.error);
      }
      if check.value.Some? {
        return Ok(typeReports + [check.value.value]);
      }
      assert typeReports + [] == typeReports;
      return Ok(typeReports);
    }

    /** The type check of argument `i` (the body of the loop of `visitMethodCall`). */
    method CheckArgument(args: seq<Node>, i: int, formals: seq<Symbol>, mName: string, table: SymbolTable)
      returns (r: Result<Option<Report>>)
      requires 0 <= i < |args|
      ensures r == ArgReport(args, i, formals, mName, table, currentMethod)
    {
      var expected :- Expected(formals, i);
      var actual :- InferType(args[i], table, currentMethod);
      if actual.None? {
        return Err("NullPointerException");
      }
      if actual.value != expected {
        return Ok(Some(ErrorAt(args[i], MismatchMessage(i, mName, actual.value, expected))));
      }
      return Ok(None);
    }
  }

  /** The pass over the first `k` nodes of a preorder walk: the method being visited and the
      reports so far. */
  function PassState(nodes: seq<Node>, table: SymbolTable, k: int): Result<(Option<string>, seq<Report>)>
    requires 0 <= k <= |nodes|
  {
    if k == 0 then Ok((None, []))
    else
      var (currentMethod, reports) :- PassState(nodes, table, k - 1);
      var n := nodes[k - 1];
      if n.kind == METHOD_DECL then
        var name :- Get(n, "name");
        Ok((Some(name), reports))
      else if n.kind == METHOD_CALL_EXPR then
        var here :- CallReports(n, table, currentMethod);
        Ok((currentMethod, reports + here))
      else Ok((currentMethod, reports))
  }

  /** The pass over a whole tree, visited in preorder by a fresh visitor. */
  method Analyze(root: Node, table: SymbolTable) returns (r: Result<seq<Report>>)
    ensures var s := PassState(Preorder(root), table, |Preorder(root)|);
      match s
      case Ok(p) => r == Ok(p.1)
      case Err(e) => r == Err(e)
  {
    var nodes := Preorder(root);
    var visitor := new MethodVerificationVisitor();
    for k := 0 to |nodes|
      invariant PassState(nodes, table, k) == Ok((visitor.currentMethod, visitor.reports))
    {
      var n := nodes[k];
      if n.kind == METHOD_DECL {
        var step := visitor.VisitMethodDecl(n);
        if step.Err? {
          PassStaysFailed(nodes, table, k + 1);
          return Err(step.error);
        }
      } else if n.kind == METHOD_CALL_EXPR {
        var step := visitor.VisitMethodCall(n, table);
        if step.Err? {
          PassStaysFailed(nodes, table, k + 1);
          return Err(step.error);
        }
      }
    }
    r := Ok(visitor.reports);
  }

  /** Once a visit throws, the pass has failed with that exception. */
  lemma PassStaysFailed(nodes: seq<Node>, table: SymbolTable, k: int)
    requires 0 <= k <= |nodes| && PassState(nodes, table, k).Err?
    ensures PassState(nodes, table, |nodes|) == PassState(nodes, table, k)
  {
    FailureIsFinal(j => if 0 <= j <= |nodes| then PassState(nodes, table, j) else Err(""), k, |nodes|);
  }
}
