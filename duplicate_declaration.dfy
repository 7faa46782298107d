/** The duplicate-declaration pass (`DuplicateDeclarationCheck`): a visitor that keeps the
    names of the fields seen so far, and of the parameters and locals of the current method, and
    reports a declaration whose name is already in its set. */
module DuplicateDeclarationCheck {
  import opened Wrappers
  import opened Reports
  import opened JmmAst

  function FieldMessage(name: string): string {
    "Campo duplicado: '" + name + "'"
  }

  function LocalMessage(name: string): string {
    "Variável local duplicada: '" + name + "'"
  }

  function ParamMessage(methodName: string, name: string): string {
    "Parâmetro duplicado em '" + methodName + "': '" + name + "'"
  }

  /** The visitor's sets and reports; the parameter and local sets are `None` (`null`) until the
      first method declaration is visited. */
  datatype State = State(fields: set<string>, params: Option<set<string>>, locals: Option<set<string>>, reports: seq<Report>)

  const Initial: State := State({}, None, None, [])

  /** `visitMethod`: fresh parameter and local sets; fields and reports stay. */
  function EnterMethod(st: State): (r: State)
    ensures r.params == Some({}) && r.locals == Some({})
    ensures r.fields == st.fields && r.reports == st.reports
  {
    st.(params := Some({}), locals := Some({}))
  }

  /** `visitVarDecl`: a field while no method has been entered, a local of the current method
      after that. */
  function DeclareVar(st: State, varDecl: Node): (r: Result<State>)
    ensures r.Ok? <==> "name" in varDecl.attributes && (st.params.Some? ==> st.locals.Some?)
    ensures r.Ok? ==> r.value.params == st.params
  {
    var name :- Get(varDecl, "name");
    if st.params.None? then
      if name in st.fields then Ok(st.(reports := st.reports + [NewError(Semantic, varDecl.line, varDecl.column, FieldMessage(name))]))
      else Ok(st.(fields := st.fields + {name}))
    else if st.locals.None? then Err("NullPointerException")
    else if name in st.locals.value then
      Ok(st.(reports := st.reports + [NewError(Semantic, varDecl.line, varDecl.column, LocalMessage(name))]))
    else Ok(st.(locals := Some(st.locals.value + {name})))
  }

  /** `getAncestor(METHOD_DECL).map(m -> m.get("name")).orElse("<unknown>")`. */
  function EnclosingMethodName(enclosing: Option<Node>): (r: Result<string>)
    ensures enclosing.None? ==> r == Ok("<unknown>")
    ensures enclosing.Some? ==> r == Get(enclosing.value, "name")
  {
    match enclosing
    case None => Ok("<unknown>")
    case Some(m) => Get(m, "name")
  }

  /** `visitParam`: a parameter before any method has been entered finds no set and throws; the
      enclosing method is looked up only for a duplicate. */
  function DeclareParam(st: State, v: Visit): (r: Result<State>)
    ensures r.Ok? ==> "name" in v.node.attributes && st.params.Some? && r.value.params.Some?
    ensures r.Ok? ==> r.value.fields == st.fields && r.value.locals == st.locals
  {
    var name :- Get(v.node, "name");
    if st.params.None? then Err("NullPointerException")
    else if name in st.params.value then
      var methodName :- EnclosingMethodName(v.enclosingMethod);
      Ok(st.(reports := st.reports + [NewError(Semantic, v.node.line, v.node.column, ParamMessage(methodName, name))]))
    else Ok(st.(params := Some(st.params.value + {name})))
  }

  /** The visitor's dispatch on one node. */
  function Step(st: State, v: Visit): Result<State> {
    if v.node.kind == METHOD_DECL then Ok(EnterMethod(st))
    else if v.node.kind == VAR_DECL then DeclareVar(st, v.node)
    else if v.node.kind == PARAM then DeclareParam(st, v)
    else Ok(st)
  }

  /** The state after the first `k` visits; a visit that throws ends the pass. */
  function PassState(vs: seq<Visit>, k: int): Result<State>
    requires 0 <= k <= |vs|
  {
    if k == 0 then Ok(Initial)
    else
      var st :- PassState(vs, k - 1);
      Step(st, vs[k - 1])
  }

  /** The visitor of the source, with its three sets and its report list. */
  class DuplicateDeclarationVisitor {
    var seenFields: set<string>
    var seenParams: Option<set<string>>
    var seenLocals: Option<set<string>>
    var reports: seq<Report>

    function CurrentState(): State
      reads this
    {
      State(seenFields, seenParams, seenLocals, reports)
    }

    constructor()
      ensures CurrentState() == Initial
    {
      seenFields := {};
      seenParams := None;
      seenLocals := None;
      reports := [];
    }

    method VisitMethod()
      modifies this`seenParams, this`seenLocals
      ensures CurrentState() == EnterMethod(old(CurrentState()))
    {
      seenParams := Some({});
      seenLocals := Some({});
    }

    method VisitVarDecl(varDecl: Node) returns (r: Result<()>)
      modifies this
      ensures r.Ok? == DeclareVar(old(CurrentState()), varDecl).Ok?
      ensures r.Ok? ==> CurrentState() == DeclareVar(old(CurrentState()), varDecl).value
      ensures r.Err? ==> r.error == DeclareVar(old(CurrentState()), varDecl).error
    {
      var name :- Get(varDecl, "name");
      if seenParams.None? {
        if name in seenFields {
          reports := reports + [NewError(Semantic, varDecl.line, varDecl.column, FieldMessage(name))];
        } else {
          seenFields := seenFields + {name};
        }
      } else {
        if seenLocals.None? {
          return Err("NullPointerException");
        }
        if name in seenLocals.value {
          reports := reports + [NewError(Semantic, varDecl.line, varDecl.column, LocalMessage(name))];
        } else {
          seenLocals := Some(seenLocals.value + {name});
        }
      }
      return Ok(());
    }

    method VisitParam(v: Visit) returns (r: Result<()>)
      modifies this
      ensures r.Ok? == DeclareParam(old(CurrentState()), v).Ok?
      ensures r.Ok? ==> CurrentState() == DeclareParam(old(CurrentState()), v).value
      ensures r.Err? ==> r.error == DeclareParam(old(CurrentState()), v).error
    {
      var name :- Get(v.node, "name");
      if seenParams.None? {
        return Err("NullPointerException");
      }
      if name in seenParams.value {
        var methodName :- EnclosingMethodName(v.enclosingMethod);
        reports := reports + [NewError(Semantic, v.node.line, v.node.column, ParamMessage(methodName, name))];
      } else {
        seenParams := Some(seenParams.value + {name});
      }
      return Ok(());
    }
  }

  /** The pass over a whole tree, visited in preorder. */
  method Analyze(root: Node) returns (r: Result<seq<Report>>)
    ensures var vs := PreorderIn(root, None);
            match PassState(vs, |vs|)
            case Ok(st) => r == Ok(st.reports)
            case Err(e) => r == Err(e)
  {
    var vs := PreorderIn(root, None);
    var visitor := new DuplicateDeclarationVisitor();
    for k := 0 to |vs|
      invariant PassState(vs, k) == Ok(visitor.CurrentState())
    {
      var v := vs[k];
      var outcome: Result<()> := Ok(());
      if v.node.kind == METHOD_DECL {
        visitor.VisitMethod();
      } else if v.node.kind == VAR_DECL {
        outcome := visitor.VisitVarDecl(v.node);
      } else if v.node.kind == PARAM {
        outcome := visitor.VisitParam(v);
      }
      if outcome.Err? {
        r := Err(outcome.error);
        assert PassState(vs, k + 1) == Err(outcome.error);
        PassStaysFailed(vs, k + 1);
        return;
      }
    }
    r := Ok(visitor.reports);
  }

  /** Once a visit throws, the pass has failed with that exception. */
  lemma PassStaysFailed(vs: seq<Visit>, k: int)
    requires 0 <= k <= |vs| && PassState(vs, k).Err?
    ensures PassState(vs, |vs|) == PassState(vs, k)
  {
    FailureIsFinal(j => if 0 <= j <= |vs| then PassState(vs, j) else Err(""), k, |vs|);
  }

  // The pass stated declaratively, over positions of the visit sequence.

  /** The position of the last method declaration among the first `k` visits, or -1. */
  function LastMethod(vs: seq<Visit>, k: int): (r: int)
    requires 0 <= k <= |vs|
    ensures -1 <= r < k
    ensures r >= 0 ==> vs[r].node.kind == METHOD_DECL
    ensures forall j :: r < j < k ==> vs[j].node.kind != METHOD_DECL
  {
    if k == 0 then -1
    else if vs[k - 1].node.kind == METHOD_DECL then k - 1
    else LastMethod(vs, k - 1)
  }

  function NameOf(n: Node): string {
    if "name" in n.attributes then n.attributes["name"] else ""
  }

  /** The names of the declarations of `kind` since the last method declaration, among the first
      `k` visits. */
  function ScopeNames(vs: seq<Visit>, k: int, kind: string): set<string>
    requires 0 <= k <= |vs|
  {
    if k == 0 || vs[k - 1].node.kind == METHOD_DECL then {}
    else ScopeNames(vs, k - 1, kind) + (if vs[k - 1].node.kind == kind then {NameOf(vs[k - 1].node)} else {})
  }

  /** The names of the variable declarations met before the first method declaration. */
  function FieldNames(vs: seq<Visit>, k: int): set<string>
    requires 0 <= k <= |vs|
  {
    if k == 0 then {}
    else FieldNames(vs, k - 1) +
         (if vs[k - 1].node.kind == VAR_DECL && LastMethod(vs, k - 1) == -1 then {NameOf(vs[k - 1].node)} else {})
  }

  lemma {:induction false} ScopeNamesMeans(vs: seq<Visit>, k: int, kind: string, x: string)
    requires 0 <= k <= |vs|
    ensures x in ScopeNames(vs, k, kind) <==>
            exists j :: LastMethod(vs, k) < j < k && vs[j].node.kind == kind && NameOf(vs[j].node) == x
  {
    if k > 0 && vs[k - 1].node.kind != METHOD_DECL {
      ScopeNamesMeans(vs, k - 1, kind, x);
    }
  }

  lemma {:induction false} FieldNamesBeforeMethods(vs: seq<Visit>, k: int)
    requires 0 <= k <= |vs| && LastMethod(vs, k) == -1
    ensures FieldNames(vs, k) == ScopeNames(vs, k, VAR_DECL)
  {
    if k > 0 {
      FieldNamesBeforeMethods(vs, k - 1);
    }
  }

  /** Visit `i` is a declaration whose kind and name already occur since the last method
      declaration (before any method: since the start). */
  predicate Redeclared(vs: seq<Visit>, i: int)
    requires 0 <= i < |vs|
  {
    exists j :: LastMethod(vs, i) < j < i &&
      vs[j].node.kind == vs[i].node.kind && NameOf(vs[j].node) == NameOf(vs[i].node)
  }

  predicate IsDeclaration(n: Node) {
    n.kind == VAR_DECL || n.kind == PARAM
  }

  /** The report for a redeclaration at visit `i`, in the words of its category. */
  function ReportAt(vs: seq<Visit>, i: int): Report
    requires 0 <= i < |vs|
  {
    var n := vs[i].node;
    var message :=
      if n.kind == VAR_DECL then
        (if LastMethod(vs, i) == -1 then FieldMessage(NameOf(n)) else LocalMessage(NameOf(n)))
      else
        ParamMessage(match vs[i].enclosingMethod case None => "<unknown>" case Some(m) => NameOf(m), NameOf(n));
    NewError(Semantic, n.line, n.column, message)
  }

  /** One report per redeclared position, in visit order, and none for any other position. */
  function ExpectedReports(vs: seq<Visit>, k: int): seq<Report>
    requires 0 <= k <= |vs|
  {
    if k == 0 then []
    else ExpectedReports(vs, k - 1) +
         (if IsDeclaration(vs[k - 1].node) && Redeclared(vs, k - 1) then [ReportAt(vs, k - 1)] else [])
  }

  /** What the visitor holds after the first `k` visits: the field set is every variable
      declared before the first method (kept across methods), the parameter and local sets are
      `None` exactly while no method has been entered and otherwise hold the names declared since
      the last method declaration, and the reports are exactly one per redeclaration. */
  predicate Accounts(vs: seq<Visit>, k: int, st: State)
    requires 0 <= k <= |vs|
  {
    && st.fields == FieldNames(vs, k)
    && (st.params.None? <==> LastMethod(vs, k) == -1)
    && (st.params.Some? ==> st.params == Some(ScopeNames(vs, k, PARAM)) && st.locals == Some(ScopeNames(vs, k, VAR_DECL)))
    && st.reports == ExpectedReports(vs, k)
  }

  /** A pass that did not throw holds what `Accounts` describes. */
  lemma {:induction false} PassMeaning(vs: seq<Visit>, k: int)
    requires 0 <= k <= |vs| && PassState(vs, k).Ok?
    ensures Accounts(vs, k, PassState(vs, k).value)
  {
    if k > 0 {
      var i := k - 1;
      PassMeaning(vs, i);
      var n := vs[i].node;
      if n.kind == VAR_DECL {
        VarDeclStep(vs, i);
      } else if n.kind == PARAM {
        ParamStep(vs, i);
      } else if n.kind != METHOD_DECL {
        assert ScopeNames(vs, k, PARAM) == ScopeNames(vs, i, PARAM);
        assert ScopeNames(vs, k, VAR_DECL) == ScopeNames(vs, i, VAR_DECL);
      }
    }
  }

  /** A variable declaration keeps `Accounts`. */
  lemma VarDeclStep(vs: seq<Visit>, i: int)
    requires 0 <= i < |vs| && vs[i].node.kind == VAR_DECL
    requires PassState(vs, i).Ok? && PassState(vs, i + 1).Ok? && Accounts(vs, i, PassState(vs, i).value)
    ensures Accounts(vs, i + 1, PassState(vs, i + 1).value)
  {
    var k := i + 1;
    var st := PassState(vs, i).value;
    var n := vs[i].node;
    ScopeNamesMeans(vs, i, VAR_DECL, NameOf(n));
    if LastMethod(vs, i) == -1 {
      FieldNamesBeforeMethods(vs, i);
    }
    assert Redeclared(vs, i) <==> NameOf(n) in ScopeNames(vs, i, VAR_DECL);
    assert NameOf(n) == n.attributes["name"];
    assert ScopeNames(vs, k, PARAM) == ScopeNames(vs, i, PARAM);
    assert ScopeNames(vs, k, VAR_DECL) == ScopeNames(vs, i, VAR_DECL) + {NameOf(n)};
    if st.params.Some? {
      var locals := st.locals.value;
      assert PassState(vs, k).value.locals == Some(locals + {NameOf(n)}) by {
        if NameOf(n) in locals {
          assert locals + {NameOf(n)} == locals;
        }
      }
    }
  }

  /** A parameter keeps `Accounts`. */
  lemma ParamStep(vs: seq<Visit>, i: int)
    requires 0 <= i < |vs| && vs[i].node.kind == PARAM
    requires PassState(vs, i).Ok? && PassState(vs, i + 1).Ok? && Accounts(vs, i, PassState(vs, i).value)
    ensures Accounts(vs, i + 1, PassState(vs, i + 1).value)
  {
    var k := i + 1;
    var st := PassState(vs, i).value;
    var n := vs[i].node;
    ScopeNamesMeans(vs, i, PARAM, NameOf(n));
    assert Redeclared(vs, i) <==> NameOf(n) in ScopeNames(vs, i, PARAM);
    assert ScopeNames(vs, k, PARAM) == ScopeNames(vs, i, PARAM) + {NameOf(n)};
    assert ScopeNames(vs, k, VAR_DECL) == ScopeNames(vs, i, VAR_DECL);
    var params := st.params.value;
    assert NameOf(n) == n.attributes["name"];
    if Redeclared(vs, i) {
      assert PassState(vs, k).value.reports == st.reports + [ReportAt(vs, i)];
      assert params + {NameOf(n)} == params;
    }
    assert PassState(vs, k).value.params == Some(params + {NameOf(n)});
  }

  /** The reports of a pass that did not throw are exactly one per redeclared declaration:
      the first declaration of a name in its category is never reported. */
  lemma PassReports(root: Node)
    requires var vs := PreorderIn(root, None); PassState(vs, |vs|).Ok?
    ensures var vs := PreorderIn(root, None); PassState(vs, |vs|).value.reports == ExpectedReports(vs, |vs|)
  {
    var vs := PreorderIn(root, None);
    PassMeaning(vs, |vs|);
  }
}
