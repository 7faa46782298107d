/** The symbol-table builder (`JmmSymbolTableBuilder.build`): reads the class declaration of a
    program tree into a `SymbolTable`, reporting a field, a parameter or a local declared twice in
    its scope while still keeping every declaration. How a type node becomes a `Type`
    (`TypeUtils.convertType`) is a parameter. */
module SymbolTableBuilder {
  import opened Wrappers
  import opened Strings
  import opened Reports
  import opened JmmAst
  import opened SymbolTables

  /** The three scopes a declaration can belong to; a parameter or a local belongs to a method. */
  datatype Scope = FieldScope | ParamScope(methodName: string) | LocalScope(methodName: string)

  /** The duplicate report of each scope. */
  function Message(scope: Scope, name: string): string {
    match scope
    case FieldScope => "Campo duplicado na SymbolTable: '" + name + "'"
    case ParamScope(m) => "Parâmetro duplicado em '" + m + "': '" + name + "'"
    case LocalScope(m) => "Variável local duplicada em '" + m + "': '" + name + "'"
  }

  /** The position of the first node whose kind is one of `kinds`, or -1 (`filter(...).findFirst()`). */
  function FirstOfKinds(ns: seq<Node>, kinds: set<string>): (r: int)
    ensures -1 <= r < |ns|
    ensures r >= 0 ==> ns[r].kind in kinds && forall j :: 0 <= j < r ==> ns[j].kind !in kinds
    ensures r == -1 ==> forall j :: 0 <= j < |ns| ==> ns[j].kind !in kinds
  {
    if ns == [] then -1
    else if ns[0].kind in kinds then 0
    else
      var k := FirstOfKinds(ns[1..], kinds);
      assert forall j :: 1 <= j < |ns| ==> ns[j] == ns[1..][j - 1];
      if k == -1 then -1 else k + 1
  }

  /** The class declaration among the root's children; `checkArgument` throws when there is none. */
  function FindClass(children: seq<Node>): (r: Result<Node>)
    ensures r.Err? <==> forall j :: 0 <= j < |children| ==> children[j].kind != CLASS_DECL
    ensures r.Err? ==> r.error == "IllegalArgumentException"
    ensures r.Ok? ==> r.value == children[FirstOfKinds(children, {CLASS_DECL})]
  {
    var i := FirstOfKinds(children, {CLASS_DECL});
    if i == -1 then Err("IllegalArgumentException") else Ok(children[i])
  }

  /** The return type of a method: its first `Var`, `VarArray` or `VarArgs` child converted, or a
      non-array `void` when it has none. */
  function ReturnTypeOf(methodDecl: Node, convert: Node -> Type): (t: Type)
    ensures (forall j :: 0 <= j < |methodDecl.children| ==> methodDecl.children[j].kind !in {"Var", "VarArray", "VarArgs"}) ==>
              t == Type("void", false)
  {
    var i := FirstOfKinds(methodDecl.children, {"Var", "VarArray", "VarArgs"});
    if i == -1 then Type("void", false) else convert(methodDecl.children[i])
  }

  /** The declarations a scope keeps among the first `k`, in order: a local declaration without
      children is skipped, nothing else is. */
  function Kept(decls: seq<Node>, scope: Scope, k: int): (r: seq<Node>)
    requires 0 <= k <= |decls|
    ensures !scope.LocalScope? ==> r == decls[..k]
    ensures |r| <= k
  {
    if k == 0 then []
    else
      assert decls[..k] == decls[..k - 1] + [decls[k - 1]];
      Kept(decls, scope, k - 1) + (if scope.LocalScope? && decls[k - 1].children == [] then [] else [decls[k - 1]])
  }

  /** Exactly the declarations with children are kept for locals. */
  lemma {:induction false} KeptMeans(decls: seq<Node>, scope: Scope, k: int, n: Node)
    requires 0 <= k <= |decls|
    ensures n in Kept(decls, scope, k) <==> n in decls[..k] && (scope.LocalScope? ==> n.children != [])
  {
    if k > 0 {
      KeptMeans(decls, scope, k - 1, n);
      assert decls[..k] == decls[..k - 1] + [decls[k - 1]];
    }
  }

  /** One declaration loop of `build` over the first `k` declarations: the symbols in order and
      the duplicate reports; reading a missing `name` or a missing type child throws. */
  function Declared(decls: seq<Node>, convert: Node -> Type, scope: Scope, k: int): Result<(seq<Symbol>, seq<Report>)>
    requires 0 <= k <= |decls|
  {
    if k == 0 then Ok(([], []))
    else
      var before :- Declared(decls, convert, scope, k - 1);
      DeclareOne(before, decls[k - 1], convert, scope)
  }

  /** One iteration of a declaration loop. */
  function DeclareOne(before: (seq<Symbol>, seq<Report>), d: Node, convert: Node -> Type, scope: Scope): Result<(seq<Symbol>, seq<Report>)> {
    if scope.LocalScope? && d.children == [] then Ok(before)
    else
      var name :- Get(d, "name");
      var typeNode :- Child(d, 0);
      var report := if name in Names(before.0) then [NewError(Semantic, d.line, d.column, Message(scope, name))] else [];
      Ok((before.0 + [Symbol(convert(typeNode), name)], before.1 + report))
  }

  function NameOf(n: Node): string {
    if "name" in n.attributes then n.attributes["name"] else ""
  }

  /** The names of declarations. */
  function NodeNames(ns: seq<Node>): set<string> {
    set i | 0 <= i < |ns| :: NameOf(ns[i])
  }

  /** The reports a scope deserves, stated over its kept declarations: one for each declaration
      whose name an earlier one already has, in order. */
  function DuplicateReports(kept: seq<Node>, scope: Scope): seq<Report> {
    if kept == [] then []
    else
      var before := kept[..|kept| - 1];
      var d := kept[|kept| - 1];
      DuplicateReports(before, scope) +
      (if NameOf(d) in NodeNames(before) then [NewError(Semantic, d.line, d.column, Message(scope, NameOf(d)))] else [])
  }

  lemma SymbolNamesAreNodeNames(syms: seq<Symbol>, kept: seq<Node>)
    requires |syms| == |kept| && forall i :: 0 <= i < |kept| ==> syms[i].name == NameOf(kept[i])
    ensures Names(syms) == NodeNames(kept)
  {
    forall x | x in NodeNames(kept) ensures x in Names(syms) {
      var i :| 0 <= i < |kept| && NameOf(kept[i]) == x;
      assert syms[i].name == x;
    }
  }

  /** A declaration loop that did not throw keeps one symbol per kept declaration, duplicates
      included, in order. */
  lemma {:induction false} DeclaredSymbols(decls: seq<Node>, convert: Node -> Type, scope: Scope, k: int)
    requires 0 <= k <= |decls| && Declared(decls, convert, scope, k).Ok?
    ensures var syms := Declared(decls, convert, scope, k).value.0;
            var kept := Kept(decls, scope, k);
            && |syms| == |kept|
            && (forall i :: 0 <= i < |kept| ==>
                  "name" in kept[i].attributes && kept[i].children != [] &&
                  syms[i] == Symbol(convert(kept[i].children[0]), kept[i].attributes["name"]))
  {
    if k > 0 {
      DeclaredSymbols(decls, convert, scope, k - 1);
    }
  }

  /** One more kept declaration is reported exactly when an earlier one has its name. */
  lemma DuplicateReportsSnoc(keptBefore: seq<Node>, d: Node, scope: Scope)
    ensures DuplicateReports(keptBefore + [d], scope) ==
            DuplicateReports(keptBefore, scope) +
            (if NameOf(d) in NodeNames(keptBefore) then [NewError(Semantic, d.line, d.column, Message(scope, NameOf(d)))] else [])
  {
    var kept := keptBefore + [d];
    assert kept[..|kept| - 1] == keptBefore;
  }

  /** The names a declaration loop has seen are the names of the declarations it kept. */
  lemma DeclaredNames(decls: seq<Node>, convert: Node -> Type, scope: Scope, k: int)
    requires 0 <= k <= |decls| && Declared(decls, convert, scope, k).Ok?
    ensures Names(Declared(decls, convert, scope, k).value.0) == NodeNames(Kept(decls, scope, k))
  {
    DeclaredSymbols(decls, convert, scope, k);
    var syms := Declared(decls, convert, scope, k).value.0;
    var kept := Kept(decls, scope, k);
    assert forall i :: 0 <= i < |kept| ==> syms[i].name == NameOf(kept[i]);
    SymbolNamesAreNodeNames(syms, kept);
  }

  /** A declaration loop that did not throw reports exactly the declarations whose name an
      earlier kept one has. */
  lemma {:induction false} DeclaredReports(decls: seq<Node>, convert: Node -> Type, scope: Scope, k: int)
    requires 0 <= k <= |decls| && Declared(decls, convert, scope, k).Ok?
    ensures Declared(decls, convert, scope, k).value.1 == DuplicateReports(Kept(decls, scope, k), scope)
  {
    if k > 0 {
      DeclaredReports(decls, convert, scope, k - 1);
      DeclaredNames(decls, convert, scope, k - 1);
      DeclaredReportsStep(decls, convert, scope, k);
    }
  }

  /** The induction step of `DeclaredReports`. */
  lemma DeclaredReportsStep(decls: seq<Node>, convert: Node -> Type, scope: Scope, k: int)
    requires 0 < k <= |decls| && Declared(decls, convert, scope, k - 1).Ok? && Declared(decls, convert, scope, k).Ok?
    requires Declared(decls, convert, scope, k - 1).value.1 == DuplicateReports(Kept(decls, scope, k - 1), scope)
    requires Names(Declared(decls, convert, scope, k - 1).value.0) == NodeNames(Kept(decls, scope, k - 1))
    ensures Declared(decls, convert, scope, k).value.1 == DuplicateReports(Kept(decls, scope, k), scope)
  {
    var before := Declared(decls, convert, scope, k - 1).value;
    var keptBefore := Kept(decls, scope, k - 1);
    var d := decls[k - 1];
    assert Declared(decls, convert, scope, k) == DeclareOne(before, d, convert, scope);
    if !(scope.LocalScope? && d.children == []) {
      assert Kept(decls, scope, k) == keptBefore + [d];
      DuplicateReportsSnoc(keptBefore, d, scope);
      var name := d.attributes["name"];
      assert NameOf(d) == name;
      var report := if name in NodeNames(keptBefore) then [NewError(Semantic, d.line, d.column, Message(scope, name))] else [];
      assert DeclareOne(before, d, convert, scope).value.1 == before.1 + report;
    } else {
      assert Kept(decls, scope, k) == keptBefore;
      assert DeclareOne(before, d, convert, scope) == Ok(before);
    }
  }

  /** The reports and the distinct names of a declaration loop together number the kept
      declarations. */
  lemma {:induction false} DeclaredCount(decls: seq<Node>, convert: Node -> Type, scope: Scope, k: int)
    requires 0 <= k <= |decls| && Declared(decls, convert, scope, k).Ok?
    ensures var r := Declared(decls, convert, scope, k).value;
            |r.1| + |Names(r.0)| == |Kept(decls, scope, k)|
  {
    if k > 0 {
      DeclaredCount(decls, convert, scope, k - 1);
      var before := Declared(decls, convert, scope, k - 1).value;
      var d := decls[k - 1];
      if !(scope.LocalScope? && d.children == []) {
        var name := d.attributes["name"];
        NamesAppend(before.0, Symbol(convert(d.children[0]), name));
        if name in Names(before.0) {
          assert Names(before.0) + {name} == Names(before.0);
        }
      }
    }
  }

  /** The method names in declaration order; a method without `name` throws. */
  function MethodNames(methodDecls: seq<Node>, k: int): (r: Result<seq<string>>)
    requires 0 <= k <= |methodDecls|
    ensures r.Ok? <==> forall i :: 0 <= i < k ==> "name" in methodDecls[i].attributes
    ensures r.Ok? ==> |r.value| == k && forall i :: 0 <= i < k ==> r.value[i] == methodDecls[i].attributes["name"]
  {
    if k == 0 then Ok([])
    else
      var before :- MethodNames(methodDecls, k - 1);
      var name :- Get(methodDecls[k - 1], "name");
      Ok(before + [name])
  }

  /** The return-type map after the first `k` methods, `put` one after the other. */
  function ReturnTypes(methodDecls: seq<Node>, names: seq<string>, convert: Node -> Type, k: int): map<string, Type>
    requires 0 <= k <= |methodDecls| == |names|
  {
    if k == 0 then map[]
    else ReturnTypes(methodDecls, names, convert, k - 1)[names[k - 1] := ReturnTypeOf(methodDecls[k - 1], convert)]
  }

  /** Every method name has a return type, and nothing else has. */
  lemma {:induction false} ReturnTypesKeys(methodDecls: seq<Node>, names: seq<string>, convert: Node -> Type, k: int)
    requires 0 <= k <= |methodDecls| == |names|
    ensures forall x :: x in ReturnTypes(methodDecls, names, convert, k) <==> exists i :: 0 <= i < k && names[i] == x
  {
    if k > 0 {
      ReturnTypesKeys(methodDecls, names, convert, k - 1);
    }
  }

  /** The last method of a name decides its return type. */
  lemma {:induction false} ReturnTypeOfLast(methodDecls: seq<Node>, names: seq<string>, convert: Node -> Type, k: int, i: int)
    requires 0 <= i < k <= |methodDecls| == |names|
    requires forall j :: i < j < k ==> names[j] != names[i]
    ensures names[i] in ReturnTypes(methodDecls, names, convert, k)
    ensures ReturnTypes(methodDecls, names, convert, k)[names[i]] == ReturnTypeOf(methodDecls[i], convert)
  {
    if i < k - 1 {
      ReturnTypeOfLast(methodDecls, names, convert, k - 1, i);
    }
  }

  /** One method's parameter (or local) loop. */
  function MethodDeclarations(methodDecl: Node, name: string, convert: Node -> Type, locals: bool): Result<(seq<Symbol>, seq<Report>)> {
    var decls := ChildrenOfKind(methodDecl.children, if locals then VAR_DECL else PARAM);
    Declared(decls, convert, if locals then LocalScope(name) else ParamScope(name), |decls|)
  }

  /** The parameter (or local) loop of every method, each with its own seen set. */
  function MethodResults(methodDecls: seq<Node>, names: seq<string>, convert: Node -> Type, locals: bool)
    : (r: seq<Result<(seq<Symbol>, seq<Report>)>>)
    requires |methodDecls| == |names|
    ensures |r| == |methodDecls|
    ensures forall i :: 0 <= i < |r| ==> r[i] == MethodDeclarations(methodDecls[i], names[i], convert, locals)
  {
    seq(|methodDecls|, i requires 0 <= i < |methodDecls| => MethodDeclarations(methodDecls[i], names[i], convert, locals))
  }

  /** The parameter (or local) map and reports after the first `k` methods: each method's
      declarations `put` under its name, the reports appended in method order. */
  function PerMethod(results: seq<Result<(seq<Symbol>, seq<Report>)>>, names: seq<string>, k: int)
    : (r: Result<(map<string, seq<Symbol>>, seq<Report>)>)
    requires 0 <= k <= |results| == |names|
  {
    if k == 0 then Ok((map[], []))
    else
      var before :- PerMethod(results, names, k - 1);
      var here :- results[k - 1];
      Ok((before.0[names[k - 1] := here.0], before.1 + here.1))
  }

  /** Every method name has an entry, and nothing else has. */
  lemma {:induction false} PerMethodKeys(results: seq<Result<(seq<Symbol>, seq<Report>)>>, names: seq<string>, k: int)
    requires 0 <= k <= |results| == |names| && PerMethod(results, names, k).Ok?
    ensures forall x :: x in PerMethod(results, names, k).value.0 <==> exists i :: 0 <= i < k && names[i] == x
  {
    if k > 0 {
      PerMethodKeys(results, names, k - 1);
    }
  }

  /** The last method of a name decides its entry; the loops of other methods never see its
      declarations. */
  lemma {:induction false} PerMethodLast(results: seq<Result<(seq<Symbol>, seq<Report>)>>, names: seq<string>, k: int, i: int)
    requires 0 <= i < k <= |results| == |names|
    requires forall j :: i < j < k ==> names[j] != names[i]
    requires PerMethod(results, names, k).Ok?
    ensures results[i].Ok? && names[i] in PerMethod(results, names, k).value.0
    ensures PerMethod(results, names, k).value.0[names[i]] == results[i].value.0
  {
    if i < k - 1 {
      PerMethodLast(results, names, k - 1, i);
    }
  }

  /** `sb.append(".").append(sub.get("ID"))` over the first `k` sub-nodes. */
  function JoinIds(prefix: string, subs: seq<Node>, k: int): (r: Result<string>)
    requires 0 <= k <= |subs|
    ensures r.Ok? <==> forall i :: 0 <= i < k ==> "ID" in subs[i].attributes
    ensures r.Err? ==> r.error == "NullPointerException"
  {
    if k == 0 then Ok(prefix)
    else
      var s :- JoinIds(prefix, subs, k - 1);
      var id :- Get(subs[k - 1], "ID");
      Ok(s + "." + id)
  }

  /** The name of one import statement: its `ID` and its sub-nodes' `ID`s, joined by `"."`; a
      missing `ID` throws `NullPointerException`. */
  function ImportName(imp: Node): (r: Result<string>)
    ensures r.Ok? <==> "ID" in imp.attributes && forall i :: 0 <= i < |imp.children| ==> "ID" in imp.children[i].attributes
    ensures r.Ok? ==> r.value == Join([imp.attributes["ID"]] + SubIds(imp.children, |imp.children|), ".")
    ensures r.Err? ==> r.error == "NullPointerException"
  {
    var id :- Get(imp, "ID");
    var r := JoinIds(id, imp.children, |imp.children|);
    if r.Ok? then
      JoinIdsIsJoin(id, imp.children, |imp.children|);
      r
    else r
  }

  /** The `ID`s of the first `k` sub-nodes. */
  function SubIds(subs: seq<Node>, k: int): (r: seq<string>)
    requires 0 <= k <= |subs| && forall i :: 0 <= i < |subs| ==> "ID" in subs[i].attributes
    ensures |r| == k && forall i :: 0 <= i < k ==> r[i] == subs[i].attributes["ID"]
  {
    if k == 0 then [] else SubIds(subs, k - 1) + [subs[k - 1].attributes["ID"]]
  }

  /** An import's name is its root `ID` followed by its sub-nodes' `ID`s, joined by `"."`. */
  lemma {:induction false} JoinIdsIsJoin(prefix: string, subs: seq<Node>, k: int)
    requires 0 <= k <= |subs| && forall i :: 0 <= i < |subs| ==> "ID" in subs[i].attributes
    ensures JoinIds(prefix, subs, k) == Ok(Join([prefix] + SubIds(subs, k), "."))
  {
    if k > 0 {
      JoinIdsIsJoin(prefix, subs, k - 1);
      var id := subs[k - 1].attributes["ID"];
      assert JoinIds(prefix, subs, k) == Ok(JoinIds(prefix, subs, k - 1).value + "." + id);
      var ids := [prefix] + SubIds(subs, k - 1);
      assert [prefix] + SubIds(subs, k) == ids + [id];
      JoinSnoc(ids, id, ".");
    }
  }

  /** The import names, in order, of the import statements among the first `k` children of the
      root. */
  function Imports(children: seq<Node>, k: int): (r: Result<seq<string>>)
    requires 0 <= k <= |children|
  {
    if k == 0 then Ok([])
    else
      var before :- Imports(children, k - 1);
      if children[k - 1].kind != IMPORT_STMT then Ok(before)
      else
        var name :- ImportName(children[k - 1]);
        Ok(before + [name])
  }

  /** One import name per import statement, in order. */
  lemma {:induction false} ImportsCount(children: seq<Node>, k: int)
    requires 0 <= k <= |children| && Imports(children, k).Ok?
    ensures |Imports(children, k).value| == |ChildrenOfKind(children[..k], IMPORT_STMT)|
    ensures forall i :: 0 <= i < |Imports(children, k).value| ==>
              ImportName(ChildrenOfKind(children[..k], IMPORT_STMT)[i]) == Ok(Imports(children, k).value[i])
  {
    if k > 0 {
      ImportsCount(children, k - 1);
      assert children[..k][..k - 1] == children[..k - 1];
    }
  }

  /** What `build` reads from inside the class declaration. */
  datatype Members = Members(
    fields: seq<Symbol>,
    methods: seq<string>,
    returnTypes: map<string, Type>,
    params: map<string, seq<Symbol>>,
    locals: map<string, seq<Symbol>>,
    reports: seq<Report>)

  /** Steps 2 to 6 of `build`: fields, method names, return types, parameters, locals. */
  function ClassMembers(classDecl: Node, convert: Node -> Type): Result<Members> {
    var fieldDecls := ChildrenOfKind(classDecl.children, VAR_DECL);
    var fields :- Declared(fieldDecls, convert, FieldScope, |fieldDecls|);
    var methodDecls := ChildrenOfKind(classDecl.children, METHOD_DECL);
    var methods :- MethodNames(methodDecls, |methodDecls|);
    var params :- PerMethod(MethodResults(methodDecls, methods, convert, false), methods, |methodDecls|);
    var locals :- PerMethod(MethodResults(methodDecls, methods, convert, true), methods, |methodDecls|);
    Ok(Members(fields.0, methods, ReturnTypes(methodDecls, methods, convert, |methodDecls|), params.0, locals.0,
               fields.1 + params.1 + locals.1))
  }

  /** `build`: the table and the reports, or the exception that stops it. A program without a
      class declaration stops it with `IllegalArgumentException`, a class without a name with
      `NullPointerException`; the reports are the duplicates found among the class members. */
  function BuildTable(root: Node, convert: Node -> Type): (r: Result<(SymbolTable, seq<Report>)>)
    ensures (forall j :: 0 <= j < |root.children| ==> root.children[j].kind != CLASS_DECL) ==>
            r == Err("IllegalArgumentException")
    ensures FindClass(root.children).Ok? && "name" !in FindClass(root.children).value.attributes ==>
            r == Err("NullPointerException")
    ensures r.Ok? ==>
              FindClass(root.children).Ok? && ClassMembers(FindClass(root.children).value, convert).Ok? &&
              r.value.1 == ClassMembers(FindClass(root.children).value, convert).value.reports
  {
    var classDecl :- FindClass(root.children);
    var className :- Get(classDecl, "name");
    var extendedClass := if "extendedClass" in classDecl.attributes then classDecl.attributes["extendedClass"] else "";
    var members :- ClassMembers(classDecl, convert);
    var imports :- Imports(root.children, |root.children|);
    Ok((SymbolTable(className, extendedClass, members.fields, members.methods, members.returnTypes,
                    members.params, members.locals, imports),
        members.reports))
  }

  /** The fields of a class: one per variable declaration of the class, in order, duplicates
      included. */
  lemma ClassFields(classDecl: Node, convert: Node -> Type)
    requires ClassMembers(classDecl, convert).Ok?
    ensures var members := ClassMembers(classDecl, convert).value;
            var fieldDecls := ChildrenOfKind(classDecl.children, VAR_DECL);
            && |members.fields| == |fieldDecls|
            && (forall i :: 0 <= i < |fieldDecls| ==> members.fields[i].name == NameOf(fieldDecls[i]))
  {
    var fieldDecls := ChildrenOfKind(classDecl.children, VAR_DECL);
    DeclaredSymbols(fieldDecls, convert, FieldScope, |fieldDecls|);
    assert fieldDecls[..|fieldDecls|] == fieldDecls;
  }

  /** The methods of a class in declaration order, and a return type, parameters and locals for
      every method name and no other. */
  lemma ClassMethods(classDecl: Node, convert: Node -> Type)
    requires ClassMembers(classDecl, convert).Ok?
    ensures var members := ClassMembers(classDecl, convert).value;
            var methodDecls := ChildrenOfKind(classDecl.children, METHOD_DECL);
            && |members.methods| == |methodDecls|
            && (forall i :: 0 <= i < |methodDecls| ==> members.methods[i] == NameOf(methodDecls[i]))
            && (forall m :: m in members.returnTypes <==> m in members.methods)
            && (forall m :: m in members.params <==> m in members.methods)
            && (forall m :: m in members.locals <==> m in members.methods)
  {
    var methodDecls := ChildrenOfKind(classDecl.children, METHOD_DECL);
    var methods := MethodNames(methodDecls, |methodDecls|).value;
    ReturnTypesKeys(methodDecls, methods, convert, |methodDecls|);
    PerMethodKeys(MethodResults(methodDecls, methods, convert, false), methods, |methodDecls|);
    PerMethodKeys(MethodResults(methodDecls, methods, convert, true), methods, |methodDecls|);
    forall m ensures m in methods <==> exists i :: 0 <= i < |methods| && methods[i] == m {
    }
  }

  /** What a successful build holds besides the members: the class comes from the first class
      declaration among the root's children, an absent `extendedClass` gives an empty super
      class, and the imports are the names of the import statements in order. */
  lemma BuildMeaning(root: Node, convert: Node -> Type)
    requires BuildTable(root, convert).Ok?
    ensures var classDecl := FindClass(root.children).value;
            var table := BuildTable(root, convert).value.0;
            var imports := ChildrenOfKind(root.children, IMPORT_STMT);
            && classDecl.kind == CLASS_DECL
            && (forall j :: 0 <= j < FirstOfKinds(root.children, {CLASS_DECL}) ==> root.children[j].kind != CLASS_DECL)
            && table.className == classDecl.attributes["name"]
            && ("extendedClass" !in classDecl.attributes ==> table.superClass == "")
            && ClassMembers(classDecl, convert).Ok?
            && |table.imports| == |imports|
            && (forall i :: 0 <= i < |table.imports| ==> ImportName(imports[i]) == Ok(table.imports[i]))
  {
    assert root.children[..|root.children|] == root.children;
    ImportsCount(root.children, |root.children|);
  }

  /** The builder of the source, with the report list `getReports` returns. */
  class JmmSymbolTableBuilder {
    var reports: seq<Report>

    constructor()
      ensures reports == []
    {
      reports := [];
    }

    /** `build`. The reports are stated for a build that does not throw. */
    method Build(root: Node, convert: Node -> Type) returns (r: Result<SymbolTable>)
      modifies this`reports
      ensures match BuildTable(root, convert)
              case Ok(v) => r == Ok(v.0) && reports == v.1
              case Err(e) => r == Err(e)
    {
      reports := [];
      var classDecl :- FindClass(root.children);
      var className :- Get(classDecl, "name");
      var extendedClass := if "extendedClass" in classDecl.attributes then classDecl.attributes["extendedClass"] else "";
      var members :- CollectMembers(classDecl, convert);
      reports := members.reports;
      var imports :- CollectImports(root.children);
      return Ok(SymbolTable(className, extendedClass, members.fields, members.methods, members.returnTypes,
                            members.params, members.locals, imports));
    }
  }

  method CollectMembers(classDecl: Node, convert: Node -> Type) returns (r: Result<Members>)
    ensures r == ClassMembers(classDecl, convert)
  {
    var fieldDecls := ChildrenOfKind(classDecl.children, VAR_DECL);
    var fields :- CollectDeclarations(fieldDecls, convert, FieldScope);
    var methodDecls := ChildrenOfKind(classDecl.children, METHOD_DECL);
    var methods :- ListMethods(methodDecls);
    var returnTypes := CollectReturnTypes(methodDecls, methods, convert);
    var params :- CollectPerMethod(methodDecls, methods, convert, false, MethodResults(methodDecls, methods, convert, false));
    var locals :- CollectPerMethod(methodDecls, methods, convert, true, MethodResults(methodDecls, methods, convert, true));
    return Ok(Members(fields.0, methods, returnTypes, params.0, locals.0, fields.1 + params.1 + locals.1));
  }

  /** One declaration loop, with its `seen` set. */
  method CollectDeclarations(decls: seq<Node>, convert: Node -> Type, scope: Scope) returns (r: Result<(seq<Symbol>, seq<Report>)>)
    ensures r == Declared(decls, convert, scope, |decls|)
  {
    var symbols: seq<Symbol> := [];
    var reports: seq<Report> := [];
    var seen: set<string> := {};
    for i := 0 to |decls|
      invariant Declared(decls, convert, scope, i) == Ok((symbols, reports))
      invariant seen == Names(symbols)
    {
      var next := Declare(symbols, reports, seen, decls[i], convert, scope);
      if next.Err? {
        r := Err(next.error);
        DeclaredStaysFailed(decls, convert, scope, i + 1);
        return;
      }
      symbols, reports := next.value.0, next.value.1;
      seen := Names(symbols);
    }
    return Ok((symbols, reports));
  }

  /** The body of a declaration loop, given the `seen` set of the names kept so far. */
  method Declare(symbols: seq<Symbol>, reports: seq<Report>, seen: set<string>, d: Node, convert: Node -> Type, scope: Scope)
    returns (r: Result<(seq<Symbol>, seq<Report>)>)
    requires seen == Names(symbols)
    ensures r == DeclareOne((symbols, reports), d, convert, scope)
  {
    if scope.LocalScope? && d.children == [] {
      return Ok((symbols, reports));
    }
    var name :- Get(d, "name");
    var typeNode :- Child(d, 0);
    var newReports := reports;
    if name in seen {
      newReports := reports + [NewError(Semantic, d.line, d.column, Message(scope, name))];
    } else {
      assert reports + [] == reports;
    }
    return Ok((symbols + [Symbol(convert(typeNode), name)], newReports));
  }

  lemma {:induction false} DeclaredStaysFailed(decls: seq<Node>, convert: Node -> Type, scope: Scope, k: int)
    requires 0 <= k <= |decls| && Declared(decls, convert, scope, k).Err?
    ensures Declared(decls, convert, scope, |decls|) == Declared(decls, convert, scope, k)
    decreases |decls| - k
  {
    if k < |decls| {
      DeclaredStaysFailed(decls, convert, scope, k + 1);
    }
  }

  method ListMethods(methodDecls: seq<Node>) returns (r: Result<seq<string>>)
    ensures r == MethodNames(methodDecls, |methodDecls|)
  {
    var methods: seq<string> := [];
    for i := 0 to |methodDecls|
      invariant MethodNames(methodDecls, i) == Ok(methods)
    {
      var name := Get(methodDecls[i], "name");
      if name.Err? {
        r := Err(name.error);
        assert MethodNames(methodDecls, i + 1) == r;
        MethodNamesStaysFailed(methodDecls, i + 1);
        return;
      }
      methods := methods + [name.value];
    }
    return Ok(methods);
  }

  lemma {:induction false} MethodNamesStaysFailed(methodDecls: seq<Node>, k: int)
    requires 0 <= k <= |methodDecls| && MethodNames(methodDecls, k).Err?
    ensures MethodNames(methodDecls, |methodDecls|) == MethodNames(methodDecls, k)
    decreases |methodDecls| - k
  {
    if k < |methodDecls| {
      MethodNamesStaysFailed(methodDecls, k + 1);
    }
  }

  method CollectReturnTypes(methodDecls: seq<Node>, names: seq<string>, convert: Node -> Type) returns (returnTypes: map<string, Type>)
    requires |methodDecls| == |names|
    ensures returnTypes == ReturnTypes(methodDecls, names, convert, |methodDecls|)
  {
    returnTypes := map[];
    for i := 0 to |methodDecls|
      invariant returnTypes == ReturnTypes(methodDecls, names, convert, i)
    {
      var i0 := FirstOfKinds(methodDecls[i].children, {"Var", "VarArray", "VarArgs"});
      var rt := if i0 == -1 then Type("void", false) else convert(methodDecls[i].children[i0]);
      returnTypes := returnTypes[names[i] := rt];
    }
  }

  method CollectPerMethod(methodDecls: seq<Node>, names: seq<string>, convert: Node -> Type, locals: bool,
                          ghost results: seq<Result<(seq<Symbol>, seq<Report>)>>)
    returns (r: Result<(map<string, seq<Symbol>>, seq<Report>)>)
    requires |methodDecls| == |names| == |results|
    requires forall i :: 0 <= i < |results| ==> results[i] == MethodDeclarations(methodDecls[i], names[i], convert, locals)
    ensures r == PerMethod(results, names, |results|)
  {
    var table: map<string, seq<Symbol>> := map[];
    var reports: seq<Report> := [];
    for i := 0 to |methodDecls|
      invariant PerMethod(results, names, i) == Ok((table, reports))
    {
      var step := AddMethod(methodDecls[i], names[i], convert, locals, results, names, i, table, reports);
      if step.Err? {
        r := step;
        PerMethodStaysFailed(results, names, i + 1);
        return;
      }
      table, reports := step.value.0, step.value.1;
    }
    return Ok((table, reports));
  }

  /** One iteration of the loop over the methods: run the method's own loop and `put` its
      declarations under its name. */
  method AddMethod(methodDecl: Node, name: string, convert: Node -> Type, locals: bool,
                   ghost results: seq<Result<(seq<Symbol>, seq<Report>)>>, ghost names: seq<string>, ghost i: int,
                   table: map<string, seq<Symbol>>, reports: seq<Report>)
    returns (r: Result<(map<string, seq<Symbol>>, seq<Report>)>)
    requires 0 <= i < |results| == |names| && names[i] == name
    requires results[i] == MethodDeclarations(methodDecl, name, convert, locals)
    requires PerMethod(results, names, i) == Ok((table, reports))
    ensures r == PerMethod(results, names, i + 1)
  {
    var here := CollectMethod(methodDecl, name, convert, locals);
    if here.Err? {
      return Err(here.error);
    }
    return Ok((table[name := here.value.0], reports + here.value.1));
  }

  /** The parameter (or local) loop of one method. */
  method CollectMethod(methodDecl: Node, name: string, convert: Node -> Type, locals: bool) returns (r: Result<(seq<Symbol>, seq<Report>)>)
    ensures r == MethodDeclarations(methodDecl, name, convert, locals)
  {
    var decls := ChildrenOfKind(methodDecl.children, if locals then VAR_DECL else PARAM);
    r := CollectDeclarations(decls, convert, if locals then LocalScope(name) else ParamScope(name));
  }

  lemma {:induction false} PerMethodStaysFailed(results: seq<Result<(seq<Symbol>, seq<Report>)>>, names: seq<string>, k: int)
    requires 0 <= k <= |results| == |names| && PerMethod(results, names, k).Err?
    ensures PerMethod(results, names, |results|) == PerMethod(results, names, k)
    decreases |results| - k
  {
    if k < |results| {
      PerMethodStaysFailed(results, names, k + 1);
    }
  }

  method CollectImports(children: seq<Node>) returns (r: Result<seq<string>>)
    ensures r == Imports(children, |children|)
  {
    var imports: seq<string> := [];
    for i := 0 to |children|
      invariant Imports(children, i) == Ok(imports)
    {
      var imp := children[i];
      if imp.kind == IMPORT_STMT {
        var name := BuildImportName(imp);
        if name.Err? {
          r := Err(name.error);
          assert Imports(children, i + 1) == r;
          ImportsStaysFailed(children, i + 1);
          return;
        }
        imports := imports + [name.value];
      }
    }
    return Ok(imports);
  }

  /** The `StringBuilder` loop of one import. */
  method BuildImportName(imp: Node) returns (r: Result<string>)
    ensures r == ImportName(imp)
  {
    var sb :- Get(imp, "ID");
    for j := 0 to |imp.children|
      invariant JoinIds(imp.attributes["ID"], imp.children, j) == Ok(sb)
    {
      var id := Get(imp.children[j], "ID");
      if id.Err? {
        r := Err(id.error);
        assert JoinIds(imp.attributes["ID"], imp.children, j + 1) == r;
        JoinIdsStaysFailed(imp.attributes["ID"], imp.children, j + 1);
        return;
      }
      sb := sb + "." + id.value;
    }
    return Ok(sb);
  }

  lemma {:induction false} ImportsStaysFailed(children: seq<Node>, k: int)
    requires 0 <= k <= |children| && Imports(children, k).Err?
    ensures Imports(children, |children|) == Imports(children, k)
    decreases |children| - k
  {
    if k < |children| {
      ImportsStaysFailed(children, k + 1);
    }
  }

  lemma {:induction false} JoinIdsStaysFailed(prefix: string, subs: seq<Node>, k: int)
    requires 0 <= k <= |subs| && JoinIds(prefix, subs, k).Err?
    ensures JoinIds(prefix, subs, |subs|) == JoinIds(prefix, subs, k)
    decreases |subs| - k
  {
    if k < |subs| {
      JoinIdsStaysFailed(prefix, subs, k + 1);
    }
  }
}
