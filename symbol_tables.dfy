/** The symbol table the semantic passes consult (`JmmSymbolTable`): the class, its fields,
    its methods in declaration order, and per method the return type, the parameters and the
    local variables. A lookup for a method the table does not know answers `null`, here
    `None`. */
module SymbolTables {
  import opened Wrappers

  datatype Type = Type(name: string, isArray: bool)

  datatype Symbol = Symbol(symbolType: Type, name: string)

  datatype SymbolTable = SymbolTable(
    className: string,
    superClass: string,
    fields: seq<Symbol>,
    methods: seq<string>,
    returnTypes: map<string, Type>,
    params: map<string, seq<Symbol>>,
    locals: map<string, seq<Symbol>>,
    imports: seq<string>)
  {
    /** `getParameters(method)`. */
    function Parameters(m: string): (r: Option<seq<Symbol>>)
      ensures r.Some? <==> m in params
      ensures r.Some? ==> r.value == params[m]
    {
      if m in params then Some(params[m]) else None
    }

    /** `getLocalVariables(method)`. */
    function LocalVariables(m: string): (r: Option<seq<Symbol>>)
      ensures r.Some? <==> m in locals
      ensures r.Some? ==> r.value == locals[m]
    {
      if m in locals then Some(locals[m]) else None
    }

    /** `getReturnType(method)`. */
    function ReturnType(m: string): (r: Option<Type>)
      ensures r.Some? <==> m in returnTypes
      ensures r.Some? ==> r.value == returnTypes[m]
    {
      if m in returnTypes then Some(returnTypes[m]) else None
    }
  }

  /** Whether some symbol in `syms` has that name (`stream().anyMatch(s -> s.getName().equals(n))`). */
  predicate Declares(syms: seq<Symbol>, n: string) {
    exists i :: 0 <= i < |syms| && syms[i].name == n
  }

  /** The position of the first symbol in `syms` with that name, or -1. */
  function FirstIndex(syms: seq<Symbol>, n: string): (r: int)
    ensures -1 <= r < |syms|
    ensures r == -1 <==> !Declares(syms, n)
    ensures r >= 0 ==> syms[r].name == n && forall j :: 0 <= j < r ==> syms[j].name != n
  {
    if syms == [] then -1
    else if syms[0].name == n then 0
    else
      var k := FirstIndex(syms[1..], n);
      assert forall j :: 1 <= j < |syms| ==> syms[j] == syms[1..][j - 1];
      if k == -1 then -1 else k + 1
  }

  /** The type of the first symbol in `syms` with that name (the loops of `inferType`). */
  function FirstTypeOf(syms: seq<Symbol>, n: string): (r: Option<Type>)
    ensures r.Some? <==> Declares(syms, n)
  {
    var k := FirstIndex(syms, n);
    if k == -1 then None else Some(syms[k].symbolType)
  }

  /** Searching two lists one after the other finds what searching them joined finds. */
  lemma {:induction false} FirstTypeOfAppend(a: seq<Symbol>, b: seq<Symbol>, n: string)
    ensures FirstTypeOf(a + b, n) == if Declares(a, n) then FirstTypeOf(a, n) else FirstTypeOf(b, n)
  {
    if a == [] {
      assert a + b == b;
    } else {
      assert (a + b)[1..] == a[1..] + b;
      FirstTypeOfAppend(a[1..], b, n);
      if a[0].name != n {
        assert Declares(a, n) <==> Declares(a[1..], n) by {
          if Declares(a, n) {
            var i :| 0 <= i < |a| && a[i].name == n;
            assert a[1..][i - 1] == a[i];
          }
          if Declares(a[1..], n) {
            var i :| 0 <= i < |a[1..]| && a[1..][i].name == n;
            assert a[i + 1] == a[1..][i];
          }
        }
        FirstTypeOfTail(a + b, n);
        FirstTypeOfTail(a, n);
      }
    }
  }

  lemma FirstTypeOfTail(syms: seq<Symbol>, n: string)
    requires syms != [] && syms[0].name != n
    ensures FirstTypeOf(syms, n) == FirstTypeOf(syms[1..], n)
  {
  }

  /** The names the symbols carry. */
  function Names(syms: seq<Symbol>): set<string> {
    set i | 0 <= i < |syms| :: syms[i].name
  }

  lemma NamesMeansDeclares(syms: seq<Symbol>, n: string)
    ensures n in Names(syms) <==> Declares(syms, n)
  {
  }

  lemma NamesAppend(syms: seq<Symbol>, s: Symbol)
    ensures Names(syms + [s]) == Names(syms) + {s.name}
  {
    var both := syms + [s];
    forall x | x in Names(both) ensures x in Names(syms) + {s.name} {
      var i :| 0 <= i < |both| && both[i].name == x;
      if i < |syms| {
        assert syms[i] == both[i];
      }
    }
    forall x | x in Names(syms) ensures x in Names(both) {
      var i :| 0 <= i < |syms| && syms[i].name == x;
      assert both[i] == syms[i];
    }
    assert both[|syms|] == s;
  }
}
