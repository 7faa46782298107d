/** The naming helpers of the OLLIR generator (`OptUtils`): numbered temporaries per prefix,
    numbered labels, and the OLLIR suffix of a Java type. */
module OptUtils {
  import opened Wrappers
  import opened Strings
  import Int32
  import opened SymbolTables

  /** Temporary number `n` of a prefix: the prefix followed by the number in decimal, from which
      a number of 0 or more reads back. */
  function TempName(prefix: string, n: int): (r: string)
    ensures |r| > |prefix| && r[..|prefix|] == prefix
    ensures n >= 0 ==> AllDigits(r[|prefix|..]) && DigitsValue(r[|prefix|..]) == n
  {
    var name := prefix + IntToString(n);
    assert name[..|prefix|] == prefix && name[|prefix|..] == IntToString(n);
    if n >= 0 then
      DigitsValueOfNatToString(n);
      name
    else name
  }

  const LABEL_PREFIX: string := "label_"

  /** `"label_" + n`: the prefix followed by the number in decimal, from which a number of 0 or
      more reads back. */
  function LabelName(n: int): (r: string)
    ensures |r| > |LABEL_PREFIX| && r[..|LABEL_PREFIX|] == LABEL_PREFIX
    ensures n >= 0 ==> AllDigits(r[|LABEL_PREFIX|..]) && DigitsValue(r[|LABEL_PREFIX|..]) == n
  {
    TempName(LABEL_PREFIX, n)
  }

  /** How often the accumulator map has counted `prefix` (absent keys count zero). */
  function Count(temporaries: map<string, int>, prefix: string): int {
    if prefix in temporaries then temporaries[prefix] else 0
  }

  /** The names handed out for a prefix after `n` requests. */
  function Issued(prefix: string, n: int): set<string> {
    set i | 0 <= i < n :: TempName(prefix, i)
  }

  /** The labels handed out after `n` requests. */
  function IssuedLabels(n: int): set<string> {
    set i | 1 <= i <= n :: LabelName(i)
  }

  lemma {:induction false} NatToStringInjective(a: nat, b: nat)
    requires NatToString(a) == NatToString(b)
    ensures a == b
  {
    DigitsValueOfNatToString(a);
    DigitsValueOfNatToString(b);
  }

  /** Appending different numbers to one prefix gives different names. */
  lemma NumberedInjective(prefix: string, a: nat, b: nat)
    requires prefix + IntToString(a) == prefix + IntToString(b)
    ensures a == b
  {
    assert (prefix + IntToString(a))[|prefix|..] == IntToString(a);
    assert (prefix + IntToString(b))[|prefix|..] == IntToString(b);
    NatToStringInjective(a, b);
  }

  /** The next temporary of a prefix is none of those it was handed out before. */
  lemma TempIsNew(prefix: string, n: int)
    requires n >= 0
    ensures TempName(prefix, n) !in Issued(prefix, n)
    ensures Issued(prefix, n + 1) == Issued(prefix, n) + {TempName(prefix, n)}
  {

  }

  /** The next label is none of those handed out before. */
  lemma LabelIsNew(n: int)
    requires n >= 0
    ensures LabelName(n + 1) !in IssuedLabels(n)
    ensures IssuedLabels(n + 1) == IssuedLabels(n) + {LabelName(n + 1)}
  {
  }

  /** Temporaries of different prefixes are numbered independently, so their names can meet:
      the eleventh temporary of `a` is the first of `a1`. */
  lemma PrefixesCanCollide()
    ensures TempName("a", 10) == TempName("a1", 0)
  {
    assert IntToString(10) == "10";
  }

  class OptUtils {
    /** The `AccumulatorMap` of temporaries: how many have been requested per prefix. */
    var temporaries: map<string, int>
    var labelCounter: int

    ghost predicate Valid()
      reads this
    {
      0 <= labelCounter && forall p :: p in temporaries ==> 0 <= temporaries[p]
    }

    constructor()
      ensures temporaries == map[] && labelCounter == 0
      ensures Valid()
    {
      temporaries := map[];
      labelCounter := 0;
    }

    /** `nextTemp(prefix)`: counts the prefix once more (the accumulator map counts from one and
        returns the new count, as a Java `int`) and names the temporary by the count minus one,
        so a prefix yields `p0`, `p1`, `p2` and so on. */
    method NextTemp(prefix: string) returns (name: string)
      requires Int32.IsInt32(Count(temporaries, prefix))
      modifies this
      ensures temporaries == old(temporaries)[prefix := Int32.Wrap(Count(old(temporaries), prefix) + 1)]
      ensures labelCounter == old(labelCounter)
      ensures name == TempName(prefix, Count(old(temporaries), prefix))
      ensures Int32.IsInt32(Count(temporaries, prefix))
    {
      var count := Count(temporaries, prefix);
      Int32.WrapIncDec(count);
      var added := Int32.Wrap(count + 1);
      var nextTempNum := Int32.Wrap(added - 1);
      assert nextTempNum == count;
      temporaries := temporaries[prefix := added];
      assert Count(temporaries, prefix) == added;
      name := prefix + IntToString(nextTempNum);
    }

    /** `nextTemp()`: a temporary of prefix `tmp`. */
    method NextDefaultTemp() returns (name: string)
      requires Int32.IsInt32(Count(temporaries, "tmp"))
      modifies this
      ensures temporaries == old(temporaries)["tmp" := Int32.Wrap(Count(old(temporaries), "tmp") + 1)]
      ensures labelCounter == old(labelCounter)
      ensures name == TempName("tmp", Count(old(temporaries), "tmp"))
    {
      name := NextTemp("tmp");
    }

    /** `nextLabel`: counts once more (a Java `int`) and names the label by the new count. */
    method NextLabel() returns (labelName: string)
      requires Int32.IsInt32(labelCounter)
      modifies this
      ensures labelCounter == Int32.Wrap(old(labelCounter) + 1)
      ensures temporaries == old(temporaries)
      ensures labelName == LabelName(labelCounter)
    {
      labelCounter := Int32.Wrap(labelCounter + 1);
      labelName := "label_" + IntToString(labelCounter);
    }

    /** Below the `int` limit a temporary is new among those of its prefix, and the table stays
        well formed. */
    method NextFreshTemp(prefix: string) returns (name: string)
      requires Valid() && Count(temporaries, prefix) < Int32.MAX
      modifies this
      ensures Valid()
      ensures Count(temporaries, prefix) == Count(old(temporaries), prefix) + 1
      ensures name !in Issued(prefix, Count(old(temporaries), prefix))
      ensures Issued(prefix, Count(temporaries, prefix)) == Issued(prefix, Count(old(temporaries), prefix)) + {name}
      ensures forall q :: q != prefix ==> Count(temporaries, q) == Count(old(temporaries), q)
    {
      name := NextTemp(prefix);
      TempIsNew(prefix, Count(old(temporaries), prefix));
    }

    /** Below the `int` limit a label is new. */
    method NextFreshLabel() returns (labelName: string)
      requires Valid() && labelCounter < Int32.MAX
      modifies this
      ensures Valid() && labelCounter == old(labelCounter) + 1
      ensures labelName !in IssuedLabels(old(labelCounter))
      ensures IssuedLabels(labelCounter) == IssuedLabels(old(labelCounter)) + {labelName}
    {
      labelName := NextLabel();
      LabelIsNew(old(labelCounter));
    }
  }

  /** A fresh helper hands out `p0`, `p1`, ..., `p(n-1)` for `n` requests of one prefix, all
      different. */
  method FirstTemps(prefix: string, n: nat) returns (names: seq<string>)
    requires n <= Int32.MAX
    ensures |names| == n
    ensures forall i :: 0 <= i < n ==> names[i] == TempName(prefix, i)
    ensures forall i, j :: 0 <= i < j < n ==> names[i] != names[j]
  {
    var utils := new OptUtils();
    names := [];
    for k := 0 to n
      invariant utils.Valid() && Count(utils.temporaries, prefix) == k
      invariant |names| == k
      invariant forall i :: 0 <= i < k ==> names[i] == TempName(prefix, i)
    {
      var name := utils.NextFreshTemp(prefix);
      names := names + [name];
    }
    forall i, j | 0 <= i < j < n ensures names[i] != names[j] {
      if names[i] == names[j] {
        NumberedInjective(prefix, i, j);
      }
    }
  }

  /** The OLLIR suffix of a type name (`toOllirType(String)`); any other name throws. */
  function OllirTypeOfName(typeName: string): (r: Result<string>)
    ensures r.Ok? <==> typeName in {"int", "boolean", "String", "void", "double", "float"}
    ensures r.Ok? ==> |r.value| >= 2 && r.value[0] == '.'
    ensures r.Err? ==> r.error == "NotImplementedException: " + typeName
  {
    if typeName == "int" then Ok(".i32")
    else if typeName == "boolean" then Ok(".bool")
    else if typeName == "String" then Ok(".String")
    else if typeName == "void" then Ok(".V")
    else if typeName == "double" then Ok(".f64")
    else if typeName == "float" then Ok(".f32")
    else Err("NotImplementedException: " + typeName)
  }

  /** `toOllirType(Type)`: by the type's name alone. */
  function ToOllirType(t: Type): (r: Result<string>)
    ensures r.Ok? <==> t.name in {"int", "boolean", "String", "void", "double", "float"}
  {
    OllirTypeOfName(t.name)
  }

  /** The Java type name an OLLIR suffix stands for: the table read backwards. */
  function TypeNameOfSuffix(suffix: string): Option<string> {
    if suffix == ".i32" then Some("int")
    else if suffix == ".bool" then Some("boolean")
    else if suffix == ".String" then Some("String")
    else if suffix == ".V" then Some("void")
    else if suffix == ".f64" then Some("double")
    else if suffix == ".f32" then Some("float")
    else None
  }

  /** The suffix table: `int` is `.i32`, `boolean` `.bool`, `String` `.String`, `void` `.V`,
      `double` `.f64` and `float` `.f32`; each suffix names its type back, so no two types
      share one. */
  lemma OllirTypeTable(typeName: string)
    ensures OllirTypeOfName("int") == Ok(".i32") && OllirTypeOfName("boolean") == Ok(".bool")
    ensures OllirTypeOfName("String") == Ok(".String") && OllirTypeOfName("void") == Ok(".V")
    ensures OllirTypeOfName("double") == Ok(".f64") && OllirTypeOfName("float") == Ok(".f32")
    ensures OllirTypeOfName(typeName).Ok? ==> TypeNameOfSuffix(OllirTypeOfName(typeName).value) == Some(typeName)
  {
  }

  /** An array type gets the suffix of its element name: the flag is not looked at. */
  lemma ArrayFlagIgnored(t: Type)
    ensures ToOllirType(Type(t.name, true)) == ToOllirType(Type(t.name, false))
  {
  }
}
