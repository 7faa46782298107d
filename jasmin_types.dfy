/** Type codes in the emitted Jasmin text. The code written for an OLLIR type is its field
    descriptor (section 4.3.2 of the Java Virtual Machine Specification, Java SE) or `V` for
    `void`, and a method descriptor is `(` + the parameter codes + `)` + the return code
    (section 4.3.3). A descriptor parser that follows the grammar of those sections reads every
    descriptor the emitter writes back into the types it was written from. */
module JasminTypes {
  import opened Wrappers
  import opened Ir
  import opened Strings

  /** The class that the OLLIR type `String` stands for. */
  const STRING_CLASS: string := "java/lang/String"

  /** `getJasminType`: `I`, `Z`, `V`, `Ljava/lang/String;`, `L<name>;` or `[` before the element code. */
  function JasminType(t: Type): (code: string)
    ensures |code| >= 1
    ensures code[0] in {'I', 'Z', 'V', 'L', '['}
    ensures (code == "I" || code == "Z") <==> (t == IntType || t == BoolType)
    ensures code == "V" <==> t == VoidType
  {
    match t
    case IntType => "I"
    case BoolType => "Z"
    case VoidType => "V"
    case StringType => "L" + STRING_CLASS + ";"
    case ClassType(name) => "L" + name + ";"
    case ArrayType(elem) => "[" + JasminType(elem)
  }

  /** Types that have a field descriptor from which they can be told apart: not `void`, and a
      class name that holds no `;` and is not the name `String` already stands for. */
  predicate IsFieldType(t: Type) {
    match t
    case VoidType => false
    case ClassType(name) => ';' !in name && name != STRING_CLASS
    case ArrayType(elem) => IsFieldType(elem)
    case _ => true
  }

  predicate IsReturnType(t: Type) {
    t == VoidType || IsFieldType(t)
  }

  /** The codes of several types, one after the other. */
  function TypeCodes(ts: seq<Type>): string {
    if ts == [] then "" else JasminType(ts[0]) + TypeCodes(ts[1..])
  }

  /** A method descriptor: the parameter codes in parentheses, then the return code. */
  function MethodDescriptor(params: seq<Type>, ret: Type): (d: string)
    ensures var n := |TypeCodes(params)|;
      |d| == n + 2 + |JasminType(ret)| && d[0] == '(' && d[1..n + 1] == TypeCodes(params) &&
      d[n + 1] == ')' && d[n + 2..] == JasminType(ret)
  {
    "(" + TypeCodes(params) + ")" + JasminType(ret)
  }

  /** Reads the field descriptor at the start of `s`, giving its type and the text after it. */
  function ParseFieldType(s: string): (r: Option<(Type, string)>)
    ensures r.Some? ==> |r.value.1| < |s|
    decreases |s|
  {
    if s == [] then None
    else if s[0] == 'I' then Some((IntType, s[1..]))
    else if s[0] == 'Z' then Some((BoolType, s[1..]))
    else if s[0] == 'L' then
      var k := IndexOf(s[1..], ';');
      if k < 0 then None
      else
        var name := s[1..k + 1];
        Some((if name == STRING_CLASS then StringType else ClassType(name), s[k + 2..]))
    else if s[0] == '[' then
      match ParseFieldType(s[1..])
      case None => None
      case Some((elem, rest)) => Some((ArrayType(elem), rest))
    else None
  }

  /** Reads field descriptors up to the closing `)`, giving their types and the text after it. */
  function ParseParameters(s: string): (r: Option<(seq<Type>, string)>)
    decreases |s|
  {
    if s == [] then None
    else if s[0] == ')' then Some(([], s[1..]))
    else
      match ParseFieldType(s)
      case None => None
      case Some((t, rest)) =>
        match ParseParameters(rest)
        case None => None
        case Some((ts, after)) => Some(([t] + ts, after))
  }

  /** Reads a whole method descriptor. */
  function ParseMethodDescriptor(s: string): (r: Option<(seq<Type>, Type)>) {
    if s == [] || s[0] != '(' then None
    else
      match ParseParameters(s[1..])
      case None => None
      case Some((params, rest)) =>
        if rest == "V" then Some((params, VoidType))
        else
          match ParseFieldType(rest)
          case Some((ret, "")) => Some((params, ret))
          case _ => None
  }

  /** A class code `L<name>;` is read back as the class, whatever text follows it. */
  lemma ParseClassCode(name: string, rest: string)
    requires ';' !in name
    ensures ParseFieldType("L" + name + ";" + rest)
         == Some((if name == STRING_CLASS then StringType else ClassType(name), rest))
  {
    var s := "L" + name + ";" + rest;
    assert s[1..] == name + (";" + rest);
    IndexOfAppend(name, ";" + rest, ';');
    assert s[1..|name| + 1] == name;
    assert s[|name| + 2..] == rest;
  }

  /** The code of a field type is read back as that type, whatever text follows it. */
  lemma {:induction false} ParseFieldTypeOf(t: Type, rest: string)
    requires IsFieldType(t)
    ensures ParseFieldType(JasminType(t) + rest) == Some((t, rest))
  {
    match t
    case IntType =>
    case BoolType =>
    case StringType => ParseStringCode(rest);
    case ClassType(name) => ParseClassCode(name, rest);
    case ArrayType(elem) =>
      ParseFieldTypeOf(elem, rest);
      ParseArrayCode(elem, rest);
  }

  lemma ParseStringCode(rest: string)
    ensures ParseFieldType(JasminType(StringType) + rest) == Some((StringType, rest))
  {
    assert ';' !in STRING_CLASS;
    ParseClassCode(STRING_CLASS, rest);
  }

  lemma ParseArrayCode(elem: Type, rest: string)
    requires ParseFieldType(JasminType(elem) + rest) == Some((elem, rest))
    ensures ParseFieldType(JasminType(ArrayType(elem)) + rest) == Some((ArrayType(elem), rest))
  {
    var inner := JasminType(elem) + rest;
    var s := JasminType(ArrayType(elem)) + rest;
    assert s == "[" + inner;
    assert s[0] == '[' && s[1..] == inner;
  }

  /** The parameter codes followed by `)` are read back as the parameter types. */
  lemma {:induction false} ParseParametersOf(ts: seq<Type>, rest: string)
    requires forall i :: 0 <= i < |ts| ==> IsFieldType(ts[i])
    ensures ParseParameters(TypeCodes(ts) + ")" + rest) == Some((ts, rest))
    decreases |ts|
  {
    if ts == [] {
      assert TypeCodes(ts) + ")" + rest == ")" + rest;
    } else {
      var tail := TypeCodes(ts[1..]) + ")" + rest;
      assert TypeCodes(ts) + ")" + rest == JasminType(ts[0]) + tail;
      ParseFieldTypeOf(ts[0], tail);
      ParseParametersOf(ts[1..], rest);
      ParseParametersStep(ts[0], tail, ts[1..], rest);
      assert [ts[0]] + ts[1..] == ts;
    }
  }

  lemma ParseParametersStep(t: Type, tail: string, ts: seq<Type>, rest: string)
    requires ParseFieldType(JasminType(t) + tail) == Some((t, tail))
    requires ParseParameters(tail) == Some((ts, rest))
    ensures ParseParameters(JasminType(t) + tail) == Some(([t] + ts, rest))
  {
    assert (JasminType(t) + tail)[0] == JasminType(t)[0];
  }

  /** Every method descriptor the emitter builds is read back as its parameter and return types. */
  lemma MethodDescriptorRoundTrip(params: seq<Type>, ret: Type)
    requires forall i :: 0 <= i < |params| ==> IsFieldType(params[i])
    requires IsReturnType(ret)
    ensures ParseMethodDescriptor(MethodDescriptor(params, ret)) == Some((params, ret))
  {
    var s := MethodDescriptor(params, ret);
    var codes, retCode := TypeCodes(params), JasminType(ret);
    assert s[1..] == codes + ")" + retCode by {
      assert s == "(" + codes + ")" + retCode;
    }
    ParseParametersOf(params, retCode);
    if ret != VoidType {
      ParseFieldTypeOf(ret, "");
      assert JasminType(ret) + "" == JasminType(ret);
      assert JasminType(ret) != "V";
    }
  }

  /** Different field types have different codes. */
  lemma JasminTypeInjective(a: Type, b: Type)
    requires IsFieldType(a) && IsFieldType(b)
    requires JasminType(a) == JasminType(b)
    ensures a == b
  {
    ParseFieldTypeOf(a, "");
    ParseFieldTypeOf(b, "");
    assert JasminType(a) + "" == JasminType(a);
    assert JasminType(b) + "" == JasminType(b);
  }
}
