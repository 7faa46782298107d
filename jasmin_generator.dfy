/** The text of a whole class: the `.class`/`.super` header, the fields, the default constructor
    and every other method, each method with its header, its `.limit` directives and the code of
    its instructions, one indented line per line of code and one `label:` line per label. The
    generator object caches the text of the class, so building twice gives the same text. */
module JasminGenerator {
  import opened Wrappers
  import opened Strings
  import opened Ir
  import opened Jvm
  import opened JasminTypes
  import opened JasminUtils
  import opened JasminCode
  import opened JasminLimits

  // ---------------------------------------------------------------------------------------------
  // The text of one method.

  /** The code of one instruction as `generateMethod` lays it out: its lines, joined by a newline
      and an indentation, after one indentation and before a newline. */
  function Indented(code: string): string {
    TAB + Join(Lines(code), NL + TAB) + NL
  }

  /** `label:` on a line of its own, for each label in turn. */
  function LabelsCode(labels: seq<string>): string {
    if labels == [] then "" else LabelsCode(labels[..|labels| - 1]) + labels[|labels| - 1] + ":" + NL
  }

  /** Each line with `prefix` in front of it. */
  function Prefixed(ls: seq<string>, prefix: string): (r: seq<string>)
    ensures |r| == |ls| && forall i :: 0 <= i < |ls| ==> r[i] == prefix + ls[i]
  {
    seq(|ls|, i requires 0 <= i < |ls| => prefix + ls[i])
  }

  /** Each line with `suffix` after it. */
  function Suffixed(ls: seq<string>, suffix: string): (r: seq<string>)
    ensures |r| == |ls| && forall i :: 0 <= i < |ls| ==> r[i] == ls[i] + suffix
  {
    seq(|ls|, i requires 0 <= i < |ls| => ls[i] + suffix)
  }

  /** The code of the instructions in `nodes`, the first instruction of a method being the first
      of `nodes`; instruction `k` reads the clock as `clock(k)`. The first instruction whose code
      cannot be generated ends the method with its error. */
  function Body(nodes: seq<CfgNode>, ctx: Context, clock: int -> Stamps): Result<string>
    decreases |nodes|
  {
    if nodes == [] then Ok("")
    else
      var k := |nodes| - 1;
      var before :- Body(nodes[..k], ctx, clock);
      var code :- GenerateInstruction(nodes[k].inst, ctx, clock(k));
      Ok(before + LabelsCode(nodes[k].labels) + Indented(code))
  }

  /** The header line: `.method`, the access keyword, `static` for a static method, the name and
      the method descriptor. */
  function HeaderLine(access: AccessModifier, isStatic: bool, name: string, params: seq<Type>, ret: Type): string {
    ".method " + GetModifier(access) + (if isStatic then "static " else "") + name + MethodDescriptor(params, ret)
  }

  /** An indented `.limit stack n` or `.limit locals n` directive. */
  function LimitLine(what: string, n: int): string {
    TAB + ".limit " + what + " " + IntToString(n)
  }

  /** The value of an indented `.limit what` directive, read back from its line. */
  function LimitValue(line: string, what: string): Option<int> {
    var prefix := TAB + ".limit " + what + " ";
    if |prefix| <= |line| && line[..|prefix|] == prefix then Decimal(line[|prefix|..]) else None
  }

  /** A decimal number, with a minus sign when negative. */
  function Decimal(text: string): Option<int> {
    if |text| >= 1 && text[0] == '-' then
      var magnitude := Index(text[1..]);
      if magnitude.Some? then Some(-(magnitude.value as int)) else None
    else
      var magnitude := Index(text);
      if magnitude.Some? then Some(magnitude.value as int) else None
  }

  /** A method's text from its header line, its limits and the code of its body. */
  function MethodText(header: string, stack: int, locals: int, body: string): string {
    header + NL + LimitLine("stack", stack) + NL + LimitLine("locals", locals) + NL + body + ".end method" + NL
  }

  /** `generateMethod`: the text of `m` in the class called `className`. It fails exactly when
      the code of some instruction fails, with that instruction's error; otherwise it reads as a
      method whose header, limits and closing line are those of `m`. */
  function MethodCode(className: string, m: Method, clock: int -> Stamps): (r: Result<string>)
    reads m
    ensures r.Ok? <==> Body(m.instructions, Context(className, m.varTable), clock).Ok?
    ensures r.Err? ==> r.error == Body(m.instructions, Context(className, m.varTable), clock).error
    ensures var header := HeaderLine(m.access, m.isStaticMethod, m.methodName, ArgTypes(m.params), m.returnType);
      r.Ok? && '\n' !in header ==>
        ReadsAsMethod(r.value, header, StackLimit(Instructions(m.instructions)), LocalsLimit(m.varTable))
  {
    var body :- Body(m.instructions, Context(className, m.varTable), clock);
    BodyEndsInNewline(m.instructions, Context(className, m.varTable), clock);
    var header := HeaderLine(m.access, m.isStaticMethod, m.methodName, ArgTypes(m.params), m.returnType);
    var stack, locals := StackLimit(Instructions(m.instructions)), LocalsLimit(m.varTable);
    if '\n' in header then Ok(MethodText(header, stack, locals, body))
    else
      MethodTextReads(header, stack, locals, body);
      Ok(MethodText(header, stack, locals, body))
  }

  // ---------------------------------------------------------------------------------------------
  // The text of the class.

  /** The superclass `.super` names: the class unit's own when it has a non-empty one. */
  function SuperName(superClass: Option<string>): (name: string)
    ensures superClass.Some? && superClass.value != "" ==> name == superClass.value
    ensures superClass.None? || superClass.value == "" ==> name == "java/lang/Object"
  {
    if superClass.Some? && superClass.value != "" then superClass.value else "java/lang/Object"
  }

  function FieldLine(f: FieldDecl): string {
    ".field public " + f.fieldName + " " + JasminType(f.fieldType)
  }

  /** A `.field` line for each field, in order. */
  function FieldsText(fields: seq<FieldDecl>): string {
    if fields == [] then "" else FieldsText(fields[..|fields| - 1]) + FieldLine(fields[|fields| - 1]) + NL
  }

  /** The constructor every class gets: it calls the superclass constructor and returns. */
  function DefaultConstructor(superName: string): string {
    ".method public <init>()V" + NL +
    "    .limit stack 1" + NL +
    "    .limit locals 1" + NL +
    "    aload_0" + NL +
    "    invokespecial " + superName + "/<init>()V" + NL +
    "    return" + NL +
    ".end method" + NL +
    NL
  }

  /** The clock readings of the method at position `k` of the class unit. */
  function MethodClock(clock: (int, int) -> Stamps, k: int): int -> Stamps {
    i => clock(k, i)
  }

  /** The text of the methods in `ms` (the first being the first of the class unit) other than
      constructors. The first method whose text cannot be generated ends the class with its error. */
  function MethodsCode(className: string, ms: seq<Method>, clock: (int, int) -> Stamps): Result<string>
    reads ms
    decreases |ms|
  {
    if ms == [] then Ok("")
    else
      var k := |ms| - 1;
      var before :- MethodsCode(className, ms[..k], clock);
      if ms[k].isConstructMethod then Ok(before)
      else
        var code :- MethodCode(className, ms[k], MethodClock(clock, k));
        Ok(before + code)
  }

  /** `generateClassUnit`: the header, the fields, the default constructor, then the methods. It
      fails exactly when the text of some method other than a constructor fails, with that error;
      otherwise the text opens with the `.class` line and the `.super` line. */
  function ClassCode(cu: ClassUnit, clock: (int, int) -> Stamps): (r: Result<string>)
    reads cu.methods
    ensures r.Ok? <==> MethodsCode(cu.className, cu.methods, clock).Ok?
    ensures r.Err? ==> r.error == MethodsCode(cu.className, cu.methods, clock).error
    ensures var opening := ".class public " + cu.className + NL + ".super " + SuperName(cu.superClass) + NL;
      r.Ok? ==> |opening| <= |r.value| && r.value[..|opening|] == opening
  {
    var superName := SuperName(cu.superClass);
    var methods :- MethodsCode(cu.className, cu.methods, clock);
    var opening := ".class public " + cu.className + NL + ".super " + superName + NL;
    var t1 := opening + NL + FieldsText(cu.fields);
    var t2 := t1 + (if cu.fields == [] then "" else NL);
    var t3 := t2 + DefaultConstructor(superName);
    StartsWithAppend(opening, opening, NL + FieldsText(cu.fields));
    StartsWithAppend(opening, t1, if cu.fields == [] then "" else NL);
    StartsWithAppend(opening, t2, DefaultConstructor(superName));
    StartsWithAppend(opening, t3, methods);
    Ok(t3 + methods)
  }

  /** Text that starts with `prefix` still does after more is appended. */
  lemma StartsWithAppend(prefix: string, text: string, more: string)
    requires |prefix| <= |text| && text[..|prefix|] == prefix
    ensures |prefix| <= |text + more| && (text + more)[..|prefix|] == prefix
  {
    assert (text + more)[..|prefix|] == text[..|prefix|];
  }

  // ---------------------------------------------------------------------------------------------
  // What the text says.

  /** Every line of an instruction's code is indented, in order; code without lines still gives
      one indented empty line. */
  lemma IndentedLines(code: string)
    ensures Lines(code) != [] ==> Lines(Indented(code)) == Prefixed(Lines(code), TAB)
    ensures Lines(code) == [] ==> Indented(code) == TAB + NL
  {
    var ls := Lines(code);
    if ls != [] {
      JoinIsTerminated(ls);
      LinesOfTerminated(Prefixed(ls, TAB));
    }
  }

  /** Joining non-empty lines with a newline and an indentation, between an indentation and a
      newline, terminates each indented line. */
  lemma {:induction false} JoinIsTerminated(ls: seq<string>)
    requires ls != []
    ensures TAB + Join(ls, NL + TAB) + NL == Terminated(Prefixed(ls, TAB))
    decreases |ls|
  {
    var p := Prefixed(ls, TAB);
    if |ls| == 1 {
      assert p[1..] == [];
    } else {
      var rest := ls[1..];
      JoinIsTerminated(rest);
      assert Prefixed(rest, TAB) == p[1..];
      calc {
        TAB + Join(ls, NL + TAB) + NL;
        TAB + (ls[0] + (NL + TAB) + Join(rest, NL + TAB)) + NL;
        { ConcatAssoc(TAB + ls[0] + NL, TAB + Join(rest, NL + TAB), NL); }
        (TAB + ls[0]) + NL + (TAB + Join(rest, NL + TAB) + NL);
        p[0] + "\n" + Terminated(p[1..]);
      }
    }
  }

  /** The labels come out one per line, each followed by a colon. */
  lemma LabelLines(labels: seq<string>)
    requires forall i :: 0 <= i < |labels| ==> '\n' !in labels[i]
    ensures Lines(LabelsCode(labels)) == Suffixed(labels, ":")
  {
    LabelsCodeIsTerminated(labels);
    LinesOfTerminated(Suffixed(labels, ":"));
  }

  lemma {:induction false} LabelsCodeIsTerminated(labels: seq<string>)
    ensures LabelsCode(labels) == Terminated(Suffixed(labels, ":"))
    decreases |labels|
  {
    if labels != [] {
      var k := |labels| - 1;
      LabelsCodeIsTerminated(labels[..k]);
      assert Suffixed(labels, ":") == Suffixed(labels[..k], ":") + [labels[k] + ":"];
      TerminatedAppend(Suffixed(labels[..k], ":"), [labels[k] + ":"]);
    }
  }

  lemma {:induction false} TerminatedAppend(a: seq<string>, b: seq<string>)
    ensures Terminated(a + b) == Terminated(a) + Terminated(b)
    decreases |a|
  {
    if a == [] {
      assert a + b == b;
    } else {
      assert a + b == [a[0]] + (a[1..] + b);
      assert a == [a[0]] + a[1..];
      calc {
        Terminated(a + b);
        { TerminatedCons(a[0], a[1..] + b); }
        a[0] + "\n" + Terminated(a[1..] + b);
        { TerminatedAppend(a[1..], b); }
        a[0] + "\n" + (Terminated(a[1..]) + Terminated(b));
        { ConcatAssoc(a[0] + "\n", Terminated(a[1..]), Terminated(b)); }
        a[0] + "\n" + Terminated(a[1..]) + Terminated(b);
        { TerminatedCons(a[0], a[1..]); }
        Terminated(a) + Terminated(b);
      }
    }
  }

  /** One more line after text that ends in a newline is one more of its lines. */
  lemma LinesAppendLine(body: string, e: string)
    requires EndsInNewline(body) && '\n' !in e
    ensures Lines(body + e + "\n") == Lines(body) + [e]
  {
    TerminatedLines(body);
    TerminatedAppend(Lines(body), [e]);
    TerminatedCons(e, []);
    assert Terminated(Lines(body) + [e]) == body + (e + "\n" + "");
    assert e + "\n" + "" == e + "\n";
    ConcatAssoc(body, e, "\n");
    LinesOfTerminated(Lines(body) + [e]);
  }

  /** Text that is empty or ends in a newline. */
  predicate EndsInNewline(s: string) {
    s == [] || s[|s| - 1] == '\n'
  }

  lemma EndsInNewlineAppend(a: string, b: string)
    requires EndsInNewline(a) && EndsInNewline(b)
    ensures EndsInNewline(a + b)
  {
  }

  lemma LabelsCodeEndsInNewline(labels: seq<string>)
    ensures EndsInNewline(LabelsCode(labels))
  {
    if labels != [] {
      var k := |labels| - 1;
      assert LabelsCode(labels) == LabelsCode(labels[..k]) + (labels[k] + ":" + NL);
    }
  }

  /** The code of a method body ends with the newline of its last line. */
  lemma {:induction false} BodyEndsInNewline(nodes: seq<CfgNode>, ctx: Context, clock: int -> Stamps)
    requires Body(nodes, ctx, clock).Ok?
    ensures EndsInNewline(Body(nodes, ctx, clock).value)
    decreases |nodes|
  {
    if nodes != [] {
      var k := |nodes| - 1;
      BodyEndsInNewline(nodes[..k], ctx, clock);
      LabelsCodeEndsInNewline(nodes[k].labels);
      var before := Body(nodes[..k], ctx, clock).value;
      var code := GenerateInstruction(nodes[k].inst, ctx, clock(k)).value;
      EndsInNewlineAppend(before, LabelsCode(nodes[k].labels));
      EndsInNewlineAppend(before + LabelsCode(nodes[k].labels), Indented(code));
    }
  }

  /** A limit directive reads back as the limit it was written with. */
  lemma LimitLineReads(what: string, n: int)
    ensures LimitValue(LimitLine(what, n), what) == Some(n)
  {
    var prefix := TAB + ".limit " + what + " ";
    PrefixSplit(prefix, IntToString(n));
    DecimalOfIntToString(n);
  }

  lemma PrefixSplit(prefix: string, rest: string)
    ensures |prefix| <= |prefix + rest| && (prefix + rest)[..|prefix|] == prefix && (prefix + rest)[|prefix|..] == rest
  {
  }

  /** Printing a number in decimal and reading it back gives the number. */
  lemma DecimalOfIntToString(n: int)
    ensures Decimal(IntToString(n)) == Some(n)
  {
    if n < 0 {
      DigitsValueOfNatToString(-n);
    } else {
      DigitsValueOfNatToString(n);
    }
  }

  lemma NoNewlineInLimitLine(what: string, n: int)
    requires '\n' !in what
    ensures '\n' !in LimitLine(what, n)
  {
    NoNewlineInNumeral(n);
    assert LimitLine(what, n) == TAB + ".limit " + (what + (" " + IntToString(n)));
  }

  /** The lines of a method's text: the header, the two limits, the lines of the body and the
      closing `.end method`. */
  lemma MethodTextLines(header: string, stack: int, locals: int, body: string)
    requires '\n' !in header && EndsInNewline(body)
    ensures Lines(MethodText(header, stack, locals, body)) ==
            [header, LimitLine("stack", stack), LimitLine("locals", locals)] + Lines(body) + [".end method"]
  {
    NoNewlineInLimitLine("stack", stack);
    NoNewlineInLimitLine("locals", locals);
    FourLines(header, LimitLine("stack", stack), LimitLine("locals", locals), body, ".end method");
  }

  lemma FourLines(h: string, s: string, l: string, body: string, e: string)
    requires '\n' !in h && '\n' !in s && '\n' !in l && '\n' !in e && EndsInNewline(body)
    ensures Lines(h + NL + s + NL + l + NL + body + e + NL) == [h, s, l] + Lines(body) + [e]
  {
    var t3 := body + e + "\n";
    var t2 := l + "\n" + t3;
    var t1 := s + "\n" + t2;
    var t0 := h + "\n" + t1;
    FourLinesText(h, s, l, body, e);
    LinesAppendLine(body, e);
    LinesCons(l, t3);
    LinesCons(s, t2);
    LinesCons(h, t1);
    SeqFour(h, s, l, Lines(body), e);
  }

  lemma SeqFour(h: string, s: string, l: string, ls: seq<string>, e: string)
    ensures [h] + ([s] + ([l] + (ls + [e]))) == [h, s, l] + ls + [e]
  {
  }

  lemma FourLinesText(h: string, s: string, l: string, body: string, e: string)
    ensures h + NL + s + NL + l + NL + body + e + NL == h + "\n" + (s + "\n" + (l + "\n" + (body + e + "\n")))
  {
  }

  /** The first line of `text` is `header`, the next two declare the limits `stack` and `locals`,
      and the last one is `.end method`. */
  predicate ReadsAsMethod(text: string, header: string, stack: int, locals: int) {
    var ls := Lines(text);
    |ls| >= 4 && ls[0] == header && LimitValue(ls[1], "stack") == Some(stack) &&
    LimitValue(ls[2], "locals") == Some(locals) && ls[|ls| - 1] == ".end method"
  }

  /** What the lines of a method's text say: the header, the two limits and the closing line. */
  lemma MethodTextReads(header: string, stack: int, locals: int, body: string)
    requires '\n' !in header && EndsInNewline(body)
    ensures ReadsAsMethod(MethodText(header, stack, locals, body), header, stack, locals)
  {
    MethodTextLines(header, stack, locals, body);
    var ls := Lines(MethodText(header, stack, locals, body));
    var s, l := LimitLine("stack", stack), LimitLine("locals", locals);
    assert ls == [header, s, l] + Lines(body) + [".end method"];
    assert ls[0] == header && ls[1] == s && ls[2] == l && ls[|ls| - 1] == ".end method";
    LimitLineReads("stack", stack);
    LimitLineReads("locals", locals);
  }

  /** A `.field` line for each field, in order. */
  lemma FieldsTextLines(fields: seq<FieldDecl>)
    requires forall i :: 0 <= i < |fields| ==> '\n' !in FieldLine(fields[i])
    ensures Lines(FieldsText(fields)) == FieldLines(fields)
  {
    FieldsTextIsTerminated(fields);
    LinesOfTerminated(FieldLines(fields));
  }

  /** The `.field` line of each field. */
  function FieldLines(fields: seq<FieldDecl>): (ls: seq<string>)
    ensures |ls| == |fields| && forall i :: 0 <= i < |fields| ==> ls[i] == FieldLine(fields[i])
  {
    seq(|fields|, i requires 0 <= i < |fields| => FieldLine(fields[i]))
  }

  lemma {:induction false} FieldsTextIsTerminated(fields: seq<FieldDecl>)
    ensures FieldsText(fields) == Terminated(FieldLines(fields))
    decreases |fields|
  {
    if fields != [] {
      var k := |fields| - 1;
      FieldsTextIsTerminated(fields[..k]);
      FieldLinesSnoc(fields);
      TerminatedSnoc(FieldLines(fields[..k]), FieldLine(fields[k]));
    }
  }

  lemma FieldLinesSnoc(fields: seq<FieldDecl>)
    requires fields != []
    ensures FieldLines(fields) == FieldLines(fields[..|fields| - 1]) + [FieldLine(fields[|fields| - 1])]
  {
  }

  lemma TerminatedSnoc(ls: seq<string>, x: string)
    ensures Terminated(ls + [x]) == Terminated(ls) + x + "\n"
  {
    TerminatedAppend(ls, [x]);
    TerminatedCons(x, []);
    assert Terminated([x]) == x + "\n";
  }

  /** Constructors contribute no text: a class unit whose methods are all constructors gets only
      the default constructor. */
  lemma {:induction false} ConstructorsSkipped(className: string, ms: seq<Method>, clock: (int, int) -> Stamps)
    requires forall i :: 0 <= i < |ms| ==> ms[i].isConstructMethod
    ensures MethodsCode(className, ms, clock) == Ok("")
    decreases |ms|
  {
    if ms != [] {
      ConstructorsSkipped(className, ms[..|ms| - 1], clock);
    }
  }

  /** Once the code of some prefix of the instructions fails, so does the whole body, with the
      same error. */
  lemma {:induction false} BodyErrorSticks(nodes: seq<CfgNode>, ctx: Context, clock: int -> Stamps, i: int)
    requires 0 <= i <= |nodes| && Body(nodes[..i], ctx, clock).Err?
    ensures Body(nodes, ctx, clock) == Body(nodes[..i], ctx, clock)
    decreases |nodes| - i
  {
    if i < |nodes| {
      assert nodes[..i + 1][..i] == nodes[..i];
      BodyErrorSticks(nodes, ctx, clock, i + 1);
    } else {
      assert nodes[..i] == nodes;
    }
  }

  /** Once the text of some prefix of the methods fails, so does the whole class. */
  lemma {:induction false} MethodsErrorSticks(className: string, ms: seq<Method>, clock: (int, int) -> Stamps, i: int)
    requires 0 <= i <= |ms| && MethodsCode(className, ms[..i], clock).Err?
    ensures MethodsCode(className, ms, clock) == MethodsCode(className, ms[..i], clock)
    decreases |ms| - i
  {
    if i < |ms| {
      assert ms[..i + 1][..i] == ms[..i];
      MethodsErrorSticks(className, ms, clock, i + 1);
    } else {
      assert ms[..i] == ms;
    }
  }

  /** One more instruction: its labels and code are appended, or its error ends the body. */
  lemma BodyStep(nodes: seq<CfgNode>, ctx: Context, clock: int -> Stamps, i: int, text: string)
    requires 0 <= i < |nodes| && Body(nodes[..i], ctx, clock) == Ok(text)
    ensures var code := GenerateInstruction(nodes[i].inst, ctx, clock(i));
      (code.Ok? ==> Body(nodes[..i + 1], ctx, clock) == Ok(text + LabelsCode(nodes[i].labels) + Indented(code.value))) &&
      (code.Err? ==> Body(nodes, ctx, clock) == Err(code.error))
  {
    assert nodes[..i + 1][..i] == nodes[..i];
    if GenerateInstruction(nodes[i].inst, ctx, clock(i)).Err? {
      BodyErrorSticks(nodes, ctx, clock, i + 1);
    }
  }

  /** One more method: a constructor adds nothing, any other method adds its text, or its error
      ends the class. */
  lemma MethodsCodeStep(className: string, ms: seq<Method>, clock: (int, int) -> Stamps, k: int, text: string)
    requires 0 <= k < |ms| && MethodsCode(className, ms[..k], clock) == Ok(text)
    ensures ms[k].isConstructMethod ==> MethodsCode(className, ms[..k + 1], clock) == Ok(text)
    ensures var code := MethodCode(className, ms[k], MethodClock(clock, k));
      !ms[k].isConstructMethod ==>
        (code.Ok? ==> MethodsCode(className, ms[..k + 1], clock) == Ok(text + code.value)) &&
        (code.Err? ==> MethodsCode(className, ms, clock) == Err(code.error))
  {
    assert ms[..k + 1][..k] == ms[..k];
    if !ms[k].isConstructMethod && MethodCode(className, ms[k], MethodClock(clock, k)).Err? {
      MethodsErrorSticks(className, ms, clock, k + 1);
    }
  }

  // ---------------------------------------------------------------------------------------------
  // The generator object.

  class JasminGenerator {
    const classUnit: ClassUnit
    /** `System.nanoTime()` as read by instruction `i` of the method at position `k`. */
    const clock: (int, int) -> Stamps
    var code: Option<string>
    var currentMethod: Option<Method>

    constructor(classUnit: ClassUnit, clock: (int, int) -> Stamps)
      ensures this.classUnit == classUnit && this.clock == clock
      ensures code == None && currentMethod == None
    {
      this.classUnit := classUnit;
      this.clock := clock;
      code := None;
      currentMethod := None;
    }

    /** `build`: generates the class the first time and returns the stored text from then on. A
        generation that fails stores nothing. */
    method Build() returns (r: Result<string>)
      modifies this
      ensures old(code).Some? ==> r == Ok(old(code).value) && code == old(code)
      ensures old(code).None? ==> r == ClassCode(classUnit, clock)
      ensures r.Ok? ==> code == Some(r.value)
      ensures r.Err? ==> code == None
    {
      if code.Some? {
        return Ok(code.value);
      }
      r := GenerateClassUnit();
      if r.Ok? {
        code := Some(r.value);
      }
    }

    /** `generateClassUnit`. */
    method GenerateClassUnit() returns (r: Result<string>)
      modifies this`currentMethod
      ensures r == ClassCode(classUnit, clock)
      ensures code == old(code)
    {
      var cu := classUnit;
      var text := ".class public " + cu.className + NL;
      var superName := SuperName(cu.superClass);
      text := text + ".super " + superName + NL + NL;
      var fields := FieldsFrom(cu.fields);
      text := text + fields;
      if cu.fields != [] {
        text := text + NL;
      } else {
        assert text + "" == text;
      }
      text := text + DefaultConstructor(superName);
      var methods := GenerateMethods();
      if methods.Err? {
        return Err(methods.error);
      }
      r := Ok(text + methods.value);
    }

    /** The field lines, appended one by one. */
    static method FieldsFrom(fields: seq<FieldDecl>) returns (text: string)
      ensures text == FieldsText(fields)
    {
      text := "";
      for i := 0 to |fields|
        invariant text == FieldsText(fields[..i])
      {
        assert fields[..i + 1][..i] == fields[..i];
        text := text + FieldLine(fields[i]) + NL;
      }
      assert fields[..|fields|] == fields;
    }

    /** The loop over the methods of `generateClassUnit`: skips constructors and appends the
        text of every other method. */
    method GenerateMethods() returns (r: Result<string>)
      modifies this`currentMethod
      ensures r == MethodsCode(classUnit.className, classUnit.methods, clock)
      ensures code == old(code)
    {
      var ms := classUnit.methods;
      var text := "";
      for k := 0 to |ms|
        invariant code == old(code)
        invariant MethodsCode(classUnit.className, ms[..k], clock) == Ok(text)
      {
        var step := AppendMethod(k, text);
        if step.Err? {
          return step;
        }
        text := step.value;
      }
      assert ms[..|ms|] == ms;
      r := Ok(text);
    }

    /** One turn of that loop: the text so far with method `k` appended, unless it is a
        constructor; a method whose text cannot be generated ends the class with its error. */
    method AppendMethod(k: int, text: string) returns (r: Result<string>)
      requires 0 <= k < |classUnit.methods|
      requires MethodsCode(classUnit.className, classUnit.methods[..k], clock) == Ok(text)
      modifies this`currentMethod
      ensures r.Ok? ==> MethodsCode(classUnit.className, classUnit.methods[..k + 1], clock) == r
      ensures r.Err? ==> MethodsCode(classUnit.className, classUnit.methods, clock) == r
      ensures code == old(code)
    {
      var ms := classUnit.methods;
      MethodsCodeStep(classUnit.className, ms, clock, k, text);
      if ms[k].isConstructMethod {
        return Ok(text);
      }
      var methodCode := GenerateMethod(ms[k], MethodClock(clock, k));
      if methodCode.Err? {
        return Err(methodCode.error);
      }
      r := Ok(text + methodCode.value);
    }

    /** `generateMethod`: writes the code of every instruction, then the header and the limits
        around it. `currentMethod` is `m` while the method is written and is cleared afterwards;
        a failure leaves it set. */
    method GenerateMethod(m: Method, methodClock: int -> Stamps) returns (r: Result<string>)
      modifies this`currentMethod
      ensures r == MethodCode(classUnit.className, m, methodClock)
      ensures r.Ok? ==> currentMethod == None
      ensures r.Err? ==> currentMethod == Some(m)
      ensures code == old(code)
    {
      currentMethod := Some(m);
      var ctx := Context(classUnit.className, m.varTable);
      var nodes := m.instructions;
      var methodCode := "";
      for i := 0 to |nodes|
        invariant currentMethod == Some(m) && code == old(code)
        invariant Body(nodes[..i], ctx, methodClock) == Ok(methodCode)
      {
        BodyStep(nodes, ctx, methodClock, i, methodCode);
        var labels := LabelsFrom(nodes[i].labels);
        var instCode := GenerateInstruction(nodes[i].inst, ctx, methodClock(i));
        if instCode.Err? {
          return Err(instCode.error);
        }
        methodCode := methodCode + labels + Indented(instCode.value);
      }
      assert nodes[..|nodes|] == nodes;
      var stackLimit := CalculateStackLimit(m);
      var localsLimit := LocalsLimit(m.varTable);
      var header := HeaderLine(m.access, m.isStaticMethod, m.methodName, ArgTypes(m.params), m.returnType);
      r := Ok(MethodText(header, stackLimit, localsLimit, methodCode));
      currentMethod := None;
    }

    /** The label lines of one instruction, appended one by one. */
    static method LabelsFrom(labels: seq<string>) returns (text: string)
      ensures text == LabelsCode(labels)
    {
      text := "";
      for i := 0 to |labels|
        invariant text == LabelsCode(labels[..i])
      {
        assert labels[..i + 1][..i] == labels[..i];
        text := text + labels[i] + ":" + NL;
      }
      assert labels[..|labels|] == labels;
    }
  }
}
