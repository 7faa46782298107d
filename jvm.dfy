/** What single lines of Jasmin text mean, read from the mnemonic and its operands as chapter 6
    of the Java Virtual Machine Specification (Java SE) defines the instructions: which local
    variable a load or store addresses, which `int` a constant instruction pushes, when a
    conditional jump is taken, what a return instruction returns, and by how much an
    instruction changes the depth of the operand stack. The emitter's output is judged against
    these readings; they know nothing of how the emitter works. */
module Jvm {
  import opened Wrappers
  import opened Strings
  import Int32

  /** The mnemonic of a line: the text before its first space, or the whole line. */
  function Mnemonic(line: string): string {
    var k := IndexOf(line, ' ');
    if k < 0 then line else line[..k]
  }

  /** The operands of a line: the text after its first space, or nothing. */
  function OperandText(line: string): string {
    var k := IndexOf(line, ' ');
    if k < 0 then "" else line[k + 1..]
  }

  lemma SplitLine(m: string, arg: string)
    requires ' ' !in m
    ensures Mnemonic(m + " " + arg) == m && OperandText(m + " " + arg) == arg
    ensures ' ' in m + " " + arg
  {
    IndexOfAppend(m, " " + arg, ' ');
    var line := m + " " + arg;
    assert line[|m|] == ' ';
    assert line[..|m|] == m;
    assert line[|m| + 1..] == arg;
  }

  /** A local-variable index written in decimal (indices are unsigned). */
  function Index(text: string): Option<nat> {
    if |text| >= 1 && AllDigits(text) then Some(DigitsValue(text)) else None
  }

  datatype Kind = IntKind | RefKind

  /** A load or store of one local variable. */
  datatype Access = Load(kind: Kind, slot: nat) | Store(kind: Kind, slot: nat)

  /** `iload`, `aload`, `istore` and `astore`: the kind moved, and whether it is a store. */
  function Family(name: string): Option<(Kind, bool)> {
    if name == "iload" then Some((IntKind, false))
    else if name == "aload" then Some((RefKind, false))
    else if name == "istore" then Some((IntKind, true))
    else if name == "astore" then Some((RefKind, true))
    else None
  }

  function MakeAccess(kind: Kind, store: bool, slot: nat): Access {
    if store then Store(kind, slot) else Load(kind, slot)
  }

  /** The local variable a line loads or stores: the compact forms `<op>_0` to `<op>_3` name the
      slot in the mnemonic, the general form `<op> n` takes it as its operand. */
  function AccessOf(line: string): Option<Access> {
    if ' ' in line then
      match Family(Mnemonic(line))
      case None => None
      case Some((kind, store)) =>
        match Index(OperandText(line))
        case None => None
        case Some(slot) => Some(MakeAccess(kind, store, slot))
    else if |line| >= 2 && line[|line| - 2] == '_' && '0' <= line[|line| - 1] <= '3' then
      match Family(line[..|line| - 2])
      case None => None
      case Some((kind, store)) => Some(MakeAccess(kind, store, DigitValue(line[|line| - 1])))
    else None
  }

  /** The `int` a line pushes: `iconst_m1`, `iconst_0` to `iconst_5`, `bipush` with a byte,
      `sipush` with a short, or `ldc` with an integer. */
  function PushedConstant(line: string): Option<int> {
    if line == "iconst_m1" then Some(-1)
    else if |line| == 8 && line[..7] == "iconst_" && '0' <= line[7] <= '5' then Some(DigitValue(line[7]))
    else if ' ' !in line then None
    else
      var m, v := Mnemonic(line), ParseInt(OperandText(line));
      if v.None? then None
      else if m == "bipush" && -128 <= v.value <= 127 then v
      else if m == "sipush" && -32768 <= v.value <= 32767 then v
      else if m == "ldc" then v
      else None
  }

  /** `iinc index const`: the local variable and the signed byte added to it. */
  function Increment(line: string): Option<(nat, int)> {
    if Mnemonic(line) != "iinc" then None
    else
      var args := OperandText(line);
      if ' ' !in args then None
      else
        match (Index(Mnemonic(args)), ParseInt(OperandText(args)))
        case (Some(slot), Some(c)) => if -128 <= c <= 127 then Some((slot, c)) else None
        case _ => None
  }

  /** Whether `if_icmp<cond>` jumps when `a` lies below `b` on the stack. */
  function CompareJumps(mnemonic: string, a: int, b: int): Option<bool> {
    if mnemonic == "if_icmpeq" then Some(a == b)
    else if mnemonic == "if_icmpne" then Some(a != b)
    else if mnemonic == "if_icmplt" then Some(a < b)
    else if mnemonic == "if_icmpge" then Some(a >= b)
    else if mnemonic == "if_icmpgt" then Some(a > b)
    else if mnemonic == "if_icmple" then Some(a <= b)
    else None
  }

  /** Whether `if<cond>` jumps when `a` is on top of the stack: it compares `a` with zero. */
  function ZeroJumps(mnemonic: string, a: int): Option<bool> {
    if mnemonic == "ifeq" then Some(a == 0)
    else if mnemonic == "ifne" then Some(a != 0)
    else if mnemonic == "iflt" then Some(a < 0)
    else if mnemonic == "ifge" then Some(a >= 0)
    else if mnemonic == "ifgt" then Some(a > 0)
    else if mnemonic == "ifle" then Some(a <= 0)
    else None
  }

  /** What a two-operand `int` instruction leaves in place of `a` below `b`: the sum, difference
      and product narrowed to 32 bits, the quotient rounded toward zero (a zero divisor throws
      `ArithmeticException`), and for `iand` the bitwise and, read here only on the values 0 and 1
      that booleans take. */
  function IntArith(mnemonic: string, a: int, b: int): Option<Result<int>> {
    if mnemonic == "iadd" then Some(Ok(Int32.Wrap(a + b)))
    else if mnemonic == "isub" then Some(Ok(Int32.Wrap(a - b)))
    else if mnemonic == "imul" then Some(Ok(Int32.Wrap(a * b)))
    else if mnemonic == "idiv" then Some(if b == 0 then Err("ArithmeticException") else Ok(Int32.JavaDiv(a, b)))
    else if mnemonic == "iand" && 0 <= a <= 1 && 0 <= b <= 1 then Some(Ok(a * b))
    else None
  }

  /** The five readings, one per instruction. */
  lemma IntArithTable(a: int, b: int)
    ensures IntArith("iadd", a, b) == Some(Ok(Int32.Wrap(a + b)))
    ensures IntArith("isub", a, b) == Some(Ok(Int32.Wrap(a - b)))
    ensures IntArith("imul", a, b) == Some(Ok(Int32.Wrap(a * b)))
    ensures IntArith("idiv", a, b) == Some(if b == 0 then Err("ArithmeticException") else Ok(Int32.JavaDiv(a, b)))
    ensures IntArith("iand", a, b) == if 0 <= a <= 1 && 0 <= b <= 1 then Some(Ok(a * b)) else None
  {
  }

  /** A one-word line names no local variable and pushes no constant. */
  lemma OneWordReadsNothing(line: string)
    requires ' ' !in line && |line| >= 2 && line[|line| - 2] != '_' && line != "iconst_m1"
    ensures AccessOf(line).None? && PushedConstant(line).None? && Mnemonic(line) == line
  {
  }

  /** The two-operand `int` arithmetic instructions take two values and leave one, and do not jump. */
  lemma ArithLine(m: string)
    requires m in {"iadd", "isub", "imul", "idiv", "iand"}
    ensures StackEffect(m) == Some(-1) && !IsConditionalJump(m)
  {
    assert ' ' !in m && |m| == 4 && m[2] != '_' && m[1] != 'f' && m[|m| - 1] != ':';
    OneWordReadsNothing(m);
    NotAJump(m);
  }

  predicate IsConditionalJump(line: string) {
    CompareJumps(Mnemonic(line), 0, 0).Some? || ZeroJumps(Mnemonic(line), 0).Some?
  }

  /** Every conditional jump is spelled `if...`. */
  lemma NotAJump(line: string)
    requires |Mnemonic(line)| >= 2 && Mnemonic(line)[1] != 'f'
    ensures !IsConditionalJump(line)
  {
  }

  /** What a return instruction hands back to the caller. */
  datatype Returned = Nothing | Value(kind: Kind)

  function ReturnOf(line: string): Option<Returned> {
    if line == "return" then Some(Nothing)
    else if line == "ireturn" then Some(Value(IntKind))
    else if line == "areturn" then Some(Value(RefKind))
    else None
  }

  /** By how much a line changes the depth of the operand stack, for loads, stores, constants,
      two-operand `int` arithmetic, `iaload`, jumps and labels (other lines are not read). */
  function StackEffect(line: string): Option<int> {
    if AccessOf(line).Some? then (if AccessOf(line).value.Load? then Some(1) else Some(-1))
    else if PushedConstant(line).Some? then Some(1)
    else if CompareJumps(Mnemonic(line), 0, 0).Some? then Some(-2)
    else if ZeroJumps(Mnemonic(line), 0).Some? then Some(-1)
    else if Mnemonic(line) == "goto" then Some(0)
    else if |line| >= 1 && line[|line| - 1] == ':' && ' ' !in line then Some(0)
    else if line in {"iadd", "isub", "imul", "idiv", "iand", "iaload"} then Some(-1)
    else None
  }

  /** What the depth computation reads off one line: its stack effect and whether it jumps. */
  datatype Reading = Reading(effect: Option<int>, jump: bool)

  function Read(line: string): Reading {
    Reading(StackEffect(line), IsConditionalJump(line))
  }

  function ReadAll(lines: seq<string>): (rs: seq<Reading>)
    ensures |rs| == |lines|
  {
    if lines == [] then [] else [Read(lines[0])] + ReadAll(lines[1..])
  }

  /** The depth reached at the first jump, from the readings of the lines up to it. */
  function DepthOf(rs: seq<Reading>): Option<int> {
    if rs == [] || rs[0].effect.None? then None
    else if rs[0].jump then rs[0].effect
    else
      var d := DepthOf(rs[1..]);
      if d.None? then None else Some(rs[0].effect.value + d.value)
  }

  /** The depth of the operand stack, relative to its depth before `lines`, once the first
      conditional jump among them has taken its operands; `None` when there is no jump or a
      line before it is not read. */
  function DepthAfterJump(lines: seq<string>): Option<int> {
    DepthOf(ReadAll(lines))
  }

  lemma ReadAllCons(line: string, rest: seq<string>)
    ensures ReadAll([line] + rest) == [Read(line)] + ReadAll(rest)
  {
    assert ([line] + rest)[1..] == rest;
  }

  lemma DepthOfCons(r: Reading, rs: seq<Reading>, d: int)
    requires r.effect.Some? && !r.jump && DepthOf(rs) == Some(d)
    ensures DepthOf([r] + rs) == Some(r.effect.value + d)
  {
    assert ([r] + rs)[1..] == rs;
  }

  /** A line that is not a jump adds its effect to the depth at the first jump after it. */
  lemma DepthAfterStep(line: string, rest: seq<string>, e: int, d: int)
    requires StackEffect(line) == Some(e) && !IsConditionalJump(line)
    requires DepthAfterJump(rest) == Some(d)
    ensures DepthAfterJump([line] + rest) == Some(e + d)
  {
    ReadAllCons(line, rest);
    DepthOfCons(Read(line), ReadAll(rest), d);
  }

  /** At a jump the depth is the jump's own effect. */
  lemma DepthAtJump(line: string, rest: seq<string>, e: int)
    requires StackEffect(line) == Some(e) && IsConditionalJump(line)
    ensures DepthAfterJump([line] + rest) == Some(e)
  {
    ReadAllCons(line, rest);
  }

  /** A line that pushes one value and does not jump. */
  predicate PushLine(line: string) {
    StackEffect(line) == Some(1) && !IsConditionalJump(line)
  }

  /** The depth at the jump of a comparison idiom whose operands are loaded by pushing lines:
      one operand, two, three or four of them pushed in front of the jump. */
  lemma DepthAfterOperands(a: string, b: string, jump: string, tail: seq<string>, e: int)
    requires PushLine(a) && PushLine(b) && StackEffect(jump) == Some(e) && IsConditionalJump(jump)
    ensures DepthAfterJump([a] + ([jump] + tail)) == Some(1 + e)
    ensures DepthAfterJump([a] + ([b] + ([jump] + tail))) == Some(2 + e)
    ensures DepthAfterJump([a] + ([b] + ([a] + ([jump] + tail)))) == Some(3 + e)
    ensures DepthAfterJump([a] + ([b] + ([a] + ([b] + ([jump] + tail))))) == Some(4 + e)
  {
    var j := [jump] + tail;
    DepthAtJump(jump, tail, e);
    DepthAfterStep(a, j, 1, e);
    DepthAfterStep(b, j, 1, e);
    DepthAfterStep(a, [b] + j, 1, 1 + e);
    DepthAfterStep(b, [a] + j, 1, 1 + e);
    DepthAfterStep(a, [b] + ([a] + j), 1, 2 + e);
    DepthAfterStep(b, [a] + ([b] + j), 1, 2 + e);
    DepthAfterStep(a, [b] + ([a] + ([b] + j)), 1, 3 + e);
  }
}
