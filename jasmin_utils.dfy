/** The helpers of `JasminUtils`: method modifiers, the instruction that pushes an `int`
    constant, and the load and store instructions for a local variable. Their output is read
    back with the instruction meanings of module `Jvm`. The load/store helpers as written take
    their compact forms from a table whose entry `k` is the form for slot `k - 1`; the corrected
    helpers index the table as its own doc comment describes. */
module JasminUtils {
  import opened Wrappers
  import opened Strings
  import opened Ir
  import opened Jvm
  import Int32

  const ILOAD: seq<string> := ["iload", "iload_0", "iload_1", "iload_2", "iload_3"]
  const ISTORE: seq<string> := ["istore", "istore_0", "istore_1", "istore_2", "istore_3"]
  const ALOAD: seq<string> := ["aload", "aload_0", "aload_1", "aload_2", "aload_3"]
  const ASTORE: seq<string> := ["astore", "astore_0", "astore_1", "astore_2", "astore_3"]

  /** `AccessModifier.name()`. */
  function ModifierName(m: AccessModifier): string {
    match m
    case Public => "PUBLIC"
    case Private => "PRIVATE"
    case Protected => "PROTECTED"
    case Default => "DEFAULT"
  }

  /** `getModifier`: the Jasmin access keyword and a space, or nothing for package access. */
  function GetModifier(m: AccessModifier): (r: string)
    ensures r == "" <==> m == Default
    ensures m == Public ==> r == "public "
    ensures m == Private ==> r == "private "
    ensures m == Protected ==> r == "protected "
  {
    ModifierNameLower(m);
    if m != Default then ToLower(ModifierName(m)) + " " else ""
  }

  lemma ModifierNameLower(m: AccessModifier)
    ensures m == Public ==> ToLower(ModifierName(m)) == "public"
    ensures m == Private ==> ToLower(ModifierName(m)) == "private"
    ensures m == Protected ==> ToLower(ModifierName(m)) == "protected"
  {
    match m
    case Public => LowerPublic();
    case Private => LowerPrivate();
    case Protected => LowerProtected();
    case Default =>
  }

  lemma LowerPublic()
    ensures ToLower("PUBLIC") == "public"
  {
    LowerOf("PUBLIC", "public");
  }

  lemma LowerPrivate()
    ensures ToLower("PRIVATE") == "private"
  {
    LowerOf("PRIVATE", "private");
  }

  lemma LowerProtected()
    ensures ToLower("PROTECTED") == "protected"
  {
    LowerOf("PROTECTED", "protected");
  }

  /** `lower` is `upper` in ASCII lower case. */
  lemma LowerOf(upper: string, lower: string)
    requires |upper| == |lower|
    requires forall i :: 0 <= i < |upper| ==> 'A' <= upper[i] <= 'Z' && lower[i] == (upper[i] as int + 32) as char
    ensures ToLower(upper) == lower
  {
  }

  /** `getConstInstruction`: an instruction that pushes `v`. Every 32-bit value is pushed exactly,
      as the JVM reads the instruction. */
  function GetConstInstruction(v: int): (r: string)
    ensures Int32.IsInt32(v) ==> PushedConstant(r) == Some(v)
  {
    ConstTextPushes(v);
    if -1 <= v <= 5 then (if v == -1 then "iconst_m1" else "iconst_" + IntToString(v))
    else if -128 <= v <= 127 then "bipush " + IntToString(v)
    else if -32768 <= v <= 32767 then "sipush " + IntToString(v)
    else "ldc " + IntToString(v)
  }

  /** The case work behind `GetConstInstruction`'s contract, one form at a time. */
  lemma ConstTextPushes(v: int)
    ensures var r := if -1 <= v <= 5 then (if v == -1 then "iconst_m1" else "iconst_" + IntToString(v))
                     else if -128 <= v <= 127 then "bipush " + IntToString(v)
                     else if -32768 <= v <= 32767 then "sipush " + IntToString(v)
                     else "ldc " + IntToString(v);
            Int32.IsInt32(v) ==> PushedConstant(r) == Some(v)
  {
    if -1 <= v <= 5 {
      IconstPushes(v);
    } else {
      SpacedMnemonics();
      if -128 <= v <= 127 {
        OperandLinePushes("bipush", v);
      } else if -32768 <= v <= 32767 {
        OperandLinePushes("sipush", v);
      } else {
        OperandLinePushes("ldc", v);
      }
    }
  }

  lemma SpacedMnemonics()
    ensures "bipush " == "bipush" + " " && "sipush " == "sipush" + " " && "ldc " == "ldc" + " "
  {
  }

  /** `bipush`, `sipush` and `ldc` of a value in their range push that value. */
  lemma OperandLinePushes(m: string, v: int)
    requires m == "bipush" ==> -128 <= v <= 127
    requires m == "sipush" ==> -32768 <= v <= 32767
    requires m in {"bipush", "sipush", "ldc"}
    ensures Int32.IsInt32(v) ==> PushedConstant(m + " " + IntToString(v)) == Some(v)
  {
    if Int32.IsInt32(v) {
      NoSpaceInNumeral(v);
      ParseIntOfIntToString(v);
      OperandFormPushes(m, IntToString(v), v);
    }
  }

  /** The instruction is the most compact of the four forms: a single word for -1 to 5, then
      `bipush` within a byte, `sipush` within a short and `ldc` beyond. */
  lemma ConstInstructionForm(v: int)
    ensures (' ' !in GetConstInstruction(v)) <==> -1 <= v <= 5
    ensures Mnemonic(GetConstInstruction(v)) == "bipush" <==> (v < -1 || v > 5) && -128 <= v <= 127
    ensures Mnemonic(GetConstInstruction(v)) == "sipush" <==> (v < -128 || v > 127) && -32768 <= v <= 32767
    ensures Mnemonic(GetConstInstruction(v)) == "ldc" <==> v < -32768 || v > 32767
  {
    if -1 <= v <= 5 {
      IconstText(v);
      assert GetConstInstruction(v)[0] == 'i';
    } else {
      ConstOperandForm(v);
    }
  }

  lemma ConstOperandForm(v: int)
    requires v < -1 || v > 5
    ensures ' ' in GetConstInstruction(v)
    ensures Mnemonic(GetConstInstruction(v)) == (if -128 <= v <= 127 then "bipush" else if -32768 <= v <= 32767 then "sipush" else "ldc")
  {
    if -128 <= v <= 127 {
      SplitConstLine(v, "bipush");
    } else if -32768 <= v <= 32767 {
      SplitConstLine(v, "sipush");
    } else {
      SplitConstLine(v, "ldc");
    }
  }

  lemma SplitConstLine(v: int, m: string)
    requires v < -1 || v > 5
    requires m == if -128 <= v <= 127 then "bipush" else if -32768 <= v <= 32767 then "sipush" else "ldc"
    ensures ' ' in GetConstInstruction(v) && Mnemonic(GetConstInstruction(v)) == m
  {
    ConstOperandText(v, m);
    SplitLine(m, IntToString(v));
  }

  /** Outside -1 to 5 the instruction is a mnemonic, a space and the decimal value. */
  lemma ConstOperandText(v: int, m: string)
    requires v < -1 || v > 5
    requires m == if -128 <= v <= 127 then "bipush" else if -32768 <= v <= 32767 then "sipush" else "ldc"
    ensures GetConstInstruction(v) == m + " " + IntToString(v)
  {
    var d := IntToString(v);
    SpacedMnemonics();
    if -128 <= v <= 127 {
      assert GetConstInstruction(v) == "bipush " + d;
    } else if -32768 <= v <= 32767 {
      assert GetConstInstruction(v) == "sipush " + d;
    } else {
      assert GetConstInstruction(v) == "ldc " + d;
    }
  }

  /** `iconst_m1` and `iconst_0` to `iconst_5`: one word. */
  lemma IconstText(v: int)
    requires -1 <= v <= 5
    ensures ' ' !in GetConstInstruction(v) && Mnemonic(GetConstInstruction(v)) == GetConstInstruction(v)
  {
    if v != -1 {
      assert IntToString(v) == [DigitChar(v)];
    }
  }

  /** `iconst_m1` and `iconst_0` to `iconst_5` push the value they name. */
  lemma IconstPushes(v: int)
    requires -1 <= v <= 5
    ensures PushedConstant(if v == -1 then "iconst_m1" else "iconst_" + IntToString(v)) == Some(v)
  {
    if v != -1 {
      var line := "iconst_" + IntToString(v);
      assert IntToString(v) == [DigitChar(v)];
      assert |line| == 8 && line[..7] == "iconst_" && line[7] == DigitChar(v);
    }
  }

  lemma OperandFormPushes(m: string, s: string, v: int)
    requires ' ' !in s && ParseInt(s) == Some(v)
    requires m == "bipush" ==> -128 <= v <= 127
    requires m == "sipush" ==> -32768 <= v <= 32767
    requires m in {"bipush", "sipush", "ldc"}
    ensures PushedConstant(m + " " + s) == Some(v)
  {
    var line := m + " " + s;
    SplitLine(m, s);
    assert line[0] == m[0] != 'i';
  }

  // ---------------------------------------------------------------------------------------------
  // Loads and stores.

  /** The general form `<op> n` addresses slot `n`; with a negative `n` the line is malformed. */
  lemma AccessOfGeneral(op: string, n: int)
    requires op in {"iload", "aload", "istore", "astore"}
    ensures n >= 0 ==> AccessOf(op + " " + IntToString(n))
                       == Some(MakeAccess(Family(op).value.0, Family(op).value.1, n))
    ensures n < 0 ==> AccessOf(op + " " + IntToString(n)) == None
  {
    var s := IntToString(n);
    SplitLine(op, s);
    if n >= 0 {
      DigitsValueOfNatToString(n);
    } else {
      assert s[0] == '-' && !IsDigit(s[0]);
    }
  }

  /** The compact form `<op>_d` addresses slot `d`. */
  lemma AccessOfCompact(op: string, d: nat)
    requires op in {"iload", "aload", "istore", "astore"} && d <= 3
    ensures AccessOf(op + "_" + [DigitChar(d)]) == Some(MakeAccess(Family(op).value.0, Family(op).value.1, d))
  {
    var line := op + "_" + [DigitChar(d)];
    assert ' ' !in line;
    assert line[..|line| - 2] == op;
  }

  /** The kind of value moved by the `i` and the other (`a`) table. */
  function PrefixKind(prefix: string): Kind {
    if prefix == "i" then IntKind else RefKind
  }

  /** `getLoadInstruction` as written: slot 0 gets the bare mnemonic, slots 1 to 4 are loaded
      from the slot below, and only slots 5 and up are addressed as asked. */
  function GetLoadInstructionAsWritten(prefix: string, idx: int): (r: string)
    ensures idx == 0 || idx < 0 ==> AccessOf(r) == None
    ensures 1 <= idx <= 4 ==> AccessOf(r) == Some(Load(PrefixKind(prefix), idx - 1))
    ensures idx >= 5 ==> AccessOf(r) == Some(Load(PrefixKind(prefix), idx))
  {
    var forms := if prefix == "i" then ILOAD else ALOAD;
    // the table has five entries: the bare mnemonic and the compact forms for slots 0 to 3
    if 1 <= idx <= 4 then LoadFormsAddress(prefix, idx - 1); forms[idx]
    else if idx == 0 then BareMnemonicsAddressNothing(); forms[idx]
    else LoadFormsAddress(prefix, idx); forms[0] + " " + IntToString(idx)
  }

  /** `getStoreInstruction` as written, with the same shift as the load table. */
  function GetStoreInstructionAsWritten(prefix: string, idx: int): (r: string)
    ensures idx == 0 || idx < 0 ==> AccessOf(r) == None
    ensures 1 <= idx <= 4 ==> AccessOf(r) == Some(Store(PrefixKind(prefix), idx - 1))
    ensures idx >= 5 ==> AccessOf(r) == Some(Store(PrefixKind(prefix), idx))
  {
    var forms := if prefix == "i" then ISTORE else ASTORE;
    // the table has five entries: the bare mnemonic and the compact forms for slots 0 to 3
    if 1 <= idx <= 4 then StoreFormsAddress(prefix, idx - 1); forms[idx]
    else if idx == 0 then BareMnemonicsAddressNothing(); forms[idx]
    else StoreFormsAddress(prefix, idx); forms[0] + " " + IntToString(idx)
  }

  /** The bare mnemonics name no slot. */
  lemma BareMnemonicsAddressNothing()
    ensures AccessOf(ILOAD[0]) == None && AccessOf(ALOAD[0]) == None
    ensures AccessOf(ISTORE[0]) == None && AccessOf(ASTORE[0]) == None
  {
    assert ' ' !in "iload" && ' ' !in "aload" && ' ' !in "istore" && ' ' !in "astore";
  }

  /** As written, slot 0 yields a bare `iload` without an index, slot 1 loads slot 0, slot 4
      stores into slot 3, and only slots 5 and up are addressed correctly. */
  lemma LoadStoreTablesOffByOne()
    ensures AccessOf(GetLoadInstructionAsWritten("i", 0)) == None
    ensures AccessOf(GetLoadInstructionAsWritten("i", 1)) == Some(Load(IntKind, 0))
    ensures AccessOf(GetStoreInstructionAsWritten("a", 4)) == Some(Store(RefKind, 3))
  {
    assert GetLoadInstructionAsWritten("i", 0) == "iload";
    assert GetLoadInstructionAsWritten("i", 1) == "iload" + "_" + [DigitChar(0)];
    AccessOfCompact("iload", 0);
    assert GetStoreInstructionAsWritten("a", 4) == "astore" + "_" + [DigitChar(3)];
    AccessOfCompact("astore", 3);
  }

  /** The load instruction for slot `idx`: the compact form for slots 0 to 3, taken from the
      table entry after the bare mnemonic, and `<op> idx` otherwise. */
  function LoadInstruction(prefix: string, idx: int): (r: string)
    ensures idx >= 0 ==> AccessOf(r) == Some(Load(PrefixKind(prefix), idx))
    ensures idx < 0 ==> AccessOf(r) == None
  {
    var forms := if prefix == "i" then ILOAD else ALOAD;
    LoadFormsAddress(prefix, idx);
    if 0 <= idx < 4 then forms[idx + 1] else forms[0] + " " + IntToString(idx)
  }

  lemma LoadFormsAddress(prefix: string, idx: int)
    ensures var forms := if prefix == "i" then ILOAD else ALOAD;
            var r := if 0 <= idx < 4 then forms[idx + 1] else forms[0] + " " + IntToString(idx);
            (idx >= 0 ==> AccessOf(r) == Some(Load(PrefixKind(prefix), idx))) &&
            (idx < 0 ==> AccessOf(r) == None)
  {
    var op := if prefix == "i" then "iload" else "aload";
    var forms := if prefix == "i" then ILOAD else ALOAD;
    assert forms[0] == op;
    if 0 <= idx < 4 {
      assert forms[idx + 1] == op + "_" + [DigitChar(idx)];
      AccessOfCompact(op, idx);
    } else {
      AccessOfGeneral(op, idx);
    }
  }

  /** The store instruction for slot `idx`, in the same two forms. */
  function StoreInstruction(prefix: string, idx: int): (r: string)
    ensures idx >= 0 ==> AccessOf(r) == Some(Store(PrefixKind(prefix), idx))
    ensures idx < 0 ==> AccessOf(r) == None
  {
    var forms := if prefix == "i" then ISTORE else ASTORE;
    StoreFormsAddress(prefix, idx);
    if 0 <= idx < 4 then forms[idx + 1] else forms[0] + " " + IntToString(idx)
  }

  lemma StoreFormsAddress(prefix: string, idx: int)
    ensures var forms := if prefix == "i" then ISTORE else ASTORE;
            var r := if 0 <= idx < 4 then forms[idx + 1] else forms[0] + " " + IntToString(idx);
            (idx >= 0 ==> AccessOf(r) == Some(Store(PrefixKind(prefix), idx))) &&
            (idx < 0 ==> AccessOf(r) == None)
  {
    var op := if prefix == "i" then "istore" else "astore";
    if 0 <= idx < 4 {
      StoreCompactAddress(prefix, idx);
    } else {
      assert (if prefix == "i" then ISTORE else ASTORE)[0] == op;
      AccessOfGeneral(op, idx);
    }
  }

  lemma StoreCompactAddress(prefix: string, idx: int)
    requires 0 <= idx < 4
    ensures AccessOf((if prefix == "i" then ISTORE else ASTORE)[idx + 1]) == Some(Store(PrefixKind(prefix), idx))
  {
    var op := if prefix == "i" then "istore" else "astore";
    var forms := if prefix == "i" then ISTORE else ASTORE;
    assert forms[idx + 1] == op + "_" + [DigitChar(idx)];
    AccessOfCompact(op, idx);
  }

  /** The two helpers as written agree with the corrected ones exactly from slot 5 on (and on
      negative slots). */
  lemma AsWrittenAgreesBeyondTable(prefix: string, idx: int)
    requires idx >= 5 || idx < 0
    ensures GetLoadInstructionAsWritten(prefix, idx) == LoadInstruction(prefix, idx)
    ensures GetStoreInstructionAsWritten(prefix, idx) == StoreInstruction(prefix, idx)
  {
  }
}
