/** The lines the calculator front end (src/cpu_gui.py,
    `generate_assembly_for_op`) writes: an instruction with one or two
    operand words, or a label definition. How both passes of `assemble`
    read such a line, and the bytes it assembles to. */
module Lowering {
  import opened Text
  import opened Numerals
  import opened Isa
  import opened Operands
  import opened Encoder
  import opened Assembler

  // ---------------------------------------------------------------------
  // The shapes of the generated lines.

  /** `"<MNEMONIC> <x>, <y>"`. */
  function Line2(i: Instruction, x: string, y: string): string {
    Name(i) + (" " + (x + (", " + y)))
  }

  /** `"<MNEMONIC> <x>"`. */
  function Line1(i: Instruction, x: string): string {
    Name(i) + (" " + x)
  }

  /** `"<name>:"`. */
  function LabelLine(name: string): string {
    name + ":"
  }

  /** An operand the generator writes: a token with no comment marker that
      does not end like a label definition. */
  predicate IsOperand(w: string) {
    IsWord(w) && ';' !in w && w[|w| - 1] != ':'
  }

  /** Every mnemonic is an upper-case token; only NOP's is "NOP". */
  lemma NameIsOperand(i: Instruction)
    ensures IsOperand(Name(i)) && Upper(Name(i)) == Name(i)
    ensures Name(i) == "NOP" <==> i == NOP
  {
    UpperOfUpper(Name(i));
  }

  lemma NoComment(s: string)
    requires ';' !in s
    ensures BeforeComment(s) == s
  {
  }

  /** A mnemonic as the passes look it up: an upper-case token other than
      NOP. */
  predicate IsMnemonic(m: string) {
    IsOperand(m) && Upper(m) == m && m != "NOP"
  }

  /** A line without comment or surrounding whitespace is its own cleaned
      form. */
  lemma CleanLine(s: string)
    requires ';' !in s && s != [] && !IsSpace(s[0]) && !IsSpace(s[|s| - 1])
    ensures Clean(s) == s
  {
    NoComment(s);
  }

  /** A cleaned line that is not a label definition is read as the
      instruction named by its first token. */
  lemma ClassifyTokens(s: string, m: string, ops: seq<string>)
    requires Clean(s) == s && s != [] && s[|s| - 1] != ':'
    requires Tokens(s) == [m] + ops && IsMnemonic(m)
    ensures Classify(s) == Instr(m, ops)
  {
    assert ([m] + ops)[1..] == ops;
  }

  lemma TokensOf2(m: string, x: string, y: string)
    requires IsWord(m) && IsWord(x) && IsWord(y)
    ensures Tokens(m + (" " + (x + (", " + y)))) == [m, x, y]
  {
    TokensAfterWord(y, []);
    assert y + [] == y;
    TokensAfterSeparators(", ", y);
    TokensAfterWord(x, ", " + y);
    TokensAfterSeparators(" ", x + (", " + y));
    TokensAfterWord(m, " " + (x + (", " + y)));
  }

  lemma TokensOf1(m: string, x: string)
    requires IsWord(m) && IsWord(x)
    ensures Tokens(m + (" " + x)) == [m, x]
  {
    TokensAfterWord(x, []);
    assert x + [] == x;
    TokensAfterSeparators(" ", x);
    TokensAfterWord(m, " " + x);
  }

  lemma ClassifyWords2(m: string, x: string, y: string)
    requires IsMnemonic(m) && IsOperand(x) && IsOperand(y)
    ensures Classify(m + (" " + (x + (", " + y)))) == Instr(m, [x, y])
  {
    var s := m + (" " + (x + (", " + y)));
    assert s[|s| - 1] == y[|y| - 1];
    assert !IsSeparator(s[0]) && !IsSeparator(s[|s| - 1]);
    CleanLine(s);
    TokensOf2(m, x, y);
    ClassifyTokens(s, m, [x, y]);
  }

  lemma ClassifyWords1(m: string, x: string)
    requires IsMnemonic(m) && IsOperand(x)
    ensures Classify(m + (" " + x)) == Instr(m, [x])
  {
    var s := m + (" " + x);
    assert s[|s| - 1] == x[|x| - 1];
    assert !IsSeparator(s[0]) && !IsSeparator(s[|s| - 1]);
    CleanLine(s);
    TokensOf1(m, x);
    ClassifyTokens(s, m, [x]);
  }

  /** How both passes read a two-operand line. */
  lemma ClassifyLine2(i: Instruction, x: string, y: string)
    requires i != NOP && IsOperand(x) && IsOperand(y)
    ensures Classify(Line2(i, x, y)) == Instr(Name(i), [x, y])
  {
    NameIsOperand(i);
    ClassifyWords2(Name(i), x, y);
  }

  /** How both passes read a one-operand line. */
  lemma ClassifyLine1(i: Instruction, x: string)
    requires i != NOP && IsOperand(x)
    ensures Classify(Line1(i, x)) == Instr(Name(i), [x])
  {
    NameIsOperand(i);
    ClassifyWords1(Name(i), x);
  }

  /** How both passes read a label definition. */
  lemma ClassifyLabelLine(name: string)
    requires IsWord(name) && ';' !in name
    ensures Classify(LabelLine(name)) == LabelDef(name)
  {
    var s := LabelLine(name);
    NoComment(s);
    assert !IsSpace(s[0]) && s[|s| - 1] == ':';
    assert s[..|s| - 1] == name;
    StripWord(name);
  }

  // ---------------------------------------------------------------------
  // How the generated lines assemble.

  /** A register-and-value line (LDI, LD, ST) with operands that parse. */
  lemma AssembleRegisterImmediate(i: Instruction, rd: string, x: string, labels: map<string, nat>, pc: nat, k: nat, v: nat)
    requires i == LDI || i == LD || i == ST
    requires IsOperand(rd) && IsOperand(x) && ParseReg(rd) == Ok(k)
    requires ParseImm(if i == LDI then x else RemoveBrackets(x), labels) == Ok(v)
    ensures AssembleLine(Line2(i, rd, x), labels, pc) == Ok([Opcode(i) * 16 + k * 2, v])
  {
    ClassifyLine2(i, rd, x);
    EncodeKnownLine(Line2(i, rd, x), i, [rd, x], labels, pc);
    RegisterImmediateEncodes(i, [rd, x], labels, pc, k, v);
  }

  /** A two-register ALU line with registers that parse. */
  lemma AssembleRegisterRegister(i: Instruction, rd: string, rs: string, labels: map<string, nat>, pc: nat, k: nat, j: nat)
    requires IsAlu(i)
    requires IsOperand(rd) && IsOperand(rs) && ParseReg(rd) == Ok(k) && ParseReg(rs) == Ok(j)
    ensures AssembleLine(Line2(i, rd, rs), labels, pc) == Ok([Opcode(i) * 16 + k * 2, j])
  {
    ClassifyLine2(i, rd, rs);
    EncodeKnownLine(Line2(i, rd, rs), i, [rd, rs], labels, pc);
    RegisterRegisterEncodes(i, [rd, rs], labels, pc, k, j);
  }

  /** A JMP or BRZ line whose target parses. */
  lemma AssembleControl(i: Instruction, x: string, labels: map<string, nat>, pc: nat, v: nat)
    requires i == JMP || i == BRZ
    requires IsOperand(x) && ParseImm(x, labels) == Ok(v)
    ensures AssembleLine(Line1(i, x), labels, pc) == Ok([Opcode(i) * 16, if i == JMP then v else BranchOffset(v, pc)])
  {
    ClassifyLine1(i, x);
    EncodeKnownLine(Line1(i, x), i, [x], labels, pc);
    ControlEncodes(i, [x], labels, pc, v);
  }

  /** A label definition assembles to nothing. */
  lemma AssembleLabelLine(name: string, labels: map<string, nat>, pc: nat)
    requires IsWord(name) && ';' !in name
    ensures AssembleLine(LabelLine(name), labels, pc) == Ok([])
  {
    ClassifyLabelLine(name);
  }

  // ---------------------------------------------------------------------
  // The operands the generator writes.

  /** A register name is an operand that reads as its index. */
  lemma RegisterOperand(k: nat)
    requires k < 8
    ensures IsOperand(RegisterName(k)) && ParseReg(RegisterName(k)) == Ok(k)
  {
    var r := RegisterName(k);
    assert r[0] == 'R' && '0' <= r[1] <= '7';
    UpperOfUpper(r);
    ParseRegAccepts(r, k);
  }

  /** `f"{n}"` is an operand and, unless it names a label, reads back as
      `n` modulo 256. */
  lemma DecimalOperand(n: int, labels: map<string, nat>)
    requires Decimal(n) !in labels
    ensures IsOperand(Decimal(n)) && ParseImm(Decimal(n), labels) == Ok(n % 256)
  {
    DecimalShape(n);
    ParseImmDecimal(n, labels);
  }

  /** The I/O address operand `[0xF0]` reads as 0xF0 once its brackets
      are removed. */
  lemma OutputAddressOperand(labels: map<string, nat>)
    requires "0xF0" !in labels
    ensures IsOperand("[0xF0]") && ParseImm(RemoveBrackets("[0xF0]"), labels) == Ok(0xF0)
  {
    OutputAddressText();
    HexOperand(labels);
  }

  lemma OutputAddressText()
    ensures IsOperand("[0xF0]") && RemoveBrackets("[0xF0]") == "0xF0"
  {
  }

  lemma HexOperand(labels: map<string, nat>)
    requires "0xF0" !in labels
    ensures ParseImm("0xF0", labels) == Ok(0xF0)
  {
    assert "0x" + NatDigits(0xF0, 16) == "0xF0" by {
      assert NatDigits(0xF0, 16) == "F0";
    }
    ParseImmHex(0xF0, labels);
  }

  /** The characters the generator writes in names and numerals. */
  predicate IsPlain(c: char) {
    '0' <= c <= '9' || 'A' <= c <= ']' || c == '_' || 'a' <= c <= 'z'
  }

  /** A non-empty run of plain characters is an operand. */
  lemma PlainOperand(w: string)
    requires w != [] && forall k :: 0 <= k < |w| ==> IsPlain(w[k])
    ensures IsOperand(w)
  {
  }

  /** A label name used as an operand reads as its address. */
  lemma LabelOperand(name: string, labels: map<string, nat>)
    requires IsOperand(name) && name in labels
    ensures ParseImm(name, labels) == Ok(labels[name])
  {
    StripWord(name);
  }

  /** `f"{n}"` is an operand. */
  lemma DecimalIsOperand(n: int)
    ensures IsOperand(Decimal(n)) && Decimal(n)[0] != 'l' && Decimal(n)[0] != 'e'
  {
    DecimalShape(n);
  }

  // ---------------------------------------------------------------------
  // Line breaks: the generated lines contain none, so splitting the joined
  // text gives the lines back.

  lemma WordHasNoBreak(w: string)
    requires IsWord(w)
    ensures NoLineBreak(w)
  {
  }

  lemma NoBreakConcat(s: string, t: string)
    requires NoLineBreak(s) && NoLineBreak(t)
    ensures NoLineBreak(s + t)
  {
    forall k | 0 <= k < |s + t|
      ensures !IsLineBreak((s + t)[k])
    {
      if k < |s| {
        assert (s + t)[k] == s[k];
      } else {
        assert (s + t)[k] == t[k - |s|];
      }
    }
  }

  lemma Line2HasNoBreak(i: Instruction, x: string, y: string)
    requires IsOperand(x) && IsOperand(y)
    ensures NoLineBreak(Line2(i, x, y)) && Line2(i, x, y) != []
  {
    NameIsOperand(i);
    WordHasNoBreak(Name(i));
    WordHasNoBreak(x);
    WordHasNoBreak(y);
    NoBreakConcat(", ", y);
    NoBreakConcat(x, ", " + y);
    NoBreakConcat(" ", x + (", " + y));
    NoBreakConcat(Name(i), " " + (x + (", " + y)));
  }

  lemma Line1HasNoBreak(i: Instruction, x: string)
    requires IsOperand(x)
    ensures NoLineBreak(Line1(i, x)) && Line1(i, x) != []
  {
    NameIsOperand(i);
    WordHasNoBreak(Name(i));
    WordHasNoBreak(x);
    NoBreakConcat(" ", x);
    NoBreakConcat(Name(i), " " + x);
  }

  lemma LabelLineHasNoBreak(name: string)
    requires IsWord(name)
    ensures NoLineBreak(LabelLine(name))
  {
    WordHasNoBreak(name);
    NoBreakConcat(name, ":");
  }
}
