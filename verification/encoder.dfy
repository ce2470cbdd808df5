/** One source line at a time: how the first pass sizes it and how the second
    pass encodes it (src/cpu_gui.py, `assemble_line` and the per-line body of
    the first loop of `assemble`). */
module Encoder {
  import opened Text
  import opened Isa
  import opened Operands

  /** `line.split(";")[0].strip()`: the line without its comment and without
      surrounding whitespace. */
  function Clean(line: string): string {
    Strip(BeforeComment(line))
  }

  /** What the first pass makes of a line. */
  datatype LineKind =
    | Blank                                           // nothing left, or only commas
    | LabelDef(name: string)                          // `name:`
    | Nop                                             // `NOP ...`
    | Instr(mnemonic: string, operands: seq<string>)  // any other first token

  /** How both passes read a line (the two copies of this code in the source
      agree): a label definition when the cleaned line ends in `:`, otherwise
      an instruction named by its first token in upper case, whether or not
      that mnemonic exists. */
  function Classify(line: string): LineKind {
    var s := Clean(line);
    if s == [] then Blank
    else if s[|s| - 1] == ':' then LabelDef(Strip(s[..|s| - 1]))
    else
      var parts := Tokens(s);
      if parts == [] then Blank
      else if Upper(parts[0]) == "NOP" then Nop
      else Instr(Upper(parts[0]), parts[1..])
  }

  /** How far the first pass advances the program counter over a line of
      this kind: NOP is one byte, every other instruction two. */
  function Size(kind: LineKind): nat {
    match kind
    case Blank => 0
    case LabelDef(_) => 0
    case Nop => 1
    case Instr(_, _) => 2
  }

  /** `t.replace("[", "").replace("]", "")`. */
  function RemoveBrackets(t: string): (r: string)
    ensures '[' !in r && ']' !in r
    ensures |r| <= |t|
  {
    if t == [] then []
    else (if t[0] == '[' || t[0] == ']' then [] else [t[0]]) + RemoveBrackets(t[1..])
  }

  /** Text without brackets passes through unchanged. */
  lemma {:induction false} RemoveBracketsKeeps(a: string)
    requires '[' !in a && ']' !in a
    ensures RemoveBrackets(a) == a
  {
    if a != [] {
      assert a[0] in a && '[' !in a[1..] && ']' !in a[1..];
      RemoveBracketsKeeps(a[1..]);
    }
  }

  /** Removing brackets works piece by piece. */
  lemma {:induction false} RemoveBracketsAppend(x: string, y: string)
    ensures RemoveBrackets(x + y) == RemoveBrackets(x) + RemoveBrackets(y)
  {
    if x != [] {
      assert (x + y)[0] == x[0] && (x + y)[1..] == x[1..] + y;
      RemoveBracketsAppend(x[1..], y);
    } else {
      assert x + y == y;
    }
  }

  /** The memory operand `[a]` of `LD`/`ST` reads as `a`: only the brackets
      go, every other character is kept in order. */
  lemma RemoveBracketsOfAddress(a: string)
    requires '[' !in a && ']' !in a
    ensures RemoveBrackets("[" + a + "]") == a
  {
    RemoveBracketsAppend("[" + a, "]");
    RemoveBracketsAppend("[", a);
    RemoveBracketsKeeps(a);
  }

  /** The number of operand tokens each instruction takes. */
  function OperandCount(i: Instruction): nat {
    if i == JMP || i == BRZ then 1 else 2
  }

  /** The encoding of every instruction other than NOP: byte 0 holds the
      opcode in the high nibble and, for register forms, `rd` in bits 3..1;
      byte 1 holds the second operand. Since `rd << 1` stays below 16 the
      fields do not overlap and `(op << 4) | (rd << 1)` is their sum. The
      source's final "not implemented" branch is unreachable: every table
      entry other than NOP has a case. */
  function EncodeInstruction(i: Instruction, operands: seq<string>, labels: map<string, nat>, pc: nat)
    : (r: Result<seq<nat>>)
    requires i != NOP
    ensures r.Ok? ==> |r.value| == 2 && |operands| == OperandCount(i)
    ensures |operands| != OperandCount(i) ==> r == Err(BadSyntax(Name(i)))
    ensures r.Err? ==> r.error.UnknownRegister? || r.error.BadNumber? || r.error.BadSyntax?
    ensures AddressesFit(labels) && r.Ok? ==> AllBytes(r.value)
  {
    if |operands| != OperandCount(i) then Err(BadSyntax(Name(i)))
    else if i == LDI then EncodeRegisterImmediate(i, operands[0], operands[1], labels)
    else if IsAlu(i) then EncodeRegisterRegister(i, operands[0], operands[1])
    else if i == LD || i == ST then EncodeRegisterImmediate(i, operands[0], RemoveBrackets(operands[1]), labels)
    else if i == JMP then EncodeAbsolute(operands[0], labels)
    else EncodeRelative(operands[0], labels, pc)
  }

  /** `LDI`, `LD` and `ST`: a register, then a value read by `parse_imm`. */
  function EncodeRegisterImmediate(i: Instruction, rdToken: string, token: string, labels: map<string, nat>)
    : (r: Result<seq<nat>>)
    ensures r.Ok? ==> |r.value| == 2
    ensures r.Err? ==> r.error.UnknownRegister? || r.error.BadNumber?
    ensures AddressesFit(labels) && r.Ok? ==> AllBytes(r.value)
  {
    var rd :- ParseReg(rdToken);
    var imm :- ParseImm(token, labels);
    Ok([Opcode(i) * 16 + rd * 2, imm])
  }

  /** The ALU forms: two registers; byte 1 is `rs & 0x07`. */
  function EncodeRegisterRegister(i: Instruction, rdToken: string, rsToken: string): (r: Result<seq<nat>>)
    ensures r.Ok? ==> |r.value| == 2 && AllBytes(r.value)
    ensures r.Err? ==> r.error.UnknownRegister?
  {
    var rd :- ParseReg(rdToken);
    var rs :- ParseReg(rsToken);
    Ok([Opcode(i) * 16 + rd * 2, rs % 8])
  }

  /** `JMP`: the target as read by `parse_imm`, unchanged. */
  function EncodeAbsolute(token: string, labels: map<string, nat>): (r: Result<seq<nat>>)
    ensures r.Ok? ==> |r.value| == 2
    ensures r.Err? ==> r.error.BadNumber?
    ensures AddressesFit(labels) && r.Ok? ==> AllBytes(r.value)
  {
    var addr :- ParseImm(token, labels);
    Ok([Opcode(JMP) * 16, addr])
  }

  /** `BRZ`: the offset from `pc + 2` to the target, masked to a byte. */
  function EncodeRelative(token: string, labels: map<string, nat>, pc: nat): (r: Result<seq<nat>>)
    ensures r.Ok? ==> |r.value| == 2 && AllBytes(r.value)
    ensures r.Err? ==> r.error.BadNumber?
  {
    var target :- ParseImm(token, labels);
    Ok([Opcode(BRZ) * 16, BranchOffset(target, pc)])
  }

  /** `assemble_line`: the bytes of one source line given the label table and
      the address the line is assembled at. Blank lines, comment-only lines,
      comma-only lines and label definitions produce nothing; NOP produces its
      one byte whatever follows it; any other first token must be a key of the
      mnemonic table. */
  function AssembleLine(line: string, labels: map<string, nat>, pc: nat): (r: Result<seq<nat>>)
    ensures r.Ok? ==> |r.value| == Size(Classify(line))
    ensures Classify(line).Blank? || Classify(line).LabelDef? ==> r == Ok([])
    ensures Classify(line) == Nop ==> r == Ok([0x00])
    ensures r.Err? ==> !r.error.NotImplemented? && !r.error.DuplicateLabel?
    ensures AddressesFit(labels) && r.Ok? ==> AllBytes(r.value)
  {
    match Classify(line)
    case Blank => Ok([])
    case LabelDef(_) => Ok([])
    case Nop => Ok([Opcode(NOP) * 16])
    case Instr(mnemonic, operands) =>
      if mnemonic !in Mnemonics then Err(UnknownInstruction(mnemonic))
      else
        NameOf(mnemonic);
        EncodeInstruction(Mnemonics[mnemonic], operands, labels, pc)
  }

  /** Every label address is an 8-bit value. */
  predicate AddressesFit(labels: map<string, nat>) {
    forall l :: l in labels ==> labels[l] < 256
  }

  /** Every value is an 8-bit byte. */
  predicate AllBytes(s: seq<nat>) {
    forall i :: 0 <= i < |s| ==> s[i] < 256
  }

  /** The instruction a line the first pass sizes as an instruction stands
      for, when its mnemonic is a table key. */
  function InstructionOf(line: string): Instruction
    requires Classify(line).Instr? && Classify(line).mnemonic in Mnemonics
  {
    Mnemonics[Classify(line).mnemonic]
  }

  /** A line with a known mnemonic is encoded from its instruction and
      operand tokens; the first pass never classifies a NOP line as an
      instruction. */
  lemma AssembleInstructionLine(line: string, labels: map<string, nat>, pc: nat)
    requires Classify(line).Instr? && Classify(line).mnemonic in Mnemonics
    ensures InstructionOf(line) != NOP
    ensures AssembleLine(line, labels, pc)
         == EncodeInstruction(InstructionOf(line), Classify(line).operands, labels, pc)
  {
    NameOf(Classify(line).mnemonic);
  }

  /** The first pass accepts any mnemonic; the second rejects exactly those
      outside the instruction table. */
  lemma UnknownMnemonicRejected(line: string, labels: map<string, nat>, pc: nat)
    requires Classify(line).Instr?
    ensures AssembleLine(line, labels, pc) == Err(UnknownInstruction(Classify(line).mnemonic))
        <==> Classify(line).mnemonic !in Mnemonics
  {
    if Classify(line).mnemonic in Mnemonics {
      AssembleInstructionLine(line, labels, pc);
    }
  }

  /** A known mnemonic with the wrong number of operands is a syntax error
      naming that mnemonic. */
  lemma OperandCountChecked(line: string, labels: map<string, nat>, pc: nat)
    requires Classify(line).Instr? && Classify(line).mnemonic in Mnemonics
    requires |Classify(line).operands| != OperandCount(InstructionOf(line))
    ensures AssembleLine(line, labels, pc) == Err(BadSyntax(Classify(line).mnemonic))
  {
    AssembleInstructionLine(line, labels, pc);
    NameOf(Classify(line).mnemonic);
  }

  /** The register-form byte 0 (LDI, the ALU instructions, LD, ST) packs two
      fields that do not overlap: the opcode in the high nibble and `rd` in
      bits 3..1, with bit 0 clear. */
  lemma RegisterByteFields(i: Instruction, rd: nat)
    requires rd < 8
    ensures Opcode(i) * 16 + rd * 2 < 256
    ensures (Opcode(i) * 16 + rd * 2) / 16 == Opcode(i)
    ensures ((Opcode(i) * 16 + rd * 2) / 2) % 8 == rd
    ensures (Opcode(i) * 16 + rd * 2) % 2 == 0
  {
  }

  /** LDI layout: `rd` in byte 0, the immediate (or label address) in byte 1. */
  lemma LoadImmediateLayout(ops: seq<string>, labels: map<string, nat>, pc: nat, b: seq<nat>)
    requires EncodeInstruction(LDI, ops, labels, pc) == Ok(b)
    ensures |b| == 2 && |ops| == 2 && ParseReg(ops[0]).Ok?
    ensures b[0] == Opcode(LDI) * 16 + ParseReg(ops[0]).value * 2
    ensures ParseImm(ops[1], labels) == Ok(b[1])
  {
  }

  /** ALU layout: `rd` in byte 0, `rs` in byte 1. */
  lemma AluLayout(i: Instruction, ops: seq<string>, labels: map<string, nat>, pc: nat, b: seq<nat>)
    requires IsAlu(i)
    requires EncodeInstruction(i, ops, labels, pc) == Ok(b)
    ensures |b| == 2 && |ops| == 2 && ParseReg(ops[0]).Ok?
    ensures b[0] == Opcode(i) * 16 + ParseReg(ops[0]).value * 2
    ensures ParseReg(ops[1]) == Ok(b[1]) && b[1] < 8
  {
  }

  /** LD/ST layout: `rd` in byte 0, the address in byte 1, read from the
      operand with its brackets removed. */
  lemma MemoryLayout(i: Instruction, ops: seq<string>, labels: map<string, nat>, pc: nat, b: seq<nat>)
    requires i == LD || i == ST
    requires EncodeInstruction(i, ops, labels, pc) == Ok(b)
    ensures |b| == 2 && |ops| == 2 && ParseReg(ops[0]).Ok?
    ensures b[0] == Opcode(i) * 16 + ParseReg(ops[0]).value * 2
    ensures ParseImm(RemoveBrackets(ops[1]), labels) == Ok(b[1])
  {
  }

  /** JMP layout: byte 0 is the opcode alone and byte 1 the resolved target,
      unmasked when it is a label. */
  lemma JumpLayout(ops: seq<string>, labels: map<string, nat>, pc: nat, b: seq<nat>)
    requires EncodeInstruction(JMP, ops, labels, pc) == Ok(b)
    ensures |ops| == 1 && ParseImm(ops[0], labels).Ok?
    ensures b == [0xA0, ParseImm(ops[0], labels).value]
  {
  }

  /** `(target - (pc + 2)) & 0xFF`: the 8-bit distance from the address after
      a two-byte branch at `pc` to its target. */
  function BranchOffset(target: int, pc: nat): (d: nat)
    ensures d < 256
  {
    (target - (pc + 2)) % 256
  }

  /** The branch-offset law: the address after the branch plus the stored
      offset is the target, modulo 256, for forward and backward targets
      alike. */
  lemma BranchOffsetLaw(target: int, pc: nat)
    ensures (pc + 2 + BranchOffset(target, pc)) % 256 == target % 256
  {
    ModularInverse(target, pc + 2);
  }

  /** A byte is the stored offset exactly when it lands on the target. */
  lemma BranchOffsetExact(target: int, pc: nat, d: nat)
    requires d < 256
    ensures d == BranchOffset(target, pc) <==> (pc + 2 + d) % 256 == target % 256
  {
    BranchOffsetLaw(target, pc);
    if (pc + 2 + d) % 256 == target % 256 {
      BranchOffsetUnique(target, pc, d);
    }
  }

  /** The stored offset is the only byte with that property. */
  lemma BranchOffsetUnique(target: int, pc: nat, d: nat)
    requires d < 256 && (pc + 2 + d) % 256 == target % 256
    ensures d == BranchOffset(target, pc)
  {
    BranchOffsetLaw(target, pc);
    ModularCancel(pc + 2, d, BranchOffset(target, pc));
  }

  /** Two bytes that give the same sum modulo 256 with the same addend are
      equal. */
  lemma ModularCancel(p: int, d: nat, e: nat)
    requires d < 256 && e < 256
    requires (p + d) % 256 == (p + e) % 256
    ensures d == e
  {
    var q1 := (p + d) / 256;
    var q2 := (p + e) / 256;
    assert p + d == q1 * 256 + (p + d) % 256;
    assert p + e == q2 * 256 + (p + e) % 256;
    assert d - e == (q1 - q2) * 256;
  }

  /** BRZ layout: byte 0 is the opcode alone and byte 1 the offset from the
      address after the branch to the resolved target. */
  lemma BranchLayout(ops: seq<string>, labels: map<string, nat>, pc: nat, b: seq<nat>)
    requires EncodeInstruction(BRZ, ops, labels, pc) == Ok(b)
    ensures |ops| == 1 && ParseImm(ops[0], labels).Ok?
    ensures b == [0x90, BranchOffset(ParseImm(ops[0], labels).value, pc)]
  {
  }

  /** Adding back what was subtracted modulo 256 restores the value modulo 256. */
  lemma ModularInverse(t: int, p: int)
    ensures (p + (t - p) % 256) % 256 == t % 256
  {
    var q := (t - p) / 256;
    assert t - p == q * 256 + (t - p) % 256;
    assert p + (t - p) % 256 == t - q * 256;
  }

  /** `JMP L` with `L` in the table encodes `L`'s address as is. */
  lemma JumpTarget(ops: seq<string>, labels: map<string, nat>, pc: nat, b: seq<nat>, target: nat)
    requires EncodeInstruction(JMP, ops, labels, pc) == Ok(b)
    requires |ops| >= 1 && Strip(ops[0]) in labels && labels[Strip(ops[0])] == target
    ensures b == [0xA0, target]
  {
    JumpLayout(ops, labels, pc, b);
  }

  /** `BRZ L` with `L` in the table encodes the offset from the next
      instruction to `L`'s address. */
  lemma BranchTarget(ops: seq<string>, labels: map<string, nat>, pc: nat, b: seq<nat>, target: nat)
    requires EncodeInstruction(BRZ, ops, labels, pc) == Ok(b)
    requires |ops| >= 1 && Strip(ops[0]) in labels && labels[Strip(ops[0])] == target
    ensures b == [0x90, BranchOffset(target, pc)]
  {
    BranchLayout(ops, labels, pc, b);
  }

  /** A line naming instruction `i` (other than NOP) is encoded as `i` with
      its operand tokens. */
  lemma EncodeKnownLine(line: string, i: Instruction, ops: seq<string>, labels: map<string, nat>, pc: nat)
    requires Classify(line) == Instr(Name(i), ops) && i != NOP
    ensures AssembleLine(line, labels, pc) == EncodeInstruction(i, ops, labels, pc)
  {
    NameIsKey(i);
    AssembleInstructionLine(line, labels, pc);
  }

  /** The converse of the layout lemmas: operands that parse give the
      encoding. */
  lemma RegisterImmediateEncodes(i: Instruction, ops: seq<string>, labels: map<string, nat>, pc: nat, k: nat, v: nat)
    requires i == LDI || i == LD || i == ST
    requires |ops| == 2 && ParseReg(ops[0]) == Ok(k)
    requires ParseImm(if i == LDI then ops[1] else RemoveBrackets(ops[1]), labels) == Ok(v)
    ensures EncodeInstruction(i, ops, labels, pc) == Ok([Opcode(i) * 16 + k * 2, v])
  {
    if i == LDI {
      RegisterImmediateFields(i, ops[0], ops[1], labels, k, v);
    } else {
      RegisterImmediateFields(i, ops[0], RemoveBrackets(ops[1]), labels, k, v);
    }
  }

  lemma RegisterImmediateFields(i: Instruction, rd: string, t: string, labels: map<string, nat>, k: nat, v: nat)
    requires ParseReg(rd) == Ok(k) && ParseImm(t, labels) == Ok(v)
    ensures EncodeRegisterImmediate(i, rd, t, labels) == Ok([Opcode(i) * 16 + k * 2, v])
  {
  }

  lemma RegisterRegisterEncodes(i: Instruction, ops: seq<string>, labels: map<string, nat>, pc: nat, k: nat, j: nat)
    requires IsAlu(i)
    requires |ops| == 2 && ParseReg(ops[0]) == Ok(k) && ParseReg(ops[1]) == Ok(j)
    ensures EncodeInstruction(i, ops, labels, pc) == Ok([Opcode(i) * 16 + k * 2, j])
  {
  }

  lemma ControlEncodes(i: Instruction, ops: seq<string>, labels: map<string, nat>, pc: nat, v: nat)
    requires i == JMP || i == BRZ
    requires |ops| == 1 && ParseImm(ops[0], labels) == Ok(v)
    ensures EncodeInstruction(i, ops, labels, pc) == Ok([Opcode(i) * 16, if i == JMP then v else BranchOffset(v, pc)])
  {
  }
}
