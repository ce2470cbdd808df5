/** The instruction set of the 8-bit CPU as the assembler sees it: the
    mnemonic table, the register table, and the errors an assembly run can
    end with. */
module Isa {

  /** The eleven instructions. */
  datatype Instruction = NOP | LDI | ADD | SUB | AND | OR | XOR | LD | ST | BRZ | JMP

  /** The mnemonic table: upper-case name to instruction. */
  const Mnemonics: map<string, Instruction> := map[
    "NOP" := NOP, "LDI" := LDI, "ADD" := ADD, "SUB" := SUB, "AND" := AND, "OR" := OR,
    "XOR" := XOR, "LD" := LD, "ST" := ST, "BRZ" := BRZ, "JMP" := JMP]

  /** Each instruction's 4-bit opcode. */
  function Opcode(i: Instruction): (op: nat)
    ensures op < 16
  {
    match i
    case NOP => 0x0
    case LDI => 0x1
    case ADD => 0x2
    case SUB => 0x3
    case AND => 0x4
    case OR => 0x5
    case XOR => 0x6
    case LD => 0x7
    case ST => 0x8
    case BRZ => 0x9
    case JMP => 0xA
  }

  /** The two-register ALU instructions. */
  predicate IsAlu(i: Instruction) {
    i == ADD || i == SUB || i == AND || i == OR || i == XOR
  }

  /** The table's entries, one by one. */
  lemma MnemonicEntries()
    ensures "NOP" in Mnemonics && Mnemonics["NOP"] == NOP
    ensures "LDI" in Mnemonics && Mnemonics["LDI"] == LDI
    ensures "ADD" in Mnemonics && Mnemonics["ADD"] == ADD
    ensures "SUB" in Mnemonics && Mnemonics["SUB"] == SUB
    ensures "AND" in Mnemonics && Mnemonics["AND"] == AND
    ensures "OR" in Mnemonics && Mnemonics["OR"] == OR
    ensures "XOR" in Mnemonics && Mnemonics["XOR"] == XOR
    ensures "LD" in Mnemonics && Mnemonics["LD"] == LD
    ensures "ST" in Mnemonics && Mnemonics["ST"] == ST
    ensures "BRZ" in Mnemonics && Mnemonics["BRZ"] == BRZ
    ensures "JMP" in Mnemonics && Mnemonics["JMP"] == JMP
  {
  }

  /** The table's key for each instruction. */
  function Name(i: Instruction): string {
    match i
    case NOP => "NOP"
    case LDI => "LDI"
    case ADD => "ADD"
    case SUB => "SUB"
    case AND => "AND"
    case OR => "OR"
    case XOR => "XOR"
    case LD => "LD"
    case ST => "ST"
    case BRZ => "BRZ"
    case JMP => "JMP"
  }

  /** The table is a bijection between its keys and the instructions:
      looking up a key gives the instruction named by it, and every
      instruction's name is a key. */
  lemma NameOf(m: string)
    requires m in Mnemonics
    ensures Name(Mnemonics[m]) == m
  {
  }

  lemma NameIsKey(i: Instruction)
    ensures Name(i) in Mnemonics && Mnemonics[Name(i)] == i
  {
  }

  /** Distinct instructions have distinct opcodes, so an opcode identifies
      its instruction. */
  lemma OpcodesDistinct(i: Instruction, j: Instruction)
    ensures Opcode(i) == Opcode(j) <==> i == j
  {
  }

  /** Register name to 3-bit index. */
  const Registers: map<string, nat> := map[
    "R0" := 0, "R1" := 1, "R2" := 2, "R3" := 3, "R4" := 4, "R5" := 5, "R6" := 6, "R7" := 7]

  /** Why an assembly run, an expression lowering or a framing step failed.
      The source raises one exception class with a distinct message per
      case; the constructor stands for the message. */
  datatype AsmError =
    | UnknownRegister(token: string)      // "Unknown register: ..."
    | BadNumber(token: string)            // the integer conversion rejected the token
    | UnknownInstruction(mnemonic: string) // "Unknown instruction: ..."
    | BadSyntax(mnemonic: string)         // "<MNEMONIC> syntax: ..."
    | NotImplemented(mnemonic: string)    // "Assembler: ... not implemented"
    | DuplicateLabel(name: string)        // "Duplicate label: ..."
    | UnsupportedOperation                // "Supported operations: ..."
    | EmptyProgram                        // "Program is empty"

  /** A value, or the error that aborted the computation. */
  datatype Result<+T> = Ok(value: T) | Err(error: AsmError) {
    predicate IsFailure() {
      Err?
    }

    function PropagateFailure<U>(): Result<U>
      requires Err?
    {
      Err(error)
    }

    function Extract(): T
      requires Ok?
    {
      value
    }
  }

  /** The register name for an index below 8. */
  function RegisterName(k: nat): string
    requires k < 8
  {
    "R" + [('0' as int + k) as char]
  }

  /** The register table names exactly R0..R7, in order. */
  lemma RegistersAreNumbered(name: string)
    ensures name in Registers <==> exists k :: 0 <= k < 8 && name == RegisterName(k)
    ensures name in Registers ==> Registers[name] < 8 && name == RegisterName(Registers[name])
  {
    if name in Registers {
      var k := Registers[name];
      assert name == RegisterName(k);
    }
    if exists k :: 0 <= k < 8 && name == RegisterName(k) {
      var k :| 0 <= k < 8 && name == RegisterName(k);
      if k == 0 { assert name == "R0"; }
      else if k == 1 { assert name == "R1"; }
      else if k == 2 { assert name == "R2"; }
      else if k == 3 { assert name == "R3"; }
      else if k == 4 { assert name == "R4"; }
      else if k == 5 { assert name == "R5"; }
      else if k == 6 { assert name == "R6"; }
      else { assert name == "R7"; }
    }
  }
}
