/** Straight-line programs whose lines are written from known pieces (an
    instruction, its operand words, a label name), taken one line at a time:
    after the first `n` lines are shown to hold no line break, to be read by
    both passes as expected and to assemble to their bytes in place, one
    more line extends each fact to `n + 1`. Once a program is complete, its
    text assembles to the bytes laid out for it. */
module Placement {
  import opened Text
  import opened Isa
  import opened Operands
  import opened Encoder
  import opened Assembler
  import opened Lowering

  /** The first `n` lines hold no line break. */
  predicate UnbrokenUpTo(ls: seq<string>, n: nat) {
    n <= |ls| && forall k {:trigger NoLineBreak(ls[k])} :: 0 <= k < n ==> NoLineBreak(ls[k])
  }

  /** Both passes read the first `n` lines as `ks` says. */
  predicate ReadUpTo(ls: seq<string>, ks: seq<LineKind>, n: nat) {
    n <= |ls| == |ks| && forall k {:trigger Classify(ls[k])} :: 0 <= k < n ==> Classify(ls[k]) == ks[k]
  }

  /** The first `n` lines, encoded at their pass-1 addresses, give the
      bytes `out` holds there. */
  ghost predicate LaidUpTo(enc: LineEncoder, ls: seq<string>, ks: seq<LineKind>, out: seq<nat>, n: nat) {
    n <= |ls| == |ks| && forall k :: 0 <= k < n ==> EncodedAt(enc, ls, ks, out, k)
  }

  // ---------------------------------------------------------------------
  // Line breaks.

  lemma UnbrokenLine2(ls: seq<string>, n: nat, i: Instruction, x: string, y: string)
    requires UnbrokenUpTo(ls, n) && n < |ls| && ls[n] == Line2(i, x, y)
    requires IsOperand(x) && IsOperand(y)
    ensures UnbrokenUpTo(ls, n + 1)
  {
    Line2HasNoBreak(i, x, y);
  }

  lemma UnbrokenLine1(ls: seq<string>, n: nat, i: Instruction, x: string)
    requires UnbrokenUpTo(ls, n) && n < |ls| && ls[n] == Line1(i, x)
    requires IsOperand(x)
    ensures UnbrokenUpTo(ls, n + 1)
  {
    Line1HasNoBreak(i, x);
  }

  lemma UnbrokenLabel(ls: seq<string>, n: nat, name: string)
    requires UnbrokenUpTo(ls, n) && n < |ls| && ls[n] == LabelLine(name)
    requires IsWord(name)
    ensures UnbrokenUpTo(ls, n + 1)
  {
    LabelLineHasNoBreak(name);
  }

  // ---------------------------------------------------------------------
  // How the passes read each line.

  lemma ReadLine2(ls: seq<string>, ks: seq<LineKind>, n: nat, i: Instruction, x: string, y: string)
    requires ReadUpTo(ls, ks, n) && n < |ls| && ls[n] == Line2(i, x, y) && ks[n] == Instr(Name(i), [x, y])
    requires i != NOP && IsOperand(x) && IsOperand(y)
    ensures ReadUpTo(ls, ks, n + 1)
  {
    ClassifyLine2(i, x, y);
  }

  lemma ReadLine1(ls: seq<string>, ks: seq<LineKind>, n: nat, i: Instruction, x: string)
    requires ReadUpTo(ls, ks, n) && n < |ls| && ls[n] == Line1(i, x) && ks[n] == Instr(Name(i), [x])
    requires i != NOP && IsOperand(x)
    ensures ReadUpTo(ls, ks, n + 1)
  {
    ClassifyLine1(i, x);
  }

  lemma ReadLabel(ls: seq<string>, ks: seq<LineKind>, n: nat, name: string)
    requires ReadUpTo(ls, ks, n) && n < |ls| && ls[n] == LabelLine(name) && ks[n] == LabelDef(name)
    requires IsWord(name) && ';' !in name
    ensures ReadUpTo(ls, ks, n + 1)
  {
    ClassifyLabelLine(name);
  }

  // ---------------------------------------------------------------------
  // Each line's bytes in place.

  lemma LaidExtend(enc: LineEncoder, ls: seq<string>, ks: seq<LineKind>, out: seq<nat>, n: nat)
    requires LaidUpTo(enc, ls, ks, out, n) && n < |ls|
    requires EncodedAt(enc, ls, ks, out, n)
    ensures LaidUpTo(enc, ls, ks, out, n + 1)
  {
  }

  /** Line `k` assembles at its address `pc` to the two bytes `out` holds
      there. */
  lemma PairLineAt(labels: map<string, nat>, ls: seq<string>, ks: seq<LineKind>, out: seq<nat>, k: nat, pc: nat, x: nat, y: nat)
    requires k < |ls| == |ks| && Address(ks, k) == pc && Address(ks, k + 1) == pc + 2 <= |out|
    requires AssembleLine(ls[k], labels, pc) == Ok([x, y])
    requires out[pc] == x && out[pc + 1] == y
    ensures EncodedAt(LineCode(labels), ls, ks, out, k)
  {
    SliceOfPair(out, pc);
  }

  /** A line that assembles at its address `pc` to the two bytes `out`
      holds there extends the laid-out prefix by one line. */
  lemma PairStep(labels: map<string, nat>, ls: seq<string>, ks: seq<LineKind>, out: seq<nat>, k: nat, pc: nat,
                 line: string, x: nat, y: nat)
    requires LaidUpTo(LineCode(labels), ls, ks, out, k) && k < |ls| && ls[k] == line
    requires Address(ks, k) == pc && Address(ks, k + 1) == pc + 2 <= |out|
    requires AssembleLine(line, labels, pc) == Ok([x, y])
    requires out[pc] == x && out[pc + 1] == y
    ensures LaidUpTo(LineCode(labels), ls, ks, out, k + 1)
  {
    PairLineAt(labels, ls, ks, out, k, pc, x, y);
    LaidExtend(LineCode(labels), ls, ks, out, k);
  }

  /** The opcode in the high nibble of byte 0, for the instructions the
      steps below place. */
  lemma OpcodeBytes()
    ensures Opcode(LDI) * 16 == 0x10 && Opcode(ST) * 16 == 0x80
    ensures Opcode(ADD) * 16 == 0x20 && Opcode(SUB) * 16 == 0x30 && Opcode(AND) * 16 == 0x40
    ensures Opcode(OR) * 16 == 0x50 && Opcode(XOR) * 16 == 0x60
  {
  }

  /** `LDI <rd>, <x>` as line `k`: 0x10 plus twice `rd` in byte 0, the
      value of `x` in byte 1. */
  lemma LoadStep(labels: map<string, nat>, ls: seq<string>, ks: seq<LineKind>, out: seq<nat>, k: nat, pc: nat,
                 rd: string, x: string, r: nat, v: nat)
    requires LaidUpTo(LineCode(labels), ls, ks, out, k) && k < |ls| && ls[k] == Line2(LDI, rd, x)
    requires IsOperand(rd) && IsOperand(x) && ParseReg(rd) == Ok(r) && ParseImm(x, labels) == Ok(v)
    requires Address(ks, k) == pc && Address(ks, k + 1) == pc + 2 <= |out|
    requires out[pc] == 0x10 + r * 2 && out[pc + 1] == v
    ensures LaidUpTo(LineCode(labels), ls, ks, out, k + 1)
  {
    OpcodeBytes();
    AssembleRegisterImmediate(LDI, rd, x, labels, pc, r, v);
    PairStep(labels, ls, ks, out, k, pc, Line2(LDI, rd, x), 0x10 + r * 2, v);
  }

  /** `ST <rd>, [<x>]` as line `k`: 0x80 plus twice `rd` in byte 0, the
      value of `x` without its brackets in byte 1. */
  lemma StoreStep(labels: map<string, nat>, ls: seq<string>, ks: seq<LineKind>, out: seq<nat>, k: nat, pc: nat,
                  rd: string, x: string, r: nat, v: nat)
    requires LaidUpTo(LineCode(labels), ls, ks, out, k) && k < |ls| && ls[k] == Line2(ST, rd, x)
    requires IsOperand(rd) && IsOperand(x) && ParseReg(rd) == Ok(r) && ParseImm(RemoveBrackets(x), labels) == Ok(v)
    requires Address(ks, k) == pc && Address(ks, k + 1) == pc + 2 <= |out|
    requires out[pc] == 0x80 + r * 2 && out[pc + 1] == v
    ensures LaidUpTo(LineCode(labels), ls, ks, out, k + 1)
  {
    OpcodeBytes();
    AssembleRegisterImmediate(ST, rd, x, labels, pc, r, v);
    PairStep(labels, ls, ks, out, k, pc, Line2(ST, rd, x), 0x80 + r * 2, v);
  }

  /** `ADD <rd>, <rs>` as line `k`: 0x20 plus twice `rd` in byte 0, `rs`
      in byte 1. */
  lemma AddStep(labels: map<string, nat>, ls: seq<string>, ks: seq<LineKind>, out: seq<nat>, k: nat, pc: nat,
                 rd: string, rs: string, r: nat, s: nat)
    requires LaidUpTo(LineCode(labels), ls, ks, out, k) && k < |ls| && ls[k] == Line2(ADD, rd, rs)
    requires IsOperand(rd) && IsOperand(rs) && ParseReg(rd) == Ok(r) && ParseReg(rs) == Ok(s)
    requires Address(ks, k) == pc && Address(ks, k + 1) == pc + 2 <= |out|
    requires out[pc] == 0x20 + r * 2 && out[pc + 1] == s
    ensures LaidUpTo(LineCode(labels), ls, ks, out, k + 1)
  {
    OpcodeBytes();
    AssembleRegisterRegister(ADD, rd, rs, labels, pc, r, s);
    PairStep(labels, ls, ks, out, k, pc, Line2(ADD, rd, rs), 0x20 + r * 2, s);
  }

  /** `SUB <rd>, <rs>` as line `k`: 0x30 plus twice `rd` in byte 0, `rs`
      in byte 1. */
  lemma SubStep(labels: map<string, nat>, ls: seq<string>, ks: seq<LineKind>, out: seq<nat>, k: nat, pc: nat,
                 rd: string, rs: string, r: nat, s: nat)
    requires LaidUpTo(LineCode(labels), ls, ks, out, k) && k < |ls| && ls[k] == Line2(SUB, rd, rs)
    requires IsOperand(rd) && IsOperand(rs) && ParseReg(rd) == Ok(r) && ParseReg(rs) == Ok(s)
    requires Address(ks, k) == pc && Address(ks, k + 1) == pc + 2 <= |out|
    requires out[pc] == 0x30 + r * 2 && out[pc + 1] == s
    ensures LaidUpTo(LineCode(labels), ls, ks, out, k + 1)
  {
    OpcodeBytes();
    AssembleRegisterRegister(SUB, rd, rs, labels, pc, r, s);
    PairStep(labels, ls, ks, out, k, pc, Line2(SUB, rd, rs), 0x30 + r * 2, s);
  }

  /** `AND <rd>, <rs>` as line `k`: 0x40 plus twice `rd` in byte 0, `rs`
      in byte 1. */
  lemma AndStep(labels: map<string, nat>, ls: seq<string>, ks: seq<LineKind>, out: seq<nat>, k: nat, pc: nat,
                 rd: string, rs: string, r: nat, s: nat)
    requires LaidUpTo(LineCode(labels), ls, ks, out, k) && k < |ls| && ls[k] == Line2(AND, rd, rs)
    requires IsOperand(rd) && IsOperand(rs) && ParseReg(rd) == Ok(r) && ParseReg(rs) == Ok(s)
    requires Address(ks, k) == pc && Address(ks, k + 1) == pc + 2 <= |out|
    requires out[pc] == 0x40 + r * 2 && out[pc + 1] == s
    ensures LaidUpTo(LineCode(labels), ls, ks, out, k + 1)
  {
    OpcodeBytes();
    AssembleRegisterRegister(AND, rd, rs, labels, pc, r, s);
    PairStep(labels, ls, ks, out, k, pc, Line2(AND, rd, rs), 0x40 + r * 2, s);
  }

  /** `OR <rd>, <rs>` as line `k`: 0x50 plus twice `rd` in byte 0, `rs`
      in byte 1. */
  lemma OrStep(labels: map<string, nat>, ls: seq<string>, ks: seq<LineKind>, out: seq<nat>, k: nat, pc: nat,
                rd: string, rs: string, r: nat, s: nat)
    requires LaidUpTo(LineCode(labels), ls, ks, out, k) && k < |ls| && ls[k] == Line2(OR, rd, rs)
    requires IsOperand(rd) && IsOperand(rs) && ParseReg(rd) == Ok(r) && ParseReg(rs) == Ok(s)
    requires Address(ks, k) == pc && Address(ks, k + 1) == pc + 2 <= |out|
    requires out[pc] == 0x50 + r * 2 && out[pc + 1] == s
    ensures LaidUpTo(LineCode(labels), ls, ks, out, k + 1)
  {
    OpcodeBytes();
    AssembleRegisterRegister(OR, rd, rs, labels, pc, r, s);
    PairStep(labels, ls, ks, out, k, pc, Line2(OR, rd, rs), 0x50 + r * 2, s);
  }

  /** `XOR <rd>, <rs>` as line `k`: 0x60 plus twice `rd` in byte 0, `rs`
      in byte 1. */
  lemma XorStep(labels: map<string, nat>, ls: seq<string>, ks: seq<LineKind>, out: seq<nat>, k: nat, pc: nat,
                 rd: string, rs: string, r: nat, s: nat)
    requires LaidUpTo(LineCode(labels), ls, ks, out, k) && k < |ls| && ls[k] == Line2(XOR, rd, rs)
    requires IsOperand(rd) && IsOperand(rs) && ParseReg(rd) == Ok(r) && ParseReg(rs) == Ok(s)
    requires Address(ks, k) == pc && Address(ks, k + 1) == pc + 2 <= |out|
    requires out[pc] == 0x60 + r * 2 && out[pc + 1] == s
    ensures LaidUpTo(LineCode(labels), ls, ks, out, k + 1)
  {
    OpcodeBytes();
    AssembleRegisterRegister(XOR, rd, rs, labels, pc, r, s);
    PairStep(labels, ls, ks, out, k, pc, Line2(XOR, rd, rs), 0x60 + r * 2, s);
  }

  /** Any two-register ALU instruction as line `k`, one instruction at a
      time. */
  lemma AluStep(labels: map<string, nat>, ls: seq<string>, ks: seq<LineKind>, out: seq<nat>, k: nat, pc: nat,
                i: Instruction, rd: string, rs: string, r: nat, s: nat)
    requires LaidUpTo(LineCode(labels), ls, ks, out, k) && k < |ls| && ls[k] == Line2(i, rd, rs) && IsAlu(i)
    requires IsOperand(rd) && IsOperand(rs) && ParseReg(rd) == Ok(r) && ParseReg(rs) == Ok(s)
    requires Address(ks, k) == pc && Address(ks, k + 1) == pc + 2 <= |out|
    requires out[pc] == Opcode(i) * 16 + r * 2 && out[pc + 1] == s
    ensures LaidUpTo(LineCode(labels), ls, ks, out, k + 1)
  {
    if i == ADD {
      AddStep(labels, ls, ks, out, k, pc, rd, rs, r, s);
    } else if i == SUB {
      SubStep(labels, ls, ks, out, k, pc, rd, rs, r, s);
    } else if i == AND {
      AndStep(labels, ls, ks, out, k, pc, rd, rs, r, s);
    } else if i == OR {
      OrStep(labels, ls, ks, out, k, pc, rd, rs, r, s);
    } else {
      XorStep(labels, ls, ks, out, k, pc, rd, rs, r, s);
    }
  }

  /** `JMP <name>` or `BRZ <name>` as line `k`: the opcode in byte 0, the
      label's address (JMP) or its offset from the next instruction (BRZ)
      in byte 1. */
  lemma ControlStep(labels: map<string, nat>, ls: seq<string>, ks: seq<LineKind>, out: seq<nat>, k: nat, pc: nat,
                    i: Instruction, name: string)
    requires LaidUpTo(LineCode(labels), ls, ks, out, k) && k < |ls| && ls[k] == Line1(i, name)
    requires i == JMP || i == BRZ
    requires IsOperand(name) && name in labels
    requires Address(ks, k) == pc && Address(ks, k + 1) == pc + 2 <= |out|
    requires out[pc] == Opcode(i) * 16
    requires out[pc + 1] == if i == JMP then labels[name] else BranchOffset(labels[name], pc)
    ensures LaidUpTo(LineCode(labels), ls, ks, out, k + 1)
  {
    LabelOperand(name, labels);
    AssembleControl(i, name, labels, pc, labels[name]);
    PairStep(labels, ls, ks, out, k, pc, Line1(i, name), Opcode(i) * 16, out[pc + 1]);
  }

  /** `<name>:` as line `k`: no bytes. */
  lemma LabelStep(labels: map<string, nat>, ls: seq<string>, ks: seq<LineKind>, out: seq<nat>, k: nat, pc: nat, name: string)
    requires LaidUpTo(LineCode(labels), ls, ks, out, k) && k < |ls| && ls[k] == LabelLine(name)
    requires IsWord(name) && ';' !in name
    requires Address(ks, k) == pc && Address(ks, k + 1) == pc <= |out|
    ensures LaidUpTo(LineCode(labels), ls, ks, out, k + 1)
  {
    AssembleLabelLine(name, labels, pc);
    assert out[pc..pc] == [];
    LaidExtend(LineCode(labels), ls, ks, out, k);
  }

  // ---------------------------------------------------------------------
  // A whole program.

  /** A program whose lines hold no line break (the last one not empty),
      are read as `ks`, define the labels `labels` and put their bytes in
      place in `out`, of the length pass 1 counts: its text, the lines
      joined with `\n`, assembles to `out`. */
  lemma ProgramAssembles(ls: seq<string>, ks: seq<LineKind>, labels: map<string, nat>, out: seq<nat>)
    requires ls != [] && ls[|ls| - 1] != [] && UnbrokenUpTo(ls, |ls|)
    requires ReadUpTo(ls, ks, |ls|)
    requires ResolveLabels(ks, 0, map[], 0) == Ok(labels)
    requires LaidUpTo(LineCode(labels), ls, ks, out, |ls|) && |out| == Address(ks, |ks|)
    ensures AssembleText(JoinLines(ls)) == Ok(out)
  {
    SplitJoinLines(ls);
    KindsOf(ls, ks);
    LineCodeSized(ls, labels);
    LayoutDeterminesProgram(LineCode(labels), ls, ks, out);
    AssembleTextOf(JoinLines(ls), ls, ks, labels, out);
  }
}
