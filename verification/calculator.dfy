/** The calculator front end (src/cpu_gui.py, `generate_assembly_for_op`):
    the programs it writes and what the assembler makes of them. */
module Calculator {
  import opened Text
  import opened Numerals
  import opened Isa
  import opened Operands
  import opened Encoder
  import opened Assembler
  import opened Lowering
  import opened Placement

  /** The operator symbols the calculator accepts. */
  const Operators: seq<string> := ["+", "-", "&", "|", "^", "*"]

  /** The ALU instruction an operator is lowered to; `*` has none. */
  function AluOf(op: string): (r: Option<Instruction>)
    ensures r.Some? ==> IsAlu(r.value) && op in Operators
    ensures r.None? && op in Operators ==> op == "*"
  {
    if op == "+" then Some(ADD)
    else if op == "-" then Some(SUB)
    else if op == "&" then Some(AND)
    else if op == "|" then Some(OR)
    else if op == "^" then Some(XOR)
    else None
  }

  /** The words the calculator writes into its programs: the register
      names R0..R3, the constants `0` and `1`, the two values, the output
      address operand `[0xF0]` and the label names `loop_mul`, `end_mul`
      and `loop`. The programs are stated over any words, so that the
      proofs about them never compute on the concrete text. */
  datatype Words = Words(r0: string, r1: string, r2: string, r3: string,
                         zero: string, one: string, x: string, y: string,
                         output: string, loopMul: string, endMul: string, loop: string)

  /** The words of the programs for `a` and `b`: the values are written in
      decimal, as `f"{a}"` does. */
  function WordsOf(a: int, b: int): Words {
    Words(RegisterName(0), RegisterName(1), RegisterName(2), RegisterName(3),
          "0", "1", Decimal(a), Decimal(b),
          "[0xF0]", "loop_mul", "end_mul", "loop")
  }

  /** The one-instruction program: load both values, apply the ALU
      instruction, store R0 to the I/O address, loop forever. */
  function AluProgram(w: Words, i: Instruction): seq<string> {
    [ Line2(LDI, w.r0, w.x),
      Line2(LDI, w.r1, w.y),
      Line2(i, w.r0, w.r1),
      Line2(ST, w.r0, w.output),
      LabelLine(w.loop),
      Line1(JMP, w.loop) ]
  }

  /** The multiplication program: R0 accumulates R1 while R2 counts down
      by R3 = 1 until it reaches zero. */
  function MulProgram(w: Words): seq<string> {
    [ Line2(LDI, w.r0, w.zero),
      Line2(LDI, w.r1, w.x),
      Line2(LDI, w.r2, w.y),
      Line2(LDI, w.r3, w.one),
      LabelLine(w.loopMul),
      Line2(ADD, w.r0, w.r1),
      Line2(SUB, w.r2, w.r3),
      Line1(BRZ, w.endMul),
      Line1(JMP, w.loopMul),
      LabelLine(w.endMul),
      Line2(ST, w.r0, w.output),
      LabelLine(w.loop),
      Line1(JMP, w.loop) ]
  }

  /** `generate_assembly_for_op`: the program text for `a op b`, or the
      error for an operator it does not support. Surrounding whitespace of
      the operator is ignored. */
  function GenerateAssembly(a: int, b: int, op: string): (r: Result<string>)
    ensures r.Err? <==> Strip(op) !in Operators
    ensures r.Err? ==> r.error == UnsupportedOperation
  {
    var o := Strip(op);
    if o !in Operators then Err(UnsupportedOperation)
    else if AluOf(o).Some? then Ok(JoinLines(AluProgram(WordsOf(a, b), AluOf(o).value)))
    else Ok(JoinLines(MulProgram(WordsOf(a, b))))
  }

  // ---------------------------------------------------------------------
  // What the proofs need of the words.

  /** Every word is an operand. */
  predicate WordsAreOperands(w: Words) {
    IsOperand(w.r0) && IsOperand(w.r1) && IsOperand(w.r2) && IsOperand(w.r3)
    && IsOperand(w.zero) && IsOperand(w.one) && IsOperand(w.x) && IsOperand(w.y)
    && IsOperand(w.output) && IsOperand(w.loopMul) && IsOperand(w.endMul) && IsOperand(w.loop)
  }

  /** The register words read as R0..R3. */
  predicate RegistersRead(w: Words) {
    ParseReg(w.r0) == Ok(0) && ParseReg(w.r1) == Ok(1) && ParseReg(w.r2) == Ok(2) && ParseReg(w.r3) == Ok(3)
  }

  /** Given the label table, the constants read as 0 and 1, the values as
      `xv` and `yv`, and the output operand without its brackets as 0xF0. */
  predicate NumbersRead(w: Words, labels: map<string, nat>, xv: nat, yv: nat) {
    ParseImm(w.zero, labels) == Ok(0) && ParseImm(w.one, labels) == Ok(1)
    && ParseImm(w.x, labels) == Ok(xv) && ParseImm(w.y, labels) == Ok(yv)
    && ParseImm(RemoveBrackets(w.output), labels) == Ok(0xF0)
  }

  lemma ZeroOperand(labels: map<string, nat>)
    requires "0" !in labels
    ensures ParseImm("0", labels) == Ok(0)
  {
    assert Decimal(0) == "0";
    DecimalOperand(0, labels);
  }

  lemma OneOperand(labels: map<string, nat>)
    requires "1" !in labels
    ensures ParseImm("1", labels) == Ok(1)
  {
    assert Decimal(1) == "1";
    DecimalOperand(1, labels);
  }

  /** The calculator's register words are operands. */
  lemma RegisterWordsOf(a: int, b: int)
    ensures var w := WordsOf(a, b);
      IsOperand(w.r0) && IsOperand(w.r1) && IsOperand(w.r2) && IsOperand(w.r3)
  {
    RegisterOperand(0);
    RegisterOperand(1);
    RegisterOperand(2);
    RegisterOperand(3);
  }

  /** The calculator's constants, values and output address are operands. */
  lemma NumberWordsOf(a: int, b: int)
    ensures var w := WordsOf(a, b);
      IsOperand(w.zero) && IsOperand(w.one) && IsOperand(w.x) && IsOperand(w.y) && IsOperand(w.output)
  {
    PlainOperand("0");
    PlainOperand("1");
    DecimalIsOperand(a);
    DecimalIsOperand(b);
    OutputAddressText();
  }

  /** The calculator's label names are operands. */
  lemma LabelWordsOf(a: int, b: int)
    ensures var w := WordsOf(a, b);
      IsOperand(w.loopMul) && IsOperand(w.endMul) && IsOperand(w.loop)
  {
    PlainOperand("loop_mul");
    PlainOperand("end_mul");
    PlainOperand("loop");
  }

  /** The calculator's words are operands. */
  lemma WordsOfAreOperands(a: int, b: int)
    ensures WordsAreOperands(WordsOf(a, b))
  {
    RegisterWordsOf(a, b);
    NumberWordsOf(a, b);
    LabelWordsOf(a, b);
  }

  /** The calculator's register words read as R0..R3. */
  lemma WordsOfRegisters(a: int, b: int)
    ensures RegistersRead(WordsOf(a, b))
  {
    RegisterOperand(0);
    RegisterOperand(1);
    RegisterOperand(2);
    RegisterOperand(3);
  }

  /** Unless the label table has one of them as a name, the calculator's
      numbers read as 0, 1, `a` and `b` modulo 256, and 0xF0. */
  lemma WordsOfNumbers(a: int, b: int, labels: map<string, nat>)
    requires "0" !in labels && "1" !in labels && "0xF0" !in labels
    requires Decimal(a) !in labels && Decimal(b) !in labels
    ensures NumbersRead(WordsOf(a, b), labels, a % 256, b % 256)
  {
    ZeroOperand(labels);
    OneOperand(labels);
    DecimalOperand(a, labels);
    DecimalOperand(b, labels);
    OutputAddressOperand(labels);
  }

  // ---------------------------------------------------------------------
  // The one-instruction program assembles to ten bytes.

  /** How both passes read the lines of the one-instruction program. */
  function AluKinds(w: Words, i: Instruction): seq<LineKind> {
    [ Instr(Name(LDI), [w.r0, w.x]),
      Instr(Name(LDI), [w.r1, w.y]),
      Instr(Name(i), [w.r0, w.r1]),
      Instr(Name(ST), [w.r0, w.output]),
      LabelDef(w.loop),
      Instr(Name(JMP), [w.loop]) ]
  }

  /** The label table of the one-instruction program. */
  function AluTable(w: Words): map<string, nat> {
    map[w.loop := 8]
  }

  /** The bytes of the one-instruction program for the values `xv`, `yv`. */
  function AluBytes(xv: nat, yv: nat, i: Instruction): seq<nat> {
    [0x10, xv, 0x12, yv, Opcode(i) * 16, 1, 0x80, 0xF0, 0xA0, 8]
  }

  /** Where each line of the one-instruction program starts. */
  lemma AluAddresses(w: Words, i: Instruction)
    ensures var ks := AluKinds(w, i);
      Address(ks, 0) == 0 && Address(ks, 1) == 2 && Address(ks, 2) == 4 && Address(ks, 3) == 6
      && Address(ks, 4) == 8 && Address(ks, 5) == 8 && Address(ks, 6) == 10
  {
    var ks := AluKinds(w, i);
    assert Address(ks, 1) == 2;
    assert Address(ks, 2) == 4;
    assert Address(ks, 3) == 6;
    assert Address(ks, 4) == 8;
    assert Address(ks, 5) == 8;
  }

  /** Pass 1 over the one-instruction program enters its loop label at 8. */
  lemma AluLabels(w: Words, i: Instruction)
    ensures ResolveLabels(AluKinds(w, i), 0, map[], 0) == Ok(AluTable(w))
  {
    var ks := AluKinds(w, i);
    assert ResolveLabels(ks, 0, map[], 0) == ResolveLabels(ks, 2, map[], 4);
    assert ResolveLabels(ks, 2, map[], 4) == ResolveLabels(ks, 4, map[], 8);
    assert ResolveLabels(ks, 4, map[], 8) == ResolveLabels(ks, 6, map[w.loop := 8], 10);
  }

  /** The first `n` lines of the one-instruction program hold no line
      break, are read as `AluKinds` says and assemble to their bytes. */
  ghost predicate AluUpTo(w: Words, i: Instruction, xv: nat, yv: nat, n: nat) {
    UnbrokenUpTo(AluProgram(w, i), n) && ReadUpTo(AluProgram(w, i), AluKinds(w, i), n)
    && LaidUpTo(LineCode(AluTable(w)), AluProgram(w, i), AluKinds(w, i), AluBytes(xv, yv, i), n)
  }

  /** `LDI R0, <a>` at 0. */
  lemma AluLoadX(w: Words, i: Instruction, xv: nat, yv: nat)
    requires AluUpTo(w, i, xv, yv, 0)
    requires IsOperand(w.r0) && IsOperand(w.x) && ParseReg(w.r0) == Ok(0) && ParseImm(w.x, AluTable(w)) == Ok(xv)
    ensures AluUpTo(w, i, xv, yv, 1)
  {
    var ls, ks := AluProgram(w, i), AluKinds(w, i);
    AluAddresses(w, i);
    UnbrokenLine2(ls, 0, LDI, w.r0, w.x);
    ReadLine2(ls, ks, 0, LDI, w.r0, w.x);
    LoadStep(AluTable(w), ls, ks, AluBytes(xv, yv, i), 0, 0, w.r0, w.x, 0, xv);
  }

  /** `LDI R1, <b>` at 2. */
  lemma AluLoadY(w: Words, i: Instruction, xv: nat, yv: nat)
    requires AluUpTo(w, i, xv, yv, 1)
    requires IsOperand(w.r1) && IsOperand(w.y) && ParseReg(w.r1) == Ok(1) && ParseImm(w.y, AluTable(w)) == Ok(yv)
    ensures AluUpTo(w, i, xv, yv, 2)
  {
    var ls, ks := AluProgram(w, i), AluKinds(w, i);
    AluAddresses(w, i);
    UnbrokenLine2(ls, 1, LDI, w.r1, w.y);
    ReadLine2(ls, ks, 1, LDI, w.r1, w.y);
    LoadStep(AluTable(w), ls, ks, AluBytes(xv, yv, i), 1, 2, w.r1, w.y, 1, yv);
  }

  /** `<ALU> R0, R1` at 4. */
  lemma AluApply(w: Words, i: Instruction, xv: nat, yv: nat)
    requires AluUpTo(w, i, xv, yv, 2) && IsAlu(i)
    requires IsOperand(w.r0) && IsOperand(w.r1) && ParseReg(w.r0) == Ok(0) && ParseReg(w.r1) == Ok(1)
    ensures AluUpTo(w, i, xv, yv, 3)
  {
    var ls, ks := AluProgram(w, i), AluKinds(w, i);
    AluAddresses(w, i);
    UnbrokenLine2(ls, 2, i, w.r0, w.r1);
    ReadLine2(ls, ks, 2, i, w.r0, w.r1);
    AluStep(AluTable(w), ls, ks, AluBytes(xv, yv, i), 2, 4, i, w.r0, w.r1, 0, 1);
  }

  /** `ST R0, [0xF0]` at 6. */
  lemma AluStore(w: Words, i: Instruction, xv: nat, yv: nat)
    requires AluUpTo(w, i, xv, yv, 3)
    requires IsOperand(w.r0) && IsOperand(w.output) && ParseReg(w.r0) == Ok(0)
    requires ParseImm(RemoveBrackets(w.output), AluTable(w)) == Ok(0xF0)
    ensures AluUpTo(w, i, xv, yv, 4)
  {
    var ls, ks := AluProgram(w, i), AluKinds(w, i);
    AluAddresses(w, i);
    UnbrokenLine2(ls, 3, ST, w.r0, w.output);
    ReadLine2(ls, ks, 3, ST, w.r0, w.output);
    StoreStep(AluTable(w), ls, ks, AluBytes(xv, yv, i), 3, 6, w.r0, w.output, 0, 0xF0);
  }

  /** `loop:` at 8. */
  lemma AluHaltLabel(w: Words, i: Instruction, xv: nat, yv: nat)
    requires AluUpTo(w, i, xv, yv, 4) && IsOperand(w.loop)
    ensures AluUpTo(w, i, xv, yv, 5)
  {
    var ls, ks := AluProgram(w, i), AluKinds(w, i);
    AluAddresses(w, i);
    UnbrokenLabel(ls, 4, w.loop);
    ReadLabel(ls, ks, 4, w.loop);
    LabelStep(AluTable(w), ls, ks, AluBytes(xv, yv, i), 4, 8, w.loop);
  }

  /** `JMP loop` at 8. */
  lemma AluHalt(w: Words, i: Instruction, xv: nat, yv: nat)
    requires AluUpTo(w, i, xv, yv, 5) && IsOperand(w.loop)
    ensures AluUpTo(w, i, xv, yv, 6)
  {
    var ls, ks := AluProgram(w, i), AluKinds(w, i);
    AluAddresses(w, i);
    UnbrokenLine1(ls, 5, JMP, w.loop);
    ReadLine1(ls, ks, 5, JMP, w.loop);
    ControlStep(AluTable(w), ls, ks, AluBytes(xv, yv, i), 5, 8, JMP, w.loop);
  }

  /** Over any words that read as the calculator's do, the one-instruction
      program assembles to its ten bytes. */
  lemma AluAssembles(w: Words, i: Instruction, xv: nat, yv: nat)
    requires IsAlu(i) && WordsAreOperands(w) && RegistersRead(w) && NumbersRead(w, AluTable(w), xv, yv)
    ensures AssembleText(JoinLines(AluProgram(w, i))) == Ok(AluBytes(xv, yv, i))
  {
    AluLoadX(w, i, xv, yv);
    AluLoadY(w, i, xv, yv);
    AluApply(w, i, xv, yv);
    AluStore(w, i, xv, yv);
    AluHaltLabel(w, i, xv, yv);
    AluHalt(w, i, xv, yv);
    AluAddresses(w, i);
    AluLabels(w, i);
    ProgramAssembles(AluProgram(w, i), AluKinds(w, i), AluTable(w), AluBytes(xv, yv, i));
  }

  /** The words of the program for `a op b`, read with its label table. */
  lemma AluWordsOf(a: int, b: int)
    ensures var w := WordsOf(a, b);
      WordsAreOperands(w) && RegistersRead(w) && NumbersRead(w, AluTable(w), a % 256, b % 256)
  {
    WordsOfAreOperands(a, b);
    WordsOfRegisters(a, b);
    DecimalIsOperand(a);
    DecimalIsOperand(b);
    WordsOfNumbers(a, b, AluTable(WordsOf(a, b)));
  }

  /** The one-instruction program for `a op b` assembles to ten bytes: load
      `a` into R0 and `b` into R1 (each modulo 256), apply the operator's
      ALU instruction to R0 and R1, store R0 to 0xF0, and jump to address 8,
      the jump itself. */
  lemma GeneratedAluProgram(a: int, b: int, op: string)
    requires AluOf(Strip(op)).Some?
    ensures GenerateAssembly(a, b, op).Ok?
    ensures AssembleText(GenerateAssembly(a, b, op).value)
         == Ok([0x10, a % 256, 0x12, b % 256, Opcode(AluOf(Strip(op)).value) * 16, 1, 0x80, 0xF0, 0xA0, 8])
  {
    var i := AluOf(Strip(op)).value;
    var w := WordsOf(a, b);
    assert GenerateAssembly(a, b, op) == Ok(JoinLines(AluProgram(w, i)));
    AluWordsOf(a, b);
    AluAssembles(w, i, a % 256, b % 256);
  }

  // ---------------------------------------------------------------------
  // The multiplication program assembles to twenty bytes.

  /** How both passes read the lines of the multiplication program. */
  function MulKinds(w: Words): seq<LineKind> {
    [ Instr(Name(LDI), [w.r0, w.zero]),
      Instr(Name(LDI), [w.r1, w.x]),
      Instr(Name(LDI), [w.r2, w.y]),
      Instr(Name(LDI), [w.r3, w.one]),
      LabelDef(w.loopMul),
      Instr(Name(ADD), [w.r0, w.r1]),
      Instr(Name(SUB), [w.r2, w.r3]),
      Instr(Name(BRZ), [w.endMul]),
      Instr(Name(JMP), [w.loopMul]),
      LabelDef(w.endMul),
      Instr(Name(ST), [w.r0, w.output]),
      LabelDef(w.loop),
      Instr(Name(JMP), [w.loop]) ]
  }

  /** The three label names differ. */
  predicate DistinctLabels(w: Words) {
    w.loopMul != w.endMul && w.loopMul != w.loop && w.endMul != w.loop
  }

  /** The label table of the multiplication program. */
  function MulTable(w: Words): map<string, nat> {
    map[w.loopMul := 8, w.endMul := 16, w.loop := 18]
  }

  /** The bytes of the multiplication program for the values `xv`, `yv`. */
  function MulBytes(xv: nat, yv: nat): seq<nat> {
    [0x10, 0, 0x12, xv, 0x14, yv, 0x16, 1,
     0x20, 1, 0x34, 3, 0x90, 2, 0xA0, 8,
     0x80, 0xF0, 0xA0, 18]
  }

  /** Where each line of the multiplication program starts. */
  lemma MulAddresses(w: Words)
    ensures var ks := MulKinds(w);
      Address(ks, 0) == 0 && Address(ks, 1) == 2 && Address(ks, 2) == 4 && Address(ks, 3) == 6
      && Address(ks, 4) == 8 && Address(ks, 5) == 8 && Address(ks, 6) == 10 && Address(ks, 7) == 12
      && Address(ks, 8) == 14 && Address(ks, 9) == 16 && Address(ks, 10) == 16 && Address(ks, 11) == 18
      && Address(ks, 12) == 18 && Address(ks, 13) == 20
  {
    var ks := MulKinds(w);
    assert Address(ks, 1) == 2;
    assert Address(ks, 2) == 4;
    assert Address(ks, 3) == 6;
    assert Address(ks, 4) == 8;
    assert Address(ks, 5) == 8;
    assert Address(ks, 6) == 10;
    assert Address(ks, 7) == 12;
    assert Address(ks, 8) == 14;
    assert Address(ks, 9) == 16;
    assert Address(ks, 10) == 16;
    assert Address(ks, 11) == 18;
    assert Address(ks, 12) == 18;
  }

  /** Pass 1 over the multiplication program enters its three labels at 8,
      16 and 18. */
  lemma MulLabels(w: Words)
    requires DistinctLabels(w)
    ensures ResolveLabels(MulKinds(w), 0, map[], 0) == Ok(MulTable(w))
  {
    MulLabelsSetup(w);
    MulLabelsLoop(w);
    MulLabelsFromEnd(w);
  }

  /** Pass 1 over the loads and `loop_mul:` enters `loop_mul` at 8. */
  lemma MulLabelsSetup(w: Words)
    ensures ResolveLabels(MulKinds(w), 0, map[], 0) == ResolveLabels(MulKinds(w), 5, map[w.loopMul := 8], 8)
  {
    var ks := MulKinds(w);
    ResolveStep(ks, 0, map[], 0);
    ResolveStep(ks, 1, map[], 2);
    ResolveStep(ks, 2, map[], 4);
    ResolveStep(ks, 3, map[], 6);
    ResolveStep(ks, 4, map[], 8);
  }

  /** Pass 1 over the loop body enters no label. */
  lemma MulLabelsLoop(w: Words)
    ensures ResolveLabels(MulKinds(w), 5, map[w.loopMul := 8], 8) == ResolveLabels(MulKinds(w), 9, map[w.loopMul := 8], 16)
  {
    var ks := MulKinds(w);
    var t1 := map[w.loopMul := 8];
    ResolveStep(ks, 5, t1, 8);
    ResolveStep(ks, 6, t1, 10);
    ResolveStep(ks, 7, t1, 12);
    ResolveStep(ks, 8, t1, 14);
  }

  /** Pass 1 from `end_mul:` on enters `end_mul` at 16 and `loop` at 18. */
  lemma MulLabelsFromEnd(w: Words)
    requires DistinctLabels(w)
    ensures ResolveLabels(MulKinds(w), 9, map[w.loopMul := 8], 16) == Ok(MulTable(w))
  {
    var ks := MulKinds(w);
    var t2 := map[w.loopMul := 8][w.endMul := 16];
    ResolveStep(ks, 9, map[w.loopMul := 8], 16);
    ResolveStep(ks, 10, t2, 16);
    ResolveStep(ks, 11, t2, 18);
    ResolveStep(ks, 12, t2[w.loop := 18], 18);
    assert t2[w.loop := 18] == MulTable(w);
  }

  /** The first `n` lines of the multiplication program hold no line
      break, are read as `MulKinds` says and assemble to their bytes. */
  ghost predicate MulUpTo(w: Words, xv: nat, yv: nat, n: nat) {
    UnbrokenUpTo(MulProgram(w), n) && ReadUpTo(MulProgram(w), MulKinds(w), n)
    && LaidUpTo(LineCode(MulTable(w)), MulProgram(w), MulKinds(w), MulBytes(xv, yv), n)
  }

  /** `LDI R0, 0` at 0. */
  lemma MulLoadZero(w: Words, xv: nat, yv: nat)
    requires MulUpTo(w, xv, yv, 0)
    requires IsOperand(w.r0) && IsOperand(w.zero) && ParseReg(w.r0) == Ok(0) && ParseImm(w.zero, MulTable(w)) == Ok(0)
    ensures MulUpTo(w, xv, yv, 1)
  {
    var ls, ks := MulProgram(w), MulKinds(w);
    MulAddresses(w);
    UnbrokenLine2(ls, 0, LDI, w.r0, w.zero);
    ReadLine2(ls, ks, 0, LDI, w.r0, w.zero);
    LoadStep(MulTable(w), ls, ks, MulBytes(xv, yv), 0, 0, w.r0, w.zero, 0, 0);
  }

  /** `LDI R1, <a>` at 2. */
  lemma MulLoadX(w: Words, xv: nat, yv: nat)
    requires MulUpTo(w, xv, yv, 1)
    requires IsOperand(w.r1) && IsOperand(w.x) && ParseReg(w.r1) == Ok(1) && ParseImm(w.x, MulTable(w)) == Ok(xv)
    ensures MulUpTo(w, xv, yv, 2)
  {
    var ls, ks := MulProgram(w), MulKinds(w);
    MulAddresses(w);
    UnbrokenLine2(ls, 1, LDI, w.r1, w.x);
    ReadLine2(ls, ks, 1, LDI, w.r1, w.x);
    LoadStep(MulTable(w), ls, ks, MulBytes(xv, yv), 1, 2, w.r1, w.x, 1, xv);
  }

  /** `LDI R2, <b>` at 4. */
  lemma MulLoadY(w: Words, xv: nat, yv: nat)
    requires MulUpTo(w, xv, yv, 2)
    requires IsOperand(w.r2) && IsOperand(w.y) && ParseReg(w.r2) == Ok(2) && ParseImm(w.y, MulTable(w)) == Ok(yv)
    ensures MulUpTo(w, xv, yv, 3)
  {
    var ls, ks := MulProgram(w), MulKinds(w);
    MulAddresses(w);
    UnbrokenLine2(ls, 2, LDI, w.r2, w.y);
    ReadLine2(ls, ks, 2, LDI, w.r2, w.y);
    LoadStep(MulTable(w), ls, ks, MulBytes(xv, yv), 2, 4, w.r2, w.y, 2, yv);
  }

  /** `LDI R3, 1` at 6. */
  lemma MulLoadOne(w: Words, xv: nat, yv: nat)
    requires MulUpTo(w, xv, yv, 3)
    requires IsOperand(w.r3) && IsOperand(w.one) && ParseReg(w.r3) == Ok(3) && ParseImm(w.one, MulTable(w)) == Ok(1)
    ensures MulUpTo(w, xv, yv, 4)
  {
    var ls, ks := MulProgram(w), MulKinds(w);
    MulAddresses(w);
    UnbrokenLine2(ls, 3, LDI, w.r3, w.one);
    ReadLine2(ls, ks, 3, LDI, w.r3, w.one);
    LoadStep(MulTable(w), ls, ks, MulBytes(xv, yv), 3, 6, w.r3, w.one, 3, 1);
  }

  /** `loop_mul:` at 8. */
  lemma MulLoopLabel(w: Words, xv: nat, yv: nat)
    requires MulUpTo(w, xv, yv, 4) && IsOperand(w.loopMul)
    ensures MulUpTo(w, xv, yv, 5)
  {
    var ls, ks := MulProgram(w), MulKinds(w);
    MulAddresses(w);
    UnbrokenLabel(ls, 4, w.loopMul);
    ReadLabel(ls, ks, 4, w.loopMul);
    LabelStep(MulTable(w), ls, ks, MulBytes(xv, yv), 4, 8, w.loopMul);
  }

  /** `ADD R0, R1` at 8. */
  lemma MulAdd(w: Words, xv: nat, yv: nat)
    requires MulUpTo(w, xv, yv, 5)
    requires IsOperand(w.r0) && IsOperand(w.r1) && ParseReg(w.r0) == Ok(0) && ParseReg(w.r1) == Ok(1)
    ensures MulUpTo(w, xv, yv, 6)
  {
    var ls, ks := MulProgram(w), MulKinds(w);
    MulAddresses(w);
    UnbrokenLine2(ls, 5, ADD, w.r0, w.r1);
    ReadLine2(ls, ks, 5, ADD, w.r0, w.r1);
    AddStep(MulTable(w), ls, ks, MulBytes(xv, yv), 5, 8, w.r0, w.r1, 0, 1);
  }

  /** `SUB R2, R3` at 10. */
  lemma MulCountDown(w: Words, xv: nat, yv: nat)
    requires MulUpTo(w, xv, yv, 6)
    requires IsOperand(w.r2) && IsOperand(w.r3) && ParseReg(w.r2) == Ok(2) && ParseReg(w.r3) == Ok(3)
    ensures MulUpTo(w, xv, yv, 7)
  {
    var ls, ks := MulProgram(w), MulKinds(w);
    MulAddresses(w);
    UnbrokenLine2(ls, 6, SUB, w.r2, w.r3);
    ReadLine2(ls, ks, 6, SUB, w.r2, w.r3);
    SubStep(MulTable(w), ls, ks, MulBytes(xv, yv), 6, 10, w.r2, w.r3, 2, 3);
  }

  /** `BRZ end_mul` at 12: two bytes past the next instruction. */
  lemma MulBranchOut(w: Words, xv: nat, yv: nat)
    requires MulUpTo(w, xv, yv, 7) && DistinctLabels(w) && IsOperand(w.endMul)
    ensures MulUpTo(w, xv, yv, 8)
  {
    var ls, ks := MulProgram(w), MulKinds(w);
    MulAddresses(w);
    UnbrokenLine1(ls, 7, BRZ, w.endMul);
    ReadLine1(ls, ks, 7, BRZ, w.endMul);
    ControlStep(MulTable(w), ls, ks, MulBytes(xv, yv), 7, 12, BRZ, w.endMul);
  }

  /** `JMP loop_mul` at 14. */
  lemma MulJumpBack(w: Words, xv: nat, yv: nat)
    requires MulUpTo(w, xv, yv, 8) && DistinctLabels(w) && IsOperand(w.loopMul)
    ensures MulUpTo(w, xv, yv, 9)
  {
    var ls, ks := MulProgram(w), MulKinds(w);
    MulAddresses(w);
    UnbrokenLine1(ls, 8, JMP, w.loopMul);
    ReadLine1(ls, ks, 8, JMP, w.loopMul);
    ControlStep(MulTable(w), ls, ks, MulBytes(xv, yv), 8, 14, JMP, w.loopMul);
  }

  /** `end_mul:` at 16. */
  lemma MulEndLabel(w: Words, xv: nat, yv: nat)
    requires MulUpTo(w, xv, yv, 9) && IsOperand(w.endMul)
    ensures MulUpTo(w, xv, yv, 10)
  {
    var ls, ks := MulProgram(w), MulKinds(w);
    MulAddresses(w);
    UnbrokenLabel(ls, 9, w.endMul);
    ReadLabel(ls, ks, 9, w.endMul);
    LabelStep(MulTable(w), ls, ks, MulBytes(xv, yv), 9, 16, w.endMul);
  }

  /** `ST R0, [0xF0]` at 16. */
  lemma MulStore(w: Words, xv: nat, yv: nat)
    requires MulUpTo(w, xv, yv, 10)
    requires IsOperand(w.r0) && IsOperand(w.output) && ParseReg(w.r0) == Ok(0)
    requires ParseImm(RemoveBrackets(w.output), MulTable(w)) == Ok(0xF0)
    ensures MulUpTo(w, xv, yv, 11)
  {
    var ls, ks := MulProgram(w), MulKinds(w);
    MulAddresses(w);
    UnbrokenLine2(ls, 10, ST, w.r0, w.output);
    ReadLine2(ls, ks, 10, ST, w.r0, w.output);
    StoreStep(MulTable(w), ls, ks, MulBytes(xv, yv), 10, 16, w.r0, w.output, 0, 0xF0);
  }

  /** `loop:` at 18. */
  lemma MulHaltLabel(w: Words, xv: nat, yv: nat)
    requires MulUpTo(w, xv, yv, 11) && IsOperand(w.loop)
    ensures MulUpTo(w, xv, yv, 12)
  {
    var ls, ks := MulProgram(w), MulKinds(w);
    MulAddresses(w);
    UnbrokenLabel(ls, 11, w.loop);
    ReadLabel(ls, ks, 11, w.loop);
    LabelStep(MulTable(w), ls, ks, MulBytes(xv, yv), 11, 18, w.loop);
  }

  /** `JMP loop` at 18. */
  lemma MulHalt(w: Words, xv: nat, yv: nat)
    requires MulUpTo(w, xv, yv, 12) && IsOperand(w.loop)
    ensures MulUpTo(w, xv, yv, 13)
  {
    var ls, ks := MulProgram(w), MulKinds(w);
    MulAddresses(w);
    UnbrokenLine1(ls, 12, JMP, w.loop);
    ReadLine1(ls, ks, 12, JMP, w.loop);
    ControlStep(MulTable(w), ls, ks, MulBytes(xv, yv), 12, 18, JMP, w.loop);
  }

  /** The first seven lines, the register loads and the loop body, hold
      their first seven facts. */
  lemma MulSetupAndBody(w: Words, xv: nat, yv: nat)
    requires WordsAreOperands(w) && RegistersRead(w) && NumbersRead(w, MulTable(w), xv, yv)
    ensures MulUpTo(w, xv, yv, 7)
  {
    MulLoadZero(w, xv, yv);
    MulLoadX(w, xv, yv);
    MulLoadY(w, xv, yv);
    MulLoadOne(w, xv, yv);
    MulLoopLabel(w, xv, yv);
    MulAdd(w, xv, yv);
    MulCountDown(w, xv, yv);
  }

  /** Over any words that read as the calculator's do, with distinct label
      names, the multiplication program assembles to its twenty bytes. */
  lemma MulAssembles(w: Words, xv: nat, yv: nat)
    requires WordsAreOperands(w) && RegistersRead(w) && NumbersRead(w, MulTable(w), xv, yv) && DistinctLabels(w)
    ensures AssembleText(JoinLines(MulProgram(w))) == Ok(MulBytes(xv, yv))
  {
    MulSetupAndBody(w, xv, yv);
    MulBranchOut(w, xv, yv);
    MulJumpBack(w, xv, yv);
    MulEndLabel(w, xv, yv);
    MulStore(w, xv, yv);
    MulHaltLabel(w, xv, yv);
    MulHalt(w, xv, yv);
    MulAddresses(w);
    MulLabels(w);
    ProgramAssembles(MulProgram(w), MulKinds(w), MulTable(w), MulBytes(xv, yv));
  }

  /** The numbers the calculator writes are not label names. */
  lemma NumbersAreNotLabels(a: int, b: int, labels: map<string, nat>)
    requires forall name :: name in labels ==> name == "loop_mul" || name == "end_mul" || name == "loop"
    ensures "0" !in labels && "1" !in labels && "0xF0" !in labels
    ensures Decimal(a) !in labels && Decimal(b) !in labels
  {
    DecimalIsOperand(a);
    DecimalIsOperand(b);
  }

  /** The words of the program for `a * b`, read with its label table. */
  lemma MulWordsOf(a: int, b: int)
    ensures var w := WordsOf(a, b);
      WordsAreOperands(w) && RegistersRead(w) && NumbersRead(w, MulTable(w), a % 256, b % 256) && DistinctLabels(w)
  {
    var T := MulTable(WordsOf(a, b));
    WordsOfAreOperands(a, b);
    WordsOfRegisters(a, b);
    NumbersAreNotLabels(a, b, T);
    WordsOfNumbers(a, b, T);
  }

  /** For `*`, the generator writes the multiplication program. */
  lemma GenerateMul(a: int, b: int, op: string)
    requires Strip(op) == "*"
    ensures GenerateAssembly(a, b, op) == Ok(JoinLines(MulProgram(WordsOf(a, b))))
  {
  }

  /** The multiplication program for `a * b` assembles to twenty bytes: load
      0, `a`, `b` and 1 (each modulo 256) into R0..R3; at address 8 add R1
      to R0 and subtract R3 from R2; branch 2 bytes past the next
      instruction, to address 16, once R2 is zero, else jump back to 8;
      then store R0 to 0xF0 and jump to address 18, the jump itself. */
  lemma GeneratedMulProgram(a: int, b: int, op: string)
    requires Strip(op) == "*"
    ensures GenerateAssembly(a, b, op).Ok?
    ensures AssembleText(GenerateAssembly(a, b, op).value)
         == Ok([0x10, 0, 0x12, a % 256, 0x14, b % 256, 0x16, 1,
                0x20, 1, 0x34, 3, 0x90, 2, 0xA0, 8,
                0x80, 0xF0, 0xA0, 18])
  {
    GenerateMul(a, b, op);
    MulWordsOf(a, b);
    MulAssembles(WordsOf(a, b), a % 256, b % 256);
  }
}
