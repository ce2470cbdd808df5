# A verified model of the cpu_gui assembler

`src/cpu_gui.py` is the host-side tool for a small 8-bit CPU. It contains:

- an instruction table of eleven mnemonics with 4-bit opcodes, and eight registers R0..R7;
- a two-pass assembler that turns assembly text into a list of bytes;
- a calculator front end that writes a complete assembly program for `a op b`;
- a writer for a hex text file, one byte per line;
- a UART sender that wraps the program in a frame `55 AA LEN_H LEN_L data...`.

This project models all of that except the GUI and the actual I/O, and proves what the code promises.

The model is split into these modules:

- **`Isa`**: the `OPCODES` and `REGS` tables, the errors an assembly run can raise, and a `Result` type standing for "a value or the `ValueError` raised".
- **`Text`**: the string operations the assembler relies on. These are `split(";")[0]`, `strip()`, ASCII `upper()`, the tokeniser `re.split(r"[,\s]+")` with empty parts dropped, and `splitlines()`.
- **`Numerals`**: `int(s)` and `int(s, 16)` on digit strings, `f"{n}"` and `f"{n:02X}"`, and their round trips.
- **`Operands`**: `parse_reg` and `parse_imm`.
- **`Encoder`**: `assemble_line`.
  - `Classify` is the reading of a line that both passes share: blank, label definition, `NOP`, or an instruction with its operand tokens.
  - `EncodeInstruction` is the per-mnemonic encoding.
- **`Assembler`**: `assemble`.
  - Three pure definitions specify it. `ResolveLabels` is pass 1, `EncodeFrom` is pass 2, and `AssembleText` is the whole.
  - Two methods with loops implement the passes, each proved equal to its definition: `LabelPass` and `CodePass`. The method `Assemble` composes them and is proved equal to `AssembleText`.
  - Lemmas relate the two passes to each other.
- **`Lowering`** and **`Placement`**:
  - `Lowering` states how each kind of line that the calculator writes is read and assembled.
  - `Placement` assembles a straight-line program one line at a time.
- **`Calculator`**: `generate_assembly_for_op`, with the exact bytes that each generated program assembles to.
- **`Artifacts`**: the text `save_hex_file` writes and the frame `send_program_via_uart` builds. Each has a method that mirrors the source's loop, and a reader that proves the format round-trips.

Bytes are modelled as `nat`.

- Where the source masks with `& 0xFF`, the model takes the value modulo 256; Python's `&` on a negative integer gives the same result.
- Label addresses are returned unmasked, as the source does (`parse_imm` line 55). So a `JMP`, `LDI`, `LD` or `ST` that names a label can produce a "byte" of 256 or more in a program of 256 bytes or more.
- `Assembler.ProgramBytes` proves that every output value is below 256 when the program is shorter than 256 bytes.

## Model

Definitions whose contracts only unfold their own bodies, and the lemmas that unfold them for later proofs (`Assembler.Kinds`, `KindsOf`, `ResolveStep`, `AssembleTextOf`, `AssembledText`), have no row. What they promise is stated by the rows for `LineCodeSized`, `LabelTable`, `LabelPass` and `Assemble`.

| member | source | states |
|---|---|---|
| Isa.Opcode | src/cpu_gui.py:16-28 | every opcode fits in the high nibble (is below 16) |
| Isa.OpcodesDistinct | src/cpu_gui.py:16-28 | two instructions have the same opcode exactly when they are the same instruction |
| Isa.MnemonicEntries | src/cpu_gui.py:16-28 | the mnemonic table maps each of the eleven names to its instruction |
| Isa.NameIsKey | src/cpu_gui.py:16-28 | every instruction's name is a key of the table, and looking it up gives back that instruction |
| Isa.NameOf | src/cpu_gui.py:16-28 | looking up any key and naming the result gives the key back (the table is a bijection) |
| Isa.RegistersAreNumbered | src/cpu_gui.py:30-39 | a name is in the register table exactly when it is one of R0..R7; its number is below 8 and is the digit in its name |
| Text.BeforeComment | src/cpu_gui.py:67 | the kept text is a prefix of the line, holds no `;`, and stops at the first `;` when shorter than the line |
| Text.Strip | src/cpu_gui.py:67 | the result is no longer than the input and neither starts nor ends with whitespace; text without surrounding whitespace is unchanged |
| Text.StripPadded | src/cpu_gui.py:67 | `strip()` removes exactly the surrounding whitespace: whitespace, then text that neither starts nor ends with whitespace, then whitespace, strips to that text |
| Text.StripAllSpace | src/cpu_gui.py:68-69 | a line made only of whitespace strips to nothing, so it is treated as blank |
| Text.UpperOfUpper | src/cpu_gui.py:80 | text with no lower-case ASCII letter is its own upper case |
| Text.UpperIgnoresCase | src/cpu_gui.py:46 | two texts that agree up to ASCII case have the same upper case, so mnemonics and registers are case-insensitive |
| Text.WordLength | src/cpu_gui.py:75-76 | the first token ends at the first comma or whitespace character, or at the end of the text |
| Text.TokensAreWords | src/cpu_gui.py:75-76 | every token is non-empty and holds no comma or whitespace |
| Text.TokensAfterSeparators | src/cpu_gui.py:75-76 | leading commas and whitespace produce no token |
| Text.TokensAfterWord | src/cpu_gui.py:75-76 | a word followed by a separator (or the end) is the first token |
| Text.TokensOfSeparatedWords | src/cpu_gui.py:75-76 | words joined by a separator tokenise back to exactly those words |
| Text.LineEnd | src/cpu_gui.py:152 | a line ends at the first line-break character, or at the end of the text |
| Text.SplitLinesCons | src/cpu_gui.py:152 | a line without line breaks, followed by `\n`, is split off as the first line |
| Text.SplitJoinLines | src/cpu_gui.py:152 | lines without line breaks, the last one non-empty, joined with `\n` split back into the same lines |
| Numerals.DigitValue | src/cpu_gui.py:58 | a hex digit has a value below 16, and a decimal digit a value below 10 |
| Numerals.DigitChar | src/cpu_gui.py:191 | the digit written for a value below 16 is an upper-case digit that reads back as that value |
| Numerals.ReadDigitsValue | src/cpu_gui.py:58-60 | reading digits succeeds exactly on non-empty strings of digits of the base, and gives their value |
| Numerals.NatDigitsValue | src/cpu_gui.py:191 | the digits written for `n` are digits of the base and read back as `n` |
| Numerals.DecimalRoundTrip | src/cpu_gui.py:60 | `int(f"{n}")` is `n` for every integer, negative ones included |
| Numerals.DecimalShape | src/cpu_gui.py:252-253 | `f"{n}"` is non-empty, made of decimal digits with an optional leading `-`, and ends in a digit |
| Numerals.HexLiteralRoundTrip | src/cpu_gui.py:57-58 | a `0x`-prefixed hex numeral of `n` reads back with `int(_, 16)` as `n` |
| Numerals.HexDigitCount | src/cpu_gui.py:191 | the hex numeral of `n` has one digit exactly when `n < 16`, and at most two exactly when `n < 256` |
| Numerals.Hex2Shape | src/cpu_gui.py:191 | `f"{n:02X}"` has exactly two characters when `n < 256` (never fewer), all upper-case hex digits |
| Numerals.Hex2RoundTrip | src/cpu_gui.py:191 | `int(f"{n:02X}", 16)` is `n` |
| Operands.ParseReg | src/cpu_gui.py:45-49 | an accepted register number is below 8; a rejected token raises "Unknown register" carrying the upper-cased, stripped token |
| Operands.ParseRegTable | src/cpu_gui.py:45-49 | a token is accepted exactly when its upper-cased, stripped form is a key of the register table, and then its number is the table's value |
| Operands.ParseRegAccepts | src/cpu_gui.py:45-49 | a token reads as register `k` exactly when, upper-cased and stripped, it is `Rk` |
| Operands.Masked | src/cpu_gui.py:58-60 | the result is a value exactly when `int()` converted the token; that value is the number modulo 256 (unchanged when already in 0..255); a failed conversion raises with the token |
| Operands.ParseImm | src/cpu_gui.py:51-60 | a stripped token that is a label key gives that label's address, unmasked and ahead of any numeric reading; any other accepted token gives a value in 0..255; a rejected token raises with the stripped token |
| Operands.ParseImmDecimal | src/cpu_gui.py:59-60 | the decimal numeral of any integer that is not a label reads as that integer modulo 256 |
| Operands.ParseImmHex | src/cpu_gui.py:56-58 | a `0x` numeral that is not a label reads as its value modulo 256 |
| Operands.ParseImmHexNumeral | src/cpu_gui.py:56-58 | any non-label token spelt `0x` or `0X` followed by hex digits of either case, leading zeros allowed, reads as its value modulo 256 |
| Operands.ParseImmDecimalNumeral | src/cpu_gui.py:59-60 | any non-label token made of an optional `-` or `+` sign and decimal digits, leading zeros allowed, reads as its signed value modulo 256 |
| Operands.ParseImmRejects | src/cpu_gui.py:51-60 | a non-label token that is neither such a hex numeral nor such a decimal numeral raises with the stripped token |
| Operands.ParseImmRejectsNonNumeral | src/cpu_gui.py:51-60 | a token that is neither a label nor contains a decimal digit raises |
| Encoder.RemoveBrackets | src/cpu_gui.py:117 | the result holds no `[` or `]` and is no longer than the token |
| Encoder.RemoveBracketsKeeps | src/cpu_gui.py:117 | text without brackets is unchanged |
| Encoder.RemoveBracketsAppend | src/cpu_gui.py:117 | removing brackets from joined text is removing them from each piece, so every other character is kept in order |
| Encoder.RemoveBracketsOfAddress | src/cpu_gui.py:112-118 | the memory operand `[a]` of `LD`/`ST`, for bracket-free `a`, reads as `a` |
| Encoder.EncodeInstruction | src/cpu_gui.py:90-144 | an encoded instruction is two bytes and had the right operand count; a wrong count raises the mnemonic's syntax error; the only other errors are from the register and number parsers; all values are bytes when the label addresses are |
| Encoder.AssembleLine | src/cpu_gui.py:62-144 | a line assembles to as many bytes as pass 1 counts for it; blank, comment-only and label lines give `[]`; `NOP` in any case gives `[0x00]`; the "not implemented" error never occurs; all values are bytes when the label addresses are |
| Encoder.AssembleInstructionLine | src/cpu_gui.py:80-144 | a line whose upper-cased first token is a mnemonic other than NOP is encoded as that instruction with the remaining tokens |
| Encoder.UnknownMnemonicRejected | src/cpu_gui.py:87-88 | an instruction line raises "Unknown instruction" exactly when its mnemonic is not in the table |
| Encoder.OperandCountChecked | src/cpu_gui.py:93-135 | a known mnemonic with the wrong number of operands (two for LDI, ALU, LD and ST; one for JMP and BRZ) raises its syntax error |
| Encoder.RegisterByteFields | src/cpu_gui.py:98 | byte 0 `(op << 4) \| (rd << 1)` is below 256; its high nibble is the opcode, bits 3..1 are `rd`, and bit 0 is 0 |
| Encoder.LoadImmediateLayout | src/cpu_gui.py:93-100 | an encoded LDI has byte 0 built from its register and byte 1 the parsed immediate |
| Encoder.AluLayout | src/cpu_gui.py:103-110 | an encoded ADD/SUB/AND/OR/XOR has byte 0 built from `rd`, and byte 1 is the source register number, in 0..7 |
| Encoder.MemoryLayout | src/cpu_gui.py:113-121 | an encoded LD or ST has byte 0 built from `rd`, and byte 1 is the address parsed after removing brackets |
| Encoder.JumpLayout | src/cpu_gui.py:124-130 | an encoded JMP is `[0xA0, target]` with the parsed target |
| Encoder.BranchOffset | src/cpu_gui.py:138 | the branch offset is a byte |
| Encoder.BranchOffsetLaw | src/cpu_gui.py:137-138 | `(pc + 2 + offset) mod 256 == target mod 256`, for forward and backward targets alike |
| Encoder.BranchOffsetExact | src/cpu_gui.py:137-138 | a byte satisfies the offset law exactly when it is the offset, so the offset is the only such byte |
| Encoder.BranchLayout | src/cpu_gui.py:133-141 | an encoded BRZ is `[0x90, offset]`, with the offset taken from `pc + 2` to the parsed target |
| Encoder.JumpTarget | src/cpu_gui.py:124-130 | a JMP to a label encodes that label's address, unmasked |
| Encoder.BranchTarget | src/cpu_gui.py:133-141 | a BRZ to a label encodes the offset to that label's address |
| Encoder.RegisterImmediateEncodes | src/cpu_gui.py:93-121 | conversely, LDI, LD or ST with operands that parse encodes to `[op * 16 + rd * 2, value]` |
| Encoder.RegisterRegisterEncodes | src/cpu_gui.py:103-110 | conversely, an ALU instruction with two registers that parse encodes to `[op * 16 + rd * 2, rs]` |
| Encoder.ControlEncodes | src/cpu_gui.py:124-141 | conversely, JMP or BRZ with a target that parses encodes to the opcode byte and the target, or the offset to it |
| Encoder.EncodeKnownLine | src/cpu_gui.py:80-90 | a line read as a known instruction other than NOP is assembled by that instruction's encoding |
| Assembler.ResolveLabels | src/cpu_gui.py:155-176 | the only error pass 1 raises is a duplicate label |
| Assembler.LabelPass | src/cpu_gui.py:155-176 | the loop over the lines, updating the label table and `pc` step by step, gives exactly the pass-1 result |
| Assembler.CodePass | src/cpu_gui.py:179-186 | the loop that extends the output with each line's bytes, at `pc` equal to the bytes emitted so far, gives exactly the pass-2 result |
| Assembler.Assemble | src/cpu_gui.py:146-186 | the method (split the lines, run pass 1, then pass 2) gives exactly the assembled text's result |
| Assembler.TableAdd | src/cpu_gui.py:161-165 | entering a new label at the current address keeps the label table exact |
| Assembler.TableSkip | src/cpu_gui.py:166-176 | a line that defines no label keeps the label table exact |
| Assembler.UniqueAdd | src/cpu_gui.py:163-165 | after a label not yet in the table, the labels defined so far are still pairwise different |
| Assembler.ResolveLabelsUnique | src/cpu_gui.py:155-176 | from any point where the table is exact, pass 1 succeeds exactly when no label is defined twice |
| Assembler.ResolveLabelsTable | src/cpu_gui.py:155-176 | from any point where the table is exact, a successful pass 1 ends with the exact table |
| Assembler.LabelTable | src/cpu_gui.py:155-176 | pass 1 succeeds exactly when no label is defined on two lines; its table then maps exactly the defined labels, each to the address of its defining line |
| Assembler.DuplicateLabelRejected | src/cpu_gui.py:163-164 | text with the same label defined on any two lines fails with a duplicate-label error, wherever the two lines are |
| Assembler.AddressMonotone | src/cpu_gui.py:172-176 | the pass-1 address never decreases from line to line |
| Assembler.LineCodeSized | src/cpu_gui.py:172-176 | every line that `assemble_line` accepts yields exactly as many bytes as pass 1 counted for it, at any `pc` and with any label table |
| Assembler.EncodeFromLength | src/cpu_gui.py:179-186 | pass 2 only appends, and ends with as many bytes as pass 1 counted |
| Assembler.EncodeFromLine | src/cpu_gui.py:179-186 | each line's bytes in the output are that line assembled at its pass-1 address |
| Assembler.ProgramLayout | src/cpu_gui.py:179-186 | a pass-2 result is as long as pass 1's final `pc`, and each line's bytes sit at its pass-1 address, assembled with that address as `pc` |
| Assembler.EncodeFromOfLayout | src/cpu_gui.py:179-186 | from any line on, pass 2 resumed with the bytes before that line's address completes the same output |
| Assembler.LayoutDeterminesProgram | src/cpu_gui.py:179-186 | pass 2 produces `out` exactly when `out` has pass 1's length and holds every line's bytes at that line's address: the output is the in-order concatenation |
| Assembler.EncodeFromError | src/cpu_gui.py:181-182 | a failing pass 2 fails with the error of some line assembled at its address |
| Assembler.ProgramError | src/cpu_gui.py:179-186 | pass 2 fails exactly when some line fails at its pass-1 address, and then with that line's error |
| Assembler.EncodeFromBytes | src/cpu_gui.py:179-186 | when every line yields bytes, so does the whole output |
| Assembler.TwoPassAgreement | src/cpu_gui.py:146-186 | a successful assembly had unique labels and an exact label table; every label's value is the number of bytes emitted before its line, and every line was assembled at the address pass 1 gave it |
| Assembler.AddressCount | src/cpu_gui.py:172-176 | the address of a line is the number of NOP lines before it plus twice the number of other instruction lines |
| Assembler.ProgramLength | src/cpu_gui.py:172-184 | an assembled program's length is the number of NOP lines plus twice the number of other instruction lines |
| Assembler.LabelWithinProgram | src/cpu_gui.py:165 | every label's address is at most the program's length |
| Assembler.ProgramBytes | src/cpu_gui.py:55-184 | every value of an assembled program shorter than 256 bytes is a byte, label values included |
| Assembler.LineBytes | src/cpu_gui.py:179-186 | in a laid-out program, line `k`'s bytes are `assemble_line` of that line at its address |
| Assembler.InstructionBytes | src/cpu_gui.py:179-186 | in a laid-out program, an instruction line's two bytes are its encoding at its address |
| Assembler.LabelAddress | src/cpu_gui.py:161-165 | a defined label's table value is the pass-1 address of its defining line |
| Assembler.JumpLaid | src/cpu_gui.py:124-130 | in a laid-out program, a `JMP L` line holds `[0xA0, address of L's line]` |
| Assembler.BranchLaid | src/cpu_gui.py:133-141 | in a laid-out program, a `BRZ L` line holds 0x90 and the offset from its own address to L's line |
| Assembler.AssembledIsLaid | src/cpu_gui.py:146-186 | in an assembled program, every line's bytes sit at the address pass 1 gave that line |
| Assembler.JumpToLabel | src/cpu_gui.py:124-130 | in an assembled program, a `JMP L` puts 0xA0 at its address and the address of L's defining line after it |
| Assembler.BranchToLabel | src/cpu_gui.py:133-141 | in an assembled program, a `BRZ L` at address `a` puts 0x90 at `a` and an offset `d` with `(a + 2 + d) mod 256` equal to L's address mod 256 |
| Lowering.NameIsOperand | src/cpu_gui.py:80-83 | every mnemonic is an upper-case token, and only NOP's is "NOP" |
| Lowering.CleanLine | src/cpu_gui.py:67 | a line without comment or surrounding whitespace is unchanged by cleaning |
| Lowering.ClassifyTokens | src/cpu_gui.py:72-80 | a clean line that does not end in `:` is read as the instruction named by its first token |
| Lowering.TokensOf2 | src/cpu_gui.py:75-76 | `M x, y` tokenises to `[M, x, y]` |
| Lowering.TokensOf1 | src/cpu_gui.py:75-76 | `M x` tokenises to `[M, x]` |
| Lowering.ClassifyLine2 | src/cpu_gui.py:67-80 | a generated two-operand line is read as its instruction with both operands |
| Lowering.ClassifyLine1 | src/cpu_gui.py:67-80 | a generated one-operand line is read as its instruction with its operand |
| Lowering.ClassifyLabelLine | src/cpu_gui.py:72-73 | a generated `name:` line is read as the definition of `name` |
| Lowering.AssembleRegisterImmediate | src/cpu_gui.py:93-121 | a generated LDI, LD or ST line whose operands parse assembles to `[op * 16 + rd * 2, value]` |
| Lowering.AssembleRegisterRegister | src/cpu_gui.py:103-110 | a generated ALU line whose registers parse assembles to `[op * 16 + rd * 2, rs]` |
| Lowering.AssembleControl | src/cpu_gui.py:124-141 | a generated JMP or BRZ line whose target parses assembles to the opcode byte and the target, or the offset to it |
| Lowering.AssembleLabelLine | src/cpu_gui.py:72-73 | a generated label line assembles to nothing |
| Lowering.RegisterOperand | src/cpu_gui.py:45-49 | `Rk` for `k < 8` is an operand that reads as register `k` |
| Lowering.DecimalOperand | src/cpu_gui.py:252-253 | `f"{n}"` is an operand and, unless it is a label, reads as `n` mod 256 |
| Lowering.OutputAddressOperand | src/cpu_gui.py:266 | `[0xF0]` is an operand that reads as 0xF0 once its brackets are removed |
| Lowering.LabelOperand | src/cpu_gui.py:54-55 | a label name used as an operand reads as its address |
| Lowering.Line2HasNoBreak | src/cpu_gui.py:252-268 | a generated two-operand line holds no line break and is not empty |
| Lowering.Line1HasNoBreak | src/cpu_gui.py:268 | a generated one-operand line holds no line break and is not empty |
| Lowering.LabelLineHasNoBreak | src/cpu_gui.py:267 | a generated label line holds no line break |
| Placement.PairStep | src/cpu_gui.py:181-184 | one more two-byte line in place extends the laid-out prefix by one line |
| Placement.AluStep | src/cpu_gui.py:103-110 | one more ALU line in place, with registers that parse, extends the laid-out prefix |
| Placement.ControlStep | src/cpu_gui.py:124-141 | one more JMP or BRZ line in place extends the laid-out prefix |
| Placement.LabelStep | src/cpu_gui.py:72-73 | one more label line extends the laid-out prefix |
| Placement.ProgramAssembles | src/cpu_gui.py:146-186 | lines without line breaks, read as expected, with the pass-1 label table and every line's bytes in place, join to text that assembles to exactly those bytes |
| Calculator.AluOf | src/cpu_gui.py:251-264 | the five ALU operators map to ALU instructions; the only supported operator without one is `*` |
| Calculator.GenerateAssembly | src/cpu_gui.py:242-246 | generation fails exactly when the stripped operator is not one of `+ - & \| ^ *`, and then with the "Supported operations" error |
| Calculator.AluLabels | src/cpu_gui.py:252-268 | pass 1 over the one-operation program defines only `loop`, at address 8 |
| Calculator.AluAssembles | src/cpu_gui.py:252-270 | the one-operation program, for any operand words that read as expected, assembles to its ten bytes |
| Calculator.AluWordsOf | src/cpu_gui.py:252-266 | the words written for `a` and `b` are operands that read as R0, R1, `a` mod 256, `b` mod 256 and 0xF0 |
| Calculator.GeneratedAluProgram | src/cpu_gui.py:242-270 | for `+ - & \| ^` the generated text assembles to `10 a 12 b op0 01 80 F0 A0 08`, ten bytes, whose final JMP targets its own address 8 |
| Calculator.MulLabels | src/cpu_gui.py:280-288 | pass 1 over the multiplication program gives `loop_mul` 8, `end_mul` 16 and `loop` 18 |
| Calculator.MulAssembles | src/cpu_gui.py:275-289 | the multiplication program, for any operand words that read as expected, assembles to its twenty bytes |
| Calculator.WordsOfNumbers | src/cpu_gui.py:252-287 | with a label table that does not name them, the numerals written read as 0, 1, `a` mod 256, `b` mod 256 and 0xF0 |
| Calculator.NumbersAreNotLabels | src/cpu_gui.py:267-288 | no numeral the generator writes is one of its label names |
| Calculator.MulWordsOf | src/cpu_gui.py:275-289 | the words written for `*` are operands that read as expected, and its three label names differ |
| Calculator.GenerateMul | src/cpu_gui.py:273-291 | for `*` the generator writes the thirteen-line multiplication program |
| Calculator.GeneratedMulProgram | src/cpu_gui.py:242-291 | for `*` the generated text assembles to twenty bytes, where `BRZ end_mul` has offset 2, `JMP loop_mul` targets 8 and the final JMP targets its own address 18 |
| Artifacts.HexFileAppend | src/cpu_gui.py:190-191 | writing one more byte appends its record |
| Artifacts.WriteHexFile | src/cpu_gui.py:188-191 | the loop writing one record per byte produces exactly the hex file of the bytes |
| Artifacts.HexRecordShape | src/cpu_gui.py:191 | a byte's record is two upper-case hex digits and `\n`, and the digits read back with `int(_, 16)` as the byte |
| Artifacts.ReadHexFile | src/cpu_gui.py:191 | a hex file that reads back has three characters per value |
| Artifacts.HexFileLength | src/cpu_gui.py:190-191 | a hex file of bytes has three characters per byte |
| Artifacts.HexFileSuffix | src/cpu_gui.py:190-191 | the file after its first `k` records is the file of the bytes after the first `k` |
| Artifacts.HexFileRecordAt | src/cpu_gui.py:190-191 | line `k` of the file is the record of byte `k` |
| Artifacts.HexFileRoundTrip | src/cpu_gui.py:188-191 | reading the hex file of a byte sequence back gives that sequence |
| Artifacts.LowBytes | src/cpu_gui.py:217 | the payload has one value per input, each the input modulo 256 |
| Artifacts.BuildFrame | src/cpu_gui.py:208-217 | the step-by-step construction (header bytes, then each value masked) gives exactly the frame, or the error for an empty program |
| Artifacts.ReadFrame | src/cpu_gui.py:200 | a frame that reads back is four bytes longer than its payload |
| Artifacts.LengthField | src/cpu_gui.py:215-216 | the two length bytes together hold the length modulo 65536 |
| Artifacts.FrameShape | src/cpu_gui.py:208-217 | an empty program raises before any frame is built; any other gives a frame four bytes longer, all bytes, starting 0x55 0xAA, whose length field is the length mod 65536 and whose payload is the values' low bytes |
| Artifacts.FrameRoundTrip | src/cpu_gui.py:208-217 | a non-empty byte program shorter than 65536 bytes is read back from its frame unchanged |
| Artifacts.LongFrameUnreadable | src/cpu_gui.py:215-216 | a program of 65536 values or more gets a length field that does not count it, so its frame does not read back |

## Left out

- The tkinter GUI (`CpuGui` and its handlers) is not part of this model. That includes its second hex rendering, which is the same per-byte format as `save_hex_file`.
- Opening and writing the hex file, the pyserial import and its fallback, and opening and writing the serial port are I/O. Only the text written and the frame bytes are modelled. The "pyserial is not installed" error is therefore not modelled.
- Python's `int()` is modelled on plain digit strings with an optional `-` or `+` and, for base 16, an optional `0x`/`0X` prefix. Underscores, surrounding whitespace inside `int()` and non-ASCII digits are not modelled. They are library behaviour outside this file.
- `upper()` and `lower()` are modelled on ASCII letters only. Other letters are left unchanged, so Unicode case mapping is not modelled.
- The whitespace set of `strip()` and `\s` is modelled as Python's `isspace` characters. The line breaks of `splitlines()` are Python's line-boundary characters. `\r\n` ends a single line, and a final line break does not start another line.
- `re.split` is modelled as a direct tokeniser: the maximal runs of characters that are neither commas nor whitespace. The regular-expression engine is not modelled.
- The generated programs are not executed, because the code has no CPU semantics. In particular, nothing is claimed about `*` with `b = 0`. That loop adds and decrements before it checks the counter, so that counter wraps and the loop does not stop at once.
- The "Assembler: ... not implemented" branch (line 144) and the "Unknown operation" raise (line 294) cannot be reached: every table entry has an encoding, and every supported operator is handled. `Encoder.AssembleLine` proves that the first never occurs; the second has no model.
- `generate_assembly_for_op` writes five two-byte instructions for `+ - & | ^`, ten bytes in all (`Calculator.GeneratedAluProgram`).
- Label values are not masked, as in the source. `Assembler.ProgramBytes` therefore assumes a program shorter than 256 bytes. Longer programs can put a label address of 256 or more into byte 1 of `JMP`, `LDI`, `LD` and `ST`.
- The UART length field holds only 16 bits. A program of 65536 bytes or more gets a wrapped length, as the source writes it (`Artifacts.LongFrameUnreadable`).
