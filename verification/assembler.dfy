/** The two-pass driver (src/cpu_gui.py, `assemble`): pass 1 gives every
    label the address of the line that defines it, pass 2 encodes every line
    at the address reached so far and concatenates the results. */
module Assembler {
  import opened Text
  import opened Isa
  import opened Encoder

  /** How pass 1 reads each line. */
  function Kinds(lines: seq<string>): (ks: seq<LineKind>)
    ensures |ks| == |lines|
    ensures forall k :: 0 <= k < |lines| ==> ks[k] == Classify(lines[k])
  {
    seq(|lines|, k requires 0 <= k < |lines| => Classify(lines[k]))
  }

  /** Pass 1's reading of the lines is fixed by how each line is read. */
  lemma KindsOf(lines: seq<string>, ks: seq<LineKind>)
    requires |lines| == |ks|
    requires forall k :: 0 <= k < |lines| ==> Classify(lines[k]) == ks[k]
    ensures Kinds(lines) == ks
  {
  }

  /** The address of line `k`: the sizes of the lines before it. */
  function Address(ks: seq<LineKind>, k: nat): nat
    requires k <= |ks|
  {
    if k == 0 then 0 else Address(ks, k - 1) + Size(ks[k - 1])
  }

  /** Pass 1 from line `i` on, with the table and program counter reached so
      far. A label already in the table is an error; otherwise it is entered
      with the current address. */
  function ResolveLabels(ks: seq<LineKind>, i: nat, labels: map<string, nat>, pc: nat)
    : (r: Result<map<string, nat>>)
    requires i <= |ks|
    ensures r.Err? ==> r.error.DuplicateLabel?
    decreases |ks| - i
  {
    if i == |ks| then Ok(labels)
    else if ks[i].LabelDef? then
      if ks[i].name in labels then Err(DuplicateLabel(ks[i].name))
      else ResolveLabels(ks, i + 1, labels[ks[i].name := pc], pc)
    else ResolveLabels(ks, i + 1, labels, pc + Size(ks[i]))
  }

  /** A line encoder: the bytes of a line assembled at a given address. */
  type LineEncoder = (string, nat) -> Result<seq<nat>>

  /** `assemble_line` with the label table of pass 1. */
  function LineCode(labels: map<string, nat>): LineEncoder {
    (line, pc) => AssembleLine(line, labels, pc)
  }

  /** Pass 2 from line `i` on, after the bytes `out` of the lines before it:
      each line is assembled at the number of bytes emitted so far and its
      bytes appended; the first line that does not assemble ends the pass
      with its error. */
  function EncodeFrom(enc: LineEncoder, lines: seq<string>, i: nat, out: seq<nat>): Result<seq<nat>>
    requires i <= |lines|
    decreases |lines| - i
  {
    if i == |lines| then Ok(out)
    else
      match enc(lines[i], |out|)
      case Err(e) => Err(e)
      case Ok(b) => EncodeFrom(enc, lines, i + 1, out + b)
  }

  /** `assemble`: the whole program, or the first error either pass raises. */
  function AssembleText(text: string): Result<seq<nat>> {
    var lines := SplitLines(text);
    var labels :- ResolveLabels(Kinds(lines), 0, map[], 0);
    EncodeFrom(LineCode(labels), lines, 0, [])
  }

  /** `assemble`: pass 1, then pass 2 over the same lines. */
  method Assemble(text: string) returns (r: Result<seq<nat>>)
    ensures r == AssembleText(text)
  {
    var lines := SplitLines(text);
    var labels :- LabelPass(Kinds(lines));
    r := CodePass(lines, labels);
  }

  /** Pass 1 of `assemble`, over the kinds of the lines: fills the label
      table, advancing the program counter by each line's size, and stops
      at a label defined twice. */
  method LabelPass(ks: seq<LineKind>) returns (r: Result<map<string, nat>>)
    ensures r == ResolveLabels(ks, 0, map[], 0)
  {
    var labels: map<string, nat> := map[];
    var pc: nat := 0;
    var i := 0;
    while i < |ks|
      invariant i <= |ks|
      invariant ResolveLabels(ks, 0, map[], 0) == ResolveLabels(ks, i, labels, pc)
    {
      var kind := ks[i];
      ResolveStep(ks, i, labels, pc);
      if kind.LabelDef? {
        if kind.name in labels {
          return Err(DuplicateLabel(kind.name));
        }
        labels := labels[kind.name := pc];
      } else {
        pc := pc + Size(kind);
      }
      i := i + 1;
    }
    return Ok(labels);
  }

  /** One step of pass 1, by the kind of line `i`. */
  lemma ResolveStep(ks: seq<LineKind>, i: nat, labels: map<string, nat>, pc: nat)
    requires i < |ks|
    ensures ks[i].LabelDef? && ks[i].name in labels ==> ResolveLabels(ks, i, labels, pc) == Err(DuplicateLabel(ks[i].name))
    ensures ks[i].LabelDef? && ks[i].name !in labels ==> ResolveLabels(ks, i, labels, pc) == ResolveLabels(ks, i + 1, labels[ks[i].name := pc], pc)
    ensures !ks[i].LabelDef? ==> ResolveLabels(ks, i, labels, pc) == ResolveLabels(ks, i + 1, labels, pc + Size(ks[i]))
  {
  }

  /** Pass 2 of `assemble`: extends the output by each line's bytes, each
      line assembled at the number of bytes emitted so far. */
  method CodePass(lines: seq<string>, labels: map<string, nat>) returns (r: Result<seq<nat>>)
    ensures r == EncodeFrom(LineCode(labels), lines, 0, [])
  {
    var out: seq<nat> := [];
    var pc: nat := 0;
    var i := 0;
    while i < |lines|
      invariant i <= |lines| && pc == |out|
      invariant EncodeFrom(LineCode(labels), lines, 0, []) == EncodeFrom(LineCode(labels), lines, i, out)
    {
      var b := AssembleLine(lines[i], labels, pc);
      if b.Err? {
        return Err(b.error);
      }
      pc := pc + |b.value|;
      out := out + b.value;
      i := i + 1;
    }
    return Ok(out);
  }

  // ---------------------------------------------------------------------
  // Pass 1: the label table.

  /** No label is defined on two lines among the first `n`. */
  predicate UniqueLabels(ks: seq<LineKind>, n: nat)
    requires n <= |ks|
  {
    forall j, k :: 0 <= j < k < n && ks[j].LabelDef? && ks[k].LabelDef? ==> ks[j].name != ks[k].name
  }

  /** `labels` maps exactly the labels defined among the first `n` lines,
      each to the address of its defining line. */
  predicate TableOf(ks: seq<LineKind>, n: nat, labels: map<string, nat>)
    requires n <= |ks|
  {
    && (forall k :: 0 <= k < n && ks[k].LabelDef? ==> ks[k].name in labels && labels[ks[k].name] == Address(ks, k))
    && (forall name :: name in labels ==> exists k :: 0 <= k < n && ks[k] == LabelDef(name))
  }

  /** Defining a fresh label on line `i` extends the table to `i + 1` lines. */
  lemma TableAdd(ks: seq<LineKind>, i: nat, labels: map<string, nat>)
    requires i < |ks| && ks[i].LabelDef? && ks[i].name !in labels
    requires TableOf(ks, i, labels)
    ensures TableOf(ks, i + 1, labels[ks[i].name := Address(ks, i)])
  {
    var next := labels[ks[i].name := Address(ks, i)];
    forall n | n in next
      ensures exists k :: 0 <= k < i + 1 && ks[k] == LabelDef(n)
    {
      if n != ks[i].name {
        var k :| 0 <= k < i && ks[k] == LabelDef(n);
        assert 0 <= k < i + 1;
      }
    }
  }

  /** A line that defines no label leaves the table as it is. */
  lemma TableSkip(ks: seq<LineKind>, i: nat, labels: map<string, nat>)
    requires i < |ks| && !ks[i].LabelDef?
    requires TableOf(ks, i, labels)
    ensures TableOf(ks, i + 1, labels)
  {
    forall n | n in labels
      ensures exists k :: 0 <= k < i + 1 && ks[k] == LabelDef(n)
    {
      var k :| 0 <= k < i && ks[k] == LabelDef(n);
      assert 0 <= k < i + 1;
    }
  }

  /** A label not yet in the table keeps the labels unique. */
  lemma UniqueAdd(ks: seq<LineKind>, i: nat, labels: map<string, nat>)
    requires i < |ks| && (ks[i].LabelDef? ==> ks[i].name !in labels)
    requires TableOf(ks, i, labels) && UniqueLabels(ks, i)
    ensures UniqueLabels(ks, i + 1)
  {
    forall j, k | 0 <= j < k < i + 1 && ks[j].LabelDef? && ks[k].LabelDef?
      ensures ks[j].name != ks[k].name
    {
      if k == i {
        assert ks[j].name in labels;
      }
    }
  }

  lemma {:induction false} ResolveLabelsUnique(ks: seq<LineKind>, i: nat, labels: map<string, nat>, pc: nat)
    requires i <= |ks| && pc == Address(ks, i)
    requires TableOf(ks, i, labels) && UniqueLabels(ks, i)
    ensures ResolveLabels(ks, i, labels, pc).Ok? <==> UniqueLabels(ks, |ks|)
    decreases |ks| - i
  {
    if i < |ks| {
      if ks[i].LabelDef? && ks[i].name in labels {
        var j :| 0 <= j < i && ks[j] == LabelDef(ks[i].name);
        assert !UniqueLabels(ks, |ks|) by {
          assert ks[j].name == ks[i].name;
        }
      } else {
        UniqueAdd(ks, i, labels);
        if ks[i].LabelDef? {
          var next := labels[ks[i].name := pc];
          TableAdd(ks, i, labels);
          assert ResolveLabels(ks, i, labels, pc) == ResolveLabels(ks, i + 1, next, pc);
          ResolveLabelsUnique(ks, i + 1, next, pc);
        } else {
          TableSkip(ks, i, labels);
          assert ResolveLabels(ks, i, labels, pc) == ResolveLabels(ks, i + 1, labels, pc + Size(ks[i]));
          ResolveLabelsUnique(ks, i + 1, labels, pc + Size(ks[i]));
        }
      }
    }
  }

  lemma {:induction false} ResolveLabelsTable(ks: seq<LineKind>, i: nat, labels: map<string, nat>, pc: nat, table: map<string, nat>)
    requires i <= |ks| && pc == Address(ks, i)
    requires TableOf(ks, i, labels)
    requires ResolveLabels(ks, i, labels, pc) == Ok(table)
    ensures TableOf(ks, |ks|, table)
    decreases |ks| - i
  {
    if i < |ks| {
      if ks[i].LabelDef? {
        TableAdd(ks, i, labels);
        ResolveLabelsTable(ks, i + 1, labels[ks[i].name := pc], pc, table);
      } else {
        TableSkip(ks, i, labels);
        ResolveLabelsTable(ks, i + 1, labels, pc + Size(ks[i]), table);
      }
    }
  }

  /** Pass 1 succeeds exactly when no label is defined twice, wherever the
      repetition is; it then maps every defined label, and nothing else, to
      the address of its defining line. */
  lemma LabelTable(ks: seq<LineKind>)
    ensures ResolveLabels(ks, 0, map[], 0).Ok? <==> UniqueLabels(ks, |ks|)
    ensures ResolveLabels(ks, 0, map[], 0).Ok? ==> TableOf(ks, |ks|, ResolveLabels(ks, 0, map[], 0).value)
  {
    ResolveLabelsUnique(ks, 0, map[], 0);
    if ResolveLabels(ks, 0, map[], 0).Ok? {
      ResolveLabelsTable(ks, 0, map[], 0, ResolveLabels(ks, 0, map[], 0).value);
    }
  }

  /** Addresses never decrease along the program. */
  lemma {:induction false} AddressMonotone(ks: seq<LineKind>, j: nat, k: nat)
    requires j <= k <= |ks|
    ensures Address(ks, j) <= Address(ks, k)
    decreases k - j
  {
    if j < k {
      AddressMonotone(ks, j, k - 1);
    }
  }

  // ---------------------------------------------------------------------
  // Pass 2: where each line's bytes go. The lemmas hold for any line
  // encoder that emits, for every line it accepts, the number of bytes
  // pass 1 counted for it; `assemble_line` is one.

  /** `enc` emits `Size(ks[k])` bytes for line `k`, at any address. */
  ghost predicate Sized(enc: LineEncoder, lines: seq<string>, ks: seq<LineKind>) {
    |ks| == |lines|
    && forall k, pc :: 0 <= k < |lines| && enc(lines[k], pc).Ok? ==> |enc(lines[k], pc).value| == Size(ks[k])
  }

  lemma LineCodeSized(lines: seq<string>, labels: map<string, nat>)
    ensures Sized(LineCode(labels), lines, Kinds(lines))
  {
  }

  /** Line `k`, encoded at its pass-1 address, gives exactly the bytes of
      `out` between its address and the next line's. */
  ghost predicate EncodedAt(enc: LineEncoder, lines: seq<string>, ks: seq<LineKind>, out: seq<nat>, k: nat)
    requires k < |lines| == |ks|
  {
    Address(ks, k + 1) <= |out|
    && enc(lines[k], Address(ks, k)) == Ok(out[Address(ks, k)..Address(ks, k + 1)])
  }

  /** Pass 2 only appends, and emits exactly the pass-1 size of every line. */
  lemma {:induction false} EncodeFromLength(enc: LineEncoder, lines: seq<string>, ks: seq<LineKind>, i: nat, acc: seq<nat>, out: seq<nat>)
    requires Sized(enc, lines, ks)
    requires i <= |lines| && |acc| == Address(ks, i)
    requires EncodeFrom(enc, lines, i, acc) == Ok(out)
    ensures acc <= out && |out| == Address(ks, |lines|)
    decreases |lines| - i
  {
    if i < |lines| {
      var b := enc(lines[i], |acc|).value;
      EncodeFromLength(enc, lines, ks, i + 1, acc + b, out);
      assert acc <= acc + b;
    }
  }

  lemma {:induction false} EncodeFromLine(enc: LineEncoder, lines: seq<string>, ks: seq<LineKind>, i: nat, acc: seq<nat>, out: seq<nat>, k: nat)
    requires Sized(enc, lines, ks)
    requires i <= k < |lines| && |acc| == Address(ks, i)
    requires EncodeFrom(enc, lines, i, acc) == Ok(out)
    ensures EncodedAt(enc, lines, ks, out, k)
    decreases k - i
  {
    var b := enc(lines[i], |acc|).value;
    if i == k {
      EncodeFromLength(enc, lines, ks, i + 1, acc + b, out);
      assert out[Address(ks, i)..Address(ks, i + 1)] == b by {
        assert out[..|acc + b|] == acc + b;
      }
    } else {
      EncodeFromLine(enc, lines, ks, i + 1, acc + b, out, k);
    }
  }

  /** Pass 2 puts the bytes of every line at the address pass 1 gave it:
      the output is the in-order concatenation of the lines' encodings, and
      each line was encoded with `pc` equal to the number of bytes before
      it. */
  lemma ProgramLayout(enc: LineEncoder, lines: seq<string>, ks: seq<LineKind>, out: seq<nat>)
    requires Sized(enc, lines, ks)
    requires EncodeFrom(enc, lines, 0, []) == Ok(out)
    ensures |out| == Address(ks, |lines|)
    ensures forall k :: 0 <= k < |lines| ==> EncodedAt(enc, lines, ks, out, k)
  {
    EncodeFromLength(enc, lines, ks, 0, [], out);
    forall k | 0 <= k < |lines|
      ensures EncodedAt(enc, lines, ks, out, k)
    {
      EncodeFromLine(enc, lines, ks, 0, [], out, k);
    }
  }

  /** The per-line layout of a program: its length is the pass-1 total and
      every line's bytes sit at that line's address. */
  ghost predicate Laid(enc: LineEncoder, lines: seq<string>, ks: seq<LineKind>, out: seq<nat>) {
    |ks| == |lines| && |out| == Address(ks, |ks|)
    && forall k :: 0 <= k < |lines| ==> EncodedAt(enc, lines, ks, out, k)
  }

  lemma {:induction false} EncodeFromOfLayout(enc: LineEncoder, lines: seq<string>, ks: seq<LineKind>, i: nat, out: seq<nat>)
    requires Laid(enc, lines, ks, out)
    requires i <= |lines|
    ensures Address(ks, i) <= |out|
    ensures EncodeFrom(enc, lines, i, out[..Address(ks, i)]) == Ok(out)
    decreases |lines| - i
  {
    if i == |lines| {
      assert out[..Address(ks, i)] == out;
    } else {
      assert EncodedAt(enc, lines, ks, out, i);
      var b := out[Address(ks, i)..Address(ks, i + 1)];
      assert out[..Address(ks, i)] + b == out[..Address(ks, i + 1)];
      EncodeFromOfLayout(enc, lines, ks, i + 1, out);
    }
  }

  /** Pass 2's output is determined by its layout: it produces `out`
      exactly when `out` is as long as pass 1 counted and every line,
      encoded at its pass-1 address, gives the bytes of `out` there. */
  lemma LayoutDeterminesProgram(enc: LineEncoder, lines: seq<string>, ks: seq<LineKind>, out: seq<nat>)
    requires Sized(enc, lines, ks)
    ensures EncodeFrom(enc, lines, 0, []) == Ok(out) <==> Laid(enc, lines, ks, out)
  {
    if EncodeFrom(enc, lines, 0, []) == Ok(out) {
      ProgramLayout(enc, lines, ks, out);
    }
    if Laid(enc, lines, ks, out) {
      EncodeFromOfLayout(enc, lines, ks, 0, out);
      assert out[..Address(ks, 0)] == [];
    }
  }

  lemma {:induction false} EncodeFromError(enc: LineEncoder, lines: seq<string>, ks: seq<LineKind>, i: nat, acc: seq<nat>)
    requires Sized(enc, lines, ks)
    requires i <= |lines| && |acc| == Address(ks, i)
    requires EncodeFrom(enc, lines, i, acc).Err?
    ensures exists k :: i <= k < |lines| && enc(lines[k], Address(ks, k)) == Err(EncodeFrom(enc, lines, i, acc).error)
    decreases |lines| - i
  {
    if enc(lines[i], |acc|).Ok? {
      EncodeFromError(enc, lines, ks, i + 1, acc + enc(lines[i], |acc|).value);
    }
  }

  /** Pass 2 fails exactly when some line does not assemble at its pass-1
      address, and then with the error of such a line. */
  lemma ProgramError(enc: LineEncoder, lines: seq<string>, ks: seq<LineKind>)
    requires Sized(enc, lines, ks)
    ensures EncodeFrom(enc, lines, 0, []).Err?
        <==> exists k :: 0 <= k < |lines| && enc(lines[k], Address(ks, k)).Err?
    ensures EncodeFrom(enc, lines, 0, []).Err? ==>
      exists k :: 0 <= k < |lines| && enc(lines[k], Address(ks, k)) == Err(EncodeFrom(enc, lines, 0, []).error)
  {
    var r := EncodeFrom(enc, lines, 0, []);
    if r.Err? {
      EncodeFromError(enc, lines, ks, 0, []);
    } else {
      ProgramLayout(enc, lines, ks, r.value);
      forall k | 0 <= k < |lines|
        ensures enc(lines[k], Address(ks, k)).Ok?
      {
        assert EncodedAt(enc, lines, ks, r.value, k);
      }
    }
  }

  /** `enc` emits only 8-bit values. */
  ghost predicate EmitsBytes(enc: LineEncoder, lines: seq<string>) {
    forall k, pc :: 0 <= k < |lines| && enc(lines[k], pc).Ok? ==> AllBytes(enc(lines[k], pc).value)
  }

  lemma {:induction false} EncodeFromBytes(enc: LineEncoder, lines: seq<string>, i: nat, acc: seq<nat>)
    requires EmitsBytes(enc, lines)
    requires i <= |lines| && AllBytes(acc)
    requires EncodeFrom(enc, lines, i, acc).Ok?
    ensures AllBytes(EncodeFrom(enc, lines, i, acc).value)
    decreases |lines| - i
  {
    if i < |lines| {
      var b := enc(lines[i], |acc|).value;
      assert AllBytes(acc + b) by {
        forall n | 0 <= n < |acc + b| ensures (acc + b)[n] < 256 {
          if n >= |acc| {
            assert (acc + b)[n] == b[n - |acc|];
          }
        }
      }
      EncodeFromBytes(enc, lines, i + 1, acc + b);
    }
  }

  // ---------------------------------------------------------------------
  // The whole program.

  /** The two passes agree: pass 1 succeeds with labels defined once each,
      every label maps to the address of its defining line, the program is
      as long as pass 1 counted, and every line's bytes sit at that line's
      pass-1 address, encoded with that address as `pc`. So a label's value
      is exactly the number of bytes pass 2 emitted before its line. */
  lemma TwoPassAgreement(text: string, out: seq<nat>)
    requires AssembleText(text) == Ok(out)
    ensures var lines := SplitLines(text);
      var ks := Kinds(lines);
      var table := ResolveLabels(ks, 0, map[], 0);
      && table.Ok? && UniqueLabels(ks, |ks|) && TableOf(ks, |ks|, table.value)
      && |out| == Address(ks, |ks|)
      && forall k :: 0 <= k < |ks| ==> EncodedAt(LineCode(table.value), lines, ks, out, k)
  {
    var lines := SplitLines(text);
    var ks := Kinds(lines);
    LabelTable(ks);
    var labels := ResolveLabels(ks, 0, map[], 0).value;
    LineCodeSized(lines, labels);
    ProgramLayout(LineCode(labels), lines, ks, out);
  }

  /** A duplicate label anywhere in the program makes `assemble` fail with
      that error. */
  lemma DuplicateLabelRejected(text: string, j: nat, k: nat)
    requires j < k < |SplitLines(text)|
    requires Classify(SplitLines(text)[j]).LabelDef? && Classify(SplitLines(text)[j]) == Classify(SplitLines(text)[k])
    ensures AssembleText(text).Err? && AssembleText(text).error.DuplicateLabel?
  {
    var ks := Kinds(SplitLines(text));
    LabelTable(ks);
    assert !UniqueLabels(ks, |ks|) by {
      assert ks[j] == ks[k];
    }
  }

  /** The number of NOP lines and of other instruction lines. */
  function Nops(ks: seq<LineKind>): nat {
    if ks == [] then 0 else Nops(ks[..|ks| - 1]) + (if ks[|ks| - 1].Nop? then 1 else 0)
  }

  function Instrs(ks: seq<LineKind>): nat {
    if ks == [] then 0 else Instrs(ks[..|ks| - 1]) + (if ks[|ks| - 1].Instr? then 1 else 0)
  }

  lemma {:induction false} AddressCount(ks: seq<LineKind>, k: nat)
    requires k <= |ks|
    ensures Address(ks, k) == Nops(ks[..k]) + 2 * Instrs(ks[..k])
  {
    if k > 0 {
      AddressCount(ks, k - 1);
      assert ks[..k][..k - 1] == ks[..k - 1];
    }
  }

  /** The program is one byte per NOP line and two per other instruction
      line; blank, comment and label lines emit nothing. */
  lemma ProgramLength(text: string, out: seq<nat>)
    requires AssembleText(text) == Ok(out)
    ensures |out| == Nops(Kinds(SplitLines(text))) + 2 * Instrs(Kinds(SplitLines(text)))
  {
    var ks := Kinds(SplitLines(text));
    TwoPassAgreement(text, out);
    AddressCount(ks, |ks|);
    assert ks[..|ks|] == ks;
  }

  /** A label's address is at most the program's length. */
  lemma LabelWithinProgram(ks: seq<LineKind>, labels: map<string, nat>, name: string)
    requires TableOf(ks, |ks|, labels) && name in labels
    ensures labels[name] <= Address(ks, |ks|)
  {
    var k :| 0 <= k < |ks| && ks[k] == LabelDef(name);
    AddressMonotone(ks, k, |ks|);
  }

  /** A program shorter than 256 bytes is a sequence of bytes: every label
      address, and so every operand, fits in 8 bits. */
  lemma ProgramBytes(text: string, out: seq<nat>)
    requires AssembleText(text) == Ok(out) && |out| < 256
    ensures AllBytes(out)
  {
    var lines := SplitLines(text);
    var ks := Kinds(lines);
    TwoPassAgreement(text, out);
    var labels := ResolveLabels(ks, 0, map[], 0).value;
    assert AddressesFit(labels) by {
      forall name | name in labels ensures labels[name] < 256 {
        LabelWithinProgram(ks, labels, name);
      }
    }
    assert EmitsBytes(LineCode(labels), lines);
    EncodeFromBytes(LineCode(labels), lines, 0, []);
  }

  /** Both passes succeed on `lines`: pass 1 with the table `labels`,
      pass 2 with the program `out`. */
  ghost predicate Assembled(lines: seq<string>, labels: map<string, nat>, out: seq<nat>) {
    ResolveLabels(Kinds(lines), 0, map[], 0) == Ok(labels)
    && EncodeFrom(LineCode(labels), lines, 0, []) == Ok(out)
  }

  /** `assemble` from its two passes' results. */
  lemma AssembleTextOf(text: string, lines: seq<string>, ks: seq<LineKind>, labels: map<string, nat>, out: seq<nat>)
    requires SplitLines(text) == lines && Kinds(lines) == ks
    requires ResolveLabels(ks, 0, map[], 0) == Ok(labels)
    requires EncodeFrom(LineCode(labels), lines, 0, []) == Ok(out)
    ensures AssembleText(text) == Ok(out)
  {
  }

  lemma AssembledText(text: string, out: seq<nat>)
    requires AssembleText(text) == Ok(out)
    ensures Assembled(SplitLines(text), ResolveLabels(Kinds(SplitLines(text)), 0, map[], 0).value, out)
  {
  }

  /** The bytes of line `k` of a laid-out program: the line assembled at
      its pass-1 address. */
  lemma LineBytes(lines: seq<string>, labels: map<string, nat>, out: seq<nat>, k: nat)
    requires Laid(LineCode(labels), lines, Kinds(lines), out)
    requires k < |lines|
    ensures Address(Kinds(lines), k) + Size(Classify(lines[k])) <= |out|
    ensures AssembleLine(lines[k], labels, Address(Kinds(lines), k))
         == Ok(out[Address(Kinds(lines), k)..Address(Kinds(lines), k) + Size(Classify(lines[k]))])
  {
    var ks := Kinds(lines);
    var a := Address(ks, k);
    assert EncodedAt(LineCode(labels), lines, ks, out, k);
    assert Address(ks, k + 1) == a + Size(Classify(lines[k]));
    assert LineCode(labels)(lines[k], a) == AssembleLine(lines[k], labels, a);
  }

  /** The bytes of an instruction line of a laid-out program: its
      instruction encoded at the line's address. */
  lemma InstructionBytes(lines: seq<string>, labels: map<string, nat>, out: seq<nat>, k: nat, i: Instruction, ops: seq<string>)
    requires Laid(LineCode(labels), lines, Kinds(lines), out)
    requires k < |lines| && Classify(lines[k]) == Instr(Name(i), ops) && i != NOP
    ensures Address(Kinds(lines), k) + 2 <= |out|
    ensures EncodeInstruction(i, ops, labels, Address(Kinds(lines), k))
         == Ok(out[Address(Kinds(lines), k)..Address(Kinds(lines), k) + 2])
  {
    LineBytes(lines, labels, out, k);
    EncodeKnownLine(lines[k], i, ops, labels, Address(Kinds(lines), k));
  }

  /** A label defined on line `j` of an assembled program has that line's
      address. */
  lemma LabelAddress(lines: seq<string>, labels: map<string, nat>, j: nat)
    requires ResolveLabels(Kinds(lines), 0, map[], 0) == Ok(labels)
    requires j < |lines| && Classify(lines[j]).LabelDef?
    ensures Classify(lines[j]).name in labels && labels[Classify(lines[j]).name] == Address(Kinds(lines), j)
  {
    var ks := Kinds(lines);
    LabelTable(ks);
    assert ks[j].LabelDef?;
  }

  lemma JumpLaid(lines: seq<string>, labels: map<string, nat>, out: seq<nat>, k: nat, j: nat, ops: seq<string>)
    requires ResolveLabels(Kinds(lines), 0, map[], 0) == Ok(labels)
    requires Laid(LineCode(labels), lines, Kinds(lines), out)
    requires k < |lines| && j < |lines|
    requires Classify(lines[k]) == Instr(Name(JMP), ops) && |ops| >= 1
    requires Classify(lines[j]) == LabelDef(Strip(ops[0]))
    ensures var a := Address(Kinds(lines), k);
      a + 2 <= |out| && out[a..a + 2] == [0xA0, Address(Kinds(lines), j)]
  {
    InstructionBytes(lines, labels, out, k, JMP, ops);
    LabelAddress(lines, labels, j);
    var a := Address(Kinds(lines), k);
    JumpTarget(ops, labels, a, out[a..a + 2], Address(Kinds(lines), j));
  }

  lemma BranchLaid(lines: seq<string>, labels: map<string, nat>, out: seq<nat>, k: nat, j: nat, ops: seq<string>)
    requires ResolveLabels(Kinds(lines), 0, map[], 0) == Ok(labels)
    requires Laid(LineCode(labels), lines, Kinds(lines), out)
    requires k < |lines| && j < |lines|
    requires Classify(lines[k]) == Instr(Name(BRZ), ops) && |ops| >= 1
    requires Classify(lines[j]) == LabelDef(Strip(ops[0]))
    ensures var a := Address(Kinds(lines), k);
      a + 2 <= |out| && out[a..a + 2] == [0x90, BranchOffset(Address(Kinds(lines), j), a)]
  {
    InstructionBytes(lines, labels, out, k, BRZ, ops);
    LabelAddress(lines, labels, j);
    var a := Address(Kinds(lines), k);
    BranchTarget(ops, labels, a, out[a..a + 2], Address(Kinds(lines), j));
  }

  /** A two-element slice, element by element. */
  lemma SliceOfPair(out: seq<nat>, a: nat)
    requires a + 2 <= |out|
    ensures out[a..a + 2] == [out[a], out[a + 1]]
  {
  }

  /** Two consecutive values of a sequence, read off a slice. */
  lemma PairAt(out: seq<nat>, a: nat, x: nat, y: nat)
    requires a + 2 <= |out| && out[a..a + 2] == [x, y]
    ensures out[a] == x && out[a + 1] == y
  {
    assert out[a] == out[a..a + 2][0] && out[a + 1] == out[a..a + 2][1];
  }

  /** A branch stored at `a` towards `t` lands on `t` modulo 256. */
  lemma BranchAt(out: seq<nat>, a: nat, t: nat)
    requires a + 2 <= |out| && out[a..a + 2] == [0x90, BranchOffset(t, a)]
    ensures out[a] == 0x90 && (a + 2 + out[a + 1]) % 256 == t % 256
  {
    PairAt(out, a, 0x90, BranchOffset(t, a));
    BranchOffsetExact(t, a, out[a + 1]);
  }

  /** An assembled program has every line's bytes at its pass-1 address. */
  lemma AssembledIsLaid(lines: seq<string>, labels: map<string, nat>, out: seq<nat>)
    requires Assembled(lines, labels, out)
    ensures Laid(LineCode(labels), lines, Kinds(lines), out)
  {
    LineCodeSized(lines, labels);
    LayoutDeterminesProgram(LineCode(labels), lines, Kinds(lines), out);
  }

  /** `JMP L` jumps to the line that defines `L`: its second byte is the
      address pass 1 gave `L`, not reduced modulo 256. */
  lemma JumpToLabel(lines: seq<string>, labels: map<string, nat>, out: seq<nat>, k: nat, j: nat, ops: seq<string>)
    requires Assembled(lines, labels, out)
    requires k < |lines| && j < |lines|
    requires Classify(lines[k]) == Instr(Name(JMP), ops) && |ops| >= 1
    requires Classify(lines[j]) == LabelDef(Strip(ops[0]))
    ensures var a := Address(Kinds(lines), k);
      a + 2 <= |out| && out[a] == 0xA0 && out[a + 1] == Address(Kinds(lines), j)
  {
    AssembledIsLaid(lines, labels, out);
    JumpLaid(lines, labels, out, k, j, ops);
    PairAt(out, Address(Kinds(lines), k), 0xA0, Address(Kinds(lines), j));
  }

  /** `BRZ L` reaches the line that defines `L`: the address after the
      branch plus its offset byte is `L`'s address, modulo 256, whether `L`
      comes before or after the branch. */
  lemma BranchToLabel(lines: seq<string>, labels: map<string, nat>, out: seq<nat>, k: nat, j: nat, ops: seq<string>)
    requires Assembled(lines, labels, out)
    requires k < |lines| && j < |lines|
    requires Classify(lines[k]) == Instr(Name(BRZ), ops) && |ops| >= 1
    requires Classify(lines[j]) == LabelDef(Strip(ops[0]))
    ensures var a := Address(Kinds(lines), k);
      a + 2 <= |out| && out[a] == 0x90 && (a + 2 + out[a + 1]) % 256 == Address(Kinds(lines), j) % 256
  {
    var a, t := Address(Kinds(lines), k), Address(Kinds(lines), j);
    AssembledIsLaid(lines, labels, out);
    BranchLaid(lines, labels, out, k, j, ops);
    BranchAt(out, a, t);
  }
}
