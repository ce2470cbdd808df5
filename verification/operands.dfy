/** Operand parsing: register names and immediate/address operands
    (src/cpu_gui.py, `parse_reg` and `parse_imm`). */
module Operands {
  import opened Text
  import opened Numerals
  import opened Isa

  /** `parse_reg`: a register name, case-insensitive, surrounding whitespace
      ignored. */
  function ParseReg(token: string): (r: Result<nat>)
    ensures r.Ok? ==> r.value < 8
    ensures r.Err? ==> r.error == UnknownRegister(Upper(Strip(token)))
  {
    var t := Upper(Strip(token));
    if |t| == 2 && t[0] == 'R' && '0' <= t[1] <= '7' then Ok(t[1] as int - '0' as int)
    else Err(UnknownRegister(t))
  }

  /** The decoder agrees with the register table. */
  lemma ParseRegTable(token: string)
    ensures ParseReg(token).Ok? <==> Upper(Strip(token)) in Registers
    ensures ParseReg(token).Ok? ==> ParseReg(token).value == Registers[Upper(Strip(token))]
  {
    var t := Upper(Strip(token));
    RegistersAreNumbered(t);
    if ParseReg(token).Ok? {
      assert t == RegisterName(t[1] as int - '0' as int);
    }
  }

  /** A register token is accepted exactly when its upper case is one of
      R0..R7, and then it denotes that register's index. */
  lemma ParseRegAccepts(token: string, k: nat)
    requires k < 8
    ensures ParseReg(token) == Ok(k) <==> Upper(Strip(token)) == RegisterName(k)
  {
    var t := Upper(Strip(token));
    if t == RegisterName(k) {
      assert t[0] == 'R' && t[1] == ('0' as int + k) as char;
    }
    if ParseReg(token) == Ok(k) {
      assert t == RegisterName(k);
    }
  }

  /** `token.lower().startswith("0x")`. */
  predicate HasHexPrefix(t: string) {
    |t| >= 2 && LowerChar(t[0]) == '0' && LowerChar(t[1]) == 'x'
  }

  /** The masked value of an integer conversion, or the error it raises. */
  function Masked(v: Option<int>, token: string): (r: Result<nat>)
    ensures r.Ok? <==> v.Some?
    ensures v.Some? ==> r.value < 256 && r.value == v.value % 256
    ensures v.Some? && 0 <= v.value < 256 ==> r.value == v.value
    ensures v.None? ==> r == Err(BadNumber(token))
  {
    match v
    case Some(n) => Ok(n % 256)
    case None => Err(BadNumber(token))
  }

  /** `parse_imm`: a label name first (its address, NOT masked), then a
      `0x` hex literal, then a decimal literal; numbers are masked to 8 bits. */
  function ParseImm(token: string, labels: map<string, nat>): (r: Result<nat>)
    ensures Strip(token) in labels ==> r == Ok(labels[Strip(token)])
    ensures Strip(token) !in labels && r.Ok? ==> r.value < 256
    ensures r.Err? ==> r.error == BadNumber(Strip(token))
  {
    var t := Strip(token);
    if t in labels then Ok(labels[t])
    else if HasHexPrefix(t) then Masked(ParseInt(t, 16), t)
    else Masked(ParseInt(t, 10), t)
  }

  /** Round trip: a decimal numeral that is not a label name reads back as its
      value modulo 256, negative values included. */
  lemma ParseImmDecimal(n: int, labels: map<string, nat>)
    requires Decimal(n) !in labels
    ensures ParseImm(Decimal(n), labels) == Ok(n % 256)
  {
    var t := Decimal(n);
    DecimalShape(n);
    StripNumeral(t);
    DecimalRoundTrip(n);
    assert !HasHexPrefix(t) by {
      if |t| >= 2 {
        assert IsDecimalDigit(t[1]);
      }
    }
  }

  /** Round trip: a `0x` hex numeral that is not a label name reads back as
      its value modulo 256. */
  lemma ParseImmHex(n: nat, labels: map<string, nat>)
    requires "0x" + NatDigits(n, 16) !in labels
    ensures ParseImm("0x" + NatDigits(n, 16), labels) == Ok(n % 256)
  {
    var t := "0x" + NatDigits(n, 16);
    NatDigitsValue(n, 16);
    assert IsHexDigit(t[|t| - 1]);
    StripNumeral(t);
    HexLiteralRoundTrip(n);
  }

  /** The hex literals `parse_imm` accepts: `0x` or `0X`, then at least one
      hex digit of either case (leading zeros allowed). */
  predicate IsHexNumeral(t: string) {
    |t| > 2 && t[0] == '0' && (t[1] == 'x' || t[1] == 'X') && AllDigitsOf(t[2..], 16)
  }

  /** A token without its leading sign, if it has one. */
  function Unsigned(t: string): (u: string)
    ensures u == t || (t != [] && (t[0] == '-' || t[0] == '+') && u == t[1..])
  {
    if t != [] && (t[0] == '-' || t[0] == '+') then t[1..] else t
  }

  /** The decimal literals `parse_imm` accepts: an optional sign, then at
      least one decimal digit (leading zeros allowed). */
  predicate IsDecimalNumeral(t: string) {
    Unsigned(t) != [] && AllDigitsOf(Unsigned(t), 10)
  }

  /** A hex literal that is not a label name reads as its value modulo 256,
      whatever the case of its digits and of the `x`. */
  lemma ParseImmHexNumeral(token: string, labels: map<string, nat>)
    requires Strip(token) !in labels && IsHexNumeral(Strip(token))
    ensures ParseImm(token, labels) == Ok(DigitsValue(Strip(token)[2..], 16) % 256)
  {
    var t := Strip(token);
    assert HasHexPrefix(t);
    ReadDigitsValue(t[2..], 16);
  }

  /** A decimal literal that is not a label name reads as its signed value
      modulo 256. */
  lemma ParseImmDecimalNumeral(token: string, labels: map<string, nat>)
    requires Strip(token) !in labels && IsDecimalNumeral(Strip(token))
    ensures var t := Strip(token);
      var v: int := DigitsValue(Unsigned(t), 10);
      ParseImm(token, labels) == Ok((if t[0] == '-' then -v else v) % 256)
  {
    var t := Strip(token);
    var u := Unsigned(t);
    assert IsDecimalDigit(u[0]);
    assert !HasHexPrefix(t) by {
      if |t| >= 2 && u == t {
        assert IsDecimalDigit(t[1]);
      }
    }
    ReadDigitsValue(u, 10);
  }

  /** Any other token that is not a label name raises: `parse_imm` accepts
      exactly the label names, the hex literals and the decimal literals. */
  lemma ParseImmRejects(token: string, labels: map<string, nat>)
    requires Strip(token) !in labels && !IsHexNumeral(Strip(token)) && !IsDecimalNumeral(Strip(token))
    ensures ParseImm(token, labels) == Err(BadNumber(Strip(token)))
  {
    var t := Strip(token);
    if HasHexPrefix(t) {
      ReadDigitsValue(t[2..], 16);
    } else {
      ReadDigitsValue(Unsigned(t), 10);
    }
  }

  /** A token without any digit is neither a hex nor a decimal literal: unless
      it names a label, it is rejected. */
  lemma ParseImmRejectsNonNumeral(token: string, labels: map<string, nat>)
    requires Strip(token) !in labels
    requires forall k :: 0 <= k < |Strip(token)| ==> !IsDecimalDigit(Strip(token)[k])
    ensures ParseImm(token, labels) == Err(BadNumber(Strip(token)))
  {
    var t := Strip(token);
    if t != [] {
      assert !IsDecimalDigit(t[0]);
    }
    if |t| >= 2 && (t[0] == '-' || t[0] == '+') {
      assert !IsDecimalDigit(t[1]);
    }
  }

  /** A string whose first and last characters are not whitespace is left
      unchanged by `strip()`. */
  lemma StripNumeral(t: string)
    requires t != [] && (IsHexDigit(t[0]) || t[0] == '-') && IsHexDigit(t[|t| - 1])
    ensures Strip(t) == t
  {
  }
}
