/** Integer literals as the assembler reads and writes them: `int(s)` and
    `int(s, 16)` for reading, `f"{n}"` and `f"{n:02X}"` for writing. */
module Numerals {

  datatype Option<+T> = None | Some(value: T)

  predicate IsDecimalDigit(c: char) {
    '0' <= c <= '9'
  }

  predicate IsHexDigit(c: char) {
    '0' <= c <= '9' || 'a' <= c <= 'f' || 'A' <= c <= 'F'
  }

  /** A digit of the given base (10 or 16). */
  predicate IsDigitOf(c: char, base: nat) {
    if base == 16 then IsHexDigit(c) else IsDecimalDigit(c)
  }

  function DigitValue(c: char): (v: nat)
    requires IsHexDigit(c)
    ensures v < 16
    ensures IsDecimalDigit(c) ==> v < 10
  {
    if '0' <= c <= '9' then c as int - '0' as int
    else if 'a' <= c <= 'f' then c as int - 'a' as int + 10
    else c as int - 'A' as int + 10
  }

  predicate AllDigitsOf(s: string, base: nat) {
    forall k :: 0 <= k < |s| ==> IsDigitOf(s[k], base)
  }

  /** The value of a digit string, most significant digit first. */
  function DigitsValue(s: string, base: nat): nat
    requires base == 10 || base == 16
    requires AllDigitsOf(s, base)
  {
    if s == [] then 0
    else DigitsValue(s[..|s| - 1], base) * base + DigitValue(s[|s| - 1])
  }

  /** A digit string read from its last digit back: `None` unless it is a
      non-empty run of digits of the base. */
  function ReadDigits(s: string, base: nat): Option<nat>
    requires base == 10 || base == 16
    decreases |s|
  {
    if s == [] || !IsDigitOf(s[|s| - 1], base) then None
    else if |s| == 1 then Some(DigitValue(s[0]))
    else
      match ReadDigits(s[..|s| - 1], base)
      case None => None
      case Some(v) => Some(v * base + DigitValue(s[|s| - 1]))
  }

  /** The reader accepts exactly the non-empty digit strings, with their
      value. */
  lemma {:induction false} ReadDigitsValue(s: string, base: nat)
    requires base == 10 || base == 16
    ensures ReadDigits(s, base) == if s != [] && AllDigitsOf(s, base) then Some(DigitsValue(s, base)) else None
    decreases |s|
  {
    if s != [] && IsDigitOf(s[|s| - 1], base) {
      var p := s[..|s| - 1];
      if |s| == 1 {
        assert p == [];
      } else {
        ReadDigitsValue(p, base);
        if !AllDigitsOf(p, base) {
          var k :| 0 <= k < |p| && !IsDigitOf(p[k], base);
          assert s[k] == p[k];
        } else {
          assert AllDigitsOf(s, base) by {
            forall k | 0 <= k < |s| ensures IsDigitOf(s[k], base) {
              if k < |p| { assert s[k] == p[k]; }
            }
          }
        }
      }
    }
  }

  /** `int(s)` (base 10) and `int(s, 16)`: an optional sign, for base 16 an
      optional `0x`/`0X` prefix, then at least one digit of the base. */
  function ParseInt(s: string, base: nat): (r: Option<int>)
    requires base == 10 || base == 16
  {
    var negative := s != [] && s[0] == '-';
    var unsigned := if s != [] && (s[0] == '-' || s[0] == '+') then s[1..] else s;
    var digits :=
      if base == 16 && |unsigned| >= 2 && unsigned[0] == '0' && (unsigned[1] == 'x' || unsigned[1] == 'X')
      then unsigned[2..] else unsigned;
    match ReadDigits(digits, base)
    case None => None
    case Some(v) =>
      var n: int := v;
      Some(if negative then -n else n)
  }

  /** The upper-case digit for a value below 16. */
  function DigitChar(d: nat): (c: char)
    requires d < 16
    ensures IsHexDigit(c) && DigitValue(c) == d
    ensures d < 10 ==> IsDecimalDigit(c)
    ensures !('a' <= c <= 'z')
  {
    if d < 10 then ('0' as int + d) as char else ('A' as int + d - 10) as char
  }

  /** The shortest digit string of `n` in the base (`"0"` for zero), with
      upper-case hex digits. */
  function NatDigits(n: nat, base: nat): string
    requires base == 10 || base == 16
    decreases n
  {
    if n < base then [DigitChar(n)] else NatDigits(n / base, base) + [DigitChar(n % base)]
  }

  /** `f"{n}"`. */
  function Decimal(n: int): string {
    if n < 0 then "-" + NatDigits(-n, 10) else NatDigits(n, 10)
  }

  /** `f"{n:02X}"`: upper-case hex, zero-padded to at least two digits. */
  function Hex2(n: nat): string {
    var d := NatDigits(n, 16);
    if |d| < 2 then "0" + d else d
  }

  /** The digits written for `n` are digits of the base and read back as `n`. */
  lemma {:induction false} NatDigitsValue(n: nat, base: nat)
    requires base == 10 || base == 16
    ensures AllDigitsOf(NatDigits(n, base), base)
    ensures DigitsValue(NatDigits(n, base), base) == n
    decreases n
  {
    var s := NatDigits(n, base);
    if n < base {
      assert s[..0] == [];
    } else {
      NatDigitsValue(n / base, base);
      assert s[..|s| - 1] == NatDigits(n / base, base);
    }
  }

  /** A leading zero does not change a digit string's value. */
  lemma {:induction false} LeadingZero(s: string, base: nat)
    requires base == 10 || base == 16
    requires AllDigitsOf(s, base)
    ensures AllDigitsOf("0" + s, base)
    ensures DigitsValue("0" + s, base) == DigitsValue(s, base)
    decreases |s|
  {
    var t := "0" + s;
    if s == [] {
      assert t[..0] == [];
    } else {
      assert t[..|t| - 1] == "0" + s[..|s| - 1];
      LeadingZero(s[..|s| - 1], base);
    }
  }

  /** Round trip of `f"{n}"` through `int()`. */
  lemma DecimalRoundTrip(n: int)
    ensures ParseInt(Decimal(n), 10) == Some(n)
  {
    var m := if n < 0 then -n else n;
    NatDigitsValue(m, 10);
    var d := NatDigits(m, 10);
    ReadDigitsValue(d, 10);
    assert d != [] && IsDecimalDigit(d[0]);
    if n < 0 {
      assert Decimal(n)[1..] == d;
    }
  }

  /** Round trip of `f"{n:02X}"` through `int(_, 16)`. */
  lemma Hex2RoundTrip(n: nat)
    ensures ParseInt(Hex2(n), 16) == Some(n)
  {
    var d := NatDigits(n, 16);
    NatDigitsValue(n, 16);
    if |d| < 2 {
      LeadingZero(d, 16);
      ReadDigitsValue("0" + d, 16);
      assert Hex2(n) == "0" + d;
      assert IsDigitOf(d[0], 16);
    } else {
      assert Hex2(n) == d;
      ReadDigitsValue(d, 16);
      assert d[1] != 'x' && d[1] != 'X' by {
        assert IsDigitOf(d[1], 16);
      }
    }
  }

  /** Round trip of a `0x`-prefixed hex literal through `int(_, 16)`. */
  lemma HexLiteralRoundTrip(n: nat)
    ensures ParseInt("0x" + NatDigits(n, 16), 16) == Some(n)
  {
    var s := "0x" + NatDigits(n, 16);
    NatDigitsValue(n, 16);
    assert s[2..] == NatDigits(n, 16);
    ReadDigitsValue(NatDigits(n, 16), 16);
  }

  /** `NatDigits` writes one digit below the base and one more for each
      further factor of the base. */
  lemma {:induction false} HexDigitCount(n: nat)
    ensures 1 <= |NatDigits(n, 16)|
    ensures |NatDigits(n, 16)| == 1 <==> n < 16
    ensures |NatDigits(n, 16)| <= 2 <==> n < 256
    decreases n
  {
    if n >= 16 {
      HexDigitCount(n / 16);
    }
  }

  /** `f"{n:02X}"` is exactly two characters for a byte and longer for
      anything larger; every character is an upper-case hex digit. */
  lemma Hex2Shape(n: nat)
    ensures |Hex2(n)| == 2 <==> n < 256
    ensures |Hex2(n)| >= 2
    ensures forall k :: 0 <= k < |Hex2(n)| ==> '0' <= Hex2(n)[k] <= '9' || 'A' <= Hex2(n)[k] <= 'F'
  {
    HexDigitCount(n);
    NatDigitsUpper(n);
  }

  lemma {:induction false} NatDigitsUpper(n: nat)
    ensures forall k :: 0 <= k < |NatDigits(n, 16)| ==> '0' <= NatDigits(n, 16)[k] <= '9' || 'A' <= NatDigits(n, 16)[k] <= 'F'
    decreases n
  {
    if n >= 16 {
      NatDigitsUpper(n / 16);
    }
  }

  /** `f"{n}"` is a non-empty run of decimal digits, after a `-` when `n` is
      negative. */
  lemma {:induction false} DecimalShape(n: int)
    ensures Decimal(n) != []
    ensures forall k :: 0 <= k < |Decimal(n)| ==> IsDecimalDigit(Decimal(n)[k]) || (k == 0 && Decimal(n)[k] == '-')
    ensures IsDecimalDigit(Decimal(n)[|Decimal(n)| - 1])
  {
    var m := if n < 0 then -n else n;
    NatDigitsValue(m, 10);
  }
}
