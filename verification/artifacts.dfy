/** What leaves the assembler: the hex text `save_hex_file` writes, one
    value per line, and the frame `send_program_via_uart` hands to the
    serial port. */
module Artifacts {
  import opened Numerals
  import opened Isa

  /** Every value is an 8-bit byte. */
  predicate Bytes(s: seq<nat>) {
    forall k :: 0 <= k < |s| ==> s[k] < 256
  }

  // ---------------------------------------------------------------------
  // The hex file.

  /** One line of the hex file: `f"{b:02X}"` and a newline. */
  function HexRecord(b: nat): string {
    Hex2(b) + "\n"
  }

  /** The whole hex file: the records of the values, in order. */
  function HexFile(bytes: seq<nat>): string
    decreases |bytes|
  {
    if bytes == [] then "" else HexRecord(bytes[0]) + HexFile(bytes[1..])
  }

  /** Writing one more value appends its record. */
  lemma {:induction false} HexFileAppend(bytes: seq<nat>, b: nat)
    ensures HexFile(bytes + [b]) == HexFile(bytes) + HexRecord(b)
    decreases |bytes|
  {
    if bytes != [] {
      assert (bytes + [b])[1..] == bytes[1..] + [b];
      HexFileAppend(bytes[1..], b);
    }
  }

  /** `save_hex_file`, with the file's contents as the result: one write
      per value. */
  method WriteHexFile(bytes: seq<nat>) returns (text: string)
    ensures text == HexFile(bytes)
  {
    text := "";
    for i := 0 to |bytes|
      invariant text == HexFile(bytes[..i])
    {
      assert bytes[..i + 1] == bytes[..i] + [bytes[i]];
      HexFileAppend(bytes[..i], bytes[i]);
      text := text + HexRecord(bytes[i]);
    }
    assert bytes[..|bytes|] == bytes;
  }

  /** A record of a byte is two upper-case hex digits and a newline. */
  lemma HexRecordShape(b: nat)
    requires b < 256
    ensures |HexRecord(b)| == 3 && HexRecord(b)[2] == '\n'
    ensures forall k :: 0 <= k < 2 ==> '0' <= HexRecord(b)[k] <= '9' || 'A' <= HexRecord(b)[k] <= 'F'
    ensures ParseInt(HexRecord(b)[..2], 16) == Some(b)
  {
    Hex2Shape(b);
    Hex2RoundTrip(b);
    assert HexRecord(b)[..2] == Hex2(b);
  }

  /** Reads a hex file back: each three-character record `HH\n` is read
      with `int(_, 16)`; anything else is rejected. */
  function ReadHexFile(text: string): (r: Option<seq<nat>>)
    ensures r.Some? ==> |text| == 3 * |r.value|
    decreases |text|
  {
    if text == [] then Some([])
    else if |text| < 3 || text[2] != '\n' then None
    else
      match ParseInt(text[..2], 16)
      case None => None
      case Some(v) =>
        if v < 0 then None
        else
          match ReadHexFile(text[3..])
          case None => None
          case Some(rest) => Some([v as nat] + rest)
  }

  /** Round trip: a file of bytes reads back as those bytes, three
      characters per byte. */
  lemma {:induction false} HexFileRoundTrip(bytes: seq<nat>)
    requires Bytes(bytes)
    ensures ReadHexFile(HexFile(bytes)) == Some(bytes)
    decreases |bytes|
  {
    if bytes != [] {
      var text := HexFile(bytes);
      HexRecordShape(bytes[0]);
      HexFileRoundTrip(bytes[1..]);
      HexFileLength(bytes[1..]);
      assert text[..2] == HexRecord(bytes[0])[..2];
      assert text[3..] == HexFile(bytes[1..]);
      assert [bytes[0]] + bytes[1..] == bytes;
    }
  }

  /** Three characters per byte. */
  lemma {:induction false} HexFileLength(bytes: seq<nat>)
    requires Bytes(bytes)
    ensures |HexFile(bytes)| == 3 * |bytes|
    decreases |bytes|
  {
    if bytes != [] {
      HexRecordShape(bytes[0]);
      HexFileLength(bytes[1..]);
    }
  }

  /** A file of at least one byte: its first record, then the rest. */
  lemma HexFileCons(bytes: seq<nat>)
    requires bytes != [] && bytes[0] < 256
    ensures |HexFile(bytes)| >= 3
    ensures HexFile(bytes)[..3] == HexRecord(bytes[0]) && HexFile(bytes)[3..] == HexFile(bytes[1..])
  {
    HexRecordShape(bytes[0]);
  }

  /** The file after its first `k` records is the file of the values after
      the first `k`. */
  lemma {:induction false} HexFileSuffix(bytes: seq<nat>, k: nat)
    requires Bytes(bytes) && k <= |bytes|
    ensures 3 * k <= |HexFile(bytes)| && HexFile(bytes)[3 * k..] == HexFile(bytes[k..])
    decreases k
  {
    if k > 0 {
      HexFileCons(bytes);
      HexFileSuffix(bytes[1..], k - 1);
      assert HexFile(bytes)[3..][3 * (k - 1)..] == HexFile(bytes)[3 * k..];
      assert bytes[1..][k - 1..] == bytes[k..];
    }
  }

  /** Line `k` of the file is the record of the `k`-th value. */
  lemma HexFileRecordAt(bytes: seq<nat>, k: nat)
    requires Bytes(bytes) && k < |bytes|
    ensures 3 * k + 3 <= |HexFile(bytes)|
    ensures HexFile(bytes)[3 * k..3 * k + 3] == HexRecord(bytes[k])
  {
    HexFileSuffix(bytes, k);
    HexFileCons(bytes[k..]);
    assert HexFile(bytes)[3 * k..][..3] == HexFile(bytes)[3 * k..3 * k + 3];
  }

  // ---------------------------------------------------------------------
  // The UART frame.

  /** The values as sent: each masked to its low byte. */
  function LowBytes(data: seq<nat>): (r: seq<nat>)
    ensures |r| == |data| && Bytes(r)
    ensures forall k :: 0 <= k < |data| ==> r[k] == data[k] % 256
  {
    seq(|data|, k requires 0 <= k < |data| => data[k] % 256)
  }

  /** The four-byte header: 0x55, 0xAA, then the length's high and low
      bytes. */
  function FrameHeader(n: nat): seq<nat> {
    [0x55, 0xAA, (n / 256) % 256, n % 256]
  }

  /** The frame `send_program_via_uart` writes, or the error for an empty
      program. */
  function Frame(data: seq<nat>): Result<seq<nat>> {
    if |data| == 0 then Err(EmptyProgram) else Ok(FrameHeader(|data|) + LowBytes(data))
  }

  /** The frame construction of `send_program_via_uart`: the header bytes,
      then each value masked to a byte, one append at a time. */
  method BuildFrame(data: seq<nat>) returns (r: Result<seq<nat>>)
    ensures r == Frame(data)
  {
    var length := |data|;
    if length == 0 {
      return Err(EmptyProgram);
    }
    var frame: seq<nat> := [];
    frame := frame + [0x55];
    frame := frame + [0xAA];
    frame := frame + [(length / 256) % 256];
    frame := frame + [length % 256];
    for i := 0 to |data|
      invariant frame == FrameHeader(length) + LowBytes(data[..i])
    {
      assert LowBytes(data[..i + 1]) == LowBytes(data[..i]) + [data[i] % 256];
      frame := frame + [data[i] % 256];
    }
    assert data[..|data|] == data;
    r := Ok(frame);
  }

  /** Reads a frame back: the header must be 0x55 0xAA and the length
      field must count the bytes that follow. */
  function ReadFrame(frame: seq<nat>): (r: Option<seq<nat>>)
    ensures r.Some? ==> |frame| == |r.value| + 4
  {
    if |frame| < 4 || frame[0] != 0x55 || frame[1] != 0xAA || frame[2] * 256 + frame[3] != |frame| - 4 then None
    else Some(frame[4..])
  }

  /** The two length bytes hold the length modulo 65536. */
  lemma LengthField(n: nat)
    ensures (n / 256) % 256 * 256 + n % 256 == n % 65536
  {
    var q, r := n / 256, n % 256;
    var hi, s := q / 256, q % 256;
    assert n == 256 * q + r;
    assert q == 256 * hi + s;
    assert n == 65536 * hi + (256 * s + r);
    assert n % 65536 == 256 * s + r;
  }

  /** An empty program is refused; any other gives a frame of its length
      plus four bytes, all of them bytes, whose length field holds the
      length modulo 65536 and whose payload is the values' low bytes. */
  lemma FrameShape(data: seq<nat>)
    ensures Frame(data).Err? <==> data == []
    ensures Frame(data).Err? ==> Frame(data).error == EmptyProgram
    ensures Frame(data).Ok? ==>
      var f := Frame(data).value;
      |f| == |data| + 4 && Bytes(f) && f[0] == 0x55 && f[1] == 0xAA
      && f[2] * 256 + f[3] == |data| % 65536 && f[4..] == LowBytes(data)
  {
    if data != [] {
      var f := Frame(data).value;
      var n := |data|;
      LengthField(n);
      assert f[4..] == LowBytes(data);
    }
  }

  /** Round trip: a program of bytes shorter than 65536 is read back from
      its frame unchanged. */
  lemma FrameRoundTrip(data: seq<nat>)
    requires data != [] && |data| < 65536 && Bytes(data)
    ensures Frame(data).Ok? && ReadFrame(Frame(data).value) == Some(data)
  {
    FrameShape(data);
    assert LowBytes(data) == data;
  }

  /** A program of 65536 values or more gets a length field that does not
      count it, so the frame does not read back. */
  lemma LongFrameUnreadable(data: seq<nat>)
    requires |data| >= 65536
    ensures Frame(data).Ok? && ReadFrame(Frame(data).value).None?
  {
    FrameShape(data);
  }
}
