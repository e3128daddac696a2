// The two Intel HEX readers: parse_intel_hex of scripts/build_rdx_update_container.py and
// get_intel_hex_address_span of scripts/ti_cgt_tools.py.  A file is the list of its lines.
module IntelHex {
  import opened Wrappers

  type Byte = x: int | 0 <= x < 256

  datatype Error =
    | NotAscii | MissingColon | BadHex | BadLength | BadChecksum | Conflict(address: nat)
    | MalformedEnd | MalformedUpper | Unsupported(kind: Byte) | NoEnd | NoData | Truncated

  type Line = seq<char>
  type Memory = map<nat, Byte>

  // --- Text ---

  // What bytes.fromhex skips between two bytes, and what str.strip removes, for ASCII.
  predicate IsSpace(c: char) {
    c == ' ' || 9 as char <= c <= 13 as char
  }

  predicate IsBlank(c: char) {
    IsSpace(c) || 28 as char <= c <= 31 as char
  }

  function StripLeft(s: Line): Line {
    if s != [] && IsBlank(s[0]) then StripLeft(s[1..]) else s
  }

  function StripRight(s: Line): Line {
    if s != [] && IsBlank(s[|s| - 1]) then StripRight(s[..|s| - 1]) else s
  }

  function Strip(s: Line): Line {
    StripRight(StripLeft(s))
  }

  function DigitOf(c: char): Option<nat> {
    if '0' <= c <= '9' then Some(c as int - '0' as int)
    else if 'A' <= c <= 'F' then Some(c as int - 'A' as int + 10)
    else if 'a' <= c <= 'f' then Some(c as int - 'a' as int + 10)
    else None
  }

  // bytes.fromhex
  function FromHex(s: Line): Option<seq<Byte>>
    decreases |s|
  {
    if s == [] then Some([])
    else if IsSpace(s[0]) then FromHex(s[1..])
    else if |s| < 2 || DigitOf(s[0]).None? || DigitOf(s[1]).None? then None
    else
      var rest := FromHex(s[2..]);
      if rest.None? then None else Some([HexByte(s[0], s[1])] + rest.value)
  }

  function HexByte(high: char, low: char): Byte
    requires DigitOf(high).Some? && DigitOf(low).Some?
  {
    DigitOf(high).value * 16 + DigitOf(low).value
  }

  function Sum(bytes: seq<Byte>): nat {
    if bytes == [] then 0 else Sum(bytes[..|bytes| - 1]) + bytes[|bytes| - 1]
  }

  // --- Records ---

  datatype Record =
    | Data(address: nat, payload: seq<Byte>)
    | Upper(value: nat)
    | End

  function Word(high: nat, low: nat): nat {
    high * 256 + low
  }

  function Payload(bytes: seq<Byte>): seq<Byte>
    requires |bytes| >= 5
  {
    bytes[4..|bytes| - 1]
  }

  // The record types parse_intel_hex knows, in a record of the right length and checksum.
  function Typed(bytes: seq<Byte>): Result<Record, Error>
    requires |bytes| >= 5 && |bytes| - 5 == bytes[0]
  {
    if bytes[3] == 0 then Ok(Data(Word(bytes[1], bytes[2]), Payload(bytes)))
    else if bytes[3] == 1 then if bytes[0] != 0 then Err(MalformedEnd) else Ok(End)
    else if bytes[3] == 4 then
      if bytes[0] != 2 || Word(bytes[1], bytes[2]) != 0 then Err(MalformedUpper)
      else Ok(Upper(Word(Payload(bytes)[0], Payload(bytes)[1])))
    else Err(Unsupported(bytes[3]))
  }

  // One line, as parse_intel_hex reads it.
  function Decode(raw: Line): Result<Record, Error> {
    var line := Strip(raw);
    if line == [] || line[0] != ':' then Err(MissingColon) else
    match FromHex(line[1..])
    case None => Err(BadHex)
    case Some(bytes) =>
      if |bytes| < 5 || |bytes| - 5 != bytes[0] then Err(BadLength)
      else if Sum(bytes) % 256 != 0 then Err(BadChecksum)
      else Typed(bytes)
  }

  // The bytes of a data record put into memory, or the first conflict.
  function Load(memory: Memory, start: nat, payload: seq<Byte>): Result<Memory, Error>
    decreases |payload|
  {
    if payload == [] then Ok(memory)
    else if start in memory && memory[start] != payload[0] then Err(Conflict(start))
    else Load(memory[start := payload[0]], start + 1, payload[1..])
  }

  // parse_intel_hex after some lines: the memory so far and the upper address.
  function Read(lines: seq<Line>, memory: Memory, upper: nat): Result<Memory, Error>
    decreases |lines|
  {
    if lines == [] then Err(NoEnd) else
    match Decode(lines[0])
    case Err(e) => Err(e)
    case Ok(End) => if memory == map[] then Err(NoData) else Ok(memory)
    case Ok(Upper(value)) => Read(lines[1..], memory, value * 0x10000)
    case Ok(Data(address, payload)) =>
      match Load(memory, upper + address, payload)
      case Err(e) => Err(e)
      case Ok(more) => Read(lines[1..], more, upper)
  }

  predicate Ascii(lines: seq<Line>) {
    forall i, j :: 0 <= i < |lines| && 0 <= j < |lines[i]| ==> lines[i][j] < 128 as char
  }

  function Parse(lines: seq<Line>): Result<Memory, Error> {
    if Ascii(lines) then Read(lines, map[], 0) else Err(NotAscii)
  }

  // --- Encoding ---

  function DigitChar(n: nat): char
    requires n < 16
  {
    if n < 10 then '0' + n as char else 'A' + (n - 10) as char
  }

  function ToHex(bytes: seq<Byte>): Line
    decreases |bytes|
  {
    if bytes == [] then [] else [DigitChar(bytes[0] / 16), DigitChar(bytes[0] % 16)] + ToHex(bytes[1..])
  }

  function Header(r: Record): seq<Byte>
    requires Encodable(r)
  {
    match r
    case Data(address, payload) => [|payload|, address / 256, address % 256, 0] + payload
    case Upper(value) => [2, 0, 0, 4, value / 256, value % 256]
    case End => [0, 0, 0, 1]
  }

  predicate Encodable(r: Record) {
    match r
    case Data(address, payload) => address < 0x10000 && |payload| < 256
    case Upper(value) => value < 0x10000
    case End => true
  }

  function Checksum(bytes: seq<Byte>): Byte {
    (256 - Sum(bytes) % 256) % 256
  }

  function Encode(r: Record): Line
    requires Encodable(r)
  {
    [':'] + ToHex(Header(r) + [Checksum(Header(r))])
  }

  lemma {:induction false} HexRoundTrip(bytes: seq<Byte>)
    ensures FromHex(ToHex(bytes)) == Some(bytes)
    decreases |bytes|
  {
    if bytes != [] {
      HexRoundTrip(bytes[1..]);
      var s := ToHex(bytes);
      DigitRoundTrip(bytes[0] / 16);
      DigitRoundTrip(bytes[0] % 16);
      assert s[2..] == ToHex(bytes[1..]);
      assert [bytes[0]] + bytes[1..] == bytes;
    }
  }

  lemma DigitRoundTrip(n: nat)
    requires n < 16
    ensures DigitOf(DigitChar(n)) == Some(n)
    ensures !IsBlank(DigitChar(n)) && DigitChar(n) < 128 as char
  {
  }

  lemma {:induction false} HexNotBlank(bytes: seq<Byte>)
    ensures forall i :: 0 <= i < |ToHex(bytes)| ==> !IsBlank(ToHex(bytes)[i]) && ToHex(bytes)[i] < 128 as char
    decreases |bytes|
  {
    if bytes != [] {
      HexNotBlank(bytes[1..]);
      DigitRoundTrip(bytes[0] / 16);
      DigitRoundTrip(bytes[0] % 16);
    }
  }

  lemma ChecksumCloses(bytes: seq<Byte>)
    ensures Sum(bytes + [Checksum(bytes)]) % 256 == 0
  {
    assert (bytes + [Checksum(bytes)])[..|bytes|] == bytes;
    var n := Sum(bytes);
    assert Sum(bytes + [Checksum(bytes)]) == n + (256 - n % 256) % 256;
  }

  lemma StripNothing(line: Line)
    requires line != [] && !IsBlank(line[0]) && !IsBlank(line[|line| - 1])
    ensures Strip(line) == line
  {
  }

  lemma WordSplit(n: nat)
    requires n < 0x10000
    ensures n / 256 < 256 && Word(n / 256, n % 256) == n
  {
  }

  lemma TypedData(address: nat, payload: seq<Byte>, check: Byte)
    requires address < 0x10000 && |payload| < 256
    ensures var bytes := Header(Data(address, payload)) + [check];
            |bytes| - 5 == bytes[0] && Typed(bytes) == Ok(Data(address, payload))
  {
    var bytes := Header(Data(address, payload)) + [check];
    WordSplit(address);
    assert |bytes| == |payload| + 5 && bytes[0] == |payload|;
    assert bytes[1] == address / 256 && bytes[2] == address % 256 && bytes[3] == 0;
    assert Payload(bytes) == payload;
    hide Header, Payload, Word;
  }

  lemma TypedUpper(value: nat, check: Byte)
    requires value < 0x10000
    ensures var bytes := Header(Upper(value)) + [check];
            |bytes| - 5 == bytes[0] && Typed(bytes) == Ok(Upper(value))
  {
    var bytes := Header(Upper(value)) + [check];
    WordSplit(value);
    WordSplit(0);
    assert bytes == [2, 0, 0, 4, value / 256, value % 256, check];
    assert Payload(bytes) == [value / 256, value % 256];
    hide Header, Payload;
  }

  lemma TypedHeader(r: Record, check: Byte)
    requires Encodable(r)
    ensures var bytes := Header(r) + [check];
            |bytes| >= 5 && |bytes| - 5 == bytes[0] && Typed(bytes) == Ok(r)
  {
    match r
    case Data(address, payload) => TypedData(address, payload, check); hide Header, Typed;
    case Upper(value) => TypedUpper(value, check); hide Header, Typed;
    case End => assert Header(r) + [check] == [0, 0, 0, 1, check];
  }

  // An encoded line is printable and has nothing to strip.
  lemma EncodedText(r: Record)
    requires Encodable(r)
    ensures var line := Encode(r);
            && line != [] && line[0] == ':' && Strip(line) == line
            && FromHex(line[1..]) == Some(Header(r) + [Checksum(Header(r))])
            && forall i :: 0 <= i < |line| ==> line[i] < 128 as char && !IsBlank(line[i])
  {
    var bytes := Header(r) + [Checksum(Header(r))];
    HexNotBlank(bytes);
    HexRoundTrip(bytes);
    HexNonEmpty(bytes);
    hide Header, Checksum, FromHex, ToHex;
    assert Encode(r)[1..] == ToHex(bytes);
    hide Strip, IsBlank;
    StripNothing(Encode(r));
  }

  // Reading an encoded record gives it back.
  lemma LineRoundTrip(r: Record)
    requires Encodable(r)
    ensures Decode(Encode(r)) == Ok(r)
  {
    EncodedText(r);
    ChecksumCloses(Header(r));
    TypedHeader(r, Checksum(Header(r)));
    hide Header, Checksum, Typed, Sum, FromHex, Strip, Encode;
  }

  lemma HexNonEmpty(bytes: seq<Byte>)
    requires bytes != []
    ensures |ToHex(bytes)| >= 2
  {
  }
}
