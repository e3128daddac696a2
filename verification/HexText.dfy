// The text of Intel HEX lines: digits of either case, blanks around and between them, and which
// bytes make a record.
module HexText {
  import opened IntelHex
  import opened HexReaders
  import opened Wrappers

  const CAPITALS := "0123456789ABCDEF"
  const SMALLS := "0123456789abcdef"

  // `c` is the digit for `n` in one of the two cases.
  predicate Writes(c: char, n: nat)
    requires n < 16
  {
    c == CAPITALS[n] || c == SMALLS[n]
  }

  // Two digits for each byte, in any mixture of cases.
  predicate Renders(text: Line, bytes: seq<Byte>) {
    && |text| == 2 * |bytes|
    && forall i :: 0 <= i < |bytes| ==> Writes(text[2 * i], bytes[i] / 16) && Writes(text[2 * i + 1], bytes[i] % 16)
  }

  lemma DigitExactly(c: char, n: nat)
    requires n < 16
    ensures DigitOf(c) == Some(n) <==> Writes(c, n)
  {
    assert forall k :: 0 <= k < 10 ==> CAPITALS[k] == SMALLS[k] == '0' + k as char;
    assert forall k :: 10 <= k < 16 ==> CAPITALS[k] == 'A' + (k - 10) as char && SMALLS[k] == 'a' + (k - 10) as char;
  }

  lemma DigitSmall(c: char)
    ensures DigitOf(c).Some? ==> DigitOf(c).value < 16 && Writes(c, DigitOf(c).value) && !IsBlank(c)
  {
    if DigitOf(c).Some? {
      DigitExactly(c, DigitOf(c).value);
    }
  }

  lemma RendersFirst(text: Line, bytes: seq<Byte>)
    requires bytes != [] && |text| == 2 * |bytes|
    ensures Renders(text, bytes) <==>
              Writes(text[0], bytes[0] / 16) && Writes(text[1], bytes[0] % 16) && Renders(text[2..], bytes[1..])
  {
    hide Writes;
    var rest, tail := text[2..], bytes[1..];
    forall i | 0 <= i < |tail|
      ensures tail[i] == bytes[i + 1] && rest[2 * i] == text[2 * (i + 1)] && rest[2 * i + 1] == text[2 * (i + 1) + 1]
    {
    }
    if Writes(text[0], bytes[0] / 16) && Writes(text[1], bytes[0] % 16) && Renders(rest, tail) {
      forall i | 0 <= i < |bytes|
        ensures Writes(text[2 * i], bytes[i] / 16) && Writes(text[2 * i + 1], bytes[i] % 16)
      {
        if i > 0 {
          assert Writes(rest[2 * (i - 1)], tail[i - 1] / 16) && Writes(rest[2 * (i - 1) + 1], tail[i - 1] % 16);
        }
      }
    }
  }

  // Text without spaces is read as the bytes that it renders, whatever the case of its digits,
  // and nothing else is read.
  lemma {:induction false} RenderingExactly(text: Line, bytes: seq<Byte>)
    requires forall i :: 0 <= i < |text| ==> !IsSpace(text[i])
    ensures FromHex(text) == Some(bytes) <==> Renders(text, bytes)
    decreases |text|
  {
    if |text| >= 2 && bytes != [] {
      RenderingExactly(text[2..], bytes[1..]);
      PairExactly(text, bytes);
    }
  }

  lemma PairExactly(text: Line, bytes: seq<Byte>)
    requires |text| >= 2 && bytes != [] && !IsSpace(text[0])
    requires FromHex(text[2..]) == Some(bytes[1..]) <==> Renders(text[2..], bytes[1..])
    ensures FromHex(text) == Some(bytes) <==> Renders(text, bytes)
  {
    hide Writes, Renders, DigitOf, IsSpace, FromHex, HexByte;
    FromPair(text);
    ByteExactly(text[0], text[1], bytes[0]);
    if |text| == 2 * |bytes| {
      RendersFirst(text, bytes);
    } else {
      RendersLength(text, bytes);
      RendersLength(text[2..], bytes[1..]);
    }
    if FromHex(text) == Some(bytes) {
      assert bytes[1..] == FromHex(text[2..]).value;
    } else if FromHex(text[2..]) == Some(bytes[1..]) {
      assert [bytes[0]] + bytes[1..] == bytes;
    }
  }

  lemma ByteExactly(high: char, low: char, byte: Byte)
    ensures DigitOf(high).Some? && DigitOf(low).Some? && HexByte(high, low) == byte <==>
              Writes(high, byte / 16) && Writes(low, byte % 16)
  {
    hide Writes, DigitOf;
    DigitExactly(high, byte / 16);
    DigitExactly(low, byte % 16);
    DigitSmall(high);
    DigitSmall(low);
  }

  lemma RendersLength(text: Line, bytes: seq<Byte>)
    ensures Renders(text, bytes) ==> |text| == 2 * |bytes|
  {
  }

  lemma FromPair(text: Line)
    requires |text| >= 2 && !IsSpace(text[0])
    ensures FromHex(text)
            == if DigitOf(text[0]).None? || DigitOf(text[1]).None? || FromHex(text[2..]).None? then None
               else Some([HexByte(text[0], text[1])] + FromHex(text[2..]).value)
  {
  }

  // --- Lines ---

  // What parse_intel_hex strips from a line: blanks, and the separators 1Ch to 1Fh.
  const STRIPPED: set<int> := {9, 10, 11, 12, 13, 28, 29, 30, 31, 32}

  predicate Around(blanks: Line) {
    forall i :: 0 <= i < |blanks| ==> blanks[i] as int in STRIPPED
  }

  lemma {:induction false} StripsLeft(left: Line, line: Line)
    requires Around(left) && line != [] && !IsBlank(line[0])
    ensures StripLeft(left + line) == line
    decreases |left|
  {
    if left == [] {
      assert left + line == line;
    } else {
      assert (left + line)[1..] == left[1..] + line;
      StripsLeft(left[1..], line);
    }
  }

  lemma {:induction false} StripsRight(line: Line, right: Line)
    requires Around(right) && line != [] && !IsBlank(line[|line| - 1])
    ensures StripRight(line + right) == line
    decreases |right|
  {
    if right == [] {
      assert line + right == line;
    } else {
      assert (line + right)[..|line + right| - 1] == line + right[..|right| - 1];
      StripsRight(line, right[..|right| - 1]);
    }
  }

  lemma Stripped(left: Line, line: Line, right: Line)
    requires Around(left) && Around(right) && line != [] && !IsBlank(line[0]) && !IsBlank(line[|line| - 1])
    ensures Strip(left + line + right) == line
  {
    hide StripLeft, StripRight, IsBlank, Around;
    assert left + line + right == left + (line + right) && (line + right)[0] == line[0];
    StripsLeft(left, line + right);
    StripsRight(line, right);
  }

  lemma RenderedText(text: Line, bytes: seq<Byte>)
    requires Renders(text, bytes)
    ensures forall i :: 0 <= i < |text| ==> !IsBlank(text[i])
  {
    forall i | 0 <= i < |text|
      ensures !IsBlank(text[i])
    {
      assert i == 2 * (i / 2) || i == 2 * (i / 2) + 1;
      assert i / 2 < |bytes|;
      if i == 2 * (i / 2) {
        DigitExactly(text[i], bytes[i / 2] / 16);
      } else {
        DigitExactly(text[i], bytes[i / 2] % 16);
      }
      DigitSmall(text[i]);
    }
  }

  // The bytes of a line that stands for `r`: a length, an address, a type and the data, closed
  // by the checksum.  An end record may have any address.
  predicate Frames(bytes: seq<Byte>, r: Record) {
    && |bytes| >= 5 && bytes[|bytes| - 1] == Checksum(bytes[..|bytes| - 1])
    && if r.End? then |bytes| == 5 && bytes[0] == 0 && bytes[3] == 1
       else Encodable(r) && bytes[..|bytes| - 1] == Header(r)
  }

  lemma ClosesExactly(n: nat, last: Byte)
    ensures (n + last) % 256 == 0 <==> last == (256 - n % 256) % 256
  {
    var q, r := n / 256, n % 256;
    assert n + last == 256 * q + (r + last);
  }

  lemma ChecksumExactly(bytes: seq<Byte>)
    requires bytes != []
    ensures Sum(bytes) % 256 == 0 <==> bytes[|bytes| - 1] == Checksum(bytes[..|bytes| - 1])
  {
    var n, last := Sum(bytes[..|bytes| - 1]), bytes[|bytes| - 1];
    ClosesExactly(n, last);
    assert Sum(bytes) == n + last;
  }

  // Typing the bytes is the inverse of framing them.
  lemma TypedExactly(bytes: seq<Byte>, r: Record)
    requires |bytes| >= 5 && bytes[|bytes| - 1] == Checksum(bytes[..|bytes| - 1])
    ensures (|bytes| - 5 == bytes[0] && Typed(bytes) == Ok(r)) <==> Frames(bytes, r)
  {
    hide Checksum, Typed;
    if Frames(bytes, r) && !r.End? {
      assert Header(r) + [bytes[|bytes| - 1]] == bytes;
      TypedHeader(r, bytes[|bytes| - 1]);
    } else if Frames(bytes, r) {
      EndTyped(bytes);
    } else if |bytes| - 5 == bytes[0] && Typed(bytes) == Ok(r) {
      TypedFrames(bytes, r);
    }
  }

  lemma EndTyped(bytes: seq<Byte>)
    requires |bytes| == 5 && bytes[0] == 0 && bytes[3] == 1
    ensures Typed(bytes) == Ok(End)
  {
  }

  lemma TypedFrames(bytes: seq<Byte>, r: Record)
    requires |bytes| >= 5 && |bytes| - 5 == bytes[0] && Typed(bytes) == Ok(r)
    ensures if r.End? then |bytes| == 5 && bytes[3] == 1
            else Encodable(r) && bytes[..|bytes| - 1] == Header(r)
  {
    match r
    case End =>
    case Data(address, payload) =>
      assert address / 256 == bytes[1] && address % 256 == bytes[2];
      assert bytes[..|bytes| - 1] == [bytes[0], bytes[1], bytes[2], bytes[3]] + payload;
    case Upper(value) =>
      assert value / 256 == bytes[4] && value % 256 == bytes[5];
      assert bytes[1] == 0 && bytes[2] == 0;
      assert bytes[..|bytes| - 1] == [2, 0, 0, 4, value / 256, value % 256];
  }

  // A line is read as the record `r` exactly when, stripped, it is a colon and hexadecimal text
  // of bytes that frame `r`.
  lemma DecodeExactly(raw: Line, r: Record)
    ensures Decode(raw) == Ok(r) <==>
              var line := Strip(raw);
              line != [] && line[0] == ':' && FromHex(line[1..]).Some? && Frames(FromHex(line[1..]).value, r)
  {
    hide Strip, FromHex, Sum, Typed, Frames, Checksum;
    var line := Strip(raw);
    if line != [] && line[0] == ':' && FromHex(line[1..]).Some? {
      var bytes := FromHex(line[1..]).value;
      FramesLong(bytes, r);
      if |bytes| >= 5 {
        ChecksumExactly(bytes);
        if bytes[|bytes| - 1] == Checksum(bytes[..|bytes| - 1]) {
          TypedExactly(bytes, r);
        }
      }
    }
  }

  // Otherwise the first thing that is wrong with it: the colon, the text, the length, the
  // checksum, the form of an end or upper-address record, or the type.
  lemma DecodeFails(raw: Line)
    ensures var line := Strip(raw);
            if line == [] || line[0] != ':' then Decode(raw) == Err(MissingColon)
            else if FromHex(line[1..]).None? then Decode(raw) == Err(BadHex)
            else
              var bytes := FromHex(line[1..]).value;
              if |bytes| < 5 || |bytes| - 5 != bytes[0] then Decode(raw) == Err(BadLength)
              else if bytes[|bytes| - 1] != Checksum(bytes[..|bytes| - 1]) then Decode(raw) == Err(BadChecksum)
              else if bytes[3] == 1 && bytes[0] != 0 then Decode(raw) == Err(MalformedEnd)
              else if bytes[3] == 4 && !(bytes[0] == 2 && bytes[1] == 0 && bytes[2] == 0)
              then Decode(raw) == Err(MalformedUpper)
              else if bytes[3] in {0, 1, 4} then Decode(raw).Ok?
              else Decode(raw) == Err(Unsupported(bytes[3]))
  {
    hide Strip, FromHex, Sum, Checksum;
    var line := Strip(raw);
    if line != [] && line[0] == ':' && FromHex(line[1..]).Some? && |FromHex(line[1..]).value| >= 5 {
      ChecksumExactly(FromHex(line[1..]).value);
    }
  }

  // A line as the second reader sees it: without a colon in its first column it is passed over,
  // and bytes behind the data and before the checksum do no harm.
  lemma LooseExactly(raw: Line)
    ensures raw == [] || raw[0] != ':' <==> DecodeLoose(raw).Skip?
    ensures raw != [] && raw[0] == ':' ==>
              if FromHex(raw[1..]).None? then DecodeLoose(raw) == Bad(BadHex)
              else
                var bytes := FromHex(raw[1..]).value;
                if |bytes| < 5 || bytes[|bytes| - 1] != Checksum(bytes[..|bytes| - 1])
                then DecodeLoose(raw) == Bad(BadChecksum)
                else if |bytes[4..]| < bytes[0] then DecodeLoose(raw) == Bad(Truncated)
                else if bytes[3] == 0 then DecodeLoose(raw) == Span(Word(bytes[1], bytes[2]), bytes[0])
                else if bytes[3] == 4 && bytes[0] == 2 then DecodeLoose(raw) == Base(Word(bytes[4], bytes[5]))
                else DecodeLoose(raw) == Other
  {
    hide FromHex, Sum, Checksum, Word;
    if raw != [] && raw[0] == ':' && FromHex(raw[1..]).Some? && |FromHex(raw[1..]).value| >= 5 {
      ChecksumExactly(FromHex(raw[1..]).value);
    }
  }

  lemma FramesLong(bytes: seq<Byte>, r: Record)
    ensures Frames(bytes, r) ==> |bytes| >= 5 && bytes[|bytes| - 1] == Checksum(bytes[..|bytes| - 1])
  {
  }

  lemma LineText(text: Line, bytes: seq<Byte>)
    requires Renders(text, bytes)
    ensures var line := [':'] + text;
            && !IsBlank(line[0]) && !IsBlank(line[|line| - 1])
            && FromHex(line[1..]) == Some(bytes)
  {
    hide FromHex, Renders, IsBlank;
    RenderedText(text, bytes);
    NotSpace(text);
    RenderingExactly(text, bytes);
    ColonShows();
    assert ([':'] + text)[1..] == text;
  }

  // Every record comes back from its line in any mixture of cases and with anything around it
  // that strip removes.
  lemma AnyCaseDecodes(r: Record, text: Line, left: Line, right: Line)
    requires Encodable(r) && Around(left) && Around(right)
    requires Renders(text, Header(r) + [Checksum(Header(r))])
    ensures Decode(left + ([':'] + text) + right) == Ok(r)
  {
    hide Strip, FromHex, Renders, Around, Checksum, Decode, IsBlank;
    var bytes := Header(r) + [Checksum(Header(r))];
    LineText(text, bytes);
    Stripped(left, [':'] + text, right);
    assert bytes[..|bytes| - 1] == Header(r);
    DecodeExactly(left + ([':'] + text) + right, r);
  }

  lemma ColonShows()
    ensures !IsBlank(':')
  {
  }

  lemma NotSpace(text: Line)
    requires forall i :: 0 <= i < |text| ==> !IsBlank(text[i])
    ensures forall i :: 0 <= i < |text| ==> !IsSpace(text[i])
  {
  }

  // The characters that bytes.fromhex skips between bytes, and those that str.strip removes.
  lemma BlanksExactly(c: char)
    ensures IsSpace(c) <==> c as int in {9, 10, 11, 12, 13, 32}
    ensures IsBlank(c) <==> c as int in STRIPPED
  {
  }

  // The end record that the linker writes.
  lemma UsualEnd()
    ensures Decode(":00000001FF") == Ok(End)
  {
    hide Renders, Decode, Sum, Around;
    UsualText();
    UsualSum();
    NothingAround();
    assert Header(End) + [Checksum(Header(End))] == [0, 0, 0, 1, 0xFF];
    AnyCaseDecodes(End, "00000001FF", [], []);
    assert [] + ([':'] + "00000001FF") + [] == ":00000001FF";
  }

  lemma UsualText()
    ensures Renders("00000001FF", [0, 0, 0, 1, 0xFF])
  {
    var text: Line, bytes: seq<Byte> := "00000001FF", [0, 0, 0, 1, 0xFF];
    forall i | 0 <= i < 5
      ensures Writes(text[2 * i], bytes[i] / 16) && Writes(text[2 * i + 1], bytes[i] % 16)
    {
      assert i == 0 || i == 1 || i == 2 || i == 3 || i == 4;
    }
  }

  lemma UsualSum()
    ensures Sum([0, 0, 0, 1]) == 1
  {
    assert [0, 0, 0, 1][..3] == [0, 0, 0] && [0, 0, 0][..2] == [0, 0] && [0, 0][..1] == [0];
    assert Sum([0]) == 0 && Sum([0, 0]) == 0 && Sum([0, 0, 0]) == 0;
  }

  lemma NothingAround()
    ensures Around([])
  {
  }

  // --- Corruption ---

  lemma {:induction false} SumUpdated(bytes: seq<Byte>, i: nat, v: Byte)
    requires i < |bytes|
    ensures Sum(bytes[i := v]) == Sum(bytes) - bytes[i] + v
    decreases |bytes|
  {
    var n := |bytes| - 1;
    if i < n {
      SumUpdated(bytes[..n], i, v);
      assert bytes[i := v][..n] == bytes[..n][i := v];
    } else {
      assert bytes[i := v][..n] == bytes[..n];
    }
  }

  lemma SumMoves(n: nat, u: Byte, v: Byte)
    requires n % 256 == 0 && v != u && n - u + v >= 0
    ensures (n - u + v) % 256 != 0
  {
  }

  // A line in which one byte is wrong, whichever it is, is taken for no record by either reader.
  lemma CorruptByteNoticed(bytes: seq<Byte>, i: nat, v: Byte, text: Line)
    requires i < |bytes| && |bytes| >= 5 && Sum(bytes) % 256 == 0 && v != bytes[i]
    requires Renders(text, bytes[i := v])
    ensures Decode([':'] + text).Err? && DecodeLoose([':'] + text) == Bad(BadChecksum)
  {
    hide Renders, FromHex, Sum, IsBlank, Strip, Typed;
    SumUpdated(bytes, i, v);
    SumMoves(Sum(bytes), bytes[i], v);
    var wrong := bytes[i := v];
    LineText(text, wrong);
    var line := [':'] + text;
    Stripped([], line, []);
    assert [] + line + [] == line;
  }
}
