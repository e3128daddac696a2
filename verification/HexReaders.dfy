// The two readers as the scripts write them, their agreement, and the runtime payload.
module HexReaders {
  import opened HexMeaning
  import opened IntelHex
  import opened Wrappers

  // Wherever the file stops, and an accepted one stops at an end record.
  lemma ParseMeansOutcome(lines: seq<Line>)
    ensures forall n: nat :: StopsAt(lines, n) ==>
              if Ascii(lines) then Outcome(lines, n, Meaning(Records(lines[..n]), 0), Parse(lines))
              else Parse(lines) == Err(NotAscii)
    ensures Parse(lines).Ok? ==> exists n: nat :: n < |lines| && StopsAt(lines, n) && Decode(lines[n]) == Ok(End)
  {
    hide Outcome, Parse, Decode, Meaning, Ascii;
    forall n: nat | StopsAt(lines, n)
      ensures if Ascii(lines) then Outcome(lines, n, Meaning(Records(lines[..n]), 0), Parse(lines))
              else Parse(lines) == Err(NotAscii)
    {
      ParseExactly(lines, n);
    }
    if Parse(lines).Ok? {
      var n := StopExists(lines);
      OutcomeOk(lines, n, Meaning(Records(lines[..n]), 0), Parse(lines));
    }
  }

  lemma OutcomeOk(lines: seq<Line>, n: nat, cells: set<Cell>, r: Result<Memory, Error>)
    requires n <= |lines| && Outcome(lines, n, cells, r) && r.Ok?
    ensures n < |lines| && Decode(lines[n]).Ok?
  {
    hide Decode, Functional, CellsOf, Contradicts;
  }

  // parse_intel_hex
  method ParseIntelHex(lines: seq<Line>) returns (r: Result<Memory, Error>)
    ensures r == Parse(lines)
    ensures forall n: nat :: StopsAt(lines, n) ==>
              if Ascii(lines) then Outcome(lines, n, Meaning(Records(lines[..n]), 0), r) else r == Err(NotAscii)
    ensures r.Ok? ==> exists n: nat :: n < |lines| && StopsAt(lines, n) && Decode(lines[n]) == Ok(End)
  {
    hide Decode, Outcome, StopsAt, Meaning, Records;
    ParseMeansOutcome(lines);
    if !Ascii(lines) {
      return Err(NotAscii);
    }
    var memory: Memory := map[];
    var upper: nat := 0;
    for i := 0 to |lines|
      invariant Read(lines, map[], 0) == Read(lines[i..], memory, upper)
    {
      assert lines[i..][0] == lines[i] && lines[i..][1..] == lines[i + 1..];
      match Decode(lines[i])
      case Err(e) => return Err(e);
      case Ok(End) =>
        if memory == map[] {
          return Err(NoData);
        }
        return Ok(memory);
      case Ok(Upper(value)) => upper := value * 0x10000;
      case Ok(Data(address, payload)) =>
        var absolute := upper + address;
        ghost var before := memory;
        for j := 0 to |payload|
          invariant Load(before, absolute, payload) == Load(memory, absolute + j, payload[j..])
        {
          assert payload[j..][1..] == payload[j + 1..];
          var location := absolute + j;
          if location in memory && memory[location] != payload[j] {
            return Err(Conflict(location));
          }
          memory := memory[location := payload[j]];
        }
    }
    return Err(NoEnd);
  }

  // --- The second reader ---

  datatype Loose = Skip | Bad(error: Error) | Span(address: nat, count: nat) | Base(value: nat) | Other

  // One line, as get_intel_hex_address_span reads it.
  function DecodeLoose(raw: Line): Loose {
    if raw == [] || raw[0] != ':' then Skip else
    match FromHex(raw[1..])
    case None => Bad(BadHex)
    case Some(bytes) =>
      if |bytes| < 5 || Sum(bytes) % 256 != 0 then Bad(BadChecksum)
      else if |bytes| - 4 < bytes[0] then Bad(Truncated)
      else if bytes[3] == 0 then Span(Word(bytes[1], bytes[2]), bytes[0])
      else if bytes[3] == 4 && bytes[0] == 2 then Base(Word(bytes[4], bytes[5]))
      else Other
  }

  type Bounds = Option<(int, int)>

  function Min(a: int, b: int): int {
    if a <= b then a else b
  }

  function Max(a: int, b: int): int {
    if a <= b then b else a
  }

  function Widened(span: Bounds, first: int, last: int): Bounds {
    if span.None? then Some((first, last)) else Some((Min(span.value.0, first), Max(span.value.1, last)))
  }

  function SpanFrom(lines: seq<Line>, upper: nat, span: Bounds): Result<(int, int), Error>
    decreases |lines|
  {
    if lines == [] then if span.None? then Err(NoData) else Ok(span.value) else
    match DecodeLoose(lines[0])
    case Bad(e) => Err(e)
    case Span(address, count) =>
      SpanFrom(lines[1..], upper, Widened(span, upper + address, upper + address + count - 1))
    case Base(value) => SpanFrom(lines[1..], value * 0x10000, span)
    case _ => SpanFrom(lines[1..], upper, span)
  }

  function AddressSpan(lines: seq<Line>): Result<(int, int), Error> {
    if Ascii(lines) then SpanFrom(lines, 0, None) else Err(NotAscii)
  }

  // The upper address in force at line `k`.
  function UpperAt(lines: seq<Line>, k: nat): nat
    requires k <= |lines|
  {
    if k == 0 then 0 else
    match DecodeLoose(lines[k - 1])
    case Base(value) => value * 0x10000
    case _ => UpperAt(lines, k - 1)
  }

  // The bounds of the data record in line `k`.
  function SpanAt(lines: seq<Line>, k: nat): (int, int)
    requires k < |lines| && DecodeLoose(lines[k]).Span?
  {
    var start := UpperAt(lines, k) + DecodeLoose(lines[k]).address;
    (start, start + DecodeLoose(lines[k]).count - 1)
  }

  // `span` is the least start and the greatest end of the data records before line `n`, and
  // none of these lines is bad.
  predicate Covers(lines: seq<Line>, n: nat, span: Bounds)
    requires n <= |lines|
  {
    && (forall k :: 0 <= k < n ==> !DecodeLoose(lines[k]).Bad?)
    && (span.None? <==> forall k :: 0 <= k < n ==> !DecodeLoose(lines[k]).Span?)
    && (span.Some? ==>
          && (forall k :: 0 <= k < n && DecodeLoose(lines[k]).Span? ==>
                span.value.0 <= SpanAt(lines, k).0 && SpanAt(lines, k).1 <= span.value.1)
          && (exists k :: 0 <= k < n && DecodeLoose(lines[k]).Span? && SpanAt(lines, k).0 == span.value.0)
          && (exists k :: 0 <= k < n && DecodeLoose(lines[k]).Span? && SpanAt(lines, k).1 == span.value.1))
  }

  lemma CoversMore(lines: seq<Line>, n: nat, span: Bounds)
    requires n < |lines| && Covers(lines, n, span) && !DecodeLoose(lines[n]).Bad?
    ensures var more := if DecodeLoose(lines[n]).Span?
                        then Widened(span, SpanAt(lines, n).0, SpanAt(lines, n).1) else span;
            Covers(lines, n + 1, more)
  {
    hide DecodeLoose, UpperAt, SpanAt;
    if DecodeLoose(lines[n]).Span? && span.Some? {
      var a :| 0 <= a < n && DecodeLoose(lines[a]).Span? && SpanAt(lines, a).0 == span.value.0;
      var b :| 0 <= b < n && DecodeLoose(lines[b]).Span? && SpanAt(lines, b).1 == span.value.1;
      var more := Widened(span, SpanAt(lines, n).0, SpanAt(lines, n).1);
      assert SpanAt(lines, if more.value.0 == span.value.0 then a else n).0 == more.value.0;
      assert SpanAt(lines, if more.value.1 == span.value.1 then b else n).1 == more.value.1;
    }
  }

  predicate SpanOutcome(lines: seq<Line>, r: Result<(int, int), Error>) {
    if r.Ok? then Covers(lines, |lines|, Some(r.value))
    else if r.error.NoData? then Covers(lines, |lines|, None)
    else exists k :: 0 <= k < |lines| && DecodeLoose(lines[k]) == Bad(r.error)
  }

  lemma {:induction false} SpanFromMeaning(lines: seq<Line>, n: nat, span: Bounds)
    requires n <= |lines| && Covers(lines, n, span)
    ensures SpanOutcome(lines, SpanFrom(lines[n..], UpperAt(lines, n), span))
    decreases |lines| - n
  {
    hide DecodeLoose, Covers, Widened, SpanOutcome;
    if n == |lines| {
      SpanEnds(lines, span);
    } else {
      assert lines[n..][0] == lines[n] && lines[n..][1..] == lines[n + 1..];
      if DecodeLoose(lines[n]).Bad? {
        LooseError(lines[n]);
        BadOutcome(lines, n);
      } else {
        CoversMore(lines, n, span);
        var more := if DecodeLoose(lines[n]).Span?
                    then Widened(span, SpanAt(lines, n).0, SpanAt(lines, n).1) else span;
        SpanFromMeaning(lines, n + 1, more);
      }
    }
  }

  lemma SpanEnds(lines: seq<Line>, span: Bounds)
    requires Covers(lines, |lines|, span)
    ensures SpanOutcome(lines, if span.None? then Err(NoData) else Ok(span.value))
  {
    hide Covers;
  }

  lemma LooseError(line: Line)
    ensures DecodeLoose(line).Bad? ==> !DecodeLoose(line).error.NoData?
  {
    hide FromHex, Sum, Word;
  }

  lemma BadOutcome(lines: seq<Line>, n: nat)
    requires n < |lines| && DecodeLoose(lines[n]).Bad? && !DecodeLoose(lines[n]).error.NoData?
    ensures SpanOutcome(lines, Err(DecodeLoose(lines[n]).error))
  {
    hide Covers, DecodeLoose;
  }

  // Every file: the second reader returns the least start and the greatest end of its data
  // records exactly when no line is bad and there is such a record.
  lemma SpanExactly(lines: seq<Line>)
    ensures if Ascii(lines) then SpanOutcome(lines, AddressSpan(lines)) else AddressSpan(lines) == Err(NotAscii)
  {
    hide Ascii, SpanOutcome, SpanFrom, DecodeLoose;
    assert lines[0..] == lines;
    assert Covers(lines, 0, None);
    SpanFromMeaning(lines, 0, None);
  }

  // get_intel_hex_address_span
  method GetAddressSpan(lines: seq<Line>) returns (r: Result<(int, int), Error>)
    ensures r == AddressSpan(lines)
    ensures if Ascii(lines) then SpanOutcome(lines, r) else r == Err(NotAscii)
  {
    hide DecodeLoose, SpanOutcome;
    SpanExactly(lines);
    if !Ascii(lines) {
      return Err(NotAscii);
    }
    var upper: nat := 0;
    var span: Bounds := None;
    for i := 0 to |lines|
      invariant SpanFrom(lines, 0, None) == SpanFrom(lines[i..], upper, span)
    {
      assert lines[i..][0] == lines[i] && lines[i..][1..] == lines[i + 1..];
      match DecodeLoose(lines[i])
      case Bad(e) => return Err(e);
      case Span(address, count) =>
        var first := upper + address;
        var last := first + count - 1;
        if span.None? {
          span := Some((first, last));
        } else {
          span := Some((Min(span.value.0, first), Max(span.value.1, last)));
        }
      case Base(value) => upper := value * 0x10000;
      case _ =>
    }
    if span.None? {
      return Err(NoData);
    }
    return Ok(span.value);
  }

  // --- Where they agree ---

  // The characters str.strip removes and bytes.fromhex does not skip; in a line of a file only
  // the last of them, 1Fh, can occur.
  predicate IsSeparator(c: char) {
    28 as char <= c <= 31 as char
  }

  predicate Clean(s: Line) {
    forall i :: 0 <= i < |s| ==> !IsSeparator(s[i])
  }

  lemma {:induction false} HexIsClean(s: Line)
    requires FromHex(s).Some?
    ensures Clean(s)
    decreases |s|
  {
    if s != [] {
      if IsSpace(s[0]) {
        HexIsClean(s[1..]);
        assert !IsSeparator(s[0]);
        assert s == [s[0]] + s[1..];
      } else {
        HexIsClean(s[2..]);
        assert !IsSeparator(s[0]) && !IsSeparator(s[1]);
        forall i | 0 <= i < |s| ensures !IsSeparator(s[i]) {
          if i >= 2 {
            assert s[i] == s[2..][i - 2];
          }
        }
      }
    }
  }

  lemma HexPair(s: Line)
    requires |s| >= 2 && DigitOf(s[0]).Some? && DigitOf(s[1]).Some?
    ensures !IsSpace(s[0])
    ensures FromHex(s) == if FromHex(s[2..]).None? then None else Some([HexByte(s[0], s[1])] + FromHex(s[2..]).value)
  {
  }

  lemma {:induction false} HexAppend(s: Line, t: Line)
    requires FromHex(s).Some?
    ensures FromHex(s + t) == if FromHex(t).Some? then Some(FromHex(s).value + FromHex(t).value) else None
    decreases |s|
  {
    if s == [] {
      assert s + t == t;
      assert FromHex(t).Some? ==> [] + FromHex(t).value == FromHex(t).value;
    } else if IsSpace(s[0]) {
      assert (s + t)[1..] == s[1..] + t;
      HexAppend(s[1..], t);
    } else {
      HexAppendPair(s, t);
    }
  }

  lemma HexAppendPair(s: Line, t: Line)
    requires s != [] && !IsSpace(s[0]) && FromHex(s).Some?
    ensures FromHex(s + t) == if FromHex(t).Some? then Some(FromHex(s).value + FromHex(t).value) else None
    decreases |s|, 0
  {
    assert |s| >= 2 && DigitOf(s[0]).Some? && DigitOf(s[1]).Some?;
    var u := s + t;
    assert u[0] == s[0] && u[1] == s[1] && u[2..] == s[2..] + t;
    HexPair(s);
    HexPair(u);
    HexAppend(s[2..], t);
    PairFirst([HexByte(s[0], s[1])], FromHex(s[2..]), FromHex(t));
  }

  lemma PairFirst(first: seq<Byte>, a: Option<seq<Byte>>, b: Option<seq<Byte>>)
    ensures a.Some? && b.Some? ==> first + (a.value + b.value) == (first + a.value) + b.value
  {
  }

  lemma {:induction false} HexBlank(t: Line)
    requires forall i :: 0 <= i < |t| ==> IsBlank(t[i])
    ensures FromHex(t) == if Clean(t) then Some([]) else None
    decreases |t|
  {
    if t != [] {
      assert t == [t[0]] + t[1..];
      if IsSpace(t[0]) {
        HexBlank(t[1..]);
      } else {
        assert IsSeparator(t[0]);
      }
    }
  }

  lemma {:induction false} StripRightSplits(s: Line) returns (blanks: Line)
    ensures s == StripRight(s) + blanks
    ensures forall i :: 0 <= i < |blanks| ==> IsBlank(blanks[i])
    decreases |s|
  {
    if s != [] && IsBlank(s[|s| - 1]) {
      var rest := StripRightSplits(s[..|s| - 1]);
      blanks := rest + [s[|s| - 1]];
    } else {
      blanks := [];
    }
  }

  // A line that parse_intel_hex accepts, with no leading blank: a colon, hexadecimal, blanks.
  lemma AcceptedLine(raw: Line) returns (hex: Line, blanks: Line)
    requires Decode(raw).Ok? && (raw != [] ==> !IsBlank(raw[0]))
    ensures raw != [] && raw[0] == ':' && raw[1..] == hex + blanks
    ensures forall i :: 0 <= i < |blanks| ==> IsBlank(blanks[i])
    ensures FromHex(hex).Some?
    ensures var bytes := FromHex(hex).value;
            && |bytes| >= 5 && |bytes| - 5 == bytes[0] && Sum(bytes) % 256 == 0 && Typed(bytes) == Decode(raw)
  {
    hide FromHex, Typed, Sum, StripRight;
    assert StripLeft(raw) == raw;
    var line := StripRight(raw);
    assert Strip(raw) == line;
    hex := line[1..];
    blanks := StripRightSplits(raw);
  }

  // On such a line the second reader sees the same bytes, unless a separator is left at its
  // end: then it rejects the line.
  lemma SameBytes(raw: Line) returns (bytes: seq<Byte>)
    requires Decode(raw).Ok? && (raw != [] ==> !IsBlank(raw[0]))
    ensures raw != [] && raw[0] == ':'
    ensures |bytes| >= 5 && |bytes| - 5 == bytes[0] && Sum(bytes) % 256 == 0 && Typed(bytes) == Decode(raw)
    ensures FromHex(raw[1..]) == if Clean(raw) then Some(bytes) else None
  {
    hide FromHex, Typed, Sum, Decode, Clean;
    var hex, blanks := AcceptedLine(raw);
    HexAppend(hex, blanks);
    HexBlank(blanks);
    HexIsClean(hex);
    CleanParts(raw, hex, blanks);
    bytes := FromHex(hex).value;
    assert bytes + [] == bytes;
  }

  lemma SameLine(raw: Line)
    requires Decode(raw).Ok? && (raw != [] ==> !IsBlank(raw[0]))
    ensures var record := Decode(raw).value;
            DecodeLoose(raw) == if !Clean(raw) then Bad(BadHex) else
                                match record
                                case Data(address, payload) => Span(address, |payload|)
                                case Upper(value) => Base(value)
                                case End => Other
  {
    hide FromHex, Sum, Decode, Clean, Typed, Word;
    var bytes := SameBytes(raw);
    LooseTyped(bytes);
  }

  lemma CleanParts(raw: Line, hex: Line, blanks: Line)
    requires raw != [] && raw[0] == ':' && raw[1..] == hex + blanks && Clean(hex)
    ensures Clean(raw) <==> Clean(blanks)
  {
    assert raw == [raw[0]] + hex + blanks;
    if Clean(raw) {
      forall i | 0 <= i < |blanks| ensures !IsSeparator(blanks[i]) {
        assert blanks[i] == raw[1 + |hex| + i];
      }
    }
  }

  lemma LooseTyped(bytes: seq<Byte>)
    requires |bytes| >= 5 && |bytes| - 5 == bytes[0] && Typed(bytes).Ok?
    ensures match Typed(bytes).value
            case Data(address, payload) => bytes[3] == 0 && address == Word(bytes[1], bytes[2]) && |payload| == bytes[0]
            case Upper(value) => bytes[3] == 4 && bytes[0] == 2 && value == Word(bytes[4], bytes[5])
            case End => bytes[3] == 1
  {
  }

  // `span` is the least and the greatest address of `memory`.
  predicate Spans(memory: Memory, span: Bounds) {
    if span.None? then memory == map[]
    else
      && span.value.0 in memory && span.value.1 in memory
      && forall a :: a in memory ==> span.value.0 <= a <= span.value.1
  }

  // Storing bytes one after the other extends the memory by exactly their addresses.
  lemma {:induction false} LoadAddresses(memory: Memory, start: nat, payload: seq<Byte>)
    requires Load(memory, start, payload).Ok?
    ensures forall a :: a in Load(memory, start, payload).value <==> a in memory || start <= a < start + |payload|
    decreases |payload|
  {
    if payload != [] {
      LoadAddresses(memory[start := payload[0]], start + 1, payload[1..]);
    }
  }

  lemma LoadSpans(memory: Memory, span: Bounds, start: nat, payload: seq<Byte>)
    requires Spans(memory, span) && payload != [] && Load(memory, start, payload).Ok?
    ensures Spans(Load(memory, start, payload).value, Widened(span, start, start + |payload| - 1))
  {
    hide Load;
    LoadAddresses(memory, start, payload);
    assert start in Load(memory, start, payload).value;
  }

  // Up to the end record, the lines have no leading blank and no data record without data;
  // and the end record is the last line.
  predicate Plain(lines: seq<Line>) {
    && (forall i :: 0 <= i < |lines| ==> lines[i] != [] ==> !IsBlank(lines[i][0]))
    && (forall i :: 0 <= i < |lines| && Decode(lines[i]).Ok? && Decode(lines[i]).value.Data? ==>
          Decode(lines[i]).value.payload != [])
    && (forall i :: 0 <= i < |lines| && Decode(lines[i]) == Ok(End) ==> i == |lines| - 1)
  }

  predicate AllClean(lines: seq<Line>) {
    forall i :: 0 <= i < |lines| ==> Clean(lines[i])
  }

  predicate Agrees(lines: seq<Line>, memory: Memory, upper: nat, span: Bounds) {
    var s := SpanFrom(lines, upper, span);
    var m := Read(lines, memory, upper);
    m.Ok? ==> if AllClean(lines) then s.Ok? && Spans(m.value, Some(s.value)) else s == Err(BadHex)
  }

  lemma PlainTail(lines: seq<Line>)
    requires lines != [] && Plain(lines)
    ensures Plain(lines[1..]) && (lines[0] != [] ==> !IsBlank(lines[0][0]))
    ensures Decode(lines[0]).Ok? && Decode(lines[0]).value.Data? ==> Decode(lines[0]).value.payload != []
    ensures Decode(lines[0]) == Ok(End) ==> lines[1..] == []
    ensures AllClean(lines) <==> Clean(lines[0]) && AllClean(lines[1..])
  {
    hide Decode, Clean, IsBlank;
    assert lines == [lines[0]] + lines[1..];
    forall i | 0 <= i < |lines[1..]| ensures lines[1..][i] == lines[i + 1] {
    }
  }

  lemma EndAgrees(lines: seq<Line>, memory: Memory, upper: nat, span: Bounds)
    requires lines != [] && Plain(lines) && Spans(memory, span) && Decode(lines[0]) == Ok(End)
    ensures Agrees(lines, memory, upper, span)
  {
    hide Decode, Clean, DecodeLoose, IsBlank, Plain;
    PlainTail(lines);
    SameLine(lines[0]);
    assert SpanFrom(lines[1..], upper, span) == if span.None? then Err(NoData) else Ok(span.value);
  }

  lemma {:induction false} ReadersStep(lines: seq<Line>, memory: Memory, upper: nat, span: Bounds)
    requires Plain(lines) && Spans(memory, span)
    ensures Agrees(lines, memory, upper, span)
    decreases |lines|
  {
    hide Decode, Clean, DecodeLoose, IsBlank, Plain, AllClean, Load, Spans;
    if lines != [] && Decode(lines[0]).Ok? {
      PlainTail(lines);
      SameLine(lines[0]);
      match Decode(lines[0]).value
      case End => EndAgrees(lines, memory, upper, span);
      case Upper(value) => ReadersStep(lines[1..], memory, value * 0x10000, span);
      case Data(address, payload) =>
        var start := upper + address;
        var loaded := Load(memory, start, payload);
        if loaded.Ok? {
          LoadSpans(memory, span, start, payload);
          ReadersStep(lines[1..], loaded.value, upper, Widened(span, start, start + |payload| - 1));
        }
    }
  }

  // On every plain file that parse_intel_hex accepts, the second reader returns the least and
  // the greatest address exactly when no line holds a separator that str.strip removes and
  // bytes.fromhex does not skip; otherwise it rejects the file.
  lemma ReadersAgree(lines: seq<Line>)
    requires Plain(lines) && Parse(lines).Ok?
    ensures var memory := Parse(lines).value; var r := AddressSpan(lines);
            && (r.Ok? <==> AllClean(lines))
            && (r.Ok? ==> Spans(memory, Some(r.value)))
            && (r.Err? ==> r == Err(BadHex))
  {
    hide Plain, AllClean, SpanFrom, Read;
    ReadersStep(lines, map[], 0, None);
  }

  // A separator at the end of a data line divides the two: strip takes it off, fromhex does not.
  lemma TrailingSeparator(address: nat, payload: seq<Byte>)
    requires address < 0x10000 && 0 < |payload| < 256
    ensures var lines := [Encode(Data(address, payload)) + [31 as char], Encode(End)];
            Plain(lines) && Parse(lines).Ok? && AddressSpan(lines) == Err(BadHex)
  {
    hide Plain, Strip, IsBlank, Encode, Decode, Typed;
    var line := Encode(Data(address, payload));
    var lines := [line + [31 as char], Encode(End)];
    SeparatorDecodes(Data(address, payload));
    LineRoundTrip(End);
    EncodedText(Data(address, payload));
    EncodedText(End);
    LoadFits(map[], address, payload);
    LoadAddresses(map[], address, payload);
    assert lines[1..][0] == Encode(End) && address in Load(map[], address, payload).value;
    assert Read(lines[1..], Load(map[], address, payload).value, 0) == Ok(Load(map[], address, payload).value);
    assert Ascii(lines) && Parse(lines) == Read(lines, map[], 0);
    assert Plain(lines) by {
      assert !IsBlank(line[0]) && !IsBlank(Encode(End)[0]);
      PlainPair(lines, address, payload);
    }
    NotClean(lines, |line|);
    ReadersAgree(lines);
  }

  lemma PlainPair(lines: seq<Line>, address: nat, payload: seq<Byte>)
    requires |lines| == 2 && lines[0] != [] && lines[1] != [] && !IsBlank(lines[0][0]) && !IsBlank(lines[1][0])
    requires Decode(lines[0]) == Ok(Data(address, payload)) && payload != [] && Decode(lines[1]) == Ok(End)
    ensures Plain(lines)
  {
    hide Decode, IsBlank;
  }

  lemma NotClean(lines: seq<Line>, at: nat)
    requires lines != [] && at < |lines[0]| && lines[0][at] == 31 as char
    ensures !AllClean(lines)
  {
    assert IsSeparator(lines[0][at]);
  }

  // Bytes go into empty memory without conflict.
  lemma {:induction false} LoadFits(memory: Memory, start: nat, payload: seq<Byte>)
    requires forall a :: a in memory ==> a < start
    ensures Load(memory, start, payload).Ok?
    decreases |payload|
  {
    if payload != [] {
      LoadFits(memory[start := payload[0]], start + 1, payload[1..]);
    }
  }

  lemma SeparatorDecodes(r: Record)
    requires Encodable(r)
    ensures Decode(Encode(r) + [31 as char]) == Ok(r)
  {
    hide Encode, FromHex, Typed, Sum;
    EncodedText(r);
    LineRoundTrip(r);
    StripSeparator(Encode(r));
  }

  lemma StripSeparator(line: Line)
    requires line != [] && !IsBlank(line[0]) && !IsBlank(line[|line| - 1])
    ensures Strip(line + [31 as char]) == Strip(line)
  {
    var raw := line + [31 as char];
    assert StripLeft(raw) == raw && StripLeft(line) == line;
    assert raw[..|raw| - 1] == line && IsBlank(raw[|raw| - 1]);
    assert StripRight(raw) == StripRight(line);
  }

  // --- The runtime payload ---

  const RUNTIME_BASE := 0x0800_0000
  const FIRMWARE_PAYLOAD_LENGTH := 0xF100

  datatype PayloadResult =
    | Payload(bytes: seq<Byte>, used: nat)
    | WrongBase(first: nat)
    | TooLong(length: int)

  // min and max of the addresses
  method AddressBounds(memory: Memory) returns (first: nat, last: nat)
    requires memory != map[]
    ensures Spans(memory, Some((first, last)))
  {
    var rest := memory.Keys;
    first :| first in rest;
    last := first;
    rest := rest - {first};
    while rest != {}
      invariant rest <= memory.Keys && first in memory && last in memory
      invariant forall a :: a in memory && a !in rest ==> first <= a <= last
      decreases |rest|
    {
      var a :| a in rest;
      rest := rest - {a};
      if a < first {
        first := a;
      }
      if a > last {
        last := a;
      }
    }
  }

  // build_runtime_payload, on the nonempty memory that parse_intel_hex returns.  Its test of
  // each address against the image cannot fail after the two tests of the bounds.
  method BuildRuntimePayload(memory: Memory) returns (r: PayloadResult)
    requires memory != map[]
    ensures r.WrongBase? <==> RUNTIME_BASE !in memory || exists a :: a in memory && a < RUNTIME_BASE
    ensures r.WrongBase? ==> r.first in memory && forall a :: a in memory ==> r.first <= a
    ensures r.TooLong? <==>
              !r.WrongBase? && exists a :: a in memory && a >= RUNTIME_BASE + FIRMWARE_PAYLOAD_LENGTH
    ensures r.TooLong? ==>
              RUNTIME_BASE + r.length - 1 in memory && forall a :: a in memory ==> a < RUNTIME_BASE + r.length
    ensures r.Payload? ==>
              && |r.bytes| == FIRMWARE_PAYLOAD_LENGTH
              && 0 < r.used <= FIRMWARE_PAYLOAD_LENGTH && RUNTIME_BASE + r.used - 1 in memory
              && (forall a :: a in memory ==> RUNTIME_BASE <= a < RUNTIME_BASE + r.used)
              && (forall i :: 0 <= i < |r.bytes| ==>
                    r.bytes[i] == if RUNTIME_BASE + i in memory then memory[RUNTIME_BASE + i] else 0xFF)
  {
    var first, last := AddressBounds(memory);
    if first != RUNTIME_BASE {
      return WrongBase(first);
    }
    var used := last - RUNTIME_BASE + 1;
    if used > FIRMWARE_PAYLOAD_LENGTH {
      return TooLong(used);
    }
    var payload := new Byte[FIRMWARE_PAYLOAD_LENGTH](_ => 0xFF);
    var rest := memory.Keys;
    while rest != {}
      invariant rest <= memory.Keys
      invariant forall i :: 0 <= i < payload.Length ==>
                  payload[i] == if RUNTIME_BASE + i in memory && RUNTIME_BASE + i !in rest
                                then memory[RUNTIME_BASE + i] else 0xFF
      decreases |rest|
    {
      var address :| address in rest;
      rest := rest - {address};
      if address < RUNTIME_BASE || address >= RUNTIME_BASE + payload.Length {
        assert false;
      }
      payload[address - RUNTIME_BASE] := memory[address];
    }
    return Payload(payload[..], used);
  }
}
