// What a file of Intel HEX records means, and that parse_intel_hex finds it whatever the
// encoding and the order of data records.
module HexMeaning {
  import opened IntelHex
  import opened Wrappers

  type Cell = (nat, Byte)

  function CellsOf(memory: Memory): set<Cell> {
    set a | a in memory :: (a, memory[a])
  }

  // No address with two values.
  predicate Functional(cells: set<Cell>) {
    forall c, d :: c in cells && d in cells && c.0 == d.0 ==> c.1 == d.1
  }

  function SegmentCells(start: nat, payload: seq<Byte>): set<Cell> {
    set i | 0 <= i < |payload| :: (start + i, payload[i])
  }

  lemma ItemsFunctional(memory: Memory)
    ensures Functional(CellsOf(memory))
  {
  }

  lemma ItemsDetermine(a: Memory, b: Memory)
    requires CellsOf(a) == CellsOf(b)
    ensures a == b
  {
    forall k | k in a ensures k in b && a[k] == b[k] {
      assert (k, a[k]) in CellsOf(b);
    }
    forall k | k in b ensures k in a {
      assert (k, b[k]) in CellsOf(a);
    }
  }

  lemma SegmentFirst(start: nat, payload: seq<Byte>)
    requires payload != []
    ensures SegmentCells(start, payload) == {(start, payload[0])} + SegmentCells(start + 1, payload[1..])
  {
    forall c | c in SegmentCells(start, payload)
      ensures c == (start, payload[0]) || c in SegmentCells(start + 1, payload[1..])
    {
      var i :| 0 <= i < |payload| && c == (start + i, payload[i]);
      if i > 0 {
        assert c == (start + 1 + (i - 1), payload[1..][i - 1]);
      }
    }
    forall c | c in SegmentCells(start + 1, payload[1..])
      ensures c in SegmentCells(start, payload)
    {
      var i :| 0 <= i < |payload[1..]| && c == (start + 1 + i, payload[1..][i]);
      assert c == (start + (i + 1), payload[i + 1]);
    }
    assert (start + 0, payload[0]) in SegmentCells(start, payload);
  }

  lemma StoreOne(memory: Memory, a: nat, v: Byte)
    requires a in memory ==> memory[a] == v
    ensures CellsOf(memory[a := v]) == CellsOf(memory) + {(a, v)}
  {
    var more := memory[a := v];
    forall k | k in memory && k != a ensures (k, memory[k]) in CellsOf(more) {
      assert more[k] == memory[k];
    }
    assert (a, more[a]) in CellsOf(more);
    if a in memory {
      assert (a, memory[a]) in CellsOf(memory);
    }
    forall c | c in CellsOf(more) ensures c in CellsOf(memory) + {(a, v)} {
      if c.0 != a {
        assert (c.0, memory[c.0]) in CellsOf(memory);
      }
    }
  }

  // A data record is accepted exactly when it contradicts no byte, and then its bytes are added.
  lemma {:induction false} LoadMeaning(memory: Memory, start: nat, payload: seq<Byte>)
    ensures Load(memory, start, payload).Ok? <==> Functional(CellsOf(memory) + SegmentCells(start, payload))
    ensures Load(memory, start, payload).Ok? ==>
              CellsOf(Load(memory, start, payload).value) == CellsOf(memory) + SegmentCells(start, payload)
    decreases |payload|
  {
    if payload == [] {
      assert CellsOf(memory) + SegmentCells(start, payload) == CellsOf(memory);
      ItemsFunctional(memory);
    } else {
      SegmentFirst(start, payload);
      var rest := SegmentCells(start + 1, payload[1..]);
      var all := CellsOf(memory) + SegmentCells(start, payload);
      if start in memory && memory[start] != payload[0] {
        assert (start, memory[start]) in all && (start, payload[0]) in all;
      } else {
        StoreOne(memory, start, payload[0]);
        var more := memory[start := payload[0]];
        assert CellsOf(more) + rest == all;
        LoadMeaning(more, start + 1, payload[1..]);
        hide Functional;
      }
    }
  }

  // The cells that records describe after an upper address.
  function Meaning(records: seq<Record>, upper: nat): set<Cell>
    decreases |records|
  {
    if records == [] then {} else
    match records[0]
    case Upper(value) => Meaning(records[1..], value * 0x10000)
    case Data(address, payload) => SegmentCells(upper + address, payload) + Meaning(records[1..], upper)
    case End => Meaning(records[1..], upper)
  }

  lemma FunctionalSubset(a: set<Cell>, b: set<Cell>)
    requires a <= b && Functional(b)
    ensures Functional(a)
  {
  }

  lemma MemoryEmpty(memory: Memory)
    ensures memory == map[] <==> CellsOf(memory) == {}
  {
    if memory != map[] {
      var k :| k in memory;
      assert (k, memory[k]) in CellsOf(memory);
    }
  }

  // --- What parse_intel_hex makes of any file ---

  // Line `n` is the first that is an end record or no record; `|lines|` if there is none.
  predicate StopsAt(lines: seq<Line>, n: nat) {
    && n <= |lines|
    && (forall i :: 0 <= i < n ==> Decode(lines[i]).Ok? && !Decode(lines[i]).value.End?)
    && (n < |lines| ==> Decode(lines[n]).Err? || Decode(lines[n]) == Ok(End))
  }

  lemma {:induction false} StopExists(lines: seq<Line>) returns (n: nat)
    ensures StopsAt(lines, n)
    decreases |lines|
  {
    hide Decode;
    if lines == [] || Decode(lines[0]).Err? || Decode(lines[0]) == Ok(End) {
      n := 0;
    } else {
      var m := StopExists(lines[1..]);
      n := m + 1;
      forall i | 0 <= i < n
        ensures Decode(lines[i]).Ok? && !Decode(lines[i]).value.End?
      {
        if i > 0 {
          assert lines[1..][i - 1] == lines[i];
        }
      }
      assert n < |lines| ==> lines[1..][m] == lines[n];
    }
  }

  function Records(lines: seq<Line>): (records: seq<Record>)
    requires forall i :: 0 <= i < |lines| ==> Decode(lines[i]).Ok?
    ensures |records| == |lines|
  {
    seq(|lines|, i requires 0 <= i < |lines| => Decode(lines[i]).value)
  }

  predicate Contradicts(cells: set<Cell>, address: nat) {
    exists c, d :: c in cells && d in cells && c.0 == d.0 == address && c.1 != d.1
  }

  // What reading a file gives that stops at line `n` after records which describe `cells`.
  predicate Outcome(lines: seq<Line>, n: nat, cells: set<Cell>, r: Result<Memory, Error>)
    requires n <= |lines|
  {
    if !Functional(cells) then r.Err? && r.error.Conflict? && Contradicts(cells, r.error.address)
    else if n == |lines| then r == Err(NoEnd)
    else if Decode(lines[n]).Err? then r == Err(Decode(lines[n]).error)
    else if cells == {} then r == Err(NoData)
    else r.Ok? && CellsOf(r.value) == cells
  }

  lemma {:induction false} LoadConflict(memory: Memory, start: nat, payload: seq<Byte>)
    requires Load(memory, start, payload).Err?
    ensures var r := Load(memory, start, payload);
            r.error.Conflict? && Contradicts(CellsOf(memory) + SegmentCells(start, payload), r.error.address)
    decreases |payload|
  {
    SegmentFirst(start, payload);
    var all := CellsOf(memory) + SegmentCells(start, payload);
    if start in memory && memory[start] != payload[0] {
      assert (start, memory[start]) in all && (start, payload[0]) in all;
    } else {
      StoreOne(memory, start, payload[0]);
      var more := memory[start := payload[0]];
      assert CellsOf(more) + SegmentCells(start + 1, payload[1..]) == all;
      hide CellsOf, SegmentCells;
      LoadConflict(more, start + 1, payload[1..]);
    }
  }

  lemma DataStep(lines: seq<Line>, memory: Memory, upper: nat, address: nat, payload: seq<Byte>)
    requires lines != [] && Decode(lines[0]) == Ok(Data(address, payload))
    ensures var loaded := Load(memory, upper + address, payload);
            Read(lines, memory, upper) == if loaded.Ok? then Read(lines[1..], loaded.value, upper) else loaded
  {
    hide Load, Decode;
  }

  lemma StopOutcome(lines: seq<Line>, memory: Memory, upper: nat)
    requires StopsAt(lines, 0)
    ensures Outcome(lines, 0, CellsOf(memory), Read(lines, memory, upper))
  {
    hide Functional, CellsOf, Decode;
    ItemsFunctional(memory);
    MemoryEmpty(memory);
  }

  lemma StopsTail(lines: seq<Line>, n: nat)
    requires StopsAt(lines, n) && n > 0
    ensures StopsAt(lines[1..], n - 1) && Decode(lines[0]).Ok? && !Decode(lines[0]).value.End?
    ensures Records(lines[..n]) == [Decode(lines[0]).value] + Records(lines[1..][..n - 1])
  {
    hide Decode;
    forall i | 0 <= i < |lines[1..]|
      ensures lines[1..][i] == lines[i + 1]
    {
    }
    var a, b := Records(lines[..n]), [Decode(lines[0]).value] + Records(lines[1..][..n - 1]);
    forall i | 0 <= i < n
      ensures a[i] == b[i]
    {
    }
  }

  lemma OutcomeTail(lines: seq<Line>, n: nat, cells: set<Cell>, r: Result<Memory, Error>)
    requires 0 < n <= |lines| && Outcome(lines[1..], n - 1, cells, r)
    ensures Outcome(lines, n, cells, r)
  {
    hide Functional, CellsOf, Decode, Contradicts;
    assert n < |lines| ==> lines[1..][n - 1] == lines[n];
  }

  lemma ConflictOutcome(lines: seq<Line>, n: nat, some: set<Cell>, cells: set<Cell>, r: Result<Memory, Error>)
    requires n <= |lines| && some <= cells && r.Err? && r.error.Conflict? && Contradicts(some, r.error.address)
    ensures Outcome(lines, n, cells, r)
  {
    hide Decode, CellsOf;
    var c, d :| c in some && d in some && c.0 == d.0 == r.error.address && c.1 != d.1;
    assert c in cells && d in cells;
  }

  lemma DataOutcome(lines: seq<Line>, n: nat, memory: Memory, upper: nat, next: set<Cell>)
    requires 0 < n <= |lines| && Decode(lines[0]).Ok? && Decode(lines[0]).value.Data?
    requires var loaded := Load(memory, upper + Decode(lines[0]).value.address, Decode(lines[0]).value.payload);
             loaded.Ok? ==>
               Outcome(lines[1..], n - 1, CellsOf(loaded.value) + next, Read(lines[1..], loaded.value, upper))
    ensures var record := Decode(lines[0]).value;
            var cells := CellsOf(memory) + (SegmentCells(upper + record.address, record.payload) + next);
            Outcome(lines, n, cells, Read(lines, memory, upper))
  {
    hide Outcome, Decode, SegmentCells, CellsOf, Load, Functional, Contradicts, Read;
    var record := Decode(lines[0]).value;
    var start := upper + record.address;
    var segment := SegmentCells(start, record.payload);
    var cells := CellsOf(memory) + (segment + next);
    DataStep(lines, memory, upper, record.address, record.payload);
    LoadMeaning(memory, start, record.payload);
    var loaded := Load(memory, start, record.payload);
    if loaded.Ok? {
      assert CellsOf(loaded.value) + next == cells;
      OutcomeTail(lines, n, cells, Read(lines[1..], loaded.value, upper));
    } else {
      LoadConflict(memory, start, record.payload);
      ConflictOutcome(lines, n, CellsOf(memory) + segment, cells, loaded);
    }
  }

  lemma MeaningFirst(record: Record, records: seq<Record>, upper: nat)
    ensures Meaning([record] + records, upper)
            == match record
               case Upper(value) => Meaning(records, value * 0x10000)
               case Data(address, payload) => SegmentCells(upper + address, payload) + Meaning(records, upper)
               case End => Meaning(records, upper)
  {
    hide SegmentCells;
    assert ([record] + records)[1..] == records;
  }

  lemma UpperStep(lines: seq<Line>, memory: Memory, upper: nat)
    requires lines != [] && Decode(lines[0]).Ok? && Decode(lines[0]).value.Upper?
    ensures Read(lines, memory, upper) == Read(lines[1..], memory, Decode(lines[0]).value.value * 0x10000)
  {
    hide Decode;
  }

  lemma {:induction false} ReadOutcome(lines: seq<Line>, n: nat, memory: Memory, upper: nat)
    requires StopsAt(lines, n)
    ensures Outcome(lines, n, CellsOf(memory) + Meaning(Records(lines[..n]), upper), Read(lines, memory, upper))
    decreases |lines|
  {
    hide Outcome, Decode, CellsOf, Meaning, Load, Read, Records;
    if n == 0 {
      NoMeaning(lines[..0], upper);
      assert CellsOf(memory) + {} == CellsOf(memory);
      StopOutcome(lines, memory, upper);
    } else {
      StopsTail(lines, n);
      var record, rest := Decode(lines[0]).value, Records(lines[1..][..n - 1]);
      MeaningFirst(record, rest, upper);
      if record.Upper? {
        UpperStep(lines, memory, upper);
        ReadOutcome(lines[1..], n - 1, memory, record.value * 0x10000);
        OutcomeTail(lines, n, CellsOf(memory) + Meaning(rest, record.value * 0x10000), Read(lines, memory, upper));
      } else {
        var loaded := Load(memory, upper + record.address, record.payload);
        if loaded.Ok? {
          ReadOutcome(lines[1..], n - 1, loaded.value, upper);
        }
        DataOutcome(lines, n, memory, upper, Meaning(rest, upper));
      }
    }
  }

  lemma NoMeaning(lines: seq<Line>, upper: nat)
    requires lines == []
    ensures Meaning(Records(lines), upper) == {}
  {
  }

  // Every file: parse_intel_hex returns the bytes of the records before the first end record
  // exactly when every line up to there is a record, the bytes do not contradict each other and
  // there are some; and otherwise it reports the conflict, the bad line, or what is missing.
  lemma ParseExactly(lines: seq<Line>, n: nat)
    requires StopsAt(lines, n)
    ensures if Ascii(lines) then Outcome(lines, n, Meaning(Records(lines[..n]), 0), Parse(lines))
            else Parse(lines) == Err(NotAscii)
  {
    hide Outcome, Decode, Read, Meaning, Records;
    ReadOutcome(lines, n, map[], 0);
    assert CellsOf(map[]) + Meaning(Records(lines[..n]), 0) == Meaning(Records(lines[..n]), 0);
  }

  // No file without an end record is accepted.
  lemma NoEndNoMemory(lines: seq<Line>)
    requires forall i :: 0 <= i < |lines| ==> Decode(lines[i]) != Ok(End)
    ensures Parse(lines).Err?
  {
    hide Decode, Read, Functional, Meaning, Parse, Contradicts, Ascii;
    var n := StopExists(lines);
    ParseExactly(lines, n);
  }

  // --- Files of encoded records ---

  predicate Body(records: seq<Record>) {
    forall i :: 0 <= i < |records| ==> Encodable(records[i]) && !records[i].End?
  }

  function EncodeAll(records: seq<Record>): (lines: seq<Line>)
    requires Body(records)
    ensures |lines| == |records|
  {
    seq(|records|, i requires 0 <= i < |records| => Encode(records[i]))
  }

  // The encoded records, an end record and anything after it.
  function FileOf(records: seq<Record>, after: seq<Line>): seq<Line>
    requires Body(records)
  {
    EncodeAll(records) + [Encode(End)] + after
  }

  lemma FileStops(records: seq<Record>, after: seq<Line>)
    requires Body(records)
    ensures var lines := FileOf(records, after);
            && StopsAt(lines, |records|) && Records(lines[..|records|]) == records
            && |records| < |lines| && Decode(lines[|records|]) == Ok(End)
  {
    var lines, n := FileOf(records, after), |records|;
    LineRoundTrip(End);
    assert lines[n] == Encode(End);
    forall i | 0 <= i < n
      ensures Decode(lines[i]) == Ok(records[i])
    {
      LineRoundTrip(records[i]);
      assert lines[i] == Encode(records[i]);
    }
    hide Decode, Encode;
    assert Records(lines[..n]) == records;
  }

  lemma EncodedAscii(records: seq<Record>, after: seq<Line>)
    requires Body(records) && Ascii(after)
    ensures Ascii(FileOf(records, after))
  {
    var lines := FileOf(records, after);
    forall i | 0 <= i < |lines|
      ensures forall j :: 0 <= j < |lines[i]| ==> lines[i][j] < 128 as char
    {
      if i < |records| {
        EncodedText(records[i]);
        assert lines[i] == Encode(records[i]);
      } else if i == |records| {
        EncodedText(End);
        assert lines[i] == Encode(End);
      } else {
        assert lines[i] == after[i - |records| - 1];
      }
    }
  }

  // parse_intel_hex accepts exactly the encodings of a consistent, nonempty memory and returns
  // that memory, however its bytes are cut into records and whatever follows the end record.
  lemma ParseMeaning(records: seq<Record>, after: seq<Line>)
    requires Body(records) && Ascii(after)
    ensures var r := Parse(FileOf(records, after)); var cells := Meaning(records, 0);
            && (r.Ok? <==> Functional(cells) && cells != {})
            && (r.Ok? ==> CellsOf(r.value) == cells)
  {
    hide FileOf, Decode, Parse, Meaning, StopsAt, Body;
    EncodedAscii(records, after);
    FileStops(records, after);
    ParseExactly(FileOf(records, after), |records|);
  }

  // --- An encoder for every memory: one type-04 and one data record for each byte ---

  function EncodeCells(addresses: seq<nat>, memory: Memory): (records: seq<Record>)
    requires forall i :: 0 <= i < |addresses| ==> addresses[i] in memory && addresses[i] < 0x1_0000_0000
    ensures Body(records)
  {
    if addresses == [] then []
    else
      [Upper(addresses[0] / 0x10000), Data(addresses[0] % 0x10000, [memory[addresses[0]]])]
      + EncodeCells(addresses[1..], memory)
  }

  lemma {:induction false} EncodeCellsMeaning(addresses: seq<nat>, memory: Memory, upper: nat)
    requires forall i :: 0 <= i < |addresses| ==> addresses[i] in memory && addresses[i] < 0x1_0000_0000
    ensures Meaning(EncodeCells(addresses, memory), upper) == set a | a in addresses :: (a, memory[a])
    decreases |addresses|
  {
    if addresses != [] {
      var a := addresses[0];
      var records := EncodeCells(addresses, memory);
      var rest := EncodeCells(addresses[1..], memory);
      var base := a / 0x10000 * 0x10000;
      assert records[1..][1..] == rest;
      assert base + a % 0x10000 == a;
      EncodeCellsMeaning(addresses[1..], memory, base);
      assert SegmentCells(a, [memory[a]]) == {(a, memory[a])} by {
        SegmentFirst(a, [memory[a]]);
        assert SegmentCells(a + 1, []) == {};
      }
      assert Meaning(records, upper) == {(a, memory[a])} + Meaning(rest, base);
      forall b | b in addresses ensures (b, memory[b]) in Meaning(records, upper) {
        if b != a {
          assert b in addresses[1..];
        }
      }
    }
  }

  // Every nonempty memory below 4 GB, listed in any order, comes back from its encoding.
  lemma RoundTrip(memory: Memory, addresses: seq<nat>)
    requires memory != map[]
    requires forall i :: 0 <= i < |addresses| ==> addresses[i] in memory && addresses[i] < 0x1_0000_0000
    requires forall a :: a in memory ==> a in addresses
    ensures Parse(FileOf(EncodeCells(addresses, memory), [])) == Ok(memory)
  {
    var records := EncodeCells(addresses, memory);
    EncodeCellsMeaning(addresses, memory, 0);
    assert Meaning(records, 0) == CellsOf(memory);
    ParseMeaning(records, []);
    ItemsFunctional(memory);
    MemoryEmpty(memory);
    ParsedBack(records, memory);
  }

  lemma ParsedBack(records: seq<Record>, memory: Memory)
    requires Body(records) && Meaning(records, 0) == CellsOf(memory) && memory != map[]
    ensures Parse(FileOf(records, [])) == Ok(memory)
  {
    ParseMeaning(records, []);
    ItemsFunctional(memory);
    MemoryEmpty(memory);
    var r := Parse(FileOf(records, []));
    hide Functional, Meaning, Parse, FileOf, CellsOf, Body;
    assert Functional(Meaning(records, 0)) && Meaning(records, 0) != {};
    assert r.Ok?;
    ItemsDetermine(r.value, memory);
  }

  // --- The order of data records ---

  predicate DataLines(block: seq<Line>) {
    forall i :: 0 <= i < |block| ==> Decode(block[i]).Ok? && Decode(block[i]).value.Data?
  }

  function LineCells(line: Line, upper: nat): set<Cell> {
    match Decode(line)
    case Ok(Data(address, payload)) => SegmentCells(upper + address, payload)
    case _ => {}
  }

  function BlockCells(block: seq<Line>, upper: nat): set<Cell> {
    set line, c | line in block && c in LineCells(line, upper) :: c
  }

  // The memory after a block of data lines.
  function Stored(block: seq<Line>, memory: Memory, upper: nat): Result<Memory, Error>
    requires DataLines(block)
    decreases |block|
  {
    if block == [] then Ok(memory) else
    var record := Decode(block[0]).value;
    match Load(memory, upper + record.address, record.payload)
    case Err(e) => Err(e)
    case Ok(more) => Stored(block[1..], more, upper)
  }

  lemma BlockFirst(block: seq<Line>, upper: nat)
    requires block != []
    ensures BlockCells(block, upper) == LineCells(block[0], upper) + BlockCells(block[1..], upper)
  {
    hide LineCells;
    assert block == [block[0]] + block[1..];
  }

  lemma BlockTail(block: seq<Line>, upper: nat)
    requires block != [] && DataLines(block)
    ensures DataLines(block[1..])
    ensures Decode(block[0]).Ok? && Decode(block[0]).value.Data?
    ensures var record := Decode(block[0]).value;
            LineCells(block[0], upper) == SegmentCells(upper + record.address, record.payload)
  {
    hide Decode, SegmentCells;
  }

  predicate StoredAs(block: seq<Line>, memory: Memory, upper: nat)
    requires DataLines(block)
  {
    var cells := CellsOf(memory) + BlockCells(block, upper);
    var r := Stored(block, memory, upper);
    (r.Ok? <==> Functional(cells)) && (r.Ok? ==> CellsOf(r.value) == cells)
  }

  lemma NothingStored(memory: Memory, upper: nat)
    ensures StoredAs([], memory, upper)
  {
    hide Functional, LineCells, CellsOf;
    assert CellsOf(memory) + BlockCells([], upper) == CellsOf(memory);
    ItemsFunctional(memory);
  }

  lemma OneStored(block: seq<Line>, memory: Memory, upper: nat)
    requires block != [] && DataLines(block) && DataLines(block[1..])
    requires var record := Decode(block[0]).value;
             var loaded := Load(memory, upper + record.address, record.payload);
             loaded.Ok? ==> StoredAs(block[1..], loaded.value, upper)
    ensures StoredAs(block, memory, upper)
  {
    hide Functional, LineCells, CellsOf, SegmentCells, BlockCells, Load, Decode, DataLines;
    BlockTail(block, upper);
    BlockFirst(block, upper);
    var record := Decode(block[0]).value;
    var segment := SegmentCells(upper + record.address, record.payload);
    var cells := CellsOf(memory) + BlockCells(block, upper);
    LoadMeaning(memory, upper + record.address, record.payload);
    var loaded := Load(memory, upper + record.address, record.payload);
    if loaded.Ok? {
      assert CellsOf(loaded.value) + BlockCells(block[1..], upper) == cells;
    } else if Functional(cells) {
      FunctionalSubset(CellsOf(memory) + segment, cells);
    }
  }

  lemma {:induction false} StoredMeaning(block: seq<Line>, memory: Memory, upper: nat)
    requires DataLines(block)
    ensures StoredAs(block, memory, upper)
    decreases |block|
  {
    hide StoredAs, Load, Decode;
    if block == [] {
      NothingStored(memory, upper);
    } else {
      BlockTail(block, upper);
      var record := Decode(block[0]).value;
      var loaded := Load(memory, upper + record.address, record.payload);
      if loaded.Ok? {
        StoredMeaning(block[1..], loaded.value, upper);
      }
      OneStored(block, memory, upper);
    }
  }

  lemma {:induction false} BlockReads(block: seq<Line>, rest: seq<Line>, memory: Memory, upper: nat)
    requires DataLines(block)
    ensures var s := Stored(block, memory, upper);
            Read(block + rest, memory, upper) == if s.Ok? then Read(rest, s.value, upper) else s
    decreases |block|
  {
    hide Load, Decode;
    if block == [] {
      assert block + rest == rest;
    } else {
      BlockTail(block, upper);
      var record := Decode(block[0]).value;
      assert (block + rest)[1..] == block[1..] + rest;
      DataStep(block + rest, memory, upper, record.address, record.payload);
      var loaded := Load(memory, upper + record.address, record.payload);
      if loaded.Ok? {
        BlockReads(block[1..], rest, loaded.value, upper);
      }
    }
  }

  // Both fail, or both give the same memory; which conflict is reported may differ.
  predicate SameOutcome(a: Result<Memory, Error>, b: Result<Memory, Error>) {
    if a.Ok? then a == b else b.Err?
  }

  lemma PermutedCells(a: seq<Line>, b: seq<Line>, upper: nat)
    requires multiset(a) == multiset(b)
    ensures BlockCells(a, upper) == BlockCells(b, upper)
  {
    hide LineCells;
    assert forall line :: line in a <==> line in multiset(a);
    assert forall line :: line in b <==> line in multiset(b);
  }

  lemma PermutedBlock(a: seq<Line>, b: seq<Line>, rest: seq<Line>, memory: Memory, upper: nat)
    requires DataLines(a) && DataLines(b) && multiset(a) == multiset(b)
    ensures SameOutcome(Read(a + rest, memory, upper), Read(b + rest, memory, upper))
  {
    hide Functional, CellsOf, BlockCells, DataLines, Stored, Read;
    PermutedCells(a, b, upper);
    StoredMeaning(a, memory, upper);
    StoredMeaning(b, memory, upper);
    BlockReads(a, rest, memory, upper);
    BlockReads(b, rest, memory, upper);
    if Stored(a, memory, upper).Ok? {
      ItemsDetermine(Stored(a, memory, upper).value, Stored(b, memory, upper).value);
    }
  }

  lemma {:induction false} PermutedAfter(before: seq<Line>, a: seq<Line>, b: seq<Line>, rest: seq<Line>,
      memory: Memory, upper: nat)
    requires DataLines(a) && DataLines(b) && multiset(a) == multiset(b)
    ensures SameOutcome(Read(before + a + rest, memory, upper), Read(before + b + rest, memory, upper))
    decreases |before|
  {
    hide Decode, Load, DataLines;
    if before == [] {
      assert before + a + rest == a + rest && before + b + rest == b + rest;
      PermutedBlock(a, b, rest, memory, upper);
    } else {
      var s, t := before + a + rest, before + b + rest;
      assert s[0] == t[0] == before[0];
      assert s[1..] == before[1..] + a + rest && t[1..] == before[1..] + b + rest;
      match Decode(before[0])
      case Err(_) =>
      case Ok(End) =>
      case Ok(Upper(value)) => PermutedAfter(before[1..], a, b, rest, memory, value * 0x10000);
      case Ok(Data(address, payload)) =>
        match Load(memory, upper + address, payload) {
          case Err(_) =>
          case Ok(more) => PermutedAfter(before[1..], a, b, rest, more, upper);
        }
    }
  }

  // Reordering data records under one upper address changes neither acceptance nor the memory.
  lemma OrderIndependent(before: seq<Line>, a: seq<Line>, b: seq<Line>, rest: seq<Line>)
    requires DataLines(a) && DataLines(b) && multiset(a) == multiset(b)
    ensures SameOutcome(Parse(before + a + rest), Parse(before + b + rest))
  {
    hide DataLines, Read;
    PermutedAfter(before, a, b, rest, map[], 0);
    if Ascii(before + a + rest) {
      AsciiPermuted(before, a, b, rest);
    }
    if Ascii(before + b + rest) {
      AsciiPermuted(before, b, a, rest);
    }
  }

  lemma AsciiPermuted(before: seq<Line>, a: seq<Line>, b: seq<Line>, rest: seq<Line>)
    requires multiset(a) == multiset(b) && Ascii(before + a + rest)
    ensures Ascii(before + b + rest)
  {
    var s, t := before + a + rest, before + b + rest;
    forall i, j | 0 <= i < |t| && 0 <= j < |t[i]|
      ensures t[i][j] < 128 as char
    {
      if |before| <= i < |before| + |b| {
        assert t[i] in multiset(b);
        assert t[i] in a;
        var k :| 0 <= k < |a| && a[k] == t[i];
        assert s[|before| + k] == t[i];
      } else if i < |before| {
        assert s[i] == t[i];
      } else {
        assert |a| == |multiset(a)| && |b| == |multiset(b)|;
        assert s[i] == t[i];
      }
    }
  }
}
