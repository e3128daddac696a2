// init_globals of src/rdx_mount/c_int00.c: the .cinit table of length, address and bytes,
// each record padded to four bytes and the table ended by a zero length.
module Cinit {

  type Byte = x: int | 0 <= x < 256

  datatype Record = Record(address: nat, bytes: seq<Byte>)

  // A little-endian word.
  function Word(b: seq<Byte>): nat
    requires |b| == 4
  {
    Low(b[0], Low(b[1], Low(b[2], b[3])))
  }

  function Low(byte: nat, rest: nat): nat {
    byte + 0x100 * rest
  }

  function Bytes(n: nat): (b: seq<Byte>)
    requires n < 0x1_0000_0000
    ensures |b| == 4 && Word(b) == n
  {
    var n1 := n / 0x100;
    var n2 := n1 / 0x100;
    var n3 := n2 / 0x100;
    [n % 0x100, n1 % 0x100, n2 % 0x100, n3]
  }

  function AlignUp(n: nat): (r: nat)
    ensures n <= r < n + 4 && r % 4 == 0
  {
    (n + 3) / 4 * 4
  }

  function Padding(n: nat): (p: seq<Byte>)
    ensures |p| == AlignUp(n) - n
  {
    seq(AlignUp(n) - n, _ => 0)
  }

  predicate Encodable(r: Record) {
    r.bytes != [] && |r.bytes| < 0x1_0000_0000 && r.address < 0x1_0000_0000
  }

  function EncodeRecord(r: Record): (e: seq<Byte>)
    requires Encodable(r)
    ensures |e| == 8 + AlignUp(|r.bytes|)
  {
    Bytes(|r.bytes|) + Bytes(r.address) + r.bytes + Padding(|r.bytes|)
  }

  predicate AllEncodable(records: seq<Record>) {
    forall i :: 0 <= i < |records| ==> Encodable(records[i])
  }

  function Encode(records: seq<Record>): (e: seq<Byte>)
    requires AllEncodable(records)
    ensures |e| >= 4
  {
    if records == [] then Bytes(0) else EncodeRecord(records[0]) + Encode(records[1..])
  }

  // Memory after one record, and after all of them in order.
  function Store(memory: seq<Byte>, r: Record): seq<Byte>
    requires r.address + |r.bytes| <= |memory|
  {
    memory[..r.address] + r.bytes + memory[r.address + |r.bytes|..]
  }

  predicate AllInside(records: seq<Record>, size: nat) {
    forall i :: 0 <= i < |records| ==> records[i].address + |records[i].bytes| <= size
  }

  function StoreAll(memory: seq<Byte>, records: seq<Record>): (m: seq<Byte>)
    requires AllInside(records, |memory|)
    ensures |m| == |memory|
    decreases |records|
  {
    if records == [] then memory else StoreAll(Store(memory, records[0]), records[1..])
  }

  // No record writes into the table.
  predicate Disjoint(records: seq<Record>, table: nat, length: nat) {
    forall i :: 0 <= i < |records| ==>
      records[i].address + |records[i].bytes| <= table || table + length <= records[i].address
  }

  method LoadWord(memory: array<Byte>, at: nat) returns (w: nat)
    requires at + 4 <= memory.Length
    ensures w == Word(memory[at..at + 4])
  {
    var b := memory[at..at + 4];
    w := Word(b);
  }

  lemma RecordParts(r: Record)
    requires Encodable(r)
    ensures var e := EncodeRecord(r); var n := |r.bytes|;
            && |e| == 8 + AlignUp(n) && n <= AlignUp(n)
            && Word(e[0..4]) == n && Word(e[4..8]) == r.address && e[8..8 + n] == r.bytes
  {
    hide Word, Bytes, AlignUp;
    var e := EncodeRecord(r);
    assert e[0..4] == Bytes(|r.bytes|);
    assert e[4..8] == Bytes(r.address);
    assert e[8..8 + |r.bytes|] == r.bytes;
  }

  // The bytes of the memory from `at` on are `e`.
  predicate Holds(memory: seq<Byte>, at: nat, e: seq<Byte>) {
    at + |e| <= |memory| && memory[at..at + |e|] == e
  }

  lemma HoldsPart(memory: seq<Byte>, at: nat, e: seq<Byte>, i: nat, j: nat)
    requires Holds(memory, at, e) && i <= j <= |e|
    ensures memory[at + i..at + j] == e[i..j]
  {
    var held := memory[at..at + |e|];
    forall k | 0 <= k < j - i ensures memory[at + i..at + j][k] == e[i..j][k] {
      assert held[i + k] == memory[at + (i + k)];
    }
  }

  lemma HoldsRest(memory: seq<Byte>, at: nat, a: seq<Byte>, b: seq<Byte>)
    requires Holds(memory, at, a + b)
    ensures Holds(memory, at, a) && Holds(memory, at + |a|, b)
  {
    var e := a + b;
    assert e[..|a|] == a && e[|a|..] == b;
    assert memory[at..at + |e|][..|a|] == memory[at..at + |a|];
    assert memory[at..at + |e|][|a|..] == memory[at + |a|..at + |a| + |b|];
  }

  // A table of `left` stands at `at`, and none of its records writes into it.
  predicate Stands(memory: seq<Byte>, at: nat, left: seq<Record>) {
    && AllEncodable(left) && AllInside(left, |memory|)
    && at % 4 == 0 && Holds(memory, at, Encode(left)) && Disjoint(left, at, |Encode(left)|)
  }

  lemma TableEnd(memory: seq<Byte>, at: nat, left: seq<Record>)
    requires Stands(memory, at, left)
    ensures at + 4 <= |memory| && (Word(memory[at..at + 4]) == 0 <==> left == [])
  {
    hide Word, Bytes, AlignUp, EncodeRecord;
    var e := Encode(left);
    HoldsPart(memory, at, e, 0, 4);
    if left == [] {
      assert e[0..4] == Bytes(0);
    } else {
      RecordParts(left[0]);
      var head := EncodeRecord(left[0]);
      assert e[0..4] == head[0..4];
    }
  }

  // What the outer loop reads for the first record.
  lemma TableFirst(memory: seq<Byte>, at: nat, left: seq<Record>)
    requires Stands(memory, at, left) && left != []
    ensures var r := left[0]; var n := |r.bytes|;
            && Encodable(r) && at + 8 + n <= |memory| && r.address + n <= |memory|
            && (r.address + n <= at + 8 || at + 8 + n <= r.address)
            && Word(memory[at..at + 4]) == n && Word(memory[at + 4..at + 8]) == r.address
            && memory[at + 8..at + 8 + n] == r.bytes
  {
    hide Word, Bytes, AlignUp, EncodeRecord;
    var r, n := left[0], |left[0].bytes|;
    var head, rest := EncodeRecord(r), Encode(left[1..]);
    RecordParts(r);
    assert Encode(left) == head + rest;
    HoldsRest(memory, at, head, rest);
    HoldsPart(memory, at, head, 0, 4);
    HoldsPart(memory, at, head, 4, 8);
    HoldsPart(memory, at, head, 8, 8 + n);
  }

  // The table that is left after storing it.
  lemma TableRest(memory: seq<Byte>, at: nat, left: seq<Record>)
    requires Stands(memory, at, left) && left != []
    requires left[0].address + |left[0].bytes| <= |memory|
    ensures Stands(Store(memory, left[0]), at + 8 + AlignUp(|left[0].bytes|), left[1..])
  {
    hide Word, Bytes, AlignUp, EncodeRecord, Store, Encodable, Encode, Holds, Disjoint, AllInside;
    var r := left[0];
    var head, rest := EncodeRecord(r), Encode(left[1..]);
    var next := at + |head|;
    EncodeFirst(left);
    HoldsRest(memory, at, head, rest);
    TailOf(left, |memory|, at, |head|, |rest|);
    OutsideRest(left, at, |head|, |rest|);
    HoldsAfter(memory, r, next, rest);
    AlignedSum(at, |r.bytes|);
  }

  lemma EncodeFirst(left: seq<Record>)
    requires AllEncodable(left) && left != []
    ensures AllEncodable(left[1..]) && Encode(left) == EncodeRecord(left[0]) + Encode(left[1..])
  {
    hide EncodeRecord, Encodable;
  }

  lemma OutsideRest(left: seq<Record>, at: nat, head: nat, rest: nat)
    requires left != [] && Disjoint(left, at, head + rest)
    ensures left[0].address + |left[0].bytes| <= at + head || at + head + rest <= left[0].address
  {
  }

  lemma HoldsAfter(memory: seq<Byte>, r: Record, at: nat, e: seq<Byte>)
    requires r.address + |r.bytes| <= |memory| && Holds(memory, at, e)
    requires r.address + |r.bytes| <= at || at + |e| <= r.address
    ensures Holds(Store(memory, r), at, e) && |Store(memory, r)| == |memory|
  {
    hide Store;
    StoreOutside(memory, r, at, |e|);
  }

  lemma TailOf(left: seq<Record>, size: nat, at: nat, head: nat, rest: nat)
    requires left != [] && AllEncodable(left) && AllInside(left, size) && Disjoint(left, at, head + rest)
    ensures AllEncodable(left[1..]) && AllInside(left[1..], size) && Disjoint(left[1..], at + head, rest)
  {
    hide Encodable;
    forall i | 0 <= i < |left| - 1 ensures left[1..][i] == left[i + 1] {
    }
  }

  lemma AlignedSum(at: nat, n: nat)
    requires at % 4 == 0
    ensures (at + 8 + AlignUp(n)) % 4 == 0
  {
  }

  // A record outside a stretch of memory leaves it alone.
  lemma StoreOutside(memory: seq<Byte>, r: Record, at: nat, length: nat)
    requires r.address + |r.bytes| <= |memory| && at + length <= |memory|
    requires r.address + |r.bytes| <= at || at + length <= r.address
    ensures |Store(memory, r)| == |memory| && Store(memory, r)[at..at + length] == memory[at..at + length]
  {
  }

  // The inner loop: `length` bytes from `data` to `address`.
  method CopyBytes(memory: array<Byte>, address: nat, data: nat, length: nat)
    requires address + length <= memory.Length && data + length <= memory.Length
    requires address + length <= data || data + length <= address
    modifies memory
    ensures memory[..] == Store(old(memory[..]), Record(address, old(memory[..])[data..data + length]))
  {
    ghost var was := memory[..];
    for k := 0 to length
      invariant forall i :: 0 <= i < memory.Length && !(address <= i < address + k) ==> memory[i] == was[i]
      invariant memory[address..address + k] == was[data..data + k]
    {
      assert memory[data + k] == was[data + k];
      memory[address + k] := memory[data + k];
      assert was[data..data + (k + 1)] == was[data..data + k] + [was[data + k]];
    }
    ghost var bytes := was[data..data + length];
    assert memory[..][..address] == was[..address];
    assert memory[..][address..address + length] == memory[address..address + length] == bytes;
    assert memory[..][address + length..] == was[address + length..];
  }

  // init_globals on a table that starts at a word boundary: it writes exactly the records, in
  // order.  The table ends where the zero length is read.
  method InitGlobals(memory: array<Byte>, start: nat, ghost records: seq<Record>)
    requires Stands(memory[..], start, records)
    modifies memory
    ensures AllInside(records, memory.Length) && memory[..] == StoreAll(old(memory[..]), records)
  {
    hide Word, Encode, Store, AlignUp, Stands, AllInside;
    ghost var left := records;
    InsideOf(memory[..], start, left);
    TableEnd(memory[..], start, left);
    var length := LoadWord(memory, start);
    var table := start + 4;
    while length != 0
      invariant 4 <= table <= memory.Length && Stands(memory[..], table - 4, left)
      invariant length == Word(memory[table - 4..table])
      invariant AllInside(left, memory.Length) && StoreAll(memory[..], left) == StoreAll(old(memory[..]), records)
      decreases |left|
    {
      ghost var before := memory[..];
      TableEnd(before, table - 4, left);
      TableFirst(before, table - 4, left);
      TableRest(before, table - 4, left);
      assert before[table - 4..table] == memory[table - 4..table];
      var address := LoadWord(memory, table);
      assert before[table..table + 4] == memory[table..table + 4];
      var data := table + 4;
      CopyBytes(memory, address, data, length);
      assert left[0] == Record(address, before[data..data + length]);
      data := data + length;
      AlignShift(table + 4, length);
      AlignedOf(before, table - 4, left);
      table := AlignUp(data);
      left := left[1..];
      InsideOf(memory[..], table, left);
      TableEnd(memory[..], table, left);
      length := LoadWord(memory, table);
      table := table + 4;
      assert memory[table - 4..table] == memory[..][table - 4..table];
    }
    TableEnd(memory[..], table - 4, left);
    assert memory[table - 4..table] == memory[..][table - 4..table];
  }

  lemma InsideOf(memory: seq<Byte>, at: nat, left: seq<Record>)
    requires Stands(memory, at, left)
    ensures AllInside(left, |memory|)
  {
  }

  lemma AlignedOf(memory: seq<Byte>, at: nat, left: seq<Record>)
    requires Stands(memory, at, left)
    ensures at % 4 == 0
  {
  }

  // Rounding the data pointer up is rounding the length up, because the table is aligned.
  lemma AlignShift(base: nat, n: nat)
    ensures base % 4 == 0 ==> AlignUp(base + n) == base + AlignUp(n)
  {
  }

  predicate Covers(r: Record, a: nat) {
    r.address <= a < r.address + |r.bytes|
  }

  lemma StoreAt(memory: seq<Byte>, r: Record, a: nat)
    requires r.address + |r.bytes| <= |memory| && a < |memory|
    ensures |Store(memory, r)| == |memory|
    ensures Store(memory, r)[a] == if Covers(r, a) then r.bytes[a - r.address] else memory[a]
  {
  }

  lemma {:induction false} Untouched(memory: seq<Byte>, records: seq<Record>, a: nat)
    requires AllInside(records, |memory|) && a < |memory|
    requires forall i :: 0 <= i < |records| ==> !Covers(records[i], a)
    ensures StoreAll(memory, records)[a] == memory[a]
    decreases |records|
  {
    hide Store, Covers;
    if records != [] {
      StoreAt(memory, records[0], a);
      Untouched(Store(memory, records[0]), records[1..], a);
    }
  }

  // What the records mean for one address: the last record that covers it.
  lemma {:induction false} LastWriteWins(memory: seq<Byte>, records: seq<Record>, a: nat, k: nat)
    requires AllInside(records, |memory|) && a < |memory|
    requires k < |records| && Covers(records[k], a) && forall i :: k < i < |records| ==> !Covers(records[i], a)
    ensures StoreAll(memory, records)[a] == records[k].bytes[a - records[k].address]
    decreases |records|
  {
    hide Store;
    StoreAt(memory, records[0], a);
    if k == 0 {
      Untouched(Store(memory, records[0]), records[1..], a);
    } else {
      LastWriteWins(Store(memory, records[0]), records[1..], a, k - 1);
    }
  }

  // --- The table ---

  // The form of a record: a length and an address, lowest byte first, the bytes, and padding to
  // the next word; a zero length ends the table.
  predicate IsLowFirst(b: seq<Byte>, n: nat) {
    && |b| == 4 && b[0] == n % 0x100 && b[1] == n / 0x100 % 0x100
    && b[2] == n / 0x1_0000 % 0x100 && b[3] == n / 0x100_0000
  }

  lemma BytesMeaning(n: nat)
    requires n < 0x1_0000_0000
    ensures IsLowFirst(Bytes(n), n)
  {
  }

  lemma EncodedForm(r: Record)
    requires Encodable(r)
    ensures var e := EncodeRecord(r); var n := |r.bytes|;
            && 8 + n <= |e| < 12 + n && |e| % 4 == 0
            && IsLowFirst(e[..4], n) && IsLowFirst(e[4..8], r.address) && e[8..8 + n] == r.bytes
    ensures IsLowFirst(Encode([]), 0)
  {
    hide Word, Bytes, AlignUp, IsLowFirst;
    var e := EncodeRecord(r);
    BytesMeaning(|r.bytes|);
    BytesMeaning(r.address);
    BytesMeaning(0);
    assert e[..4] == Bytes(|r.bytes|) && e[4..8] == Bytes(r.address);
    assert e[8..8 + |r.bytes|] == r.bytes;
  }
}
