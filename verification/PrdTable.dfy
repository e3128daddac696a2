// Two builders of the physical region descriptor table: ahci_setup_PRDT of
// src/rdx_mount/ahci.c in wrap-window mode, and mww_build_ahci_prd_table of src/mww.c.
module PrdTable {

  const MAX_ENTRIES := 8                // AHCI_MAX_SCAT_GATH
  const WINDOW := 0x3E000               // MWW_VIRTUAL_WINDOW_SIZE
  const SATA_TO_USB := 0xC010_0000      // MWW0_ADDR
  const USB_TO_SATA := 0xC014_0000      // MWW1_ADDR
  const TABLE_WORDS := 4 * MAX_ENTRIES
  const WORD := 0x1_0000_0000

  function Address(write: bool): nat {
    if write then USB_TO_SATA else SATA_TO_USB
  }

  // The byte counts of the entries for `n` bytes: full windows and a last one.
  function Cut(n: nat): seq<nat> {
    if n == 0 then [] else if n <= WINDOW then [n] else [WINDOW] + Cut(n - WINDOW)
  }

  function Total(counts: seq<nat>): nat {
    if counts == [] then 0 else counts[0] + Total(counts[1..])
  }

  // One entry: address, upper address, reserved, count less one.
  function Entry(address: nat, count: nat): seq<nat>
    requires count > 0
  {
    [address, 0, 0, count - 1]
  }

  function Words(address: nat, counts: seq<nat>): seq<nat>
    requires forall i :: 0 <= i < |counts| ==> counts[i] > 0
  {
    if counts == [] then [] else Entry(address, counts[0]) + Words(address, counts[1..])
  }

  lemma {:induction false} CutMeaning(n: nat)
    ensures var c := Cut(n);
            && Total(c) == n && |c| == (n + WINDOW - 1) / WINDOW
            && (forall i :: 0 <= i < |c| ==> 0 < c[i] <= WINDOW)
            && (forall i :: 0 <= i < |c| - 1 ==> c[i] == WINDOW)
            && (|c| <= MAX_ENTRIES <==> n <= MAX_ENTRIES * WINDOW)
  {
    if n > WINDOW {
      CutMeaning(n - WINDOW);
      assert Cut(n)[1..] == Cut(n - WINDOW);
    }
  }

  lemma {:induction false} WordsLength(address: nat, counts: seq<nat>)
    requires forall i :: 0 <= i < |counts| ==> counts[i] > 0
    ensures |Words(address, counts)| == 4 * |counts|
  {
    if counts != [] {
      WordsLength(address, counts[1..]);
    }
  }

  lemma {:induction false} WordsAppend(address: nat, counts: seq<nat>, count: nat)
    requires count > 0 && forall i :: 0 <= i < |counts| ==> counts[i] > 0
    ensures Words(address, counts + [count]) == Words(address, counts) + Entry(address, count)
  {
    if counts == [] {
      assert [] + [count] == [count];
    } else {
      assert (counts + [count])[1..] == counts[1..] + [count];
      WordsAppend(address, counts[1..], count);
    }
  }

  lemma {:induction false} TotalAppend(counts: seq<nat>, count: nat)
    ensures Total(counts + [count]) == Total(counts) + count
  {
    if counts != [] {
      assert (counts + [count])[1..] == counts[1..] + [count];
      TotalAppend(counts[1..], count);
    } else {
      assert [] + [count] == [count] && [count][1..] == [];
    }
  }

  lemma CutFirst(n: nat)
    requires n > 0
    ensures var count := if n < WINDOW then n else WINDOW; Cut(n) == [count] + Cut(n - count)
  {
  }

  // The table with the entries for `counts` written over `was`.
  function Filled(was: seq<nat>, address: nat, counts: seq<nat>): (t: seq<nat>)
    requires |was| == TABLE_WORDS && |counts| <= MAX_ENTRIES && forall i :: 0 <= i < |counts| ==> counts[i] > 0
    ensures |t| == TABLE_WORDS
  {
    WordsLength(address, counts);
    Words(address, counts) + was[4 * |counts|..]
  }

  lemma FilledNext(was: seq<nat>, address: nat, counts: seq<nat>, count: nat)
    requires |was| == TABLE_WORDS && |counts| < MAX_ENTRIES && count > 0
    requires forall i :: 0 <= i < |counts| ==> counts[i] > 0
    ensures var t, at := Filled(was, address, counts), 4 * |counts|;
            t[..at] + Entry(address, count) + t[at + 4..] == Filled(was, address, counts + [count])
  {
    hide Words, Entry;
    WordsLength(address, counts);
    WordsLength(address, counts + [count]);
    WordsAppend(address, counts, count);
    var t, at := Filled(was, address, counts), 4 * |counts|;
    assert t[..at] == Words(address, counts);
    assert t[at + 4..] == was[4 * (|counts| + 1)..];
  }

  // What a filled table says, entry by entry: the window of the direction, two zero words and the
  // count less one; the words behind the last entry are left as they were.
  predicate Describes(t: seq<nat>, was: seq<nat>, write: bool, counts: seq<nat>) {
    && |t| == |was| == 32 && |counts| <= 8
    && (forall i :: 0 <= i < |counts| ==>
          && t[4 * i] == (if write then 0xC014_0000 else 0xC010_0000)
          && t[4 * i + 1] == 0 && t[4 * i + 2] == 0 && t[4 * i + 3] + 1 == counts[i])
    && t[4 * |counts|..] == was[4 * |counts|..]
  }

  lemma {:induction false} WordsAt(address: nat, counts: seq<nat>, i: nat)
    requires i < |counts| && forall j :: 0 <= j < |counts| ==> counts[j] > 0
    ensures |Words(address, counts)| == 4 * |counts|
    ensures var w := Words(address, counts);
            w[4 * i] == address && w[4 * i + 1] == 0 && w[4 * i + 2] == 0 && w[4 * i + 3] + 1 == counts[i]
    decreases i
  {
    WordsLength(address, counts);
    if i > 0 {
      WordsAt(address, counts[1..], i - 1);
      assert Words(address, counts)[4..] == Words(address, counts[1..]);
      WordsShift(Words(address, counts), i);
    }
  }

  lemma WordsShift(w: seq<nat>, i: nat)
    requires i > 0 && 4 * i + 3 < |w|
    ensures w[4..][4 * (i - 1)] == w[4 * i] && w[4..][4 * (i - 1) + 1] == w[4 * i + 1]
    ensures w[4..][4 * (i - 1) + 2] == w[4 * i + 2] && w[4..][4 * (i - 1) + 3] == w[4 * i + 3]
  {
  }

  lemma FilledMeaning(was: seq<nat>, write: bool, counts: seq<nat>)
    requires |was| == TABLE_WORDS && |counts| <= MAX_ENTRIES && forall i :: 0 <= i < |counts| ==> counts[i] > 0
    ensures Describes(Filled(was, Address(write), counts), was, write, counts)
  {
    hide Words;
    var t, w := Filled(was, Address(write), counts), Words(Address(write), counts);
    WordsLength(Address(write), counts);
    forall i | 0 <= i < |counts|
      ensures t[4 * i] == w[4 * i] && t[4 * i + 1] == w[4 * i + 1] && t[4 * i + 2] == w[4 * i + 2]
      ensures t[4 * i + 3] == w[4 * i + 3] && w[4 * i] == Address(write) && w[4 * i + 1] == 0 && w[4 * i + 2] == 0
      ensures w[4 * i + 3] + 1 == counts[i]
    {
      WordsAt(Address(write), counts, i);
    }
    assert t[4 * |counts|..] == was[4 * |counts|..];
  }

  // Every window full but the last, as few as hold `n` bytes.
  predicate Covers(counts: seq<nat>, n: nat) {
    && Total(counts) == n && |counts| == (n + 0x3DFFF) / 0x3E000
    && (forall i :: 0 <= i < |counts| - 1 ==> counts[i] == 0x3E000)
    && (counts != [] ==> 0 < counts[|counts| - 1] <= 0x3E000)
  }

  method WriteEntry(table: array<nat>, at: nat, address: nat, last: nat)
    requires at + 4 <= table.Length
    modifies table
    ensures table[..] == old(table[..])[..at] + [address, 0, 0, last] + old(table[..])[at + 4..]
  {
    table[at] := address;
    table[at + 1] := 0;
    table[at + 2] := 0;
    table[at + 3] := last;
  }

  // ahci_setup_PRDT with bUseMemoryWrapWindow set.
  method SetupPrdt(table: array<nat>, bytes: nat, write: bool) returns (ok: bool, entries: nat)
    requires table.Length == TABLE_WORDS
    modifies table
    ensures ok <==> bytes <= 0x1F_0000
    ensures !ok ==> entries == 0 && table[..] == old(table[..])
    ensures ok ==>
              && Fits(Cut(bytes)) && entries == |Cut(bytes)|
              && table[..] == Filled(old(table[..]), Address(write), Cut(bytes))
              && Covers(Cut(bytes), bytes) && Describes(table[..], old(table[..]), write, Cut(bytes))
  {
    hide Cut, Words, Filled, Describes, Covers;
    CutCovers(bytes);
    entries := 0;
    CutMeaning(bytes);
    if bytes > MAX_ENTRIES * WINDOW {
      return false, 0;
    }
    ok := true;
    ghost var was := table[..];
    ghost var done: seq<nat> := [];
    var remaining: nat := bytes;
    Unfilled(was, Address(write));
    assert done + Cut(remaining) == Cut(bytes);
    while remaining > 0
      invariant Fits(done) && |done| == entries && done + Cut(remaining) == Cut(bytes)
      invariant table[..] == Filled(was, Address(write), done)
    {
      var count := if remaining < WINDOW then remaining else WINDOW;
      CutFirst(remaining);
      assert done + ([count] + Cut(remaining - count)) == (done + [count]) + Cut(remaining - count);
      FilledNext(was, Address(write), done, count);
      WriteEntry(table, 4 * entries, Address(write), count - 1);
      done := done + [count];
      remaining := remaining - count;
      entries := entries + 1;
    }
    NothingLeft();
    assert done + [] == done;
    FilledMeaning(was, write, done);
  }

  lemma CutCovers(bytes: nat)
    ensures Covers(Cut(bytes), bytes)
  {
    hide Cut, Total;
    CutMeaning(bytes);
  }

  predicate Fits(counts: seq<nat>) {
    |counts| <= MAX_ENTRIES && forall i :: 0 <= i < |counts| ==> counts[i] > 0
  }

  lemma NothingLeft()
    ensures Cut(0) == []
  {
  }

  lemma Unfilled(was: seq<nat>, address: nat)
    requires |was| == TABLE_WORDS
    ensures Filled(was, address, []) == was
  {
    assert Filled(was, address, []) == [] + was[0..];
  }

  // The count less one of an empty first entry wraps to the largest word.
  predicate LargestFirst(t: seq<nat>, was: seq<nat>, write: bool) {
    |t| == |was| >= 4 && t == [if write then 0xC014_0000 else 0xC010_0000, 0, 0, 0xFFFF_FFFF] + was[4..]
  }

  method BuildEmpty(table: array<nat>, write: bool)
    requires table.Length == TABLE_WORDS
    modifies table
    ensures LargestFirst(table[..], old(table[..]), write)
  {
    WriteEntry(table, 0, Address(write), WORD - 1);
  }

  // The loop of mww_build_ahci_prd_table.
  method BuildEntries(table: array<nat>, bytes: nat, write: bool) returns (entries: nat, left: nat)
    requires table.Length == TABLE_WORDS && bytes > 0
    modifies table
    ensures Fits(Taken(bytes)) && entries == |Taken(bytes)| && Total(Taken(bytes)) + left == bytes
    ensures table[..] == Filled(old(table[..]), Address(write), Taken(bytes))
  {
    hide Cut, Words, Filled, First, Total, Taken, Address;
    TakenIs(bytes);
    entries := 0;
    left := bytes;
    ghost var was := table[..];
    ghost var done: seq<nat> := [];
    Unfilled(was, Address(write));
    EmptyTotal();
    assert done + First(Cut(left), MAX_ENTRIES) == Taken(bytes);
    while entries < MAX_ENTRIES
      invariant Fits(done) && |done| == entries <= MAX_ENTRIES && left > 0
      invariant done + First(Cut(left), MAX_ENTRIES - entries) == Taken(bytes)
      invariant Total(done) + left == bytes
      invariant table[..] == Filled(was, Address(write), done)
    {
      var count := if 0x3DFFF < left then WINDOW else left;
      CutFirst(left);
      FirstStep(count, Cut(left - count), MAX_ENTRIES - entries);
      FilledNext(was, Address(write), done, count);
      TotalAppend(done, count);
      WriteEntry(table, 4 * entries, Address(write), count - 1);
      assert done + ([count] + First(Cut(left - count), MAX_ENTRIES - entries - 1))
             == (done + [count]) + First(Cut(left - count), MAX_ENTRIES - entries - 1);
      done := done + [count];
      entries := entries + 1;
      left := left - count;
      if left == 0 {
        NothingLeft();
        FirstOfNone(MAX_ENTRIES - entries);
        assert done + [] == done;
        return;
      }
    }
    FirstZero(Cut(left));
    assert done + [] == done;
  }

  // mww_build_ahci_prd_table for a wrap-window transfer; `left` is what it stores back.
  method BuildPrdTable(table: array<nat>, bytes: nat, write: bool) returns (entries: nat, left: nat)
    requires table.Length == TABLE_WORDS
    modifies table
    ensures bytes == 0 ==> entries == 1 && left == 0 && LargestFirst(table[..], old(table[..]), write)
    ensures bytes > 0 ==>
              && Fits(Taken(bytes)) && entries == |Taken(bytes)| && Total(Taken(bytes)) + left == bytes
              && table[..] == Filled(old(table[..]), Address(write), Taken(bytes))
              && Describes(table[..], old(table[..]), write, Taken(bytes))
              && Covers(Taken(bytes), if bytes <= 0x1F_0000 then bytes else 0x1F_0000)
    ensures bytes > 0 ==> left == if bytes <= 0x1F_0000 then 0 else bytes - 0x1F_0000
  {
    hide Filled, Total, Describes, Covers, Taken, LargestFirst, Address;
    if bytes == 0 {
      BuildEmpty(table, write);
      return 1, 0;
    }
    ghost var was := table[..];
    entries, left := BuildEntries(table, bytes, write);
    FilledMeaning(was, write, Taken(bytes));
    TakenCovers(bytes);
  }

  lemma TakenIs(bytes: nat)
    ensures Taken(bytes) == First(Cut(bytes), MAX_ENTRIES)
  {
  }

  lemma TakenCovers(bytes: nat)
    ensures Covers(Taken(bytes), if bytes <= 0x1F_0000 then bytes else 0x1F_0000)
    ensures Total(Taken(bytes)) == if bytes <= 0x1F_0000 then bytes else 0x1F_0000
  {
    hide Cut, Total;
    CutCovers(bytes);
    TakenMeaning(bytes);
    if bytes > 0x1F_0000 {
      FullTotal(Taken(bytes));
    }
  }

  lemma EmptyTotal()
    ensures Total([]) == 0
  {
  }

  lemma FirstOfNone(n: nat)
    ensures First([], n) == []
  {
  }

  lemma FirstZero(counts: seq<nat>)
    ensures First(counts, 0) == []
  {
  }

  function First(counts: seq<nat>, n: nat): seq<nat> {
    if |counts| <= n then counts else counts[..n]
  }

  lemma FirstStep(count: nat, rest: seq<nat>, n: nat)
    requires n > 0
    ensures First([count] + rest, n) == [count] + First(rest, n - 1)
  {
  }

  // The entries the second builder has room for.
  function Taken(bytes: nat): seq<nat> {
    First(Cut(bytes), MAX_ENTRIES)
  }

  lemma TakenMeaning(bytes: nat)
    ensures Fits(Taken(bytes))
    ensures bytes <= MAX_ENTRIES * WINDOW ==> Taken(bytes) == Cut(bytes)
    ensures bytes > MAX_ENTRIES * WINDOW ==>
              |Taken(bytes)| == MAX_ENTRIES && forall i :: 0 <= i < MAX_ENTRIES ==> Taken(bytes)[i] == WINDOW
  {
    hide Cut;
    CutMeaning(bytes);
  }

  // Both builders, on two tables with the same contents: they leave the same table and count
  // exactly for one byte up to eight windows.
  method BothBuilders(a: array<nat>, b: array<nat>, bytes: nat, write: bool)
    returns (ok: bool, entriesA: nat, entriesB: nat, left: nat)
    requires a != b && a.Length == b.Length == TABLE_WORDS && a[..] == b[..]
    modifies a, b
    ensures ok && entriesA == entriesB && left == 0 && a[..] == b[..] <==> 0 < bytes <= 0x1F_0000
    ensures ok ==> entriesA == (bytes + WINDOW - 1) / WINDOW
    ensures !ok ==> a[..] == old(a[..]) && left == bytes - MAX_ENTRIES * WINDOW > 0
  {
    hide Cut, Words, Filled, Total, First, Describes, Covers, LargestFirst;
    CutMeaning(bytes);
    TakenMeaning(bytes);
    ok, entriesA := SetupPrdt(a, bytes, write);
    entriesB, left := BuildPrdTable(b, bytes, write);
    if bytes > MAX_ENTRIES * WINDOW {
      FullTotal(Taken(bytes));
    }
  }

  lemma {:induction false} FullTotal(counts: seq<nat>)
    requires forall i :: 0 <= i < |counts| ==> counts[i] == WINDOW
    ensures Total(counts) == |counts| * WINDOW
  {
    if counts != [] {
      FullTotal(counts[1..]);
    }
  }
}
