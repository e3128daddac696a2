// USB transfer accounting of src/mww.c: mww_submit_usb_transfer with
// mww_configure_transfer_descriptor, mww_advance_completed_usb_trb, mww_complete_usb_transfer,
// and the filling of the wrap-window ring in src/rdx_core/04_hash_flash_usb_thermal.inc.
module UsbTransfer {

  const WORD := 0x1_0000_0000
  const BUSY := 4

  // 32-bit arithmetic.
  function Plus(a: nat, b: nat): (r: nat)
    ensures r < WORD
  {
    (a + b) % WORD
  }

  function Minus(a: nat, b: nat): (r: nat)
    ensures r < WORD
  {
    (a - b) % WORD
  }

  // Number of transfer request blocks in a wrap-window ring.
  function Capacity(inbound: bool): nat {
    if inbound then 10 else 8
  }

  // The words of an endpoint record, and of its wrap-window ring.
  datatype Account = Account(buffer: nat, done: nat, remaining: nat, descriptor: nat)
  datatype RingState = RingState(counts: seq<nat>, index: nat)
  datatype Endpoint = Endpoint(
    inbound: bool, maxPacket: nat, account: Account, window: bool, active: bool, ring: RingState)

  predicate RingOk(e: Endpoint) {
    |e.ring.counts| == Capacity(e.inbound) && e.ring.index < Capacity(e.inbound) && e.maxPacket > 0
  }

  // What moved: the queued count less the residue the hardware left, in 24 bits.
  function Moved(e: Endpoint, residue: nat): nat
    requires e.ring.index < |e.ring.counts|
  {
    Minus(if e.window then e.ring.counts[e.ring.index] else e.account.descriptor, residue % 0x100_0000)
  }

  function Credit(a: Account, moved: nat): Account {
    a.(done := Plus(moved, a.done), remaining := Minus(a.remaining, moved), buffer := Plus(moved, a.buffer))
  }

  function Whole(n: nat, d: nat): nat
    requires d > 0
  {
    n / d * d
  }

  // The length an OUT descriptor is rounded up to.
  function Rounded(length: nat, maxPacket: nat): nat
    requires maxPacket > 0
  {
    Whole(Minus(length + maxPacket, 1), maxPacket) % WORD
  }

  // `bulk` is usb_active_mass_storage_class; `address` is the ring's running address, less the
  // two completion bits; `commandOk` is whether the start command was taken.
  datatype Submission = Submission(
    buffer: nat, length: nat, isWindow: bool, bulk: bool, address: nat, commandOk: bool)

  // The descriptor length of a submission.
  function Length(e: Endpoint, s: Submission): nat
    requires e.maxPacket > 0
  {
    if e.inbound then s.length else Rounded(s.length, e.maxPacket)
  }

  // The largest count of one transfer request block in the window.
  function Chunk(inbound: bool, bulk: bool): (c: nat)
    ensures c > 0
  {
    if !inbound then 0x20000 else if bulk then 0x4000 else 0x8000
  }

  // The counts of the blocks that a length is cut into, and what does not fit `capacity` blocks.
  function Laid(length: nat, chunk: nat, capacity: nat): (r: (seq<nat>, nat))
    requires chunk > 0 && capacity > 0
    ensures 0 < |r.0| <= capacity
    decreases capacity
  {
    var count := if chunk <= length then chunk else length;
    if length - count == 0 || capacity == 1 then ([count], length - count)
    else
      var (rest, residual) := Laid(length - count, chunk, capacity - 1);
      ([count] + rest, residual)
  }

  lemma LaidFirst(length: nat, chunk: nat, capacity: nat)
    requires chunk > 0 && capacity > 0
    ensures var count := if chunk <= length then chunk else length;
            var laid := Laid(length, chunk, capacity).0;
            && laid[0] == count
            && (if length - count == 0 || capacity == 1 then |laid| == 1
                else laid[1..] == Laid(length - count, chunk, capacity - 1).0)
  {
  }

  // A wrap-window submission starts the ring again with its own blocks; older counts stay behind.
  function Refilled(counts: seq<nat>, laid: seq<nat>): (r: seq<nat>)
    requires |laid| <= |counts|
    ensures |r| == |counts|
  {
    laid + counts[|laid|..]
  }

  // Where the data of a submission starts: in the window the ring's own address counts.
  function Start(s: Submission): nat {
    if s.isWindow then s.address else s.buffer
  }

  // A submission that the endpoint accepts.
  function Submitted(e: Endpoint, s: Submission): Endpoint
    requires RingOk(e)
  {
    if s.isWindow then
      var (laid, _) := Laid(Length(e, s), Chunk(e.inbound, s.bulk), Capacity(e.inbound));
      e.(window := true, active := s.commandOk, account := Account(s.address, 0, s.length, laid[0]),
         ring := RingState(Refilled(e.ring.counts, laid), 0))
    else
      e.(window := false, active := s.commandOk, account := Account(s.buffer, 0, s.length, Length(e, s)))
  }

  // `counts` is what the refill of the ring leaves queued.
  datatype Event = Submit(s: Submission) | Advance(residue: nat, counts: seq<nat>) | Complete(residue: nat)

  predicate Possible(inbound: bool, event: Event) {
    event.Advance? ==> |event.counts| == Capacity(inbound)
  }

  function Next(e: Endpoint, event: Event): Endpoint
    requires RingOk(e)
  {
    match event
    case Submit(s) => if e.active then e else Submitted(e, s)
    case Advance(residue, counts) =>
      var moved := Minus(e.ring.counts[e.ring.index], residue % 0x100_0000);
      var index := if Capacity(e.inbound) <= e.ring.index + 1 then 0 else e.ring.index + 1;
      e.(account := Credit(e.account, moved), ring := RingState(counts, index))
    case Complete(residue) =>
      if !e.active then e else e.(active := false, account := Credit(e.account, Moved(e, residue)))
  }

  // Bytes done and remaining add up to what was requested, and the buffer pointer is where the
  // bytes done end.
  predicate Conserved(a: Account, start: nat, requested: nat) {
    && Plus(a.done, a.remaining) == requested % WORD
    && Plus(start, a.done) == a.buffer % WORD
  }

  lemma {:induction false} Multiple(x: int, k: int)
    ensures (x + k * WORD) % WORD == x % WORD
    decreases if k < 0 then -k else k
  {
    if k > 0 {
      Multiple(x, k - 1);
      assert x + k * WORD == (x + (k - 1) * WORD) + WORD;
    } else if k < 0 {
      Multiple(x, k + 1);
      assert x + k * WORD == (x + (k + 1) * WORD) - WORD;
    }
  }

  // Reducing a term first changes nothing.
  lemma Reduce(x: int, y: int)
    ensures (x % WORD + y) % WORD == (x + y) % WORD
  {
    Multiple(x % WORD + y, x / WORD);
    assert x % WORD + y + (x / WORD) * WORD == x + y;
  }

  lemma CreditConserves(a: Account, moved: nat, start: nat, requested: nat)
    requires Conserved(a, start, requested)
    ensures Conserved(Credit(a, moved), start, requested)
  {
    var d, r := moved + a.done, a.remaining - moved;
    Reduce(d, r % WORD);
    Reduce(r, d);
    assert (d % WORD + r % WORD) % WORD == (a.done + a.remaining) % WORD;
    Reduce(d, start);
    Reduce(start + a.done, moved);
    Reduce(a.buffer, moved);
    assert (start + d % WORD) % WORD == (moved + a.buffer) % WORD;
  }

  lemma NextOk(e: Endpoint, event: Event)
    requires RingOk(e) && Possible(e.inbound, event)
    ensures RingOk(Next(e, event)) && Next(e, event).inbound == e.inbound
  {
  }

  function Exec(e: Endpoint, events: seq<Event>): Endpoint
    requires RingOk(e) && forall i :: 0 <= i < |events| ==> Possible(e.inbound, events[i])
    ensures RingOk(Exec(e, events)) && Exec(e, events).inbound == e.inbound
    decreases |events|
  {
    if events == [] then e
    else
      NextOk(e, events[0]);
      Exec(Next(e, events[0]), events[1..])
  }

  // The start and the length of the submission an event sequence last got accepted.
  function LastSubmission(e: Endpoint, events: seq<Event>, start: nat, requested: nat): (nat, nat)
    requires RingOk(e) && forall i :: 0 <= i < |events| ==> Possible(e.inbound, events[i])
    decreases |events|
  {
    if events == [] then (start, requested)
    else
    NextOk(e, events[0]);
    if events[0].Submit? && !e.active then
      LastSubmission(Next(e, events[0]), events[1..], Start(events[0].s), events[0].s.length)
    else LastSubmission(Next(e, events[0]), events[1..], start, requested)
  }

  // Over every sequence of submissions, ring progress and completions, on both directions.
  lemma {:induction false} TransferConservation(e: Endpoint, events: seq<Event>, start: nat, requested: nat)
    requires RingOk(e) && Conserved(e.account, start, requested)
    requires forall i :: 0 <= i < |events| ==> Possible(e.inbound, events[i])
    ensures var t := Exec(e, events); var (b, l) := LastSubmission(e, events, start, requested);
            Conserved(t.account, b, l) && t.ring.index < Capacity(e.inbound)
    decreases |events|
  {
    hide Conserved, Credit;
    if events != [] {
      var t := Next(e, events[0]);
      match events[0]
      case Submit(s) =>
        if !e.active {
          FreshAccount(e, s);
          TransferConservation(t, events[1..], Start(s), s.length);
        } else {
          TransferConservation(t, events[1..], start, requested);
        }
      case Advance(residue, counts) =>
        CreditConserves(e.account, Minus(e.ring.counts[e.ring.index], residue % 0x100_0000), start, requested);
        TransferConservation(t, events[1..], start, requested);
      case Complete(residue) =>
        if e.active {
          CreditConserves(e.account, Moved(e, residue), start, requested);
        }
        TransferConservation(t, events[1..], start, requested);
    }
  }

  lemma FreshAccount(e: Endpoint, s: Submission)
    requires RingOk(e)
    ensures Conserved(Submitted(e, s).account, Start(s), s.length)
  {
    hide Laid;
  }

  // --- The same without reduction ---

  // Bytes done and remaining add up exactly, and the buffer pointer has not wrapped.
  predicate Exact(a: Account, start: nat, requested: nat) {
    a.done + a.remaining == requested && a.buffer == start + a.done && start + requested < WORD
  }

  // The count the hardware works on.
  function Queued(e: Endpoint, event: Event): nat
    requires RingOk(e)
  {
    if event.Advance? || e.window then e.ring.counts[e.ring.index] else e.account.descriptor
  }

  // The hardware leaves at most the queued count, delivers at most what the request still
  // lacks, and an accepted request ends within the address space.
  predicate Bounded(e: Endpoint, event: Event)
    requires RingOk(e)
  {
    match event
    case Submit(s) => e.active || Start(s) + s.length < WORD
    case Advance(residue, _) =>
      var left := residue % 0x100_0000; left <= Queued(e, event) <= left + e.account.remaining
    case Complete(residue) =>
      var left := residue % 0x100_0000; !e.active || left <= Queued(e, event) <= left + e.account.remaining
  }

  predicate BoundedRun(e: Endpoint, events: seq<Event>)
    requires RingOk(e) && forall i :: 0 <= i < |events| ==> Possible(e.inbound, events[i])
    decreases |events|
  {
    events == [] ||
    (Bounded(e, events[0]) &&
     (NextOk(e, events[0]);
      BoundedRun(Next(e, events[0]), events[1..])))
  }

  lemma CreditExact(a: Account, moved: nat, start: nat, requested: nat)
    requires Exact(a, start, requested) && moved <= a.remaining
    ensures Exact(Credit(a, moved), start, requested) && Credit(a, moved).done == a.done + moved
  {
    assert (moved + a.done) % WORD == moved + a.done;
  }

  lemma MinusExact(a: nat, b: nat)
    requires b <= a && a - b < WORD
    ensures Minus(a, b) == a - b
  {
  }

  // Nothing wraps: over every bounded sequence of events, bytes done and remaining add up to
  // the request itself.
  lemma {:induction false} ExactConservation(e: Endpoint, events: seq<Event>, start: nat, requested: nat)
    requires RingOk(e) && Exact(e.account, start, requested)
    requires forall i :: 0 <= i < |events| ==> Possible(e.inbound, events[i])
    requires BoundedRun(e, events)
    ensures var t := Exec(e, events); var (b, l) := LastSubmission(e, events, start, requested);
            Exact(t.account, b, l)
    decreases |events|
  {
    hide Credit, Laid;
    if events != [] {
      var t := Next(e, events[0]);
      NextOk(e, events[0]);
      match events[0]
      case Submit(s) =>
        if !e.active {
          ExactConservation(t, events[1..], Start(s), s.length);
        } else {
          ExactConservation(t, events[1..], start, requested);
        }
      case Advance(residue, counts) =>
        var left := residue % 0x100_0000;
        MinusExact(Queued(e, events[0]), left);
        CreditExact(e.account, Queued(e, events[0]) - left, start, requested);
        ExactConservation(t, events[1..], start, requested);
      case Complete(residue) =>
        var left := residue % 0x100_0000;
        if e.active {
          MinusExact(Queued(e, events[0]), left);
          CreditExact(e.account, Queued(e, events[0]) - left, start, requested);
        }
        ExactConservation(t, events[1..], start, requested);
    }
  }

  function Total(counts: seq<nat>): nat {
    if counts == [] then 0 else counts[0] + Total(counts[1..])
  }

  // The ring of a wrap-window submission queues the whole length or is full of whole chunks;
  // with the residual that is left for the refill the counts add up to the length.
  lemma {:induction false} RingCovers(length: nat, chunk: nat, capacity: nat)
    requires chunk > 0 && capacity > 0
    ensures var (laid, residual) := Laid(length, chunk, capacity);
            && Total(laid) + residual == length
            && (forall i :: 0 <= i < |laid| - 1 ==> laid[i] == chunk) && laid[|laid| - 1] <= chunk
            && (residual > 0 ==> |laid| == capacity && laid[|laid| - 1] == chunk)
    decreases capacity
  {
    var count := if chunk <= length then chunk else length;
    if length - count == 0 || capacity == 1 {
      assert Total([count]) == count;
    } else {
      RingCovers(length - count, chunk, capacity - 1);
      var (rest, _) := Laid(length - count, chunk, capacity - 1);
      assert ([count] + rest)[1..] == rest;
    }
  }

  // A short transfer outside the wrap window: the residue of the rounded descriptor tells what
  // arrived, and what is left is the rest of the request, not of the descriptor.
  lemma ShortTransfer(e: Endpoint, s: Submission, residue: nat)
    requires RingOk(e) && !e.active && s.commandOk && !s.isWindow && s.length < WORD
    requires residue <= Submitted(e, s).account.descriptor < 0x100_0000
    ensures var t := Next(Next(e, Submit(s)), Complete(residue));
            var got := Submitted(e, s).account.descriptor - residue;
            && !t.active && t.account.done == got
            && (got <= s.length ==> t.account.remaining == s.length - got)
  {
    hide Rounded;
    var f := Next(e, Submit(s));
    assert f == Submitted(e, s);
    assert residue % 0x100_0000 == residue;
    assert Moved(f, residue) == f.account.descriptor - residue;
  }

  lemma WholeBounds(n: nat, d: nat)
    requires d > 0
    ensures n - d < Whole(n, d) <= n && Whole(n, d) % d == 0
  {
    assert n == n / d * d + n % d;
    MultipleOf(n / d, d);
  }

  lemma MultipleOf(k: nat, d: nat)
    requires d > 0
    ensures (k * d) % d == 0
  {
    var q, r := k * d / d, k * d % d;
    assert (k - q) * d == r;
    if k > q {
      Scaled(k - q, d);
    } else if k < q {
      Scaled(q - k, d);
    }
  }

  lemma Scaled(k: nat, d: nat)
    requires k > 0
    ensures k * d >= d
  {
  }

  // The least multiple of the maximum packet that holds the length; the whole length fits
  // exactly when length and maximum packet do not add up to more than 2^32.
  lemma RoundedMeaning(length: nat, maxPacket: nat)
    requires 0 < maxPacket < 0x10000 && length < 0x1_0000_0000
    ensures length + maxPacket <= 0x1_0000_0000 ==>
              Rounded(length, maxPacket) % maxPacket == 0 && Rounded(length, maxPacket) < length + maxPacket
    ensures length <= Rounded(length, maxPacket) <==> length + maxPacket <= 0x1_0000_0000
  {
    hide Whole;
    WholeBounds(Minus(length + maxPacket, 1), maxPacket);
  }

  // What a submission outside the wrap window programs.
  lemma DescriptorMeaning(e: Endpoint, s: Submission)
    requires RingOk(e) && !e.active && !s.isWindow && e.maxPacket < 0x10000 && s.length < 0x1_0000_0000
    ensures var t := Next(e, Submit(s)); var a := t.account;
            && !t.window && t.active == s.commandOk && t.ring == e.ring
            && a.buffer == s.buffer && a.done == 0 && a.remaining == s.length
            && (if e.inbound then a.descriptor == s.length
                else
                  && (s.length <= a.descriptor <==> s.length + e.maxPacket <= 0x1_0000_0000)
                  && (s.length <= a.descriptor ==>
                        a.descriptor % e.maxPacket == 0 && a.descriptor < s.length + e.maxPacket))
  {
    hide Rounded;
    RoundedMeaning(s.length, e.maxPacket);
  }

  // What a submission into the wrap window queues: `blocks` blocks, all full but the last, that
  // with the residual add up to the length; older blocks stay behind them.
  lemma WindowMeaning(e: Endpoint, s: Submission) returns (blocks: nat, residual: nat)
    requires RingOk(e) && !e.active && s.isWindow && e.maxPacket < 0x10000 && s.length < 0x1_0000_0000
    ensures var t := Next(e, Submit(s));
            && t.window && t.active == s.commandOk
            && 0 < blocks <= |t.ring.counts| == |e.ring.counts| && t.ring.index == 0
            && t.account == Account(s.address, 0, s.length, t.ring.counts[0])
            && t.ring.counts[blocks..] == e.ring.counts[blocks..]
    ensures var counts := Next(e, Submit(s)).ring.counts;
            var full := if !e.inbound then 0x20000 else if s.bulk then 0x4000 else 0x8000;
            && (forall i :: 0 <= i < blocks - 1 ==> counts[i] == full) && counts[blocks - 1] <= full
            && (residual > 0 ==> blocks == (if e.inbound then 10 else 8) && counts[blocks - 1] == full)
    ensures var total := Total(Next(e, Submit(s)).ring.counts[..blocks]) + residual;
            if e.inbound then total == s.length
            else
              && (s.length <= total <==> s.length + e.maxPacket <= 0x1_0000_0000)
              && (s.length <= total ==> total % e.maxPacket == 0 && total < s.length + e.maxPacket)
  {
    hide Rounded, Laid;
    RoundedMeaning(s.length, e.maxPacket);
    var length, chunk, capacity := Length(e, s), Chunk(e.inbound, s.bulk), Capacity(e.inbound);
    RingCovers(length, chunk, capacity);
    var (laid, left) := Laid(length, chunk, capacity);
    blocks, residual := |laid|, left;
    assert Next(e, Submit(s)).ring.counts == Refilled(e.ring.counts, laid);
    assert Refilled(e.ring.counts, laid)[..blocks] == laid;
    assert forall i :: 0 <= i < blocks ==> Refilled(e.ring.counts, laid)[i] == laid[i];
  }

  lemma CreditMoves(a: Account, queued: nat, residue: nat)
    requires residue <= queued <= residue + a.remaining && residue < 0x100_0000
    requires a.done + a.remaining < 0x1_0000_0000 && a.buffer + a.remaining < 0x1_0000_0000
    ensures var moved := queued - residue;
            Credit(a, Minus(queued, residue % 0x100_0000))
            == Account(a.buffer + moved, a.done + moved, a.remaining - moved, a.descriptor)
  {
    MinusExact(queued, residue);
    MinusExact(a.remaining, queued - residue);
  }

  // A completed block of the ring: what was queued less the residue moves from remaining to
  // done, and the next block of the ten or eight is in turn.
  lemma AdvanceMeaning(e: Endpoint, residue: nat, counts: seq<nat>)
    requires RingOk(e) && |counts| == Capacity(e.inbound)
    requires var queued := e.ring.counts[e.ring.index];
             && residue <= queued <= residue + e.account.remaining && residue < 0x100_0000
             && e.account.done + e.account.remaining < 0x1_0000_0000
             && e.account.buffer + e.account.remaining < 0x1_0000_0000
    ensures var moved := e.ring.counts[e.ring.index] - residue; var a := e.account;
            Next(e, Advance(residue, counts))
            == e.(account := Account(a.buffer + moved, a.done + moved, a.remaining - moved, a.descriptor),
                  ring := RingState(counts, (e.ring.index + 1) % if e.inbound then 10 else 8))
  {
    hide Submitted, Credit, Minus;
    CreditMoves(e.account, e.ring.counts[e.ring.index], residue);
  }

  // A completion in the wrap window: the same for the block in turn, and the endpoint is free.
  lemma WindowCompletion(e: Endpoint, residue: nat)
    requires RingOk(e) && e.active && e.window
    requires var queued := e.ring.counts[e.ring.index];
             && residue <= queued <= residue + e.account.remaining && residue < 0x100_0000
             && e.account.done + e.account.remaining < 0x1_0000_0000
             && e.account.buffer + e.account.remaining < 0x1_0000_0000
    ensures var moved := e.ring.counts[e.ring.index] - residue; var a := e.account;
            Next(e, Complete(residue))
            == e.(active := false,
                  account := Account(a.buffer + moved, a.done + moved, a.remaining - moved, a.descriptor))
  {
    hide Submitted, Credit, Minus;
    CreditMoves(e.account, e.ring.counts[e.ring.index], residue);
  }

  lemma QueuedOne(counts: seq<nat>, laid: seq<nat>, n: nat)
    requires n < |laid| <= |counts| && counts[..n] == laid[..n]
    ensures counts[n := laid[n]][..n + 1] == laid[..n + 1] && counts[n := laid[n]][n + 1..] == counts[n..][1..]
  {
  }

  lemma QueuedAll(was: seq<nat>, counts: seq<nat>, laid: seq<nat>)
    requires |laid| <= |counts| == |was| && counts[..|laid|] == laid && counts[|laid|..] == was[|laid|..]
    ensures counts == Refilled(was, laid)
  {
    assert counts == counts[..|laid|] + counts[|laid|..];
  }

  class EndpointRecord {
    const inbound: bool
    var maxPacket: nat
    var account: Account
    var window: bool
    var active: bool
    var ring: RingState
    var readOffset: nat   // mww_window_zero_read_offset_register

    ghost function State(): Endpoint
      reads this
    {
      Endpoint(inbound, maxPacket, account, window, active, ring)
    }

    // mww_submit_usb_transfer
    method SubmitTransfer(s: Submission) returns (result: nat)
      requires RingOk(State())
      modifies this`account, this`window, this`active, this`ring
      ensures State() == Next(old(State()), Submit(s)) && RingOk(State())
      ensures result == (if old(active) then 4 else 0)
      ensures old(active) ==> State() == old(State())
      ensures !old(active) && !s.isWindow && maxPacket < 0x10000 && s.length < 0x1_0000_0000 ==>
                if inbound then account.descriptor == s.length
                else
                  && (s.length <= account.descriptor <==> s.length + maxPacket <= 0x1_0000_0000)
                  && (s.length <= account.descriptor ==>
                        account.descriptor % maxPacket == 0 && account.descriptor < s.length + maxPacket)
    {
      hide Laid, Rounded;
      if !active && !s.isWindow && maxPacket < 0x10000 && s.length < 0x1_0000_0000 {
        DescriptorMeaning(State(), s);
      }
      if active {
        return BUSY;
      }
      window := s.isWindow;
      var descriptor := if inbound then s.length else Rounded(s.length, maxPacket);
      var start := s.buffer;
      if window {
        var first := FillRing(descriptor, Chunk(inbound, s.bulk));
        start, descriptor := s.address, first;
      }
      account := account.(descriptor := descriptor);
      account := account.(remaining := s.length);
      account := account.(done := 0);
      account := account.(buffer := start);
      active := s.commandOk;
      return 0;
    }

    // The loop that cuts a length into the blocks of the wrap-window ring; `first` is the count
    // of the first block.
    method FillRing(length: nat, chunk: nat) returns (first: nat)
      requires RingOk(State()) && chunk > 0
      modifies this`ring
      ensures var (laid, _) := Laid(length, chunk, Capacity(inbound));
              first == laid[0] && ring == RingState(Refilled(old(ring.counts), laid), 0)
    {
      hide Laid;
      var counts: seq<nat> := ring.counts;
      var n, left: nat := 0, length;
      ghost var capacity := Capacity(inbound);
      ghost var laid := Laid(length, chunk, capacity).0;
      first := if chunk <= length then chunk else length;
      while true
        invariant 0 <= n < |laid| <= capacity && 0 <= left
        invariant |counts| == capacity && counts[..n] == laid[..n] && counts[n..] == ring.counts[n..]
        invariant Laid(left, chunk, capacity - n).0 == laid[n..]
        decreases capacity - n
        modifies {}
      {
        var count: nat := if chunk <= left then chunk else left;
        LaidFirst(left, chunk, capacity - n);
        assert laid[n..][0] == laid[n] == count;
        QueuedOne(counts, laid, n);
        counts := counts[n := count];
        left := left - count;
        n := n + 1;
        assert laid[n - 1..][1..] == laid[n..];
        if left == 0 || n == Capacity(inbound) {
          break;
        }
      }
      QueuedAll(ring.counts, counts, laid);
      LaidFirst(length, chunk, capacity);
      ring := RingState(counts, 0);
    }

    // mww_advance_completed_usb_trb; `slot` is the block's buffer word, `counts` the ring after
    // the refill that follows.
    method AdvanceTrb(residue: nat, slot: nat, counts: seq<nat>)
      requires RingOk(State()) && |counts| == Capacity(inbound)
      modifies this`account, this`ring, this`readOffset
      ensures State() == Next(old(State()), Advance(residue, counts)) && RingOk(State())
      ensures readOffset
              == if inbound then Plus(Minus(old(ring.counts[ring.index]), residue % 0x100_0000), slot)
                 else old(readOffset)
    {
      var moved := Minus(ring.counts[ring.index], residue % 0x100_0000);
      if inbound {
        readOffset := Plus(moved, slot);
      }
      ring := ring.(index := ring.index + 1);
      account := account.(remaining := Minus(account.remaining, moved));
      account := account.(done := Plus(moved, account.done));
      account := account.(buffer := Plus(moved, account.buffer));
      if Capacity(inbound) <= ring.index {
        ring := ring.(index := 0);
      }
      ring := ring.(counts := counts);
    }

    // mww_complete_usb_transfer up to its callback.
    method CompleteTransfer(residue: nat, slot: nat) returns (notify: bool)
      requires RingOk(State())
      modifies this`account, this`active, this`readOffset
      ensures State() == Next(old(State()), Complete(residue)) && RingOk(State()) && notify == old(active)
      ensures !old(active) ==> State() == old(State()) && readOffset == old(readOffset)
    {
      if !active {
        return false;
      }
      var moved;
      if !window {
        moved := Minus(account.descriptor, residue % 0x100_0000);
      } else {
        moved := Minus(ring.counts[ring.index], residue % 0x100_0000);
        if inbound {
          readOffset := Plus(moved, slot);
        }
      }
      active := false;
      account := account.(done := Plus(moved, account.done));
      account := account.(remaining := Minus(account.remaining, moved));
      account := account.(buffer := Plus(moved, account.buffer));
      return true;
    }
  }
}
