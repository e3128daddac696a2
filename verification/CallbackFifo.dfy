// The callback ring is a first-in first-out queue: every interleaving of the consumer in main()
// with the statements of an addition and with the receiver-error handler, which can preempt
// them, and exactly when that preemption breaks it.
module CallbackFifo {
  import opened CallbackRing

  // The foreground consumer: before the test; after the callback ran; after the USB unmask;
  // after the flag was cleared.
  datatype Consumer = Testing | Executed | Unmasked | Cleared

  // An addition by the AHCI handler or by ahci_reset_lun.  A completion handler takes the
  // address of the record of slot callback_index, fills it, and enters ahci_ata_cbk_queue_add,
  // which stores the callback, sets the flag and advances.  `meant` is what it wants to add.
  datatype Producer =
    | Resting
    | Captured(slot: nat, callback: Callback, data: Data)
    | Entered(callback: Callback, record: Record)
    | Stored(meant: Entry)
    | Marked(meant: Entry)

  // `exposed`: media is ready and the receiver-error source open.  `sent` and `delivered` are
  // the callbacks meant to be added, and executed, since the last reset.
  datatype Queue = Queue(
    ring: Ring, consumer: Consumer, producer: Producer, exposed: bool, sent: seq<Entry>, delivered: seq<Entry>)

  datatype Step =
    | Begin(callback: Callback, record: Record)
    | Produce
    | ReceiverAdds
    | Expose(exposed: bool)
    | Consume
    | ResetQueue

  predicate Shaped(q: Queue) {
    WellFormed(q.ring) && (q.producer.Captured? ==> q.producer.slot < ATA_CALLBACK_QUEUE_DEPTH)
  }

  // An addition runs above the foreground and below the receiver-error handler, which adds its
  // one callback only for ready media and only when none is pending.
  predicate Enabled(q: Queue, step: Step)
    requires Shaped(q)
  {
    match step
    case Produce => !q.producer.Resting?
    case ReceiverAdds => q.exposed && NonePending(q.ring)
    case _ => q.producer.Resting?
  }

  // The entry that an addition to the slot in use would make.
  function Entering(r: Ring, callback: Callback, record: Record): Entry
    requires WellFormed(r)
  {
    Entry(callback, if record.Filled? then record.data else r.entries[r.callbackIndex].data)
  }

  function ProduceStep(q: Queue): Queue
    requires Shaped(q)
    ensures Shaped(ProduceStep(q))
  {
    match q.producer
    case Resting => q
    case Captured(slot, callback, data) =>
      q.(ring := FillRecord(q.ring, slot, data), producer := Entered(callback, Filled(data)))
    case Entered(callback, record) =>
      q.(ring := StoreCallback(q.ring, callback), producer := Stored(Entering(q.ring, callback, record)))
    case Stored(meant) => q.(ring := MarkPending(q.ring), producer := Marked(meant))
    case Marked(meant) => q.(ring := AdvanceProducer(q.ring), producer := Resting, sent := q.sent + [meant])
  }

  function ConsumeStep(q: Queue): Queue
    requires Shaped(q)
    ensures Shaped(ConsumeStep(q))
  {
    var r := q.ring;
    match q.consumer
    case Testing =>
      if r.pending[r.processingIndex] then
        q.(consumer := Executed, delivered := q.delivered + [r.entries[r.processingIndex]])
      else q
    case Executed => q.(consumer := Unmasked)
    case Unmasked => q.(consumer := Cleared, ring := ClearFlag(r))
    case Cleared => q.(consumer := Testing, ring := Advance(r))
  }

  function Next(q: Queue, step: Step): Queue
    requires Shaped(q)
    ensures Shaped(Next(q, step))
  {
    match step
    case Begin(callback, record) =>
      q.(producer := if record.Filled? then Captured(q.ring.callbackIndex, callback, record.data)
                     else Entered(callback, Untouched))
    case Produce => ProduceStep(q)
    case ReceiverAdds =>
      q.(ring := Add(q.ring, TransportError, Untouched), exposed := false,
         sent := q.sent + [Entering(q.ring, TransportError, Untouched)])
    case Expose(exposed) => q.(exposed := exposed)
    case Consume => ConsumeStep(q)
    case ResetQueue => q.(ring := Reset(q.ring), sent := [], delivered := [])
  }

  // --- What the ring stands for ---

  // Callbacks whose slot the consumer has given back.
  function Done(q: Queue): int {
    if q.consumer.Testing? || q.consumer.Cleared? then |q.delivered| else |q.delivered| - 1
  }

  // Where slot `i` lies behind the slot of callback number `first`.
  function Offset(first: int, i: int): (r: int)
    ensures 0 <= r < ATA_CALLBACK_QUEUE_DEPTH
  {
    (i - first) % ATA_CALLBACK_QUEUE_DEPTH
  }

  // Slot `i` is pending exactly if its callback was added and not given back, and then holds it.
  predicate SlotHolds(q: Queue, i: nat)
    requires WellFormed(q.ring) && i < ATA_CALLBACK_QUEUE_DEPTH && 0 <= Done(q)
  {
    var n := Offset(Done(q), i);
    && (q.ring.pending[i] <==> n < |q.sent| - Done(q))
    && (q.ring.pending[i] ==> q.ring.entries[i] == q.sent[Done(q) + n])
  }

  // The pending slots are the cyclic interval from the first callback not given back, in
  // order, each with the callback and the record that were added; delivery is in that order.
  predicate InOrder(q: Queue) {
    var r, done := q.ring, Done(q);
    && WellFormed(r) && 0 <= done <= |q.delivered| <= |q.sent| <= done + ATA_CALLBACK_QUEUE_DEPTH
    && q.delivered == q.sent[..|q.delivered|]
    && r.callbackIndex == |q.sent| % ATA_CALLBACK_QUEUE_DEPTH
    && (q.consumer.Cleared? ==> done > 0)
    && r.processingIndex == (if q.consumer.Cleared? then done - 1 else done) % ATA_CALLBACK_QUEUE_DEPTH
    && (forall i :: 0 <= i < ATA_CALLBACK_QUEUE_DEPTH ==> SlotHolds(q, i))
  }

  predicate Room(q: Queue) {
    |q.sent| - Done(q) < ATA_CALLBACK_QUEUE_DEPTH
  }

  // The same in the middle of an addition, whose slot is not pending yet or, once marked, as
  // good as added.
  predicate Faithful(q: Queue) {
    && Shaped(q)
    && (match q.producer
        case Resting => InOrder(q)
        case Captured(slot, _, _) => InOrder(q) && Room(q) && slot == q.ring.callbackIndex
        case Entered(callback, record) =>
          InOrder(q) && Room(q) && (record.Filled? ==> q.ring.entries[q.ring.callbackIndex].data == record.data)
        case Stored(meant) => InOrder(q) && Room(q) && q.ring.entries[q.ring.callbackIndex] == meant
        case Marked(meant) => InOrder(ProduceStep(q)) && q.ring.pending[q.ring.callbackIndex])
  }

  // Between taking the address of the record, or storing the callback, and setting the flag.
  predicate Critical(p: Producer) {
    p.Captured? || (p.Entered? && p.record.Filled?) || p.Stored?
  }

  // Fewer than sixteen pending, no reset between the callback and the index increment, and no
  // receiver error in the critical part of an addition.
  predicate Assumed(q: Queue, step: Step)
    requires Shaped(q)
  {
    && (step.Begin? ==> exists i :: 0 <= i < ATA_CALLBACK_QUEUE_DEPTH && !q.ring.pending[i])
    && (step.ResetQueue? ==> q.consumer.Testing?)
    && (step.ReceiverAdds? ==> !Critical(q.producer))
  }

  // The slot of callback number `n`, seen from callback number `first`.
  lemma OffsetOf(first: int, n: int, i: int)
    requires 0 <= n - first < ATA_CALLBACK_QUEUE_DEPTH && 0 <= i < ATA_CALLBACK_QUEUE_DEPTH
    ensures Offset(first, i) == n - first <==> i == n % ATA_CALLBACK_QUEUE_DEPTH
  {
  }

  lemma OffsetNext(first: int, i: int)
    requires 0 <= i < ATA_CALLBACK_QUEUE_DEPTH
    ensures Offset(first + 1, i) == if Offset(first, i) == 0 then ATA_CALLBACK_QUEUE_DEPTH - 1 else Offset(first, i) - 1
  {
  }

  lemma FreeSlot(q: Queue)
    requires InOrder(q)
    ensures (exists i :: 0 <= i < ATA_CALLBACK_QUEUE_DEPTH && !q.ring.pending[i]) <==> Room(q)
    ensures q.ring.pending[q.ring.callbackIndex] <==> !Room(q)
    ensures NonePending(q.ring) <==> |q.sent| == Done(q)
  {
    hide Offset;
    var done := Done(q);
    assert forall i :: 0 <= i < ATA_CALLBACK_QUEUE_DEPTH ==>
             SlotHolds(q, i) && (q.ring.pending[i] <==> Offset(done, i) < |q.sent| - done);
    if Room(q) {
      OffsetOf(done, |q.sent|, q.ring.callbackIndex);
      assert !q.ring.pending[q.ring.callbackIndex];
    }
    OffsetOf(done, done, done % ATA_CALLBACK_QUEUE_DEPTH);
    assert |q.sent| > done ==> q.ring.pending[done % ATA_CALLBACK_QUEUE_DEPTH];
  }

  // Marking the slot in use and advancing adds what it holds.
  lemma MarkKeeps(q: Queue)
    requires InOrder(q) && Room(q)
    ensures InOrder(q.(ring := AdvanceProducer(MarkPending(q.ring)),
                       sent := q.sent + [q.ring.entries[q.ring.callbackIndex]]))
  {
    hide Offset;
    var meant := q.ring.entries[q.ring.callbackIndex];
    var t := q.(ring := AdvanceProducer(MarkPending(q.ring)), sent := q.sent + [meant]);
    var done := Done(q);
    assert t.delivered == t.sent[..|t.delivered|];
    forall i: nat | i < ATA_CALLBACK_QUEUE_DEPTH
      ensures SlotHolds(t, i)
    {
      assert SlotHolds(q, i);
      OffsetOf(done, |q.sent|, i);
    }
  }

  // Writing the slot in use changes nothing that counts.
  lemma WriteKeeps(q: Queue, entry: Entry)
    requires InOrder(q) && Room(q)
    ensures InOrder(q.(ring := q.ring.(entries := q.ring.entries[q.ring.callbackIndex := entry])))
  {
    hide Offset;
    FreeSlot(q);
    var t := q.(ring := q.ring.(entries := q.ring.entries[q.ring.callbackIndex := entry]));
    forall i: nat | i < ATA_CALLBACK_QUEUE_DEPTH
      ensures SlotHolds(t, i)
    {
      assert SlotHolds(q, i);
    }
  }

  lemma SameSlots(q: Queue, t: Queue)
    requires WellFormed(q.ring) && WellFormed(t.ring) && q.ring.entries == t.ring.entries
    requires q.ring.pending == t.ring.pending && q.sent == t.sent && 0 <= Done(q) == Done(t)
    ensures forall i :: 0 <= i < ATA_CALLBACK_QUEUE_DEPTH ==> (SlotHolds(q, i) <==> SlotHolds(t, i))
  {
    hide Offset;
  }

  // Neither does the state of the addition.
  lemma ProducerKeeps(q: Queue, producer: Producer, exposed: bool)
    ensures InOrder(q) <==> InOrder(q.(producer := producer, exposed := exposed))
  {
    hide Offset, SlotHolds;
    if WellFormed(q.ring) && 0 <= Done(q) {
      SameSlots(q, q.(producer := producer, exposed := exposed));
    }
  }

  lemma ProduceKeeps(q: Queue)
    requires Faithful(q)
    ensures Faithful(Next(q, Produce))
  {
    hide InOrder;
    match q.producer
    case Resting =>
    case Captured(slot, callback, data) =>
      WriteKeeps(q, q.ring.entries[slot].(data := data));
      ProducerKeeps(q.(ring := FillRecord(q.ring, slot, data)), Entered(callback, Filled(data)), q.exposed);
    case Entered(callback, record) =>
      WriteKeeps(q, Entering(q.ring, callback, record));
      ProducerKeeps(q.(ring := StoreCallback(q.ring, callback)), Next(q, Produce).producer, q.exposed);
    case Stored(meant) =>
      MarkKeeps(q);
      var t := q.(ring := AdvanceProducer(MarkPending(q.ring)), sent := q.sent + [meant]);
      ProducerKeeps(t, Resting, q.exposed);
    case Marked(meant) =>
  }

  lemma ReceiverKeeps(q: Queue)
    requires Faithful(q) && Enabled(q, ReceiverAdds) && !Critical(q.producer)
    ensures Faithful(Next(q, ReceiverAdds))
  {
    hide InOrder, Offset;
    assert InOrder(q);
    FreeSlot(q);
    var entry := Entering(q.ring, TransportError, Untouched);
    WriteKeeps(q, entry);
    var written := q.(ring := StoreCallback(q.ring, TransportError));
    MarkKeeps(written);
    var t := Next(q, ReceiverAdds);
    ProducerKeeps(t, q.producer, q.exposed);
    assert InOrder(t);
    assert Done(t) == Done(q);
  }

  // The consumer executes the oldest callback that was added, if there is one, with its record.
  lemma ExecuteKeeps(q: Queue)
    requires Faithful(q) && q.producer.Resting? && q.consumer.Testing?
    ensures Faithful(Next(q, Consume))
    ensures q.ring.pending[q.ring.processingIndex] <==> |q.delivered| < |q.sent|
    ensures |q.delivered| < |q.sent| ==> Next(q, Consume).delivered == q.delivered + [q.sent[|q.delivered|]]
  {
    hide Offset;
    OffsetOf(|q.delivered|, |q.delivered|, q.ring.processingIndex);
    assert SlotHolds(q, q.ring.processingIndex);
    var t := Next(q, Consume);
    SameSlots(q, t);
    if |q.delivered| < |q.sent| {
      assert t.delivered == t.sent[..|t.delivered|];
    }
  }

  lemma ClearKeeps(q: Queue)
    requires Faithful(q) && q.producer.Resting? && q.consumer.Unmasked?
    ensures Faithful(Next(q, Consume))
  {
    hide Offset;
    var t, done := Next(q, Consume), Done(q);
    forall i: nat | i < ATA_CALLBACK_QUEUE_DEPTH
      ensures SlotHolds(t, i)
    {
      assert SlotHolds(q, i);
      OffsetOf(done, done, i);
      OffsetNext(done, i);
    }
  }

  lemma ConsumeKeeps(q: Queue)
    requires Faithful(q) && q.producer.Resting?
    ensures Faithful(Next(q, Consume))
  {
    hide Offset, SlotHolds;
    if q.consumer.Testing? {
      ExecuteKeeps(q);
    } else if q.consumer.Unmasked? {
      ClearKeeps(q);
    } else {
      SameSlots(q, Next(q, Consume));
    }
  }

  lemma StepKeeps(q: Queue, step: Step)
    requires Faithful(q) && Enabled(q, step) && Assumed(q, step)
    ensures Faithful(Next(q, step))
  {
    match step
    case Begin(callback, record) =>
      FreeSlot(q);
      ProducerKeeps(q, Next(q, step).producer, q.exposed);
      hide InOrder;
    case Produce => ProduceKeeps(q); hide Faithful;
    case ReceiverAdds => ReceiverKeeps(q); hide Faithful;
    case Expose(exposed) => ProducerKeeps(q, q.producer, exposed); hide InOrder;
    case Consume => ConsumeKeeps(q); hide Faithful;
    case ResetQueue =>
  }

  function Exec(q: Queue, steps: seq<Step>): Queue
    requires Shaped(q)
    ensures Shaped(Exec(q, steps))
    decreases |steps|
  {
    if steps == [] then q else Exec(Next(q, steps[0]), steps[1..])
  }

  predicate AssumedRun(q: Queue, steps: seq<Step>)
    requires Shaped(q)
    decreases |steps|
  {
    steps == [] || (Enabled(q, steps[0]) && Assumed(q, steps[0]) && AssumedRun(Next(q, steps[0]), steps[1..]))
  }

  // In every interleaving the ring is a first-in first-out queue: what has been executed is a
  // prefix of what was added, record for record, and nothing else is pending.
  lemma {:induction false} FifoRefinement(q: Queue, steps: seq<Step>)
    requires Faithful(q) && AssumedRun(q, steps)
    ensures Faithful(Exec(q, steps))
    decreases |steps|
  {
    hide InOrder, Next, Enabled, Assumed;
    if steps != [] {
      StepKeeps(q, steps[0]);
      FifoRefinement(Next(q, steps[0]), steps[1..]);
    }
  }

  // The callbacks not executed yet, oldest first, as the slots behind the consumer hold them.
  function Waiting(q: Queue, n: nat): seq<Entry>
    requires WellFormed(q.ring)
  {
    var from := q.ring.processingIndex + if q.consumer.Testing? then 0 else 1;
    seq(n, j requires 0 <= j < n => q.ring.entries[(from + j) % ATA_CALLBACK_QUEUE_DEPTH])
  }

  // The queue after power-up or a reset.
  predicate Fresh(q: Queue) {
    && WellFormed(q.ring) && q.ring.callbackIndex == q.ring.processingIndex == 0
    && q.consumer.Testing? && q.producer.Resting? && NonePending(q.ring) && q.sent == q.delivered == []
  }

  // Conservation: in every run from power-up, between additions, each callback added since the
  // last reset was executed once or is waiting, in the order of addition.
  lemma EachDeliveredOnce(start: Queue, steps: seq<Step>)
    requires Fresh(start) && AssumedRun(start, steps) && Exec(start, steps).producer.Resting?
    ensures var q := Exec(start, steps);
            && |q.delivered| <= |q.sent|
            && q.sent == q.delivered + Waiting(q, |q.sent| - |q.delivered|)
  {
    assert Faithful(start);
    FifoRefinement(start, steps);
    NothingLost(Exec(start, steps));
  }

  lemma NothingLost(q: Queue)
    requires InOrder(q)
    ensures q.sent == q.delivered + Waiting(q, |q.sent| - |q.delivered|)
  {
    hide Offset;
    var first, n, done := |q.delivered|, |q.sent| - |q.delivered|, Done(q);
    forall j | 0 <= j < n
      ensures Waiting(q, n)[j] == q.sent[first + j]
    {
      var i := (first + j) % ATA_CALLBACK_QUEUE_DEPTH;
      SlotOf(q.ring.processingIndex, if q.consumer.Testing? then first else first - 1, first + j);
      OffsetOf(done, first + j, i);
      if done <= first + j < done + ATA_CALLBACK_QUEUE_DEPTH {
        assert SlotHolds(q, i) && q.ring.pending[i];
      }
    }
    assert q.sent[first..] == Waiting(q, n);
    assert q.sent == q.sent[..first] + q.sent[first..];
  }

  // Counting on from a slot is counting on from the number of its callback.
  lemma SlotOf(slot: nat, first: nat, n: nat)
    requires first <= n && slot == first % ATA_CALLBACK_QUEUE_DEPTH
    ensures (slot + (n - first)) % ATA_CALLBACK_QUEUE_DEPTH == n % ATA_CALLBACK_QUEUE_DEPTH
  {
  }

  // A callback reads its record through a pointer while handlers run: no statement of an
  // addition touches it.
  lemma RecordStable(q: Queue, step: Step)
    requires Faithful(q) && (q.consumer.Executed? || q.consumer.Unmasked?)
    requires Enabled(q, step) && Assumed(q, step) && !step.Consume? && !step.ResetQueue?
    ensures var t := Next(q, step);
            && t.ring.processingIndex == q.ring.processingIndex && t.delivered == q.delivered
            && t.ring.entries[t.ring.processingIndex] == q.ring.entries[q.ring.processingIndex]
            && q.ring.entries[q.ring.processingIndex] == q.delivered[|q.delivered| - 1]
  {
    hide Offset;
    var held := if q.producer.Marked? then ProduceStep(q) else q;
    OffsetOf(Done(q), Done(q), q.ring.processingIndex);
    assert SlotHolds(held, q.ring.processingIndex);
    if !q.producer.Marked? {
      FreeSlot(q);
    }
  }

  // --- The assumptions are needed ---

  function ProducerLeft(p: Producer): nat {
    match p
    case Captured(_, _, _) => 4
    case Entered(_, _) => 3
    case Stored(_) => 2
    case Marked(_) => 1
    case Resting => 0
  }

  // The rest of an addition, undisturbed.
  function FinishAddition(q: Queue): (t: Queue)
    requires Shaped(q)
    ensures Shaped(t) && t.producer.Resting?
    decreases ProducerLeft(q.producer)
  {
    if q.producer.Resting? then q else FinishAddition(ProduceStep(q))
  }

  // An addition, undisturbed.
  function Adding(q: Queue, callback: Callback, record: Record): (t: Queue)
    requires Shaped(q)
    ensures Shaped(t) && t.producer.Resting?
  {
    FinishAddition(Next(q, Begin(callback, record)))
  }

  lemma AddingIs(q: Queue, callback: Callback, record: Record)
    requires Shaped(q) && q.producer.Resting?
    ensures Adding(q, callback, record)
            == q.(ring := Add(q.ring, callback, record), sent := q.sent + [Entering(q.ring, callback, record)])
  {
    var q1 := Next(q, Begin(callback, record));
    var q2 := if record.Filled? then ProduceStep(q1) else q1;
    var q3 := ProduceStep(q2);
    var q4 := ProduceStep(q3);
    assert FinishAddition(q1) == FinishAddition(q2) == FinishAddition(q3) == FinishAddition(q4) == ProduceStep(q4);
  }

  // After the first `k` statements of an addition, the first being the one that takes the
  // address of the record.
  function Begun(q: Queue, callback: Callback, record: Record, k: nat): (t: Queue)
    requires Shaped(q) && k > 0
    ensures Shaped(t)
  {
    Produced(Next(q, Begin(callback, record)), k - 1)
  }

  // An addition that the receiver-error handler interrupts after `k` of its statements.
  function Interrupted(q: Queue, callback: Callback, record: Record, k: nat): (t: Queue)
    requires Shaped(q)
    ensures Shaped(t) && t.producer.Resting?
  {
    var at := if k == 0 then q else Begun(q, callback, record, k);
    var hit := if Enabled(at, ReceiverAdds) then Next(at, ReceiverAdds) else at;
    if k == 0 then Adding(hit, callback, record) else FinishAddition(hit)
  }

  function Produced(q: Queue, n: nat): (t: Queue)
    requires Shaped(q)
    ensures Shaped(t)
    decreases n
  {
    if n == 0 then q else Produced(ProduceStep(q), n - 1)
  }

  // The queue with two more callbacks: `x0` and `x1` in the slots, `m0` and `m1` meant.
  function TwoMore(q: Queue, x0: Entry, x1: Entry, m0: Entry, m1: Entry): Queue
    requires Shaped(q)
  {
    var i := q.ring.callbackIndex;
    var j := Following(i);
    q.(ring := Ring(q.ring.entries[i := x0][j := x1], q.ring.pending[i := true][j := true], Following(j),
                    q.ring.processingIndex),
       producer := Resting, exposed := false, sent := q.sent + [m0] + [m1])
  }

  lemma TwoMoreFaithful(q: Queue, x0: Entry, x1: Entry, m0: Entry, m1: Entry)
    requires Shaped(q) && InOrder(q) && q.producer.Resting? && NonePending(q.ring)
    ensures Faithful(TwoMore(q, x0, x1, m0, m1)) <==> x0 == m0 && x1 == m1
  {
    hide Offset, InOrder;
    FreeSlot(q);
    var t := TwoMore(q, x0, x1, m0, m1);
    if x0 == m0 && x1 == m1 {
      WriteKeeps(q, x0);
      var q0 := q.(ring := q.ring.(entries := q.ring.entries[q.ring.callbackIndex := x0]));
      MarkKeeps(q0);
      var q1 := q0.(ring := AdvanceProducer(MarkPending(q0.ring)), sent := q.sent + [x0]);
      WriteKeeps(q1, x1);
      var q2 := q1.(ring := q1.ring.(entries := q1.ring.entries[q1.ring.callbackIndex := x1]));
      MarkKeeps(q2);
      ProducerKeeps(q2.(ring := AdvanceProducer(MarkPending(q2.ring)), sent := q1.sent + [x1]), Resting, false);
    } else if Faithful(t) {
      TwoMoreHeld(q, t, x0, x1, m0, m1);
    }
  }

  lemma TwoMoreHeld(q: Queue, t: Queue, x0: Entry, x1: Entry, m0: Entry, m1: Entry)
    requires Shaped(q) && InOrder(q) && |q.sent| == Done(q) && t == TwoMore(q, x0, x1, m0, m1) && InOrder(t)
    ensures x0 == m0 && x1 == m1
  {
    hide Offset, InOrder;
    var i, done := q.ring.callbackIndex, Done(q);
    OrderHolds(q, i);
    OrderHolds(t, i);
    OrderHolds(t, Following(i));
    OffsetOf(done, done, i);
    OffsetOf(done, done + 1, Following(i));
    assert t.sent[done] == m0 && t.sent[done + 1] == m1;
  }

  lemma OrderHolds(q: Queue, i: nat)
    requires InOrder(q) && i < ATA_CALLBACK_QUEUE_DEPTH
    ensures 0 <= Done(q) && SlotHolds(q, i) && q.ring.callbackIndex == |q.sent| % ATA_CALLBACK_QUEUE_DEPTH
  {
    hide Offset;
  }

  // The slots happen to hold already what a disturbed addition puts into them.
  predicate Coincides(r: Ring, callback: Callback, record: Record)
    requires WellFormed(r)
  {
    var first, second := r.entries[r.callbackIndex], r.entries[Following(r.callbackIndex)];
    match record
    case Filled(data) => first.data == data && second == Entry(callback, data)
    case Untouched => second == Entry(callback, first.data)
  }

  // What a receiver error in a completion handler leaves: the handler fills the record of the
  // slot it started with, stores its callback in the next one, and marks that.
  lemma CompletionInterrupted(q: Queue, callback: Callback, data: Data)
    requires Shaped(q) && q.producer.Resting? && Enabled(q, ReceiverAdds)
    ensures var first, second := q.ring.entries[q.ring.callbackIndex], q.ring.entries[Following(q.ring.callbackIndex)];
            var error, late := Entry(TransportError, data), Entry(callback, second.data);
            && Interrupted(q, callback, Filled(data), 1)
               == TwoMore(q, error, late, Entry(TransportError, first.data), Entry(callback, data))
            && Interrupted(q, callback, Filled(data), 2) == TwoMore(q, error, late, error, Entry(callback, data))
            && Interrupted(q, callback, Filled(data), 3) == TwoMore(q, error, second, error, Entry(callback, data))
  {
    InterruptedAtAddress(q, callback, data);
    InterruptedAtEntry(q, callback, data);
    InterruptedAtStore(q, callback, data);
    hide Interrupted, TwoMore;
  }

  lemma InterruptedAtAddress(q: Queue, callback: Callback, data: Data)
    requires Shaped(q) && q.producer.Resting? && Enabled(q, ReceiverAdds)
    ensures var first, second := q.ring.entries[q.ring.callbackIndex], q.ring.entries[Following(q.ring.callbackIndex)];
            Interrupted(q, callback, Filled(data), 1)
            == TwoMore(q, Entry(TransportError, data), Entry(callback, second.data),
                       Entry(TransportError, first.data), Entry(callback, data))
  {
    var q1 := Next(q, Begin(callback, Filled(data)));
    assert Produced(q1, 0) == q1;
    var t := Next(q1, ReceiverAdds);
    FinishFour(t);
    assert t.ring.callbackIndex == Following(q.ring.callbackIndex) != q.ring.callbackIndex;
    assert Interrupted(q, callback, Filled(data), 1) == FinishAddition(t);
  }

  // Finishing an addition, statement by statement.
  lemma FinishFour(q: Queue)
    requires Shaped(q)
    ensures q.producer.Captured? ==>
              FinishAddition(q) == ProduceStep(ProduceStep(ProduceStep(ProduceStep(q))))
    ensures q.producer.Entered? ==> FinishAddition(q) == ProduceStep(ProduceStep(ProduceStep(q)))
    ensures q.producer.Stored? ==> FinishAddition(q) == ProduceStep(ProduceStep(q))
    ensures q.producer.Marked? ==> FinishAddition(q) == ProduceStep(q)
  {
    if q.producer.Captured? {
      FinishThree(ProduceStep(q));
    } else if q.producer.Entered? {
      FinishThree(q);
    } else if !q.producer.Resting? {
      FinishTwo(q);
    }
  }

  lemma FinishThree(q: Queue)
    requires Shaped(q) && q.producer.Entered?
    ensures FinishAddition(q) == ProduceStep(ProduceStep(ProduceStep(q)))
  {
    FinishTwo(ProduceStep(q));
  }

  lemma FinishTwo(q: Queue)
    requires Shaped(q) && (q.producer.Stored? || q.producer.Marked?)
    ensures q.producer.Stored? ==> FinishAddition(q) == ProduceStep(ProduceStep(q))
    ensures q.producer.Marked? ==> FinishAddition(q) == ProduceStep(q)
  {
    var t := ProduceStep(q);
    assert FinishAddition(q) == FinishAddition(t);
    assert q.producer.Stored? ==> FinishAddition(t) == FinishAddition(ProduceStep(t)) == ProduceStep(t);
  }

  lemma InterruptedAtEntry(q: Queue, callback: Callback, data: Data)
    requires Shaped(q) && q.producer.Resting? && Enabled(q, ReceiverAdds)
    ensures var second := q.ring.entries[Following(q.ring.callbackIndex)];
            Interrupted(q, callback, Filled(data), 2)
            == TwoMore(q, Entry(TransportError, data), Entry(callback, second.data),
                       Entry(TransportError, data), Entry(callback, data))
  {
    var q1 := Next(q, Begin(callback, Filled(data)));
    var q2 := ProduceStep(q1);
    assert Produced(q1, 1) == Produced(q2, 0) == q2;
    var t := Next(q2, ReceiverAdds);
    FinishFour(t);
    assert t.ring.callbackIndex == Following(q.ring.callbackIndex) != q.ring.callbackIndex;
    assert Interrupted(q, callback, Filled(data), 2) == FinishAddition(t);
  }

  lemma InterruptedAtStore(q: Queue, callback: Callback, data: Data)
    requires Shaped(q) && q.producer.Resting? && Enabled(q, ReceiverAdds)
    ensures var second := q.ring.entries[Following(q.ring.callbackIndex)];
            Interrupted(q, callback, Filled(data), 3)
            == TwoMore(q, Entry(TransportError, data), second, Entry(TransportError, data), Entry(callback, data))
  {
    var q1 := Next(q, Begin(callback, Filled(data)));
    var q2 := ProduceStep(q1);
    var q3 := ProduceStep(q2);
    assert Produced(q1, 2) == Produced(q2, 1) == Produced(q3, 0) == q3;
    var t := Next(q3, ReceiverAdds);
    FinishFour(t);
    assert t.ring.callbackIndex == Following(q.ring.callbackIndex) != q.ring.callbackIndex;
    assert Interrupted(q, callback, Filled(data), 3) == FinishAddition(t);
  }

  // The same for a transport error that another handler adds.
  lemma ErrorInterrupted(q: Queue, callback: Callback)
    requires Shaped(q) && q.producer.Resting? && Enabled(q, ReceiverAdds)
    ensures var first, second := q.ring.entries[q.ring.callbackIndex], q.ring.entries[Following(q.ring.callbackIndex)];
            Interrupted(q, callback, Untouched, 2)
            == TwoMore(q, Entry(TransportError, first.data), second,
                       Entry(TransportError, first.data), Entry(callback, first.data))
  {
    var q1 := Next(q, Begin(callback, Untouched));
    var q2 := ProduceStep(q1);
    assert Produced(q1, 1) == Produced(q2, 0) == q2;
    var t := Next(q2, ReceiverAdds);
    FinishFour(t);
    assert t.ring.callbackIndex == Following(q.ring.callbackIndex) != q.ring.callbackIndex;
    assert Interrupted(q, callback, Untouched, 2) == FinishAddition(t);
  }

  lemma FinishKeeps(q: Queue)
    requires Faithful(q)
    ensures Faithful(FinishAddition(q))
    decreases ProducerLeft(q.producer)
  {
    hide InOrder;
    if !q.producer.Resting? {
      ProduceKeeps(q);
      FinishKeeps(ProduceStep(q));
    }
  }

  lemma ProducedKeeps(q: Queue, n: nat)
    requires Faithful(q)
    ensures Faithful(Produced(q, n))
    decreases n
  {
    hide InOrder;
    if n > 0 {
      ProduceKeeps(q);
      ProducedKeeps(ProduceStep(q), n - 1);
    }
  }

  // Where the interruption is outside the critical part, or does not happen, nothing breaks.
  lemma HarmlessInterruption(q: Queue, callback: Callback, record: Record, k: nat)
    requires Faithful(q) && q.producer.Resting? && Room(q)
    requires k > 0 ==>
               var at := Begun(q, callback, record, k);
               !Enabled(at, ReceiverAdds) || !Critical(at.producer)
    ensures Faithful(Interrupted(q, callback, record, k))
  {
    hide InOrder, Room, Critical;
    BeginKeeps(q, callback, record);
    if k == 0 {
      if Enabled(q, ReceiverAdds) {
        RestingIsHarmless(q.producer);
        ReceiverKeeps(q);
        RoomForTwo(q);
        BeginKeeps(Next(q, ReceiverAdds), callback, record);
        FinishKeeps(Next(Next(q, ReceiverAdds), Begin(callback, record)));
      } else {
        FinishKeeps(Next(q, Begin(callback, record)));
      }
    } else {
      var at := Begun(q, callback, record, k);
      ProducedKeeps(Next(q, Begin(callback, record)), k - 1);
      if Enabled(at, ReceiverAdds) {
        ReceiverKeeps(at);
        FinishKeeps(Next(at, ReceiverAdds));
      } else {
        FinishKeeps(at);
      }
    }
  }

  lemma RestingIsHarmless(p: Producer)
    requires p.Resting?
    ensures !Critical(p)
  {
  }

  lemma RoomForTwo(q: Queue)
    requires Faithful(q) && q.producer.Resting? && NonePending(q.ring)
    ensures Room(Next(q, ReceiverAdds))
  {
    FreeSlot(q);
    hide InOrder;
  }

  lemma BeginKeeps(q: Queue, callback: Callback, record: Record)
    requires Faithful(q) && q.producer.Resting? && Room(q)
    ensures Faithful(Next(q, Begin(callback, record)))
  {
    hide InOrder;
    ProducerKeeps(q, Next(q, Begin(callback, record)).producer, q.exposed);
  }

  // A receiver error at any statement of an addition leaves the queue faithful exactly when the
  // receiver source is masked, or media unready, or a callback pending, or the slots happen to
  // hold what is meant.
  lemma SurvivesExactly(q: Queue, callback: Callback, record: Record)
    requires Faithful(q) && q.producer.Resting? && Room(q)
    ensures (forall k :: 0 <= k <= 4 ==> Faithful(Interrupted(q, callback, record, k)))
            <==> !q.exposed || !NonePending(q.ring) || Coincides(q.ring, callback, record)
  {
    hide InOrder, Room, Interrupted, TwoMore;
    WhereCritical(q, callback, record);
    HarmlessInterruption(q, callback, record, 0);
    HarmlessInterruption(q, callback, record, 4);
    if !Enabled(q, ReceiverAdds) {
      HarmlessInterruption(q, callback, record, 1);
      HarmlessInterruption(q, callback, record, 2);
      HarmlessInterruption(q, callback, record, 3);
    } else {
      var first, second := q.ring.entries[q.ring.callbackIndex], q.ring.entries[Following(q.ring.callbackIndex)];
      match record
      case Filled(data) =>
        CompletionInterrupted(q, callback, data);
        var error, late, meant := Entry(TransportError, data), Entry(callback, second.data), Entry(callback, data);
        TwoMoreFaithful(q, error, late, Entry(TransportError, first.data), meant);
        TwoMoreFaithful(q, error, late, error, meant);
        TwoMoreFaithful(q, error, second, error, meant);
      case Untouched =>
        ErrorInterrupted(q, callback);
        HarmlessInterruption(q, callback, record, 1);
        HarmlessInterruption(q, callback, record, 3);
        var error := Entry(TransportError, first.data);
        TwoMoreFaithful(q, error, second, error, Entry(callback, first.data));
    }
  }

  // Which statement an addition has reached, and whether the receiver handler could add there.
  lemma WhereCritical(q: Queue, callback: Callback, record: Record)
    requires Shaped(q) && q.producer.Resting?
    ensures !Enabled(q, ReceiverAdds) ==>
              forall k :: 1 <= k <= 3 ==> !Enabled(Begun(q, callback, record, k), ReceiverAdds)
    ensures record.Untouched? ==>
              && !Critical(Begun(q, callback, record, 1).producer)
              && !Critical(Begun(q, callback, record, 3).producer)
    ensures !Critical(Begun(q, callback, record, 4).producer)
  {
    var q1 := Next(q, Begin(callback, record));
    var q2 := ProduceStep(q1);
    var q3 := ProduceStep(q2);
    var q4 := ProduceStep(q3);
    assert Begun(q, callback, record, 1) == Produced(q1, 0) == q1;
    assert Begun(q, callback, record, 2) == Produced(q1, 1) == Produced(q2, 0) == q2;
    assert Begun(q, callback, record, 3) == Produced(q1, 2) == Produced(q2, 1) == Produced(q3, 0) == q3;
    assert Begun(q, callback, record, 4) == Produced(q1, 3) == Produced(q2, 2);
    assert Produced(q2, 2) == Produced(q3, 1) == Produced(q4, 0) == q4;
    if !Enabled(q, ReceiverAdds) {
      assert q1.ring.pending == q2.ring.pending == q.ring.pending;
      StillPending(q, q3);
    }
  }

  lemma StillPending(q: Queue, t: Queue)
    requires Shaped(q) && Shaped(t) && q.exposed == t.exposed && !Enabled(q, ReceiverAdds)
    requires forall i :: 0 <= i < ATA_CALLBACK_QUEUE_DEPTH && q.ring.pending[i] ==> t.ring.pending[i]
    ensures !Enabled(t, ReceiverAdds)
  {
    if q.exposed {
      var i :| 0 <= i < ATA_CALLBACK_QUEUE_DEPTH && q.ring.pending[i];
      assert t.ring.pending[i];
    }
  }

  function ConsumeTimes(q: Queue, n: nat): (t: Queue)
    requires Shaped(q)
    ensures Shaped(t)
    decreases n
  {
    if n == 0 then q else ConsumeTimes(ConsumeStep(q), n - 1)
  }

  // What the transport then sees, the handler having been hit as it entered the queue: a
  // transport error, and its completion with the record of an earlier one.
  lemma StaleRecordDelivered(q: Queue, callback: Callback, data: Data)
    requires Faithful(q) && q.producer.Resting? && q.consumer.Testing? && Enabled(q, ReceiverAdds)
    ensures var t := ConsumeTimes(Interrupted(q, callback, Filled(data), 2), 8);
            t.delivered == q.delivered + [Entry(TransportError, data)]
                           + [Entry(callback, q.ring.entries[Following(q.ring.callbackIndex)].data)]
  {
    hide Interrupted, Offset;
    InterruptedAtEntry(q, callback, data);
    FreeSlot(q);
    assert q.ring.processingIndex == q.ring.callbackIndex;
    var t, behind := Interrupted(q, callback, Filled(data), 2), Following(q.ring.callbackIndex);
    ConsumeFour(t);
    var u := ConsumeTimes(t, 4);
    assert u.ring.processingIndex == behind && u.ring.pending[behind];
    ConsumeFour(u);
    ConsumeSplit(t, 4, 4);
    assert ConsumeTimes(t, 8) == ConsumeTimes(u, 4);
    assert u.delivered == q.delivered + [Entry(TransportError, data)];
    assert ConsumeTimes(u, 4).delivered == u.delivered + [u.ring.entries[behind]];
    assert u.ring.entries[behind] == Entry(callback, q.ring.entries[behind].data);
  }

  // One callback, taken through the four statements of the consumer.
  lemma ConsumeFour(q: Queue)
    requires Shaped(q) && q.consumer.Testing? && q.ring.pending[q.ring.processingIndex]
    ensures ConsumeTimes(q, 4)
            == q.(ring := Advance(ClearFlag(q.ring)),
                  delivered := q.delivered + [q.ring.entries[q.ring.processingIndex]])
  {
    var q1 := ConsumeStep(q);
    var q2 := ConsumeStep(q1);
    var q3 := ConsumeStep(q2);
    assert ConsumeTimes(q, 4) == ConsumeTimes(q1, 3) == ConsumeTimes(q2, 2) == ConsumeTimes(q3, 1)
           == ConsumeTimes(ConsumeStep(q3), 0);
  }

  lemma {:induction false} ConsumeSplit(q: Queue, m: nat, n: nat)
    requires Shaped(q)
    ensures ConsumeTimes(q, m + n) == ConsumeTimes(ConsumeTimes(q, m), n)
    decreases m
  {
    hide ConsumeStep;
    if m > 0 {
      ConsumeSplit(ConsumeStep(q), m - 1, n);
    }
  }

  // On a full ring the oldest callback is lost: the newest is executed in its place.
  lemma FullRingOverwrites(q: Queue, callback: Callback, record: Record)
    requires Faithful(q) && q.producer.Resting? && q.consumer.Testing? && !Room(q)
    ensures Next(Adding(q, callback, record), Consume).delivered
            == q.delivered + [Entering(q.ring, callback, record)]
  {
    hide Adding, Offset;
    AddingIs(q, callback, record);
    assert q.ring.callbackIndex == q.ring.processingIndex;
  }

  // The statements the consumer still owes for the callback it is on.
  function Finish(q: Queue): (t: Queue)
    requires Shaped(q)
    ensures Shaped(t)
    decreases match q.consumer case Executed => 3 case Unmasked => 2 case Cleared => 1 case Testing => 0
  {
    if q.consumer.Testing? then q else Finish(ConsumeStep(q))
  }

  // A reset leaves producer and consumer on the same slot exactly when the consumer is not
  // between executing a callback and incrementing its index.
  lemma ResetWindow(q: Queue)
    requires Shaped(q)
    ensures var t := Finish(Next(q, ResetQueue));
            && t.ring.callbackIndex == 0 && t.delivered == [] && NonePending(t.ring)
            && (t.ring.processingIndex == t.ring.callbackIndex <==> q.consumer.Testing?)
  {
    var t := Next(q, ResetQueue);
    if !t.consumer.Testing? {
      var t1 := ConsumeStep(t);
      if !t1.consumer.Testing? {
        var t2 := ConsumeStep(t1);
        if !t2.consumer.Testing? {
          assert Finish(t) == Finish(t1) == Finish(t2) == ConsumeStep(t2);
        } else {
          assert Finish(t) == Finish(t1) == t2;
        }
      } else {
        assert Finish(t) == t1;
      }
    }
  }

  // After such a reset the next callback stays pending however often the consumer looks, so
  // the drain barrier of ahci_service stays closed too.
  lemma {:induction false} MismatchStalls(q: Queue, callback: Callback, record: Record, n: nat)
    requires Shaped(q) && q.producer.Resting? && q.consumer.Testing?
    requires q.ring.processingIndex != q.ring.callbackIndex && NonePending(q.ring)
    ensures var t := Adding(q, callback, record);
            ConsumeTimes(t, n) == t && t.ring.pending[q.ring.callbackIndex]
  {
    hide Adding;
    AddingIs(q, callback, record);
    var t := Adding(q, callback, record);
    assert ConsumeStep(t) == t;
    Idle(t, n);
  }

  lemma {:induction false} Idle(q: Queue, n: nat)
    requires Shaped(q) && ConsumeStep(q) == q
    ensures ConsumeTimes(q, n) == q
  {
    if n > 0 {
      Idle(q, n - 1);
    }
  }
}
