// The ring of ATA callbacks between the SATA handlers and the foreground loop: its operations,
// and the arrays that hold it.  `CallbackFifo.dfy` interleaves their statements.
module CallbackRing {

  const ATA_CALLBACK_QUEUE_DEPTH := 16

  // pAtaCmdCallback, pAtaQueuedCmdCallback, pAtaErrorCallback
  datatype Callback = CommandDone | QueuedDone | TransportError

  // ATA_CMD_CALLBACK_T, as far as a handler fills it.
  datatype Data = Data(slot: nat, status: nat, bytes: nat, sActive: nat)

  datatype Entry = Entry(callback: Callback, data: Data)

  // pAtaCallbackQueue and ata_callback_data by slot, callback_pending, and the two indices.
  datatype Ring = Ring(entries: seq<Entry>, pending: seq<bool>, callbackIndex: nat, processingIndex: nat)

  predicate WellFormed(r: Ring) {
    && |r.entries| == |r.pending| == ATA_CALLBACK_QUEUE_DEPTH
    && r.callbackIndex < ATA_CALLBACK_QUEUE_DEPTH && r.processingIndex < ATA_CALLBACK_QUEUE_DEPTH
  }

  function Following(i: nat): nat {
    if i + 1 >= ATA_CALLBACK_QUEUE_DEPTH then 0 else i + 1
  }

  // What the caller of ahci_ata_cbk_queue_add did to the record of the slot: a completion
  // handler has filled it, a transport error leaves what the slot held.
  datatype Record = Filled(data: Data) | Untouched

  // The statements of an addition: the record through the pointer taken on entry, then the
  // three writes of ahci_ata_cbk_queue_add, each at the index it reads again.
  function FillRecord(r: Ring, slot: nat, data: Data): Ring
    requires WellFormed(r) && slot < ATA_CALLBACK_QUEUE_DEPTH
  {
    r.(entries := r.entries[slot := r.entries[slot].(data := data)])
  }

  function StoreCallback(r: Ring, callback: Callback): Ring
    requires WellFormed(r)
  {
    r.(entries := r.entries[r.callbackIndex := r.entries[r.callbackIndex].(callback := callback)])
  }

  function MarkPending(r: Ring): Ring
    requires WellFormed(r)
  {
    r.(pending := r.pending[r.callbackIndex := true])
  }

  function AdvanceProducer(r: Ring): Ring
    requires WellFormed(r)
  {
    r.(callbackIndex := Following(r.callbackIndex))
  }

  // An addition that nothing interrupts.
  function Add(r: Ring, callback: Callback, record: Record): Ring
    requires WellFormed(r)
  {
    var filled := if record.Filled? then FillRecord(r, r.callbackIndex, record.data) else r;
    AdvanceProducer(MarkPending(StoreCallback(filled, callback)))
  }

  // ahci_clear_callback_queue
  function Reset(r: Ring): Ring
    requires WellFormed(r)
  {
    Ring(r.entries, seq(ATA_CALLBACK_QUEUE_DEPTH, _ => false), 0, 0)
  }

  function ClearFlag(r: Ring): Ring
    requires WellFormed(r)
  {
    r.(pending := r.pending[r.processingIndex := false])
  }

  function Advance(r: Ring): Ring {
    r.(processingIndex := Following(r.processingIndex))
  }

  // ahci_callbacks_are_pending is false.
  predicate NonePending(r: Ring)
    requires WellFormed(r)
  {
    forall i :: 0 <= i < ATA_CALLBACK_QUEUE_DEPTH ==> !r.pending[i]
  }

  // --- The ring as the program holds it ---

  class CallbackQueue {
    const callbacks: array<Callback>   // pAtaCallbackQueue
    const records: array<Data>         // ata_callback_data
    const flags: array<bool>           // callback_pending
    var callbackIndex: nat
    var processingIndex: nat

    ghost predicate Valid()
      reads this, callbacks, records, flags
    {
      && callbacks.Length == records.Length == flags.Length == ATA_CALLBACK_QUEUE_DEPTH
      && callbackIndex < ATA_CALLBACK_QUEUE_DEPTH && processingIndex < ATA_CALLBACK_QUEUE_DEPTH
    }

    ghost function Value(): (r: Ring)
      requires Valid()
      reads this, callbacks, records, flags
      ensures WellFormed(r)
    {
      Ring(seq(ATA_CALLBACK_QUEUE_DEPTH, i requires 0 <= i < ATA_CALLBACK_QUEUE_DEPTH && Valid()
                                           reads this, callbacks, records, flags => Entry(callbacks[i], records[i])),
           flags[..], callbackIndex, processingIndex)
    }

    constructor ()
      ensures Valid() && fresh(callbacks) && fresh(records) && fresh(flags)
      ensures Value().pending == seq(ATA_CALLBACK_QUEUE_DEPTH, _ => false)
      ensures callbackIndex == 0 && processingIndex == 0 && callbacks.Length == 16
    {
      callbacks := new Callback[ATA_CALLBACK_QUEUE_DEPTH](_ => CommandDone);
      records := new Data[ATA_CALLBACK_QUEUE_DEPTH](_ => Data(0, 0, 0, 0));
      flags := new bool[ATA_CALLBACK_QUEUE_DEPTH](_ => false);
      callbackIndex, processingIndex := 0, 0;
    }

    // ahci_callbacks_are_pending
    method ArePending() returns (any: bool)
      requires Valid()
      ensures any <==> !NonePending(Value())
    {
      any := false;
      for i := 0 to ATA_CALLBACK_QUEUE_DEPTH
        invariant forall j :: 0 <= j < i ==> !flags[j]
      {
        if flags[i] {
          assert Value().pending[i];
          return true;
        }
      }
    }

    // A completion handler: fill the record of the slot, then ahci_ata_cbk_queue_add.
    method Complete(callback: Callback, data: Data)
      requires Valid()
      modifies this, callbacks, records, flags
      ensures Valid() && Value() == Add(old(Value()), callback, Filled(data))
    {
      records[callbackIndex] := data;
      QueueAdd(callback);
    }

    // ahci_ata_cbk_queue_add
    method QueueAdd(callback: Callback)
      requires Valid()
      modifies this, callbacks, flags
      ensures Valid() && Value() == Add(old(Value()), callback, Untouched)
    {
      callbacks[callbackIndex] := callback;
      flags[callbackIndex] := true;
      callbackIndex := callbackIndex + 1;
      if callbackIndex >= ATA_CALLBACK_QUEUE_DEPTH {
        callbackIndex := 0;
      }
    }

    // ahci_clear_callback_queue
    method ClearQueue()
      requires Valid()
      modifies this, flags
      ensures Valid() && Value() == Reset(old(Value()))
    {
      for i := 0 to ATA_CALLBACK_QUEUE_DEPTH
        invariant Valid() && forall j :: 0 <= j < i ==> !flags[j]
        invariant forall j :: 0 <= j < ATA_CALLBACK_QUEUE_DEPTH ==>
                                callbacks[j] == old(callbacks[j]) && records[j] == old(records[j])
      {
        flags[i] := false;
      }
      callbackIndex := 0;
      processingIndex := 0;
    }

    // One pass of the consumer in main(), with no handler in between.
    method ConsumeOne() returns (executed: bool, entry: Entry)
      requires Valid()
      modifies this, flags
      ensures Valid() && executed == old(Value()).pending[old(processingIndex)]
      ensures executed ==>
                entry == old(Value()).entries[old(processingIndex)] && Value() == Advance(ClearFlag(old(Value())))
      ensures !executed ==> Value() == old(Value())
    {
      executed := flags[processingIndex];
      entry := Entry(callbacks[processingIndex], records[processingIndex]);
      if executed {
        flags[processingIndex] := false;
        processingIndex := processingIndex + 1;
        if processingIndex >= ATA_CALLBACK_QUEUE_DEPTH {
          processingIndex := 0;
        }
      }
    }
  }
}
