// What becomes of a notification: who takes callbacks out of the queue, and exactly when one
// that a handler queued for a withdrawn medium is never executed.
module LifecycleDelivery {
  import opened PortModel
  import opened Lifecycle
  import opened LifecycleInvariant
  import opened LifecycleNotify

  // --- Who shortens the queue ---

  // The consumer gives back the slot of the callback it has executed.
  predicate Consumes(s: System, step: Step) {
    step.MainStep? && s.main.CbClear?
  }

  // ahci_clear_callback_queue in ahci_reset_lun.
  predicate Clears(s: System, step: Step) {
    step.UsbStep? && s.usb == Lun(LunClear)
  }

  lemma TurnAdds(p: Port, l: Latching, snapshot: Bits, mask: Bits, o: Oracle)
    ensures IsrTurn(p, l, snapshot, mask, o).dev.queued >= p.dev.queued
  {
    hide Both, AfterErrorWrite, AfterStatusWrite;
  }

  lemma ReceiverAdds(p: Port, l: Latching, r: ReceiverOracle)
    ensures ReceiverError(p, l, r).dev.queued >= p.dev.queued
  {
  }

  lemma InitKeepsQueue(p: Port, l: Latching, o: Oracle, pc: Pc)
    requires pc.Init?
    ensures InitStep(p, l, o, pc).0.dev.queued == p.dev.queued
  {
    hide Both, AfterErrorWrite, AfterStatusWrite;
  }

  lemma OthersKeepQueue(p: Port, l: Latching, resetPort: bool, enables: Bits)
    ensures RecoverLocal(p, l, resetPort).dev.queued == Session(p, enables).dev.queued == p.dev.queued
    ensures MediaInserted(p).dev.queued == EjectTeardown(p).dev.queued == p.dev.queued
  {
  }

  lemma AdvanceQueue(p: Port, l: Latching, o: Oracle, enables: Bits, pc: Pc)
    ensures var q := Advance(p, l, o, enables, pc).0;
            && (pc.CbClear? ==> q.dev.queued == if p.dev.queued == 0 then 0 else p.dev.queued - 1)
            && (pc == Lun(LunClear) ==> q.dev.queued == 0)
            && (!pc.CbClear? && pc != Lun(LunClear) ==> q.dev.queued >= p.dev.queued)
  {
    hide InitStep, RecoverLocal, Session, MediaInserted, EjectTeardown, AfterErrorWrite;
    OthersKeepQueue(p, l, o.resetNeeded, enables);
    OthersKeepQueue(p, l, false, enables);
    if pc.Init? {
      InitKeepsQueue(p, l, o, pc);
    }
  }

  // The queue gets shorter only where the consumer gives a slot back, and then by one, and where
  // ahci_reset_lun clears it.
  lemma QueueFalls(s: System, l: Latching, step: Step)
    requires Levels(s) && Enabled(s, step)
    ensures var t := Next(s, l, step);
            && (t.port.dev.queued < s.port.dev.queued ==> Consumes(s, step) || Clears(s, step))
            && (Consumes(s, step) ==> t.port.dev.queued == if s.port.dev.queued == 0 then 0 else s.port.dev.queued - 1)
            && (Clears(s, step) ==> t.port.dev.queued == 0)
  {
    hide IsrTurn, ReceiverError, Advance;
    match step
    case ControllerTurn(o) => TurnAdds(s.port, l, s.isr.snapshot, s.isr.mask, o);
    case ReceiverErrorIsr(r) => ReceiverAdds(s.port, l, r);
    case UsbStep(o, enables) => AdvanceQueue(s.port, l, o, enables, s.usb);
    case MainStep(o, enables) => AdvanceQueue(s.port, l, o, enables, s.main);
    case _ =>
  }

  // --- The consumer holds a callback; the USB level runs for no withdrawn medium ---

  predicate Holding(pc: Pc) {
    pc.CbExecute? || pc.CbUnmask? || pc.CbClear?
  }

  predicate DeliveryInvariant(s: System) {
    && Invariant(s)
    && (Holding(s.main) ==> s.port.dev.queued > 0)
    && (!s.usb.Rest? ==> !s.port.hist.withdrawn)
  }

  lemma BootDelivers(s: System)
    requires Boot(s)
    ensures DeliveryInvariant(s)
  {
    BootHolds(s);
    hide ThreadInvariant;
  }

  lemma AdvanceHolds(p: Port, l: Latching, o: Oracle, enables: Bits, pc: Pc)
    ensures var (q, next) := Advance(p, l, o, enables, pc);
            && (Holding(next) ==> Holding(pc) || (pc.Rest? && q.dev.queued > 0))
            && (Holding(next) ==> !pc.CbClear?)
            && (!pc.Rest? ==> (q.hist.withdrawn ==> p.hist.withdrawn))
  {
    hide InitStep, RecoverLocal, Session, MediaInserted, Both;
    if pc.Init? {
      InitLevels(p, l, o, pc);
      InitWithdraws(p, l, o, pc);
    }
    OthersWithdraw(p, l, o.resetNeeded, enables);
    OthersWithdraw(p, l, false, enables);
  }

  lemma InitWithdraws(p: Port, l: Latching, o: Oracle, pc: Pc)
    requires pc.Init?
    ensures InitStep(p, l, o, pc).0.hist.withdrawn ==> p.hist.withdrawn
  {
    hide Both, AfterErrorWrite, AfterStatusWrite;
  }

  lemma OthersWithdraw(p: Port, l: Latching, resetPort: bool, enables: Bits)
    ensures !RecoverLocal(p, l, resetPort).hist.withdrawn && Session(p, enables).hist == p.hist
    ensures MediaInserted(p).hist.withdrawn ==> p.hist.withdrawn
  {
  }

  lemma DeliveryStepKeeps(s: System, l: Latching, step: Step)
    requires DeliveryInvariant(s) && Allowed(s, l, step)
    ensures DeliveryInvariant(Next(s, l, step))
  {
    hide ThreadInvariant, IsrTurn, ReceiverError, Advance, Racy;
    StepKeeps(s, l, step);
    QueueFalls(s, l, step);
    ReadyIsNotWithdrawn(s);
    match step
    case ControllerTurn(o) => TurnEffect(s.port, l, s.isr.snapshot, s.isr.mask, o);
    case ReceiverErrorIsr(r) => ReceiverEffect(s.port, l, r);
    case UsbStep(o, enables) => AdvanceHolds(s.port, l, o, enables, s.usb);
    case MainStep(o, enables) => AdvanceHolds(s.port, l, o, enables, s.main);
    case _ =>
  }

  lemma ReadyIsNotWithdrawn(s: System)
    requires Invariant(s)
    ensures s.port.dev.ready ==> !s.port.hist.withdrawn
  {
  }

  lemma {:induction false} DeliveryRunKeeps(s: System, l: Latching, steps: seq<Step>)
    requires DeliveryInvariant(s) && AllowedRun(s, l, steps)
    ensures DeliveryInvariant(Exec(s, l, steps))
    decreases |steps|
  {
    hide Next, DeliveryInvariant, Allowed;
    if steps != [] {
      DeliveryStepKeeps(s, l, steps[0]);
      DeliveryRunKeeps(Next(s, l, steps[0]), l, steps[1..]);
    }
  }

  // --- A notification stays pending until it is taken ---

  // How many callbacks the consumer gives back in a run.
  function Taken(s: System, l: Latching, steps: seq<Step>): nat
    decreases |steps|
  {
    if steps == [] then 0 else Count(Consumes(s, steps[0])) + Taken(Next(s, l, steps[0]), l, steps[1..])
  }

  // ahci_reset_lun has tested readiness and not yet cleared the queue.
  predicate AtDoor(pc: Pc) {
    pc == Lun(LunMask) || pc == Lun(LunClear)
  }

  lemma LunLeavesDoor(p: Port, l: Latching, o: Oracle, enables: Bits, pc: Pc)
    ensures AtDoor(Advance(p, l, o, enables, pc).1) ==> pc == Lun(LunMask)
  {
    hide InitStep, RecoverLocal, Session, MediaInserted, AfterErrorWrite;
    if pc.Init? {
      InitLevels(p, l, o, pc);
    }
  }

  // Unready media, with no reset about to clear the queue.
  predicate Safe(s: System) {
    DeliveryInvariant(s) && !s.port.dev.ready && !AtDoor(s.usb)
  }

  lemma SafeStep(s: System, l: Latching, step: Step)
    requires Safe(s) && Allowed(s, l, step) && !Next(s, l, step).port.dev.ready
    ensures var t := Next(s, l, step);
            Safe(t) && t.port.dev.queued + Count(Consumes(s, step)) >= s.port.dev.queued
  {
    hide ThreadInvariant, IsrTurn, ReceiverError, Advance, Racy;
    DeliveryStepKeeps(s, l, step);
    QueueFalls(s, l, step);
    match step
    case UsbStep(o, enables) => LunLeavesDoor(s.port, l, o, enables, s.usb);
    case _ =>
  }

  lemma {:induction false} SafeRun(s: System, l: Latching, steps: seq<Step>)
    requires Safe(s) && UnpublishedRun(s, l, steps)
    ensures Safe(Exec(s, l, steps)) && Exec(s, l, steps).port.dev.queued + Taken(s, l, steps) >= s.port.dev.queued
    decreases |steps|
  {
    hide Next, Safe, Allowed, Consumes;
    if steps != [] {
      assert !Next(s, l, steps[0]).port.dev.ready;
      SafeStep(s, l, steps[0]);
      SafeRun(Next(s, l, steps[0]), l, steps[1..]);
    }
  }

  // The queue can be emptied before the next publication with nothing taken from it.
  ghost predicate CanLose(s: System, l: Latching) {
    exists steps ::
      UnpublishedRun(s, l, steps) && Taken(s, l, steps) == 0 && Exec(s, l, steps).port.dev.queued == 0
  }

  // ahci_reset_lun cannot go on while the consumer is about to give a slot back.
  predicate Blocked(s: System) {
    DeliveryInvariant(s) && !s.port.dev.ready && AtDoor(s.usb) && s.main.CbClear?
  }

  lemma BlockedStep(s: System, l: Latching, step: Step)
    requires Blocked(s) && Allowed(s, l, step) && !Next(s, l, step).port.dev.ready
    ensures Blocked(Next(s, l, step))
  {
    hide ThreadInvariant, IsrTurn, ReceiverError, Racy;
    DeliveryStepKeeps(s, l, step);
  }

  lemma {:induction false} BlockedRun(s: System, l: Latching, steps: seq<Step>)
    requires Blocked(s) && UnpublishedRun(s, l, steps)
    ensures Exec(s, l, steps).port.dev.queued > 0
    decreases |steps|
  {
    hide Next, DeliveryInvariant, Allowed;
    if steps != [] {
      assert !Next(s, l, steps[0]).port.dev.ready;
      BlockedStep(s, l, steps[0]);
      BlockedRun(Next(s, l, steps[0]), l, steps[1..]);
    } else {
      HoldsOne(s);
    }
  }

  lemma HoldsOne(s: System)
    requires DeliveryInvariant(s) && Holding(s.main)
    ensures s.port.dev.queued > 0
  {
    hide Invariant;
  }

  lemma UnpublishedFirst(s: System, l: Latching, step: Step, rest: seq<Step>)
    requires !s.port.dev.ready && Allowed(s, l, step) && UnpublishedRun(Next(s, l, step), l, rest)
    ensures UnpublishedRun(s, l, [step] + rest) && Exec(s, l, [step] + rest) == Exec(Next(s, l, step), l, rest)
    ensures Taken(s, l, [step] + rest) == Count(Consumes(s, step)) + Taken(Next(s, l, step), l, rest)
  {
    hide Next, Allowed, Consumes;
    assert ([step] + rest)[1..] == rest;
  }

  // One statement of ahci_reset_lun at the door.
  lemma DoorStep(s: System, l: Latching)
    requires AtDoor(s.usb) && s.isr.IsrIdle? && !s.main.CbClear? && !s.port.dev.ready
    ensures var step := UsbStep(NO_ORACLE, NONE); var t := Next(s, l, step);
            && Allowed(s, l, step) && !t.port.dev.ready && t.isr.IsrIdle? && t.main == s.main
            && (if s.usb == Lun(LunMask) then t.usb == Lun(LunClear) else t.port.dev.queued == 0)
  {
  }

  lemma DoorLoses(s: System, l: Latching)
    requires AtDoor(s.usb) && s.isr.IsrIdle? && !s.main.CbClear? && !s.port.dev.ready
    ensures CanLose(s, l)
  {
    hide Next, Allowed;
    var step := UsbStep(NO_ORACLE, NONE);
    DoorStep(s, l);
    var t := Next(s, l, step);
    if s.usb == Lun(LunMask) {
      DoorStep(t, l);
      UnpublishedFirst(t, l, step, []);
      UnpublishedFirst(s, l, step, [step] + []);
      assert Exec(Next(t, l, step), l, []) == Next(t, l, step) && Taken(Next(t, l, step), l, []) == 0;
    } else {
      UnpublishedFirst(s, l, step, []);
      assert Exec(t, l, []) == t && Taken(t, l, []) == 0;
    }
  }

  // A callback that waits for withdrawn media can be lost exactly when ahci_reset_lun stands
  // between its test of readiness and its queue reset, that is, when the handler that withdrew
  // the medium ran there.
  lemma LostExactly(s: System, l: Latching)
    requires DeliveryInvariant(s) && !s.port.dev.ready && s.port.dev.queued > 0 && s.isr.IsrIdle?
    ensures CanLose(s, l) <==> AtDoor(s.usb) && !s.main.CbClear?
  {
    if AtDoor(s.usb) && !s.main.CbClear? {
      DoorLoses(s, l);
    } else {
      forall steps | UnpublishedRun(s, l, steps)
        ensures Taken(s, l, steps) > 0 || Exec(s, l, steps).port.dev.queued > 0
      {
        if AtDoor(s.usb) {
          BlockedRun(s, l, steps);
        } else {
          SafeRun(s, l, steps);
        }
      }
    }
    hide DeliveryInvariant, Exec, Taken, UnpublishedRun;
  }

  // --- The notification of a link change ---

  lemma SilentAccount(s: System, l: Latching, step: Step)
    requires Safe(s) && Silent(s) && Allowed(s, l, step) && !Next(s, l, step).port.dev.ready
    ensures var t := Next(s, l, step);
            Safe(t) && Silent(t) && t.port.dev.queued + Count(Consumes(s, step)) == s.port.dev.queued
  {
    hide Invariant, Next, Silent;
    SafeStep(s, l, step);
    SilentStep(s, l, step);
    if Consumes(s, step) {
      assert Enabled(s, step) && Levels(s) by { StepLevels(s, l, step); }
      QueueFalls(s, l, step);
    }
  }

  lemma StepLevels(s: System, l: Latching, step: Step)
    requires Invariant(s) && Allowed(s, l, step)
    ensures Enabled(s, step) && Levels(s)
  {
    hide ThreadInvariant, Racy;
  }

  lemma {:induction false} SilentAccountRun(s: System, l: Latching, steps: seq<Step>)
    requires Safe(s) && Silent(s) && UnpublishedRun(s, l, steps)
    ensures Exec(s, l, steps).port.dev.queued + Taken(s, l, steps) == s.port.dev.queued
    decreases |steps|
  {
    hide Next, Safe, Silent, Allowed, Consumes;
    if steps != [] {
      assert !Next(s, l, steps[0]).port.dev.ready;
      SilentAccount(s, l, steps[0]);
      SilentAccountRun(Next(s, l, steps[0]), l, steps[1..]);
    }
  }

  lemma LinkChangeStays(s: System, l: Latching, step: Step)
    requires DeliveryInvariant(s) && Allowed(s, l, step) && LinkChanges(s, step)
    ensures var t := Next(s, l, step);
            DeliveryInvariant(t) && Silent(t) && t.main == s.main && t.usb == s.usb && !t.port.dev.ready
  {
    hide ThreadInvariant, IsrTurn, Racy;
    DeliveryStepKeeps(s, l, step);
    LinkChangeSilences(s, l, step);
  }

  // From power-up, until media is published again: what waits after a link change of ready
  // media waits until the consumer takes it, one callback at a time, unless the handler ran
  // while ahci_reset_lun stood at its door; and only then can it be lost.
  lemma NotificationFate(s: System, l: Latching, before: seq<Step>, step: Step, after: seq<Step>)
    requires Boot(s) && AllowedRun(s, l, before)
    requires var e := Exec(s, l, before);
             Allowed(e, l, step) && LinkChanges(e, step) && UnpublishedRun(Next(e, l, step), l, after)
    ensures var e := Exec(s, l, before); var t := Next(e, l, step);
            && (!AtDoor(e.usb) ==> Exec(t, l, after).port.dev.queued + Taken(t, l, after) == t.port.dev.queued)
            && (t.isr.IsrIdle? && t.port.dev.queued > 0 ==>
                  (CanLose(t, l) <==> AtDoor(e.usb) && !e.main.CbClear?))
  {
    hide Exec, AllowedRun, UnpublishedRun, Boot, Next, Allowed, Invariant, CanLose, Silent, LinkChanges, Taken;
    BootDelivers(s);
    DeliveryRunKeeps(s, l, before);
    var e := Exec(s, l, before);
    var t := Next(e, l, step);
    LinkChangeStays(e, l, step);
    if !AtDoor(e.usb) {
      SilentAccountRun(t, l, after);
    }
    if t.isr.IsrIdle? && t.port.dev.queued > 0 {
      LostExactly(t, l);
    }
  }

  // The consumer has executed a callback whose flag it has not cleared.
  predicate Executed(pc: Pc) {
    pc.CbUnmask? || pc.CbClear?
  }

  // Callbacks that the consumer has not finished executing.
  function Unexecuted(s: System): int {
    s.port.dev.queued - Count(Executed(s.main))
  }

  // A flag that is not cleared yet counts as a pending callback.  So a configured transport has
  // a callback to come after a link change exactly unless the one pending callback has been
  // executed already.
  lemma LinkChangeTells(s: System, l: Latching, step: Step)
    requires DeliveryInvariant(s) && Allowed(s, l, step) && LinkChanges(s, step) && s.port.usbConfigured
    ensures Unexecuted(Next(s, l, step)) >= 1 <==> !(Executed(s.main) && s.port.dev.queued == 1)
  {
    hide Invariant, Allowed, Next, LinkChanges, Silent;
    LinkChangeStays(s, l, step);
    LinkChangeSilences(s, l, step);
  }

  // --- The notification that ahci_reset_lun discards ---

  predicate DoorRun(s: System, l: Latching, steps: seq<Step>)
    decreases |steps|
  {
    AtDoor(s.usb) && (steps == [] || DoorRun(Next(s, l, steps[0]), l, steps[1..]))
  }

  // Handler step `w` withdraws ready media at the door of ahci_reset_lun, which then stays there.
  predicate WithdrawnBy(s: System, l: Latching, before: seq<Step>, w: Step, rest: seq<Step>) {
    var e := Exec(s, l, before);
    && (w.ControllerTurn? || w.ReceiverErrorIsr?) && AtDoor(e.usb) && e.port.dev.ready
    && !Next(e, l, w).port.dev.ready && DoorRun(Next(e, l, w), l, rest)
  }

  ghost predicate WithdrawnAtDoor(s: System, l: Latching, steps: seq<Step>) {
    exists before, w, rest :: steps == before + [w] + rest && WithdrawnBy(s, l, before, w, rest)
  }

  lemma {:induction false} ExecAppend(s: System, l: Latching, a: seq<Step>, b: seq<Step>)
    ensures Exec(s, l, a + b) == Exec(Exec(s, l, a), l, b)
    ensures AllowedRun(s, l, a + b) ==> AllowedRun(s, l, a) && AllowedRun(Exec(s, l, a), l, b)
    decreases |a|
  {
    hide Next, Allowed;
    if a == [] {
      assert a + b == b;
    } else {
      assert (a + b)[1..] == a[1..] + b;
      ExecAppend(Next(s, l, a[0]), l, a[1..], b);
    }
  }

  lemma {:induction false} DoorRunOn(s: System, l: Latching, steps: seq<Step>, last: Step)
    requires DoorRun(s, l, steps) && AtDoor(Next(Exec(s, l, steps), l, last).usb)
    ensures DoorRun(s, l, steps + [last])
    decreases |steps|
  {
    hide Next;
    if steps == [] {
      assert (steps + [last])[1..] == [];
      assert DoorRun(Next(s, l, last), l, []);
    } else {
      assert (steps + [last])[1..] == steps[1..] + [last];
      DoorRunOn(Next(s, l, steps[0]), l, steps[1..], last);
    }
  }

  // Media at the door becomes unready only through a handler, and not ready again there.
  lemma DoorEntry(s: System, l: Latching, step: Step)
    requires Invariant(s) && Allowed(s, l, step) && AtDoor(Next(s, l, step).usb)
    ensures AtDoor(s.usb) && !s.port.dev.ready ==> !Next(s, l, step).port.dev.ready
    ensures !Next(s, l, step).port.dev.ready && !(AtDoor(s.usb) && !s.port.dev.ready) ==>
              (step.ControllerTurn? || step.ReceiverErrorIsr?) && AtDoor(s.usb) && s.port.dev.ready
  {
    hide ThreadInvariant, Racy, Advance, IsrTurn, ReceiverError;
    match step
    case ControllerTurn(o) => TurnEffect(s.port, l, s.isr.snapshot, s.isr.mask, o);
    case ReceiverErrorIsr(r) => ReceiverEffect(s.port, l, r);
    case UsbStep(o, enables) =>
      LunLeavesDoor(s.port, l, o, enables, s.usb);
      MaskKeepsReady(s.port, l, o, enables);
    case _ =>
  }

  lemma MaskKeepsReady(p: Port, l: Latching, o: Oracle, enables: Bits)
    ensures Advance(p, l, o, enables, Lun(LunMask)).0.dev == p.dev
  {
  }

  lemma {:induction false} FindWithdrawal(s: System, l: Latching, steps: seq<Step>)
    returns (before: seq<Step>, w: Step, rest: seq<Step>)
    requires Invariant(s) && AllowedRun(s, l, steps) && !(AtDoor(s.usb) && !s.port.dev.ready)
    requires var e := Exec(s, l, steps); AtDoor(e.usb) && !e.port.dev.ready
    ensures steps == before + [w] + rest && WithdrawnBy(s, l, before, w, rest)
    decreases |steps|
  {
    hide Next, Invariant, Allowed, AtDoor;
    var n := |steps| - 1;
    var init, last := steps[..n], steps[n];
    assert steps == init + [last] && [last][1..] == [];
    ExecAppend(s, l, init, [last]);
    var e := Exec(s, l, init);
    assert Exec(e, l, [last]) == Next(e, l, last);
    RunKeeps(s, l, init);
    DoorEntry(e, l, last);
    if AtDoor(e.usb) && !e.port.dev.ready {
      before, w, rest := FindWithdrawal(s, l, init);
      ExecAppend(s, l, before, [w] + rest);
      assert before + ([w] + rest) == init && ([w] + rest)[1..] == rest;
      DoorRunOn(Next(Exec(s, l, before), l, w), l, rest, last);
      rest := rest + [last];
    } else {
      before, w, rest := init, last, [];
      assert DoorRun(Next(e, l, last), l, []);
    }
  }

  lemma {:induction false} DoorStaysUnready(s: System, l: Latching, steps: seq<Step>)
    requires Invariant(s) && AllowedRun(s, l, steps) && DoorRun(s, l, steps) && !s.port.dev.ready
    ensures !Exec(s, l, steps).port.dev.ready
    decreases |steps|
  {
    hide Next, Invariant, Allowed, AtDoor;
    if steps != [] {
      assert AtDoor(Next(s, l, steps[0]).usb);
      DoorEntry(s, l, steps[0]);
      StepKeeps(s, l, steps[0]);
      DoorStaysUnready(Next(s, l, steps[0]), l, steps[1..]);
    }
  }

  // ahci_reset_lun finds its media unready at the queue reset exactly when a handler has
  // withdrawn it since the test of readiness, before the PxIE write or after it.
  lemma UnreadyAtDoor(s: System, l: Latching, steps: seq<Step>)
    requires Boot(s) && AllowedRun(s, l, steps) && AtDoor(Exec(s, l, steps).usb)
    ensures !Exec(s, l, steps).port.dev.ready <==> WithdrawnAtDoor(s, l, steps)
  {
    hide Next, Invariant, Allowed, AtDoor, WithdrawnBy;
    BootHolds(s);
    if !Exec(s, l, steps).port.dev.ready {
      assert !AtDoor(s.usb) by { BootIsNoDoor(s); }
      var before, w, rest := FindWithdrawal(s, l, steps);
    }
    if WithdrawnAtDoor(s, l, steps) {
      var before, w, rest :| steps == before + [w] + rest && WithdrawnBy(s, l, before, w, rest);
      WithdrawnStays(s, l, before, w, rest);
    }
  }

  lemma BootIsNoDoor(s: System)
    requires Boot(s)
    ensures !AtDoor(s.usb)
  {
  }

  lemma WithdrawnStays(s: System, l: Latching, before: seq<Step>, w: Step, rest: seq<Step>)
    requires Invariant(s) && AllowedRun(s, l, before + [w] + rest) && WithdrawnBy(s, l, before, w, rest)
    ensures !Exec(s, l, before + [w] + rest).port.dev.ready
  {
    hide Next, Invariant, Allowed, AtDoor;
    assert before + [w] + rest == before + ([w] + rest) && ([w] + rest)[1..] == rest;
    ExecAppend(s, l, before, [w] + rest);
    RunKeeps(s, l, before);
    StepKeeps(Exec(s, l, before), l, w);
    DoorStaysUnready(Next(Exec(s, l, before), l, w), l, rest);
  }

  // What ahci_reset_lun then clears is lost for good: nothing is queued in its place before the
  // next publication.
  lemma ResetDiscardsNotification(s: System, l: Latching, before: seq<Step>, step: Step, after: seq<Step>)
    requires Boot(s) && AllowedRun(s, l, before)
    requires var e := Exec(s, l, before);
             && Allowed(e, l, step) && Clears(e, step) && !e.port.dev.ready
             && UnpublishedRun(Next(e, l, step), l, after)
    ensures WithdrawnAtDoor(s, l, before)
    ensures var t := Next(Exec(s, l, before), l, step);
            t.port.dev.queued == 0 && Exec(t, l, after).port.dev.queued == 0
  {
    hide Exec, AllowedRun, UnpublishedRun, Boot, Next, Allowed, DeliveryInvariant, WithdrawnAtDoor, Silent;
    var e := Exec(s, l, before);
    BootDelivers(s);
    DeliveryRunKeeps(s, l, before);
    UnreadyAtDoor(s, l, before);
    ClearIsSilent(e, l, step);
    SilentRun(Next(e, l, step), l, after);
  }

  lemma ClearIsSilent(s: System, l: Latching, step: Step)
    requires DeliveryInvariant(s) && Allowed(s, l, step) && Clears(s, step) && !s.port.dev.ready
    ensures Silent(Next(s, l, step)) && Next(s, l, step).port.dev.queued == 0
  {
    StepKeeps(s, l, step);
    ClosedAtDoor(s.port);
    hide Invariant, ThreadInvariant, Racy;
  }

  lemma ClosedAtDoor(p: Port)
    requires ThreadInvariant(p, Lun(LunClear)) && !p.dev.ready && !p.hist.withdrawn
    ensures p.reg.ie == NONE && !p.vim.receiver
  {
  }

  // Media still ready at the recovery that follows is owed a callback again.
  lemma RecoveryOwes(s: System, l: Latching, o: Oracle, enables: Bits)
    requires s.usb == Lun(LunRecover)
    ensures OwesCallback(Next(s, l, UsbStep(o, enables)).usb) <==> s.port.dev.ready
  {
    hide Settle, AfterErrorWrite;
  }
}
