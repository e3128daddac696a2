// Where the code leaves an unready port open although no request was being taken over, and
// where the controller handler cannot return.  Each with the condition that decides it.
module LifecycleLimits {
  import opened PortModel
  import opened Lifecycle
  import opened LifecycleInvariant
  import opened LifecycleRaces

  // --- The last PxIE write of ahci_reset_lun ---

  predicate HandlerRun(s: System, l: Latching, steps: seq<Step>)
    decreases |steps|
  {
    steps == [] ||
    (!steps[0].UsbEnter? && !steps[0].UsbStep? && !steps[0].MainStep? && Possible(s, l, steps[0])
     && HandlerRun(Next(s, l, steps[0]), l, steps[1..]))
  }

  // SATA handlers run, then ahci_reset_lun performs its PxIE write: the port ends up unready
  // with every interrupt enabled.
  ghost predicate CanOpenUnready(s: System, l: Latching) {
    exists steps, o ::
      var t := Exec(s, l, steps);
      && HandlerRun(s, l, steps) && Possible(t, l, UsbStep(o, NONE))
      && !Next(t, l, UsbStep(o, NONE)).port.dev.ready
      && Next(t, l, UsbStep(o, NONE)).port.reg.ie == DEFAULT_INTR_ENABLE
  }

  lemma {:induction false} HandlersLeaveWrite(s: System, l: Latching, steps: seq<Step>)
    requires HandlerRun(s, l, steps)
    ensures Exec(s, l, steps).usb == s.usb
    decreases |steps|
  {
    hide IsrTurn, ReceiverError, Settle;
    if steps != [] {
      HandlersLeaveWrite(Next(s, l, steps[0]), l, steps[1..]);
    }
  }

  lemma WritesClosed(s: System, l: Latching)
    requires s.usb == Lun(LunWrite(NONE))
    ensures !CanOpenUnready(s, l)
  {
    forall steps, o | HandlerRun(s, l, steps) && Possible(Exec(s, l, steps), l, UsbStep(o, NONE))
      ensures Next(Exec(s, l, steps), l, UsbStep(o, NONE)).port.reg.ie == NONE
    {
      HandlersLeaveWrite(s, l, steps);
      hide Exec, HandlerRun, Settle;
    }
  }

  // The sample of bDeviceInitComplete and the PxIE write are two accesses.  Ready media has its
  // receiver-error source open, so exactly a sample of ready media lets that handler withdraw
  // the medium between them.
  lemma LunArmingRace(s: System, l: Latching)
    requires Invariant(s) && s.usb.Lun? && s.usb.lun.LunWrite? && s.isr.IsrIdle?
    ensures CanOpenUnready(s, l) <==> s.usb.lun.enables != NONE
  {
    if s.usb.lun.enables != NONE {
      assert LunArming(s.usb) && s.port.vim.receiver;
      var fault := ReceiverErrorIsr(ReceiverOracle(1, true, false, false, false));
      var write := UsbStep(ALL_WELL, NONE);
      var t := Next(s, l, fault);
      assert !Reinitializing(s.main);
      assert t == Exec(s, l, [fault]) && HandlerRun(s, l, [fault]) by {
        assert [fault][1..] == [];
        assert HandlerRun(t, l, []) && Exec(t, l, []) == t;
      }
      assert Possible(t, l, write) && !t.port.dev.ready;
    } else {
      WritesClosed(s, l);
    }
    hide CanOpenUnready;
  }

  // --- ahci_init when the HBA reset times out ---

  // ahci_reset_lun finds the device busy and calls ahci_init, which stops after a reset that
  // did not complete: readiness is gone, PxIE is not.
  lemma HbaTimeout(s: System, l: Latching, o: Oracle)
    requires s.usb == Lun(LunBusy) && s.isr.IsrIdle?
    requires s.port.dev.ready && !s.port.req.pending && s.port.dev.count > 0 && o.resetNeeded
    ensures var e := Exec(s, l, [UsbStep(o, NONE), UsbStep(o, NONE), UsbStep(o, NONE)]).port;
            && !e.dev.ready && !e.req.pending && e.vim == s.port.vim
            && (ConnectOnly(e.reg.ie) <==> o.hbaOk || ConnectOnly(s.port.reg.ie))
  {
    var step := UsbStep(o, NONE);
    var s1 := Next(s, l, step);
    var s2 := Next(s1, l, step);
    assert s1.usb == Hba(Flags) && s2.usb == Hba(GlobalReset);
    assert [step, step, step][1..] == [step, step] && [step, step][1..] == [step] && [step][1..] == [];
    assert Exec(s, l, [step, step, step]) == Exec(s1, l, [step, step]) == Exec(s2, l, [step]) == Next(s2, l, step);
  }

  // --- rdx_hardware_teardown_eject_media ---

  // Unready media whose receiver-error source is still open.
  predicate Gap(s: System) {
    s.port.hist.withdrawn && s.port.vim.receiver
  }

  // In every run from power-up, teardown of ready media leaves its receiver-error source open.
  lemma TeardownOpens(s: System, l: Latching, steps: seq<Step>, o: Oracle)
    requires Boot(s) && AllowedRun(s, l, steps)
    requires var e := Exec(s, l, steps); e.port.dev.ready && e.main.Rest? && e.usb.Rest? && e.isr.IsrIdle?
    requires o.choice == 3
    ensures var e := Exec(s, l, steps); var t := Next(e, l, MainStep(o, NONE));
            Allowed(e, l, MainStep(o, NONE)) && Gap(t) && !t.port.dev.ready && t.port.reg.ie == e.port.reg.ie
  {
    BootHolds(s);
    RunKeeps(s, l, steps);
    hide Exec, AllowedRun, Boot;
  }

  // Where the foreground can be while the gap is open.
  predicate Idling(pc: Pc) {
    pc.Rest? || pc.CbExecute? || pc.CbUnmask? || pc.CbClear?
  }

  // A handler that requests discovery, an insertion, a polled command session or a recovery
  // of a local command.
  predicate Closing(s: System, l: Latching, step: Step) {
    || ((step.ControllerTurn? || step.ReceiverErrorIsr?) && Next(s, l, step).port.req.pending)
    || (step.MainStep? && s.main.Rest? && step.o.choice != 0 && step.o.choice != 1 && step.o.choice != 3)
    || (step.MainStep? && s.main.CbExecute? && step.o.choice != 0)
  }

  lemma GapMain(s: System, l: Latching, step: Step)
    requires Invariant(s) && Gap(s) && s.usb.Rest? && Idling(s.main) && step.MainStep?
    ensures var t := Next(s, l, step);
            && (Gap(t) <==> !Closing(s, l, step))
            && (Gap(t) ==> Idling(t.main) && !t.port.dev.ready && t.port.reg.ie == s.port.reg.ie)
            && (!Gap(t) ==> !t.port.dev.ready && ConnectOnly(t.port.reg.ie) && !t.port.vim.receiver)
  {
    hide Session, RecoverLocal, MediaInserted, Both, InitStep, ServiceStep, HbaStep, LunStep, AfterErrorWrite;
    assert !s.port.dev.ready;
    SessionCloses(s.port, step.enables);
    RequestCloses(s.port, l, step.o.resetNeeded);
  }

  // The gap lasts until exactly one of these, and any of them closes the port.
  lemma TeardownLasts(s: System, l: Latching, step: Step)
    requires Invariant(s) && Gap(s) && s.usb.Rest? && Idling(s.main) && Allowed(s, l, step)
    ensures var t := Next(s, l, step);
            && t.usb.Rest? && (Gap(t) <==> !Closing(s, l, step))
            && (Gap(t) ==> Idling(t.main) && !t.port.dev.ready && t.port.reg.ie == s.port.reg.ie)
            && (!Gap(t) ==> !t.port.dev.ready && ConnectOnly(t.port.reg.ie) && !t.port.vim.receiver)
  {
    hide IsrTurn, ReceiverError, Advance, Racy;
    match step
    case ControllerTurn(o) => TurnEffect(s.port, l, s.isr.snapshot, s.isr.mask, o);
    case ReceiverErrorIsr(r) => ReceiverEffect(s.port, l, r);
    case MainStep(o, enables) => GapMain(s, l, step);
    case _ =>
  }

  lemma RequestCloses(p: Port, l: Latching, resetPort: bool)
    requires !p.dev.ready
    ensures var q := RecoverLocal(p, l, resetPort);
            !q.dev.ready && q.reg.ie == NONE && !q.vim.receiver && !q.hist.withdrawn
    ensures var q := MediaInserted(p);
            !q.dev.ready && q.reg.ie == NONE && !q.vim.receiver && !q.hist.withdrawn
  {
  }

  lemma SessionCloses(p: Port, enables: Bits)
    requires !p.dev.ready
    ensures var q := Session(p, enables);
            !q.dev.ready && q.reg.ie == NONE && !q.vim.receiver && q.hist == p.hist && q.dev == p.dev
  {
  }

  // --- The re-check loop of ahci_isr ---

  function Turns(s: System, l: Latching, os: seq<Oracle>): System
    decreases |os|
  {
    if os == [] then s else Turns(Next(Next(s, l, ControllerMask), l, ControllerTurn(os[0])), l, os[1..])
  }

  // Inside the loop with every port interrupt disabled, as after a request for discovery.
  predicate Rechecking(s: System) {
    s.isr.IsrLoop? && s.port.reg.ie == NONE && s.isr.snapshot == s.port.reg.status != NONE
  }

  lemma RecheckTurn(s: System, l: Latching, o: Oracle)
    requires Rechecking(s)
    ensures var t := Next(Next(s, l, ControllerMask), l, ControllerTurn(o));
            && (t.isr.IsrIdle? <==> l.Latch? || !Changed(s.port))
            && (!t.isr.IsrIdle? ==> Rechecking(t) && Changed(t.port))
  {
    hide LinkChange, FatalRecovery;
    var cleared := AfterStatusWrite(s.port.reg.status, l, s.isr.snapshot);
    assert Both(s.isr.snapshot, NONE) == NONE;
    assert IsrTurn(s.port, l, s.isr.snapshot, NONE, o).reg.status == cleared;
  }

  // With no further event the loop ends after one turn, or never: it never ends exactly when
  // a connect change is latched and PxIS.PCS reflects PxSERR, which this loop does not clear.
  lemma {:induction false} RecheckLoop(s: System, l: Latching, os: seq<Oracle>)
    requires Rechecking(s) && os != []
    ensures !Turns(s, l, os).isr.IsrIdle? <==> l.Reflect? && Changed(s.port)
    decreases |os|
  {
    hide Next, Rechecking;
    var t := Next(Next(s, l, ControllerMask), l, ControllerTurn(os[0]));
    RecheckTurn(s, l, os[0]);
    if t.isr.IsrIdle? {
      IdleTurns(t, l, os[1..]);
    } else if os[1..] != [] {
      RecheckLoop(t, l, os[1..]);
    } else {
      assert Turns(s, l, os) == t;
    }
  }

  lemma {:induction false} IdleTurns(s: System, l: Latching, os: seq<Oracle>)
    requires s.isr.IsrIdle?
    ensures Turns(s, l, os) == s
    decreases |os|
  {
    if os != [] {
      IdleTurns(s, l, os[1..]);
    }
  }
}
