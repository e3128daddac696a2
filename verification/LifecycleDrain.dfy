// The drain barrier of ahci_service, and how many foreground passes discovery takes.
module LifecycleDrain {
  import opened PortModel
  import opened Lifecycle
  import opened LifecycleInvariant

  // From the last callback test of ahci_service to the write that closes PxIE.
  predicate Taking(pc: Pc) {
    (pc.Svc? && (pc.svc.TakeQuiesced? || pc.svc.TakeWait?))
    || (pc.Init? && Opening(pc.at) && pc.caller.FromService?)
  }

  predicate Drained(pc: Pc) {
    Taking(pc) || pc == Svc(Quiesce) || pc == Svc(StopList) || pc == Svc(Link)
  }

  predicate DrainThread(p: Port, pc: Pc) {
    && (p.req.pending && p.req.quiesced && pc != Svc(StopList) ==> !p.reg.started)
    && (Drained(pc) ==> p.dev.queued == 0)
    && (Taking(pc) ==> !p.reg.started)
    && (pc == Svc(Link) ==> p.req.quiesced)
    && (p.req.quiesced ==> p.req.pending || pc == Svc(TakeQuiesced) || pc == Hba(Flags))
    && (pc.Init? || pc.Lun? || pc.HostCommand? || (pc.Hba? && !pc.hba.Flags?) ==> !p.req.quiesced)
  }

  predicate DrainInvariant(s: System) {
    && Invariant(s)
    && DrainThread(s.port, Active(s))
    && (!s.usb.Rest? ==> !s.port.req.quiesced)
    && (Stale(s) ==> !s.port.req.quiesced)
  }

  // A handler that reads a closed mask never restarts the command list of, nor adds a callback
  // for, a port that waits for discovery; a request it makes itself starts unquiesced.
  predicate Undisturbed(p: Port, q: Port, mask: Bits) {
    && (!p.dev.ready && ConnectOnly(mask) && !p.vim.receiver ==>
          q.dev.queued == p.dev.queued && q.reg.started == p.reg.started)
    && (q.req.quiesced ==> p.req.quiesced && q.req.pending == p.req.pending)
    && (p.req.pending && p.req.quiesced ==> q.req.quiesced)
  }

  lemma TurnUndisturbed(p: Port, l: Latching, snapshot: Bits, mask: Bits, o: Oracle)
    ensures Undisturbed(p, IsrTurn(p, l, snapshot, mask, o), mask)
  {
  }

  lemma ReceiverUndisturbed(p: Port, l: Latching, r: ReceiverOracle)
    requires p.vim.receiver
    ensures Undisturbed(p, ReceiverError(p, l, r), p.reg.ie)
  {
  }

  lemma IsrDrains(p: Port, q: Port, mask: Bits, pc: Pc)
    requires ThreadInvariant(p, pc) && DrainThread(p, pc) && Undisturbed(p, q, mask)
    requires mask == p.reg.ie || (p.req.pending && !p.req.quiesced && !Serving(pc) && !Entering(pc))
    ensures DrainThread(Settle(q), pc) && DrainThread(q, pc)
  {
  }

  lemma ServiceDrains(p: Port, at: ServiceAt)
    requires ThreadInvariant(p, Svc(at)) && DrainThread(p, Svc(at))
    ensures var (q, next) := ServiceStep(p, at); DrainThread(Settle(q), next)
  {
  }

  // ahci_init_port never touches the quiesced flag, and no callback is queued nor the command
  // list restarted before it has closed PxIE.
  lemma InitDrains(p: Port, l: Latching, o: Oracle, pc: Pc)
    requires ThreadInvariant(p, pc) && DrainThread(p, pc) && pc.Init?
    ensures var (q, next) := InitStep(p, l, o, pc); DrainThread(Settle(q), next) && !q.req.quiesced
  {
    hide ThreadInvariant, EnterStep, IsolatedStep, PublishStep, DrainThread, Settle;
    if Opening(pc.at) {
      EnterDrains(p, pc);
    } else if Publishing(pc.at) {
      PublishDrains(p, pc);
    } else {
      IsolatedDrains(p, l, o, pc);
    }
  }

  lemma EnterDrains(p: Port, pc: Pc)
    requires DrainThread(p, pc) && pc.Init? && Opening(pc.at)
    ensures var (q, next) := EnterStep(p, pc); DrainThread(Settle(q), next) && !q.req.quiesced
  {
  }

  lemma PublishDrains(p: Port, pc: Pc)
    requires DrainThread(p, pc) && pc.Init? && Publishing(pc.at)
    ensures var (q, next) := PublishStep(p, pc); DrainThread(Settle(q), next) && !q.req.quiesced
  {
    var (q, next) := PublishStep(p, pc);
    assert !q.req.quiesced && !Drained(next) && next != Hba(Flags) by {
      hide DrainThread, Settle;
      assert !p.req.quiesced by { DrainUnquiesced(p, pc); }
    }
    hide PublishStep;
  }

  lemma DrainUnquiesced(p: Port, pc: Pc)
    requires DrainThread(p, pc) && pc.Init?
    ensures !p.req.quiesced
  {
  }

  lemma IsolatedDrains(p: Port, l: Latching, o: Oracle, pc: Pc)
    requires DrainThread(p, pc) && pc.Init? && !Opening(pc.at) && !Publishing(pc.at)
    ensures var (q, next) := IsolatedStep(p, l, o, pc); DrainThread(Settle(q), next) && !q.req.quiesced
  {
    var (q, next) := IsolatedStep(p, l, o, pc);
    assert q.req == p.req && next.Init? && !Opening(next.at) by {
      hide DrainThread, Settle;
    }
    hide IsolatedStep, DiscoverStep;
  }

  lemma HbaDrains(p: Port, o: Oracle, at: HbaAt)
    requires ThreadInvariant(p, Hba(at)) && DrainThread(p, Hba(at)) && (at.GlobalReset? ==> o.hbaOk)
    ensures var (q, next) := HbaStep(p, o, at); DrainThread(Settle(q), next) && !q.req.quiesced
  {
  }

  lemma LunDrains(p: Port, l: Latching, o: Oracle, at: LunAt)
    requires ThreadInvariant(p, Lun(at)) && DrainThread(p, Lun(at))
    ensures var (q, next) := LunStep(p, l, o, at); DrainThread(Settle(q), next) && !q.req.quiesced
  {
  }

  // Host and foreground operations that can only withdraw readiness and request discovery.
  lemma RequestDrains(p: Port, l: Latching, resetPort: bool, enables: Bits, pc: Pc)
    requires DrainThread(p, pc) && (pc.Rest? || pc.CbExecute? || pc.HostCommand?)
    ensures var q := RecoverLocal(p, l, resetPort); DrainThread(Settle(q), pc) && DrainThread(Settle(q), Rest)
    ensures DrainThread(Settle(Session(p, enables)), pc)
    ensures pc.HostCommand? ==> !RecoverLocal(p, l, resetPort).req.quiesced && !Session(p, enables).req.quiesced
  {
  }

  lemma RestDrains(p: Port, l: Latching, o: Oracle, enables: Bits)
    requires DrainThread(p, Rest)
    ensures var (q, next) := Dispatch(p, l, o, enables); DrainThread(Settle(q), next)
  {
    hide Session, RecoverLocal;
    RequestDrains(p, l, o.resetNeeded, enables, Rest);
  }

  lemma LoopDrains(p: Port, l: Latching, o: Oracle, enables: Bits, pc: Pc)
    requires ThreadInvariant(p, pc) && DrainThread(p, pc)
    requires !pc.Init? && !pc.Svc? && !pc.Hba? && !pc.Lun?
    ensures var (q, next) := Advance(p, l, o, enables, pc);
            DrainThread(Settle(q), next) && (pc.HostCommand? ==> !q.req.quiesced)
  {
    hide ThreadInvariant, Dispatch, Session, RecoverLocal;
    if pc.Rest? {
      RestDrains(p, l, o, enables);
    } else if pc.CbExecute? || pc.HostCommand? {
      RequestDrains(p, l, o.resetNeeded, enables, pc);
      RequestDrains(p, l, false, enables, pc);
    }
  }

  lemma AdvanceDrains(p: Port, l: Latching, o: Oracle, enables: Bits, pc: Pc)
    requires ThreadInvariant(p, pc) && DrainThread(p, pc) && (pc == Hba(GlobalReset) ==> o.hbaOk)
    ensures var (q, next) := Advance(p, l, o, enables, pc); DrainThread(Settle(q), next)
    ensures !pc.Rest? && !pc.Svc? && !pc.CbExecute? && !pc.CbUnmask? && !pc.CbClear? && !pc.InsertedUnmask?
            ==> !Advance(p, l, o, enables, pc).0.req.quiesced
  {
    hide ThreadInvariant, DrainThread, InitStep, ServiceStep, HbaStep, LunStep, Dispatch, Settle, RecoverLocal, Session;
    match pc
    case Svc(at) => ServiceDrains(p, at);
    case Hba(at) => HbaDrains(p, o, at);
    case Init(_, _, _, _) => InitDrains(p, l, o, pc);
    case Lun(at) => LunDrains(p, l, o, at);
    case _ => LoopDrains(p, l, o, enables, pc);
  }

  lemma RestingUsbDrains(p: Port, main: Pc)
    requires DrainThread(p, Rest) && UsbCanPreempt(main) && !p.req.quiesced
    ensures DrainThread(p, main)
  {
  }

  lemma DrainStepKeeps(s: System, l: Latching, step: Step)
    requires DrainInvariant(s) && Allowed(s, l, step)
    ensures DrainInvariant(Next(s, l, step))
  {
    StepKeeps(s, l, step);
    match step
    case Hardware(_, _, _) => hide Invariant;
    case ControllerEnter => hide Invariant;
    case ControllerMask => hide Invariant;
    case ControllerTurn(o) =>
      TurnUndisturbed(s.port, l, s.isr.snapshot, s.isr.mask, o);
      IsrDrains(s.port, IsrTurn(s.port, l, s.isr.snapshot, s.isr.mask, o), s.isr.mask, Active(s));
      hide Invariant, IsrTurn;
    case ReceiverErrorIsr(r) =>
      ReceiverUndisturbed(s.port, l, r);
      IsrDrains(s.port, ReceiverError(s.port, l, r), s.port.reg.ie, Active(s));
      hide Invariant, ReceiverError;
    case UsbEnter(_) =>
      assert s.port.dev.ready ==> !s.port.req.pending && UsbCanPreempt(Next(s, l, step).main);
      hide Invariant;
    case UsbStep(o, enables) =>
      AdvanceDrains(s.port, l, o, enables, s.usb);
      if Advance(s.port, l, o, enables, s.usb).1.Rest? {
        RestingUsbDrains(Settle(Advance(s.port, l, o, enables, s.usb).0), s.main);
      }
      hide Invariant, Advance, DrainThread;
    case MainStep(o, enables) =>
      AdvanceDrains(s.port, l, o, enables, s.main);
      hide Invariant, Advance, DrainThread;
  }

  lemma {:induction false} DrainRunKeeps(s: System, l: Latching, steps: seq<Step>)
    requires DrainInvariant(s) && AllowedRun(s, l, steps)
    ensures DrainInvariant(Exec(s, l, steps))
    decreases |steps|
  {
    hide Next, DrainInvariant, Allowed;
    if steps != [] {
      DrainStepKeeps(s, l, steps[0]);
      DrainRunKeeps(Next(s, l, steps[0]), l, steps[1..]);
    }
  }

  // In every run from power-up, ahci_service enters ahci_init_port only with an empty callback
  // queue and a stopped command list, and both are still so when the port is isolated.
  lemma DrainBarrier(s: System, l: Latching, steps: seq<Step>)
    requires Boot(s) && !s.port.req.quiesced && AllowedRun(s, l, steps)
    ensures var e := Exec(s, l, steps);
            Taking(e.main) ==> e.port.dev.queued == 0 && !e.port.reg.started
  {
    BootHolds(s);
    assert DrainInvariant(s);
    DrainRunKeeps(s, l, steps);
    var e := Exec(s, l, steps);
    if Taking(e.main) {
      assert e.usb.Rest?;
    }
    hide Exec, AllowedRun, Boot, ThreadInvariant;
  }

  // --- Progress: nothing but the foreground loop runs ---

  function Foreground(s: System, l: Latching, o: Oracle, enables: Bits): System {
    Next(s, l, MainStep(o, enables))
  }

  // Inside one call of ahci_service.
  predicate InService(pc: Pc) {
    pc.Svc? && !pc.svc.Counted?
  }

  function Remaining(pc: Pc): nat {
    if !InService(pc) then 0 else
    match pc.svc
    case Wait => 6
    case Drain => 5
    case Quiesce => 4
    case StopList => 3
    case Link => 3
    case TakeQuiesced => 2
    case _ => 1
  }

  // One call of ahci_service, up to its return or its call of ahci_init_port.
  function Serve(s: System, l: Latching): System
    decreases Remaining(s.main)
  {
    if InService(s.main) then Serve(Foreground(s, l, NO_ORACLE, NONE), l) else s
  }

  // What a callback does: any sequence of local recoveries and polled command sessions.
  datatype Work = Work(o: Oracle, enables: Bits)

  function RunCallback(s: System, l: Latching, works: seq<Work>): System
    decreases |works|
  {
    if works == [] || works[0].o.choice == 0 then s
    else RunCallback(Foreground(s, l, works[0].o, works[0].enables), l, works[1..])
  }

  function Consume(s: System, l: Latching, works: seq<Work>): System {
    var t := Foreground(s, l, NO_ORACLE.(choice := 1), NONE);
    if !t.main.CbExecute? then t else
    var done := RunCallback(t, l, works);
    Foreground(Foreground(Foreground(done, l, NO_ORACLE, NONE), l, NO_ORACLE, NONE), l, NO_ORACLE, NONE)
  }

  // One pass of the loop of main(), cut short where ahci_init_port is called.
  function Pass(s: System, l: Latching, works: seq<Work>): System {
    var t := Serve(Foreground(s, l, NO_ORACLE, NONE), l);
    if t.main.Init? then t else Consume(t, l, works)
  }

  // How many of the given passes end before ahci_init_port is called.
  function PassesBefore(s: System, l: Latching, passes: seq<seq<Work>>): nat
    decreases |passes|
  {
    if passes == [] then 0
    else
      var t := Pass(s, l, passes[0]);
      if t.main.Init? then 0 else 1 + PassesBefore(t, l, passes[1..])
  }

  // Discovery waits, PHY ready is steady, no handler and no USB activity is in progress.
  predicate Waiting(s: System, queued: nat, quiesced: bool) {
    && s.usb.Rest? && s.isr.IsrIdle?
    && s.port.req.pending && s.port.req.quiesced == quiesced
    && s.port.dev.queued == queued && s.port.reg.det == DET_PHY_READY
  }

  lemma ServeWaits(s: System, l: Latching, queued: nat, quiesced: bool)
    requires Waiting(s, queued, quiesced) && s.main == Svc(Wait)
    ensures var t := Serve(s, l);
            if queued == 0 && quiesced then t.main == Init(Withdraw, FromService, 0, true)
            else t.main == Rest && Waiting(t, queued, queued == 0 || quiesced)
  {
    var s1 := Foreground(s, l, NO_ORACLE, NONE);
    assert Serve(s, l) == Serve(s1, l);
    if queued == 0 || !s.port.req.waitCallbacks {
      assert Waiting(s1, queued, quiesced) && s1.main == Svc(Drain);
      ServeDrains(s1, l, queued, quiesced);
    }
  }

  lemma ServeDrains(s: System, l: Latching, queued: nat, quiesced: bool)
    requires Waiting(s, queued, quiesced) && s.main == Svc(Drain)
    ensures var t := Serve(s, l);
            if queued == 0 && quiesced then t.main == Init(Withdraw, FromService, 0, true)
            else t.main == Rest && Waiting(t, queued, queued == 0 || quiesced)
  {
    var s1 := Foreground(s, l, NO_ORACLE, NONE);
    if queued == 0 {
      var s2 := Foreground(s1, l, NO_ORACLE, NONE);
      assert Serve(s, l) == Serve(s1, l) == Serve(s2, l);
      var s3 := Foreground(s2, l, NO_ORACLE, NONE);
      assert Serve(s2, l) == Serve(s3, l);
      if quiesced {
        var s4 := Foreground(s3, l, NO_ORACLE, NONE);
        assert s3.main == Svc(TakeQuiesced) && s4.main == Svc(TakeWait);
        assert Serve(s3, l) == Serve(s4, l) == Foreground(s4, l, NO_ORACLE, NONE);
      }
    }
  }

  lemma {:induction false} CallbackWaits(s: System, l: Latching, works: seq<Work>, queued: nat, quiesced: bool)
    requires Waiting(s, queued, quiesced) && s.main.CbExecute?
    ensures var t := RunCallback(s, l, works); Waiting(t, queued, quiesced) && t.main.CbExecute?
    decreases |works|
  {
    if works != [] && works[0].o.choice != 0 {
      var t := Foreground(s, l, works[0].o, works[0].enables);
      assert Waiting(t, queued, quiesced) && t.main.CbExecute?;
      CallbackWaits(t, l, works[1..], queued, quiesced);
    }
  }

  lemma ConsumeEnds(s: System, l: Latching, queued: nat, quiesced: bool)
    requires Waiting(s, queued, quiesced) && s.main.CbExecute? && queued > 0
    ensures var t := Foreground(Foreground(Foreground(s, l, NO_ORACLE, NONE), l, NO_ORACLE, NONE), l, NO_ORACLE, NONE);
            t.main.Rest? && Waiting(t, queued - 1, quiesced)
  {
    hide InitStep, ServiceStep, HbaStep, LunStep, Dispatch, RecoverLocal, Session, Both;
  }

  lemma ConsumeWaits(s: System, l: Latching, works: seq<Work>, queued: nat, quiesced: bool)
    requires Waiting(s, queued, quiesced) && s.main.Rest?
    ensures var t := Consume(s, l, works);
            t.main.Rest? && Waiting(t, if queued == 0 then 0 else queued - 1, quiesced)
  {
    hide InitStep, ServiceStep, HbaStep, LunStep, RunCallback, Both, Session, MediaInserted;
    var t := Foreground(s, l, NO_ORACLE.(choice := 1), NONE);
    if queued != 0 {
      CallbackWaits(t, l, works, queued, quiesced);
      ConsumeEnds(RunCallback(t, l, works), l, queued, quiesced);
    }
  }

  // Exactly the queued callbacks and, unless the list is already stopped, one stopping pass
  // come first: with k callbacks ahci_init_port is called in pass k + 1 or k + 2.
  lemma {:induction false} DiscoveryProgress(s: System, l: Latching, passes: seq<seq<Work>>, queued: nat,
      quiesced: bool)
    requires Waiting(s, queued, quiesced) && s.main.Rest?
    requires |passes| > queued + Count(!quiesced)
    ensures PassesBefore(s, l, passes) == queued + Count(!quiesced)
    decreases |passes|
  {
    var t := Foreground(s, l, NO_ORACLE, NONE);
    assert t.main == Svc(Wait) && Waiting(t, queued, quiesced);
    ServeWaits(t, l, queued, quiesced);
    if queued != 0 || !quiesced {
      var u := Serve(t, l);
      var stopped := queued == 0 || quiesced;
      ConsumeWaits(u, l, passes[0], queued, stopped);
      var v := Consume(u, l, passes[0]);
      assert v == Pass(s, l, passes[0]);
      hide Serve, Consume, Foreground;
      DiscoveryProgress(v, l, passes[1..], if queued == 0 then 0 else queued - 1, stopped);
    }
  }
}
