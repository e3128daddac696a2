// What every reachable state of the lifecycle satisfies.
module LifecycleInvariant {
  import opened PortModel
  import opened Lifecycle

  // Power-up: VIM_init has opened every source, ata_dev is zero, PxIE holds its reset value.
  predicate Boot(s: System) {
    var p := s.port;
    && s.main == Hba(Flags) && s.usb == Rest && s.isr == IsrIdle
    && !p.dev.ready && p.dev.queued == 0 && !p.req.pending
    && p.reg.ie == NONE && !p.reg.ips && p.vim == Sources(true, true, true)
    && !p.hist.withdrawn && !p.hist.dropped
  }

  // Discovery was taken over (ahci_service or ahci_init cleared the request) but the port
  // is not isolated yet.
  predicate Entering(pc: Pc) {
    || (pc.Svc? && (pc.svc.TakeQuiesced? || pc.svc.TakeWait?))
    || (pc.Hba? && pc.hba.GlobalReset?)
    || (pc.Init? && Opening(pc.at))
  }

  // From PxIE := 0 up to the publication decision; `Sealed` once the interrupt latch is clear too.
  predicate Isolated(pc: Pc) {
    pc.Init? && !Opening(pc.at) && (Publishing(pc.at) ==> pc.at.MaskAll? || pc.at.Publish?)
  }

  predicate Sealed(pc: Pc) {
    Isolated(pc) && !pc.at.Baseline?
  }

  // ahci_service past its first test, with the request still standing.
  predicate Serving(pc: Pc) {
    pc.Svc? && !Entering(pc) && !pc.svc.Counted?
  }

  // ahci_init before it has isolated the port: the only place where an unready port may
  // still have its receiver-error source or completion interrupts open.
  predicate Reinitializing(pc: Pc) {
    (pc.Hba? && (pc.hba.Flags? || pc.hba.GlobalReset?)) || (Entering(pc) && pc.Init? && pc.caller.FromHbaInit?)
  }

  // ahci_reset_lun while PxIE is closed.
  predicate LunClosed(pc: Pc) {
    pc.Lun? && !pc.lun.LunMask? && !pc.lun.LunBusy?
  }

  // ahci_reset_lun has reset the port of ready media and is about to request discovery.
  predicate LunLosing(pc: Pc) {
    pc.Lun? && pc.lun.LunSchedule? && pc.lun.was && pc.lun.reset
  }

  // ahci_reset_lun has sampled ready media and is about to write PxIE.
  predicate LunArming(pc: Pc) {
    pc.Lun? && pc.lun.LunWrite? && pc.lun.enables != NONE
  }

  // A SATA handler requests discovery while another level has taken a request over without
  // isolating the port yet, or has sampled readiness for the PxIE write that ends ahci_reset_lun.
  predicate Racy(s: System, l: Latching, step: Step) {
    && (step.ControllerTurn? || step.ReceiverErrorIsr?)
    && !s.port.req.pending && Next(s, l, step).port.req.pending
    && (Entering(s.main) || Entering(s.usb) || LunArming(s.usb))
  }

  // Assumptions of the code: the HBA reset completes, no reset clears the callback ring between
  // the consumer's USB unmask and its index increment, and the mechanism does not move before
  // the ahci_init call of main() has isolated the port.
  predicate Assumed(s: System, step: Step) {
    && (step.ReceiverErrorIsr? && Reinitializing(s.main) ==> !step.r.motion)
    && (step.MainStep? && s.main == Hba(GlobalReset) ==> step.o.hbaOk)
    && (step.UsbStep? && s.usb == Hba(GlobalReset) ==> step.o.hbaOk)
    && (step.UsbStep? && s.usb == Lun(LunClear) ==> !s.main.CbClear?)
  }

  predicate Allowed(s: System, l: Latching, step: Step) {
    Enabled(s, step) && Assumed(s, step) && !Racy(s, l, step)
  }

  predicate ConnectOnly(enables: Bits) {
    enables == NONE.(connect := enables.connect)
  }

  // The three lifecycle claims about a port whose active thread is at `pc`, with the windows
  // in which that thread has not closed the port yet.
  predicate PendingMeansUnready(p: Port) {
    p.req.pending ==> !p.dev.ready
  }

  predicate UnreadyMeansIsolated(p: Port, pc: Pc) {
    !p.dev.ready && !p.hist.withdrawn && !Reinitializing(pc) ==> ConnectOnly(p.reg.ie)
  }

  predicate ReceiverOpenMeansReady(p: Port, pc: Pc) {
    p.vim.receiver && !p.hist.withdrawn && !Reinitializing(pc) && !LunLosing(pc) ==> p.dev.ready
  }

  predicate ReadyMeansReceiverOpen(p: Port, pc: Pc) {
    p.dev.ready && !(pc.Init? && pc.at.UnmaskSata?) ==> p.vim.receiver
  }

  // Only the publication window masks the AHCI source.
  predicate ControllerOpen(p: Port, pc: Pc) {
    p.vim.controller || (pc.Init? && (pc.at.Publish? || pc.at.UnmaskSata?))
  }

  // What a thread relies on at each statement of ahci_init_port.
  predicate InitInvariant(p: Port, pc: Pc)
    requires pc.Init?
  {
    && (Entering(pc) && !pc.at.Withdraw? ==> !p.dev.ready)
    && (Reinitializing(pc) ==> p.reg.ie == NONE)
    && (pc.at.MaskPort? ==> !p.vim.receiver)
    && (Isolated(pc) ==> !p.dev.ready && !p.req.pending && !p.hist.withdrawn && p.reg.ie == NONE && !p.vim.receiver)
    && (Sealed(pc) ==> !p.reg.ips)
    && (pc.at.MaskAll? ==> pc.ok)
    && (pc.at.Publish? ==> p.vim == Sources(false, false, false) && pc.ok)
    && (pc.at.UnmaskSata? ==>
          && p.vim == Sources(false, false, false) && !p.hist.withdrawn
          && (pc.ok <==> p.dev.ready) && (pc.ok <==> !p.req.pending))
    && (pc.at.UnmaskUsb? ==> !p.vim.usb)
    && ((pc.at.UnmaskSata? || pc.at.UnmaskUsb? || pc.at.Conclude?) && !pc.ok ==>
          !p.dev.ready && !p.vim.receiver && p.reg.ie == NONE && !p.hist.withdrawn)
  }

  predicate PcInvariant(p: Port, pc: Pc) {
    && (Serving(pc) ==> p.req.pending)
    && (Entering(pc) ==> !p.req.pending)
    && (Entering(pc) && !Reinitializing(pc) ==> !p.dev.ready && ConnectOnly(p.reg.ie) && !p.vim.receiver)
    && (pc.Init? ==> InitInvariant(p, pc))
    && (pc.Hba? && pc.hba.Tail? && !pc.hba.ok ==>
          !p.dev.ready && !p.vim.receiver && ConnectOnly(p.reg.ie) && !p.hist.withdrawn)
    && (pc == Hba(TailQuiesced) ==> !p.dev.ready && !p.vim.receiver)
    && (pc.CbExecute? || pc.CbUnmask? || pc.InsertedUnmask? ==> !p.vim.usb)
    && (LunClosed(pc) ==> p.reg.ie == NONE)
    && (LunArming(pc) ==> p.dev.ready && pc.lun.enables == DEFAULT_INTR_ENABLE)
  }

  predicate ThreadInvariant(p: Port, pc: Pc) {
    && PendingMeansUnready(p) && UnreadyMeansIsolated(p, pc)
    && ReceiverOpenMeansReady(p, pc) && ReadyMeansReceiverOpen(p, pc) && ControllerOpen(p, pc)
    && (p.req.pending ==> ConnectOnly(p.reg.ie) && !p.vim.receiver)
    && (p.hist.withdrawn ==> !p.dev.ready && !p.req.pending)
    && PcInvariant(p, pc)
  }

  // Foreground positions over which a USB handler that found ready media can be running.
  predicate UsbCanPreempt(main: Pc) {
    || main.Rest? || main.CbClear? || (main.Svc? && main.svc.Counted?)
    || (main.Hba? && main.hba.Tail? && main.hba.ok) || (main.Init? && main.at.Conclude? && main.ok)
  }

  // Here the controller handler cannot be active.
  predicate NoController(pc: Pc) {
    Sealed(pc) || (pc.Init? && pc.at.UnmaskSata?)
  }

  predicate Levels(s: System) {
    && !s.main.Lun? && !s.main.HostCommand?
    && (s.usb.Rest? || s.usb.HostCommand? || s.usb.Lun? || s.usb.Hba? || (s.usb.Init? && s.usb.caller.FromHbaInit?))
    && (!s.usb.Rest? ==> UsbCanPreempt(s.main))
    && (NoController(s.main) || NoController(s.usb) ==> s.isr.IsrIdle?)
  }

  // The thread that runs when no SATA handler does.
  function Active(s: System): Pc {
    if s.usb.Rest? then s.main else s.usb
  }

  // The receiver-error handler closed PxIE after ahci_isr had read it.
  predicate Stale(s: System) {
    s.isr.IsrDispatch? && s.isr.mask != s.port.reg.ie
  }

  predicate Invariant(s: System) {
    && Levels(s)
    && (Stale(s) ==> s.port.req.pending && !Serving(Active(s)) && !Entering(Active(s)))
    && ThreadInvariant(s.port, Active(s))
    && (Reinitializing(s.main) ==> !s.port.dev.ready)
  }

  lemma BootHolds(s: System)
    requires Boot(s)
    ensures Invariant(s)
  {
  }

  // A handler run either leaves all lifecycle fields alone or ends in a fresh request.
  predicate Quiet(p: Port, q: Port) {
    && q.dev.ready == p.dev.ready && q.req.pending == p.req.pending && q.hist.withdrawn == p.hist.withdrawn
    && q.reg.ie == p.reg.ie && q.vim == p.vim
  }

  predicate Requested(p: Port, q: Port) {
    && q.req.pending && !q.dev.ready && !q.hist.withdrawn && q.reg.ie == NONE
    && q.vim == p.vim.(receiver := false)
  }

  lemma PortIntrEffect(p: Port, l: Latching, bits: Bits, o: Oracle)
    ensures var q := PortIntr(p, l, bits, o);
            (Quiet(p, q) || Requested(p, q)) && (bits == NONE ==> Quiet(p, q))
  {
  }

  lemma TurnEffect(p: Port, l: Latching, snapshot: Bits, mask: Bits, o: Oracle)
    ensures var q := IsrTurn(p, l, snapshot, mask, o);
            (Quiet(p, q) || Requested(p, q)) && (mask == NONE ==> Quiet(p, q))
  {
    hide PortIntr;
    PortIntrEffect(p.(reg := p.reg.(status := AfterStatusWrite(p.reg.status, l, snapshot))), l,
                   Both(snapshot, mask), o);
  }

  lemma ReceiverEffect(p: Port, l: Latching, r: ReceiverOracle)
    ensures var q := ReceiverError(p, l, r); Quiet(p, q) || Requested(p, q)
  {
  }

  lemma QuietThread(p: Port, q: Port, pc: Pc)
    requires ThreadInvariant(p, pc) && Quiet(p, q) && (Sealed(pc) ==> q.reg.ips == p.reg.ips)
    ensures ThreadInvariant(Settle(q), pc)
  {
    assert Sealed(pc) ==> Settle(q).reg.ips == p.reg.ips;
    hide ConnectOnly;
    assert q.vim == p.vim && Settle(q).dev == q.dev;
  }

  lemma RequestThread(p: Port, q: Port, pc: Pc)
    requires ThreadInvariant(p, pc) && Requested(p, q)
    requires !p.req.pending ==>
               !Entering(pc) && !LunArming(pc) && !Isolated(pc) && !(pc.Init? && pc.at.UnmaskSata?)
    ensures ThreadInvariant(Settle(q), pc)
  {
  }

  lemma HardwareKeeps(s: System, l: Latching, step: Step)
    requires Invariant(s) && Allowed(s, l, step) && step.Hardware?
    ensures Invariant(Next(s, l, step))
  {
    hide ThreadInvariant;
    var p := s.port;
    QuietThread(p, p.(
        reg := p.reg.(status := Either(p.reg.status, step.bits), det := step.det),
        usbConfigured := step.usbConfigured,
        hist := p.hist.(changes := p.hist.changes + Count(step.bits.connect))), Active(s));
  }

  lemma ControllerKeeps(s: System, l: Latching, step: Step)
    requires Invariant(s) && Allowed(s, l, step)
    requires step.ControllerEnter? || step.ControllerMask? || step.ControllerTurn?
    ensures Invariant(Next(s, l, step))
  {
    if step.ControllerTurn? {
      var p := IsrTurn(s.port, l, s.isr.snapshot, s.isr.mask, step.o);
      var q := if p.reg.status == NONE then p.(reg := p.reg.(ips := false)) else p;
      TurnEffect(s.port, l, s.isr.snapshot, s.isr.mask, step.o);
      if Quiet(s.port, p) {
        QuietThread(s.port, q, Active(s));
      } else {
        RequestThread(s.port, q, Active(s));
      }
    }
  }

  lemma ReceiverKeeps(s: System, l: Latching, step: Step)
    requires Invariant(s) && Allowed(s, l, step) && step.ReceiverErrorIsr?
    ensures Invariant(Next(s, l, step))
  {
    var q := ReceiverError(s.port, l, step.r);
    ReceiverEffect(s.port, l, step.r);
    if Quiet(s.port, q) {
      QuietThread(s.port, q, Active(s));
    } else {
      RequestThread(s.port, q, Active(s));
    }
  }

  // Nothing discovery does to the port opens it.
  lemma DiscoverThread(p: Port, l: Latching, o: Oracle, pc: Pc)
    requires ThreadInvariant(p, pc) && pc.Init? && pc.at.Discover?
    ensures var (q, next) := DiscoverStep(p, l, o, pc); ThreadInvariant(Settle(q), next)
  {
    var (q, next) := DiscoverStep(p, l, o, pc);
    assert Quiet(p, q) && q.reg.ips == p.reg.ips;
    hide DiscoverStep, Start, PortReset, HbaReset, Settle;
    QuietThread(p, q, pc);
  }

  lemma EnterThread(p: Port, pc: Pc)
    requires ThreadInvariant(p, pc) && pc.Init? && Opening(pc.at)
    ensures var (q, next) := EnterStep(p, pc); ThreadInvariant(Settle(q), next)
  {
  }

  // Where a statement before or after discovery leads.
  predicate MovesOn(p: Port, pc: Pc, q: Port, next: Pc)
    requires pc.Init?
  {
    && Quiet(p, q) && (q.reg.ips ==> p.reg.ips) && next.Init? && !Opening(next.at)
    && (pc.at.Baseline? || pc.at.ClearGlobal? ==> !q.reg.ips)
    && (next.at.MaskAll? ==> next.ok)
    && (Publishing(next.at) ==> pc.at.ClearGlobal? && (next.at.MaskAll? || (next.at.Conclude? && !next.ok)))
  }

  lemma IsolatedMoves(p: Port, l: Latching, o: Oracle, pc: Pc)
    requires pc.Init? && !Opening(pc.at) && !Publishing(pc.at) && !pc.at.Discover?
    ensures var (q, next) := IsolatedStep(p, l, o, pc); MovesOn(p, pc, q, next)
  {
    hide DiscoverStep, Both, AfterErrorWrite, AfterStatusWrite;
  }

  lemma MovedThread(p: Port, pc: Pc, q: Port, next: Pc)
    requires ThreadInvariant(p, pc) && pc.Init? && !Opening(pc.at) && !Publishing(pc.at) && MovesOn(p, pc, q, next)
    ensures ThreadInvariant(Settle(q), next)
  {
    hide ConnectOnly;
  }

  lemma IsolatedThread(p: Port, l: Latching, o: Oracle, pc: Pc)
    requires ThreadInvariant(p, pc) && pc.Init? && !Opening(pc.at) && !Publishing(pc.at)
    ensures var (q, next) := IsolatedStep(p, l, o, pc); ThreadInvariant(Settle(q), next)
  {
    hide ThreadInvariant, MovesOn, Settle;
    if pc.at.Discover? {
      DiscoverThread(p, l, o, pc);
    } else {
      IsolatedMoves(p, l, o, pc);
      var (q, next) := IsolatedStep(p, l, o, pc);
      MovedThread(p, pc, q, next);
    }
  }

  lemma DecideThread(p: Port, pc: Pc)
    requires ThreadInvariant(p, pc) && pc.Init? && pc.at.Publish?
    ensures var (q, next) := PublishStep(p, pc); ThreadInvariant(Settle(q), next)
  {
  }

  lemma ConcludeThread(p: Port, pc: Pc)
    requires ThreadInvariant(p, pc) && pc.Init? && pc.at.Conclude?
    ensures var (q, next) := PublishStep(p, pc); ThreadInvariant(Settle(q), next)
  {
    hide Schedule;
  }

  lemma UnmaskThread(p: Port, pc: Pc)
    requires ThreadInvariant(p, pc) && pc.Init? && (pc.at.MaskAll? || pc.at.UnmaskSata? || pc.at.UnmaskUsb?)
    ensures var (q, next) := PublishStep(p, pc); ThreadInvariant(Settle(q), next)
  {
    hide Schedule;
  }

  lemma PublishingThread(p: Port, pc: Pc)
    requires ThreadInvariant(p, pc) && pc.Init? && Publishing(pc.at)
    ensures var (q, next) := PublishStep(p, pc); ThreadInvariant(Settle(q), next)
  {
    hide PublishStep, ThreadInvariant, Settle;
    if pc.at.Publish? {
      DecideThread(p, pc);
    } else if pc.at.Conclude? {
      ConcludeThread(p, pc);
    } else {
      UnmaskThread(p, pc);
    }
  }

  lemma InitThread(p: Port, l: Latching, o: Oracle, pc: Pc)
    requires ThreadInvariant(p, pc) && pc.Init?
    ensures var (q, next) := InitStep(p, l, o, pc); ThreadInvariant(Settle(q), next)
  {
    hide ThreadInvariant, EnterStep, IsolatedStep, PublishStep, Settle;
    if Opening(pc.at) {
      EnterThread(p, pc);
    } else if Publishing(pc.at) {
      PublishingThread(p, pc);
    } else {
      IsolatedThread(p, l, o, pc);
    }
  }

  lemma ServingThread(p: Port, at: ServiceAt)
    requires ThreadInvariant(p, Svc(at)) && (at.Wait? || at.Drain? || at.Quiesce? || at.StopList?)
    ensures var (q, next) := ServiceStep(p, at); ThreadInvariant(Settle(q), next)
  {
    hide Both, ConnectOnly;
  }

  lemma TakingThread(p: Port, at: ServiceAt)
    requires ThreadInvariant(p, Svc(at)) && (at.Link? || at.TakeQuiesced? || at.TakeWait? || at.Counted?)
    ensures var (q, next) := ServiceStep(p, at); ThreadInvariant(Settle(q), next)
  {
    hide Both;
  }

  lemma ServiceThread(p: Port, at: ServiceAt)
    requires ThreadInvariant(p, Svc(at))
    ensures var (q, next) := ServiceStep(p, at); ThreadInvariant(Settle(q), next)
  {
    hide ThreadInvariant, ServiceStep, Settle;
    if at.Wait? || at.Drain? || at.Quiesce? || at.StopList? {
      ServingThread(p, at);
    } else {
      TakingThread(p, at);
    }
  }

  lemma HbaThread(p: Port, o: Oracle, at: HbaAt)
    requires ThreadInvariant(p, Hba(at)) && (at.GlobalReset? ==> o.hbaOk)
    ensures var (q, next) := HbaStep(p, o, at); ThreadInvariant(Settle(q), next)
  {
    hide Both;
  }

  // The discovery request of ahci_reset_lun, or none.
  lemma LunScheduleThread(p: Port, was: bool, reset: bool)
    requires ThreadInvariant(p, Lun(LunSchedule(was, reset)))
    ensures var q := if reset && was then Schedule(p, true) else p; ThreadInvariant(Settle(q), Lun(LunStart(was)))
  {
    hide Both;
  }

  lemma LunOpenThread(p: Port, o: Oracle, at: LunAt)
    requires ThreadInvariant(p, Lun(at)) && (at.LunMask? || at.LunSample? || at.LunWrite? || at.LunBusy?)
    ensures forall l :: var (q, next) := LunStep(p, l, o, at); ThreadInvariant(Settle(q), next)
  {
    hide Both, Start, Schedule;
  }

  lemma LunClosedThread(p: Port, l: Latching, o: Oracle, at: LunAt)
    requires ThreadInvariant(p, Lun(at)) && (at.LunClear? || at.LunRecover? || at.LunStart? || at.LunNotify?)
    ensures var (q, next) := LunStep(p, l, o, at); ThreadInvariant(Settle(q), next)
  {
    hide Both, Schedule, AfterErrorWrite;
  }

  lemma LunThread(p: Port, l: Latching, o: Oracle, at: LunAt)
    requires ThreadInvariant(p, Lun(at))
    ensures var (q, next) := LunStep(p, l, o, at); ThreadInvariant(Settle(q), next)
  {
    hide ThreadInvariant, Schedule, Settle, Start;
    if at.LunSchedule? {
      LunScheduleThread(p, at.was, at.reset);
    } else if at.LunMask? || at.LunSample? || at.LunWrite? || at.LunBusy? {
      LunOpenThread(p, o, at);
    } else {
      LunClosedThread(p, l, o, at);
    }
  }

  lemma RecoverThread(p: Port, l: Latching, resetPort: bool, pc: Pc)
    requires ThreadInvariant(p, pc) && (pc.CbExecute? || pc.HostCommand? || pc.Rest?)
    ensures ThreadInvariant(Settle(RecoverLocal(p, l, resetPort)), pc)
  {
  }

  lemma SessionThread(p: Port, enables: Bits, pc: Pc)
    requires ThreadInvariant(p, pc) && (pc.CbExecute? || pc.HostCommand? || pc.Rest?)
    ensures ThreadInvariant(Settle(Session(p, enables)), pc)
  {
  }

  lemma HostEnds(p: Port, pc: Pc)
    requires ThreadInvariant(p, pc) && pc.HostCommand?
    ensures ThreadInvariant(p, Rest)
  {
  }

  lemma SubmitThread(p: Port, captured: nat)
    requires ThreadInvariant(p, HostCommand(captured)) && p.dev.ready
    ensures ThreadInvariant(Settle(p.(vim := p.vim.(receiver := true, controller := true))), Rest)
  {
  }

  lemma HostThread(p: Port, l: Latching, o: Oracle, enables: Bits, pc: Pc)
    requires ThreadInvariant(p, pc) && pc.HostCommand?
    ensures var (q, next) := Advance(p, l, o, enables, pc); ThreadInvariant(Settle(q), next)
  {
    hide ThreadInvariant, RecoverLocal, Session, Settle;
    if o.choice == 0 && SubmissionCurrent(p, pc.captured) {
      SubmitThread(p, pc.captured);
    } else if o.choice <= 1 {
      var resetPort := o.choice == 1 && o.resetNeeded;
      RecoverThread(p, l, resetPort, pc);
      HostEnds(Settle(RecoverLocal(p, l, resetPort)), pc);
    } else {
      SessionThread(p, enables, pc);
    }
  }

  lemma QuietDispatch(p: Port)
    requires ThreadInvariant(p, Rest)
    ensures ThreadInvariant(Settle(p), Rest) && (p.req.pending ==> ThreadInvariant(Settle(p), Svc(Wait)))
    ensures ThreadInvariant(Settle(p.(vim := p.vim.(usb := false))), CbExecute)
  {
    hide Both;
  }

  lemma MediaThread(p: Port)
    requires ThreadInvariant(p, Rest)
    ensures ThreadInvariant(Settle(MediaInserted(p)), InsertedUnmask)
    ensures ThreadInvariant(Settle(EjectTeardown(p)), Rest)
  {
    hide Both;
  }

  lemma DispatchThread(p: Port, l: Latching, o: Oracle, enables: Bits)
    requires ThreadInvariant(p, Rest)
    ensures var (q, next) := Dispatch(p, l, o, enables); ThreadInvariant(Settle(q), next)
  {
    hide ThreadInvariant, MediaInserted, EjectTeardown, RecoverLocal, Session, Settle;
    QuietDispatch(p);
    MediaThread(p);
    RecoverThread(p, l, o.resetNeeded, Rest);
    SessionThread(p, enables, Rest);
  }

  lemma CallbackThread(p: Port, l: Latching, o: Oracle, enables: Bits, pc: Pc)
    requires ThreadInvariant(p, pc)
    requires pc.CbExecute? || pc.CbUnmask? || pc.CbClear? || pc.InsertedUnmask?
    ensures var (q, next) := Advance(p, l, o, enables, pc); ThreadInvariant(Settle(q), next)
  {
    hide RecoverLocal, Session;
    if pc.CbExecute? {
      RecoverThread(p, l, o.resetNeeded, pc);
      SessionThread(p, enables, pc);
    }
  }

  lemma AdvanceThread(p: Port, l: Latching, o: Oracle, enables: Bits, pc: Pc)
    requires ThreadInvariant(p, pc) && (pc == Hba(GlobalReset) ==> o.hbaOk)
    ensures var (q, next) := Advance(p, l, o, enables, pc); ThreadInvariant(Settle(q), next)
  {
    hide ThreadInvariant, InitStep, ServiceStep, HbaStep, LunStep, Dispatch, Settle;
    match pc
    case Rest => DispatchThread(p, l, o, enables);
    case Svc(at) => ServiceThread(p, at);
    case Hba(at) => HbaThread(p, o, at);
    case Init(_, _, _, _) => InitThread(p, l, o, pc);
    case Lun(at) => LunThread(p, l, o, at);
    case HostCommand(_) => HostThread(p, l, o, enables, pc);
    case _ => CallbackThread(p, l, o, enables, pc);
  }

  lemma UsbKeeps(s: System, l: Latching, step: Step)
    requires Invariant(s) && Allowed(s, l, step) && (step.UsbEnter? || step.UsbStep?)
    ensures Invariant(Next(s, l, step))
  {
    if step.UsbStep? {
      AdvanceThread(s.port, l, step.o, step.enables, s.usb);
      AdvanceLevels(s, l, step.o, step.enables, s.usb);
      if Advance(s.port, l, step.o, step.enables, s.usb).1.Rest? {
        UnderRestingUsb(Settle(Advance(s.port, l, step.o, step.enables, s.usb).0), s.main);
      }
      hide ThreadInvariant, Advance, Settle;
    } else if s.port.dev.ready {
      UsbEntry(s.port, s.main, step.entry);
      hide ThreadInvariant;
    }
  }

  // Where ahci_init_port can go next.
  lemma InitLevels(p: Port, l: Latching, o: Oracle, pc: Pc)
    requires pc.Init?
    ensures var (q, next) := InitStep(p, l, o, pc);
            && ((next.Init? && next.caller == pc.caller && (Opening(next.at) ==> Opening(pc.at)))
                || (pc.caller.FromService? && next.Svc? && next.svc.Counted?)
                || (pc.caller.FromHbaInit? && next.Hba? && next.hba.Tail?))
            && (Opening(pc.at) && !p.dev.ready ==> !q.dev.ready)
  {
    hide Both, Minus, AfterErrorWrite, AfterStatusWrite, Schedule, Start, PortReset, HbaReset;
  }

  // Where a thread can go next.
  lemma AdvanceLevels(s: System, l: Latching, o: Oracle, enables: Bits, pc: Pc)
    ensures var next := Advance(s.port, l, o, enables, pc).1;
            && (NoController(next) ==> pc.Init?)
            && (next.Lun? ==> pc.Lun?) && (next.HostCommand? ==> pc.HostCommand?)
            && (!pc.Rest? && !pc.Svc? && !pc.CbExecute? && !pc.CbUnmask? ==>
                  !next.Svc? || (pc.Init? && pc.caller.FromService?))
            && (pc.Lun? ==> next.Rest? || next.Lun? || next.Hba?)
            && (pc.HostCommand? ==> next.Rest? || next.HostCommand?)
            && (pc.Hba? ==> next.Rest? || next.Hba? || (next.Init? && next.caller.FromHbaInit?))
            && (pc.Init? && pc.caller.FromHbaInit? ==> next.Hba? || (next.Init? && next.caller.FromHbaInit?))
  {
    hide InitStep, RecoverLocal, Session, Schedule, Start, PortReset, HbaReset, MediaInserted, EjectTeardown;
    if pc.Init? {
      InitLevels(s.port, l, o, pc);
    }
  }

  // The foreground position under a finished USB handler needs nothing from the port.
  lemma UnderRestingUsb(p: Port, main: Pc)
    requires ThreadInvariant(p, Rest) && UsbCanPreempt(main)
    ensures ThreadInvariant(p, main)
  {
  }

  // A USB handler that finds ready media interrupts a foreground that holds no unready port.
  lemma UsbEntry(p: Port, main: Pc, entry: HostEntry)
    requires ThreadInvariant(p, main) && p.dev.ready && p.vim.usb && !main.Lun? && !main.HostCommand?
    requires Reinitializing(main) ==> !p.dev.ready
    ensures UsbCanPreempt(main)
    ensures ThreadInvariant(p, Lun(LunMask)) && ThreadInvariant(p, HostCommand(p.epoch))
  {
  }

  lemma MainKeeps(s: System, l: Latching, step: Step)
    requires Invariant(s) && Allowed(s, l, step) && step.MainStep?
    ensures Invariant(Next(s, l, step))
  {
    AdvanceThread(s.port, l, step.o, step.enables, s.main);
    MainLevels(s.port, l, step.o, step.enables, s.main);
    hide ThreadInvariant, Advance, Settle;
  }

  // Where the foreground can go next; ahci_init runs there only before media is first ready.
  lemma MainLevels(p: Port, l: Latching, o: Oracle, enables: Bits, pc: Pc)
    requires !pc.Lun? && !pc.HostCommand?
    ensures var (q, next) := Advance(p, l, o, enables, pc);
            && !next.Lun? && !next.HostCommand?
            && (Reinitializing(next) ==> Reinitializing(pc) && (!p.dev.ready ==> !q.dev.ready))
  {
    hide InitStep, Both, Minus, AfterErrorWrite, AfterStatusWrite, SubmissionCurrent,
         RecoverLocal, Session, Schedule, Start, PortReset, MediaInserted, EjectTeardown;
    if pc.Init? {
      InitLevels(p, l, o, pc);
    }
  }

  // Every step the code can take keeps the invariant.
  lemma StepKeeps(s: System, l: Latching, step: Step)
    requires Invariant(s) && Allowed(s, l, step)
    ensures Invariant(Next(s, l, step))
  {
    hide Next, Invariant, Allowed;
    match step
    case Hardware(_, _, _) => HardwareKeeps(s, l, step);
    case ControllerEnter => ControllerKeeps(s, l, step);
    case ControllerMask => ControllerKeeps(s, l, step);
    case ControllerTurn(_) => ControllerKeeps(s, l, step);
    case ReceiverErrorIsr(_) => ReceiverKeeps(s, l, step);
    case UsbEnter(_) => UsbKeeps(s, l, step);
    case UsbStep(_, _) => UsbKeeps(s, l, step);
    case MainStep(_, _) => MainKeeps(s, l, step);
  }

  function Exec(s: System, l: Latching, steps: seq<Step>): System
    decreases |steps|
  {
    if steps == [] then s else Exec(Next(s, l, steps[0]), l, steps[1..])
  }

  predicate AllowedRun(s: System, l: Latching, steps: seq<Step>)
    decreases |steps|
  {
    steps == [] || (Allowed(s, l, steps[0]) && AllowedRun(Next(s, l, steps[0]), l, steps[1..]))
  }

  lemma {:induction false} RunKeeps(s: System, l: Latching, steps: seq<Step>)
    requires Invariant(s) && AllowedRun(s, l, steps)
    ensures Invariant(Exec(s, l, steps))
    decreases |steps|
  {
    hide Next, Invariant, Allowed;
    if steps != [] {
      StepKeeps(s, l, steps[0]);
      RunKeeps(Next(s, l, steps[0]), l, steps[1..]);
    }
  }

  // No level is inside a window: the end of a handler, a service step or an init statement
  // outside ahci_init.
  predicate Settled(s: System) {
    !Reinitializing(Active(s)) && !LunLosing(Active(s))
  }

  // The lifecycle claims, in every state of every run from power-up.
  lemma LifecycleSafety(s: System, l: Latching, steps: seq<Step>)
    requires Boot(s) && AllowedRun(s, l, steps)
    ensures var e := Exec(s, l, steps); var p := e.port;
            && (p.req.pending ==> !p.dev.ready && ConnectOnly(p.reg.ie) && !p.vim.receiver)
            && (Settled(e) && !p.hist.withdrawn ==>
                  && (!p.dev.ready ==> ConnectOnly(p.reg.ie))
                  && (p.vim.receiver ==> p.dev.ready))
            && (p.dev.ready && !(Active(e).Init? && Active(e).at.UnmaskSata?) ==> p.vim.receiver)
  {
    BootHolds(s);
    RunKeeps(s, l, steps);
    hide Exec, AllowedRun, Boot;
  }
}
