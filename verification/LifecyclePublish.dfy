// Publication safety: when media becomes ready, and what happens to a connect change that
// is latched around that moment.
module LifecyclePublish {
  import opened PortModel
  import opened PortTurns
  import opened Lifecycle
  import opened LifecycleInvariant

  // Readiness rises only in the masked window of ahci_init_port, for the admitted epoch, with
  // the PHY ready, no connect change latched and no rediscovery pending.
  lemma PublishedOnlyWhenCurrent(s: System, l: Latching, step: Step)
    requires Invariant(s) && Allowed(s, l, step) && !s.port.dev.ready && Next(s, l, step).port.dev.ready
    ensures var pc := Active(s); var p := s.port;
            && pc.Init? && pc.at.Publish? && s.isr.IsrIdle? && p.vim == Sources(false, false, false)
            && p.epoch == pc.discovery && p.reg.det == DET_PHY_READY && !Changed(p) && !p.req.pending
            && Next(s, l, step).port.epoch == pc.discovery
  {
    hide Advance, IsrTurn, ReceiverError, ThreadInvariant;
    match step
    case ControllerTurn(o) => TurnEffect(s.port, l, s.isr.snapshot, s.isr.mask, o);
    case ReceiverErrorIsr(r) => ReceiverEffect(s.port, l, r);
    case UsbStep(o, enables) => AdvancePublishes(s.port, l, o, enables, s.usb); PublishWindow(s.port, s.usb);
    case MainStep(o, enables) => AdvancePublishes(s.port, l, o, enables, s.main); PublishWindow(s.port, s.main);
    case _ =>
  }

  lemma PublishWindow(p: Port, pc: Pc)
    requires ThreadInvariant(p, pc) && pc.Init? && pc.at.Publish?
    ensures p.vim == Sources(false, false, false) && !p.req.pending
  {
  }

  lemma AdvancePublishes(p: Port, l: Latching, o: Oracle, enables: Bits, pc: Pc)
    requires !p.dev.ready && Advance(p, l, o, enables, pc).0.dev.ready
    ensures pc.Init? && pc.at.Publish? && p.epoch == pc.discovery && p.reg.det == DET_PHY_READY && !Changed(p)
    ensures Advance(p, l, o, enables, pc).0.epoch == p.epoch
  {
    hide InitStep, Both, AfterErrorWrite;
    if pc.Init? {
      InitPublishes(p, l, o, pc);
    }
  }

  lemma InitPublishes(p: Port, l: Latching, o: Oracle, pc: Pc)
    requires !p.dev.ready && pc.Init? && InitStep(p, l, o, pc).0.dev.ready
    ensures pc.at.Publish? && p.epoch == pc.discovery && p.reg.det == DET_PHY_READY && !Changed(p)
    ensures InitStep(p, l, o, pc).0.epoch == p.epoch
  {
    hide Both, AfterErrorWrite, AfterStatusWrite;
  }

  // A source that is latched and unmasked is served before the code it interrupts goes on.
  predicate Prompt(s: System, step: Step) {
    step.MainStep? || step.UsbStep? || step.UsbEnter? ==> !(s.port.vim.controller && s.port.reg.ips)
  }

  predicate PromptRun(s: System, l: Latching, steps: seq<Step>)
    decreases |steps|
  {
    steps == [] || (Allowed(s, l, steps[0]) && Prompt(s, steps[0]) && PromptRun(Next(s, l, steps[0]), l, steps[1..]))
  }

  // From the PxSERR write to the publication decision.
  predicate Deciding(pc: Pc) {
    pc.Init? && (pc.at.ClearPxis? || pc.at.ClearGlobal? || pc.at.MaskAll? || pc.at.Publish?)
  }

  // Ready media may have its connect-change interrupt closed here, with no handler active.
  predicate Muted(p: Port, pc: Pc) {
    LunClosed(pc) || (p.dev.ready && pc.Init? && pc.at.Withdraw?)
  }

  // No connect change since the PxSERR write of discovery is lost while media is ready,
  // unless a later PxSERR write discarded it.
  predicate Accounted(p: Port) {
    p.hist.changes == 0 || p.hist.dropped || Changed(p)
  }

  predicate PublishThread(p: Port, l: Latching, pc: Pc) {
    && ControllerOpen(p, pc)
    && (p.dev.ready && !LunLosing(pc) ==> Accounted(p))
    && (p.dev.ready && (Changed(p) || p.hist.dropped) ==> p.hist.changes > 0)
    && (Deciding(pc) ==> Accounted(p) && !p.hist.dropped)
    && (p.dev.ready ==> p.reg.ie.connect || Muted(p, pc))
    && (Muted(p, pc) ==> !p.reg.ips)
    && (Both(p.reg.status, p.reg.ie) != NONE ==> p.reg.ips)
    && (pc.Lun? && pc.lun.LunWrite? && pc.lun.enables == NONE ==> !p.dev.ready)
    && (l.Latch? && p.dev.ready && !(pc.Init? && pc.at.Withdraw?) ==> !p.hist.dropped)
  }

  predicate PublishInvariant(s: System, l: Latching) {
    && Invariant(s) && PublishThread(s.port, l, Active(s))
    && (Muted(s.port, Active(s)) ==> s.isr.IsrIdle?)
  }

  // --- The handlers ---

  // What a handler does to the accounts of media that it leaves ready.
  predicate KeepsAccount(p: Port, q: Port, l: Latching) {
    q.dev.ready ==>
      && p.dev.ready && q.reg.ie == p.reg.ie && q.vim == p.vim && q.hist.changes == p.hist.changes
      && (Changed(p) || p.hist.dropped <==> Changed(q) || q.hist.dropped)
      && (l.Latch? ==> q.hist.dropped == p.hist.dropped)
  }

  lemma TurnAccount(p: Port, l: Latching, snapshot: Bits, mask: Bits, o: Oracle)
    requires p.dev.ready ==> mask.connect
    ensures KeepsAccount(p, IsrTurn(p, l, snapshot, mask, o), l)
  {
  }

  lemma ReceiverAccount(p: Port, l: Latching, r: ReceiverOracle)
    ensures KeepsAccount(p, ReceiverError(p, l, r), l)
  {
  }

  lemma HandlerThread(p: Port, q: Port, l: Latching, pc: Pc)
    requires PublishThread(p, l, pc) && KeepsAccount(p, q, l) && !Deciding(pc)
    requires q.vim.controller == p.vim.controller
    requires Muted(p, pc) ==> q.reg.ips == p.reg.ips && q.reg.ie == NONE
    ensures PublishThread(Settle(q), l, pc)
    ensures !Muted(p, pc) && q.reg.status == NONE ==> PublishThread(q.(reg := q.reg.(ips := false)), l, pc)
  {
  }

  lemma HandlerPublish(s: System, l: Latching, step: Step)
    requires PublishInvariant(s, l) && Allowed(s, l, step) && (step.ControllerTurn? || step.ReceiverErrorIsr?)
    ensures PublishInvariant(Next(s, l, step), l)
  {
    StepKeeps(s, l, step);
    var p, pc := s.port, Active(s);
    DecidingIsSealed(s);
    if step.ControllerTurn? {
      var q := IsrTurn(p, l, s.isr.snapshot, s.isr.mask, step.o);
      assert !Muted(p, pc);
      if p.dev.ready {
        CurrentMask(s, l);
      }
      TurnAccount(p, l, s.isr.snapshot, s.isr.mask, step.o);
      TurnEffect(p, l, s.isr.snapshot, s.isr.mask, step.o);
      HandlerThread(p, q, l, pc);
      hide IsrTurn, Invariant, PublishThread, KeepsAccount, Settle;
    } else {
      var q := ReceiverError(p, l, step.r);
      ReceiverAccount(p, l, step.r);
      ReceiverEffect(p, l, step.r);
      MutedClosed(s);
      HandlerThread(p, q, l, pc);
      hide ReceiverError, Invariant, PublishThread, KeepsAccount, Settle;
    }
  }

  // Ready media is handled with the mask it has.
  lemma CurrentMask(s: System, l: Latching)
    requires PublishInvariant(s, l) && s.isr.IsrDispatch? && s.port.dev.ready
    ensures s.isr.mask == s.port.reg.ie && s.port.reg.ie.connect
  {
  }

  lemma DecidingIsSealed(s: System)
    requires Invariant(s)
    ensures Deciding(Active(s)) ==> s.isr.IsrIdle? && !s.port.vim.receiver
  {
  }

  lemma MutedClosed(s: System)
    requires Invariant(s)
    ensures Muted(s.port, Active(s)) ==> s.port.reg.ie == NONE
  {
  }

  // --- The threads ---

  lemma EnterPublish(p: Port, l: Latching, pc: Pc)
    requires ThreadInvariant(p, pc) && PublishThread(p, l, pc) && pc.Init? && Opening(pc.at)
    ensures var (q, next) := EnterStep(p, pc); PublishThread(Settle(q), l, next)
  {
  }

  lemma IsolatedPublish(p: Port, l: Latching, o: Oracle, pc: Pc)
    requires ThreadInvariant(p, pc) && PublishThread(p, l, pc)
    requires pc.Init? && !Opening(pc.at) && !Publishing(pc.at)
    ensures var (q, next) := IsolatedStep(p, l, o, pc); PublishThread(Settle(q), l, next)
  {
    assert !p.dev.ready && p.reg.ie == NONE;
    hide ThreadInvariant;
    if pc.at.Discover? {
      DiscoverPublish(p, l, o, pc);
      hide DiscoverStep, PublishThread;
    } else {
      hide DiscoverStep;
    }
  }

  lemma DiscoverCloses(p: Port, l: Latching, o: Oracle, pc: Pc)
    requires pc.Init? && pc.at.Discover? && !p.dev.ready && p.reg.ie == NONE
    ensures var (q, next) := DiscoverStep(p, l, o, pc);
            !q.dev.ready && q.reg.ie == NONE && q.vim == p.vim && next.Init? && !Deciding(next) && !next.at.Withdraw?
  {
  }

  lemma ClosedPublish(p: Port, l: Latching, pc: Pc)
    requires !p.dev.ready && p.reg.ie == NONE && p.vim.controller && pc.Init? && !Deciding(pc)
    ensures PublishThread(Settle(p), l, pc)
  {
  }

  lemma DiscoverPublish(p: Port, l: Latching, o: Oracle, pc: Pc)
    requires !p.dev.ready && p.reg.ie == NONE && p.vim.controller && pc.Init? && pc.at.Discover?
    ensures var (q, next) := DiscoverStep(p, l, o, pc); PublishThread(Settle(q), l, next)
  {
    hide PublishThread, DiscoverStep, Settle, Deciding;
    DiscoverCloses(p, l, o, pc);
    var (q, next) := DiscoverStep(p, l, o, pc);
    ClosedPublish(q, l, next);
  }

  lemma WindowPublish(p: Port, l: Latching, pc: Pc)
    requires ThreadInvariant(p, pc) && PublishThread(p, l, pc) && pc.Init? && Publishing(pc.at)
    ensures var (q, next) := PublishStep(p, pc); PublishThread(Settle(q), l, next)
  {
  }

  lemma ServicePublish(p: Port, l: Latching, at: ServiceAt)
    requires ThreadInvariant(p, Svc(at)) && PublishThread(p, l, Svc(at))
    ensures var (q, next) := ServiceStep(p, at); PublishThread(Settle(q), l, next)
  {
  }

  lemma HbaPublish(p: Port, l: Latching, o: Oracle, at: HbaAt)
    requires ThreadInvariant(p, Hba(at)) && PublishThread(p, l, Hba(at)) && (at.GlobalReset? ==> o.hbaOk)
    ensures var (q, next) := HbaStep(p, o, at); PublishThread(Settle(q), l, next)
  {
  }

  // ahci_reset_lun while PxIE stays closed.
  lemma LunClosedPublish(p: Port, l: Latching, o: Oracle, at: LunAt)
    requires PublishThread(p, l, Lun(at)) && p.reg.ie == NONE && !p.reg.ips
    requires LunClosed(Lun(at)) && !at.LunWrite?
    ensures var (q, next) := LunStep(p, l, o, at); PublishThread(Settle(q), l, next)
  {
    var (q, next) := LunStep(p, l, o, at);
    assert q.reg.ie == NONE;
    SettleClosed(q);
    hide Both, Settle;
  }

  lemma LunPublish(p: Port, l: Latching, o: Oracle, at: LunAt)
    requires ThreadInvariant(p, Lun(at)) && PublishThread(p, l, Lun(at)) && !p.reg.ips
    ensures var (q, next) := LunStep(p, l, o, at); PublishThread(Settle(q), l, next)
  {
    LunNotReset(p, at);
    hide ThreadInvariant, Schedule, Start;
    if at.LunMask? || at.LunWrite? || at.LunBusy? {
    } else {
      LunClosedPublish(p, l, o, at);
      hide PublishThread, LunStep, Settle;
    }
  }

  lemma SettleClosed(p: Port)
    ensures p.reg.ie == NONE ==> Settle(p) == p && Both(p.reg.status, p.reg.ie) == NONE
  {
  }

  lemma LunNotReset(p: Port, at: LunAt)
    requires ThreadInvariant(p, Lun(at))
    ensures LunClosed(Lun(at)) ==> p.reg.ie == NONE
    ensures LunArming(Lun(at)) ==> p.dev.ready && at.enables == DEFAULT_INTR_ENABLE
  {
  }

  lemma SessionPublish(p: Port, l: Latching, enables: Bits, pc: Pc)
    requires PublishThread(p, l, pc) && (pc.Rest? || pc.CbExecute? || pc.HostCommand?)
    ensures PublishThread(Settle(Session(p, enables)), l, pc)
  {
  }

  lemma RecoverPublish(p: Port, l: Latching, resetPort: bool, pc: Pc)
    requires pc.Rest? || pc.CbExecute? || pc.HostCommand?
    ensures PublishThread(Settle(RecoverLocal(p, l, resetPort)), l, pc)
  {
  }

  lemma InsertedPublish(p: Port, l: Latching)
    requires PublishThread(p, l, Rest)
    ensures PublishThread(Settle(MediaInserted(p)), l, InsertedUnmask)
  {
  }

  lemma TeardownPublish(p: Port, l: Latching)
    requires PublishThread(p, l, Rest)
    ensures PublishThread(Settle(EjectTeardown(p)), l, Rest)
  {
  }

  lemma ConsumerPublish(p: Port, l: Latching)
    requires PublishThread(p, l, Rest)
    ensures PublishThread(Settle(p), l, Rest) && PublishThread(Settle(p), l, Svc(Wait))
    ensures PublishThread(Settle(p.(vim := p.vim.(usb := false))), l, CbExecute)
  {
  }

  lemma DispatchPublish(p: Port, l: Latching, o: Oracle, enables: Bits)
    requires PublishThread(p, l, Rest)
    ensures var (q, next) := Dispatch(p, l, o, enables); PublishThread(Settle(q), l, next)
  {
    hide PublishThread, Session, RecoverLocal, MediaInserted, EjectTeardown, Settle;
    ConsumerPublish(p, l);
    RecoverPublish(p, l, o.resetNeeded, Rest);
    InsertedPublish(p, l);
    TeardownPublish(p, l);
    SessionPublish(p, l, enables, Rest);
  }

  lemma FreePublish(p: Port, l: Latching)
    requires PublishThread(p, l, CbUnmask) || PublishThread(p, l, CbClear) || PublishThread(p, l, InsertedUnmask)
    ensures PublishThread(Settle(p.(vim := p.vim.(usb := true))), l, CbClear)
    ensures PublishThread(Settle(p.(vim := p.vim.(usb := true))), l, Rest)
    ensures forall n: nat :: PublishThread(Settle(p.(dev := p.dev.(queued := n))), l, Rest)
  {
  }

  lemma CommandPublish(p: Port, l: Latching, o: Oracle, enables: Bits, pc: Pc)
    requires PublishThread(p, l, pc) && p.vim.controller && (pc.CbExecute? || pc.HostCommand?)
    ensures var (q, next) := Advance(p, l, o, enables, pc); PublishThread(Settle(q), l, next)
  {
    hide RecoverLocal, Session;
    RecoverPublish(p, l, o.resetNeeded, pc);
    RecoverPublish(p, l, false, Rest);
    RecoverPublish(p, l, o.resetNeeded, Rest);
    SessionPublish(p, l, enables, pc);
  }

  lemma LoopPublish(p: Port, l: Latching, o: Oracle, enables: Bits, pc: Pc)
    requires PublishThread(p, l, pc) && p.vim.controller
    requires pc.CbExecute? || pc.CbUnmask? || pc.CbClear? || pc.InsertedUnmask? || pc.HostCommand?
    ensures var (q, next) := Advance(p, l, o, enables, pc); PublishThread(Settle(q), l, next)
  {
    hide PublishThread, RecoverLocal, Session, Settle;
    if pc.CbExecute? || pc.HostCommand? {
      CommandPublish(p, l, o, enables, pc);
    } else {
      FreePublish(p, l);
    }
  }

  lemma AdvancePublish(p: Port, l: Latching, o: Oracle, enables: Bits, pc: Pc)
    requires ThreadInvariant(p, pc) && PublishThread(p, l, pc) && (pc == Hba(GlobalReset) ==> o.hbaOk)
    requires !(p.vim.controller && p.reg.ips)
    ensures var (q, next) := Advance(p, l, o, enables, pc); PublishThread(Settle(q), l, next)
  {
    if pc.Lun? {
      assert !p.reg.ips;
    } else if !pc.Init? {
      assert p.vim.controller;
    }
    hide ThreadInvariant, PublishThread, EnterStep, IsolatedStep, PublishStep, ServiceStep, HbaStep, LunStep,
         Dispatch, RecoverLocal, Session, Settle;
    match pc
    case Svc(at) => ServicePublish(p, l, at);
    case Hba(at) => HbaPublish(p, l, o, at);
    case Init(at, _, _, _) =>
      if Opening(at) {
        EnterPublish(p, l, pc);
      } else if Publishing(at) {
        WindowPublish(p, l, pc);
      } else {
        IsolatedPublish(p, l, o, pc);
      }
    case Lun(at) => LunPublish(p, l, o, at);
    case Rest => DispatchPublish(p, l, o, enables);
    case _ => LoopPublish(p, l, o, enables, pc);
  }

  // --- Runs ---

  lemma RestingUsbPublish(p: Port, l: Latching, main: Pc)
    requires PublishThread(p, l, Rest) && UsbCanPreempt(main)
    ensures PublishThread(p, l, main) && !Muted(p, main)
  {
  }

  lemma UsbEntryPublish(s: System, l: Latching, step: Step)
    requires PublishInvariant(s, l) && Allowed(s, l, step) && step.UsbEnter? && s.port.dev.ready
    ensures PublishThread(s.port, l, Next(s, l, step).usb) && !Muted(s.port, Next(s, l, step).usb)
  {
  }

  lemma PublishStepKeeps(s: System, l: Latching, step: Step)
    requires PublishInvariant(s, l) && Allowed(s, l, step) && Prompt(s, step)
    ensures PublishInvariant(Next(s, l, step), l)
  {
    hide Advance, IsrTurn, ReceiverError;
    match step
    case Hardware(_, _, _) => StepKeeps(s, l, step); hide Invariant;
    case ControllerEnter => StepKeeps(s, l, step); hide Invariant;
    case ControllerMask => StepKeeps(s, l, step); hide Invariant;
    case ControllerTurn(_) => HandlerPublish(s, l, step); hide Invariant, PublishThread;
    case ReceiverErrorIsr(_) => HandlerPublish(s, l, step); hide Invariant, PublishThread;
    case UsbEnter(_) =>
      StepKeeps(s, l, step);
      if s.port.dev.ready { UsbEntryPublish(s, l, step); }
      hide Invariant, PublishThread;
    case UsbStep(o, enables) =>
      StepKeeps(s, l, step);
      AdvancePublish(s.port, l, o, enables, s.usb);
      assert UsbCanPreempt(s.main);
      var q := Settle(Advance(s.port, l, o, enables, s.usb).0);
      if Advance(s.port, l, o, enables, s.usb).1.Rest? {
        RestingUsbPublish(q, l, s.main);
      }
      hide Invariant, PublishThread, Settle;
    case MainStep(o, enables) =>
      StepKeeps(s, l, step);
      AdvancePublish(s.port, l, o, enables, s.main);
      hide Invariant, PublishThread, Settle;
  }

  lemma {:induction false} PromptRunKeeps(s: System, l: Latching, steps: seq<Step>)
    requires PublishInvariant(s, l) && PromptRun(s, l, steps)
    ensures PublishInvariant(Exec(s, l, steps), l)
    decreases |steps|
  {
    hide Next, PublishInvariant, Allowed, Prompt;
    if steps != [] {
      PublishStepKeeps(s, l, steps[0]);
      PromptRunKeeps(Next(s, l, steps[0]), l, steps[1..]);
    }
  }

  // A connect change latched since the PxSERR write blocks publication.
  lemma NothingMissedAtPublication(s: System, l: Latching, steps: seq<Step>, step: Step)
    requires Boot(s) && PromptRun(s, l, steps) && Allowed(Exec(s, l, steps), l, step)
    requires var e := Exec(s, l, steps); !e.port.dev.ready && Next(e, l, step).port.dev.ready
    ensures Exec(s, l, steps).port.hist.changes == 0
  {
    hide Exec, PromptRun, Boot, ThreadInvariant, Next, Allowed, PublishThread, Invariant;
    BootHolds(s);
    BootPublishHolds(s, l);
    PromptRunKeeps(s, l, steps);
    var e := Exec(s, l, steps);
    PublishedOnlyWhenCurrent(e, l, step);
    DecidesOnNothing(e.port, l, Active(e));
  }

  lemma DecidesOnNothing(p: Port, l: Latching, pc: Pc)
    requires PublishThread(p, l, pc) && pc.Init? && pc.at.Publish? && !Changed(p)
    ensures p.hist.changes == 0
  {
  }

  lemma BootPublishHolds(s: System, l: Latching)
    requires Boot(s) && Invariant(s)
    ensures PublishInvariant(s, l)
  {
    hide ThreadInvariant;
  }

  // Whenever host code is about to look at readiness, ready media has seen a connect change
  // since discovery cleared PxSERR exactly when a later PxSERR write discarded one; and that
  // cannot happen when PxIS.PCS is a latch of its own.
  lemma HostSeesCurrentMedia(s: System, l: Latching, steps: seq<Step>, entry: HostEntry)
    requires Boot(s) && PromptRun(s, l, steps)
    requires var e := Exec(s, l, steps); Allowed(e, l, UsbEnter(entry)) && Prompt(e, UsbEnter(entry))
    ensures var p := Exec(s, l, steps).port; p.dev.ready ==> (p.hist.changes != 0 <==> p.hist.dropped)
    ensures var p := Exec(s, l, steps).port; p.dev.ready && l.Latch? ==> p.hist.changes == 0
  {
    BootHolds(s);
    PromptRunKeeps(s, l, steps);
    var e := Exec(s, l, steps);
    assert PublishThread(e.port, l, e.main) && ThreadInvariant(e.port, e.main)
        && !(Reinitializing(e.main) && e.port.dev.ready);
    hide Exec, PromptRun, Boot;
    if e.port.dev.ready {
      assert e.port.vim.controller && !Muted(e.port, e.main);
    }
  }

  // The same at the moment a command is handed to the disk.
  lemma SubmissionIsCurrent(s: System, l: Latching, steps: seq<Step>, captured: nat)
    requires Boot(s) && PromptRun(s, l, steps) && Exec(s, l, steps).usb == HostCommand(captured)
    ensures var p := Exec(s, l, steps).port;
            SubmissionCurrent(p, captured) ==>
              (p.hist.changes != 0 <==> p.hist.dropped) && (l.Latch? ==> p.hist.changes == 0)
  {
    BootHolds(s);
    PromptRunKeeps(s, l, steps);
    var e := Exec(s, l, steps);
    assert PublishThread(e.port, l, e.usb);
    hide Exec, PromptRun, Boot, ThreadInvariant;
  }

  // --- Which PxSERR writes discard a connect change of ready media ---

  // A turn of ahci_isr that gets to ahci_start.
  predicate Restarts(snapshot: Bits, mask: Bits) {
    !LinkShown(snapshot, mask) && (FatalShown(snapshot, mask) || OverflowShown(snapshot, mask))
  }

  // ahci_start runs while media stays ready: in ahci_reset_lun without COMRESET, in fatal-error
  // recovery without COMRESET, and after an overflow.
  predicate RestartsList(s: System, step: Step) {
    || (step.UsbStep? && s.usb.Lun? && s.usb.lun.LunStart?)
    || (step.ControllerTurn? && s.isr.IsrDispatch? && Restarts(s.isr.snapshot, s.isr.mask))
  }

  // The HBA reset of ahci_init, which withdraws the medium with its next statement.
  predicate ResetsController(s: System, step: Step) {
    (step.MainStep? || step.UsbStep?) && Active(s) == Hba(GlobalReset)
  }

  lemma TurnDrops(p: Port, l: Latching, snapshot: Bits, mask: Bits, o: Oracle)
    requires p.dev.ready && !p.hist.dropped && IsrTurn(p, l, snapshot, mask, o).dev.ready
    ensures IsrTurn(p, l, snapshot, mask, o).hist.dropped <==>
              Changed(p) && l.Reflect? && Restarts(snapshot, mask)
  {
  }

  lemma AdvanceDrops(p: Port, l: Latching, o: Oracle, enables: Bits, pc: Pc)
    requires ThreadInvariant(p, pc) && p.dev.ready && !p.hist.dropped
    ensures var q := Advance(p, l, o, enables, pc).0;
            q.dev.ready ==>
              (q.hist.dropped <==>
                 Changed(p) && ((l.Reflect? && pc.Lun? && pc.lun.LunStart?) || (pc == Hba(GlobalReset) && o.hbaOk)))
  {
    hide DiscoverStep, RecoverLocal, Session, Schedule, MediaInserted;
    if pc.Init? {
      InitDrops(p, l, o, pc);
      hide InitStep, ThreadInvariant;
    } else {
      hide InitStep, ThreadInvariant;
      RecoverWithdraws(p, l, o.resetNeeded);
      RecoverWithdraws(p, l, false);
      assert Session(p, enables).hist == p.hist && MediaInserted(p).hist == p.hist
             && !Schedule(p, true).dev.ready by { OthersKeepHistory(p, enables); }
    }
  }

  lemma InitDrops(p: Port, l: Latching, o: Oracle, pc: Pc)
    requires ThreadInvariant(p, pc) && p.dev.ready && pc.Init?
    ensures var q := InitStep(p, l, o, pc).0; q.dev.ready ==> q.hist.dropped == p.hist.dropped
  {
    assert Opening(pc.at) || Publishing(pc.at);
    hide IsolatedStep, Schedule;
  }

  lemma RecoverWithdraws(p: Port, l: Latching, resetPort: bool)
    ensures !RecoverLocal(p, l, resetPort).dev.ready
  {
  }

  lemma OthersKeepHistory(p: Port, enables: Bits)
    requires p.dev.ready
    ensures Session(p, enables).hist == p.hist && MediaInserted(p).hist == p.hist && !Schedule(p, true).dev.ready
  {
  }

  // A step discards a connect change of media that stays ready exactly when one is latched and
  // the step restarts the command list under a reflected PxIS.PCS, or resets the controller.
  lemma DropsExactly(s: System, l: Latching, step: Step)
    requires Invariant(s) && Allowed(s, l, step) && s.port.dev.ready && !s.port.hist.dropped
    requires Next(s, l, step).port.dev.ready
    ensures Next(s, l, step).port.hist.dropped <==>
              Changed(s.port) && ((l.Reflect? && RestartsList(s, step)) || ResetsController(s, step))
  {
    hide Advance, IsrTurn, ReceiverError, ThreadInvariant, Both, Racy;
    match step
    case ControllerTurn(o) => TurnDrops(s.port, l, s.isr.snapshot, s.isr.mask, o);
    case ReceiverErrorIsr(r) => ReceiverKeepsDrop(s.port, l, r);
    case UsbStep(o, enables) => AdvanceDrops(s.port, l, o, enables, s.usb);
    case MainStep(o, enables) => AdvanceDrops(s.port, l, o, enables, s.main);
    case _ =>
  }

  lemma ReceiverKeepsDrop(p: Port, l: Latching, r: ReceiverOracle)
    ensures ReceiverError(p, l, r).hist.dropped == p.hist.dropped
  {
  }

  // Ready media whose connect change was discarded, and which is not being withdrawn.
  predicate Unseen(s: System) {
    s.port.dev.ready && s.port.hist.dropped && !(Active(s).Init? && Active(s).at.Withdraw?)
  }

  lemma UnseenStep(s: System, l: Latching, step: Step)
    requires PublishInvariant(s, l) && Allowed(s, l, step) && !Unseen(s) && Unseen(Next(s, l, step))
    ensures s.port.dev.ready && Changed(s.port) && l.Reflect? && RestartsList(s, step)
  {
    hide ThreadInvariant, Advance, IsrTurn, ReceiverError, Racy, RestartsList;
    if !s.port.dev.ready {
      PublishedOnlyWhenCurrent(s, l, step);
      PublishKeepsHistory(s, l, step);
    } else if s.port.hist.dropped {
      WithdrawStays(s, l, step);
    } else {
      DropsExactly(s, l, step);
      if ResetsController(s, step) {
        ResetWithdraws(s, l, step);
      }
    }
  }

  lemma PublishKeepsHistory(s: System, l: Latching, step: Step)
    requires Active(s).Init? && Active(s).at.Publish? && Enabled(s, step) && !s.port.dev.ready
    requires s.isr.IsrIdle? && s.port.vim == Sources(false, false, false)
    ensures Next(s, l, step).port.hist.dropped ==> s.port.hist.dropped
  {
    hide EnterStep, IsolatedStep, IsrTurn, ReceiverError;
  }

  lemma WithdrawStays(s: System, l: Latching, step: Step)
    requires Invariant(s) && Allowed(s, l, step) && Active(s).Init? && Active(s).at.Withdraw?
    requires s.port.dev.ready && Next(s, l, step).port.dev.ready
    ensures Active(Next(s, l, step)) == Active(s)
  {
    WithdrawnByUsb(s);
    hide ThreadInvariant, IsrTurn, ReceiverError, IsolatedStep, PublishStep, Racy;
  }

  lemma WithdrawnByUsb(s: System)
    requires Invariant(s) && Active(s).Init? && Active(s).at.Withdraw? && s.port.dev.ready
    ensures !s.usb.Rest?
  {
  }

  lemma ResetWithdraws(s: System, l: Latching, step: Step)
    requires Allowed(s, l, step) && ResetsController(s, step)
    ensures Active(Next(s, l, step)).Init? && Active(Next(s, l, step)).at.Withdraw?
  {
    hide HbaReset;
  }

  // Media that goes on being ready after an unseen change had its command list restarted over
  // that change, with PxIS.PCS reflecting PxSERR, at some step of the run.
  lemma {:induction false} UnseenOnlyByRestart(s: System, l: Latching, steps: seq<Step>)
    returns (before: seq<Step>, step: Step, after: seq<Step>)
    requires PublishInvariant(s, l) && PromptRun(s, l, steps) && !Unseen(s) && Unseen(Exec(s, l, steps))
    ensures steps == before + [step] + after
    ensures var e := Exec(s, l, before);
            e.port.dev.ready && Changed(e.port) && l.Reflect? && RestartsList(e, step)
    decreases |steps|
  {
    hide Next, PublishInvariant, Allowed, Prompt, Unseen, RestartsList;
    var t := Next(s, l, steps[0]);
    if Unseen(t) {
      UnseenStep(s, l, steps[0]);
      before, step, after := [], steps[0], steps[1..];
    } else {
      PublishStepKeeps(s, l, steps[0]);
      before, step, after := UnseenOnlyByRestart(t, l, steps[1..]);
      assert ([steps[0]] + before)[1..] == before;
      before := [steps[0]] + before;
    }
  }

  // So whenever host code is about to look at ready media after a connect change, the run holds
  // the step that discarded it.
  lemma MissedOnlyByRestart(s: System, l: Latching, steps: seq<Step>, entry: HostEntry)
    returns (before: seq<Step>, step: Step, after: seq<Step>)
    requires Boot(s) && PromptRun(s, l, steps)
    requires var e := Exec(s, l, steps); Allowed(e, l, UsbEnter(entry)) && Prompt(e, UsbEnter(entry))
    requires var p := Exec(s, l, steps).port; p.dev.ready && p.hist.changes != 0
    ensures steps == before + [step] + after
    ensures var e := Exec(s, l, before);
            e.port.dev.ready && Changed(e.port) && l.Reflect? && RestartsList(e, step)
  {
    hide Exec, PromptRun, Allowed, Prompt, RestartsList, ThreadInvariant, PublishThread;
    BootHolds(s);
    BootPublishHolds(s, l);
    PromptRunKeeps(s, l, steps);
    HostSeesCurrentMedia(s, l, steps, entry);
    NotWithdrawing(Exec(s, l, steps), l, entry);
    before, step, after := UnseenOnlyByRestart(s, l, steps);
  }

  lemma NotWithdrawing(s: System, l: Latching, entry: HostEntry)
    requires Invariant(s) && Allowed(s, l, UsbEnter(entry)) && s.port.dev.ready
    ensures !(Active(s).Init? && Active(s).at.Withdraw?)
  {
  }
}
