// Terminal notification: a link change under ready media tells the transport once, and then
// nothing tells it again before the next publication.
module LifecycleNotify {
  import opened PortModel
  import opened PortTurns
  import opened Lifecycle
  import opened LifecycleInvariant

  // ahci_reset_lun has noted ready media and may still queue an error callback for it.
  predicate OwesCallback(pc: Pc) {
    && pc.Lun?
    && ((pc.lun.LunSchedule? && pc.lun.was) || (pc.lun.LunStart? && pc.lun.was) || (pc.lun.LunNotify? && pc.lun.was))
  }

  // Unready, closed and not about to be notified.
  predicate SilentThread(p: Port, pc: Pc) {
    !p.dev.ready && !p.hist.withdrawn && ConnectOnly(p.reg.ie) && !p.vim.receiver && !OwesCallback(pc)
  }

  predicate Silent(s: System) {
    Invariant(s) && SilentThread(s.port, Active(s)) && !Stale(s)
  }

  lemma TurnSilent(p: Port, l: Latching, snapshot: Bits, o: Oracle, pc: Pc)
    requires SilentThread(p, pc)
    ensures var q := IsrTurn(p, l, snapshot, p.reg.ie, o); SilentThread(q, pc) && q.dev.queued == p.dev.queued
  {
  }

  predicate StaysSilent(p: Port, q: Port, next: Pc) {
    SilentThread(q, next) && q.dev.queued <= p.dev.queued
  }

  lemma EnterSilent(p: Port, pc: Pc)
    requires SilentThread(p, pc) && pc.Init? && Opening(pc.at)
    ensures var (q, next) := EnterStep(p, pc); StaysSilent(p, q, next)
  {
  }

  lemma IsolatedSilent(p: Port, l: Latching, o: Oracle, pc: Pc)
    requires SilentThread(p, pc) && pc.Init? && !Opening(pc.at) && !Publishing(pc.at)
    ensures var (q, next) := IsolatedStep(p, l, o, pc); StaysSilent(p, q, next)
  {
    if pc.at.Discover? {
      var (q, next) := DiscoverStep(p, l, o, pc);
      assert q.dev.ready == p.dev.ready && q.dev.queued == p.dev.queued && q.vim == p.vim && next.Init?
             && q.hist.withdrawn == p.hist.withdrawn && (q.reg.ie == p.reg.ie || q.reg.ie == NONE) by {
        hide ConnectOnly;
      }
      hide DiscoverStep;
    } else {
      hide DiscoverStep;
    }
  }

  lemma WindowSilent(p: Port, pc: Pc)
    requires ThreadInvariant(p, pc) && SilentThread(p, pc) && pc.Init? && Publishing(pc.at)
    ensures var (q, next) := PublishStep(p, pc); q.dev.ready || StaysSilent(p, q, next)
  {
    assert pc.at.UnmaskSata? ==> !pc.ok;
    hide ThreadInvariant;
  }

  lemma InitSilent(p: Port, l: Latching, o: Oracle, pc: Pc)
    requires ThreadInvariant(p, pc) && SilentThread(p, pc) && pc.Init?
    ensures var (q, next) := InitStep(p, l, o, pc); q.dev.ready || StaysSilent(p, q, next)
  {
    hide ThreadInvariant, EnterStep, IsolatedStep, PublishStep, SilentThread, StaysSilent;
    if Opening(pc.at) {
      EnterSilent(p, pc);
    } else if Publishing(pc.at) {
      WindowSilent(p, pc);
    } else {
      IsolatedSilent(p, l, o, pc);
    }
  }

  lemma LunSilent(p: Port, l: Latching, o: Oracle, at: LunAt)
    requires ThreadInvariant(p, Lun(at)) && SilentThread(p, Lun(at))
    ensures var (q, next) := LunStep(p, l, o, at); StaysSilent(p, q, next)
  {
  }

  lemma ServiceSilent(p: Port, at: ServiceAt)
    requires SilentThread(p, Svc(at))
    ensures var (q, next) := ServiceStep(p, at); StaysSilent(p, q, next)
  {
  }

  lemma HbaSilent(p: Port, o: Oracle, at: HbaAt)
    requires SilentThread(p, Hba(at))
    ensures var (q, next) := HbaStep(p, o, at); StaysSilent(p, q, next)
  {
  }

  lemma SessionSilent(p: Port, l: Latching, enables: Bits, pc: Pc)
    requires SilentThread(p, pc) && !pc.Lun?
    ensures StaysSilent(p, Session(p, enables), pc)
  {
  }

  lemma RecoverSilent(p: Port, l: Latching, resetPort: bool, pc: Pc)
    requires !pc.Lun?
    ensures StaysSilent(p, RecoverLocal(p, l, resetPort), pc)
  {
  }

  lemma MediaSilent(p: Port)
    requires SilentThread(p, Rest)
    ensures StaysSilent(p, p, Rest) && StaysSilent(p, p, Svc(Wait))
    ensures StaysSilent(p, MediaInserted(p), InsertedUnmask) && StaysSilent(p, EjectTeardown(p), Rest)
    ensures StaysSilent(p, p.(vim := p.vim.(usb := false)), CbExecute)
  {
  }

  lemma DispatchSilent(p: Port, l: Latching, o: Oracle, enables: Bits)
    requires SilentThread(p, Rest)
    ensures var (q, next) := Dispatch(p, l, o, enables); StaysSilent(p, q, next)
  {
    hide SilentThread, StaysSilent, Session, RecoverLocal, MediaInserted, EjectTeardown;
    MediaSilent(p);
    RecoverSilent(p, l, o.resetNeeded, Rest);
    SessionSilent(p, l, enables, Rest);
  }

  lemma LoopSilent(p: Port, l: Latching, o: Oracle, enables: Bits, pc: Pc)
    requires SilentThread(p, pc)
    requires pc.CbExecute? || pc.CbUnmask? || pc.CbClear? || pc.InsertedUnmask? || pc.HostCommand?
    ensures var (q, next) := Advance(p, l, o, enables, pc); StaysSilent(p, q, next)
  {
    hide RecoverLocal, Session;
    if pc.CbExecute? || pc.HostCommand? {
      RecoverSilent(p, l, o.resetNeeded, pc);
      RecoverSilent(p, l, false, Rest);
      RecoverSilent(p, l, o.resetNeeded, Rest);
      SessionSilent(p, l, enables, pc);
      assert !p.dev.ready;
      hide StaysSilent, SilentThread;
    }
  }

  lemma AdvanceSilent(p: Port, l: Latching, o: Oracle, enables: Bits, pc: Pc)
    requires ThreadInvariant(p, pc) && SilentThread(p, pc)
    ensures var (q, next) := Advance(p, l, o, enables, pc); q.dev.ready || StaysSilent(p, q, next)
  {
    hide ThreadInvariant, SilentThread, StaysSilent, InitStep, LunStep, ServiceStep, HbaStep, Dispatch, RecoverLocal,
        Session;
    match pc
    case Init(_, _, _, _) => InitSilent(p, l, o, pc);
    case Lun(at) => LunSilent(p, l, o, at);
    case Svc(at) => ServiceSilent(p, at);
    case Hba(at) => HbaSilent(p, o, at);
    case Rest => DispatchSilent(p, l, o, enables);
    case _ => LoopSilent(p, l, o, enables, pc);
  }

  lemma ThreadStepSilent(s: System, l: Latching, step: Step)
    requires Silent(s) && (step.UsbStep? || step.MainStep?) && Enabled(s, step) && Invariant(Next(s, l, step))
    ensures var t := Next(s, l, step); t.port.dev.ready || (Silent(t) && t.port.dev.queued <= s.port.dev.queued)
  {
    SilentLevels(s);
    AdvanceSilent(s.port, l, step.o, step.enables, Active(s));
    hide Invariant, Advance;
  }

  // No step adds a callback to a silent port, and only publication ends the silence.  That
  // ahci_isr holds no mask from before the port was closed is needed, see MaskGap below.
  lemma SilentStep(s: System, l: Latching, step: Step)
    requires Silent(s) && Allowed(s, l, step)
    ensures var t := Next(s, l, step); t.port.dev.ready || (Silent(t) && t.port.dev.queued <= s.port.dev.queued)
  {
    StepKeeps(s, l, step);
    hide Invariant, Allowed;
    if step.UsbStep? || step.MainStep? {
      assert Enabled(s, step) by { assert Allowed(s, l, step); EnabledOf(s, l, step); }
      ThreadStepSilent(s, l, step);
      hide Next, Silent;
    } else if step.ControllerTurn? {
      TurnSilent(s.port, l, s.isr.snapshot, step.o, Active(s));
      hide IsrTurn, SilentThread, Advance, ReceiverError;
      SettleSilent(IsrTurn(s.port, l, s.isr.snapshot, s.isr.mask, step.o), Active(s));
    } else {
      EnabledOf(s, l, step);
      hide IsrTurn, Advance, ReceiverError, ConnectOnly;
    }
  }

  lemma EnabledOf(s: System, l: Latching, step: Step)
    requires Allowed(s, l, step)
    ensures Enabled(s, step)
  {
  }

  lemma SettleSilent(p: Port, pc: Pc)
    requires SilentThread(p, pc)
    ensures SilentThread(Settle(p), pc) && SilentThread(p.(reg := p.reg.(ips := false)), pc)
  {
  }

  lemma SilentLevels(s: System)
    requires Invariant(s)
    ensures !s.main.Lun? && ThreadInvariant(s.port, Active(s))
  {
    hide ThreadInvariant;
  }

  // A run in which media is not published.
  predicate UnpublishedRun(s: System, l: Latching, steps: seq<Step>)
    decreases |steps|
  {
    !s.port.dev.ready &&
    (steps == [] || (Allowed(s, l, steps[0]) && UnpublishedRun(Next(s, l, steps[0]), l, steps[1..])))
  }

  lemma {:induction false} SilentRun(s: System, l: Latching, steps: seq<Step>)
    requires Silent(s) && UnpublishedRun(s, l, steps)
    ensures Silent(Exec(s, l, steps)) && Exec(s, l, steps).port.dev.queued <= s.port.dev.queued
    decreases |steps|
  {
    hide Next, Silent, Allowed;
    if steps != [] {
      SilentStep(s, l, steps[0]);
      SilentRun(Next(s, l, steps[0]), l, steps[1..]);
    }
  }

  lemma {:induction false} UnpublishedSplit(s: System, l: Latching, a: seq<Step>, b: seq<Step>)
    requires UnpublishedRun(s, l, a + b)
    ensures UnpublishedRun(s, l, a) && UnpublishedRun(Exec(s, l, a), l, b)
    ensures Exec(s, l, a + b) == Exec(Exec(s, l, a), l, b)
    decreases |a|
  {
    hide Next, Allowed;
    if a == [] {
      assert a + b == b;
    } else {
      assert (a + b)[1..] == a[1..] + b;
      UnpublishedSplit(Next(s, l, a[0]), l, a[1..], b);
    }
  }

  // The handler is about to act on an enabled connect change of ready media.
  predicate LinkChanges(s: System, step: Step) {
    step.ControllerTurn? && s.isr.IsrDispatch? && s.isr.snapshot.connect && s.isr.mask.connect && s.port.dev.ready
  }

  lemma LinkChangeSilences(s: System, l: Latching, step: Step)
    requires Invariant(s) && Allowed(s, l, step) && LinkChanges(s, step)
    ensures var t := Next(s, l, step);
            && Silent(t)
            && t.port.dev.queued == s.port.dev.queued + Count(s.port.usbConfigured && s.port.dev.queued == 0)
  {
    StepKeeps(s, l, step);
    NotClosed(s);
    hide Invariant, FatalRecovery, Completions;
  }

  lemma NotClosed(s: System)
    requires Invariant(s) && s.isr.IsrDispatch? && s.isr.mask.connect && s.port.dev.ready
    ensures !LunClosed(Active(s)) && !s.main.Lun?
  {
  }

  // From power-up: once the handler has acted on a link change of ready media, a configured
  // transport has a callback waiting, at most one was added and only to an empty queue, and
  // from any later moment on nothing that happens, re-check turns included, adds one before
  // media is published again.
  lemma TerminalNotification(s: System, l: Latching, before: seq<Step>, step: Step, a: seq<Step>, b: seq<Step>)
    requires Boot(s) && AllowedRun(s, l, before)
    requires var e := Exec(s, l, before);
             && Allowed(e, l, step) && LinkChanges(e, step) && UnpublishedRun(Next(e, l, step), l, a + b)
    ensures var e := Exec(s, l, before); var t := Next(e, l, step);
            && (e.port.usbConfigured ==> t.port.dev.queued >= 1)
            && e.port.dev.queued <= t.port.dev.queued <= e.port.dev.queued + 1
            && (t.port.dev.queued != e.port.dev.queued ==> e.port.dev.queued == 0)
            && Exec(t, l, a + b).port.dev.queued <= Exec(t, l, a).port.dev.queued <= t.port.dev.queued
  {
    BootHolds(s);
    RunKeeps(s, l, before);
    var e := Exec(s, l, before);
    LinkChangeSilences(e, l, step);
    var t := Next(e, l, step);
    UnpublishedSplit(t, l, a, b);
    SilentRun(t, l, a);
    SilentRun(Exec(t, l, a), l, b);
    hide Exec, AllowedRun, UnpublishedRun, Boot, Next, Invariant, Allowed, Silent;
  }

  // How many callbacks a turn adds to the queue of unready media.
  function Additions(snapshot: Bits, mask: Bits, o: Oracle): nat {
    if LinkShown(snapshot, mask) || FatalShown(snapshot, mask) then 0 else Completed(snapshot, mask, o)
  }

  // When ahci_isr holds a mask from before the port was closed: the receiver-error handler has
  // made a request since the PxIE read, in motion or after the limiter fired.
  lemma StaleArises(s: System, l: Latching, step: Step)
    requires Invariant(s) && Allowed(s, l, step) && !Stale(s)
    ensures Stale(Next(s, l, step)) <==>
              && step.ReceiverErrorIsr? && s.isr.IsrDispatch? && s.isr.mask != NONE
              && Next(s, l, step).port.req.pending
    ensures Stale(Next(s, l, step)) ==>
              !ReceiverDecision(s.port, step.r).Ignore? && !ReceiverDecision(s.port, step.r).Abandon?
  {
    hide ThreadInvariant, IsrTurn, Advance, Racy;
    match step
    case ReceiverErrorIsr(r) => ReceiverStale(s.port, l, r, Active(s));
    case _ =>
  }

  lemma ReceiverStale(p: Port, l: Latching, r: ReceiverOracle, pc: Pc)
    requires ThreadInvariant(p, pc) && p.vim.receiver
    ensures var q := ReceiverError(p, l, r);
            && (q.req.pending ==>
                  q.reg.ie == NONE && ReceiverDecision(p, r) != Ignore && ReceiverDecision(p, r) != Abandon)
            && (!q.req.pending ==> q.reg.ie == p.reg.ie)
  {
  }

  // With such a mask the handler still adds callbacks to the closed port: exactly when the mask
  // shows a completion and neither a connect change nor a fatal error.
  lemma MaskGap(s: System, l: Latching, o: Oracle)
    requires Invariant(s) && Stale(s)
    ensures var u := Next(s, l, ControllerTurn(o));
            && !s.port.dev.ready && !u.port.dev.ready && u.port.req.pending
            && u.port.dev.queued == s.port.dev.queued + Additions(s.isr.snapshot, s.isr.mask, o)
  {
    hide ThreadInvariant, Additions, IsrTurn, Settle;
    PendingIsUnready(s.port, Active(s));
    UnreadyTurn(s.port, l, s.isr.snapshot, s.isr.mask, o);
    SettleKeepsDevice(IsrTurn(s.port, l, s.isr.snapshot, s.isr.mask, o));
  }

  lemma PendingIsUnready(p: Port, pc: Pc)
    requires ThreadInvariant(p, pc) && p.req.pending
    ensures !p.dev.ready
  {
  }

  lemma SettleKeepsDevice(p: Port)
    ensures Settle(p).dev == p.dev && Settle(p).req == p.req
  {
  }

  lemma UnreadyTurn(p: Port, l: Latching, snapshot: Bits, mask: Bits, o: Oracle)
    requires !p.dev.ready && p.req.pending
    ensures var q := IsrTurn(p, l, snapshot, mask, o);
            && !q.dev.ready && q.req.pending
            && q.dev.queued == p.dev.queued + Additions(snapshot, mask, o)
  {
    hide IsrTurn, Completed, LinkShown, FatalShown;
    if LinkShown(snapshot, mask) {
      LinkTurn(p, l, snapshot, mask, o);
    } else if FatalShown(snapshot, mask) {
      FatalTurn(p, l, snapshot, mask, o);
    } else {
      CompletionTurn(p, l, snapshot, mask, o);
    }
  }

  // So a step adds a callback to an unready, closed port that no reset owes one exactly there.
  lemma AddsExactly(s: System, l: Latching, step: Step)
    requires Invariant(s) && SilentThread(s.port, Active(s)) && Allowed(s, l, step)
    requires !Next(s, l, step).port.dev.ready
    ensures Next(s, l, step).port.dev.queued > s.port.dev.queued <==>
              && Stale(s) && step.ControllerTurn?
              && !LinkShown(s.isr.snapshot, s.isr.mask) && !FatalShown(s.isr.snapshot, s.isr.mask)
              && Completed(s.isr.snapshot, s.isr.mask, step.o) > 0
  {
    hide Invariant, SilentThread, Next, Stale;
    if !Stale(s) {
      SilentStep(s, l, step);
    } else if step.ControllerTurn? {
      MaskGap(s, l, step.o);
    } else {
      StaleWaits(s, l, step);
    }
  }

  // Until the dispatch nothing but hardware moves.
  lemma StaleWaits(s: System, l: Latching, step: Step)
    requires Stale(s) && SilentThread(s.port, Active(s)) && Allowed(s, l, step) && !step.ControllerTurn?
    ensures step.Hardware? && Next(s, l, step).port.dev == s.port.dev
  {
  }
}
