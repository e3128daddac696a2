// The interleavings that break the lifecycle claims where discovery is taken over, and exactly
// when they are possible.
module LifecycleRaces {
  import opened PortModel
  import opened Lifecycle
  import opened LifecycleInvariant

  // What hardware allows, races included.
  predicate Possible(s: System, l: Latching, step: Step) {
    Enabled(s, step) && Assumed(s, step)
  }

  predicate PossibleRun(s: System, l: Latching, steps: seq<Step>)
    decreases |steps|
  {
    steps == [] || (Possible(s, l, steps[0]) && PossibleRun(Next(s, l, steps[0]), l, steps[1..]))
  }

  // The level that runs has taken a request over, or is about to, with an interrupt left that
  // can make another: an enabled connect change, or, in ahci_init as called from
  // ahci_reset_lun, the receiver-error source.
  predicate Exposed(s: System) {
    && (Active(s) == Svc(Link) || Entering(Active(s)))
    && (s.port.reg.ie.connect || (s.port.vim.receiver && !s.usb.Rest?))
  }

  // A race needs an exposed take-over, or a receiver error between the sample of readiness and
  // the PxIE write that end ahci_reset_lun.
  lemma RaceNeeds(s: System, l: Latching, step: Step)
    requires Invariant(s) && Possible(s, l, step) && Racy(s, l, step)
    ensures Exposed(s) || (step.ReceiverErrorIsr? && LunArming(s.usb))
  {
    hide ThreadInvariant, IsrTurn, ReceiverError, Reinitializing, Entering, LunArming;
    EnteringUnready(s.port, Active(s));
    EnteringReceiver(s.port, Active(s));
    LevelsEnter(s);
    if step.ControllerTurn? {
      TurnRequests(s.port, l, s.isr.snapshot, s.isr.mask, step.o);
    } else {
      ReceiverRequests(s.port, l, step.r);
    }
  }

  lemma EnteringUnready(p: Port, pc: Pc)
    requires ThreadInvariant(p, pc)
    ensures Entering(pc) && !Reinitializing(pc) ==> !p.dev.ready
    ensures LunArming(pc) ==> p.reg.ie == NONE && p.vim.receiver
    ensures Entering(pc) && p.dev.ready ==> p.vim.receiver
  {
  }

  lemma EnteringReceiver(p: Port, pc: Pc)
    requires ThreadInvariant(p, pc)
    ensures Entering(pc) && !Reinitializing(pc) ==> !p.vim.receiver
  {
  }

  // A foreground that has taken a request over is not preempted by USB code.
  lemma LevelsEnter(s: System)
    requires Invariant(s)
    ensures Entering(s.main) || Reinitializing(s.main) ==> s.usb.Rest?
    ensures !s.usb.Rest? ==> !Entering(s.main)
    ensures Reinitializing(s.main) ==> !s.port.dev.ready
    ensures !LunArming(Rest) && !Entering(Rest) && !Reinitializing(Rest)
    ensures !LunArming(s.main) && (Reinitializing(s.usb) ==> s.usb == Active(s))
    ensures !s.port.req.pending && s.isr.IsrDispatch? ==> s.isr.mask == s.port.reg.ie
  {
    hide ThreadInvariant;
  }

  lemma TurnRequests(p: Port, l: Latching, snapshot: Bits, mask: Bits, o: Oracle)
    ensures var q := IsrTurn(p, l, snapshot, mask, o);
            !p.req.pending && q.req.pending ==>
              (snapshot.connect && mask.connect) || (p.dev.ready && mask != NONE)
  {
  }

  lemma ReceiverRequests(p: Port, l: Latching, r: ReceiverOracle)
    ensures !p.req.pending && ReceiverError(p, l, r).req.pending ==> r.motion || p.dev.ready
  {
  }

  // --- A request is taken over, by ahci_service or by ahci_init ---

  // From the last statement before the take-over to the end of the publication window it
  // leads to: the link test of ahci_service, or the HBA reset of ahci_init.
  predicate InTakeover(pc: Pc) {
    || pc == Svc(Link) || pc == Svc(TakeQuiesced) || pc == Svc(TakeWait) || pc == Hba(GlobalReset)
    || (pc.Init? && (Opening(pc.at) || Isolated(pc) || pc.at.UnmaskSata?))
  }

  predicate TakeoverRun(s: System, l: Latching, steps: seq<Step>)
    decreases |steps|
  {
    && InTakeover(Active(s))
    && (steps == [] || (Possible(s, l, steps[0]) && TakeoverRun(Next(s, l, steps[0]), l, steps[1..])))
  }

  ghost predicate CanPublishPending(s: System, l: Latching) {
    exists steps ::
      TakeoverRun(s, l, steps) && Exec(s, l, steps).port.dev.ready && Exec(s, l, steps).port.req.pending
  }

  // Nothing that can make a new request is left open while the request is taken over.
  predicate Closed(s: System) {
    Invariant(s) && InTakeover(Active(s)) && !Exposed(s)
  }

  lemma ClosedKeeps(s: System, l: Latching, step: Step)
    requires Closed(s) && Possible(s, l, step) && InTakeover(Active(Next(s, l, step)))
    ensures Closed(Next(s, l, step))
  {
    hide ThreadInvariant, Advance, IsrTurn, ReceiverError, InTakeover, Entering;
    TakeoverIsNotArming(s);
    if Racy(s, l, step) {
      RaceNeeds(s, l, step);
    }
    StepKeeps(s, l, step);
    if step.ControllerTurn? {
      TurnEffect(s.port, l, s.isr.snapshot, s.isr.mask, step.o);
    } else if step.ReceiverErrorIsr? {
      ReceiverEffect(s.port, l, step.r);
    } else if step.MainStep? || step.UsbStep? {
      TakeoverThread(s, step);
      TakeoverAdvance(s.port, l, step.o, step.enables, Active(s));
    } else {
      TakeoverUsb(s);
    }
  }

  lemma TakeoverIsNotArming(s: System)
    requires Invariant(s) && InTakeover(Active(s))
    ensures !LunArming(s.usb)
  {
    hide ThreadInvariant;
  }

  // The thread that takes over is the one that runs, and the other level stays where it is.
  lemma TakeoverThread(s: System, step: Step)
    requires Invariant(s) && Enabled(s, step) && (step.MainStep? || step.UsbStep?)
    ensures step.MainStep? ==> s.usb.Rest? && Active(s) == s.main
    ensures step.UsbStep? ==> Active(s) == s.usb && !Reinitializing(s.main) && !InTakeover(s.main)
  {
    hide ThreadInvariant;
  }

  lemma TakeoverUsb(s: System)
    requires Invariant(s) && InTakeover(Active(s))
    ensures s.usb.Rest? ==> !(s.port.dev.ready && s.port.vim.usb)
  {
  }

  lemma TakeoverAdvance(p: Port, l: Latching, o: Oracle, enables: Bits, pc: Pc)
    requires InTakeover(pc)
    ensures var (q, next) := Advance(p, l, o, enables, pc);
            (next == Svc(Link) || Entering(next)) && InTakeover(next) ==>
              && (pc == Svc(Link) || Entering(pc)) && (q.reg.ie == p.reg.ie || q.reg.ie == NONE)
              && (q.vim.receiver ==> p.vim.receiver)
  {
    hide EnterStep, IsolatedStep, PublishStep, HbaReset;
    if pc.Init? {
      if Opening(pc.at) {
        TakeoverEnters(p, pc);
      } else {
        TakeoverLeaves(p, l, o, pc);
      }
    } else if pc.Hba? {
      HbaResets(p);
    }
  }

  lemma HbaResets(p: Port)
    ensures HbaReset(p).reg.ie == NONE && HbaReset(p).vim == p.vim
  {
  }

  lemma TakeoverEnters(p: Port, pc: Pc)
    requires pc.Init? && Opening(pc.at)
    ensures var (q, next) := EnterStep(p, pc);
            && next.Init? && next.caller == pc.caller && Entering(pc)
            && (Entering(next) ==> q.reg.ie == p.reg.ie && (q.vim.receiver ==> p.vim.receiver))
  {
  }

  lemma TakeoverLeaves(p: Port, l: Latching, o: Oracle, pc: Pc)
    requires pc.Init? && InTakeover(pc) && !Opening(pc.at)
    ensures var next := InitStep(p, l, o, pc).1; next.Init? && !Opening(next.at)
  {
    hide Schedule, Start, PortReset, HbaReset, Both, AfterErrorWrite, AfterStatusWrite;
  }

  lemma {:induction false} ClosedRunKeeps(s: System, l: Latching, steps: seq<Step>)
    requires Closed(s) && TakeoverRun(s, l, steps)
    ensures Closed(Exec(s, l, steps))
    decreases |steps|
  {
    hide Next, Closed, Possible, InTakeover;
    if steps != [] {
      assert TakeoverRun(Next(s, l, steps[0]), l, steps[1..]);
      assert InTakeover(Active(Next(s, l, steps[0])));
      ClosedKeeps(s, l, steps[0]);
      ClosedRunKeeps(Next(s, l, steps[0]), l, steps[1..]);
    }
  }

  // A take-over with nothing open never publishes media with a pending request.
  lemma ClosedNeverBreaks(s: System, l: Latching)
    requires Closed(s)
    ensures !CanPublishPending(s, l)
  {
    forall steps | TakeoverRun(s, l, steps)
      ensures !(Exec(s, l, steps).port.dev.ready && Exec(s, l, steps).port.req.pending)
    {
      ClosedRunKeeps(s, l, steps);
      hide Exec, TakeoverRun;
    }
  }

  // --- A request made after the take-over survives to publication: nothing looks at it again ---

  // A connect change latched before this statement is cleared before publication looks.
  predicate StillCleared(pc: Pc, l: Latching) {
    !pc.Init? || Opening(pc.at) || pc.at.Baseline?
    || (l.Reflect? && (pc.at.Idle? || pc.at.Discover? || pc.at.Recapture? || pc.at.ClearPxserr?))
  }

  predicate Marches(p: Port, l: Latching, pc: Pc) {
    && p.req.pending && p.reg.det == DET_PHY_READY && InTakeover(pc) && pc != Svc(Link)
    && (Changed(p) ==> StillCleared(pc, l))
    && (pc.Init? ==>
          && (Opening(pc.at) || pc.at.Baseline? || pc.at.Idle? || pc.ok)
          && (Admitted(pc.at) ==> pc.discovery == p.epoch)
          && (pc.at.UnmaskSata? ==> p.dev.ready))
  }

  predicate Marching(s: System, l: Latching) {
    s.isr.IsrIdle? && Marches(s.port, l, Active(s))
  }

  predicate Admitted(at: InitAt) {
    at.ClearPxserr? || at.ClearPxis? || at.ClearGlobal? || at.MaskAll? || at.Publish?
  }

  function TakeoverLeft(pc: Pc): nat {
    if pc == Svc(TakeQuiesced) then 19
    else if pc == Svc(TakeWait) || pc == Hba(GlobalReset) then 18
    else if pc.Init? then StatementsLeft(pc.at) else 0
  }

  // The next statement of the level that runs, with every poll going well.
  function Onward(s: System): Step {
    if s.usb.Rest? then MainStep(ALL_WELL, NONE) else UsbStep(ALL_WELL, NONE)
  }

  lemma MarchStep(s: System, l: Latching)
    requires Marching(s, l) && !(Active(s).Init? && Active(s).at.UnmaskSata?)
    ensures Possible(s, l, Onward(s)) && Marching(Next(s, l, Onward(s)), l)
    ensures TakeoverLeft(Active(Next(s, l, Onward(s)))) < TakeoverLeft(Active(s))
  {
    hide Marches, Advance, Settle, InTakeover, TakeoverLeft;
    var p, pc := s.port, Active(s);
    var (q, next) := Advance(p, l, ALL_WELL, NONE, pc);
    MarchThread(p, l, pc);
    MarchSettles(p, l, pc);
    MarchSettles(q, l, next);
    assert Next(s, l, Onward(s)).port == Settle(q) && Active(Next(s, l, Onward(s))) == next;
  }

  lemma MarchSettles(p: Port, l: Latching, pc: Pc)
    requires Marches(p, l, pc)
    ensures Marches(Settle(p), l, pc) && !pc.Lun?
  {
  }

  predicate MarchesOn(l: Latching, pc: Pc, q: Port, next: Pc) {
    Marches(q, l, next) && next != Rest && TakeoverLeft(next) < TakeoverLeft(pc)
  }

  lemma MarchThread(p: Port, l: Latching, pc: Pc)
    requires Marches(p, l, pc) && !(pc.Init? && pc.at.UnmaskSata?)
    ensures var (q, next) := Advance(p, l, ALL_WELL, NONE, pc); MarchesOn(l, pc, q, next)
  {
    hide InitStep, MarchesOn;
    if pc.Init? {
      MarchInit(p, l, pc);
    } else {
      MarchTakes(p, l, pc);
    }
  }

  lemma MarchTakes(p: Port, l: Latching, pc: Pc)
    requires Marches(p, l, pc) && !pc.Init?
    ensures var (q, next) := Advance(p, l, ALL_WELL, NONE, pc); MarchesOn(l, pc, q, next)
  {
    hide InitStep, Both;
  }

  lemma MarchInit(p: Port, l: Latching, pc: Pc)
    requires pc.Init? && Marches(p, l, pc) && !pc.at.UnmaskSata?
    ensures var (q, next) := InitStep(p, l, ALL_WELL, pc); MarchesOn(l, pc, q, next)
  {
    hide EnterStep, IsolatedStep, PublishStep, Marches, MarchesOn;
    if Opening(pc.at) {
      MarchEnters(p, l, pc);
    } else if Publishing(pc.at) {
      MarchPublishes(p, l, pc);
    } else {
      MarchIsolated(p, l, pc);
    }
  }

  lemma MarchEnters(p: Port, l: Latching, pc: Pc)
    requires pc.Init? && Marches(p, l, pc) && Opening(pc.at)
    ensures var (q, next) := EnterStep(p, pc); MarchesOn(l, pc, q, next)
  {
    hide Both;
  }

  lemma MarchPublishes(p: Port, l: Latching, pc: Pc)
    requires pc.Init? && Marches(p, l, pc) && Publishing(pc.at) && !pc.at.UnmaskSata?
    ensures var (q, next) := PublishStep(p, pc); MarchesOn(l, pc, q, next)
  {
    hide Schedule;
  }

  lemma MarchIsolated(p: Port, l: Latching, pc: Pc)
    requires pc.Init? && Marches(p, l, pc) && !Opening(pc.at) && !Publishing(pc.at)
    ensures var (q, next) := IsolatedStep(p, l, ALL_WELL, pc); MarchesOn(l, pc, q, next)
  {
    hide Start, PortReset, HbaReset;
  }

  lemma {:induction false} March(s: System, l: Latching) returns (steps: seq<Step>)
    requires Marching(s, l)
    ensures TakeoverRun(s, l, steps)
    ensures Exec(s, l, steps).port.dev.ready && Exec(s, l, steps).port.req.pending
    decreases TakeoverLeft(Active(s))
  {
    hide Next, Possible;
    if Active(s).Init? && Active(s).at.UnmaskSata? {
      steps := [];
    } else {
      MarchStep(s, l);
      var rest := March(Next(s, l, Onward(s)), l);
      steps := [Onward(s)] + rest;
    }
  }

  lemma TakeoverFirst(s: System, l: Latching, step: Step, rest: seq<Step>)
    requires InTakeover(Active(s)) && Possible(s, l, step) && TakeoverRun(Next(s, l, step), l, rest)
    ensures TakeoverRun(s, l, [step] + rest) && Exec(s, l, [step] + rest) == Exec(Next(s, l, step), l, rest)
  {
    hide Next, Possible;
    assert ([step] + rest)[1..] == rest;
  }

  // A connect change right after the take-over makes the new request.
  lemma ConnectInWindow(s: System, l: Latching) returns (steps: seq<Step>)
    requires s.isr.IsrIdle? && InTakeover(Active(s)) && Entering(Active(s))
    requires s.port.reg.ie.connect && s.port.vim.controller
    ensures TakeoverRun(s, l, steps) && Marching(Exec(s, l, steps), l)
  {
    hide InTakeover, Marching;
    var arrive := Hardware(CONNECT_CHANGE, DET_PHY_READY, s.port.usbConfigured);
    var turn := ControllerTurn(ALL_WELL);
    var s1 := Next(s, l, arrive);
    Arrival(s, l);
    var s4 := Next(Next(Next(s1, l, ControllerEnter), l, ControllerMask), l, turn);
    HandlerRequests(s1, l);
    hide Next, Possible;
    TakeoverFirst(Next(Next(s1, l, ControllerEnter), l, ControllerMask), l, turn, []);
    TakeoverFirst(Next(s1, l, ControllerEnter), l, ControllerMask, [turn] + []);
    TakeoverFirst(s1, l, ControllerEnter, [ControllerMask] + ([turn] + []));
    TakeoverFirst(s, l, arrive, [ControllerEnter] + ([ControllerMask] + ([turn] + [])));
    assert Exec(s4, l, []) == s4;
    steps := [arrive] + ([ControllerEnter] + ([ControllerMask] + ([turn] + [])));
  }

  lemma Arrival(s: System, l: Latching)
    requires s.port.reg.ie.connect && s.port.vim.controller && s.isr.IsrIdle?
    ensures var step := Hardware(CONNECT_CHANGE, DET_PHY_READY, s.port.usbConfigured);
            var t := Next(s, l, step);
            && Possible(s, l, step) && t.isr.IsrIdle? && Active(t) == Active(s)
            && t.port.reg.ips && Changed(t.port) && t.port.reg.det == DET_PHY_READY
            && t.port.reg.ie == s.port.reg.ie && t.port.vim == s.port.vim
  {
  }

  // The AHCI handler turns a connect change into a request.
  lemma HandlerRequests(s: System, l: Latching)
    requires s.isr.IsrIdle? && s.port.vim.controller && s.port.reg.ips && s.port.reg.ie.connect && Changed(s.port)
    requires s.port.reg.det == DET_PHY_READY && InTakeover(Active(s)) && Entering(Active(s))
    ensures var s1, turn := Next(s, l, ControllerEnter), ControllerTurn(ALL_WELL);
            var s2 := Next(s1, l, ControllerMask);
            && Possible(s, l, ControllerEnter) && Possible(s1, l, ControllerMask) && Possible(s2, l, turn)
            && InTakeover(Active(s1)) && InTakeover(Active(s2)) && InTakeover(Active(Next(s2, l, turn)))
            && Marching(Next(s2, l, turn), l)
  {
    hide InTakeover, IsrTurn, Both;
    LinkChangeTurn(s.port, l, ALL_WELL);
  }

  lemma LinkChangeTurn(p: Port, l: Latching, o: Oracle)
    requires p.reg.ie.connect && p.reg.status.connect
    ensures var q := IsrTurn(p, l, p.reg.status, p.reg.ie, o);
            q.req.pending && q.reg.status == NONE && q.reg.det == p.reg.det
  {
    hide FatalRecovery, Completions;
  }

  // So does a receiver error while the mechanism moves.
  lemma ReceiverInWindow(s: System, l: Latching) returns (steps: seq<Step>)
    requires s.isr.IsrIdle? && Entering(Active(s)) && InTakeover(Active(s)) && !Reinitializing(s.main)
    requires s.port.vim.receiver
    ensures TakeoverRun(s, l, steps) && Marching(Exec(s, l, steps), l)
  {
    var arrive := Hardware(NONE, DET_PHY_READY, s.port.usbConfigured);
    var fault := ReceiverErrorIsr(ReceiverOracle(1, true, false, false, false));
    var s1 := Next(s, l, arrive);
    var s2 := Next(s1, l, fault);
    assert s2.port.req.pending && s2.port.reg.det == DET_PHY_READY && Active(s2) == Active(s1) == Active(s);
    assert Possible(s, l, arrive) && Possible(s1, l, fault);
    hide Next, Possible;
    TakeoverFirst(s1, l, fault, []);
    TakeoverFirst(s, l, arrive, [fault] + []);
    assert Exec(s2, l, []) == s2;
    steps := [arrive] + ([fault] + []);
  }

  lemma {:induction false} TakeoverAppend(s: System, l: Latching, a: seq<Step>, b: seq<Step>)
    requires TakeoverRun(s, l, a) && TakeoverRun(Exec(s, l, a), l, b)
    ensures TakeoverRun(s, l, a + b) && Exec(s, l, a + b) == Exec(Exec(s, l, a), l, b)
    decreases |a|
  {
    hide Next, Possible;
    if a == [] {
      assert a + b == b;
    } else {
      assert (a + b)[1..] == a[1..] + b;
      TakeoverAppend(Next(s, l, a[0]), l, a[1..], b);
    }
  }

  lemma MarchBreaks(s: System, l: Latching, a: seq<Step>)
    requires TakeoverRun(s, l, a) && Marching(Exec(s, l, a), l)
    ensures CanPublishPending(s, l)
  {
    hide Exec, TakeoverRun, Marching;
    var b := March(Exec(s, l, a), l);
    TakeoverAppend(s, l, a, b);
  }

  // From the link test: the port may first have to become PHY ready.
  lemma LinkBreaks(s: System, l: Latching)
    requires s.main == Svc(Link) && s.usb.Rest? && s.isr.IsrIdle?
    requires s.port.reg.ie.connect && s.port.vim.controller
    ensures CanPublishPending(s, l)
  {
    var arrive := Hardware(NONE, DET_PHY_READY, s.port.usbConfigured);
    var take := MainStep(ALL_WELL, NONE);
    var s1 := Next(s, l, arrive);
    var s2 := Next(s1, l, take);
    assert s1.main == Svc(Link) && s2.main == Svc(TakeQuiesced) && s2.port.reg.ie.connect;
    var a := ConnectInWindow(s2, l);
    hide Next, Marching;
    TakeoverFirst(s1, l, take, a);
    TakeoverFirst(s, l, arrive, [take] + a);
    MarchBreaks(s, l, [arrive] + ([take] + a));
  }

  // ahci_service and ahci_init can publish media whose rediscovery is pending exactly when
  // their take-over is exposed, at every statement from the link test of ahci_service or the
  // HBA reset of ahci_init on.
  lemma TakeoverRace(s: System, l: Latching)
    requires Invariant(s) && InTakeover(Active(s)) && s.isr.IsrIdle?
    ensures CanPublishPending(s, l) <==> Exposed(s)
  {
    hide ThreadInvariant, CanPublishPending;
    TakeoverOpen(s);
    if !Exposed(s) {
      ClosedNeverBreaks(s, l);
    } else if Active(s) == Svc(Link) {
      LinkBreaks(s, l);
    } else if s.port.reg.ie.connect {
      var a := ConnectInWindow(s, l);
      MarchBreaks(s, l, a);
    } else {
      var a := ReceiverInWindow(s, l);
      MarchBreaks(s, l, a);
    }
  }

  lemma TakeoverOpen(s: System)
    requires Invariant(s) && InTakeover(Active(s))
    ensures Active(s) == Svc(Link) || Entering(Active(s)) ==> s.port.vim.controller
    ensures Active(s) == Svc(Link) ==> s.usb.Rest? && s.main == Svc(Link) && !s.port.vim.receiver
    ensures !s.usb.Rest? ==> !Reinitializing(s.main)
  {
  }

  // A race that has happened is past help: whatever it was, successful discovery publishes.
  lemma RaceBreaks(s: System, l: Latching, step: Step)
    requires Invariant(s) && Possible(s, l, step) && Racy(s, l, step) && Entering(Active(s))
    requires Next(s, l, step).isr.IsrIdle?
    ensures CanPublishPending(Next(s, l, step), l)
  {
    var t := Next(s, l, step);
    var arrive := Hardware(NONE, DET_PHY_READY, t.port.usbConfigured);
    EnteringWindow(Active(s));
    assert Marching(Next(t, l, arrive), l) && InTakeover(Active(t));
    TakeoverFirst(t, l, arrive, []);
    MarchBreaks(t, l, [arrive] + []);
  }

  lemma EnteringWindow(pc: Pc)
    requires Entering(pc)
    ensures InTakeover(pc) && forall l :: StillCleared(pc, l)
  {
  }

  // --- Runs in which no race is possible ---

  // No SATA handler runs in an exposed take-over, and no receiver handler between the sample
  // of readiness and the PxIE write that end ahci_reset_lun.
  predicate Guarded(s: System, step: Step) {
    && (step.ControllerTurn? ==> !Exposed(s))
    && (step.ReceiverErrorIsr? ==> !Exposed(s) && !LunArming(s.usb))
  }

  predicate GuardedRun(s: System, l: Latching, steps: seq<Step>)
    decreases |steps|
  {
    steps == [] || (Possible(s, l, steps[0]) && Guarded(s, steps[0]) && GuardedRun(Next(s, l, steps[0]), l, steps[1..]))
  }

  lemma {:induction false} GuardedRunKeeps(s: System, l: Latching, steps: seq<Step>)
    requires Invariant(s) && GuardedRun(s, l, steps)
    ensures AllowedRun(s, l, steps)
    decreases |steps|
  {
    hide Next, Invariant, Enabled, Assumed, Racy, Exposed;
    if steps != [] {
      if Racy(s, l, steps[0]) {
        RaceNeeds(s, l, steps[0]);
        RacyIsHandler(s, l, steps[0]);
      }
      StepKeeps(s, l, steps[0]);
      GuardedRunKeeps(Next(s, l, steps[0]), l, steps[1..]);
    }
  }

  lemma RacyIsHandler(s: System, l: Latching, step: Step)
    requires Racy(s, l, step)
    ensures step.ControllerTurn? || step.ReceiverErrorIsr?
  {
  }

  // From power-up no race is reachable until one of the guards fails, so every lifecycle claim
  // holds in every such run; and by TakeoverRace and LunArmingRace each guard is exact.
  lemma RaceFreeUntilGuardFails(s: System, l: Latching, steps: seq<Step>)
    requires Boot(s) && GuardedRun(s, l, steps)
    ensures AllowedRun(s, l, steps) && Invariant(Exec(s, l, steps))
    ensures var e := Exec(s, l, steps);
            e.isr.IsrIdle? && InTakeover(Active(e)) ==> (CanPublishPending(e, l) <==> Exposed(e))
  {
    BootHolds(s);
    GuardedRunKeeps(s, l, steps);
    RunKeeps(s, l, steps);
    var e := Exec(s, l, steps);
    if e.isr.IsrIdle? && InTakeover(Active(e)) {
      TakeoverRace(e, l);
    }
    hide Exec, GuardedRun, AllowedRun, Invariant, CanPublishPending, Exposed;
  }
}
