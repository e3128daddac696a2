// Runs from power-up.  They reach ready media, so that the claims about it are not empty, and
// each of the states from which `LifecycleRaces.dfy`, `LifecycleLimits.dfy`,
// `LifecyclePublish.dfy`, `LifecycleNotify.dfy` and `LifecycleDelivery.dfy` show that the code
// breaks a promise.
module LifecycleWitness {
  import opened PortModel
  import opened PortTurns
  import opened Lifecycle
  import opened LifecycleInvariant
  import opened LifecycleRaces
  import opened LifecycleLimits
  import opened LifecyclePublish
  import opened LifecycleNotify
  import opened LifecycleDelivery

  lemma PromptFirst(s: System, l: Latching, step: Step, rest: seq<Step>)
    requires Allowed(s, l, step) && Prompt(s, step) && PromptRun(Next(s, l, step), l, rest)
    ensures PromptRun(s, l, [step] + rest) && Exec(s, l, [step] + rest) == Exec(Next(s, l, step), l, rest)
  {
    hide Next, Allowed, Prompt;
    assert ([step] + rest)[1..] == rest;
  }

  lemma {:induction false} PromptAppend(s: System, l: Latching, a: seq<Step>, b: seq<Step>)
    requires PromptRun(s, l, a) && PromptRun(Exec(s, l, a), l, b)
    ensures PromptRun(s, l, a + b) && Exec(s, l, a + b) == Exec(Exec(s, l, a), l, b)
    decreases |a|
  {
    hide Next, Allowed, Prompt;
    if a == [] {
      assert a + b == b;
    } else {
      assert (a + b)[1..] == a[1..] + b;
      PromptAppend(Next(s, l, a[0]), l, a[1..], b);
    }
  }

  lemma {:induction false} PromptIsAllowed(s: System, l: Latching, steps: seq<Step>)
    requires PromptRun(s, l, steps)
    ensures AllowedRun(s, l, steps)
    decreases |steps|
  {
    hide Next, Allowed, Prompt;
    if steps != [] {
      PromptIsAllowed(Next(s, l, steps[0]), l, steps[1..]);
    }
  }

  // --- Ready media ---

  // A cartridge has been admitted and nothing else is going on.
  predicate Loaded(s: System) {
    var p := s.port;
    && s.main.Rest? && s.usb.Rest? && s.isr.IsrIdle?
    && p.dev.ready && p.dev.queued == 0 && p.dev.count == 1 && !p.req.pending
    && p.reg.det == DET_PHY_READY && p.reg.ie == DEFAULT_INTR_ENABLE && p.reg.status == NONE && !p.reg.ips
    && p.vim == Sources(true, true, true) && p.hist.changes == 0 && !p.hist.dropped && !p.hist.withdrawn
  }

  predicate Booting(p: Port, pc: Pc) {
    && p.reg.det == DET_PHY_READY && !p.reg.ips && !p.req.pending && p.dev.queued == 0
    && !p.hist.withdrawn && !p.hist.dropped
    && (pc == Hba(Flags) || pc == Hba(GlobalReset) || pc == Hba(Tail(true)) || (pc.Init? && pc.caller.FromHbaInit?))
    && (pc != Hba(Flags) ==> p.dev.count == 0)
    && (pc.Init? ==> pc.ok && !Changed(p) && BootingInit(p, pc))
    && (p.dev.ready <==>
          (pc.Init? && (pc.at.UnmaskSata? || pc.at.UnmaskUsb? || pc.at.Conclude?)) || pc == Hba(Tail(true)))
    && (!p.dev.ready ==> p.reg.ie == NONE)
    && (p.dev.ready ==> p.reg.ie == DEFAULT_INTR_ENABLE && p.reg.status == NONE && p.hist.changes == 0)
    && (pc == Hba(Tail(true)) ==> p.vim == Sources(true, true, true))
  }

  predicate BootingInit(p: Port, pc: Pc)
    requires pc.Init?
  {
    && (Deciding(pc) || pc.at.ClearPxserr? ==> pc.discovery == p.epoch)
    && (Deciding(pc) ==> p.hist.changes == 0 && (pc.at.ClearPxis? || p.reg.status == NONE))
    && (pc.at.UnmaskUsb? ==> p.vim.receiver && p.vim.controller)
    && (pc.at.Conclude? ==> p.vim == Sources(true, true, true))
  }

  function BootLeft(pc: Pc): nat {
    if pc == Hba(Flags) then 19 else if pc == Hba(GlobalReset) then 18
    else if pc.Init? then StatementsLeft(pc.at) else 0
  }

  predicate BootsOn(pc: Pc, q: Port, next: Pc) {
    Booting(q, next) && BootLeft(next) < BootLeft(pc)
  }

  lemma SettleQuiet(p: Port)
    ensures p.reg.ie == NONE || p.reg.status == NONE ==> Settle(p) == p
  {
  }

  lemma BootEnters(p: Port, pc: Pc)
    requires Booting(p, pc) && pc.Init? && Opening(pc.at)
    ensures var (q, next) := EnterStep(p, pc); BootsOn(pc, q, next) && q.reg.ie == NONE
  {
    hide Both;
  }

  lemma BootDiscovers(p: Port, l: Latching, pc: Pc)
    requires Booting(p, pc) && pc.Init? && !Opening(pc.at) && !Publishing(pc.at)
    ensures var (q, next) := IsolatedStep(p, l, ALL_WELL, pc); BootsOn(pc, q, next) && q.reg.ie == NONE
  {
    hide Start, PortReset, HbaReset, Both;
    if pc.at.ClearPxis? {
      OnlyConnect(p.reg.status);
    }
  }

  lemma OnlyConnect(status: Bits)
    requires !status.connect
    ensures Both(status, CONNECT_CHANGE) == NONE
  {
  }

  lemma BootPublishes(p: Port, pc: Pc)
    requires Booting(p, pc) && pc.Init? && Publishing(pc.at)
    ensures var (q, next) := PublishStep(p, pc); BootsOn(pc, q, next) && (q.reg.ie == NONE || q.reg.status == NONE)
  {
    hide Schedule;
  }

  lemma BootTakes(p: Port, l: Latching, pc: Pc)
    requires Booting(p, pc) && !pc.Init? && pc != Hba(Tail(true))
    ensures var (q, next) := Advance(p, l, ALL_WELL, NONE, pc); BootsOn(pc, q, next) && q.reg.ie == NONE
  {
    hide InitStep, Both;
  }

  lemma BootThread(p: Port, l: Latching, pc: Pc)
    requires Booting(p, pc) && pc != Hba(Tail(true))
    ensures var (q, next) := Advance(p, l, ALL_WELL, NONE, pc); BootsOn(pc, Settle(q), next)
  {
    hide Booting, BootsOn, Settle, EnterStep, IsolatedStep, PublishStep;
    SettleQuiet(Advance(p, l, ALL_WELL, NONE, pc).0);
    if !pc.Init? {
      BootTakes(p, l, pc);
    } else if Opening(pc.at) {
      BootEnters(p, pc);
    } else if Publishing(pc.at) {
      BootPublishes(p, pc);
    } else {
      BootDiscovers(p, l, pc);
    }
  }

  lemma BootStep(s: System, l: Latching)
    requires Booting(s.port, s.main) && s.usb.Rest? && s.isr.IsrIdle? && s.main != Hba(Tail(true))
    ensures var step := MainStep(ALL_WELL, NONE); var t := Next(s, l, step);
            && Allowed(s, l, step) && Prompt(s, step) && BootsOn(s.main, t.port, t.main)
            && t.usb.Rest? && t.isr.IsrIdle?
  {
    hide Advance, Settle, BootsOn;
    BootThread(s.port, l, s.main);
  }

  lemma {:induction false} BootMarch(s: System, l: Latching) returns (steps: seq<Step>)
    requires Booting(s.port, s.main) && s.usb.Rest? && s.isr.IsrIdle?
    ensures PromptRun(s, l, steps)
    ensures var e := Exec(s, l, steps);
            Booting(e.port, e.main) && e.main == Hba(Tail(true)) && e.usb.Rest? && e.isr.IsrIdle?
    decreases BootLeft(s.main)
  {
    hide Next, Allowed, Prompt, Booting;
    if s.main == Hba(Tail(true)) {
      steps := [];
    } else {
      BootStep(s, l);
      var rest := BootMarch(Next(s, l, MainStep(ALL_WELL, NONE)), l);
      PromptFirst(s, l, MainStep(ALL_WELL, NONE), rest);
      steps := [MainStep(ALL_WELL, NONE)] + rest;
    }
  }

  // Every power-up with the PHY ready can end in ready media.
  lemma BootCanPublish(s: System, l: Latching) returns (steps: seq<Step>)
    requires Boot(s) && s.port.reg.det == DET_PHY_READY
    ensures PromptRun(s, l, steps) && Loaded(Exec(s, l, steps))
  {
    var a := BootMarch(s, l);
    hide Exec, PromptRun;
    var e := Exec(s, l, a);
    TailLoads(e, l);
    assert Exec(Next(e, l, MainStep(ALL_WELL, NONE)), l, []) == Next(e, l, MainStep(ALL_WELL, NONE)) by {
      ExecNothing(Next(e, l, MainStep(ALL_WELL, NONE)), l);
    }
    ExecNothing(Next(e, l, MainStep(ALL_WELL, NONE)), l);
    PromptFirst(e, l, MainStep(ALL_WELL, NONE), []);
    PromptAppend(s, l, a, [MainStep(ALL_WELL, NONE)] + []);
    steps := a + ([MainStep(ALL_WELL, NONE)] + []);
  }

  lemma ExecNothing(s: System, l: Latching)
    ensures Exec(s, l, []) == s && PromptRun(s, l, [])
  {
  }

  lemma TailLoads(s: System, l: Latching)
    requires Booting(s.port, s.main) && s.main == Hba(Tail(true)) && s.usb.Rest? && s.isr.IsrIdle?
    ensures var step := MainStep(ALL_WELL, NONE);
            Allowed(s, l, step) && Prompt(s, step) && Loaded(Next(s, l, step))
  {
    SettleQuiet(HbaStep(s.port, ALL_WELL, Tail(true)).0);
    hide Settle;
  }

  // --- ahci_reset_lun on ready media ---

  // `dropping`: a connect change was latched after PxIE was closed.
  predicate Resetting(s: System, dropping: bool) {
    var p := s.port;
    && s.main.Rest? && s.isr.IsrIdle? && s.usb.Lun?
    && p.dev.ready && p.dev.count == 1 && !p.req.pending && !p.reg.ips && p.vim == Sources(true, true, true)
    && (match s.usb.lun
        case LunMask => p.reg.ie == DEFAULT_INTR_ENABLE
        case LunSchedule(was, reset) => was && !reset && p.reg.ie == NONE
        case LunStart(was) => was && p.reg.ie == NONE
        case LunNotify(was) => was && p.reg.ie == NONE
        case LunWrite(enables) => enables == DEFAULT_INTR_ENABLE && p.reg.ie == NONE
        case LunBusy => p.reg.ie == DEFAULT_INTR_ENABLE
        case _ => p.reg.ie == NONE)
    && (if dropping && LunStatementsLeft(s.usb.lun) >= 4 then p.reg.status == CONNECT_CHANGE
        else p.reg.status == NONE)
    && p.hist.changes == (if dropping then 1 else 0)
  }

  const QUIET := UsbStep(Oracle(false, true, true, false, 0), NONE)

  lemma ResetStep(s: System, l: Latching, dropping: bool)
    requires Resetting(s, dropping) && !s.usb.lun.LunBusy? && (dropping ==> l.Reflect?)
    ensures var t := Next(s, l, QUIET);
            && Allowed(s, l, QUIET) && Prompt(s, QUIET) && Resetting(t, dropping)
            && LunStatementsLeft(t.usb.lun) == LunStatementsLeft(s.usb.lun) - 1
  {
    hide Settle, Both, Schedule, InitStep, HbaStep, ServiceStep, Dispatch, RecoverLocal, Session;
    SettleQuiet(LunStep(s.port, l, QUIET.o, s.usb.lun).0);
  }

  lemma {:induction false} ResetMarch(s: System, l: Latching, dropping: bool, left: nat) returns (steps: seq<Step>)
    requires Resetting(s, dropping) && (dropping ==> l.Reflect?) && left <= LunStatementsLeft(s.usb.lun)
    ensures PromptRun(s, l, steps)
    ensures var e := Exec(s, l, steps); Resetting(e, dropping) && LunStatementsLeft(e.usb.lun) == left
    decreases LunStatementsLeft(s.usb.lun)
  {
    hide Next, Allowed, Prompt;
    if LunStatementsLeft(s.usb.lun) == left {
      ExecNothing(s, l);
      steps := [];
    } else {
      ResetStep(s, l, dropping);
      var rest := ResetMarch(Next(s, l, QUIET), l, dropping, left);
      PromptFirst(s, l, QUIET, rest);
      steps := [QUIET] + rest;
    }
  }

  lemma ResetBegins(s: System, l: Latching)
    requires Loaded(s)
    ensures var t := Next(s, l, UsbEnter(ResetLun));
            Allowed(s, l, UsbEnter(ResetLun)) && Prompt(s, UsbEnter(ResetLun)) && Resetting(t, false)
                && t.usb.lun.LunMask?
  {
  }

  // From power-up to `left` statements before the end of ahci_reset_lun.
  lemma ResetReached(s: System, l: Latching, left: nat) returns (steps: seq<Step>)
    requires Boot(s) && s.port.reg.det == DET_PHY_READY && left <= 8
    ensures PromptRun(s, l, steps)
    ensures var e := Exec(s, l, steps); Resetting(e, false) && LunStatementsLeft(e.usb.lun) == left
  {
    hide Exec, PromptRun, Loaded, Resetting, Next, Allowed, Prompt;
    var a := BootCanPublish(s, l);
    var e := Exec(s, l, a);
    ResetBegins(e, l);
    var b := ResetMarch(Next(e, l, UsbEnter(ResetLun)), l, false, left);
    PromptFirst(e, l, UsbEnter(ResetLun), b);
    PromptAppend(s, l, a, [UsbEnter(ResetLun)] + b);
    steps := a + ([UsbEnter(ResetLun)] + b);
  }

  // The race of LunArmingRace is reached, and so is the busy disk of HbaTimeout.
  lemma ArmingReached(s: System, l: Latching) returns (steps: seq<Step>)
    requires Boot(s) && s.port.reg.det == DET_PHY_READY
    ensures PromptRun(s, l, steps) && CanOpenUnready(Exec(s, l, steps), l)
  {
    steps := ResetReached(s, l, 1);
    PromptIsAllowed(s, l, steps);
    BootHolds(s);
    RunKeeps(s, l, steps);
    LunArmingRace(Exec(s, l, steps), l);
    hide Exec, PromptRun, AllowedRun, Boot, Invariant, CanOpenUnready;
  }

  lemma BusyReached(s: System, l: Latching) returns (steps: seq<Step>)
    requires Boot(s) && s.port.reg.det == DET_PHY_READY
    ensures PromptRun(s, l, steps)
    ensures var e := Exec(s, l, steps);
            && e.usb == Lun(LunBusy) && e.isr.IsrIdle? && e.port.dev.ready && !e.port.req.pending
            && e.port.dev.count > 0 && !ConnectOnly(e.port.reg.ie)
  {
    steps := ResetReached(s, l, 0);
    hide Exec, PromptRun, Boot;
  }

  // The queue reset of ahci_reset_lun, with ready media and the receiver source open.
  lemma ClearReached(s: System, l: Latching) returns (steps: seq<Step>)
    requires Boot(s) && s.port.reg.det == DET_PHY_READY
    ensures PromptRun(s, l, steps)
    ensures var e := Exec(s, l, steps);
            && e.usb == Lun(LunClear) && e.isr.IsrIdle? && e.port.vim.receiver && e.port.dev.ready
            && e.main.Rest?
  {
    steps := ResetReached(s, l, 7);
    hide Exec, PromptRun, Boot;
  }

  // A withdrawn medium whose notification is about to be discarded.
  predicate Doomed(s: System, l: Latching) {
    !s.port.dev.ready && s.port.dev.queued > 0 && AtDoor(s.usb) && s.isr.IsrIdle? && !s.main.CbClear?
  }

  const MOVING := ReceiverErrorIsr(ReceiverOracle(1, true, false, false, false))

  // First input: a receiver error between the PxIE write of ahci_reset_lun and its queue reset.
  lemma ReceiverNoticeLost(s: System, l: Latching) returns (steps: seq<Step>)
    requires Boot(s) && s.port.reg.det == DET_PHY_READY
    ensures PromptRun(s, l, steps) && Doomed(Exec(s, l, steps), l) && CanLose(Exec(s, l, steps), l)
  {
    hide Exec, PromptRun, Boot, Next, Allowed, CanLose;
    var a := ClearReached(s, l);
    var e := Exec(s, l, a);
    DoorError(e, l);
    ExecNothing(Next(e, l, MOVING), l);
    PromptFirst(e, l, MOVING, []);
    PromptAppend(s, l, a, [MOVING] + []);
    steps := a + ([MOVING] + []);
    DoorLoses(Next(e, l, MOVING), l);
  }

  lemma DoorError(s: System, l: Latching)
    requires s.usb == Lun(LunClear) && s.isr.IsrIdle? && s.port.vim.receiver && s.port.dev.ready && s.main.Rest?
    ensures Allowed(s, l, MOVING) && Prompt(s, MOVING) && Doomed(Next(s, l, MOVING), l)
  {
  }

  // Second input: a connect change between the test of readiness and the PxIE write.
  lemma LinkNoticeLost(s: System, l: Latching) returns (steps: seq<Step>)
    requires Boot(s) && s.port.reg.det == DET_PHY_READY
    ensures PromptRun(s, l, steps)
    ensures var e := Exec(s, l, steps); Doomed(e, l) && e.port.usbConfigured && CanLose(e, l)
  {
    hide Exec, PromptRun, Boot, Next, Allowed, Prompt, Loaded, CanLose;
    var a := BootCanPublish(s, l);
    var e := Exec(s, l, a);
    var arrive := Hardware(CONNECT_CHANGE, DET_PHY_READY, true);
    var turn := ControllerTurn(ALL_WELL);
    var e1 := Next(e, l, UsbEnter(ResetLun));
    var e2 := Next(e1, l, arrive);
    var e3 := Next(e2, l, ControllerEnter);
    var e4 := Next(e3, l, ControllerMask);
    var e5 := Next(e4, l, turn);
    DoorChange(e, l);
    DoorHandled(e2, l);
    ExecNothing(e5, l);
    PromptFirst(e4, l, turn, []);
    PromptFirst(e3, l, ControllerMask, [turn] + []);
    PromptFirst(e2, l, ControllerEnter, [ControllerMask] + ([turn] + []));
    PromptFirst(e1, l, arrive, [ControllerEnter] + ([ControllerMask] + ([turn] + [])));
    var b := [arrive] + ([ControllerEnter] + ([ControllerMask] + ([turn] + [])));
    PromptFirst(e, l, UsbEnter(ResetLun), b);
    PromptAppend(s, l, a, [UsbEnter(ResetLun)] + b);
    steps := a + ([UsbEnter(ResetLun)] + b);
    DoorLoses(e5, l);
  }

  // Ready media, a configured transport and a latched connect change, with ahci_reset_lun past
  // its test of readiness.
  predicate ChangeAtDoor(s: System) {
    && s.usb == Lun(LunMask) && s.main.Rest? && s.isr.IsrIdle? && s.port.dev.ready && s.port.dev.queued == 0
    && s.port.usbConfigured && s.port.reg.ie == DEFAULT_INTR_ENABLE && s.port.reg.status == CONNECT_CHANGE
    && s.port.reg.ips && s.port.vim.controller
  }

  lemma DoorChange(s: System, l: Latching)
    requires Loaded(s)
    ensures var arrive := Hardware(CONNECT_CHANGE, DET_PHY_READY, true);
            var e1 := Next(s, l, UsbEnter(ResetLun));
            && Allowed(s, l, UsbEnter(ResetLun)) && Prompt(s, UsbEnter(ResetLun))
            && Allowed(e1, l, arrive) && Prompt(e1, arrive) && ChangeAtDoor(Next(e1, l, arrive))
  {
  }

  lemma DoorHandled(s: System, l: Latching)
    requires ChangeAtDoor(s)
    ensures var turn := ControllerTurn(ALL_WELL);
            var e3 := Next(s, l, ControllerEnter); var e4 := Next(e3, l, ControllerMask);
            && Allowed(s, l, ControllerEnter) && Prompt(s, ControllerEnter)
            && Allowed(e3, l, ControllerMask) && Prompt(e3, ControllerMask)
            && Allowed(e4, l, turn) && Prompt(e4, turn)
            && Doomed(Next(e4, l, turn), l) && Next(e4, l, turn).port.usbConfigured
  {
    hide FatalRecovery, Completions;
  }

  const BUSY := UsbStep(Oracle(true, true, true, false, 0), NONE)

  // The exposed take-over of ahci_init is reached, so that the race of TakeoverRace is too.
  lemma InitExposed(s: System, l: Latching) returns (steps: seq<Step>)
    requires Boot(s) && s.port.reg.det == DET_PHY_READY
    ensures PromptRun(s, l, steps)
    ensures var e := Exec(s, l, steps); e.usb == Hba(GlobalReset) && Exposed(e) && CanPublishPending(e, l)
  {
    hide Exec, PromptRun, Boot, CanPublishPending, Invariant, Next, Allowed, Prompt, Exposed, Resetting;
    var a := ResetReached(s, l, 0);
    var e := Exec(s, l, a);
    BusyInit(e, l);
    var t1 := Next(e, l, BUSY);
    var t2 := Next(t1, l, BUSY);
    ExecNothing(t2, l);
    PromptFirst(t1, l, BUSY, []);
    PromptFirst(e, l, BUSY, [BUSY] + []);
    PromptAppend(s, l, a, [BUSY] + ([BUSY] + []));
    steps := a + ([BUSY] + ([BUSY] + []));
    PromptIsAllowed(s, l, steps);
    BootHolds(s);
    RunKeeps(s, l, steps);
    TakeoverRace(t2, l);
  }

  lemma BusyInit(s: System, l: Latching)
    requires Resetting(s, false) && LunStatementsLeft(s.usb.lun) == 0
    ensures var t1 := Next(s, l, BUSY); var t2 := Next(t1, l, BUSY);
            && Allowed(s, l, BUSY) && Prompt(s, BUSY) && Allowed(t1, l, BUSY) && Prompt(t1, BUSY)
            && t2.usb == Hba(GlobalReset) && t2.isr.IsrIdle? && InTakeover(Active(t2)) && Exposed(t2)
  {
    hide Settle;
    SettleQuiet(LunStep(s.port, l, BUSY.o, LunBusy).0);
    SettleQuiet(HbaStep(LunStep(s.port, l, BUSY.o, LunBusy).0, BUSY.o, Flags).0);
  }

  // --- A link that is not PHY ready at power-up ---

  predicate Failing(p: Port, pc: Pc) {
    && p.reg.det != DET_PHY_READY && !p.dev.ready && !p.reg.ips && p.dev.queued == 0 && p.vim.controller
    && (match pc
        case Hba(at) =>
          (match at
           case Flags => p.reg.ie == NONE
           case GlobalReset => p.reg.ie == NONE && !p.req.pending && !p.req.quiesced
           case Tail(ok) => !ok && p.reg.ie == CONNECT_CHANGE && p.reg.status == NONE && !p.req.quiesced
           case TailQuiesced => p.reg.ie == CONNECT_CHANGE && p.reg.status == NONE && p.req.pending)
        case Init(at, caller, _, ok) =>
          && caller.FromHbaInit? && p.reg.ie == NONE && !p.req.pending && !p.req.quiesced && !Changed(p)
          && (at.ClearPxserr? || at.ClearPxis? || at.ClearGlobal? || at.Conclude? ==> !ok)
          && (at.ClearGlobal? || at.Conclude? ==> p.reg.status == NONE)
          && !at.Recapture? && !at.MaskAll? && !at.Publish? && !at.UnmaskSata? && !at.UnmaskUsb?
        case Rest => Asking(p)
        case Svc(at) =>
          Asking(p) && (at.Wait? || at.Drain? || at.Quiesce? || at.StopList? || at.Link?)
          && (at.StopList? || at.Link? ==> p.req.quiesced)
        case _ => false)
  }

  predicate Asking(p: Port) {
    p.req.pending && p.reg.ie == CONNECT_CHANGE && p.reg.status == NONE
  }

  function FailingLeft(p: Port, pc: Pc): nat {
    var late := if p.req.quiesced then 0 else 6;
    match pc
    case Hba(at) =>
      (match at case Flags => 40 case GlobalReset => 39 case Tail(_) => 15 case TailQuiesced => 14)
    case Init(at, _, _, _) => 20 + StatementsLeft(at)
    case Rest => late + 4
    case Svc(at) =>
      (match at case Wait => late + 3 case Drain => late + 2 case Quiesce => late + 1 case StopList => 5 case _ => 0)
    case _ => 0
  }

  const ABSENT := Oracle(false, false, true, false, 4)

  // Discovery fails, and the foreground loop calls ahci_service.
  function Onwards(pc: Pc): Step {
    MainStep(if pc.Init? then ABSENT else ABSENT.(choice := 0), NONE)
  }

  predicate FailsOn(p: Port, pc: Pc, q: Port, next: Pc) {
    Failing(q, next) && FailingLeft(q, next) < FailingLeft(p, pc)
  }

  lemma FailThread(p: Port, l: Latching, pc: Pc)
    requires Failing(p, pc) && pc != Svc(Link)
    ensures var (q, next) := Advance(p, l, Onwards(pc).o, NONE, pc);
            FailsOn(p, pc, q, next) && (q.reg.ie == NONE || q.reg.status == NONE)
  {
    hide Failing, FailsOn, InitStep;
    if pc.Init? {
      FailInit(p, l, pc);
    } else {
      FailAsks(p, l, pc);
    }
  }

  lemma FailAsks(p: Port, l: Latching, pc: Pc)
    requires Failing(p, pc) && pc != Svc(Link) && !pc.Init?
    ensures var (q, next) := Advance(p, l, Onwards(pc).o, NONE, pc);
            FailsOn(p, pc, q, next) && (q.reg.ie == NONE || q.reg.status == NONE)
  {
    hide InitStep, HbaReset, Session, MediaInserted, Both;
    ResetFields(p);
  }

  lemma ResetFields(p: Port)
    ensures HbaReset(p) == p.(reg := p.reg.(ie := NONE, status := NONE, ips := false, started := false),
                              hist := HbaReset(p).hist)
  {
  }

  lemma FailInit(p: Port, l: Latching, pc: Pc)
    requires Failing(p, pc) && pc.Init?
    ensures var (q, next) := InitStep(p, l, ABSENT, pc);
            FailsOn(p, pc, q, next) && (q.reg.ie == NONE || q.reg.status == NONE)
  {
    hide Failing, FailsOn, EnterStep, IsolatedStep, PublishStep;
    if Opening(pc.at) {
      FailEnters(p, pc);
    } else if Publishing(pc.at) {
      FailConcludes(p, pc);
    } else {
      FailIsolated(p, l, pc);
    }
  }

  lemma FailEnters(p: Port, pc: Pc)
    requires Failing(p, pc) && pc.Init? && Opening(pc.at)
    ensures var (q, next) := EnterStep(p, pc); FailsOn(p, pc, q, next) && q.reg.ie == NONE
  {
    hide Both;
  }

  lemma FailIsolated(p: Port, l: Latching, pc: Pc)
    requires Failing(p, pc) && pc.Init? && !Opening(pc.at) && !Publishing(pc.at)
    ensures var (q, next) := IsolatedStep(p, l, ABSENT, pc); FailsOn(p, pc, q, next) && q.reg.ie == NONE
  {
    hide Start, PortReset, HbaReset, Both;
    if pc.at.ClearPxis? {
      OnlyConnect(p.reg.status);
    }
  }

  lemma FailConcludes(p: Port, pc: Pc)
    requires Failing(p, pc) && pc.Init? && Publishing(pc.at)
    ensures var (q, next) := PublishStep(p, pc);
            FailsOn(p, pc, q, next) && (q.reg.ie == NONE || q.reg.status == NONE)
  {
    hide Both, Schedule;
  }

  lemma FailStep(s: System, l: Latching)
    requires Failing(s.port, s.main) && s.usb.Rest? && s.isr.IsrIdle? && s.main != Svc(Link)
    ensures var step := Onwards(s.main); var t := Next(s, l, step);
            && Allowed(s, l, step) && Prompt(s, step) && FailsOn(s.port, s.main, t.port, t.main)
            && t.usb.Rest? && t.isr.IsrIdle?
  {
    hide Advance, Settle, FailsOn;
    FailThread(s.port, l, s.main);
    SettleQuiet(Advance(s.port, l, Onwards(s.main).o, NONE, s.main).0);
  }

  lemma {:induction false} FailMarch(s: System, l: Latching) returns (steps: seq<Step>)
    requires Failing(s.port, s.main) && s.usb.Rest? && s.isr.IsrIdle?
    ensures PromptRun(s, l, steps)
    ensures var e := Exec(s, l, steps); Failing(e.port, e.main) && e.main == Svc(Link) && e.usb.Rest? && e.isr.IsrIdle?
    decreases FailingLeft(s.port, s.main)
  {
    hide Next, Allowed, Prompt, Failing, FailingLeft;
    if s.main == Svc(Link) {
      ExecNothing(s, l);
      steps := [];
    } else {
      FailStep(s, l);
      var rest := FailMarch(Next(s, l, Onwards(s.main)), l);
      PromptFirst(s, l, Onwards(s.main), rest);
      steps := [Onwards(s.main)] + rest;
    }
  }

  // The exposed take-over of ahci_service is reached, so that the race of TakeoverRace is too.
  lemma ServiceExposed(s: System, l: Latching) returns (steps: seq<Step>)
    requires Boot(s) && s.port.reg.det != DET_PHY_READY
    ensures PromptRun(s, l, steps)
    ensures var e := Exec(s, l, steps); e.main == Svc(Link) && Exposed(e) && CanPublishPending(e, l)
  {
    assert Failing(s.port, s.main);
    steps := FailMarch(s, l);
    PromptIsAllowed(s, l, steps);
    BootHolds(s);
    RunKeeps(s, l, steps);
    TakeoverRace(Exec(s, l, steps), l);
    hide Exec, PromptRun, AllowedRun, Boot, Invariant, CanPublishPending;
  }

  // --- The AHCI handler on ready media ---

  // ahci_isr has read `bits` and the mask of ready media.
  function Dispatching(s: System, bits: Bits): System {
    var p := s.port;
    s.(isr := IsrDispatch(bits, DEFAULT_INTR_ENABLE),
       port := p.(reg := p.reg.(status := bits, ips := true), hist := p.hist.(changes := Count(bits.connect))))
  }

  lemma DispatchReached(s: System, l: Latching, bits: Bits) returns (steps: seq<Step>)
    requires Loaded(s) && Both(bits, DEFAULT_INTR_ENABLE) != NONE
    ensures PromptRun(s, l, steps) && Exec(s, l, steps) == Dispatching(s, bits)
  {
    var arrive := Hardware(bits, DET_PHY_READY, s.port.usbConfigured);
    var s1 := Next(s, l, arrive);
    assert s1.port.reg.status == bits && s1.port.reg.ips;
    var s2 := Next(s1, l, ControllerEnter);
    var s3 := Next(s2, l, ControllerMask);
    assert s3 == Dispatching(s, bits);
    assert Allowed(s, l, arrive) && Allowed(s1, l, ControllerEnter) && Allowed(s2, l, ControllerMask);
    hide Next, Allowed;
    ExecNothing(s3, l);
    PromptFirst(s2, l, ControllerMask, []);
    PromptFirst(s1, l, ControllerEnter, [ControllerMask] + []);
    PromptFirst(s, l, arrive, [ControllerEnter] + ([ControllerMask] + []));
    steps := [arrive] + ([ControllerEnter] + ([ControllerMask] + []));
  }

  lemma DispatchFromBoot(s: System, l: Latching, bits: Bits) returns (steps: seq<Step>, loaded: System)
    requires Boot(s) && s.port.reg.det == DET_PHY_READY && Both(bits, DEFAULT_INTR_ENABLE) != NONE
    ensures PromptRun(s, l, steps) && Loaded(loaded) && Exec(s, l, steps) == Dispatching(loaded, bits)
  {
    hide Exec, PromptRun, Loaded, Both;
    var a := BootCanPublish(s, l);
    loaded := Exec(s, l, a);
    var b := DispatchReached(loaded, l, bits);
    PromptAppend(s, l, a, b);
    steps := a + b;
  }

  // The state of MaskGap: a completion read with the mask of ready media, and the receiver
  // source open.
  lemma MaskGapReached(s: System, l: Latching) returns (steps: seq<Step>)
    requires Boot(s) && s.port.reg.det == DET_PHY_READY
    ensures PromptRun(s, l, steps)
    ensures var e := Exec(s, l, steps);
            && e.isr == IsrDispatch(NONE.(fis := NO_FIS.(register := true)), DEFAULT_INTR_ENABLE)
            && e.port.vim.receiver && e.port.dev.ready
  {
    var a, loaded := DispatchFromBoot(s, l, NONE.(fis := NO_FIS.(register := true)));
    steps := a;
    hide Exec, PromptRun, Boot;
  }

  // A stale mask that shows a completion.
  lemma StaleReached(s: System, l: Latching) returns (steps: seq<Step>)
    requires Boot(s) && s.port.reg.det == DET_PHY_READY
    ensures PromptRun(s, l, steps)
    ensures var e := Exec(s, l, steps);
            && Stale(e) && !e.port.dev.ready
            && Completed(e.isr.snapshot, e.isr.mask, ALL_WELL) == 1
  {
    hide Exec, PromptRun, Boot, Next, Allowed, Loaded;
    var a, loaded := DispatchFromBoot(s, l, NONE.(fis := NO_FIS.(register := true)));
    var e := Exec(s, l, a);
    ErrorMakesStale(loaded, l);
    ExecNothing(Next(e, l, MOVING), l);
    PromptFirst(e, l, MOVING, []);
    PromptAppend(s, l, a, [MOVING] + []);
    steps := a + ([MOVING] + []);
  }

  lemma ErrorMakesStale(loaded: System, l: Latching)
    requires Loaded(loaded)
    ensures var e := Dispatching(loaded, NONE.(fis := NO_FIS.(register := true))); var t := Next(e, l, MOVING);
            && Allowed(e, l, MOVING) && Stale(t) && !t.port.dev.ready
            && Completed(t.isr.snapshot, t.isr.mask, ALL_WELL) == 1
  {
  }

  // A link change is handled while the consumer has executed the only callback and not yet
  // cleared its flag.
  lemma ExecutedReached(s: System, l: Latching) returns (steps: seq<Step>)
    requires Boot(s) && s.port.reg.det == DET_PHY_READY
    ensures PromptRun(s, l, steps)
    ensures var e := Exec(s, l, steps); var turn := ControllerTurn(ALL_WELL);
            && Allowed(e, l, turn) && LinkChanges(e, turn) && e.port.usbConfigured
            && Executed(e.main) && e.port.dev.queued == 1 && Unexecuted(Next(e, l, turn)) == 0
  {
    hide Exec, PromptRun, Boot, Next, Allowed, Prompt, Loaded, LinkChanges, Unexecuted;
    var a, loaded := DispatchFromBoot(s, l, NONE.(fis := NO_FIS.(register := true)));
    var e := Exec(s, l, a);
    var turn := ControllerTurn(ALL_WELL);
    var take := MainStep(NO_ORACLE.(choice := 1), NONE);
    var run := MainStep(NO_ORACLE, NONE);
    var arrive := Hardware(CONNECT_CHANGE, DET_PHY_READY, true);
    var e1 := Next(e, l, turn);
    var e2 := Next(e1, l, take);
    var e3 := Next(e2, l, run);
    var e4 := Next(e3, l, arrive);
    var e5 := Next(e4, l, ControllerEnter);
    var e6 := Next(e5, l, ControllerMask);
    CompletionQueued(loaded, l);
    CallbackTaken(e1, l);
    ChangeHandled(e3, l);
    ExecNothing(e6, l);
    PromptFirst(e5, l, ControllerMask, []);
    PromptFirst(e4, l, ControllerEnter, [ControllerMask] + []);
    PromptFirst(e3, l, arrive, [ControllerEnter] + ([ControllerMask] + []));
    var b := [arrive] + ([ControllerEnter] + ([ControllerMask] + []));
    PromptFirst(e2, l, run, b);
    PromptFirst(e1, l, take, [run] + b);
    PromptFirst(e, l, turn, [take] + ([run] + b));
    PromptAppend(s, l, a, [turn] + ([take] + ([run] + b)));
    steps := a + ([turn] + ([take] + ([run] + b)));
  }

  // Ready media with one callback in the queue and nothing latched.
  predicate OneQueued(s: System) {
    && s.usb.Rest? && s.isr.IsrIdle? && s.port.dev.ready && s.port.dev.queued == 1 && s.port.vim.controller
    && s.port.reg.ie == DEFAULT_INTR_ENABLE && s.port.reg.status == NONE && !s.port.reg.ips
  }

  lemma CompletionQueued(loaded: System, l: Latching)
    requires Loaded(loaded)
    ensures var e := Dispatching(loaded, NONE.(fis := NO_FIS.(register := true)));
            var turn := ControllerTurn(ALL_WELL);
            && Allowed(e, l, turn) && Prompt(e, turn)
            && OneQueued(Next(e, l, turn)) && Next(e, l, turn).main.Rest?
  {
    hide LinkChange, FatalRecovery;
  }

  lemma CallbackTaken(s: System, l: Latching)
    requires OneQueued(s) && s.main.Rest?
    ensures var take, run := MainStep(NO_ORACLE.(choice := 1), NONE), MainStep(NO_ORACLE, NONE);
            var t := Next(s, l, take);
            && Allowed(s, l, take) && Prompt(s, take) && Allowed(t, l, run) && Prompt(t, run)
            && OneQueued(Next(t, l, run)) && Next(t, l, run).main.CbUnmask?
  {
  }

  lemma ChangeHandled(s: System, l: Latching)
    requires OneQueued(s) && s.main.CbUnmask?
    ensures var arrive := Hardware(CONNECT_CHANGE, DET_PHY_READY, true); var turn := ControllerTurn(ALL_WELL);
            var e4 := Next(s, l, arrive); var e5 := Next(e4, l, ControllerEnter);
            var e6 := Next(e5, l, ControllerMask);
            && Allowed(s, l, arrive) && Prompt(s, arrive)
            && Allowed(e4, l, ControllerEnter) && Prompt(e4, ControllerEnter)
            && Allowed(e5, l, ControllerMask) && Prompt(e5, ControllerMask)
            && Allowed(e6, l, turn) && LinkChanges(e6, turn) && e6.port.usbConfigured
            && Executed(e6.main) && e6.port.dev.queued == 1 && Unexecuted(Next(e6, l, turn)) == 0
  {
    hide FatalRecovery, Completions;
  }

  // The state of RecheckLoop: during the handling of a connect change another bit and then a
  // second connect change are latched.
  lemma RecheckReached(s: System, l: Latching) returns (steps: seq<Step>)
    requires Boot(s) && s.port.reg.det == DET_PHY_READY
    ensures PromptRun(s, l, steps) && Rechecking(Exec(s, l, steps)) && Changed(Exec(s, l, steps).port)
  {
    hide Exec, PromptRun, Boot, Next, Allowed, Loaded;
    var a, loaded := DispatchFromBoot(s, l, CONNECT_CHANGE);
    var e := Exec(s, l, a);
    var other := Hardware(NONE.(other := true), DET_PHY_READY, e.port.usbConfigured);
    var again := Hardware(CONNECT_CHANGE, DET_PHY_READY, e.port.usbConfigured);
    var turn := ControllerTurn(ALL_WELL);
    var e1 := Next(e, l, other);
    var e2 := Next(e1, l, turn);
    var e3 := Next(e2, l, again);
    var e4 := Next(e3, l, ControllerMask);
    var e5 := Next(e4, l, turn);
    RecheckBegins(loaded, l);
    ExecNothing(e5, l);
    PromptFirst(e4, l, turn, []);
    PromptFirst(e3, l, ControllerMask, [turn] + []);
    PromptFirst(e2, l, again, [ControllerMask] + ([turn] + []));
    PromptFirst(e1, l, turn, [again] + ([ControllerMask] + ([turn] + [])));
    PromptFirst(e, l, other, [turn] + ([again] + ([ControllerMask] + ([turn] + []))));
    PromptAppend(s, l, a, [other] + ([turn] + ([again] + ([ControllerMask] + ([turn] + [])))));
    steps := a + ([other] + ([turn] + ([again] + ([ControllerMask] + ([turn] + [])))));
  }

  lemma RecheckBegins(loaded: System, l: Latching)
    requires Loaded(loaded)
    ensures var e := Dispatching(loaded, CONNECT_CHANGE);
            var other := Hardware(NONE.(other := true), DET_PHY_READY, e.port.usbConfigured);
            var again := Hardware(CONNECT_CHANGE, DET_PHY_READY, e.port.usbConfigured);
            var turn := ControllerTurn(ALL_WELL);
            var e1 := Next(e, l, other); var e2 := Next(e1, l, turn);
            var e3 := Next(e2, l, again); var e4 := Next(e3, l, ControllerMask);
            && Allowed(e, l, other) && Allowed(e1, l, turn) && Allowed(e2, l, again)
            && Allowed(e3, l, ControllerMask) && Allowed(e4, l, turn)
            && Rechecking(Next(e4, l, turn)) && Changed(Next(e4, l, turn).port)
  {
    var e := Dispatching(loaded, CONNECT_CHANGE);
    RecheckFirst(e, l);
    var other := Hardware(NONE.(other := true), DET_PHY_READY, e.port.usbConfigured);
    RecheckSecond(Next(Next(e, l, other), l, ControllerTurn(ALL_WELL)), l);
    hide Loaded, Next;
  }

  lemma RecheckFirst(e: System, l: Latching)
    requires e.isr == IsrDispatch(CONNECT_CHANGE, DEFAULT_INTR_ENABLE) && e.port.reg.ie == DEFAULT_INTR_ENABLE
    requires e.port.reg.status == CONNECT_CHANGE && e.main.Rest? && e.usb.Rest?
    ensures var other := Hardware(NONE.(other := true), DET_PHY_READY, e.port.usbConfigured);
            var turn := ControllerTurn(ALL_WELL);
            var e1 := Next(e, l, other); var e2 := Next(e1, l, turn);
            && Allowed(e, l, other) && Allowed(e1, l, turn) && e2.main.Rest? && e2.usb.Rest?
            && e2.isr == IsrLoop(NONE.(other := true)) && e2.port.reg.status == NONE.(other := true)
            && e2.port.reg.ie == NONE
  {
    hide FatalRecovery, Completions;
  }

  lemma RecheckSecond(e: System, l: Latching)
    requires e.isr == IsrLoop(NONE.(other := true)) && e.port.reg.status == NONE.(other := true)
    requires e.port.reg.ie == NONE && e.main.Rest? && e.usb.Rest?
    ensures forall configured: bool ::
              var again := Hardware(CONNECT_CHANGE, DET_PHY_READY, configured);
              var turn := ControllerTurn(ALL_WELL);
              var e3 := Next(e, l, again); var e4 := Next(e3, l, ControllerMask);
              && Allowed(e, l, again) && Allowed(e3, l, ControllerMask) && Allowed(e4, l, turn)
              && Rechecking(Next(e4, l, turn)) && Changed(Next(e4, l, turn).port)
  {
    hide FatalRecovery, LinkChange;
  }

  // --- Each restart of the command list can hide a connect change from the host ---

  datatype How = ByOverflow | ByFatalError(fatal: Fatal) | ByReset

  // The host is about to look at ready media, and a connect change went unseen.
  predicate Misled(s: System) {
    && s.port.dev.ready && s.port.hist.changes != 0
    && Allowed(s, Reflect, UsbEnter(Command)) && Prompt(s, UsbEnter(Command))
  }

  lemma ChangeGoesUnseen(s: System, how: How) returns (steps: seq<Step>)
    requires Boot(s) && s.port.reg.det == DET_PHY_READY
    requires how.ByFatalError? ==> how.fatal.taskFile || how.fatal.transport
    ensures PromptRun(s, Reflect, steps) && Misled(Exec(s, Reflect, steps))
  {
    match how
    case ByOverflow => steps := HiddenByHandler(s, NONE.(overflow := true));
    case ByFatalError(fatal) => steps := HiddenByHandler(s, NONE.(fatal := fatal));
    case ByReset => steps := HiddenByReset(s);
  }

  lemma HiddenByHandler(s: System, bits: Bits) returns (steps: seq<Step>)
    requires Boot(s) && s.port.reg.det == DET_PHY_READY
    requires || bits == NONE.(overflow := true)
             || (bits == NONE.(fatal := bits.fatal) && (bits.fatal.taskFile || bits.fatal.transport))
    ensures PromptRun(s, Reflect, steps) && Misled(Exec(s, Reflect, steps))
  {
    hide Exec, PromptRun, Boot, Next, Allowed, Loaded, Misled;
    var a, loaded := DispatchFromBoot(s, Reflect, bits);
    var e := Exec(s, Reflect, a);
    var change := Hardware(CONNECT_CHANGE, DET_PHY_READY, e.port.usbConfigured);
    var turn := ControllerTurn(ALL_WELL);
    HandlerHides(loaded, bits);
    var e1 := Next(e, Reflect, change);
    var e2 := Next(e1, Reflect, turn);
    ExecNothing(e2, Reflect);
    PromptFirst(e1, Reflect, turn, []);
    PromptFirst(e, Reflect, change, [turn] + []);
    PromptAppend(s, Reflect, a, [change] + ([turn] + []));
    steps := a + ([change] + ([turn] + []));
  }

  lemma HandlerHides(loaded: System, bits: Bits)
    requires Loaded(loaded)
    requires || bits == NONE.(overflow := true)
             || (bits == NONE.(fatal := bits.fatal) && (bits.fatal.taskFile || bits.fatal.transport))
    ensures var e := Dispatching(loaded, bits);
            var change := Hardware(CONNECT_CHANGE, DET_PHY_READY, e.port.usbConfigured);
            var turn := ControllerTurn(ALL_WELL);
            var e1 := Next(e, Reflect, change);
            && Allowed(e, Reflect, change) && Allowed(e1, Reflect, turn) && Misled(Next(e1, Reflect, turn))
  {
    hide LinkChange;
    assert Both(bits, DEFAULT_INTR_ENABLE) == bits;
  }

  lemma HiddenByReset(s: System) returns (steps: seq<Step>)
    requires Boot(s) && s.port.reg.det == DET_PHY_READY
    ensures PromptRun(s, Reflect, steps) && Misled(Exec(s, Reflect, steps))
  {
    hide Exec, PromptRun, Boot, Next, Allowed, Resetting, Misled, Prompt;
    var a := ResetReached(s, Reflect, 4);
    var e := Exec(s, Reflect, a);
    var change := Hardware(CONNECT_CHANGE, DET_PHY_READY, e.port.usbConfigured);
    ChangeDuringReset(e);
    var b := ResetMarch(Next(e, Reflect, change), Reflect, true, 0);
    var f := Exec(Next(e, Reflect, change), Reflect, b);
    ResetMisleads(f);
    ExecNothing(Next(f, Reflect, QUIET), Reflect);
    PromptFirst(f, Reflect, QUIET, []);
    PromptAppend(Next(e, Reflect, change), Reflect, b, [QUIET] + []);
    PromptFirst(e, Reflect, change, b + ([QUIET] + []));
    PromptAppend(s, Reflect, a, [change] + (b + ([QUIET] + [])));
    steps := a + ([change] + (b + ([QUIET] + [])));
  }

  lemma ChangeDuringReset(s: System)
    requires Resetting(s, false) && LunStatementsLeft(s.usb.lun) == 4
    ensures var change := Hardware(CONNECT_CHANGE, DET_PHY_READY, s.port.usbConfigured);
            var t := Next(s, Reflect, change);
            Allowed(s, Reflect, change) && Prompt(s, change) && Resetting(t, true) && LunStatementsLeft(t.usb.lun) == 4
  {
  }

  lemma ResetMisleads(s: System)
    requires Resetting(s, true) && LunStatementsLeft(s.usb.lun) == 0
    ensures Allowed(s, Reflect, QUIET) && Prompt(s, QUIET) && Misled(Next(s, Reflect, QUIET))
  {
  }
}
