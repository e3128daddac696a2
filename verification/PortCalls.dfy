// Whole calls of ahci_service, ahci_reset_lun, ahci_init and ahci_init_port that nothing
// interrupts: the statements of `Lifecycle.dfy` one after the other, and what they amount to.
module PortCalls {
  import opened PortModel
  import opened PortTurns
  import opened Lifecycle

  // One call of ahci_service from its first test of the pending flag, as the steps of Lifecycle.
  function ServiceCall(p: Port, at: ServiceAt): (Port, Pc)
    decreases match at
              case Wait => 6 case Drain => 5 case Quiesce => 4 case StopList => 3 case Link => 3
              case TakeQuiesced => 2 case TakeWait => 1 case Counted(_) => 0
  {
    var (q, next) := ServiceStep(p, at);
    if next.Svc? && !at.Counted? then ServiceCall(q, next.svc) else (q, next)
  }

  // One call of ahci_reset_lun, up to its return or its call of ahci_init; `busy` is what it
  // reads from PxTFD after recovery.
  function LunCall(p: Port, l: Latching, o: Oracle, busy: bool, at: LunAt): (Port, Pc)
    decreases LunStatementsLeft(at)
  {
    var (q, next) := LunStep(p, l, if at.LunBusy? then o.(resetNeeded := busy) else o, at);
    if next.Lun? && LunStatementsLeft(next.lun) < LunStatementsLeft(at) then LunCall(q, l, o, busy, next.lun)
    else (q, next)
  }

  lemma LunUnfolds(p: Port, l: Latching, o: Oracle, busy: bool, at: LunAt)
    requires !at.LunBusy?
    ensures var (q, next) := LunStep(p, l, o, at);
            next.Lun? && LunCall(p, l, o, busy, at) == LunCall(q, l, o, busy, next.lun)
  {
    hide LunStep;
    LunMoves(p, l, o, at);
  }

  lemma LunMoves(p: Port, l: Latching, o: Oracle, at: LunAt)
    requires !at.LunBusy?
    ensures var next := LunStep(p, l, o, at).1;
            next.Lun? && LunStatementsLeft(next.lun) < LunStatementsLeft(at)
  {
    hide Schedule, Start, AfterErrorWrite;
  }

  lemma LunEnds(p: Port, l: Latching, o: Oracle, busy: bool)
    ensures LunCall(p, l, o, busy, LunBusy) == LunStep(p, l, o.(resetNeeded := busy), LunBusy)
  {
  }

  // The end of ahci_reset_lun, from its notification on.
  lemma ArmComposes(p: Port, l: Latching, o: Oracle, busy: bool)
    ensures var told := p.dev.queued + Count(p.usbConfigured && p.dev.queued == 0);
            var again := busy && !p.req.pending;
            LunCall(p, l, o, busy, LunNotify(true))
            == (p.(dev := p.dev.(queued := told, ready := p.dev.ready && (again ==> p.dev.count == 0)),
                   reg := p.reg.(ie := When(p.dev.ready, DEFAULT_INTR_ENABLE))),
                if again then Hba(Flags) else Rest)
  {
    hide LunCall, Schedule, Start, PortReset, AfterErrorWrite;
    LunUnfolds(p, l, o, busy, LunNotify(true));
    var told := p.(dev := p.dev.(queued := p.dev.queued + Count(p.usbConfigured && p.dev.queued == 0)));
    LunUnfolds(told, l, o, busy, LunSample);
    var enables := When(p.dev.ready, DEFAULT_INTR_ENABLE);
    LunUnfolds(told, l, o, busy, LunWrite(enables));
    LunEnds(told.(reg := told.reg.(ie := enables)), l, o, busy);
  }

  // The steps of Lifecycle from `pc` to the start of discovery.
  function IsolateCall(p: Port, l: Latching, pc: Pc): (Port, Pc)
    requires pc.Init?
    decreases StatementsLeft(pc.at)
  {
    if StatementsLeft(pc.at) <= 10 then (p, pc) else
    var (q, next) := InitStep(p, l, NO_ORACLE, pc);
    IsolateCall(q, l, next)
  }

  // The steps of Lifecycle from `pc` to the end of ahci_init_port.
  function ConcludeCall(p: Port, l: Latching, pc: Pc): (Port, Pc)
    requires pc.Init? ==> StatementsLeft(pc.at) <= 8
    decreases if pc.Init? then StatementsLeft(pc.at) else 0
  {
    if !pc.Init? then (p, pc) else
    var (q, next) := InitStep(p, l, NO_ORACLE, pc);
    ConcludeCall(q, l, next)
  }

  // --- What the calls amount to ---

  const OPEN := Bits(true, true, Fatal(true, true), Fis(true, true, true, true), false)

  // ahci_service, undisturbed: with a request and an empty queue it first stops the list, then
  // waits for the PHY, and then takes the request over.
  predicate Served(p: Port, q: Port, enter: bool) {
    && (enter <==> p.req.pending && p.dev.queued == 0 && p.req.quiesced && p.reg.det == 3)
    && (if !p.req.pending then q == p
        else if p.dev.queued != 0 then q == p.(req := p.req.(waitCallbacks := true))
        else if !p.req.quiesced then
          q == p.(req := Request(true, true, false), reg := p.reg.(started := false), dev := p.dev.(count := 0))
        else q == p.(req := Request(!enter, !enter, false)))
  }

  // The opening of ahci_init_port: readiness goes, a new epoch begins, the port is closed, and
  // the list stopped.
  predicate Isolated(p: Port, q: Port, l: Latching, discovery: nat) {
    && q.dev == p.dev.(ready := false, timedOut := false) && q.req == p.req
    && q.epoch == discovery == (p.epoch + 1) % 0x1_0000_0000 && q.vim == p.vim.(receiver := false)
    && q.reg == Registers(CLOSED, p.reg.status.(connect := p.reg.status.connect && l.Reflect?), false, p.reg.det, false)
  }

  // Its end: media is published exactly if discovery succeeded, no epoch has passed, the PHY is
  // ready and no connect change is latched.
  predicate Concluded(p: Port, q: Port, l: Latching, discovery: nat, ok: bool, success: bool) {
    var changed := p.reg.status.connect && l.Latch?;
    && (success <==> ok && p.epoch == discovery && p.reg.det == 3 && !changed)
    && q.reg == Registers(q.reg.ie, CLOSED.(connect := changed), false, p.reg.det, p.reg.started)
    && q.hist.changes == 0 && !q.hist.dropped
    && (if success then
          q.dev == p.dev.(ready := true) && q.reg.ie == OPEN && q.vim == Sources(true, true, true) && q.req == p.req
          && q.epoch == p.epoch
        else if ok then Requested(p, q, false) && q.vim == Sources(false, true, true)
        else
          q.dev == p.dev.(timedOut := true) && q.vim == p.vim && q.req == p.req && q.epoch == p.epoch
          && q.reg.ie == if p.req.pending then CLOSED else CLOSED.(connect := true))
  }

  // ahci_init before its call of ahci_init_port: with an HBA reset everything is closed.
  predicate Begun(p: Port, q: Port, enter: bool) {
    && q.dev == p.dev.(count := 0) && q.req == Request(false, false, false) && q.vim == p.vim && q.epoch == p.epoch
    && q.reg == if enter then Registers(CLOSED, CLOSED, false, p.reg.det, false) else p.reg
  }

  // ahci_init after it: without media and without a PHY a new request is left behind.
  predicate Ended(p: Port, q: Port, ok: bool) {
    if ok then q == p.(dev := p.dev.(count := p.dev.count + 1))
    else if p.reg.det != 3 then q == p.(req := Request(true, false, p.req.waitCallbacks))
    else q == p
  }

  // ahci_reset_lun on ready media: the queue is cleared, a configured transport told once, and
  // the port closed and rediscovered exactly if a COMRESET was needed; a disk that is then busy
  // is initialized again, unless a request is pending.
  predicate LunReset(p: Port, q: Port, o: Oracle, busy: bool, again: bool) {
    && (again <==> busy && !o.resetNeeded && !p.req.pending)
    && q.dev.queued == (if p.usbConfigured then 1 else 0)
    && (q.dev.ready <==> !o.resetNeeded && (again ==> p.dev.count == 0)) && !q.dev.portReset && q.reg.started
    && q.reg.ie == (if o.resetNeeded then CLOSED else OPEN)
    && (q.vim.receiver <==> p.vim.receiver && !o.resetNeeded) && q.vim.controller == p.vim.controller
    && q.epoch == (if o.resetNeeded then (p.epoch + 1) % 0x1_0000_0000 else p.epoch)
    && q.req == if o.resetNeeded then Request(true, p.req.pending && p.req.quiesced, true) else p.req
  }

  lemma IsolateMeaning(p: Port, l: Latching, caller: Caller)
    ensures var (q, next) := IsolateCall(p, l, Init(Withdraw, caller, 0, true));
            next.Init? && Isolated(p, q, l, next.discovery)
  {
    var e := NextEpoch(p);
    var p1 := p.(dev := p.dev.(ready := false, timedOut := false));
    var p2 := p1.(epoch := e);
    var p3 := p2.(vim := p2.vim.(receiver := false));
    var p4 := p3.(reg := p3.reg.(ie := NONE), hist := p3.hist.(withdrawn := false));
    IsolateStep(p, l, Init(Withdraw, caller, 0, true));
    IsolateStep(p1, l, Init(NewEpoch, caller, 0, true));
    IsolateStep(p2, l, Init(Capture, caller, 0, true));
    IsolateStep(p2, l, Init(MaskReceiver, caller, e, true));
    IsolateStep(p3, l, Init(MaskPort, caller, e, true));
    IsolateRest(p4, l, caller, e);
    hide IsolateCall;
  }

  lemma IsolateStep(p: Port, l: Latching, pc: Pc)
    requires pc.Init? && StatementsLeft(pc.at) > 10
    ensures var (q, next) := InitStep(p, l, NO_ORACLE, pc);
            next.Init? && IsolateCall(p, l, pc) == IsolateCall(q, l, next)
  {
  }

  lemma IsolateRest(p: Port, l: Latching, caller: Caller, e: nat)
    ensures IsolateCall(p, l, Init(Baseline, caller, e, true))
            == (p.(reg := p.reg.(status := AfterStatusWrite(p.reg.status, l, CONNECT_CHANGE), ips := false,
                                 started := false)), Init(Discover, caller, e, true))
  {
    hide IsolateCall, AfterStatusWrite, DiscoverStep, PublishStep;
    var q := p.(reg := p.reg.(status := AfterStatusWrite(p.reg.status, l, CONNECT_CHANGE), ips := false));
    IsolateStep(p, l, Init(Baseline, caller, e, true));
    IsolateStep(q, l, Init(Idle, caller, e, true));
    IsolateEnds(q.(reg := q.reg.(started := false)), l, Init(Discover, caller, e, true));
  }

  lemma IsolateEnds(p: Port, l: Latching, pc: Pc)
    requires pc.Init? && pc.at.Discover?
    ensures IsolateCall(p, l, pc) == (p, pc)
  {
  }

  lemma ConcludeStep(p: Port, l: Latching, pc: Pc)
    requires pc.Init? && StatementsLeft(pc.at) <= 8
    ensures var (q, next) := InitStep(p, l, NO_ORACLE, pc);
            (next.Init? ==> StatementsLeft(next.at) <= 8) && ConcludeCall(p, l, pc) == ConcludeCall(q, l, next)
  {
  }

  lemma ConcludeEnds(p: Port, l: Latching, pc: Pc)
    requires !pc.Init?
    ensures ConcludeCall(p, l, pc) == (p, pc)
  {
  }

  // The status writes.
  lemma ClearMeaning(p: Port, l: Latching, caller: Caller, discovery: nat, ok: bool)
    ensures var changed := p.reg.status.connect && l.Latch?;
            var q := p.(reg := p.reg.(status := CLOSED.(connect := changed), ips := false),
                        hist := p.hist.(changes := 0, dropped := false));
            ConcludeCall(p, l, Init(ClearPxserr, caller, discovery, ok))
            == ConcludeCall(q, l, Init(if ok then MaskAll else Conclude, caller, discovery, ok))
  {
    hide ConcludeCall, EnterStep, DiscoverStep, PublishStep;
    var status := AfterErrorWrite(p.reg.status, l);
    var q := p.(reg := p.reg.(status := status), hist := p.hist.(changes := 0, dropped := false));
    ConcludeStep(p, l, Init(ClearPxserr, caller, discovery, ok));
    ConcludeStep(q, l, Init(ClearPxis, caller, discovery, ok));
    var r := q.(reg := q.reg.(status := Both(status, CONNECT_CHANGE)));
    ConcludeStep(r, l, Init(ClearGlobal, caller, discovery, ok));
  }

  function Called(caller: Caller, ok: bool): Pc {
    if caller.FromService? then Svc(Counted(ok)) else Hba(Tail(ok))
  }

  lemma FailMeaning(p: Port, l: Latching, caller: Caller, discovery: nat)
    ensures ConcludeCall(p, l, Init(Conclude, caller, discovery, false))
            == (p.(dev := p.dev.(timedOut := true),
                   reg := p.reg.(ie := if p.req.pending then CLOSED else CLOSED.(connect := true))),
                Called(caller, false))
  {
    hide ConcludeCall, EnterStep, IsolatedStep, Schedule;
    ConcludeStep(p, l, Init(Conclude, caller, discovery, false));
    ConcludeEnds(PublishStep(p, Init(Conclude, caller, discovery, false)).0, l, Called(caller, false));
  }

  // The masked window where the tests hold.
  lemma PublishMeaning(p: Port, l: Latching, caller: Caller, discovery: nat)
    requires p.epoch == discovery && p.reg.det == 3 && !p.reg.status.connect
    ensures ConcludeCall(p, l, Init(MaskAll, caller, discovery, true))
            == (p.(dev := p.dev.(ready := true), reg := p.reg.(ie := OPEN), vim := Sources(true, true, true)),
                Called(caller, true))
  {
    hide ConcludeCall, EnterStep, IsolatedStep, Schedule;
    var p1 := p.(vim := Sources(false, false, false));
    var p2 := p1.(dev := p1.dev.(ready := true), reg := p1.reg.(ie := OPEN));
    var p3 := p2.(vim := Sources(true, true, false));
    var p4 := p3.(vim := Sources(true, true, true));
    ConcludeStep(p, l, Init(MaskAll, caller, discovery, true));
    ConcludeStep(p1, l, Init(Publish, caller, discovery, true));
    ConcludeStep(p2, l, Init(UnmaskSata, caller, discovery, true));
    ConcludeStep(p3, l, Init(UnmaskUsb, caller, discovery, true));
    ConcludeStep(p4, l, Init(Conclude, caller, discovery, true));
    ConcludeEnds(p4, l, Called(caller, true));
  }

  // The masked window where one of them fails: what a request leaves behind.
  lemma RefuseMeaning(p: Port, l: Latching, caller: Caller, discovery: nat)
    requires !(p.epoch == discovery && p.reg.det == 3 && !p.reg.status.connect)
    ensures ConcludeCall(p, l, Init(MaskAll, caller, discovery, true))
            == (Schedule(p, false).(vim := Sources(false, true, true)), Called(caller, false))
  {
    hide ConcludeCall, EnterStep, IsolatedStep, Schedule;
    var p1 := p.(vim := Sources(false, false, false));
    var p2 := Schedule(p1, false);
    ScheduleKeeps(p, p1);
    var p3 := p2.(vim := Sources(false, true, false));
    var p4 := p3.(vim := Sources(false, true, true));
    ConcludeStep(p, l, Init(MaskAll, caller, discovery, true));
    ConcludeStep(p1, l, Init(Publish, caller, discovery, true));
    ConcludeStep(p2, l, Init(UnmaskSata, caller, discovery, false));
    ConcludeStep(p3, l, Init(UnmaskUsb, caller, discovery, false));
    FailMeaning(p4, l, caller, discovery);
  }

  lemma ScheduleKeeps(p: Port, p1: Port)
    requires p1 == p.(vim := Sources(false, false, false))
    ensures var p2 := Schedule(p1, false);
            && p2.vim == Sources(false, false, false) && p2.dev.timedOut && p2.req.pending && p2.reg.ie == CLOSED
            && Schedule(p, false) == p2.(vim := Schedule(p, false).vim)
  {
  }

  lemma ConcludeMeaning(p: Port, l: Latching, caller: Caller, discovery: nat, ok: bool)
    ensures var (q, next) := ConcludeCall(p, l, Init(ClearPxserr, caller, discovery, ok));
            exists success :: next == Called(caller, success) && Concluded(p, q, l, discovery, ok, success)
  {
    hide ConcludeCall, Schedule;
    ClearMeaning(p, l, caller, discovery, ok);
    var changed := p.reg.status.connect && l.Latch?;
    var r := p.(reg := p.reg.(status := CLOSED.(connect := changed), ips := false),
                hist := p.hist.(changes := 0, dropped := false));
    var (q, next) := ConcludeCall(p, l, Init(ClearPxserr, caller, discovery, ok));
    if !ok {
      FailMeaning(r, l, caller, discovery);
      assert Concluded(p, q, l, discovery, ok, false);
    } else if r.epoch == discovery && r.reg.det == 3 && !changed {
      PublishMeaning(r, l, caller, discovery);
      assert Concluded(p, q, l, discovery, ok, true);
    } else {
      RefuseMeaning(r, l, caller, discovery);
      RefusedIs(r);
      assert Concluded(p, q, l, discovery, ok, false);
    }
  }

  lemma RefusedIs(p: Port)
    ensures var q := Schedule(p, false).(vim := Sources(false, true, true));
            && Requested(p, q, false) && q.reg == p.reg.(ie := CLOSED)
            && q.hist.changes == p.hist.changes && q.hist.dropped == p.hist.dropped
  {
  }

  // The list of ready media restarted, after a COMRESET if one was needed.
  lemma LunRelinked(p: Port, l: Latching, o: Oracle)
    requires p.dev.ready && p.dev.queued == 0 && p.reg.ie == CLOSED
    ensures var p3 := LunStep(p, l, o, LunRecover).0;
            var q := Start(if o.resetNeeded then Schedule(p3, true) else p3, l);
            && q.dev.queued == 0 && q.dev.count == p.dev.count && q.usbConfigured == p.usbConfigured
            && (q.dev.ready <==> !o.resetNeeded) && !q.dev.portReset && q.reg.started && q.reg.ie == CLOSED
            && (q.vim.receiver <==> p.vim.receiver && !o.resetNeeded) && q.vim.controller == p.vim.controller
            && q.epoch == (if o.resetNeeded then (p.epoch + 1) % 0x1_0000_0000 else p.epoch)
            && q.req == if o.resetNeeded then Request(true, p.req.pending && p.req.quiesced, true) else p.req
  {
    hide AfterErrorWrite, WithoutRegister;
  }

  lemma LunMeaning(p: Port, l: Latching, o: Oracle, busy: bool)
    requires p.dev.ready
    ensures var (q, next) := LunCall(p, l, o, busy, LunMask);
            && (next == Hba(Flags) || next == Rest)
            && LunReset(p, q, o, busy, next == Hba(Flags))
  {
    hide LunCall, Schedule, Start, AfterErrorWrite;
    var p1 := p.(reg := p.reg.(ie := NONE));
    var p2 := p1.(dev := p1.dev.(queued := 0));
    LunUnfolds(p, l, o, busy, LunMask);
    LunUnfolds(p1, l, o, busy, LunClear);
    LunUnfolds(p2, l, o, busy, LunRecover);
    LunRelinked(p2, l, o);
    var p3 := LunStep(p2, l, o, LunRecover).0;
    LunUnfolds(p3, l, o, busy, LunSchedule(true, o.resetNeeded));
    var p4 := if o.resetNeeded then Schedule(p3, true) else p3;
    LunUnfolds(p4, l, o, busy, LunStart(true));
    ArmComposes(Start(p4, l), l, o, busy);
  }
}
