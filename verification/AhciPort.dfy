// The operations of src/rdx_mount/ahci.c over the fields they update, as the source writes them,
// with their retry and re-check loops.  Each is proved equal, undisturbed, to what the Lifecycle
// files interleave: the handlers to the effects in `PortModel.dfy`, ahci_service, ahci_reset_lun
// and ahci_init_port to sequences of the statements in `Lifecycle.dfy`.
module AhciPort {
  import opened PortModel
  import opened PortTurns
  import opened PortCalls
  import opened Lifecycle

  const MAX_NUM_PORT_RESET_RETRIES := 12

  // One activation of ahci_isr; after each turn further bits may have been latched.
  datatype Turn = Turn(o: Oracle, arrivals: Bits)

  function IsrCall(p: Port, l: Latching, snapshot: Bits, turns: seq<Turn>): (r: (Port, bool))
    decreases |turns|
  {
    if turns == [] then (p, false) else
    var handled := IsrTurn(p, l, snapshot, p.reg.ie, turns[0].o);
    var q := handled.(reg := handled.reg.(status := Either(handled.reg.status, turns[0].arrivals)));
    if q.reg.status == NONE then (q.(reg := q.reg.(ips := false)), true)
    else IsrCall(q, l, q.reg.status, turns[1..])
  }

  // The statements of ahci_fatal_error_recovery up to its notification.
  function Recovered(p: Port, l: Latching, reset: bool, ok: bool): Port {
    var stopped := p.(reg := p.reg.(started := false));
    var linked := if reset then PortReset(stopped, l, ok) else stopped;
    var judged := if reset && !ok then linked.(dev := linked.dev.(ready := false, timedOut := true)) else linked;
    Start(if reset && p.dev.ready then Schedule(judged, true) else judged, l)
  }

  predicate RecoveryOf(p: Port, l: Latching, force: bool, o: Oracle) {
    var r := Recovered(p, l, o.resetNeeded || force, o.resetOk);
    && r.usbConfigured == p.usbConfigured && r.dev.queued == p.dev.queued
    && FatalRecovery(p, l, force, o)
       == r.(dev := r.dev.(queued := r.dev.queued + Count(p.usbConfigured && p.dev.ready && p.dev.queued == 0)))
  }

  lemma FatalKeepsLink(p: Port, l: Latching, force: bool, o: Oracle)
    requires !(o.resetNeeded || force)
    ensures RecoveryOf(p, l, force, o)
  {
    hide Schedule, PortReset;
  }

  lemma FatalLosesMedia(p: Port, l: Latching, force: bool, o: Oracle)
    requires (o.resetNeeded || force) && p.dev.ready
    ensures RecoveryOf(p, l, force, o)
  {
  }

  lemma FatalWithoutMedia(p: Port, l: Latching, force: bool, o: Oracle)
    requires (o.resetNeeded || force) && !p.dev.ready
    ensures RecoveryOf(p, l, force, o)
  {
    hide Schedule;
  }

  // What fatal-error recovery amounts to, statement by statement.
  lemma FatalComposes(p: Port, l: Latching, force: bool, o: Oracle)
    ensures RecoveryOf(p, l, force, o)
  {
    hide RecoveryOf;
    if !(o.resetNeeded || force) {
      FatalKeepsLink(p, l, force, o);
    } else if p.dev.ready {
      FatalLosesMedia(p, l, force, o);
    } else {
      FatalWithoutMedia(p, l, force, o);
    }
  }

  // What the recovering branch of ahci_rx_error_isr amounts to, statement by statement.
  lemma ReceiverComposes(p: Port, l: Latching, o: ReceiverOracle)
    requires ReceiverDecision(p, o).Recover?
    ensures var reset := PortReset(p.(reg := p.reg.(started := false)), l, o.resetOk);
            var r := Start(if p.dev.ready then Schedule(reset, true) else reset, l);
            && r.dev.queued == p.dev.queued
            && ReceiverError(p, l, o)
                == r.(dev := r.dev.(queued := r.dev.queued + Count(p.dev.ready && p.dev.queued == 0)))
  {
    if p.dev.ready {
    } else {
      hide Schedule;
    }
  }

  lemma FisComposes(p: Port, l: Latching, fis: Fis, o: Oracle)
    ensures var pio := fis.pioSetup && !o.pioMore;
            var status := p.reg.status;
            Completions(p, l, NONE.(fis := fis), o)
            == p.(dev := p.dev.(queued := p.dev.queued + Count(fis.deviceBits) + Count(fis.dmaSetup)
                                          + Count(fis.register) + Count(pio)),
                  reg := if pio then p.reg.(status := status.(fis := status.fis.(pioSetup := false))) else p.reg)
  {
  }

  // What a port interrupt with the enabled bits `bits` does, by what they show.
  predicate Handled(p: Port, q: Port, bits: Bits, o: Oracle) {
    if bits.connect then Requested(p, q, p.dev.ready) && q.reg.started == p.reg.started && Told(p, q)
    else if bits.fatal.taskFile || bits.fatal.transport then
      && q.reg.started && (q.dev.ready <==> p.dev.ready && !o.resetNeeded) && Told(p, q)
      && if p.dev.ready && o.resetNeeded then Requested(p, q, true) else NotRequested(p, q)
    else
      && q.dev.ready == p.dev.ready && NotRequested(p, q)
      && q.dev.queued == p.dev.queued + Completed(bits, bits, o)
      && (q.reg.started <==> p.reg.started || bits.overflow)
  }

  // One callback more for ready media with USB configured and an empty queue, and none otherwise.
  predicate Told(p: Port, q: Port) {
    q.dev.queued == p.dev.queued + if p.dev.ready && p.usbConfigured && p.dev.queued == 0 then 1 else 0
  }

  lemma InterruptHandled(p: Port, l: Latching, bits: Bits, o: Oracle)
    ensures Handled(p, PortIntr(p, l, bits, o), bits, o)
  {
    if bits.connect {
      hide FatalRecovery, Completions;
    } else if IsFatal(bits) {
      hide LinkChange, Completions;
    } else {
      hide LinkChange, FatalRecovery;
    }
  }

  class AhciPort {
    const latching: Latching

    var dev: Device             // ata_dev[0] and gSATADeviceCount
    var req: Request            // the three ahci_hotplug flags
    var reg: Registers          // PxIE, PxIS, IS.IPS, PxSSTS.DET, PxCMD.ST
    var vim: Sources            // VIM request mask
    var epoch: nat              // sata_media_epoch
    var usbConfigured: bool     // usb_dev.dev_state
    ghost var hist: History

    // Power-up: zeroed memory, VIM_init has opened every source.
    constructor (l: Latching)
      ensures latching == l && fresh(this)
      ensures State() == Port(Device(false, false, false, 0, 0), Request(false, false, false),
                              Registers(NONE, NONE, false, 0, false), Sources(true, true, true), 0, false,
                              History(false, 0, false))
    {
      latching := l;
      dev := Device(false, false, false, 0, 0);
      req := Request(false, false, false);
      reg := Registers(NONE, NONE, false, 0, false);
      vim := Sources(true, true, true);
      epoch, usbConfigured := 0, false;
      hist := History(false, 0, false);
    }

    ghost function State(): Port
      reads this
    {
      Port(dev, req, reg, vim, epoch, usbConfigured, hist)
    }

    // ahci_schedule_media_discovery
    method ScheduleMediaDiscovery(waitForCallbacks: bool)
      modifies this
      ensures State() == Schedule(old(State()), waitForCallbacks)
    {
      dev := dev.(ready := false, timedOut := true);
      epoch := (epoch + 1) % EPOCH_MODULUS;
      reg := reg.(ie := NONE);
      vim := vim.(receiver := false);
      if !req.pending {
        req := req.(quiesced := false, waitCallbacks := waitForCallbacks);
      } else if waitForCallbacks {
        req := req.(waitCallbacks := true);
      }
      req := req.(pending := true);
      hist := hist.(withdrawn := false);
    }

    // ahci_media_inserted
    method InsertMedia()
      modifies this
      ensures var q := MediaInserted(old(State())); State() == q.(vim := q.vim.(usb := true))
    {
      vim := Sources(false, false, false);
      if !dev.ready {
        ScheduleMediaDiscovery(true);
        vim := vim.(controller := true);
      } else {
        vim := vim.(receiver := true, controller := true);
      }
      vim := vim.(usb := true);
    }

    // ahci_port_reset; `phyReady[i]` is whether the i-th COMRESET brought the PHY back in time.
    method ResetPort(phyReady: seq<bool>) returns (ok: bool)
      requires |phyReady| == 13
      modifies this
      ensures ok <==> true in phyReady
      ensures State() == PortReset(old(State()), latching, ok)
    {
      var restore := reg.ie.connect;
      reg := reg.(ie := reg.ie.(connect := false));
      var retries := 0;
      ok := phyReady[0];
      while !ok && retries < MAX_NUM_PORT_RESET_RETRIES
        invariant retries <= MAX_NUM_PORT_RESET_RETRIES && ok == phyReady[retries]
        invariant forall i :: 0 <= i < retries ==> !phyReady[i]
        modifies {}
      {
        retries := retries + 1;
        ok := phyReady[retries];
      }
      if !ok && dev.ready {
        dev := dev.(ready := false, timedOut := true);
      }
      reg := reg.(status := AfterErrorWrite(reg.status, latching));
      if restore {
        reg := reg.(ie := reg.ie.(connect := true));
      }
      dev := dev.(portReset := true);
    }

    // ahci_start
    method StartList()
      modifies this
      ensures State() == Start(old(State()), latching)
    {
      hist := hist.(dropped := hist.dropped || (dev.ready && latching.Reflect? && reg.status.connect));
      reg := reg.(status := AfterErrorWrite(reg.status, latching));
      reg := reg.(started := true);
      if dev.portReset && dev.ready {
        reg := reg.(status := WithoutRegister(reg.status, true));
      }
      dev := dev.(portReset := false);
    }

    // ahci_recover_local_command
    method RecoverLocalCommand(resetPort: bool, phyReady: seq<bool>)
      requires |phyReady| == 13
      modifies this
      ensures State() == RecoverLocal(old(State()), latching, resetPort)
    {
      vim := vim.(receiver := false, controller := false);
      reg := reg.(ie := NONE);
      if resetPort {
        reg := reg.(started := false);
        var _ := ResetPort(phyReady);
      }
      ScheduleMediaDiscovery(false);
      vim := vim.(controller := true);
    }

    // ahci_handle_media_link_change
    method HandleMediaLinkChange()
      modifies this
      ensures State() == LinkChange(old(State()), latching)
    {
      var mediaWasReady := dev.ready;
      reg := reg.(status := AfterErrorWrite(reg.status, latching));
      ScheduleMediaDiscovery(mediaWasReady);
      if mediaWasReady && usbConfigured && dev.queued == 0 {
        dev := dev.(queued := dev.queued + 1);
      }
    }

    // ahci_fatal_error_recovery
    method FatalErrorRecovery(force: bool, o: Oracle, phyReady: seq<bool>)
      requires |phyReady| == 13 && (o.resetOk <==> true in phyReady)
      modifies this
      ensures State() == FatalRecovery(old(State()), latching, force, o)
    {
      FatalComposes(State(), latching, force, o);
      hide FatalRecovery, PortReset, Schedule, Start;
      var mediaWasReady := dev.ready;
      var portWasReset := false;
      reg := reg.(started := false);
      if o.resetNeeded || force {
        portWasReset := true;
        var ok := ResetPort(phyReady);
        if !ok {
          dev := dev.(ready := false, timedOut := true);
        }
      }
      if portWasReset && mediaWasReady {
        ScheduleMediaDiscovery(true);
      }
      StartList();
      if usbConfigured && mediaWasReady && dev.queued == 0 {
        dev := dev.(queued := dev.queued + 1);
      }
    }

    // ahci_port_intr_handler
    method HandlePortInterrupt(bits: Bits, o: Oracle, phyReady: seq<bool>)
      requires |phyReady| == 13 && (o.resetOk <==> true in phyReady)
      modifies this
      ensures State() == PortIntr(old(State()), latching, bits, o)
      ensures Handled(old(State()), State(), bits, o)
    {
      hide Handled;
      InterruptHandled(State(), latching, bits, o);
      if bits.connect {
        HandleMediaLinkChange();
        return;
      }
      if IsFatal(bits) {
        FatalErrorRecovery(false, o, phyReady);
        return;
      }
      HandleCompletions(bits.fis, o);
      if bits.overflow {
        reg := reg.(started := false);
        StartList();
      }
    }

    // ahci_handle_sdb_fis, ahci_handle_dma_setup_fis
    method HandleQueuedFis(fis: Fis)
      modifies this`dev
      ensures dev == old(dev).(queued := old(dev.queued) + Count(fis.deviceBits) + Count(fis.dmaSetup))
    {
      if fis.deviceBits {
        dev := dev.(queued := dev.queued + 1);
      }
      if fis.dmaSetup {
        dev := dev.(queued := dev.queued + 1);
      }
    }

    // ahci_handle_d2h_reg_fis, ahci_handle_pio_setup_fis
    method HandleUnqueuedFis(fis: Fis, o: Oracle)
      modifies this`dev, this`reg
      ensures var pio := fis.pioSetup && !o.pioMore; var status := old(reg.status);
              && dev == old(dev).(queued := old(dev.queued) + Count(fis.register) + Count(pio))
              && reg == if pio then old(reg).(status := status.(fis := status.fis.(pioSetup := false))) else old(reg)
    {
      if fis.register {
        dev := dev.(queued := dev.queued + 1);
      }
      if fis.pioSetup && !o.pioMore {
        dev := dev.(queued := dev.queued + 1);
        reg := reg.(status := reg.status.(fis := reg.status.fis.(pioSetup := false)));
      }
    }

    // The completion FIS handlers, each of which queues one callback.
    method HandleCompletions(fis: Fis, o: Oracle)
      modifies this`dev, this`reg
      ensures State() == Completions(old(State()), latching, NONE.(fis := fis), o)
    {
      FisComposes(State(), latching, fis, o);
      hide Completions;
      HandleQueuedFis(fis);
      HandleUnqueuedFis(fis, o);
    }

    // ahci_isr, called with IS.IPS set; it returns unless `turns` runs out first.
    method Isr(turns: seq<Turn>, phyReady: seq<bool>) returns (returned: bool)
      requires |phyReady| == 13
      requires forall i :: 0 <= i < |turns| ==> (turns[i].o.resetOk <==> true in phyReady)
      modifies this
      ensures (State(), returned) == IsrCall(old(State()), latching, old(reg.status), turns)
    {
      hide Handled, LinkChange, FatalRecovery, Completions;
      var portIntr := reg.status;
      var i := 0;
      returned := false;
      while i < |turns|
        invariant 0 <= i <= |turns| && !returned
        invariant IsrCall(State(), latching, portIntr, turns[i..])
                  == IsrCall(old(State()), latching, old(reg.status), turns)
      {
        var mask := reg.ie;
        reg := reg.(status := AfterStatusWrite(reg.status, latching, portIntr));
        HandlePortInterrupt(Both(portIntr, mask), turns[i].o, phyReady);
        reg := reg.(status := Either(reg.status, turns[i].arrivals));
        portIntr := reg.status;
        i := i + 1;
        if portIntr == NONE {
          reg := reg.(ips := false);
          returned := true;
          return;
        }
      }
    }

    // The recovery in ahci_rx_error_isr once the limiter has fired.
    method RecoverReceiver(o: ReceiverOracle, phyReady: seq<bool>)
      requires |phyReady| == 13 && (o.resetOk <==> true in phyReady)
      requires ReceiverDecision(State(), o).Recover?
      modifies this
      ensures State() == ReceiverError(old(State()), latching, o)
    {
      ReceiverComposes(State(), latching, o);
      hide ReceiverError, PortReset, Schedule, Start;
      var mediaWasReady := dev.ready;
      reg := reg.(started := false);
      var _ := ResetPort(phyReady);
      if mediaWasReady {
        ScheduleMediaDiscovery(true);
      }
      StartList();
      if mediaWasReady && dev.queued == 0 {
        dev := dev.(queued := dev.queued + 1);
      }
    }

    // ahci_rx_error_isr; `o.threshold` is the answer of ReceiverLimiter.dfy.
    method RxErrorIsr(o: ReceiverOracle, phyReady: seq<bool>)
      requires |phyReady| == 13 && (o.resetOk <==> true in phyReady)
      modifies this
      ensures State() == ReceiverError(old(State()), latching, o)
    {
      if o.errors == 0 {
        return;
      }
      if o.motion {
        var mediaWasReady := dev.ready;
        ScheduleMediaDiscovery(true);
        if mediaWasReady && dev.queued == 0 {
          dev := dev.(queued := dev.queued + 1);
        }
        return;
      }
      if reg.det != DET_PHY_OFFLINE && o.threshold {
        if !dev.ready && o.commandOwned {
          dev := dev.(timedOut := true);
          reg := reg.(started := false);
        } else {
          RecoverReceiver(o, phyReady);
        }
      }
    }

    // ahci_service for its one port, without motion; `enter` says that ahci_init_port follows.
    method Service() returns (enter: bool)
      modifies this
      ensures var p := old(State());
              var (q, next) := if p.req.pending then ServiceCall(p, Wait) else (p, Rest);
              State() == q && (enter <==> next == Init(Withdraw, FromService, 0, true)) && (next.Init? || next.Rest?)
      ensures Served(old(State()), State(), enter)
    {
      enter := false;
      if !req.pending {
        return;
      }
      if req.waitCallbacks {
        if dev.queued != 0 {
          return;
        }
        req := req.(waitCallbacks := false);
      }
      assert ServiceCall(old(State()), Wait) == ServiceCall(State(), Drain);
      if dev.queued != 0 {
        req := req.(waitCallbacks := true);
        return;
      }
      assert ServiceCall(old(State()), Wait) == ServiceCall(State(), Quiesce);
      if !req.quiesced {
        req := req.(quiesced := true);
        reg := reg.(started := false);
        dev := dev.(count := 0);
        return;
      }
      assert ServiceCall(old(State()), Wait) == ServiceCall(State(), Link);
      if reg.det != DET_PHY_READY {
        return;
      }
      req := req.(pending := false);
      assert ServiceCall(old(State()), Wait) == ServiceCall(State(), TakeQuiesced);
      req := req.(quiesced := false);
      assert ServiceCall(old(State()), Wait) == ServiceCall(State(), TakeWait);
      req := req.(waitCallbacks := false);
      enter := true;
    }

    // ahci_reset_lun on ready media, undisturbed; `reinitialize` says that ahci_init follows.
    method ResetLun(o: Oracle, busy: bool, phyReady: seq<bool>) returns (reinitialize: bool)
      requires dev.ready
      requires |phyReady| == 13 && (o.resetOk <==> true in phyReady)
      modifies this
      ensures var (q, next) := LunCall(old(State()), latching, o, busy, LunMask);
              State() == q && next == if reinitialize then Hba(Flags) else Rest
      ensures LunReset(old(State()), State(), o, busy, reinitialize)
    {
      hide LunCall, LunReset, Schedule, Start, AfterErrorWrite;
      LunMeaning(State(), latching, o, busy);
      LunUnfolds(State(), latching, o, busy, LunMask);
      reg := reg.(ie := NONE);
      LunUnfolds(State(), latching, o, busy, LunClear);
      dev := dev.(queued := 0);
      LunUnfolds(State(), latching, o, busy, LunRecover);
      RecoverStuck(o, phyReady);
      LunUnfolds(State(), latching, o, busy, LunSchedule(true, o.resetNeeded));
      if o.resetNeeded {
        ScheduleMediaDiscovery(true);
      }
      LunUnfolds(State(), latching, o, busy, LunStart(true));
      StartList();
      reinitialize := ArmLun(o, busy);
    }

    // The stop and the port reset of ahci_fatal_error_recovery.
    method RecoverStuck(o: Oracle, phyReady: seq<bool>)
      requires |phyReady| == 13 && (o.resetOk <==> true in phyReady)
      modifies this
      ensures (State(), Lun(LunSchedule(old(dev.ready), o.resetNeeded)))
              == LunStep(old(State()), latching, o, LunRecover)
    {
      reg := reg.(started := false);
      if o.resetNeeded {
        var ok := ResetPort(phyReady);
        if !ok {
          dev := dev.(ready := false, timedOut := true);
        }
      }
    }

    // ahci_reset_lun from the notification of its recovery on.
    method ArmLun(o: Oracle, busy: bool) returns (reinitialize: bool)
      modifies this
      ensures var (q, next) := LunCall(old(State()), latching, o, busy, LunNotify(true));
              State() == q && next == if reinitialize then Hba(Flags) else Rest
    {
      hide LunCall;
      ArmComposes(State(), latching, o, busy);
      if usbConfigured && dev.queued == 0 {
        dev := dev.(queued := dev.queued + 1);
      }
      var enables := if dev.ready then DEFAULT_INTR_ENABLE else NONE;
      reg := reg.(ie := enables);
      reinitialize := busy && !req.pending;
      if reinitialize && dev.count > 0 {
        dev := dev.(ready := false);
      }
    }

    // ahci_init up to its call of ahci_init_port, which `enter` says follows.
    method BeginInit(o: Oracle) returns (enter: bool)
      modifies this
      ensures var (q, _) := HbaStep(old(State()), o, Flags);
              (State(), if enter then Init(Withdraw, FromHbaInit, 0, true) else Rest) == HbaStep(q, o, GlobalReset)
      ensures Begun(old(State()), State(), enter) && enter == o.hbaOk
    {
      dev := dev.(count := 0);
      req := Request(false, false, false);
      enter := o.hbaOk;
      if enter {
        hist := hist.(dropped := hist.dropped || (dev.ready && reg.status.connect));
        reg := reg.(ie := NONE, status := NONE, ips := false, started := false);
      }
    }

    // ahci_init after ahci_init_port.
    method EndInit(o: Oracle, ok: bool)
      modifies this
      ensures var (q, next) := HbaStep(old(State()), o, Tail(ok));
              State() == if next == Hba(TailQuiesced) then HbaStep(q, o, TailQuiesced).0 else q
      ensures Ended(old(State()), State(), ok)
    {
      if ok {
        dev := dev.(count := dev.count + 1);
      } else if reg.det != DET_PHY_READY {
        req := req.(pending := true);
        req := req.(quiesced := false);
      }
    }

    // ahci_init_port until PxIE is closed, undisturbed.
    method WithdrawMedia(caller: Caller) returns (discovery: nat)
      modifies this
      ensures IsolateCall(old(State()), latching, Init(Withdraw, caller, 0, true))
              == IsolateCall(State(), latching, Init(Baseline, caller, discovery, true))
    {
      hide PublishStep, IsolatedStep;
      ghost var start := IsolateCall(State(), latching, Init(Withdraw, caller, 0, true));
      dev := dev.(ready := false, timedOut := false);
      assert start == IsolateCall(State(), latching, Init(NewEpoch, caller, 0, true));
      epoch := (epoch + 1) % EPOCH_MODULUS;
      assert start == IsolateCall(State(), latching, Init(Capture, caller, 0, true));
      discovery := epoch;
      assert start == IsolateCall(State(), latching, Init(MaskReceiver, caller, discovery, true));
      vim := vim.(receiver := false);
      assert start == IsolateCall(State(), latching, Init(MaskPort, caller, discovery, true));
      reg := reg.(ie := NONE);
      hist := hist.(withdrawn := false);
    }

    // ahci_init_port up to the start of its blocking discovery, undisturbed.
    method IsolatePort(caller: Caller) returns (discovery: nat)
      modifies this
      ensures IsolateCall(old(State()), latching, Init(Withdraw, caller, 0, true))
              == (State(), Init(Discover, caller, discovery, true))
      ensures Isolated(old(State()), State(), latching, discovery)
    {
      hide PublishStep, EnterStep, DiscoverStep, Isolated;
      IsolateMeaning(State(), latching, caller);
      discovery := WithdrawMedia(caller);
      ghost var start := IsolateCall(State(), latching, Init(Baseline, caller, discovery, true));
      reg := reg.(status := AfterStatusWrite(reg.status, latching, CONNECT_CHANGE));
      reg := reg.(ips := false);
      assert start == IsolateCall(State(), latching, Init(Idle, caller, discovery, true));
      reg := reg.(started := false);
      assert start == IsolateCall(State(), latching, Init(Discover, caller, discovery, true));
    }

    // The status writes of ahci_init_port after discovery, undisturbed.
    method ClearStatus(caller: Caller, discovery: nat, ok: bool)
      modifies this
      ensures ConcludeCall(old(State()), latching, Init(ClearPxserr, caller, discovery, ok))
              == ConcludeCall(State(), latching, Init(if ok then MaskAll else Conclude, caller, discovery, ok))
    {
      hide ConcludeCall;
      ClearMeaning(State(), latching, caller, discovery, ok);
      reg := reg.(status := AfterErrorWrite(reg.status, latching));
      hist := hist.(changes := 0, dropped := false);
      reg := reg.(status := Both(reg.status, CONNECT_CHANGE));
      reg := reg.(ips := false);
    }

    // The masked publication window of ahci_init_port, undisturbed.
    method PublishMedia(caller: Caller, discovery: nat) returns (success: bool)
      modifies this
      ensures ConcludeCall(old(State()), latching, Init(MaskAll, caller, discovery, true))
              == ConcludeCall(State(), latching, Init(Conclude, caller, discovery, success))
    {
      hide EnterStep, IsolatedStep;
      ghost var start := ConcludeCall(State(), latching, Init(MaskAll, caller, discovery, true));
      success := true;
      vim := Sources(false, false, false);
      assert start == ConcludeCall(State(), latching, Init(Publish, caller, discovery, true));
      if epoch != discovery || reg.det != DET_PHY_READY || reg.status.connect {
        ScheduleMediaDiscovery(false);
        success := false;
      } else {
        dev := dev.(ready := true);
        reg := reg.(ie := DEFAULT_INTR_ENABLE);
      }
      assert start == ConcludeCall(State(), latching, Init(UnmaskSata, caller, discovery, success));
      hide Schedule;
      if success {
        vim := vim.(receiver := true, controller := true);
      } else {
        vim := vim.(controller := true);
      }
      assert start == ConcludeCall(State(), latching, Init(UnmaskUsb, caller, discovery, success));
      vim := vim.(usb := true);
    }

    // ahci_init_port from its PxSERR write to its end, undisturbed; `ok` is the status of
    // discovery, and then of the whole.
    method ConcludeInit(caller: Caller, discovery: nat, ok: bool) returns (success: bool)
      modifies this
      ensures ConcludeCall(old(State()), latching, Init(ClearPxserr, caller, discovery, ok))
              == (State(), if caller.FromService? then Svc(Counted(success)) else Hba(Tail(success)))
      ensures Concluded(old(State()), State(), latching, discovery, ok, success)
    {
      hide ConcludeCall, Concluded;
      ConcludeMeaning(State(), latching, caller, discovery, ok);
      success := ok;
      ClearStatus(caller, discovery, ok);
      if success {
        success := PublishMedia(caller, discovery);
      }
      FinishInit(caller, discovery, success);
    }

    // ahci_init_port after publication or failure.
    method FinishInit(caller: Caller, discovery: nat, success: bool)
      modifies this
      ensures ConcludeCall(old(State()), latching, Init(Conclude, caller, discovery, success))
              == (State(), if caller.FromService? then Svc(Counted(success)) else Hba(Tail(success)))
    {
      hide EnterStep, IsolatedStep, Schedule;
      ghost var start := ConcludeCall(State(), latching, Init(Conclude, caller, discovery, success));
      if !success {
        dev := dev.(timedOut := true);
        reg := reg.(ie := if req.pending then NONE else CONNECT_CHANGE);
      }
      assert start == ConcludeCall(State(), latching,
                                   if caller.FromService? then Svc(Counted(success)) else Hba(Tail(success)));
    }
  }
}
