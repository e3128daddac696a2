// The state of the one SATA port, and what each handler in src/rdx_mount/ahci.c
// does to it when it runs without being preempted.  `AhciPort.dfy` holds the same
// handlers as methods over mutable fields; `Lifecycle.dfy` interleaves them.
module PortModel {

  // The PxIS and PxIE bits that some statement distinguishes.  `transport` stands for the four
  // bits of PORT_FATAL_ERROR_INTR other than the task-file error, which are always enabled,
  // disabled and tested together; `other` for the bits that are never enabled.
  datatype Fatal = Fatal(taskFile: bool, transport: bool)
  datatype Fis = Fis(deviceBits: bool, dmaSetup: bool, pioSetup: bool, register: bool)
  datatype Bits = Bits(connect: bool, overflow: bool, fatal: Fatal, fis: Fis, other: bool)

  const NO_FIS := Fis(false, false, false, false)
  const NONE := Bits(false, false, Fatal(false, false), NO_FIS, false)
  // PORT_CONNECT_CHANGE_STATUS and PORT_DEFAULT_INTR_ENABLE
  const CONNECT_CHANGE := NONE.(connect := true)
  const DEFAULT_INTR_ENABLE := Bits(true, true, Fatal(true, true), Fis(true, true, true, true), false)

  predicate IsFatal(b: Bits) {
    b.fatal.taskFile || b.fatal.transport
  }

  function Both(a: Bits, b: Bits): Bits {
    Bits(a.connect && b.connect, a.overflow && b.overflow,
         Fatal(a.fatal.taskFile && b.fatal.taskFile, a.fatal.transport && b.fatal.transport),
         Fis(a.fis.deviceBits && b.fis.deviceBits, a.fis.dmaSetup && b.fis.dmaSetup,
             a.fis.pioSetup && b.fis.pioSetup, a.fis.register && b.fis.register),
         a.other && b.other)
  }

  function Minus(a: Bits, b: Bits): Bits {
    Bits(a.connect && !b.connect, a.overflow && !b.overflow,
         Fatal(a.fatal.taskFile && !b.fatal.taskFile, a.fatal.transport && !b.fatal.transport),
         Fis(a.fis.deviceBits && !b.fis.deviceBits, a.fis.dmaSetup && !b.fis.dmaSetup,
             a.fis.pioSetup && !b.fis.pioSetup, a.fis.register && !b.fis.register),
         a.other && !b.other)
  }

  function Either(a: Bits, b: Bits): Bits {
    Bits(a.connect || b.connect, a.overflow || b.overflow,
         Fatal(a.fatal.taskFile || b.fatal.taskFile, a.fatal.transport || b.fatal.transport),
         Fis(a.fis.deviceBits || b.fis.deviceBits, a.fis.dmaSetup || b.fis.dmaSetup,
             a.fis.pioSetup || b.fis.pioSetup, a.fis.register || b.fis.register),
         a.other || b.other)
  }

  // PxSSTS.DET, four bits; 3 is PHY ready, 4 is PHY offline.
  const DET_PHY_READY := 3
  const DET_PHY_OFFLINE := 4

  const EPOCH_MODULUS := 0x1_0000_0000

  // ata_dev[0] and gSATADeviceCount; `queued` counts the callbacks in the ring of CallbackRing.dfy.
  datatype Device = Device(ready: bool, timedOut: bool, portReset: bool, queued: nat, count: nat)

  // ahci_hotplug_pending, ahci_hotplug_quiesced, ahci_reinit_wait_for_callbacks
  datatype Request = Request(pending: bool, quiesced: bool, waitCallbacks: bool)

  // PxIE, PxIS, the port's bit of IS.IPS, PxSSTS.DET, PxCMD.ST
  datatype Registers = Registers(ie: Bits, status: Bits, ips: bool, det: int, started: bool)

  // VIM request mask: true means the source is enabled.
  datatype Sources = Sources(receiver: bool, controller: bool, usb: bool)

  // Written by no statement of the program and read by none.
  datatype History = History(
    withdrawn: bool,  // eject teardown took readiness away and no discovery followed yet
    changes: nat,     // connect changes latched since discovery last cleared PxSERR
    dropped: bool)    // a PxSERR write discarded a latched connect change of ready media

  datatype Port = Port(
    dev: Device,
    req: Request,
    reg: Registers,
    vim: Sources,
    epoch: nat,            // sata_media_epoch, a 32-bit counter
    usbConfigured: bool,   // usb_dev.dev_state == USB_DEVICE_STATE_CONFIGURED
    hist: History)

  // Two readings of PxIS.PCS: Reflect follows PxSERR.DIAG.X (AHCI 1.1 section 3.3.5),
  // so that only a PxSERR write clears it; Latch is an independent write-one-to-clear bit.
  datatype Latching = Reflect | Latch

  predicate Changed(p: Port) {
    p.reg.status.connect
  }

  // PxIS after a write to PxSERR that includes DIAG.X, and after a write of `bits` to PxIS.
  function AfterErrorWrite(status: Bits, l: Latching): Bits {
    status.(connect := status.connect && l.Latch?)
  }

  function AfterStatusWrite(status: Bits, l: Latching, bits: Bits): Bits {
    Minus(status, bits.(connect := bits.connect && l.Latch?))
  }

  function WithoutRegister(status: Bits, condition: bool): Bits {
    status.(fis := status.fis.(register := status.fis.register && !condition))
  }

  function When(condition: bool, bits: Bits): Bits {
    if condition then bits else NONE
  }

  function Count(condition: bool): nat {
    if condition then 1 else 0
  }

  // IS.IPS rises as soon as an enabled status bit is set.
  function Settle(p: Port): Port {
    p.(reg := p.reg.(ips := p.reg.ips || Both(p.reg.status, p.reg.ie) != NONE))
  }

  function NextEpoch(p: Port): nat {
    (p.epoch + 1) % EPOCH_MODULUS
  }

  // ahci_schedule_media_discovery
  function Schedule(p: Port, waitForCallbacks: bool): Port {
    p.(dev := p.dev.(ready := false, timedOut := true),
       req := Request(true, p.req.pending && p.req.quiesced,
                      (p.req.pending && p.req.waitCallbacks) || waitForCallbacks),
       reg := p.reg.(ie := NONE),
       vim := p.vim.(receiver := false),
       epoch := NextEpoch(p),
       hist := p.hist.(withdrawn := false))
  }

  // ahci_handle_media_link_change: one transport error for the old medium, only when no
  // callback is pending that could finish its cleanup.
  function LinkChange(p: Port, l: Latching): Port {
    var q := Schedule(p, p.dev.ready);
    q.(dev := q.dev.(queued := p.dev.queued + Count(p.dev.ready && p.usbConfigured && p.dev.queued == 0)),
       reg := q.reg.(status := AfterErrorWrite(p.reg.status, l)))
  }

  // ahci_start.  After a port reset of ready media its SET FEATURES commands end by
  // clearing D2H status.
  function Start(p: Port, l: Latching): Port {
    p.(dev := p.dev.(portReset := false),
       reg := p.reg.(started := true,
                     status := WithoutRegister(AfterErrorWrite(p.reg.status, l), p.dev.portReset && p.dev.ready)),
       hist := p.hist.(dropped := p.hist.dropped || (p.dev.ready && l.Reflect? && Changed(p))))
  }

  // ahci_port_reset; `ok` says whether PHY ready came back within the retries.
  function PortReset(p: Port, l: Latching, ok: bool): Port {
    p.(dev := p.dev.(ready := p.dev.ready && ok, timedOut := p.dev.timedOut || (p.dev.ready && !ok),
                     portReset := true),
       reg := p.reg.(status := AfterErrorWrite(p.reg.status, l)))
  }

  // ahci_hba_reset that completes: every port register returns to its reset value.
  function HbaReset(p: Port): Port {
    p.(reg := p.reg.(ie := NONE, status := NONE, ips := false, started := false),
       hist := p.hist.(dropped := p.hist.dropped || (p.dev.ready && Changed(p))))
  }

  // What one handler run reads from hardware and cannot compute itself.
  datatype Oracle = Oracle(
    resetNeeded: bool,   // PxTFD BSY/DRQ set, or PxSACT nonzero while NCQ is on
    resetOk: bool,       // COMRESET brought PHY ready back
    hbaOk: bool,         // GHC.HR cleared in time
    pioMore: bool,       // PIO Setup FIS says more blocks follow
    choice: nat)         // which foreground or host activity comes next

  // What ahci_rx_error_isr reads.
  datatype ReceiverOracle = ReceiverOracle(
    errors: nat,         // PxPHYSTAT receiver error count
    motion: bool,        // rdx_mechanism_is_active
    threshold: bool,     // the limiter fires, see ReceiverLimiter.dfy
    commandOwned: bool,  // PxCI nonzero
    resetOk: bool)

  // ahci_fatal_error_recovery, all of it: a port reset always costs readiness, and costs
  // ready media a new discovery; the command list runs again in any case.
  function FatalRecovery(p: Port, l: Latching, force: bool, o: Oracle): Port {
    var reset := o.resetNeeded || force;
    var lost := reset && p.dev.ready;
    p.(dev := Device(p.dev.ready && !reset,
                     p.dev.timedOut || (reset && (!o.resetOk || p.dev.ready)),
                     false,
                     p.dev.queued + Count(p.usbConfigured && p.dev.ready && p.dev.queued == 0),
                     p.dev.count),
       req := AfterLoss(p.req, lost),
       reg := p.reg.(started := true,
                     ie := When(!lost, p.reg.ie),
                     status := WithoutRegister(AfterErrorWrite(p.reg.status, l),
                                               p.dev.portReset && p.dev.ready && !reset)),
       vim := p.vim.(receiver := p.vim.receiver && !lost),
       epoch := if lost then NextEpoch(p) else p.epoch,
       hist := p.hist.(withdrawn := p.hist.withdrawn && !lost,
                       dropped := p.hist.dropped || (p.dev.ready && !reset && l.Reflect? && Changed(p))))
  }

  // The request flags after a discovery request that waits for callbacks, if there was one.
  function AfterLoss(req: Request, lost: bool): Request {
    Request(req.pending || lost, req.quiesced && (lost ==> req.pending), req.waitCallbacks || lost)
  }

  // The completion and overflow part of ahci_port_intr_handler.
  function Completions(p: Port, l: Latching, bits: Bits, o: Oracle): Port {
    var pio := bits.fis.pioSetup && !o.pioMore;
    var overflow := bits.overflow;
    p.(dev := p.dev.(queued := p.dev.queued + Count(bits.fis.deviceBits) + Count(bits.fis.dmaSetup)
                                            + Count(bits.fis.register) + Count(pio),
                     portReset := p.dev.portReset && !overflow),
       reg := p.reg.(started := p.reg.started || overflow,
                     status := p.reg.status.(
                       connect := p.reg.status.connect && (overflow ==> l.Latch?),
                       fis := p.reg.status.fis.(
                         pioSetup := p.reg.status.fis.pioSetup && !pio,
                         register := p.reg.status.fis.register && !(overflow && p.dev.portReset && p.dev.ready)))),
       hist := p.hist.(dropped := p.hist.dropped || (overflow && p.dev.ready && l.Reflect? && Changed(p))))
  }

  // ahci_port_intr_handler on the enabled bits of one snapshot.
  function PortIntr(p: Port, l: Latching, bits: Bits, o: Oracle): Port {
    if bits.connect then LinkChange(p, l)
    else if IsFatal(bits) then FatalRecovery(p, l, false, o)
    else Completions(p, l, bits, o)
  }

  // One turn of the do-while loop of ahci_isr after its read of PxIE, up to the re-read of PxIS.
  function IsrTurn(p: Port, l: Latching, snapshot: Bits, mask: Bits, o: Oracle): Port {
    PortIntr(p.(reg := p.reg.(status := AfterStatusWrite(p.reg.status, l, snapshot))), l, Both(snapshot, mask), o)
  }

  // The four ways through ahci_rx_error_isr.
  datatype ReceiverAction = Ignore | Defer | Abandon | Recover

  function ReceiverDecision(p: Port, o: ReceiverOracle): ReceiverAction {
    if o.errors == 0 then Ignore
    else if o.motion then Defer
    else if p.reg.det == DET_PHY_OFFLINE || !o.threshold then Ignore
    else if !p.dev.ready && o.commandOwned then Abandon
    else Recover
  }

  // ahci_rx_error_isr: ready media is always rediscovered, and its transport told once.
  function ReceiverError(p: Port, l: Latching, o: ReceiverOracle): Port {
    var action := ReceiverDecision(p, o);
    var lost := action.Defer? || (action.Recover? && p.dev.ready);
    p.(dev := p.dev.(ready := p.dev.ready && !lost,
                     timedOut := p.dev.timedOut || lost || action.Abandon?,
                     portReset := p.dev.portReset && !action.Recover?,
                     queued := p.dev.queued + Count(lost && p.dev.ready && p.dev.queued == 0)),
       req := AfterLoss(p.req, lost),
       reg := p.reg.(started := (p.reg.started && !action.Abandon?) || action.Recover?,
                     ie := When(!lost, p.reg.ie),
                     status := if action.Recover? then AfterErrorWrite(p.reg.status, l) else p.reg.status),
       vim := p.vim.(receiver := p.vim.receiver && !lost),
       epoch := if lost then NextEpoch(p) else p.epoch,
       hist := p.hist.(withdrawn := p.hist.withdrawn && !lost))
  }

  // ahci_recover_local_command, from its first mask write to its last.
  function RecoverLocal(p: Port, l: Latching, resetPort: bool): Port {
    var q := Schedule(p, false);
    q.(dev := q.dev.(portReset := p.dev.portReset || resetPort),
       reg := q.reg.(started := p.reg.started && !resetPort,
                     status := if resetPort then AfterErrorWrite(p.reg.status, l) else p.reg.status),
       vim := q.vim.(controller := true))
  }

  // ahci_media_inserted up to, but not including, the final USB unmask.
  function MediaInserted(p: Port): Port {
    if p.dev.ready then
      p.(vim := Sources(true, true, false))
    else
      Schedule(p, true).(vim := Sources(false, true, false))
  }

  // scsi_submission_media_is_current, for a command that captured `epoch`.
  predicate SubmissionCurrent(p: Port, epoch: nat) {
    p.dev.ready && p.epoch == epoch && p.reg.det == DET_PHY_READY && !Changed(p)
  }

  // A critical section of scsi.c or rdx_runtime_ata.c around a polled command: both SATA
  // sources are masked inside it, completion bits move, connect change stays as it was.
  function Session(p: Port, enables: Bits): Port {
    p.(reg := p.reg.(ie := When(p.dev.ready, enables.(connect := p.reg.ie.connect, other := false))),
       vim := p.vim.(receiver := p.dev.ready, controller := true))
  }

  // rdx_hardware_teardown_eject_media: readiness goes, the interrupt enables stay.
  function EjectTeardown(p: Port): Port {
    p.(dev := p.dev.(ready := false, timedOut := true),
       hist := p.hist.(withdrawn := p.hist.withdrawn || p.dev.ready))
  }
}
