// Every interleaving of the foreground loop, the USB interrupt level and the two
// SATA interrupt handlers.  The foreground and the USB level advance one C statement
// (or one masked section) at a time; a SATA handler can run between any two of them.
module Lifecycle {
  import opened PortModel

  // Where ahci_init_port was called from.
  datatype Caller = FromService | FromHbaInit

  // The statements of ahci_init_port, in order.
  datatype InitAt =
    | Withdraw | NewEpoch | Capture | MaskReceiver | MaskPort | Baseline | Idle
    | Discover | Recapture | ClearPxserr | ClearPxis | ClearGlobal
    | MaskAll | Publish | UnmaskSata | UnmaskUsb | Conclude

  // How many statements of ahci_init_port are left.
  function StatementsLeft(at: InitAt): (n: nat)
    ensures 1 <= n <= 17
  {
    match at
    case Withdraw => 17 case NewEpoch => 16 case Capture => 15 case MaskReceiver => 14 case MaskPort => 13
    case Baseline => 12 case Idle => 11 case Discover => 10 case Recapture => 9 case ClearPxserr => 8
    case ClearPxis => 7 case ClearGlobal => 6 case MaskAll => 5 case Publish => 4 case UnmaskSata => 3
    case UnmaskUsb => 2 case Conclude => 1
  }

  // The statements of ahci_service and of ahci_init.
  datatype ServiceAt = Wait | Drain | Quiesce | StopList | Link | TakeQuiesced | TakeWait | Counted(ok: bool)
  datatype HbaAt = Flags | GlobalReset | Tail(ok: bool) | TailQuiesced

  // The statements of ahci_reset_lun; `was` is media_was_ready of ahci_fatal_error_recovery.
  datatype LunAt =
    | LunMask | LunClear | LunRecover | LunSchedule(was: bool, reset: bool) | LunStart(was: bool)
    | LunNotify(was: bool) | LunSample | LunWrite(enables: Bits) | LunBusy

  // How many statements of ahci_reset_lun come before its test of the busy bits.
  function LunStatementsLeft(at: LunAt): nat {
    match at
    case LunMask => 8 case LunClear => 7 case LunRecover => 6 case LunSchedule(_, _) => 5 case LunStart(_) => 4
    case LunNotify(_) => 3 case LunSample => 2 case LunWrite(_) => 1 case LunBusy => 0
  }

  datatype Pc =
    | Rest
    | Svc(svc: ServiceAt)
    | Hba(hba: HbaAt)
    | Init(at: InitAt, caller: Caller, discovery: nat, ok: bool)
    | CbExecute | CbUnmask | CbClear   // callback consumer of the main loop
    | InsertedUnmask                   // end of ahci_media_inserted
    | Lun(lun: LunAt)
    | HostCommand(captured: nat)       // a SCSI command past the gate of scsi_ata_cmd_handler

  // ahci_isr between entry and exit, with its last snapshot of PxIS and then of PxIE.
  datatype IsrPc = IsrIdle | IsrLoop(snapshot: Bits) | IsrDispatch(snapshot: Bits, mask: Bits)

  datatype System = System(port: Port, main: Pc, usb: Pc, isr: IsrPc)

  datatype HostEntry = ResetLun | Command

  // An idle device, with the first choice of what comes next; and one whose discovery succeeds.
  const NO_ORACLE := Oracle(false, false, false, false, 0)
  const ALL_WELL := Oracle(false, true, true, false, 6)

  datatype Step =
    | Hardware(bits: Bits, det: int, usbConfigured: bool)
    | ControllerEnter
    | ControllerMask
    | ControllerTurn(o: Oracle)
    | ReceiverErrorIsr(r: ReceiverOracle)
    | UsbEnter(entry: HostEntry)
    | UsbStep(o: Oracle, enables: Bits)
    | MainStep(o: Oracle, enables: Bits)

  // A step the hardware and the interrupt controller allow in `s`.
  predicate Enabled(s: System, step: Step) {
    match step
    case Hardware(_, _, _) => true
    case ControllerEnter => s.isr.IsrIdle? && s.port.vim.controller && s.port.reg.ips
    case ControllerMask => s.isr.IsrLoop?
    case ControllerTurn(_) => s.isr.IsrDispatch?
    case ReceiverErrorIsr(_) => s.port.vim.receiver
    case UsbEnter(_) => s.isr.IsrIdle? && s.usb.Rest? && s.port.vim.usb
    case UsbStep(_, _) => s.isr.IsrIdle? && !s.usb.Rest?
    case MainStep(_, _) => s.isr.IsrIdle? && s.usb.Rest?
  }

  // ahci_init_port up to the write that closes PxIE.
  function EnterStep(p: Port, pc: Pc): (Port, Pc)
    requires pc.Init?
  {
    match pc.at
    case Withdraw => (p.(dev := p.dev.(ready := false, timedOut := false)), pc.(at := NewEpoch))
    case NewEpoch => (p.(epoch := NextEpoch(p)), pc.(at := Capture))
    case Capture => (p, pc.(at := MaskReceiver, discovery := p.epoch))
    case MaskReceiver => (p.(vim := p.vim.(receiver := false)), pc.(at := MaskPort))
    case _ => (p.(reg := p.reg.(ie := NONE), hist := p.hist.(withdrawn := false)), pc.(at := Baseline))
  }

  // The blocking middle of ahci_init_port: any sequence of resets, starts and stops, and
  // then failure, failed admission, or admission by sata_media_prepare.
  function DiscoverStep(p: Port, l: Latching, o: Oracle, pc: Pc): (Port, Pc)
    requires pc.Init?
  {
    if o.choice == 0 then (PortReset(p, l, o.resetOk), pc)
    else if o.choice == 1 then (Start(p, l), pc)
    else if o.choice == 2 then (p.(reg := p.reg.(started := false)), pc)
    else if o.choice == 3 then (HbaReset(p), pc)
    else if o.choice == 4 then (p, pc.(at := ClearPxserr, ok := false))
    else if o.choice == 5 then (p.(epoch := NextEpoch(p)), pc.(at := ClearPxserr, ok := false))
    else (p.(epoch := NextEpoch(p)), pc.(at := Recapture))
  }

  // ahci_init_port on the isolated port, up to its test of the discovery status.
  function IsolatedStep(p: Port, l: Latching, o: Oracle, pc: Pc): (Port, Pc)
    requires pc.Init?
  {
    match pc.at
    case Baseline =>
      (p.(reg := p.reg.(status := AfterStatusWrite(p.reg.status, l, CONNECT_CHANGE), ips := false)), pc.(at := Idle))
    case Idle => (p.(reg := p.reg.(started := false)), pc.(at := Discover, ok := true))
    case Discover => DiscoverStep(p, l, o, pc)
    case Recapture => (p, pc.(at := ClearPxserr, discovery := p.epoch))
    case ClearPxserr =>
      (p.(reg := p.reg.(status := AfterErrorWrite(p.reg.status, l)), hist := p.hist.(changes := 0, dropped := false)),
       pc.(at := ClearPxis))
    case ClearPxis => (p.(reg := p.reg.(status := Both(p.reg.status, CONNECT_CHANGE))), pc.(at := ClearGlobal))
    case _ => (p.(reg := p.reg.(ips := false)), pc.(at := if pc.ok then MaskAll else Conclude))
  }

  // The publication window of ahci_init_port and what follows it.
  function PublishStep(p: Port, pc: Pc): (Port, Pc)
    requires pc.Init?
  {
    match pc.at
    case MaskAll => (p.(vim := Sources(false, false, false)), pc.(at := Publish))
    case Publish =>
      if p.epoch != pc.discovery || p.reg.det != DET_PHY_READY || Changed(p) then
        (Schedule(p, false), pc.(at := UnmaskSata, ok := false))
      else
        (p.(dev := p.dev.(ready := true), reg := p.reg.(ie := DEFAULT_INTR_ENABLE)), pc.(at := UnmaskSata))
    case UnmaskSata =>
      (p.(vim := p.vim.(controller := true, receiver := p.vim.receiver || pc.ok)), pc.(at := UnmaskUsb))
    case UnmaskUsb => (p.(vim := p.vim.(usb := true)), pc.(at := Conclude))
    case _ =>
      (if pc.ok then p
       else p.(dev := p.dev.(timedOut := true), reg := p.reg.(ie := When(!p.req.pending, CONNECT_CHANGE))),
       if pc.caller.FromService? then Svc(Counted(pc.ok)) else Hba(Tail(pc.ok)))
  }

  predicate Publishing(at: InitAt) {
    at.MaskAll? || at.Publish? || at.UnmaskSata? || at.UnmaskUsb? || at.Conclude?
  }

  // From the start of ahci_init_port to the write that closes PxIE.
  predicate Opening(at: InitAt) {
    at.Withdraw? || at.NewEpoch? || at.Capture? || at.MaskReceiver? || at.MaskPort?
  }

  // One statement of ahci_init_port.
  function InitStep(p: Port, l: Latching, o: Oracle, pc: Pc): (Port, Pc)
    requires pc.Init?
  {
    if Opening(pc.at) then EnterStep(p, pc)
    else if Publishing(pc.at) then PublishStep(p, pc)
    else IsolatedStep(p, l, o, pc)
  }

  // One statement of ahci_service after its test of the pending flag.
  function ServiceStep(p: Port, at: ServiceAt): (Port, Pc) {
    match at
    case Wait =>
      if !p.req.waitCallbacks then (p, Svc(Drain))
      else if p.dev.queued != 0 then (p, Rest)
      else (p.(req := p.req.(waitCallbacks := false)), Svc(Drain))
    case Drain =>
      if p.dev.queued != 0 then (p.(req := p.req.(waitCallbacks := true)), Rest) else (p, Svc(Quiesce))
    case Quiesce =>
      if p.req.quiesced then (p, Svc(Link)) else (p.(req := p.req.(quiesced := true)), Svc(StopList))
    case StopList => (p.(reg := p.reg.(started := false), dev := p.dev.(count := 0)), Rest)
    case Link =>
      if p.reg.det != DET_PHY_READY then (p, Rest)
      else (p.(req := p.req.(pending := false)), Svc(TakeQuiesced))
    case TakeQuiesced => (p.(req := p.req.(quiesced := false)), Svc(TakeWait))
    case TakeWait => (p.(req := p.req.(waitCallbacks := false)), Init(Withdraw, FromService, 0, true))
    case Counted(ok) => (p.(dev := p.dev.(count := p.dev.count + Count(ok))), Rest)
  }

  // One statement of ahci_init.
  function HbaStep(p: Port, o: Oracle, at: HbaAt): (Port, Pc) {
    match at
    case Flags => (p.(dev := p.dev.(count := 0), req := Request(false, false, false)), Hba(GlobalReset))
    case GlobalReset => if o.hbaOk then (HbaReset(p), Init(Withdraw, FromHbaInit, 0, true)) else (p, Rest)
    case Tail(ok) =>
      if ok then (p.(dev := p.dev.(count := p.dev.count + 1)), Rest)
      else if p.reg.det != DET_PHY_READY then (p.(req := p.req.(pending := true)), Hba(TailQuiesced))
      else (p, Rest)
    case TailQuiesced => (p.(req := p.req.(quiesced := false)), Rest)
  }

  // One statement of ahci_reset_lun and of the ahci_fatal_error_recovery call inside it.
  function LunStep(p: Port, l: Latching, o: Oracle, at: LunAt): (Port, Pc) {
    match at
    case LunMask => (p.(reg := p.reg.(ie := NONE)), Lun(LunClear))
    case LunClear => (p.(dev := p.dev.(queued := 0)), Lun(LunRecover))
    case LunRecover =>
      (p.(dev := p.dev.(ready := p.dev.ready && (o.resetNeeded ==> o.resetOk),
                        timedOut := p.dev.timedOut || (o.resetNeeded && !o.resetOk),
                        portReset := p.dev.portReset || o.resetNeeded),
          reg := p.reg.(started := false,
                        status := if o.resetNeeded then AfterErrorWrite(p.reg.status, l) else p.reg.status)),
       Lun(LunSchedule(p.dev.ready, o.resetNeeded)))
    case LunSchedule(was, reset) => (if reset && was then Schedule(p, true) else p, Lun(LunStart(was)))
    case LunStart(was) => (Start(p, l), Lun(LunNotify(was)))
    case LunNotify(was) =>
      (p.(dev := p.dev.(queued := p.dev.queued + Count(p.usbConfigured && was && p.dev.queued == 0))), Lun(LunSample))
    case LunSample => (p, Lun(LunWrite(When(p.dev.ready, DEFAULT_INTR_ENABLE))))
    case LunWrite(enables) => (p.(reg := p.reg.(ie := enables)), Lun(LunBusy))
    case LunBusy =>
      if !o.resetNeeded || p.req.pending then (p, Rest)
      else (p.(dev := p.dev.(ready := p.dev.ready && p.dev.count == 0)), Hba(Flags))
  }

  // The foreground loop between two calls: the order of its activities is left open.
  function Dispatch(p: Port, l: Latching, o: Oracle, enables: Bits): (Port, Pc) {
    if o.choice == 0 then (p, if p.req.pending then Svc(Wait) else Rest)
    else if o.choice == 1 then
      if p.dev.queued == 0 then (p, Rest) else (p.(vim := p.vim.(usb := false)), CbExecute)
    else if o.choice == 2 then (MediaInserted(p), InsertedUnmask)
    else if o.choice == 3 then (EjectTeardown(p), Rest)
    else if o.choice == 4 then (RecoverLocal(p, l, o.resetNeeded), Rest)
    else (Session(p, enables), Rest)
  }

  // One statement of the thread at `pc`.
  function Advance(p: Port, l: Latching, o: Oracle, enables: Bits, pc: Pc): (Port, Pc) {
    match pc
    case Rest => Dispatch(p, l, o, enables)
    case Svc(at) => ServiceStep(p, at)
    case Hba(at) => HbaStep(p, o, at)
    case Init(_, _, _, _) => InitStep(p, l, o, pc)
    case CbExecute =>
      if o.choice == 0 then (p, CbUnmask)
      else if o.choice == 1 then (RecoverLocal(p, l, o.resetNeeded), CbExecute)
      else (Session(p, enables), CbExecute)
    case CbUnmask => (p.(vim := p.vim.(usb := true)), CbClear)
    case CbClear => (p.(dev := p.dev.(queued := if p.dev.queued == 0 then 0 else p.dev.queued - 1)), Rest)
    case InsertedUnmask => (p.(vim := p.vim.(usb := true)), Rest)
    case Lun(at) => LunStep(p, l, o, at)
    case HostCommand(captured) =>
      if o.choice == 0 then
        // scsi_send_ata_cmd; what issuing does to PxSACT is in NcqTags.dfy
        (if SubmissionCurrent(p, captured) then p.(vim := p.vim.(receiver := true, controller := true))
         else RecoverLocal(p, l, false), Rest)
      else if o.choice == 1 then (RecoverLocal(p, l, o.resetNeeded), Rest)
      else (Session(p, enables), pc)
  }

  function Next(s: System, l: Latching, step: Step): System {
    match step
    case Hardware(bits, det, usbConfigured) =>
      var p := s.port;
      s.(port := Settle(p.(
        reg := p.reg.(status := Either(p.reg.status, bits), det := det),
        usbConfigured := usbConfigured,
        hist := p.hist.(changes := p.hist.changes + Count(bits.connect)))))
    case ControllerEnter => s.(isr := IsrLoop(s.port.reg.status))
    case ControllerMask =>
      if !s.isr.IsrLoop? then s else s.(isr := IsrDispatch(s.isr.snapshot, s.port.reg.ie))
    case ControllerTurn(o) =>
      if !s.isr.IsrDispatch? then s else
      var p := IsrTurn(s.port, l, s.isr.snapshot, s.isr.mask, o);
      if p.reg.status == NONE then
        s.(port := p.(reg := p.reg.(ips := false)), isr := IsrIdle)
      else
        s.(port := Settle(p), isr := IsrLoop(p.reg.status))
    case ReceiverErrorIsr(r) => s.(port := Settle(ReceiverError(s.port, l, r)))
    case UsbEnter(entry) =>
      if !s.port.dev.ready then s
      else s.(usb := if entry.ResetLun? then Lun(LunMask) else HostCommand(s.port.epoch))
    case UsbStep(o, enables) =>
      var (p, pc) := Advance(s.port, l, o, enables, s.usb);
      s.(port := Settle(p), usb := pc)
    case MainStep(o, enables) =>
      var (p, pc) := Advance(s.port, l, o, enables, s.main);
      s.(port := Settle(p), main := pc)
  }
}
