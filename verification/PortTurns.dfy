// What the handlers of `PortModel.dfy` do to the port, bit by bit: one turn of ahci_isr for each
// class of status bits, and one call of each other handler that requests discovery.
module PortTurns {
  import opened PortModel

  const CLOSED := Bits(false, false, Fatal(false, false), Fis(false, false, false, false), false)

  // A discovery request has been made of `p`: media is not ready, every port interrupt and the
  // receiver source are closed, and the epoch has moved.
  predicate Requested(p: Port, q: Port, waits: bool) {
    && !q.dev.ready && q.dev.timedOut
    && q.req == Request(true, p.req.pending && p.req.quiesced, (p.req.pending && p.req.waitCallbacks) || waits)
    && q.reg.ie == CLOSED && !q.vim.receiver
    && q.epoch == (p.epoch + 1) % 0x1_0000_0000
  }

  // No discovery request has been made: neither the flags nor what is enabled have changed.
  predicate NotRequested(p: Port, q: Port) {
    q.req == p.req && q.reg.ie == p.reg.ie && q.vim == p.vim && q.epoch == p.epoch
  }

  // What the port shows of `snapshot` is taken off PxIS, except a reflected connect change.
  predicate Taken(p: Port, q: Port, snapshot: Bits) {
    && (q.reg.status.overflow <==> p.reg.status.overflow && !snapshot.overflow)
    && (q.reg.status.fatal.taskFile <==> p.reg.status.fatal.taskFile && !snapshot.fatal.taskFile)
    && (q.reg.status.fatal.transport <==> p.reg.status.fatal.transport && !snapshot.fatal.transport)
    && (q.reg.status.fis.deviceBits <==> p.reg.status.fis.deviceBits && !snapshot.fis.deviceBits)
    && (q.reg.status.fis.dmaSetup <==> p.reg.status.fis.dmaSetup && !snapshot.fis.dmaSetup)
    && (q.reg.status.other <==> p.reg.status.other && !snapshot.other)
  }

  // The command list runs again with PxSERR cleared: a reflected connect change is gone, a
  // latched one stays unless the snapshot showed it.
  predicate LinkCleared(p: Port, q: Port, l: Latching, snapshot: Bits) {
    q.reg.status.connect <==> p.reg.status.connect && l.Latch? && !snapshot.connect
  }

  // What of `snapshot` is enabled in `mask`, in the order in which ahci_port_intr_handler looks.
  predicate LinkShown(snapshot: Bits, mask: Bits) {
    snapshot.connect && mask.connect
  }

  predicate FatalShown(snapshot: Bits, mask: Bits) {
    || (snapshot.fatal.taskFile && mask.fatal.taskFile)
    || (snapshot.fatal.transport && mask.fatal.transport)
  }

  predicate OverflowShown(snapshot: Bits, mask: Bits) {
    snapshot.overflow && mask.overflow
  }

  // How many callbacks the enabled completion FISes are good for.
  function Completed(snapshot: Bits, mask: Bits, o: Oracle): nat {
    (if snapshot.fis.deviceBits && mask.fis.deviceBits then 1 else 0)
    + (if snapshot.fis.dmaSetup && mask.fis.dmaSetup then 1 else 0)
    + (if snapshot.fis.register && mask.fis.register then 1 else 0)
    + (if snapshot.fis.pioSetup && mask.fis.pioSetup && !o.pioMore then 1 else 0)
  }

  // Enabled connect change: one request, one notification, and nothing else of the snapshot.
  lemma LinkTurn(p: Port, l: Latching, snapshot: Bits, mask: Bits, o: Oracle)
    requires LinkShown(snapshot, mask)
    ensures var q := IsrTurn(p, l, snapshot, mask, o);
            && Requested(p, q, p.dev.ready) && Taken(p, q, snapshot) && LinkCleared(p, q, l, snapshot)
            && q.dev.queued == p.dev.queued + (if p.dev.ready && p.usbConfigured && p.dev.queued == 0 then 1 else 0)
            && q.reg.started == p.reg.started && q.dev.portReset == p.dev.portReset
            && q.vim.controller == p.vim.controller && q.vim.usb == p.vim.usb
    ensures var fis := IsrTurn(p, l, snapshot, mask, o).reg.status.fis; var was := p.reg.status.fis;
            && (fis.pioSetup <==> was.pioSetup && !snapshot.fis.pioSetup)
            && (fis.register <==> was.register && !snapshot.fis.register)
  {
  }

  // Enabled fatal error, of the task file or any of the other four, without an enabled
  // connect change: the command list runs again, ready media has one error callback and no
  // completion, and readiness is lost exactly when a reset was needed.
  lemma FatalTurn(p: Port, l: Latching, snapshot: Bits, mask: Bits, o: Oracle)
    requires !LinkShown(snapshot, mask) && FatalShown(snapshot, mask)
    ensures var q := IsrTurn(p, l, snapshot, mask, o);
            && q.reg.started && !q.dev.portReset && Taken(p, q, snapshot) && LinkCleared(p, q, l, snapshot)
            && q.dev.queued == p.dev.queued + (if p.dev.ready && p.usbConfigured && p.dev.queued == 0 then 1 else 0)
            && (q.dev.ready <==> p.dev.ready && !o.resetNeeded)
            && (if p.dev.ready && o.resetNeeded then Requested(p, q, true) else NotRequested(p, q))
            && q.vim.controller == p.vim.controller && q.vim.usb == p.vim.usb
    ensures var q := IsrTurn(p, l, snapshot, mask, o);
            q.dev.timedOut <==> p.dev.timedOut || (o.resetNeeded && (p.dev.ready || !o.resetOk))
  {
  }

  // Restarting the list after an earlier COMRESET of media that stays ready clears D2H status.
  lemma FatalTurnFis(p: Port, l: Latching, snapshot: Bits, mask: Bits, o: Oracle)
    requires !LinkShown(snapshot, mask) && FatalShown(snapshot, mask)
    ensures var fis := IsrTurn(p, l, snapshot, mask, o).reg.status.fis; var was := p.reg.status.fis;
            && (fis.pioSetup <==> was.pioSetup && !snapshot.fis.pioSetup)
            && (fis.register <==> was.register && !snapshot.fis.register
                                  && !(p.dev.portReset && p.dev.ready && !o.resetNeeded))
  {
  }

  // Nothing of that: a callback for each enabled completion, a restart of the command list for
  // an enabled overflow, and neither readiness nor what is enabled changes.
  lemma CompletionTurn(p: Port, l: Latching, snapshot: Bits, mask: Bits, o: Oracle)
    requires !LinkShown(snapshot, mask) && !FatalShown(snapshot, mask)
    ensures var q := IsrTurn(p, l, snapshot, mask, o); var restart := OverflowShown(snapshot, mask);
            && q.dev.ready == p.dev.ready && q.dev.timedOut == p.dev.timedOut && NotRequested(p, q)
            && Taken(p, q, snapshot)
            && q.dev.queued == p.dev.queued + Completed(snapshot, mask, o)
            && (q.reg.started <==> p.reg.started || restart)
            && (q.dev.portReset <==> p.dev.portReset && !restart)
            && (restart ==> LinkCleared(p, q, l, snapshot))
            && (!restart ==>
                  (q.reg.status.connect <==> p.reg.status.connect && !(l.Latch? && snapshot.connect)))
    ensures var fis := IsrTurn(p, l, snapshot, mask, o).reg.status.fis; var was := p.reg.status.fis;
            && (fis.pioSetup <==> was.pioSetup && !snapshot.fis.pioSetup)
            && (fis.register <==> was.register && !snapshot.fis.register
                                  && !(OverflowShown(snapshot, mask) && p.dev.portReset && p.dev.ready))
  {
  }

  // At the published mask every connect change, fatal error, overflow and completion is enabled.
  lemma PublishedMask(snapshot: Bits)
    ensures Both(snapshot, DEFAULT_INTR_ENABLE) == snapshot.(other := false)
    ensures Both(snapshot, CONNECT_CHANGE) == CLOSED.(connect := snapshot.connect)
  {
  }

  // --- The receiver-error handler ---

  // No errors counted, BIST mode without motion, or a limiter that has not fired.
  lemma ReceiverIgnores(p: Port, l: Latching, o: ReceiverOracle)
    requires o.errors == 0 || (!o.motion && (p.reg.det == 4 || !o.threshold))
    ensures ReceiverError(p, l, o) == p
  {
  }

  // Motion: the request is made and the link left alone.
  lemma ReceiverDefers(p: Port, l: Latching, o: ReceiverOracle)
    requires o.errors > 0 && o.motion
    ensures var q := ReceiverError(p, l, o);
            && Requested(p, q, true)
            && q.dev.queued == p.dev.queued + (if p.dev.ready && p.dev.queued == 0 then 1 else 0)
            && q.reg.started == p.reg.started && q.reg.status == p.reg.status && q.dev.portReset == p.dev.portReset
            && q.vim.controller == p.vim.controller && q.vim.usb == p.vim.usb
  {
  }

  // The limiter has fired: a discovery command in an empty bay is abandoned; in every other case
  // the link is reset and the list runs again, ready media is rediscovered and told once.
  lemma ReceiverRecovers(p: Port, l: Latching, o: ReceiverOracle)
    requires o.errors > 0 && !o.motion && p.reg.det != 4 && o.threshold
    ensures var q := ReceiverError(p, l, o);
            !p.dev.ready && o.commandOwned ==> q == p.(dev := p.dev.(timedOut := true), reg := p.reg.(started := false))
    ensures var q := ReceiverError(p, l, o);
            p.dev.ready || !o.commandOwned ==>
              && q.reg.started && !q.dev.portReset && LinkCleared(p, q, l, CLOSED) && Taken(p, q, CLOSED)
              && q.dev.queued == p.dev.queued + (if p.dev.ready && p.dev.queued == 0 then 1 else 0)
              && (if p.dev.ready then Requested(p, q, true)
                  else NotRequested(p, q) && !q.dev.ready && q.dev.timedOut == p.dev.timedOut)
              && q.vim.controller == p.vim.controller && q.vim.usb == p.vim.usb
  {
  }

  // --- The foreground and the host ---

  // ahci_recover_local_command closes everything but the controller source and drops the list
  // only together with the link.
  lemma LocalRecovery(p: Port, l: Latching, resetPort: bool)
    ensures var q := RecoverLocal(p, l, resetPort);
            && Requested(p, q, false) && q.vim == Sources(false, true, p.vim.usb)
            && (q.reg.started <==> p.reg.started && !resetPort)
            && (q.dev.portReset <==> p.dev.portReset || resetPort)
            && q.dev.queued == p.dev.queued && Taken(p, q, CLOSED)
            && (q.reg.status.connect <==> p.reg.status.connect && (resetPort ==> l.Latch?))
  {
  }

  // ahci_media_inserted requests discovery exactly for media that is not ready.
  lemma Insertion(p: Port)
    ensures var q := MediaInserted(p);
            if p.dev.ready then q == p.(vim := Sources(true, true, false))
            else Requested(p, q, true) && q.vim == Sources(false, true, false) && q.dev.queued == p.dev.queued
                 && q.reg.status == p.reg.status && q.reg.started == p.reg.started
  {
  }

  // The gate of scsi_send_ata_cmd.
  lemma SubmissionGate(p: Port, captured: nat)
    ensures SubmissionCurrent(p, captured) <==>
              p.dev.ready && p.epoch == captured && p.reg.det == 3 && !p.reg.status.connect
  {
  }

  // A polled command session leaves exactly ready media with its sources open, moves completion
  // enables only, and closes an unready port.
  lemma SessionMasks(p: Port, enables: Bits)
    ensures var q := Session(p, enables);
            && q.vim == Sources(p.dev.ready, true, p.vim.usb)
            && q.dev == p.dev && q.req == p.req && q.epoch == p.epoch
            && q.reg == p.reg.(ie := q.reg.ie)
            && (if p.dev.ready then q.reg.ie == enables.(connect := p.reg.ie.connect, other := false)
                else q.reg.ie == CLOSED)
  {
  }

  // Eject teardown takes readiness away and nothing else.
  lemma Teardown(p: Port)
    ensures var q := EjectTeardown(p);
            && q.dev == p.dev.(ready := false, timedOut := true)
            && NotRequested(p, q) && q.reg == p.reg
            && (q.hist.withdrawn <==> p.hist.withdrawn || p.dev.ready)
  {
  }

  // --- The link and the list ---

  // A COMRESET costs readiness only when it fails, and is remembered until the list starts.
  lemma LinkReset(p: Port, l: Latching, ok: bool)
    ensures var q := PortReset(p, l, ok);
            && (q.dev.ready <==> p.dev.ready && ok) && (q.dev.timedOut <==> p.dev.timedOut || (p.dev.ready && !ok))
            && q.dev.portReset && q.reg.started == p.reg.started && NotRequested(p, q)
            && Taken(p, q, CLOSED) && LinkCleared(p, q, l, CLOSED) && q.dev.queued == p.dev.queued
  {
  }

  // Starting the list clears the link's part of PxSERR, and D2H status too for ready media whose
  // features have to be set again after a COMRESET.
  lemma ListStart(p: Port, l: Latching)
    ensures var q := Start(p, l);
            && q.reg.started && !q.dev.portReset && q.dev.ready == p.dev.ready && NotRequested(p, q)
            && Taken(p, q, CLOSED) && LinkCleared(p, q, l, CLOSED)
            && (q.reg.status.fis.register <==> p.reg.status.fis.register && !(p.dev.portReset && p.dev.ready))
            && q.reg.status.fis.pioSetup == p.reg.status.fis.pioSetup
            && (q.hist.dropped <==> p.hist.dropped || (p.dev.ready && l.Reflect? && p.reg.status.connect))
  {
  }

  // An HBA reset leaves nothing enabled, shown or running, and no handler to enter.
  lemma ControllerReset(p: Port)
    ensures var q := HbaReset(p);
            && q.reg == Registers(CLOSED, CLOSED, false, p.reg.det, false)
            && q.dev == p.dev && q.req == p.req && q.vim == p.vim && q.epoch == p.epoch
            && (q.hist.dropped <==> p.hist.dropped || (p.dev.ready && p.reg.status.connect))
  {
  }

  // The handler is entered for any status bit that is enabled, old or new.
  lemma Interrupts(p: Port, bits: Bits)
    ensures var q := Settle(p.(reg := p.reg.(status := Either(p.reg.status, bits))));
            && (q.reg.ips <==>
                  || p.reg.ips
                  || LinkShown(p.reg.status, p.reg.ie) || LinkShown(bits, p.reg.ie)
                  || FatalShown(p.reg.status, p.reg.ie) || FatalShown(bits, p.reg.ie)
                  || OverflowShown(p.reg.status, p.reg.ie) || OverflowShown(bits, p.reg.ie)
                  || Completed(p.reg.status, p.reg.ie, ONE_BLOCK) > 0 || Completed(bits, p.reg.ie, ONE_BLOCK) > 0
                  || (p.reg.status.other && p.reg.ie.other) || (bits.other && p.reg.ie.other))
            && q == p.(reg := p.reg.(ips := q.reg.ips, status := q.reg.status))
            && Joined(q.reg.status, p.reg.status, bits)
  {
  }

  // What hardware says when a PIO transfer has no further block.
  const ONE_BLOCK := Oracle(false, false, false, false, 0)

  predicate Joined(all: Bits, a: Bits, b: Bits) {
    && (all.connect <==> a.connect || b.connect) && (all.overflow <==> a.overflow || b.overflow)
    && (all.fatal.taskFile <==> a.fatal.taskFile || b.fatal.taskFile)
    && (all.fatal.transport <==> a.fatal.transport || b.fatal.transport)
    && (all.fis.deviceBits <==> a.fis.deviceBits || b.fis.deviceBits)
    && (all.fis.dmaSetup <==> a.fis.dmaSetup || b.fis.dmaSetup)
    && (all.fis.pioSetup <==> a.fis.pioSetup || b.fis.pioSetup)
    && (all.fis.register <==> a.fis.register || b.fis.register)
    && (all.other <==> a.other || b.other)
  }
}
