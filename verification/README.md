# RDX dock firmware: models and proofs

This project models the parts of the RDX dock firmware and its build scripts whose correctness
is hardest to see from one function, and proves what they promise. `dafny verify dfyconfig.toml`
checks all of it.

## What is modelled

**The SATA media lifecycle.** One port is shared by the foreground loop, the USB interrupt level,
the AHCI interrupt handler and, above it, the receiver-error handler. `PortModel.dfy` gives the
port state (`ata_dev[0]`, the three hot-plug flags, PxIE, PxIS, IS.IPS, PxSSTS.DET, PxCMD.ST, the
VIM request mask, the media epoch) and the effect of each handler, and `PortTurns.dfy` what these
effects are bit by bit. `AhciPort.dfy` holds the operations as methods over mutable fields and
proves them equal to those effects, and `PortCalls.dfy` what whole calls amount to.
`Lifecycle.dfy` lets the levels interleave: foreground and USB code advance statement by
statement, with the exceptions listed at the end; a SATA handler can run between any two
statements, the receiver-error handler also between two turns of the AHCI handler and between the
PxIE read and the dispatch of a turn; and hardware sets status bits and moves DET at any time.
`LifecycleInvariant.dfy` proves the lifecycle invariant over all runs, `LifecycleRaces.dfy` and
`LifecycleLimits.dfy` the exact conditions under which the code breaks it, `LifecyclePublish.dfy`
publication safety, `LifecycleDrain.dfy` the drain barrier and the progress of discovery,
`LifecycleNotify.dfy` the terminal notification, `LifecycleDelivery.dfy` what becomes of it, and
`LifecycleWitness.dfy` the runs from power-up that reach ready media and each of the states in
which a promise is broken.

**Around the port.** `CallbackRing.dfy` and `CallbackFifo.dfy`: the sixteen-slot callback ring as
a first-in first-out queue, with the receiver-error handler running between any two statements of
an addition. `NcqTags.dfy`: conservation of NCQ tags between PxSACT and its shadow.
`ReceiverLimiter.dfy`: the receiver-error limiter.

**The update container.** `IntelHex.dfy`, `HexText.dfy`, `HexMeaning.dfy`, `HexReaders.dfy`: the
two Intel HEX readers, their text and what a file of records means. `RollingCheck.dfy`: the
algebra of the rolling check. `UpdateContainer.dfy`: the builder. `UpdateReceiver.dfy`: the
firmware's download command, which must accept what the builder makes.

**USB and small machines.** `UsbTransfer.dfy`, `BotDrain.dfy`, `PrdTable.dfy`, `Delay.dfy`,
`Cinit.dfy`, `PortInitMachine.dfy`.

## How the source is read

- PxIS and PxIE are records of the bits that some statement distinguishes; the four fatal bits
  other than the task-file error are one. The epoch is a 32-bit counter.
- AHCI 1.1, section 3.3.5, makes PxIS.PCS a reflection of PxSERR.DIAG.X, which only a PxSERR
  write clears. The code also writes PxIS as if PCS were a latch of its own. Every lifecycle
  result is proved for both readings (`Latching`), and says where they differ.
- Link-change claims are stated from the PxSERR write at `src/rdx_mount/ahci.c:2323` on.
- "Prompt" means that a latched and unmasked AHCI interrupt is served before the code it
  interrupts goes on.
- Registers of 32 tag bits are sets of bit numbers in `NcqTags.dfy`; endpoint words are reduced
  modulo 2^32 in `UsbTransfer.dfy`; the rolling check uses 32-bit vectors.
- Interrupt nesting is on (`src/rdx_mount/vim_nvic.c:34`), and the receiver-error source stands
  above AHCI, as the comment at `src/rdx_mount/ahci.c:3310` says.
- The mechanism does not move before the startup `ahci_init` has returned
  (`src/rdx_mount/main.c:197-209`).
- A text file is the list of its lines. Clocks, host deliveries, poll results and link outcomes
  are parameters.

## Where the code does not keep its promise

Each of these is proved with the exact condition, in the member named; `LifecycleWitness.dfy`,
`ReceiverLimiter.LateSampleFires` and `HexReaders.TrailingSeparator` give runs and inputs that
reach them.

- `LifecycleRaces.TakeoverRace`: a request that a handler makes between a take-over and the PxIE
  write of `ahci_init_port` is ignored by publication. `ahci_init` leaves discovery pending while
  PxIE still enables connect change (`src/rdx_mount/ahci.c:3228-3236`), which exposes the take-over
  of `ahci_service`; and `ahci_reset_lun` re-enables PxIE and the receiver source stays open
  (`src/rdx_mount/ahci.c:3021-3050`), which exposes that of `ahci_init`.
- `LifecycleLimits.LunArmingRace`: `ahci_reset_lun` samples readiness and writes PxIE in two
  accesses, between which the receiver-error handler can withdraw the medium.
- `LifecycleLimits.HbaTimeout`: a timed-out HBA reset leaves an unready port with PxIE as it was.
- `LifecycleLimits.TeardownOpens`: eject teardown clears readiness without closing the port.
- `LifecycleLimits.RecheckLoop`: with a reflected PCS, a second connect change during the handler
  keeps the re-check loop of `ahci_isr` from returning.
- `LifecyclePublish.DropsExactly`: with a reflected PCS, a connect change of ready media is
  discarded by each restart of the command list that keeps media ready: after an overflow, in
  fatal-error recovery without COMRESET, and in `ahci_reset_lun` without COMRESET.
- `LifecycleDelivery.LostExactly`: a notification queued while `ahci_reset_lun` stands between its
  test of readiness and its queue reset is discarded, be it for a connect change before the PxIE
  write or for a receiver error after it, and none is queued in its place.
- `LifecycleDelivery.LinkChangeTells`: a callback that the consumer has executed but not cleared
  counts as pending, so that a link change then queues none.
- `LifecycleNotify.AddsExactly`: a receiver error between the PxIE read of `ahci_isr` and its
  dispatch lets the old mask queue completions on a closed port.
- `CallbackFifo.SurvivesExactly`: the receiver-error handler can take the slot of an addition that
  it interrupts, which then delivers a stale record or a stale callback.
- `CallbackFifo.ResetWindow`, `CallbackFifo.FullRingOverwrites`: a queue reset inside the consumer
  window, and an addition to a full ring.
- `NcqTags.StepConserves`, `NcqTags.InterruptedIssue`: reissuing a tag that was not reported, and
  an issue that is not atomic against the handler.
- `ReceiverLimiter.RecoveryWithinWindow`: the 3 ms window is only as good as a 32-bit clock.
- `HexReaders.ReadersAgree`: a trailing 1Fh character divides the two readers.
- `RollingCheck.HighBitsInvisible`, `RollingCheck.FourByteBurstMissed`: what the check cannot see.
- `BotDrain.SeenByScsi`: the SCSI layer is told the length of the last completion only.
- `PrdTable.BothBuilders`: a zero length gives no entry in one builder and a wrapped one in the
  other.
- `UsbTransfer.RoundedMeaning`: an OUT length within a maximum packet of 2^32 is rounded to less
  than itself.
- `Delay.ExactIff`: an empty delay, or one whose deadline is counter value zero, is late.

## Model

| member | source | states |
|---|---|---|
| `LifecycleInvariant.LifecycleSafety` | src/rdx_mount/ahci.c:2034-2424 | In every state of every run from power-up in which no handler makes a request that its interrupted code can no longer see: pending discovery means not ready, PxIE at most connect change and the receiver-error source masked; and at the end of every handler, service step and settled statement unready media has PxIE at most connect change, and, outside the masked publication window, the receiver-error source is open exactly when media is ready |
| `LifecycleInvariant.RunKeeps` | src/rdx_mount/ahci.c:2806-3056 | The whole lifecycle invariant survives every such interleaving of foreground, USB level and both SATA handlers, with the receiver handler also between the PxIE read of ahci_isr and its dispatch |
| `LifecycleInvariant.StepKeeps` | src/rdx_mount/ahci.c:133-260 | One step of any level, statement by statement, keeps the invariant unless it is such a request |
| `LifecycleInvariant.RequestThread` | src/rdx_mount/ahci.c:133-156 | A discovery request made by a handler leaves the interrupted code with what it relies on, unless that code has decided already |
| `LifecycleInvariant.UsbEntry` | src/rdx_mount/ahci.c:2991-2997 | A USB handler that finds ready media has interrupted the foreground only where that holds no unready port |
| `LifecycleInvariant.AdvanceThread` | src/rdx_mount/ahci.c:2034-2424 | Each foreground or USB statement keeps what its thread relies on at the next one |
| `LifecycleInvariant.MainLevels` | src/rdx_mount/ahci.c:3170-3257 | The foreground reaches ahci_init only before media was ever ready |
| `LifecycleRaces.TakeoverRace` | src/rdx_mount/ahci.c:2863-2869 | At every statement from the link test of ahci_service, or the HBA reset of ahci_init, to the end of the publication window: media whose rediscovery is pending can be published if and only if the take-over left the connect-change interrupt enabled or, in ahci_init as called from ahci_reset_lun, the receiver-error source open |
| `LifecycleRaces.RaceBreaks` | src/rdx_mount/ahci.c:3180-3226 | A request that a handler makes during such a take-over is past help: if discovery then succeeds, media is published with it pending |
| `LifecycleRaces.RaceFreeUntilGuardFails` | src/rdx_mount/ahci.c:3228-3236 | From power-up every run is race-free until a SATA handler runs in an exposed take-over, or the receiver handler between the last two PxIE statements of ahci_reset_lun; and wherever such a run stands in a take-over, exposed is exactly able to break |
| `LifecycleRaces.RaceNeeds` | src/rdx_mount/ahci.c:2716-2728 | A request that the interrupted code cannot see needs an exposed take-over or that receiver error |
| `LifecycleRaces.ClosedNeverBreaks` | src/rdx_mount/ahci.c:2041-2062 | A take-over that is not exposed cannot become so, whatever runs, and never publishes media with a pending request |
| `LifecycleRaces.ConnectInWindow` | src/rdx_mount/ahci.c:2913-2938 | A connect change after the take-over makes a second request, under both readings of PxIS.PCS |
| `LifecycleRaces.March` | src/rdx_mount/ahci.c:2041-2381 | That request survives every later statement of ahci_init_port to publication |
| `LifecycleLimits.LunArmingRace` | src/rdx_mount/ahci.c:3021-3026 | The last PxIE write of ahci_reset_lun can enable every interrupt of an unready port if and only if it sampled ready media, whose receiver-error source is always open |
| `LifecycleLimits.HbaTimeout` | src/rdx_mount/ahci.c:3028-3050 | When ahci_reset_lun re-initializes a busy disk, readiness is gone; PxIE is closed if and only if the HBA reset completes or PxIE was closed before |
| `LifecycleLimits.TeardownOpens` | src/rdx_mount/rdx_hardware.c:191-206 | In every race-free run from power-up, eject teardown of ready media always leaves unready media with its receiver-error source open and PxIE as it was |
| `LifecycleLimits.TeardownLasts` | src/rdx_mount/ahci.c:167-190 | That gap lasts until exactly a handler requests discovery, an insertion, a polled command session or a local recovery, and each of these closes the port |
| `LifecycleLimits.RecheckLoop` | src/rdx_mount/ahci.c:2916-2936 | With PxIE closed and no further event the re-check loop of ahci_isr returns after one turn, except that it never returns exactly when a connect change is latched and PxIS.PCS reflects PxSERR |
| `LifecyclePublish.PublishedOnlyWhenCurrent` | src/rdx_mount/ahci.c:2337-2365 | Readiness rises only in the fully masked window, with the admitted epoch, DET = 3, no latched connect change and no pending request, and leaves the epoch alone |
| `LifecyclePublish.NothingMissedAtPublication` | src/rdx_mount/ahci.c:2322-2365 | If latched sources are served promptly, media is published only if no connect change was latched since the PxSERR write |
| `LifecyclePublish.HostSeesCurrentMedia` | src/rdx_mount/ahci.c:2333-2381 | Whenever host code is about to look, ready media has seen a connect change since that PxSERR write if and only if a later PxSERR write discarded one; with a latching PxIS.PCS it has seen none |
| `LifecyclePublish.SubmissionIsCurrent` | src/rdx_mount/scsi.c:846-925 | The same equivalence at the moment a host command is handed to the disk |
| `LifecyclePublish.PublishStepKeeps` | src/rdx_mount/ahci.c:432-475 | Each step accounts for every connect change of ready media: none, still latched, or discarded by a PxSERR write |
| `LifecyclePublish.DropsExactly` | src/rdx_mount/ahci.c:432-475 | A step discards a latched connect change of media that stays ready if and only if PxIS.PCS reflects PxSERR and the step restarts the command list, that is in ahci_reset_lun or fatal-error recovery without COMRESET or after an overflow, or the step resets the controller |
| `LifecyclePublish.MissedOnlyByRestart` | src/rdx_mount/ahci.c:1954-1954 | Where the host is about to look at ready media after a connect change, the run contains the restart of the command list that discarded it |
| `LifecycleDrain.DrainBarrier` | src/rdx_mount/ahci.c:2820-2869 | In every race-free run ahci_service enters ahci_init_port only with an empty callback queue and a stopped command list, and both still hold when PxIE is closed |
| `LifecycleDrain.DiscoveryProgress` | src/rdx_mount/main.c:214-252 | With k callbacks queued and the link steady, ahci_init_port is entered in pass k + 1 if the list is already stopped and in pass k + 2 otherwise, whatever the callbacks do |
| `LifecycleDrain.DrainStepKeeps` | src/rdx_mount/ahci.c:2844-2857 | A quiesced pending request has a stopped command list in every state, and handlers neither restart it nor add callbacks |
| `LifecycleNotify.TerminalNotification` | src/rdx_mount/ahci.c:231-260 | After a link change under ready media a configured transport has a callback waiting, at most one was added and only to an empty queue, and from any later moment to any later one before the next publication none is added, re-check turns included |
| `LifecycleNotify.SilentStep` | src/rdx_mount/ahci.c:2716-2797 | No step adds a callback to an unready, closed port that no reset still owes one and whose handler holds no mask from before |
| `LifecycleNotify.StaleArises` | src/rdx_mount/ahci.c:2919-2930 | ahci_isr holds a mask from before the port was closed exactly if the receiver-error handler, in motion or after its limiter fired, has made a request since the PxIE read |
| `LifecycleNotify.MaskGap` | src/rdx_mount/ahci.c:2922-2930 | With such a mask it adds to the closed port one callback for each enabled completion of the snapshot, unless it shows an enabled connect change or any of the five enabled fatal errors, and then none |
| `LifecycleNotify.AddsExactly` | src/rdx_mount/ahci.c:2716-2797 | So a step adds a callback to an unready, closed port that no reset still owes one if and only if it dispatches such completions, and none of those, with such a mask |
| `LifecycleDelivery.QueueFalls` | src/rdx_mount/main.c:238-251 | The queue gets shorter only where the consumer gives a slot back, then by one, and where ahci_reset_lun clears it |
| `LifecycleDelivery.NotificationFate` | src/rdx_mount/ahci.c:231-260 | From power-up, until media is published again, what waits after a link change of ready media waits until the consumer takes it, callback by callback, unless the handler ran between the readiness test and the queue reset of ahci_reset_lun; and it can be lost if and only if it ran there |
| `LifecycleDelivery.LostExactly` | src/rdx_mount/ahci.c:2998-3009 | The same for whatever withdrew the medium: a waiting callback can be lost exactly while ahci_reset_lun stands there, no reset falling into the consumer window |
| `LifecycleDelivery.UnreadyAtDoor` | src/rdx_mount/ahci.c:2998-3009 | In every run from power-up ahci_reset_lun reaches its queue reset with unready media if and only if a handler has withdrawn it since the test of readiness, before the PxIE write or after it |
| `LifecycleDelivery.ResetDiscardsNotification` | src/rdx_mount/ahci.c:2998-3014 | What is then cleared is lost for good: nothing is queued in its place before the next publication |
| `LifecycleDelivery.LinkChangeTells` | src/rdx_mount/ahci.c:248-256 | A configured transport has a callback still to come after a link change unless, and only unless, the one pending callback has been executed and its flag not cleared |
| `LifecycleWitness.BootCanPublish` | src/rdx_mount/ahci.c:3217-3226 | From every power-up with the PHY ready a prompt run reaches ready media, so the claims about it are not empty |
| `LifecycleWitness.ServiceExposed` | src/rdx_mount/ahci.c:3228-3236 | From every power-up with a link that is not PHY ready a prompt run reaches the exposed take-over of ahci_service |
| `LifecycleWitness.InitExposed` | src/rdx_mount/ahci.c:3028-3050 | From every power-up with the PHY ready a prompt run reaches the exposed take-over of ahci_init in ahci_reset_lun |
| `LifecycleWitness.ArmingReached` | src/rdx_mount/ahci.c:3021-3026 | Such a run reaches the PxIE write that can open an unready port |
| `LifecycleWitness.BusyReached` | src/rdx_mount/ahci.c:3028-3050 | Such a run reaches the busy disk with an open port that a timed-out HBA reset leaves open |
| `LifecycleWitness.ChangeGoesUnseen` | src/rdx_mount/ahci.c:1954-1954 | Each of the three restarts of the command list, for every kind of fatal error, is reached with a latched connect change, after which the host is about to look at ready media that changed |
| `LifecycleWitness.RecheckReached` | src/rdx_mount/ahci.c:2916-2936 | Such a run reaches the re-check loop with a second connect change latched |
| `LifecycleWitness.MaskGapReached` | src/rdx_mount/ahci.c:2922-2930 | Such a run reaches the dispatch of a completion with the mask of ready media and the receiver source open |
| `LifecycleWitness.ClearReached` | src/rdx_mount/ahci.c:2998-3014 | Such a run reaches the queue reset of ahci_reset_lun with ready media and the receiver source open |
| `LifecycleWitness.ReceiverNoticeLost` | src/rdx_mount/ahci.c:2998-3009 | Such a run loses the notification of a receiver error between the PxIE write and the queue reset |
| `LifecycleWitness.LinkNoticeLost` | src/rdx_mount/ahci.c:2998-3009 | Such a run loses the notification of a connect change between the readiness test and the PxIE write |
| `LifecycleWitness.StaleReached` | src/rdx_mount/ahci.c:2922-2930 | Such a run reaches a stale mask that shows a completion |
| `LifecycleWitness.ExecutedReached` | src/rdx_mount/main.c:233-241 | Such a run handles a link change while the only pending callback has been executed already |
| `PortTurns.LinkTurn` | src/rdx_mount/ahci.c:2720-2728 | One turn of ahci_isr on an enabled connect change, for every port, snapshot and mask: one request, one notification, no completion |
| `PortTurns.FatalTurn` | src/rdx_mount/ahci.c:2730-2751 | The same on any of the five enabled fatal errors: the list runs, one error callback, no completion, readiness lost exactly if a reset was needed |
| `PortTurns.CompletionTurn` | src/rdx_mount/ahci.c:2753-2782 | The same on neither: a callback per enabled completion, a restart for an enabled overflow, readiness and enables as they were |
| `PortTurns.PublishedMask` | include/rdx_mount/ahci.h:244-252 | The mask of ready media enables every one of these bits, the mask of a failed discovery only the connect change |
| `PortTurns.ReceiverIgnores` | src/rdx_mount/ahci.c:3304-3376 | When ahci_rx_error_isr changes nothing |
| `PortTurns.ReceiverDefers` | src/rdx_mount/ahci.c:3306-3343 | What it does in motion: a request, one notification, the link left alone |
| `PortTurns.ReceiverRecovers` | src/rdx_mount/ahci.c:3376-3425 | What it does after the limiter fired: abandon a discovery command, or reset the link, restart the list and rediscover ready media, which is told once |
| `PortTurns.LocalRecovery` | src/rdx_mount/ahci.c:202-224 | ahci_recover_local_command always requests discovery, leaves only the controller source open and drops the list only with the link |
| `PortTurns.Insertion` | src/rdx_mount/ahci.c:167-190 | ahci_media_inserted requests discovery exactly for media that is not ready |
| `PortTurns.SubmissionGate` | src/rdx_mount/scsi.c:846-925 | When the gate lets a host command through |
| `PortTurns.SessionMasks` | src/rdx_mount/scsi.c:1356-1429 | A polled command session leaves exactly ready media with its sources open, moves only completion enables and closes an unready port |
| `PortTurns.Teardown` | src/rdx_mount/rdx_hardware.c:191-206 | Eject teardown takes readiness away and nothing else |
| `PortTurns.LinkReset` | src/rdx_mount/ahci.c:530-592 | A COMRESET costs readiness only when it fails |
| `PortTurns.ListStart` | src/rdx_mount/ahci.c:432-475 | Starting the list clears the link part of PxSERR, and D2H status for ready media after a COMRESET |
| `PortTurns.ControllerReset` | src/rdx_mount/ahci.c:491-510 | An HBA reset leaves nothing enabled, shown or running |
| `PortTurns.Interrupts` | src/rdx_mount/ahci.c:2899-2940 | IS.IPS rises for every status bit that is enabled, old or new, and for no other |
| `PortCalls.IsolateMeaning` | src/rdx_mount/ahci.c:2041-2062 | What the opening statements of ahci_init_port amount to |
| `PortCalls.ConcludeMeaning` | src/rdx_mount/ahci.c:2322-2411 | What its statements from the PxSERR write on amount to, in each outcome |
| `PortCalls.LunMeaning` | src/rdx_mount/ahci.c:2985-3050 | What the statements of ahci_reset_lun on ready media amount to |
| `AhciPort.AhciPort.ScheduleMediaDiscovery` | src/rdx_mount/ahci.c:133-156 | Its whole effect: fail closed, new epoch, masked port and source, and request flags that keep an older request and its drain barrier |
| `AhciPort.AhciPort.InsertMedia` | src/rdx_mount/ahci.c:167-190 | Ready media is left alone with all sources open; otherwise a waiting request with the receiver source masked |
| `AhciPort.AhciPort.RecoverLocalCommand` | src/rdx_mount/ahci.c:202-224 | Its whole effect, with and without COMRESET, ending with only the controller source open |
| `AhciPort.AhciPort.HandleMediaLinkChange` | src/rdx_mount/ahci.c:231-260 | Its whole effect, including the one notification of ready media with an empty queue |
| `AhciPort.AhciPort.ResetPort` | src/rdx_mount/ahci.c:530-592 | Succeeds if and only if one of the thirteen COMRESETs brings the PHY back; readiness is lost only on failure; the connect-change enable is restored |
| `AhciPort.AhciPort.StartList` | src/rdx_mount/ahci.c:432-475 | Its whole effect on PxSERR, PxIS, PxCMD.ST and the port-reset flag |
| `AhciPort.AhciPort.FatalErrorRecovery` | src/rdx_mount/ahci.c:1900-1967 | Its whole effect in closed form: a port reset always costs readiness, and costs ready media a new discovery |
| `AhciPort.AhciPort.HandlePortInterrupt` | src/rdx_mount/ahci.c:2716-2795 | A connect change is one discovery request and nothing else of the snapshot; any of the five fatal errors restarts the list, queues one callback for ready configured media with an empty queue, none for the completion bits, and costs readiness exactly if a reset was needed; otherwise one callback per completion FIS, and neither readiness nor an enable changes |
| `AhciPort.AhciPort.Isr` | src/rdx_mount/ahci.c:2899-2940 | The re-check loop, turn by turn, with PxIE re-read in each |
| `AhciPort.AhciPort.RxErrorIsr` | src/rdx_mount/ahci.c:3287-3432 | Which of ignore, defer, abandon and recover happens, and the whole effect of each |
| `AhciPort.AhciPort.Service` | src/rdx_mount/ahci.c:2806-2869 | With a request and an empty queue it stops the list first, then waits for the PHY, then takes the request over, and only then does ahci_init_port follow; one call is the sequence of statements that the interleaving model preempts |
| `AhciPort.AhciPort.ResetLun` | src/rdx_mount/ahci.c:2985-3050 | The queue is cleared and a configured transport told once; the port is closed and rediscovered exactly if a COMRESET was needed; a disk that is then busy is initialized again unless a request is pending; one call is the sequence of statements that the interleaving model preempts |
| `AhciPort.AhciPort.BeginInit` | src/rdx_mount/ahci.c:3170-3226 | Drops every request, and with the HBA reset everything that is enabled, shown or running; ahci_init_port follows exactly if the reset completes |
| `AhciPort.AhciPort.EndInit` | src/rdx_mount/ahci.c:3223-3243 | Counts the device, or leaves a new request behind exactly if there is no PHY |
| `AhciPort.AhciPort.IsolatePort` | src/rdx_mount/ahci.c:2041-2062 | Readiness goes, a new epoch begins and is captured, the port and the receiver source are closed and the list stopped, in the statements that the interleaving model preempts |
| `AhciPort.AhciPort.ConcludeInit` | src/rdx_mount/ahci.c:2322-2411 | Media is published, with everything enabled and all sources open, exactly if discovery succeeded, its epoch is current, DET is 3 and no connect change is latched; otherwise a request or a timeout is left behind and the port closed to all but connect changes |
| `AhciPort.FatalComposes` | src/rdx_mount/ahci.c:1922-1962 | The closed form of fatal-error recovery is what its statements do one after the other |
| `AhciPort.ReceiverComposes` | src/rdx_mount/ahci.c:3387-3425 | The closed form of receiver-error recovery is what its statements do one after the other |
| `CallbackFifo.FifoRefinement` | src/rdx_mount/ahci.c:296-316 | In every interleaving of the consumer with the statements of an addition and with receiver errors outside its critical part, the pending slots are a cyclic interval and what was executed is a prefix of what was meant to be added, record for record |
| `CallbackFifo.EachDeliveredOnce` | src/rdx_mount/main.c:226-252 | In every such run from power-up, between additions, everything added since the last reset was executed once or is waiting, in order of addition |
| `CallbackFifo.SurvivesExactly` | src/rdx_mount/ahci.c:2614-2645 | A receiver error at any statement of an addition leaves the queue faithful if and only if its source is masked or media unready, or a callback is pending, or the slots happen to hold what is meant already |
| `CallbackFifo.StaleRecordDelivered` | src/rdx_mount/ahci.c:2440-2467 | Otherwise, hit before the queue is entered, the transport is given a transport error and then the completion with the record of an earlier one |
| `CallbackFifo.CompletionInterrupted` | src/rdx_mount/ahci.c:305-307 | What a receiver error at each statement of a completion handler leaves in the two slots, down to a pending flag on a stale callback |
| `CallbackFifo.ExecuteKeeps` | src/rdx_mount/main.c:226-238 | The consumer executes the oldest callback that was added, if there is one, with its own record |
| `CallbackFifo.RecordStable` | src/rdx_mount/ahci.c:2614-2645 | No statement of an addition touches the record that a running callback reads through a pointer |
| `CallbackFifo.FullRingOverwrites` | src/rdx_mount/ahci.c:300-307 | On a full ring the newest callback is executed in place of the oldest |
| `CallbackFifo.ResetWindow` | src/rdx_mount/ahci.c:331-343 | A queue reset leaves both indices equal if and only if the consumer is not between executing a callback and its increment |
| `CallbackFifo.MismatchStalls` | src/rdx_mount/main.c:238-251 | After such a reset the next callback stays pending however often the consumer looks |
| `CallbackRing.CallbackQueue.QueueAdd` | src/rdx_mount/ahci.c:296-316 | The arrays and the index after adding a callback |
| `CallbackRing.CallbackQueue.Complete` | src/rdx_mount/ahci.c:2614-2641 | The arrays after a handler filled the record and added its callback, undisturbed |
| `CallbackRing.CallbackQueue.ConsumeOne` | src/rdx_mount/main.c:226-252 | Delivers the callback and record of the processing slot, clears its flag and advances |
| `CallbackRing.CallbackQueue.ArePending` | src/rdx_mount/ahci.c:111-125 | True exactly when some slot is pending |
| `CallbackRing.CallbackQueue.ClearQueue` | src/rdx_mount/ahci.c:331-343 | No slot pending and both indices zero |
| `NcqTags.TagConservation` | src/rdx_mount/ahci.c:2455-2464 | Over every run since ahci_start issued tags are the disjoint union of reported and outstanding ones, PxSACT stays inside dSActive, and the next report is exact, even when interrupts merge or are missed |
| `NcqTags.StepConserves` | src/rdx_mount/ahci.c:880-887 | A step conserves tags if and only if it does not issue a tag that was retired but not reported, which the slot test lets through |
| `NcqTags.InterruptedIssue` | src/rdx_mount/ahci.c:946-964 | If the handler runs between the PxSACT write and the shadow update, conservation survives if and only if the device has already retired the tag |
| `NcqTags.ReportsRetired` | src/rdx_mount/ahci.c:2440-2467 | From issue to report: the tag is reported exactly if the device retired it, with exactly the others that are retired and not yet reported |
| `NcqTags.NcqPort.IssueQueued` | src/rdx_mount/ahci.c:864-964 | Which of device fault, tag out of range, slot busy in PxSACT or PxCI, rejected table and stopped list refuses a tag, in that order; an accepted one enters PxSACT, dSActive and PxCI and keeps conservation unless dSActive had it |
| `NcqTags.NcqPort.Restart` | src/rdx_mount/ahci.c:432-475 | Stopping and starting the list begins the books anew |
| `NcqTags.NcqPort.HandleSdbFis` | src/rdx_mount/ahci.c:2440-2467 | Reports exactly the retired tags and leaves dSActive equal to PxSACT |
| `ReceiverLimiter.RecoveryIsEarned` | src/rdx_mount/ahci.c:3355-3374 | Every recovery of every trace follows exactly eight samples above two errors in one window, with no low count and no motion-time error from the first of them on, none of which counted towards another recovery |
| `ReceiverLimiter.RecoveryWithinWindow` | src/rdx_mount/ahci.c:3357-3374 | The eight samples lie within 3 ms of real time if and only if none was taken a turn of the 32-bit clock after the window opened |
| `ReceiverLimiter.LateSampleFires` | src/rdx_mount/ahci.c:3357-3374 | A trace whose eighth sample comes a whole clock turn late triggers recovery |
| `ReceiverLimiter.EarnedFires` | src/rdx_mount/ahci.c:3355-3374 | Conversely eight samples above two errors, from a fresh count or window on, with no low count or motion-time error between them and all within 3 ms of the window start, trigger recovery at the eighth and not before |
| `ReceiverLimiter.BurstFires` | src/rdx_mount/ahci.c:3355-3374 | Whatever was counted before, after more than 3 ms without an interrupt eight such samples within 3 ms of the first trigger recovery at the eighth and not before |
| `ReceiverLimiter.CountStartsAgain` | src/rdx_mount/ahci.c:3350-3366 | After a low count, a motion-time error or a recovery nothing is left of the count |
| `ReceiverLimiter.GroupMeaning` | src/rdx_mount/ahci.c:3289-3291 | After any trace the counter is the number of samples above two errors since the last low count, motion-time error, recovery or reopened window, and they lie in the window |
| `ReceiverLimiter.Statics.Sample` | src/rdx_mount/ahci.c:3304-3374 | The counting part of the handler on its static variables: what leaves them alone, what starts the count again, when the window is reopened and exactly when the eighth sample triggers recovery |
| `IntelHex.LineRoundTrip` | scripts/build_rdx_update_container.py:66-77 | Reading an encoded data, address or end record gives it back |
| `IntelHex.EncodedText` | scripts/build_rdx_update_container.py:66-71 | An encoded line is ASCII, has nothing to strip and decodes to its bytes |
| `HexMeaning.RoundTrip` | scripts/build_rdx_update_container.py:59-112 | Every nonempty memory below 4 GB, its bytes listed in any order, comes back from its encoding |
| `HexMeaning.ParseMeaning` | scripts/build_rdx_update_container.py:59-112 | Any encoding by type-04 and data records, cut and ordered at will, is accepted if and only if its bytes are consistent and there are some, and then gives exactly that memory |
| `HexMeaning.ParseExactly` | scripts/build_rdx_update_container.py:59-112 | For every file, by the line at which reading stops: conflict, bad line, missing end record, missing data, or exactly the bytes of the records before the end |
| `HexMeaning.NoEndNoMemory` | scripts/build_rdx_update_container.py:107-108 | No file without an end record is accepted |
| `HexMeaning.LoadMeaning` | scripts/build_rdx_update_container.py:83-91 | A data record is accepted if and only if it contradicts no byte, and then adds exactly its bytes |
| `HexMeaning.OrderIndependent` | scripts/build_rdx_update_container.py:83-91 | Permuting data records under one upper address changes neither acceptance nor the memory |
| `HexMeaning.StoredMeaning` | scripts/build_rdx_update_container.py:83-91 | The memory after a block of data lines, and when there is a conflict |
| `HexReaders.ParseIntelHex` | scripts/build_rdx_update_container.py:59-112 | Accepts a file if and only if it is ASCII, has an end record, every line before it is a data or upper-address record, and their bytes do not contradict each other and are not none; then returns exactly these bytes; otherwise reports the conflict, the bad line or what is missing |
| `HexReaders.GetAddressSpan` | scripts/ti_cgt_tools.py:36-73 | Returns the least start and the greatest end of the data records if and only if no line is bad and there is one; otherwise the error of a bad line or the lack of data |
| `HexReaders.SpanExactly` | scripts/ti_cgt_tools.py:36-73 | For every file: which error, or the least start and greatest end of its data records |
| `HexReaders.ReadersAgree` | scripts/ti_cgt_tools.py:36-73 | On every plain accepted file the second reader returns the least and greatest address if and only if no line holds a character that strip removes and fromhex does not skip; otherwise it rejects the file |
| `HexReaders.TrailingSeparator` | scripts/ti_cgt_tools.py:46-52 | Every one-record file whose data line ends in 1Fh is accepted by the first reader and rejected by the second |
| `HexReaders.SameLine` | scripts/ti_cgt_tools.py:42-70 | How the second reader sees a line that the first accepts |
| `HexReaders.BuildRuntimePayload` | scripts/build_rdx_update_container.py:115-135 | Each byte at address minus base, FFh elsewhere, a tight used length, and exactly when each error is raised |
| `HexText.RenderingExactly` | scripts/build_rdx_update_container.py:71-73 | Text without spaces is read as given bytes if and only if it is their digits, in any mixture of capital and small letters |
| `HexText.DecodeExactly` | scripts/build_rdx_update_container.py:66-105 | A line is read as a record if and only if, stripped, it is a colon and the hexadecimal text of the bytes that frame the record, checksum included |
| `HexText.DecodeFails` | scripts/build_rdx_update_container.py:66-105 | Otherwise which error a line gets, in the order of the checks |
| `HexText.LooseExactly` | scripts/ti_cgt_tools.py:42-70 | What the second reader makes of any line: passed over, bad, data, base address or neither |
| `HexText.AnyCaseDecodes` | scripts/build_rdx_update_container.py:66-77 | Every record comes back from its line in any mixture of cases and with anything around it that strip removes |
| `HexText.UsualEnd` | scripts/build_rdx_update_container.py:92-95 | The usual end record, 00000001FF after the colon, is one |
| `HexText.CorruptByteNoticed` | scripts/build_rdx_update_container.py:76-77 | A line in which one byte is wrong, whichever it is, is taken for no record by either reader |
| `RollingCheck.ComputeCheck` | scripts/build_rdx_update_container.py:45-56 | The nested loops compute the check |
| `RollingCheck.CheckConcat` | scripts/build_rdx_update_container.py:48-55 | The check composes over concatenation |
| `RollingCheck.CheckLinear` | scripts/build_rdx_update_container.py:49-55 | The check of the exclusive-or of two equal-length inputs and seeds is the exclusive-or of their checks |
| `RollingCheck.TableParts` | scripts/build_rdx_update_container.py:50-54 | The inner loop is a table of 256 words, spanned by seven of them |
| `RollingCheck.TableSeesSevenBits` | scripts/build_rdx_update_container.py:50-54 | Two table entries are equal if and only if the seven low bits of their indices are |
| `RollingCheck.HighBitsInvisible` | scripts/build_rdx_update_container.py:49-55 | Bit 7 of any byte is invisible |
| `RollingCheck.LastByteCollision` | scripts/build_rdx_update_container.py:49-55 | Inputs that differ in the last byte only collide if and only if its seven low bits agree |
| `RollingCheck.Residue` | tests/test_build_rdx_update_container.py:98-103 | Data and a four-byte trailer have residue zero if and only if the trailer is the big-endian check, up to bit 7 of each byte |
| `RollingCheck.TrailersDistinct` | scripts/build_rdx_update_container.py:49-55 | Two four-byte trailers after the same data collide if and only if their seven low bits agree |
| `RollingCheck.ShortBurstsNoticed` | scripts/build_rdx_update_container.py:49-55 | Changing at most three neighbouring bytes changes the check, whatever surrounds them, if and only if a visible bit changed |
| `RollingCheck.FourByteBurstMissed` | scripts/build_rdx_update_container.py:49-55 | One four-byte difference is never noticed once another byte follows |
| `UpdateContainer.SelfConsistent` | scripts/build_rdx_update_container.py:160-185 | Every finished container satisfies both rolling checks and the digest at once, has the marker and zeros in their places, keeps the first 108h bytes, and decodes to the payload with its byte sum |
| `UpdateContainer.BuildContainer` | scripts/build_rdx_update_container.py:160-185 | The slice assignments produce exactly that container; exactly when each error is raised |
| `UpdateContainer.BootRoundTrip` | scripts/build_rdx_update_container.py:138-157 | Decoding the boot region as type, length, data and byte-sum records gives the empty descriptor and the payload |
| `UpdateContainer.WrongByteNoticed` | scripts/build_rdx_update_container.py:138-157 | A payload in which one byte is wrong has another byte sum |
| `UpdateContainer.WrongPayloadRefused` | scripts/build_rdx_update_container.py:138-157 | A boot region in which one payload byte is wrong does not decode |
| `UpdateContainer.LengthDigits` | scripts/build_rdx_update_container.py:138-157 | Any record length below 4 GB is read from its four bytes, lowest first |
| `UpdateContainer.BuildBootRegion` | scripts/build_rdx_update_container.py:138-157 | Accepts exactly the 0xF100-byte payloads and fills the boot region |
| `UpdateContainer.TamperNoticed` | scripts/build_rdx_update_container.py:166-167 | A later change of at most three neighbouring bytes of the boot region breaks its check if and only if it changes a visible bit |
| `UpdateReceiver.SendAll` | src/rdx_mount/rdx_manager_protocol.c:873-919 | The verdict on a container depends on the container alone, not on how it is cut into chunks: it is accepted if and only if its digest is the pinned one, or it holds the marker, the digest of its boot region and zeros after it |
| `UpdateReceiver.Install` | src/rdx_mount/rdx_manager_protocol.c:873-941 | Every container that build_container makes is accepted and activated under every chunking, and the flash then holds its boot region |
| `UpdateReceiver.BuiltIsAccepted` | src/rdx_mount/rdx_manager_protocol.c:518-539 | A built container passes the receiver's test |
| `UpdateReceiver.Receiver.Download` | src/rdx_mount/rdx_manager_protocol.c:873-919 | Which chunks are taken and what they do; a refused one leaves the whole receiver as it was; captured marker, hashed payload, withheld word and flash match the stream so far; the first four boot bytes stay erased |
| `UpdateReceiver.FlashBeforeActivation` | src/rdx_mount/rdx_manager_protocol.c:416-470 | Before activation the first four boot bytes are erased in flash and held back; the others are there as far as they came |
| `UpdateReceiver.Receiver.Activate` | src/rdx_mount/rdx_manager_protocol.c:922-941 | Refused unless a whole valid container arrived; then the flash holds the whole boot region; a failure leaves the flash alone |
| `UpdateReceiver.Receiver.ProgramFlash` | src/rdx_mount/rdx_manager_protocol.c:391-414 | Programs exactly the given range without crossing a page in any transfer |
| `UsbTransfer.TransferConservation` | src/mww.c:474-582 | Over every sequence of submissions, ring progress and completions, in 32-bit arithmetic: bytes done plus remaining is what the last accepted submission asked for, the buffer pointer is its start plus the bytes done, and the ring index stays below 10 (IN) or 8 (OUT) |
| `UsbTransfer.ExactConservation` | src/mww.c:526-582 | The same without reduction, nothing wrapping, when no residue exceeds its queued count and no more moves than the request lacks |
| `UsbTransfer.RingCovers` | src/rdx_core/04_hash_flash_usb_thermal.inc:483-515 | The blocks of a wrap-window submission are full but for the last, and their counts and the residual add up to the length |
| `UsbTransfer.ShortTransfer` | src/mww.c:163-190 | After a short transfer outside the wrap window the rounded descriptor's residue gives the bytes done and the rest of the request |
| `UsbTransfer.RoundedMeaning` | src/mww.c:500-502 | The OUT length is the least multiple of the maximum packet that holds the request, if and only if length and packet do not exceed 2^32 together |
| `UsbTransfer.DescriptorMeaning` | src/mww.c:495-512 | What any accepted submission outside the wrap window programs |
| `UsbTransfer.WindowMeaning` | src/rdx_core/04_hash_flash_usb_thermal.inc:483-515 | What any accepted wrap-window submission queues: full blocks of 128, 16 or 32 KB and a last one that with the residual make up the length, rounded as outside for OUT |
| `UsbTransfer.AdvanceMeaning` | src/mww.c:526-582 | A completed block moves what was queued less the residue from remaining to done and passes the turn to the next of ten or eight blocks |
| `UsbTransfer.WindowCompletion` | src/mww.c:163-190 | A completion in the wrap window does the same for the block in turn and frees the endpoint |
| `UsbTransfer.EndpointRecord.SubmitTransfer` | src/mww.c:474-520 | Refused with code 4 and no change exactly on an active endpoint; otherwise the fresh account of the request; outside the wrap window the descriptor is the length itself for IN, and for OUT the least multiple of the maximum packet that holds it, exactly if length and packet do not exceed 2^32 together |
| `UsbTransfer.EndpointRecord.FillRing` | src/rdx_core/04_hash_flash_usb_thermal.inc:483-520 | The loop queues the cut of the length and starts the ring at its first block |
| `UsbTransfer.EndpointRecord.AdvanceTrb` | src/mww.c:526-582 | Credits what the block moved and advances the ring index |
| `UsbTransfer.EndpointRecord.CompleteTransfer` | src/mww.c:163-190 | Nothing changes on an inactive endpoint; otherwise credits, clears active and notifies |
| `BotDrain.Drain` | src/mww.c:249-277 | For every wrapper length and every host that delivers between one byte and what was asked, the phase ends with residue zero and exactly that many bytes consumed, asking first for at most 1014h of what is left and then for at most 400h |
| `BotDrain.SeenByScsi` | src/mww.c:269-271 | With full completions the SCSI layer is told L up to 1014h and ((L - 1014h - 1) mod 400h) + 1 beyond, so it sees the length if and only if it fits the first buffer |
| `PrdTable.BothBuilders` | src/mww.c:700-740 | Both builders leave the same table and count if and only if the length is from one byte to eight windows; above that the first rejects before writing and the second stores the residual |
| `PrdTable.SetupPrdt` | src/rdx_mount/ahci.c:758-838 | Up to eight windows: as few entries as hold the length, each with the window of the direction, two zero words and its count less one, all full but the last; above that nothing is written |
| `PrdTable.BuildPrdTable` | src/mww.c:700-740 | The same entries up to eight windows, eight full ones and the residual above; zero bytes give one entry whose count wraps |
| `PrdTable.CutMeaning` | src/rdx_mount/ahci.c:814-835 | The entries are as few as possible, all but the last full, and sum to the length |
| `Delay.NeverShort` | src/rti.c:101-126 | Wherever the counter wraps and however rarely it is read, no delay returns early |
| `Delay.ExactIff` | src/rti.c:134-160 | Read at every tick, a delay returns on the exact tick if and only if it is not empty and its deadline is not counter value zero |
| `Delay.PromptUnwrapped` | src/rti.c:289-314 | However rarely it reads, a delay without a wrap returns at the first reading that is not before its deadline |
| `Delay.PromptWrapped` | src/rti.c:289-314 | With a wrap it does so too, after the first reading past the wrap if that is not past the deadline |
| `Delay.DelayMicroseconds` | src/rti.c:289-314 | The two loops return at the reading the two searches give |
| `Delay.DelayMilliseconds` | src/rti.c:134-160 | The same for the variant that tests at the end of its second loop |
| `Cinit.InitGlobals` | src/rdx_mount/c_int00.c:58-89 | On the encoding of any list of nonempty records outside the table, memory afterwards is the records stored in order |
| `Cinit.LastWriteWins` | src/rdx_mount/c_int00.c:70-86 | What that means for one address: the last record that covers it |
| `Cinit.EncodedForm` | src/rdx_mount/c_int00.c:58-89 | A record of the table is a length and an address, lowest byte first, the bytes and padding to the next word; a zero length ends it |
| `Cinit.CopyBytes` | src/rdx_mount/c_int00.c:75-79 | The inner loop stores exactly one record |
| `PortInitMachine.Machine.Run` | src/ahci.c:28-176 | Returns success if and only if phase 10h is stored, otherwise what the last phase found; after phase 6 comes 9, 7 or 8 as the link speed decides, after Dh comes Eh or Fh as the disk decides, after any other phase the next, and only the phases with a command, poll or reset can end the call early; PxIE accordingly |
| `PortInitMachine.ExecutedForward` | src/ahci.c:51-175 | One call executes each phase at most once, in order, up to the first failure or the end |
| `PortInitMachine.ExecutedBranches` | src/ahci.c:90-175 | Which phase follows each phase of a call, by what it finds, and which end it |
| `PortInitMachine.PollNeedsReset` | src/ahci.c:93-123 | From phase 6 or before, the poll for PHY ready runs if and only if the call got to the speed test and the link was still slow after the port reset |
| `PortInitMachine.Resume` | src/ahci.c:170-175 | A call after a failure starts with the phase that failed, and nothing else is repeated |

## Left out

- LifecycleInvariant.LifecycleSafety: assumes that the HBA reset completes, that no queue reset falls into the consumer window, and that no handler makes a request which the code it interrupts can no longer see; `LifecycleRaces.TakeoverRace` and `LifecycleLimits.LunArmingRace` say exactly where the last can fail. Media withdrawn by eject teardown is exempt until the next discovery request, see `LifecycleLimits.TeardownLasts`.
- LifecyclePublish.HostSeesCurrentMedia: with a reflected PxIS.PCS a connect change of ready media that a later PxSERR write discards stays unnoticed, as the code has it.
- LifecyclePublish.PublishedOnlyWhenCurrent: that no request is pending at publication holds for runs without such a request; the rest holds for every step.
- CallbackFifo.FifoRefinement: assumes that no receiver error falls into the critical part of an addition; `CallbackFifo.SurvivesExactly` says exactly when one does harm there.
- UsbTransfer.ExactConservation: that the hardware delivers at most the rest of the request is its hypothesis.
- UsbTransfer.DescriptorMeaning: for a 16-bit maximum packet and a 32-bit length, which the source's types guarantee; likewise `UsbTransfer.WindowMeaning`.
- LifecycleDrain.DiscoveryProgress: assumes no interrupt, no USB activity and no motion during the passes, as the bound does.
- LifecycleDrain.DrainBarrier: for runs without such a request.
- HexReaders.ReadersAgree: only for files with no leading blanks, no data record without data and nothing after the end record; beyond them the readers are meant to differ.
- UpdateContainer.SelfConsistent: SHA-256 is any function to 32 bytes; the pinned template digest is a parameter.
- UpdateReceiver.Install: assumes that SPI operations succeed; a failing one marks the download failed.
- BotDrain.Drain: the stall, phase-error and command-status transitions around the data phase.
- Statements taken as one step: `ahci_media_inserted` and `ahci_recover_local_command` between their mask writes, `ahci_schedule_media_discovery` inside `ahci_reset_lun`, the stop, the PxTFD read and the port reset that begin its recovery, its busy test and the loop over readiness, the stop and the device count in `ahci_service`, the device count and the three flags in `ahci_init`, the test and the addition of the notification in `ahci_reset_lun`, the three reads of the publication test, the consumer's flag and index update, and, in the lifecycle, the dispatch of one AHCI interrupt snapshot, so that a receiver error inside the dispatch counts as one just before it. What it does to the ring there is in `CallbackFifo.dfy`.
- The blocking middle of `ahci_init_port` is any sequence of resets, starts and stops that ends in failure, failed admission or admission; IDENTIFY, classification, speed renegotiation and SET FEATURES are inside it.
- Polled command sessions of the SCSI and runtime ATA code are one step that masks both SATA sources and restores them for ready media; a command that does not complete ends in `ahci_recover_local_command`; their data is not modelled.
- `ahci_power_mgmt_callback`, which calls `ahci_reset_lun` with the AHCI source masked, and builds with more than one port.
- Polling time, the watchdog, debug output, sense data, LED and fan state, and everything `sata_media_reset` does besides advancing the epoch.
- The callback ring counts as a number in the lifecycle; its slots are in `CallbackFifo.dfy`. Callbacks are assumed registered.
- Waking the device at a second interrupt priority: the USB level is taken as one handler at a time.
- USB endpoint configuration, the refill of the wrap-window ring after its first filling (any new counts are allowed) and control-endpoint dispatch after a completion.
- Manufacturing, serial-number and non-download modes of WRITE BUFFER.
- The register bring-up, GPIO, SPI, PWM and interrupt-controller setup, release packaging, file input and output, and SHA-256 itself.
- The ATA identify fields and error tables, `align_up` and `format_ti_response_file`: no copying of fields, no error mapping and no linker response text is modelled.
