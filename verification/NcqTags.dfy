// Native command queuing: PxSACT against its shadow dSActive.
module NcqTags {

  // A 32-bit register of tags, as the set of its bits that are one.
  type Tags = set<nat>

  function Xor(a: Tags, b: Tags): Tags {
    (a - b) + (b - a)
  }

  // PxSACT and dSActive, with what was issued and what the handler reported since ahci_start.
  datatype Ncq = Ncq(sact: Tags, shadow: Tags, issued: seq<nat>, reported: seq<Tags>)

  datatype Step =
    | Issue(tag: nat)           // ahci_issue_cmd, atomic against the handler
    | Complete(done: Tags)      // the device retires tags; its interrupt may be merged or missed
    | SetDeviceBits             // ahci_handle_sdb_fis

  // What ahci_handle_sdb_fis stores in the callback record.
  function Report(n: Ncq): Tags {
    Xor(n.shadow, n.sact)
  }

  function Next(n: Ncq, step: Step): Ncq {
    match step
    case Issue(tag) => n.(sact := n.sact + {tag}, shadow := n.shadow + {tag}, issued := n.issued + [tag])
    case Complete(done) => n.(sact := n.sact - done)
    case SetDeviceBits => n.(shadow := n.shadow - Report(n), reported := n.reported + [Report(n)])
  }

  function IssuedTimes(issued: seq<nat>, t: nat): nat {
    if issued == [] then 0
    else IssuedTimes(issued[..|issued| - 1], t) + if issued[|issued| - 1] == t then 1 else 0
  }

  function ReportedTimes(reported: seq<Tags>, t: nat): nat {
    if reported == [] then 0
    else ReportedTimes(reported[..|reported| - 1], t) + if t in reported[|reported| - 1] then 1 else 0
  }

  function Outstanding(n: Ncq, t: nat): nat {
    if t in n.shadow then 1 else 0
  }

  predicate Balanced(n: Ncq, t: nat) {
    IssuedTimes(n.issued, t) == ReportedTimes(n.reported, t) + Outstanding(n, t)
  }

  // Every tag was issued as often as it was reported, plus once if it is outstanding; what the
  // device still works on is outstanding.
  ghost predicate Conserved(n: Ncq) {
    n.sact <= n.shadow && forall t: nat :: Balanced(n, t)
  }

  // ahci_start after the command list was stopped, which clears PxSACT.
  const STARTED := Ncq({}, {}, [], [])

  // How one step changes the books of one tag.
  lemma StepBalance(n: Ncq, step: Step, t: nat)
    requires Balanced(n, t) && n.sact <= n.shadow
    ensures Balanced(Next(n, step), t) <==> !(step == Issue(t) && t in n.shadow)
  {
    match step
    case Issue(tag) => IssuedAppend(n.issued, tag, t);
    case Complete(_) =>
    case SetDeviceBits =>
      ReportedAppend(n.reported, Report(n), t);
      assert t in Report(n) <==> t in n.shadow && t !in n.sact;
  }

  lemma IssuedAppend(issued: seq<nat>, tag: nat, t: nat)
    ensures IssuedTimes(issued + [tag], t) == IssuedTimes(issued, t) + if tag == t then 1 else 0
  {
    assert (issued + [tag])[..|issued|] == issued;
  }

  lemma ReportedAppend(reported: seq<Tags>, report: Tags, t: nat)
    ensures ReportedTimes(reported + [report], t) == ReportedTimes(reported, t) + if t in report then 1 else 0
  {
    assert (reported + [report])[..|reported|] == reported;
  }

  // The slot test of ahci_build_cmd looks at PxSACT, not at the shadow.  It lets a tag through
  // that was retired but not reported, and then conservation fails: exactly then.
  lemma StepConserves(n: Ncq, step: Step)
    requires Conserved(n)
    ensures Conserved(Next(n, step)) <==> !(step.Issue? && step.tag in n.shadow)
  {
    forall t: nat
      ensures Balanced(Next(n, step), t) <==> !(step == Issue(t) && t in n.shadow)
    {
      assert Balanced(n, t);
      StepBalance(n, step, t);
    }
  }

  function Exec(n: Ncq, steps: seq<Step>): Ncq
    decreases |steps|
  {
    if steps == [] then n else Exec(Next(n, steps[0]), steps[1..])
  }

  // A tag is issued again only after it was reported.
  predicate ReissuesOnlyReported(n: Ncq, steps: seq<Step>)
    decreases |steps|
  {
    steps == [] ||
    (!(steps[0].Issue? && steps[0].tag in n.shadow) && ReissuesOnlyReported(Next(n, steps[0]), steps[1..]))
  }

  lemma {:induction false} RunConserves(n: Ncq, steps: seq<Step>)
    requires Conserved(n) && ReissuesOnlyReported(n, steps)
    ensures Conserved(Exec(n, steps))
    decreases |steps|
  {
    if steps != [] {
      StepConserves(n, steps[0]);
      hide Conserved, Next;
      RunConserves(Next(n, steps[0]), steps[1..]);
    }
  }

  // Over every run since ahci_start, however the device's interrupts merge or get lost: what is
  // issued is the disjoint union of what was reported and what is outstanding, PxSACT stays
  // inside its shadow, and the next Set Device Bits interrupt reports exactly what was retired.
  lemma TagConservation(steps: seq<Step>, t: nat)
    requires ReissuesOnlyReported(STARTED, steps)
    ensures var n := Exec(STARTED, steps);
            && IssuedTimes(n.issued, t) == ReportedTimes(n.reported, t) + Outstanding(n, t)
            && n.sact <= n.shadow && Report(n) == n.shadow - n.sact && Next(n, SetDeviceBits).shadow == n.sact
            && (IssuedTimes(n.issued, t) == ReportedTimes(Next(n, SetDeviceBits).reported, t) <==> t !in n.sact)
  {
    assert Conserved(STARTED);
    RunConserves(STARTED, steps);
    var n := Exec(STARTED, steps);
    assert Balanced(n, t);
    StepBalance(n, SetDeviceBits, t);
    hide Exec, ReissuesOnlyReported;
  }

  // From issue to report: after the device retired `done`, the next Set Device Bits interrupt
  // reports the tag exactly if it is among them, with exactly the others that are retired
  // and not yet reported; and what is still being worked on is what is still outstanding.
  lemma ReportsRetired(n: Ncq, tag: nat, done: Tags)
    requires Conserved(n) && tag !in n.shadow
    ensures var m := Next(Next(Next(n, Issue(tag)), Complete(done)), SetDeviceBits);
            && m.issued == n.issued + [tag] && |m.reported| == |n.reported| + 1
            && (tag in m.reported[|n.reported|] <==> tag in done)
            && (forall u :: u != tag ==>
                  (u in m.reported[|n.reported|] <==> u in n.shadow && (u !in n.sact || u in done)))
            && m.shadow == m.sact == n.sact + {tag} - done
  {
  }

  // ahci_issue_cmd interrupted between its PxSACT write and its shadow update, after the device
  // retired `done`.
  function IssueInterrupted(n: Ncq, tag: nat, done: Tags): Ncq {
    var handled := Next(n.(sact := n.sact + {tag} - done), SetDeviceBits);
    handled.(shadow := handled.shadow + {tag}, issued := handled.issued + [tag])
  }

  // The handler then reports the tag although it was not retired, and it will be reported
  // again: conservation survives exactly when the device was quicker than the handler.
  lemma InterruptedIssue(n: Ncq, tag: nat, done: Tags)
    requires Conserved(n) && tag !in n.shadow
    ensures Conserved(IssueInterrupted(n, tag, done)) <==> tag in done
  {
    var m := IssueInterrupted(n, tag, done);
    var w := n.(sact := n.sact + {tag} - done);
    forall t: nat
      ensures Balanced(m, t) <==> !(t == tag && tag !in done)
    {
      assert Balanced(n, t);
      IssuedAppend(n.issued, tag, t);
      ReportedAppend(n.reported, Report(w), t);
      assert t in Report(w) <==> (t in n.shadow) != (t in w.sact);
    }
    assert Balanced(m, tag) <==> tag in done;
    assert m.sact <= m.shadow;
  }

  // --- dSActive as the program holds it ---

  datatype IssueStatus = Issued | DeviceFault | OutOfRange | SlotBusy | TableRejected | NotRunning

  class NcqPort {
    var sact: Tags       // PxSACT
    var ci: Tags         // PxCI
    var dSActive: Tags
    var deviceFault: bool
    var queueDepth: nat  // the largest tag, from IDENTIFY
    var running: bool    // PxCMD.ST
    ghost var issued: seq<nat>
    ghost var reported: seq<Tags>

    ghost function State(): Ncq
      reads this
    {
      Ncq(sact, dSActive, issued, reported)
    }

    // ahci_stop and ahci_start: clearing PxCMD.ST clears PxSACT and PxCI.
    method Restart()
      modifies this
      ensures State() == STARTED && running && Conserved(State())
    {
      running, sact, ci := false, {}, {};
      running, dSActive := true, {};
      issued, reported := [], [];
    }

    // ahci_build_cmd and ahci_issue_cmd for a queued command; `tableFits` is the answer of
    // ahci_setup_PRDT, see PrdTable.dfy.
    method IssueQueued(tag: nat, tableFits: bool) returns (status: IssueStatus)
      requires Conserved(State())
      modifies this`sact, this`ci, this`dSActive, this`issued
      ensures status == if deviceFault then DeviceFault else if tag > queueDepth then OutOfRange
                        else if tag in old(sact) || tag in old(ci) then SlotBusy
                        else if !tableFits then TableRejected else if !running then NotRunning else Issued
      ensures State() == if status.Issued? then Next(old(State()), Issue(tag)) else old(State())
      ensures ci == if status.Issued? then old(ci) + {tag} else old(ci)
      ensures status.Issued? ==> sact == old(sact) + {tag} && dSActive == old(dSActive) + {tag}
      ensures Conserved(State()) <==> !(status.Issued? && tag in old(dSActive))
    {
      if deviceFault {
        return DeviceFault;
      }
      if tag > queueDepth {
        return OutOfRange;
      }
      if tag in sact + ci {
        return SlotBusy;
      }
      if !tableFits {
        return TableRejected;
      }
      if !running {
        return NotRunning;
      }
      StepConserves(State(), Issue(tag));
      sact := sact + {tag};
      dSActive := dSActive + {tag};
      issued := issued + [tag];
      ci := ci + {tag};
      return Issued;
    }

    // ahci_handle_sdb_fis
    method HandleSdbFis() returns (report: Tags)
      requires Conserved(State())
      modifies this`dSActive, this`reported
      ensures State() == Next(old(State()), SetDeviceBits) && Conserved(State())
      ensures report == old(dSActive) - sact && reported == old(reported) + [report] && dSActive == sact
    {
      StepConserves(State(), SetDeviceBits);
      report := Xor(dSActive, sact);
      dSActive := dSActive - report;
      reported := reported + [report];
    }
  }
}
