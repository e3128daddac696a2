// ahci_run_port_initialization_state_machine of src/ahci.c: one call runs phases until the
// last one or the first failure, and remembers where it stopped.
module PortInitMachine {

  const DONE := 0x10
  const FAILED_ENABLE := 0x40
  const READY_ENABLE := 0x7900_005F

  // What the operation of one phase finds: the result of its command or poll, whether the disk
  // is faster than the link, still so after the port reset, and can auto-activate.
  datatype Finding = Finding(result: int, slow: bool, stillSlow: bool, autoActivate: bool)

  datatype Outcome = Commit(phase: nat) | Fail(result: int)

  // The phases whose result is looked at.
  predicate CanFail(phase: nat) {
    phase <= 0xE && phase !in {2, 6, 0xD}
  }

  // One turn of the loop at `phase`.
  function Turn(phase: nat, f: Finding): Outcome {
    if CanFail(phase) then
      if f.result != 0 then Fail(f.result) else Commit(phase + 1)
    else if phase == 2 then Commit(3)
    else if phase == 6 then Commit(if !f.slow then 9 else if f.stillSlow then 7 else 8)
    else if phase == 0xD then Commit(if f.autoActivate then 0xE else 0xF)
    else Commit(DONE)
  }

  // Turns go forward, and only the last one reaches phase 10h.
  lemma TurnForward(phase: nat, f: Finding)
    ensures Turn(phase, f).Commit? ==>
              && Turn(phase, f).phase <= DONE
              && (phase < DONE ==> Turn(phase, f).phase > phase)
              && (Turn(phase, f).phase == DONE <==> phase >= 0xF)
    ensures Turn(phase, f).Fail? ==> Turn(phase, f).result != 0 && phase < 0xF
  {
  }

  // The phases one call executes, given what each of them finds.
  function Executed(phase: nat, finds: nat -> Finding): seq<nat>
    decreases if phase < DONE then DONE - phase else 0
  {
    var o := Turn(phase, finds(phase));
    if o.Fail? || o.phase == DONE then [phase] else [phase] + Executed(o.phase, finds)
  }

  // Each phase at most once, in order, and the last one is where the call stopped.
  lemma {:induction false} ExecutedForward(phase: nat, finds: nat -> Finding)
    ensures var e := Executed(phase, finds);
            && e != [] && e[0] == phase
            && (forall i, j :: 0 <= i < j < |e| ==> e[i] < e[j])
            && (forall i :: 0 <= i < |e| - 1 ==> Turn(e[i], finds(e[i])) == Commit(e[i + 1]))
            && (var last := Turn(e[|e| - 1], finds(e[|e| - 1])); last.Fail? || last.phase == DONE)
    decreases if phase < DONE then DONE - phase else 0
  {
    var o := Turn(phase, finds(phase));
    TurnForward(phase, finds(phase));
    if o.Commit? && o.phase != DONE {
      ExecutedForward(o.phase, finds);
    }
  }

  // Which phase follows `phase`: after phase 6 the link speed decides, after phase Dh the
  // disk; every other phase is followed by the next one.
  predicate Leads(phase: nat, next: nat, f: Finding) {
    && (phase == 6 ==>
          && (next == 9 <==> !f.slow)
          && (next == 7 <==> f.slow && f.stillSlow)
          && (next == 8 <==> f.slow && !f.stillSlow))
    && (phase == 0xD ==> (next == 0xE <==> f.autoActivate) && (next == 0xF <==> !f.autoActivate))
    && (phase != 6 && phase != 0xD ==> next == phase + 1)
  }

  // A call ends after phase Fh or at an error of a phase with a command, a poll or a reset.
  predicate Stops(phase: nat, f: Finding) {
    phase >= 0xF || (phase in {0, 1, 3, 4, 5, 7, 8, 9, 0xA, 0xB, 0xC, 0xE} && f.result != 0)
  }

  lemma TurnLeads(phase: nat, f: Finding)
    ensures Turn(phase, f).Fail? || Turn(phase, f).phase == DONE <==> Stops(phase, f)
    ensures !Stops(phase, f) ==> Leads(phase, Turn(phase, f).phase, f)
  {
  }

  predicate Branches(e: seq<nat>, finds: nat -> Finding) {
    && (forall i :: 0 <= i < |e| - 1 ==> Leads(e[i], e[i + 1], finds(e[i])))
    && (forall i :: 0 <= i < |e| ==> (Stops(e[i], finds(e[i])) <==> i == |e| - 1))
  }

  lemma BranchesMore(phase: nat, rest: seq<nat>, finds: nat -> Finding)
    requires rest != [] && Branches(rest, finds)
    requires Leads(phase, rest[0], finds(phase)) && !Stops(phase, finds(phase))
    ensures Branches([phase] + rest, finds)
  {
    hide Leads, Stops;
    var e := [phase] + rest;
    forall i | 0 < i < |e|
      ensures e[i] == rest[i - 1]
    {
    }
  }

  lemma {:induction false} ExecutedBranches(phase: nat, finds: nat -> Finding)
    ensures Branches(Executed(phase, finds), finds)
    decreases if phase < DONE then DONE - phase else 0
  {
    hide Leads, Stops, Turn;
    var o := Turn(phase, finds(phase));
    TurnForward(phase, finds(phase));
    TurnLeads(phase, finds(phase));
    if o.Commit? && o.phase != DONE {
      ExecutedBranches(o.phase, finds);
      ExecutedForward(o.phase, finds);
      BranchesMore(phase, Executed(o.phase, finds), finds);
    }
  }

  // What the last phase of a call found, if it is one that can fail.
  lemma LastResult(phase: nat, finds: nat -> Finding)
    ensures var e := Executed(phase, finds); var o := Turn(e[|e| - 1], finds(e[|e| - 1]));
            if e[|e| - 1] < 0xF then o == Fail(finds(e[|e| - 1]).result) else o == Commit(DONE)
  {
    hide Executed;
    ExecutedForward(phase, finds);
  }

  lemma CallEnds(phase: nat, finds: nat -> Finding, e: seq<nat>, last: nat)
    requires e == Executed(phase, finds) && e != [] && e[|e| - 1] == last
    ensures Branches(e, finds)
    ensures Turn(last, finds(last)) == if last < 0xF then Fail(finds(last).result) else Commit(DONE)
  {
    hide Turn, Executed, Branches;
    ExecutedBranches(phase, finds);
    LastResult(phase, finds);
  }

  // The poll for PHY ready runs in a call from phase 6 or before exactly when the call got to
  // the speed test, and the disk was faster than the link before and after the port reset.
  lemma PollNeedsReset(phase: nat, finds: nat -> Finding)
    requires phase <= 6
    ensures var e := Executed(phase, finds); (7 in e) == (6 in e && finds(6).slow && finds(6).stillSlow)
  {
    hide Turn, Executed;
    ExecutedForward(phase, finds);
    ExecutedBranches(phase, finds);
    var e := Executed(phase, finds);
    if 7 in e {
      var i :| 0 <= i < |e| && e[i] == 7;
      assert i > 0 && e[i - 1] == 6;
    }
    if 6 in e && finds(6).slow && finds(6).stillSlow {
      var i :| 0 <= i < |e| && e[i] == 6;
      assert i < |e| - 1 && e[i + 1] == 7;
    }
  }

  class Machine {
    var phase: nat     // *buffer, a 32-bit word
    var enable: nat    // PxIE

    constructor (phase: nat, enable: nat)
      ensures this.phase == phase && this.enable == enable
    {
      this.phase, this.enable := phase, enable;
    }

    // The switch of the machine: one phase, and the phase it commits unless it fails.
    method Perform(f: Finding) returns (result: int)
      modifies this
      ensures match Turn(old(phase), f)
              case Fail(r) => result == r && phase == old(phase)
              case Commit(next) => result == 0 && phase == next
      ensures enable == if old(phase) == 0xF then READY_ENABLE
                        else if result != 0 && old(phase) == 0xE then FAILED_ENABLE else old(enable)
    {
      var next := if phase % 0x100 < 0xF then phase % 0x100 + 1 else DONE;
      result := 0;
      if CanFail(phase) {
        result := f.result;
        if result != 0 {
          if phase == 0xE {
            enable := FAILED_ENABLE;
          }
          return;
        }
      } else if phase == 6 {
        if !f.slow {
          next := 9;
        } else if !f.stillSlow {
          next := 8;
        }
      } else if phase == 0xD {
        if !f.autoActivate {
          next := 0xF;
        }
      } else if phase == 0xF {
        enable := READY_ENABLE;
      } else if phase > 0xF {
        next := DONE;
      }
      phase := next;
    }

    // ahci_run_port_initialization_state_machine; the call returns success exactly when phase
    // 10h is stored, never goes back, and on an error leaves the failing phase stored.
    method Run(finds: nat -> Finding) returns (result: int, ghost executed: seq<nat>)
      modifies this
      ensures executed == Executed(old(phase), finds)
      ensures Branches(executed, finds)
      ensures result == if executed[|executed| - 1] < 0xF then finds(executed[|executed| - 1]).result else 0
      ensures result == 0 <==> phase == 0x10
      ensures old(phase) <= DONE ==> phase >= old(phase)
      ensures result != 0 ==> phase == executed[|executed| - 1] && Turn(phase, finds(phase)) == Fail(result)
      ensures enable == if result == 0 && old(phase) <= 0xF then 0x7900_005F
                        else if result != 0 && phase == 0xE then 0x40 else old(enable)
    {
      hide Turn, Executed, CanFail, Branches;
      executed := [];
      ghost var start := phase;
      while true
        invariant start <= DONE ==> start <= phase
        invariant executed == [] ==> phase == start
        invariant executed != [] ==> phase < DONE && start <= 0xF
        invariant enable == old(enable)
        invariant executed + Executed(phase, finds) == Executed(start, finds)
        decreases if phase < DONE then DONE - phase else 0
      {
        ghost var now := phase;
        TurnForward(now, finds(now));
        ExecutedFirst(now, finds);
        result := Perform(finds(phase));
        if result != 0 {
          executed := executed + [now];
          CallEnds(start, finds, executed, now);
          return;
        }
        if phase == DONE {
          executed := executed + [now];
          CallEnds(start, finds, executed, now);
          return;
        }
        assert executed + ([now] + Executed(phase, finds)) == (executed + [now]) + Executed(phase, finds);
        executed := executed + [now];
      }
    }
  }

  lemma ExecutedFirst(phase: nat, finds: nat -> Finding)
    ensures var o := Turn(phase, finds(phase));
            Executed(phase, finds) == if o.Fail? || o.phase == DONE then [phase] else [phase] + Executed(o.phase, finds)
  {
    hide Turn;
  }

  // A call after a failure starts with the phase that failed, and what the two calls execute
  // is in order with only that phase repeated.
  method Resume(m: Machine, first: nat -> Finding, second: nat -> Finding)
      returns (r1: int, r2: int, ghost both: seq<nat>)
    modifies m
    ensures r1 != 0 ==> both == Executed(old(m.phase), first) + Executed(Stopped(old(m.phase), first), second)
    ensures r1 != 0 ==> forall i, j :: 0 <= i < j < |both| ==> both[i] <= both[j]
    ensures r1 != 0 ==> (r2 == 0 <==> m.phase == DONE)
  {
    hide Branches;
    ghost var e1, e2;
    r1, e1 := m.Run(first);
    both := e1;
    r2 := 0;
    if r1 != 0 {
      ExecutedForward(old(m.phase), first);
      ExecutedForward(m.phase, second);
      r2, e2 := m.Run(second);
      both := e1 + e2;
    }
  }

  function Stopped(phase: nat, finds: nat -> Finding): nat {
    ExecutedForward(phase, finds);
    Executed(phase, finds)[|Executed(phase, finds)| - 1]
  }
}
