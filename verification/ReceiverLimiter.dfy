// The limiter of ahci_rx_error_isr: a port recovery only after eight bad samples in three
// milliseconds.
module ReceiverLimiter {

  const ERROR_CNT_THRESHOLD := 2
  const COUNTER_THRESHOLD := 8
  const PORT_RESET_THRESHOLD_MS := 3
  const DET_PHY_OFFLINE := 4
  const CLOCK_MODULUS := 0x1_0000_0000

  // One interrupt: the sampled error count, rdx_mechanism_is_active, PxSSTS.DET, and the three
  // moments at which the handler reads the millisecond clock.  The moments are unbounded; the
  // handler sees them modulo 2^32.
  datatype Event = Event(errors: nat, motion: bool, det: int, compared: nat, stamped: nat, judged: nat)

  // The statics counter and t1.
  datatype Limiter = Limiter(counter: nat, t1: nat)

  const POWER_UP := Limiter(0, 0)

  function Elapsed(now: nat, t1: nat): int {
    (now - t1) % CLOCK_MODULUS
  }

  // A count above the threshold that takes part in the limiter.
  predicate Counted(e: Event) {
    e.errors > ERROR_CNT_THRESHOLD && !e.motion && e.det != DET_PHY_OFFLINE
  }

  // A sample that starts the count again.
  predicate Breaks(e: Event) {
    (e.errors > 0 && e.motion) || (0 < e.errors <= ERROR_CNT_THRESHOLD && e.det != DET_PHY_OFFLINE)
  }

  // The counter and t1 just after the increment.
  function Raised(s: Limiter, e: Event): Limiter {
    if Elapsed(e.compared, s.t1) > PORT_RESET_THRESHOLD_MS then Limiter(1, e.stamped % CLOCK_MODULUS)
    else s.(counter := s.counter + 1)
  }

  // One interrupt, and whether it triggers recovery.
  function Judge(s: Limiter, e: Event): (Limiter, bool) {
    if Counted(e) then
      var r := Raised(s, e);
      if r.counter >= COUNTER_THRESHOLD then
        (r.(counter := 0), Elapsed(e.judged, r.t1) <= PORT_RESET_THRESHOLD_MS)
      else (r, false)
    else if Breaks(e) then (s.(counter := 0), false)
    else (s, false)
  }

  // --- Traces ---

  function After(trace: seq<Event>, n: nat): Limiter
    requires n <= |trace|
  {
    if n == 0 then POWER_UP else Judge(After(trace, n - 1), trace[n - 1]).0
  }

  predicate Fires(trace: seq<Event>, i: nat)
    requires i < |trace|
  {
    Judge(After(trace, i), trace[i]).1
  }

  predicate Reopens(trace: seq<Event>, i: nat)
    requires i < |trace|
  {
    Counted(trace[i]) && Elapsed(trace[i].compared, After(trace, i).t1) > PORT_RESET_THRESHOLD_MS
  }

  // The interrupts counted up to and including counted interrupt `i`, and before interrupt `n`.
  function GroupAt(trace: seq<Event>, i: nat): seq<nat>
    requires i < |trace|
    decreases i, 1
  {
    (if Reopens(trace, i) then [] else Group(trace, i)) + [i]
  }

  function Group(trace: seq<Event>, n: nat): seq<nat>
    requires n <= |trace|
    decreases n, 0
  {
    if n == 0 || Breaks(trace[n - 1]) then []
    else if !Counted(trace[n - 1]) then Group(trace, n - 1)
    else if After(trace, n).counter == 0 then []
    else GroupAt(trace, n - 1)
  }

  // The unbounded moment at which the window in force before interrupt `n` was opened.
  function WindowStart(trace: seq<Event>, n: nat): nat
    requires n <= |trace|
  {
    if n == 0 then 0
    else if Reopens(trace, n - 1) then trace[n - 1].stamped
    else WindowStart(trace, n - 1)
  }

  predicate Monotone(trace: seq<Event>) {
    && (forall i :: 0 <= i < |trace| ==> trace[i].compared <= trace[i].stamped <= trace[i].judged)
    && (forall i, j :: 0 <= i < j < |trace| ==> trace[i].judged <= trace[j].compared)
  }

  // `g` holds, in order, the samples before `n` and from its first on that are above two errors
  // without motion and off DET 4; and between them neither a low count nor motion over a
  // nonzero count has been seen.
  predicate Unbroken(trace: seq<Event>, g: seq<nat>, n: nat) {
    && n <= |trace|
    && (forall a :: 0 <= a < |g| ==>
          g[a] < n && trace[g[a]].errors > 2 && !trace[g[a]].motion && trace[g[a]].det != 4)
    && (forall a, b :: 0 <= a < b < |g| ==> g[a] < g[b])
    && (forall k :: 0 <= k < n && g != [] && g[0] <= k ==>
          && !(trace[k].errors > 0 && trace[k].motion)
          && !(0 < trace[k].errors <= 2 && trace[k].det != 4)
          && (trace[k].errors > 2 && trace[k].det != 4 ==> k in g))
  }

  // All of `g` lies in the window opened at `start`, as far as a 32-bit clock can tell.
  predicate InWindow(trace: seq<Event>, g: seq<nat>, start: nat) {
    forall a :: 0 <= a < |g| ==>
      && g[a] < |trace| && start <= trace[g[a]].stamped
      && (trace[g[a]].compared <= start || (trace[g[a]].compared - start) % CLOCK_MODULUS <= PORT_RESET_THRESHOLD_MS)
  }

  lemma {:induction false} StartIsT1(trace: seq<Event>, n: nat)
    requires n <= |trace| && Monotone(trace)
    ensures After(trace, n).t1 == WindowStart(trace, n) % CLOCK_MODULUS
    ensures forall k :: n <= k < |trace| ==> WindowStart(trace, n) <= trace[k].compared
    decreases n
  {
    if n > 0 {
      StartIsT1(trace, n - 1);
    }
  }

  lemma ElapsedUnbounded(now: nat, start: nat, t1: nat)
    requires t1 == start % CLOCK_MODULUS
    ensures Elapsed(now, t1) == (now - start) % CLOCK_MODULUS
  {
    var q := start / CLOCK_MODULUS;
    assert now - t1 == now - start + CLOCK_MODULUS * q;
    Shift(now - start, q);
  }

  // Within one turn of the clock the handler measures real time.
  lemma ElapsedWithin(now: nat, start: nat, t1: nat)
    requires t1 == start % CLOCK_MODULUS && start <= now < start + CLOCK_MODULUS
    ensures Elapsed(now, t1) == now - start
  {
    ElapsedUnbounded(now, start, t1);
  }

  lemma {:induction false} Shift(x: int, q: nat)
    ensures (x + CLOCK_MODULUS * q) % CLOCK_MODULUS == x % CLOCK_MODULUS
  {
    if q > 0 {
      Shift(x, q - 1);
      assert x + CLOCK_MODULUS * q == (x + CLOCK_MODULUS * (q - 1)) + CLOCK_MODULUS;
    }
  }

  // The handler reads the clock modulo 2^32, and it makes no difference.
  lemma ElapsedReduced(now: nat, t1: nat)
    ensures Elapsed(now % CLOCK_MODULUS, t1) == Elapsed(now, t1)
  {
    Shift(now % CLOCK_MODULUS - t1, now / CLOCK_MODULUS);
    assert now % CLOCK_MODULUS - t1 + CLOCK_MODULUS * (now / CLOCK_MODULUS) == now - t1;
  }

  // What the counter stands for.
  lemma {:induction false} GroupMeaning(trace: seq<Event>, n: nat)
    requires n <= |trace| && Monotone(trace)
    ensures |Group(trace, n)| == After(trace, n).counter < COUNTER_THRESHOLD
    ensures Unbroken(trace, Group(trace, n), n)
    ensures InWindow(trace, Group(trace, n), WindowStart(trace, n))
    decreases n, 0
  {
    hide Unbroken, InWindow, Monotone, Elapsed;
    NothingUnbroken(trace, n);
    if n > 0 {
      GroupMeaning(trace, n - 1);
      if Counted(trace[n - 1]) {
        GroupAtMeaning(trace, n - 1);
      } else if !Breaks(trace[n - 1]) {
        StillUnbroken(trace, Group(trace, n - 1), n - 1);
      }
    }
  }

  lemma StillUnbroken(trace: seq<Event>, g: seq<nat>, i: nat)
    requires i < |trace| && Unbroken(trace, g, i) && !Counted(trace[i]) && !Breaks(trace[i])
    ensures Unbroken(trace, g, i + 1)
  {
  }

  lemma ExtendUnbroken(trace: seq<Event>, g: seq<nat>, i: nat)
    requires i < |trace| && Unbroken(trace, g, i) && Counted(trace[i])
    ensures Unbroken(trace, g + [i], i + 1)
  {
  }

  lemma ExtendInWindow(trace: seq<Event>, g: seq<nat>, start: nat, i: nat)
    requires i < |trace| && InWindow(trace, g, start) && InWindow(trace, [i], start)
    ensures InWindow(trace, g + [i], start)
  {
    var h := g + [i];
    forall a | 0 <= a < |h|
      ensures InWindow(trace, [h[a]], start)
    {
      if a < |g| {
        assert h[a] == g[a];
      }
    }
    assert forall a :: 0 <= a < |h| ==> [h[a]][0] == h[a];
  }

  // Interrupt `i` lies in the window in force after it.
  lemma LiesInWindow(trace: seq<Event>, i: nat)
    requires i < |trace| && Monotone(trace) && Counted(trace[i])
    ensures InWindow(trace, [i], WindowStart(trace, i + 1))
    ensures WindowStart(trace, i + 1) == if Reopens(trace, i) then trace[i].stamped else WindowStart(trace, i)
  {
    StartIsT1(trace, i);
    ElapsedUnbounded(trace[i].compared, WindowStart(trace, i), After(trace, i).t1);
  }

  lemma {:induction false} GroupAtMeaning(trace: seq<Event>, i: nat)
    requires i < |trace| && Monotone(trace) && Counted(trace[i])
    ensures |GroupAt(trace, i)| == Raised(After(trace, i), trace[i]).counter
    ensures Unbroken(trace, GroupAt(trace, i), i + 1)
    ensures InWindow(trace, GroupAt(trace, i), WindowStart(trace, i + 1))
    decreases i, 1
  {
    hide Unbroken, InWindow, Monotone, WindowStart, After, Judge;
    GroupMeaning(trace, i);
    LiesInWindow(trace, i);
    NothingUnbroken(trace, i);
    if Reopens(trace, i) {
      ExtendUnbroken(trace, [], i);
      assert [] + [i] == [i];
    } else {
      ExtendUnbroken(trace, Group(trace, i), i);
      ExtendInWindow(trace, Group(trace, i), WindowStart(trace, i), i);
    }
  }

  lemma NothingUnbroken(trace: seq<Event>, n: nat)
    requires n <= |trace|
    ensures Unbroken(trace, [], n) && forall start: nat :: InWindow(trace, [], start)
  {
  }

  // Nothing is left of the count once it has triggered recovery.
  lemma {:induction false} GroupsDisjoint(trace: seq<Event>, i: nat, n: nat)
    requires i < n <= |trace| && Fires(trace, i)
    ensures forall a :: 0 <= a < |Group(trace, n)| ==> Group(trace, n)[a] > i
    decreases n
  {
    if n > i + 1 {
      GroupsDisjoint(trace, i, n - 1);
    }
  }

  // Every recovery of every trace: eight samples above the threshold, unbroken, all in one
  // window, and none of them counted towards an earlier recovery.
  lemma RecoveryIsEarned(trace: seq<Event>, i: nat)
    requires i < |trace| && Monotone(trace) && Fires(trace, i)
    ensures var g := GroupAt(trace, i);
            && |g| == COUNTER_THRESHOLD && g[7] == i && Unbroken(trace, g, i + 1)
            && InWindow(trace, g, WindowStart(trace, i + 1))
            && (forall k, a :: 0 <= k < i && Fires(trace, k) && 0 <= a < |g| ==> g[a] > k)
  {
    GroupAtMeaning(trace, i);
    GroupMeaning(trace, i);
    forall k, a | 0 <= k < i && Fires(trace, k) && 0 <= a < |GroupAt(trace, i)|
      ensures GroupAt(trace, i)[a] > k
    {
      GroupsDisjoint(trace, k, i);
    }
  }

  // The eight samples lie within three milliseconds of real time exactly when none of them was
  // taken a whole turn of the 32-bit clock after the window was opened.
  lemma RecoveryWithinWindow(trace: seq<Event>, i: nat)
    requires i < |trace| && Monotone(trace) && Fires(trace, i)
    ensures var g, start := GroupAt(trace, i), WindowStart(trace, i + 1);
            (forall a :: 0 <= a < |g| && 0 <= g[a] < |trace| ==>
               trace[g[a]].compared <= start + PORT_RESET_THRESHOLD_MS)
            <==> (forall a :: 0 <= a < |g| && 0 <= g[a] < |trace| ==> trace[g[a]].compared < start + CLOCK_MODULUS)
  {
    hide Unbroken, GroupAt, WindowStart, Monotone;
    GroupAtMeaning(trace, i);
    var g, start := GroupAt(trace, i), WindowStart(trace, i + 1);
    forall a | 0 <= a < |g|
      ensures trace[g[a]].compared < start + CLOCK_MODULUS ==> trace[g[a]].compared <= start + PORT_RESET_THRESHOLD_MS
    {
      var c := trace[g[a]].compared;
      if start < c < start + CLOCK_MODULUS {
        assert (c - start) % CLOCK_MODULUS == c - start;
      }
    }
  }

  // --- The converse ---

  // How many samples from `first` up to but not including `n` are above two errors, without
  // motion and off DET 4.
  function High(trace: seq<Event>, first: nat, n: nat): (count: nat)
    requires n <= |trace|
    ensures n <= first ==> count == 0
    decreases n
  {
    if n <= first then 0
    else
      High(trace, first, n - 1)
      + if trace[n - 1].errors > 2 && !trace[n - 1].motion && trace[n - 1].det != 4 then 1 else 0
  }

  // No sample from `first` up to but not including `n` has motion over a nonzero count, or a
  // low count off DET 4.
  predicate Steady(trace: seq<Event>, first: nat, n: nat)
    requires n <= |trace|
  {
    forall k :: first <= k < n ==>
      !(trace[k].errors > 0 && trace[k].motion) && !(0 < trace[k].errors <= 2 && trace[k].det != 4)
  }

  // A low count, or motion over a nonzero count, leaves nothing of the count; so does a firing.
  lemma CountStartsAgain(trace: seq<Event>, n: nat)
    requires n < |trace|
    requires || (trace[n].errors > 0 && trace[n].motion)
             || (0 < trace[n].errors <= 2 && trace[n].det != 4)
             || Fires(trace, n)
    ensures After(trace, n + 1) == Limiter(0, After(trace, n + 1).t1)
    ensures !Fires(trace, n) ==> After(trace, n + 1).t1 == After(trace, n).t1
  {
  }

  // The first sample of a count: with nothing counted, or more than 3 ms after the window was
  // opened; and then every sample within 3 ms of the window start is counted.
  lemma {:induction false} CountGrows(trace: seq<Event>, first: nat, start: nat, n: nat)
    requires first < n <= |trace| && Monotone(trace) && Steady(trace, first, n)
    requires trace[first].errors > 2 && !trace[first].motion && trace[first].det != 4
    requires After(trace, first).counter == 0 || Reopens(trace, first)
    requires start == WindowStart(trace, first + 1)
    requires forall k :: first <= k < n ==> trace[k].compared <= start + 3
    requires High(trace, first, n) < 8
    ensures After(trace, n).counter == High(trace, first, n) && WindowStart(trace, n) == start
    ensures forall k :: first <= k < n ==> !Fires(trace, k)
    decreases n
  {
    hide Elapsed;
    if n == first + 1 {
      assert High(trace, first, first) == 0;
    } else {
      CountGrows(trace, first, start, n - 1);
      StartIsT1(trace, n - 1);
      ElapsedWithin(trace[n - 1].compared, start, After(trace, n - 1).t1);
    }
  }

  // Eight samples above two errors, with nothing in between that starts the count again and
  // all within 3 ms of the window start, do trigger recovery: at the eighth and not before.
  lemma EarnedFires(trace: seq<Event>, first: nat, i: nat)
    requires first < i < |trace| && Monotone(trace) && Steady(trace, first, i + 1)
    requires trace[first].errors > 2 && !trace[first].motion && trace[first].det != 4
    requires trace[i].errors > 2 && !trace[i].motion && trace[i].det != 4
    requires After(trace, first).counter == 0 || Reopens(trace, first)
    requires High(trace, first, i + 1) == 8
    requires var start := WindowStart(trace, first + 1);
             forall k :: first <= k <= i ==> trace[k].judged <= start + 3
    ensures Fires(trace, i) && forall k :: first <= k < i ==> !Fires(trace, k)
  {
    hide Elapsed, Reopens;
    var start := WindowStart(trace, first + 1);
    assert forall k :: first <= k <= i ==> trace[k].compared <= trace[k].judged;
    CountGrows(trace, first, start, i);
    StartIsT1(trace, i);
    ElapsedWithin(trace[i].compared, start, After(trace, i).t1);
    ElapsedWithin(trace[i].judged, start, After(trace, i).t1);
  }

  lemma {:induction false} StartsEarlier(trace: seq<Event>, n: nat, bound: nat)
    requires n <= |trace| && forall k :: 0 <= k < n ==> trace[k].stamped < bound
    requires bound > 0
    ensures WindowStart(trace, n) < bound
    decreases n
  {
    if n > 0 {
      StartsEarlier(trace, n - 1, bound);
    }
  }

  // Whatever was counted before: after more than 3 ms without an interrupt, eight such samples
  // within 3 ms of the first trigger recovery at the eighth.
  lemma BurstFires(trace: seq<Event>, first: nat, i: nat)
    requires first < i < |trace| && Monotone(trace) && Steady(trace, first, i + 1)
    requires trace[first].errors > 2 && !trace[first].motion && trace[first].det != 4
    requires trace[i].errors > 2 && !trace[i].motion && trace[i].det != 4
    requires High(trace, first, i + 1) == 8
    requires 3 < trace[first].compared < 0x1_0000_0000
    requires forall k :: 0 <= k < first ==> trace[k].stamped + 3 < trace[first].compared
    requires forall k :: first <= k <= i ==> trace[k].judged <= trace[first].stamped + 3
    ensures Fires(trace, i) && forall k :: first <= k < i ==> !Fires(trace, k)
  {
    hide Elapsed, After, High, Fires;
    StartIsT1(trace, first);
    StartsEarlier(trace, first, trace[first].compared - 3);
    ElapsedWithin(trace[first].compared, WindowStart(trace, first), After(trace, first).t1);
    EarnedFires(trace, first, i);
  }

  // Such a trace exists: seven samples at 10 ms and an eighth a whole turn of the clock later
  // trigger recovery, because the clock reads the same.
  function BadSample(time: nat): Event {
    Event(3, false, 3, time, time, time)
  }

  function LateTrace(n: nat): seq<Event> {
    seq(n, i => BadSample(if i < COUNTER_THRESHOLD - 1 then 10 else 10 + CLOCK_MODULUS))
  }

  lemma {:induction false} LateCounts(n: nat)
    requires n < COUNTER_THRESHOLD
    ensures var trace := LateTrace(COUNTER_THRESHOLD);
            && After(trace, n) == (if n == 0 then POWER_UP else Limiter(n, 10))
            && WindowStart(trace, n) == (if n == 0 then 0 else 10)
    decreases n
  {
    if n > 0 {
      LateCounts(n - 1);
      var trace := LateTrace(COUNTER_THRESHOLD);
      assert trace[n - 1] == BadSample(10) && Elapsed(10, 0) == 10 && Elapsed(10, 10) == 0;
      assert After(trace, n) == Judge(After(trace, n - 1), trace[n - 1]).0;
      assert WindowStart(trace, n) == if Reopens(trace, n - 1) then 10 else WindowStart(trace, n - 1);
    }
  }

  lemma LateSampleFires()
    ensures var trace := LateTrace(COUNTER_THRESHOLD);
            && Monotone(trace) && Fires(trace, 7)
            && trace[7].compared >= WindowStart(trace, 8) + CLOCK_MODULUS
  {
    LateCounts(7);
    var trace := LateTrace(COUNTER_THRESHOLD);
    forall i | 0 <= i < |trace|
      ensures trace[i] == BadSample(if i < 7 then 10 else 10 + CLOCK_MODULUS)
    {
    }
    assert Monotone(trace);
    assert trace[7] == BadSample(10 + CLOCK_MODULUS) && Elapsed(10 + CLOCK_MODULUS, 10) == 0;
    assert Judge(Limiter(7, 10), trace[7]) == (Limiter(0, 10), true);
    assert Elapsed(trace[7].compared, After(trace, 7).t1) == 0;
    assert !Reopens(trace, 7);
    assert WindowStart(trace, 8) == WindowStart(trace, 7);
  }

  // What one interrupt does to the statics.
  lemma JudgeMeaning(s: Limiter, e: Event)
    ensures var (t, recover) := Judge(s, e);
            e.errors == 0 || (e.det == 4 && !e.motion) ==> t == s && !recover
    ensures var (t, recover) := Judge(s, e);
            e.errors > 0 && (e.motion || (e.errors <= 2 && e.det != 4)) ==> t == Limiter(0, s.t1) && !recover
    ensures var (t, recover) := Judge(s, e);
            e.errors > 2 && !e.motion && e.det != 4 ==>
              var late := (e.compared - s.t1) % 0x1_0000_0000 > 3;
              var raised := if late then 1 else s.counter + 1;
              && t == Limiter(if raised < 8 then raised else 0, if late then e.stamped % 0x1_0000_0000 else s.t1)
              && (recover <==> raised >= 8 && (e.judged - t.t1) % 0x1_0000_0000 <= 3)
  {
  }

  // --- The handler's statics ---

  class Statics {
    var counter: nat
    var t1: nat

    ghost function State(): Limiter
      reads this
    {
      Limiter(counter, t1)
    }

    constructor ()
      ensures State() == POWER_UP
    {
      counter, t1 := 0, 0;
    }

    // The counting part of ahci_rx_error_isr; `now` is what rti_get_time returns.
    method Sample(e: Event) returns (recover: bool)
      modifies this
      ensures (State(), recover) == Judge(old(State()), e)
      ensures e.errors == 0 || (e.det == 4 && !e.motion) ==> State() == old(State()) && !recover
      ensures e.errors > 0 && (e.motion || (e.errors <= 2 && e.det != 4)) ==>
                State() == Limiter(0, old(t1)) && !recover
      ensures e.errors > 2 && !e.motion && e.det != 4 ==>
                var late := (e.compared - old(t1)) % 0x1_0000_0000 > 3;
                var raised := if late then 1 else old(counter) + 1;
                && counter == (if raised < 8 then raised else 0)
                && t1 == (if late then e.stamped % 0x1_0000_0000 else old(t1))
                && (recover <==> raised >= 8 && (e.judged - t1) % 0x1_0000_0000 <= 3)
    {
      hide Elapsed;
      JudgeMeaning(State(), e);
      recover := false;
      if e.errors == 0 {
        return;
      }
      if e.motion {
        counter := 0;
        return;
      }
      if e.det != DET_PHY_OFFLINE {
        if e.errors > ERROR_CNT_THRESHOLD {
          ElapsedReduced(e.compared, t1);
          if Elapsed(e.compared % CLOCK_MODULUS, t1) > PORT_RESET_THRESHOLD_MS {
            t1 := e.stamped % CLOCK_MODULUS;
            counter := 0;
          }
          counter := counter + 1;
        } else {
          counter := 0;
        }
        if counter >= COUNTER_THRESHOLD {
          counter := 0;
          ElapsedReduced(e.judged, t1);
          recover := Elapsed(e.judged % CLOCK_MODULUS, t1) <= PORT_RESET_THRESHOLD_MS;
        }
      }
    }
  }
}
