// The busy-wait delays of src/rti.c against a 32-bit counter.  `times` are the moments at which
// the routine reads the counter, on an unbounded clock; it sees them modulo 2^32.
module Delay {
  import opened Wrappers

  const MODULUS := 0x1_0000_0000

  function Counter(time: nat): nat {
    time % MODULUS
  }

  predicate Nondecreasing(times: seq<nat>) {
    forall i, j :: 0 <= i <= j < |times| ==> times[i] <= times[j]
  }

  // The first reading from `i` on that is at most, or at least, the deadline.
  function FirstAtMost(times: seq<nat>, i: nat, deadline: nat): Option<nat>
    decreases |times| - i
  {
    if i >= |times| then None
    else if Counter(times[i]) <= deadline then Some(i)
    else FirstAtMost(times, i + 1, deadline)
  }

  function FirstAtLeast(times: seq<nat>, i: nat, deadline: nat): Option<nat>
    decreases |times| - i
  {
    if i >= |times| then None
    else if Counter(times[i]) >= deadline then Some(i)
    else FirstAtLeast(times, i + 1, deadline)
  }

  function Deadline(delay: nat, start: nat): nat {
    (delay + Counter(start)) % MODULUS
  }

  // The reading at which the routine returns, or None while it is still waiting.
  function Returned(delay: nat, times: seq<nat>): Option<nat>
    requires times != []
  {
    var deadline := Deadline(delay, times[0]);
    if deadline < delay then
      var wrapped := FirstAtMost(times, 1, deadline);
      if wrapped.None? then None else FirstAtLeast(times, wrapped.value + 1, deadline)
    else FirstAtLeast(times, 1, deadline)
  }

  // rti_delay_microseconds and rti_delay_microseconds_with_watchdog
  method DelayMicroseconds(delay: nat, times: seq<nat>) returns (r: Option<nat>)
    requires times != [] && delay < MODULUS
    ensures r == Returned(delay, times)
  {
    var deadline := (delay + Counter(times[0])) % MODULUS;
    var i := 1;
    if deadline < delay {
      if i >= |times| {
        return None;
      }
      var current := Counter(times[i]);
      while deadline < current
        invariant 1 <= i < |times| && current == Counter(times[i])
        invariant FirstAtMost(times, i, deadline) == FirstAtMost(times, 1, deadline)
        decreases |times| - i
      {
        i := i + 1;
        if i >= |times| {
          return None;
        }
        current := Counter(times[i]);
      }
      i := i + 1;
    }
    ghost var first := i;
    while i < |times| && Counter(times[i]) < deadline
      invariant first <= i
      invariant FirstAtLeast(times, i, deadline) == FirstAtLeast(times, first, deadline)
    {
      // wdt_reset
      i := i + 1;
    }
    return if i < |times| then Some(i) else None;
  }

  // rti_delay_milliseconds, whose second loop tests at its end.
  method DelayMilliseconds(delay: nat, times: seq<nat>) returns (r: Option<nat>)
    requires times != [] && delay < MODULUS
    ensures r == Returned(delay, times)
  {
    var deadline := (delay + Counter(times[0])) % MODULUS;
    var i := 0;
    if deadline < delay {
      i := 1;
      while i < |times| && deadline < Counter(times[i])
        invariant 1 <= i
        invariant FirstAtMost(times, i, deadline) == FirstAtMost(times, 1, deadline)
      {
        i := i + 1;
      }
      if i >= |times| {
        return None;
      }
    }
    ghost var first := i + 1;
    var again := true;
    while again
      invariant first <= i + 1
      invariant again ==> FirstAtLeast(times, i + 1, deadline) == FirstAtLeast(times, first, deadline)
      invariant !again ==> FirstAtLeast(times, first, deadline) == Some(i)
      decreases if again then |times| - i + 1 else 0
    {
      i := i + 1;
      if i >= |times| {
        return None;
      }
      again := Counter(times[i]) < deadline;
    }
    return Some(i);
  }

  lemma {:induction false} FirstAtMostHits(times: seq<nat>, i: nat, deadline: nat)
    ensures var r := FirstAtMost(times, i, deadline);
            r.Some? ==> i <= r.value < |times| && Counter(times[r.value]) <= deadline
    decreases |times| - i
  {
    if i < |times| {
      FirstAtMostHits(times, i + 1, deadline);
    }
  }

  lemma {:induction false} FirstAtLeastHits(times: seq<nat>, i: nat, deadline: nat)
    ensures var r := FirstAtLeast(times, i, deadline);
            r.Some? ==> i <= r.value < |times| && Counter(times[r.value]) >= deadline
    decreases |times| - i
  {
    if i < |times| {
      FirstAtLeastHits(times, i + 1, deadline);
    }
  }

  // A moment that shows less than an earlier one lies past a wrap; one that shows at least `c`
  // after the wrap base `b` lies at least `c` after it.
  lemma PastWrap(t0: nat, t: nat)
    requires t0 <= t && Counter(t) < Counter(t0)
    ensures t >= t0 - Counter(t0) + MODULUS
  {
  }

  lemma AfterBase(base: nat, t: nat, c: nat)
    requires base % MODULUS == 0 && base <= t && Counter(t) >= c
    ensures t >= base + c
  {
  }

  lemma DeadlineIs(delay: nat, t0: nat)
    requires delay < MODULUS
    ensures var deadline := Deadline(delay, t0);
            if deadline < delay then deadline + MODULUS == delay + Counter(t0) && deadline < Counter(t0)
            else deadline == delay + Counter(t0)
  {
  }

  lemma BaseOf(t0: nat)
    ensures 0 <= t0 - Counter(t0) && (t0 - Counter(t0)) % MODULUS == 0
    ensures (t0 - Counter(t0) + MODULUS) % MODULUS == 0
  {
  }

  // No delay is ever short, wherever the counter wraps and however rarely it is read.
  lemma NeverShort(delay: nat, times: seq<nat>)
    requires times != [] && delay < MODULUS && Nondecreasing(times) && Returned(delay, times).Some?
    ensures var i := Returned(delay, times).value; 0 < i < |times| && times[i] >= times[0] + delay
  {
    hide Counter, Deadline, FirstAtMost, FirstAtLeast;
    var t0, deadline := times[0], Deadline(delay, times[0]);
    DeadlineIs(delay, t0);
    BaseOf(t0);
    if deadline < delay {
      var w := FirstAtMost(times, 1, deadline).value;
      FirstAtMostHits(times, 1, deadline);
      FirstAtLeastHits(times, w + 1, deadline);
      PastWrap(t0, times[w]);
      AfterBase(t0 - Counter(t0) + MODULUS, times[Returned(delay, times).value], deadline);
    } else {
      FirstAtLeastHits(times, 1, deadline);
      AfterBase(t0 - Counter(t0), times[Returned(delay, times).value], deadline);
    }
  }

  // --- Reading the counter at every tick ---

  predicate EveryTick(times: seq<nat>) {
    forall i :: 0 <= i < |times| ==> times[i] == times[0] + i
  }

  lemma {:induction false} FirstAtMostIs(times: seq<nat>, i: nat, k: nat, deadline: nat)
    requires i <= k < |times| && Counter(times[k]) <= deadline
    requires forall j :: i <= j < k ==> Counter(times[j]) > deadline
    ensures FirstAtMost(times, i, deadline) == Some(k)
    decreases k - i
  {
    if i < k {
      FirstAtMostIs(times, i + 1, k, deadline);
    }
  }

  lemma {:induction false} FirstAtLeastIs(times: seq<nat>, i: nat, k: nat, deadline: nat)
    requires i <= k < |times| && Counter(times[k]) >= deadline
    requires forall j :: i <= j < k ==> Counter(times[j]) < deadline
    ensures FirstAtLeast(times, i, deadline) == Some(k)
    decreases k - i
  {
    if i < k {
      FirstAtLeastIs(times, i + 1, k, deadline);
    }
  }

  lemma ShownAfter(t0: nat, j: nat)
    ensures Counter(t0) + j < MODULUS ==> Counter(t0 + j) == Counter(t0) + j
    ensures MODULUS <= Counter(t0) + j < 2 * MODULUS ==> Counter(t0 + j) == Counter(t0) + j - MODULUS
  {
  }

  // Where the counter passes zero on the way to the deadline.
  lemma WrapReading(delay: nat, times: seq<nat>)
    requires times != [] && EveryTick(times) && delay < MODULUS && |times| > delay
    requires delay + Counter(times[0]) >= MODULUS
    ensures var wrap := MODULUS - Counter(times[0]);
            0 < wrap <= delay && FirstAtMost(times, 1, Deadline(delay, times[0])) == Some(wrap)
  {
    var t0 := times[0];
    var s, wrap := Counter(t0), MODULUS - Counter(t0);
    assert Deadline(delay, t0) == delay + s - MODULUS;
    forall j | 1 <= j < wrap ensures Counter(times[j]) > Deadline(delay, t0) {
      ShownAfter(t0, j);
    }
    ShownAfter(t0, wrap);
    FirstAtMostIs(times, 1, wrap, Deadline(delay, t0));
  }

  lemma ExactTick(delay: nat, times: seq<nat>)
    requires times != [] && EveryTick(times) && 0 < delay < MODULUS && |times| > delay
    requires Deadline(delay, times[0]) != 0
    ensures Returned(delay, times) == Some(delay)
  {
    var t0, deadline := times[0], Deadline(delay, times[0]);
    var s := Counter(t0);
    if delay + s >= MODULUS {
      WrapReading(delay, times);
      var wrap := MODULUS - s;
      forall j | wrap + 1 <= j < delay ensures Counter(times[j]) < deadline {
        ShownAfter(t0, j);
      }
      ShownAfter(t0, delay);
      FirstAtLeastIs(times, wrap + 1, delay, deadline);
    } else {
      forall j | 1 <= j < delay ensures Counter(times[j]) < deadline {
        ShownAfter(t0, j);
      }
      ShownAfter(t0, delay);
      FirstAtLeastIs(times, 1, delay, deadline);
    }
  }

  // Read at every tick, a delay returns on the exact tick if and only if it is not empty and
  // its deadline is not counter value zero; it is late otherwise.
  lemma ExactIff(delay: nat, times: seq<nat>)
    requires times != [] && EveryTick(times) && delay < MODULUS && |times| > delay && Returned(delay, times).Some?
    ensures var i := Returned(delay, times).value;
            && 0 < i < |times|
            && (times[i] == times[0] + delay <==> delay > 0 && (delay + Counter(times[0])) % MODULUS != 0)
  {
    var t0, deadline := times[0], Deadline(delay, times[0]);
    NeverShort(delay, times);
    if delay > 0 && deadline != 0 {
      ExactTick(delay, times);
    } else if delay > 0 {
      assert delay + Counter(t0) == MODULUS by {
        assert 0 < delay + Counter(t0) < 2 * MODULUS;
      }
      WrapReading(delay, times);
      FirstAtLeastHits(times, MODULUS - Counter(t0) + 1, deadline);
    }
  }

  // --- Reading the counter now and then ---

  // Without a wrap before the deadline: the routine returns at the first reading that is not
  // before it, if the counter has not wrapped by then.
  lemma PromptUnwrapped(delay: nat, times: seq<nat>, i: nat)
    requires times != [] && delay < MODULUS && Nondecreasing(times) && 1 <= i < |times|
    requires var top := times[0] - times[0] % 0x1_0000_0000 + 0x1_0000_0000; times[0] + delay <= times[i] < top
    requires forall j :: 1 <= j < i ==> times[j] < times[0] + delay
    ensures Returned(delay, times) == Some(i)
  {
    hide FirstAtMost, FirstAtLeast;
    var t0 := times[0];
    forall j | 1 <= j <= i
      ensures Counter(times[j]) == times[j] - (t0 - Counter(t0))
    {
      ShownAfter(t0, times[j] - t0);
    }
    FirstAtLeastIs(times, 1, i, Deadline(delay, t0));
  }

  // With a wrap: reading `w`, the first after the wrap, ends the first loop if it is not past the
  // deadline, and the routine returns at the first later one that is not before it.
  lemma PromptWrapped(delay: nat, times: seq<nat>, w: nat, i: nat)
    requires times != [] && delay < MODULUS && Nondecreasing(times) && 1 <= w < i < |times|
    requires var top := times[0] - times[0] % 0x1_0000_0000 + 0x1_0000_0000;
             && (forall j :: 1 <= j < w ==> times[j] < top)
             && top <= times[w] <= times[0] + delay <= times[i] < top + 0x1_0000_0000
    requires forall j :: w < j < i ==> times[j] < times[0] + delay
    ensures Returned(delay, times) == Some(i)
  {
    hide FirstAtMost, FirstAtLeast;
    var t0 := times[0];
    var base, deadline := t0 - Counter(t0), Deadline(delay, t0);
    forall j | 1 <= j <= i
      ensures Counter(times[j]) == times[j] - base - if j < w then 0 else MODULUS
    {
      ShownAfter(t0, times[j] - t0);
    }
    assert deadline == delay + Counter(t0) - MODULUS;
    FirstAtMostIs(times, 1, w, deadline);
    FirstAtLeastIs(times, w + 1, i, deadline);
  }
}
