// The data-out phase of a buffered write in src/mww.c: one transfer into the response buffer,
// then the surplus in pieces of 1024 bytes, until the residue of the status wrapper is zero.
module BotDrain {

  const FIRST_BUFFER := 0x1014
  const SURPLUS_BUFFER := 0x400

  function Least(a: nat, b: nat): nat {
    if a < b then a else b
  }

  // What the host delivers when `asked` bytes are requested by the i-th transfer: something,
  // and no more than asked.
  ghost predicate Delivers(host: (nat, nat) -> nat) {
    forall asked: nat, i: nat :: asked > 0 ==> 1 <= host(asked, i) <= asked
  }

  // The whole phase for a command wrapper of `length` bytes: the completions it takes.
  // mww_handle_transfer_mww0_addr_device_transfer_state submits the first transfer,
  // mww_handle_transfer_device_transfer_state handles each completion.
  method Drain(length: nat, host: (nat, nat) -> nat) returns (residue: nat, seen: nat, delivered: seq<nat>)
    requires Delivers(host)
    ensures residue == 0 && Total(delivered) == length && |delivered| <= length
    ensures delivered == Deliveries(length, FIRST_BUFFER, host, 0)
    ensures Transfers(length, host, delivered)
    ensures seen == if length == 0 then 0 else delivered[|delivered| - 1]
  {
    hide Deliveries, Total, Transfers;
    DeliveriesTransfer(length, host);
    residue := length;
    delivered := [];
    seen := 0;
    NothingDelivered(host, 0);
    var asked: nat := Least(length, FIRST_BUFFER);
    if asked == 0 {
      return;
    }
    ghost var room: nat := FIRST_BUFFER;
    while true
      invariant 0 < asked == Least(residue, room) && (room == FIRST_BUFFER || room == SURPLUS_BUFFER)
      invariant Total(delivered) + residue == length && |delivered| + residue <= length
      invariant delivered + Deliveries(residue, room, host, |delivered|) == Deliveries(length, FIRST_BUFFER, host, 0)
      decreases residue
    {
      var n: nat := host(asked, |delivered|);
      DeliveriesFirst(residue, room, host, |delivered|);
      NothingDelivered(host, |delivered| + 1);
      TotalAppend(delivered, n);
      assert delivered + ([n] + Deliveries(residue - n, SURPLUS_BUFFER, host, |delivered| + 1))
             == (delivered + [n]) + Deliveries(residue - n, SURPLUS_BUFFER, host, |delivered| + 1);
      delivered := delivered + [n];
      residue := residue - n;
      room := SURPLUS_BUFFER;
      if residue == 0 {
        seen := n;
        assert delivered + [] == delivered;
        return;
      }
      asked := if residue < 0x401 then residue else SURPLUS_BUFFER;
    }
  }

  function Total(delivered: seq<nat>): nat {
    if delivered == [] then 0 else delivered[0] + Total(delivered[1..])
  }

  lemma {:induction false} TotalAppend(delivered: seq<nat>, n: nat)
    ensures Total(delivered + [n]) == Total(delivered) + n
  {
    if delivered == [] {
      assert [] + [n] == [n] && [n][1..] == [];
    } else {
      assert (delivered + [n])[1..] == delivered[1..] + [n];
      TotalAppend(delivered[1..], n);
    }
  }

  // The deliveries for `left` bytes, of which the next transfer can take `room`.
  ghost function Deliveries(left: nat, room: nat, host: (nat, nat) -> nat, i: nat): seq<nat>
    requires Delivers(host) && room > 0
    decreases left
  {
    if left == 0 then []
    else
      var n := host(Least(left, room), i);
      [n] + Deliveries(left - n, SURPLUS_BUFFER, host, i + 1)
  }

  lemma DeliveriesFirst(left: nat, room: nat, host: (nat, nat) -> nat, i: nat)
    requires Delivers(host) && room > 0 && left > 0
    ensures var n := host(Least(left, room), i);
            && 1 <= n <= Least(left, room) <= left
            && Deliveries(left, room, host, i) == [n] + Deliveries(left - n, SURPLUS_BUFFER, host, i + 1)
  {
  }

  lemma NothingDelivered(host: (nat, nat) -> nat, i: nat)
    requires Delivers(host)
    ensures Total([]) == 0 && forall room: nat :: room > 0 ==> Deliveries(0, room, host, i) == []
  {
  }

  // Transfer `i` asks for the bytes that are left, the first for at most 0x1014 of them and each
  // further one for at most 0x400.
  ghost predicate Transfers(length: nat, host: (nat, nat) -> nat, delivered: seq<nat>) {
    forall i :: 0 <= i < |delivered| ==>
      var left, room := length - Total(delivered[..i]), if i == 0 then 0x1014 else 0x400;
      left > 0 && delivered[i] == host(if left <= room then left else room, i)
  }

  lemma {:induction false} DeliveriesMeaning(left: nat, room: nat, host: (nat, nat) -> nat, first: nat, i: nat)
    requires Delivers(host) && room > 0 && i < |Deliveries(left, room, host, first)|
    ensures var d := Deliveries(left, room, host, first); var now := left - Total(d[..i]);
            now > 0 && d[i] == host(Least(now, if i == 0 then room else SURPLUS_BUFFER), first + i)
    decreases i
  {
    hide Total, Least;
    DeliveriesFirst(left, room, host, first);
    var d := Deliveries(left, room, host, first);
    if i == 0 {
      NothingDelivered(host, 0);
      assert d[..0] == [];
    } else {
      var rest := Deliveries(left - d[0], SURPLUS_BUFFER, host, first + 1);
      DeliveriesMeaning(left - d[0], SURPLUS_BUFFER, host, first + 1, i - 1);
      assert d == [d[0]] + rest && d[..i] == [d[0]] + rest[..i - 1];
      TotalFirst(d[0], rest[..i - 1]);
    }
  }

  lemma TotalFirst(n: nat, rest: seq<nat>)
    ensures Total([n] + rest) == n + Total(rest)
  {
    assert ([n] + rest)[1..] == rest;
  }

  lemma DeliveriesTransfer(length: nat, host: (nat, nat) -> nat)
    requires Delivers(host)
    ensures Transfers(length, host, Deliveries(length, FIRST_BUFFER, host, 0))
  {
    hide Deliveries, Total;
    var d := Deliveries(length, FIRST_BUFFER, host, 0);
    forall i | 0 <= i < |d|
      ensures var left, room := length - Total(d[..i]), if i == 0 then 0x1014 else 0x400;
              left > 0 && d[i] == host(if left <= room then left else room, i)
    {
      DeliveriesMeaning(length, FIRST_BUFFER, host, 0, i);
    }
  }

  // The last delivery of a host that always fills the request.
  lemma {:induction false} LastOfFull(left: nat, host: (nat, nat) -> nat, i: nat)
    requires Delivers(host) && left > 0 && forall asked: nat, j: nat :: asked > 0 ==> host(asked, j) == asked
    ensures var d := Deliveries(left, SURPLUS_BUFFER, host, i);
            d != [] && d[|d| - 1] == (left - 1) % SURPLUS_BUFFER + 1
    decreases left
  {
    var n := host(Least(left, SURPLUS_BUFFER), i);
    if left > SURPLUS_BUFFER {
      LastOfFull(left - SURPLUS_BUFFER, host, i + 1);
      assert (left - SURPLUS_BUFFER - 1) % SURPLUS_BUFFER == (left - 1) % SURPLUS_BUFFER;
    }
  }

  // The SCSI layer is told the length of the last completion only.
  lemma SeenByScsi(length: nat, host: (nat, nat) -> nat)
    requires Delivers(host) && length > 0 && forall asked: nat, j: nat :: asked > 0 ==> host(asked, j) == asked
    ensures var d := Deliveries(length, FIRST_BUFFER, host, 0);
            && d != []
            && d[|d| - 1] == (if length <= 0x1014 then length else (length - 0x1015) % 0x400 + 1)
            && (d[|d| - 1] == length <==> length <= 0x1014)
  {
    if length > FIRST_BUFFER {
      LastOfFull(length - FIRST_BUFFER, host, 1);
    }
  }
}
