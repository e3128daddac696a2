// build_ti_boot_region and build_container of scripts/build_rdx_update_container.py.
// SHA-256 is an arbitrary function to 32 bytes.
module UpdateContainer {
  import opened RollingCheck
  import opened Wrappers

  const FIRMWARE_PAYLOAD_LENGTH := 0xF100
  const CONTAINER_LENGTH := 0xF29E
  const BOOT_REGION_OFFSET := 0x018C
  const BOOT_REGION_END := 0xF29A
  const CUSTOM_AUTH_OFFSET := 0x0108
  const CUSTOM_AUTH_LENGTH := 0x0080
  const METADATA_CHECK_OFFSET := 0x0188
  const METADATA_CHECK_END := 0x018C
  const DIGEST_LENGTH := 32
  const SEED: bv32 := 0xFFFF_FFFF

  // b"OPENRDX1"
  const CUSTOM_AUTH_MAGIC: seq<Byte> := [0x4F, 0x50, 0x45, 0x4E, 0x52, 0x44, 0x58, 0x31]

  type Hash = seq<Byte> -> seq<Byte>

  ghost predicate IsDigest(sha: Hash) {
    forall data :: |sha(data)| == DIGEST_LENGTH
  }

  datatype Error = PayloadLength | TemplateLength | WrongTemplate

  function Plus(a: Byte, b: Byte): Byte {
    a + b
  }

  // sum(payload) & 0xFF
  function ByteSum(payload: seq<Byte>): Byte {
    if payload == [] then 0 else Plus(ByteSum(payload[..|payload| - 1]), payload[|payload| - 1])
  }

  lemma PlusLaws(a: Byte, b: Byte, c: Byte)
    ensures Plus(a, Plus(b, c)) == Plus(Plus(a, b), c) && Plus(a, 0) == a && Plus(0, a) == a
  {
  }

  lemma {:induction false} SumParts(a: seq<Byte>, b: seq<Byte>)
    ensures ByteSum(a + b) == Plus(ByteSum(a), ByteSum(b))
    decreases |b|
  {
    hide Plus;
    if b == [] {
      assert a + b == a;
      PlusLaws(ByteSum(a), 0, 0);
    } else {
      var n := |b| - 1;
      assert (a + b)[..|a + b| - 1] == a + b[..n];
      SumParts(a, b[..n]);
      PlusLaws(ByteSum(a), ByteSum(b[..n]), b[n]);
    }
  }

  lemma SumOne(byte: Byte)
    ensures ByteSum([byte]) == byte
  {
    assert [byte][..0] == [];
  }

  // The byte sum adds up every byte: a payload in which one byte is wrong, whichever it is, has
  // another sum.
  lemma WrongByteNoticed(payload: seq<Byte>, i: nat, v: Byte)
    requires i < |payload|
    ensures ByteSum(payload[i := v]) == ByteSum(payload) <==> v == payload[i]
  {
    hide ByteSum, Plus;
    var before, after := payload[..i], payload[i + 1..];
    assert payload == before + [payload[i]] + after && payload[i := v] == before + [v] + after;
    SumParts(before + [payload[i]], after);
    SumParts(before, [payload[i]]);
    SumParts(before + [v], after);
    SumParts(before, [v]);
    SumOne(v);
    SumOne(payload[i]);
    SumsDiffer(ByteSum(before), payload[i], v, ByteSum(after));
  }

  lemma SumsDiffer(a: Byte, u: Byte, v: Byte, b: Byte)
    ensures Plus(Plus(a, v), b) == Plus(Plus(a, u), b) <==> v == u
  {
    hide Plus, Minus;
    Cancels(Plus(a, v), b);
    Cancels(Plus(a, u), b);
    Cancels(a, v);
    Cancels(a, u);
  }

  function Minus(a: Byte, b: Byte): Byte {
    a - b
  }

  lemma Cancels(a: Byte, b: Byte)
    ensures Minus(Plus(a, b), b) == a && Minus(Plus(a, b), a) == b
  {
  }

  // --- The boot region: records of type, little-endian length, data and byte sum ---

  const HEADER: seq<Byte> := [0x60, 0x92]
  const EMPTY_LENGTH: seq<Byte> := [0, 0, 0, 0]
  const PAYLOAD_LENGTH: seq<Byte> := [0x00, 0xF1, 0x00, 0x00]

  function BootRegion(payload: seq<Byte>): seq<Byte> {
    HEADER + ([0x01] + EMPTY_LENGTH + [0x00]) + ([0x02] + PAYLOAD_LENGTH + payload + [ByteSum(payload)])
  }

  // build_ti_boot_region
  function BuildBootRegion(payload: seq<Byte>): (r: Result<seq<Byte>, Error>)
    ensures r.Ok? <==> |payload| == FIRMWARE_PAYLOAD_LENGTH
    ensures r.Ok? ==> |r.value| == BOOT_REGION_END - BOOT_REGION_OFFSET
  {
    if |payload| != FIRMWARE_PAYLOAD_LENGTH then Err(PayloadLength) else Ok(BootRegion(payload))
  }

  datatype BootRecord = BootRecord(kind: Byte, data: seq<Byte>)

  function Value(b: Byte): (v: nat)
    ensures v < 0x100
  {
    b as nat
  }

  function LittleEndian(b: seq<Byte>): nat
    requires |b| == 4
  {
    Value(b[0]) + 0x100 * Value(b[1]) + 0x10000 * Value(b[2]) + 0x100_0000 * Value(b[3])
  }

  // Any length below 4 GB is read from its four bytes, the lowest first.
  lemma LengthDigits(b: seq<Byte>)
    requires |b| == 4
    ensures var n := LittleEndian(b);
            && n % 0x100 == Value(b[0]) && n / 0x100 % 0x100 == Value(b[1])
            && n / 0x10000 % 0x100 == Value(b[2]) && n / 0x100_0000 == Value(b[3])
  {
    hide Value;
    Digits(Value(b[0]), Value(b[1]), Value(b[2]), Value(b[3]));
  }

  lemma Digits(x0: nat, x1: nat, x2: nat, x3: nat)
    requires x0 < 0x100 && x1 < 0x100 && x2 < 0x100 && x3 < 0x100
    ensures var n := x0 + 0x100 * x1 + 0x10000 * x2 + 0x100_0000 * x3;
            n % 0x100 == x0 && n / 0x100 % 0x100 == x1 && n / 0x10000 % 0x100 == x2 && n / 0x100_0000 == x3
  {
    var n := x0 + 0x100 * x1 + 0x10000 * x2 + 0x100_0000 * x3;
    assert n / 0x100 == x1 + 0x100 * x2 + 0x10000 * x3;
    assert n / 0x10000 == x2 + 0x100 * x3;
  }

  // The records a boot loader finds, each with a correct byte sum, up to the end.
  function Records(bytes: seq<Byte>): Option<seq<BootRecord>>
    decreases |bytes|
  {
    if bytes == [] then Some([])
    else if |bytes| < 6 then None
    else
      var n := LittleEndian(bytes[1..5]);
      if |bytes| < 6 + n || bytes[5 + n] != ByteSum(bytes[5..5 + n]) then None
      else
        var rest := Records(bytes[6 + n..]);
        if rest.None? then None else Some([BootRecord(bytes[0], bytes[5..5 + n])] + rest.value)
  }

  function DecodeBoot(region: seq<Byte>): Option<seq<BootRecord>> {
    if |region| < 2 || region[..2] != HEADER then None else Records(region[2..])
  }

  lemma Lengths()
    ensures LittleEndian(EMPTY_LENGTH) == 0 && LittleEndian(PAYLOAD_LENGTH) == FIRMWARE_PAYLOAD_LENGTH
  {
  }

  lemma FirstRecord(bytes: seq<Byte>, data: seq<Byte>)
    requires |bytes| >= 6 + |data| && LittleEndian(bytes[1..5]) == |data|
    requires bytes[5..5 + |data|] == data && bytes[5 + |data|] == ByteSum(data)
    ensures var rest := Records(bytes[6 + |data|..]);
            Records(bytes) == if rest.None? then None else Some([BootRecord(bytes[0], data)] + rest.value)
  {
    hide ByteSum, LittleEndian;
  }

  lemma OneRecord(kind: Byte, length: seq<Byte>, data: seq<Byte>, rest: seq<Byte>)
    requires |length| == 4 && LittleEndian(length) == |data|
    ensures var bytes := [kind] + length + data + [ByteSum(data)] + rest;
            Records(bytes) == if Records(rest).None? then None else Some([BootRecord(kind, data)] + Records(rest).value)
  {
    hide ByteSum, LittleEndian, Records;
    var bytes := [kind] + length + data + [ByteSum(data)] + rest;
    assert bytes[1..5] == length && bytes[0] == kind;
    assert bytes[5..5 + |data|] == data;
    assert bytes[5 + |data|] == ByteSum(data);
    assert bytes[6 + |data|..] == rest;
    FirstRecord(bytes, data);
  }

  // Decoding the boot region gives the empty descriptor and the payload.
  lemma BootRoundTrip(payload: seq<Byte>)
    requires |payload| == FIRMWARE_PAYLOAD_LENGTH
    ensures DecodeBoot(BootRegion(payload)) == Some([BootRecord(0x01, []), BootRecord(0x02, payload)])
  {
    hide Records, ByteSum, LittleEndian;
    Lengths();
    var region := BootRegion(payload);
    var second := [0x02] + PAYLOAD_LENGTH + payload + [ByteSum(payload)];
    var first := [0x01] + EMPTY_LENGTH + [] + [ByteSum([])] + second;
    EmptySum();
    assert region[..2] == HEADER && region[2..] == first;
    OneRecord(0x01, EMPTY_LENGTH, [], second);
    assert second == [0x02] + PAYLOAD_LENGTH + payload + [ByteSum(payload)] + [];
    OneRecord(0x02, PAYLOAD_LENGTH, payload, []);
    NoRecords();
    assert [BootRecord(0x01, [])] + ([BootRecord(0x02, payload)] + [])
        == [BootRecord(0x01, []), BootRecord(0x02, payload)];
  }

  // A boot region in which one byte of the payload is wrong is refused.
  lemma WrongPayloadRefused(payload: seq<Byte>, i: nat, v: Byte)
    requires i < |payload| == FIRMWARE_PAYLOAD_LENGTH && v != payload[i]
    ensures var region := BootRegion(payload); |region| == 0xF10E && region[13 + i] == payload[i]
    ensures DecodeBoot(BootRegion(payload)[13 + i := v]) == None
  {
    hide Records, ByteSum, LittleEndian;
    Lengths();
    EmptySum();
    var wrong := payload[i := v];
    WrongByteNoticed(payload, i, v);
    var second := [0x02] + PAYLOAD_LENGTH + wrong + [ByteSum(payload)];
    var first := [0x01] + EMPTY_LENGTH + [] + [ByteSum([])] + second;
    var region := BootRegion(payload)[13 + i := v];
    assert BootRegion(payload) == HEADER + [0x01] + EMPTY_LENGTH + [0x00] + [0x02] + PAYLOAD_LENGTH
                                  + payload + [ByteSum(payload)];
    assert region == HEADER + first;
    assert region[..2] == HEADER && region[2..] == first;
    OneRecord(0x01, EMPTY_LENGTH, [], second);
    assert second[1..5] == PAYLOAD_LENGTH && second[5..5 + |wrong|] == wrong;
    assert second[5 + |wrong|] == ByteSum(payload);
    WrongSumRefused(second, wrong);
  }

  lemma WrongSumRefused(bytes: seq<Byte>, data: seq<Byte>)
    requires |bytes| >= 6 + |data| && LittleEndian(bytes[1..5]) == |data|
    requires bytes[5..5 + |data|] == data && bytes[5 + |data|] != ByteSum(data)
    ensures Records(bytes) == None
  {
    hide ByteSum, LittleEndian;
  }

  lemma EmptySum()
    ensures ByteSum([]) == 0
  {
  }

  lemma NoRecords()
    ensures Records([]) == Some([])
  {
  }

  // --- The container ---

  function Auth(boot: seq<Byte>, sha: Hash): seq<Byte> {
    CUSTOM_AUTH_MAGIC + sha(boot) + Zeros(CUSTOM_AUTH_LENGTH - 8 - DIGEST_LENGTH)
  }

  // What the finished container is: each part with the parts it covers already in place.
  function Container(template: seq<Byte>, payload: seq<Byte>, sha: Hash): seq<Byte>
    requires |template| == CONTAINER_LENGTH
  {
    var boot := BootRegion(payload);
    var covered := template[..CUSTOM_AUTH_OFFSET] + Auth(boot, sha);
    covered + BigEndian(Check(covered, SEED)) + boot + BigEndian(Check(boot, 0))
  }

  // A slice assignment of a bytearray.
  method Assign(result: array<Byte>, offset: nat, bytes: seq<Byte>)
    requires offset + |bytes| <= result.Length
    modifies result
    ensures result[..] == Splice(old(result[..]), offset, bytes)
  {
    ghost var was := result[..];
    for i := 0 to |bytes|
      invariant forall j :: 0 <= j < result.Length ==>
                  result[j] == if offset <= j < offset + i then bytes[j - offset] else was[j]
    {
      result[offset + i] := bytes[i];
    }
  }

  function Splice(s: seq<Byte>, offset: nat, bytes: seq<Byte>): seq<Byte>
    requires offset + |bytes| <= |s|
  {
    s[..offset] + bytes + s[offset + |bytes|..]
  }

  lemma SpliceMiddle(a: seq<Byte>, was: seq<Byte>, b: seq<Byte>, bytes: seq<Byte>)
    requires |was| == |bytes|
    ensures Splice(a + was + b, |a|, bytes) == a + bytes + b
  {
  }

  function Zeros(n: nat): (z: seq<Byte>)
    ensures |z| == n
  {
    seq(n, _ => 0)
  }

  lemma ZerosSplit(m: nat, n: nat)
    ensures Zeros(m + n) == Zeros(m) + Zeros(n)
  {
  }

  // build_container; `pinned` is COMPATIBILITY_TEMPLATE_SHA256.
  method BuildContainer(template: seq<Byte>, payload: seq<Byte>, sha: Hash, pinned: seq<Byte>)
      returns (r: Result<seq<Byte>, Error>)
    requires IsDigest(sha)
    ensures r == if |template| != CONTAINER_LENGTH then Err(TemplateLength)
                 else if sha(template) != pinned then Err(WrongTemplate)
                 else if |payload| != FIRMWARE_PAYLOAD_LENGTH then Err(PayloadLength)
                 else Ok(Container(template, payload, sha))
  {
    hide Check, BigEndian, BootRegion, Container;
    if |template| != CONTAINER_LENGTH {
      return Err(TemplateLength);
    }
    if sha(template) != pinned {
      return Err(WrongTemplate);
    }
    var region := BuildBootRegion(payload);
    if region.Err? {
      return Err(PayloadLength);
    }
    var result := new Byte[CONTAINER_LENGTH](i requires 0 <= i < |template| => template[i]);
    assert result[..] == template;
    FillContainer(result, template, payload, sha);
    return Ok(result[..]);
  }

  // The boot region and its check, over what the template holds there.
  method FillBoot(result: array<Byte>, ghost front: seq<Byte>, ghost middle: seq<Byte>, ghost end: seq<Byte>,
                  boot: seq<Byte>)
    requires |front| == BOOT_REGION_OFFSET && |middle| == |boot| == BOOT_REGION_END - BOOT_REGION_OFFSET && |end| == 4
    requires result[..] == front + middle + end
    modifies result
    ensures result[..] == front + boot + BigEndian(Check(boot, 0))
  {
    hide Check, BigEndian, Splice;
    assert |result[..]| == BOOT_REGION_END + 4;
    SpliceMiddle(front, middle, end, boot);
    Assign(result, BOOT_REGION_OFFSET, boot);
    var bootCheck := ComputeCheck(boot, 0);
    BigEndianLength(bootCheck);
    var tail := BigEndian(bootCheck);
    assert front + boot + end == (front + boot) + end + [];
    SpliceMiddle(front + boot, end, [], tail);
    Assign(result, BOOT_REGION_END, tail);
    assert (front + boot) + tail + [] == front + boot + tail;
  }

  // The assignments of build_container, each to a slice of the template's copy.
  method FillContainer(result: array<Byte>, template: seq<Byte>, payload: seq<Byte>, sha: Hash)
    requires IsDigest(sha) && |template| == CONTAINER_LENGTH && |payload| == FIRMWARE_PAYLOAD_LENGTH
    requires result.Length == CONTAINER_LENGTH && result[..] == template
    modifies result
    ensures result[..] == Container(template, payload, sha)
  {
    hide Check, BigEndian, BootRegion, Splice, Zeros, Auth;
    var boot := BuildBootRegion(payload).value;
    ghost var front, end := template[..BOOT_REGION_OFFSET], template[BOOT_REGION_END..];
    ghost var middle := template[BOOT_REGION_OFFSET..BOOT_REGION_END];
    assert template == front + middle + end;
    FillBoot(result, front, middle, end, boot);

    ghost var tail := BigEndian(Check(boot, 0));
    ghost var head, auth := template[..CUSTOM_AUTH_OFFSET], template[CUSTOM_AUTH_OFFSET..METADATA_CHECK_OFFSET];
    ghost var meta := template[METADATA_CHECK_OFFSET..METADATA_CHECK_END];
    assert front == head + auth + meta;
    FillMetadata(result, head, auth, meta, boot, tail, sha);
  }

  // The authentication block and the check over what precedes it.
  method FillMetadata(result: array<Byte>, ghost head: seq<Byte>, ghost auth: seq<Byte>, ghost meta: seq<Byte>,
                      boot: seq<Byte>, ghost tail: seq<Byte>, sha: Hash)
    requires IsDigest(sha) && |head| == CUSTOM_AUTH_OFFSET && |auth| == CUSTOM_AUTH_LENGTH && |meta| == 4
    requires result[..] == (head + auth + meta) + boot + tail
    modifies result
    ensures var covered := head + Auth(boot, sha);
            result[..] == covered + BigEndian(Check(covered, SEED)) + boot + tail
  {
    hide Check, BigEndian, Splice, Zeros, Auth;
    ghost var rest := meta + boot + tail;
    assert (head + auth + meta) + boot + tail == head + auth + rest;
    assert |result[..]| == |head| + |auth| + |rest|;
    SpliceMiddle(head, auth, rest, Zeros(CUSTOM_AUTH_LENGTH));
    Assign(result, CUSTOM_AUTH_OFFSET, Zeros(CUSTOM_AUTH_LENGTH));
    FillAuth(result, head, rest, boot, sha);

    ghost var covered := head + Auth(boot, sha);
    AuthLength(boot, sha);
    assert head + Auth(boot, sha) + rest == covered + meta + (boot + tail);
    assert result[..METADATA_CHECK_OFFSET] == covered;
    var metadataCheck := ComputeCheck(result[..METADATA_CHECK_OFFSET], SEED);
    BigEndianLength(metadataCheck);
    SpliceMiddle(covered, meta, boot + tail, BigEndian(metadataCheck));
    Assign(result, METADATA_CHECK_OFFSET, BigEndian(metadataCheck));
    assert covered + BigEndian(metadataCheck) + (boot + tail) == covered + BigEndian(metadataCheck) + boot + tail;
  }

  lemma AuthLength(boot: seq<Byte>, sha: Hash)
    requires IsDigest(sha)
    ensures |Auth(boot, sha)| == CUSTOM_AUTH_LENGTH
  {
  }

  // The marker and the digest, over the cleared authentication block.
  method FillAuth(result: array<Byte>, ghost head: seq<Byte>, ghost rest: seq<Byte>, boot: seq<Byte>, sha: Hash)
    requires IsDigest(sha) && |head| == CUSTOM_AUTH_OFFSET
    requires result[..] == head + Zeros(CUSTOM_AUTH_LENGTH) + rest
    modifies result
    ensures result[..] == head + Auth(boot, sha) + rest
  {
    hide Splice, Zeros;
    assert |result[..]| >= CUSTOM_AUTH_OFFSET + CUSTOM_AUTH_LENGTH;
    ZerosSplit(8, 120);
    ZerosSplit(32, 88);
    assert head + Zeros(CUSTOM_AUTH_LENGTH) + rest == head + Zeros(8) + (Zeros(120) + rest);
    SpliceMiddle(head, Zeros(8), Zeros(120) + rest, CUSTOM_AUTH_MAGIC);
    Assign(result, CUSTOM_AUTH_OFFSET, CUSTOM_AUTH_MAGIC);
    var digestOffset := CUSTOM_AUTH_OFFSET + |CUSTOM_AUTH_MAGIC|;
    assert head + CUSTOM_AUTH_MAGIC + (Zeros(120) + rest) == (head + CUSTOM_AUTH_MAGIC) + Zeros(32)
        + (Zeros(88) + rest);
    SpliceMiddle(head + CUSTOM_AUTH_MAGIC, Zeros(32), Zeros(88) + rest, sha(boot));
    Assign(result, digestOffset, sha(boot));
    assert (head + CUSTOM_AUTH_MAGIC) + sha(boot) + (Zeros(88) + rest) == head + Auth(boot, sha) + rest;
  }

  // --- Self-consistency ---

  lemma ContainerParts(template: seq<Byte>, payload: seq<Byte>, sha: Hash)
    requires |template| == CONTAINER_LENGTH && |payload| == FIRMWARE_PAYLOAD_LENGTH && IsDigest(sha)
    ensures var c := Container(template, payload, sha); var boot := BootRegion(payload);
            var covered := template[..CUSTOM_AUTH_OFFSET] + Auth(boot, sha);
            && |c| == CONTAINER_LENGTH
            && c[..METADATA_CHECK_OFFSET] == covered
            && c[METADATA_CHECK_OFFSET..METADATA_CHECK_END] == BigEndian(Check(covered, SEED))
            && c[BOOT_REGION_OFFSET..BOOT_REGION_END] == boot
            && c[BOOT_REGION_END..] == BigEndian(Check(boot, 0))
            && c[CUSTOM_AUTH_OFFSET..CUSTOM_AUTH_OFFSET + CUSTOM_AUTH_LENGTH] == Auth(boot, sha)
            && c[..CUSTOM_AUTH_OFFSET] == template[..CUSTOM_AUTH_OFFSET]
  {
    hide Check, BigEndian, ByteSum;
    var boot := BootRegion(payload);
    var covered := template[..CUSTOM_AUTH_OFFSET] + Auth(boot, sha);
    BigEndianLength(Check(covered, SEED));
    BigEndianLength(Check(boot, 0));
  }

  // Every finished container satisfies its two checks and its digest at once, keeps the
  // template's head, and decodes to the payload with a correct byte sum.
  lemma SelfConsistent(template: seq<Byte>, payload: seq<Byte>, sha: Hash)
    requires |template| == CONTAINER_LENGTH && |payload| == FIRMWARE_PAYLOAD_LENGTH && IsDigest(sha)
    ensures var c := Container(template, payload, sha);
            && |c| == 0xF29E
            && c[..0x108] == template[..0x108]
            && Check(c[..0x18C], 0xFFFF_FFFF) == 0
            && Check(c[0x18C..], 0) == 0
            && c[0x108..0x110] == [0x4F, 0x50, 0x45, 0x4E, 0x52, 0x44, 0x58, 0x31]
            && c[0x110..0x130] == sha(c[0x18C..0xF29A])
            && (forall i :: 0x130 <= i < 0x188 ==> c[i] == 0)
            && c[0x18C..0x18E] == [0x60, 0x92]
            && DecodeBoot(c[0x18C..0xF29A]) == Some([BootRecord(0x01, []), BootRecord(0x02, payload)])
            && c[0xF299] == ByteSum(payload)
  {
    hide Check, BigEndian, ByteSum, BootRegion, Container, DecodeBoot;
    ContainerParts(template, payload, sha);
    BootRoundTrip(payload);
    var c := Container(template, payload, sha);
    var boot := BootRegion(payload);
    var auth := Auth(boot, sha);
    var covered := template[..CUSTOM_AUTH_OFFSET] + auth;
    Closed(covered, SEED);
    Closed(boot, 0);
    assert c[..METADATA_CHECK_END] == c[..METADATA_CHECK_OFFSET] + c[METADATA_CHECK_OFFSET..METADATA_CHECK_END];
    assert c[BOOT_REGION_OFFSET..] == c[BOOT_REGION_OFFSET..BOOT_REGION_END] + c[BOOT_REGION_END..];
    BootEnds(payload);
    assert c[BOOT_REGION_END - 1] == boot[|boot| - 1];
    assert auth[..8] == CUSTOM_AUTH_MAGIC && auth[8..40] == sha(boot);
    assert c[CUSTOM_AUTH_OFFSET..CUSTOM_AUTH_OFFSET + 8] == auth[..8];
    assert c[CUSTOM_AUTH_OFFSET + 8..CUSTOM_AUTH_OFFSET + 40] == auth[8..40];
    AuthTail(boot, sha);
    assert forall i :: 0x130 <= i < 0x188 ==> c[i] == auth[i - 0x108];
    assert c[0x18C..0x18E] == boot[..2];
  }

  lemma AuthTail(boot: seq<Byte>, sha: Hash)
    requires IsDigest(sha)
    ensures |Auth(boot, sha)| == 128 && forall i :: 40 <= i < 128 ==> Auth(boot, sha)[i] == 0
  {
  }

  lemma Closed(data: seq<Byte>, seed: bv32)
    ensures Check(data + BigEndian(Check(data, seed)), seed) == 0
  {
    hide Check, BigEndian;
    BigEndianLength(Check(data, seed));
    Residue(data, BigEndian(Check(data, seed)), seed);
  }

  lemma BootEnds(payload: seq<Byte>)
    requires |payload| == FIRMWARE_PAYLOAD_LENGTH
    ensures |BootRegion(payload)| == BOOT_REGION_END - BOOT_REGION_OFFSET
    ensures BootRegion(payload)[|BootRegion(payload)| - 1] == ByteSum(payload)
    ensures BootRegion(payload)[..2] == [0x60, 0x92]
  {
    hide ByteSum;
  }

  // A later change of at most three neighbouring bytes of the boot region breaks its check
  // exactly when it changes a bit the check can see.
  lemma TamperNoticed(before: seq<Byte>, a: seq<Byte>, b: seq<Byte>, after: seq<Byte>)
    requires |a| == |b| <= 3
    ensures Check(before + b + after + BigEndian(Check(before + a + after, 0)), 0) == 0 <==> AllSameLow(a, b)
  {
    hide Check, BigEndian, SameLow, Quotient, AllSameLow;
    var c, d := Check(before + a + after, 0), Check(before + b + after, 0);
    BigEndianLength(c);
    BigEndianLength(d);
    CheckConcat(before + b + after, BigEndian(c), 0);
    CheckConcat(before + b + after, BigEndian(d), 0);
    Residue(before + b + after, BigEndian(c), 0);
    TrailerVisible(c, d);
    ShortBurstsNoticed(before, a, b, after, 0);
  }
}
