// The firmware download of src/rdx_mount/rdx_manager_protocol.c: it takes the container in
// chunks, keeps the first four boot bytes back, and programs them only on activation.
module UpdateReceiver {
  import opened RollingCheck
  import opened UpdateContainer

  const MAX_CHUNK := 0x1000
  const FLASH_LENGTH := 0x10000
  const FLASH_PAGE_SIZE := 0x100
  const FLASH_USED := BOOT_REGION_END - BOOT_REGION_OFFSET
  const WITHHELD := 4

  datatype Status = Good | InvalidField | TargetFailure | AuthenticationFailure

  // rdx_custom_update_is_valid
  predicate CustomValid(auth: seq<Byte>, digest: seq<Byte>)
    requires |auth| == CUSTOM_AUTH_LENGTH
  {
    && auth[..8] == CUSTOM_AUTH_MAGIC && auth[8..8 + DIGEST_LENGTH] == digest
    && forall i :: 8 + DIGEST_LENGTH <= i < CUSTOM_AUTH_LENGTH ==> auth[i] == 0
  }

  lemma AuthValid(boot: seq<Byte>, sha: Hash)
    requires IsDigest(sha)
    ensures |Auth(boot, sha)| == CUSTOM_AUTH_LENGTH && CustomValid(Auth(boot, sha), sha(boot))
  {
    var auth := Auth(boot, sha);
    assert auth[..8] == CUSTOM_AUTH_MAGIC && auth[8..8 + DIGEST_LENGTH] == sha(boot);
  }

  // The part of the container that the boot image covers, as far as it has arrived.
  function Arrived(stream: seq<Byte>): seq<Byte> {
    if |stream| <= BOOT_REGION_OFFSET then []
    else if |stream| <= BOOT_REGION_END then stream[BOOT_REGION_OFFSET..]
    else stream[BOOT_REGION_OFFSET..BOOT_REGION_END]
  }

  // Programming a flash byte can only clear bits.
  function Nor(was: Byte, data: Byte): Byte {
    was & data
  }

  class Receiver {
    const sha: Hash
    const pinned: seq<Byte>        // rdx_compatibility_image_sha256
    const auth: array<Byte>        // custom_auth
    const vector: array<Byte>      // first_vector_word
    const flash: array<Byte>       // the SPI flash sectors of the boot image
    var started: bool
    var failed: bool
    var imageValid: bool
    var next: nat                  // next_container_offset
    var absorbed: seq<Byte>        // what the payload hash has absorbed
    var stream: seq<Byte>          // what the container hash has absorbed
    ghost var activated: bool      // the withheld bytes were programmed
    ghost var broken: bool         // an SPI operation failed in this download

    ghost predicate Valid()
      reads this, auth, vector, flash
    {
      && IsDigest(sha)
      && auth.Length == CUSTOM_AUTH_LENGTH && vector.Length == WITHHELD && flash.Length == FLASH_LENGTH
      && auth != vector && auth != flash && vector != flash
      && (broken ==> failed)
      && (started && !broken ==> Downloading() && (failed <==> next == CONTAINER_LENGTH && !imageValid))
    }

    // What a download has done with the bytes it has received; nothing boots before activation.
    ghost predicate Downloading()
      requires auth.Length == CUSTOM_AUTH_LENGTH && vector.Length == WITHHELD && flash.Length == FLASH_LENGTH
      reads this, auth, vector, flash
    {
      && next == |stream| <= CONTAINER_LENGTH && absorbed == Arrived(stream)
      && (forall i :: 0 <= i < CUSTOM_AUTH_LENGTH && CUSTOM_AUTH_OFFSET + i < next ==>
                auth[i] == stream[CUSTOM_AUTH_OFFSET + i])
      && (forall i :: 0 <= i < WITHHELD && BOOT_REGION_OFFSET + i < next ==>
                vector[i] == stream[BOOT_REGION_OFFSET + i])
      && (forall i :: 0 <= i < FLASH_LENGTH ==>
            flash[i] == if activated && i < WITHHELD then vector[i] else Programmed(stream, i))
      && (activated ==> imageValid) && (imageValid ==> next == CONTAINER_LENGTH)
      && (next == CONTAINER_LENGTH ==> (imageValid <==> sha(stream) == pinned || CustomValid(auth[..], sha(absorbed))))
    }

    constructor (sha: Hash, pinned: seq<Byte>)
      requires IsDigest(sha)
      ensures Valid() && fresh(auth) && fresh(vector) && fresh(flash)
      ensures this.sha == sha && this.pinned == pinned && !started && flash.Length == 0x10000
    {
      this.sha, this.pinned := sha, pinned;
      auth := new Byte[CUSTOM_AUTH_LENGTH](_ => 0);
      vector := new Byte[WITHHELD](_ => 0);
      flash := new Byte[FLASH_LENGTH](_ => 0);
      started, failed, imageValid, next := false, false, false, 0;
      absorbed, stream, activated, broken := [], [], false, false;
    }

    // One page program, which must not run past the page.
    method PageProgram(address: nat, data: seq<Byte>)
      requires address % 0x100 + |data| <= 0x100 && address + |data| <= flash.Length
      modifies flash
      ensures forall i :: 0 <= i < flash.Length ==>
                flash[i] == if address <= i < address + |data| then Nor(old(flash[i]), data[i - address])
                    else old(flash[i])
    {
      for k := 0 to |data|
        invariant forall i :: 0 <= i < flash.Length ==>
                    flash[i] == if address <= i < address + k then Nor(old(flash[i]), data[i - address])
                        else old(flash[i])
      {
        flash[address + k] := Nor(flash[address + k], data[k]);
      }
    }

    // rdx_program_flash; the SPI transfer number `failAt` fails.
    method ProgramFlash(address: nat, data: seq<Byte>, failAt: int) returns (ok: bool)
      requires address + |data| <= flash.Length
      modifies flash
      ensures failAt < 0 ==> ok
      ensures !ok && address % FLASH_PAGE_SIZE + |data| <= FLASH_PAGE_SIZE ==> flash[..] == old(flash[..])
      ensures ok ==> forall i :: 0 <= i < flash.Length ==>
                flash[i] == if address <= i < address + |data| then Nor(old(flash[i]), data[i - address])
                    else old(flash[i])
    {
      var done := 0;
      var page := 0;
      while done < |data|
        invariant done <= |data|
        invariant done > 0 && address % FLASH_PAGE_SIZE + |data| <= FLASH_PAGE_SIZE ==> done == |data|
        invariant forall i :: 0 <= i < flash.Length ==>
                    flash[i] == if address <= i < address + done then Nor(old(flash[i]), data[i - address])
                        else old(flash[i])
      {
        if page == failAt {
          return false;
        }
        var remaining := FLASH_PAGE_SIZE - (address + done) % FLASH_PAGE_SIZE;
        var length := if |data| - done < remaining then |data| - done else remaining;
        PageProgram(address + done, data[done..done + length]);
        done := done + length;
        page := page + 1;
      }
      return true;
    }

    // rdx_begin_update
    method BeginUpdate(eraseOk: bool) returns (ok: bool)
      requires Valid()
      modifies this, auth, vector, flash
      ensures Valid() && ok == eraseOk && started == ok && failed == !ok
      ensures ok ==> next == 0 && stream == [] && !broken
    {
      started, failed, imageValid, next := false, false, false, 0;
      absorbed, stream, activated, broken := [], [], false, false;
      forall i | 0 <= i < auth.Length { auth[i] := 0; }
      forall i | 0 <= i < vector.Length { vector[i] := 0; }
      if !eraseOk {
        failed, broken := true, true;
        return false;
      }
      forall i | 0 <= i < flash.Length { flash[i] := 0xFF; }
      started := true;
      return true;
    }

    // rdx_capture_custom_auth
    method CaptureAuth(offset: nat, data: seq<Byte>, ghost before: seq<Byte>)
      requires auth.Length == CUSTOM_AUTH_LENGTH && offset == |before|
      requires forall i :: 0 <= i < CUSTOM_AUTH_LENGTH && CUSTOM_AUTH_OFFSET + i < offset ==>
                auth[i] == before[CUSTOM_AUTH_OFFSET + i]
      modifies auth
      ensures forall i :: 0 <= i < CUSTOM_AUTH_LENGTH && CUSTOM_AUTH_OFFSET + i < offset + |data| ==>
                auth[i] == (before + data)[CUSTOM_AUTH_OFFSET + i]
    {
      var end := offset + |data|;
      if end <= CUSTOM_AUTH_OFFSET || offset >= CUSTOM_AUTH_OFFSET + CUSTOM_AUTH_LENGTH {
        return;
      }
      var authStart := if offset < CUSTOM_AUTH_OFFSET then CUSTOM_AUTH_OFFSET else offset;
      var authEnd := if end > CUSTOM_AUTH_OFFSET + CUSTOM_AUTH_LENGTH then CUSTOM_AUTH_OFFSET + CUSTOM_AUTH_LENGTH
          else end;
      forall i | authStart <= i < authEnd {
        auth[i - CUSTOM_AUTH_OFFSET] := data[i - offset];
      }
    }

    // rdx_hash_container_payload
    method HashPayload(offset: nat, data: seq<Byte>, ghost before: seq<Byte>)
      requires offset == |before| && absorbed == Arrived(before)
      modifies this`absorbed
      ensures absorbed == Arrived(before + data)
    {
      var end := offset + |data|;
      if end <= BOOT_REGION_OFFSET || offset >= BOOT_REGION_END {
        return;
      }
      var payloadStart := if offset < BOOT_REGION_OFFSET then BOOT_REGION_OFFSET else offset;
      var payloadEnd := if end > BOOT_REGION_END then BOOT_REGION_END else end;
      absorbed := absorbed + data[payloadStart - offset..payloadEnd - offset];
    }

    // rdx_program_container_payload
    method ProgramPayload(offset: nat, data: seq<Byte>, failAt: int, ghost before: seq<Byte>) returns (ok: bool)
      requires vector.Length == WITHHELD && flash.Length == FLASH_LENGTH && vector != flash
      requires offset == |before| && offset + |data| <= CONTAINER_LENGTH
      requires forall i :: 0 <= i < WITHHELD && BOOT_REGION_OFFSET + i < offset ==>
                vector[i] == before[BOOT_REGION_OFFSET + i]
      requires forall i :: 0 <= i < FLASH_LENGTH ==> flash[i] == Programmed(before, i)
      modifies vector, flash
      ensures failAt < 0 ==> ok
      ensures ok ==> forall i :: 0 <= i < WITHHELD && BOOT_REGION_OFFSET + i < offset + |data| ==>
                vector[i] == (before + data)[BOOT_REGION_OFFSET + i]
      ensures ok ==> forall i :: 0 <= i < FLASH_LENGTH ==> flash[i] == Programmed(before + data, i)
    {
      var end := offset + |data|;
      if end <= BOOT_REGION_OFFSET || offset >= BOOT_REGION_END {
        return true;
      }
      var payloadStart := if offset < BOOT_REGION_OFFSET then BOOT_REGION_OFFSET else offset;
      var payloadEnd := if end > BOOT_REGION_END then BOOT_REGION_END else end;
      var flashAddress := payloadStart - BOOT_REGION_OFFSET;
      var source := payloadStart - offset;
      if flashAddress < WITHHELD {
        var withheld := WITHHELD - flashAddress;
        if withheld > payloadEnd - payloadStart {
          withheld := payloadEnd - payloadStart;
        }
        forall i | 0 <= i < withheld {
          vector[flashAddress + i] := data[source + i];
        }
        flashAddress := flashAddress + withheld;
        source := source + withheld;
        payloadStart := payloadStart + withheld;
      }
      ok := true;
      if payloadStart < payloadEnd {
        var part := data[source..source + (payloadEnd - payloadStart)];
        ok := ProgramFlash(flashAddress, part, failAt);
        ErasedTakes();
      }
    }

    // Whether download mode takes a chunk at `offset`.
    predicate Takes(offset: nat, length: nat, eraseOk: bool)
      reads this
    {
      && 0 < length <= 0x1000 && offset + length <= 0xF29E
      && if offset == 0 then eraseOk else started && !failed && offset == next
    }

    // What a chunk that is not taken, and does not begin a download, leaves as it was.
    twostate predicate Untouched()
      reads this, auth, vector, flash
    {
      && started == old(started) && failed == old(failed) && imageValid == old(imageValid) && next == old(next)
      && absorbed == old(absorbed) && stream == old(stream)
      && auth[..] == old(auth[..]) && vector[..] == old(vector[..]) && flash[..] == old(flash[..])
    }

    // A chunk that continues the download.
    method TakeChunk(offset: nat, data: seq<Byte>, failAt: int) returns (status: Status)
      requires Valid() && started && !failed && offset == next
      requires |data| > 0 && offset + |data| <= CONTAINER_LENGTH
      modifies this, auth, vector, flash
      ensures Valid() && started && !status.InvalidField?
      ensures status.TargetFailure? ==> failed && failAt >= 0
      ensures !status.TargetFailure? ==>
                && !broken && next == offset + |data| && stream == old(stream) + data
                && status == if failed then AuthenticationFailure else Good
    {
      ghost var before := stream;
      stream := stream + data;
      CaptureAuth(offset, data, before);
      HashPayload(offset, data, before);
      var programmed := ProgramPayload(offset, data, failAt, before);
      if !programmed {
        failed, broken := true, true;
        return TargetFailure;
      }
      next := next + |data|;
      if next == CONTAINER_LENGTH {
        imageValid := sha(stream) == pinned || CustomValid(auth[..], sha(absorbed));
        if !imageValid {
          failed := true;
          return AuthenticationFailure;
        }
      }
      return Good;
    }

    // rdx_manager_handle_write_buffer in download mode.
    method Download(offset: nat, data: seq<Byte>, eraseOk: bool, failAt: int) returns (status: Status)
      requires Valid()
      modifies this, auth, vector, flash
      ensures Valid()
      ensures !old(Takes(offset, |data|, eraseOk)) ==>
                status.InvalidField? || (offset == 0 && !eraseOk && status.TargetFailure?)
      ensures status.InvalidField? <==> !old(Takes(offset, |data|, eraseOk)) && !(status.TargetFailure? && offset == 0)
      ensures status.InvalidField? ==> Untouched()
      ensures status.TargetFailure? ==> failed
      ensures old(Takes(offset, |data|, eraseOk)) && failAt < 0 ==>
                && started && !broken && next == offset + |data|
                && stream == (if offset == 0 then [] else old(stream)) + data
                && status == if failed then AuthenticationFailure else Good
    {
      hide Downloading;
      if |data| == 0 || |data| > MAX_CHUNK || offset + |data| > CONTAINER_LENGTH {
        return InvalidField;
      }
      if offset == 0 {
        var begun := BeginUpdate(eraseOk);
        if !begun {
          return TargetFailure;
        }
      }
      if !started || failed || offset != next {
        return InvalidField;
      }
      status := TakeChunk(offset, data, failAt);
    }

    // The withheld bytes go to flash that is erased, or holds them already.
    method ProgramVector(failAt: int) returns (ok: bool)
      requires vector.Length == WITHHELD && flash.Length == FLASH_LENGTH && vector != flash
      requires forall i :: 0 <= i < WITHHELD ==> flash[i] == 0xFF || flash[i] == vector[i]
      modifies flash
      ensures failAt < 0 ==> ok
      ensures !ok ==> flash[..] == old(flash[..])
      ensures ok ==> forall i :: 0 <= i < FLASH_LENGTH ==> flash[i] == if i < WITHHELD then vector[i] else old(flash[i])
    {
      hide Nor;
      ErasedTakes();
      ok := ProgramFlash(0, vector[..], failAt);
    }

    // rdx_manager_handle_write_buffer in activation mode.
    method Activate(offset: nat, length: nat, failAt: int) returns (status: Status)
      requires Valid()
      modifies this`activated, flash
      ensures Valid()
      ensures status.InvalidField? <==>
                !(length == 0 && offset == CONTAINER_LENGTH && started && imageValid && !failed)
      ensures !status.InvalidField? && failAt < 0 ==> status.Good?
      ensures status.Good? ==> flash[..0xF10E] == stream[0x18C..0xF29A]
      ensures !status.Good? ==> flash[..] == old(flash[..]) && activated == old(activated)
    {
      hide Nor, CustomValid, Arrived;
      if length != 0 || offset != CONTAINER_LENGTH || !started || !imageValid || failed {
        return InvalidField;
      }
      var ok := ProgramVector(failAt);
      if !ok {
        return TargetFailure;
      }
      activated := true;
      return Good;
    }
  }

  // The flash byte at `i` before activation: erased, or the byte that arrived for it.
  function Programmed(stream: seq<Byte>, i: int): Byte {
    if WITHHELD <= i < FLASH_USED && BOOT_REGION_OFFSET + i < |stream| then stream[BOOT_REGION_OFFSET + i] else 0xFF
  }

  lemma ErasedTakes()
    ensures forall b: Byte :: Nor(0xFF, b) == b && Nor(b, b) == b
  {
  }

  // --- A whole download ---

  function Flatten(chunks: seq<seq<Byte>>): seq<Byte> {
    if chunks == [] then [] else chunks[0] + Flatten(chunks[1..])
  }

  // A container is accepted by its own digest, or by the marker, the digest of its boot region
  // and zeros up to the end of the authentication block.
  predicate AcceptedContainer(c: seq<Byte>, sha: Hash, pinned: seq<Byte>)
    requires |c| == CONTAINER_LENGTH
  {
    || sha(c) == pinned
    || (&& c[0x108..0x110] == [0x4F, 0x50, 0x45, 0x4E, 0x52, 0x44, 0x58, 0x31]
        && c[0x110..0x130] == sha(c[0x18C..0xF29A])
        && forall i :: 0x130 <= i < 0x188 ==> c[i] == 0)
  }

  lemma CustomMeaning(c: seq<Byte>, digest: seq<Byte>)
    requires |c| == CONTAINER_LENGTH
    ensures CustomValid(c[CUSTOM_AUTH_OFFSET..CUSTOM_AUTH_OFFSET + CUSTOM_AUTH_LENGTH], digest) <==>
              && c[0x108..0x110] == [0x4F, 0x50, 0x45, 0x4E, 0x52, 0x44, 0x58, 0x31]
              && c[0x110..0x130] == digest
              && forall i :: 0x130 <= i < 0x188 ==> c[i] == 0
  {
    var auth := c[0x108..0x188];
    assert auth[..8] == c[0x108..0x110] && auth[8..40] == c[0x110..0x130];
    assert forall i :: 0x130 <= i < 0x188 ==> c[i] == auth[i - 0x108];
    assert forall i :: 40 <= i < 128 ==> auth[i] == c[i + 0x108];
  }

  // Sending a container in any chunks: the verdict depends on the container alone.
  method SendAll(r: Receiver, c: seq<Byte>, chunks: seq<seq<Byte>>)
    requires r.Valid() && |c| == CONTAINER_LENGTH && Flatten(chunks) == c
    requires forall i :: 0 <= i < |chunks| ==> 0 < |chunks[i]| <= MAX_CHUNK
    modifies r, r.auth, r.vector, r.flash
    ensures r.Valid() && r.started && !r.broken && r.stream == c
    ensures r.imageValid <==> AcceptedContainer(c, r.sha, r.pinned)
    ensures r.failed <==> !r.imageValid
  {
    hide CustomValid, Arrived;
    var offset := 0;
    for i := 0 to |chunks|
      invariant r.Valid() && 0 <= offset <= CONTAINER_LENGTH && c[offset..] == Flatten(chunks[i..])
      invariant offset > 0 ==> r.started && !r.broken && r.next == offset && r.stream == c[..offset]
    {
      var chunk := chunks[i];
      assert chunks[i..][0] == chunk && chunks[i..][1..] == chunks[i + 1..];
      FlattenFirst(c, offset, chunk, Flatten(chunks[i + 1..]));
      var status := r.Download(offset, chunk, true, -1);
      offset := offset + |chunk|;
    }
    assert c[offset..] == [] && c[..offset] == c;
    Verdict(r, c);
  }

  lemma FlattenFirst(c: seq<Byte>, offset: nat, chunk: seq<Byte>, rest: seq<Byte>)
    requires offset <= |c| && c[offset..] == chunk + rest
    ensures offset + |chunk| <= |c| && c[offset + |chunk|..] == rest && c[..offset] + chunk == c[..offset + |chunk|]
  {
    assert c[offset..][|chunk|..] == rest;
    assert c[offset..][..|chunk|] == chunk;
  }

  // What the flash holds of a download before activation: the first four bytes of the boot
  // region are held back, so that nothing boots, and the others are there as far as they came.
  lemma FlashBeforeActivation(r: Receiver)
    requires r.Valid() && r.started && !r.broken && !r.activated
    ensures |r.stream| <= 0xF29E
    ensures forall i :: 0 <= i < 4 ==> r.flash[i] == 0xFF
    ensures forall i :: 0 <= i < 4 && 0x18C + i < |r.stream| ==> r.vector[i] == r.stream[0x18C + i]
    ensures forall i :: 4 <= i < 0xF10E ==>
              r.flash[i] == if 0x18C + i < |r.stream| then r.stream[0x18C + i] else 0xFF
    ensures forall i :: 0xF10E <= i < 0x10000 ==> r.flash[i] == 0xFF
  {
    hide CustomValid, Arrived;
  }

  lemma Verdict(r: Receiver, c: seq<Byte>)
    requires r.Valid() && r.started && !r.broken && r.stream == c && |c| == CONTAINER_LENGTH
    ensures r.imageValid <==> AcceptedContainer(c, r.sha, r.pinned)
  {
    hide CustomValid;
    assert r.auth[..] == c[CUSTOM_AUTH_OFFSET..CUSTOM_AUTH_OFFSET + CUSTOM_AUTH_LENGTH];
    CustomMeaning(c, r.sha(c[BOOT_REGION_OFFSET..BOOT_REGION_END]));
  }

  // Every container that build_container makes is accepted and activated, however it is cut
  // into chunks, and the flash then holds its boot region.
  method Install(r: Receiver, template: seq<Byte>, payload: seq<Byte>, chunks: seq<seq<Byte>>)
    requires r.Valid() && |template| == CONTAINER_LENGTH && |payload| == FIRMWARE_PAYLOAD_LENGTH
    requires Flatten(chunks) == Container(template, payload, r.sha)
    requires forall i :: 0 <= i < |chunks| ==> 0 < |chunks[i]| <= MAX_CHUNK
    modifies r, r.auth, r.vector, r.flash
    ensures r.Valid() && r.imageValid && r.flash[..FLASH_USED] == BootRegion(payload)
  {
    hide Container, BootRegion, AcceptedContainer, Flatten, Arrived, CustomValid;
    ghost var c := Container(template, payload, r.sha);
    BuiltIsAccepted(template, payload, r.sha, r.pinned);
    SendAll(r, Flatten(chunks), chunks);
    var status := r.Activate(CONTAINER_LENGTH, 0, -1);
  }

  // A built container passes the receiver's test.
  lemma BuiltIsAccepted(template: seq<Byte>, payload: seq<Byte>, sha: Hash, pinned: seq<Byte>)
    requires |template| == CONTAINER_LENGTH && |payload| == FIRMWARE_PAYLOAD_LENGTH && IsDigest(sha)
    ensures var c := Container(template, payload, sha);
            && |c| == CONTAINER_LENGTH && AcceptedContainer(c, sha, pinned)
            && c[BOOT_REGION_OFFSET..BOOT_REGION_END] == BootRegion(payload)
  {
    hide Container, BootRegion, Check, BigEndian, CustomValid, Auth;
    ContainerParts(template, payload, sha);
    AuthValid(BootRegion(payload), sha);
    var c := Container(template, payload, sha);
    CustomMeaning(c, sha(c[BOOT_REGION_OFFSET..BOOT_REGION_END]));
  }
}
