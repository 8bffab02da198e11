/** The wrap-around blob arena of `src/lazily/ipc.py`: a flat buffer, a write cursor, and a
    header before each payload. */
module BlobArena {
  import opened Wrappers
  import opened Bytes
  import opened FixedWidth
  import opened IpcWire

  const MAGIC: nat := 0x4C5A_5348
  const VERSION: nat := 1
  const HEADER_LEN: nat := 40
  const MIN_CAPACITY: nat := HEADER_LEN + 1
  const U64: nat := 0x1_0000_0000_0000_0000

  // ----- checksum -----

  const FNV_OFFSET_BASIS: nat := 0xCBF2_9CE4_8422_2325
  const FNV_PRIME: nat := 0x0000_0100_0000_01B3

  /** Exclusive or, bit by bit. */
  function Xor(a: nat, b: nat): nat
    decreases a + b
  {
    if a == 0 && b == 0 then 0 else (if a % 2 == b % 2 then 0 else 1) + 2 * Xor(a / 2, b / 2)
  }

  /** `_fnv1a_64` as a recursion from the last byte. */
  function Fnv1a(payload: Bytes): (h: nat)
    ensures h < U64
    decreases |payload|
  {
    if payload == [] then FNV_OFFSET_BASIS
    else Xor(Fnv1a(payload[..|payload| - 1]), payload[|payload| - 1]) * FNV_PRIME % U64
  }

  function Bit(n: nat, i: nat): nat {
    if i == 0 then n % 2 else Bit(n / 2, i - 1)
  }

  /** A bit of the exclusive or is set exactly when the two bits differ. */
  lemma {:induction false} XorBits(a: nat, b: nat, i: nat)
    ensures Bit(Xor(a, b), i) == if Bit(a, i) == Bit(b, i) then 0 else 1
    decreases i
  {
    var low := if a % 2 == b % 2 then 0 else 1;
    assert Xor(a, b) == low + 2 * Xor(a / 2, b / 2) by {
      if a == 0 && b == 0 { assert Xor(0, 0) == 0; }
    }
    assert Xor(a, b) / 2 == Xor(a / 2, b / 2) && Xor(a, b) % 2 == low;
    if i > 0 { XorBits(a / 2, b / 2, i - 1); }
  }

  lemma {:induction false} XorZero(a: nat)
    ensures Xor(a, 0) == a
    decreases a
  {
    if a > 0 { XorZero(a / 2); }
  }

  /** The published hash of the one-byte text "a". */
  lemma {:induction false} HashOfA()
    ensures Fnv1a([]) == 0xCBF2_9CE4_8422_2325 && Fnv1a([0x61]) == 0xAF63_DC4C_8601_EC8C
  {
    var h := FNV_OFFSET_BASIS;
    assert [0x61][..0] == [];
    XorZero(h / 128);
    assert Xor(h / 64, 0x61 / 64) == 1 - (h / 64) % 2 + 2 * Xor(h / 128, 0);
    assert Xor(h / 32, 0x61 / 32) == 1 - (h / 32) % 2 + 2 * Xor(h / 64, 0x61 / 64);
    assert Xor(h / 16, 0x61 / 16) == (h / 16) % 2 + 2 * Xor(h / 32, 0x61 / 32);
    assert Xor(h / 8, 0x61 / 8) == (h / 8) % 2 + 2 * Xor(h / 16, 0x61 / 16);
    assert Xor(h / 4, 0x61 / 4) == (h / 4) % 2 + 2 * Xor(h / 8, 0x61 / 8);
    assert Xor(h / 2, 0x61 / 2) == (h / 2) % 2 + 2 * Xor(h / 4, 0x61 / 4);
    assert Xor(h, 0x61) == 1 - h % 2 + 2 * Xor(h / 2, 0x61 / 2);
    assert Xor(h, 0x61) == 0xCBF2_9CE4_8422_2344;
  }

  method Fnv1a64(payload: Bytes) returns (h: nat)
    ensures h == Fnv1a(payload)
  {
    h := FNV_OFFSET_BASIS;
    assert payload[..0] == [];
    for i := 0 to |payload|
      invariant h == Fnv1a(payload[..i])
    {
      assert payload[..i + 1][..i] == payload[..i];
      h := Xor(h, payload[i]) * FNV_PRIME % U64;
    }
    assert payload[..|payload|] == payload;
  }

  // ----- headers -----

  datatype Part =
    MagicPart | VersionPart | HeaderLenPart | GenerationPart | EpochPart | LenPart | ChecksumPart | OffsetPart

  datatype ArenaError =
    | CapacityTooSmall | TooLarge | GenerationOverflow | EpochOutOfRange
    | OutOfBounds | Mismatch(part: Part) | ChecksumMismatch(expected: int, actual: int)

  /** Every field fits the header. */
  predicate Storable(d: BlobRef) {
    0 <= d.generation < U64 && 0 <= d.epoch < U64 && 0 <= d.len < U64 && 0 <= d.checksum < U64
  }

  function Parts(d: BlobRef): seq<Bytes>
    requires Storable(d)
  {
    [LittleEndian(MAGIC, 4), LittleEndian(VERSION, 2), LittleEndian(HEADER_LEN, 2),
     LittleEndian(d.generation, 8), LittleEndian(d.epoch, 8), LittleEndian(d.len, 8), LittleEndian(d.checksum, 8)]
  }

  /** `_write_blob_header`: the forty bytes. */
  function Header(d: BlobRef): (h: Bytes)
    requires Storable(d)
    ensures |h| == HEADER_LEN
  {
    var p := Parts(d);
    p[0] + p[1] + p[2] + p[3] + p[4] + p[5] + p[6]
  }

  /** What packing leaves behind when it stops at the epoch: the fields before it, then zeros. */
  function TornHeader(generation: nat): (h: Bytes)
    ensures |h| == HEADER_LEN
  {
    LittleEndian(MAGIC, 4) + LittleEndian(VERSION, 2) + LittleEndian(HEADER_LEN, 2) + LittleEndian(generation, 8)
    + seq(24, _ => 0)
  }

  /** `_read_blob_header` on the forty bytes found at `offset`. */
  function ReadHeader(h: Bytes, offset: int): Result<BlobRef, ArenaError>
    requires |h| == HEADER_LEN
  {
    if FromLittle(h[0..4]) != MAGIC then Err(Mismatch(MagicPart))
    else if FromLittle(h[4..6]) != VERSION then Err(Mismatch(VersionPart))
    else if FromLittle(h[6..8]) != HEADER_LEN then Err(Mismatch(HeaderLenPart))
    else
      var generation, epoch := FromLittle(h[8..16]), FromLittle(h[16..24]);
      Ok(BlobRef(offset, FromLittle(h[24..32]), generation, epoch, FromLittle(h[32..40]), Shm))
  }

  lemma {:induction false} HeaderSlices(d: BlobRef)
    requires Storable(d)
    ensures var h, p := Header(d), Parts(d);
            h[0..4] == p[0] && h[4..6] == p[1] && h[6..8] == p[2] && h[8..16] == p[3]
            && h[16..24] == p[4] && h[24..32] == p[5] && h[32..40] == p[6]
  {
    hide LittleEndian;
    var h, p := Header(d), Parts(d);
    assert h[32..40] == p[6];
  }

  /** What was written in a header is what is read. */
  lemma {:induction false} HeaderReads(d: BlobRef)
    requires Storable(d)
    ensures ReadHeader(Header(d), d.offset) == Ok(d.(backend := Shm))
  {
    HeaderSlices(d);
    Powers();
    hide Header, Power, LittleEndian, FromLittle;
    LittleReads(MAGIC, 4);
    LittleReads(VERSION, 2);
    LittleReads(HEADER_LEN, 2);
    LittleReads(d.generation, 8);
    LittleReads(d.epoch, 8);
    LittleReads(d.len, 8);
    LittleReads(d.checksum, 8);
  }

  /** `_blob_mismatch_field`. */
  function MismatchPart(actual: BlobRef, expected: BlobRef): Part {
    if actual.generation != expected.generation then GenerationPart
    else if actual.epoch != expected.epoch then EpochPart
    else if actual.len != expected.len then LenPart
    else if actual.checksum != expected.checksum then ChecksumPart
    else OffsetPart
  }

  // ----- the arena -----

  datatype Arena = Arena(buffer: Bytes, writeOffset: nat, nextGeneration: nat)

  ghost predicate Valid(a: Arena) {
    MIN_CAPACITY <= |a.buffer| < U64 && a.writeOffset < |a.buffer| && 1 <= a.nextGeneration < U64
  }

  function Splice(buffer: Bytes, at: nat, data: Bytes): (r: Bytes)
    requires at + |data| <= |buffer|
    ensures |r| == |buffer|
  {
    buffer[..at] + data + buffer[at + |data|..]
  }

  /** Where a write of this payload goes: at the cursor, or at the front when it does not fit behind it. */
  function Place(a: Arena, payload: Bytes): nat {
    if a.writeOffset + HEADER_LEN + |payload| > |a.buffer| then 0 else a.writeOffset
  }

  /** The epoch fits the header. */
  predicate EpochFits(epoch: int) {
    0 <= epoch < U64
  }

  /** `write_blob`. A refused write may still have wrapped the cursor or used a generation, and
      one refused for its epoch has torn the header it was about to write. */
  function Write(a: Arena, epoch: int, payload: Bytes): (Arena, Result<BlobRef, ArenaError>)
    requires Valid(a)
  {
    if |payload| > |a.buffer| - HEADER_LEN then (a, Err(TooLarge))
    else
      var total := HEADER_LEN + |payload|;
      var at := Place(a, payload);
      if a.nextGeneration == U64 - 1 then (a.(writeOffset := at), Err(GenerationOverflow))
      else if !EpochFits(epoch) then
        (Arena(Splice(a.buffer, at, TornHeader(a.nextGeneration)), at, a.nextGeneration + 1), Err(EpochOutOfRange))
      else
        var d := BlobRef(at, |payload|, a.nextGeneration, epoch, Fnv1a(payload), Shm);
        (Arena(Splice(Splice(a.buffer, at, Header(d)), at + HEADER_LEN, payload),
               if at + total == |a.buffer| then 0 else at + total,
               a.nextGeneration + 1),
         Ok(d))
  }

  /** `read_blob`. */
  function Read(a: Arena, d: BlobRef): Result<Bytes, ArenaError>
  {
    var capacity, total := |a.buffer|, HEADER_LEN + d.len;
    if d.offset < 0 || d.len < 0 || d.offset > capacity || total > capacity || d.offset > capacity - total
        then Err(OutOfBounds)
    else
      var header := ReadHeader(a.buffer[d.offset..d.offset + HEADER_LEN], d.offset);
      if header.Err? then Err(header.error)
      else if header.value.(backend := d.backend) != d then Err(Mismatch(MismatchPart(header.value, d)))
      else
        var payload := a.buffer[d.offset + HEADER_LEN..d.offset + total];
        if Fnv1a(payload) != d.checksum then Err(ChecksumMismatch(d.checksum, Fnv1a(payload))) else Ok(payload)
  }

  // ----- runs of writes -----

  /** What a write left in the buffer: a blob, or the torn header of a refused epoch. */
  datatype Trace = Blob(ref: BlobRef, payload: Bytes) | Torn(at: nat)

  function Begin(b: Trace): int {
    if b.Blob? then b.ref.offset else b.at
  }

  function End(b: Trace): int {
    Begin(b) + HEADER_LEN + if b.Blob? then |b.payload| else 0
  }

  predicate Overlap(b: Trace, c: Trace) {
    Begin(b) < End(c) && Begin(c) < End(b)
  }

  /** This write is refused for its epoch, and has torn a header. */
  predicate Tears(a: Arena, epoch: int, payload: Bytes) {
    |payload| <= |a.buffer| - HEADER_LEN && a.nextGeneration != U64 - 1 && !EpochFits(epoch)
  }

  /** What a write leaves. */
  function Left(a: Arena, epoch: int, payload: Bytes): seq<Trace>
    requires Valid(a)
  {
    var d := Write(a, epoch, payload).1;
    if d.Ok? then [Blob(d.value, payload)] else if Tears(a, epoch, payload) then [Torn(Place(a, payload))] else []
  }

  /** The arena after some writes, and what they left, oldest first. */
  function Written(a: Arena, writes: seq<(int, Bytes)>): (r: (Arena, seq<Trace>))
    requires Valid(a)
    ensures Valid(r.0)
    decreases |writes|
  {
    if writes == [] then (a, [])
    else
      var before := Written(a, writes[..|writes| - 1]);
      var (epoch, payload) := writes[|writes| - 1];
      WriteValid(before.0, epoch, payload);
      (Write(before.0, epoch, payload).0, before.1 + Left(before.0, epoch, payload))
  }

  lemma {:induction false} WriteValid(a: Arena, epoch: int, payload: Bytes)
    requires Valid(a)
    ensures Valid(Write(a, epoch, payload).0)
  {
    hide Splice, Header, TornHeader;
  }

  /** No later write touched what entry `i` left. */
  ghost predicate Standing(log: seq<Trace>, i: nat)
    requires i < |log|
  {
    forall j :: i < j < |log| ==> !Overlap(log[i], log[j])
  }

  predicate Fits(b: Trace, capacity: nat) {
    && 0 <= Begin(b) && End(b) <= capacity < U64
    && (b.Blob? ==>
          && Storable(b.ref) && b.ref.len == |b.payload|
          && b.ref.checksum == Fnv1a(b.payload) && b.ref.backend == Shm)
  }

  /** Header and payload are still there. */
  predicate Intact(buffer: Bytes, b: Trace)
    requires Fits(b, |buffer|) && b.Blob?
  {
    && buffer[b.ref.offset..b.ref.offset + HEADER_LEN] == Header(b.ref)
    && buffer[b.ref.offset + HEADER_LEN..End(b)] == b.payload
  }

  /** The cursor is not inside the blob. */
  predicate Beside(cursor: nat, b: Trace) {
    cursor <= Begin(b) || End(b) <= cursor
  }

  /** The first write that touches an earlier blob covers that blob's first header byte. */
  ghost predicate FirstCovers(log: seq<Trace>) {
    forall i, j :: 0 <= i < j < |log| && log[i].Blob? && FirstTouch(log, i, j) ==>
      Begin(log[j]) <= Begin(log[i]) < End(log[j])
  }

  /** Entry `j` is the first behind `i` to overlap it. */
  ghost predicate FirstTouch(log: seq<Trace>, i: nat, j: nat)
    requires i < j < |log|
  {
    Overlap(log[i], log[j]) && forall k :: i < k < j ==> !Overlap(log[i], log[k])
  }

  /** Generations start at one and are used once. */
  ghost predicate Numbered(log: seq<Trace>, next: nat) {
    && (forall i :: 0 <= i < |log| && log[i].Blob? ==> 1 <= log[i].ref.generation < next)
    && (forall i, j :: 0 <= i < j < |log| && log[i].Blob? && log[j].Blob? ==>
          log[i].ref.generation < log[j].ref.generation)
  }

  ghost predicate Holds(a: Arena, b: Trace) {
    Fits(b, |a.buffer|) && (b.Blob? ==> Intact(a.buffer, b) && Beside(a.writeOffset, b))
  }

  ghost predicate Sound(a: Arena, log: seq<Trace>) {
    && Valid(a)
    && (forall i :: 0 <= i < |log| ==> Fits(log[i], |a.buffer|))
    && (forall i :: 0 <= i < |log| && Standing(log, i) ==> Holds(a, log[i]))
    && Numbered(log, a.nextGeneration)
    && FirstCovers(log)
  }

  lemma {:induction false} SpliceKeeps(buffer: Bytes, at: nat, data: Bytes, lo: nat, hi: nat)
    requires at + |data| <= |buffer| && lo <= hi <= |buffer| && (hi <= at || at + |data| <= lo)
    ensures Splice(buffer, at, data)[lo..hi] == buffer[lo..hi]
  {
  }

  lemma {:induction false} SplicePuts(buffer: Bytes, at: nat, data: Bytes)
    requires at + |data| <= |buffer|
    ensures Splice(buffer, at, data)[at..at + |data|] == data
  {
  }

  lemma {:induction false} SpliceEnds(buffer: Bytes, at: nat, data: Bytes, lo: nat)
    requires at <= lo <= at + |data| <= |buffer|
    ensures Splice(buffer, at, data)[lo..at + |data|] == data[lo - at..]
  {
  }

  /** The new blob is in place, with the cursor behind it or at the front. */
  lemma {:induction false} WriteHolds(a: Arena, epoch: int, payload: Bytes)
    requires Valid(a) && Write(a, epoch, payload).1.Ok?
    ensures var (r, d) := Write(a, epoch, payload);
            && |r.buffer| == |a.buffer| && Holds(r, Blob(d.value, payload))
            && d.value.generation == a.nextGeneration && r.nextGeneration == a.nextGeneration + 1
  {
    hide Header, Splice, Fnv1a;
    var (r, d) := Write(a, epoch, payload);
    var at, h := d.value.offset, Header(d.value);
    var one := Splice(a.buffer, at, h);
    SplicePuts(a.buffer, at, h);
    SplicePuts(one, at + HEADER_LEN, payload);
    SpliceKeeps(one, at + HEADER_LEN, payload, at, at + HEADER_LEN);
  }

  /** What a write does not overlap stays in place, with the cursor beside it; what it does
      overlap it covers from its first byte. */
  lemma {:induction false} WriteKeeps(a: Arena, epoch: int, payload: Bytes, b: Trace)
    requires Valid(a) && Write(a, epoch, payload).1.Ok? && b.Blob? && Holds(a, b)
    ensures var (r, d) := Write(a, epoch, payload); var made := Blob(d.value, payload);
            if Overlap(b, made) then Begin(made) <= Begin(b) < End(made) else |r.buffer| == |a.buffer| && Holds(r, b)
  {
    hide Header, Splice, Fnv1a;
    var (r, d) := Write(a, epoch, payload);
    if !Overlap(b, Blob(d.value, payload)) {
      var at, h, lo := d.value.offset, Header(d.value), b.ref.offset;
      var one := Splice(a.buffer, at, h);
      SpliceKeeps(a.buffer, at, h, lo, lo + HEADER_LEN);
      SpliceKeeps(a.buffer, at, h, lo + HEADER_LEN, End(b));
      SpliceKeeps(one, at + HEADER_LEN, payload, lo, lo + HEADER_LEN);
      SpliceKeeps(one, at + HEADER_LEN, payload, lo + HEADER_LEN, End(b));
    }
  }

  /** The same for the header a refused epoch tears. */
  lemma {:induction false} TearKeeps(a: Arena, epoch: int, payload: Bytes, b: Trace)
    requires Valid(a) && Tears(a, epoch, payload) && b.Blob? && Holds(a, b)
    ensures var r := Write(a, epoch, payload).0; var torn := Torn(Place(a, payload));
            if Overlap(b, torn) then Begin(torn) <= Begin(b) < End(torn) else |r.buffer| == |a.buffer| && Holds(r, b)
  {
    hide Header, Splice, Fnv1a, Storable, TornHeader;
    var at, lo := Place(a, payload), b.ref.offset;
    if !Overlap(b, Torn(at)) {
      SpliceKeeps(a.buffer, at, TornHeader(a.nextGeneration), lo, lo + HEADER_LEN);
      SpliceKeeps(a.buffer, at, TornHeader(a.nextGeneration), lo + HEADER_LEN, End(b));
    }
  }

  /** A write refused for size or generation moves at most the cursor, to the front. */
  lemma {:induction false} RefusalKeeps(a: Arena, epoch: int, payload: Bytes, b: Trace)
    requires Valid(a) && Write(a, epoch, payload).1.Err? && !Tears(a, epoch, payload) && b.Blob? && Holds(a, b)
    ensures Write(a, epoch, payload).0.buffer == a.buffer && Holds(Write(a, epoch, payload).0, b)
  {
    hide Header, Fnv1a, Storable, Intact;
  }

  lemma {:induction false} StandingFront(log: seq<Trace>, b: Trace, i: nat)
    requires i < |log|
    ensures Standing(log + [b], i) <==> Standing(log, i) && !Overlap(log[i], b)
  {
    hide Overlap;
    var more := log + [b];
    assert more[|log|] == b;
    forall j | i < j < |log| ensures more[j] == log[j] {
    }
  }

  /** The last entry is the first to touch an earlier one exactly when that one still stood. */
  lemma {:induction false} TouchFront(log: seq<Trace>, b: Trace, i: nat, j: nat)
    requires i < j <= |log|
    ensures FirstTouch(log + [b], i, j)
            <==> if j < |log| then FirstTouch(log, i, j) else Standing(log, i) && Overlap(log[i], b)
  {
    hide Overlap;
    var more := log + [b];
    assert forall k :: 0 <= k < |log| ==> more[k] == log[k];
  }

  lemma {:induction false} WriteSound(a: Arena, log: seq<Trace>, epoch: int, payload: Bytes)
    requires Sound(a, log)
    ensures Sound(Write(a, epoch, payload).0, log + Left(a, epoch, payload))
  {
    var (r, d) := Write(a, epoch, payload);
    WriteValid(a, epoch, payload);
    if d.Ok? {
      WriteHolds(a, epoch, payload);
      hide Fits, Holds, Overlap, Write;
      forall i | 0 <= i < |log| && Standing(log, i) && log[i].Blob?
        ensures if Overlap(log[i], Blob(d.value, payload))
                then Begin(Blob(d.value, payload)) <= Begin(log[i]) < End(Blob(d.value, payload)) else Holds(r, log[i])
      {
        WriteKeeps(a, epoch, payload, log[i]);
      }
      Appended(a, log, r, Blob(d.value, payload));
    } else if Tears(a, epoch, payload) {
      var torn := Torn(Place(a, payload));
      TornFits(a, epoch, payload);
      hide Fits, Holds, Overlap, Write;
      forall i | 0 <= i < |log| && Standing(log, i) && log[i].Blob?
        ensures if Overlap(log[i], torn) then Begin(torn) <= Begin(log[i]) < End(torn) else Holds(r, log[i])
      {
        TearKeeps(a, epoch, payload, log[i]);
      }
      Appended(a, log, r, torn);
    } else {
      assert log + [] == log;
      RefusalFits(a, epoch, payload);
      hide Fits, Overlap, Write;
      forall i | 0 <= i < |log| && Standing(log, i) ensures Holds(r, log[i]) {
        if log[i].Blob? { RefusalKeeps(a, epoch, payload, log[i]); }
      }
    }
  }

  lemma {:induction false} TornFits(a: Arena, epoch: int, payload: Bytes)
    requires Valid(a) && Tears(a, epoch, payload)
    ensures var r := Write(a, epoch, payload).0;
            && |r.buffer| == |a.buffer| && Holds(r, Torn(Place(a, payload))) && r.nextGeneration == a.nextGeneration + 1
  {
    hide Splice, TornHeader;
  }

  lemma {:induction false} RefusalFits(a: Arena, epoch: int, payload: Bytes)
    requires Valid(a) && Write(a, epoch, payload).1.Err? && !Tears(a, epoch, payload)
    ensures var r := Write(a, epoch, payload).0; r.buffer == a.buffer && r.nextGeneration == a.nextGeneration
  {
  }

  /** One more entry: every blob that stood is covered from its head or still in place. */
  lemma {:induction false} Appended(a: Arena, log: seq<Trace>, r: Arena, b: Trace)
    requires Sound(a, log) && Valid(r) && |r.buffer| == |a.buffer| && Holds(r, b)
    requires r.nextGeneration == a.nextGeneration + 1 && (b.Blob? ==> b.ref.generation == a.nextGeneration)
    requires forall i :: 0 <= i < |log| && Standing(log, i) && log[i].Blob? ==>
               if Overlap(log[i], b) then Begin(b) <= Begin(log[i]) < End(b) else Holds(r, log[i])
    ensures Sound(r, log + [b])
  {
    hide Intact, Overlap, Storable, Standing, FirstTouch;
    var more := log + [b];
    forall i | 0 <= i < |more| && Standing(more, i) ensures Holds(r, more[i]) {
      if i < |log| { StandingFront(log, b, i); }
    }
    forall i, j | 0 <= i < j < |more| && more[i].Blob? && FirstTouch(more, i, j)
      ensures Begin(more[j]) <= Begin(more[i]) < End(more[j])
    {
      TouchFront(log, b, i, j);
    }
  }

  lemma {:induction false} RunSound(a: Arena, writes: seq<(int, Bytes)>)
    requires Valid(a)
    ensures Sound(Written(a, writes).0, Written(a, writes).1)
    decreases |writes|
  {
    hide Sound, Write, Left;
    if writes == [] {
      assert Sound(a, []) by { NothingWritten(a); }
    } else {
      RunSound(a, writes[..|writes| - 1]);
      var before := Written(a, writes[..|writes| - 1]);
      WriteSound(before.0, before.1, writes[|writes| - 1].0, writes[|writes| - 1].1);
    }
  }

  lemma {:induction false} NothingWritten(a: Arena)
    requires Valid(a)
    ensures Sound(a, [])
  {
  }

  lemma {:induction false} IntactReads(a: Arena, b: Trace)
    requires Fits(b, |a.buffer|) && b.Blob? && Intact(a.buffer, b)
    ensures Read(a, b.ref) == Ok(b.payload)
  {
    hide Header, ReadHeader, Fnv1a;
    HeaderReads(b.ref);
  }

  // ----- torn headers -----

  /** The lowest byte decides a number modulo 256. */
  lemma {:induction false} LowByte(s: Bytes)
    requires s != []
    ensures FromLittle(s) % 256 == s[0]
  {
  }

  lemma {:induction false} ZerosRead(s: Bytes)
    requires forall i :: 0 <= i < |s| ==> s[i] == 0
    ensures FromLittle(s) == 0
    decreases |s|
  {
    if s != [] { ZerosRead(s[1..]); }
  }

  /** The bytes of a torn header: the fixed fields, a generation, and zeros. */
  lemma {:induction false} TornBytes(generation: nat)
    ensures var h := TornHeader(generation);
            && h[0] == 0x48 && h[1] == 0x53 && h[2] == 0x5A && h[3] == 0x4C
            && h[4] == 1 && h[5] == 0 && h[6] == 40 && h[7] == 0
            && h[8..16] == LittleEndian(generation, 8) && forall n :: 16 <= n < HEADER_LEN ==> h[n] == 0
  {
    FixedBytes();
    hide LittleEndian;
  }

  lemma {:induction false} FixedBytes()
    ensures LittleEndian(MAGIC, 4) == [0x48, 0x53, 0x5A, 0x4C]
    ensures LittleEndian(VERSION, 2) == [1, 0] && LittleEndian(HEADER_LEN, 2) == [40, 0]
  {
    assert LittleEndian(MAGIC, 4) == [0x48] + LittleEndian(0x4C_5A53, 3);
    assert LittleEndian(0x4C_5A53, 3) == [0x53] + LittleEndian(0x4C5A, 2);
    assert LittleEndian(0x4C5A, 2) == [0x5A] + LittleEndian(0x4C, 1);
    assert LittleEndian(0x4C, 1) == [0x4C];
  }

  /** A header whose front lies in a torn one is not taken for a header of an earlier
      generation: the first byte of the magic or of the header length is wrong, or the
      generation is. */
  lemma {:induction false} TornDiffers(h: Bytes, k: nat, generation: nat, offset: int, ref: BlobRef)
    requires |h| == HEADER_LEN && k < HEADER_LEN && h[..HEADER_LEN - k] == TornHeader(generation)[k..]
    requires 1 <= ref.generation < generation < U64
    ensures ReadHeader(h, offset).Ok? ==> ReadHeader(h, offset).value.generation != ref.generation
  {
    TornFields(h, k, generation);
    LowByte(h[0..4]);
    LowByte(h[6..8]);
    hide FromLittle, TornHeader;
  }

  lemma {:induction false} TornFields(h: Bytes, k: nat, generation: nat)
    requires |h| == HEADER_LEN && k < HEADER_LEN && h[..HEADER_LEN - k] == TornHeader(generation)[k..]
    requires generation < U64
    ensures k == 0 ==> FromLittle(h[8..16]) == generation
    ensures k == 8 || k == 9 ==> FromLittle(h[8..16]) == 0
    ensures 10 <= k < 16 ==> h[6] == 0
    ensures 0 < k < 8 || 16 <= k ==> h[0] != 0x48
  {
    hide FromLittle, TornHeader, LittleEndian, Power;
    var t := TornHeader(generation);
    TornBytes(generation);
    forall m | 0 <= m < HEADER_LEN - k ensures h[m] == t[k + m] {
      assert h[m] == h[..HEADER_LEN - k][m] == t[k..][m];
    }
    if k == 0 {
      assert generation < Power(8) by { Powers(); }
      LittleReads(generation, 8);
      assert h[8..16] == t[8..16];
    } else if k == 8 || k == 9 {
      ZerosRead(h[8..16]);
    }
  }

  lemma {:induction false} SliceOfSlice(s: Bytes, i: nat, j: nat, n: nat)
    requires i + n <= j <= |s|
    ensures s[i..j][..n] == s[i..i + n]
  {
  }

  /** A blob whose front a torn header covers is never read again. */
  lemma {:induction false} TornUnreadable(a: Arena, epoch: int, payload: Bytes, b: Trace)
    requires Valid(a) && Tears(a, epoch, payload) && b.Blob? && Fits(b, |a.buffer|)
    requires 1 <= b.ref.generation < a.nextGeneration
    requires Place(a, payload) <= b.ref.offset < Place(a, payload) + HEADER_LEN
    ensures Read(Write(a, epoch, payload).0, b.ref).Err?
    ensures Place(a, payload) == b.ref.offset ==>
              Read(Write(a, epoch, payload).0, b.ref) == Err(Mismatch(GenerationPart))
  {
    hide *;
    var r, at := Write(a, epoch, payload).0, Place(a, payload);
    TornBuffer(a, epoch, payload, b);
    var k: nat := b.ref.offset - at;
    var h := r.buffer[b.ref.offset..b.ref.offset + 40];
    SpliceEnds(a.buffer, at, TornHeader(a.nextGeneration), b.ref.offset);
    SliceOfSlice(r.buffer, b.ref.offset, b.ref.offset + 40, 40 - k);
    TornDiffers(h, k, a.nextGeneration, b.ref.offset, b.ref);
    ReadRefuses(r, b.ref);
    if k == 0 {
      assert h == h[..40] && TornHeader(a.nextGeneration)[0..] == TornHeader(a.nextGeneration);
      TornReads(h, a.nextGeneration, b.ref.offset);
    }
  }

  /** What a tearing write leaves, and where the earlier blob stood in it. */
  lemma {:induction false} TornBuffer(a: Arena, epoch: int, payload: Bytes, b: Trace)
    requires Valid(a) && Tears(a, epoch, payload) && b.Blob? && Fits(b, |a.buffer|)
    ensures var at := Place(a, payload);
            && |TornHeader(a.nextGeneration)| == HEADER_LEN == 40 && at + HEADER_LEN <= |a.buffer|
            && Write(a, epoch, payload).0.buffer == Splice(a.buffer, at, TornHeader(a.nextGeneration))
            && |Write(a, epoch, payload).0.buffer| == |a.buffer| && a.nextGeneration < U64
            && 0 <= b.ref.offset && 0 <= b.ref.len && b.ref.offset + HEADER_LEN + b.ref.len <= |a.buffer|
  {
    hide Splice, TornHeader, Fnv1a, Storable;
  }

  /** A header that is refused, or that carries another generation, refuses the descriptor. */
  lemma {:induction false} ReadRefuses(a: Arena, d: BlobRef)
    requires 0 <= d.offset && 0 <= d.len && d.offset + 40 + d.len <= |a.buffer|
    requires HEADER_LEN == 40 && |a.buffer[d.offset..d.offset + 40]| == 40
    ensures var h := ReadHeader(a.buffer[d.offset..d.offset + 40], d.offset);
            && (h.Ok? && h.value.generation != d.generation ==> Read(a, d) == Err(Mismatch(GenerationPart)))
            && (h.Err? ==> Read(a, d).Err?)
  {
    hide ReadHeader, Fnv1a;
  }

  lemma {:induction false} TornReads(h: Bytes, generation: nat, offset: int)
    requires h == TornHeader(generation) && generation < U64
    ensures ReadHeader(h, offset).Ok?
  {
    TornBytes(generation);
    FixedBytes();
    Powers();
    assert h[0..4] == LittleEndian(MAGIC, 4) && h[4..6] == LittleEndian(VERSION, 2);
    assert h[6..8] == LittleEndian(HEADER_LEN, 2);
    LittleReads(MAGIC, 4);
    LittleReads(VERSION, 2);
    LittleReads(HEADER_LEN, 2);
    hide LittleEndian, FromLittle, TornHeader;
  }

  // ----- the guarantees -----

  /** Over any run of writes, a blob that no later write touched is read back whole by the
      descriptor its write returned. */
  lemma {:induction false} StandingBlobReads(a: Arena, writes: seq<(int, Bytes)>, i: nat)
    requires Valid(a) && i < |Written(a, writes).1|
    requires Written(a, writes).1[i].Blob? && Standing(Written(a, writes).1, i)
    ensures Read(Written(a, writes).0, Written(a, writes).1[i].ref) == Ok(Written(a, writes).1[i].payload)
  {
    hide Written, Intact, Fits, Standing, FirstCovers, Read;
    RunSound(a, writes);
    IntactReads(Written(a, writes).0, Written(a, writes).1[i]);
  }

  /** A refused write is not harmless: of the blobs that stood, it keeps exactly those that do
      not meet the forty bytes at the place it would have taken, and it keeps them all when the
      epoch fits or size or generation refused it first. */
  lemma {:induction false} RefusedKeepsIff(a: Arena, writes: seq<(int, Bytes)>, epoch: int, payload: Bytes, i: nat)
    requires Valid(a) && i < |Written(a, writes).1|
    requires Written(a, writes).1[i].Blob? && Standing(Written(a, writes).1, i)
    requires Write(Written(a, writes).0, epoch, payload).1.Err?
    ensures var (before, log) := Written(a, writes); var after := Write(before, epoch, payload).0;
            Read(after, log[i].ref) == Ok(log[i].payload)
            <==> !(Tears(before, epoch, payload) && Overlap(log[i], Torn(Place(before, payload))))
  {
    RunSound(a, writes);
    var (before, log) := Written(a, writes);
    hide Written, Standing, FirstCovers, Read, Write;
    if Tears(before, epoch, payload) {
      TearKeeps(before, epoch, payload, log[i]);
      if Overlap(log[i], Torn(Place(before, payload))) {
        TornUnreadable(before, epoch, payload, log[i]);
      } else {
        IntactReads(Write(before, epoch, payload).0, log[i]);
      }
    } else {
      RefusalKeeps(before, epoch, payload, log[i]);
      IntactReads(Write(before, epoch, payload).0, log[i]);
    }
  }

  /** An arena of a hundred bytes: a write of fifty, then one of nothing at epoch -1. The second
      is refused, and the first can no longer be read. */
  lemma {:induction false} RefusedEpochLosesBlob(buffer: Bytes, payload: Bytes)
    requires |buffer| == 100 && |payload| == 50
    ensures var writes := [(0, payload)]; var (before, log) := Written(Arena(buffer, 0, 1), writes);
            && |log| == 1 && log[0].Blob? && Read(before, log[0].ref) == Ok(payload)
            && Write(before, -1, []).1 == Err(EpochOutOfRange)
            && Read(Write(before, -1, []).0, log[0].ref) == Err(Mismatch(GenerationPart))
  {
    var a := Arena(buffer, 0, 1);
    OneWritten(a, 0, payload);
    hide Written, Splice, Header, TornHeader, Fnv1a, Read, ReadHeader;
    WriteHolds(a, 0, payload);
    var b := Blob(Write(a, 0, payload).1.value, payload);
    IntactReads(Write(a, 0, payload).0, b);
    TornUnreadable(Write(a, 0, payload).0, -1, [], b);
  }

  lemma {:induction false} OneWritten(a: Arena, epoch: int, payload: Bytes)
    requires Valid(a)
    ensures Written(a, [(epoch, payload)]) == (Write(a, epoch, payload).0, Left(a, epoch, payload))
  {
    hide Write, Left;
    var writes := [(epoch, payload)];
    assert writes[..0] == [];
    assert [] + Left(a, epoch, payload) == Left(a, epoch, payload);
  }

  /** As long as every epoch fits, nothing but blobs is left in the buffer. */
  lemma {:induction false} FittingEpochsLeaveBlobs(a: Arena, writes: seq<(int, Bytes)>)
    requires Valid(a) && forall i :: 0 <= i < |writes| ==> EpochFits(writes[i].0)
    ensures forall i :: 0 <= i < |Written(a, writes).1| ==> Written(a, writes).1[i].Blob?
    decreases |writes|
  {
    hide Write, EpochFits;
    if writes != [] { FittingEpochsLeaveBlobs(a, writes[..|writes| - 1]); }
  }

  /** Two blobs that both still stand do not share a byte. */
  lemma {:induction false} StandingDisjoint(a: Arena, writes: seq<(int, Bytes)>, i: nat, j: nat)
    requires Valid(a)
    requires var log := Written(a, writes).1;
             i < |log| && j < |log| && i != j && Standing(log, i) && Standing(log, j)
    ensures !Overlap(Written(a, writes).1[i], Written(a, writes).1[j])
  {
    hide Written;
    var log := Written(a, writes).1;
    var lo, hi := if i < j then i else j, if i < j then j else i;
    assert !Overlap(log[lo], log[hi]);
  }

  /** Generations are unique, and the first later write that touches a blob, refused or not,
      covers its first header byte. */
  lemma {:induction false} OverwritesFromTheHead(a: Arena, writes: seq<(int, Bytes)>)
    requires Valid(a)
    ensures FirstCovers(Written(a, writes).1)
    ensures var log := Written(a, writes).1;
            forall i, j :: 0 <= i < j < |log| && log[i].Blob? && log[j].Blob? ==>
              log[i].ref.generation != log[j].ref.generation
  {
    hide Written, Fits, Intact, FirstCovers;
    RunSound(a, writes);
  }

  /** When the write that overlaps a blob starts where the blob did, its old descriptor is
      refused by generation. */
  lemma {:induction false} StaleDescriptorRefused(a: Arena, epoch: int, payload: Bytes, b: Trace)
    requires Valid(a) && Write(a, epoch, payload).1.Ok? && b.Blob? && Fits(b, |a.buffer|)
    requires b.ref.generation < a.nextGeneration && Write(a, epoch, payload).1.value.offset == b.ref.offset
    ensures Read(Write(a, epoch, payload).0, b.ref) == Err(Mismatch(GenerationPart))
  {
    hide Header, ReadHeader, Fnv1a, Splice;
    WriteHolds(a, epoch, payload);
    HeaderReads(Write(a, epoch, payload).1.value);
  }

  // ----- where blobs go -----

  /** When a write is refused, in the order of the checks, and what it answers otherwise: the
      blob begins at the cursor unless it would reach past the end, and the cursor moves right
      behind it, or to the front from the very end. */
  lemma {:induction false} WriteAnswers(a: Arena, epoch: int, payload: Bytes)
    requires Valid(a)
    ensures var r := Write(a, epoch, payload); var size := HEADER_LEN + |payload|; var capacity := |a.buffer|;
            && (r.1 == Err(TooLarge) <==> size > capacity)
            && (r.1 == Err(GenerationOverflow) <==> size <= capacity && a.nextGeneration == 0xFFFF_FFFF_FFFF_FFFF)
            && (r.1 == Err(EpochOutOfRange) <==>
                  size <= capacity && a.nextGeneration < 0xFFFF_FFFF_FFFF_FFFF
                  && !(0 <= epoch <= 0xFFFF_FFFF_FFFF_FFFF))
            && (r.1.Ok? ==>
                  var d := r.1.value;
                  d.offset == (if a.writeOffset + size <= capacity then a.writeOffset else 0)
                  && r.0.writeOffset == (if d.offset + size == capacity then 0 else d.offset + size)
                  && d.len == |payload| && d.generation == a.nextGeneration && d.epoch == epoch
                  && r.0.nextGeneration == a.nextGeneration + 1)
  {
    hide Splice, Header, TornHeader, Fnv1a;
  }

  /** The bytes that writes take. */
  function Size(writes: seq<(int, Bytes)>): nat
    decreases |writes|
  {
    if writes == [] then 0 else Size(writes[..|writes| - 1]) + HEADER_LEN + |writes[|writes| - 1].1|
  }

  /** Until the buffer is full every blob is kept: writes that fit between the cursor and the end
      lie one behind the other, all stand, and all are read back. */
  lemma {:induction false} FirstRoundKeepsAll(a: Arena, writes: seq<(int, Bytes)>)
    requires Valid(a) && a.writeOffset + Size(writes) <= |a.buffer| && a.nextGeneration + |writes| < U64
    requires forall i :: 0 <= i < |writes| ==> EpochFits(writes[i].0)
    ensures var log := Written(a, writes).1;
            |log| == |writes|
            && forall i :: 0 <= i < |writes| ==>
                 log[i].Blob? && log[i].ref.offset == a.writeOffset + Size(writes[..i]) && log[i].payload == writes[i].1
                 && Standing(log, i) && Read(Written(a, writes).0, log[i].ref) == Ok(writes[i].1)
  {
    RoundLog(a, writes);
    var log := Written(a, writes).1;
    assert Laid(log, writes, a.writeOffset);
    hide Written, Read;
    forall i | 0 <= i < |writes| ensures Standing(log, i) && Read(Written(a, writes).0, log[i].ref) == Ok(writes[i].1) {
      forall j | i < j < |log| ensures !Overlap(log[i], log[j]) {
        SizeGrows(writes, i, j);
      }
      StandingBlobReads(a, writes, i);
    }
  }

  lemma {:induction false} SizeGrows(writes: seq<(int, Bytes)>, i: nat, j: nat)
    requires i < j <= |writes|
    ensures Size(writes[..i]) + HEADER_LEN + |writes[i].1| <= Size(writes[..j])
    decreases j
  {
    assert writes[..j][..j - 1] == writes[..j - 1];
    if i < j - 1 { SizeGrows(writes, i, j - 1); }
  }

  /** The blob of write `i` lies behind those of the writes before it. */
  predicate LaidAt(b: Trace, writes: seq<(int, Bytes)>, start: nat, i: nat)
    requires i < |writes|
  {
    && b.Blob? && b.payload == writes[i].1
    && b.ref.offset == start + Size(writes[..i]) && End(b) == start + Size(writes[..i + 1])
  }

  ghost predicate Laid(log: seq<Trace>, writes: seq<(int, Bytes)>, start: nat) {
    |log| == |writes| && forall i :: 0 <= i < |writes| ==> LaidAt(log[i], writes, start, i)
  }

  lemma {:induction false} LaidStays(b: Trace, writes: seq<(int, Bytes)>, w: (int, Bytes), start: nat, i: nat)
    requires i < |writes| && LaidAt(b, writes, start, i)
    ensures LaidAt(b, writes + [w], start, i)
  {
    assert (writes + [w])[..i] == writes[..i] && (writes + [w])[..i + 1] == writes[..i + 1];
  }

  lemma {:induction false} LaidSnoc(log: seq<Trace>, writes: seq<(int, Bytes)>, start: nat, b: Trace, w: (int, Bytes))
    requires Laid(log, writes, start) && b.Blob? && b.payload == w.1
    requires b.ref.offset == start + Size(writes) && End(b) == start + Size(writes + [w])
    ensures Laid(log + [b], writes + [w], start)
  {
    var ws := writes + [w];
    assert ws[..|writes|] == writes && ws[..|ws|] == ws;
    assert LaidAt(b, ws, start, |writes|);
    hide LaidAt;
    forall i | 0 <= i < |ws| ensures LaidAt((log + [b])[i], ws, start, i) {
      if i < |writes| { LaidStays(log[i], writes, w, start, i); }
    }
  }

  lemma {:induction false} RoundLog(a: Arena, writes: seq<(int, Bytes)>)
    requires Valid(a) && a.writeOffset + Size(writes) <= |a.buffer| && a.nextGeneration + |writes| < U64
    requires forall i :: 0 <= i < |writes| ==> EpochFits(writes[i].0)
    ensures var r := Written(a, writes);
            && Laid(r.1, writes, a.writeOffset)
            && |r.0.buffer| == |a.buffer| && r.0.nextGeneration == a.nextGeneration + |writes|
            && (a.writeOffset + Size(writes) < |a.buffer| ==> r.0.writeOffset == a.writeOffset + Size(writes))
    decreases |writes|
  {
    if writes != [] {
      hide *;
      var front, last := writes[..|writes| - 1], writes[|writes| - 1];
      RoundFront(writes);
      RoundLog(a, front);
      WrittenSnoc(a, front, last);
      var b := Written(a, front);
      RoundStep(b.0, last.0, last.1);
      LaidSnoc(b.1, front, a.writeOffset, Left(b.0, last.0, last.1)[0], last);
      assert Left(b.0, last.0, last.1) == [Left(b.0, last.0, last.1)[0]];
    }
  }

  lemma {:induction false} RoundFront(writes: seq<(int, Bytes)>)
    requires writes != [] && forall i :: 0 <= i < |writes| ==> EpochFits(writes[i].0)
    ensures var front, last := writes[..|writes| - 1], writes[|writes| - 1];
            && front + [last] == writes && Size(writes) == Size(front) + HEADER_LEN + |last.1| && EpochFits(last.0)
            && forall i :: 0 <= i < |front| ==> EpochFits(front[i].0)
  {
  }

  lemma {:induction false} WrittenSnoc(a: Arena, front: seq<(int, Bytes)>, last: (int, Bytes))
    requires Valid(a)
    ensures var b := Written(a, front);
            Written(a, front + [last]) == (Write(b.0, last.0, last.1).0, b.1 + Left(b.0, last.0, last.1))
  {
    assert (front + [last])[..|front|] == front;
    hide Write, Left;
  }

  /** A write that fits in front of the end. */
  lemma {:induction false} RoundStep(a: Arena, epoch: int, payload: Bytes)
    requires Valid(a) && a.writeOffset + HEADER_LEN + |payload| <= |a.buffer| && a.nextGeneration + 1 < U64
    requires EpochFits(epoch)
    ensures var r, left := Write(a, epoch, payload).0, Left(a, epoch, payload);
            var end := a.writeOffset + HEADER_LEN + |payload|;
            && |left| == 1 && left[0].Blob? && left[0].ref.offset == a.writeOffset && left[0].payload == payload
            && End(left[0]) == end && |r.buffer| == |a.buffer| && r.nextGeneration == a.nextGeneration + 1
            && (end < |a.buffer| ==> r.writeOffset == end)
  {
    WriteAnswers(a, epoch, payload);
    hide Splice, Header, TornHeader, Fnv1a;
  }

  // ----- what is read -----

  /** A descriptor is read exactly when it lies in the buffer, the header there is its own, and
      the payload behind it has its checksum. */
  lemma {:induction false} ReadsIff(a: Arena, d: BlobRef, payload: Bytes)
    ensures Read(a, d) == Ok(payload)
            <==> (&& 0 <= d.offset && 0 <= d.len && d.offset + HEADER_LEN + d.len <= |a.buffer|
                  && ReadHeader(a.buffer[d.offset..d.offset + HEADER_LEN], d.offset) == Ok(d.(backend := Shm))
                  && payload == a.buffer[d.offset + HEADER_LEN..d.offset + HEADER_LEN + d.len]
                  && Fnv1a(payload) == d.checksum)
  {
    if 0 <= d.offset && d.offset + HEADER_LEN <= |a.buffer| {
      var h := ReadHeader(a.buffer[d.offset..d.offset + HEADER_LEN], d.offset);
      assert h.Ok? ==> h.value.backend == Shm;
    }
    hide ReadHeader, Fnv1a;
  }

  /** The first check that fails names the error: bounds, the three fixed fields of the header,
      then generation, epoch, length and checksum of the descriptor, then the payload's hash. */
  lemma {:induction false} RefusedFor(a: Arena, d: BlobRef)
    ensures var inside := 0 <= d.offset && 0 <= d.len && d.offset + HEADER_LEN + d.len <= |a.buffer|;
            && (Read(a, d) == Err(OutOfBounds) <==> !inside)
            && (inside ==>
                  var h := a.buffer[d.offset..d.offset + HEADER_LEN];
                  var fixed := [FromLittle(h[0..4]) == MAGIC, FromLittle(h[4..6]) == 1, FromLittle(h[6..8]) == 40];
                  var same := [FromLittle(h[8..16]) == d.generation, FromLittle(h[16..24]) == d.epoch,
                               FromLittle(h[24..32]) == d.len, FromLittle(h[32..40]) == d.checksum];
                  && (Read(a, d) == Err(Mismatch(MagicPart)) <==> !fixed[0])
                  && (Read(a, d) == Err(Mismatch(VersionPart)) <==> fixed[0] && !fixed[1])
                  && (Read(a, d) == Err(Mismatch(HeaderLenPart)) <==> fixed[0] && fixed[1] && !fixed[2])
                  && (fixed[0] && fixed[1] && fixed[2] ==>
                        && (Read(a, d) == Err(Mismatch(GenerationPart)) <==> !same[0])
                        && (Read(a, d) == Err(Mismatch(EpochPart)) <==> same[0] && !same[1])
                        && (Read(a, d) == Err(Mismatch(LenPart)) <==> same[0] && same[1] && !same[2])
                        && (Read(a, d) == Err(Mismatch(ChecksumPart)) <==> same[0] && same[1] && same[2] && !same[3])))
  {
    hide FromLittle, Fnv1a;
  }

  /** A standing blob whose payload was overwritten by other bytes of the same length is refused
      with both checksums, unless the two payloads hash alike. */
  lemma {:induction false} CorruptionRefusedIff(a: Arena, b: Trace, found: Bytes)
    requires b.Blob? && Fits(b, |a.buffer|) && Intact(a.buffer, b) && |found| == |b.payload|
    ensures var c := a.(buffer := Splice(a.buffer, b.ref.offset + HEADER_LEN, found));
            Read(c, b.ref)
            == if Fnv1a(found) == Fnv1a(b.payload) then Ok(found)
               else Err(ChecksumMismatch(Fnv1a(b.payload), Fnv1a(found)))
  {
    hide Header, ReadHeader, Fnv1a;
    HeaderReads(b.ref);
    var at := b.ref.offset + HEADER_LEN;
    SplicePuts(a.buffer, at, found);
    SpliceKeeps(a.buffer, at, found, b.ref.offset, at);
    hide Splice;
  }

  /** The forty bytes field by field, least significant byte first. */
  lemma {:induction false} HeaderLayout(d: BlobRef)
    requires Storable(d)
    ensures var h := Header(d);
            && h[0..8] == [0x48, 0x53, 0x5A, 0x4C, 1, 0, 40, 0]
            && FromLittle(h[8..16]) == d.generation && FromLittle(h[16..24]) == d.epoch
            && FromLittle(h[24..32]) == d.len && FromLittle(h[32..40]) == d.checksum
  {
    HeaderSlices(d);
    Powers();
    FixedBytes();
    hide Power, LittleEndian, FromLittle;
    LittleReads(d.generation, 8);
    LittleReads(d.epoch, 8);
    LittleReads(d.len, 8);
    LittleReads(d.checksum, 8);
    var h := Header(d);
    assert h[0..8] == h[0..4] + h[4..6] + h[6..8];
  }

  // ----- the arena in place -----

  class ShmBlobArena {
    const buffer: array<Byte>
    var writeOffset: nat
    var nextGeneration: nat

    ghost function View(): Arena
      reads this, buffer
    {
      Arena(buffer[..], writeOffset, nextGeneration)
    }

    constructor (buffer: array<Byte>)
      requires MIN_CAPACITY <= buffer.Length < U64
      ensures this.buffer == buffer && View() == Arena(buffer[..], 0, 1) && Valid(View())
    {
      this.buffer, writeOffset, nextGeneration := buffer, 0, 1;
    }

    /** Copy `data` over the buffer, byte by byte. */
    method Store(at: nat, data: Bytes)
      requires at + |data| <= buffer.Length
      modifies buffer
      ensures buffer[..] == Splice(old(buffer[..]), at, data)
    {
      for i := 0 to |data|
        invariant forall j :: 0 <= j < buffer.Length ==>
                    buffer[j] == if at <= j < at + i then data[j - at] else old(buffer[j])
      {
        buffer[at + i] := data[i];
      }
    }

    method WriteBlob(epoch: int, payload: Bytes) returns (r: Result<BlobRef, ArenaError>)
      requires Valid(View())
      modifies this, buffer
      ensures Valid(View()) && View() == Write(old(View()), epoch, payload).0
      ensures r == Write(old(View()), epoch, payload).1
    {
      hide Splice, Header, TornHeader, Fnv1a;
      WriteValid(View(), epoch, payload);
      if |payload| > buffer.Length - HEADER_LEN {
        return Err(TooLarge);
      }
      var total := HEADER_LEN + |payload|;
      if writeOffset + total > buffer.Length {
        writeOffset := 0;
      }
      var generation := nextGeneration;
      if generation == U64 - 1 {
        return Err(GenerationOverflow);
      }
      nextGeneration := generation + 1;
      var offset := writeOffset;
      var checksum := Fnv1a64(payload);
      if epoch < 0 || epoch >= U64 {
        Store(offset, TornHeader(generation));
        return Err(EpochOutOfRange);
      }
      var d := BlobRef(offset, |payload|, generation, epoch, checksum, Shm);
      Store(offset, Header(d));
      Store(offset + HEADER_LEN, payload);
      writeOffset := writeOffset + total;
      if writeOffset == buffer.Length {
        writeOffset := 0;
      }
      r := Ok(d);
    }

    method ReadBlob(d: BlobRef) returns (r: Result<Bytes, ArenaError>)
      ensures r == Read(View(), d)
    {
      hide ReadHeader, Fnv1a;
      var total := HEADER_LEN + d.len;
      var capacity := buffer.Length;
      if d.offset < 0 || d.len < 0 || d.offset > capacity || total > capacity || d.offset > capacity - total {
        return Err(OutOfBounds);
      }
      assert buffer[d.offset..d.offset + HEADER_LEN] == buffer[..][d.offset..d.offset + HEADER_LEN];
      var header := ReadHeader(buffer[d.offset..d.offset + HEADER_LEN], d.offset);
      if header.Err? {
        return Err(header.error);
      }
      if header.value.(backend := d.backend) != d {
        return Err(Mismatch(MismatchPart(header.value, d)));
      }
      var payload := buffer[d.offset + HEADER_LEN..d.offset + total];
      assert payload == buffer[..][d.offset + HEADER_LEN..d.offset + total];
      var actual := Fnv1a64(payload);
      r := if actual != d.checksum then Err(ChecksumMismatch(d.checksum, actual)) else Ok(payload);
    }
  }

  /** An arena over a buffer that is too small is refused. */
  method OpenArena(buffer: array<Byte>) returns (r: Result<ShmBlobArena, ArenaError>)
    requires buffer.Length < U64
    ensures r.Ok? <==> buffer.Length >= MIN_CAPACITY
    ensures r.Ok? ==> r.value.buffer == buffer && r.value.View() == Arena(buffer[..], 0, 1) && Valid(r.value.View())
    ensures r.Err? ==> r.error == CapacityTooSmall
  {
    if buffer.Length < MIN_CAPACITY {
      return Err(CapacityTooSmall);
    }
    var a := new ShmBlobArena(buffer);
    return Ok(a);
  }
}
