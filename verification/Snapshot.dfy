/** What the two slots of a disk image hold, and which of them `open` selects. */
module Snapshot {
  import opened Wrappers
  import opened Words
  import opened Codec
  import opened Disk

  const MAGIC: seq<Byte> := [0x41, 0x46, 0x4F, 0x53, 0x46, 0x53, 0x30, 0x31] // "AFOSFS01"
  const FORMAT_VERSION: nat := 1

  type Slot = n: nat | n < 2

  /* ----- Headers ----- */

  function Zeros(n: nat): (r: seq<Byte>)
    ensures |r| == n
  {
    seq(n, _ => 0)
  }

  function EncodeHeader(generation: nat, length: nat, sum: nat): Sector {
    MAGIC + ToLe(FORMAT_VERSION, 4) + Zeros(4) + ToLe(generation, 8) + ToLe(length, 8) + ToLe(sum, 8)
    + Zeros(BLOCK_SIZE - 40)
  }

  /** The header that `save` writes for a payload. */
  function HeaderFor(generation: nat, payload: seq<Byte>): Sector {
    EncodeHeader(generation, |payload|, Fnv(payload))
  }

  datatype Header =
    | Absent
    | Foreign(version: nat)
    | Present(generation: nat, length: nat, sum: nat)

  function ParseHeader(header: Sector): Header {
    if forall b <- header :: b == 0 then Absent
    else if header[..|MAGIC|] != MAGIC then Absent
    else if FromLe(header[8..12]) != FORMAT_VERSION then Foreign(FromLe(header[8..12]))
    else Present(FromLe(header[16..24]), FromLe(header[24..32]), FromLe(header[32..40]))
  }

  lemma HeaderRoundTrip(generation: nat, length: nat, sum: nat)
    requires generation <= U64_MAX && length <= U64_MAX && sum <= U64_MAX
    ensures ParseHeader(EncodeHeader(generation, length, sum)) == Present(generation, length, sum)
  {
    hide ToLe, FromLe, Capacity;
    var h := EncodeHeader(generation, length, sum);
    CapacityOfWords();
    LeRoundTrip(FORMAT_VERSION, 4);
    LeRoundTrip(generation, 8);
    LeRoundTrip(length, 8);
    LeRoundTrip(sum, 8);
    assert h[..8] == MAGIC && h[0] in h && h[0] != 0;
    assert h[8..12] == ToLe(FORMAT_VERSION, 4);
    assert h[16..24] == ToLe(generation, 8);
    assert h[24..32] == ToLe(length, 8);
    assert h[32..40] == ToLe(sum, 8);
  }

  /** The header byte by byte: "AFOSFS01", version 1, and three words, each with its least significant byte first. */
  lemma HeaderLayout(generation: nat, length: nat, sum: nat)
    ensures var h := EncodeHeader(generation, length, sum);
            && |h| == 512 && h[..16] == [0x41, 0x46, 0x4F, 0x53, 0x46, 0x53, 0x30, 0x31, 1, 0, 0, 0, 0, 0, 0, 0]
            && (forall i | 0 <= i < 8 :: h[16 + i] == generation / Capacity(i) % 256)
            && (forall i | 0 <= i < 8 :: h[24 + i] == length / Capacity(i) % 256)
            && (forall i | 0 <= i < 8 :: h[32 + i] == sum / Capacity(i) % 256)
            && (forall i | 40 <= i < 512 :: h[i] == 0)
  {
    hide ToLe, Capacity;
    var h := EncodeHeader(generation, length, sum);
    VersionBytes();
    forall i | 0 <= i < 8
      ensures h[16 + i] == generation / Capacity(i) % 256
      ensures h[24 + i] == length / Capacity(i) % 256
      ensures h[32 + i] == sum / Capacity(i) % 256
    {
      LeByte(generation, 8, i);
      LeByte(length, 8, i);
      LeByte(sum, 8, i);
    }
  }

  lemma VersionBytes()
    ensures ToLe(FORMAT_VERSION, 4) == [1, 0, 0, 0]
  {
    assert ToLe(0, 3) == [0] + ToLe(0, 2) == [0, 0] + ToLe(0, 1);
  }

  /** The sector begins with "AFOSFS01". */
  predicate HasMagic(h: Sector) {
    h[..8] == [0x41, 0x46, 0x4F, 0x53, 0x46, 0x53, 0x30, 0x31]
  }

  /** The 32-bit word after that. */
  function VersionIn(h: Sector): nat {
    (h[8] as nat) + 0x100 * (h[9] as nat) + 0x1_0000 * (h[10] as nat) + 0x100_0000 * (h[11] as nat)
  }

  lemma VersionWord(h: Sector)
    ensures FromLe(h[8..12]) == VersionIn(h)
  {
    FromLeUnfolds(h, 8, 12);
    FromLeUnfolds(h, 9, 12);
    FromLeUnfolds(h, 10, 12);
    FromLeUnfolds(h, 11, 12);
  }

  lemma FromLeUnfolds(h: Sector, i: nat, j: nat)
    requires i < j <= BLOCK_SIZE
    ensures FromLe(h[i..j]) == (h[i] as nat) + 256 * FromLe(h[i + 1..j])
    ensures FromLe(h[j..j]) == 0
  {
    assert h[i..j][1..] == h[i + 1..j];
  }

  /** What a header is, told from its bytes. */
  lemma HeaderKinds(h: Sector)
    ensures match ParseHeader(h)
            case Absent => !HasMagic(h)
            case Foreign(version) => HasMagic(h) && VersionIn(h) == version != 1
            case Present(generation, length, sum) =>
              && HasMagic(h) && VersionIn(h) == 1
              && ToLe(generation, 8) == h[16..24] && ToLe(length, 8) == h[24..32] && ToLe(sum, 8) == h[32..40]
  {
    hide ToLe, FromLe;
    VersionWord(h);
    LeBack(h[16..24]);
    LeBack(h[24..32]);
    LeBack(h[32..40]);
    assert h[..8][0] == h[0] && h[0] in h;
  }

  lemma HeaderForRoundTrip(generation: nat, payload: seq<Byte>)
    requires generation <= U64_MAX && |payload| <= U64_MAX
    ensures ParseHeader(HeaderFor(generation, payload)) == Present(generation, |payload|, Fnv(payload))
  {
    FnvBound(FNV_OFFSET, payload);
    HeaderRoundTrip(generation, |payload|, Fnv(payload));
  }

  /* ----- Slots ----- */

  datatype Snapshot = Snapshot(generation: nat, tree: FileTree)

  /** An image with room for two slots of n blocks. */
  predicate Fits(image: seq<Sector>, n: nat) {
    2 <= n && 2 * n <= |image|
  }

  function SlotStart(slot: Slot, n: nat): nat {
    if slot == 0 then 0 else n
  }

  predicate InSlot(i: nat, slot: Slot, n: nat) {
    SlotStart(slot, n) <= i < SlotStart(slot, n) + n
  }

  function ReadSlot(image: seq<Sector>, slot: Slot, n: nat): Result<Option<Snapshot>, StorageError>
    requires Fits(image, n)
  {
    match ParseHeader(image[SlotStart(slot, n)])
    case Absent => Ok(None)
    case Foreign(version) => Err(UnsupportedVersion(version))
    case Present(generation, length, sum) =>
      if BlocksFor(length) > n - 1 then Ok(None)
      else
        var payload := BytesAt(image, SlotStart(slot, n) + 1, length);
        if Fnv(payload) != sum then Ok(None)
        else
          match TreeOf(payload)
          case None => Err(CorruptSnapshot)
          case Some(tree) => Ok(Some(Snapshot(generation, tree)))
  }

  /** What `open` puts in the store: the selected slot, its generation and its tree. */
  datatype Mounted = Mounted(active: Option<Slot>, generation: nat, tree: Option<FileTree>)

  const NOTHING_MOUNTED := Mounted(None, 0, None)

  function MountSlot(slot: Slot, s: Snapshot): Mounted {
    Mounted(Some(slot), s.generation, Some(s.tree))
  }

  function Select(first: Option<Snapshot>, second: Option<Snapshot>): Mounted {
    match (first, second)
    case (Some(left), Some(right)) =>
      if right.generation > left.generation then MountSlot(1, right) else MountSlot(0, left)
    case (Some(left), None) => MountSlot(0, left)
    case (None, Some(right)) => MountSlot(1, right)
    case (None, None) => NOTHING_MOUNTED
  }

  function Recover(image: seq<Sector>, n: nat): Result<Mounted, StorageError>
    requires Fits(image, n)
  {
    var first :- ReadSlot(image, 0, n);
    var second :- ReadSlot(image, 1, n);
    Ok(Select(first, second))
  }

  lemma RecoveredGeneration(image: seq<Sector>, n: nat)
    requires Fits(image, n) && Recover(image, n).Ok?
    ensures Recover(image, n).value.generation <= U64_MAX
  {
    hide TreeOf, Fnv, FromLe, BytesAt;
    CapacityOfWords();
    FromLeBound(image[0][16..24]);
    FromLeBound(image[n][16..24]);
  }

  /** The slot's payload matches its header's checksum without being any tree's encoding. */
  predicate Collides(image: seq<Sector>, slot: Slot, n: nat)
    requires Fits(image, n)
  {
    var header := ParseHeader(image[SlotStart(slot, n)]);
    && header.Present?
    && BlocksFor(header.length) <= n - 1
    && var payload := BytesAt(image, SlotStart(slot, n) + 1, header.length);
       Fnv(payload) == header.sum && TreeOf(payload).None?
  }

  /** The slot's header is of a format version other than 1. */
  predicate OtherVersion(image: seq<Sector>, slot: Slot, n: nat)
    requires Fits(image, n)
  {
    var h := if slot == 0 then image[0] else image[n];
    HasMagic(h) && VersionIn(h) != 1
  }

  /** Reading a slot fails exactly when its header is of another version or its payload collides. */
  lemma SlotFailsIff(image: seq<Sector>, slot: Slot, n: nat)
    requires Fits(image, n)
    ensures ReadSlot(image, slot, n).Err? <==> OtherVersion(image, slot, n) || Collides(image, slot, n)
    ensures OtherVersion(image, slot, n) ==>
              ReadSlot(image, slot, n) == Err(UnsupportedVersion(VersionIn(if slot == 0 then image[0] else image[n])))
    ensures Collides(image, slot, n) ==> ReadSlot(image, slot, n) == Err(CorruptSnapshot)
  {
    hide ParseHeader, HasMagic, TreeOf, Fnv, BytesAt, ToLe, FromLe;
    HeaderKinds(image[SlotStart(slot, n)]);
  }

  /** `open` fails exactly when one of the slots does, and reports the first that does. */
  lemma RecoverFailsIff(image: seq<Sector>, n: nat)
    requires Fits(image, n)
    ensures Recover(image, n).Err? <==>
            || OtherVersion(image, 0, n) || Collides(image, 0, n)
            || OtherVersion(image, 1, n) || Collides(image, 1, n)
    ensures OtherVersion(image, 0, n) ==> Recover(image, n) == Err(UnsupportedVersion(VersionIn(image[0])))
    ensures Collides(image, 0, n) ==> Recover(image, n) == Err(CorruptSnapshot)
    ensures !OtherVersion(image, 0, n) && !Collides(image, 0, n) ==>
              && (OtherVersion(image, 1, n) ==> Recover(image, n) == Err(UnsupportedVersion(VersionIn(image[n]))))
              && (Collides(image, 1, n) ==> Recover(image, n) == Err(CorruptSnapshot))
  {
    hide ReadSlot, OtherVersion, Collides, VersionIn;
    SlotFailsIff(image, 0, n);
    SlotFailsIff(image, 1, n);
  }

  /** A slot that can be read holds a snapshot exactly when its payload fits and has the header's checksum. */
  lemma SlotHoldsIff(image: seq<Sector>, slot: Slot, n: nat)
    requires Fits(image, n) && ReadSlot(image, slot, n).Ok?
    ensures var header := ParseHeader(if slot == 0 then image[0] else image[n]);
            match ReadSlot(image, slot, n).value
            case None =>
              header.Present? && header.length <= 512 * (n - 1) ==>
                BlocksFor(header.length) < n
                && Fnv(BytesAt(image, if slot == 0 then 1 else n + 1, header.length)) != header.sum
            case Some(s) =>
              && header.Present? && header.length <= 512 * (n - 1) && s.generation == header.generation
              && BlocksFor(header.length) < n
              && var payload := BytesAt(image, if slot == 0 then 1 else n + 1, header.length);
                 Fnv(payload) == header.sum && TreeOf(payload) == Some(s.tree)
  {
    hide ParseHeader, TreeOf, Fnv, BytesAt;
  }

  /** Reading a slot depends on that slot's sectors alone. */
  lemma ReadSlotLocal(a: seq<Sector>, b: seq<Sector>, slot: Slot, n: nat)
    requires Fits(a, n) && Fits(b, n)
    requires forall i | 0 <= i < 2 * n && InSlot(i, slot, n) :: a[i] == b[i]
    ensures ReadSlot(a, slot, n) == ReadSlot(b, slot, n)
  {
    hide ParseHeader, TreeOf, Fnv;
    var start := SlotStart(slot, n);
    assert InSlot(start, slot, n);
    var header := ParseHeader(a[start]);
    if header.Present? && BlocksFor(header.length) <= n - 1 {
      forall i | start + 1 <= i < start + 1 + BlocksFor(header.length) ensures a[i] == b[i] {
        assert InSlot(i, slot, n);
      }
      BytesAtAgree(a, b, start + 1, header.length);
    }
  }

  /** A slot that holds a payload and its header reads as that payload's tree. */
  lemma ReadWrittenSlot(image: seq<Sector>, slot: Slot, n: nat, generation: nat, payload: seq<Byte>, tree: FileTree)
    requires Fits(image, n)
    requires generation <= U64_MAX && |payload| <= U64_MAX && BlocksFor(|payload|) <= n - 1
    requires TreeOf(payload) == Some(tree)
    requires image[SlotStart(slot, n)] == HeaderFor(generation, payload)
    requires LaidOut(image, SlotStart(slot, n) + 1, payload)
    ensures ReadSlot(image, slot, n) == Ok(Some(Snapshot(generation, tree)))
  {
    hide ParseHeader, TreeOf, Fnv, HeaderFor, LaidOut;
    HeaderForRoundTrip(generation, payload);
    BlocksRoundTrip(image, SlotStart(slot, n) + 1, payload);
  }

  /**
   * Changing any one payload byte of the newer slot makes `open` select the older one,
   * whatever the byte becomes.
   */
  lemma OneByteDamage(
    image: seq<Sector>, damaged: seq<Sector>, slot: Slot, n: nat,
    generation: nat, previous: Option<Snapshot>, payload: seq<Byte>, k: nat, b: Byte)
    requires Fits(image, n) && |damaged| == |image|
    requires generation <= U64_MAX && |payload| <= U64_MAX && BlocksFor(|payload|) <= n - 1
    requires image[SlotStart(slot, n)] == HeaderFor(generation, payload)
    requires BytesAt(image, SlotStart(slot, n) + 1, |payload|) == payload
    requires ReadSlot(image, 1 - slot, n) == Ok(previous)
    requires k < |payload| && b != payload[k]
    requires damaged == image[SlotStart(slot, n) + 1 + k / BLOCK_SIZE :=
                                image[SlotStart(slot, n) + 1 + k / BLOCK_SIZE][k % BLOCK_SIZE := b]]
    ensures Recover(damaged, n) == Ok(if previous.Some? then MountSlot(1 - slot, previous.value) else NOTHING_MOUNTED)
  {
    hide ParseHeader, TreeOf, Fnv, HeaderFor;
    var first := SlotStart(slot, n) + 1;
    HeaderForRoundTrip(generation, payload);
    DamagedBytes(image, damaged, first, payload, k, b);
    OneByteChangesFnv(payload, k, b);
    assert ReadSlot(damaged, slot, n) == Ok(None);
    BlockIndex(k, |payload|);
    ReadSlotLocal(image, damaged, 1 - slot, n);
  }

  lemma DamagedBytes(image: seq<Sector>, damaged: seq<Sector>, first: nat, payload: seq<Byte>, k: nat, b: Byte)
    requires first + BlocksFor(|payload|) <= |image| == |damaged|
    requires BytesAt(image, first, |payload|) == payload
    requires k < |payload| && k / BLOCK_SIZE < BlocksFor(|payload|)
    requires damaged == image[first + k / BLOCK_SIZE := image[first + k / BLOCK_SIZE][k % BLOCK_SIZE := b]]
    ensures BytesAt(damaged, first, |payload|) == payload[k := b]
  {
    forall j | 0 <= j < |payload|
      ensures BytesAt(damaged, first, |payload|)[j] == payload[k := b][j]
    {
      BlockIndex(j, |payload|);
      BlockIndex(k, |payload|);
      assert BytesAt(image, first, |payload|)[j] == payload[j];
    }
  }
}
