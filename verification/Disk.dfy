/** A block device with a volatile write-back cache. */
module Disk {
  import opened Words

  const BLOCK_SIZE: nat := 512

  type Sector = s: seq<Byte> | |s| == BLOCK_SIZE witness seq(BLOCK_SIZE, _ => 0)

  const ZERO_SECTOR: Sector := seq(BLOCK_SIZE, _ => 0)

  /**
   * `current[i]` is what a read of sector i returns; `possible[i]` holds every content that sector i may have
   * after a power loss: what was there at the last flush and everything written since.
   */
  datatype Disk = Disk(current: seq<Sector>, possible: seq<set<Sector>>) {
    ghost predicate Valid() {
      && |current| == |possible|
      && forall i | 0 <= i < |current| :: current[i] in possible[i]
    }

    /** No write to sector i is outstanding. */
    ghost predicate Settled(i: nat)
      requires Valid() && i < |current|
    {
      possible[i] == {current[i]}
    }
  }

  /** The disk that holds the image with nothing in the cache. */
  function Stable(image: seq<Sector>): (d: Disk)
    ensures d.Valid() && d.current == image
    ensures forall i | 0 <= i < |image| :: d.Settled(i)
  {
    Disk(image, seq(|image|, i requires 0 <= i < |image| => {image[i]}))
  }

  /** What a power loss may leave: each sector keeps the flushed content or any one of the later writes. */
  ghost predicate CrashImage(d: Disk, image: seq<Sector>)
    requires d.Valid()
  {
    |image| == |d.current| && forall i | 0 <= i < |image| :: image[i] in d.possible[i]
  }

  /** Sector i is as it was. */
  ghost predicate Untouched(d: Disk, d': Disk, i: nat)
    requires d.Valid() && d'.Valid() && |d.current| == |d'.current| && i < |d.current|
  {
    d'.current[i] == d.current[i] && d'.possible[i] == d.possible[i]
  }

  /** Sector i now reads as b, and may or may not have reached the medium. */
  ghost predicate Overwritten(d: Disk, d': Disk, i: nat, b: Sector)
    requires d.Valid() && d'.Valid() && |d.current| == |d'.current| && i < |d.current|
  {
    d'.current[i] == b && d'.possible[i] == d.possible[i] + {b}
  }

  /** What a write of some blocks, which may fail, does to sector i. */
  ghost predicate WriteAt(d: Disk, first: nat, blocks: seq<Sector>, d': Disk, ok: bool, i: nat)
    requires d.Valid() && d'.Valid() && |d.current| == |d'.current| && i < |d.current|
  {
    if first <= i < first + |blocks|
    then Overwritten(d, d', i, blocks[i - first]) || (!ok && Untouched(d, d', i))
    else Untouched(d, d', i)
  }

  /** A write of some blocks; one that fails has overwritten any of them. */
  ghost predicate WriteStep(d: Disk, first: nat, blocks: seq<Sector>, d': Disk, ok: bool)
    requires d.Valid() && first + |blocks| <= |d.current|
  {
    && d'.Valid() && |d'.current| == |d.current|
    && forall i | 0 <= i < |d.current| :: WriteAt(d, first, blocks, d', ok, i)
  }

  /** A flush; one that fails has settled any of the sectors. */
  ghost predicate FlushStep(d: Disk, d': Disk, ok: bool)
    requires d.Valid()
  {
    && d'.Valid() && d'.current == d.current
    && (forall i | 0 <= i < |d.current| :: d'.Settled(i) || (!ok && Untouched(d, d', i)))
  }

  function Interval(first: nat, count: nat): (r: set<nat>)
    ensures forall i :: i in r <==> first <= i < first + count
    decreases count
  {
    if count == 0 then {} else {first} + Interval(first + 1, count - 1)
  }

  predicate InRange(i: nat, first: nat, count: nat, reached: set<nat>) {
    first <= i < first + count && i in reached
  }

  /** The effect of a write that got as far as the sectors in `reached`. */
  function WriteReaching(d: Disk, first: nat, blocks: seq<Sector>, reached: set<nat>): Disk
    requires |d.current| == |d.possible|
  {
    Disk(seq(|d.current|, i requires 0 <= i < |d.current| =>
           if InRange(i, first, |blocks|, reached) then blocks[i - first] else d.current[i]),
         seq(|d.current|, i requires 0 <= i < |d.current| =>
           if InRange(i, first, |blocks|, reached) then d.possible[i] + {blocks[i - first]} else d.possible[i]))
  }

  /** The effect of a flush that got as far as the sectors in `reached`. */
  function FlushReaching(d: Disk, reached: set<nat>): Disk
    requires |d.current| == |d.possible|
  {
    d.(possible := seq(|d.current|, i requires 0 <= i < |d.current| =>
         if i in reached then {d.current[i]} else d.possible[i]))
  }

  lemma WriteReachingIsStep(d: Disk, first: nat, blocks: seq<Sector>, reached: set<nat>, ok: bool)
    requires d.Valid() && first + |blocks| <= |d.current|
    requires ok ==> forall i | first <= i < first + |blocks| :: i in reached
    ensures WriteStep(d, first, blocks, WriteReaching(d, first, blocks, reached), ok)
  {
    var d' := WriteReaching(d, first, blocks, reached);
    forall i | 0 <= i < |d.current| ensures WriteAt(d, first, blocks, d', ok, i) {
    }
  }

  lemma FlushReachingIsStep(d: Disk, reached: set<nat>, ok: bool)
    requires d.Valid()
    requires ok ==> forall i | 0 <= i < |d.current| :: i in reached
    ensures FlushStep(d, FlushReaching(d, reached), ok)
  {
  }

  /* ----- Byte strings laid out over sectors ----- */

  function BlocksFor(length: nat): nat {
    (length + BLOCK_SIZE - 1) / BLOCK_SIZE
  }

  /** Bytes need no more than k blocks exactly when there are at most 512 for each. */
  lemma BlocksForIff(length: nat, k: nat)
    ensures BlocksFor(length) <= k <==> length <= 512 * k
  {
  }

  /** The i-th block of the bytes, padded with zeros. */
  function BlockOf(bytes: seq<Byte>, i: nat): Sector {
    seq(BLOCK_SIZE, j requires 0 <= j < BLOCK_SIZE =>
      if BLOCK_SIZE * i + j < |bytes| then bytes[BLOCK_SIZE * i + j] else 0)
  }

  function ToBlocks(bytes: seq<Byte>): (r: seq<Sector>)
    ensures |r| == BlocksFor(|bytes|)
  {
    seq(BlocksFor(|bytes|), i requires 0 <= i < BlocksFor(|bytes|) => BlockOf(bytes, i))
  }

  lemma BlockIndex(k: nat, length: nat)
    requires k < length
    ensures k / BLOCK_SIZE < BlocksFor(length)
    ensures BLOCK_SIZE * (k / BLOCK_SIZE) + k % BLOCK_SIZE == k
  {
  }

  /** The bytes that start at a sector. */
  function BytesAt(image: seq<Sector>, first: nat, length: nat): (r: seq<Byte>)
    requires first + BlocksFor(length) <= |image|
    ensures |r| == length
  {
    seq(length, k requires 0 <= k < length =>
      BlockIndex(k, length);
      image[first + k / BLOCK_SIZE][k % BLOCK_SIZE])
  }

  /** The bytes are laid out from a sector on. */
  predicate LaidOut(image: seq<Sector>, first: nat, bytes: seq<Byte>)
    requires first + BlocksFor(|bytes|) <= |image|
  {
    forall j | first <= j < first + BlocksFor(|bytes|) :: image[j] == ToBlocks(bytes)[j - first]
  }

  /** Reading back what was laid out gives the same bytes. */
  lemma BlocksRoundTrip(image: seq<Sector>, first: nat, bytes: seq<Byte>)
    requires first + BlocksFor(|bytes|) <= |image|
    requires LaidOut(image, first, bytes)
    ensures BytesAt(image, first, |bytes|) == bytes
  {
    forall k | 0 <= k < |bytes| ensures BytesAt(image, first, |bytes|)[k] == bytes[k] {
      BlockIndex(k, |bytes|);
      assert image[first + k / BLOCK_SIZE] == ToBlocks(bytes)[k / BLOCK_SIZE];
    }
  }

  lemma BytesAtAgree(a: seq<Sector>, b: seq<Sector>, first: nat, length: nat)
    requires first + BlocksFor(length) <= |a| && first + BlocksFor(length) <= |b|
    requires forall i | first <= i < first + BlocksFor(length) :: a[i] == b[i]
    ensures BytesAt(a, first, length) == BytesAt(b, first, length)
  {
    forall k | 0 <= k < length ensures BytesAt(a, first, length)[k] == BytesAt(b, first, length)[k] {
      BlockIndex(k, length);
    }
  }
}
