/** The snapshot store: `open` and `save` over a device whose calls may fail. */
module Store {
  import opened Wrappers
  import opened Words
  import opened Codec
  import opened Disk
  import opened Snapshot
  import opened Protocol
  import Resave

  /** A read either returns the sectors asked for or fails. */
  method ReadBlocks(disk: Disk, first: nat, count: nat, reliable: bool) returns (r: Result<seq<Sector>, StorageError>)
    requires first + count <= |disk.current|
    ensures r.Ok? ==> r.value == disk.current[first..first + count]
    ensures r.Err? ==> r.error == Device && !reliable
  {
    var fails: bool := *;
    if fails && !reliable {
      return Err(Device);
    }
    return Ok(disk.current[first..first + count]);
  }

  method ReadSlotFrom(disk: Disk, slot: Slot, n: nat, reliable: bool)
    returns (r: Result<Option<Snapshot>, StorageError>)
    requires Fits(disk.current, n)
    ensures r == ReadSlot(disk.current, slot, n) || (r == Err(Device) && !reliable)
  {
    hide ParseHeader, TreeOf, Fnv;
    var start := SlotStart(slot, n);
    var header :- ReadBlocks(disk, start, 1, reliable);
    match ParseHeader(header[0]) {
      case Absent =>
        return Ok(None);
      case Foreign(version) =>
        return Err(UnsupportedVersion(version));
      case Present(generation, length, sum) =>
        var count := BlocksFor(length);
        if count > n - 1 {
          return Ok(None);
        }
        var padded :- ReadBlocks(disk, start + 1, count, reliable);
        var payload := BytesAt(padded, 0, length);
        BytesAtShift(disk.current, start + 1, padded, length);
        var actual := Checksum(payload);
        if actual != sum {
          return Ok(None);
        }
        var tree := ReadTree(payload);
        if tree.Err? {
          return Err(tree.error);
        }
        return Ok(Some(Snapshot(generation, tree.value)));
    }
  }

  /** Opens a device: the store and the tree that the newer readable slot holds. */
  method Open(disk: Disk, reliable: bool) returns (r: Result<SnapshotStore, StorageError>, tree: Option<FileTree>)
    requires disk.Valid()
    ensures r.Ok? ==>
              && var n := |disk.current| / 2;
              && 2 <= n && Recover(disk.current, n).Ok?
              && fresh(r.value) && r.value.Valid() && r.value.reliable == reliable
              && r.value.View() == MountedOn(disk, n, Recover(disk.current, n).value)
              && r.value.states == [r.value.View()]
              && tree == Recover(disk.current, n).value.tree
    ensures r.Err? ==>
              var n := |disk.current| / 2;
              if n < 2 then r.error == DeviceTooSmall
              else Recover(disk.current, n) == Err(r.error) || (r.error == Device && !reliable)
  {
    hide ReadSlot;
    tree := None;
    var n := |disk.current| / 2;
    if n < 2 {
      return Err(DeviceTooSmall), tree;
    }
    var first := ReadSlotFrom(disk, 0, n, reliable);
    if first.Err? {
      return Err(first.error), tree;
    }
    var second := ReadSlotFrom(disk, 1, n, reliable);
    if second.Err? {
      return Err(second.error), tree;
    }
    var mounted := Select(first.value, second.value);
    RecoveredGeneration(disk.current, n);
    var store := new SnapshotStore(disk, n, mounted, reliable);
    return Ok(store), mounted.tree;
  }

  /** Opening a device whose two headers are all zeros, or belong to something else, starts the protocol blank. */
  lemma OpensBlankIff(image: seq<Sector>, n: nat)
    requires Fits(image, n) && Recover(image, n).Ok?
    ensures Blank(MountedOn(Stable(image), n, Recover(image, n).value)) <==>
            ParseHeader(image[0]).Absent? && ParseHeader(image[n]).Absent?
    ensures image[0] == ZERO_SECTOR == image[n] ==>
              Blank(MountedOn(Stable(image), n, Recover(image, n).value)) && Recover(image, n) == Ok(NOTHING_MOUNTED)
  {
    hide TreeOf, Fnv, FromLe, BytesAt, MAGIC;
  }

  lemma BytesAtShift(image: seq<Sector>, first: nat, part: seq<Sector>, length: nat)
    requires first + BlocksFor(length) <= |image|
    requires part == image[first..first + BlocksFor(length)]
    ensures BytesAt(part, 0, length) == BytesAt(image, first, length)
  {
    forall k | 0 <= k < length ensures BytesAt(part, 0, length)[k] == BytesAt(image, first, length)[k] {
      BlockIndex(k, length);
    }
  }

  class SnapshotStore {
    var disk: Disk
    const slotBlocks: nat
    var activeSlot: Option<Slot>
    var generation: nat
    const reliable: bool // no call of this device ever fails
    var trail: seq<Disk> // what the device held after each call since it was opened

    ghost var phase: Phase
    ghost var committed: Option<FileTree>
    ghost var attempts: set<seq<Byte>>
    ghost var states: seq<Machine>
    ghost var events: seq<Event>

    ghost function View(): Machine
      reads this
    {
      Machine(disk, slotBlocks, activeSlot, generation, phase, committed, attempts)
    }

    /** The trail is that of the states. */
    ghost predicate Traced(past: seq<Machine>)
      reads this
    {
      |past| <= |trail| && forall i | 0 <= i < |past| :: trail[i] == past[i].disk
    }

    /** The store is in the last state of a run that began when it was opened. */
    ghost predicate Recorded()
      reads this
    {
      && View().Shaped()
      && Run(states, events)
      && states[|events|] == View()
      && |trail| == |states| && Traced(states)
      && (forall e <- events :: !e.Recovers() && (reliable ==> e.Clean()))
    }

    ghost predicate Valid()
      reads this
    {
      Recorded() && phase.Idle?
    }

    constructor (disk: Disk, n: nat, mounted: Mounted, reliable: bool)
      requires disk.Valid() && Fits(disk.current, n) && mounted.generation <= U64_MAX
      ensures Valid() && this.reliable == reliable
      ensures View() == MountedOn(disk, n, mounted) && states == [View()]
    {
      this.disk := disk;
      this.slotBlocks := n;
      this.activeSlot := mounted.active;
      this.generation := mounted.generation;
      this.reliable := reliable;
      this.phase := Idle;
      this.committed := mounted.tree;
      this.attempts := {};
      this.trail := [disk];
      this.states := [MountedOn(disk, n, mounted)];
      this.events := [];
    }

    /** Records the device call that led from the last state to the present one. */
    ghost method Record(e: Event)
      requires View().Shaped() && Run(states, events)
      requires |trail| == |states| + 1 && Traced(states) && trail[|states|] == disk
      requires forall e <- events :: !e.Recovers() && (reliable ==> e.Clean())
      requires Next(states[|events|], e, View()) && !e.Recovers() && (reliable ==> e.Clean())
      modifies this`states, this`events
      ensures Recorded()
      ensures states == old(states) + [View()] && events == old(events) + [e]
    {
      hide Next, Inv, Faultless;
      states := states + [View()];
      events := events + [e];
      assert forall i | 0 <= i < |events| - 1 :: Next(states[i], events[i], states[i + 1]) by {
        forall i | 0 <= i < |events| - 1 ensures Next(states[i], events[i], states[i + 1]) {
          assert states[i] == old(states)[i] && states[i + 1] == old(states)[i + 1];
        }
      }
    }

    /* ----- Device calls ----- */

    method WriteBlocks(first: nat, blocks: seq<Sector>) returns (ok: bool)
      requires disk.Valid() && first + |blocks| <= |disk.current|
      modifies this`disk, this`trail
      ensures WriteStep(old(disk), first, blocks, disk, ok) && trail == old(trail) + [disk]
      ensures reliable ==> ok
    {
      var fails: bool, reached: set<nat> := *, *;
      ok := reliable || !fails;
      if ok {
        reached := Interval(first, |blocks|);
      }
      WriteReachingIsStep(disk, first, blocks, reached, ok);
      disk := WriteReaching(disk, first, blocks, reached);
      trail := trail + [disk];
    }

    method Flush() returns (ok: bool)
      requires disk.Valid()
      modifies this`disk, this`trail
      ensures FlushStep(old(disk), disk, ok) && trail == old(trail) + [disk]
      ensures reliable ==> ok
    {
      var fails: bool, reached: set<nat> := *, *;
      ok := reliable || !fails;
      if ok {
        reached := Interval(0, |disk.current|);
      }
      FlushReachingIsStep(disk, reached, ok);
      disk := FlushReaching(disk, reached);
      trail := trail + [disk];
    }

    /* ----- Saving ----- */

    method PutPayload(tree: FileTree, payload: seq<Byte>, start: nat) returns (ok: bool)
      requires Valid() && start == View().Start()
      requires !TooLarge(tree, slotBlocks) && EncodeTree(tree) == Ok(payload)
      modifies this
      ensures Recorded() && (reliable ==> ok)
      ensures View() == old(View()).(disk := disk, phase := if ok then Written(payload) else Idle)
      ensures states == old(states) + [View()] && events == old(events) + [WritePayload(tree, ok)]
    {
      hide Next, Inv, Faultless, TreeOf, EncodeTree, WriteStep, Run;
      ghost var before := View();
      ok := WriteBlocks(start + 1, ToBlocks(payload));
      phase := if ok then Written(payload) else Idle;
      PayloadWritten(before, tree, ok, View());
      Record(WritePayload(tree, ok));
    }

    method SettlePayload() returns (ok: bool)
      requires Recorded() && phase.Written?
      modifies this
      ensures Recorded() && (reliable ==> ok)
      ensures View() == old(View()).(disk := disk, phase := if ok then Durable(old(phase).payload) else Idle)
      ensures states == old(states) + [View()] && events == old(events) + [FlushPayload(ok)]
    {
      hide Next, Inv, Faultless, TreeOf, FlushStep, Run;
      ghost var before := View();
      ok := Flush();
      phase := if ok then Durable(phase.payload) else Idle;
      PayloadFlushed(before, ok, View());
      Record(FlushPayload(ok));
    }

    method PutHeader(payload: seq<Byte>, start: nat, nextGeneration: nat) returns (ok: bool)
      requires Recorded() && phase == Durable(payload)
      requires start == View().Start() && nextGeneration == View().NextGeneration()
      modifies this
      ensures Recorded() && (reliable ==> ok)
      ensures View() == old(View()).(disk := disk, phase := if ok then Headed(payload) else Idle,
                                     attempts := old(attempts) + {payload})
      ensures states == old(states) + [View()] && events == old(events) + [WriteHeader(ok)]
    {
      hide Next, Inv, Faultless, TreeOf, WriteStep, Run, EncodeHeader;
      ghost var before := View();
      var sum := Checksum(payload);
      ok := WriteBlocks(start, [EncodeHeader(nextGeneration, |payload|, sum)]);
      phase := if ok then Headed(payload) else Idle;
      attempts := attempts + {payload};
      HeaderWritten(before, ok, View());
      Record(WriteHeader(ok));
    }

    method SettleHeader(target: Slot, nextGeneration: nat) returns (ok: bool)
      requires Recorded() && phase.Headed?
      requires target == View().Target() && nextGeneration == View().NextGeneration()
      modifies this
      ensures Recorded() && (reliable ==> ok)
      ensures View() == if ok
                        then Machine(disk, slotBlocks, Some(target), nextGeneration, Idle,
                                     TreeOf(old(phase).payload), {})
                        else old(View()).(disk := disk, phase := Idle)
      ensures states == old(states) + [View()] && events == old(events) + [FlushHeader(ok)]
    {
      hide Next, Inv, Faultless, TreeOf, FlushStep, Run;
      ghost var before := View();
      ok := Flush();
      if ok {
        activeSlot := Some(target);
        generation := nextGeneration;
        committed := TreeOf(phase.payload);
        attempts := {};
      }
      phase := Idle;
      HeaderFlushed(before, ok, View());
      Record(FlushHeader(ok));
    }

    /** The first half of a save: the payload is written and flushed. */
    method StorePayload(tree: FileTree, payload: seq<Byte>, start: nat) returns (ok: bool)
      requires Valid() && start == View().Start()
      requires !TooLarge(tree, slotBlocks) && EncodeTree(tree) == Ok(payload)
      modifies this
      ensures Recorded() && (reliable ==> ok)
      ensures View() == old(View()).(disk := disk, phase := if ok then Durable(payload) else Idle)
      ensures old(states) < states && old(events) <= events
      ensures ok ==> events == old(events) + [WritePayload(tree, true), FlushPayload(true)]
      ensures forall i | |old(states)| <= i < |states| :: Between(states[i], old(View()), tree)
    {
      hide Next, Inv, Faultless, TreeOf, EncodeTree, Run, Traced, TooLarge;
      ok := PutPayload(tree, payload, start);
      if ok {
        ok := SettlePayload();
      }
    }

    /** The second half: the header that makes it count is written and flushed. */
    method StoreHeader(tree: FileTree, payload: seq<Byte>, target: Slot, start: nat, nextGeneration: nat)
      returns (ok: bool)
      requires Recorded() && phase == Durable(payload) && EncodeTree(tree) == Ok(payload)
      requires target == View().Target() && start == View().Start() && nextGeneration == View().NextGeneration()
      modifies this
      ensures Recorded() && phase.Idle? && (reliable ==> ok)
      ensures if ok
              then View() == Machine(disk, slotBlocks, Some(target), nextGeneration, Idle, TreeOf(payload), {})
              else View().AsMounted() == old(View()).AsMounted()
      ensures old(states) < states && old(events) <= events
      ensures ok ==> events == old(events) + [WriteHeader(true), FlushHeader(true)]
      ensures forall i | |old(states)| <= i < |states| - 1 :: Between(states[i], old(View()), tree)
    {
      hide Next, Inv, Faultless, TreeOf, EncodeTree, Run, Traced, TooLarge;
      ok := PutHeader(payload, start, nextGeneration);
      if ok {
        ok := SettleHeader(target, nextGeneration);
      }
    }

    /**
     * Replaces the saved tree. A tree that is too large causes no device call at all; a device failure leaves the
     * store as it was; success commits the tree.
     */
    method Save(tree: FileTree) returns (r: Result<(), StorageError>)
      requires Valid()
      modifies this
      ensures Valid()
      ensures old(states) <= states && old(events) <= events
      ensures r == Err(SnapshotTooLarge) <==> TooLarge(tree, slotBlocks)
      ensures TooLarge(tree, slotBlocks) ==> View() == old(View()) && states == old(states)
      ensures r.Ok? ==>
                View().AsMounted() == Mounted(Some(old(View()).Target()), old(View()).NextGeneration(), Some(tree))
      ensures r.Ok? ==> attempts == {} && events == old(events) + SaveEvents(tree)
      ensures r.Err? ==> View().AsMounted() == old(View()).AsMounted()
      ensures r.Err? && r.error != SnapshotTooLarge ==> r.error == Device && !reliable
      ensures forall i | |old(states)| <= i < |states| - 1 :: Between(states[i], old(View()), tree)
    {
      hide Next, Inv, Faultless, TreeOf, EncodeTree, Run, Traced;
      EncodedDecodes(tree);
      var payload :- WriteTree(tree);
      if BlocksFor(|payload|) > slotBlocks - 1 || |payload| > U64_MAX {
        return Err(SnapshotTooLarge);
      }
      var target := if activeSlot.None? then 0 else 1 - activeSlot.value;
      var start := SlotStart(target, slotBlocks);
      var nextGeneration := if generation < U64_MAX then generation + 1 else U64_MAX;

      var ok := StorePayload(tree, payload, start);
      if !ok {
        return Err(Device);
      }
      ok := StoreHeader(tree, payload, target, start, nextGeneration);
      if !ok {
        return Err(Device);
      }
      return Ok(());
    }
  }

  /** The tree's encoding does not fit the format or a slot. */
  ghost predicate TooLarge(tree: FileTree, n: nat) {
    EncodeTree(tree).Err? || BlocksFor(|EncodeTree(tree).value|) > n - 1 || |EncodeTree(tree).value| > U64_MAX
  }

  /** A state in the middle of saving `tree` over what `before` holds. */
  ghost predicate Between(m: Machine, before: Machine, tree: FileTree) {
    && m.n == before.n && m.AsMounted() == before.AsMounted()
    && (m.phase.Idle? || Ok(m.phase.payload) == EncodeTree(tree))
  }

  /**
   * At every moment of a save on a device that does not fail, a power loss leaves the tree from before or the tree
   * being saved, unless a torn payload collides with the stale checksum.
   */
  lemma SaveIsAtomic(
    states: seq<Machine>, events: seq<Event>, k: nat, before: Machine, tree: FileTree, image: seq<Sector>)
    requires Run(states, events) && Safe(states, events) && Inv(states[0]) && Faultless(states[0])
    requires forall e <- events :: e.Clean()
    requires k < |states| && forall i | 0 <= i <= k :: states[i].generation < U64_MAX
    requires Between(states[k], before, tree) && CrashImage(states[k].disk, image)
    ensures var r := Recover(image, before.n);
            && (r.Err? <==> Collides(image, before.Target(), before.n))
            && (r.Ok? ==> r.value.tree == before.committed || r.value.tree == Some(tree))
  {
    hide Inv, Faultless, Next, Recover, Collides, TreeOf, EncodeTree, CrashImage, SafelyReopens;
    RunKeepsInv(states[..k + 1], events[..k]);
    EncodedDecodes(tree);
    PowerLossExact(states[k], image);
  }

  /** After a save that succeeded, opening the device finds the tree that was saved. */
  lemma SavedReopens(states: seq<Machine>, events: seq<Event>)
    requires Run(states, events) && Safe(states, events) && Unsaturated(states) && Inv(states[0])
    requires events != [] && events[|events| - 1] == FlushHeader(true)
    ensures Inv(states[|events|]) && Reopens(states[|events|])
  {
    hide Inv, Next, Reopens, SafelyReopens;
    var k := |events| - 1;
    assert Run(states[..k + 1], events[..k]);
    RunKeepsInv(states[..k + 1], events[..k]);
    CommitReopens(states[k], states[k + 1]);
  }

  /**
   * What a successful save puts on the device: the payload behind the header of the slot that was not active, or of
   * slot 0 if none was, under the next generation; every other sector is as it was.
   */
  lemma SaveLays(ms: seq<Machine>, tree: FileTree)
    requires Run(ms, SaveEvents(tree))
    ensures var m, m' := ms[0], ms[4];
            && EncodeTree(tree).Ok?
            && var payload := EncodeTree(tree).value;
            && var start := if m.active == Some(0) then m.n else 0;
            && var generation := if m.generation < 0xffff_ffff_ffff_ffff then m.generation + 1 else m.generation;
            && start + 1 + BlocksFor(|payload|) <= start + m.n <= |m.disk.current| == |m'.disk.current|
            && m'.disk.current[start] == EncodeHeader(generation, |payload|, Fnv(payload))
            && (forall k | 0 <= k < |payload| ::
                  k / 512 < m.n - 1 && m'.disk.current[start + 1 + k / 512][k % 512] == payload[k])
            && (forall i | 0 <= i < |m.disk.current| && !(start <= i < start + 1 + BlocksFor(|payload|)) ::
                  m'.disk.current[i] == m.disk.current[i])
            && m'.active == Some(if m.active == Some(0) then 1 else 0) && m'.generation == generation
            && m'.committed == Some(tree)
            && (forall i | 0 <= i < |m'.disk.current| :: m'.disk.Settled(i))
  {
    hide EncodeTree, TreeOf, EncodeHeader, Fnv, Next, BytesAt;
    SaveSectors(ms, tree);
    var payload := EncodeTree(tree).value;
    forall k | 0 <= k < |payload|
      ensures k / 512 < ms[0].n - 1 && ms[4].disk.current[ms[0].Start() + 1 + k / 512][k % 512] == payload[k]
    {
      BlockIndex(k, |payload|);
      assert ms[4].disk.current[ms[0].Start() + 1 + k / 512] == ToBlocks(payload)[k / 512];
    }
  }

  lemma SaveSectors(ms: seq<Machine>, tree: FileTree)
    requires Run(ms, SaveEvents(tree))
    ensures var m, m' := ms[0], ms[4];
            && EncodeTree(tree).Ok?
            && var start, payload := m.Start(), EncodeTree(tree).value;
            && |m'.disk.current| == |m.disk.current| && start + 1 + BlocksFor(|payload|) <= start + m.n
            && m'.active == Some(m.Target()) && m'.generation == m.NextGeneration() && m'.committed == Some(tree)
            && (forall i | 0 <= i < |m.disk.current| ::
                  m'.disk.Settled(i) && m'.disk.current[i] ==
                  if i == start then HeaderFor(m.NextGeneration(), payload)
                  else if start < i < start + 1 + BlocksFor(|payload|) then ToBlocks(payload)[i - start - 1]
                  else m.disk.current[i])
  {
    hide EncodeTree, TreeOf, HeaderFor, ToBlocks;
    var m, es := ms[0], SaveEvents(tree);
    assert Next(ms[0], es[0], ms[1]) && Next(ms[1], es[1], ms[2]);
    assert Next(ms[2], es[2], ms[3]) && Next(ms[3], es[3], ms[4]);
    EncodedDecodes(tree);
    var start, payload := m.Start(), EncodeTree(tree).value;
    forall i | 0 <= i < |m.disk.current|
      ensures ms[4].disk.current[i] ==
              if i == start then HeaderFor(m.NextGeneration(), payload)
              else if start < i < start + 1 + BlocksFor(|payload|) then ToBlocks(payload)[i - start - 1]
              else m.disk.current[i]
    {
      assert WriteAt(m.disk, start + 1, ToBlocks(payload), ms[1].disk, true, i);
      assert WriteAt(ms[2].disk, start, [HeaderFor(m.NextGeneration(), payload)], ms[3].disk, true, i);
    }
  }

  /** A tree that was just opened is never too large to be saved again. */
  lemma OpenedFits(image: seq<Sector>, n: nat)
    requires Fits(image, n) && Recover(image, n).Ok? && Recover(image, n).value.tree.Some?
    ensures !TooLarge(Recover(image, n).value.tree.value, n)
  {
    hide ReadSlot, EncodeTree, TreeOf;
    var first, second := ReadSlot(image, 0, n).value, ReadSlot(image, 1, n).value;
    if first.Some? {
      SlotFits(image, 0, n);
    }
    if second.Some? {
      SlotFits(image, 1, n);
    }
  }

  lemma SlotFits(image: seq<Sector>, slot: Slot, n: nat)
    requires Fits(image, n) && ReadSlot(image, slot, n).Ok? && ReadSlot(image, slot, n).value.Some?
    ensures !TooLarge(ReadSlot(image, slot, n).value.value.tree, n)
  {
    hide EncodeTree, TreeOf, Fnv, FromLe;
    var start := SlotStart(slot, n);
    CapacityOfWords();
    FromLeBound(image[start][24..32]);
    var length := ParseHeader(image[start]).length;
    Resave.ResaveFits(BytesAt(image, start + 1, length));
  }

  /* ----- Each device call of `Save` is a step of the protocol ----- */

  lemma PayloadWritten(m: Machine, tree: FileTree, ok: bool, m': Machine)
    requires m.Shaped() && m.phase.Idle? && !TooLarge(tree, m.n)
    requires WriteStep(m.disk, m.Start() + 1, ToBlocks(EncodeTree(tree).value), m'.disk, ok)
    requires m' == m.(disk := m'.disk, phase := if ok then Written(EncodeTree(tree).value) else Idle)
    ensures Next(m, WritePayload(tree, ok), m') && m'.Shaped() && |m'.disk.current| == |m.disk.current|
  {
    hide EncodeTree;
  }

  lemma PayloadFlushed(m: Machine, ok: bool, m': Machine)
    requires m.Shaped() && m.phase.Written? && FlushStep(m.disk, m'.disk, ok)
    requires m' == m.(disk := m'.disk, phase := if ok then Durable(m.phase.payload) else Idle)
    ensures Next(m, FlushPayload(ok), m') && m'.Shaped() && |m'.disk.current| == |m.disk.current|
  {
  }

  lemma HeaderWritten(m: Machine, ok: bool, m': Machine)
    requires m.Shaped() && m.phase.Durable?
    requires WriteStep(m.disk, m.Start(),
                       [EncodeHeader(m.NextGeneration(), |m.phase.payload|, Fnv(m.phase.payload))], m'.disk, ok)
    requires m' == m.(disk := m'.disk, phase := if ok then Headed(m.phase.payload) else Idle,
                      attempts := m.attempts + {m.phase.payload})
    ensures Next(m, WriteHeader(ok), m') && m'.Shaped() && |m'.disk.current| == |m.disk.current|
  {
  }

  lemma HeaderFlushed(m: Machine, ok: bool, m': Machine)
    requires m.Shaped() && m.phase.Headed? && FlushStep(m.disk, m'.disk, ok)
    requires m' == if ok
                   then Machine(m'.disk, m.n, Some(m.Target()), m.NextGeneration(), Idle, TreeOf(m.phase.payload), {})
                   else m.(disk := m'.disk, phase := Idle)
    ensures Next(m, FlushHeader(ok), m') && m'.Shaped() && |m'.disk.current| == |m.disk.current|
  {
    hide TreeOf;
  }
}
