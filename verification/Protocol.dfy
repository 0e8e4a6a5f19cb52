/** The save protocol as a state machine over device calls, with power losses between any two of them. */
module Protocol {
  import opened Wrappers
  import opened Words
  import opened Codec
  import opened Disk
  import opened Snapshot

  /** How far the save in progress has come. */
  datatype Phase =
    | Idle
    | Written(payload: seq<Byte>)
    | Durable(payload: seq<Byte>)
    | Headed(payload: seq<Byte>)

  /**
   * The store, its disk, the tree that was last saved or recovered, and the payloads of failed or unfinished saves
   * whose header may have reached the target slot since.
   */
  datatype Machine = Machine(
    disk: Disk,
    n: nat,
    active: Option<Slot>,
    generation: nat,
    phase: Phase,
    committed: Option<FileTree>,
    attempts: set<seq<Byte>>)
  {
    function Target(): Slot {
      match active case None => 0 case Some(s) => 1 - s
    }

    function NextGeneration(): nat {
      if generation < U64_MAX then generation + 1 else U64_MAX
    }

    ghost predicate Shaped() {
      disk.Valid() && Fits(disk.current, n) && generation <= U64_MAX
    }

    function Start(): nat {
      SlotStart(Target(), n)
    }

    /** What the store would look like if it were opened on its own active slot. */
    function AsMounted(): Mounted {
      Mounted(active, generation, committed)
    }
  }

  /** A payload that decodes and fits a slot of n blocks. */
  ghost predicate Storable(payload: seq<Byte>, n: nat)
    requires 1 <= n
  {
    TreeOf(payload).Some? && |payload| <= U64_MAX && BlocksFor(|payload|) <= n - 1
  }

  /* ----- Steps ----- */

  datatype Event =
    | WritePayload(tree: FileTree, ok: bool)
    | FlushPayload(ok: bool)
    | WriteHeader(ok: bool)
    | FlushHeader(ok: bool)
    | PowerLoss(image: seq<Sector>)
    | Reopen(image: seq<Sector>)
  {
    predicate Clean() {
      Recovers() || ok
    }

    /** The store is opened anew: after a power loss, or after a reset that leaves the device its cache. */
    predicate Recovers() {
      PowerLoss? || Reopen?
    }
  }

  /** A failed device call ends the save and leaves the store's own fields alone. */
  ghost predicate Next(m: Machine, e: Event, m': Machine)
    requires m.Shaped()
  {
    match e
    case WritePayload(tree, ok) =>
      && m.phase.Idle? && EncodeTree(tree).Ok?
      && var payload := EncodeTree(tree).value;
      && BlocksFor(|payload|) <= m.n - 1 && |payload| <= U64_MAX
      && WriteStep(m.disk, m.Start() + 1, ToBlocks(payload), m'.disk, ok)
      && m' == m.(disk := m'.disk, phase := if ok then Written(payload) else Idle)
    case FlushPayload(ok) =>
      && m.phase.Written?
      && FlushStep(m.disk, m'.disk, ok)
      && m' == m.(disk := m'.disk, phase := if ok then Durable(m.phase.payload) else Idle)
    case WriteHeader(ok) =>
      && m.phase.Durable?
      && WriteStep(m.disk, m.Start(), [HeaderFor(m.NextGeneration(), m.phase.payload)], m'.disk, ok)
      && m' == m.(disk := m'.disk, phase := if ok then Headed(m.phase.payload) else Idle,
                  attempts := m.attempts + {m.phase.payload})
    case FlushHeader(ok) =>
      && m.phase.Headed?
      && FlushStep(m.disk, m'.disk, ok)
      && m' == if ok
               then Machine(m'.disk, m.n, Some(m.Target()), m.NextGeneration(), Idle, TreeOf(m.phase.payload), {})
               else m.(disk := m'.disk, phase := Idle)
    case PowerLoss(image) =>
      && CrashImage(m.disk, image)
      && Recover(image, m.n).Ok?
      && var mounted := Recover(image, m.n).value;
         m' == Machine(Stable(image), m.n, mounted.active, mounted.generation, Idle, mounted.tree,
                       if mounted.generation == m.generation then LiveAttempts(m, image) else {})
    case Reopen(image) =>
      && image == m.disk.current
      && Recover(image, m.n).Ok?
      && var mounted := Recover(image, m.n).value;
         m' == Machine(m.disk, m.n, mounted.active, mounted.generation, Idle, mounted.tree,
                       if mounted.generation == m.generation then m.attempts else {})
  }

  ghost predicate TargetSettled(m: Machine)
    requires m.Shaped()
  {
    forall i | 0 <= i < 2 * m.n && InSlot(i, m.Target(), m.n) :: m.disk.Settled(i)
  }

  /** A reset now mounts the same slot as before, or another one whose every sector has reached the medium. */
  ghost predicate SafelyReopens(m: Machine)
    requires m.Shaped()
  {
    var r := Recover(m.disk.current, m.n);
    r.Ok? && r.value.active != m.active ==> TargetSettled(m)
  }

  /** The attempts whose header is the one in the image. */
  ghost function LiveAttempts(m: Machine, image: seq<Sector>): set<seq<Byte>>
    requires Fits(image, m.n)
  {
    set p | p in m.attempts && image[m.Start()] == HeaderFor(m.NextGeneration(), p)
  }

  /** The device calls of a save that succeeds. */
  function SaveEvents(tree: FileTree): seq<Event> {
    [WritePayload(tree, true), FlushPayload(true), WriteHeader(true), FlushHeader(true)]
  }

  /** The state of a store that has just been opened. */
  function MountedOn(disk: Disk, n: nat, mounted: Mounted): Machine {
    Machine(disk, n, mounted.active, mounted.generation, Idle, mounted.tree, {})
  }

  /** A store opened on a device whose two headers have never been written. */
  ghost predicate Blank(m: Machine) {
    && Fits(m.disk.current, m.n)
    && m == Machine(Stable(m.disk.current), m.n, None, 0, Idle, None, {})
    && ParseHeader(m.disk.current[0]).Absent?
    && ParseHeader(m.disk.current[m.n]).Absent?
  }

  /* ----- The invariant ----- */

  ghost predicate ActiveHeld(m: Machine)
    requires m.Shaped()
  {
    match m.active
    case None =>
      m.generation == 0 && m.committed.None? && forall h <- m.disk.possible[m.n] :: ParseHeader(h).Absent?
    case Some(s) =>
      && m.committed.Some?
      && ReadSlot(m.disk.current, s, m.n) == Ok(Some(Snapshot(m.generation, m.committed.value)))
      && forall i | 0 <= i < 2 * m.n && InSlot(i, s, m.n) :: m.disk.Settled(i)
  }

  /** A header that cannot outrank the active slot, or that belongs to an attempt. */
  ghost predicate Fenced(m: Machine, h: Sector) {
    match ParseHeader(h)
    case Absent => true
    case Foreign(_) => false
    case Present(g, _, _) => g < m.generation || exists p <- m.attempts :: h == HeaderFor(m.generation + 1, p)
  }

  ghost predicate TargetFenced(m: Machine)
    requires m.Shaped()
  {
    && (forall h <- m.disk.possible[m.Start()] :: Fenced(m, h))
    && (forall p <- m.attempts :: Storable(p, m.n))
  }

  ghost predicate PayloadInPlace(m: Machine, payload: seq<Byte>)
    requires m.Shaped() && Storable(payload, m.n)
  {
    && LaidOut(m.disk.current, m.Start() + 1, payload)
    && forall j | m.Start() + 1 <= j < m.Start() + 1 + BlocksFor(|payload|) :: m.disk.Settled(j)
  }

  ghost predicate PhaseHeld(m: Machine)
    requires m.Shaped()
  {
    match m.phase
    case Idle => true
    case Written(p) => Storable(p, m.n) && LaidOut(m.disk.current, m.Start() + 1, p)
    case Durable(p) => Storable(p, m.n) && PayloadInPlace(m, p)
    case Headed(p) =>
      && Storable(p, m.n) && PayloadInPlace(m, p)
      && m.disk.current[m.Start()] == HeaderFor(m.NextGeneration(), p)
  }

  /** The active slot holds the committed tree and the other slot what the save in progress has written to it. */
  ghost predicate Held(m: Machine) {
    m.Shaped() && ActiveHeld(m) && PhaseHeld(m)
  }

  ghost predicate Inv(m: Machine) {
    Held(m) && TargetFenced(m)
  }

  /** No device call of an earlier save has failed since the last commit. */
  ghost predicate Faultless(m: Machine) {
    m.attempts == if m.phase.Headed? then {m.phase.payload} else {}
  }

  /* ----- What a power loss can leave ----- */

  lemma AbsentReads(image: seq<Sector>, slot: Slot, n: nat)
    requires Fits(image, n) && ParseHeader(image[SlotStart(slot, n)]).Absent?
    ensures ReadSlot(image, slot, n) == Ok(None)
  {
    hide ParseHeader;
  }

  lemma ActiveSurvives(m: Machine, image: seq<Sector>)
    requires m.Shaped() && ActiveHeld(m) && CrashImage(m.disk, image)
    ensures ReadSlot(image, 1 - m.Target(), m.n)
         == Ok(if m.active.Some? then Some(Snapshot(m.generation, m.committed.value)) else None)
  {
    hide ParseHeader, ReadSlot;
    if m.active.Some? {
      var s := m.active.value;
      forall i | 0 <= i < 2 * m.n && InSlot(i, s, m.n) ensures image[i] == m.disk.current[i] {
        assert m.disk.Settled(i) && image[i] in m.disk.possible[i];
      }
      ReadSlotLocal(image, m.disk.current, s, m.n);
    } else {
      assert image[m.n] in m.disk.possible[m.n];
      AbsentReads(image, 1, m.n);
    }
  }

  /** What the target slot can read as: an outranked snapshot, or one that passes for an attempt. */
  ghost predicate PassesFor(image: seq<Sector>, m: Machine, p: seq<Byte>)
    requires m.Shaped() && Fits(image, m.n)
  {
    && p in m.attempts && Storable(p, m.n)
    && image[m.Start()] == HeaderFor(m.generation + 1, p)
    && Fnv(BytesAt(image, m.Start() + 1, |p|)) == Fnv(p)
  }

  lemma TargetReads(m: Machine, image: seq<Sector>)
    requires Inv(m) && CrashImage(m.disk, image) && m.generation < U64_MAX
    ensures var r := ReadSlot(image, m.Target(), m.n);
            && (r.Err? <==> Collides(image, m.Target(), m.n))
            && (r.Err? ==> r.error == CorruptSnapshot)
            && (r.Ok? && r.value.Some? && r.value.value.generation >= m.generation ==>
                  && r.value.value.generation == m.generation + 1
                  && exists p <- m.attempts ::
                       && PassesFor(image, m, p)
                       && TreeOf(BytesAt(image, m.Start() + 1, |p|)) == Some(r.value.value.tree))
  {
    hide ActiveHeld, PhaseHeld, TreeOf, Fnv, HeaderFor;
    var h := image[m.Start()];
    assert h in m.disk.possible[m.Start()];
    assert Fenced(m, h);
    var header := ParseHeader(h);
    if header.Present? && header.generation >= m.generation {
      var p :| p in m.attempts && h == HeaderFor(m.generation + 1, p);
      HeaderForRoundTrip(m.generation + 1, p);
      var r := ReadSlot(image, m.Target(), m.n);
      if r.Ok? && r.value.Some? {
        assert PassesFor(image, m, p);
      }
    }
  }

  /**
   * After a power loss at any moment, `open` fails exactly on a checksum collision in the target slot, and otherwise
   * finds the last committed tree or one that matches an attempted save in length and checksum.
   */
  lemma PowerLossOutcome(m: Machine, image: seq<Sector>)
    requires Inv(m) && CrashImage(m.disk, image) && m.generation < U64_MAX
    ensures var r := Recover(image, m.n);
            && (r.Err? <==> Collides(image, m.Target(), m.n))
            && (r.Err? ==> r.error == CorruptSnapshot)
            && (r.Ok? ==>
                  || r.value == m.AsMounted()
                  || exists p <- m.attempts ::
                       && PassesFor(image, m, p)
                       && r.value == Mounted(Some(m.Target()), m.generation + 1,
                                             TreeOf(BytesAt(image, m.Start() + 1, |p|))))
  {
    hide Inv, Collides, ReadSlot, PassesFor, TreeOf, CrashImage;
    HeldOfInv(m);
    ShapedAndActive(m);
    ActiveSurvives(m, image);
    TargetReads(m, image);
  }

  lemma ShapedAndActive(m: Machine)
    requires Held(m)
    ensures m.Shaped() && ActiveHeld(m)
    ensures m.active.None? ==> m.generation == 0 && m.committed.None?
    ensures m.active.Some? ==> m.committed.Some?
  {
  }

  /**
   * When no device call has failed, the outcome is exact: the new tree if the new header is on the medium, and the
   * committed one otherwise.
   */
  lemma PowerLossExact(m: Machine, image: seq<Sector>)
    requires Inv(m) && Faultless(m) && CrashImage(m.disk, image) && m.generation < U64_MAX
    ensures var r := Recover(image, m.n);
            var replaced := m.phase.Headed? && image[m.Start()] == HeaderFor(m.generation + 1, m.phase.payload);
            && (r.Err? <==> Collides(image, m.Target(), m.n))
            && (replaced ==> r.Ok?)
            && (r.Ok? ==> r.value == if replaced
                                     then Mounted(Some(m.Target()), m.generation + 1, TreeOf(m.phase.payload))
                                     else m.AsMounted())
  {
    hide Inv, Collides, ReadSlot, PassesFor, TreeOf, HeaderFor, Storable;
    HeldOfInv(m);
    ShapedAndActive(m);
    PowerLossOutcome(m, image);
    if m.phase.Headed? && image[m.Start()] == HeaderFor(m.generation + 1, m.phase.payload) {
      ActiveSurvives(m, image);
      NewHeaderReads(m, image);
    } else {
      AttemptNeedsHeader(m, image);
    }
  }

  lemma AttemptNeedsHeader(m: Machine, image: seq<Sector>)
    requires m.Shaped() && Fits(image, m.n) && Faultless(m)
    requires !(m.phase.Headed? && image[m.Start()] == HeaderFor(m.generation + 1, m.phase.payload))
    ensures !exists p <- m.attempts :: PassesFor(image, m, p)
  {
    hide HeaderFor;
  }

  lemma NewHeaderReads(m: Machine, image: seq<Sector>)
    requires Inv(m) && m.phase.Headed? && CrashImage(m.disk, image) && m.generation < U64_MAX
    requires image[m.Start()] == HeaderFor(m.generation + 1, m.phase.payload)
    ensures TreeOf(m.phase.payload).Some?
    ensures ReadSlot(image, m.Target(), m.n)
         == Ok(Some(Snapshot(m.generation + 1, TreeOf(m.phase.payload).value)))
  {
    hide ActiveHeld, TargetFenced, TreeOf, HeaderFor, ReadSlot;
    var p := m.phase.payload;
    var first := m.Start() + 1;
    forall j | first <= j < first + BlocksFor(|p|) ensures image[j] == ToBlocks(p)[j - first] {
      assert m.disk.Settled(j);
      assert image[j] in m.disk.possible[j];
    }
    ReadWrittenSlot(image, m.Target(), m.n, m.generation + 1, p, TreeOf(p).value);
  }

  /* ----- The invariant is kept ----- */

  /** The device call leaves every sector of the active slot exactly as it was. */
  ghost predicate ActiveUntouched(m: Machine, m': Machine)
    requires m.Shaped() && m'.Shaped() && |m'.disk.current| == |m.disk.current|
  {
    match m.active
    case None => m'.disk.possible[m.n] <= m.disk.possible[m.n]
    case Some(s) => forall i | 0 <= i < 2 * m.n && InSlot(i, s, m.n) :: Untouched(m.disk, m'.disk, i)
  }

  lemma WriteMissesActive(m: Machine, first: nat, blocks: seq<Sector>, m': Machine, ok: bool)
    requires m.Shaped() && m'.Shaped()
    requires m.Start() <= first && first + |blocks| <= m.Start() + m.n
    requires WriteStep(m.disk, first, blocks, m'.disk, ok)
    ensures ActiveUntouched(m, m')
  {
    match m.active {
      case None =>
        assert WriteAt(m.disk, first, blocks, m'.disk, ok, m.n);
      case Some(s) =>
        forall i | 0 <= i < 2 * m.n && InSlot(i, s, m.n) ensures Untouched(m.disk, m'.disk, i) {
          assert WriteAt(m.disk, first, blocks, m'.disk, ok, i);
        }
    }
  }

  lemma FlushMissesActive(m: Machine, m': Machine, ok: bool)
    requires m.Shaped() && ActiveHeld(m) && m'.Shaped()
    requires FlushStep(m.disk, m'.disk, ok)
    ensures ActiveUntouched(m, m')
  {
    hide ReadSlot, ParseHeader;
    if m.active.None? {
      assert m'.disk.Settled(m.n) || Untouched(m.disk, m'.disk, m.n);
    } else {
      forall i | 0 <= i < 2 * m.n && InSlot(i, m.active.value, m.n) ensures Untouched(m.disk, m'.disk, i) {
        assert m.disk.Settled(i);
        assert m'.disk.Settled(i) || Untouched(m.disk, m'.disk, i);
      }
    }
  }

  lemma NextKeepsShape(m: Machine, e: Event, m': Machine)
    requires m.Shaped() && Next(m, e, m') && !e.Recovers()
    ensures m'.Shaped() && |m'.disk.current| == |m.disk.current|
  {
    hide ReadSlot, ParseHeader, TreeOf, HeaderFor, EncodeTree;
  }

  /** No device call of a save, successful or not, touches the active slot. */
  lemma SlotIsolation(m: Machine, e: Event, m': Machine)
    requires m.Shaped() && ActiveHeld(m) && Next(m, e, m') && !e.Recovers()
    ensures m'.Shaped() && |m'.disk.current| == |m.disk.current|
    ensures ActiveUntouched(m, m')
  {
    hide ReadSlot, ParseHeader, TreeOf, HeaderFor, EncodeTree, WriteStep, FlushStep, ActiveHeld, ActiveUntouched;
    NextKeepsShape(m, e, m');
    match e {
      case WritePayload(tree, ok) =>
        WriteMissesActive(m, m.Start() + 1, ToBlocks(EncodeTree(tree).value), m', ok);
      case FlushPayload(ok) => FlushMissesActive(m, m', ok);
      case WriteHeader(ok) =>
        WriteMissesActive(m, m.Start(), [HeaderFor(m.NextGeneration(), m.phase.payload)], m', ok);
      case FlushHeader(ok) => FlushMissesActive(m, m', ok);
    }
  }

  lemma ActiveKept(m: Machine, m': Machine)
    requires m.Shaped() && ActiveHeld(m) && m'.Shaped() && |m'.disk.current| == |m.disk.current|
    requires m'.n == m.n && m'.active == m.active && m'.generation == m.generation && m'.committed == m.committed
    requires ActiveUntouched(m, m')
    ensures ActiveHeld(m')
  {
    hide ReadSlot, ParseHeader;
    if m.active.Some? {
      forall i | 0 <= i < 2 * m.n && InSlot(i, m.active.value, m.n)
        ensures m'.disk.current[i] == m.disk.current[i] && m'.disk.Settled(i)
      {
        assert Untouched(m.disk, m'.disk, i);
      }
      ReadSlotLocal(m'.disk.current, m.disk.current, m.active.value, m.n);
    }
  }

  lemma EncodedDecodes(tree: FileTree)
    ensures EncodeTree(tree).Ok? ==> TreeOf(EncodeTree(tree).value) == Some(tree)
    ensures EncodeTree(tree).Err? ==> EncodeTree(tree).error == SnapshotTooLarge
  {
    if Encodable(tree) {
      RoundTrip(tree);
    }
  }

  lemma WritePayloadHeld(m: Machine, e: Event, m': Machine)
    requires Held(m) && Next(m, e, m') && e.WritePayload?
    ensures m'.Shaped() && PhaseHeld(m')
  {
    hide ReadSlot, ParseHeader, HeaderFor, TreeOf, ActiveHeld, EncodeTree, PayloadInPlace;
    var payload := EncodeTree(e.tree).value;
    EncodedDecodes(e.tree);
    if e.ok {
      var first := m.Start() + 1;
      forall j | first <= j < first + BlocksFor(|payload|)
        ensures m'.disk.current[j] == ToBlocks(payload)[j - first]
      {
        assert WriteAt(m.disk, first, ToBlocks(payload), m'.disk, e.ok, j);
      }
    }
  }

  lemma WriteHeaderHeld(m: Machine, m': Machine, ok: bool)
    requires Held(m) && Next(m, WriteHeader(ok), m')
    ensures m'.Shaped() && PhaseHeld(m')
  {
    hide ReadSlot, HeaderFor, TreeOf, ActiveHeld, ParseHeader;
    var p, first := m.phase.payload, m.Start() + 1;
    var header := [HeaderFor(m.NextGeneration(), p)];
    assert WriteAt(m.disk, m.Start(), header, m'.disk, ok, m.Start());
    forall j | first <= j < first + BlocksFor(|p|)
      ensures m'.disk.current[j] == ToBlocks(p)[j - first] && m'.disk.Settled(j)
    {
      assert m.disk.Settled(j);
      assert WriteAt(m.disk, m.Start(), header, m'.disk, ok, j);
    }
  }

  /** A flush makes what was written durable; a failed one ends the save. */
  lemma FlushHeld(m: Machine, e: Event, m': Machine)
    requires Held(m) && Next(m, e, m') && (e.FlushPayload? || e == FlushHeader(false))
    ensures m'.Shaped() && PhaseHeld(m')
  {
    hide ReadSlot, ParseHeader, HeaderFor, TreeOf, ActiveHeld;
  }

  lemma CommitHeld(m: Machine, m': Machine)
    requires Held(m) && Next(m, FlushHeader(true), m')
    ensures Held(m')
  {
    hide TreeOf, HeaderFor, ReadSlot, ActiveHeld;
    var p := m.phase.payload;
    ReadWrittenSlot(m.disk.current, m.Target(), m.n, m.NextGeneration(), p, TreeOf(p).value);
    assert forall i | 0 <= i < 2 * m.n :: m'.disk.Settled(i);
    SettledActiveHeld(m', m.Target());
  }

  lemma SettledActiveHeld(m: Machine, s: Slot)
    requires m.Shaped() && m.active == Some(s) && m.committed.Some?
    requires ReadSlot(m.disk.current, s, m.n) == Ok(Some(Snapshot(m.generation, m.committed.value)))
    requires forall i | 0 <= i < 2 * m.n :: m.disk.Settled(i)
    ensures ActiveHeld(m)
  {
    hide ReadSlot;
  }

  /** Whatever recovery mounts, it holds. */
  lemma PowerLossHeld(m: Machine, e: Event, m': Machine)
    requires Held(m) && Next(m, e, m') && e.PowerLoss?
    ensures Held(m')
  {
    hide TreeOf, HeaderFor, ReadSlot, ParseHeader, PhaseHeld, ActiveHeld;
    var image := e.image;
    ActiveSurvives(m, image);
    RecoveredGeneration(image, m.n);
    if m'.active.Some? {
      SettledActiveHeld(m', m'.active.value);
    } else {
      NothingHeld(m, image, m');
    }
    IdleHeld(m');
  }

  lemma NothingHeld(m: Machine, image: seq<Sector>, m': Machine)
    requires m.Shaped() && ActiveHeld(m) && CrashImage(m.disk, image) && m'.Shaped() && m'.n == m.n
    requires ReadSlot(image, 1 - m.Target(), m.n) == Ok(None)
    requires m'.disk == Stable(image) && m'.AsMounted() == NOTHING_MOUNTED
    ensures ActiveHeld(m')
  {
    hide ReadSlot, ParseHeader;
    ActiveSurvives(m, image);
    assert image[m.n] in m.disk.possible[m.n];
  }

  lemma HeldMeans(m: Machine)
    ensures Held(m) <==> m.Shaped() && ActiveHeld(m) && PhaseHeld(m)
  {
  }

  lemma IdleHeld(m: Machine)
    requires m.Shaped() && m.phase.Idle?
    ensures PhaseHeld(m)
  {
  }

  lemma CurrentIsPossible(m: Machine)
    requires m.Shaped()
    ensures CrashImage(m.disk, m.disk.current)
  {
  }

  /** What `open` mounts after a reset: the slot that was active, with what it held, or the other one. */
  lemma ReopenMounts(m: Machine, e: Event, m': Machine)
    requires Held(m) && Next(m, e, m') && e.Reopen?
    ensures m'.Shaped() && m'.disk == m.disk && m'.n == m.n && m'.phase.Idle?
    ensures m'.active == m.active ==> m'.AsMounted() == m.AsMounted()
    ensures m'.active != m.active ==>
              && m'.active == Some(m.Target()) && m'.committed.Some?
              && ReadSlot(m.disk.current, m.Target(), m.n) == Ok(Some(Snapshot(m'.generation, m'.committed.value)))
  {
    hide TreeOf, HeaderFor, ReadSlot, ParseHeader, PhaseHeld, ActiveHeld;
    CurrentIsPossible(m);
    ActiveSurvives(m, m.disk.current);
    ShapedAndActive(m);
    RecoveredGeneration(m.disk.current, m.n);
  }

  /** After a reset the mounted slot holds what it should exactly when the reset was safe. */
  lemma ReopenHeldIff(m: Machine, e: Event, m': Machine)
    requires Held(m) && Next(m, e, m') && e.Reopen?
    ensures Held(m') <==> SafelyReopens(m)
  {
    hide TreeOf, HeaderFor, ReadSlot, ParseHeader, PhaseHeld, Recover;
    ReopenMounts(m, e, m');
    IdleHeld(m');
  }

  /**
   * Every event, failed device calls, an exhausted counter and safe resets included, keeps both slots' contents.
   */
  lemma NextKeepsHeld(m: Machine, e: Event, m': Machine)
    requires Held(m) && Next(m, e, m') && (e.Reopen? ==> SafelyReopens(m))
    ensures Held(m')
  {
    hide TreeOf, HeaderFor, ReadSlot, ParseHeader, PhaseHeld, ActiveHeld, WriteStep, FlushStep, ActiveUntouched,
         EncodeTree, SafelyReopens, Held;
    HeldMeans(m);
    if e == FlushHeader(true) {
      CommitHeld(m, m');
    } else if e.PowerLoss? {
      PowerLossHeld(m, e, m');
    } else if e.Reopen? {
      ReopenHeldIff(m, e, m');
    } else {
      SlotIsolation(m, e, m');
      ActiveKept(m, m');
      match e {
        case WritePayload(_, _) => WritePayloadHeld(m, e, m');
        case FlushPayload(_) => FlushHeld(m, e, m');
        case WriteHeader(ok) => WriteHeaderHeld(m, m', ok);
        case FlushHeader(_) => FlushHeld(m, e, m');
      }
      HeldMeans(m');
    }
  }

  /* ----- The target slot's header stays fenced ----- */

  lemma WritePayloadFenced(m: Machine, e: Event, m': Machine)
    requires Inv(m) && Next(m, e, m') && e.WritePayload?
    ensures m'.Shaped() && TargetFenced(m')
  {
    hide ReadSlot, ParseHeader, HeaderFor, TreeOf, ActiveHeld, EncodeTree, PayloadInPlace;
    assert WriteAt(m.disk, m.Start() + 1, ToBlocks(EncodeTree(e.tree).value), m'.disk, e.ok, m.Start());
    assert forall h :: Fenced(m, h) ==> Fenced(m', h);
  }

  lemma FlushFenced(m: Machine, e: Event, m': Machine)
    requires Inv(m) && Next(m, e, m') && (e.FlushPayload? || e == FlushHeader(false))
    ensures m'.Shaped() && TargetFenced(m')
  {
    hide ReadSlot, ParseHeader, HeaderFor, TreeOf, ActiveHeld, PhaseHeld;
    assert m'.disk.Settled(m.Start()) || Untouched(m.disk, m'.disk, m.Start());
    assert forall h :: Fenced(m, h) ==> Fenced(m', h);
  }

  lemma WriteHeaderFenced(m: Machine, m': Machine, ok: bool)
    requires Inv(m) && Next(m, WriteHeader(ok), m') && m.generation < U64_MAX
    ensures m'.Shaped() && TargetFenced(m')
  {
    hide ReadSlot, HeaderFor, TreeOf, ActiveHeld, LaidOut;
    var p := m.phase.payload;
    var header := HeaderFor(m.generation + 1, p);
    HeaderForRoundTrip(m.generation + 1, p);
    assert WriteAt(m.disk, m.Start(), [header], m'.disk, ok, m.Start());
    forall h | h in m'.disk.possible[m.Start()] ensures Fenced(m', h) {
      assert h == header || Fenced(m, h);
    }
  }

  /** Once the header is flushed, the slot that was active holds an outranked snapshot. */
  lemma CommitKeeps(m: Machine, m': Machine)
    requires Inv(m) && Next(m, FlushHeader(true), m') && m.generation < U64_MAX
    ensures Inv(m')
  {
    hide TreeOf, HeaderFor;
    var p := m.phase.payload;
    assert CrashImage(m.disk, m.disk.current);
    NewHeaderReads(m, m.disk.current);
    OutrankedHeader(m, m.disk.current);
    var left := SlotStart(1 - m.Target(), m.n);
    assert m'.disk.Settled(left);
  }

  /** The slot that is not the target never carries a header above the store's own generation. */
  lemma OutrankedHeader(m: Machine, image: seq<Sector>)
    requires m.Shaped() && ActiveHeld(m) && CrashImage(m.disk, image)
    ensures match ParseHeader(image[SlotStart(1 - m.Target(), m.n)])
            case Absent => true
            case Foreign(_) => false
            case Present(g, _, _) => g == m.generation
  {
    hide ParseHeader, TreeOf;
    if m.active.None? {
      assert image[m.n] in m.disk.possible[m.n];
    } else {
      ActiveSurvives(m, image);
    }
  }

  lemma PowerLossKeeps(m: Machine, e: Event, m': Machine)
    requires Inv(m) && Next(m, e, m') && e.PowerLoss? && m.generation < U64_MAX
    ensures Inv(m')
  {
    hide TreeOf, HeaderFor, PassesFor, Collides, ReadSlot, Select, ParseHeader;
    var image := e.image;
    PowerLossOutcome(m, image);
    ActiveSurvives(m, image);
    var t := m.Start();
    assert image[t] in m.disk.possible[t];
    assert Fenced(m, image[t]);
    assert forall h <- m'.disk.possible[t] :: h == image[t];
    if m'.generation == m.generation {
      StillFenced(m, m', image[t]);
      if m.active.None? {
        assert image[m.n] in m.disk.possible[m.n];
      }
    } else {
      SwitchedSlot(m, image, m');
    }
  }

  lemma StillFenced(m: Machine, m': Machine, h: Sector)
    requires Fenced(m, h) && m.generation < U64_MAX && m'.generation == m.generation
    requires m'.attempts == set p | p in m.attempts && h == HeaderFor(m.NextGeneration(), p)
    ensures Fenced(m', h)
  {
    hide HeaderFor, ParseHeader;
    if ParseHeader(h).Present? && ParseHeader(h).generation >= m.generation {
      var p :| p in m.attempts && h == HeaderFor(m.generation + 1, p);
      assert p in m'.attempts;
    }
  }

  /** Recovery that changed the generation moved to the target slot; the slot it left is outranked. */
  lemma SwitchedSlot(m: Machine, image: seq<Sector>, m': Machine)
    requires Inv(m) && Next(m, PowerLoss(image), m') && m.generation < U64_MAX && m'.generation != m.generation
    ensures m'.Shaped() && ActiveHeld(m') && TargetFenced(m')
  {
    hide TreeOf, HeaderFor, Collides, ReadSlot, PassesFor, ParseHeader, PhaseHeld;
    PowerLossOutcome(m, image);
    ActiveSurvives(m, image);
    OutrankedHeader(m, image);
  }

  lemma PowerLossKeepsFaultless(m: Machine, e: Event, m': Machine)
    requires Inv(m) && Next(m, e, m') && e.PowerLoss? && m.generation < U64_MAX && Faultless(m)
    ensures Faultless(m')
  {
    hide TreeOf, HeaderFor, Collides, Inv;
    HeldOfInv(m);
    ShapedAndActive(m);
    PowerLossExact(m, e.image);
  }

  /** The slot that a reset leaves behind is outranked, whatever of it is on the medium. */
  lemma ReopenFenced(m: Machine, e: Event, m': Machine)
    requires Inv(m) && Next(m, e, m') && e.Reopen? && m.generation < U64_MAX
    ensures m'.Shaped() && TargetFenced(m')
    ensures m'.active == m.active <==> m'.generation == m.generation
  {
    hide TreeOf, HeaderFor, ReadSlot, PhaseHeld, PassesFor, Collides, ActiveHeld, Fenced, Recover;
    HeldOfInv(m);
    CurrentIsPossible(m);
    PowerLossOutcome(m, m.disk.current);
    ReopenMounts(m, e, m');
    if m'.active == m.active {
      SameFences(m, m');
    } else {
      forall h | h in m.disk.possible[m'.Start()] ensures Fenced(m', h) {
        LeftBehind(m, m', h);
      }
    }
  }

  lemma SameFences(m: Machine, m': Machine)
    requires m.generation == m'.generation && m.attempts == m'.attempts
    ensures forall h :: Fenced(m, h) ==> Fenced(m', h)
  {
    hide ParseHeader, HeaderFor;
  }

  lemma LeftBehind(m: Machine, m': Machine, h: Sector)
    requires m.Shaped() && ActiveHeld(m) && m'.generation == m.generation + 1
    requires h in m.disk.possible[SlotStart(1 - m.Target(), m.n)]
    ensures Fenced(m', h)
  {
    hide ParseHeader, TreeOf, HeaderFor, BytesAt, Fnv;
    if m.active.Some? {
      assert m.disk.Settled(SlotStart(m.active.value, m.n));
      assert h == m.disk.current[SlotStart(m.active.value, m.n)];
    }
  }

  /**
   * The invariant outlives a reset that keeps the device's cache exactly when the reset mounts the same slot or every
   * sector of the other one has reached the medium. Without device failures that is: unless a header has just been
   * written, or that slot has reached the medium.
   */
  lemma ReopenKeepsInvIff(m: Machine, e: Event, m': Machine)
    requires Inv(m) && Next(m, e, m') && e.Reopen? && m.generation < U64_MAX
    ensures Inv(m') <==> SafelyReopens(m)
    ensures Faultless(m) ==> Faultless(m') && (SafelyReopens(m) <==> (m.phase.Headed? ==> TargetSettled(m)))
  {
    hide TreeOf, HeaderFor, ReadSlot, Held, TargetFenced, Collides, TargetSettled, Recover, ParseHeader;
    HeldOfInv(m);
    ReopenHeldIff(m, e, m');
    ReopenFenced(m, e, m');
    if Faultless(m) {
      ReopenSwitches(m, e, m');
    }
  }

  /**
   * In terms of the device alone: a store opened on a device that was reset without losing its cache keeps the
   * invariant exactly when no header had just been written, or the slot it belongs to has reached the medium.
   */
  lemma ResetIsSafeIff(m: Machine)
    requires Inv(m) && Faultless(m) && m.generation < U64_MAX && Recover(m.disk.current, m.n).Ok?
    ensures Inv(MountedOn(m.disk, m.n, Recover(m.disk.current, m.n).value)) <==>
            (m.phase.Headed? ==> TargetSettled(m))
  {
    hide TreeOf, HeaderFor, ReadSlot, Inv, Held, SafelyReopens, TargetSettled, Recover;
    HeldOfInv(m);
    ShapedAndActive(m);
    var mounted := Recover(m.disk.current, m.n).value;
    var m' := Machine(m.disk, m.n, mounted.active, mounted.generation, Idle, mounted.tree,
                      if mounted.generation == m.generation then m.attempts else {});
    assert Next(m, Reopen(m.disk.current), m');
    ReopenKeepsInvIff(m, Reopen(m.disk.current), m');
  }

  /** Without device failures a reset mounts the other slot exactly when its header has just been written. */
  lemma ReopenSwitches(m: Machine, e: Event, m': Machine)
    requires Inv(m) && Next(m, e, m') && e.Reopen? && m.generation < U64_MAX && Faultless(m)
    ensures Faultless(m') && (m'.active != m.active <==> m.phase.Headed?)
  {
    hide TreeOf, HeaderFor, ReadSlot, ActiveHeld, TargetFenced, Collides, Recover, ParseHeader;
    CurrentIsPossible(m);
    PowerLossExact(m, m.disk.current);
  }

  lemma NextKeepsInv(m: Machine, e: Event, m': Machine)
    requires Inv(m) && Next(m, e, m') && m.generation < U64_MAX && (e.Reopen? ==> SafelyReopens(m))
    ensures Inv(m')
    ensures Faultless(m) && e.Clean() ==> Faultless(m')
  {
    hide TreeOf, HeaderFor, ReadSlot, ParseHeader, TargetFenced, Held, WriteStep, FlushStep, SafelyReopens;
    NextKeepsHeld(m, e, m');
    match e {
      case WritePayload(_, _) => WritePayloadFenced(m, e, m');
      case FlushPayload(_) => FlushFenced(m, e, m');
      case WriteHeader(ok) => WriteHeaderFenced(m, m', ok);
      case FlushHeader(ok) =>
        if ok {
          CommitKeeps(m, m');
        } else {
          FlushFenced(m, e, m');
        }
      case PowerLoss(_) =>
        PowerLossKeeps(m, e, m');
        if Faultless(m) {
          PowerLossKeepsFaultless(m, e, m');
        }
      case Reopen(_) => ReopenKeepsInvIff(m, e, m');
    }
  }

  /* ----- Runs ----- */

  /** A sequence of states, each obtained from the one before by an event. */
  ghost predicate Run(ms: seq<Machine>, es: seq<Event>) {
    && |ms| == |es| + 1
    && (forall i | 0 <= i < |ms| :: ms[i].Shaped())
    && (forall i | 0 <= i < |es| :: Next(ms[i], es[i], ms[i + 1]))
  }

  /** The generation counter has not run out before the last state of the run. */
  ghost predicate Unsaturated(ms: seq<Machine>) {
    forall i | 0 <= i < |ms| - 1 :: ms[i].generation < U64_MAX
  }

  /** Every reset of the run was safe. */
  ghost predicate Safe(ms: seq<Machine>, es: seq<Event>)
    requires Run(ms, es)
  {
    forall i | 0 <= i < |es| && es[i].Reopen? :: SafelyReopens(ms[i])
  }

  lemma NoResetIsSafe(ms: seq<Machine>, es: seq<Event>)
    requires Run(ms, es) && forall e <- es :: !e.Reopen?
    ensures Safe(ms, es)
  {
  }

  lemma BlankInv(m: Machine)
    requires Blank(m)
    ensures Inv(m) && Faultless(m) && m.phase.Idle? && m.committed.None?
  {
    hide ParseHeader, ReadSlot;
  }

  lemma {:induction false} RunKeepsInv(ms: seq<Machine>, es: seq<Event>)
    requires Run(ms, es) && Safe(ms, es) && Unsaturated(ms) && Inv(ms[0])
    ensures Inv(ms[|es|])
    ensures Faultless(ms[0]) && (forall e <- es :: e.Clean()) ==> Faultless(ms[|es|])
    decreases |es|
  {
    hide Inv, Next, Faultless, SafelyReopens;
    if es != [] {
      var k := |es| - 1;
      assert Run(ms[..|es|], es[..k]);
      RunKeepsInv(ms[..|es|], es[..k]);
      NextKeepsInv(ms[k], es[k], ms[|es|]);
    }
  }

  lemma {:induction false} RunKeepsHeld(ms: seq<Machine>, es: seq<Event>)
    requires Run(ms, es) && Safe(ms, es) && Held(ms[0])
    ensures Held(ms[|es|])
    decreases |es|
  {
    hide Held, Next, SafelyReopens;
    if es != [] {
      var k := |es| - 1;
      assert Run(ms[..|es|], es[..k]);
      RunKeepsHeld(ms[..|es|], es[..k]);
      NextKeepsHeld(ms[k], es[k], ms[|es|]);
    }
  }

  /** The tree that the most recent save has been given. */
  function BeingSaved(es: seq<Event>): Option<FileTree> {
    if es == [] then None
    else
      var last := es[|es| - 1];
      if last.WritePayload? then Some(last.tree) else BeingSaved(es[..|es| - 1])
  }

  function FoundOn(image: seq<Sector>, n: nat): Option<FileTree> {
    if Fits(image, n) && Recover(image, n).Ok? then Recover(image, n).value.tree else None
  }

  /** The tree that was last saved with success, or recovered since, told from the events alone. */
  function LastCommitted(es: seq<Event>, n: nat): Option<FileTree> {
    if es == [] then None
    else
      match es[|es| - 1]
      case FlushHeader(true) => BeingSaved(es)
      case PowerLoss(image) => FoundOn(image, n)
      case Reopen(image) => FoundOn(image, n)
      case _ => LastCommitted(es[..|es| - 1], n)
  }

  /** The machine's own record of trees agrees with the events. */
  ghost predicate AgreesWith(m: Machine, es: seq<Event>) {
    && m.committed == LastCommitted(es, m.n)
    && (!m.phase.Idle? ==> TreeOf(m.phase.payload) == BeingSaved(es))
  }

  lemma {:induction false} RecordAgrees(ms: seq<Machine>, es: seq<Event>)
    requires Run(ms, es) && ms[0].phase.Idle? && ms[0].committed.None?
    ensures AgreesWith(ms[|es|], es) && ms[|es|].n == ms[0].n
    decreases |es|
  {
    hide TreeOf, Recover, EncodeTree, HeaderFor, WriteStep, FlushStep;
    if es != [] {
      var k := |es| - 1;
      assert Run(ms[..|es|], es[..k]);
      RecordAgrees(ms[..|es|], es[..k]);
      assert Next(ms[k], es[k], ms[|es|]);
      if es[k].WritePayload? {
        EncodedDecodes(es[k].tree);
      }
    }
  }

  /**
   * Crash atomicity: after any run of saves, power losses and safe resets from a blank device on which no device call
   * failed, a further power loss leaves the tree being saved if its header is on the medium and the last committed tree
   * otherwise; `open` fails exactly when a torn payload collides with the stale checksum beside it.
   */
  lemma CrashAtomicity(ms: seq<Machine>, es: seq<Event>, image: seq<Sector>)
    requires Run(ms, es) && Safe(ms, es) && Blank(ms[0]) && forall e <- es :: e.Clean()
    requires forall m <- ms :: m.generation < U64_MAX
    requires CrashImage(ms[|es|].disk, image)
    ensures var m := ms[|es|];
            var r := Recover(image, m.n);
            var replaced := m.phase.Headed? && image[m.Start()] == HeaderFor(m.generation + 1, m.phase.payload);
            && (r.Err? <==> Collides(image, m.Target(), m.n))
            && (replaced ==> r.Ok?)
            && (r.Ok? ==> r.value.tree == if replaced then BeingSaved(es) else LastCommitted(es, m.n))
            && (r.Ok? ==> r.value.generation == if replaced then m.generation + 1 else m.generation)
  {
    hide Inv, Next, Faultless, CrashImage, Collides, Recover, LastCommitted, BeingSaved, Blank, HeaderFor, TreeOf;
    hide Run;
    CleanRun(ms, es);
    PowerLossExact(ms[|es|], image);
  }

  lemma CleanRun(ms: seq<Machine>, es: seq<Event>)
    requires Run(ms, es) && Safe(ms, es) && Blank(ms[0]) && forall e <- es :: e.Clean()
    requires forall m <- ms :: m.generation < U64_MAX
    ensures |ms| == |es| + 1
    ensures var m := ms[|es|]; Inv(m) && Faultless(m) && AgreesWith(m, es) && m.generation < U64_MAX
  {
    hide Inv, Next, Faultless, Blank, AgreesWith, SafelyReopens;
    BlankInv(ms[0]);
    RunKeepsInv(ms, es);
    RecordAgrees(ms, es);
  }

  /** No tree, or one that some save was given. */
  ghost predicate WasSaved(es: seq<Event>, t: Option<FileTree>) {
    t.Some? ==> exists e <- es :: e.WritePayload? && e.tree == t.value
  }

  lemma WasSavedMore(es: seq<Event>, e: Event, t: Option<FileTree>)
    requires WasSaved(es, t)
    ensures WasSaved(es + [e], t)
  {
    if t.Some? {
      var w :| w in es && w.WritePayload? && w.tree == t.value;
      assert w in es + [e];
    }
  }

  lemma {:induction false} BeingSavedWasSaved(es: seq<Event>)
    ensures WasSaved(es, BeingSaved(es))
  {
    if es != [] {
      var k := |es| - 1;
      assert es == es[..k] + [es[k]] && es[k] in es;
      BeingSavedWasSaved(es[..k]);
      if !es[k].WritePayload? {
        WasSavedMore(es[..k], es[k], BeingSaved(es));
      }
    }
  }

  /** Whatever a clean run and a further power loss leave was given to some save of the run. */
  lemma {:induction false} FoundWasSaved(ms: seq<Machine>, es: seq<Event>, image: seq<Sector>)
    requires Run(ms, es) && Safe(ms, es) && Blank(ms[0]) && forall e <- es :: e.Clean()
    requires forall m <- ms :: m.generation < U64_MAX
    requires CrashImage(ms[|es|].disk, image)
    ensures WasSaved(es, LastCommitted(es, ms[|es|].n))
    ensures Recover(image, ms[|es|].n).Ok? ==> WasSaved(es, Recover(image, ms[|es|].n).value.tree)
    decreases |es|
  {
    hide Next, CrashImage, Collides, Recover, BeingSaved, WasSaved, Blank, HeaderFor, Safe;
    CrashAtomicity(ms, es, image);
    BeingSavedWasSaved(es);
    NoneWasSaved(es);
    if es != [] {
      var k := |es| - 1;
      var was := if es[k].Recovers() then es[k].image else ms[k].disk.current;
      assert es == es[..k] + [es[k]];
      PrefixRun(ms, es, was);
      FoundWasSaved(ms[..|es|], es[..k], was);
      WasSavedMore(es[..k], es[k], LastCommitted(es[..k], ms[k].n));
      if es[k].Recovers() && Recover(was, ms[k].n).Ok? {
        WasSavedMore(es[..k], es[k], Recover(was, ms[k].n).value.tree);
      }
    }
  }

  lemma NoneWasSaved(es: seq<Event>)
    ensures WasSaved(es, None)
  {
  }

  lemma PrefixRun(ms: seq<Machine>, es: seq<Event>, was: seq<Sector>)
    requires Run(ms, es) && Safe(ms, es) && es != []
    requires (forall e <- es :: e.Clean()) && forall m <- ms :: m.generation < U64_MAX
    requires was == if es[|es| - 1].Recovers() then es[|es| - 1].image else ms[|es| - 1].disk.current
    ensures Run(ms[..|es|], es[..|es| - 1]) && Safe(ms[..|es|], es[..|es| - 1])
    ensures ms[..|es|][0] == ms[0] && ms[..|es|][|es| - 1] == ms[|es| - 1]
    ensures (forall e <- es[..|es| - 1] :: e.Clean()) && forall m <- ms[..|es|] :: m.generation < U64_MAX
    ensures CrashImage(ms[|es| - 1].disk, was) && ms[|es|].n == ms[|es| - 1].n
    ensures es[|es| - 1].Recovers() ==> Fits(was, ms[|es|].n)
  {
    hide Recover, EncodeTree, HeaderFor, WriteStep, FlushStep, TreeOf, SafelyReopens;
    var k := |es| - 1;
    assert Next(ms[k], es[k], ms[k + 1]);
    CurrentIsPossible(ms[k]);
    assert forall e <- es[..k] :: e in es;
    assert forall m <- ms[..|es|] :: m in ms;
  }

  /**
   * With device calls that may also fail part-way, with safe resets, and even once the generation counter is exhausted,
   * a power loss leaves the last committed tree readable in the active slot. Before the counter is exhausted, `open`
   * finds that tree or one whose header an attempted save vouches for.
   */
  lemma FaultTolerance(ms: seq<Machine>, es: seq<Event>, image: seq<Sector>)
    requires Run(ms, es) && Safe(ms, es) && Blank(ms[0]) && CrashImage(ms[|es|].disk, image)
    ensures var m, last := ms[|es|], LastCommitted(es, ms[0].n);
            && m.n == ms[0].n && (m.active.Some? <==> last.Some?)
            && (m.active.Some? ==> ReadSlot(image, m.active.value, m.n) == Ok(Some(Snapshot(m.generation, last.value))))
    ensures (forall m <- ms :: m.generation < U64_MAX) ==>
              var m := ms[|es|];
              var r := Recover(image, m.n);
              && (r.Err? <==> Collides(image, m.Target(), m.n))
              && (r.Ok? ==>
                    || r.value == Mounted(m.active, m.generation, LastCommitted(es, m.n))
                    || exists p <- m.attempts ::
                         && PassesFor(image, m, p)
                         && r.value == Mounted(Some(m.Target()), m.generation + 1,
                                               TreeOf(BytesAt(image, m.Start() + 1, |p|))))
  {
    hide Inv, Held, Run, CrashImage, Collides, Recover, ReadSlot, PassesFor, TreeOf, LastCommitted, Blank, BytesAt,
         Safe;
    AnyRun(ms, es);
    var m := ms[|es|];
    ShapedAndActive(m);
    ActiveSurvives(m, image);
    if forall m <- ms :: m.generation < U64_MAX {
      PowerLossOutcome(m, image);
    }
  }

  lemma AnyRun(ms: seq<Machine>, es: seq<Event>)
    requires Run(ms, es) && Safe(ms, es) && Blank(ms[0])
    ensures |ms| == |es| + 1
    ensures var m := ms[|es|]; Held(m) && m.n == ms[0].n && m.committed == LastCommitted(es, m.n)
    ensures (forall m <- ms :: m.generation < U64_MAX) ==> Inv(ms[|es|])
  {
    hide Inv, Held, Next, Faultless, Blank, LastCommitted, SafelyReopens;
    BlankInv(ms[0]);
    HeldOfInv(ms[0]);
    RecordAgrees(ms, es);
    RunKeepsHeld(ms, es);
    if forall m <- ms :: m.generation < U64_MAX {
      RunKeepsInv(ms, es);
    }
  }

  lemma HeldOfInv(m: Machine)
    requires Inv(m)
    ensures Held(m)
  {
  }

  /* ----- After a commit ----- */

  lemma CommittedSlots(m: Machine, m': Machine)
    requires m.Shaped() && ActiveHeld(m) && PhaseHeld(m) && m.active.Some?
    requires m.phase.Headed? && Next(m, FlushHeader(true), m')
    ensures m'.committed == TreeOf(m.phase.payload) && m'.committed.Some?
    ensures ReadSlot(m'.disk.current, m.Target(), m.n)
         == Ok(Some(Snapshot(m.NextGeneration(), m'.committed.value)))
    ensures ReadSlot(m'.disk.current, m.active.value, m.n) == Ok(Some(Snapshot(m.generation, m.committed.value)))
  {
    hide TreeOf, HeaderFor, ReadSlot;
    var p := m.phase.payload;
    ReadWrittenSlot(m.disk.current, m.Target(), m.n, m.NextGeneration(), p, TreeOf(p).value);
  }

  /**
   * Changing any one byte of the payload that was just committed makes `open` fall back to the tree that it replaced.
   */
  lemma DamageFallsBack(m: Machine, m': Machine, damaged: seq<Sector>, k: nat, b: Byte)
    requires m.Shaped() && ActiveHeld(m) && PhaseHeld(m) && m.active.Some?
    requires m.phase.Headed? && Next(m, FlushHeader(true), m')
    requires k < |m.phase.payload| && b != m.phase.payload[k]
    requires m.Start() + 1 + k / BLOCK_SIZE < |m'.disk.current|
    requires damaged == m'.disk.current[m.Start() + 1 + k / BLOCK_SIZE :=
                                          m'.disk.current[m.Start() + 1 + k / BLOCK_SIZE][k % BLOCK_SIZE := b]]
    ensures Recover(damaged, m.n) == Ok(m.AsMounted())
  {
    hide TreeOf, HeaderFor, ReadSlot, ParseHeader;
    var p := m.phase.payload;
    CommittedSlots(m, m');
    BlocksRoundTrip(m'.disk.current, m.Start() + 1, p);
    OneByteDamage(m'.disk.current, damaged, m.Target(), m.n, m.NextGeneration(),
                  Some(Snapshot(m.generation, m.committed.value)), p, k, b);
  }

  /**
   * A save that returned success is what the next `open` finds exactly when the generation could still grow, or the
   * save went to slot 0, which wins a tie, or nothing changed.
   */
  lemma CommitVisibleIff(m: Machine, m': Machine)
    requires m.Shaped() && ActiveHeld(m) && PhaseHeld(m) && m.active.Some?
    requires m.phase.Headed? && Next(m, FlushHeader(true), m')
    ensures Recover(m'.disk.current, m.n).Ok?
    ensures Recover(m'.disk.current, m.n).value.tree == m'.committed
       <==> m.generation < U64_MAX || m.Target() == 0 || m.committed == m'.committed
  {
    hide TreeOf, HeaderFor, ReadSlot, PhaseHeld, ActiveHeld;
    HeldAndHeaded(m);
    CommittedSlots(m, m');
  }

  /** Opening the disk as it reads now gives back the store's own slot, generation and tree. */
  ghost predicate Reopens(m: Machine)
    requires m.Shaped()
  {
    Recover(m.disk.current, m.n) == Ok(m.AsMounted())
  }

  /** A successful save is what the next `open` finds. */
  lemma CommitReopens(m: Machine, m': Machine)
    requires Inv(m) && Next(m, FlushHeader(true), m') && m.generation < U64_MAX
    ensures Inv(m') && Reopens(m')
  {
    hide TreeOf, HeaderFor, ReadSlot, TargetFenced;
    CommitKeeps(m, m');
    if m.active.Some? {
      CommittedSlots(m, m');
    } else {
      hide ParseHeader;
      assert CrashImage(m.disk, m.disk.current);
      NewHeaderReads(m, m.disk.current);
      ActiveSurvives(m, m.disk.current);
    }
  }

  lemma HeldAndHeaded(m: Machine)
    requires m.Shaped() && ActiveHeld(m) && m.active.Some?
    ensures m.committed.Some?
  {
  }
}
