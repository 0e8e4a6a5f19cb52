/** Two ways in which a tree whose save returned success is lost, and that every save can be carried out. */
module Losses {
  import opened Wrappers
  import opened Words
  import opened Order
  import opened Codec
  import opened Disk
  import opened Snapshot
  import opened Protocol

  /** The tree can be saved to slots of n blocks. */
  ghost predicate Savable(tree: FileTree, n: nat)
    requires 1 <= n
  {
    EncodeTree(tree).Ok? && |EncodeTree(tree).value| <= U64_MAX && BlocksFor(|EncodeTree(tree).value|) <= n - 1
  }

  /* ----- Every save can be carried out ----- */

  lemma CanWritePayload(m: Machine, tree: FileTree) returns (m': Machine)
    requires m.Shaped() && m.phase.Idle? && Savable(tree, m.n)
    ensures m'.Shaped() && m'.n == m.n && Next(m, WritePayload(tree, true), m')
  {
    hide EncodeTree, TreeOf;
    var payload := EncodeTree(tree).value;
    var first, blocks := m.Start() + 1, ToBlocks(payload);
    WriteReachingIsStep(m.disk, first, blocks, Interval(first, |blocks|), true);
    m' := m.(disk := WriteReaching(m.disk, first, blocks, Interval(first, |blocks|)), phase := Written(payload));
  }

  lemma CanFlush(m: Machine) returns (d: Disk)
    requires m.Shaped()
    ensures FlushStep(m.disk, d, true)
  {
    FlushReachingIsStep(m.disk, Interval(0, |m.disk.current|), true);
    d := FlushReaching(m.disk, Interval(0, |m.disk.current|));
  }

  lemma CanWriteHeader(m: Machine) returns (m': Machine)
    requires m.Shaped() && m.phase.Durable?
    ensures m'.Shaped() && Next(m, WriteHeader(true), m') && m'.phase.Headed?
  {
    hide HeaderFor;
    var blocks := [HeaderFor(m.NextGeneration(), m.phase.payload)];
    WriteReachingIsStep(m.disk, m.Start(), blocks, Interval(m.Start(), 1), true);
    m' := m.(disk := WriteReaching(m.disk, m.Start(), blocks, Interval(m.Start(), 1)), phase := Headed(m.phase.payload),
             attempts := m.attempts + {m.phase.payload});
  }

  /** From any state between saves a tree that fits can be saved. */
  lemma CanSave(m: Machine, tree: FileTree) returns (ms: seq<Machine>)
    requires m.Shaped() && m.phase.Idle? && Savable(tree, m.n)
    ensures Run(ms, SaveEvents(tree)) && ms[0] == m
  {
    hide EncodeTree, TreeOf, HeaderFor, WriteStep, FlushStep;
    var m1 := CanWritePayload(m, tree);
    var d2 := CanFlush(m1);
    var m2 := m1.(disk := d2, phase := Durable(m1.phase.payload));
    FlushShaped(m1, d2);
    var m3 := CanWriteHeader(m2);
    var d4 := CanFlush(m3);
    var m4 := Machine(d4, m3.n, Some(m3.Target()), m3.NextGeneration(), Idle, TreeOf(m3.phase.payload), {});
    FlushShaped(m3, d4);
    ms := [m, m1, m2, m3, m4];
  }

  lemma FlushShaped(m: Machine, d: Disk)
    requires m.Shaped() && FlushStep(m.disk, d, true)
    ensures d.Valid() && d.current == m.disk.current
  {
  }

  /* ----- Up to the header ----- */

  /** A save whose header is written but not flushed leaves the old header possible and the active slot alone. */
  lemma HeaderPending(m: Machine, tree: FileTree, ms: seq<Machine>)
    requires Run(ms, SaveEvents(tree)[..3]) && ms[0] == m && ActiveHeld(m)
    ensures ms[3].phase.Headed? && ms[3].n == m.n && ms[3].AsMounted() == m.AsMounted()
    ensures Ok(ms[3].phase.payload) == EncodeTree(tree)
    ensures m.disk.current[m.Start()] in ms[3].disk.possible[m.Start()]
    ensures forall i | 0 <= i < 2 * m.n && m.active.Some? && InSlot(i, m.active.value, m.n) ::
              ms[3].disk.current[i] == m.disk.current[i]
  {
    hide EncodeTree, TreeOf, HeaderFor, ReadSlot, ParseHeader, ActiveHeld;
    assert Next(ms[0], WritePayload(tree, true), ms[1]);
    assert Next(ms[1], FlushPayload(true), ms[2]);
    assert Next(ms[2], WriteHeader(true), ms[3]);
    var s := m.Start();
    assert WriteAt(m.disk, s + 1, ToBlocks(EncodeTree(tree).value), ms[1].disk, true, s);
    assert WriteAt(ms[2].disk, s, [HeaderFor(m.NextGeneration(), ms[2].phase.payload)], ms[3].disk, true, s);
    forall i | 0 <= i < 2 * m.n && m.active.Some? && InSlot(i, m.active.value, m.n)
      ensures ms[3].disk.current[i] == m.disk.current[i]
    {
      assert WriteAt(m.disk, s + 1, ToBlocks(EncodeTree(tree).value), ms[1].disk, true, i);
      assert WriteAt(ms[2].disk, s, [HeaderFor(m.NextGeneration(), ms[2].phase.payload)], ms[3].disk, true, i);
    }
  }

  /** After the first save of a device's life slot 0 is active and slot 1's header is still not one of the format. */
  lemma FirstSave(ms: seq<Machine>, tree: FileTree)
    requires Run(ms, SaveEvents(tree)) && Blank(ms[0])
    ensures var m := ms[4];
            && Inv(m) && Faultless(m) && m.phase.Idle? && m.active == Some(0) && m.generation == 1 && m.n == ms[0].n
            && EncodeTree(tree).Ok? && m.disk.current[0] == HeaderFor(1, EncodeTree(tree).value)
            && ParseHeader(m.disk.current[m.n]).Absent?
  {
    hide EncodeTree, TreeOf, HeaderFor, ReadSlot, ParseHeader, Inv, Faultless, WriteStep;
    BlankInv(ms[0]);
    var es := SaveEvents(tree);
    NoResetIsSafe(ms, es);
    assert Run(ms[..4], es[..3]);
    NoResetIsSafe(ms[..4], es[..3]);
    assert Next(ms[0], es[0], ms[1]) && Next(ms[1], es[1], ms[2]) && Next(ms[2], es[2], ms[3]);
    assert Next(ms[3], es[3], ms[4]);
    RunKeepsInv(ms[..4], es[..3]);
    RunKeepsInv(ms, es);
    FirstHeader(ms[3]);
  }

  lemma FirstHeader(m: Machine)
    requires Inv(m) && m.phase.Headed? && m.active.None?
    ensures m.disk.current[0] == HeaderFor(m.NextGeneration(), m.phase.payload)
    ensures ParseHeader(m.disk.current[m.n]).Absent? && m.generation == 0
  {
    hide ParseHeader, HeaderFor, TreeOf, TargetFenced;
    assert m.disk.current[m.n] in m.disk.possible[m.n];
  }

  /* ----- The loss ----- */

  /** A save, a second one up to its header, a reset, and the payload of a third one. */
  ghost predicate ResetScenario(ms: seq<Machine>, t0: FileTree, t1: FileTree, t2: FileTree) {
    && |ms| == 10 && Blank(ms[0])
    && Run(ms[..5], SaveEvents(t0)) && Run(ms[4..8], SaveEvents(t1)[..3])
    && ms[8].Shaped() && ms[9].Shaped()
    && Next(ms[7], Reopen(ms[7].disk.current), ms[8]) && Next(ms[8], WritePayload(t2, true), ms[9])
  }

  /** The reset mounts slot 1 although its header may not have reached the medium. */
  lemma ResetMountsNewSlot(ms: seq<Machine>, t0: FileTree, t1: FileTree, t2: FileTree)
    requires ResetScenario(ms, t0, t1, t2)
    ensures var m := ms[8];
            && m.n == ms[0].n && m.active == Some(1) && EncodeTree(t0).Ok?
            && m.disk.current[0] == HeaderFor(1, EncodeTree(t0).value)
            && exists h <- m.disk.possible[m.n] :: ParseHeader(h).Absent?
  {
    hide EncodeTree, TreeOf, HeaderFor, ReadSlot, ParseHeader, Inv, Faultless, Blank, Recover, WriteStep, FlushStep,
         CrashImage, Collides;
    FirstSave(ms[..5], t0);
    var m4, m7 := ms[4], ms[7];
    HeldOfInv(m4);
    HeldMeans(m4);
    HeaderPending(m4, t1, ms[4..8]);
    NoResetIsSafe(ms[4..8], SaveEvents(t1)[..3]);
    Bounded(ms[4..8], SaveEvents(t1)[..3]);
    RunKeepsInv(ms[4..8], SaveEvents(t1)[..3]);
    ReopenSwitches(m7, Reopen(m7.disk.current), ms[8]);
    HeldOfInv(m7);
    ReopenMounts(m7, Reopen(m7.disk.current), ms[8]);
    assert InSlot(0, 0, m4.n);
  }

  /** No generation changes before a header is flushed. */
  lemma Bounded(ms: seq<Machine>, es: seq<Event>)
    requires Run(ms, es) && |es| == 3 && es[0].WritePayload? && es[1].FlushPayload? && es[2].WriteHeader?
    ensures forall m <- ms :: m.generation == ms[0].generation
  {
    hide EncodeTree, HeaderFor, WriteStep, FlushStep;
    assert Next(ms[0], es[0], ms[1]) && Next(ms[1], es[1], ms[2]) && Next(ms[2], es[2], ms[3]);
  }

  /** The trees' encodings differ in the k-th byte alone. */
  ghost predicate OneByteApart(t: FileTree, t': FileTree, k: nat, b: Byte) {
    && EncodeTree(t).Ok? && k < |EncodeTree(t).value| && b != EncodeTree(t).value[k]
    && EncodeTree(t') == Ok(Edited(EncodeTree(t).value, k, b))
  }

  /** A power loss can leave the image, on which `open` finds nothing. */
  ghost predicate FindsNothing(m: Machine, image: seq<Sector>) {
    m.Shaped() && CrashImage(m.disk, image) && Recover(image, m.n) == Ok(NOTHING_MOUNTED)
  }

  /**
   * A reset in the middle of a save can cost everything. The first save succeeded; if the third one's tree differs
   * from the first one's in a byte of its encoding, a power loss before the next flush can leave a device on which
   * `open` finds nothing at all.
   */
  lemma ResetCanLoseAll(ms: seq<Machine>, t0: FileTree, t1: FileTree, t2: FileTree, k: nat, b: Byte)
    returns (image: seq<Sector>)
    requires ResetScenario(ms, t0, t1, t2) && OneByteApart(t0, t2, k, b)
    ensures FindsNothing(ms[9], image)
  {
    hide EncodeTree, TreeOf, HeaderFor, ReadSlot, ParseHeader, Inv, Faultless, Blank, Fnv, SaveEvents, Run, WriteStep,
         CrashImage, BytesAt, Edited;
    ResetMountsNewSlot(ms, t0, t1, t2);
    var n, p0, p2 := ms[0].n, EncodeTree(t0).value, EncodeTree(t2).value;
    var h :| h in ms[8].disk.possible[n] && ParseHeader(h).Absent?;
    image := StaleImage(ms[8], ms[9], t2, h);
    AbsentReads(image, 1, n);
    EditChangesFnv(p0, k, b);
    MismatchReads(image, 0, n, 1, p0, p2);
  }

  lemma EditChangesFnv(p: seq<Byte>, k: nat, b: Byte)
    requires k < |p| && b != p[k]
    ensures |Edited(p, k, b)| == |p| && Fnv(Edited(p, k, b)) != Fnv(p)
  {
    hide Fnv;
    assert Edited(p, k, b) == p[k := b];
    OneByteChangesFnv(p, k, b);
  }

  /** While a payload is on its way to slot 0, slot 1's header may still be one that was overwritten before. */
  lemma StaleImage(m: Machine, m': Machine, tree: FileTree, h: Sector) returns (image: seq<Sector>)
    requires m.Shaped() && m'.Shaped() && m.active == Some(1) && h in m.disk.possible[m.n]
    requires Next(m, WritePayload(tree, true), m')
    ensures CrashImage(m'.disk, image) && Fits(image, m.n) && image[0] == m.disk.current[0] && image[m.n] == h
    ensures var p := EncodeTree(tree).value;
            |p| <= U64_MAX && BlocksFor(|p|) <= m.n - 1 && BytesAt(image, 1, |p|) == p
  {
    hide EncodeTree;
    var p, n := EncodeTree(tree).value, m.n;
    var d, d', blocks := m.disk, m'.disk, ToBlocks(p);
    assert WriteAt(d, 1, blocks, d', true, n) && WriteAt(d, 1, blocks, d', true, 0);
    image := d'.current[n := h];
    forall j | 1 <= j < 1 + BlocksFor(|p|) ensures image[j] == blocks[j - 1] {
      assert WriteAt(d, 1, blocks, d', true, j);
    }
    BlocksRoundTrip(image, 1, p);
  }

  lemma MismatchReads(image: seq<Sector>, slot: Slot, n: nat, generation: nat, p: seq<Byte>, other: seq<Byte>)
    requires Fits(image, n) && generation <= U64_MAX && |p| <= U64_MAX && BlocksFor(|p|) <= n - 1
    requires image[SlotStart(slot, n)] == HeaderFor(generation, p) && |other| == |p|
    requires BytesAt(image, SlotStart(slot, n) + 1, |p|) == other && Fnv(other) != Fnv(p)
    ensures ReadSlot(image, slot, n) == Ok(None)
  {
    hide ParseHeader, HeaderFor, Fnv, TreeOf;
    HeaderForRoundTrip(generation, p);
  }

  /** The scenario can be carried out on every blank device for any three trees that fit. */
  lemma ResetScenarioExists(m: Machine, t0: FileTree, t1: FileTree, t2: FileTree) returns (ms: seq<Machine>)
    requires Blank(m) && Savable(t0, m.n) && Savable(t1, m.n) && Savable(t2, m.n)
    ensures ResetScenario(ms, t0, t1, t2) && ms[0] == m
  {
    hide EncodeTree, TreeOf, HeaderFor, ReadSlot, ParseHeader, Inv, Faultless, Recover, WriteStep, FlushStep, Collides,
         CrashImage;
    BlankInv(m);
    HeldOfInv(m);
    ShapedAndActive(m);
    var first := CanSave(m, t0);
    FirstSave(first, t0);
    var second := CanSave(first[4], t1);
    var cut := second[..4];
    assert Run(cut, SaveEvents(t1)[..3]);
    NoResetIsSafe(cut, SaveEvents(t1)[..3]);
    Bounded(cut, SaveEvents(t1)[..3]);
    RunKeepsInv(cut, SaveEvents(t1)[..3]);
    var m7 := cut[3];
    var m8 := CanReopen(m7, t1, cut);
    var m9 := CanWritePayload(m8, t2);
    ms := first + cut[1..] + [m8, m9];
    assert ms[..5] == first && ms[4..8] == cut;
  }

  lemma CanReopen(m: Machine, tree: FileTree, ms: seq<Machine>) returns (m': Machine)
    requires Run(ms, SaveEvents(tree)[..3]) && ms[3] == m && Inv(m) && Faultless(m) && m.generation < U64_MAX
    ensures m'.Shaped() && m'.n == m.n && m'.phase.Idle? && Next(m, Reopen(m.disk.current), m')
  {
    hide EncodeTree, TreeOf, HeaderFor, ReadSlot, ParseHeader, TargetFenced, ActiveHeld, Faultless, Recover, WriteStep,
         FlushStep, Collides;
    assert Next(ms[2], WriteHeader(true), ms[3]);
    CurrentIsPossible(m);
    PowerLossExact(m, m.disk.current);
    RecoveredGeneration(m.disk.current, m.n);
    var mounted := Recover(m.disk.current, m.n).value;
    m' := Machine(m.disk, m.n, mounted.active, mounted.generation, Idle, mounted.tree,
                  if mounted.generation == m.generation then m.attempts else {});
  }

  /* ----- The last generation ----- */

  /** The device holds a tree in slot 0 at the last generation. */
  ghost predicate Exhausted(image: seq<Sector>, n: nat, t: FileTree) {
    Fits(image, n) && Recover(image, n) == Ok(Mounted(Some(0), U64_MAX, Some(t)))
  }

  lemma ExhaustedHeld(image: seq<Sector>, n: nat, t: FileTree)
    requires Exhausted(image, n, t)
    ensures Held(MountedOn(Stable(image), n, Mounted(Some(0), U64_MAX, Some(t))))
  {
    hide ReadSlot, ActiveHeld;
    var m := MountedOn(Stable(image), n, Mounted(Some(0), U64_MAX, Some(t)));
    SettledActiveHeld(m, 0);
  }

  /** Whatever tree is saved to such a device, all device calls succeed and the next `open` finds the old tree. */
  lemma SaturationLosesSave(ms: seq<Machine>, image: seq<Sector>, n: nat, t0: FileTree, t1: FileTree)
    requires Exhausted(image, n, t0) && Run(ms, SaveEvents(t1))
    requires ms[0] == MountedOn(Stable(image), n, Mounted(Some(0), U64_MAX, Some(t0)))
    ensures ms[4].n == n && ms[4].committed == Some(t1) && Exhausted(ms[4].disk.current, n, t0)
  {
    hide TreeOf, EncodeTree, HeaderFor, ReadSlot, Held, Recover, WriteStep, FlushStep, ActiveHeld, PhaseHeld;
    var es := SaveEvents(t1);
    ExhaustedHeld(image, n, t0);
    assert Run(ms[..4], es[..3]);
    NoResetIsSafe(ms[..4], es[..3]);
    RunKeepsHeld(ms[..4], es[..3]);
    assert Next(ms[0], es[0], ms[1]) && Next(ms[1], es[1], ms[2]) && Next(ms[2], es[2], ms[3]);
    assert Next(ms[3], es[3], ms[4]);
    HeldMeans(ms[3]);
    EncodedDecodes(t1);
    CommittedSlots(ms[3], ms[4]);
    TieGoesToSlot0(ms[4].disk.current, n, t0, t1);
  }

  lemma TieGoesToSlot0(image: seq<Sector>, n: nat, t0: FileTree, t1: FileTree)
    requires Fits(image, n) && ReadSlot(image, 0, n) == Ok(Some(Snapshot(U64_MAX, t0)))
    requires ReadSlot(image, 1, n) == Ok(Some(Snapshot(U64_MAX, t1)))
    ensures Recover(image, n) == Ok(Mounted(Some(0), U64_MAX, Some(t0)))
  {
    hide ReadSlot;
  }

  /** Such devices exist, and such saves can be carried out on them. */
  lemma SaturatedSaveExists(n: nat, t0: FileTree, t1: FileTree) returns (image: seq<Sector>, ms: seq<Machine>)
    requires 2 <= n && Savable(t0, n) && Savable(t1, n)
    ensures Exhausted(image, n, t0) && Run(ms, SaveEvents(t1))
    ensures ms[0] == MountedOn(Stable(image), n, Mounted(Some(0), U64_MAX, Some(t0)))
  {
    hide TreeOf, EncodeTree, HeaderFor, ReadSlot, WriteStep, FlushStep, SaveEvents, Run, ParseHeader;
    var p := EncodeTree(t0).value;
    EncodedDecodes(t0);
    image := [HeaderFor(U64_MAX, p)] + ToBlocks(p) + seq(2 * n - 1 - BlocksFor(|p|), _ => ZERO_SECTOR);
    ReadWrittenSlot(image, 0, n, U64_MAX, p, t0);
    ZeroIsAbsent();
    AbsentReads(image, 1, n);
    ms := CanSave(MountedOn(Stable(image), n, Mounted(Some(0), U64_MAX, Some(t0))), t1);
  }

  lemma ZeroIsAbsent()
    ensures ParseHeader(ZERO_SECTOR).Absent?
  {
  }

  /* ----- Trees that differ in a byte ----- */

  /** The data with one byte replaced. */
  function Edited(data: seq<Byte>, k: nat, b: Byte): seq<Byte>
    requires k < |data|
  {
    data[..k] + [b] + data[k + 1..]
  }

  lemma {:induction false} FilesBytesEdited(
    paths: seq<string>, files: map<string, seq<Byte>>, p: string, k: nat, b: Byte) returns (j: nat)
    requires (forall q <- paths :: q in files) && p in paths && k < |files[p]|
    requires forall i, l | 0 <= i < l < |paths| :: paths[i] != paths[l]
    ensures j < |FilesBytes(paths, files)| && FilesBytes(paths, files)[j] == files[p][k]
    ensures FilesBytes(paths, files[p := Edited(files[p], k, b)]) == Edited(FilesBytes(paths, files), j, b)
  {
    hide ToLe, PathBytes, FileBytes, Edited;
    var data := files[p];
    var head, rest := FileBytes(paths[0], files[paths[0]]), FilesBytes(paths[1..], files);
    if paths[0] == p {
      j := HeadEdited(p, data, rest, k, b);
      FilesBytesUnedited(paths[1..], files, p, Edited(data, k, b));
    } else {
      var i := FilesBytesEdited(paths[1..], files, p, k, b);
      j := |head| + i;
      EditedAfter(head, rest, i, b);
    }
  }

  lemma HeadEdited(p: string, data: seq<Byte>, rest: seq<Byte>, k: nat, b: Byte) returns (j: nat)
    requires k < |data|
    ensures var all := FileBytes(p, data) + rest;
            j < |all| && all[j] == data[k] && FileBytes(p, Edited(data, k, b)) + rest == Edited(all, j, b)
  {
    hide ToLe, PathBytes;
    var before := PathBytes(p) + ToLe(|data|, 8);
    j := |before| + k;
    assert FileBytes(p, Edited(data, k, b)) == before + Edited(data, k, b);
  }

  lemma EditedAfter(head: seq<Byte>, rest: seq<Byte>, i: nat, b: Byte)
    requires i < |rest|
    ensures head + Edited(rest, i, b) == Edited(head + rest, |head| + i, b)
  {
  }

  lemma {:induction false} FilesBytesUnedited(
    paths: seq<string>, files: map<string, seq<Byte>>, p: string, data: seq<Byte>)
    requires (forall q <- paths :: q in files) && p !in paths
    ensures FilesBytes(paths, files[p := data]) == FilesBytes(paths, files)
  {
    if paths != [] {
      assert paths[0] in paths && forall q <- paths[1..] :: q in paths;
      FilesBytesUnedited(paths[1..], files, p, data);
    }
  }

  lemma Distinct(paths: seq<string>)
    requires StrictlyAscending(paths)
    ensures forall i, l | 0 <= i < l < |paths| :: paths[i] != paths[l]
  {
    hide Less;
    forall i, l | 0 <= i < l < |paths| ensures paths[i] != paths[l] {
      assert Less(paths[i], paths[l]);
      LessTotal(paths[i], paths[i]);
    }
  }

  /** The tree with one byte of one file replaced. */
  function EditedTree(t: FileTree, p: string, k: nat, b: Byte): FileTree
    requires p in t.files && k < |t.files[p]|
  {
    t.(files := t.files[p := Edited(t.files[p], k, b)])
  }

  lemma EditedEncodable(t: FileTree, p: string, k: nat, b: Byte)
    requires Encodable(t) && p in t.files && k < |t.files[p]|
    ensures Encodable(EditedTree(t, p, k, b)) && EditedTree(t, p, k, b).files.Keys == t.files.Keys
  {
    hide PathFits;
    var t' := EditedTree(t, p, k, b);
    assert t'.files.Keys == t.files.Keys;
    assert |t'.files| == |t'.files.Keys| && |t.files| == |t.files.Keys|;
  }

  lemma EditedBytes(t: FileTree, p: string, k: nat, b: Byte) returns (j: nat)
    requires p in t.files && k < |t.files[p]| && EditedTree(t, p, k, b).files.Keys == t.files.Keys
    ensures j < |TreeBytes(t)| && TreeBytes(t)[j] == t.files[p][k]
    ensures TreeBytes(EditedTree(t, p, k, b)) == Edited(TreeBytes(t), j, b)
  {
    hide ToLe, PathsBytes, FilesBytes, Ascending, Less;
    var t' := EditedTree(t, p, k, b);
    AscendingEnumerates(t.files.Keys);
    var paths := Ascending(t.files.Keys);
    Distinct(paths);
    var i := FilesBytesEdited(paths, t.files, p, k, b);
    var before := ToLe(|t.directories|, 4) + PathsBytes(Ascending(t.directories)) + ToLe(|t.files|, 4);
    var bytes := FilesBytes(paths, t.files);
    assert |t'.files| == |t'.files.Keys| == |t.files|;
    j := |before| + i;
    assert TreeBytes(t) == before + bytes;
    assert TreeBytes(t') == before + Edited(bytes, i, b);
    assert before + Edited(bytes, i, b) == Edited(before + bytes, j, b);
  }

  /** Editing one byte of one file changes one byte of the encoding. */
  lemma EditChangesOneByte(t: FileTree, p: string, k: nat, b: Byte) returns (j: nat)
    requires EncodeTree(t).Ok? && p in t.files && k < |t.files[p]| && b != t.files[p][k]
    ensures OneByteApart(t, EditedTree(t, p, k, b), j, b)
  {
    hide Encodable, TreeBytes, Edited;
    EditedEncodable(t, p, k, b);
    j := EditedBytes(t, p, k, b);
  }
}
