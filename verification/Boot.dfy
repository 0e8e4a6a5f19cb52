/** Starting the platform: recovery or seeding, and what a reboot finds after any run of storage operations. */
module Boot {
  import opened Wrappers
  import opened Words
  import opened Codec
  import opened Disk
  import opened Snapshot
  import opened Protocol
  import opened Store
  import opened Api
  import opened Paths
  import opened Tree
  import opened Rename
  import opened Platform

  /* ----- Seeding ----- */

  datatype InitialFile = InitialFile(path: string, data: seq<Byte>)

  predicate SeedPaths(seeds: seq<InitialFile>) {
    forall s <- seeds :: IsRel(s.path)
  }

  /** The tree that the seeds make one after the other, unless a file stands in the way of a later one. */
  function Seeded(seeds: seq<InitialFile>): Option<FileTree> {
    if seeds == [] then Some(EMPTY_TREE)
    else
      var last := seeds[|seeds| - 1];
      match Seeded(seeds[..|seeds| - 1])
      case None => None
      case Some(t) => if Blocked(t, Parent(last.path)) then None else Some(PutFile(t, last.path, last.data))
  }

  /** A later seed lies under an earlier one. */
  predicate ChildAfterParent(seeds: seq<InitialFile>) {
    exists i, j | 0 <= i < j < |seeds| :: Under(seeds[j].path, seeds[i].path)
  }

  /** A later seed is an ancestor of an earlier one. */
  predicate ParentAfterChild(seeds: seq<InitialFile>) {
    exists i, j | 0 <= i < j < |seeds| :: Under(seeds[i].path, seeds[j].path)
  }

  /** What the seeded tree contains. */
  ghost predicate SeedContents(seeds: seq<InitialFile>, t: FileTree) {
    && (forall p :: p in t.files <==> exists i | 0 <= i < |seeds| :: seeds[i].path == p)
    && (forall d :: d in t.directories <==> exists i | 0 <= i < |seeds| :: Under(seeds[i].path, d))
  }

  lemma ParentLineageAll(p: string)
    requires IsRel(p)
    ensures forall q :: q in Lineage(Components(Parent(p))) <==> Under(p, q)
  {
    hide IsRel, Lineage, Components, Parent, Under;
    forall q ensures q in Lineage(Components(Parent(p))) <==> Under(p, q) {
      ParentLineage(p, q);
    }
  }

  lemma SeedBlocked(front: seq<InitialFile>, t: FileTree, path: string)
    requires SeedContents(front, t) && IsRel(path)
    ensures Blocked(t, Parent(path)) <==> exists i | 0 <= i < |front| :: Under(path, front[i].path)
  {
    hide IsRel, Lineage, Components, Parent, Under;
    ParentLineageAll(path);
    forall i | 0 <= i < |front| && Under(path, front[i].path) ensures Blocked(t, Parent(path)) {
      assert front[i].path in t.files;
    }
    if Blocked(t, Parent(path)) {
      var q :| q in Lineage(Components(Parent(path))) && q in t.files;
      var i :| 0 <= i < |front| && front[i].path == q;
      assert Under(path, front[i].path);
    }
  }

  lemma {:induction false} SeededContents(seeds: seq<InitialFile>)
    requires SeedPaths(seeds)
    ensures Seeded(seeds).Some? <==> !ChildAfterParent(seeds)
    ensures Seeded(seeds).Some? ==> SeedContents(seeds, Seeded(seeds).value)
  {
    hide IsRel, Parent, Blocked, SeedContents, PutFile, ChildAfterParent;
    if seeds == [] {
      NoSeeds();
    } else {
      var n := |seeds| - 1;
      var front, last := seeds[..n], seeds[n];
      assert last in seeds && forall s <- front :: s in seeds;
      SeededContents(front);
      SeedOrderSnoc(seeds);
      if Seeded(front).Some? {
        SeedBlocked(front, Seeded(front).value, last.path);
        assert forall i | 0 <= i < n :: front[i] == seeds[i];
        SeedContentsSnoc(front, last, Seeded(front).value);
        assert seeds == front + [last];
      }
    }
  }

  lemma NoSeeds()
    ensures !ChildAfterParent([]) && SeedContents([], EMPTY_TREE)
  {
  }

  lemma SeedOrderSnoc(seeds: seq<InitialFile>)
    requires seeds != []
    ensures var n := |seeds| - 1;
            ChildAfterParent(seeds) <==>
              ChildAfterParent(seeds[..n]) || exists i | 0 <= i < n :: Under(seeds[n].path, seeds[i].path)
  {
    hide Under;
    var n := |seeds| - 1;
    assert forall i | 0 <= i < n :: seeds[..n][i] == seeds[i];
  }

  lemma SeedContentsSnoc(front: seq<InitialFile>, last: InitialFile, t: FileTree)
    requires SeedContents(front, t) && IsRel(last.path)
    ensures SeedContents(front + [last], PutFile(t, last.path, last.data))
  {
    hide Lineage, Components, Parent, Under, IsRel;
    ParentLineageAll(last.path);
    var t' := PutFile(t, last.path, last.data);
    var seeds := front + [last];
    forall p ensures p in t'.files <==> exists i | 0 <= i < |seeds| :: seeds[i].path == p {
      if p in t.files {
        var i :| 0 <= i < |front| && front[i].path == p;
        assert seeds[i].path == p;
      }
      assert seeds[|front|].path == last.path;
    }
    forall d ensures d in t'.directories <==> exists i | 0 <= i < |seeds| :: Under(seeds[i].path, d) {
      if d in t.directories {
        var i :| 0 <= i < |front| && Under(front[i].path, d);
        assert Under(seeds[i].path, d);
      }
      assert seeds[|front|].path == last.path;
    }
  }

  /**
   * Seeding fails exactly when a seed lies under an earlier one, and when it succeeds the tree is well formed
   * exactly when no seed is an ancestor of an earlier one.
   */
  lemma SeededWellFormedIff(seeds: seq<InitialFile>)
    requires SeedPaths(seeds)
    ensures Seeded(seeds).Some? <==> !ChildAfterParent(seeds)
    ensures Seeded(seeds).Some? ==> (WellFormed(Seeded(seeds).value) <==> !ParentAfterChild(seeds))
  {
    hide IsRel, Seeded;
    SeededContents(seeds);
    if Seeded(seeds).Some? {
      var t := Seeded(seeds).value;
      if ParentAfterChild(seeds) {
        var i, j :| 0 <= i < j < |seeds| && Under(seeds[i].path, seeds[j].path);
        assert seeds[j].path in t.files && seeds[j].path in t.directories;
      } else {
        NestedSeeds(seeds, t);
      }
    }
  }

  /** Seeding any path, "user/a/b" say, and then its parent succeeds and leaves the parent both file and directory. */
  lemma SeedingCanCollide(path: string, name: string, child: seq<Byte>, parent: seq<Byte>)
    requires IsRel(path) && name != "" && NoSlash(name)
    ensures var seeds := [InitialFile(path + "/" + name, child), InitialFile(path, parent)];
            && SeedPaths(seeds) && Seeded(seeds).Some? && !WellFormed(Seeded(seeds).value)
            && path in Seeded(seeds).value.files && path in Seeded(seeds).value.directories
  {
    hide Seeded, WellFormed;
    var seeds := [InitialFile(path + "/" + name, child), InitialFile(path, parent)];
    SplitNoSlash(name);
    SplitConcat(path, name);
    assert Under(seeds[0].path, seeds[1].path);
    SeededWellFormedIff(seeds);
    SeededContents(seeds);
  }

  lemma NestedSeeds(seeds: seq<InitialFile>, t: FileTree)
    requires SeedPaths(seeds) && SeedContents(seeds, t) && !ParentAfterChild(seeds) && !ChildAfterParent(seeds)
    ensures WellFormed(t)
  {
    hide IsRel;
    forall p | p in t.files ensures p !in t.directories {
      var j :| 0 <= j < |seeds| && seeds[j].path == p;
      assert forall i | 0 <= i < |seeds| :: !Under(seeds[i].path, p);
    }
    forall p | Exists(t, p) ensures IsRel(p) {
      if p in t.directories {
        var i :| 0 <= i < |seeds| && Under(seeds[i].path, p);
        assert seeds[i] in seeds;
        UnderRel(seeds[i].path, p);
      }
    }
    forall p, q | Exists(t, p) && Under(p, q) ensures q in t.directories {
      if p in t.directories {
        var i :| 0 <= i < |seeds| && Under(seeds[i].path, p);
        UnderTransitive(seeds[i].path, p, q);
      }
    }
  }

  /** A seeded file has the content of the last seed of its path. */
  lemma {:induction false} SeededContent(seeds: seq<InitialFile>, p: string) returns (i: nat)
    requires Seeded(seeds).Some? && p in Seeded(seeds).value.files
    ensures i < |seeds| && seeds[i].path == p && Seeded(seeds).value.files[p] == seeds[i].data
    ensures forall j | i < j < |seeds| :: seeds[j].path != p
  {
    hide Lineage, Components, Parent, Blocked;
    i := |seeds| - 1;
    if seeds[i].path != p {
      i := SeededContent(seeds[..i], p);
    }
  }

  /* ----- Booting ----- */

  predicate IsEmpty(t: FileTree) {
    t.files == map[] && t.directories == {}
  }

  /** The seeding loop of a fresh platform. */
  method Seed(platform: BareMetalPlatform, seeds: seq<InitialFile>) returns (r: Result<(), Error>)
    requires IsEmpty(platform.tree)
    modifies platform`tree
    ensures r.Ok? <==> Seeded(seeds).Some?
    ensures r.Ok? ==> platform.tree == Seeded(seeds).value
    ensures r.Err? ==> r.error.NotDirectory?
  {
    hide Lineage, Components, Parent, Blocked, WellFormed;
    for i := 0 to |seeds|
      invariant Seeded(seeds[..i]) == Some(platform.tree)
    {
      assert seeds[..i + 1][..i] == seeds[..i];
      var added := platform.AddParents(Parent(seeds[i].path));
      if added.Err? {
        SeededFails(seeds, i + 1);
        return added;
      }
      platform.tree := platform.tree.(files := platform.tree.files[seeds[i].path := seeds[i].data]);
    }
    assert seeds[..|seeds|] == seeds;
    return Ok(());
  }

  lemma {:induction false} SeededFails(seeds: seq<InitialFile>, k: nat)
    requires k <= |seeds| && Seeded(seeds[..k]).None?
    ensures Seeded(seeds).None?
    decreases |seeds| - k
  {
    if k == |seeds| {
      assert seeds[..k] == seeds;
    } else {
      assert seeds[..k + 1][..k] == seeds[..k];
      SeededFails(seeds, k + 1);
    }
  }

  /** What memory holds after a boot: the recovered tree, or the seeds if nothing or an empty tree was recovered. */
  function BootTree(recovered: Option<FileTree>, seeds: seq<InitialFile>): Option<FileTree> {
    if recovered.Some? && !IsEmpty(recovered.value) then recovered else Seeded(seeds)
  }

  /** A recovered tree that holds anything, be it one directory, is kept; otherwise the seeds come back. */
  lemma BootKeepsIff(t: FileTree, seeds: seq<InitialFile>)
    ensures (exists p :: Tree.Exists(t, p)) ==> BootTree(Some(t), seeds) == Some(t)
    ensures !(exists p :: Tree.Exists(t, p)) ==> BootTree(Some(t), seeds) == Seeded(seeds) == BootTree(None, seeds)
  {
    hide Seeded;
    if !(exists p :: Tree.Exists(t, p)) {
      assert forall p <- t.files :: Tree.Exists(t, p);
      assert forall p <- t.directories :: Tree.Exists(t, p);
    }
  }

  /** The device is too small or unreadable, or it is empty and the seeds cannot be stored. */
  ghost predicate Unstartable(image: seq<Sector>, n: nat, seeds: seq<InitialFile>) {
    || !Fits(image, n)
    || Recover(image, n).Err?
    || (BootTree(Recover(image, n).value.tree, seeds) == Seeded(seeds)
        && (Seeded(seeds).Some? ==> TooLarge(Seeded(seeds).value, n)))
  }

  /**
   * Starts the platform on a device. A tree recovered from a well-formed run, or seeds that make one, give a valid
   * platform whose memory and disk agree. A device that cannot be mounted, or that holds a tree, is not written to.
   */
  method Start(disk: Disk, reliable: bool, seeds: seq<InitialFile>)
    returns (r: Result<BareMetalPlatform, Error>, left: Disk)
    requires disk.Valid()
    ensures var n := |disk.current| / 2;
            && (n < 2 || Recover(disk.current, n).Err? ==> r == Err(Io) && left == disk)
            && (2 <= n && Recover(disk.current, n).Ok? ==>
                  var tree := Recover(disk.current, n).value.tree;
                  tree.Some? && !IsEmpty(tree.value) ==> left == disk && (reliable ==> r.Ok?))
    ensures r.Ok? ==> r.value.persistence != null && left == r.value.persistence.disk
    ensures r.Ok? ==>
              && var n := |disk.current| / 2;
              && 2 <= n && Recover(disk.current, n).Ok?
              && var mounted := Recover(disk.current, n).value;
              && fresh(r.value) && r.value.persistence != null && fresh(r.value.persistence) && r.value.Attached()
              && r.value.persistence.reliable == reliable && r.value.persistence.slotBlocks == n
              && r.value.persistence.states != [] && r.value.persistence.states[0] == MountedOn(disk, n, mounted)
              && r.value.Generation() <= mounted.generation + 1
              && Some(r.value.tree) == BootTree(mounted.tree, seeds) && r.value.strays == {}
              && (WellFormed(r.value.tree) ==> r.value.Valid())
              && (WellFormed(r.value.tree) && reliable && mounted.generation < U64_MAX ==>
                    Inv(MountedOn(disk, n, mounted)) ==> r.value.InSync())
              && (reliable && mounted.generation < U64_MAX && Inv(MountedOn(disk, n, mounted)) ==>
                    r.value.Throughout(1, mounted.tree, r.value.tree))
    ensures r.Err? && reliable ==> Unstartable(disk.current, |disk.current| / 2, seeds)
  {
    hide Inv, Reopens, Run, Recover, WellFormed, Seeded, TooLarge, Uninterrupted;
    left := disk;
    var mounting, restored := Open(disk, reliable);
    if mounting.Err? {
      return Err(Io), left;
    }
    var store := mounting.value;
    var platform := new BareMetalPlatform(if restored.Some? then restored.value else EMPTY_TREE, store);
    JustMounted(disk, |disk.current| / 2);
    platform.Still(platform.tree);
    if IsEmpty(platform.tree) {
      var seeded := Seed(platform, seeds);
      if seeded.Err? {
        return Err(seeded.error), left;
      }
      var saved := platform.Persist();
      left := platform.persistence.disk;
      if saved.Err? {
        return Err(saved.error), left;
      }
    }
    return Ok(platform), left;
  }

  lemma JustMounted(disk: Disk, n: nat)
    requires disk.Valid()
    ensures Fits(disk.current, n) && Recover(disk.current, n).Ok? ==>
              var m := MountedOn(disk, n, Recover(disk.current, n).value);
              Inv(m) ==> m.Shaped() && Reopens(m)
  {
    hide Recover;
  }

  /* ----- Whole runs ----- */

  datatype Operation =
    | Write(path: string, data: seq<Byte>)
    | CreateDirAll(path: string)
    | Remove(path: string)
    | Move(from: string, to: string)
  {
    predicate Normalised() {
      match this
      case Write(p, _) => IsRel(p)
      case CreateDirAll(p) => IsRel(p)
      case Remove(p) => IsRel(p)
      case Move(from, to) => IsRel(from) && IsRel(to)
    }
  }

  /** The directories that an operation can leave in memory alone: a rename of nothing makes its target's ancestors. */
  function LeftBy(op: Operation, r: Result<(), Error>): set<string> {
    if op.Move? && r == Err(NotFound(op.from)) then Lineage(Components(Parent(op.to))) else {}
  }

  function Left(ops: seq<Operation>, results: seq<Result<(), Error>>): set<string>
    requires |ops| == |results|
  {
    if ops == [] then {}
    else
      var k := |ops| - 1;
      Left(ops[..k], results[..k]) + LeftBy(ops[k], results[k])
  }

  /** Memory between two operations, what the store has committed, and how many states it has gone through. */
  datatype Moment = Moment(memory: FileTree, strays: set<string>, stored: Option<FileTree>, states: nat)

  ghost function MomentOf(platform: BareMetalPlatform): Moment
    reads platform, platform.persistence
  {
    Moment(platform.tree, platform.strays, platform.Committed(), |platform.States()|)
  }

  /** The store holds the files in memory, and every directory in memory but the strays. */
  ghost predicate Mirrors(m: Moment) {
    && m.stored.Some? && WellFormed(m.stored.value) && WellFormed(m.memory)
    && m.stored.value.files == m.memory.files
    && m.stored.value.directories + m.strays == m.memory.directories
  }

  /** What the operation makes of memory: its own change on success, and on failure at most a target's ancestors. */
  ghost predicate Does(op: Operation, r: Result<(), Error>, t: FileTree, t': FileTree) {
    if r.Err? then
      t' == if op.Move? && r.error == NotFound(op.from) then AddLineage(t, Parent(op.to)) else t
    else
      match op
      case Write(p, data) => t' == PutFile(t, p, data)
      case CreateDirAll(p) => t' == AddLineage(t, p)
      case Remove(p) => Exists(t, p) && t' == Without(t, p)
      case Move(from, to) =>
        if from == to then t' == t
        else Movable(AddLineage(t, Parent(to)), from, to) && t' == RenameTree(t, from, to)
  }

  /**
   * From one moment to the next: memory changes as the operation does, strays come only from a rename of nothing, and
   * a power loss at any state between leaves what was stored before or what memory holds after.
   */
  ghost predicate Step(states: seq<Machine>, m: Moment, op: Operation, r: Result<(), Error>, m': Moment) {
    && Does(op, r, m.memory, m'.memory)
    && m'.strays <= m.strays + LeftBy(op, r)
    && 1 <= m.states <= m'.states <= |states|
    && (forall i | m.states - 1 <= i < m'.states :: Survives(states[i], m.stored, m'.memory))
  }

  /** The moments of a run, one before each operation and one at the end. */
  ghost predicate Unbroken(
    states: seq<Machine>, ops: seq<Operation>, results: seq<Result<(), Error>>, moments: seq<Moment>)
  {
    && |results| == |ops| && |moments| == |ops| + 1
    && (forall m <- moments :: Mirrors(m))
    && (forall j | 0 <= j < |ops| :: Step(states, moments[j], ops[j], results[j], moments[j + 1]))
  }

  lemma UnbrokenSnoc(
    states: seq<Machine>, states': seq<Machine>, ops: seq<Operation>, results: seq<Result<(), Error>>,
    moments: seq<Moment>, op: Operation, r: Result<(), Error>, m: Moment)
    requires Unbroken(states, ops, results, moments) && states <= states'
    requires Mirrors(m) && Step(states', moments[|ops|], op, r, m)
    ensures Unbroken(states', ops + [op], results + [r], moments + [m])
  {
    hide LeftBy, Survives, Mirrors;
    forall j | 0 <= j < |ops|
      ensures Step(states', moments[j], ops[j], results[j], moments[j + 1])
    {
      assert Step(states, moments[j], ops[j], results[j], moments[j + 1]);
    }
  }

  method Perform(platform: BareMetalPlatform, op: Operation) returns (r: Result<(), Error>)
    requires platform.Valid() && op.Normalised()
    modifies platform, platform.persistence
    ensures platform.Valid()
    ensures Does(op, r, old(platform.tree), platform.tree)
    ensures platform.strays <= old(platform.strays) + LeftBy(op, r)
    ensures platform.Generation() <= old(platform.Generation()) + 1 && old(platform.States()) <= platform.States()
    ensures old(platform.InSync()) && old(platform.CanSave()) ==> platform.InSync()
    ensures old(platform.InSync()) && old(platform.CanSave()) && platform.persistence != null ==>
              && Mirrors(MomentOf(platform))
              && Step(platform.persistence.states, old(MomentOf(platform)), op, r, MomentOf(platform))
  {
    hide IsRel, WellFormed, Inv, Reopens, Run, Lineage, Components, Parent, TooLarge, Survives;
    match op {
      case Write(path, data) => r := platform.StorageWrite(path, data);
      case CreateDirAll(path) => r := platform.StorageCreateDirAll(path);
      case Remove(path) => r := platform.StorageRemove(path);
      case Move(from, to) => r := platform.StorageRename(from, to);
    }
  }

  lemma NothingLeft()
    ensures Left([], []) == {}
  {
  }

  lemma LeftSnoc(ops: seq<Operation>, results: seq<Result<(), Error>>, op: Operation, r: Result<(), Error>)
    requires |ops| == |results|
    ensures Left(ops + [op], results + [r]) == Left(ops, results) + LeftBy(op, r)
  {
    hide LeftBy;
    assert (ops + [op])[..|ops|] == ops && (results + [r])[..|ops|] == results;
  }

  lemma Beginning(platform: BareMetalPlatform)
    requires platform.Valid() && platform.InSync() && platform.persistence != null
    ensures Unbroken(platform.persistence.states, [], [], [MomentOf(platform)])
  {
    hide Inv, Run, Reopens, WellFormed;
  }

  /**
   * Any run of operations, failed ones included, on a device that does not fail keeps memory and disk in step: memory
   * differs by directories that renames of nothing left, and a power loss during any operation leaves what was stored
   * before it or what it made.
   */
  method PerformAll(platform: BareMetalPlatform, ops: seq<Operation>)
    returns (ghost results: seq<Result<(), Error>>, ghost moments: seq<Moment>)
    requires platform.Valid() && platform.InSync() && platform.CanSave()
    requires platform.Generation() + |ops| < U64_MAX
    requires forall op <- ops :: op.Normalised()
    modifies platform, platform.persistence
    ensures platform.Valid() && platform.InSync()
    ensures platform.Generation() <= old(platform.Generation()) + |ops| && old(platform.States()) <= platform.States()
    ensures |results| == |ops| && platform.strays <= old(platform.strays) + Left(ops, results)
    ensures platform.persistence != null ==>
              && Unbroken(platform.persistence.states, ops, results, moments)
              && moments[0] == old(MomentOf(platform)) && moments[|ops|] == MomentOf(platform)
  {
    hide IsRel, WellFormed, Inv, Run, Reopens, LeftBy, Unbroken, Step, Left, Mirrors;
    results, moments := [], [MomentOf(platform)];
    if platform.persistence != null {
      Beginning(platform);
    }
    NothingLeft();
    for i := 0 to |ops|
      invariant platform.Valid() && platform.InSync()
      invariant platform.Generation() <= old(platform.Generation()) + i && old(platform.States()) <= platform.States()
      invariant |results| == i && |moments| == i + 1
      invariant platform.strays <= old(platform.strays) + Left(ops[..i], results)
      invariant platform.persistence != null ==>
                  && Unbroken(platform.persistence.states, ops[..i], results, moments)
                  && moments[0] == old(MomentOf(platform)) && moments[i] == MomentOf(platform)
    {
      assert ops[i] in ops;
      ghost var states := platform.States();
      var r := Perform(platform, ops[i]);
      assert ops[..i + 1] == ops[..i] + [ops[i]];
      LeftSnoc(ops[..i], results, ops[i], r);
      if platform.persistence != null {
        UnbrokenSnoc(states, platform.persistence.states, ops[..i], results, moments, ops[i], r, MomentOf(platform));
      }
      results, moments := results + [r], moments + [MomentOf(platform)];
    }
    assert ops[..|ops|] == ops;
  }

  /**
   * While memory and disk are in step, opening the disk yields exactly the files in memory, and every directory in
   * memory but the strays; a power loss makes no difference unless the other slot holds a checksum collision, and
   * the platform that `Start` makes of what it leaves is in step again.
   */
  lemma ReopenYieldsMemory(platform: BareMetalPlatform, image: seq<Sector>)
    requires platform.Valid() && platform.InSync() && platform.persistence != null
    requires platform.persistence.generation < U64_MAX
    requires CrashImage(platform.persistence.disk, image)
    ensures var store := platform.persistence;
            && Recover(store.disk.current, store.slotBlocks) == Ok(store.View().AsMounted())
            && Mirrors(MomentOf(platform))
            && (Recover(image, store.slotBlocks).Ok? ==>
                  var mounted := Recover(image, store.slotBlocks).value;
                  && mounted == store.View().AsMounted() && WellFormed(mounted.tree.value)
                  && Inv(MountedOn(Stable(image), store.slotBlocks, mounted)))
            && (Recover(image, store.slotBlocks).Err? <==> Collides(image, store.View().Target(), store.slotBlocks))
  {
    hide Recover, Inv, Collides, WellFormed, TreeOf, Run;
    var m := platform.persistence.View();
    PowerLossExact(m, image);
    if Recover(image, m.n).Ok? {
      var m' := MountedOn(Stable(image), m.n, Recover(image, m.n).value);
      PowerLossIsStep(m, image, m');
      NextKeepsInv(m, PowerLoss(image), m');
    }
  }

  lemma PowerLossIsStep(m: Machine, image: seq<Sector>, m': Machine)
    requires m.Shaped() && m.attempts == {} && CrashImage(m.disk, image) && Recover(image, m.n).Ok?
    requires m' == MountedOn(Stable(image), m.n, Recover(image, m.n).value)
    ensures Next(m, PowerLoss(image), m')
  {
    hide Recover;
  }

  /* ----- Several lives ----- */

  /** The power goes: each sector keeps one of the contents that it may have. */
  method LosePower(disk: Disk) returns (image: seq<Sector>)
    requires disk.Valid()
    ensures CrashImage(disk, image)
  {
    image := [];
    for i := 0 to |disk.current|
      invariant |image| == i && forall j | 0 <= j < i :: image[j] in disk.possible[j]
    {
      assert disk.current[i] in disk.possible[i];
      var b :| b in disk.possible[i];
      image := image + [b];
    }
  }

  /**
   * One life of the platform: what recovery found, what the operations returned, the moments between them, the states
   * that the store went through, and the one in which the power went.
   */
  datatype Life = Life(
    found: Option<FileTree>, results: seq<Result<(), Error>>, moments: seq<Moment>, states: seq<Machine>, cut: nat)

  /**
   * A life begins with what recovery found, or with the seeds if that was nothing. While it boots, and during each
   * operation, a power loss leaves what was stored before or what was being stored. At each moment between operations
   * all files are stored, and all directories but some that renames of nothing left.
   */
  ghost predicate Lived(seeds: seq<InitialFile>, ops: seq<Operation>, life: Life) {
    && Unbroken(life.states, ops, life.results, life.moments)
    && Some(life.moments[0].memory) == BootTree(life.found, seeds)
    && life.moments[|ops|].strays <= Left(ops, life.results)
    && life.cut < life.moments[|ops|].states == |life.states| && life.moments[0].states <= |life.states|
    && (forall i | 0 <= i < life.moments[0].states :: Survives(life.states[i], life.found, life.moments[0].memory))
  }

  /** What the power loss left, told from where it struck: while booting or during the j-th operation. */
  ghost predicate LeftBehind(life: Life, tree: Option<FileTree>) {
    || (life.moments != [] && life.cut < life.moments[0].states
        && (tree == life.found || tree == Some(life.moments[0].memory)))
    || exists j | 0 <= j < |life.moments| - 1 :: CutDuring(life, j, tree)
  }

  ghost predicate CutDuring(life: Life, j: nat, tree: Option<FileTree>)
    requires j + 1 < |life.moments|
  {
    && life.moments[j].states - 1 <= life.cut < life.moments[j + 1].states
    && (tree == life.moments[j].stored || tree == Some(life.moments[j + 1].memory))
  }

  /** How many generations the lives can use up: one for seeding, one for each operation and one that was cut short. */
  function Cost(lives: seq<seq<Operation>>): nat {
    if lives == [] then 0 else Cost(lives[..|lives| - 1]) + |lives[|lives| - 1]| + 2
  }

  lemma {:induction false} CostGrows(lives: seq<seq<Operation>>, k: nat)
    requires k < |lives|
    ensures Cost(lives[..k + 1]) == Cost(lives[..k]) + |lives[k]| + 2 <= Cost(lives)
    decreases |lives| - k
  {
    assert lives[..k + 1][..k] == lives[..k];
    if k + 1 == |lives| {
      assert lives[..k + 1] == lives;
    } else {
      CostGrows(lives, k + 1);
    }
  }

  /** A device that holds nothing, or what a platform left. */
  ghost predicate Bootable(image: seq<Sector>, n: nat, spent: nat) {
    && Fits(image, n)
    && (Recover(image, n).Ok? ==>
          var mounted := Recover(image, n).value;
          && Inv(MountedOn(Stable(image), n, mounted)) && mounted.generation <= spent
          && (mounted.tree.Some? ==> WellFormed(mounted.tree.value)))
  }

  lemma ZeroedIsBootable(image: seq<Sector>, n: nat)
    requires Fits(image, n) && image[0] == ZERO_SECTOR == image[n]
    ensures Bootable(image, n, 0) && (Recover(image, n).Ok? ==> Recover(image, n).value.tree == None)
  {
    hide Inv, Recover, Blank;
    if Recover(image, n).Ok? {
      OpensBlankIff(image, n);
      BlankInv(MountedOn(Stable(image), n, Recover(image, n).value));
    }
  }

  lemma BootsWellFormed(recovered: Option<FileTree>, seeds: seq<InitialFile>)
    requires SeedPaths(seeds) && !ParentAfterChild(seeds)
    requires recovered.Some? ==> WellFormed(recovered.value)
    ensures BootTree(recovered, seeds).Some? ==> WellFormed(BootTree(recovered, seeds).value)
  {
    hide WellFormed, Seeded, ParentAfterChild, ChildAfterParent;
    SeededWellFormedIff(seeds);
  }

  /** Every state of a run without failures and reopenings keeps the invariant, and generations only grow. */
  lemma {:induction false} RunStates(ms: seq<Machine>, es: seq<Event>, i: nat)
    requires Run(ms, es) && (forall e <- es :: e.Clean() && !e.Recovers()) && i <= |es|
    requires Inv(ms[0]) && Faultless(ms[0]) && ms[|es|].generation < U64_MAX
    ensures Inv(ms[i]) && Faultless(ms[i]) && ms[i].generation <= ms[|es|].generation
    ensures ms[i].n == ms[0].n && |ms[i].disk.current| == |ms[0].disk.current|
    decreases |es| - i
  {
    hide Inv, Faultless, Next, SafelyReopens;
    GenerationsGrow(ms, es, i);
    forall j | 0 <= j <= i ensures ms[j].generation < U64_MAX {
      GenerationsGrow(ms, es, j);
    }
    assert Run(ms[..i + 1], es[..i]) && forall e <- es[..i] :: e in es;
    NoResetIsSafe(ms[..i + 1], es[..i]);
    RunKeepsInv(ms[..i + 1], es[..i]);
    ShapeKept(ms, es, i);
  }

  lemma {:induction false} GenerationsGrow(ms: seq<Machine>, es: seq<Event>, i: nat)
    requires Run(ms, es) && (forall e <- es :: !e.Recovers()) && i <= |es|
    ensures ms[i].generation <= ms[|es|].generation
    decreases |es| - i
  {
    hide EncodeTree, HeaderFor, TreeOf, WriteStep, FlushStep;
    if i < |es| {
      assert Next(ms[i], es[i], ms[i + 1]) && es[i] in es;
      GenerationsGrow(ms, es, i + 1);
    }
  }

  lemma {:induction false} ShapeKept(ms: seq<Machine>, es: seq<Event>, i: nat)
    requires Run(ms, es) && i <= |es|
    ensures ms[i].n == ms[0].n && |ms[i].disk.current| == |ms[0].disk.current|
  {
    hide Recover, EncodeTree, HeaderFor, TreeOf;
    if i > 0 {
      ShapeKept(ms, es, i - 1);
      assert Next(ms[i - 1], es[i - 1], ms[i]);
    }
  }

  /** A power loss in any state leaves a device from which the store can go on. */
  lemma CutIsBootable(m: Machine, image: seq<Sector>)
    requires Inv(m) && Faultless(m) && m.generation < U64_MAX && CrashImage(m.disk, image) && Recover(image, m.n).Ok?
    ensures var mounted := Recover(image, m.n).value;
            Inv(MountedOn(Stable(image), m.n, mounted)) && mounted.generation <= m.generation + 1
  {
    hide Inv, Recover, Collides, TreeOf, HeaderFor;
    HeldOfInv(m);
    ShapedAndActive(m);
    var mounted := Recover(image, m.n).value;
    var m' := Machine(Stable(image), m.n, mounted.active, mounted.generation, Idle, mounted.tree,
                      if mounted.generation == m.generation then LiveAttempts(m, image) else {});
    assert Next(m, PowerLoss(image), m');
    NextKeepsInv(m, PowerLoss(image), m');
    PowerLossExact(m, image);
  }

  /** What a life leaves is what was stored before or what was being stored. */
  lemma LifeLeaves(seeds: seq<InitialFile>, ops: seq<Operation>, life: Life, image: seq<Sector>)
    requires Lived(seeds, ops, life) && (life.found.Some? ==> WellFormed(life.found.value))
    requires var m := life.states[life.cut];
             m.Shaped() && m.generation < U64_MAX && CrashImage(m.disk, image) && Recover(image, m.n).Ok?
    ensures var tree := Recover(image, life.states[life.cut].n).value.tree;
            LeftBehind(life, tree) && (tree.Some? ==> WellFormed(tree.value))
  {
    hide Recover, WellFormed, Seeded, Left, LeftBy;
    var m := life.states[life.cut];
    var tree := Recover(image, m.n).value.tree;
    if life.cut < life.moments[0].states {
      assert life.moments[0] in life.moments && Mirrors(life.moments[0]);
      assert Survives(m, life.found, life.moments[0].memory);
    } else {
      var j := CutOperation(seeds, ops, life, |ops|);
      var before, after := life.moments[j], life.moments[j + 1];
      assert Step(life.states, before, ops[j], life.results[j], after);
      assert Survives(m, before.stored, after.memory);
      assert before in life.moments && after in life.moments && Mirrors(before) && Mirrors(after);
      assert CutDuring(life, j, tree);
    }
  }

  /** And it is bootable. */
  lemma LifeGoesOn(seeds: seq<InitialFile>, ops: seq<Operation>, life: Life, image: seq<Sector>, spent: nat)
    requires Lived(seeds, ops, life) && (life.found.Some? ==> WellFormed(life.found.value))
    requires var m := life.states[life.cut];
             m.Shaped() && Inv(m) && Faultless(m) && m.generation < U64_MAX && m.generation < spent
             && CrashImage(m.disk, image)
    ensures Bootable(image, life.states[life.cut].n, spent)
    ensures var r := Recover(image, life.states[life.cut].n); r.Ok? ==> LeftBehind(life, r.value.tree)
  {
    hide Inv, Recover, WellFormed, Unbroken, Seeded, Left, Faultless, LeftBehind, Survives;
    var m := life.states[life.cut];
    if Recover(image, m.n).Ok? {
      CutIsBootable(m, image);
      LifeLeaves(seeds, ops, life, image);
    }
  }

  /** The operation that was under way. */
  lemma {:induction false} CutOperation(seeds: seq<InitialFile>, ops: seq<Operation>, life: Life, k: nat)
    returns (j: nat)
    requires Lived(seeds, ops, life) && k <= |ops| && life.moments[0].states <= life.cut < life.moments[k].states
    ensures j < k && life.moments[j].states - 1 <= life.cut < life.moments[j + 1].states
    decreases k
  {
    hide Survives, WellFormed, Seeded, Left, LeftBy;
    if life.moments[k - 1].states <= life.cut {
      j := k - 1;
    } else {
      j := CutOperation(seeds, ops, life, k - 1);
    }
  }

  /** One life, ended by a power loss at any moment of it. */
  method Live(image: seq<Sector>, seeds: seq<InitialFile>, ops: seq<Operation>, ghost spent: nat)
    returns (r: Result<seq<Sector>, Error>, ghost life: Life)
    requires Bootable(image, |image| / 2, spent) && spent + |ops| + 2 < U64_MAX
    requires SeedPaths(seeds) && !ParentAfterChild(seeds) && forall op <- ops :: op.Normalised()
    ensures r.Err? ==> Unstartable(image, |image| / 2, seeds)
    ensures r.Ok? ==>
              && var n := |image| / 2;
              && Recover(image, n).Ok? && life.found == Recover(image, n).value.tree
              && Lived(seeds, ops, life)
              && |r.value| == |image| && Bootable(r.value, n, spent + |ops| + 2)
              && (Recover(r.value, n).Ok? ==> LeftBehind(life, Recover(r.value, n).value.tree))
  {
    hide Inv, Recover, WellFormed, Seeded, Run, Mirrors, Left, ParentAfterChild, Reopens, IsRel, Unbroken,
         Unstartable, LeftBehind, Faultless, Survives;
    life := Life(None, [], [], [], 0);
    var started, _ := Start(Stable(image), true, seeds);
    if started.Err? {
      return Err(started.error), life;
    }
    var platform := started.value;
    ghost var found := Recover(image, |image| / 2).value.tree;
    BootsWellFormed(found, seeds);
    ghost var booting := platform.States();
    ghost var results, moments := PerformAll(platform, ops);
    var store := platform.persistence;
    var cut: nat :| cut < |store.trail|;
    life := Life(found, results, moments, store.states, cut);
    assert life.states[..|booting|] == booting;
    MountedFaultless(Stable(image), |image| / 2, Recover(image, |image| / 2).value);
    LifeStates(store, image, cut);
    var left := LosePower(store.trail[cut]);
    LifeGoesOn(seeds, ops, life, left, spent + |ops| + 2);
    return Ok(left), life;
  }

  lemma MountedFaultless(disk: Disk, n: nat, mounted: Mounted)
    ensures Faultless(MountedOn(disk, n, mounted))
  {
  }

  lemma LifeStates(store: SnapshotStore, image: seq<Sector>, i: nat)
    requires store.Valid() && store.reliable && i < |store.states| && store.generation < U64_MAX
    requires Inv(store.states[0]) && Faultless(store.states[0])
    requires |store.states[0].disk.current| == |image|
    ensures var m := store.states[i];
            && m.Shaped() && Inv(m) && Faultless(m) && m.generation <= store.generation && m.n == store.slotBlocks
            && |m.disk.current| == |image| && m.disk == store.trail[i]
  {
    hide Inv, Faultless, Next;
    RunStates(store.states, store.events, i);
    ShapeKept(store.states, store.events, |store.events|);
  }

  /**
   * From a zeroed device and through any number of lives, each a boot, a run of operations and a power loss at any
   * moment, also in the middle of a save, every life begins with what had been stored before the operation that was
   * cut short, or with what that operation was storing. A life that does not begin found a device that cannot be read
   * or seeds that cannot be stored.
   */
  method Lives(zeroed: seq<Sector>, seeds: seq<InitialFile>, runs: seq<seq<Operation>>)
    returns (image: seq<Sector>, ghost lives: seq<Life>)
    requires 4 <= |zeroed| && zeroed[0] == ZERO_SECTOR == zeroed[|zeroed| / 2]
    requires SeedPaths(seeds) && !ParentAfterChild(seeds)
    requires (forall ops <- runs :: forall op <- ops :: op.Normalised()) && Cost(runs) < U64_MAX
    ensures |lives| <= |runs| && forall k | 0 <= k < |lives| :: Lived(seeds, runs[k], lives[k])
    ensures lives != [] ==> lives[0].found == None
    ensures forall k | 0 < k < |lives| :: LeftBehind(lives[k - 1], lives[k].found)
    ensures |image| == |zeroed| && (lives != [] && Recover(image, |zeroed| / 2).Ok? ==>
                                      LeftBehind(lives[|lives| - 1], Recover(image, |zeroed| / 2).value.tree))
    ensures |lives| < |runs| ==> Unstartable(image, |zeroed| / 2, seeds)
  {
    hide Inv, Recover, WellFormed, Seeded, Lived, LeftBehind, IsRel, Bootable, Unstartable, ParentAfterChild;
    var n := |zeroed| / 2;
    lives := [];
    image := zeroed;
    ZeroedIsBootable(image, n);
    BootableFits(image, n, 0);
    for k := 0 to |runs|
      invariant |image| == |zeroed| && |lives| == k && Bootable(image, n, Cost(runs[..k])) && Fits(image, n)
      invariant Recover(image, n).Ok? ==>
                  if k == 0 then Recover(image, n).value.tree == None
                  else LeftBehind(lives[k - 1], Recover(image, n).value.tree)
      invariant forall j | 0 <= j < k :: Lived(seeds, runs[j], lives[j])
      invariant lives != [] ==> lives[0].found == None
      invariant forall j | 0 < j < k :: LeftBehind(lives[j - 1], lives[j].found)
    {
      CostGrows(runs, k);
      assert runs[k] in runs;
      var life;
      ghost var lived;
      life, lived := Live(image, seeds, runs[k], Cost(runs[..k]));
      if life.Err? {
        return;
      }
      image, lives := life.value, lives + [lived];
      BootableFits(image, n, Cost(runs[..k + 1]));
    }
  }

  lemma BootableFits(image: seq<Sector>, n: nat, spent: nat)
    requires Bootable(image, n, spent)
    ensures Fits(image, n)
  {
  }
}
