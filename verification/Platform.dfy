/** The bare-metal platform's writable storage: a tree in memory, committed through the snapshot store. */
module Platform {
  import opened Wrappers
  import opened Words
  import opened Order
  import opened Codec
  import opened Disk
  import opened Snapshot
  import opened Protocol
  import opened Store
  import opened Api
  import opened Paths
  import opened Tree
  import opened Rename

  class BareMetalPlatform {
    var tree: FileTree
    const persistence: SnapshotStore?

    /** Directories that memory holds and the disk does not. */
    ghost var strays: set<string>

    ghost predicate Attached()
      reads this, persistence
    {
      persistence != null ==> persistence.Valid()
    }

    ghost predicate Valid()
      reads this, persistence
    {
      Attached() && WellFormed(tree)
    }

    /** The device never fails and has a generation left. */
    ghost predicate CanSave()
      reads this, persistence
    {
      persistence != null ==> persistence.reliable && persistence.generation < U64_MAX
    }

    /** A commit of the tree is sure to succeed. */
    ghost predicate Accepts(t: FileTree) {
      persistence != null ==> persistence.reliable && !TooLarge(t, persistence.slotBlocks)
    }

    ghost function Generation(): nat
      reads this, persistence
    {
      if persistence == null then 0 else persistence.generation
    }

    ghost predicate DiskSound()
      reads this, persistence
      requires Attached()
    {
      persistence != null ==> Inv(persistence.View()) && Reopens(persistence.View()) && persistence.attempts == {}
    }

    ghost predicate Stored()
      reads this, persistence
    {
      persistence != null ==>
        && persistence.committed.Some? && WellFormed(persistence.committed.value)
        && persistence.committed.value.files == tree.files
        && persistence.committed.value.directories + strays == tree.directories
    }

    /** Opening the disk now gives the files in memory, and the directories less the strays. */
    ghost predicate InSync()
      reads this, persistence
      requires Attached()
    {
      DiskSound() && Stored()
    }

    /** The states that the store has gone through. */
    ghost function States(): seq<Machine>
      reads this, persistence
    {
      if persistence == null then [] else persistence.states
    }

    ghost function Committed(): Option<FileTree>
      reads this, persistence
    {
      if persistence == null then None else persistence.committed
    }

    /** A power loss at any moment since the store had n states leaves `before` or `after`. */
    ghost predicate Throughout(n: nat, before: Option<FileTree>, after: FileTree)
      reads this, persistence
    {
      persistence != null ==> Uninterrupted(persistence.states, n, before, after)
    }

    /** While nothing is being saved a power loss leaves the committed tree. */
    lemma Still(t: FileTree)
      requires Attached()
      ensures DiskSound() && CanSave() ==> Throughout(|States()|, Committed(), t)
    {
      hide Inv, Recover, Uninterrupted, Next;
      if persistence != null && DiskSound() && CanSave() {
        StillUninterrupted(persistence.states, t);
      }
    }

    constructor (tree: FileTree, persistence: SnapshotStore?)
      ensures this.tree == tree && this.persistence == persistence && strays == {}
    {
      this.tree := tree;
      this.persistence := persistence;
      this.strays := {};
    }

    method Persist() returns (r: Result<(), Error>)
      requires Attached()
      modifies persistence
      ensures Attached()
      ensures r.Err? ==> r.error == Io && persistence != null && persistence.committed == old(persistence.committed)
      ensures r.Ok? && persistence != null ==> persistence.committed == Some(tree)
      ensures Accepts(tree) ==> r.Ok?
      ensures Generation() <= old(Generation()) + 1 && old(States()) <= States()
      ensures old(DiskSound()) && old(CanSave()) ==> DiskSound()
      ensures old(DiskSound()) && old(CanSave()) ==> Throughout(|old(States())|, old(Committed()), tree)
      ensures old(CanSave()) && r.Err? ==> States() == old(States()) && Generation() == old(Generation())
    {
      hide Inv, Next, Reopens, Uninterrupted, TooLarge;
      Still(tree);
      if persistence != null {
        ghost var k := |persistence.events|;
        ghost var before := persistence.View();
        var saved := persistence.Save(tree);
        if saved.Err? {
          return Err(Io);
        }
        if old(DiskSound()) && old(CanSave()) {
          SaveKeepsSound(persistence.states, persistence.events, k, before, tree);
          SaveUninterrupted(persistence.states, persistence.events, k, before, tree);
        }
      }
      return Ok(());
    }

    method Commit(previous: FileTree) returns (r: Result<(), Error>)
      requires Attached()
      modifies this, persistence
      ensures Attached()
      ensures r.Ok? ==> tree == old(tree) && strays == {}
      ensures r.Err? ==> r.error == Io && tree == previous && strays == old(strays)
      ensures r.Err? ==> persistence != null && persistence.committed == old(persistence.committed)
      ensures r.Ok? && persistence != null ==> persistence.committed == Some(tree)
      ensures Accepts(old(tree)) ==> r.Ok?
      ensures Generation() <= old(Generation()) + 1 && old(States()) <= States()
      ensures old(DiskSound()) && old(CanSave()) ==> DiskSound()
      ensures old(DiskSound()) && old(CanSave()) ==> Throughout(|old(States())|, old(Committed()), tree)
    {
      hide TooLarge, Inv, Run, Next, Reopens, Uninterrupted;
      r := Persist();
      if r.Err? {
        tree := previous;
        Still(tree);
      } else {
        strays := {};
      }
    }

    /**
     * Makes every leading part of the path a directory. A file in the way stops it, and on a well-formed tree it
     * has then changed nothing.
     */
    method AddParents(path: string) returns (r: Result<(), Error>)
      modifies this`tree
      ensures r.Ok? <==> !Blocked(old(tree), path)
      ensures r.Ok? ==> tree == AddLineage(old(tree), path)
      ensures r.Err? ==> r.error.NotDirectory? && r.error.path in old(tree).files
                         && r.error.path in Lineage(Components(path))
      ensures r.Err? && WellFormed(old(tree)) ==> tree == old(tree)
    {
      var parts := Components(path);
      var current := "";
      ComponentsAreNames(path);
      for k := 0 to |parts|
        invariant current == Join(parts[..k])
        invariant tree == old(tree).(directories := old(tree).directories + Lineage(parts[..k]))
        invariant forall q <- Lineage(parts[..k]) :: q !in old(tree).files
      {
        hide IsRel, Under, WellFormed;
        JoinMore(parts, k);
        if current != "" {
          current := current + "/";
        }
        current := current + parts[k];
        assert current == Join(parts[..k + 1]);
        LineageMember(parts, k + 1);
        if current in tree.files {
          if WellFormed(old(tree)) {
            LineageOfFile(old(tree), parts, k);
          }
          return Err(NotDirectory(current));
        }
        LineageMore(parts, k);
        tree := tree.(directories := tree.directories + {current});
      }
      assert parts[..|parts|] == parts;
      return Ok(());
    }

    /* ----- Storage operations on normalised relative paths ----- */

    method StorageRead(path: string) returns (r: Result<seq<Byte>, Error>)
      requires Valid()
      ensures path in tree.directories ==> r == Err(IsDirectory(path))
      ensures path in tree.files ==> r == Ok(tree.files[path])
      ensures !Exists(tree, path) ==> r == Err(NotFound(path))
    {
      if path in tree.directories {
        return Err(IsDirectory(path));
      }
      if path in tree.files {
        return Ok(tree.files[path]);
      }
      return Err(NotFound(path));
    }

    method StorageWrite(path: string, data: seq<Byte>) returns (r: Result<(), Error>)
      requires Valid() && IsRel(path)
      modifies this, persistence
      ensures Valid()
      ensures r.Ok? ==> path !in old(tree).directories && !Blocked(old(tree), Parent(path))
      ensures r.Ok? ==> tree == PutFile(old(tree), path, data) && strays == {}
      ensures r.Err? ==> tree == old(tree) && strays == old(strays)
      ensures r == Err(IsDirectory(path)) <==> path in old(tree).directories
      ensures (r.Err? && r.error.NotDirectory?) <==> path !in old(tree).directories && Blocked(old(tree), Parent(path))
      ensures path !in old(tree).directories && !Blocked(old(tree), Parent(path)) ==>
                r.Ok? || (r.error == Io && !Accepts(PutFile(old(tree), path, data)))
      ensures Generation() <= old(Generation()) + 1 && old(States()) <= States()
      ensures old(InSync()) && old(CanSave()) ==> InSync()
      ensures old(InSync()) && old(CanSave()) ==> Throughout(|old(States())|, old(Committed()), tree)
    {
      hide TooLarge, IsRel, Lineage, Components, Parent, Blocked, WellFormed, Inv, Reopens, Run, Uninterrupted;
      Still(tree);
      if path in tree.directories {
        return Err(IsDirectory(path));
      }
      var previous := tree;
      var added := AddParents(Parent(path));
      if added.Err? {
        return added;
      }
      tree := tree.(files := tree.files[path := data]);
      PutFileWellFormed(previous, path, data);
      r := Commit(previous);
    }

    method StorageCreateDirAll(path: string) returns (r: Result<(), Error>)
      requires Valid()
      modifies this, persistence
      ensures Valid()
      ensures r.Ok? ==> !Blocked(old(tree), path) && tree == AddLineage(old(tree), path) && strays == {}
      ensures r.Err? ==> tree == old(tree) && strays == old(strays)
      ensures (r.Err? && r.error.NotDirectory?) <==> Blocked(old(tree), path)
      ensures !Blocked(old(tree), path) ==> r.Ok? || (r.error == Io && !Accepts(AddLineage(old(tree), path)))
      ensures Generation() <= old(Generation()) + 1 && old(States()) <= States()
      ensures old(InSync()) && old(CanSave()) ==> InSync()
      ensures old(InSync()) && old(CanSave()) ==> Throughout(|old(States())|, old(Committed()), tree)
    {
      hide TooLarge, IsRel, Lineage, Components, Parent, Blocked, WellFormed, Inv, Reopens, Run, Uninterrupted;
      Still(tree);
      var previous := tree;
      var added := AddParents(path);
      if added.Err? {
        return added;
      }
      AddLineageWellFormed(previous, path);
      r := Commit(previous);
    }

    method StorageRemove(path: string) returns (r: Result<(), Error>)
      requires Valid()
      modifies this, persistence
      ensures Valid()
      ensures r.Ok? ==> Exists(old(tree), path) && strays == {}
      ensures r.Ok? ==> tree == Without(old(tree), path)
      ensures r.Err? ==> tree == old(tree) && strays == old(strays)
      ensures r == Err(NotFound(path)) <==> !Exists(old(tree), path)
      ensures Exists(old(tree), path) ==> r.Ok? || (r.error == Io && !Accepts(Without(old(tree), path)))
      ensures Generation() <= old(Generation()) + 1 && old(States()) <= States()
      ensures old(InSync()) && old(CanSave()) ==> InSync()
      ensures old(InSync()) && old(CanSave()) ==> Throughout(|old(States())|, old(Committed()), tree)
    {
      hide TooLarge, IsRel, WellFormed, Inv, Reopens, Run, Uninterrupted;
      Still(tree);
      var previous := tree;
      if path in tree.files {
        tree := tree.(files := tree.files - {path});
        RemoveFileWellFormed(previous, path);
        r := Commit(previous);
        return;
      }
      if path !in tree.directories {
        return Err(NotFound(path));
      }
      tree := tree.(files := map name | name in tree.files && !Under(name, path) :: tree.files[name]);
      tree := tree.(directories := set name | name in tree.directories && name != path && !Under(name, path));
      assert tree.directories == RemoveSubtree(previous, path).directories;
      RemoveSubtreeWellFormed(previous, path);
      r := Commit(previous);
    }

    /** The loop that carries the directories to their new place. */
    method MoveDirectories(moved: seq<string>, from: string, to: string)
      requires Apart(from, to) && forall p :: p in moved <==> p in tree.directories && Inside(p, from)
      modifies this`tree
      ensures tree == old(tree).(directories := Relocate(old(tree).directories, from, to))
    {
      hide Inside, Rebased, Apart, Relocate, MovedSoFar;
      ghost var start := tree.directories;
      NoneMoved(start, from, to);
      for i := 0 to |moved|
        invariant tree == old(tree).(directories := MovedSoFar(start, moved[..i], from, to))
      {
        var path := moved[i];
        assert path in moved;
        MoveOneMore(start, moved[..i], path, from, to);
        assert moved[..i + 1] == moved[..i] + [path];
        tree := tree.(directories := tree.directories - {path});
        tree := tree.(directories := tree.directories + {Rebased(path, from, to)});
      }
      assert moved[..|moved|] == moved;
      AllMoved(start, moved, from, to);
    }

    /** The loop that carries the files and their contents to their new place. */
    method MoveFiles(moved: seq<string>, contents: map<string, seq<Byte>>, from: string, to: string)
      requires Apart(from, to) && ClearOf(tree.files.Keys, to) && tree.files == contents
      requires forall p :: p in moved <==> p in contents && Inside(p, from)
      modifies this`tree
      ensures tree.directories == old(tree).directories
      ensures FilesSoFar(contents, moved, from, to, tree.files)
    {
      hide Inside, Rebased, Apart, MovedSoFar, FilesSoFar, ClearOf;
      NoFilesMoved(contents, from, to);
      for i := 0 to |moved|
        invariant tree.directories == old(tree).directories
        invariant FilesSoFar(contents, moved[..i], from, to, tree.files)
      {
        var path := moved[i];
        assert path in moved;
        MoveOneMoreFile(contents, moved[..i], path, from, to, tree.files);
        assert moved[..i + 1] == moved[..i] + [path];
        tree := tree.(files := tree.files - {path});
        tree := tree.(files := tree.files[Rebased(path, from, to) := contents[path]]);
      }
      assert moved[..|moved|] == moved;
    }

    /** Carries a directory and what lies under it to its new place. */
    method MoveSubtree(from: string, to: string)
      requires Movable(tree, from, to) && from in tree.directories
      modifies this`tree
      ensures tree == Relocated(old(tree), from, to)
    {
      hide Inside, Rebased, Apart, ClearOf, WellFormed, Under, IsRel, Relocate, FilesSoFar, Relocated;
      var start := tree;
      var movedDirectories := Collect(tree.directories, from);
      var movedFiles := Collect(tree.files.Keys, from);
      MoveDirectories(movedDirectories, from, to);
      MoveFiles(movedFiles, start.files, from, to);
      FilesMoved(start, movedFiles, from, to, tree.files);
    }

    method StorageRename(from: string, to: string) returns (r: Result<(), Error>)
      requires Valid() && IsRel(from) && IsRel(to)
      modifies this, persistence
      ensures Valid()
      ensures r.Ok? && from == to ==> tree == old(tree) && strays == old(strays)
      ensures r.Ok? && from != to ==>
                && RenameAllowed(old(tree), from, to)
                && Movable(AddLineage(old(tree), Parent(to)), from, to)
                && tree == RenameTree(old(tree), from, to) && strays == {}
      ensures r.Err? && !r.error.NotFound? ==> tree == old(tree) && strays == old(strays)
      ensures r.Err? && r.error.NotFound? ==>
                && r.error.path == from && !Blocked(old(tree), Parent(to))
                && tree == AddLineage(old(tree), Parent(to))
                && strays == old(strays) + (Lineage(Components(Parent(to))) - old(tree).directories)
      ensures from == to ==> r.Ok?
      ensures RenameAllowed(old(tree), from, to) && from != to ==>
                && Movable(AddLineage(old(tree), Parent(to)), from, to)
                && (r.Ok? || (r.error == Io && !Accepts(RenameTree(old(tree), from, to))))
      ensures r == Err(AlreadyExists(to)) <==> from != to && Exists(old(tree), to)
      ensures r == Err(InvalidPath) <==> from != to && !Exists(old(tree), to) && Under(to, from)
      ensures (r.Err? && r.error.NotDirectory?) <==>
              from != to && !Exists(old(tree), to) && !Under(to, from) && Blocked(old(tree), Parent(to))
      ensures r == Err(NotFound(from)) <==>
              && from != to && !Exists(old(tree), to) && !Under(to, from) && !Blocked(old(tree), Parent(to))
              && !Exists(old(tree), from)
      ensures Generation() <= old(Generation()) + 1 && old(States()) <= States()
      ensures old(InSync()) && old(CanSave()) ==> InSync()
      ensures old(InSync()) && old(CanSave()) ==> Throughout(|old(States())|, old(Committed()), tree)
    {
      hide TooLarge, IsRel, Lineage, Components, Parent, Blocked, WellFormed, Inv, Reopens, Run, Relocated,
           Uninterrupted;
      Still(tree);
      if from == to {
        return Ok(());
      }
      if Exists(tree, to) {
        return Err(AlreadyExists(to));
      }
      if Under(to, from) {
        return Err(InvalidPath);
      }
      var previous := tree;
      var added := AddParents(Parent(to));
      if added.Err? {
        return added;
      }
      SourceUnaffected(previous, from, to);
      if from in tree.files {
        ChecksSuffice(previous, from, to);
        RelocatedWellFormed(tree, from, to);
        FileMoveIsRelocation(tree, from, to);
        var data := tree.files[from];
        tree := tree.(files := tree.files - {from});
        tree := tree.(files := tree.files[to := data]);
        r := Commit(previous);
        return;
      }
      if from !in tree.directories {
        AddLineageWellFormed(previous, Parent(to));
        strays := strays + (Lineage(Components(Parent(to))) - previous.directories);
        Still(tree);
        return Err(NotFound(from));
      }
      ChecksSuffice(previous, from, to);
      RelocatedWellFormed(tree, from, to);
      MoveSubtree(from, to);
      r := Commit(previous);
    }
  }

  /** The tree after a removal. */
  function Without(t: FileTree, path: string): FileTree {
    if path in t.files then RemoveFile(t, path) else RemoveSubtree(t, path)
  }

  /** The conditions under which a rename moves something. */
  ghost predicate RenameAllowed(t: FileTree, from: string, to: string) {
    Exists(t, from) && !Exists(t, to) && !Under(to, from) && !Blocked(t, Parent(to))
  }

  lemma SourceUnaffected(t: FileTree, from: string, to: string)
    requires IsRel(to) && !Under(to, from)
    ensures from in AddLineage(t, Parent(to)).directories <==> from in t.directories
  {
    hide IsRel, Lineage, Components, Parent, Under;
    ParentLineage(to, from);
  }

  lemma NoFilesMoved(files: map<string, seq<Byte>>, from: string, to: string)
    requires ClearOf(files.Keys, to)
    ensures FilesSoFar(files, [], from, to, files)
  {
    NoneMoved(files.Keys, from, to);
  }

  lemma FilesMoved(t: FileTree, moved: seq<string>, from: string, to: string, now: map<string, seq<Byte>>)
    requires Apart(from, to) && ClearOf(t.files.Keys, to) && ClearOf(t.directories, to)
    requires forall p :: p in moved <==> p in t.files && Inside(p, from)
    requires FilesSoFar(t.files, moved, from, to, now)
    ensures FileTree(now, Relocate(t.directories, from, to)) == Relocated(t, from, to)
  {
    hide Inside, Apart, Relocate, Origin, MovedSoFar;
    AllMoved(t.files.Keys, moved, from, to);
    var t' := Relocated(t, from, to);
    assert t'.files.Keys == now.Keys;
    assert t'.files == now;
  }

  /** What is at or under `from`, in order. */
  method Collect(paths: set<string>, from: string) returns (r: seq<string>)
    ensures forall p :: p in r <==> p in paths && Inside(p, from)
  {
    var moved := set p | p in paths && Inside(p, from);
    r := InOrder(moved);
    AscendingEnumerates(moved);
  }

  lemma JoinMore(parts: seq<string>, k: nat)
    requires Names(parts) && k < |parts|
    ensures Join(parts[..k]) == "" <==> k == 0
    ensures Join(parts[..k + 1]) == if k == 0 then parts[k] else Join(parts[..k]) + "/" + parts[k]
  {
    JoinEmpty(parts[..k]);
    assert parts[..k + 1] == parts[..k] + [parts[k]];
    if k > 0 {
      JoinConcat(parts[..k], [parts[k]]);
    }
  }

  lemma LineageMore(parts: seq<string>, k: nat)
    requires k < |parts|
    ensures Lineage(parts[..k + 1]) == Lineage(parts[..k]) + {Join(parts[..k + 1])}
  {
    forall j | 1 <= j <= k ensures parts[..k + 1][..j] == parts[..k][..j] {
    }
    assert parts[..k + 1][..k + 1] == parts[..k + 1];
    forall q ensures q in Lineage(parts[..k + 1]) <==> q in Lineage(parts[..k]) || q == Join(parts[..k + 1]) {
      if q in Lineage(parts[..k]) {
        var j :| 1 <= j <= k && q == Join(parts[..k][..j]);
        assert q == Join(parts[..k + 1][..j]);
      }
      if q in Lineage(parts[..k + 1]) {
        var j :| 1 <= j <= k + 1 && q == Join(parts[..k + 1][..j]);
        if j <= k {
          assert q == Join(parts[..k][..j]);
        }
      }
    }
  }

  /** What leads to a file is already made of directories. */
  lemma LineageOfFile(t: FileTree, parts: seq<string>, k: nat)
    requires WellFormed(t) && Names(parts) && k < |parts| && Join(parts[..k + 1]) in t.files
    ensures t.directories + Lineage(parts[..k]) == t.directories
  {
    forall q | q in Lineage(parts[..k]) ensures q in t.directories {
      var j :| 1 <= j <= k && q == Join(parts[..k][..j]);
      assert parts[..k][..j] == parts[..j];
      NamesPrefix(parts, j);
      NamesPrefix(parts, k + 1);
      UnderIsComponentPrefix(parts[..k + 1], parts[..j]);
      assert Exists(t, Join(parts[..k + 1]));
    }
  }

  /** A successful save on a sound disk leaves it sound and holding the saved tree. */
  lemma SaveKeepsSound(states: seq<Machine>, events: seq<Event>, k: nat, before: Machine, tree: FileTree)
    requires Run(states, events) && k <= |events| && states[k] == before
    requires Inv(before) && before.generation < U64_MAX
    requires events == events[..k] + SaveEvents(tree) && forall e <- events :: !e.Recovers()
    requires forall i | k + 1 <= i < |states| - 1 :: Between(states[i], before, tree)
    ensures Inv(states[|events|]) && Reopens(states[|events|])
  {
    hide Inv, Next, Reopens;
    assert Run(states[k..], events[k..]);
    NoResetIsSafe(states[k..], events[k..]);
    SavedReopens(states[k..], events[k..]);
  }

  /**
   * At every state from the n-th last on, while a generation is left, a power loss leaves the tree from before or the
   * one from after.
   */
  ghost predicate Uninterrupted(states: seq<Machine>, n: nat, before: Option<FileTree>, after: FileTree) {
    1 <= n <= |states| && forall i | n - 1 <= i < |states| :: Survives(states[i], before, after)
  }

  ghost predicate Survives(m: Machine, before: Option<FileTree>, after: FileTree) {
    m.Shaped() && m.generation < U64_MAX ==>
      forall image | CrashImage(m.disk, image) && Recover(image, m.n).Ok? ::
        Recover(image, m.n).value.tree == before || Recover(image, m.n).value.tree == Some(after)
  }

  lemma IdleSurvives(m: Machine, t: FileTree)
    requires Inv(m) && m.phase.Idle? && m.attempts == {}
    ensures Survives(m, m.committed, t)
    ensures m.committed == Some(t) ==> forall before :: Survives(m, before, t)
  {
    hide Inv, Recover;
    if m.Shaped() && m.generation < U64_MAX {
      forall image | CrashImage(m.disk, image) && Recover(image, m.n).Ok?
        ensures Recover(image, m.n).value.tree == m.committed
      {
        PowerLossExact(m, image);
      }
    }
  }

  lemma StillUninterrupted(states: seq<Machine>, t: FileTree)
    requires states != []
    requires var m := states[|states| - 1]; Inv(m) && m.phase.Idle? && m.attempts == {}
    ensures Uninterrupted(states, |states|, states[|states| - 1].committed, t)
  {
    hide Inv, Survives;
    IdleSurvives(states[|states| - 1], t);
  }

  lemma SaveUninterrupted(states: seq<Machine>, events: seq<Event>, k: nat, before: Machine, tree: FileTree)
    requires Run(states, events) && k <= |events| && states[k] == before
    requires forall e <- events :: e.Clean() && !e.Recovers()
    requires Inv(before) && before.generation < U64_MAX && before.phase.Idle? && before.attempts == {}
    requires forall i | k + 1 <= i < |states| - 1 :: Between(states[i], before, tree)
    requires var m := states[|events|];
             Inv(m) && m.phase.Idle? && m.attempts == {} && m.committed == Some(tree)
    ensures Uninterrupted(states, k + 1, before.committed, tree)
  {
    hide Inv, Survives, Next, Faultless;
    IdleSurvives(states[|events|], tree);
    IdleSurvives(before, tree);
    forall i | k < i < |events| ensures Survives(states[i], before.committed, tree) {
      SavingSurvives(states[k..], events[k..], i - k, tree);
    }
  }

  lemma SavingSurvives(states: seq<Machine>, events: seq<Event>, i: nat, tree: FileTree)
    requires Run(states, events) && (forall e <- events :: e.Clean() && !e.Recovers()) && i < |states|
    requires var m := states[0];
             Inv(m) && m.generation < U64_MAX && m.phase.Idle? && m.attempts == {}
    requires forall j | 0 < j <= i :: Between(states[j], states[0], tree)
    requires 0 < i
    ensures Survives(states[i], states[0].committed, tree)
  {
    hide Inv, Next, Recover, EncodeTree, Collides;
    NoResetIsSafe(states, events);
    forall image | CrashImage(states[i].disk, image) && Recover(image, states[i].n).Ok?
      ensures var t := Recover(image, states[i].n).value.tree; t == states[0].committed || t == Some(tree)
    {
      SaveIsAtomic(states, events, i, states[0], tree, image);
    }
  }
}
