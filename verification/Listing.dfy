/** Directory listings of the writable tree. */
module Listing {
  import opened Wrappers
  import opened Order
  import opened Codec
  import opened Api
  import opened Paths
  import opened Tree

  /** A single path component. */
  predicate IsName(n: string) {
    n != "" && NoSlash(n)
  }

  /** `direct_child`: what follows the prefix, if it is one component. */
  function DirectChild(path: string, prefix: string): Option<string> {
    if prefix <= path && IsName(path[|prefix|..]) then Some(path[|prefix|..]) else None
  }

  lemma DirectChildIff(path: string, prefix: string, n: string)
    ensures DirectChild(path, prefix) == Some(n) <==> IsName(n) && path == prefix + n
  {
    if prefix <= path {
      assert path == prefix + path[|prefix|..];
    }
    assert (prefix + n)[|prefix|..] == n;
  }

  /** The values of a map in the order of its keys. */
  method InKeyOrder(entries: map<string, StorageEntry>) returns (r: seq<StorageEntry>)
    requires forall n <- entries :: entries[n].name == n
    ensures Lists(r, entries)
  {
    hide Less;
    var names := InOrder(entries.Keys);
    AscendingEnumerates(entries.Keys);
    r := [];
    for i := 0 to |names|
      invariant |r| == i
      invariant forall k | 0 <= k < i :: r[k].name == names[k] && r[k] == entries[names[k]]
    {
      assert names[i] in entries.Keys;
      r := r + [entries[names[i]]];
    }
    ListsFromNames(r, entries, names);
  }

  /** The list has one entry for each key, in strictly ascending order of names. */
  ghost predicate Lists(r: seq<StorageEntry>, entries: map<string, StorageEntry>) {
    && (forall i, j | 0 <= i < j < |r| :: Less(r[i].name, r[j].name))
    && (forall e <- r :: e.name in entries && e == entries[e.name])
    && (forall n <- entries :: entries[n] in r)
  }

  lemma ListsFromNames(r: seq<StorageEntry>, entries: map<string, StorageEntry>, names: seq<string>)
    requires Enumerates(names, entries.Keys) && |r| == |names|
    requires forall k | 0 <= k < |r| :: names[k] in entries && r[k].name == names[k] && r[k] == entries[names[k]]
    ensures Lists(r, entries)
  {
    hide Less;
    forall n | n in entries ensures entries[n] in r {
      assert n in names;
      var k :| 0 <= k < |names| && names[k] == n;
      assert r[k] == entries[n];
    }
    forall e | e in r ensures e.name in entries && e == entries[e.name] {
      var k :| 0 <= k < |r| && r[k] == e;
    }
  }

  /* ----- The writable tree ----- */

  /** The entry for the child n of a directory; a file hides a directory of the same name. */
  function EntryFor(t: FileTree, prefix: string, n: string): StorageEntry {
    if prefix + n in t.files then StorageEntry(n, false, |t.files[prefix + n]|) else StorageEntry(n, true, 0)
  }

  function Elements(paths: seq<string>): set<string> {
    set p | p in paths
  }

  /** The names are those of the direct children among the paths. */
  ghost predicate Children(names: set<string>, paths: set<string>, prefix: string) {
    forall n :: n in names <==> IsName(n) && prefix + n in paths
  }

  /**
   * Lists a directory: a name appears exactly when it is one component and the joined path exists, once, in order,
   * with the kind and length of what is there.
   */
  method StorageList(t: FileTree, path: string) returns (r: Result<seq<StorageEntry>, Error>)
    ensures path !in t.directories ==> r == if path in t.files then Err(NotDirectory(path)) else Err(NotFound(path))
    ensures path in t.directories ==> r.Ok? && ListsTree(r.value, t, if path == "" then "" else path + "/")
  {
    if path !in t.directories {
      return if path in t.files then Err(NotDirectory(path)) else Err(NotFound(path));
    }
    var prefix := if path == "" then "" else path + "/";
    var entries := AddDirectories(t, prefix);
    entries := AddFiles(t, prefix, entries);
    var listed := InKeyOrder(entries);
    ListsTreeFrom(listed, t, prefix, entries);
    return Ok(listed);
  }

  ghost predicate ListsTree(r: seq<StorageEntry>, t: FileTree, prefix: string) {
    && (forall i, j | 0 <= i < j < |r| :: Less(r[i].name, r[j].name))
    && (forall e <- r :: IsName(e.name) && Exists(t, prefix + e.name) && e == EntryFor(t, prefix, e.name))
    && (forall n | IsName(n) && Exists(t, prefix + n) :: EntryFor(t, prefix, n) in r)
  }

  lemma ListsTreeFrom(r: seq<StorageEntry>, t: FileTree, prefix: string, entries: map<string, StorageEntry>)
    requires Lists(r, entries) && Children(entries.Keys, t.directories + t.files.Keys, prefix)
    requires forall n <- entries :: entries[n] == EntryFor(t, prefix, n)
    ensures ListsTree(r, t, prefix)
  {
    hide Less, IsName;
    forall n | IsName(n) && Exists(t, prefix + n) ensures EntryFor(t, prefix, n) in r {
      assert n in entries;
    }
  }

  method AddDirectories(t: FileTree, prefix: string) returns (entries: map<string, StorageEntry>)
    ensures Children(entries.Keys, t.directories, prefix)
    ensures forall n <- entries :: entries[n] == StorageEntry(n, true, 0)
  {
    hide Less, IsName, DirectChild;
    var paths := InOrder(t.directories);
    AscendingEnumerates(t.directories);
    entries := map[];
    for i := 0 to |paths|
      invariant Children(entries.Keys, Elements(paths[..i]), prefix)
      invariant forall n <- entries :: entries[n] == StorageEntry(n, true, 0)
    {
      var child := DirectChild(paths[i], prefix);
      ChildrenSnoc(entries.Keys, paths, i, prefix);
      if child.Some? {
        entries := entries[child.value := StorageEntry(child.value, true, 0)];
      }
    }
    assert Elements(paths[..|paths|]) == t.directories;
  }

  /** Looking at one more path adds its name if it is a direct child, and nothing otherwise. */
  lemma ChildrenSnoc(names: set<string>, paths: seq<string>, i: nat, prefix: string)
    requires i < |paths| && Children(names, Elements(paths[..i]), prefix)
    ensures var child := DirectChild(paths[i], prefix);
            Children(names + (if child.Some? then {child.value} else {}), Elements(paths[..i + 1]), prefix)
  {
    hide IsName, DirectChild;
    var child := DirectChild(paths[i], prefix);
    var names' := names + (if child.Some? then {child.value} else {});
    var more := Elements(paths[..i + 1]);
    assert forall p :: p in more <==> p in Elements(paths[..i]) || p == paths[i];
    forall n ensures n in names' <==> IsName(n) && prefix + n in more {
      DirectChildIff(paths[i], prefix, n);
    }
  }

  method AddFiles(t: FileTree, prefix: string, directories: map<string, StorageEntry>)
    returns (entries: map<string, StorageEntry>)
    requires Children(directories.Keys, t.directories, prefix)
    requires forall n <- directories :: directories[n] == StorageEntry(n, true, 0)
    ensures Children(entries.Keys, t.directories + t.files.Keys, prefix)
    ensures forall n <- entries :: entries[n] == EntryFor(t, prefix, n)
  {
    hide Less, IsName, DirectChild, Children, EntryFor, Elements, Ascending;
    var paths := InOrder(t.files.Keys);
    FilePaths(t, paths, prefix);
    entries := directories;
    ghost var found: map<string, StorageEntry> := map[];
    assert found.Keys == {} && directories + found == directories;
    for i := 0 to |paths|
      invariant Children(found.Keys, Elements(paths[..i]), prefix)
      invariant forall n <- found :: found[n] == EntryFor(t, prefix, n)
      invariant entries == directories + found
    {
      var path := paths[i];
      var child := DirectChild(path, prefix);
      ChildrenSnoc(found.Keys, paths, i, prefix);
      if child.Some? {
        var n, entry := child.value, StorageEntry(child.value, false, |t.files[path]|);
        EntryOfFile(t, prefix, path, n);
        assert (directories + found)[n := entry] == directories + found[n := entry];
        assert found[n := entry].Keys == found.Keys + {n};
        entries := entries[n := entry];
        found := found[n := entry];
      } else {
        assert found.Keys + {} == found.Keys;
      }
    }
    assert paths[..|paths|] == paths;
    FilesOverDirectories(t, prefix, directories, found);
  }

  lemma FilePaths(t: FileTree, paths: seq<string>, prefix: string)
    requires paths == Ascending(t.files.Keys)
    ensures forall i | 0 <= i < |paths| :: paths[i] in t.files
    ensures Elements(paths) == t.files.Keys
    ensures Children({}, Elements(paths[..0]), prefix)
  {
    AscendingEnumerates(t.files.Keys);
  }

  lemma EntryOfFile(t: FileTree, prefix: string, path: string, n: string)
    requires path in t.files && DirectChild(path, prefix) == Some(n)
    ensures EntryFor(t, prefix, n) == StorageEntry(n, false, |t.files[path]|)
  {
    DirectChildIff(path, prefix, n);
  }

  lemma FilesOverDirectories(
    t: FileTree, prefix: string, directories: map<string, StorageEntry>, found: map<string, StorageEntry>)
    requires Children(directories.Keys, t.directories, prefix) && Children(found.Keys, t.files.Keys, prefix)
    requires forall n <- directories :: directories[n] == StorageEntry(n, true, 0)
    requires forall n <- found :: found[n] == EntryFor(t, prefix, n)
    ensures Children((directories + found).Keys, t.directories + t.files.Keys, prefix)
    ensures forall n <- directories + found :: (directories + found)[n] == EntryFor(t, prefix, n)
  {
    hide IsName;
    forall n | n in directories + found ensures (directories + found)[n] == EntryFor(t, prefix, n) {
      assert n in found <==> IsName(n) && prefix + n in t.files.Keys;
      assert n in directories ==> IsName(n);
    }
  }
}
