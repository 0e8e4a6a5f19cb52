/** What listings, lookups and reads of the virtual file system see, and what writes make of it. */
module Views {
  import opened Wrappers
  import opened Words
  import opened Codec
  import opened Api
  import opened Paths
  import opened Normalize
  import opened Tree
  import opened Rename
  import opened Platform
  import opened Listing
  import opened SystemTable
  import opened Vfs

  /** The entry of that name in a directory. */
  function Child(d: string, n: string): string {
    if d == "/" then "/" + n else d + "/" + n
  }

  lemma ChildIs(d: string, n: string)
    requires Canonical(d) && Proper(n)
    ensures Canonical(Child(d, n)) && Components(Child(d, n)) == Components(d) + [n]
  {
    hide Components, Proper;
    var parts := Components(d);
    AbsoluteComponents(parts + [n]);
    if parts == [] {
      assert d == "/" && parts + [n] == [n];
    } else {
      ComponentsAreNames(d);
      JoinEmpty(parts);
      JoinConcat(parts, [n]);
      assert d != "/";
      assert "/" + (Join(parts) + "/" + n) == d + "/" + n;
    }
  }

  /** Where the entry leads is told from where the directory leads. */
  ghost predicate RoutesOn(d: string, n: string) {
    match RouteOf(d)
    case Root =>
      && d == "/" && (n == "sys" ==> RouteOf(Child(d, n)) == System("/sys"))
      && (n == "apps" || n == "user" ==> RouteOf(Child(d, n)) == Persistent(n))
      && (n != "sys" && n != "apps" && n != "user" ==> RouteOf(Child(d, n)) == Outside)
    case System(p) => p == d && RouteOf(Child(d, n)) == System(d + "/" + n) && d + "/" + n != "/sys" && d != "/"
    case Persistent(p) =>
      && RouteOf(Child(d, n)) == Persistent(p + "/" + n) && d == "/" + p
      && p + "/" + n != "apps" && p + "/" + n != "user"
    case Outside => true
  }

  lemma ChildRoutes(d: string, n: string)
    requires Canonical(d) && Proper(n)
    ensures Normalized("/", d) == Ok(d) && Normalized("/", Child(d, n)) == Ok(Child(d, n)) && RoutesOn(d, n)
  {
    hide Canonical, Components, Normalized, Proper, RoutesOn, Child;
    ChildIs(d, n);
    CanonicalIsFixed("/", d);
    CanonicalIsFixed("/", Child(d, n));
    if d == "/" {
      RootRoutesOn(n);
    } else {
      OtherRoutesOn(d, n);
    }
  }

  lemma RootRoutesOn(n: string)
    requires Proper(n)
    ensures RoutesOn("/", n)
  {
    hide Under;
    var path := "/" + n;
    assert path[1..] == n && "/" + "sys" == "/sys";
    NeverUnder(n, "apps");
    NeverUnder(n, "user");
    UnderParent("", n, "/sys");
    assert "" + "/" + n == path;
    NeverUnder("", "/sys");
  }

  lemma OtherRoutesOn(d: string, n: string)
    requires Canonical(d) && Proper(n) && d != "/"
    ensures RoutesOn(d, n)
  {
    hide Canonical, Components, Proper, Under;
    Simple(d, n);
    var path, p := d + "/" + n, d[1..];
    assert path[1..] == p + "/" + n;
    UnderParent(d, n, "/sys");
    UnderParent(p, n, "apps");
    UnderParent(p, n, "user");
    NotMount(d, n);
  }

  lemma Simple(d: string, n: string)
    requires Canonical(d) && Proper(n)
    ensures IsAbsolute(d) && NoSlash(n)
  {
  }

  /** No path below another is a mount itself. */
  lemma NotMount(d: string, n: string)
    requires IsAbsolute(d)
    ensures d + "/" + n != "/sys" && d[1..] + "/" + n != "apps" && d[1..] + "/" + n != "user"
  {
    assert (d + "/" + n)[|d|] == '/';
    assert "/sys"[1] == 's' && "/sys"[2] == 'y' && "/sys"[3] == 's';
    assert (d[1..] + "/" + n)[|d| - 1] == '/';
    assert NoSlash("apps") && NoSlash("user");
  }

  /** A name is listed in a directory exactly when there is something of that name in it. */
  lemma ListedIffPresent(
    files: seq<EmbeddedFile>, t: FileTree, d: string, n: string, r: Result<seq<StorageEntry>, Error>)
    requires Canonical(d) && Proper(n) && ListedAs(files, t, d, r) && r.Ok?
    ensures (exists e <- r.value :: e.name == n) <==> Present(files, t, Child(d, n)) == Ok(true)
  {
    hide Canonical, Normalized, RouteOf, Child, ListsSystem, ListsTree, SystemDirExists, SystemFile;
    ChildRoutes(d, n);
    match RouteOf(d) {
      case Root => ListedInRoot(n);
      case System(_) =>
        LastIsNoSlash(d);
        ListedInSystem(files, d, n, r.value);
      case Persistent(p) => ListedInStorage(t, p, n, r.value);
      case Outside =>
    }
  }

  lemma ListedInRoot(n: string)
    ensures (exists e <- ROOT_ENTRIES :: e.name == n) <==> n == "sys" || n == "apps" || n == "user"
  {
    assert ROOT_ENTRIES[0] in ROOT_ENTRIES && ROOT_ENTRIES[1] in ROOT_ENTRIES && ROOT_ENTRIES[2] in ROOT_ENTRIES;
  }

  lemma LastIsNoSlash(d: string)
    requires Canonical(d) && d != "/"
    ensures Slashed(d) == d + "/"
  {
    hide Components;
    var parts := Components(d);
    JoinEmpty(parts);
    assert parts != [];
    var front, last := parts[..|parts| - 1], parts[|parts| - 1];
    assert last in parts && parts == front + [last] && last[|last| - 1] in last;
    if front != [] {
      JoinConcat(front, [last]);
    }
    assert d[|d| - 1] == last[|last| - 1];
  }

  lemma ListedInSystem(files: seq<EmbeddedFile>, d: string, n: string, r: seq<StorageEntry>)
    requires ListsSystem(r, files, d + "/") && Proper(n)
    ensures (exists e <- r :: e.name == n) <==>
            SystemFile(files, d + "/" + n).Some? || SystemDirExists(files, d + "/" + n)
  {
    hide FirstUnder, SystemFile, SystemDirExists;
    ListedIffExists(files, d + "/", n);
    if FirstUnder(files, d + "/", n).Some? {
      var e := SystemEntry(FirstUnder(files, d + "/", n).value, d + "/", n);
      assert e in r && e.name == n;
    }
  }

  lemma ListedInStorage(t: FileTree, p: string, n: string, r: seq<StorageEntry>)
    requires ListsTree(r, t, p + "/") && Proper(n)
    ensures (exists e <- r :: e.name == n) <==> Tree.Exists(t, p + "/" + n)
  {
    if Tree.Exists(t, p + "/" + n) {
      assert EntryFor(t, p + "/", n) in r;
    }
  }

  /** What is listed as a file of storage can be read and has the listed length; a directory cannot be read. */
  lemma ListedKindReads(files: seq<EmbeddedFile>, t: FileTree, d: string, r: seq<StorageEntry>, e: StorageEntry)
    requires WellFormed(t) && Canonical(d) && RouteOf(d).Persistent? && ListedAs(files, t, d, Ok(r))
    requires e in r && Proper(e.name)
    ensures match Content(files, t, Child(d, e.name))
            case Ok(bytes) => !e.isDir && e.len == |bytes|
            case Err(error) => e.isDir && error.IsDirectory?
  {
    hide Canonical, Normalized, RouteOf, Child, WellFormed;
    ChildRoutes(d, e.name);
    var p := RouteOf(d).relative;
    assert p + "/" + e.name == (p + "/") + e.name;
    DisjointKinds(t, p + "/" + e.name);
  }

  /* ----- After a write ----- */

  /** A read sees what was written; every other read sees what it saw before. */
  lemma ReadAfterWrite(files: seq<EmbeddedFile>, t: FileTree, p: string, data: seq<Byte>, q: string)
    requires WellFormed(t) && Lands(p) && Vacant(t, Target(p))
    ensures var t' := PutFile(t, Target(p), data);
            && Content(files, t', p) == Ok(data)
            && (Lands(q) && Target(q) == Target(p) ==> Content(files, t', q) == Ok(data))
            && (!(Lands(q) && Target(q) == Target(p)) ==>
                  && (Content(files, t, q).Ok? ==> Content(files, t', q) == Content(files, t, q))
                  && (Content(files, t', q).Ok? ==> Content(files, t', q) == Content(files, t, q)))
  {
    hide WellFormed, PutFile, Normalized, RouteOf, IsRel, Blocked, Parent;
    Landing(p);
    PutFileWellFormed(t, Target(p), data);
    if Lands(q) {
      DisjointKinds(PutFile(t, Target(p), data), Target(q));
      DisjointKinds(t, Target(q));
    }
    DisjointKinds(PutFile(t, Target(p), data), Target(p));
  }

  /** What was removed is gone with all below it; every other read sees what it saw before. */
  lemma ReadAfterRemove(files: seq<EmbeddedFile>, t: FileTree, p: string, q: string)
    requires WellFormed(t) && Lands(p) && Tree.Exists(t, Target(p))
    ensures var t' := Without(t, Target(p));
            Content(files, t', q) == if Lands(q) && Inside(Target(q), Target(p)) then Err(NotFound(Target(q)))
                                     else Content(files, t, q)
  {
    hide Normalized, RouteOf, IsRel, RemoveSubtree, RemoveFile, WellFormed;
    if Target(p) in t.files {
      RemoveFileWellFormed(t, Target(p));
      DisjointKinds(t, Target(p));
      if Under(Target(q), Target(p)) {
        NothingBelowFile(t, Target(p), Target(q));
      }
    } else {
      RemoveSubtreeWellFormed(t, Target(p));
    }
  }

  lemma NothingBelowFile(t: FileTree, p: string, q: string)
    requires WellFormed(t) && p in t.files && Under(q, p)
    ensures !Tree.Exists(t, q)
  {
    hide IsRel, Under;
  }

  /**
   * After a rename what is at or below the new name is what was at the old one, nothing is left at the old one, and
   * every other file is as it was.
   */
  lemma ReadAfterRename(t: FileTree, from: string, to: string, x: string)
    requires Movable(AddLineage(t, Parent(to)), from, to)
    ensures var t' := RenameTree(t, from, to);
            && (Inside(x, from) ==> !Tree.Exists(t', x))
            && (Inside(x, to) ==>
                  var was := from + x[|to|..];
                  (x in t'.files <==> was in t.files) && (x in t'.files ==> t'.files[x] == t.files[was]))
            && (!Inside(x, from) && !Inside(x, to) ==>
                  (x in t'.files <==> x in t.files) && (x in t'.files ==> t'.files[x] == t.files[x]))
  {
    hide WellFormed, IsRel, Parent, Lineage, Components, Inside, Rebased, Relocated, Under, Apart, ClearOf;
    var base := AddLineage(t, Parent(to));
    RelocatedExact(base, from, to);
    BelowNewName(x, from, to);
    SourceIsEmpty(base, from, to, x);
  }

  lemma BelowNewName(x: string, from: string, to: string)
    ensures Inside(x, to) ==>
              && Rebased(x, to, from) == from + x[|to|..]
              && Inside(Rebased(x, to, from), from) && Rebased(Rebased(x, to, from), from, to) == x
  {
    if Inside(x, to) {
      RebasedInverse(x, to, from);
    }
  }

  lemma SourceIsEmpty(t: FileTree, from: string, to: string, x: string)
    requires Movable(t, from, to)
    ensures Inside(x, from) ==> !Tree.Exists(Relocated(t, from, to), x)
    ensures Inside(x, from) ==> !Inside(x, to)
  {
    hide WellFormed, IsRel, Rebased;
    if Inside(x, from) {
      NotInsideBoth(x, from, to);
      forall p | Inside(p, from) ensures Rebased(p, from, to) != x {
        RebasedInverse(p, from, to);
      }
    }
  }

  /** The part below the old name is kept letter by letter. */
  lemma RebasedIs(from: string, to: string, rest: string)
    ensures Rebased(from + rest, from, to) == to + rest
  {
    assert (from + rest)[..|from|] == from && (from + rest)[|from|..] == rest;
  }
}
