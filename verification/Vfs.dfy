/** The virtual file system: routes normalised paths to the system table or to the platform's storage. */
module Vfs {
  import opened Wrappers
  import opened Words
  import opened Codec
  import opened Api
  import opened Paths
  import opened Normalize
  import opened Tree
  import opened Rename
  import opened Platform
  import opened Listing
  import opened SystemTable

  /** Where a path leads. */
  datatype Route = Root | System(path: string) | Persistent(relative: string) | Outside

  /** `persistent_path`. */
  function PersistentPath(path: string): Result<string, Error> {
    if !IsAbsolute(path) then Err(InvalidPath)
    else
      var relative := path[1..];
      if relative == "" || !(IsPathPrefix("apps", relative) || IsPathPrefix("user", relative))
      then Err(PermissionDenied) else Ok(relative)
  }

  function RouteOf(path: string): Route {
    if path == "/" then Root
    else if IsPathPrefix("/sys", path) then System(path)
    else match PersistentPath(path) case Err(_) => Outside case Ok(relative) => Persistent(relative)
  }

  /** On canonical paths the route is decided by the first component, and storage only sees normalised paths. */
  lemma RouteByFirstComponent(path: string)
    requires Canonical(path)
    ensures var parts := Components(path);
            match RouteOf(path)
            case Root => parts == []
            case System(p) => parts != [] && parts[0] == "sys" && p == path
            case Persistent(relative) =>
              && parts != [] && (parts[0] == "apps" || parts[0] == "user")
              && IsRel(relative) && Split(relative) == parts && path == "/" + relative
            case Outside => parts != [] && parts[0] != "sys" && parts[0] != "apps" && parts[0] != "user"
    ensures PersistentPath(path).Ok? ==> IsRel(PersistentPath(path).value)
    ensures PersistentPath(path).Err? ==> PersistentPath(path).error == PermissionDenied
  {
    hide Components, IsPathPrefix;
    var parts := Components(path);
    RelativeOfCanonical(path);
    if path != "/" {
      RootName("/sys", path, "sys");
      RelativeName(path, "apps");
      RelativeName(path, "user");
    }
  }

  lemma MountRoutes(path: string)
    ensures path == "/sys" ==> RouteOf(path) == System(path)
    ensures path == "/apps" <==> RouteOf(path) == Persistent("apps")
    ensures path == "/user" <==> RouteOf(path) == Persistent("user")
  {
    if path != "" {
      assert path == [path[0]] + path[1..];
    }
  }

  lemma RelativeOfCanonical(path: string)
    requires Canonical(path)
    ensures path == "/" <==> Components(path) == []
    ensures path != "/" ==> path[1..] != "" && Split(path[1..]) == Components(path) && IsRel(path[1..])
  {
    hide Components;
    var parts := Components(path);
    JoinEmpty(parts);
    assert path[1..] == Join(parts);
    if parts != [] {
      SplitJoin(parts);
    }
  }

  lemma RootName(root: string, path: string, name: string)
    requires Canonical(path) && path != "/" && Proper(name) && root == "/" + name
    ensures IsPathPrefix(root, path) <==> Components(path) != [] && Components(path)[0] == name
  {
    hide Components;
    AbsoluteComponents([name]);
    assert Absolute([name]) == root;
    PathPrefixIsComponentPrefix(root, path);
  }

  lemma RelativeName(path: string, name: string)
    requires Canonical(path) && path != "/" && Proper(name)
    ensures IsPathPrefix(name, path[1..]) <==> Components(path) != [] && Components(path)[0] == name
  {
    hide Components;
    RootName("/" + name, path, name);
    UnderShift(path, "/" + name);
    assert ("/" + name)[1..] == name;
  }

  const PROTECTED_ROOTS := ["/", "/apps", "/user", "/user/config", "/user/saves", "/user/appdata"]

  lemma ProtectedAre(path: string)
    ensures path in PROTECTED_ROOTS <==>
            || path == "/" || path == "/apps" || path == "/user"
            || path == "/user/config" || path == "/user/saves" || path == "/user/appdata"
  {
  }

  /** The directories that every installation has. */
  predicate IsStandard(d: string) {
    d == "apps" || d == "user" || d == "user/config" || d == "user/saves" || d == "user/appdata"
  }

  /** No removal that is let through takes one of them away, by itself or with a directory above it. */
  lemma RemovalKeepsStandard(t: FileTree, path: string, d: string)
    requires RouteOf(path).Persistent? && path !in PROTECTED_ROOTS && IsStandard(d) && d in t.directories
    ensures d in Without(t, RouteOf(path).relative).directories
  {
    hide Under, PROTECTED_ROOTS, RouteOf;
    var p := RouteOf(path).relative;
    PersistentIs(path);
    ProtectedAre(path);
    StandardAncestor(d, p);
    StandardIsProtected(d);
  }

  lemma PersistentIs(path: string)
    requires RouteOf(path).Persistent?
    ensures path == "/" + RouteOf(path).relative
  {
  }

  lemma StandardIsProtected(d: string)
    requires IsStandard(d)
    ensures "/" + d in PROTECTED_ROOTS
  {
    assert "/" + "apps" == "/apps" && "/" + "user" == "/user" && "/" + "user/config" == "/user/config";
    assert "/" + "user/saves" == "/user/saves" && "/" + "user/appdata" == "/user/appdata";
  }

  lemma StandardAncestor(d: string, q: string)
    requires IsStandard(d)
    ensures Under(d, q) ==> q == "user"
  {
    hide Under;
    assert "user" + "/" + "config" == "user/config" && "user" + "/" + "saves" == "user/saves";
    assert "user" + "/" + "appdata" == "user/appdata";
    UnderParent("user", "config", q);
    UnderParent("user", "saves", q);
    UnderParent("user", "appdata", q);
    NeverUnder("user", q);
    NeverUnder("apps", q);
  }

  class VirtualFileSystem {
    const platform: BareMetalPlatform
    const systemFiles: seq<EmbeddedFile>

    constructor (platform: BareMetalPlatform, systemFiles: seq<EmbeddedFile>)
      ensures this.platform == platform && this.systemFiles == systemFiles
    {
      this.platform := platform;
      this.systemFiles := systemFiles;
    }

    ghost predicate Valid()
      reads platform, platform.persistence
    {
      platform.Valid()
    }

    /** A write there is sure to succeed. */
    ghost predicate CanPut(input: string, data: seq<Byte>)
      reads platform
    {
      && Lands(input) && Vacant(platform.tree, Target(input))
      && platform.Accepts(PutFile(platform.tree, Target(input), data))
    }

    ghost predicate CanMakeDirs(input: string)
      reads platform
    {
      && Lands(input) && !Blocked(platform.tree, Target(input))
      && platform.Accepts(AddLineage(platform.tree, Target(input)))
    }

    ghost predicate CanRemove(input: string)
      reads platform
    {
      && Lands(input) && Normalized("/", input).value !in PROTECTED_ROOTS
      && Tree.Exists(platform.tree, Target(input)) && platform.Accepts(Without(platform.tree, Target(input)))
    }

    ghost predicate CanRename(from: string, to: string)
      reads platform
    {
      && Lands(from) && Lands(to)
      && (Target(from) != Target(to) ==>
            && RenameAllowed(platform.tree, Target(from), Target(to))
            && Movable(AddLineage(platform.tree, Parent(Target(to))), Target(from), Target(to))
            && platform.Accepts(RenameTree(platform.tree, Target(from), Target(to))))
    }

    method Exists(input: string) returns (r: Result<bool, Error>)
      requires Valid()
      ensures r == Present(systemFiles, platform.tree, input)
    {
      hide Normalized, Components, Canonical, SystemDirExists, SystemFile, IsPathPrefix, IsRel, WellFormed,
           PersistentPath;
      RootCanonical();
      var path :- NormalizePath("/", input);
      NormalizedIsCanonical("/", input);
      RouteByFirstComponent(path);
      MountRoutes(path);
      if path == "/" || path == "/sys" || path == "/apps" || path == "/user" {
        return Ok(true);
      }
      if IsPathPrefix("/sys", path) {
        return Ok(SystemFile(systemFiles, path).Some? || SystemDirExists(systemFiles, path));
      }
      var relative :- PersistentPath(path);
      return Ok(Tree.Exists(platform.tree, relative));
    }

    method Read(input: string) returns (r: Result<seq<Byte>, Error>)
      requires Valid()
      ensures r == Content(systemFiles, platform.tree, input)
    {
      hide Normalized, Components, Canonical;
      RootCanonical();
      var path :- NormalizePath("/", input);
      NormalizedIsCanonical("/", input);
      RouteByFirstComponent(path);
      if IsPathPrefix("/sys", path) {
        var file := SystemFile(systemFiles, path);
        return if file.Some? then Ok(file.value.data) else Err(NotFound(path));
      }
      var relative :- PersistentPath(path);
      DisjointKinds(platform.tree, relative);
      r := platform.StorageRead(relative);
    }

    method List(input: string) returns (r: Result<seq<StorageEntry>, Error>)
      requires Valid()
      ensures ListedAs(systemFiles, platform.tree, input, r)
    {
      hide Normalized, Components, Canonical, ListsSystem, ListsTree, SystemDirExists;
      RootCanonical();
      var path :- NormalizePath("/", input);
      NormalizedIsCanonical("/", input);
      RouteByFirstComponent(path);
      if path == "/" {
        return Ok(ROOT_ENTRIES);
      }
      if IsPathPrefix("/sys", path) {
        r := ListSystem(systemFiles, path);
        return;
      }
      var relative :- PersistentPath(path);
      r := StorageList(platform.tree, relative);
    }

    method Write(input: string, data: seq<Byte>) returns (r: Result<(), Error>)
      requires Valid()
      modifies platform, platform.persistence
      ensures Valid()
      ensures r.Err? ==> platform.tree == old(platform.tree)
      ensures r.Ok? ==> Lands(input) && platform.tree == PutFile(old(platform.tree), Target(input), data)
      ensures r.Ok? ==> Vacant(old(platform.tree), Target(input))
      ensures old(CanPut(input, data)) ==> r.Ok?
      ensures Guarded(input, r)
      ensures Lands(input) && Target(input) in old(platform.tree).directories ==> r == Err(IsDirectory(Target(input)))
      ensures Lands(input) && Target(input) !in old(platform.tree).directories ==>
                if Blocked(old(platform.tree), Parent(Target(input))) then r.Err? && r.error.NotDirectory?
                else r.Ok? || r.error == Io
      ensures old(platform.InSync()) && old(platform.CanSave()) ==> platform.InSync()
    {
      hide Normalized, Components, Canonical, IsRel, WellFormed, Blocked, Parent;
      RootCanonical();
      var path :- NormalizePath("/", input);
      NormalizedIsCanonical("/", input);
      RouteByFirstComponent(path);
      if IsPathPrefix("/sys", path) {
        return Err(ReadOnly(path));
      }
      var relative :- PersistentPath(path);
      r := platform.StorageWrite(relative, data);
    }

    method CreateDirAll(input: string) returns (r: Result<(), Error>)
      requires Valid()
      modifies platform, platform.persistence
      ensures Valid()
      ensures r.Err? ==> platform.tree == old(platform.tree)
      ensures r.Ok? ==> Lands(input) && platform.tree == AddLineage(old(platform.tree), Target(input))
      ensures r.Ok? ==> !Blocked(old(platform.tree), Target(input))
      ensures old(CanMakeDirs(input)) ==> r.Ok?
      ensures Guarded(input, r)
      ensures Lands(input) ==>
                if Blocked(old(platform.tree), Target(input)) then r.Err? && r.error.NotDirectory?
                else r.Ok? || r.error == Io
      ensures old(platform.InSync()) && old(platform.CanSave()) ==> platform.InSync()
    {
      hide Normalized, Components, Canonical, IsRel, WellFormed, Blocked, Parent;
      RootCanonical();
      var path :- NormalizePath("/", input);
      NormalizedIsCanonical("/", input);
      RouteByFirstComponent(path);
      if IsPathPrefix("/sys", path) {
        return Err(ReadOnly(path));
      }
      var relative :- PersistentPath(path);
      r := platform.StorageCreateDirAll(relative);
    }

    method Remove(input: string) returns (r: Result<(), Error>)
      requires Valid()
      modifies platform, platform.persistence
      ensures Valid()
      ensures r.Err? ==> platform.tree == old(platform.tree)
      ensures r.Ok? ==> Lands(input) && Normalized("/", input).value !in PROTECTED_ROOTS
      ensures r.Ok? ==> platform.tree == Without(old(platform.tree), Target(input))
      ensures r.Ok? ==> Tree.Exists(old(platform.tree), Target(input))
      ensures old(CanRemove(input)) ==> r.Ok?
      ensures Guarded(input, r)
      ensures Lands(input) ==>
                if Normalized("/", input).value in PROTECTED_ROOTS then r == Err(PermissionDenied)
                else if !Tree.Exists(old(platform.tree), Target(input)) then r == Err(NotFound(Target(input)))
                else r.Ok? || r.error == Io
      ensures old(platform.InSync()) && old(platform.CanSave()) ==> platform.InSync()
    {
      hide Normalized, Components, Canonical, IsRel, WellFormed, Blocked, Parent;
      RootCanonical();
      var path :- NormalizePath("/", input);
      NormalizedIsCanonical("/", input);
      RouteByFirstComponent(path);
      if IsPathPrefix("/sys", path) {
        return Err(ReadOnly(path));
      }
      if path in PROTECTED_ROOTS {
        return Err(PermissionDenied);
      }
      var relative :- PersistentPath(path);
      r := platform.StorageRemove(relative);
    }

    method Rename(from: string, to: string) returns (r: Result<(), Error>)
      requires Valid()
      modifies platform, platform.persistence
      ensures Valid()
      ensures r.Err? ==> platform.tree == old(platform.tree) || StrayParents(old(platform.tree), to, platform.tree)
      ensures r.Err? && r.error != NotFound(Target(from)) ==> platform.tree == old(platform.tree)
      ensures r.Ok? ==> Lands(from) && Lands(to)
      ensures r.Ok? && Target(from) == Target(to) ==> platform.tree == old(platform.tree)
      ensures r.Ok? && Target(from) != Target(to) ==>
                && RenameAllowed(old(platform.tree), Target(from), Target(to))
                && Movable(AddLineage(old(platform.tree), Parent(Target(to))), Target(from), Target(to))
                && platform.tree == RenameTree(old(platform.tree), Target(from), Target(to))
      ensures old(CanRename(from, to)) ==> r.Ok?
      ensures RenamedAs(old(platform.tree), from, to, r)
      ensures old(platform.InSync()) && old(platform.CanSave()) ==> platform.InSync()
    {
      hide Normalized, Components, Canonical, IsRel, WellFormed, Blocked, Parent, RouteOf, Lands, Target, IsPathPrefix,
           PersistentPath, Movable;
      Landing(from);
      Landing(to);
      var source :- NormalizePath("/", from);
      var target :- NormalizePath("/", to);
      if IsPathPrefix("/sys", source) || IsPathPrefix("/sys", target) {
        return Err(ReadOnly("/sys"));
      }
      var relativeFrom :- PersistentPath(source);
      var relativeTo :- PersistentPath(target);
      r := platform.StorageRename(relativeFrom, relativeTo);
    }
  }

  /** What exists: the mounts, what the table names, and what storage holds. */
  function Present(files: seq<EmbeddedFile>, t: FileTree, input: string): Result<bool, Error> {
    var path :- Normalized("/", input);
    match RouteOf(path)
    case Root => Ok(true)
    case System(p) => Ok(p == "/sys" || SystemFile(files, p).Some? || SystemDirExists(files, p))
    case Persistent(p) => Ok(p == "apps" || p == "user" || Tree.Exists(t, p))
    case Outside => Err(PermissionDenied)
  }

  /** The bytes of a file of the table or of storage. */
  function Content(files: seq<EmbeddedFile>, t: FileTree, input: string): Result<seq<Byte>, Error> {
    var path :- Normalized("/", input);
    match RouteOf(path)
    case Root => Err(PermissionDenied)
    case System(p) => (match SystemFile(files, p) case None => Err(NotFound(p)) case Some(f) => Ok(f.data))
    case Persistent(p) => StoredBytes(t, p)
    case Outside => Err(PermissionDenied)
  }

  /** What a listing may say. */
  ghost predicate ListedAs(
    files: seq<EmbeddedFile>, t: FileTree, input: string, r: Result<seq<StorageEntry>, Error>)
  {
    match Normalized("/", input)
    case Err(e) => r == Err(e)
    case Ok(path) =>
      match RouteOf(path)
      case Root => r == Ok(ROOT_ENTRIES)
      case System(p) =>
        if p == "/sys" || SystemDirExists(files, p)
        then r.Ok? && ListsSystem(r.value, files, Slashed(p)) else r == Err(NotFound(p))
      case Persistent(p) =>
        if p in t.directories then r.Ok? && ListsTree(r.value, t, p + "/")
        else r == Err(if p in t.files then NotDirectory(p) else NotFound(p))
      case Outside => r == Err(PermissionDenied)
  }

  const ROOT_ENTRIES :=
    [StorageEntry("sys", true, 0), StorageEntry("apps", true, 0), StorageEntry("user", true, 0)]

  /** The root lists the three mounts. */
  lemma RootLists(files: seq<EmbeddedFile>, t: FileTree, r: Result<seq<StorageEntry>, Error>)
    requires ListedAs(files, t, "/", r)
    ensures r.Ok? && |r.value| == 3
    ensures forall e <- r.value :: e.name in {"sys", "apps", "user"} && e.isDir && e.len == 0
    ensures r.value[0].name == "sys" && r.value[1].name == "apps" && r.value[2].name == "user"
  {
    RootCanonical();
    CanonicalIsFixed("/", "/");
  }

  /** A file may be put at the path. */
  ghost predicate Vacant(t: FileTree, p: string) {
    p !in t.directories && !Blocked(t, Parent(p))
  }

  /** All that a rename which fails can have done: its target's ancestors are there. */
  ghost predicate StrayParents(t: FileTree, to: string, t': FileTree) {
    Lands(to) && !Blocked(t, Parent(Target(to))) && t' == AddLineage(t, Parent(Target(to)))
  }

  /** The input reaches writable storage. */
  predicate Lands(input: string) {
    Normalized("/", input).Ok? && RouteOf(Normalized("/", input).value).Persistent?
  }

  /** The storage path that the input reaches. */
  function Target(input: string): string {
    match Normalized("/", input)
    case Err(_) => ""
    case Ok(path) => match RouteOf(path) case Persistent(relative) => relative case _ => ""
  }

  /** An input reaches writable storage by passing the checks, and by nothing else. */
  lemma Landing(input: string)
    ensures Lands(input) <==>
              && Normalized("/", input).Ok?
              && !IsPathPrefix("/sys", Normalized("/", input).value) && PersistentPath(Normalized("/", input).value).Ok?
    ensures Lands(input) ==>
              Target(input) == PersistentPath(Normalized("/", input).value).value && IsRel(Target(input))
    ensures Normalized("/", input).Ok? ==>
              var path := Normalized("/", input).value;
              && (RouteOf(path).System? <==> IsPathPrefix("/sys", path))
              && (PersistentPath(path).Err? ==> PersistentPath(path).error == PermissionDenied)
  {
    hide Normalized, Components, Canonical, IsRel, IsPathPrefix;
    if Normalized("/", input).Ok? {
      RootCanonical();
      NormalizedIsCanonical("/", input);
      RouteByFirstComponent(Normalized("/", input).value);
      RootIsNotSystem();
    }
  }

  lemma RootIsNotSystem()
    ensures !IsPathPrefix("/sys", "/")
  {
  }

  /** An input that does not reach writable storage is refused, with the right error for `/sys`. */
  ghost predicate Guarded(input: string, r: Result<(), Error>) {
    match Normalized("/", input)
    case Err(e) => r == Err(e)
    case Ok(path) =>
      match RouteOf(path)
      case System(p) => r == Err(ReadOnly(p))
      case Root => r == Err(PermissionDenied)
      case Outside => r == Err(PermissionDenied)
      case Persistent(_) => true
  }

  /** What a rename reports: the first of its checks that fails, and else success unless the device fails. */
  ghost predicate RenamedAs(t: FileTree, from: string, to: string, r: Result<(), Error>) {
    if Normalized("/", from).Err? then r == Err(Normalized("/", from).error)
    else if Normalized("/", to).Err? then r == Err(Normalized("/", to).error)
    else if RouteOf(Normalized("/", from).value).System? || RouteOf(Normalized("/", to).value).System?
    then r == Err(ReadOnly("/sys"))
    else if !Lands(from) || !Lands(to) then r == Err(PermissionDenied)
    else
      var p, q := Target(from), Target(to);
      if p == q then r.Ok?
      else if Tree.Exists(t, q) then r == Err(AlreadyExists(q))
      else if Under(q, p) then r == Err(InvalidPath)
      else if Blocked(t, Parent(q)) then r.Err? && r.error.NotDirectory?
      else if !Tree.Exists(t, p) then r == Err(NotFound(p))
      else r.Ok? || r.error == Io
  }

  lemma RootCanonical()
    ensures Canonical("/")
  {
    AbsoluteComponents([]);
    assert Absolute([]) == "/";
  }

  function StoredBytes(t: FileTree, p: string): Result<seq<Byte>, Error> {
    if p in t.directories then Err(IsDirectory(p)) else if p in t.files then Ok(t.files[p]) else Err(NotFound(p))
  }

  lemma DisjointKinds(t: FileTree, p: string)
    requires WellFormed(t)
    ensures !(p in t.files && p in t.directories)
  {
  }
}
