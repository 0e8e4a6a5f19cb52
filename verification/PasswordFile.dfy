/** When the password file outlives what applications do. */
module PasswordFile {
  import opened Wrappers
  import opened Words
  import opened Codec
  import opened Api
  import opened Paths
  import opened Normalize
  import opened Tree
  import opened Rename
  import opened Platform
  import opened SystemTable
  import opened Vfs
  import opened Security
  import opened Effects
  import AppData
  import Utf8

  /* ----- Ways to the file ----- */

  /** The password file lies in two directories. */
  lemma StoredAncestors(a: string)
    ensures Under(STORED_PATH, a) <==> a == "user" || a == "user/config"
  {
    assert STORED_PATH[..4] == "user" && STORED_PATH[..11] == "user/config";
    assert forall i | 0 <= i < |STORED_PATH| :: STORED_PATH[i] == '/' <==> i == 4 || i == 11;
  }

  lemma SecretAncestors(p: string)
    requires Lands(p) && ActsOn(p) && !IsSecret(p)
    ensures Inside(SECURITY_PATH, p) <==> p == "/user" || p == "/user/config"
    ensures Inside(SECURITY_PATH, p) <==> Inside(STORED_PATH, Target(p))
    ensures Target(p) != STORED_PATH
  {
    hide Normalized, STORED_PATH, Split, IsRel;
    LandsTarget(p);
    StoredAncestors(Target(p));
    UnderShift(SECURITY_PATH, p);
    assert SECURITY_PATH[1..] == STORED_PATH && p[1..] == Target(p);
    assert "/user"[1..] == "user" && "/user/config"[1..] == "user/config";
  }

  /** An identifier reaches the password file as its own data exactly when it is "..". */
  lemma DataReachesPasswordIff(id: string)
    requires AppData.IsId(id)
    ensures (exists path :: AppData.Reached(id, path) == Ok(SECURITY_PATH)) <==> id == ".."
  {
    hide AppData.Reached, Components, Canonical;
    SecurityNames();
    SecurityJoins();
    AbsoluteComponents(SECURITY_PARTS);
    forall path | AppData.Reached(id, path) == Ok(SECURITY_PATH) ensures id == ".." {
      AppData.ReachedUnderHome(id, path);
      assert AppData.Home(id) <= SECURITY_PARTS;
      assert SECURITY_PARTS[1] != AppData.APPDATA_PARTS[1];
    }
    if id == ".." {
      ParentIdReaches();
    }
  }

  /** Nor does any other identifier reach anything below it, or have its directory there. */
  lemma OnlyParentIdLeadsInside(id: string, path: string)
    requires AppData.IsId(id) && id != ".."
    ensures AppData.Resolve(id, path).Ok? ==> !LeadsInside(AppData.Resolve(id, path).value)
    ensures !LeadsInside(AppData.Root(id))
  {
    hide AppData.Resolve, Normalized, IsSecret, AppData.IsId, Components, Canonical;
    if AppData.Resolve(id, path).Ok? && Normalized("/", AppData.Resolve(id, path).value).Ok? {
      AppData.ReachedUnderHome(id, path);
      HomeIsNotSecret(id, AppData.Reached(id, path).value);
    }
    AppData.HomeNormalises(id, []);
    AppData.RootParts(id);
    var base := AppData.APPDATA_PARTS + [id];
    assert base + [] == base && AppData.Home(id) + [] == AppData.Home(id);
    AbsoluteComponents(AppData.Home(id));
    HomeIsNotSecret(id, Absolute(AppData.Home(id)));
  }

  lemma HomeIsNotSecret(id: string, p: string)
    requires id != ".." && Canonical(p) && AppData.Home(id) <= Components(p)
    ensures !IsSecret(p)
  {
    hide Components, Canonical, SECURITY_PATH, Inside;
    SecurityNames();
    SecurityJoins();
    AbsoluteComponents(SECURITY_PARTS);
    SecurityIsAbsolute();
    PathPrefixIsComponentPrefix(SECURITY_PATH, p);
    assert SECURITY_PARTS[1] != AppData.APPDATA_PARTS[1];
  }

  lemma SecurityIsAbsolute()
    ensures SECURITY_PATH == "/" + STORED_PATH && SECURITY_PATH != "/"
  {
  }

  /** The application with the identifier ".." names the password file "config/security". */
  lemma ParentIdReaches()
    ensures AppData.Reached("..", "config/security") == Ok(SECURITY_PATH)
  {
    hide AppData.Reached, Components, Canonical;
    var rest := ["config", "security"];
    SecurityNames();
    SecurityJoins();
    assert SECURITY_PARTS == ["user"] + rest && AppData.Home("..") == ["user"];
    assert forall c <- rest :: c in SECURITY_PARTS;
    AppData.HomeReached("..", rest);
    JoinConcat(["config"], ["security"]);
    assert ["config"] + ["security"] == rest;
    assert Join(["config"]) == "config" && Join(["security"]) == "security";
    assert "config" + "/" + "security" == "config/security";
  }

  /* ----- One effect ----- */

  /** A rename of a directory that holds the password file, or other data written to it as an application's own. */
  ghost predicate Unseats(e: Effect, t: FileTree)
    requires STORED_PATH in t.files
  {
    match e
    case RenamePath(p, q) => p != q && Inside(SECURITY_PATH, p)
    case AppdataWrite(p, data) => Normalized("/", p) == Ok(SECURITY_PATH) && data != t.files[STORED_PATH]
    case _ => false
  }

  /**
   * An effect that the checks let through and that succeeds keeps the password file exactly when it is neither of
   * those two.
   */
  lemma KeepsPasswordIff(app: AppIdentity, e: Effect, t: FileTree, t': FileTree)
    requires WellFormed(t) && STORED_PATH in t.files
    requires PathsFixed(e) && (forall r <- Required(e) :: !IsSecret(r.resource)) && Succeeded(app, e, t, t')
    ensures KeepsPassword(t, t') <==> !Unseats(e, t)
  {
    hide WellFormed, STORED_PATH, AddLineage, Without, RenameTree, Movable, RenameAllowed, Target, Lands, Normalized,
         Vacant, Blocked, IsSecret, PutFile, HomeMade, SECURITY_PATH, ActsOn;
    match e {
      case WriteText(p, data) =>
        assert Request(FsWrite(p), p) in Required(e);
        SecretAncestors(p);
        PutKeepsIff(t, p, data, t');
      case MakeDirs(p) => LineageKeepsFiles(t, Target(p));
      case RemovePath(p) =>
        assert Request(FsWrite(p), p) in Required(e);
        RemoveKeeps(t, p, t');
      case RenamePath(p, q) =>
        assert Request(FsWrite(p), p) in Required(e);
        RenameKeepsIff(t, p, q, t');
      case AppdataWrite(p, data) =>
        var made :| HomeMade(app, t, made) && Put(made, p, data, t');
        HomeKeepsFiles(app, t, made);
        PutKeepsIff(made, p, data, t');
      case _ =>
    }
  }

  lemma LineageKeepsFiles(t: FileTree, a: string)
    ensures AddLineage(t, a).files == t.files
  {
  }

  lemma HomeKeepsFiles(app: AppIdentity, t: FileTree, made: FileTree)
    requires HomeMade(app, t, made)
    ensures made.files == t.files
  {
  }

  lemma PutKeepsIff(t: FileTree, p: string, data: seq<Byte>, t': FileTree)
    requires STORED_PATH in t.files && Put(t, p, data, t')
    ensures Target(p) == STORED_PATH <==> Normalized("/", p) == Ok(SECURITY_PATH)
    ensures KeepsPassword(t, t') <==> Target(p) != STORED_PATH || data == t.files[STORED_PATH]
  {
    hide Normalized, STORED_PATH, Split, IsRel, Target, Lands, Vacant;
    LandsTarget(p);
    assert ("/" + Target(p))[1..] == Target(p) && SECURITY_PATH[1..] == STORED_PATH;
    LineageKeepsFiles(t, Parent(Target(p)));
  }

  lemma RemoveKeeps(t: FileTree, p: string, t': FileTree)
    requires STORED_PATH in t.files && ActsOn(p) && !IsSecret(p)
    requires Lands(p) && p !in PROTECTED_ROOTS && t' == Without(t, Target(p))
    ensures KeepsPassword(t, t')
  {
    hide Normalized, STORED_PATH, Split, IsRel, Target, Lands;
    SecretAncestors(p);
    StoredAncestors(Target(p));
    LandsTarget(p);
    assert "/user" in PROTECTED_ROOTS && "/user/config" in PROTECTED_ROOTS;
  }

  lemma RenameKeepsIff(t: FileTree, p: string, q: string, t': FileTree)
    requires WellFormed(t) && STORED_PATH in t.files && ActsOn(p) && ActsOn(q) && !IsSecret(p)
    requires Lands(p) && Lands(q) && Moved(t, t', Target(p), Target(q))
    ensures KeepsPassword(t, t') <==> !(p != q && Inside(SECURITY_PATH, p))
  {
    hide Normalized, STORED_PATH, Split, IsRel, Target, Lands, WellFormed, Relocated, Movable, AddLineage, Inside,
         RenameAllowed, Rebased, SECURITY_PATH;
    SecretAncestors(p);
    LandsTarget(p);
    LandsTarget(q);
    if p != q {
      var a, b := Target(p), Target(q);
      assert a != b;
      var base := AddLineage(t, Parent(b));
      LineageKeepsFiles(t, Parent(b));
      RelocatesFile(base, a, b, STORED_PATH);
    }
  }

  /** A relocation keeps a file where it is exactly when the file is outside what moves. */
  lemma RelocatesFile(t: FileTree, a: string, b: string, f: string)
    requires Movable(t, a, b) && f in t.files
    ensures Inside(f, a) ==> f !in Relocated(t, a, b).files
    ensures !Inside(f, a) ==> f in Relocated(t, a, b).files && Relocated(t, a, b).files[f] == t.files[f]
  {
    hide WellFormed, Rebased, Relocated, IsRel, Inside;
    RelocatedExact(t, a, b);
    RelocatedBack(t, a, b);
  }

  /* ----- Where a directory is in its place ----- */

  /** A directory in the password file's place stays exactly when no directory above it is renamed. */
  lemma KeepsDirectoryIff(app: AppIdentity, e: Effect, t: FileTree, t': FileTree)
    requires WellFormed(t) && STORED_PATH in t.directories
    requires PathsFixed(e) && (forall r <- Required(e) :: !IsSecret(r.resource)) && Succeeded(app, e, t, t')
    ensures STORED_PATH in t'.directories <==> !(e.RenamePath? && e.from != e.to && Inside(SECURITY_PATH, e.from))
  {
    hide WellFormed, STORED_PATH, RenameTree, Movable, RenameAllowed, Target, Lands, Normalized, Vacant, Blocked,
         IsSecret, SECURITY_PATH, ActsOn, Without, Lineage, Components, Parent;
    match e {
      case RemovePath(p) =>
        assert Request(FsWrite(p), p) in Required(e);
        RemoveKeepsDirectory(t, p);
      case RenamePath(p, q) =>
        assert Request(FsWrite(p), p) in Required(e);
        RenameKeepsDirectoryIff(t, p, q, t');
      case _ =>
    }
  }

  lemma RemoveKeepsDirectory(t: FileTree, p: string)
    requires STORED_PATH in t.directories && ActsOn(p) && !IsSecret(p) && Lands(p) && p !in PROTECTED_ROOTS
    ensures STORED_PATH in Without(t, Target(p)).directories
  {
    hide Normalized, STORED_PATH, Split, IsRel, Target, Lands;
    SecretAncestors(p);
    StoredAncestors(Target(p));
    LandsTarget(p);
    assert "/user" in PROTECTED_ROOTS && "/user/config" in PROTECTED_ROOTS;
  }

  lemma RenameKeepsDirectoryIff(t: FileTree, p: string, q: string, t': FileTree)
    requires STORED_PATH in t.directories && ActsOn(p) && ActsOn(q) && !IsSecret(p)
    requires Lands(p) && Lands(q) && Moved(t, t', Target(p), Target(q))
    ensures STORED_PATH in t'.directories <==> !(p != q && Inside(SECURITY_PATH, p))
  {
    hide Normalized, STORED_PATH, Split, IsRel, Target, Lands, WellFormed, Relocated, Movable, Inside,
         RenameAllowed, Rebased, SECURITY_PATH, Lineage, Components;
    SecretAncestors(p);
    LandsTarget(p);
    LandsTarget(q);
    if p != q {
      var a, b := Target(p), Target(q);
      assert a != b;
      RelocatesDirectory(AddLineage(t, Parent(b)), a, b, STORED_PATH);
    }
  }

  /** A relocation keeps a directory where it is exactly when it is outside what moves. */
  lemma RelocatesDirectory(t: FileTree, a: string, b: string, d: string)
    requires Movable(t, a, b) && d in t.directories
    ensures d in Relocated(t, a, b).directories <==> !Inside(d, a)
  {
    hide WellFormed, Rebased, Relocated, IsRel, Inside;
    RelocatedExact(t, a, b);
    RelocatedBack(t, a, b);
  }

  /** While a directory is there, no password passes. */
  lemma DirectoryLocksOut(t: FileTree, password: string, derive: Derive)
    requires STORED_PATH in t.directories
    ensures Judge(t, password, derive).Err?
  {
    hide STORED_PATH;
  }

  /* ----- Where there is nothing in its place ----- */

  /** The path leads to the password file or below it. */
  predicate LeadsInside(path: string) {
    Normalized("/", path).Ok? && IsSecret(Normalized("/", path).value)
  }

  /** A rename that moves something into the password file's place, or data written there as an application's own. */
  ghost predicate Installs(app: AppIdentity, e: Effect, t: FileTree) {
    match e
    case RenamePath(p, q) =>
      p != q && Inside(SECURITY_PATH, q) && Tree.Exists(t, Rebased(STORED_PATH, Target(q), Target(p)))
    case AppdataWrite(p, _) => LeadsInside(p) || LeadsInside(AppData.Root(app.id))
    case _ => false
  }

  /**
   * Where there was no password, an effect that the checks let through and that succeeds puts a file or a directory in
   * its place, and so turns the question for a password on, exactly when it is one of those.
   */
  lemma InstallsPasswordIff(app: AppIdentity, e: Effect, t: FileTree, t': FileTree)
    requires WellFormed(t) && !Tree.Exists(t, STORED_PATH)
    requires PathsFixed(e) && (forall r <- Required(e) :: !IsSecret(r.resource)) && Succeeded(app, e, t, t')
    ensures Tree.Exists(t', STORED_PATH) <==> Installs(app, e, t)
  {
    hide WellFormed, STORED_PATH, AddLineage, RenameTree, Movable, RenameAllowed, Target, Lands, Normalized,
         Vacant, Blocked, IsSecret, PutFile, HomeMade, SECURITY_PATH, ActsOn, Rebased, Inside, Tree.Exists, Put,
         LeadsInside, Without;
    match e {
      case WriteText(p, data) =>
        assert Request(FsWrite(p), p) in Required(e);
        FixedLeadsInside(p);
        PutExists(t, p, data, t');
      case MakeDirs(p) =>
        assert Request(FsWrite(p), p) in Required(e);
        FixedLeadsInside(p);
        LineageExists(t, p);
      case RemovePath(p) => NothingAdded(t, Target(p));
      case RenamePath(p, q) =>
        assert Request(FsWrite(q), q) in Required(e);
        RenameInstallsIff(app, t, p, q, t');
      case AppdataWrite(p, data) =>
        var made :| HomeMade(app, t, made) && Put(made, p, data, t');
        HomeExists(app, t, made);
        PutExists(made, p, data, t');
      case _ =>
    }
  }

  lemma NothingAdded(t: FileTree, a: string)
    ensures forall f | Tree.Exists(Without(t, a), f) :: Tree.Exists(t, f)
  {
  }

  lemma FixedLeadsInside(p: string)
    requires ActsOn(p) && !IsSecret(p)
    ensures !LeadsInside(p)
  {
    hide Normalized, IsSecret;
  }

  lemma TargetInside(p: string)
    requires Lands(p)
    ensures LeadsInside(p) <==> Inside(Target(p), STORED_PATH)
  {
    hide Normalized, STORED_PATH, Split, IsRel, Target, Lands;
    LandsTarget(p);
    UnderShift("/" + Target(p), SECURITY_PATH);
    assert ("/" + Target(p))[1..] == Target(p) && SECURITY_PATH[1..] == STORED_PATH;
  }

  lemma LineageExists(t: FileTree, p: string)
    requires Lands(p)
    ensures Tree.Exists(AddLineage(t, Target(p)), STORED_PATH) <==> Tree.Exists(t, STORED_PATH) || LeadsInside(p)
  {
    hide Normalized, STORED_PATH, Split, IsRel, Target, Lands, LeadsInside, Lineage, Components;
    LandsTarget(p);
    TargetInside(p);
    LineageIsAncestry(Target(p), STORED_PATH);
  }

  lemma HomeExists(app: AppIdentity, t: FileTree, made: FileTree)
    requires WellFormed(t) && HomeMade(app, t, made)
    ensures WellFormed(made)
    ensures Tree.Exists(made, STORED_PATH) <==> Tree.Exists(t, STORED_PATH) || LeadsInside(AppData.Root(app.id))
  {
    hide WellFormed, STORED_PATH, Target, Lands, LeadsInside, AddLineage, Blocked, Tree.Exists;
    LineageExists(t, AppData.Root(app.id));
    AddLineageWellFormed(t, Target(AppData.Root(app.id)));
  }

  lemma PutExists(t: FileTree, p: string, data: seq<Byte>, t': FileTree)
    requires WellFormed(t) && Put(t, p, data, t')
    ensures Tree.Exists(t', STORED_PATH) <==> Tree.Exists(t, STORED_PATH) || LeadsInside(p)
  {
    hide Normalized, STORED_PATH, Split, IsRel, Target, Lands, WellFormed, LeadsInside, PutFile, Blocked, Parent;
    LandsTarget(p);
    TargetInside(p);
    PutFileWellFormed(t, Target(p), data);
  }

  lemma RenameInstallsIff(app: AppIdentity, t: FileTree, p: string, q: string, t': FileTree)
    requires !Tree.Exists(t, STORED_PATH) && ActsOn(p) && ActsOn(q) && !IsSecret(q)
    requires Lands(p) && Lands(q) && Moved(t, t', Target(p), Target(q))
    ensures Tree.Exists(t', STORED_PATH) <==> Installs(app, RenamePath(p, q), t)
  {
    hide Normalized, STORED_PATH, Split, IsRel, Target, Lands, Relocated, AddLineage, Inside, RenameAllowed, Rebased,
         SECURITY_PATH, ActsOn, ClearOf, Apart, WellFormed, Movable, Tree.Exists;
    SecretAncestors(q);
    LandsTarget(p);
    LandsTarget(q);
    if p != q {
      var a, b := Target(p), Target(q);
      assert a != b;
      ParentsAdd(t, q, a, b);
      RelocatesOnto(AddLineage(t, Parent(b)), a, b, STORED_PATH);
    }
  }

  /** The target's new ancestors are neither the password file's place nor anything that moves. */
  lemma ParentsAdd(t: FileTree, q: string, a: string, b: string)
    requires Lands(q) && ActsOn(q) && !IsSecret(q) && b == Target(q) && Movable(AddLineage(t, Parent(b)), a, b)
    ensures var base := AddLineage(t, Parent(b));
            && Tree.Exists(base, STORED_PATH) == Tree.Exists(t, STORED_PATH)
            && forall f | Inside(f, a) :: Tree.Exists(base, f) == Tree.Exists(t, f)
  {
    hide Normalized, STORED_PATH, Split, IsRel, Target, Lands, WellFormed, ClearOf, Lineage, Components, Parent;
    LandsTarget(q);
    FixedLeadsInside(q);
    TargetInside(q);
    ParentLineage(b, STORED_PATH);
    forall f | Inside(f, a) ensures f !in Lineage(Components(Parent(b))) {
      ParentLineage(b, f);
      if Under(b, f) && f != a {
        UnderTransitive(b, f, a);
      }
    }
  }

  /** A relocation puts something where nothing was exactly inside its target, when the source has it. */
  lemma RelocatesOnto(t: FileTree, a: string, b: string, f: string)
    requires Movable(t, a, b) && !Tree.Exists(t, f)
    ensures Tree.Exists(Relocated(t, a, b), f) <==> Inside(f, b) && Tree.Exists(t, Rebased(f, b, a))
    ensures Inside(f, b) ==> Inside(Rebased(f, b, a), a)
  {
    hide WellFormed, Rebased, Relocated, IsRel, Inside, ClearOf, Apart;
    RelocatedExact(t, a, b);
    if Inside(f, b) {
      RebasedInverse(f, b, a);
    }
  }

  /* ----- In general ----- */

  /** What changes what is in the password file's place, be it a file, a directory or nothing. */
  ghost predicate Disturbs(app: AppIdentity, e: Effect, t: FileTree) {
    if STORED_PATH in t.files then Unseats(e, t)
    else if STORED_PATH in t.directories then e.RenamePath? && e.from != e.to && Inside(SECURITY_PATH, e.from)
    else Installs(app, e, t)
  }

  lemma DisturbsIff(app: AppIdentity, e: Effect, t: FileTree, t': FileTree)
    requires WellFormed(t) && WellFormed(t')
    requires PathsFixed(e) && (forall r <- Required(e) :: !IsSecret(r.resource)) && Succeeded(app, e, t, t')
    ensures !SameEntry(t, t', STORED_PATH) <==> Disturbs(app, e, t)
  {
    hide WellFormed, STORED_PATH, Installs, Unseats, Succeeded, PathsFixed, IsSecret, SECURITY_PATH, Inside, Required;
    DisjointKinds(t, STORED_PATH);
    DisjointKinds(t', STORED_PATH);
    if STORED_PATH in t.files {
      KeepsPasswordIff(app, e, t, t');
    } else if STORED_PATH in t.directories {
      KeepsDirectoryIff(app, e, t, t');
    } else {
      InstallsPasswordIff(app, e, t, t');
    }
  }

  /** What is in the file's place decides which passwords pass. */
  lemma SamePasswordsPass(t: FileTree, t': FileTree, password: string, derive: Derive)
    requires SameEntry(t, t', STORED_PATH)
    ensures Judge(t', password, derive) == Judge(t, password, derive)
  {
    hide STORED_PATH, ParseConfig, Utf8.Decode;
  }

  /** An effect that fails changes nothing there, unless the application's own directory lies inside. */
  lemma FailureDisturbsNothing(app: AppIdentity, e: Effect, t: FileTree, t': FileTree)
    requires WellFormed(t) && WellFormed(t') && Failed(app, e, t, t')
    requires PathsFixed(e) && (forall r <- Required(e) :: !IsSecret(r.resource)) && !LeadsInside(AppData.Root(app.id))
    ensures SameEntry(t, t', STORED_PATH)
  {
    hide WellFormed, STORED_PATH, Target, Lands, Normalized, Blocked, IsSecret, SECURITY_PATH, Lineage, Components,
         Parent, LeadsInside;
    DisjointKinds(t, STORED_PATH);
    DisjointKinds(t', STORED_PATH);
    if e.RenamePath? && StrayParents(t, e.to, t') {
      assert Request(FsWrite(e.to), e.to) in Required(e);
      LandsTarget(e.to);
      FixedLeadsInside(e.to);
      TargetInside(e.to);
      ParentLineage(Target(e.to), STORED_PATH);
    } else if e.AppdataWrite? && HomeMade(app, t, t') {
      HomeExists(app, t, t');
    }
  }

  /** The checks let an application that may write both move a directory with such a file into the place of "config". */
  lemma RenamingOntoConfigInstalls(t: FileTree, app: AppIdentity) returns (t': FileTree)
    requires WellFormed(t) && "user/x/security" in t.files && !Tree.Exists(t, "user/config")
    ensures var e := RenamePath("/user/x", "/user/config");
            && PathsFixed(e) && (forall r <- Required(e) :: !IsSecret(r.resource)) && Succeeded(app, e, t, t')
            && STORED_PATH in t'.files && t'.files[STORED_PATH] == t.files["user/x/security"]
  {
    hide WellFormed, STORED_PATH, AddLineage, Relocated, Normalized, RouteOf, IsSecret, IsRel, Split, Blocked, Parent,
         PutFile, ClearOf, Apart;
    ConfigRoutes();
    OntoConfigChecks(t);
    ChecksSuffice(t, "user/x", "user/config");
    var base := AddLineage(t, Parent("user/config"));
    LineageKeepsFiles(t, Parent("user/config"));
    t' := Relocated(base, "user/x", "user/config");
    ConfigSpelling();
    RelocatedBelow(base, "user/x", "user/config", "security");
  }

  lemma OntoConfigChecks(t: FileTree)
    requires WellFormed(t) && Tree.Exists(t, "user/x/security") && !Tree.Exists(t, "user/config")
    requires IsRel("user/config")
    ensures RenameAllowed(t, "user/x", "user/config")
  {
    hide IsRel, Lineage, Components, Parent, STORED_PATH;
    var f := "user/x/security";
    assert f[..4] == "user" && f[4] == '/' && f[..6] == "user/x" && f[6] == '/';
    assert Under(f, "user") && Under(f, "user/x");
    forall q | q in Lineage(Components(Parent("user/config"))) ensures q !in t.files {
      ParentLineage("user/config", q);
      ConfigAncestor(q);
    }
    assert "user/config"[5] != 'x';
    assert !Under("user/config", "user/x") by {
      assert "user/x"[5] == 'x' && "user/config"[..6][5] == 'c';
    }
  }

  lemma ConfigAncestor(q: string)
    requires Under("user/config", q)
    ensures q == "user"
  {
    assert forall i | 0 <= i < 11 :: "user/config"[i] == '/' <==> i == 4;
    assert "user/config"[..4] == "user";
  }

  /** With a directory in the file's place instead, nobody passes any more. */
  lemma RenamingOntoConfigLocksOut(t: FileTree, app: AppIdentity) returns (t': FileTree)
    requires WellFormed(t) && "user/x/security" in t.directories && !Tree.Exists(t, "user/config")
    ensures var e := RenamePath("/user/x", "/user/config");
            && PathsFixed(e) && (forall r <- Required(e) :: !IsSecret(r.resource)) && Succeeded(app, e, t, t')
            && Tree.Exists(t', STORED_PATH)
            && forall password, derive :: Judge(t', password, derive).Err?
  {
    hide WellFormed, STORED_PATH, AddLineage, Relocated, Normalized, RouteOf, IsSecret, IsRel, Split, Blocked, Parent,
         PutFile, ClearOf, Apart, Judge;
    ConfigRoutes();
    OntoConfigChecks(t);
    ChecksSuffice(t, "user/x", "user/config");
    var base := AddLineage(t, Parent("user/config"));
    LineageKeepsDirectories(t, Parent("user/config"));
    t' := Relocated(base, "user/x", "user/config");
    ConfigSpelling();
    DirectoryBelow(base, "user/x", "user/config", "security");
    forall password, derive ensures Judge(t', password, derive).Err? {
      DirectoryLocksOut(t', password, derive);
    }
  }

  lemma LineageKeepsDirectories(t: FileTree, a: string)
    ensures t.directories <= AddLineage(t, a).directories
  {
  }

  lemma GoesBelow(from: string, to: string, name: string)
    ensures var f := from + "/" + name;
            Under(f, from) && Destination(f, from, to) == to + "/" + name
  {
    var f := from + "/" + name;
    assert f[..|from|] == from && f[|from|] == '/' && f[|from|..] == "/" + name;
    assert to + ("/" + name) == to + "/" + name;
  }

  lemma DirectoryBelow(t: FileTree, from: string, to: string, name: string)
    requires Movable(t, from, to) && from + "/" + name in t.directories
    ensures to + "/" + name in Relocated(t, from, to).directories
  {
    hide WellFormed, Relocated, IsRel, ClearOf, Apart, Destination;
    RelocatedExact(t, from, to);
    GoesBelow(from, to, name);
  }

  /** A file below what is renamed is found, with its content, below the new name, and nothing below the old one. */
  lemma RelocatedBelow(t: FileTree, from: string, to: string, name: string)
    requires Movable(t, from, to) && from + "/" + name in t.files
    ensures var t' := Relocated(t, from, to);
            && to + "/" + name in t'.files && t'.files[to + "/" + name] == t.files[from + "/" + name]
            && !Tree.Exists(t', from + "/" + name)
  {
    hide WellFormed, Relocated, IsRel, ClearOf, Apart, Destination, Rebased;
    var f := from + "/" + name;
    RelocatedExact(t, from, to);
    RelocatedBack(t, from, to);
    GoesBelow(from, to, name);
    NothingInside(Relocated(t, from, to).files.Keys, from, f);
    NothingInside(Relocated(t, from, to).directories, from, f);
  }

  lemma ConfigSpelling()
    ensures "user/config" + "/" + "security" == STORED_PATH && "user/x" + "/" + "security" == "user/x/security"
  {
  }

  /* ----- Who can read it ----- */

  /** The trees differ at most in what the password file contains. */
  ghost predicate SameElsewhere(t: FileTree, t': FileTree) {
    t.directories == t'.directories && t.files.Keys == t'.files.Keys
    && forall f <- t.files :: f == STORED_PATH || t'.files[f] == t.files[f]
  }

  /** What is read at the path does not depend on what the password file contains. */
  ghost predicate Blind(files: seq<EmbeddedFile>, path: string) {
    forall t, t' | SameElsewhere(t, t') :: Content(files, t, path) == Content(files, t', path)
  }

  lemma OtherPathIsBlind(files: seq<EmbeddedFile>, path: string)
    ensures Normalized("/", path) != Ok(SECURITY_PATH) ==> Blind(files, path)
  {
    hide Normalized, STORED_PATH, SystemFile, Split, IsRel;
    if Normalized("/", path) != Ok(SECURITY_PATH) {
      if Lands(path) {
        LandsTarget(path);
      }
      forall t, t' | SameElsewhere(t, t') ensures Content(files, t, path) == Content(files, t', path) {
      }
    }
  }

  /** No read that passed the checks depends on it. */
  lemma ReadTextIsBlind(files: seq<EmbeddedFile>, p: string)
    requires PathsFixed(ReadText(p)) && forall r <- Required(ReadText(p)) :: !IsSecret(r.resource)
    ensures Blind(files, p)
  {
    hide Normalized, SECURITY_PATH, Blind;
    assert Request(FsRead(p), p) in Required(ReadText(p));
    OtherPathIsBlind(files, p);
  }

  /** As its own data an application reads it exactly when its identifier is "..". */
  lemma DataReadIsBlindIff(files: seq<EmbeddedFile>, id: string)
    requires AppData.IsId(id)
    ensures (forall path | AppData.Resolve(id, path).Ok? :: Blind(files, AppData.Resolve(id, path).value))
            <==> id != ".."
  {
    hide AppData.Resolve, Normalized, Blind, STORED_PATH, SECURITY_PATH, AppData.IsId;
    DataReachesPasswordIff(id);
    forall path | AppData.Resolve(id, path).Ok? && id != ".." ensures Blind(files, AppData.Resolve(id, path).value) {
      var p := AppData.Resolve(id, path).value;
      assert AppData.Reached(id, path) == Normalized("/", p);
      OtherPathIsBlind(files, p);
    }
    if id == ".." {
      ParentIdReaches();
      var p := AppData.Resolve("..", "config/security").value;
      PasswordIsSeen(files, p);
    }
  }

  lemma PasswordIsSeen(files: seq<EmbeddedFile>, p: string)
    requires Normalized("/", p) == Ok(SECURITY_PATH)
    ensures !Blind(files, p)
  {
    hide Normalized, STORED_PATH, RouteOf, IsRel, Canonical;
    SecurityRoute();
    var t, t' := FileTree(map[STORED_PATH := [0]], {}), FileTree(map[STORED_PATH := [1]], {});
    assert SameElsewhere(t, t');
    assert Content(files, t, p) == Ok([0]) && Content(files, t', p) == Ok([1]);
  }

  /* ----- Both exceptions happen ----- */

  /** The checks let every application that declares `fs.write:/` rename "/user/config". */
  lemma RenamingConfigUnseats(t: FileTree, app: AppIdentity) returns (t': FileTree)
    requires WellFormed(t) && STORED_PATH in t.files && !Tree.Exists(t, "user/x")
    ensures var e := RenamePath("/user/config", "/user/x");
            && PathsFixed(e) && (forall r <- Required(e) :: !IsSecret(r.resource)) && Succeeded(app, e, t, t')
            && !Tree.Exists(t', STORED_PATH)
            && "user/x/security" in t'.files && t'.files["user/x/security"] == t.files[STORED_PATH]
  {
    hide WellFormed, STORED_PATH, AddLineage, Relocated, Normalized, RouteOf, IsSecret, IsRel, Split, Blocked, Parent,
         PutFile, ClearOf, Apart;
    ConfigRoutes();
    ConfigChecks(t);
    ChecksSuffice(t, "user/config", "user/x");
    var base := AddLineage(t, Parent("user/x"));
    LineageKeepsFiles(t, Parent("user/x"));
    t' := Relocated(base, "user/config", "user/x");
    ConfigSpelling();
    RelocatedBelow(base, "user/config", "user/x", "security");
  }

  lemma ConfigNames()
    ensures Canonical("/user/config") && Canonical("/user/x")
    ensures Components("/user/config") == ["user", "config"] && Components("/user/x") == ["user", "x"]
  {
    hide Components, Canonical;
    assert AllProper(["user", "config"]) && AllProper(["user", "x"]);
    AbsoluteComponents(["user", "config"]);
    AbsoluteComponents(["user", "x"]);
    JoinConcat(["user"], ["config"]);
    JoinConcat(["user"], ["x"]);
    assert ["user"] + ["config"] == ["user", "config"] && ["user"] + ["x"] == ["user", "x"];
    assert Join(["user"]) == "user" && Join(["config"]) == "config" && Join(["x"]) == "x";
    assert "/" + ("user" + "/" + "config") == "/user/config" && "/" + ("user" + "/" + "x") == "/user/x";
  }

  lemma UserPathLands(p: string)
    requires Canonical(p) && Components(p) != [] && Components(p)[0] == "user"
    ensures ActsOn(p) && Lands(p) && p == "/" + Target(p) && IsRel(Target(p))
  {
    hide Canonical, Components, Normalized, RouteOf, IsRel, Split;
    CanonicalIsFixed("/", p);
    RouteByFirstComponent(p);
  }

  lemma ConfigRoutes()
    ensures ActsOn("/user/config") && ActsOn("/user/x") && !IsSecret("/user/config") && !IsSecret("/user/x")
    ensures Lands("/user/config") && Lands("/user/x")
    ensures Target("/user/config") == "user/config" && Target("/user/x") == "user/x"
    ensures IsRel("user/x") && IsRel("user/config")
  {
    hide Canonical, Components, Normalized, RouteOf, IsRel, ActsOn, Lands, Target, Under;
    ConfigNames();
    UserPathLands("/user/config");
    UserPathLands("/user/x");
    assert "/user/config"[1..] == "user/config" && ("/" + Target("/user/config"))[1..] == Target("/user/config");
    assert "/user/x"[1..] == "user/x" && ("/" + Target("/user/x"))[1..] == Target("/user/x");
    ShortIsNotSecret("/user/config");
    ShortIsNotSecret("/user/x");
  }

  lemma ShortIsNotSecret(p: string)
    requires |p| < |SECURITY_PATH|
    ensures !IsSecret(p)
  {
  }

  lemma ConfigChecks(t: FileTree)
    requires WellFormed(t) && STORED_PATH in t.files && !Tree.Exists(t, "user/x") && IsRel("user/x")
    ensures RenameAllowed(t, "user/config", "user/x")
  {
    hide IsRel, Lineage, Components, Parent, STORED_PATH;
    StoredAncestors("user/config");
    StoredAncestors("user");
    assert Under(STORED_PATH, "user/config") && Under(STORED_PATH, "user");
    forall q | q in Lineage(Components(Parent("user/x"))) ensures q !in t.files {
      ParentLineage("user/x", q);
      OneAncestor(q);
    }
    assert "user/x"[5] != "user/config"[5] && |"user/x"| < |"user/config"|;
  }

  lemma OneAncestor(q: string)
    requires Under("user/x", q)
    ensures q == "user"
  {
    assert forall i | 0 <= i < 6 :: "user/x"[i] == '/' <==> i == 4;
    assert "user/x"[..4] == "user";
  }

  lemma NothingInside(paths: set<string>, from: string, p: string)
    requires ClearOf(paths, from) && Inside(p, from)
    ensures p !in paths
  {
  }

  /** An application with the identifier ".." overwrites the password file as its own data, with no request at all. */
  lemma ParentIdUnseats(t: FileTree, capabilities: seq<Capability>, data: seq<Byte>) returns (p: string, t': FileTree)
    requires WellFormed(t) && STORED_PATH in t.files
    ensures var app, e := AppIdentity("..", false, capabilities), AppdataWrite(p, data);
            && OwnData(app, e) && Required(e) == [] && Succeeded(app, e, t, t')
            && STORED_PATH in t'.files && t'.files[STORED_PATH] == data
  {
    hide WellFormed, AppData.Resolve, Normalized, RouteOf, IsRel, Split, AddLineage, Blocked, Parent, STORED_PATH,
         SECURITY_PATH;
    ParentIdReaches();
    p := AppData.Resolve("..", "config/security").value;
    ParentIdLands(p);
    var app := AppIdentity("..", false, capabilities);
    var made := AddLineage(t, "user");
    HomeOfParentId(t, made);
    t' := PutFile(made, STORED_PATH, data);
    assert HomeMade(app, t, made) && Put(made, p, data, t');
  }

  lemma ParentIdLands(p: string)
    requires Normalized("/", p) == Ok(SECURITY_PATH)
    ensures Lands(p) && Target(p) == STORED_PATH
    ensures Lands(AppData.Root("..")) && Target(AppData.Root("..")) == "user"
  {
    hide Normalized, IsRel, Split, STORED_PATH, RouteOf, Join;
    SecurityRoute();
    AppData.HomeNormalises("..", []);
    AppData.RootParts("..");
    assert AppData.APPDATA_PARTS + [".."] + [] == AppData.APPDATA_PARTS + [".."];
    assert AppData.Home("..") + [] == ["user"];
    UserRoute();
  }

  lemma UserRoute()
    ensures Absolute(["user"]) == "/user" && RouteOf("/user") == Persistent("user")
  {
    assert "/user"[1..] == "user";
  }

  lemma HomeOfParentId(t: FileTree, made: FileTree)
    requires WellFormed(t) && STORED_PATH in t.files && made == AddLineage(t, "user")
    ensures !Blocked(t, "user") && Vacant(made, STORED_PATH)
  {
    hide IsRel, Lineage, Components, Parent, STORED_PATH, Split;
    SecurityRoute();
    StoredAncestors("user");
    assert Under(STORED_PATH, "user");
    UserIsRel();
    forall q ensures q in Lineage(Components("user")) <==> q == "user" {
      LineageIsAncestry("user", q);
      NeverUnder("user", q);
    }
    forall q | q in Lineage(Components(Parent(STORED_PATH))) ensures q !in made.files {
      ParentLineage(STORED_PATH, q);
    }
    StoredIsNoMount();
  }

  lemma UserIsRel()
    ensures IsRel("user") && NoSlash("user")
  {
    SplitNoSlash("user");
  }
}
