/** What whole runs of an application do to storage. */
module Conduct {
  import opened Wrappers
  import opened Codec
  import opened Api
  import opened Paths
  import opened Normalize
  import opened Tree
  import opened Platform
  import opened Vfs
  import opened Security
  import opened Effects
  import opened PasswordFile
  import opened Session
  import AppData

  ghost predicate AllSound(app: AppIdentity, derive: Derive, pieces: seq<Piece>) {
    forall p <- pieces :: Sound(app, derive, p)
  }

  lemma SoundPrefix(app: AppIdentity, derive: Derive, pieces: seq<Piece>)
    requires AllSound(app, derive, pieces) && pieces != []
    ensures Sound(app, derive, pieces[|pieces| - 1]) && AllSound(app, derive, pieces[..|pieces| - 1])
  {
    hide Sound;
    assert pieces[|pieces| - 1] in pieces;
    assert forall p <- pieces[..|pieces| - 1] :: p in pieces;
  }

  /** What the effect of a sound piece was entitled to. */
  lemma SoundEffect(app: AppIdentity, derive: Derive, p: Piece)
    requires Sound(app, derive, p)
    ensures WellFormed(p.before) && WellFormed(p.after)
    ensures match EffectOf(p.events)
            case None => p.after == p.before
            case Some(e) =>
              && Effected(app, e, p.before, p.after) && PathsFixed(e) && OwnData(app, e)
              && (forall r <- Required(e) :: Allowed(app, r))
  {
    hide Allowed, GrantedAll, Required, PathsFixed, OwnData, Effected, WellFormed;
    if EffectOf(p.events).Some? {
      assert p.events[|p.events| - 1] in p.events;
    }
  }

  /* ----- Confinement ----- */

  /** The storage paths that the run was authorised for, or that are the application's own. */
  function AllRoots(app: AppIdentity, pieces: seq<Piece>): set<string> {
    if pieces == [] then {}
    else
      var effect := EffectOf(pieces[|pieces| - 1].events);
      AllRoots(app, pieces[..|pieces| - 1]) + if effect.Some? then Roots(app, effect.value) else {}
  }

  /** Over any run, storage changes only at or under those paths, and above them only by new directories. */
  lemma {:induction false} RunConfined(
    app: AppIdentity, derive: Derive, pieces: seq<Piece>, first: FileTree, last: FileTree)
    requires AllSound(app, derive, pieces) && Chained(pieces, first, last)
    ensures Confined(first, last, AllRoots(app, pieces))
    decreases |pieces|
  {
    hide AllSound, Sound, Confined, Roots, WellFormed, Effected, EffectOf;
    var roots := AllRoots(app, pieces);
    NothingConfined(first, roots);
    if pieces != [] {
      var k := |pieces| - 1;
      var p := pieces[k];
      SoundPrefix(app, derive, pieces);
      SoundEffect(app, derive, p);
      RunConfined(app, derive, pieces[..k], first, p.before);
      ConfinedMore(first, p.before, AllRoots(app, pieces[..k]), roots);
      NothingConfined(p.before, roots);
      if EffectOf(p.events).Some? {
        EffectConfined(app, EffectOf(p.events).value, p.before, p.after);
        ConfinedMore(p.before, p.after, Roots(app, EffectOf(p.events).value), roots);
      }
      ConfinedTwice(first, p.before, p.after, roots);
    }
  }

  /** Each of those paths is one that some call was authorised for, or application data that it resolved. */
  lemma {:induction false} RootIsEntitled(app: AppIdentity, derive: Derive, pieces: seq<Piece>, root: string)
    returns (p: Piece, e: Effect)
    requires AllSound(app, derive, pieces) && root in AllRoots(app, pieces)
    ensures p in pieces && EffectOf(p.events) == Some(e) && root in Roots(app, e)
    ensures PathsFixed(e) && OwnData(app, e) && forall r <- Required(e) :: Allowed(app, r)
    ensures e.AppdataWrite? || exists r <- Required(e) :: Target(r.resource) == root
    decreases |pieces|
  {
    hide AllSound, Sound, WellFormed, Effected, EffectOf, PathsFixed, OwnData, Allowed, Target;
    var k := |pieces| - 1;
    SoundPrefix(app, derive, pieces);
    if root in AllRoots(app, pieces[..k]) {
      p, e := RootIsEntitled(app, derive, pieces[..k], root);
    } else {
      p, e := pieces[k], EffectOf(pieces[k].events).value;
      SoundEffect(app, derive, p);
      RootIsRequested(app, e, root);
    }
  }

  lemma RootIsRequested(app: AppIdentity, e: Effect, root: string)
    requires root in Roots(app, e)
    ensures e.AppdataWrite? || exists r <- Required(e) :: Target(r.resource) == root
  {
    hide Target;
    if !e.AppdataWrite? {
      assert Target(Required(e)[0].resource) == root || Target(Required(e)[1].resource) == root;
    }
  }

  /** The storage paths that the calls name. */
  function CallRoots(cwd: string, app: AppIdentity, calls: seq<Call>): set<string> {
    if calls == [] then {}
    else
      var effect := EffectFor(cwd, app, calls[|calls| - 1]);
      CallRoots(cwd, app, calls[..|calls| - 1]) + if effect.Some? then Roots(app, effect.value) else {}
  }

  lemma {:induction false} RootsFromCalls(cwd: string, app: AppIdentity, calls: seq<Call>, pieces: seq<Piece>)
    requires |pieces| == |calls|
    requires forall i | 0 <= i < |calls| :: Answers(cwd, app, calls[i], pieces[i].events)
    ensures AllRoots(app, pieces) <= CallRoots(cwd, app, calls)
    decreases |calls|
  {
    hide Roots, EffectOf, EffectFor;
    if calls != [] {
      var k := |calls| - 1;
      assert Answers(cwd, app, calls[k], pieces[k].events);
      RootsFromCalls(cwd, app, calls[..k], pieces[..k]);
    }
  }

  /** What a run does to storage can be told from its calls: only the paths they name, and nothing if they name none. */
  lemma CallsConfine(
    cwd: string, app: AppIdentity, derive: Derive, calls: seq<Call>, pieces: seq<Piece>,
    first: FileTree, last: FileTree)
    requires AllSound(app, derive, pieces) && Chained(pieces, first, last) && |pieces| == |calls|
    requires forall i | 0 <= i < |calls| :: Answers(cwd, app, calls[i], pieces[i].events)
    ensures Confined(first, last, CallRoots(cwd, app, calls))
    ensures CallRoots(cwd, app, calls) == {} ==> last == first
  {
    hide AllSound, Chained, Answers, Confined, CallRoots, AllRoots;
    RunConfined(app, derive, pieces, first, last);
    RootsFromCalls(cwd, app, calls, pieces);
    ConfinedMore(first, last, AllRoots(app, pieces), CallRoots(cwd, app, calls));
    if CallRoots(cwd, app, calls) == {} {
      ConfinedToNothing(first, last);
    }
  }

  lemma ConfinedToNothing(t: FileTree, t': FileTree)
    requires Confined(t, t', {})
    ensures t' == t
  {
    forall q ensures SameFile(t, t', q) && (q in t.directories <==> q in t'.directories) {
      assert ConfinedAt(t, t', {}, q);
    }
    forall q ensures q in t.files.Keys <==> q in t'.files.Keys {
      assert SameFile(t, t', q);
    }
    assert t.files.Keys == t'.files.Keys;
    forall q | q in t.files ensures t'.files[q] == t.files[q] {
      assert SameFile(t, t', q);
    }
  }

  /** Over any run, storage keeps to its two roots. */
  lemma {:induction false} RunKeepsRooted(
    app: AppIdentity, derive: Derive, pieces: seq<Piece>, first: FileTree, last: FileTree)
    requires AllSound(app, derive, pieces) && Chained(pieces, first, last) && Rooted(first)
    ensures Rooted(last)
    decreases |pieces|
  {
    hide AllSound, Sound, Rooted, WellFormed, Effected, EffectOf;
    if pieces != [] {
      var k := |pieces| - 1;
      var p := pieces[k];
      SoundPrefix(app, derive, pieces);
      SoundEffect(app, derive, p);
      RunKeepsRooted(app, derive, pieces[..k], first, p.before);
      if EffectOf(p.events).Some? {
        EffectKeepsRooted(app, EffectOf(p.events).value, p.before, p.after);
      }
    }
  }

  /* ----- The password file ----- */

  /** The piece renames one of the two directories that hold the password file. */
  predicate RenamesConfig(p: Piece) {
    match EffectOf(p.events)
    case Some(RenamePath(from, to)) => from != to && (from == "/user" || from == "/user/config")
    case _ => false
  }

  lemma PieceDisturbsNothing(app: AppIdentity, derive: Derive, p: Piece)
    requires Sound(app, derive, p) && AppData.IsId(app.id) && app.id != ".."
    requires if Tree.Exists(p.before, STORED_PATH) then !RenamesConfig(p) else !RenamesOntoConfig(p)
    ensures SameEntry(p.before, p.after, STORED_PATH)
  {
    hide Sound, WellFormed, STORED_PATH, SECURITY_PATH, EffectOf, Required, Allowed, Succeeded, Failed, OwnData,
         PathsFixed, AppData.IsId, Disturbs, Tree.Exists, RenamesConfig, RenamesOntoConfig, LeadsInside;
    SoundEffect(app, derive, p);
    OnlyParentIdLeadsInside(app.id, "");
    if EffectOf(p.events).Some? {
      var e := EffectOf(p.events).value;
      NotSecret(app, e);
      if Succeeded(app, e, p.before, p.after) {
        DisturbsIff(app, e, p.before, p.after);
        NotDisturbed(app, e, p);
      } else {
        FailureDisturbsNothing(app, e, p.before, p.after);
      }
    }
  }

  lemma NotSecret(app: AppIdentity, e: Effect)
    requires forall r <- Required(e) :: Allowed(app, r)
    ensures forall r <- Required(e) :: !IsSecret(r.resource)
  {
    hide Required, IsSecret, Declares;
    forall r | r in Required(e) ensures !IsSecret(r.resource) {
      assert Allowed(app, r);
    }
  }

  lemma NotDisturbed(app: AppIdentity, e: Effect, p: Piece)
    requires EffectOf(p.events) == Some(e)
    requires if Tree.Exists(p.before, STORED_PATH) then !RenamesConfig(p) else !RenamesOntoConfig(p)
    requires PathsFixed(e) && OwnData(app, e) && (forall r <- Required(e) :: !IsSecret(r.resource))
    requires Succeeded(app, e, p.before, p.after) && AppData.IsId(app.id) && app.id != ".."
    ensures !Disturbs(app, e, p.before)
  {
    hide STORED_PATH, SECURITY_PATH, EffectOf, IsSecret, AppData.IsId, AppData.Resolve, Normalized, Lands, Target,
         Moved, HomeMade, Put, Without, Vacant, AddLineage, LeadsInside;
    match e {
      case RenamePath(from, to) =>
        assert Request(FsWrite(from), from) in Required(e) && Request(FsWrite(to), to) in Required(e);
        SecretAncestors(from);
        SecretAncestors(to);
      case AppdataWrite(path, data) =>
        var named :| AppData.Resolve(app.id, named) == Ok(path);
        OnlyParentIdLeadsInside(app.id, named);
        SecurityLeadsInside(path);
      case _ =>
    }
  }

  lemma SecurityLeadsInside(path: string)
    ensures Normalized("/", path) == Ok(SECURITY_PATH) ==> LeadsInside(path)
  {
    hide Normalized, SECURITY_PATH;
  }

  /**
   * The password file and its content, or whatever else is in its place, outlive every run of an application whose
   * identifier is not "..", unless the run renames "/user" or "/user/config"; so the same passwords pass as before.
   */
  lemma {:induction false} PasswordSurvives(
    app: AppIdentity, derive: Derive, pieces: seq<Piece>, first: FileTree, last: FileTree)
    requires AllSound(app, derive, pieces) && Chained(pieces, first, last)
    requires Tree.Exists(first, STORED_PATH) && AppData.IsId(app.id) && app.id != ".."
    requires forall p <- pieces :: !RenamesConfig(p)
    ensures SameEntry(first, last, STORED_PATH)
    decreases |pieces|
  {
    hide AllSound, Sound, STORED_PATH, RenamesConfig, AppData.IsId;
    if pieces != [] {
      var k := |pieces| - 1;
      assert pieces[k] in pieces && forall p <- pieces[..k] :: p in pieces;
      SoundPrefix(app, derive, pieces);
      PasswordSurvives(app, derive, pieces[..k], first, pieces[k].before);
      PieceDisturbsNothing(app, derive, pieces[k]);
    }
  }

  /** The piece renames something to one of those two directories. */
  predicate RenamesOntoConfig(p: Piece) {
    match EffectOf(p.events)
    case Some(RenamePath(from, to)) => from != to && (to == "/user" || to == "/user/config")
    case _ => false
  }

  /**
   * Where there is no password, no run of an application whose identifier is not ".." puts a file or a directory in its
   * place, unless the run renames something to "/user" or "/user/config".
   */
  lemma {:induction false} PasswordStaysAway(
    app: AppIdentity, derive: Derive, pieces: seq<Piece>, first: FileTree, last: FileTree)
    requires AllSound(app, derive, pieces) && Chained(pieces, first, last)
    requires !Tree.Exists(first, STORED_PATH) && AppData.IsId(app.id) && app.id != ".."
    requires forall p <- pieces :: !RenamesOntoConfig(p)
    ensures !Tree.Exists(last, STORED_PATH)
    decreases |pieces|
  {
    hide AllSound, Sound, STORED_PATH, RenamesOntoConfig, AppData.IsId;
    if pieces != [] {
      var k := |pieces| - 1;
      assert pieces[k] in pieces && forall p <- pieces[..k] :: p in pieces;
      SoundPrefix(app, derive, pieces);
      PasswordStaysAway(app, derive, pieces[..k], first, pieces[k].before);
      PieceDisturbsNothing(app, derive, pieces[k]);
    }
  }

  lemma RootWriterMayWrite(app: AppIdentity, p: string)
    requires FsWrite("/") in app.capabilities && !IsSecret(p)
    ensures Allowed(app, Request(FsWrite(p), p))
  {
    hide Normalized, IsSecret, Canonical;
    RootCanonical();
    CanonicalIsFixed("/", "/");
    assert Covers(FsWrite("/"), FsWrite(p));
  }

  /** An application that declares `fs.write:/` is allowed every request of the rename that unseats the file. */
  lemma RootWriterMayRenameConfig(app: AppIdentity)
    requires FsWrite("/") in app.capabilities
    ensures forall r <- Required(RenamePath("/user/config", "/user/x")) :: Allowed(app, r)
  {
    hide ActsOn, Lands, Target, IsRel, IsSecret, Allowed;
    ConfigRoutes();
    RootWriterMayWrite(app, "/user/config");
    RootWriterMayWrite(app, "/user/x");
  }
}
