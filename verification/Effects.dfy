/** What applications can make the system do, what each effect does to storage, and what it leaves alone. */
module Effects {
  import opened Wrappers
  import opened Words
  import opened Codec
  import opened Api
  import opened Paths
  import opened Normalize
  import opened Tree
  import opened Rename
  import opened Platform
  import opened Vfs
  import opened Security
  import AppData

  datatype Effect =
    | ReadText(path: string)
    | WriteText(path: string, data: seq<Byte>)
    | ListDir(path: string)
    | MakeDirs(path: string)
    | RemovePath(path: string)
    | RenamePath(from: string, to: string)
    | ReadClock
    | ReadInfo
    | Connect(host: string, port: nat)
    | AppdataRead(path: string)
    | AppdataWrite(path: string, data: seq<Byte>)

  datatype Request = Request(capability: Capability, resource: string)

  /** The decimal digits of a port. */
  function Decimal(n: nat): string {
    if n < 10 then ["0123456789"[n]] else Decimal(n / 10) + ["0123456789"[n % 10]]
  }

  /** The number that decimal digits spell. */
  function DecimalValue(digits: string): int {
    if digits == "" then 0
    else 10 * DecimalValue(digits[..|digits| - 1]) + (digits[|digits| - 1] as int - '0' as int)
  }

  /** The requests that must be granted before an effect, in order. */
  function Required(e: Effect): seq<Request> {
    match e
    case ReadText(p) => [Request(FsRead(p), p)]
    case ListDir(p) => [Request(FsRead(p), p)]
    case WriteText(p, _) => [Request(FsWrite(p), p)]
    case MakeDirs(p) => [Request(FsWrite(p), p)]
    case RemovePath(p) => [Request(FsWrite(p), p)]
    case RenamePath(from, to) => [Request(FsWrite(from), from), Request(FsWrite(to), to)]
    case ReadClock => [Request(Clock, "monotonic clock")]
    case ReadInfo => [Request(SystemInfo, "system information")]
    case Connect(host, port) => [Request(Network(host), host + ":" + Decimal(port))]
    case AppdataRead(_) => []
    case AppdataWrite(_, _) => []
  }

  predicate IsSecret(resource: string) {
    Inside(resource, SECURITY_PATH)
  }

  /** Application data is reached without a request, but only where the application's own directory resolves. */
  ghost predicate OwnData(app: AppIdentity, e: Effect) {
    match e
    case AppdataRead(p) => exists path :: AppData.Resolve(app.id, path) == Ok(p)
    case AppdataWrite(p, _) => exists path :: AppData.Resolve(app.id, path) == Ok(p)
    case _ => true
  }

  /** The VFS acts on the very path that was authorised. */
  predicate ActsOn(p: string) {
    Normalized("/", p) == Ok(p)
  }

  predicate PathsFixed(e: Effect) {
    match e
    case ReadText(p) => ActsOn(p)
    case ListDir(p) => ActsOn(p)
    case WriteText(p, _) => ActsOn(p)
    case MakeDirs(p) => ActsOn(p)
    case RemovePath(p) => ActsOn(p)
    case RenamePath(from, to) => ActsOn(from) && ActsOn(to)
    case _ => true
  }

  /* ----- What an effect does to storage ----- */

  /** Storage after a successful rename: nothing changes when both names are the same. */
  ghost predicate Moved(was: FileTree, now: FileTree, from: string, to: string) {
    if from == to then now == was
    else
      && RenameAllowed(was, from, to)
      && Movable(AddLineage(was, Parent(to)), from, to) && now == RenameTree(was, from, to)
  }

  /** Storage with the application's directory made. */
  ghost predicate HomeMade(app: AppIdentity, t: FileTree, t': FileTree) {
    var root := AppData.Root(app.id);
    Lands(root) && !Blocked(t, Target(root)) && t' == AddLineage(t, Target(root))
  }

  ghost predicate Put(t: FileTree, path: string, data: seq<Byte>, t': FileTree) {
    Lands(path) && Vacant(t, Target(path)) && t' == PutFile(t, Target(path), data)
  }

  ghost predicate Succeeded(app: AppIdentity, e: Effect, t: FileTree, t': FileTree) {
    match e
    case WriteText(p, data) => Put(t, p, data, t')
    case MakeDirs(p) => Lands(p) && !Blocked(t, Target(p)) && t' == AddLineage(t, Target(p))
    case RemovePath(p) =>
      Lands(p) && p !in PROTECTED_ROOTS && Tree.Exists(t, Target(p)) && t' == Without(t, Target(p))
    case RenamePath(p, q) => Lands(p) && Lands(q) && Moved(t, t', Target(p), Target(q))
    case AppdataWrite(p, data) => exists made :: HomeMade(app, t, made) && Put(made, p, data, t')
    case _ => t' == t
  }

  /** What an effect that was allowed but failed can have done: a rename or a write of data may make directories. */
  ghost predicate Failed(app: AppIdentity, e: Effect, t: FileTree, t': FileTree) {
    || t' == t
    || (e.RenamePath? && StrayParents(t, e.to, t'))
    || (e.AppdataWrite? && HomeMade(app, t, t'))
  }

  ghost predicate Effected(app: AppIdentity, e: Effect, t: FileTree, t': FileTree) {
    Succeeded(app, e, t, t') || Failed(app, e, t, t')
  }

  /* ----- What it leaves alone ----- */

  /** The storage paths that the effect was authorised for, or that are the application's own. */
  function Roots(app: AppIdentity, e: Effect): set<string> {
    match e
    case WriteText(p, _) => {Target(p)}
    case MakeDirs(p) => {Target(p)}
    case RemovePath(p) => {Target(p)}
    case RenamePath(p, q) => {Target(p), Target(q)}
    case AppdataWrite(p, _) => {Target(p), Target(AppData.Root(app.id))}
    case _ => {}
  }

  predicate Covered(q: string, roots: set<string>) {
    exists r <- roots :: Inside(q, r)
  }

  predicate Above(q: string, roots: set<string>) {
    exists r <- roots :: Under(r, q)
  }

  predicate SameFile(t: FileTree, t': FileTree, q: string) {
    (q in t.files <==> q in t'.files) && (q in t.files ==> t'.files[q] == t.files[q])
  }

  /** What is at q, if anything, is the same. */
  predicate SameEntry(t: FileTree, t': FileTree, q: string) {
    SameFile(t, t', q) && (q in t.directories <==> q in t'.directories)
  }

  /** At q, unless a root covers it, no file changes, no directory goes, and only an ancestor of a root may come. */
  ghost predicate ConfinedAt(t: FileTree, t': FileTree, roots: set<string>, q: string) {
    || Covered(q, roots)
    || (&& SameFile(t, t', q)
        && (q in t.directories ==> q in t'.directories)
        && (q in t'.directories && q !in t.directories ==> Above(q, roots)))
  }

  ghost predicate Confined(t: FileTree, t': FileTree, roots: set<string>) {
    forall q :: ConfinedAt(t, t', roots, q)
  }

  lemma ConfinedMore(t: FileTree, t': FileTree, roots: set<string>, more: set<string>)
    requires Confined(t, t', roots) && roots <= more
    ensures Confined(t, t', more)
  {
    forall q ensures ConfinedAt(t, t', more, q) {
      assert ConfinedAt(t, t', roots, q);
    }
  }

  lemma ConfinedTwice(t: FileTree, t': FileTree, t'': FileTree, roots: set<string>)
    requires Confined(t, t', roots) && Confined(t', t'', roots)
    ensures Confined(t, t'', roots)
  {
    hide Covered, Above;
    forall q ensures ConfinedAt(t, t'', roots, q) {
      assert ConfinedAt(t, t', roots, q) && ConfinedAt(t', t'', roots, q);
    }
  }

  lemma NothingConfined(t: FileTree, roots: set<string>)
    ensures Confined(t, t, roots)
  {
  }

  lemma LandsTarget(p: string)
    requires Lands(p)
    ensures IsRel(Target(p)) && Split(Target(p))[0] in {"apps", "user"}
    ensures Normalized("/", p) == Ok("/" + Target(p))
    ensures ActsOn(p) ==> p == "/" + Target(p)
  {
    hide Normalized, Canonical, Components, IsRel, Split;
    RootCanonical();
    NormalizedIsCanonical("/", p);
    RouteByFirstComponent(Normalized("/", p).value);
  }

  lemma LineageConfined(t: FileTree, a: string)
    requires IsRel(a)
    ensures Confined(t, AddLineage(t, a), {a}) && Confined(t, AddLineage(t, Parent(a)), {a})
  {
    hide IsRel, Lineage, Components, Parent;
    forall q ensures ConfinedAt(t, AddLineage(t, a), {a}, q) && ConfinedAt(t, AddLineage(t, Parent(a)), {a}, q) {
      LineageIsAncestry(a, q);
      ParentLineage(a, q);
    }
  }

  lemma PutConfined(t: FileTree, a: string, data: seq<Byte>)
    requires WellFormed(t) && IsRel(a) && Vacant(t, a)
    ensures Confined(t, PutFile(t, a, data), {a})
  {
    hide IsRel, WellFormed, PutFile, Vacant;
    assert a !in t.directories && !Blocked(t, Parent(a)) by {
      VacantMeans(t, a);
    }
    PutFileWellFormed(t, a, data);
    forall q ensures ConfinedAt(t, PutFile(t, a, data), {a}, q) {
    }
  }

  lemma VacantMeans(t: FileTree, a: string)
    requires Vacant(t, a)
    ensures a !in t.directories && !Blocked(t, Parent(a))
  {
  }

  lemma WithoutConfined(t: FileTree, a: string)
    requires Tree.Exists(t, a)
    ensures Confined(t, Without(t, a), {a})
  {
    forall q ensures ConfinedAt(t, Without(t, a), {a}, q) {
    }
  }

  lemma RelocatedConfined(t: FileTree, a: string, b: string)
    requires Movable(t, a, b)
    ensures Confined(t, Relocated(t, a, b), {a, b})
  {
    hide IsRel, WellFormed, Relocated, Rebased, Apart, ClearOf;
    RelocatedExact(t, a, b);
    var t' := Relocated(t, a, b);
    forall q ensures ConfinedAt(t, t', {a, b}, q) {
      if !Covered(q, {a, b}) {
        assert !Inside(q, a) && !Inside(q, b);
        assert Destination(q, a, b) == q && Origin(q, a, b) == q;
      }
    }
  }

  lemma RenameConfined(t: FileTree, a: string, b: string)
    requires IsRel(b) && Movable(AddLineage(t, Parent(b)), a, b)
    ensures Confined(t, RenameTree(t, a, b), {a, b})
  {
    hide IsRel, Movable, Relocated, Confined, AddLineage;
    LineageConfined(t, b);
    ConfinedMore(t, AddLineage(t, Parent(b)), {b}, {a, b});
    RelocatedConfined(AddLineage(t, Parent(b)), a, b);
    ConfinedTwice(t, AddLineage(t, Parent(b)), RenameTree(t, a, b), {a, b});
  }

  /** An effect changes storage only at or under its roots, and above them only by making directories. */
  lemma EffectConfined(app: AppIdentity, e: Effect, t: FileTree, t': FileTree)
    requires WellFormed(t) && Effected(app, e, t, t')
    ensures Confined(t, t', Roots(app, e))
  {
    hide WellFormed, Confined, PutFile, AddLineage, Without, RenameTree, Movable, RenameAllowed, Target, Lands, Vacant,
         Blocked, IsRel, Split, Normalized;
    NothingConfined(t, Roots(app, e));
    if t' != t {
      match e {
        case WriteText(p, data) =>
          LandsTarget(p);
          PutConfined(t, Target(p), data);
        case MakeDirs(p) =>
          LandsTarget(p);
          LineageConfined(t, Target(p));
        case RemovePath(p) =>
          WithoutConfined(t, Target(p));
        case RenamePath(p, q) =>
          LandsTarget(q);
          LineageConfined(t, Target(q));
          ConfinedMore(t, AddLineage(t, Parent(Target(q))), {Target(q)}, Roots(app, e));
          if Succeeded(app, e, t, t') {
            RenameConfined(t, Target(p), Target(q));
          }
        case AppdataWrite(p, data) =>
          DataConfined(app, p, data, t, t');
        case _ =>
      }
    }
  }

  lemma DataConfined(app: AppIdentity, p: string, data: seq<Byte>, t: FileTree, t': FileTree)
    requires WellFormed(t) && Effected(app, AppdataWrite(p, data), t, t') && t' != t
    ensures Confined(t, t', {Target(p), Target(AppData.Root(app.id))})
  {
    hide WellFormed, Confined, PutFile, AddLineage, Target, Lands, Vacant, Blocked, IsRel, Split, Normalized;
    var root := AppData.Root(app.id);
    var made := if HomeMade(app, t, t') then t' else var m :| HomeMade(app, t, m) && Put(m, p, data, t'); m;
    LandsTarget(root);
    AddLineageWellFormed(t, Target(root));
    LineageConfined(t, Target(root));
    ConfinedMore(t, made, {Target(root)}, {Target(p), Target(root)});
    if t' != made {
      LandsTarget(p);
      PutConfined(made, Target(p), data);
      ConfinedMore(made, t', {Target(p)}, {Target(p), Target(root)});
      ConfinedTwice(t, made, t', {Target(p), Target(root)});
    }
  }

  /* ----- Storage stays within its two roots ----- */

  predicate RootedPath(p: string) {
    Split(p)[0] in {"apps", "user"}
  }

  /** Every path of storage begins with `apps` or `user`. */
  ghost predicate Rooted(t: FileTree) {
    forall p | Tree.Exists(t, p) :: RootedPath(p)
  }

  lemma SameFirst(p: string, q: string)
    requires Under(p, q)
    ensures RootedPath(p) <==> RootedPath(q)
  {
    hide Split;
    UnderSplits(p, q);
  }

  lemma ConfinedKeepsRooted(t: FileTree, t': FileTree, roots: set<string>)
    requires Rooted(t) && Confined(t, t', roots) && forall r <- roots :: RootedPath(r)
    ensures Rooted(t')
  {
    hide RootedPath, Under;
    forall q | Tree.Exists(t', q) ensures RootedPath(q) {
      assert ConfinedAt(t, t', roots, q);
      if Covered(q, roots) {
        var r :| r in roots && Inside(q, r);
        if q != r {
          SameFirst(q, r);
        }
      } else if !Tree.Exists(t, q) {
        var r :| r in roots && Under(r, q);
        SameFirst(r, q);
      }
    }
  }

  lemma EffectKeepsRooted(app: AppIdentity, e: Effect, t: FileTree, t': FileTree)
    requires WellFormed(t) && Rooted(t) && Effected(app, e, t, t')
    ensures Rooted(t')
  {
    hide WellFormed, Rooted, Confined, PutFile, AddLineage, Without, RenameTree, Movable, RenameAllowed, Target, Lands,
         Vacant, Blocked, Split, Normalized;
    if t' != t {
      EffectConfined(app, e, t, t');
      RootsLand(app, e, t, t');
      ConfinedKeepsRooted(t, t', Touched(app, e, t, t'));
    }
  }

  /** The roots that the change made use of: all, or only the application's directory or the rename's target. */
  ghost function Touched(app: AppIdentity, e: Effect, t: FileTree, t': FileTree): set<string> {
    if Succeeded(app, e, t, t') then Roots(app, e)
    else if e.RenamePath? then {Target(e.to)}
    else {Target(AppData.Root(app.id))}
  }

  lemma RootsLand(app: AppIdentity, e: Effect, t: FileTree, t': FileTree)
    requires WellFormed(t) && Effected(app, e, t, t') && t' != t
    ensures Confined(t, t', Touched(app, e, t, t'))
    ensures forall r <- Touched(app, e, t, t') :: RootedPath(r)
  {
    hide WellFormed, Confined, PutFile, AddLineage, Without, RenameTree, Movable, RenameAllowed, Target, Lands, Vacant,
         Blocked, IsRel, Split, Normalized;
    EffectConfined(app, e, t, t');
    match e {
      case WriteText(p, _) => LandsTarget(p);
      case MakeDirs(p) => LandsTarget(p);
      case RemovePath(p) => LandsTarget(p);
      case RenamePath(p, q) =>
        LandsTarget(q);
        LineageConfined(t, Target(q));
        if Succeeded(app, e, t, t') {
          LandsTarget(p);
        }
      case AppdataWrite(p, _) =>
        LandsTarget(AppData.Root(app.id));
        LineageConfined(t, Target(AppData.Root(app.id)));
        if Succeeded(app, e, t, t') {
          LandsTarget(p);
        }
      case _ =>
    }
  }
}
