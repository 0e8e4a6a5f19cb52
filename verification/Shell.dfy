/** The command loop: the current directory, command lookup and the decision to trust an application. */
module Shell {
  import opened Wrappers
  import opened Words
  import opened Codec
  import opened Api
  import opened Paths
  import opened Normalize
  import opened Tree
  import opened Listing
  import opened SystemTable
  import opened Vfs
  import opened Security
  import opened Session
  import opened Conduct
  import opened Tokenizer
  import Effects
  import L = Limiter
  import AppData
  import Utf8

  const APPS_PREFIX := "/sys/apps/"
  const MAX_SOURCE: nat := 1024 * 1024

  /** The path has the form of a bundled application. */
  predicate LooksBundled(path: string) {
    APPS_PREFIX <= path && NoSlash(path[|APPS_PREFIX|..])
  }

  /** Where a path of that form leads once it is normalised. */
  function BundledTarget(path: string): string
    requires LooksBundled(path)
  {
    var name := path[|APPS_PREFIX|..];
    if IsSkipped(name) then "/sys/apps" else if name == ".." then "/sys" else path
  }

  const BUNDLE_PARTS := ["sys", "apps"]

  lemma BundleNames()
    ensures AllProper(BUNDLE_PARTS)
    ensures Absolute(BUNDLE_PARTS) == "/sys/apps" && Absolute(BUNDLE_PARTS[..1]) == "/sys"
    ensures "/sys/apps" + "/" == APPS_PREFIX
  {
    JoinConcat(["sys"], ["apps"]);
    assert ["sys"] + ["apps"] == BUNDLE_PARTS && BUNDLE_PARTS[..1] == ["sys"];
  }

  lemma BundledSplits(path: string)
    requires LooksBundled(path)
    ensures Split(path) == [""] + BUNDLE_PARTS + [path[|APPS_PREFIX|..]]
  {
    hide APPS_PREFIX;
    var name := path[|APPS_PREFIX|..];
    BundleNames();
    var base := Absolute(BUNDLE_PARTS);
    assert path == base + "/" + name;
    SplitConcat(base, name);
    SplitNoSlash(name);
    AbsoluteComponents(BUNDLE_PARTS);
    CanonicalSplits(base);
  }

  /** A path of a bundled application's form always leads into the boot table, unless it cannot be a path at all. */
  lemma BundledLeadsToTable(path: string)
    requires LooksBundled(path)
    ensures Normalized("/", path) == if HasForbidden(path) then Err(InvalidPath) else Ok(BundledTarget(path))
    ensures !HasForbidden(path) ==> RouteOf(BundledTarget(path)) == Route.System(BundledTarget(path))
  {
    hide APPS_PREFIX, Split, Walk, Canonical, Components, RouteOf;
    var name := path[|APPS_PREFIX|..];
    BundledSplits(path);
    BundledIsAbsolute(path);
    BundleNames();
    WalkConcat([], [""] + BUNDLE_PARTS, [name]);
    WalkConcat([], [""], BUNDLE_PARTS);
    WalkSkips([]);
    WalkOfProper([], BUNDLE_PARTS);
    assert [] + BUNDLE_PARTS == BUNDLE_PARTS;
    WalkOne(BUNDLE_PARTS, name);
    BundledAbsolute(path, name);
    if !HasForbidden(path) {
      RootCanonical();
      NormalizedIsCanonical("/", path);
      RouteByFirstComponent(BundledTarget(path));
      BundledFirst(path, name);
    }
  }

  lemma BundledIsAbsolute(path: string)
    requires LooksBundled(path)
    ensures IsAbsolute(path)
  {
  }

  lemma BundledAbsolute(path: string, name: string)
    requires LooksBundled(path) && name == path[|APPS_PREFIX|..]
    ensures !IsSkipped(name) && name != ".." ==> Absolute(BUNDLE_PARTS + [name]) == path
  {
    hide APPS_PREFIX;
    BundleNames();
    JoinConcat(BUNDLE_PARTS, [name]);
    assert path == Absolute(BUNDLE_PARTS) + "/" + name;
    assert Absolute(BUNDLE_PARTS + [name]) == "/" + (Join(BUNDLE_PARTS) + "/" + name);
  }

  lemma BundledFirst(path: string, name: string)
    requires LooksBundled(path) && name == path[|APPS_PREFIX|..] && Canonical(BundledTarget(path))
    ensures Components(BundledTarget(path)) != [] && Components(BundledTarget(path))[0] == "sys"
  {
    hide APPS_PREFIX, Components, Canonical, Split;
    BundleNames();
    AbsoluteComponents(BUNDLE_PARTS);
    AbsoluteComponents(BUNDLE_PARTS[..1]);
    if !IsSkipped(name) && name != ".." {
      BundledAbsolute(path, name);
      BundledSplits(path);
      CanonicalSplits(path);
      assert Split(path)[1] == "sys" && |Split(path)| == 4;
    }
  }

  /* ----- Looking up commands ----- */

  datatype Header = Header(id: string, capabilities: seq<Capability>)

  /** What surrounds the shell: the table, which paths a runtime claims, and how a source's directives read. */
  datatype Setting = Setting(
    files: seq<EmbeddedFile>,
    supports: string -> bool,
    parse: (string, string) -> Result<Header, Error>)

  predicate Usable(s: Setting, t: FileTree, path: string) {
    Present(s.files, t, path) == Ok(true) && s.supports(path)
  }

  /** Where a bare command is looked for under a root. */
  function Candidate(root: string, command: string): string {
    if '.' in command then root + "/" + command else root + "/" + command + ".rhai"
  }

  /** The first usable path, in order; a lookup that fails ends the search. */
  function FirstUsable(s: Setting, t: FileTree, paths: seq<string>, otherwise: Error): Result<string, Error> {
    if paths == [] then Err(otherwise)
    else
      var _ :- Present(s.files, t, paths[0]);
      if Usable(s, t, paths[0]) then Ok(paths[0]) else FirstUsable(s, t, paths[1..], otherwise)
  }

  const APP_ROOTS := ["/sys/apps", "/apps"]

  /** A bare command can only start a candidate of one of the two roots. */
  function BareTarget(s: Setting, t: FileTree, command: string): Result<string, Error> {
    FirstUsable(s, t, [Candidate(APP_ROOTS[0], command), Candidate(APP_ROOTS[1], command)], NotFound(command))
  }

  /** What a command with a slash leads to: its own path, or that path with the missing extension. */
  function PathTarget(s: Setting, t: FileTree, cwd: string, command: string): Result<string, Error> {
    var path :- Normalized(cwd, command);
    var _ :- Present(s.files, t, path);
    if Usable(s, t, path) then Ok(path)
    else if '.' in LastPart(path) then Err(NotFound(path))
    else
      var found :- Present(s.files, t, path + ".rhai");
      if found then Ok(path + ".rhai") else Err(NotFound(path))
  }

  function TargetOf(s: Setting, t: FileTree, cwd: string, command: string): Result<string, Error> {
    if '/' in command then PathTarget(s, t, cwd, command) else BareTarget(s, t, command)
  }

  /** The command leads to the source of an application that a runtime claims. */
  ghost predicate Startable(s: Setting, t: FileTree, cwd: string, command: string) {
    var found := TargetOf(s, t, cwd, command);
    found.Ok? && s.supports(found.value) && Runnable(s, t, found.value)
  }

  /** The path holds the source of an application. */
  ghost predicate Runnable(s: Setting, t: FileTree, path: string) {
    match Content(s.files, t, path)
    case Err(_) => false
    case Ok(bytes) =>
      match Utf8.Decode(bytes)
      case None => false
      case Some(text) => |bytes| <= MAX_SOURCE && s.parse(path, text).Ok?
  }

  function LastPart(path: string): string {
    var parts := Split(path);
    parts[|parts| - 1]
  }

  /**
   * What a bare command runs cannot be changed by anything in writable storage, once the boot table holds a supported
   * application under that name: neither which path it finds nor the bytes at that path.
   */
  lemma BundledIsFixed(s: Setting, t: FileTree, command: string)
    requires NoSlash(command) && !HasForbidden(command)
    requires s.supports(Candidate("/sys/apps", command))
    requires LooksBundled(Candidate("/sys/apps", command)) ==>
               SystemFile(s.files, BundledTarget(Candidate("/sys/apps", command))).Some?
    ensures var path := Candidate("/sys/apps", command);
            && LooksBundled(path) && BareTarget(s, t, command) == Ok(path)
            && Content(s.files, t, path) == Ok(SystemFile(s.files, BundledTarget(path)).value.data)
  {
    hide APPS_PREFIX, BundledTarget, RouteOf, Normalized, SystemFile, SystemDirExists, LooksBundled;
    CandidateLooksBundled(command);
    BundledLeadsToTable(Candidate("/sys/apps", command));
  }

  lemma CandidateLooksBundled(command: string)
    requires NoSlash(command) && !HasForbidden(command)
    ensures LooksBundled(Candidate("/sys/apps", command)) && !HasForbidden(Candidate("/sys/apps", command))
  {
    hide APPS_PREFIX, NoSlash, HasForbidden;
    var path, root := Candidate("/sys/apps", command), "/sys/apps";
    var name := if '.' in command then command else command + ".rhai";
    BundleNames();
    PlainParts(command);
    assert path == root + "/" + name == APPS_PREFIX + name;
    assert path[|APPS_PREFIX|..] == name && path[..|APPS_PREFIX|] == APPS_PREFIX;
    Joined(APPS_PREFIX, name);
  }

  lemma PlainParts(command: string)
    requires NoSlash(command) && !HasForbidden(command)
    ensures !HasForbidden(APPS_PREFIX) && NoSlash(command + ".rhai") && !HasForbidden(command + ".rhai")
  {
    assert NoSlash(".rhai") && !HasForbidden(".rhai");
  }

  lemma Joined(a: string, b: string)
    ensures HasForbidden(a + b) <==> HasForbidden(a) || HasForbidden(b)
  {
  }

  /** Where a bare command is found: the bundled application first, then the installed one. */
  lemma BareFinds(s: Setting, t: FileTree, command: string)
    ensures var name := if '.' in command then command else command + ".rhai";
            var bundled, installed := "/sys/apps/" + name, "/apps/" + name;
            BareTarget(s, t, command) ==
            match Present(s.files, t, bundled)
            case Err(e) => Err(e)
            case Ok(found) =>
              if found && s.supports(bundled) then Ok(bundled)
              else
                match Present(s.files, t, installed)
                case Err(e) => Err(e)
                case Ok(found) =>
                  if found && s.supports(installed) then Ok(installed) else Err(NotFound(command))
  {
    hide Present, Candidate, FirstUsable, APP_ROOTS;
    AppRoots();
    CandidateSpells(command);
    FirstOfTwo(s, t, Candidate("/sys/apps", command), Candidate("/apps", command), NotFound(command));
  }

  lemma CandidateSpells(command: string)
    ensures var name := if '.' in command then command else command + ".rhai";
            Candidate("/sys/apps", command) == "/sys/apps/" + name && Candidate("/apps", command) == "/apps/" + name
  {
    assert "/sys/apps" + "/" == "/sys/apps/" && "/apps" + "/" == "/apps/";
  }

  lemma FirstOfTwo(s: Setting, t: FileTree, a: string, b: string, e: Error)
    ensures FirstUsable(s, t, [a, b], e) ==
            match Present(s.files, t, a)
            case Err(e) => Err(e)
            case Ok(found) =>
              if found && s.supports(a) then Ok(a)
              else
                match Present(s.files, t, b)
                case Err(e) => Err(e)
                case Ok(found) => if found && s.supports(b) then Ok(b) else Err(e)
  {
    hide Present;
    assert [a, b][1..] == [b] && [b][1..] == [];
    assert FirstUsable(s, t, [], e) == Err(e);
  }

  /** A command with a slash finds its own path, or a path without extension that one is added to, if it exists. */
  lemma PathFindsIff(s: Setting, t: FileTree, cwd: string, command: string, found: string)
    ensures PathTarget(s, t, cwd, command) == Ok(found) <==>
            && Normalized(cwd, command).Ok?
            && var path := Normalized(cwd, command).value;
            && Present(s.files, t, path).Ok?
            && Present(s.files, t, found) == Ok(true)
            && ((found == path && s.supports(path))
                || (found == path + ".rhai" && '.' !in LastPart(path)
                    && !(Present(s.files, t, path) == Ok(true) && s.supports(path))))
    ensures Normalized(cwd, command).Ok? && Present(s.files, t, Normalized(cwd, command).value) == Ok(false)
            && Present(s.files, t, Normalized(cwd, command).value + ".rhai") == Ok(false) ==>
              PathTarget(s, t, cwd, command) == Err(NotFound(Normalized(cwd, command).value))
  {
    hide Normalized, Present, LastPart;
    if Normalized(cwd, command).Ok? {
      var path := Normalized(cwd, command).value;
      assert |path + ".rhai"| != |path|;
    }
  }

  /** The source of an application is a text of at most one mebibyte whose directives can be read. */
  lemma RunnableIff(s: Setting, t: FileTree, path: string)
    ensures Runnable(s, t, path) <==>
            exists text ::
              && Content(s.files, t, path) == Ok(Utf8.Encode(text))
              && |Utf8.Encode(text)| <= 1_048_576 && s.parse(path, text).Ok?
  {
    hide Content, Utf8.Encode, Utf8.Decode;
    match Content(s.files, t, path) {
      case Err(_) =>
      case Ok(bytes) =>
        if Utf8.Decode(bytes).Some? {
          Utf8.EncodeDecode(bytes);
        }
        forall text | bytes == Utf8.Encode(text) ensures Utf8.Decode(bytes) == Some(text) {
          Utf8.DecodeEncode(text);
        }
    }
  }

  /** Only the entries of "/sys/apps" itself look like bundled applications. */
  lemma BundledIff(path: string)
    ensures LooksBundled(path) <==> exists name :: NoSlash(name) && path == "/sys/apps/" + name
  {
    if LooksBundled(path) {
      assert path == "/sys/apps/" + path[|APPS_PREFIX|..];
    }
    forall name | NoSlash(name) && path == "/sys/apps/" + name ensures LooksBundled(path) {
      assert path[|APPS_PREFIX|..] == name;
    }
  }

  /* ----- The shell ----- */

  /** An application that was started: its source, its identity, what each of its calls did, and storage around it. */
  datatype Execution = Execution(
    path: string, source: seq<Byte>, app: AppIdentity, pieces: seq<Piece>, before: FileTree, after: FileTree)

  /** The source is an entry of the table at the path that the bundled path leads to. */
  ghost predicate FromTable(files: seq<EmbeddedFile>, e: Execution) {
    && LooksBundled(e.path)
    && SystemFile(files, BundledTarget(e.path)).Some?
    && SystemFile(files, BundledTarget(e.path)).value.data == e.source
  }

  /** The identity is what the source declares, and only a bundled path makes it trusted. */
  ghost predicate Identified(s: Setting, e: Execution) {
    match Utf8.Decode(e.source)
    case None => false
    case Some(text) =>
      && s.parse(e.path, text).Ok?
      && var header := s.parse(e.path, text).value;
      && e.app == AppIdentity(header.id, LooksBundled(e.path), header.capabilities)
      && |e.source| <= MAX_SOURCE && AppData.IsId(e.app.id) && s.supports(e.path)
  }

  /** An application that may have run: known by its source, trusted only from the table, authorised in every call. */
  ghost predicate Trustworthy(s: Setting, derive: Derive, e: Execution) {
    && Identified(s, e)
    && (e.app.trusted ==> FromTable(s.files, e))
    && AllSound(e.app, derive, e.pieces) && Chained(e.pieces, e.before, e.after)
  }

  /**
   * What a command did: it ran an application, or the user who typed the lines changed the password, or tried to.
   * `attempt` is the old password as it was typed, if there was one to type.
   */
  datatype Entry =
    | Ran(execution: Execution)
    | PasswordSet(typed: seq<string>, attempt: seq<Event>, was: FileTree, now: FileTree)
    | PasswordTried(attempt: seq<Event>, tree: FileTree)
  {
    function Before(): FileTree {
      match this case Ran(e) => e.before case PasswordSet(_, _, t, _) => t case PasswordTried(_, t) => t
    }

    function After(): FileTree {
      match this case Ran(e) => e.after case PasswordSet(_, _, _, t) => t case PasswordTried(_, t) => t
    }
  }

  /** A password is changed only by who typed the old one, and nothing but its file changes. */
  ghost predicate RightfullySet(derive: Derive, typed: seq<string>, t: FileTree, t': FileTree) {
    && WellFormed(t) && WellFormed(t')
    && (Tree.Exists(t, STORED_PATH) ==> typed != [] && Judge(t, typed[0], derive) == Ok(true))
    && (t' == WithoutVerifier(t) || exists v :: Vacant(t, STORED_PATH) && t' == WithVerifier(t, v))
  }

  ghost predicate EntrySound(s: Setting, derive: Derive, entry: Entry) {
    match entry
    case Ran(e) => Trustworthy(s, derive, e)
    case PasswordSet(typed, _, t, t') => RightfullySet(derive, typed, t, t')
    case PasswordTried(_, t) => WellFormed(t)
  }

  /** The commands follow one another from one storage to another. */
  ghost predicate Linked(log: seq<Entry>, first: FileTree, last: FileTree) {
    if log == [] then first == last
    else log[|log| - 1].After() == last && Linked(log[..|log| - 1], first, log[|log| - 1].Before())
  }

  /** The log accounts for all that happened to storage, and all of it was rightful. */
  ghost predicate Accountable(s: Setting, derive: Derive, log: seq<Entry>, first: FileTree, last: FileTree) {
    Linked(log, first, last) && forall entry <- log :: EntrySound(s, derive, entry)
  }

  /** All events of all executions. */
  function History(log: seq<Entry>): seq<Event> {
    if log == [] then []
    else
      var last := log[|log| - 1];
      History(log[..|log| - 1]) + if last.Ran? then EventsOf(last.execution.pieces) else []
  }

  lemma LogSnoc(s: Setting, derive: Derive, log: seq<Entry>, first: FileTree, entry: Entry)
    requires Accountable(s, derive, log, first, entry.Before()) && EntrySound(s, derive, entry)
    ensures Accountable(s, derive, log + [entry], first, entry.After())
    ensures History(log + [entry]) == History(log) + if entry.Ran? then EventsOf(entry.execution.pieces) else []
  {
    hide EntrySound;
    assert (log + [entry])[..|log|] == log;
  }

  /** The password attempts on record after a command: setting a password clears them. */
  function TriesAfter(tries: seq<L.Try>, derive: Derive, entry: Entry): seq<L.Try> {
    match entry
    case Ran(e) => TallyPieces(tries, derive, e.pieces)
    case PasswordSet(_, _, _, _) => []
    case PasswordTried(attempt, t) => Tally(tries, Gate(t, derive), attempt)
  }

  /** The command did nothing on a password that the limiter refused. */
  ghost predicate EntryHeeded(tries: seq<L.Try>, derive: Derive, entry: Entry) {
    match entry
    case Ran(e) => HeededPieces(tries, derive, e.pieces)
    case PasswordSet(typed, attempt, t, _) =>
      && AllAccepted(tries, Gate(t, derive), attempt)
      && (Tree.Exists(t, STORED_PATH) ==>
            |attempt| == 1 && attempt[0].Password? && typed != [] && attempt[0].line == typed[0])
    case PasswordTried(_, _) => true
  }

  /** The attempts on record after the log, from none. */
  function TriesOf(derive: Derive, log: seq<Entry>): seq<L.Try> {
    if log == [] then [] else TriesAfter(TriesOf(derive, log[..|log| - 1]), derive, log[|log| - 1])
  }

  /** Over the whole log, nothing was done on a password that the limiter refused. */
  ghost predicate LogHeeded(derive: Derive, log: seq<Entry>) {
    forall k | 0 <= k < |log| :: EntryHeeded(TriesOf(derive, log[..k]), derive, log[k])
  }

  lemma TriesSnoc(derive: Derive, log: seq<Entry>, entry: Entry)
    requires LogHeeded(derive, log) && EntryHeeded(TriesOf(derive, log), derive, entry)
    ensures TriesOf(derive, log + [entry]) == TriesAfter(TriesOf(derive, log), derive, entry)
    ensures LogHeeded(derive, log + [entry])
  {
    hide TriesAfter, EntryHeeded;
    var longer := log + [entry];
    assert longer[..|log|] == log;
    forall k | 0 <= k < |longer| ensures EntryHeeded(TriesOf(derive, longer[..k]), derive, longer[k]) {
      if k < |log| {
        assert longer[..k] == log[..k] && longer[k] == log[k];
      }
    }
  }

  /** Where `cd` may go. */
  predicate Listable(files: seq<EmbeddedFile>, t: FileTree, path: string) {
    match RouteOf(path)
    case Root => true
    case System(p) => p == "/sys" || SystemDirExists(files, p)
    case Persistent(p) => p in t.directories
    case Outside => false
  }

  /** Sources at admissible paths declare, or get from their file's name, one path component as identifier. */
  ghost predicate ParsesIds(parse: (string, string) -> Result<Header, Error>) {
    forall path, text | !HasForbidden(path) && parse(path, text).Ok? :: AppData.IsId(parse(path, text).value.id)
  }

  class Afos {
    const system: System
    const supports: string -> bool // whether a runtime claims the path's extension
    const parse: (string, string) -> Result<Header, Error> // the header directives of a source
    var cwd: string
    ghost const start: FileTree
    ghost var log: seq<Entry>

    constructor (system: System, supports: string -> bool, parse: (string, string) -> Result<Header, Error>)
      requires system.Valid() && system.Paced() && system.security.tries == [] && system.trace == []
      requires ParsesIds(parse)
      ensures Valid() && this.system == system && log == [] && cwd == "/user" && start == system.vfs.platform.tree
    {
      this.system := system;
      this.supports := supports;
      this.parse := parse;
      this.cwd := "/user";
      this.start := system.vfs.platform.tree;
      this.log := [];
      UserCanonical();
    }

    ghost function Around(): Setting {
      Setting(system.vfs.systemFiles, supports, parse)
    }

    /** Everything that the system did, it did for an execution or a password change that was entitled to it. */
    ghost predicate Valid()
      reads this, system, system.security, system.vfs.platform, system.vfs.platform.persistence
    {
      && system.Valid() && system.Paced() && ParsesIds(parse)
      && Canonical(cwd)
      && system.trace == History(log)
      && system.security.tries == TriesOf(system.derive, log) && LogHeeded(system.derive, log)
      && Accountable(Around(), system.derive, log, start, system.vfs.platform.tree)
    }

    /** Finds the application that a command names. */
    method ResolveCommand(command: string) returns (r: Result<string, Error>)
      requires Valid()
      ensures r == TargetOf(Around(), system.vfs.platform.tree, cwd, command)
    {
      hide L.Paced, Canonical, Normalized, Present, Accountable, ParsesIds, History, TriesOf, LogHeeded, WellFormed,
           Split, APP_ROOTS;
      if '/' in command {
        r := ResolvePath(command);
        return;
      }
      var roots := ["/sys/apps", "/apps"];
      ghost var candidates := [Candidate(roots[0], command), Candidate(roots[1], command)];
      assert BareTarget(Around(), system.vfs.platform.tree, command)
          == FirstUsable(Around(), system.vfs.platform.tree, candidates, NotFound(command)) by {
        AppRoots();
      }
      for i := 0 to |roots|
        invariant BareTarget(Around(), system.vfs.platform.tree, command)
               == FirstUsable(Around(), system.vfs.platform.tree, candidates[i..], NotFound(command))
      {
        assert candidates[i..][1..] == candidates[i + 1..] && candidates[i..][0] == candidates[i];
        var path := if '.' in command then roots[i] + "/" + command else roots[i] + "/" + command + ".rhai";
        var found :- system.vfs.Exists(path);
        if found && supports(path) {
          return Ok(path);
        }
      }
      return Err(NotFound(command));
    }

    method ResolvePath(command: string) returns (r: Result<string, Error>)
      requires Valid()
      ensures r == PathTarget(Around(), system.vfs.platform.tree, cwd, command)
    {
      hide L.Paced, Canonical, Normalized, Present, Accountable, ParsesIds, History, TriesOf, LogHeeded, WellFormed,
           Split;
      var path :- NormalizePath(cwd, command);
      var present :- system.vfs.Exists(path);
      if present && supports(path) {
        return Ok(path);
      }
      var parts := Split(path);
      if '.' !in parts[|parts| - 1] {
        var found :- system.vfs.Exists(path + ".rhai");
        if found {
          return Ok(path + ".rhai");
        }
      }
      return Err(NotFound(path));
    }

    /**
     * Starts an application; it runs as trusted only on the strength of its path. `calls` and `ending` are what the
     * runtime makes of its source: the calls it makes, and how it ends.
     */
    method ExecuteApp(command: string, calls: seq<Call>, ending: Result<int, Error>) returns (r: Result<int, Error>)
      requires Valid()
      modifies this`log, system`input, system`clock, system`trace, system.security, system.vfs.platform,
               system.vfs.platform.persistence
      ensures Valid()
      ensures log == old(log) ==>
                && r.Err? && system.vfs.platform.tree == old(system.vfs.platform.tree)
                && !Startable(Around(), old(system.vfs.platform.tree), cwd, command)
      ensures log != old(log) ==>
                && r == ending
                && |log| == |old(log)| + 1 && log[..|old(log)|] == old(log) && log[|old(log)|].Ran?
                && var e := log[|old(log)|].execution;
                && TargetOf(Around(), old(system.vfs.platform.tree), cwd, command) == Ok(e.path)
                && Content(system.vfs.systemFiles, old(system.vfs.platform.tree), e.path) == Ok(e.source)
                && |e.pieces| == |calls|
                && (forall i | 0 <= i < |calls| :: Answers(cwd, e.app, calls[i], e.pieces[i].events))
                && e.before == old(system.vfs.platform.tree) && e.after == system.vfs.platform.tree
    {
      hide L.Paced, Canonical, Normalized, APPS_PREFIX, BundledTarget, LooksBundled, WellFormed, TargetOf, Content,
           History, Sound, Answers, Chained, EventsOf, Typed, FromTable, Utf8.Decode, ParsesIds, AppData.IsId,
           Accountable, TriesOf, LogHeeded, TallyPieces, HeededPieces, Tree.Exists, STORED_PATH, HasForbidden, NoSlash;
      var path :- ResolveCommand(command);
      var bytes :- system.vfs.Read(path);
      var text := Utf8.Decode(bytes);
      if text.None? {
        return Err(InvalidInput);
      }
      if |bytes| > MAX_SOURCE {
        return Err(ResourceLimit);
      }
      var trusted := APPS_PREFIX <= path && NoSlash(path[|APPS_PREFIX|..]);
      var header :- parse(path, text.value);
      var app := AppIdentity(header.id, trusted, header.capabilities);
      var session := new AppSession(system, app, cwd);
      if !supports(path) {
        return Err(Unsupported);
      }
      ghost var was := system.vfs.platform.tree;
      ghost var pieces := PerformAll(session, calls);
      ghost var e := Execution(path, bytes, app, pieces, was, system.vfs.platform.tree);
      BundledForm(path);
      IdOf(parse, system.vfs.systemFiles, was, e, text.value);
      if trusted {
        BundledComesFromTable(system.vfs.systemFiles, was, e);
      }
      LogSnoc(Around(), system.derive, log, start, Ran(e));
      TriesSnoc(system.derive, log, Ran(e));
      log := log + [Ran(e)];
      return ending;
    }

    method ChangeDirectory(target: string) returns (r: Result<(), Error>)
      requires Valid()
      modifies this`cwd
      ensures Valid()
      ensures r.Ok? <==> && Normalized(old(cwd), target).Ok?
                         && Listable(system.vfs.systemFiles, system.vfs.platform.tree,
                                     Normalized(old(cwd), target).value)
      ensures r.Ok? ==> Normalized(old(cwd), target) == Ok(cwd)
      ensures r.Err? ==> cwd == old(cwd)
    {
      hide L.Paced, Canonical, Normalized, Accountable, ParsesIds, History, WellFormed, RouteOf, SystemDirExists,
           ListsTree, ListsSystem, TriesOf, LogHeeded;
      var path :- NormalizePath(cwd, target);
      NormalizedIsCanonical(cwd, target);
      CanonicalIsFixed("/", path);
      var _ :- system.vfs.List(path);
      cwd := path;
      return Ok(());
    }

    /** Changes the password; whoever succeeds or tries is on the record with what they typed. */
    method ChangePassword(random: Result<seq<Byte>, Error>) returns (r: Result<(), Error>)
      requires Valid() && (random.Ok? ==> |random.value| == SALT_LEN)
      modifies this`log, system`input, system`clock, system.security, system.vfs.platform,
               system.vfs.platform.persistence
      ensures Valid() && old(log) <= log && |log| <= |old(log)| + 1
      ensures r.Err? ==> system.vfs.platform.tree == old(system.vfs.platform.tree)
      ensures var had := old(Tree.Exists(system.vfs.platform.tree, STORED_PATH));
              && (log == old(log) <==> r.Err? && !(had && old(system.input) != []))
              && (log != old(log) ==>
                    && var entry := log[|old(log)|];
                    && (r.Ok? <==> entry.PasswordSet?) && (r.Err? <==> entry.PasswordTried?)
                    && (r.Ok? ==> entry.typed == old(system.input))
                    && (r.Err? ==> |entry.attempt| == 1 && entry.attempt[0].Password?
                                   && entry.attempt[0].line == old(system.input)[0]))
    {
      hide L.Paced, Canonical, WellFormed, History, Accountable, ParsesIds, STORED_PATH, WithVerifier,
           WithoutVerifier, Vacant, Judge, StoredVerifier, TriesOf, LogHeeded, Tally, AllAccepted;
      ghost var typed, before := system.input, system.vfs.platform.tree;
      ghost var attempt;
      r, attempt := system.ChangePassword(random);
      if r.Ok? || attempt != [] {
        ghost var entry := if r.Ok? then PasswordSet(typed, attempt, before, system.vfs.platform.tree)
                           else PasswordTried(attempt, before);
        LogSnoc(Around(), system.derive, log, start, entry);
        TriesSnoc(system.derive, log, entry);
        log := log + [entry];
      } else {
        NoAttempt(TriesOf(system.derive, log), Gate(before, system.derive), []);
      }
    }

    /**
     * One line of input. `calls` and `ending` are what the application that it may start does; `random` seeds a new
     * password.
     */
    method RunCommand(
      line: string, calls: seq<Call>, ending: Result<int, Error>, random: Result<seq<Byte>, Error>)
      returns (r: Result<CommandOutcome, Error>)
      requires Valid() && (random.Ok? ==> |random.value| == SALT_LEN)
      modifies this`cwd, this`log, system`input, system`clock, system`trace, system.security,
               system.vfs.platform, system.vfs.platform.persistence
      ensures Valid() && old(log) <= log && |log| <= |old(log)| + 1
      ensures log == old(log) ==> system.vfs.platform.tree == old(system.vfs.platform.tree)
      ensures log == old(log) ==> system.security.tries == old(system.security.tries)
      ensures |log| > |old(log)| ==>
                var entry := log[|old(log)|];
                if entry.Ran?
                then Named(line).Some? && TargetOf(Around(), old(system.vfs.platform.tree), cwd, Named(line).value)
                                          == Ok(entry.execution.path)
                     && r == Continues(ending)
                else SetsPassword(line) && (r.Ok? <==> entry.PasswordSet?)
      ensures Leaves(line).Some? ==>
                && log == old(log)
                && r == match Leaves(line).value case Err(e) => Err(e) case Ok(code) => Ok(Exit(code))
      ensures Leaves(line).None? && r.Ok? ==> r.value.Continue?
      ensures Named(line).Some? && log == old(log) ==>
                !Startable(Around(), old(system.vfs.platform.tree), cwd, Named(line).value)
      ensures Goes(line).None? ==> cwd == old(cwd)
      ensures Goes(line).Some? ==>
                && log == old(log)
                && cwd == match Normalized(old(cwd), Goes(line).value)
                          case Err(_) => old(cwd)
                          case Ok(path) =>
                            if Listable(system.vfs.systemFiles, system.vfs.platform.tree, path) then path else old(cwd)
    {
      hide L.Paced, Canonical, Normalized, Trustworthy, WellFormed, History, Listable, Tokens, TargetOf, Content,
           Startable, Accountable, ParsesIds, TriesOf, LogHeeded, Answers, ParseI32, Tree.Exists, STORED_PATH;
      var words :- SplitCommandLine(line);
      if words == [] {
        return Ok(Continue(0));
      }
      var command, args := words[0], words[1..];
      if command == "cd" {
        var moved := ChangeDirectory(if args == [] then "/user" else args[0]);
        r := if moved.Ok? then Ok(Continue(0)) else Err(moved.error);
      } else if command == "passwd" || command == "setup" {
        var changed := ChangePassword(random);
        r := if changed.Ok? then Ok(Continue(0)) else Err(changed.error);
      } else if command == "run" {
        if args == [] {
          return Err(InvalidInput);
        }
        var status := ExecuteApp(args[0], calls, ending);
        r := if status.Ok? then Ok(Continue(status.value)) else Err(status.error);
      } else if command == "exit" {
        var code := if args == [] then Some(0) else ParseI32(args[0]);
        r := if code.Some? then Ok(Exit(code.value)) else Err(InvalidInput);
      } else if command == "clear" {
        r := Ok(Continue(0));
      } else {
        var status := ExecuteApp(command, calls, ending);
        r := if status.Ok? then Ok(Continue(status.value)) else Err(status.error);
      }
    }
  }

  datatype CommandOutcome = Continue(code: int) | Exit(code: int)

  /** A 32-bit number, as `str::parse` reads it: digits, perhaps behind a sign. */
  function ParseI32(s: string): Option<int> {
    var digits := if s != "" && (s[0] == '+' || s[0] == '-') then s[1..] else s;
    if digits == "" || exists c <- digits :: !('0' <= c <= '9') then None
    else
      var value := if s[0] == '-' then -Effects.DecimalValue(digits) else Effects.DecimalValue(digits);
      if -0x8000_0000 <= value <= 0x7fff_ffff then Some(value) else None
  }

  /** The status that the line asks to leave with, if it does. */
  function Leaves(line: string): Option<Result<int, Error>> {
    match Tokens(line)
    case Err(_) => None
    case Ok(words) =>
      if words == [] || words[0] != "exit" then None
      else if |words| == 1 then Some(Ok(0))
      else Some(match ParseI32(words[1]) case None => Err(InvalidInput) case Some(code) => Ok(code))
  }

  /** What a command reports when what it started ended so. */
  function Continues(status: Result<int, Error>): Result<CommandOutcome, Error> {
    match status case Err(e) => Err(e) case Ok(code) => Ok(Continue(code))
  }

  const BUILTINS := ["cd", "exit", "clear", "passwd", "setup"]

  predicate SetsPassword(line: string) {
    && Tokens(line).Ok? && Tokens(line).value != []
    && (Tokens(line).value[0] == "passwd" || Tokens(line).value[0] == "setup")
  }

  /** The application that the line asks to start, if it does. */
  function Named(line: string): Option<string> {
    match Tokens(line)
    case Err(_) => None
    case Ok(words) =>
      if words == [] || words[0] in BUILTINS then None
      else if words[0] != "run" then Some(words[0])
      else if |words| == 1 then None else Some(words[1])
  }

  /** The directory that the line asks to change to, if it does. */
  function Goes(line: string): Option<string> {
    match Tokens(line)
    case Err(_) => None
    case Ok(words) =>
      if words == [] || words[0] != "cd" then None else Some(if |words| == 1 then "/user" else words[1])
  }

  lemma AppRoots()
    ensures APP_ROOTS == ["/sys/apps", "/apps"]
  {
  }

  lemma BundledForm(path: string)
    ensures LooksBundled(path) <==> APPS_PREFIX <= path && NoSlash(path[|APPS_PREFIX|..])
  {
  }

  lemma BundledComesFromTable(files: seq<EmbeddedFile>, t: FileTree, e: Execution)
    requires LooksBundled(e.path) && Content(files, t, e.path) == Ok(e.source)
    ensures FromTable(files, e)
  {
    hide APPS_PREFIX, BundledTarget, RouteOf, Normalized;
    BundledLeadsToTable(e.path);
  }

  lemma UserCanonical()
    ensures Canonical("/user")
  {
    assert AllProper(["user"]);
    AbsoluteComponents(["user"]);
    assert Absolute(["user"]) == "/user";
  }

  lemma IdOf(
    parse: (string, string) -> Result<Header, Error>, files: seq<EmbeddedFile>, t: FileTree, e: Execution, text: string)
    requires ParsesIds(parse) && Content(files, t, e.path).Ok?
    requires parse(e.path, text).Ok? && e.app.id == parse(e.path, text).value.id
    ensures AppData.IsId(e.app.id)
  {
    hide AppData.IsId, SystemFile, StoredBytes;
  }

  datatype Input = Input(line: string, calls: seq<Call>, ending: Result<int, Error>, random: Result<seq<Byte>, Error>)

  /**
   * Over any sequence of commands the current directory stays canonical, every application that ran as trusted had
   * the bytes of a boot-table entry for its source, the whole trace of the system consists of the authorised pieces
   * of the applications that were started, and those and rightful password changes account for all of storage.
   */
  method RunAll(shell: Afos, inputs: seq<Input>)
    requires shell.Valid() && forall i <- inputs :: i.random.Ok? ==> |i.random.value| == SALT_LEN
    modifies shell`cwd, shell`log, shell.system`input, shell.system`clock, shell.system`trace,
             shell.system.security, shell.system.vfs.platform, shell.system.vfs.platform.persistence
    ensures shell.Valid() && old(shell.log) <= shell.log
    ensures Canonical(shell.cwd) && shell.system.trace == History(shell.log)
    ensures shell.system.Paced() && shell.system.security.tries == TriesOf(shell.system.derive, shell.log)
    ensures LogHeeded(shell.system.derive, shell.log)
    ensures Accountable(shell.Around(), shell.system.derive, shell.log, shell.start, shell.system.vfs.platform.tree)
  {
    hide L.Paced, Canonical, Accountable, ParsesIds, WellFormed, History, Named, SetsPassword, TargetOf, Startable,
         Goes, Normalized, Listable, TriesOf, LogHeeded;
    for k := 0 to |inputs|
      invariant shell.Valid() && old(shell.log) <= shell.log
    {
      assert inputs[k] in inputs;
      var _ := shell.RunCommand(inputs[k].line, inputs[k].calls, inputs[k].ending, inputs[k].random);
    }
  }
}
