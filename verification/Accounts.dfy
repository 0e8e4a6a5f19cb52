/** What holds of every run of the shell, read off its log. */
module Accounts {
  import opened Wrappers
  import opened Words
  import opened Codec
  import opened Api
  import opened Paths
  import opened Tree
  import opened Platform
  import opened Vfs
  import opened Security
  import opened Effects
  import opened PasswordFile
  import opened Session
  import opened Conduct
  import opened Shell
  import Consent
  import L = Limiter
  import Utf8

  lemma AccountablePrefix(s: Setting, derive: Derive, log: seq<Entry>, first: FileTree, last: FileTree)
    requires Accountable(s, derive, log, first, last) && log != []
    ensures var k := |log| - 1;
            && Accountable(s, derive, log[..k], first, log[k].Before())
            && EntrySound(s, derive, log[k]) && log[k].After() == last
  {
    hide EntrySound;
    assert log[|log| - 1] in log;
    assert forall entry <- log[..|log| - 1] :: entry in log;
  }

  /* ----- Effects ----- */

  lemma SliceOfFirst(a: seq<Event>, b: seq<Event>, at: nat, n: nat)
    requires at + n <= |a|
    ensures (a + b)[at..at + n] == a[at..at + n]
  {
  }

  lemma SliceOfSecond(a: seq<Event>, b: seq<Event>, at: nat, n: nat)
    requires at + n <= |b|
    ensures (a + b)[|a| + at..|a| + at + n] == b[at..at + n]
  {
  }

  /** Every event of a run belongs to one call of one execution, whose events stand in the trace from `at` on. */
  lemma {:induction false} EventHasExecution(log: seq<Entry>, k: nat) returns (e: Execution, p: Piece, at: nat)
    requires k < |History(log)|
    ensures Ran(e) in log && p in e.pieces
    ensures at <= k < at + |p.events| <= |History(log)| && History(log)[at..at + |p.events|] == p.events
    decreases |log|
  {
    var last := |log| - 1;
    var earlier := History(log[..last]);
    if k < |earlier| {
      e, p, at := EventHasExecution(log[..last], k);
      SliceOfFirst(earlier, if log[last].Ran? then EventsOf(log[last].execution.pieces) else [], at, |p.events|);
    } else {
      e := log[last].execution;
      var all := EventsOf(e.pieces);
      p, at := EventHasPiece(e.pieces, k - |earlier|);
      SliceOfSecond(earlier, all, at, |p.events|);
      at := |earlier| + at;
    }
  }

  lemma {:induction false} EventHasPiece(pieces: seq<Piece>, k: nat) returns (p: Piece, at: nat)
    requires k < |EventsOf(pieces)|
    ensures p in pieces
    ensures at <= k < at + |p.events| <= |EventsOf(pieces)| && EventsOf(pieces)[at..at + |p.events|] == p.events
    decreases |pieces|
  {
    var last := |pieces| - 1;
    var earlier := EventsOf(pieces[..last]);
    if k < |earlier| {
      p, at := EventHasPiece(pieces[..last], k);
      SliceOfFirst(earlier, pieces[last].events, at, |p.events|);
    } else {
      p, at := pieces[last], |earlier|;
      assert EventsOf(pieces) == earlier + p.events;
    }
  }

  /**
   * Whatever was done in the course of a run, an application did that declared every request it needed, and was either
   * read from the boot table or granted each request by the user in the events that stand right before; and storage
   * changed as that effect does.
   */
  lemma EveryEffectIsEntitled(
    s: Setting, derive: Derive, log: seq<Entry>, first: FileTree, last: FileTree, k: nat)
    returns (e: Execution, p: Piece)
    requires Accountable(s, derive, log, first, last)
    requires k < |History(log)| && History(log)[k].Done?
    ensures Ran(e) in log && p in e.pieces
    ensures 1 <= |p.events| <= k + 1 && History(log)[k + 1 - |p.events|..k + 1] == p.events
    ensures var effect := History(log)[k].effect;
            && EffectOf(p.events) == Some(effect) && Effected(e.app, effect, p.before, p.after)
            && OwnData(e.app, effect) && PathsFixed(effect)
            && Consent.Sanctioned(e.app, Gate(p.before, derive), p.events[..|p.events| - 1], effect)
            && (forall r <- Required(effect) :: Allowed(e.app, r))
            && (if e.app.trusted then FromTable(s.files, e)
                else GrantedAll(Gate(p.before, derive), p.events[..|p.events| - 1], Required(effect)))
  {
    hide Allowed, GrantedAll, Required, FromTable, Identified, History, Effected, PathsFixed, OwnData, WellFormed,
         Linked, Chained, Consent.Sanctioned, Wrought, STORED_PATH, Tree.Exists, Judge, EventsOf;
    var at;
    e, p, at := EventHasExecution(log, k);
    assert Trustworthy(s, derive, e) by {
      assert EntrySound(s, derive, Ran(e));
    }
    assert Sound(e.app, derive, p);
    SoundEffect(e.app, derive, p);
    assert p.events[k - at] == History(log)[at..at + |p.events|][k - at] == History(log)[k];
    if e.app.trusted {
      TrustedEffectIsLast(e.app, Gate(p.before, derive), p.events, k - at);
    } else {
      EffectNeedsGrants(e.app, Gate(p.before, derive), p.events, k - at);
    }
    var before := p.events[..|p.events| - 1];
    assert p.events == before + [History(log)[k]];
    Consent.EffectIsSanctioned(e.app, Gate(p.before, derive), before, History(log)[k].effect);
  }

  lemma TrustedEffectIsLast(app: AppIdentity, gate: Gate, events: seq<Event>, m: nat)
    requires Authorised(app, gate, events) && app.trusted && m < |events| && events[m].Done?
    ensures m == |events| - 1
  {
    hide Allowed, GrantedAll, Required;
    assert events[m] in events;
  }

  /* ----- Storage ----- */

  function EntryRoots(entry: Entry): set<string> {
    match entry
    case Ran(e) => AllRoots(e.app, e.pieces)
    case PasswordSet(_, _, _, _) => {STORED_PATH}
    case PasswordTried(_, _) => {}
  }

  /** The paths that the run's applications were authorised for, their own data, and the password file if it was set. */
  function LogRoots(log: seq<Entry>): set<string> {
    if log == [] then {} else LogRoots(log[..|log| - 1]) + EntryRoots(log[|log| - 1])
  }

  lemma PasswordSetConfined(derive: Derive, typed: seq<string>, t: FileTree, t': FileTree)
    requires RightfullySet(derive, typed, t, t')
    ensures Confined(t, t', {STORED_PATH})
  {
    hide WellFormed, Confined, STORED_PATH, Judge, Vacant, Without, PutFile, IsRel;
    SecurityRoute();
    NothingConfined(t, {STORED_PATH});
    if t' == WithoutVerifier(t) {
      if Tree.Exists(t, STORED_PATH) {
        WithoutConfined(t, STORED_PATH);
      }
    } else {
      var v :| Vacant(t, STORED_PATH) && t' == WithVerifier(t, v);
      PutConfined(t, STORED_PATH, Utf8.Encode(ConfigText(v)));
    }
  }

  lemma EntryConfined(s: Setting, derive: Derive, entry: Entry)
    requires EntrySound(s, derive, entry)
    ensures Confined(entry.Before(), entry.After(), EntryRoots(entry))
  {
    hide Confined, AllRoots, RightfullySet, Identified, FromTable, AllSound, Chained, STORED_PATH;
    match entry {
      case Ran(e) => RunConfined(e.app, derive, e.pieces, e.before, e.after);
      case PasswordSet(typed, _, t, t') => PasswordSetConfined(derive, typed, t, t');
      case PasswordTried(_, t) => NothingConfined(t, {});
    }
  }

  /** Over any run of the shell, storage changes only at or under those paths, and above them by new directories. */
  lemma {:induction false} ShellConfined(s: Setting, derive: Derive, log: seq<Entry>, first: FileTree, last: FileTree)
    requires Accountable(s, derive, log, first, last)
    ensures Confined(first, last, LogRoots(log))
    decreases |log|
  {
    hide Confined, EntryRoots, EntrySound;
    var roots := LogRoots(log);
    NothingConfined(first, roots);
    if log != [] {
      var k := |log| - 1;
      AccountablePrefix(s, derive, log, first, last);
      ShellConfined(s, derive, log[..k], first, log[k].Before());
      EntryConfined(s, derive, log[k]);
      ConfinedMore(first, log[k].Before(), LogRoots(log[..k]), roots);
      ConfinedMore(log[k].Before(), last, EntryRoots(log[k]), roots);
      ConfinedTwice(first, log[k].Before(), last, roots);
    }
  }

  lemma EntryKeepsRooted(s: Setting, derive: Derive, entry: Entry)
    requires EntrySound(s, derive, entry) && Rooted(entry.Before())
    ensures Rooted(entry.After())
  {
    hide Rooted, Confined, RightfullySet, Identified, FromTable, AllSound, Chained, STORED_PATH, RootedPath;
    match entry {
      case Ran(e) => RunKeepsRooted(e.app, derive, e.pieces, e.before, e.after);
      case PasswordSet(typed, _, t, t') =>
        PasswordSetConfined(derive, typed, t, t');
        StoredIsRooted();
        ConfinedKeepsRooted(t, t', {STORED_PATH});
      case PasswordTried(_, _) =>
    }
  }

  lemma StoredIsRooted()
    ensures RootedPath(STORED_PATH)
  {
    hide Split;
    StoredAncestors("user");
    UnderSplits(STORED_PATH, "user");
    SplitNoSlash("user");
  }

  /** Over any run of the shell, every path of storage begins with `apps` or `user`. */
  lemma {:induction false} ShellKeepsRooted(
    s: Setting, derive: Derive, log: seq<Entry>, first: FileTree, last: FileTree)
    requires Accountable(s, derive, log, first, last) && Rooted(first)
    ensures Rooted(last)
    decreases |log|
  {
    hide Rooted, EntrySound;
    if log != [] {
      AccountablePrefix(s, derive, log, first, last);
      ShellKeepsRooted(s, derive, log[..|log| - 1], first, log[|log| - 1].Before());
      EntryKeepsRooted(s, derive, log[|log| - 1]);
    }
  }

  /* ----- The password ----- */

  /**
   * What can change what is in the password file's place: an application called "..", or a rename from one of the
   * directories that hold it or, where there is nothing, to one of them.
   */
  predicate CanReplace(e: Execution, present: bool) {
    e.app.id == ".." || exists p <- e.pieces :: if present then RenamesConfig(p) else RenamesOntoConfig(p)
  }

  /** The command was entitled or able to change it: who set the password knew the one that held before. */
  ghost predicate Causes(entry: Entry, derive: Derive, before: FileTree) {
    match entry
    case Ran(e) => CanReplace(e, Tree.Exists(before, STORED_PATH))
    case PasswordSet(typed, _, _, _) =>
      Tree.Exists(before, STORED_PATH) ==> typed != [] && Judge(before, typed[0], derive) == Ok(true)
    case PasswordTried(_, _) => false
  }

  /** A command changes what is in the password file's place, be it file, directory or nothing, only with a cause. */
  lemma EntryHasCause(s: Setting, derive: Derive, entry: Entry)
    requires EntrySound(s, derive, entry)
    ensures !SameEntry(entry.Before(), entry.After(), STORED_PATH) ==> Causes(entry, derive, entry.Before())
  {
    hide WellFormed, STORED_PATH, Judge, FromTable, AllSound, Chained, RenamesConfig, RenamesOntoConfig, WithVerifier,
         WithoutVerifier, Vacant;
    if entry.Ran? {
      var e := entry.execution;
      if !CanReplace(e, Tree.Exists(e.before, STORED_PATH)) {
        if Tree.Exists(e.before, STORED_PATH) {
          PasswordSurvives(e.app, derive, e.pieces, e.before, e.after);
        } else {
          PasswordStaysAway(e.app, derive, e.pieces, e.before, e.after);
        }
      }
    }
  }

  /** Every change over a run has its cause in the command that made it. */
  lemma EveryPasswordChangeHasCause(
    s: Setting, derive: Derive, log: seq<Entry>, first: FileTree, last: FileTree, k: nat)
    requires Accountable(s, derive, log, first, last) && k < |log|
    requires !SameEntry(log[k].Before(), log[k].After(), STORED_PATH)
    ensures Causes(log[k], derive, log[k].Before())
  {
    hide EntrySound, STORED_PATH, Causes, Linked;
    assert log[k] in log;
    EntryHasCause(s, derive, log[k]);
  }

  /**
   * If what is in the password file's place is not what it was, then the first command that changed it came from who
   * had just typed the password in force from the start, if there was one, or was an application called "..", or one
   * that renamed "/user" or "/user/config" or, where there was nothing, something to one of them.
   */
  lemma {:induction false} PasswordChangeHasCause(
    s: Setting, derive: Derive, log: seq<Entry>, first: FileTree, last: FileTree) returns (k: nat)
    requires Accountable(s, derive, log, first, last) && WellFormed(first)
    requires !SameEntry(first, last, STORED_PATH)
    ensures k < |log| && SameEntry(first, log[k].Before(), STORED_PATH)
    ensures !SameEntry(first, log[k].After(), STORED_PATH) && Causes(log[k], derive, first)
    ensures forall j | 0 <= j < k :: SameEntry(first, log[j].After(), STORED_PATH)
    decreases |log|
  {
    hide EntrySound, WellFormed, STORED_PATH, Causes, SameEntry;
    NothingChanged(first);
    AccountablePrefix(s, derive, log, first, last);
    k := |log| - 1;
    if forall j | 0 <= j < k :: SameEntry(first, log[j].After(), STORED_PATH) {
      BeforeIsAfter(log, first, last);
      FirstChangeHasCause(s, derive, log[k], first);
    } else {
      var j :| 0 <= j < k && !SameEntry(first, log[j].After(), STORED_PATH);
      AccountableUpTo(s, derive, log, first, last, j + 1);
      k := PasswordChangeHasCause(s, derive, log[..j + 1], first, log[j].After());
    }
  }

  lemma NothingChanged(t: FileTree)
    ensures SameEntry(t, t, STORED_PATH)
  {
  }

  lemma BeforeIsAfter(log: seq<Entry>, first: FileTree, last: FileTree)
    requires Linked(log, first, last) && log != []
    ensures var k := |log| - 1; log[k].Before() == if k == 0 then first else log[k - 1].After()
  {
    var k := |log| - 1;
    if k > 0 {
      assert log[..k][k - 1] == log[k - 1];
    }
  }

  lemma {:induction false} AccountableUpTo(
    s: Setting, derive: Derive, log: seq<Entry>, first: FileTree, last: FileTree, n: nat)
    requires Accountable(s, derive, log, first, last) && 0 < n <= |log|
    ensures Accountable(s, derive, log[..n], first, log[n - 1].After())
    decreases |log| - n
  {
    hide EntrySound;
    assert forall entry <- log[..n] :: entry in log;
    LinkedUpTo(log, first, last, n);
  }

  lemma {:induction false} LinkedUpTo(log: seq<Entry>, first: FileTree, last: FileTree, n: nat)
    requires Linked(log, first, last) && 0 < n <= |log|
    ensures Linked(log[..n], first, log[n - 1].After())
    decreases |log|
  {
    var k := |log| - 1;
    if n == |log| {
      assert log[..n] == log;
    } else {
      LinkedUpTo(log[..k], first, log[k].Before(), n);
      assert log[..k][..n] == log[..n];
    }
  }

  lemma FirstChangeHasCause(s: Setting, derive: Derive, entry: Entry, first: FileTree)
    requires EntrySound(s, derive, entry) && WellFormed(first) && SameEntry(first, entry.Before(), STORED_PATH)
    requires !SameEntry(first, entry.After(), STORED_PATH)
    ensures Causes(entry, derive, first)
  {
    hide WellFormed, STORED_PATH, Judge, FromTable, AllSound, Chained, RenamesConfig, RenamesOntoConfig, WithVerifier,
         WithoutVerifier, Vacant, CanReplace;
    EntryHasCause(s, derive, entry);
    if entry.PasswordSet? && Tree.Exists(first, STORED_PATH) {
      SamePasswordsPass(first, entry.Before(), entry.typed[0], derive);
    }
  }

  /* ----- The rate limit ----- */

  /** A right password: the only attempt that can clear the record. */
  predicate IsRight(gate: Gate, e: Event) {
    e.Password? && Judge(gate.tree, e.line, gate.derive) == Ok(true)
  }

  function Passwords(events: seq<Event>): nat {
    if events == [] then 0
    else Passwords(events[..|events| - 1]) + if events[|events| - 1].Password? then 1 else 0
  }

  /** Unless one of them is right, each password adds one attempt to the record, and nothing is taken from it. */
  lemma {:induction false} TriesGrow(tries: seq<L.Try>, gate: Gate, events: seq<Event>)
    requires forall e <- events :: !IsRight(gate, e)
    ensures tries <= Tally(tries, gate, events) && |Tally(tries, gate, events)| == |tries| + Passwords(events)
  {
    hide Judge, L.StateAfter, L.Penalised;
    if events != [] {
      var k := |events| - 1;
      assert events[k] in events && forall e <- events[..k] :: e in events;
      TriesGrow(tries, gate, events[..k]);
    }
  }

  function PiecesPasswords(pieces: seq<Piece>): nat {
    if pieces == [] then 0
    else PiecesPasswords(pieces[..|pieces| - 1]) + Passwords(pieces[|pieces| - 1].events)
  }

  ghost predicate NoneRight(derive: Derive, pieces: seq<Piece>) {
    forall p <- pieces :: forall e <- p.events :: !IsRight(Gate(p.before, derive), e)
  }

  lemma {:induction false} PiecesTriesGrow(tries: seq<L.Try>, derive: Derive, pieces: seq<Piece>)
    requires NoneRight(derive, pieces)
    ensures tries <= TallyPieces(tries, derive, pieces)
    ensures |TallyPieces(tries, derive, pieces)| == |tries| + PiecesPasswords(pieces)
  {
    hide IsRight, Tally;
    if pieces != [] {
      var k := |pieces| - 1;
      assert pieces[k] in pieces && forall p <- pieces[..k] :: p in pieces;
      PiecesTriesGrow(tries, derive, pieces[..k]);
      TriesGrow(TallyPieces(tries, derive, pieces[..k]), Gate(pieces[k].before, derive), pieces[k].events);
    }
  }

  /** A right password was given, or one was set. */
  ghost predicate Clears(derive: Derive, entry: Entry) {
    match entry
    case Ran(e) => !NoneRight(derive, e.pieces)
    case PasswordSet(_, _, _, _) => true
    case PasswordTried(attempt, t) => exists e <- attempt :: IsRight(Gate(t, derive), e)
  }

  function EntryPasswords(entry: Entry): nat {
    match entry
    case Ran(e) => PiecesPasswords(e.pieces)
    case PasswordSet(_, attempt, _, _) => Passwords(attempt)
    case PasswordTried(attempt, _) => Passwords(attempt)
  }

  function LogPasswords(log: seq<Entry>): nat {
    if log == [] then 0 else LogPasswords(log[..|log| - 1]) + EntryPasswords(log[|log| - 1])
  }

  lemma EntryTriesGrow(tries: seq<L.Try>, derive: Derive, entry: Entry)
    requires !Clears(derive, entry)
    ensures tries <= TriesAfter(tries, derive, entry)
    ensures |TriesAfter(tries, derive, entry)| == |tries| + EntryPasswords(entry)
  {
    hide IsRight, NoneRight, TallyPieces, Tally, Passwords, PiecesPasswords;
    match entry {
      case Ran(e) => PiecesTriesGrow(tries, derive, e.pieces);
      case PasswordTried(attempt, t) => TriesGrow(tries, Gate(t, derive), attempt);
      case PasswordSet(_, _, _, _) =>
    }
  }

  /**
   * Over any further commands that neither give the right password nor set one, every attempt on record stays there,
   * and each password that is typed adds one, whichever application or command asked for it.
   */
  lemma {:induction false} AttemptsStayOnRecord(derive: Derive, log: seq<Entry>, more: seq<Entry>)
    requires forall entry <- more :: !Clears(derive, entry)
    ensures TriesOf(derive, log) <= TriesOf(derive, log + more)
    ensures |TriesOf(derive, log + more)| == |TriesOf(derive, log)| + LogPasswords(more)
    decreases |more|
  {
    hide Clears, TriesAfter, EntryPasswords;
    if more == [] {
      assert log + more == log;
    } else {
      var k := |more| - 1;
      assert (log + more)[..|log + more| - 1] == log + more[..k];
      assert more[k] in more && forall entry <- more[..k] :: entry in more;
      AttemptsStayOnRecord(derive, log, more[..k]);
      EntryTriesGrow(TriesOf(derive, log + more[..k]), derive, more[k]);
    }
  }

  /**
   * At any point of any run of the shell, the wrong passwords evaluated since one was last let through or set are
   * spaced as the limiter demands, however many applications and commands came between.
   */
  lemma WrongPasswordsAreSpaced(shell: Afos, n: nat)
    requires shell.Valid() && shell.system.clock + 32000 <= U64_MAX
    requires 3 <= n <= |L.Rejections(TriesOf(shell.system.derive, shell.log))|
    ensures var times := L.Rejections(TriesOf(shell.system.derive, shell.log));
            times[n - 1] >= times[2] + L.LeastWait(n)
  {
    hide L.Rejections, L.StateAfter, TriesOf, LogHeeded, Accountable, History;
    L.RateLimitBound(shell.system.security.tries, n);
  }
}
