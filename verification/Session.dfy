/** Authorisation of application requests, as a trace of what was asked, answered and done. */
module Session {
  import opened Wrappers
  import opened Words
  import opened Codec
  import opened Api
  import opened Paths
  import opened Normalize
  import opened Tree
  import opened Platform
  import opened SystemTable
  import opened Vfs
  import opened Security
  import opened Effects
  import L = Limiter
  import Utf8
  import AppData

  datatype Event =
    | Asked(request: Request)
    | Entered(line: string) // for the application, not for the system
    | Answered(line: string)
    | Unprotected
    | Password(line: string, time: nat)
    | Done(effect: Effect)

  function Lower(c: char): char {
    if 'A' <= c <= 'Z' then (c as int + 32) as char else c
  }

  predicate EqIgnoreAsciiCase(a: string, b: string) {
    |a| == |b| && forall i | 0 <= i < |a| :: Lower(a[i]) == Lower(b[i])
  }

  predicate IsYes(line: string) {
    EqIgnoreAsciiCase(line, "y") || EqIgnoreAsciiCase(line, "yes")
  }

  /** `declares`: some capability in the application's header covers the requested one. */
  predicate Covers(declared: Capability, requested: Capability) {
    match (declared, requested)
    case (FsRead(prefix), FsRead(path)) =>
      Normalized("/", prefix).Ok? && PathPrefix(Normalized("/", prefix).value, path)
    case (FsWrite(prefix), FsWrite(path)) =>
      Normalized("/", prefix).Ok? && PathPrefix(Normalized("/", prefix).value, path)
    case (Clock, Clock) => true
    case (SystemInfo, SystemInfo) => true
    case (Network(pattern), Network(host)) => pattern == "*" || EqIgnoreAsciiCase(pattern, host)
    case _ => false
  }

  predicate Declares(app: AppIdentity, requested: Capability) {
    exists declared <- app.capabilities :: Covers(declared, requested)
  }

  predicate Allowed(app: AppIdentity, r: Request) {
    !IsSecret(r.resource) && Declares(app, r.capability)
  }

  /* ----- Traces ----- */

  /** What a password is checked against: the stored verifier and the derivation. */
  datatype Gate = Gate(tree: FileTree, derive: Derive)

  /** The password typed is the right one, or there is none to type. */
  predicate Passed(gate: Gate, e: Event) {
    if Tree.Exists(gate.tree, STORED_PATH)
    then e.Password? && Judge(gate.tree, e.line, gate.derive) == Ok(true)
    else e.Unprotected?
  }

  /** A request put to the user, a yes, and the right password when there is one. */
  predicate Granted(gate: Gate, events: seq<Event>, r: Request) {
    && |events| == 3
    && events[0] == Asked(r)
    && events[1].Answered? && IsYes(events[1].line)
    && Passed(gate, events[2])
  }

  /** Each request granted in turn, by an answer of its own. */
  predicate GrantedAll(gate: Gate, events: seq<Event>, requests: seq<Request>) {
    if requests == [] then events == []
    else |events| >= 3 && Granted(gate, events[..3], requests[0]) && GrantedAll(gate, events[3..], requests[1..])
  }

  /** The lines that the user typed in the course of the events. */
  function Typed(events: seq<Event>): seq<string> {
    if events == [] then []
    else
      var last := events[|events| - 1];
      Typed(events[..|events| - 1]) + (if last.Entered? || last.Answered? || last.Password? then [last.line] else [])
  }

  lemma {:induction false} TypedConcat(a: seq<Event>, b: seq<Event>)
    ensures Typed(a + b) == Typed(a) + Typed(b)
    decreases |b|
  {
    if b == [] {
      assert a + b == a;
    } else {
      assert (a + b)[..|a + b| - 1] == a + b[..|b| - 1];
      TypedConcat(a, b[..|b| - 1]);
    }
  }

  /* ----- Password attempts ----- */

  /** The attempts on record after an event: one that is accepted clears it, any other adds to it. */
  function Attempted(tries: seq<L.Try>, gate: Gate, e: Event): seq<L.Try> {
    if !e.Password? then tries
    else
      var step := L.Attempt(L.StateAfter(tries), e.time, VerdictOf(Judge(gate.tree, e.line, gate.derive)));
      if step.outcome.Accepted? then [] else tries + [TryOf(e.time, step.outcome)]
  }

  function Tally(tries: seq<L.Try>, gate: Gate, events: seq<Event>): seq<L.Try> {
    if events == [] then tries else Attempted(Tally(tries, gate, events[..|events| - 1]), gate, events[|events| - 1])
  }

  /** The limiter let every password of the events through, and each was right. */
  ghost predicate AllAccepted(tries: seq<L.Try>, gate: Gate, events: seq<Event>) {
    forall i | 0 <= i < |events| && events[i].Password? :: Tally(tries, gate, events[..i + 1]) == []
  }

  lemma {:induction false} TallyConcat(tries: seq<L.Try>, gate: Gate, a: seq<Event>, b: seq<Event>)
    ensures Tally(tries, gate, a + b) == Tally(Tally(tries, gate, a), gate, b)
    decreases |b|
  {
    hide Attempted;
    if b == [] {
      assert a + b == a;
    } else {
      assert (a + b)[..|a + b| - 1] == a + b[..|b| - 1];
      TallyConcat(tries, gate, a, b[..|b| - 1]);
    }
  }

  lemma AcceptedConcat(tries: seq<L.Try>, gate: Gate, a: seq<Event>, b: seq<Event>)
    requires AllAccepted(tries, gate, a) && AllAccepted(Tally(tries, gate, a), gate, b)
    ensures AllAccepted(tries, gate, a + b)
  {
    hide Tally;
    var all := a + b;
    forall i | 0 <= i < |all| && all[i].Password? ensures Tally(tries, gate, all[..i + 1]) == [] {
      if i < |a| {
        assert all[..i + 1] == a[..i + 1] && a[i] == all[i];
      } else {
        assert all[..i + 1] == a + b[..i + 1 - |a|] && b[i - |a|] == all[i];
        TallyConcat(tries, gate, a, b[..i + 1 - |a|]);
      }
    }
  }

  /** Events without a password leave the record alone. */
  lemma {:induction false} NoAttempt(tries: seq<L.Try>, gate: Gate, events: seq<Event>)
    requires forall e <- events :: !e.Password?
    ensures Tally(tries, gate, events) == tries && AllAccepted(tries, gate, events)
  {
    if events != [] {
      assert events[|events| - 1] in events;
      NoAttempt(tries, gate, events[..|events| - 1]);
    }
  }

  lemma OneAttempt(tries: seq<L.Try>, gate: Gate, e: Event)
    ensures Tally(tries, gate, [e]) == Attempted(tries, gate, e)
    ensures Attempted(tries, gate, e) == [] ==> AllAccepted(tries, gate, [e])
  {
    hide Attempted;
    assert [e][..0] == [] && [e][..1] == [e];
  }

  predicate NothingDone(events: seq<Event>) {
    forall e <- events :: !e.Done?
  }

  /**
   * What one operation of an application adds to the trace: nothing done, or exactly one effect whose every request
   * the application declared and, unless it is trusted, the user granted just before and for this effect alone.
   */
  ghost predicate Authorised(app: AppIdentity, gate: Gate, events: seq<Event>) {
    || NothingDone(events)
    || (&& events != [] && events[|events| - 1].Done?
        && var e := events[|events| - 1].effect;
           && (forall r <- Required(e) :: Allowed(app, r))
           && OwnData(app, e) && PathsFixed(e)
           && (if app.trusted then |events| == 1 else GrantedAll(gate, events[..|events| - 1], Required(e))))
  }

  /* ----- The system ----- */

  class System {
    const vfs: VirtualFileSystem
    const security: SecurityManager
    const derive: Derive
    var input: seq<string> // the lines that the user will type
    var clock: nat
    ghost var trace: seq<Event>

    constructor (vfs: VirtualFileSystem, security: SecurityManager, derive: Derive, input: seq<string>, clock: nat)
      ensures this.vfs == vfs && this.security == security && this.derive == derive
      ensures this.input == input && this.clock == clock && trace == []
    {
      this.vfs := vfs;
      this.security := security;
      this.derive := derive;
      this.input := input;
      this.clock := clock;
      this.trace := [];
    }

    ghost predicate Valid()
      reads vfs.platform, vfs.platform.persistence
    {
      vfs.Valid() && forall p, s :: derive(p, s).Ok? ==> |derive(p, s).value| == HASH_LEN
    }

    /** What a password would be checked against now. */
    ghost function CurrentGate(): Gate
      reads vfs.platform
    {
      Gate(vfs.platform.tree, derive)
    }

    /** The password attempts so far were made in order, and the limiter is where they have brought it. */
    ghost predicate Paced()
      reads this`clock, security
    {
      security.Paced(clock)
    }

    /** The record of attempts is what the events make of it. */
    twostate predicate Tallied(events: seq<Event>)
      reads this`clock, security
    {
      old(Paced()) ==> Paced() && security.tries == Tally(old(security.tries), old(CurrentGate()), events)
    }

    /** The limiter accepted every password of the events. */
    twostate predicate Heeded(events: seq<Event>) {
      old(Paced()) ==> AllAccepted(old(security.tries), old(CurrentGate()), events)
    }

    /** The next of these lines is the right password, if one is set, and no block stands in its way. */
    ghost predicate Admitted(lines: seq<string>)
      reads this`clock, security, vfs.platform
    {
      Tree.Exists(vfs.platform.tree, STORED_PATH) ==>
        && lines != [] && Judge(vfs.platform.tree, lines[0], derive) == Ok(true)
        && security.blockedUntil <= clock
    }

    /** The user is about to grant a request. */
    ghost predicate Willing()
      reads this, security, vfs.platform
    {
      input != [] && IsYes(input[0]) && Admitted(input[1..])
    }

    method ReadLine() returns (r: Result<string, Error>)
      modifies this`input
      ensures r.Ok? ==> old(input) == [r.value] + input
      ensures r.Err? ==> old(input) == [] == input
    {
      if input == [] {
        return Err(Io);
      }
      r := Ok(input[0]);
      input := input[1..];
    }

    method Now() returns (now: nat)
      modifies this`clock
      ensures now == clock >= old(clock)
      ensures old(Paced()) ==> Paced()
    {
      var passed: int := *;
      if Paced() && passed > 0 {
        L.PacedLater(security.State(), security.tries, clock, clock + passed);
      }
      clock := if passed > 0 then clock + passed else clock;
      now := clock;
    }

    /** These lines name a password that can be stored. */
    ghost predicate Names(lines: seq<string>, random: Result<seq<Byte>, Error>)
      reads vfs.platform
    {
      && lines != [] && security.Settable(vfs, lines[0], random, derive)
      && (lines[0] != "" ==> |lines| >= 2 && lines[1] == lines[0])
    }

    /** Storage holds what the lines asked for: no verifier for an empty password, else that of one typed twice. */
    ghost predicate NowSet(before: FileTree, lines: seq<string>, random: Result<seq<Byte>, Error>)
      reads vfs.platform
    {
      && lines != []
      && (lines[0] == "" ==>
            !Tree.Exists(vfs.platform.tree, STORED_PATH) && vfs.platform.tree == WithoutVerifier(before))
      && (lines[0] != "" ==>
            && |lines| >= 2 && lines[1] == lines[0]
            && random.Ok? && derive(lines[0], random.value).Ok?
            && var v := Verifier(random.value, derive(lines[0], random.value).value);
            && StoredVerifier(vfs.platform.tree) == Ok(v)
            && Vacant(before, STORED_PATH) && vfs.platform.tree == WithVerifier(before, v))
    }

    /** Asks for a new password, twice unless it is empty, and stores it. */
    method PromptNewPassword(random: Result<seq<Byte>, Error>) returns (r: Result<(), Error>)
      requires Valid() && (random.Ok? ==> |random.value| == SALT_LEN)
      modifies this`input, security, vfs.platform, vfs.platform.persistence
      ensures Valid()
      ensures r.Err? ==> vfs.platform.tree == old(vfs.platform.tree)
      ensures old(Names(input, random)) ==> r.Ok?
      ensures security.tries == if r.Ok? then [] else old(security.tries)
      ensures r.Ok? ==> security.State() == L.FRESH && NowSet(old(vfs.platform.tree), old(input), random)
      ensures old(Paced()) ==> Paced()
    {
      hide L.Paced, WellFormed, STORED_PATH, SECURITY_PATH, StoredVerifier, L.Penalised, ConfigText, Utf8.Encode,
           WithVerifier, WithoutVerifier, Vacant;
      L.PacedFresh(clock);
      var password :- ReadLine();
      if password != "" {
        var confirmation :- ReadLine();
        if password != confirmation {
          return Err(InvalidInput);
        }
      }
      r := security.SetPassword(vfs, password, random, derive);
    }

    /**
     * Changes the password. Whoever succeeds has first typed the old password, if there was one, and the limiter has
     * let it through. An attempt that does not succeed stays on record.
     */
    method ChangePassword(random: Result<seq<Byte>, Error>) returns (r: Result<(), Error>, ghost attempt: seq<Event>)
      requires Valid() && (random.Ok? ==> |random.value| == SALT_LEN)
      modifies this`input, this`clock, security, vfs.platform, vfs.platform.persistence
      ensures Valid()
      ensures r.Err? ==> vfs.platform.tree == old(vfs.platform.tree)
      ensures var had := old(Tree.Exists(vfs.platform.tree, STORED_PATH));
              && (old(Admitted(input) && Names(if had then input[1..] else input, random)) ==> r.Ok?)
              && (r.Ok? && had ==> old(input) != [] && Judge(old(vfs.platform.tree), old(input)[0], derive) == Ok(true))
              && (r.Ok? ==>
                    && security.State() == L.FRESH
                    && NowSet(old(vfs.platform.tree), if had then old(input)[1..] else old(input), random))
              && (if had && old(input) != []
                  then |attempt| == 1 && attempt[0].Password? && attempt[0].line == old(input)[0] else attempt == [])
      ensures r.Ok? ==> Heeded(attempt)
      ensures old(Paced()) ==>
                && Paced()
                && security.tries == if r.Ok? then [] else Tally(old(security.tries), old(CurrentGate()), attempt)
    {
      hide L.Paced, WellFormed, STORED_PATH, SECURITY_PATH, StoredVerifier, L.Penalised, Judge, WithVerifier,
           WithoutVerifier, Vacant, Tally, AllAccepted, L.StateAfter;
      attempt := [];
      NoAttempt(security.tries, CurrentGate(), []);
      var protected := security.HasPassword(vfs);
      if protected == Ok(true) {
        var current := ReadLine();
        if current.Err? {
          return Err(current.error), attempt;
        }
        assert old(input)[1..] == input;
        var verified;
        verified, attempt := Check(current.value);
        if verified.Err? {
          return verified, attempt;
        }
      }
      r := PromptNewPassword(random);
    }

    /** Checks a password that was typed. */
    method Check(line: string) returns (r: Result<(), Error>, ghost events: seq<Event>)
      requires Valid()
      modifies this`clock, security
      ensures |events| == 1 && events[0].Password? && events[0].line == line
      ensures Tallied(events) && (r.Ok? ==> Heeded(events))
      ensures r.Ok? ==> Judge(vfs.platform.tree, line, derive) == Ok(true)
      ensures Judge(vfs.platform.tree, line, derive) == Ok(true) && old(security.blockedUntil <= clock) ==> r.Ok?
    {
      hide L.Paced, WellFormed, STORED_PATH, SECURITY_PATH, L.Penalised, Judge, L.StateAfter, Tally, AllAccepted;
      var now := Now();
      events := [Password(line, now)];
      if Paced() {
        L.PacedState(security.State(), security.tries, clock);
      }
      OneAttempt(security.tries, CurrentGate(), events[0]);
      r := security.Verify(vfs, now, line, derive);
    }

    /** Asks for the password if one is set. */
    method AskPassword() returns (r: Result<(), Error>, ghost events: seq<Event>)
      requires Valid()
      modifies this`input, this`clock, security
      ensures Valid() && NothingDone(events) && old(input) == Typed(events) + input
      ensures r.Ok? ==> |events| == 1 && Passed(CurrentGate(), events[0])
      ensures old(Admitted(input)) ==> r.Ok?
      ensures Tallied(events) && (r.Ok? ==> Heeded(events))
    {
      hide L.Paced, SECURITY_PATH, STORED_PATH, WellFormed, Judge, Tally, AllAccepted;
      events := [];
      NoAttempt(security.tries, CurrentGate(), []);
      NoAttempt(security.tries, CurrentGate(), [Unprotected]);
      var protected := security.HasPassword(vfs);
      if protected != Ok(true) {
        events := [Unprotected];
        return Ok(()), events;
      }
      var password := ReadLine();
      if password.Err? {
        return Err(password.error), events;
      }
      r, events := Check(password.value);
      assert Typed(events) == [password.value] by {
        assert events[..0] == [];
      }
    }

    /** Puts a request to the user and, if a password is set, asks for it. */
    method AskUser(request: Request) returns (r: Result<(), Error>, ghost events: seq<Event>)
      requires Valid()
      modifies this`input, this`clock, this`trace, security
      ensures Valid() && trace == old(trace) + events && NothingDone(events) && old(input) == Typed(events) + input
      ensures r.Ok? ==> Granted(CurrentGate(), events, request)
      ensures old(Willing()) ==> r.Ok?
      ensures Tallied(events) && (r.Ok? ==> Heeded(events))
    {
      hide L.Paced, Tally, AllAccepted, Typed, NothingDone, Granted, Passed, IsYes, Judge, WellFormed, STORED_PATH,
           SECURITY_PATH, Willing, Admitted;
      WillingMeans(this);
      events := [Asked(request)];
      var answer := ReadLine();
      if answer.Err? {
        Questioned(request, "");
        NotAttempted(security.tries, CurrentGate(), request, "");
        trace := trace + events;
        return Err(answer.error), events;
      }
      assert old(input)[1..] == input;
      events := [Asked(request), Answered(answer.value)];
      Questioned(request, answer.value);
      if !IsYes(answer.value) {
        NotAttempted(security.tries, CurrentGate(), request, answer.value);
        trace := trace + events;
        return Err(PermissionDenied), events;
      }
      ghost var check;
      ghost var tries := security.tries;
      r, check := AskPassword();
      AnsweredAndChecked(CurrentGate(), request, answer.value, check);
      CheckTallied(tries, CurrentGate(), request, answer.value, check);
      events := events + check;
      trace := trace + events;
    }

    /**
     * Decides one request. It never touches storage, and it succeeds only for a declared request that the user has
     * just granted, with the password if one is set, unless the application is trusted.
     */
    method Authorize(app: AppIdentity, request: Request) returns (r: Result<(), Error>, ghost events: seq<Event>)
      requires Valid()
      modifies this`input, this`clock, this`trace, security
      ensures Valid() && trace == old(trace) + events && NothingDone(events) && old(input) == Typed(events) + input
      ensures r.Ok? ==> Allowed(app, request)
      ensures r.Ok? ==> if app.trusted then events == [] else Granted(CurrentGate(), events, request)
      ensures Allowed(app, request) && (app.trusted || old(Willing())) ==> r.Ok?
      ensures IsSecret(request.resource) ==> r == Err(PermissionDenied) && events == []
      ensures !IsSecret(request.resource) && !Declares(app, request.capability) ==>
                r == Err(CapabilityNotDeclared) && events == []
      ensures Tallied(events) && (r.Ok? ==> Heeded(events))
    {
      hide L.Paced, SECURITY_PATH, STORED_PATH, Covers, IsYes, WellFormed, Granted, Tally, AllAccepted;
      events := [];
      NoAttempt(security.tries, CurrentGate(), []);
      if IsSecret(request.resource) {
        return Err(PermissionDenied), events;
      }
      if !Declares(app, request.capability) {
        return Err(CapabilityNotDeclared), events;
      }
      if app.trusted {
        return Ok(()), events;
      }
      r, events := AskUser(request);
    }

    /** Puts requests one after the other until one is refused. */
    method AuthorizeAll(app: AppIdentity, requests: seq<Request>)
      returns (r: Result<(), Error>, ghost added: seq<Event>)
      requires Valid()
      modifies this`input, this`clock, this`trace, security
      ensures Valid() && trace == old(trace) + added && NothingDone(added) && old(input) == Typed(added) + input
      ensures r.Ok? ==> forall q <- requests :: Allowed(app, q)
      ensures r.Ok? ==> if app.trusted then added == [] else GrantedAll(CurrentGate(), added, requests)
      ensures (forall q <- requests :: Allowed(app, q)) && (app.trusted || requests == []) ==> r.Ok?
      ensures Tallied(added) && (r.Ok? ==> Heeded(added))
    {
      hide L.Paced, Allowed, Granted, GrantedAll, IsSecret, WellFormed, Typed, Tally, AllAccepted;
      r, added := Ok(()), [];
      ghost var gate, tries := CurrentGate(), security.tries;
      NoAttempt(tries, gate, []);
      NoGrants(gate);
      for i := 0 to |requests|
        invariant Valid() && trace == old(trace) + added && NothingDone(added) && old(input) == Typed(added) + input
        invariant r.Ok? && forall q <- requests[..i] :: Allowed(app, q)
        invariant if app.trusted then added == [] else GrantedAll(gate, added, requests[..i])
        invariant old(Paced()) ==>
                    Paced() && security.tries == Tally(tries, gate, added) && AllAccepted(tries, gate, added)
      {
        ghost var events;
        r, events := Authorize(app, requests[i]);
        TypedConcat(added, events);
        TallyConcat(tries, gate, added, events);
        if r.Ok? && old(Paced()) {
          AcceptedConcat(tries, gate, added, events);
        }
        assert requests[..i + 1] == requests[..i] + [requests[i]];
        if r.Ok? && !app.trusted {
          GrantedAllSnoc(gate, added, requests[..i], events, requests[i]);
        }
        added := added + events;
        if r.Err? {
          return;
        }
      }
      assert requests[..|requests|] == requests;
    }

    /** Puts the requests of an effect one after the other and, if all are granted, notes that it is done. */
    method Permit(app: AppIdentity, effect: Effect) returns (r: Result<(), Error>)
      requires Valid() && OwnData(app, effect) && PathsFixed(effect)
      modifies this`input, this`clock, this`trace, security
      ensures Valid()
      ensures old(trace) <= trace && Authorised(app, CurrentGate(), trace[|old(trace)|..])
      ensures old(input) == Typed(trace[|old(trace)|..]) + input
      ensures r.Ok? ==> |old(trace)| < |trace| && trace[|trace| - 1] == Done(effect)
      ensures r.Ok? ==> !NothingDone(trace[|old(trace)|..]) && EffectOf(trace[|old(trace)|..]) == Some(effect)
      ensures r.Err? ==> NothingDone(trace[|old(trace)|..]) && EffectOf(trace[|old(trace)|..]) == None
      ensures r.Err? ==> trace == old(trace) || !trace[|trace| - 1].Done?
      ensures (forall q <- Required(effect) :: Allowed(app, q)) && (app.trusted || Required(effect) == []) ==> r.Ok?
      ensures Tallied(trace[|old(trace)|..]) && (r.Ok? ==> Heeded(trace[|old(trace)|..]))
    {
      hide L.Paced, Allowed, GrantedAll, OwnData, PathsFixed, Authorised, Required, WellFormed, Typed, EffectOf,
           NothingDone, Tally, AllAccepted;
      ghost var gate, tries, added := CurrentGate(), security.tries, [];
      r, added := AuthorizeAll(app, Required(effect));
      assert trace[|old(trace)|..] == added;
      if r.Err? {
        NothingAuthorised(app, gate, added);
        return;
      }
      trace := trace + [Done(effect)];
      assert trace[|old(trace)|..] == added + [Done(effect)];
      EffectAuthorised(app, gate, added, effect);
      DoneIsNoAttempt(tries, gate, added, effect);
    }
  }

  lemma DoneIsNoAttempt(tries: seq<L.Try>, gate: Gate, events: seq<Event>, effect: Effect)
    ensures Tally(tries, gate, events + [Done(effect)]) == Tally(tries, gate, events)
    ensures AllAccepted(tries, gate, events) ==> AllAccepted(tries, gate, events + [Done(effect)])
  {
    hide Tally, AllAccepted;
    NoAttempt(Tally(tries, gate, events), gate, [Done(effect)]);
    TallyConcat(tries, gate, events, [Done(effect)]);
    if AllAccepted(tries, gate, events) {
      AcceptedConcat(tries, gate, events, [Done(effect)]);
    }
  }

  lemma WillingMeans(s: System)
    ensures s.Willing() <==> s.input != [] && IsYes(s.input[0]) && s.Admitted(s.input[1..])
  {
  }

  lemma Questioned(request: Request, line: string)
    ensures NothingDone([Asked(request)]) && Typed([Asked(request)]) == []
    ensures NothingDone([Asked(request), Answered(line)]) && Typed([Asked(request), Answered(line)]) == [line]
  {
    assert [Asked(request), Answered(line)][..1] == [Asked(request)];
  }

  lemma AnsweredAndChecked(gate: Gate, request: Request, line: string, check: seq<Event>)
    requires IsYes(line) && NothingDone(check)
    ensures var events := [Asked(request), Answered(line)] + check;
            && NothingDone(events) && Typed(events) == [line] + Typed(check)
            && (|check| == 1 && Passed(gate, check[0]) ==> Granted(gate, events, request))
  {
    hide IsYes, Passed, Typed;
    Questioned(request, line);
    TypedConcat([Asked(request), Answered(line)], check);
  }

  lemma NotAttempted(tries: seq<L.Try>, gate: Gate, request: Request, line: string)
    ensures Tally(tries, gate, [Asked(request)]) == tries
    ensures Tally(tries, gate, [Asked(request), Answered(line)]) == tries
    ensures AllAccepted(tries, gate, [Asked(request), Answered(line)])
  {
    hide Tally, AllAccepted;
    NoAttempt(tries, gate, [Asked(request)]);
    NoAttempt(tries, gate, [Asked(request), Answered(line)]);
  }

  lemma CheckTallied(tries: seq<L.Try>, gate: Gate, request: Request, line: string, check: seq<Event>)
    ensures var events := [Asked(request), Answered(line)] + check;
            && Tally(tries, gate, events) == Tally(tries, gate, check)
            && (AllAccepted(tries, gate, check) ==> AllAccepted(tries, gate, events))
  {
    hide Tally, AllAccepted;
    NotAttempted(tries, gate, request, line);
    TallyConcat(tries, gate, [Asked(request), Answered(line)], check);
    if AllAccepted(tries, gate, check) {
      AcceptedConcat(tries, gate, [Asked(request), Answered(line)], check);
    }
  }

  lemma NoGrants(gate: Gate)
    ensures GrantedAll(gate, [], []) && Typed([]) == []
  {
  }

  lemma NothingAuthorised(app: AppIdentity, gate: Gate, events: seq<Event>)
    requires NothingDone(events)
    ensures Authorised(app, gate, events) && EffectOf(events) == None
    ensures events == [] || !events[|events| - 1].Done?
  {
  }

  lemma EffectAuthorised(app: AppIdentity, gate: Gate, grants: seq<Event>, effect: Effect)
    requires OwnData(app, effect) && PathsFixed(effect) && forall r <- Required(effect) :: Allowed(app, r)
    requires if app.trusted then grants == [] else GrantedAll(gate, grants, Required(effect))
    ensures Authorised(app, gate, grants + [Done(effect)])
    ensures Typed(grants + [Done(effect)]) == Typed(grants) && !NothingDone(grants + [Done(effect)])
    ensures EffectOf(grants + [Done(effect)]) == Some(effect)
  {
    hide Allowed, GrantedAll, OwnData, PathsFixed, Required;
    assert (grants + [Done(effect)])[..|grants|] == grants;
    assert (grants + [Done(effect)])[|grants|] == Done(effect);
  }

  lemma {:induction false} GrantedAllSnoc(
    gate: Gate, events: seq<Event>, requests: seq<Request>, last: seq<Event>, r: Request)
    requires GrantedAll(gate, events, requests) && Granted(gate, last, r)
    ensures GrantedAll(gate, events + last, requests + [r])
    decreases |requests|
  {
    hide Granted;
    if requests == [] {
      assert events + last == last && requests + [r] == [r];
      GrantedLength(gate, last, r);
      assert last[..3] == last && last[3..] == [] && [r][1..] == [];
    } else {
      assert (requests + [r])[1..] == requests[1..] + [r];
      assert (events + last)[..3] == events[..3] && (events + last)[3..] == events[3..] + last;
      GrantedAllSnoc(gate, events[3..], requests[1..], last, r);
    }
  }

  lemma GrantedLength(gate: Gate, events: seq<Event>, r: Request)
    requires Granted(gate, events, r)
    ensures |events| == 3
  {
  }

  /* ----- Application sessions ----- */

  datatype Call =
    | CallReadLine
    | CallRead(path: string)
    | CallList(path: string)
    | CallWrite(path: string, text: string)
    | CallCreateDirs(path: string)
    | CallRemove(path: string)
    | CallRename(from: string, to: string)
    | CallClock
    | CallInfo
    | CallConnect(host: string, port: nat, connected: Result<nat, Error>)
    | CallReadAppdata(path: string)
    | CallWriteAppdata(path: string, text: string)

  /** The effect that a call asks for, from a directory, unless its path cannot be resolved. */
  function EffectFor(cwd: string, app: AppIdentity, call: Call): Option<Effect> {
    match call
    case CallReadLine => None
    case CallRead(path) => OnPath(Normalized(cwd, path), p => ReadText(p))
    case CallList(path) => OnPath(Normalized(cwd, path), p => ListDir(p))
    case CallWrite(path, text) => OnPath(Normalized(cwd, path), p => WriteText(p, Utf8.Encode(text)))
    case CallCreateDirs(path) => OnPath(Normalized(cwd, path), p => MakeDirs(p))
    case CallRemove(path) => OnPath(Normalized(cwd, path), p => RemovePath(p))
    case CallRename(from, to) =>
      if Normalized(cwd, from).Ok? && Normalized(cwd, to).Ok?
      then Some(RenamePath(Normalized(cwd, from).value, Normalized(cwd, to).value)) else None
    case CallClock => Some(ReadClock)
    case CallInfo => Some(ReadInfo)
    case CallConnect(host, port, _) => Some(Connect(host, port))
    case CallReadAppdata(path) => OnPath(AppData.Resolve(app.id, path), p => AppdataRead(p))
    case CallWriteAppdata(path, text) => OnPath(AppData.Resolve(app.id, path), p => AppdataWrite(p, Utf8.Encode(text)))
  }

  function OnPath(resolved: Result<string, Error>, effect: string -> Effect): Option<Effect> {
    if resolved.Ok? then Some(effect(resolved.value)) else None
  }

  /** The piece ends in the effect that the call asks for, or in none. */
  predicate Answers(cwd: string, app: AppIdentity, call: Call, events: seq<Event>) {
    EffectOf(events) == None || EffectOf(events) == EffectFor(cwd, app, call)
  }

  /** The effect that a piece of the trace ends with, if it does. */
  function EffectOf(events: seq<Event>): Option<Effect> {
    if events != [] && events[|events| - 1].Done? then Some(events[|events| - 1].effect) else None
  }

  /** Storage changed as the effect does, and not at all without one. */
  ghost predicate Wrought(app: AppIdentity, effect: Option<Effect>, t: FileTree, t': FileTree) {
    match effect case None => t' == t case Some(e) => Effected(app, e, t, t')
  }

  lemma NothingWrought(app: AppIdentity, t: FileTree)
    ensures forall effect :: Wrought(app, effect, t, t)
  {
  }

  /** The text of a file of the table or of storage. */
  function TextAt(files: seq<EmbeddedFile>, t: FileTree, path: string): Result<string, Error> {
    var bytes :- Content(files, t, path);
    match Utf8.Decode(bytes) case None => Err(InvalidInput) case Some(text) => Ok(text)
  }

  class AppSession {
    const system: System
    const app: AppIdentity
    const cwd: string
    var sockets: seq<nat>

    constructor (system: System, app: AppIdentity, cwd: string)
      requires Canonical(cwd)
      ensures this.system == system && this.app == app && this.cwd == cwd && sockets == []
    {
      this.system := system;
      this.app := app;
      this.cwd := cwd;
      this.sockets := [];
    }

    ghost predicate Valid()
      reads system.vfs.platform, system.vfs.platform.persistence
    {
      system.Valid() && Canonical(cwd)
    }

    /** The events since a point in the trace. */
    ghost function Since(n: nat): seq<Event>
      reads system
    {
      if n <= |system.trace| then system.trace[n..] else []
    }

    /**
     * The trace grew by an authorised piece that can only end in the call's own effect, every answer in it is a line
     * that was typed during it, every password in it is on record or was let through, and storage changed as the piece
     * says.
     */
    twostate predicate Accounted(call: Call)
      reads system, system.security, system.vfs.platform
    {
      && old(system.trace) <= system.trace
      && Authorised(app, old(system.CurrentGate()), Since(|old(system.trace)|))
      && old(system.input) == Typed(Since(|old(system.trace)|)) + system.input
      && Answers(cwd, app, call, Since(|old(system.trace)|))
      && system.Tallied(Since(|old(system.trace)|))
      && (EffectOf(Since(|old(system.trace)|)).Some? ==> system.Heeded(Since(|old(system.trace)|)))
      && Wrought(app, EffectOf(Since(|old(system.trace)|)), old(system.vfs.platform.tree), system.vfs.platform.tree)
    }

    /** What the session did since a point in the trace. */
    ghost predicate Did(effect: Effect, n: nat)
      reads system
    {
      n < |system.trace| && system.trace[|system.trace| - 1] == Done(effect)
    }

    /** The effect needs no one's consent. */
    ghost predicate Entitled(effect: Effect) {
      app.trusted && forall q <- Required(effect) :: Allowed(app, q)
    }

    method Resolve(path: string) returns (r: Result<string, Error>)
      requires Canonical(cwd)
      ensures r == Normalized(cwd, path)
      ensures r.Ok? ==> ActsOn(r.value) && Canonical(r.value)
    {
      hide Canonical;
      r := NormalizePath(cwd, path);
      if r.Ok? {
        NormalizedIsCanonical(cwd, path);
        CanonicalIsFixed("/", r.value);
      }
    }

    /** Hands the next line that the user types to the application. It counts as no answer. */
    method ConsoleReadLine() returns (r: Result<string, Error>)
      requires Valid()
      modifies system`input, system`trace
      ensures Valid() && Accounted(CallReadLine) && NothingDone(Since(|old(system.trace)|))
      ensures r.Ok? ==> old(system.input) == [r.value] + system.input
      ensures r.Ok? ==> system.trace == old(system.trace) + [Entered(r.value)]
      ensures r.Err? <==> old(system.input) == []
    {
      hide L.Paced, Tally, AllAccepted, Wrought, Authorised, Typed, NothingDone, EffectOf, WellFormed, Canonical;
      Quiet(app, system.CurrentGate(), system.trace, system.security.tries);
      NothingWrought(app, system.vfs.platform.tree);
      var line :- system.ReadLine();
      system.trace := system.trace + [Entered(line)];
      assert Since(|old(system.trace)|) == [Entered(line)];
      LineForApplication(app, system.CurrentGate(), line, system.security.tries);
      return Ok(line);
    }

    method ReadFile(path: string) returns (r: Result<string, Error>)
      requires Valid()
      modifies system`input, system`clock, system`trace, system.security
      ensures Valid() && Accounted(CallRead(path))
      ensures NothingDone(Since(|old(system.trace)|)) ==> r.Err?
      ensures !NothingDone(Since(|old(system.trace)|)) ==>
                && Normalized(cwd, path).Ok?
                && var p := Normalized(cwd, path).value;
                && Did(ReadText(p), |old(system.trace)|)
                && r == TextAt(system.vfs.systemFiles, system.vfs.platform.tree, p)
      ensures Normalized(cwd, path).Ok? ==>
                && var p, n := Normalized(cwd, path).value, |old(system.trace)|;
                && (Entitled(ReadText(p)) ==> Did(ReadText(p), n))
    {
      hide L.Paced, Tally, AllAccepted, Wrought, Authorised, Typed, NothingDone, EffectOf, WellFormed, Guarded, Lands,
           RouteOf, Canonical, ActsOn, Normalized, STORED_PATH, Tree.Exists, Judge, Blocked, Required,
           PROTECTED_ROOTS;
      Quiet(app, system.CurrentGate(), system.trace, system.security.tries);
      NothingWrought(app, system.vfs.platform.tree);
      var p :- Resolve(path);
      var _ :- system.Permit(app, ReadText(p));
      var bytes :- system.vfs.Read(p);
      var text := Utf8.Decode(bytes);
      return if text.Some? then Ok(text.value) else Err(InvalidInput);
    }

    method ListFiles(path: string) returns (r: Result<seq<StorageEntry>, Error>)
      requires Valid()
      modifies system`input, system`clock, system`trace, system.security
      ensures Valid() && Accounted(CallList(path))
      ensures NothingDone(Since(|old(system.trace)|)) ==> r.Err?
      ensures !NothingDone(Since(|old(system.trace)|)) ==>
                && Normalized(cwd, path).Ok?
                && var p := Normalized(cwd, path).value;
                && Did(ListDir(p), |old(system.trace)|)
                && ListedAs(system.vfs.systemFiles, system.vfs.platform.tree, p, r)
      ensures Normalized(cwd, path).Ok? ==>
                && var p, n := Normalized(cwd, path).value, |old(system.trace)|;
                && (Entitled(ListDir(p)) ==> Did(ListDir(p), n))
    {
      hide L.Paced, Tally, AllAccepted, Wrought, Authorised, Typed, NothingDone, EffectOf, WellFormed, Guarded, Lands,
           RouteOf, Canonical, ActsOn, Normalized, STORED_PATH, Tree.Exists, Judge, Blocked, Required,
           PROTECTED_ROOTS;
      Quiet(app, system.CurrentGate(), system.trace, system.security.tries);
      NothingWrought(app, system.vfs.platform.tree);
      var p :- Resolve(path);
      var _ :- system.Permit(app, ListDir(p));
      r := system.vfs.List(p);
    }

    method WriteFile(path: string, text: string) returns (r: Result<(), Error>)
      requires Valid()
      modifies system`input, system`clock, system`trace, system.security, system.vfs.platform,
               system.vfs.platform.persistence
      ensures Valid() && Accounted(CallWrite(path, text))
      ensures NothingDone(Since(|old(system.trace)|)) ==> system.vfs.platform.tree == old(system.vfs.platform.tree)
      ensures r.Err? ==> system.vfs.platform.tree == old(system.vfs.platform.tree)
      ensures r.Ok? ==>
                && Normalized(cwd, path).Ok?
                && var p := Normalized(cwd, path).value;
                && Did(WriteText(p, Utf8.Encode(text)), |old(system.trace)|)
                && system.vfs.platform.tree == PutFile(old(system.vfs.platform.tree), Target(p), Utf8.Encode(text))
      ensures Normalized(cwd, path).Ok? ==>
                && var p, n := Normalized(cwd, path).value, |old(system.trace)|;
                && (Entitled(WriteText(p, Utf8.Encode(text))) ==> Did(WriteText(p, Utf8.Encode(text)), n))
                && (Did(WriteText(p, Utf8.Encode(text)), n) && old(system.vfs.CanPut(p, Utf8.Encode(text))) ==> r.Ok?)
    {
      hide L.Paced, Tally, AllAccepted, Authorised, Typed, NothingDone, EffectOf, WellFormed, Guarded, Lands, RouteOf,
           Canonical, ActsOn, Normalized, PutFile, Target, Utf8.Encode, STORED_PATH, Tree.Exists, Judge, Blocked,
           Required, PROTECTED_ROOTS;
      Quiet(app, system.CurrentGate(), system.trace, system.security.tries);
      NothingWrought(app, system.vfs.platform.tree);
      var p :- Resolve(path);
      var data := Utf8.Encode(text);
      var _ :- system.Permit(app, WriteText(p, data));
      r := system.vfs.Write(p, data);
    }

    method CreateDirs(path: string) returns (r: Result<(), Error>)
      requires Valid()
      modifies system`input, system`clock, system`trace, system.security, system.vfs.platform,
               system.vfs.platform.persistence
      ensures Valid() && Accounted(CallCreateDirs(path))
      ensures NothingDone(Since(|old(system.trace)|)) ==> system.vfs.platform.tree == old(system.vfs.platform.tree)
      ensures r.Err? ==> system.vfs.platform.tree == old(system.vfs.platform.tree)
      ensures r.Ok? ==>
                && Normalized(cwd, path).Ok?
                && var p := Normalized(cwd, path).value;
                && Did(MakeDirs(p), |old(system.trace)|)
                && system.vfs.platform.tree == AddLineage(old(system.vfs.platform.tree), Target(p))
      ensures Normalized(cwd, path).Ok? ==>
                && var p, n := Normalized(cwd, path).value, |old(system.trace)|;
                && (Entitled(MakeDirs(p)) ==> Did(MakeDirs(p), n))
                && (Did(MakeDirs(p), n) && old(system.vfs.CanMakeDirs(p)) ==> r.Ok?)
    {
      hide L.Paced, Tally, AllAccepted, Authorised, Typed, NothingDone, EffectOf, WellFormed, Guarded, Lands, RouteOf,
           Canonical, ActsOn, Normalized, AddLineage, Target, STORED_PATH, Tree.Exists, Judge, Blocked, Required,
           PROTECTED_ROOTS;
      Quiet(app, system.CurrentGate(), system.trace, system.security.tries);
      NothingWrought(app, system.vfs.platform.tree);
      var p :- Resolve(path);
      var _ :- system.Permit(app, MakeDirs(p));
      r := system.vfs.CreateDirAll(p);
    }

    method Remove(path: string) returns (r: Result<(), Error>)
      requires Valid()
      modifies system`input, system`clock, system`trace, system.security, system.vfs.platform,
               system.vfs.platform.persistence
      ensures Valid() && Accounted(CallRemove(path))
      ensures NothingDone(Since(|old(system.trace)|)) ==> system.vfs.platform.tree == old(system.vfs.platform.tree)
      ensures r.Err? ==> system.vfs.platform.tree == old(system.vfs.platform.tree)
      ensures r.Ok? ==>
                && Normalized(cwd, path).Ok?
                && var p := Normalized(cwd, path).value;
                && Did(RemovePath(p), |old(system.trace)|)
                && system.vfs.platform.tree == Without(old(system.vfs.platform.tree), Target(p))
      ensures Normalized(cwd, path).Ok? ==>
                && var p, n := Normalized(cwd, path).value, |old(system.trace)|;
                && (Entitled(RemovePath(p)) ==> Did(RemovePath(p), n))
                && (Did(RemovePath(p), n) && old(system.vfs.CanRemove(p)) ==> r.Ok?)
    {
      hide L.Paced, Tally, AllAccepted, Authorised, Typed, NothingDone, EffectOf, WellFormed, Guarded, Lands, RouteOf,
           Canonical, Normalized, Without, Target, STORED_PATH, Tree.Exists, Judge, Blocked, Required,
           PROTECTED_ROOTS;
      Quiet(app, system.CurrentGate(), system.trace, system.security.tries);
      NothingWrought(app, system.vfs.platform.tree);
      var p :- Resolve(path);
      var _ :- system.Permit(app, RemovePath(p));
      r := system.vfs.Remove(p);
    }

    method Rename(from: string, to: string) returns (r: Result<(), Error>)
      requires Valid()
      modifies system`input, system`clock, system`trace, system.security, system.vfs.platform,
               system.vfs.platform.persistence
      ensures Valid() && Accounted(CallRename(from, to))
      ensures NothingDone(Since(|old(system.trace)|)) ==> system.vfs.platform.tree == old(system.vfs.platform.tree)
      ensures r.Err? ==>
                || system.vfs.platform.tree == old(system.vfs.platform.tree)
                || (Normalized(cwd, to).Ok? && StrayParents(old(system.vfs.platform.tree), Normalized(cwd, to).value,
                                                            system.vfs.platform.tree))
      ensures r.Ok? ==>
                && Normalized(cwd, from).Ok? && Normalized(cwd, to).Ok?
                && var p, q := Normalized(cwd, from).value, Normalized(cwd, to).value;
                && Did(RenamePath(p, q), |old(system.trace)|)
                && Moved(old(system.vfs.platform.tree), system.vfs.platform.tree, Target(p), Target(q))
      ensures Normalized(cwd, from).Ok? && Normalized(cwd, to).Ok? ==>
                && var p, q, n := Normalized(cwd, from).value, Normalized(cwd, to).value, |old(system.trace)|;
                && (Entitled(RenamePath(p, q)) ==> Did(RenamePath(p, q), n))
                && (Did(RenamePath(p, q), n) && old(system.vfs.CanRename(p, q)) ==> r.Ok?)
    {
      hide L.Paced, Tally, AllAccepted, Authorised, Typed, NothingDone, EffectOf, WellFormed, Guarded, Lands, RouteOf,
           Canonical, ActsOn, Normalized, AddLineage, Target, Parent, STORED_PATH, Tree.Exists, Judge, Blocked,
           Required, PROTECTED_ROOTS;
      Quiet(app, system.CurrentGate(), system.trace, system.security.tries);
      NothingWrought(app, system.vfs.platform.tree);
      var source :- Resolve(from);
      var target :- Resolve(to);
      var _ :- system.Permit(app, RenamePath(source, target));
      r := system.vfs.Rename(source, target);
    }

    method MonotonicMillis() returns (r: Result<nat, Error>)
      requires Valid()
      modifies system`input, system`clock, system`trace, system.security
      ensures Valid() && Accounted(CallClock)
      ensures r.Ok? <==> Did(ReadClock, |old(system.trace)|)
      ensures r.Ok? ==> r.value == system.clock
      ensures Entitled(ReadClock) ==> r.Ok?
    {
      hide L.Paced, Tally, AllAccepted, Wrought, Authorised, Typed, NothingDone, EffectOf, WellFormed, Guarded, Lands,
           RouteOf, Canonical, STORED_PATH, Tree.Exists, Judge, Blocked, Required, PROTECTED_ROOTS;
      NothingWrought(app, system.vfs.platform.tree);
      var _ :- system.Permit(app, ReadClock);
      var now := system.Now();
      return Ok(now);
    }

    method SystemInformation() returns (r: Result<(), Error>)
      requires Valid()
      modifies system`input, system`clock, system`trace, system.security
      ensures Valid() && Accounted(CallInfo)
      ensures r.Ok? <==> Did(ReadInfo, |old(system.trace)|)
      ensures Entitled(ReadInfo) ==> r.Ok?
    {
      hide L.Paced, Tally, AllAccepted, Wrought, Authorised, Typed, NothingDone, EffectOf, WellFormed, Guarded, Lands,
           RouteOf, Canonical, STORED_PATH, Tree.Exists, Judge, Blocked, Required, PROTECTED_ROOTS;
      NothingWrought(app, system.vfs.platform.tree);
      r := system.Permit(app, ReadInfo);
    }

    method NetConnect(host: string, port: nat, connected: Result<nat, Error>) returns (r: Result<nat, Error>)
      requires Valid()
      modifies this, system`input, system`clock, system`trace, system.security
      ensures Valid() && Accounted(CallConnect(host, port, connected))
      ensures r.Ok? ==> Did(Connect(host, port), |old(system.trace)|) && sockets == old(sockets) + [r.value]
      ensures r.Err? ==> sockets == old(sockets)
      ensures host != "" && Entitled(Connect(host, port)) ==> r == connected
    {
      hide L.Paced, Tally, AllAccepted, Wrought, Authorised, Typed, NothingDone, EffectOf, WellFormed, Guarded, Lands,
           RouteOf, Canonical, STORED_PATH, Tree.Exists, Judge, Blocked, Required, PROTECTED_ROOTS;
      Quiet(app, system.CurrentGate(), system.trace, system.security.tries);
      NothingWrought(app, system.vfs.platform.tree);
      if host == "" {
        return Err(InvalidInput);
      }
      var _ :- system.Permit(app, Connect(host, port));
      var handle :- connected;
      sockets := sockets + [handle];
      return Ok(handle);
    }

    method ResolveAppdata(path: string) returns (r: Result<string, Error>)
      ensures r == AppData.Resolve(app.id, path)
    {
      hide Normalized;
      var resolved :- NormalizePath(AppData.Root(app.id), path);
      if !PathPrefix(AppData.Root(app.id), resolved) {
        return Err(PermissionDenied);
      }
      return Ok(resolved);
    }

    method ReadAppdata(path: string) returns (r: Result<string, Error>)
      requires Valid()
      modifies system`input, system`clock, system`trace, system.security
      ensures Valid() && Accounted(CallReadAppdata(path))
      ensures match AppData.Resolve(app.id, path)
              case Err(e) => r == Err(e) && NothingDone(Since(|old(system.trace)|))
              case Ok(p) =>
                && Did(AppdataRead(p), |old(system.trace)|)
                && r == TextAt(system.vfs.systemFiles, system.vfs.platform.tree, p)
    {
      hide L.Paced, Tally, AllAccepted, Wrought, Authorised, Typed, NothingDone, EffectOf, WellFormed, Guarded, Lands,
           RouteOf, Canonical, Normalized, STORED_PATH, Tree.Exists, Judge, Blocked, PROTECTED_ROOTS;
      Quiet(app, system.CurrentGate(), system.trace, system.security.tries);
      NothingWrought(app, system.vfs.platform.tree);
      var p :- ResolveAppdata(path);
      var _ := system.Permit(app, AppdataRead(p));
      var bytes :- system.vfs.Read(p);
      var text := Utf8.Decode(bytes);
      return if text.Some? then Ok(text.value) else Err(InvalidInput);
    }

    /** Makes the application's directory and writes the data. */
    method StoreData(p: string, data: seq<Byte>) returns (r: Result<(), Error>)
      requires Valid()
      modifies system.vfs.platform, system.vfs.platform.persistence
      ensures Valid()
      ensures Wrought(app, Some(AppdataWrite(p, data)), old(system.vfs.platform.tree), system.vfs.platform.tree)
      ensures r.Ok? ==>
                system.vfs.platform.tree ==
                PutFile(AddLineage(old(system.vfs.platform.tree), Target(AppData.Root(app.id))), Target(p), data)
      ensures r.Err? ==>
                || !old(system.vfs.CanMakeDirs(AppData.Root(app.id)))
                || (system.vfs.platform.tree == AddLineage(old(system.vfs.platform.tree), Target(AppData.Root(app.id)))
                    && !system.vfs.CanPut(p, data))
    {
      hide WellFormed, Guarded, Lands, RouteOf, Canonical, Normalized, AddLineage, PutFile, Target, Blocked;
      ghost var before := system.vfs.platform.tree;
      var _ :- system.vfs.CreateDirAll(AppData.Root(app.id));
      ghost var made := system.vfs.platform.tree;
      assert HomeMade(app, before, made);
      r := system.vfs.Write(p, data);
      if r.Ok? {
        assert Put(made, p, data, system.vfs.platform.tree);
      }
    }

    method WriteAppdata(path: string, text: string) returns (r: Result<(), Error>)
      requires Valid()
      modifies system`input, system`clock, system`trace, system.security, system.vfs.platform,
               system.vfs.platform.persistence
      ensures Valid() && Accounted(CallWriteAppdata(path, text))
      ensures NothingDone(Since(|old(system.trace)|)) ==> system.vfs.platform.tree == old(system.vfs.platform.tree)
      ensures r.Ok? ==>
                && AppData.Resolve(app.id, path).Ok?
                && var p, root := AppData.Resolve(app.id, path).value, AppData.Root(app.id);
                && Did(AppdataWrite(p, Utf8.Encode(text)), |old(system.trace)|)
                && system.vfs.platform.tree ==
                   PutFile(AddLineage(old(system.vfs.platform.tree), Target(root)), Target(p), Utf8.Encode(text))
      ensures match AppData.Resolve(app.id, path)
              case Err(e) => r == Err(e) && NothingDone(Since(|old(system.trace)|))
              case Ok(p) =>
                && Did(AppdataWrite(p, Utf8.Encode(text)), |old(system.trace)|)
                && (r.Err? ==>
                      || !old(system.vfs.CanMakeDirs(AppData.Root(app.id)))
                      || (system.vfs.platform.tree ==
                            AddLineage(old(system.vfs.platform.tree), Target(AppData.Root(app.id)))
                          && !system.vfs.CanPut(p, Utf8.Encode(text))))
    {
      hide L.Paced, Tally, AllAccepted, Authorised, Typed, NothingDone, EffectOf, Wrought, WellFormed, Lands, RouteOf,
           Blocked, Canonical, Normalized, AddLineage, PutFile, Target, Utf8.Encode;
      Quiet(app, system.CurrentGate(), system.trace, system.security.tries);
      NothingWrought(app, system.vfs.platform.tree);
      var p :- ResolveAppdata(path);
      var data := Utf8.Encode(text);
      var _ := system.Permit(app, AppdataWrite(p, data));
      r := StoreData(p, data);
    }
  }

  lemma LineForApplication(app: AppIdentity, gate: Gate, line: string, tries: seq<L.Try>)
    ensures Tally(tries, gate, [Entered(line)]) == tries
    ensures NothingDone([Entered(line)]) && Authorised(app, gate, [Entered(line)]) && Typed([Entered(line)]) == [line]
    ensures EffectOf([Entered(line)]) == None
  {
    NoAttempt(tries, gate, [Entered(line)]);
  }

  lemma Quiet(app: AppIdentity, gate: Gate, trace: seq<Event>, tries: seq<L.Try>)
    ensures Tally(tries, gate, trace[|trace|..]) == tries
    ensures Authorised(app, gate, trace[|trace|..]) && Typed(trace[|trace|..]) == [] && NothingDone(trace[|trace|..])
    ensures EffectOf(trace[|trace|..]) == None
  {
  }

  /* ----- Whole sessions ----- */

  method Perform(session: AppSession, call: Call)
    requires session.Valid()
    modifies session, session.system`input, session.system`clock, session.system`trace, session.system.security,
             session.system.vfs.platform, session.system.vfs.platform.persistence
    ensures session.Valid() && session.Accounted(call)
  {
    hide L.Paced, Tally, AllAccepted, Authorised, NothingDone, EffectOf, Wrought, Answers, Canonical, Normalized, Typed,
         WellFormed, RouteOf, PutFile, AddLineage;
    match call {
      case CallReadLine => var _ := session.ConsoleReadLine();
      case CallRead(path) => var _ := session.ReadFile(path);
      case CallList(path) => var _ := session.ListFiles(path);
      case CallWrite(path, text) => var _ := session.WriteFile(path, text);
      case CallCreateDirs(path) => var _ := session.CreateDirs(path);
      case CallRemove(path) => var _ := session.Remove(path);
      case CallRename(from, to) => var _ := session.Rename(from, to);
      case CallClock => var _ := session.MonotonicMillis();
      case CallInfo => var _ := session.SystemInformation();
      case CallConnect(host, port, connected) => var _ := session.NetConnect(host, port, connected);
      case CallReadAppdata(path) => var _ := session.ReadAppdata(path);
      case CallWriteAppdata(path, text) => var _ := session.WriteAppdata(path, text);
    }
  }

  /** One call: what it added to the trace, and what storage held before and after it. */
  datatype Piece = Piece(events: seq<Event>, before: FileTree, after: FileTree)

  /** A call is authorised against the storage that it found, and does to it what its effect does and no more. */
  ghost predicate Sound(app: AppIdentity, derive: Derive, p: Piece) {
    && WellFormed(p.before) && WellFormed(p.after)
    && Authorised(app, Gate(p.before, derive), p.events)
    && Wrought(app, EffectOf(p.events), p.before, p.after)
  }

  /** The pieces follow one another from one storage to another. */
  ghost predicate Chained(pieces: seq<Piece>, first: FileTree, last: FileTree) {
    if pieces == [] then first == last
    else pieces[|pieces| - 1].after == last && Chained(pieces[..|pieces| - 1], first, pieces[|pieces| - 1].before)
  }

  function EventsOf(pieces: seq<Piece>): seq<Event> {
    if pieces == [] then [] else EventsOf(pieces[..|pieces| - 1]) + pieces[|pieces| - 1].events
  }

  lemma PiecesSnoc(pieces: seq<Piece>, p: Piece, first: FileTree)
    requires Chained(pieces, first, p.before)
    ensures Chained(pieces + [p], first, p.after)
    ensures EventsOf(pieces + [p]) == EventsOf(pieces) + p.events
  {
    assert (pieces + [p])[..|pieces|] == pieces;
  }

  /**
   * In every run of a session the trace is made of one piece for each call, which ends in that call's own effect or in
   * none, and each piece is authorised by itself against the password that storage held when it began. The answers are
   * the lines typed during the run, each used once and in order, so no answer serves two effects. Every password stays
   * on record until one is let through, and no effect is done on a password that the limiter refused.
   */
  method PerformAll(session: AppSession, calls: seq<Call>) returns (ghost pieces: seq<Piece>)
    requires session.Valid()
    modifies session, session.system`input, session.system`clock, session.system`trace, session.system.security,
             session.system.vfs.platform, session.system.vfs.platform.persistence
    ensures session.Valid()
    ensures session.system.trace == old(session.system.trace) + EventsOf(pieces)
    ensures old(session.system.input) == Typed(EventsOf(pieces)) + session.system.input
    ensures |pieces| == |calls| && forall p <- pieces :: Sound(session.app, session.system.derive, p)
    ensures forall i | 0 <= i < |calls| :: Answers(session.cwd, session.app, calls[i], pieces[i].events)
    ensures Chained(pieces, old(session.system.vfs.platform.tree), session.system.vfs.platform.tree)
    ensures old(session.system.Paced()) ==>
              && session.system.Paced()
              && session.system.security.tries
                 == TallyPieces(old(session.system.security.tries), session.system.derive, pieces)
              && HeededPieces(old(session.system.security.tries), session.system.derive, pieces)
  {
    hide L.Paced, Tally, AllAccepted, TallyPieces, HeededPieces, Authorised, Canonical, WellFormed, Typed, Chained,
         EventsOf, Wrought, EffectOf, Answers;
    pieces := [];
    ghost var tries := session.system.security.tries;
    NoPieces(session.system.vfs.platform.tree);
    NoPiecesTallied(tries, session.system.derive);
    for i := 0 to |calls|
      invariant session.Valid()
      invariant session.system.trace == old(session.system.trace) + EventsOf(pieces)
      invariant old(session.system.input) == Typed(EventsOf(pieces)) + session.system.input
      invariant |pieces| == i && forall p <- pieces :: Sound(session.app, session.system.derive, p)
      invariant forall j | 0 <= j < i :: Answers(session.cwd, session.app, calls[j], pieces[j].events)
      invariant Chained(pieces, old(session.system.vfs.platform.tree), session.system.vfs.platform.tree)
      invariant old(session.system.Paced()) ==>
                  && session.system.Paced()
                  && session.system.security.tries == TallyPieces(tries, session.system.derive, pieces)
                  && HeededPieces(tries, session.system.derive, pieces)
    {
      ghost var before, tree := session.system.trace, session.system.vfs.platform.tree;
      Perform(session, calls[i]);
      ghost var piece := Piece(session.Since(|before|), tree, session.system.vfs.platform.tree);
      assert session.system.trace == before + piece.events;
      PiecesSnoc(pieces, piece, old(session.system.vfs.platform.tree));
      TypedConcat(EventsOf(pieces), piece.events);
      if old(session.system.Paced()) {
        PiecesTallied(tries, session.system.derive, pieces, piece);
      }
      pieces := pieces + [piece];
    }
  }

  /** The attempts on record after the calls. */
  function TallyPieces(tries: seq<L.Try>, derive: Derive, pieces: seq<Piece>): seq<L.Try> {
    if pieces == [] then tries
    else
      var last := pieces[|pieces| - 1];
      Tally(TallyPieces(tries, derive, pieces[..|pieces| - 1]), Gate(last.before, derive), last.events)
  }

  /** No call did anything on a password that the limiter refused. */
  ghost predicate HeededPieces(tries: seq<L.Try>, derive: Derive, pieces: seq<Piece>) {
    pieces != [] ==>
      && var k := |pieces| - 1;
      && HeededPieces(tries, derive, pieces[..k])
      && (EffectOf(pieces[k].events).Some? ==>
            AllAccepted(TallyPieces(tries, derive, pieces[..k]), Gate(pieces[k].before, derive), pieces[k].events))
  }

  lemma NoPiecesTallied(tries: seq<L.Try>, derive: Derive)
    ensures TallyPieces(tries, derive, []) == tries && HeededPieces(tries, derive, [])
  {
  }

  lemma PiecesTallied(tries: seq<L.Try>, derive: Derive, pieces: seq<Piece>, p: Piece)
    requires HeededPieces(tries, derive, pieces)
    requires EffectOf(p.events).Some? ==>
               AllAccepted(TallyPieces(tries, derive, pieces), Gate(p.before, derive), p.events)
    ensures TallyPieces(tries, derive, pieces + [p])
         == Tally(TallyPieces(tries, derive, pieces), Gate(p.before, derive), p.events)
    ensures HeededPieces(tries, derive, pieces + [p])
  {
    hide Tally, AllAccepted, EffectOf;
    assert (pieces + [p])[..|pieces|] == pieces;
  }

  lemma NoPieces(t: FileTree)
    ensures Chained([], t, t) && EventsOf([]) == [] && Typed([]) == []
  {
  }

  lemma {:induction false} GrantsAloneDoNothing(gate: Gate, events: seq<Event>, requests: seq<Request>)
    requires GrantedAll(gate, events, requests)
    ensures NothingDone(events) && |events| == 3 * |requests|
    decreases |requests|
  {
    if requests != [] {
      GrantsAloneDoNothing(gate, events[3..], requests[1..]);
      assert events == events[..3] + events[3..];
      assert forall e <- events[..3] :: e == events[0] || e == events[1] || e == events[2];
    }
  }

  /**
   * An effect of an untrusted application is the last event of its piece, every request it needs is declared and
   * clear of the password file, and right before it stand a question, a yes and a password check for each of them.
   */
  lemma EffectNeedsGrants(app: AppIdentity, gate: Gate, events: seq<Event>, k: nat)
    requires Authorised(app, gate, events) && !app.trusted && k < |events| && events[k].Done?
    ensures k == |events| - 1 == 3 * |Required(events[k].effect)|
    ensures forall r <- Required(events[k].effect) :: Allowed(app, r)
    ensures GrantedAll(gate, events[..k], Required(events[k].effect))
  {
    hide Granted, Allowed, Required, PathsFixed, OwnData;
    assert events[k] in events;
    var last := |events| - 1;
    GrantsAloneDoNothing(gate, events[..last], Required(events[last].effect));
    forall i | 0 <= i < last ensures !events[i].Done? {
      assert events[i] == events[..last][i] && events[..last][i] in events[..last];
    }
  }
}
