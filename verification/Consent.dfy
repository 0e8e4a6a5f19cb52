/** What every effect of an application takes, written out effect by effect. */
module Consent {
  import opened Wrappers
  import opened Api
  import opened Paths
  import opened Normalize
  import opened Tree
  import opened Vfs
  import opened Security
  import opened Effects
  import opened Session
  import AppData

  /* ----- Answers ----- */

  /** "y" or "yes", each letter in either case. */
  predicate SpellsYes(line: string) {
    || (|line| == 1 && (line[0] == 'y' || line[0] == 'Y'))
    || (&& |line| == 3 && (line[0] == 'y' || line[0] == 'Y') && (line[1] == 'e' || line[1] == 'E')
        && (line[2] == 's' || line[2] == 'S'))
  }

  lemma IsYesIff(line: string)
    ensures IsYes(line) <==> SpellsYes(line)
    ensures !IsYes("") && !IsYes("n")
  {
    LowerIs('y');
    LowerIs('e');
    LowerIs('s');
  }

  lemma LowerIs(c: char)
    requires 'a' <= c <= 'z'
    ensures Lower(c) == c
    ensures forall d: char :: Lower(d) == c <==> d == c || d as int == c as int - 32
  {
  }

  /* ----- Declarations ----- */

  /** The same character, or the two cases of one ASCII letter. */
  predicate SameLetter(c: char, d: char) {
    c == d || ('A' <= c <= 'Z' && d as int == c as int + 32) || ('A' <= d <= 'Z' && c as int == d as int + 32)
  }

  predicate SameHost(a: string, b: string) {
    |a| == |b| && forall i | 0 <= i < |a| :: SameLetter(a[i], b[i])
  }

  /** The declared directory is the requested path or one of the directories above it. */
  predicate Encloses(prefix: string, path: string) {
    Normalized("/", prefix).Ok? && Components(Normalized("/", prefix).value) <= Components(path)
  }

  /** Reading admits reading, writing admits writing, and neither the other. */
  predicate Admits(declared: Capability, requested: Capability) {
    match requested
    case FsRead(path) => declared.FsRead? && Encloses(declared.path, path)
    case FsWrite(path) => declared.FsWrite? && Encloses(declared.path, path)
    case Clock => declared.Clock?
    case SystemInfo => declared.SystemInfo?
    case Network(host) => declared.Network? && (declared.host == "*" || SameHost(declared.host, host))
  }

  lemma CoversIff(declared: Capability, requested: Capability)
    requires requested.FsRead? || requested.FsWrite? ==> Canonical(requested.path)
    ensures Covers(declared, requested) <==> Admits(declared, requested)
  {
    hide Canonical, Components, Normalized, PathPrefix;
    match (declared, requested) {
      case (FsRead(prefix), FsRead(path)) => EnclosesIff(prefix, path);
      case (FsWrite(prefix), FsWrite(path)) => EnclosesIff(prefix, path);
      case (Network(pattern), Network(host)) => SameHostIff(pattern, host);
      case _ =>
    }
  }

  lemma EnclosesIff(prefix: string, path: string)
    requires Canonical(path)
    ensures Encloses(prefix, path) <==>
            Normalized("/", prefix).Ok? && PathPrefix(Normalized("/", prefix).value, path)
  {
    hide Canonical, Components, Normalized, PathPrefix;
    if Normalized("/", prefix).Ok? {
      RootCanonical();
      NormalizedIsCanonical("/", prefix);
      PathPrefixIsComponentPrefix(Normalized("/", prefix).value, path);
    }
  }

  lemma SameHostIff(a: string, b: string)
    ensures EqIgnoreAsciiCase(a, b) <==> SameHost(a, b)
  {
    forall i | 0 <= i < |a| && i < |b| ensures Lower(a[i]) == Lower(b[i]) <==> SameLetter(a[i], b[i]) {
      SameLetterIff(a[i], b[i]);
    }
  }

  lemma SameLetterIff(c: char, d: char)
    ensures Lower(c) == Lower(d) <==> SameLetter(c, d)
  {
  }

  /* ----- Effects ----- */

  /** One question, one yes, and the password that storage verifies, if it holds one. */
  ghost predicate Consented(gate: Gate, events: seq<Event>, capability: Capability, resource: string) {
    && |events| == 3 && events[0] == Asked(Request(capability, resource))
    && events[1].Answered? && SpellsYes(events[1].line)
    && if Tree.Exists(gate.tree, STORED_PATH)
       then events[2].Password? && Judge(gate.tree, events[2].line, gate.derive) == Ok(true)
       else events[2] == Unprotected
  }

  /** The application declared the capability and, unless it is trusted, the user consented to it in these events. */
  ghost predicate Cleared(
    app: AppIdentity, gate: Gate, events: seq<Event>, capability: Capability, resource: string)
  {
    && (exists declared <- app.capabilities :: Admits(declared, capability))
    && if app.trusted then events == [] else Consented(gate, events, capability, resource)
  }

  /** Neither the password file nor anything below it. */
  predicate NotSecurity(path: string) {
    !(["user", "config", "security"] <= Components(path))
  }

  /** What must stand right before an effect is done. */
  ghost predicate Sanctioned(app: AppIdentity, gate: Gate, before: seq<Event>, e: Effect) {
    match e
    case ReadText(p) => NotSecurity(p) && Cleared(app, gate, before, FsRead(p), p)
    case ListDir(p) => NotSecurity(p) && Cleared(app, gate, before, FsRead(p), p)
    case WriteText(p, _) => NotSecurity(p) && Cleared(app, gate, before, FsWrite(p), p)
    case MakeDirs(p) => NotSecurity(p) && Cleared(app, gate, before, FsWrite(p), p)
    case RemovePath(p) => NotSecurity(p) && Cleared(app, gate, before, FsWrite(p), p)
    case RenamePath(from, to) =>
      && NotSecurity(from) && NotSecurity(to)
      && var half := if app.trusted then 0 else 3;
         |before| == 2 * half
         && Cleared(app, gate, before[..half], FsWrite(from), from)
         && Cleared(app, gate, before[half..], FsWrite(to), to)
    case ReadClock => Cleared(app, gate, before, Clock, "monotonic clock")
    case ReadInfo => Cleared(app, gate, before, SystemInfo, "system information")
    case Connect(host, port) => Cleared(app, gate, before, Network(host), host + ":" + Decimal(port))
    case AppdataRead(p) => before == [] && exists path :: AppData.Resolve(app.id, path) == Ok(p)
    case AppdataWrite(p, _) => before == [] && exists path :: AppData.Resolve(app.id, path) == Ok(p)
  }

  lemma GrantedIsConsent(gate: Gate, events: seq<Event>, r: Request)
    requires Granted(gate, events, r)
    ensures Consented(gate, events, r.capability, r.resource)
  {
    hide IsYes, Judge, STORED_PATH, SpellsYes;
    IsYesIff(events[1].line);
  }

  /** A request that the checks let through, and its grant. */
  lemma AllowedIsCleared(app: AppIdentity, gate: Gate, events: seq<Event>, r: Request)
    requires r.capability.FsRead? || r.capability.FsWrite? ==> Canonical(r.capability.path)
    requires Allowed(app, r) && if app.trusted then events == [] else Granted(gate, events, r)
    ensures Cleared(app, gate, events, r.capability, r.resource)
  {
    hide Canonical, Granted, Consented, IsSecret, Covers, Admits;
    var declared :| declared in app.capabilities && Covers(declared, r.capability);
    CoversIff(declared, r.capability);
    if !app.trusted {
      GrantedIsConsent(gate, events, r);
    }
  }

  lemma FixedIsCanonical(p: string)
    requires ActsOn(p)
    ensures Canonical(p)
  {
    hide Canonical, Normalized;
    RootCanonical();
    NormalizedIsCanonical("/", p);
  }

  lemma NotSecretIff(p: string)
    requires Canonical(p)
    ensures NotSecurity(p) <==> !IsSecret(p)
  {
    hide Canonical, Components, SECURITY_PATH;
    SecurityRoute();
    SecurityIsNotRoot();
    SecurityComponents();
    PathPrefixIsComponentPrefix(SECURITY_PATH, p);
  }

  lemma SecurityIsNotRoot()
    ensures SECURITY_PATH != "/"
  {
  }

  lemma SecurityComponents()
    ensures Components(SECURITY_PATH) == ["user", "config", "security"]
  {
    hide Components, STORED_PATH;
    SecurityNames();
    SecurityJoins();
    AbsoluteComponents(SECURITY_PARTS);
  }

  /** The checks let a request through exactly when it was declared and is clear of the password file. */
  lemma AllowedIff(app: AppIdentity, r: Request)
    requires r.capability.FsRead? || r.capability.FsWrite? ==>
               r.resource == r.capability.path && Canonical(r.resource)
    ensures Allowed(app, r) <==>
            && (exists declared <- app.capabilities :: Admits(declared, r.capability))
            && if r.capability.FsRead? || r.capability.FsWrite? then NotSecurity(r.resource) else !IsSecret(r.resource)
  {
    hide Canonical, Covers, Admits, IsSecret, NotSecurity;
    forall declared | declared in app.capabilities
      ensures Covers(declared, r.capability) <==> Admits(declared, r.capability)
    {
      CoversIff(declared, r.capability);
    }
    if r.capability.FsRead? || r.capability.FsWrite? {
      NotSecretIff(r.resource);
    }
  }

  lemma OneGrant(gate: Gate, events: seq<Event>, r: Request)
    requires GrantedAll(gate, events, [r])
    ensures Granted(gate, events, r)
  {
    hide Granted;
    assert [r][1..] == [];
    assert events[..3] == events;
  }

  lemma TwoGrants(gate: Gate, events: seq<Event>, r: Request, q: Request)
    requires GrantedAll(gate, events, [r, q])
    ensures |events| == 6 && Granted(gate, events[..3], r) && Granted(gate, events[3..], q)
  {
    assert [r, q][1..] == [q];
    OneGrant(gate, events[3..], q);
    assert |events[3..]| == 3;
  }

  lemma OneRequest(app: AppIdentity, gate: Gate, before: seq<Event>, r: Request)
    requires r.capability.FsRead? || r.capability.FsWrite? ==> Canonical(r.capability.path)
    requires Allowed(app, r) && if app.trusted then before == [] else GrantedAll(gate, before, [r])
    ensures Cleared(app, gate, before, r.capability, r.resource)
  {
    hide Canonical, Granted, Allowed, Cleared;
    if !app.trusted {
      OneGrant(gate, before, r);
    }
    AllowedIsCleared(app, gate, before, r);
  }

  lemma PathRequest(app: AppIdentity, gate: Gate, before: seq<Event>, r: Request, p: string)
    requires (r == Request(FsRead(p), p) || r == Request(FsWrite(p), p)) && ActsOn(p)
    requires Allowed(app, r) && if app.trusted then before == [] else GrantedAll(gate, before, [r])
    ensures NotSecurity(p) && Cleared(app, gate, before, r.capability, p)
  {
    hide Canonical, GrantedAll, Declares, Cleared, ActsOn, NotSecurity, IsSecret;
    FixedIsCanonical(p);
    NotSecretIff(p);
    OneRequest(app, gate, before, r);
  }

  lemma RenameRequests(app: AppIdentity, gate: Gate, before: seq<Event>, p: string, q: string)
    requires ActsOn(p) && ActsOn(q)
    requires Allowed(app, Request(FsWrite(p), p)) && Allowed(app, Request(FsWrite(q), q))
    requires if app.trusted then before == []
             else GrantedAll(gate, before, [Request(FsWrite(p), p), Request(FsWrite(q), q)])
    ensures Sanctioned(app, gate, before, RenamePath(p, q))
  {
    hide Canonical, GrantedAll, Declares, Cleared, ActsOn, NotSecurity, IsSecret, Granted;
    FixedIsCanonical(p);
    FixedIsCanonical(q);
    NotSecretIff(p);
    NotSecretIff(q);
    if !app.trusted {
      TwoGrants(gate, before, Request(FsWrite(p), p), Request(FsWrite(q), q));
    }
    var half := if app.trusted then 0 else 3;
    AllowedIsCleared(app, gate, before[..half], Request(FsWrite(p), p));
    AllowedIsCleared(app, gate, before[half..], Request(FsWrite(q), q));
  }

  /**
   * An effect is done only when, for each thing it touches, the application declared the capability for it and, unless
   * it is trusted, the user was asked for exactly that, said yes, and gave the password if there is one.
   */
  lemma EffectIsSanctioned(app: AppIdentity, gate: Gate, before: seq<Event>, e: Effect)
    requires Authorised(app, gate, before + [Done(e)])
    ensures Sanctioned(app, gate, before, e)
  {
    hide Allowed, GrantedAll, Cleared, ActsOn, NotSecurity;
    var events := before + [Done(e)];
    assert events[|before|] == Done(e) && events[|before|] in events;
    assert events[..|before|] == before;
    assert forall r <- Required(e) :: Allowed(app, r);
    match e {
      case ReadText(p) => PathRequest(app, gate, before, Required(e)[0], p);
      case ListDir(p) => PathRequest(app, gate, before, Required(e)[0], p);
      case WriteText(p, _) => PathRequest(app, gate, before, Required(e)[0], p);
      case MakeDirs(p) => PathRequest(app, gate, before, Required(e)[0], p);
      case RemovePath(p) => PathRequest(app, gate, before, Required(e)[0], p);
      case RenamePath(p, q) =>
        assert Required(e)[0] in Required(e) && Required(e)[1] in Required(e);
        RenameRequests(app, gate, before, p, q);
      case ReadClock => OneRequest(app, gate, before, Required(e)[0]);
      case ReadInfo => OneRequest(app, gate, before, Required(e)[0]);
      case Connect(_, _) => OneRequest(app, gate, before, Required(e)[0]);
      case _ => NoGrant(gate, before);
    }
  }

  lemma NoGrant(gate: Gate, events: seq<Event>)
    ensures GrantedAll(gate, events, []) <==> events == []
  {
  }

  /* ----- Ports ----- */

  /** A port is shown in decimal digits without a leading zero. */
  lemma {:induction false} DecimalSpells(n: nat)
    ensures DecimalValue(Decimal(n)) == n && (forall c <- Decimal(n) :: '0' <= c <= '9')
    ensures Decimal(n) != "" && (n > 0 ==> Decimal(n)[0] != '0')
  {
    DigitIs(n % 10);
    if n < 10 {
      assert Decimal(n)[..0] == "";
    } else {
      DecimalSpells(n / 10);
      assert Decimal(n)[..|Decimal(n)| - 1] == Decimal(n / 10);
    }
  }

  lemma DigitIs(d: nat)
    requires d < 10
    ensures "0123456789"[d] as int == '0' as int + d
  {
  }
}
