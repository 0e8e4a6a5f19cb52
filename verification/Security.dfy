/** The master password: its file, its verification and its change. */
module Security {
  import opened Wrappers
  import opened Words
  import opened Codec
  import opened Api
  import opened Paths
  import opened Normalize
  import opened Tree
  import opened Platform
  import opened Vfs
  import opened Hex
  import L = Limiter
  import Utf8

  const STORED_PATH := "user/config/security"
  const SECURITY_PATH := "/" + STORED_PATH
  const SALT_LEN: nat := 16
  const HASH_LEN: nat := 32
  const TAG := "AFOS-AUTH-1"

  /** The key-derivation function, taken as given. */
  type Derive = (string, seq<Byte>) -> Result<seq<Byte>, Error>

  datatype Verifier = Verifier(salt: seq<Byte>, hash: seq<Byte>)

  function ConfigText(v: Verifier): string {
    TAG + "\n" + (HexOf(v.salt) + "\n" + (HexOf(v.hash) + "\n" + ""))
  }

  function ParseConfig(text: string): Result<Verifier, Error> {
    var lines := Lines(text);
    if lines == [] || lines[0] != TAG || |lines| < 2 then Err(InvalidInput)
    else
      var salt :- DecodeHex(lines[1], SALT_LEN);
      if |lines| < 3 then Err(InvalidInput)
      else
        var hash :- DecodeHex(lines[2], HASH_LEN);
        Ok(Verifier(salt, hash))
  }

  lemma ConfigRoundTrip(v: Verifier)
    requires |v.salt| == SALT_LEN && |v.hash| == HASH_LEN
    ensures ParseConfig(ConfigText(v)) == Ok(v)
  {
    hide Lines, HexOf, DecodeHex;
    var third := HexOf(v.hash) + "\n" + "";
    var second := HexOf(v.salt) + "\n" + third;
    HexIsOneLine(v.salt);
    HexIsOneLine(v.hash);
    LinesOfText(TAG, second);
    LinesOfText(HexOf(v.salt), third);
    LinesOfText(HexOf(v.hash), "");
    NoLines();
    HexRoundTrip(v.salt);
    HexRoundTrip(v.hash);
  }

  /** The password file: a tag, 32 digits of salt and 64 digits of hash, each on a line of its own. */
  lemma ConfigLayout(v: Verifier)
    requires |v.salt| == 16 && |v.hash| == 32
    ensures ConfigText(v) == "AFOS-AUTH-1\n" + HexOf(v.salt) + "\n" + HexOf(v.hash) + "\n"
    ensures |HexOf(v.salt)| == 32 && |HexOf(v.hash)| == 64
    ensures SALT_LEN == 16 && HASH_LEN == 32
  {
    hide HexOf;
    HexLength(v.salt);
    HexLength(v.hash);
    assert TAG + "\n" == "AFOS-AUTH-1\n";
    assert HexOf(v.hash) + "\n" + "" == HexOf(v.hash) + "\n";
  }

  /** A text is read exactly when its first three lines are the tag, the salt and the hash. */
  lemma ParsesIff(text: string, v: Verifier)
    ensures ParseConfig(text) == Ok(v) <==>
            && |Lines(text)| >= 3 && Lines(text)[0] == "AFOS-AUTH-1"
            && SpellsBytes(Utf8.Encode(Lines(text)[1]), v.salt) && |v.salt| == 16
            && SpellsBytes(Utf8.Encode(Lines(text)[2]), v.hash) && |v.hash| == 32
  {
    hide Lines, DecodeHex, Utf8.Encode, SpellsBytes;
    if |Lines(text)| >= 3 {
      DecodesHexIff(Lines(text)[1], 16, v.salt);
      DecodesHexIff(Lines(text)[2], 32, v.hash);
    }
  }

  lemma NoLines()
    ensures Lines("") == []
  {
  }

  /** The verifier that storage holds, if it holds a readable one. */
  function StoredVerifier(t: FileTree): Result<Verifier, Error> {
    var bytes :- StoredBytes(t, STORED_PATH);
    match Utf8.Decode(bytes)
    case None => Err(InvalidInput)
    case Some(text) => ParseConfig(text)
  }

  /** Storage with the verifier's text in the password file. */
  function WithVerifier(t: FileTree, v: Verifier): FileTree {
    PutFile(t, STORED_PATH, Utf8.Encode(ConfigText(v)))
  }

  function WithoutVerifier(t: FileTree): FileTree {
    if Tree.Exists(t, STORED_PATH) then Without(t, STORED_PATH) else t
  }

  function Judge(t: FileTree, password: string, derive: Derive): Result<bool, Error> {
    var v :- StoredVerifier(t);
    var actual :- derive(password, v.salt);
    Ok(actual == v.hash)
  }

  function VerdictOf(judged: Result<bool, Error>): L.Verdict {
    match judged case Err(_) => L.Unreadable case Ok(b) => if b then L.Match else L.Mismatch
  }

  /** What `verify` returns for each outcome. */
  predicate Reports(outcome: L.Outcome, judged: Result<bool, Error>, r: Result<(), Error>) {
    match outcome
    case Refused(wait) => r == Err(RateLimited(wait))
    case Unevaluated => judged.Err? && r == Err(judged.error)
    case Accepted => r == Ok(())
    case Rejected => r == Err(AuthenticationFailed)
  }

  /** A refused attempt and one that could not be evaluated are neither right nor wrong. */
  function TryOf(now: nat, outcome: L.Outcome): L.Try {
    L.Try(now, if outcome.Rejected? then L.Mismatch else L.Unreadable)
  }

  const SECURITY_PARTS := ["user", "config", "security"]

  lemma SecurityNames()
    ensures AllProper(SECURITY_PARTS)
  {
  }

  lemma SecurityJoins()
    ensures Join(SECURITY_PARTS) == STORED_PATH
  {
    assert Join(["user"]) == "user" && Join(["config"]) == "config" && Join(["security"]) == "security";
    JoinConcat(["user"], ["config", "security"]);
    JoinConcat(["config"], ["security"]);
    assert ["user"] + ["config", "security"] == SECURITY_PARTS && ["config"] + ["security"] == ["config", "security"];
    assert "user" + "/" + ("config" + "/" + "security") == STORED_PATH;
  }

  /** The password file is reached through the writable mount. */
  lemma SecurityRoute()
    ensures Canonical(SECURITY_PATH)
    ensures Normalized("/", SECURITY_PATH) == Ok(SECURITY_PATH)
    ensures RouteOf(SECURITY_PATH) == Persistent(STORED_PATH) && IsRel(STORED_PATH)
  {
    hide Canonical, Normalized, Components, RouteOf, IsRel, AllProper, Join, STORED_PATH;
    SecurityNames();
    SecurityJoins();
    AbsoluteComponents(SECURITY_PARTS);
    CanonicalIsFixed("/", SECURITY_PATH);
    RouteByFirstComponent(SECURITY_PATH);
    assert SECURITY_PATH[1..] == STORED_PATH;
  }

  lemma StoredIsNoMount()
    ensures STORED_PATH != "apps" && STORED_PATH != "user"
  {
    assert |STORED_PATH| != |"apps"|;
  }

  class SecurityManager {
    var failedAttempts: nat
    var blockedUntil: nat
    ghost var tries: seq<L.Try> // the attempts since the last that succeeded; one that was refused was not evaluated

    constructor ()
      ensures State() == L.FRESH && tries == []
    {
      failedAttempts := 0;
      blockedUntil := 0;
      tries := [];
    }

    /** The attempts were made in the order of a clock that now shows `clock`, and led to the present state. */
    ghost predicate Paced(clock: nat)
      reads this
    {
      L.Paced(State(), tries, clock)
    }

    function State(): L.Limiter
      reads this
    {
      L.Limiter(failedAttempts, blockedUntil)
    }

    method HasPassword(vfs: VirtualFileSystem) returns (r: Result<bool, Error>)
      requires vfs.Valid()
      ensures r == Ok(Tree.Exists(vfs.platform.tree, STORED_PATH))
    {
      hide Normalized, Canonical, RouteOf;
      SecurityRoute();
      r := vfs.Exists(SECURITY_PATH);
    }

    method ReadVerifier(vfs: VirtualFileSystem) returns (r: Result<Verifier, Error>)
      requires vfs.Valid()
      ensures r == StoredVerifier(vfs.platform.tree)
    {
      hide Normalized, Canonical, RouteOf, ParseConfig, Utf8.Decode, StoredBytes, SECURITY_PATH;
      SecurityRoute();
      var bytes :- vfs.Read(SECURITY_PATH);
      var text := Utf8.Decode(bytes);
      if text.None? {
        return Err(InvalidInput);
      }
      return ParseConfig(text.value);
    }

    method Penalise(now: nat)
      modifies this`failedAttempts, this`blockedUntil
      ensures State() == L.Penalised(old(State()), now)
    {
      failedAttempts := if failedAttempts < U32_MAX then failedAttempts + 1 else U32_MAX;
      if failedAttempts >= 3 {
        var exponent := if failedAttempts - 3 < 5 then failedAttempts - 3 else 5;
        var delay := 1000 * Pow2(exponent);
        blockedUntil := if now + delay <= U64_MAX then now + delay else U64_MAX;
      }
    }

    /** Checks a password: one step of the limiter, and an error that says which. */
    method Verify(vfs: VirtualFileSystem, now: nat, password: string, derive: Derive) returns (r: Result<(), Error>)
      requires vfs.Valid()
      modifies this
      ensures var judged := Judge(vfs.platform.tree, password, derive);
              var step := L.Attempt(old(State()), now, VerdictOf(judged));
              && State() == step.next && Reports(step.outcome, judged, r)
              && tries == if step.outcome.Accepted? then [] else old(tries) + [TryOf(now, step.outcome)]
      ensures var judged := Judge(vfs.platform.tree, password, derive);
              r == if now < old(blockedUntil) then Err(RateLimited(old(blockedUntil) - now))
                   else match judged
                        case Err(e) => Err(e)
                        case Ok(right) => if right then Ok(()) else Err(AuthenticationFailed)
      ensures old(Paced(now)) ==> Paced(now)
    {
      hide StoredVerifier, L.Penalised, L.Paced;
      if Paced(now) {
        L.PacedOneMore(State(), tries, L.Try(now, L.Unreadable));
        L.PacedOneMore(State(), tries, L.Try(now, L.Mismatch));
      }
      L.PacedFresh(now);
      if now < blockedUntil {
        tries := tries + [L.Try(now, L.Unreadable)];
        return Err(RateLimited(blockedUntil - now));
      }
      var stored := ReadVerifier(vfs);
      if stored.Err? {
        tries := tries + [L.Try(now, L.Unreadable)];
        return Err(stored.error);
      }
      var actual := derive(password, stored.value.salt);
      if actual.Err? {
        tries := tries + [L.Try(now, L.Unreadable)];
        return Err(actual.error);
      }
      if actual.value == stored.value.hash {
        failedAttempts := 0;
        blockedUntil := 0;
        tries := [];
        return Ok(());
      }
      Penalise(now);
      tries := tries + [L.Try(now, L.Mismatch)];
      return Err(AuthenticationFailed);
    }

    /** Writes the verifier's text to the password file. */
    method StoreVerifier(vfs: VirtualFileSystem, v: Verifier) returns (r: Result<(), Error>)
      requires vfs.Valid() && |v.salt| == SALT_LEN && |v.hash| == HASH_LEN
      modifies vfs.platform, vfs.platform.persistence
      ensures vfs.Valid()
      ensures r.Err? ==> vfs.platform.tree == old(vfs.platform.tree)
      ensures r.Ok? ==> StoredVerifier(vfs.platform.tree) == Ok(v)
      ensures r.Ok? ==> Vacant(old(vfs.platform.tree), STORED_PATH)
      ensures r.Ok? ==> vfs.platform.tree == WithVerifier(old(vfs.platform.tree), v)
      ensures old(vfs.CanPut(SECURITY_PATH, Utf8.Encode(ConfigText(v)))) ==> r.Ok?
    {
      hide Normalized, Canonical, RouteOf, ParseConfig, Utf8.Decode, Utf8.Encode, Lineage, Components, Parent,
           SECURITY_PATH, WellFormed, HexOf, ConfigText, PutFile, StoredVerifier;
      SecurityRoute();
      var saltText := EncodeHex(v.salt);
      var hashText := EncodeHex(v.hash);
      var encoded := TAG + "\n" + (saltText + "\n" + (hashText + "\n" + ""));
      r := vfs.Write(SECURITY_PATH, Utf8.Encode(encoded));
      ConfigTextIs(v, encoded, saltText, hashText);
      if r.Ok? {
        VerifierStored(old(vfs.platform.tree), v);
      }
    }

    /** A new password is sure to be stored. */
    ghost predicate Settable(
      vfs: VirtualFileSystem, password: string, random: Result<seq<Byte>, Error>, derive: Derive)
      reads vfs.platform
    {
      if password == "" then Clearable(vfs)
      else
        && random.Ok? && derive(password, random.value).Ok?
        && var v := Verifier(random.value, derive(password, random.value).value);
        && vfs.CanPut(SECURITY_PATH, Utf8.Encode(ConfigText(v)))
    }

    ghost predicate Clearable(vfs: VirtualFileSystem)
      reads vfs.platform
    {
      Tree.Exists(vfs.platform.tree, STORED_PATH) ==> vfs.CanRemove(SECURITY_PATH)
    }

    /** Removes the password file if there is one. */
    method ClearVerifier(vfs: VirtualFileSystem) returns (r: Result<(), Error>)
      requires vfs.Valid()
      modifies vfs.platform, vfs.platform.persistence
      ensures vfs.Valid()
      ensures r.Err? ==> vfs.platform.tree == old(vfs.platform.tree)
      ensures r.Ok? ==> !Tree.Exists(vfs.platform.tree, STORED_PATH)
      ensures r.Ok? ==> vfs.platform.tree == WithoutVerifier(old(vfs.platform.tree))
      ensures old(Clearable(vfs)) ==> r.Ok?
    {
      hide Normalized, Canonical, RouteOf, WellFormed, SECURITY_PATH, STORED_PATH, Under, IsRel, PROTECTED_ROOTS;
      SecurityRoute();
      StoredIsNoMount();
      DisjointKinds(vfs.platform.tree, STORED_PATH);
      var present := vfs.Exists(SECURITY_PATH);
      if present == Ok(true) {
        r := vfs.Remove(SECURITY_PATH);
      } else {
        r := Ok(());
      }
    }

    /** Stores a verifier for a new password, or removes the stored one if the password is empty. */
    method SetPassword(vfs: VirtualFileSystem, password: string, random: Result<seq<Byte>, Error>, derive: Derive)
      returns (r: Result<(), Error>)
      requires vfs.Valid()
      requires random.Ok? ==> |random.value| == SALT_LEN
      requires forall p, s :: derive(p, s).Ok? ==> |derive(p, s).value| == HASH_LEN
      modifies this, vfs.platform, vfs.platform.persistence
      ensures vfs.Valid()
      ensures r.Err? ==> vfs.platform.tree == old(vfs.platform.tree) && State() == old(State())
      ensures r.Ok? ==> State() == L.FRESH
      ensures tries == if r.Ok? then [] else old(tries)
      ensures old(Settable(vfs, password, random, derive)) ==> r.Ok?
      ensures r.Ok? && password == "" ==>
                && !Tree.Exists(vfs.platform.tree, STORED_PATH)
                && vfs.platform.tree == WithoutVerifier(old(vfs.platform.tree))
      ensures r.Ok? && password != "" ==>
                && random.Ok? && derive(password, random.value).Ok?
                && var v := Verifier(random.value, derive(password, random.value).value);
                && StoredVerifier(vfs.platform.tree) == Ok(v) && Vacant(old(vfs.platform.tree), STORED_PATH)
                && vfs.platform.tree == WithVerifier(old(vfs.platform.tree), v)
    {
      hide StoredVerifier, WellFormed, WithVerifier, WithoutVerifier, Vacant;
      if password == "" {
        r := ClearVerifier(vfs);
        if r.Ok? {
          failedAttempts := 0;
          blockedUntil := 0;
          tries := [];
        }
        return;
      }
      if random.Err? {
        return Err(random.error);
      }
      var hash := derive(password, random.value);
      if hash.Err? {
        return Err(hash.error);
      }
      r := StoreVerifier(vfs, Verifier(random.value, hash.value));
      if r.Ok? {
        failedAttempts := 0;
        blockedUntil := 0;
        tries := [];
      }
    }
  }

  lemma ConfigTextIs(v: Verifier, encoded: string, saltText: string, hashText: string)
    requires saltText == HexOf(v.salt) && hashText == HexOf(v.hash)
    requires encoded == TAG + "\n" + (saltText + "\n" + (hashText + "\n" + ""))
    ensures encoded == ConfigText(v)
  {
  }

  /** A verifier written to the password file is read back from it. */
  lemma VerifierStored(t: FileTree, v: Verifier)
    requires WellFormed(t) && Vacant(t, STORED_PATH) && |v.salt| == SALT_LEN && |v.hash| == HASH_LEN
    ensures StoredVerifier(WithVerifier(t, v)) == Ok(v)
  {
    hide WellFormed, ConfigText, ParseConfig, Utf8.Encode, Utf8.Decode, PutFile, STORED_PATH, Parent, IsRel;
    SecurityRoute();
    ConfigRoundTrip(v);
    Utf8.DecodeEncode(ConfigText(v));
    PutFileWellFormed(t, STORED_PATH, Utf8.Encode(ConfigText(v)));
    DisjointKinds(WithVerifier(t, v), STORED_PATH);
  }

  /**
   * Once a password is set, the file that was written lets another pass exactly when the derivation cannot tell the
   * two apart; so the password itself passes.
   */
  lemma SetThenVerify(t: FileTree, set0: string, salt: seq<Byte>, password: string, derive: Derive)
    requires WellFormed(t) && Vacant(t, STORED_PATH) && |salt| == SALT_LEN
    requires derive(set0, salt).Ok? && |derive(set0, salt).value| == HASH_LEN && derive(password, salt).Ok?
    ensures Judge(WithVerifier(t, Verifier(salt, derive(set0, salt).value)), password, derive)
         == Ok(derive(password, salt) == derive(set0, salt))
  {
    hide WellFormed, Vacant, StoredVerifier, WithVerifier;
    VerifierStored(t, Verifier(salt, derive(set0, salt).value));
  }

  /** The password file is the same file with the same content. */
  ghost predicate KeepsPassword(t: FileTree, t': FileTree) {
    && STORED_PATH in t.files && STORED_PATH in t'.files
    && t'.files[STORED_PATH] == t.files[STORED_PATH]
  }
}
