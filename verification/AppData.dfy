/** Where an application's private data lives, and that it cannot leave it. */
module AppData {
  import opened Wrappers
  import opened Api
  import opened Paths
  import opened Normalize

  const APPDATA_PARTS := ["user", "appdata"]

  function Root(id: string): string {
    "/user/appdata/" + id
  }

  /** The identifiers that metadata parsing lets through: one path component without forbidden characters. */
  predicate IsId(id: string) {
    id != "" && NoSlash(id) && !HasForbidden(id)
  }

  /** `resolve_appdata`. */
  function Resolve(id: string, path: string): Result<string, Error> {
    var resolved :- Normalized(Root(id), path);
    if PathPrefix(Root(id), resolved) then Ok(resolved) else Err(PermissionDenied)
  }

  lemma RootNames()
    ensures AllProper(APPDATA_PARTS) && Join(APPDATA_PARTS) == "user/appdata"
  {
    JoinConcat(["user"], ["appdata"]);
    assert ["user"] + ["appdata"] == APPDATA_PARTS;
  }

  lemma RootParts(id: string)
    requires IsId(id)
    ensures Root(id) == Absolute(APPDATA_PARTS + [id])
    ensures Components(Root(id)) == APPDATA_PARTS + [id]
  {
    hide Components, Split;
    RootNames();
    JoinConcat(APPDATA_PARTS, [id]);
    var joined := Join(APPDATA_PARTS + [id]);
    assert Root(id) == "/" + ("user/appdata" + "/" + id);
    assert Names(APPDATA_PARTS + [id]);
    RootedComponents(APPDATA_PARTS + [id]);
  }

  lemma RootedComponents(parts: seq<string>)
    requires parts != [] && Names(parts)
    ensures Split("/" + Join(parts)) == [""] + parts
    ensures Components("/" + Join(parts)) == parts
  {
    assert "/" + Join(parts) == "" + "/" + Join(parts);
    SplitConcat("", Join(parts));
    SplitJoin(parts);
    assert Split("") == [""];
    NonEmptyConcat([""], parts);
    NonEmptyOfNames(parts);
  }

  /** The path that the VFS acts on, once it has normalised what `Resolve` gave. */
  function Reached(id: string, path: string): Result<string, Error> {
    var resolved :- Resolve(id, path);
    Normalized("/", resolved)
  }

  /**
   * For an identifier that is a proper name, whatever resolves is canonical, is itself the path that is acted on,
   * and lies at or under the application's own directory.
   */
  lemma Confined(id: string, path: string)
    requires IsId(id) && Proper(id) && Resolve(id, path).Ok?
    ensures Canonical(Resolve(id, path).value)
    ensures Reached(id, path) == Resolve(id, path)
    ensures ["user", "appdata", id] <= Components(Resolve(id, path).value)
  {
    hide Components, Split, Walk, Canonical, Normalized;
    RootNames();
    RootParts(id);
    AbsoluteComponents(APPDATA_PARTS + [id]);
    NormalizedIsCanonical(Root(id), path);
    var p := Resolve(id, path).value;
    PathPrefixIsComponentPrefix(Root(id), p);
    CanonicalIsFixed("/", p);
  }

  /** Two applications with different identifiers never reach a common path. */
  lemma Separate(id1: string, path1: string, id2: string, path2: string)
    requires IsId(id1) && Proper(id1) && IsId(id2) && Proper(id2) && id1 != id2
    requires Resolve(id1, path1).Ok? && Resolve(id2, path2).Ok?
    ensures Resolve(id1, path1).value != Resolve(id2, path2).value
  {
    hide Resolve, Components;
    Confined(id1, path1);
    Confined(id2, path2);
    var p := Components(Resolve(id1, path1).value);
    assert p[2] == (APPDATA_PARTS + [id1])[2] == id1;
  }

  /** Every path under the application's own directory can be named. */
  lemma Reachable(id: string, rest: seq<string>)
    requires IsId(id) && Proper(id) && AllProper(rest) && rest != []
    ensures Resolve(id, Join(rest)) == Ok(Absolute(["user", "appdata", id] + rest))
  {
    hide Components, Split, Walk, Canonical;
    RootNames();
    RootParts(id);
    var base := ["user", "appdata", id];
    assert base == APPDATA_PARTS + [id];
    AbsoluteComponents(base);
    AbsoluteComponents(base + rest);
    SplitJoin(rest);
    WalkOfProper(base, rest);
    JoinStartsProper(rest);
    PathPrefixIsComponentPrefix(Absolute(base), Absolute(base + rest));
  }

  lemma JoinStartsProper(rest: seq<string>)
    requires AllProper(rest) && rest != []
    ensures !IsAbsolute(Join(rest)) && !HasForbidden(Join(rest))
  {
    assert rest[0] in rest;
    if |rest| > 1 {
      assert Join(rest)[0] == rest[0][0];
    }
    assert rest[0][0] in rest[0];
    SplitJoin(rest);
    ForbiddenParts(Join(rest));
  }

  /* ----- Every identifier ----- */

  /** The directory that the identifier's own directory normalises to. */
  function Home(id: string): seq<string> {
    if id == "." then APPDATA_PARTS else if id == ".." then APPDATA_PARTS[..1] else APPDATA_PARTS + [id]
  }

  /** A walk that starts from some base ends with a leading part of it and proper names. */
  lemma {:induction false} WalkShape(base: seq<string>, extra: seq<string>, parts: seq<string>)
    returns (k: nat, names: seq<string>)
    requires AllProper(extra) && (forall c <- parts :: NoSlash(c) && !HasForbidden(c))
    requires Walk(base + extra, parts).Some?
    ensures k <= |base| && AllProper(names) && Walk(base + extra, parts).value == base[..k] + names
    decreases |parts|
  {
    var stack := base + extra;
    if parts == [] {
      k, names := |base|, extra;
      assert base[..k] == base;
    } else {
      assert parts[0] in parts;
      if IsSkipped(parts[0]) {
        k, names := WalkShape(base, extra, parts[1..]);
      } else if parts[0] != ".." {
        assert stack + [parts[0]] == base + (extra + [parts[0]]);
        k, names := WalkShape(base, extra + [parts[0]], parts[1..]);
      } else if extra != [] {
        assert stack[..|stack| - 1] == base + extra[..|extra| - 1];
        k, names := WalkShape(base, extra[..|extra| - 1], parts[1..]);
      } else {
        assert stack[..|stack| - 1] == base[..|base| - 1] + [];
        k, names := WalkShape(base[..|base| - 1], [], parts[1..]);
        assert base[..|base| - 1][..k] == base[..k];
      }
    }
  }

  /** Whatever resolves spells the own directory, component by component, and goes on with proper names. */
  lemma ResolvedShape(id: string, path: string) returns (rest: seq<string>)
    requires IsId(id) && Resolve(id, path).Ok?
    ensures AllProper(rest) && Resolve(id, path).value == "/" + Join(APPDATA_PARTS + [id] + rest)
  {
    hide Components, Split, Walk, Join, HasForbidden;
    var base := APPDATA_PARTS + [id];
    RootNames();
    RootParts(id);
    ForbiddenParts(path);
    SplitParts(path);
    var from := Base(Root(id), path);
    assert from + [] == from;
    var k, names := WalkShape(from, [], Split(path));
    var out := from[..k] + names;
    SpellsRoot(id, base, out);
    rest := out[|base|..];
    assert out == base + rest;
    forall c | c in rest ensures Proper(c) {
      var i :| 0 <= i < |rest| && rest[i] == c;
      assert out[|base| + i] == c;
    }
  }

  lemma SpellsRoot(id: string, base: seq<string>, out: seq<string>)
    requires IsId(id) && base == APPDATA_PARTS + [id] && Names(out) && Root(id) == "/" + Join(base)
    requires PathPrefix(Root(id), "/" + Join(out))
    ensures base <= out
  {
    RootNames();
    assert Names(base);
    JoinEmpty(out);
    assert ("/" + Join(out))[1..] == Join(out) && ("/" + Join(base))[1..] == Join(base);
    if out != [] {
      UnderIsComponentPrefix(out, base);
      if "/" + Join(out) != Root(id) {
        UnderShift("/" + Join(out), "/" + Join(base));
      }
    }
  }

  lemma WalkId(id: string)
    requires IsId(id)
    ensures Walk([], [""] + APPDATA_PARTS + [id]) == Some(Home(id))
  {
    hide Walk;
    RootNames();
    WalkConcat([], [""] + APPDATA_PARTS, [id]);
    WalkConcat([], [""], APPDATA_PARTS);
    WalkSkips([]);
    WalkOfProper([], APPDATA_PARTS);
    assert [] + APPDATA_PARTS == APPDATA_PARTS;
    WalkOne(APPDATA_PARTS, id);
  }

  /** Normalising the own directory's path and more names gives its home and those names. */
  lemma HomeNormalises(id: string, rest: seq<string>)
    requires IsId(id) && AllProper(rest)
    ensures Normalized("/", "/" + Join(APPDATA_PARTS + [id] + rest)) == Ok(Absolute(Home(id) + rest))
    ensures AllProper(Home(id) + rest)
  {
    hide Walk, Split, Join, Components, HasForbidden;
    RootNames();
    var full := APPDATA_PARTS + [id] + rest;
    assert Names(full) && forall c <- full :: !HasForbidden(c);
    RootedComponents(full);
    NoForbidden([""] + full, "/" + Join(full));
    assert [""] + full == [""] + APPDATA_PARTS + [id] + rest;
    WalkConcat([], [""] + APPDATA_PARTS + [id], rest);
    WalkId(id);
    WalkOfProper(Home(id), rest);
  }

  lemma NoForbidden(parts: seq<string>, s: string)
    requires Split(s) == parts && forall c <- parts :: c == "" || !HasForbidden(c)
    ensures !HasForbidden(s)
  {
    ForbiddenParts(s);
  }

  /** What any identifier reaches lies at or under its home. */
  lemma ReachedUnderHome(id: string, path: string)
    requires IsId(id) && Reached(id, path).Ok?
    ensures Canonical(Reached(id, path).value) && Home(id) <= Components(Reached(id, path).value)
  {
    hide Components, Split, Walk, Join, Canonical, Home, Normalized;
    var rest := ResolvedShape(id, path);
    HomeNormalises(id, rest);
    AbsoluteComponents(Home(id) + rest);
  }

  lemma NamesNormalise(id: string, rest: seq<string>)
    requires IsId(id) && AllProper(rest) && rest != []
    ensures Normalized(Root(id), Join(rest)) == Ok("/" + Join(APPDATA_PARTS + [id] + rest))
  {
    hide Components, Split, Walk, Join, HasForbidden;
    RootParts(id);
    var base := APPDATA_PARTS + [id];
    assert forall c <- rest :: NoSlash(c);
    SplitJoin(rest);
    WalkOfProper(base, rest);
    JoinStartsProper(rest);
  }

  lemma NamesUnderRoot(id: string, rest: seq<string>)
    requires IsId(id) && rest != []
    ensures PathPrefix(Root(id), "/" + Join(APPDATA_PARTS + [id] + rest))
  {
    hide Join;
    RootParts(id);
    var base := APPDATA_PARTS + [id];
    JoinConcat(base, rest);
    var p := Root(id) + "/" + Join(rest);
    assert p == "/" + Join(base + rest);
    assert p[..|Root(id)|] == Root(id) && p[|Root(id)|] == '/';
  }

  /** Every path under the home is reached. */
  lemma HomeReached(id: string, rest: seq<string>)
    requires IsId(id) && AllProper(rest) && rest != []
    ensures Reached(id, Join(rest)) == Ok(Absolute(Home(id) + rest))
  {
    hide Normalized, Join, Home, PathPrefix, IsId;
    NamesNormalise(id, rest);
    NamesUnderRoot(id, rest);
    HomeNormalises(id, rest);
  }

  /**
   * The confinement holds for every input exactly when the identifier is neither "." nor "..": with those two a plain
   * file name already reaches a path outside the directory the identifier spells.
   */
  lemma ConfinedIff(id: string)
    requires IsId(id)
    ensures (forall path | Reached(id, path).Ok? :: APPDATA_PARTS + [id] <= Components(Reached(id, path).value))
            <==> id != "." && id != ".."
  {
    hide Components, Reached, Canonical;
    forall path | Reached(id, path).Ok? && id != "." && id != ".."
      ensures APPDATA_PARTS + [id] <= Components(Reached(id, path).value)
    {
      ReachedUnderHome(id, path);
    }
    if id == "." || id == ".." {
      var f := "f";
      assert AllProper([f]) && Join([f]) == f;
      HomeReached(id, [f]);
      HomeNormalises(id, [f]);
      AbsoluteComponents(Home(id) + [f]);
      assert (APPDATA_PARTS + [id])[2] == id;
      assert !(APPDATA_PARTS + [id] <= Components(Reached(id, f).value));
    }
  }
}
