/** Path normalisation as a stack of components, and what it guarantees. */
module Normalize {
  import opened Wrappers
  import opened Api
  import opened Paths

  predicate HasForbidden(s: string) {
    '\0' in s || '\\' in s
  }

  predicate IsAbsolute(s: string) {
    s != "" && s[0] == '/'
  }

  predicate IsSkipped(part: string) {
    part == "" || part == "."
  }

  /** Runs the components on the stack; popping an empty stack fails. */
  function Walk(stack: seq<string>, parts: seq<string>): Option<seq<string>>
    decreases |parts|
  {
    if parts == [] then Some(stack)
    else if IsSkipped(parts[0]) then Walk(stack, parts[1..])
    else if parts[0] == ".." then
      if stack == [] then None else Walk(stack[..|stack| - 1], parts[1..])
    else Walk(stack + [parts[0]], parts[1..])
  }

  function Base(cwd: string, input: string): seq<string> {
    if IsAbsolute(input) then [] else Components(cwd)
  }

  function Normalized(cwd: string, input: string): Result<string, Error> {
    if HasForbidden(input) then Err(InvalidPath)
    else
      match Walk(Base(cwd, input), Split(input))
      case None => Err(InvalidPath)
      case Some(stack) => Ok("/" + Join(stack))
  }

  method NormalizePath(cwd: string, input: string) returns (r: Result<string, Error>)
    ensures r == Normalized(cwd, input)
  {
    if HasForbidden(input) {
      return Err(InvalidPath);
    }
    var components: seq<string> := [];
    if !IsAbsolute(input) {
      var parts := Split(cwd);
      for i := 0 to |parts|
        invariant components == NonEmpty(parts[..i])
      {
        assert parts[..i + 1] == parts[..i] + [parts[i]];
        NonEmptyConcat(parts[..i], [parts[i]]);
        if parts[i] != "" {
          components := components + [parts[i]];
        }
      }
      assert parts[..|parts|] == parts;
    }
    var steps := Split(input);
    for i := 0 to |steps|
      invariant Walk(Base(cwd, input), steps) == Walk(components, steps[i..])
    {
      assert steps[i..][1..] == steps[i + 1..];
      if IsSkipped(steps[i]) {
      } else if steps[i] == ".." {
        if components == [] {
          return Err(InvalidPath);
        }
        components := components[..|components| - 1];
      } else {
        components := components + [steps[i]];
      }
    }
    return Ok("/" + Join(components));
  }

  lemma WalkOne(stack: seq<string>, c: string)
    requires stack != []
    ensures Walk(stack, [c]) ==
            Some(if IsSkipped(c) then stack else if c == ".." then stack[..|stack| - 1] else stack + [c])
  {
    assert [c][1..] == [];
  }

  lemma WalkFromRoot(c: string)
    ensures Walk([], [c]) == if IsSkipped(c) then Some([]) else if c == ".." then None else Some([c])
  {
    assert [c][1..] == [] && [] + [c] == [c];
  }

  /* ----- Canonical paths ----- */

  /** A name that normalisation leaves alone. */
  predicate Proper(part: string) {
    part != "" && part != "." && part != ".." && NoSlash(part) && !HasForbidden(part)
  }

  predicate AllProper(parts: seq<string>) {
    forall c <- parts :: Proper(c)
  }

  /** The absolute path with the given components. */
  function Absolute(parts: seq<string>): string {
    "/" + Join(parts)
  }

  predicate Canonical(p: string) {
    IsAbsolute(p) && AllProper(Components(p)) && p == Absolute(Components(p))
  }

  lemma AbsoluteComponents(parts: seq<string>)
    requires AllProper(parts)
    ensures Components(Absolute(parts)) == parts && Canonical(Absolute(parts))
  {
    var p := Absolute(parts);
    if parts == [] {
      assert p == "/";
      assert Split("/") == ["", ""];
    } else {
      assert Names(parts);
      assert p == "" + "/" + Join(parts);
      SplitConcat("", Join(parts));
      SplitJoin(parts);
      assert Split("") == [""];
      NonEmptyConcat([""], parts);
      NonEmptyOfNames(parts);
    }
  }

  lemma {:induction false} ForbiddenParts(s: string)
    ensures HasForbidden(s) <==> exists c <- Split(s) :: HasForbidden(c)
  {
    if s != "" {
      ForbiddenParts(s[1..]);
      var rest := Split(s[1..]);
      assert s == [s[0]] + s[1..];
      if s[0] == '/' {
        assert forall c :: c in Split(s) <==> c == "" || c in rest;
      } else {
        var parts := Split(s);
        assert parts[0] == [s[0]] + rest[0] && parts[0] in parts && rest[0] in rest;
        assert forall c <- rest :: c == rest[0] || c in parts;
        assert forall c <- parts :: c == parts[0] || c in rest;
      }
    } else {
      assert "" in Split(s);
    }
  }

  lemma {:induction false} WalkProper(stack: seq<string>, parts: seq<string>)
    requires AllProper(stack)
    requires forall c <- parts :: NoSlash(c) && !HasForbidden(c)
    requires Walk(stack, parts).Some?
    ensures AllProper(Walk(stack, parts).value)
    decreases |parts|
  {
    if parts != [] {
      assert parts[0] in parts;
      if IsSkipped(parts[0]) {
        WalkProper(stack, parts[1..]);
      } else if parts[0] == ".." {
        WalkProper(stack[..|stack| - 1], parts[1..]);
      } else {
        WalkProper(stack + [parts[0]], parts[1..]);
      }
    }
  }

  lemma {:induction false} WalkOfProper(stack: seq<string>, parts: seq<string>)
    requires AllProper(parts)
    ensures Walk(stack, parts) == Some(stack + parts)
    decreases |parts|
  {
    if parts == [] {
      assert stack + parts == stack;
    } else {
      assert parts[0] in parts;
      WalkOfProper(stack + [parts[0]], parts[1..]);
      assert stack + [parts[0]] + parts[1..] == stack + parts;
    }
  }

  lemma {:induction false} WalkConcat(stack: seq<string>, a: seq<string>, b: seq<string>)
    ensures Walk(stack, a + b) ==
            match Walk(stack, a) case None => None case Some(s) => Walk(s, b)
    decreases |a|
  {
    if a == [] {
      assert a + b == b;
    } else {
      assert (a + b)[1..] == a[1..] + b;
      if IsSkipped(a[0]) {
        WalkConcat(stack, a[1..], b);
      } else if a[0] == ".." {
        if stack != [] {
          WalkConcat(stack[..|stack| - 1], a[1..], b);
        }
      } else {
        WalkConcat(stack + [a[0]], a[1..], b);
      }
    }
  }

  /** From a canonical directory, normalisation gives a canonical path. */
  lemma NormalizedIsCanonical(cwd: string, input: string)
    requires Canonical(cwd) && Normalized(cwd, input).Ok?
    ensures Canonical(Normalized(cwd, input).value)
    ensures Walk(Base(cwd, input), Split(input)) == Some(Components(Normalized(cwd, input).value))
  {
    hide Split, Walk, Canonical, Components;
    ForbiddenParts(input);
    SplitParts(input);
    BaseProper(cwd, input);
    WalkProper(Base(cwd, input), Split(input));
    AbsoluteComponents(Walk(Base(cwd, input), Split(input)).value);
  }

  lemma BaseProper(cwd: string, input: string)
    requires Canonical(cwd)
    ensures AllProper(Base(cwd, input))
  {
  }

  /** A canonical path is a fixed point, from anywhere. */
  lemma CanonicalIsFixed(cwd: string, p: string)
    requires Canonical(p)
    ensures Normalized(cwd, p) == Ok(p)
  {
    hide Split, Walk;
    var parts := Components(p);
    CanonicalSplits(p);
    WalkOfProper([], parts);
    WalkConcat([], [""], if parts == [] then [""] else parts);
    WalkSkips([]);
    ForbiddenParts(p);
    assert [] + parts == parts;
  }

  lemma WalkSkips(stack: seq<string>)
    ensures Walk(stack, [""]) == Some(stack)
  {
    assert [""][1..] == [];
  }

  lemma CanonicalSplits(p: string)
    requires Canonical(p)
    ensures var parts := Components(p); Split(p) == [""] + (if parts == [] then [""] else parts)
  {
    var parts := Components(p);
    assert p == "" + "/" + Join(parts);
    SplitConcat("", Join(parts));
    assert Split("") == [""];
    if parts != [] {
      SplitJoin(parts);
    }
  }

  /** Going to `a` and then to a relative `b` is going to `a/b`, success or failure. */
  lemma NormalizedComposes(cwd: string, a: string, b: string)
    requires Canonical(cwd) && a != "" && !IsAbsolute(b)
    ensures Normalized(cwd, a + "/" + b) ==
            match Normalized(cwd, a)
            case Err(e) => Err(e)
            case Ok(p) => Normalized(p, b)
  {
    hide Split, Walk, Canonical, Components;
    var both := a + "/" + b;
    SplitConcat(a, b);
    WalkConcat(Base(cwd, a), Split(a), Split(b));
    assert IsAbsolute(both) <==> IsAbsolute(a);
    assert HasForbidden(both) <==> HasForbidden(a) || HasForbidden(b);
    if Normalized(cwd, a).Ok? {
      NormalizedIsCanonical(cwd, a);
    }
  }

  /* ----- One name at a time ----- */

  /**
   * From a canonical directory one name leads to the entry of that name, "." and the empty name stay, ".." leads to
   * the directory above, and above the root there is none.
   */
  lemma NormalizedName(cwd: string, name: string)
    requires Canonical(cwd) && NoSlash(name)
    ensures var parts := Components(cwd);
            Normalized(cwd, name) ==
            if '\0' in name || '\\' in name then Err(InvalidPath)
            else if name == "" || name == "." then Ok(cwd)
            else if name != ".." then Ok(Absolute(parts + [name]))
            else if cwd == "/" then Err(InvalidPath)
            else Ok(Absolute(parts[..|parts| - 1]))
  {
    hide Split, Components, Walk, Join;
    SplitNoSlash(name);
    var parts := Components(cwd);
    JoinEmpty(parts);
    assert cwd == "/" + Join(parts) && !IsAbsolute(name);
    if parts == [] {
      WalkFromRoot(name);
      assert parts + [name] == [name];
    } else {
      WalkOne(parts, name);
    }
  }

  /** An absolute path is one that starts from the root, wherever one is. */
  lemma NormalizedAbsolute(cwd: string, rest: string)
    ensures !IsAbsolute(rest) ==> Normalized(cwd, "/" + rest) == Normalized("/", rest)
  {
    hide Split;
    assert "" + "/" + rest == "/" + rest;
    SplitConcat("", rest);
    SplitNoSlash("");
    SplitConcat("", "");
    assert "" + "/" + "" == "/";
    WalkConcat([], [""], Split(rest));
    WalkSkips([]);
  }

  /* ----- When it fails ----- */

  /** How much a component raises the depth of the stack. */
  function Step(part: string): int {
    if IsSkipped(part) then 0 else if part == ".." then -1 else 1
  }

  function Rise(parts: seq<string>): int {
    if parts == [] then 0 else Step(parts[0]) + Rise(parts[1..])
  }

  /** Some leading part of the walk goes above the root. */
  ghost predicate Escapes(depth: nat, parts: seq<string>) {
    exists k | 0 <= k <= |parts| :: depth + Rise(parts[..k]) < 0
  }

  lemma EscapesUnfolds(depth: nat, parts: seq<string>)
    requires parts != []
    ensures var d := depth + Step(parts[0]);
            Escapes(depth, parts) <==> d < 0 || Escapes(d, parts[1..])
  {
    var d := depth + Step(parts[0]);
    assert Rise(parts[..1]) == Step(parts[0]) by {
      assert parts[..1] == [parts[0]] && [parts[0]][1..] == [];
    }
    forall k | 1 <= k <= |parts| ensures depth + Rise(parts[..k]) == d + Rise(parts[1..][..k - 1]) {
      assert parts[..k][1..] == parts[1..][..k - 1] && parts[..k][0] == parts[0];
    }
    if Escapes(depth, parts) {
      var k :| 0 <= k <= |parts| && depth + Rise(parts[..k]) < 0;
      assert k != 0;
      assert d + Rise(parts[1..][..k - 1]) < 0;
    }
    if d < 0 {
      assert depth + Rise(parts[..1]) < 0;
    } else if Escapes(d, parts[1..]) {
      var k :| 0 <= k <= |parts[1..]| && d + Rise(parts[1..][..k]) < 0;
      assert depth + Rise(parts[..k + 1]) < 0;
    }
  }

  lemma {:induction false} WalkFailsIff(stack: seq<string>, parts: seq<string>)
    ensures Walk(stack, parts).None? <==> Escapes(|stack|, parts)
    decreases |parts|
  {
    hide Escapes;
    if parts == [] {
      NothingEscapes(|stack|);
    } else {
      EscapesUnfolds(|stack|, parts);
      if IsSkipped(parts[0]) {
        WalkFailsIff(stack, parts[1..]);
      } else if parts[0] == ".." {
        if stack != [] {
          WalkFailsIff(stack[..|stack| - 1], parts[1..]);
        }
      } else {
        WalkFailsIff(stack + [parts[0]], parts[1..]);
      }
    }
  }

  lemma NothingEscapes(depth: nat)
    ensures !Escapes(depth, [])
  {
  }

  /** Normalisation fails exactly on a forbidden character or on a step above the root. */
  lemma FailsIff(cwd: string, input: string)
    ensures Normalized(cwd, input).Err? <==>
            '\0' in input || '\\' in input || Escapes(|Base(cwd, input)|, Split(input))
    ensures Normalized(cwd, input).Err? ==> Normalized(cwd, input).error == InvalidPath
  {
    hide Split, Walk, Escapes;
    WalkFailsIff(Base(cwd, input), Split(input));
  }

  /* ----- Prefix tests ----- */

  /** `is_path_prefix`. */
  predicate IsPathPrefix(prefix: string, path: string) {
    Inside(path, prefix)
  }

  /** `path_prefix`, which also lets the root cover everything. */
  predicate PathPrefix(prefix: string, path: string) {
    prefix == "/" || Inside(path, prefix)
  }

  /** On canonical paths the string test is the component test. */
  lemma PathPrefixIsComponentPrefix(prefix: string, path: string)
    requires Canonical(prefix) && Canonical(path)
    ensures PathPrefix(prefix, path) <==> Components(prefix) <= Components(path)
    ensures prefix != "/" ==> (IsPathPrefix(prefix, path) <==> Components(prefix) <= Components(path))
  {
    hide Components;
    var ps, qs := Components(path), Components(prefix);
    assert prefix == "/" <==> qs == [] by {
      if qs != [] {
        JoinEmpty(qs);
      }
    }
    if qs != [] {
      JoinEmpty(qs);
      UnderShift(path, prefix);
      if ps != [] {
        UnderIsComponentPrefix(ps, qs);
      } else {
        assert path == "/";
      }
    }
  }

  lemma UnderShift(p: string, q: string)
    requires IsAbsolute(p) && IsAbsolute(q)
    ensures Under(p, q) <==> Under(p[1..], q[1..])
    ensures p == q <==> p[1..] == q[1..]
  {
    assert p == ['/'] + p[1..] && q == ['/'] + q[1..];
    if |q| < |p| {
      assert p[..|q|] == ['/'] + p[1..][..|q| - 1];
    }
  }
}
