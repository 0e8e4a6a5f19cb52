/** Slash-separated paths: splitting, joining, and what a string prefix says about components. */
module Paths {

  /** The parts between slashes, as `str::split('/')` gives them: always at least one. */
  function Split(s: string): (r: seq<string>)
    ensures |r| >= 1
  {
    if s == "" then [""]
    else
      var rest := Split(s[1..]);
      if s[0] == '/' then [""] + rest else [[s[0]] + rest[0]] + rest[1..]
  }

  function Join(parts: seq<string>): string {
    if parts == [] then ""
    else if |parts| == 1 then parts[0]
    else parts[0] + "/" + Join(parts[1..])
  }

  predicate NoSlash(s: string) {
    '/' !in s
  }

  /** A list of nonempty names without slashes. */
  predicate Names(parts: seq<string>) {
    forall c <- parts :: c != "" && NoSlash(c)
  }

  lemma NamesPrefix(parts: seq<string>, k: nat)
    requires Names(parts) && k <= |parts|
    ensures Names(parts[..k])
  {
    assert forall c <- parts[..k] :: c in parts;
  }

  lemma {:induction false} SplitNoSlash(s: string)
    requires NoSlash(s)
    ensures Split(s) == [s]
  {
    if s != "" {
      SplitNoSlash(s[1..]);
      assert s == [s[0]] + s[1..];
    }
  }

  lemma {:induction false} SplitParts(s: string)
    ensures forall c <- Split(s) :: NoSlash(c)
  {
    if s != "" {
      SplitParts(s[1..]);
      var rest := Split(s[1..]);
      assert rest[0] in rest;
    }
  }

  lemma {:induction false} SplitConcat(a: string, b: string)
    ensures Split(a + "/" + b) == Split(a) + Split(b)
  {
    if a == "" {
      assert (a + "/" + b)[1..] == b;
    } else {
      assert (a + "/" + b)[1..] == a[1..] + "/" + b;
      SplitConcat(a[1..], b);
    }
  }

  lemma JoinHead(c: char, parts: seq<string>)
    requires parts != []
    ensures Join([[c] + parts[0]] + parts[1..]) == [c] + Join(parts)
  {
    var longer := [[c] + parts[0]] + parts[1..];
    assert longer[1..] == parts[1..];
    if |parts| > 1 {
      assert ([c] + parts[0]) + "/" + Join(parts[1..]) == [c] + (parts[0] + "/" + Join(parts[1..]));
    }
  }

  lemma {:induction false} JoinSplit(s: string)
    ensures Join(Split(s)) == s
  {
    if s != "" {
      var rest := Split(s[1..]);
      JoinSplit(s[1..]);
      assert s == [s[0]] + s[1..];
      if s[0] == '/' {
        assert ([""] + rest)[1..] == rest;
        assert "" + "/" + s[1..] == s;
      } else {
        JoinHead(s[0], rest);
      }
    }
  }

  lemma {:induction false} SplitJoin(parts: seq<string>)
    requires parts != [] && forall c <- parts :: NoSlash(c)
    ensures Split(Join(parts)) == parts
  {
    SplitNoSlash(parts[0]);
    if |parts| > 1 {
      SplitJoin(parts[1..]);
      SplitConcat(parts[0], Join(parts[1..]));
      assert parts == [parts[0]] + parts[1..];
    }
  }

  lemma {:induction false} JoinConcat(a: seq<string>, b: seq<string>)
    requires a != [] && b != []
    ensures Join(a + b) == Join(a) + "/" + Join(b)
  {
    assert (a + b)[1..] == a[1..] + b;
    if |a| == 1 {
      assert a[1..] + b == b;
    } else {
      JoinConcat(a[1..], b);
    }
  }

  lemma {:induction false} JoinEmpty(parts: seq<string>)
    requires Names(parts)
    ensures Join(parts) == "" <==> parts == []
  {
    if |parts| > 0 {
      assert parts[0] in parts;
    }
  }

  /* ----- Relative paths and ancestry ----- */

  /** A normalised path relative to the storage root: one or more names. */
  predicate IsRel(p: string) {
    Names(Split(p))
  }

  /** p starts with q and a slash. */
  predicate Under(p: string, q: string) {
    |q| < |p| && p[..|q|] == q && p[|q|] == '/'
  }

  /** p is `path` or lies under it. */
  predicate Inside(p: string, path: string) {
    p == path || Under(p, path)
  }

  lemma UnderSplits(p: string, q: string)
    requires Under(p, q)
    ensures p == q + "/" + p[|q| + 1..]
    ensures Split(p) == Split(q) + Split(p[|q| + 1..])
  {
    assert p == q + "/" + p[|q| + 1..];
    SplitConcat(q, p[|q| + 1..]);
  }

  lemma UnderRel(p: string, q: string)
    requires IsRel(p) && Under(p, q)
    ensures IsRel(q) && IsRel(p[|q| + 1..])
  {
    UnderSplits(p, q);
    assert forall c <- Split(q) :: c in Split(p);
    assert forall c <- Split(p[|q| + 1..]) :: c in Split(p);
  }

  lemma UnderTransitive(p: string, q: string, r: string)
    requires Under(p, q) && Under(q, r)
    ensures Under(p, r)
  {
  }

  /** Two ancestors of one path are nested. */
  lemma UnderNested(p: string, q: string, r: string)
    requires Under(p, q) && Under(p, r) && |r| < |q|
    ensures Under(q, r)
  {
  }

  /** On names, a string prefix up to a slash is a proper prefix of components. */
  lemma UnderIsComponentPrefix(ps: seq<string>, qs: seq<string>)
    requires ps != [] && qs != [] && Names(ps) && Names(qs)
    ensures Under(Join(ps), Join(qs)) <==> qs < ps
    ensures Join(ps) == Join(qs) <==> ps == qs
  {
    SplitJoin(ps);
    SplitJoin(qs);
    if Under(Join(ps), Join(qs)) {
      UnderSplits(Join(ps), Join(qs));
    }
    if qs < ps {
      assert ps == qs + ps[|qs|..];
      JoinConcat(qs, ps[|qs|..]);
    }
  }

  /** The nonempty parts of a path. */
  function NonEmpty(parts: seq<string>): (r: seq<string>)
    ensures forall c <- r :: c != "" && c in parts
  {
    if parts == [] then []
    else if parts[0] == "" then NonEmpty(parts[1..])
    else [parts[0]] + NonEmpty(parts[1..])
  }

  function Components(p: string): seq<string> {
    NonEmpty(Split(p))
  }

  lemma {:induction false} NonEmptyOfNames(parts: seq<string>)
    requires Names(parts)
    ensures NonEmpty(parts) == parts
  {
    if parts != [] {
      assert parts[0] in parts;
      NonEmptyOfNames(parts[1..]);
    }
  }

  lemma {:induction false} NonEmptyConcat(a: seq<string>, b: seq<string>)
    ensures NonEmpty(a + b) == NonEmpty(a) + NonEmpty(b)
  {
    if a == [] {
      assert a + b == b;
    } else {
      assert (a + b)[1..] == a[1..] + b;
      NonEmptyConcat(a[1..], b);
    }
  }

  lemma ComponentsAreNames(p: string)
    ensures Names(Components(p))
  {
    SplitParts(p);
  }

  lemma ComponentsOfRel(p: string)
    requires IsRel(p)
    ensures Components(p) == Split(p) && Join(Components(p)) == p
  {
    NonEmptyOfNames(Split(p));
    JoinSplit(p);
  }

  /** The paths that the leading components spell out, the whole one included. */
  function Lineage(parts: seq<string>): set<string> {
    set k | 1 <= k <= |parts| :: Join(parts[..k])
  }

  lemma LineageMember(parts: seq<string>, k: nat)
    requires 1 <= k <= |parts|
    ensures Join(parts[..k]) in Lineage(parts)
  {
  }

  /** The lineage of a path is the path and its ancestors. */
  lemma LineageIsAncestry(p: string, q: string)
    requires IsRel(p)
    ensures q in Lineage(Components(p)) <==> q == p || Under(p, q)
  {
    var parts := Components(p);
    ComponentsOfRel(p);
    if q in Lineage(parts) {
      var k :| 1 <= k <= |parts| && q == Join(parts[..k]);
      if k < |parts| {
        assert parts == parts[..k] + parts[k..];
        JoinConcat(parts[..k], parts[k..]);
      } else {
        assert parts[..k] == parts;
      }
    }
    if q == p {
      assert parts[..|parts|] == parts;
      LineageMember(parts, |parts|);
    }
    if Under(p, q) {
      UnderSplits(p, q);
      JoinSplit(q);
      assert parts[..|Split(q)|] == Split(q);
      LineageMember(parts, |Split(q)|);
    }
  }

  /** Everything before the last slash, or nothing. */
  function Parent(p: string): string {
    if p == "" then ""
    else if p[|p| - 1] == '/' then p[..|p| - 1]
    else Parent(p[..|p| - 1])
  }

  lemma {:induction false} ParentSplits(p: string) returns (last: string)
    ensures NoSlash(last)
    ensures NoSlash(p) ==> Parent(p) == ""
    ensures !NoSlash(p) ==> p == Parent(p) + "/" + last
  {
    if p == "" {
      last := "";
    } else {
      var front := p[..|p| - 1];
      assert p == front + [p[|p| - 1]];
      if p[|p| - 1] == '/' {
        last := "";
      } else {
        var tail := ParentSplits(front);
        last := tail + [p[|p| - 1]];
      }
    }
  }

  /** The ancestors of a path are its parent and the parent's ancestors. */
  lemma UnderParent(parent: string, last: string, q: string)
    requires NoSlash(last)
    ensures Under(parent + "/" + last, q) <==> q == parent || Under(parent, q)
  {
    var p := parent + "/" + last;
    assert p[..|parent|] == parent;
    assert forall i | |parent| < i < |p| :: p[i] == last[i - |parent| - 1];
    assert forall i | 0 <= i <= |parent| :: p[..i] == parent[..i];
  }

  lemma LineageOfNothing()
    ensures Lineage(Components("")) == {}
  {
    assert Components("") == [];
  }

  /** The lineage of the parent is the ancestors alone. */
  lemma ParentLineage(p: string, q: string)
    requires IsRel(p)
    ensures q in Lineage(Components(Parent(p))) <==> Under(p, q)
    ensures Parent(p) == "" || (IsRel(Parent(p)) && Under(p, Parent(p)))
  {
    hide Split, Components, Lineage, Parent, Under;
    var last := ParentSplits(p);
    if NoSlash(p) {
      LineageOfNothing();
      NeverUnder(p, q);
    } else {
      UnderParent(Parent(p), last, q);
      UnderParent(Parent(p), last, Parent(p));
      UnderRel(p, Parent(p));
      LineageIsAncestry(Parent(p), q);
    }
  }

  lemma NeverUnder(p: string, q: string)
    requires NoSlash(p)
    ensures !Under(p, q)
  {
  }
}
