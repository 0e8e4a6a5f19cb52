/** Renaming as an exact relocation of a file or of a whole directory. */
module Rename {
  import opened Words
  import opened Codec
  import opened Paths
  import opened Tree

  /** The path with its leading `from` replaced by `to`. */
  function Rebased(path: string, from: string, to: string): string {
    if |from| <= |path| && path[..|from|] == from then to + path[|from|..] else to
  }

  /** Neither path is the other or lies under it. */
  predicate Apart(from: string, to: string) {
    from != to && !Under(to, from) && !Under(from, to)
  }

  /* ----- Rebasing ----- */

  lemma RebasedInverse(p: string, from: string, to: string)
    requires Inside(p, from)
    ensures Inside(Rebased(p, from, to), to)
    ensures Under(p, from) <==> Under(Rebased(p, from, to), to)
    ensures Rebased(Rebased(p, from, to), to, from) == p
  {
    var r := Rebased(p, from, to);
    assert r[..|to|] == to && r[|to|..] == p[|from|..];
    assert p == from + p[|from|..];
  }

  lemma RebasedRel(p: string, from: string, to: string)
    requires IsRel(p) && IsRel(to) && Inside(p, from)
    ensures IsRel(Rebased(p, from, to))
  {
    if p == from {
      assert Rebased(p, from, to) == to;
    } else {
      var rest := p[|from| + 1..];
      UnderRel(p, from);
      UnderSplits(p, from);
      assert Rebased(p, from, to) == to + "/" + rest;
      SplitConcat(to, rest);
    }
  }

  /** An ancestor of a rebased path is a rebased ancestor or an ancestor of the destination. */
  lemma RebasedAncestor(p: string, from: string, to: string, q: string)
    requires Inside(p, from) && Under(Rebased(p, from, to), q)
    ensures || Under(to, q)
            || (Inside(q, to) && Inside(Rebased(q, to, from), from) && Under(p, Rebased(q, to, from)))
  {
    var r := Rebased(p, from, to);
    assert r[..|to|] == to && r[|to|..] == p[|from|..];
    if |q| < |to| {
      assert to[..|q|] == q && to[|q|] == '/';
    } else {
      assert q[..|to|] == to;
      var back := Rebased(q, to, from);
      assert back == from + q[|to|..] && q[|to|..] == r[|to|..|q|];
      assert back == p[..|back|];
      assert p[|back|] == r[|q|];
      if |q| > |to| {
        assert q[|to|] == p[|from|];
      }
    }
  }

  lemma NotInsideBoth(p: string, from: string, to: string)
    requires Apart(from, to) && Inside(p, from)
    ensures !Inside(p, to)
  {
    if Inside(p, to) && p != from && p != to {
      if |from| < |to| {
        UnderNested(p, to, from);
      } else if |to| < |from| {
        UnderNested(p, from, to);
      }
    }
  }

  /* ----- Relocating ----- */

  function Relocate(paths: set<string>, from: string, to: string): set<string> {
    (set p | p in paths && !Inside(p, from)) + (set p | p in paths && Inside(p, from) :: Rebased(p, from, to))
  }

  /** Where the file that ends up at q came from. */
  function Origin(q: string, from: string, to: string): string {
    if Inside(q, to) then Rebased(q, to, from) else q
  }

  /** Nothing is at or under `to`. */
  ghost predicate ClearOf(paths: set<string>, to: string) {
    forall p <- paths :: !Inside(p, to)
  }

  /** The tree with everything at or under `from` moved to `to`. */
  ghost function Relocated(t: FileTree, from: string, to: string): FileTree
    requires Apart(from, to) && ClearOf(t.files.Keys, to) && ClearOf(t.directories, to)
  {
    FileTree(map q | q in Relocate(t.files.Keys, from, to) ::
               OriginExists(t.files.Keys, from, to, q);
               t.files[Origin(q, from, to)],
             Relocate(t.directories, from, to))
  }

  /** Where the path p goes. */
  function Destination(p: string, from: string, to: string): string {
    if Inside(p, from) then Rebased(p, from, to) else p
  }

  lemma OriginExists(paths: set<string>, from: string, to: string, q: string)
    requires Apart(from, to) && ClearOf(paths, to) && q in Relocate(paths, from, to)
    ensures Origin(q, from, to) in paths
    ensures Destination(Origin(q, from, to), from, to) == q
  {
    hide Inside, Rebased, Apart;
    if q in paths && !Inside(q, from) {
    } else {
      var p :| p in paths && Inside(p, from) && q == Rebased(p, from, to);
      RebasedInverse(p, from, to);
    }
  }

  lemma DestinationExists(paths: set<string>, from: string, to: string, p: string)
    requires Apart(from, to) && ClearOf(paths, to) && p in paths
    ensures Destination(p, from, to) in Relocate(paths, from, to)
    ensures Origin(Destination(p, from, to), from, to) == p
  {
    hide Rebased, Apart, Inside;
    if Inside(p, from) {
      RebasedInverse(p, from, to);
    }
  }

  /** Moving everything there and back again changes nothing. */
  lemma RelocateBack(paths: set<string>, from: string, to: string)
    requires Apart(from, to) && ClearOf(paths, to)
    ensures ClearOf(Relocate(paths, from, to), from)
    ensures Relocate(Relocate(paths, from, to), to, from) == paths
  {
    hide Rebased, Inside, Apart;
    var there := Relocate(paths, from, to);
    forall q | q in there ensures !Inside(q, from) {
      OriginExists(paths, from, to, q);
      if q !in paths || Inside(q, from) {
        var p :| p in paths && Inside(p, from) && q == Rebased(p, from, to);
        RebasedInverse(p, from, to);
        ApartSymmetric(from, to);
        NotInsideBoth(q, to, from);
      }
    }
    forall x ensures x in Relocate(there, to, from) <==> x in paths {
      if x in paths {
        DestinationExists(paths, from, to, x);
        var q := Destination(x, from, to);
        if Inside(x, from) {
          RebasedInverse(x, from, to);
        }
      }
      if x in Relocate(there, to, from) {
        if x in there && !Inside(x, to) {
          OriginExists(paths, from, to, x);
        } else {
          var q :| q in there && Inside(q, to) && x == Rebased(q, to, from);
          OriginExists(paths, from, to, q);
        }
      }
    }
  }

  lemma ApartSymmetric(from: string, to: string)
    requires Apart(from, to)
    ensures Apart(to, from)
  {
  }

  /**
   * Relocation is exact: every file reaches its destination with its content, every file of the result came from
   * exactly one file, and the same holds of directories.
   */
  lemma RelocatedExact(t: FileTree, from: string, to: string)
    requires Apart(from, to) && ClearOf(t.files.Keys, to) && ClearOf(t.directories, to)
    ensures var t' := Relocated(t, from, to);
            && (forall p <- t.files ::
                  Destination(p, from, to) in t'.files && t'.files[Destination(p, from, to)] == t.files[p])
            && (forall q <- t'.files ::
                  Origin(q, from, to) in t.files && Destination(Origin(q, from, to), from, to) == q)
            && (forall d <- t.directories :: Destination(d, from, to) in t'.directories)
            && (forall d <- t'.directories ::
                  Origin(d, from, to) in t.directories && Destination(Origin(d, from, to), from, to) == d)
  {
    hide Inside, Rebased, Apart, Relocate, Origin, Destination;
    var t' := Relocated(t, from, to);
    forall p | p in t.files
      ensures Destination(p, from, to) in t'.files && t'.files[Destination(p, from, to)] == t.files[p]
    {
      DestinationExists(t.files.Keys, from, to, p);
    }
    forall q | q in t'.files ensures Origin(q, from, to) in t.files && Destination(Origin(q, from, to), from, to) == q {
      OriginExists(t.files.Keys, from, to, q);
    }
    forall d | d in t.directories ensures Destination(d, from, to) in t'.directories {
      DestinationExists(t.directories, from, to, d);
    }
    forall d | d in t'.directories
      ensures Origin(d, from, to) in t.directories && Destination(Origin(d, from, to), from, to) == d
    {
      OriginExists(t.directories, from, to, d);
    }
  }

  lemma RelocatedBack(t: FileTree, from: string, to: string)
    requires Apart(from, to) && ClearOf(t.files.Keys, to) && ClearOf(t.directories, to)
    ensures var t' := Relocated(t, from, to);
            && Apart(to, from) && ClearOf(t'.files.Keys, from) && ClearOf(t'.directories, from)
            && Relocated(t', to, from) == t
  {
    hide Inside, Rebased, Apart, Relocate, Origin, Destination, ClearOf;
    ApartSymmetric(from, to);
    RelocateBack(t.files.Keys, from, to);
    RelocateBack(t.directories, from, to);
    var t' := Relocated(t, from, to);
    assert t'.files.Keys == Relocate(t.files.Keys, from, to);
    var t'' := Relocated(t', to, from);
    assert t''.files.Keys == t.files.Keys;
    forall p | p in t.files ensures t''.files[p] == t.files[p] {
      OriginExists(t'.files.Keys, to, from, p);
      OriginTwice(t, from, to, p);
    }
  }

  lemma OriginTwice(t: FileTree, from: string, to: string, p: string)
    requires Apart(from, to) && ClearOf(t.files.Keys, to) && p in t.files
    ensures Origin(Origin(p, to, from), from, to) == p
  {
    hide Rebased, Apart;
    if Inside(p, from) {
      RebasedInverse(p, from, to);
    }
  }

  /* ----- The rename operation ----- */

  /** What must hold once the destination's ancestors are in place. */
  ghost predicate Movable(t: FileTree, from: string, to: string) {
    && WellFormed(t) && Exists(t, from) && IsRel(to)
    && Apart(from, to) && ClearOf(t.files.Keys, to) && ClearOf(t.directories, to)
    && forall q | Under(to, q) :: q in t.directories
  }

  /** The checks that `storage_rename` makes before it moves anything are enough. */
  lemma ChecksSuffice(t: FileTree, from: string, to: string)
    requires WellFormed(t) && IsRel(to) && from != to
    requires !Exists(t, to) && !Under(to, from) && !Blocked(t, Parent(to)) && Exists(t, from)
    ensures Movable(AddLineage(t, Parent(to)), from, to)
  {
    hide IsRel, Lineage, Components, Parent, Blocked;
    var base := AddLineage(t, Parent(to));
    AddLineageWellFormed(t, Parent(to));
    forall q ensures q in Lineage(Components(Parent(to))) <==> Under(to, q) {
      ParentLineage(to, q);
    }
    assert !Exists(base, to);
    forall p | Exists(base, p) ensures !Inside(p, to) {
    }
  }

  lemma AncestorsStay(t: FileTree, from: string, to: string, q: string)
    requires Movable(t, from, to) && q in t.directories && !Inside(q, from)
    ensures q in Relocated(t, from, to).directories
  {
    hide WellFormed, Rebased, Inside, Apart, ClearOf, Under;
  }

  /** Every ancestor of a relocated path is a directory of the relocated tree. */
  lemma RelocatedClosed(t: FileTree, from: string, to: string, p: string, q: string)
    requires Movable(t, from, to) && Exists(t, p) && Under(Destination(p, from, to), q)
    ensures q in Relocated(t, from, to).directories
  {
    hide IsRel, Rebased, ClearOf;
    if !Inside(p, from) {
      assert q in t.directories;
      if Inside(q, from) && q != from {
        UnderTransitive(p, q, from);
      }
      AncestorsStay(t, from, to, q);
    } else {
      RebasedAncestor(p, from, to, q);
      if Under(to, q) {
        if Inside(q, from) && q != from {
          UnderTransitive(to, q, from);
        }
        AncestorsStay(t, from, to, q);
      } else {
        var back := Rebased(q, to, from);
        RebasedInverse(q, to, from);
        DestinationExists(t.directories, from, to, back);
      }
    }
  }

  lemma RelocatedWellFormed(t: FileTree, from: string, to: string)
    requires Movable(t, from, to)
    ensures WellFormed(Relocated(t, from, to))
  {
    hide IsRel, Rebased, Inside, Apart, ClearOf, Relocate, Origin, Destination;
    var t' := Relocated(t, from, to);
    RelocatedExact(t, from, to);
    forall q | Exists(t', q) ensures IsRel(q) && Exists(t, Origin(q, from, to)) {
      DestinationRel(t, from, to, Origin(q, from, to));
    }
    forall q, r | Exists(t', q) && Under(q, r) ensures r in t'.directories {
      RelocatedClosed(t, from, to, Origin(q, from, to), r);
    }
  }

  lemma DestinationRel(t: FileTree, from: string, to: string, p: string)
    requires Movable(t, from, to) && Exists(t, p)
    ensures IsRel(Destination(p, from, to))
  {
    hide IsRel, Rebased, Apart, ClearOf;
    if Inside(p, from) {
      RebasedRel(p, from, to);
    }
  }

  /** Nothing lies under a file, so moving one is a relocation too. */
  lemma FileMoveIsRelocation(t: FileTree, from: string, to: string)
    requires Movable(t, from, to) && from in t.files
    ensures Relocated(t, from, to) == t.(files := (t.files - {from})[to := t.files[from]])
  {
    hide IsRel, Apart;
    var t' := Relocated(t, from, to);
    assert forall p | Exists(t, p) && Inside(p, from) :: p == from;
    assert Rebased(from, from, to) == to;
    forall d ensures d in t'.directories <==> d in t.directories {
    }
    assert t'.directories == t.directories;
    var moved := (t.files - {from})[to := t.files[from]];
    forall q ensures q in t'.files <==> q in moved {
    }
    forall q | q in moved ensures t'.files[q] == moved[q] {
      if q == to {
        assert Origin(q, from, to) == from;
      }
    }
    assert t'.files == moved;
  }

  /** The tree that a rename which passes its checks leaves. */
  ghost function RenameTree(t: FileTree, from: string, to: string): FileTree
    requires Movable(AddLineage(t, Parent(to)), from, to)
  {
    Relocated(AddLineage(t, Parent(to)), from, to)
  }

  /**
   * A rename keeps the tree well formed, and renaming back passes every check and restores the files exactly;
   * of the directories only the ancestors made for the destination remain.
   */
  lemma RenameBackRestores(t: FileTree, from: string, to: string)
    requires WellFormed(t) && IsRel(to) && from != to
    requires !Exists(t, to) && !Under(to, from) && !Blocked(t, Parent(to)) && Exists(t, from)
    ensures Movable(AddLineage(t, Parent(to)), from, to)
    ensures var t' := RenameTree(t, from, to);
            && WellFormed(t') && !Exists(t', from) && !Under(from, to) && !Blocked(t', Parent(from)) && Exists(t', to)
            && Movable(AddLineage(t', Parent(from)), to, from)
            && RenameTree(t', to, from).files == t.files
            && RenameTree(t', to, from).directories == t.directories + Lineage(Components(Parent(to)))
  {
    hide IsRel, Lineage, Components, Parent, Relocated, Rebased, Blocked;
    ChecksSuffice(t, from, to);
    var base := AddLineage(t, Parent(to));
    var t' := RenameTree(t, from, to);
    RelocatedWellFormed(base, from, to);
    RelocatedBack(base, from, to);
    SourceGone(base, from, to);
    NotBlocked(t', from);
    AddLineageIdle(t', from);
    ChecksSuffice(t', to, from);
  }

  /** After the move the source is gone, the destination is there and the source's ancestors are still in place. */
  lemma SourceGone(t: FileTree, from: string, to: string)
    requires Movable(t, from, to)
    ensures var t' := Relocated(t, from, to);
            && IsRel(from) && !Exists(t', from) && Exists(t', to) && !Under(from, to)
            && forall q | Under(from, q) :: q in t'.directories
  {
    hide IsRel, ClearOf;
    var t' := Relocated(t, from, to);
    RelocatedBack(t, from, to);
    ClearOfMember(t'.files.Keys, from);
    ClearOfMember(t'.directories, from);
    assert Destination(from, from, to) == to;
    if from in t.files {
      DestinationExists(t.files.Keys, from, to, from);
    } else {
      DestinationExists(t.directories, from, to, from);
    }
    forall q | Under(from, q) ensures q in t'.directories {
      assert q in t.directories && !Inside(q, from);
    }
  }

  lemma ClearOfMember(paths: set<string>, from: string)
    requires ClearOf(paths, from)
    ensures from !in paths
  {
    assert Inside(from, from);
  }

  lemma NotBlocked(t: FileTree, path: string)
    requires WellFormed(t) && IsRel(path) && forall q | Under(path, q) :: q in t.directories
    ensures !Blocked(t, Parent(path))
  {
    hide IsRel, Lineage, Components, Parent, Under;
    forall q | q in Lineage(Components(Parent(path))) ensures q !in t.files {
      ParentLineage(path, q);
    }
  }

  lemma AddLineageIdle(t: FileTree, path: string)
    requires IsRel(path) && forall q | Under(path, q) :: q in t.directories
    ensures AddLineage(t, Parent(path)) == t
  {
    hide IsRel, Lineage, Components, Parent, Under;
    forall q | q in Lineage(Components(Parent(path))) ensures q in t.directories {
      ParentLineage(path, q);
    }
  }

  /* ----- Moving one path at a time ----- */

  /** The paths once those in `done` have been moved. */
  function MovedSoFar(paths: set<string>, done: seq<string>, from: string, to: string): set<string> {
    (set p | p in paths && p !in done) + (set p | p in done :: Rebased(p, from, to))
  }

  /** The removal and the insertion of one step never touch a path that an earlier step put in place. */
  lemma MoveOneMore(paths: set<string>, done: seq<string>, d: string, from: string, to: string)
    requires Apart(from, to) && (forall p <- done :: Inside(p, from)) && Inside(d, from)
    ensures MovedSoFar(paths, done, from, to) - {d} + {Rebased(d, from, to)}
         == MovedSoFar(paths, done + [d], from, to)
  {
    hide Inside, Rebased, Apart;
    forall p | p in done ensures Rebased(p, from, to) != d {
      RebasedInverse(p, from, to);
      NotInsideBoth(d, from, to);
    }
    var before, after := MovedSoFar(paths, done, from, to), MovedSoFar(paths, done + [d], from, to);
    forall x ensures x in before - {d} + {Rebased(d, from, to)} <==> x in after {
      assert d in done + [d];
      if x in after && x != Rebased(d, from, to) {
        if !(x in paths && x !in done + [d]) {
          var p :| p in done + [d] && x == Rebased(p, from, to);
          assert p in done;
        }
      }
    }
  }

  lemma AllMoved(paths: set<string>, done: seq<string>, from: string, to: string)
    requires forall p :: p in done <==> p in paths && Inside(p, from)
    ensures MovedSoFar(paths, done, from, to) == Relocate(paths, from, to)
  {
    hide Inside, Rebased;
  }

  lemma NoneMoved(paths: set<string>, from: string, to: string)
    ensures MovedSoFar(paths, [], from, to) == paths
  {
  }

  /** The files once those in `done` have been moved. */
  ghost predicate FilesSoFar(
    files: map<string, seq<Byte>>, done: seq<string>, from: string, to: string, now: map<string, seq<Byte>>)
  {
    && now.Keys == MovedSoFar(files.Keys, done, from, to)
    && forall q <- now :: Origin(q, from, to) in files && now[q] == files[Origin(q, from, to)]
  }

  lemma MoveOneMoreFile(
    files: map<string, seq<Byte>>, done: seq<string>, f: string, from: string, to: string,
    now: map<string, seq<Byte>>)
    requires Apart(from, to) && (forall p <- done :: Inside(p, from)) && Inside(f, from) && f in files
    requires FilesSoFar(files, done, from, to, now)
    ensures FilesSoFar(files, done + [f], from, to, (now - {f})[Rebased(f, from, to) := files[f]])
  {
    hide Inside, Rebased, Apart, MovedSoFar;
    MoveOneMore(files.Keys, done, f, from, to);
    RebasedInverse(f, from, to);
    var after := (now - {f})[Rebased(f, from, to) := files[f]];
    assert after.Keys == now.Keys - {f} + {Rebased(f, from, to)};
  }
}
