/** The bare-metal file tree as a value: its invariant and what each storage operation makes of it. */
module Tree {
  import opened Words
  import opened Codec
  import opened Paths

  predicate Exists(t: FileTree, p: string) {
    p in t.files || p in t.directories
  }

  /** Files and directories are apart, every path is normalised, and every proper ancestor is a directory. */
  ghost predicate WellFormed(t: FileTree) {
    && t.files.Keys !! t.directories
    && (forall p | Exists(t, p) :: IsRel(p))
    && (forall p, q | Exists(t, p) && Under(p, q) :: q in t.directories)
  }

  /* ----- Adding ancestors ----- */

  function AddLineage(t: FileTree, path: string): FileTree {
    t.(directories := t.directories + Lineage(Components(path)))
  }

  /** Some leading part of the path is a file. */
  predicate Blocked(t: FileTree, path: string) {
    exists q <- Lineage(Components(path)) :: q in t.files
  }

  lemma LineageRel(path: string, p: string)
    requires p in Lineage(Components(path))
    ensures IsRel(p)
    ensures forall q | Under(p, q) :: q in Lineage(Components(path))
  {
    hide Components, Split, Join, Under;
    var parts := Components(path);
    ComponentsAreNames(path);
    var k :| 1 <= k <= |parts| && p == Join(parts[..k]);
    NamesPrefix(parts, k);
    SplitJoin(parts[..k]);
    forall q | Under(p, q) ensures q in Lineage(parts) {
      UnderRel(p, q);
      UnderSplits(p, q);
      JoinSplit(q);
      assert parts[..|Split(q)|] == Split(q);
      LineageMember(parts, |Split(q)|);
    }
  }

  lemma AddLineageWellFormed(t: FileTree, path: string)
    requires WellFormed(t) && !Blocked(t, path)
    ensures WellFormed(AddLineage(t, path)) && AddLineage(t, path).files == t.files
    ensures IsRel(path) ==>
              forall d :: d in AddLineage(t, path).directories <==> d in t.directories || d == path || Under(path, d)
  {
    hide Lineage, Components, IsRel, Under;
    var t' := AddLineage(t, path);
    forall p | Exists(t', p) ensures IsRel(p) {
      if !Exists(t, p) {
        LineageRel(path, p);
      }
    }
    forall p, q | Exists(t', p) && Under(p, q) ensures q in t'.directories {
      if !Exists(t, p) {
        LineageRel(path, p);
      }
    }
    if IsRel(path) {
      forall d ensures d in Lineage(Components(path)) <==> d == path || Under(path, d) {
        LineageIsAncestry(path, d);
      }
    }
  }

  /** A path is blocked exactly when a file is at it or at one of its ancestors. */
  lemma BlockedIff(t: FileTree, path: string)
    requires IsRel(path)
    ensures Blocked(t, path) <==> path in t.files || exists q <- t.files :: Under(path, q)
  {
    hide Lineage, Components, IsRel, Under;
    forall q ensures q in Lineage(Components(path)) <==> q == path || Under(path, q) {
      LineageIsAncestry(path, q);
    }
  }

  /* ----- Writing and removing ----- */

  function PutFile(t: FileTree, path: string, data: seq<Byte>): FileTree {
    var base := AddLineage(t, Parent(path));
    base.(files := base.files[path := data])
  }

  lemma PutFileWellFormed(t: FileTree, path: string, data: seq<Byte>)
    requires WellFormed(t) && IsRel(path) && path !in t.directories && !Blocked(t, Parent(path))
    ensures WellFormed(PutFile(t, path, data))
    ensures PutFile(t, path, data).files == t.files[path := data]
    ensures forall d :: d in PutFile(t, path, data).directories <==> d in t.directories || Under(path, d)
  {
    hide Lineage, Components, Parent, IsRel;
    var base := AddLineage(t, Parent(path));
    AddLineageWellFormed(t, Parent(path));
    forall q ensures q in Lineage(Components(Parent(path))) <==> Under(path, q) {
      ParentLineage(path, q);
    }
    assert !Under(path, path);
  }

  function RemoveSubtree(t: FileTree, path: string): FileTree {
    FileTree(map p | p in t.files && !Under(p, path) :: t.files[p],
             set d | d in t.directories && !Inside(d, path))
  }

  lemma RemoveSubtreeWellFormed(t: FileTree, path: string)
    requires WellFormed(t) && path in t.directories
    ensures WellFormed(RemoveSubtree(t, path))
    ensures forall p :: p in RemoveSubtree(t, path).directories <==> p in t.directories && !Inside(p, path)
    ensures forall p :: p in RemoveSubtree(t, path).files <==> p in t.files && !Inside(p, path)
    ensures forall p <- RemoveSubtree(t, path).files :: RemoveSubtree(t, path).files[p] == t.files[p]
  {
    var t' := RemoveSubtree(t, path);
    forall p, q | Exists(t', p) && Under(p, q) ensures q in t'.directories {
      assert Exists(t, p);
      if Under(q, path) {
        UnderTransitive(p, q, path);
      }
    }
  }

  function RemoveFile(t: FileTree, path: string): FileTree {
    t.(files := t.files - {path})
  }

  lemma RemoveFileWellFormed(t: FileTree, path: string)
    requires WellFormed(t) && path in t.files
    ensures WellFormed(RemoveFile(t, path)) && RemoveFile(t, path).directories == t.directories
    ensures forall p :: p in RemoveFile(t, path).files <==> p in t.files && p != path
    ensures forall p <- RemoveFile(t, path).files :: RemoveFile(t, path).files[p] == t.files[p]
  {
    var t' := RemoveFile(t, path);
    assert forall p | Exists(t', p) :: Exists(t, p);
  }
}
