/** The read-only `/sys` file table that the boot loader supplies. */
module SystemTable {
  import opened Wrappers
  import opened Words
  import opened Order
  import opened Api
  import opened Paths
  import opened Listing

  datatype EmbeddedFile = EmbeddedFile(path: string, data: seq<Byte>)

  /** The first file of that path. */
  function SystemFile(files: seq<EmbeddedFile>, path: string): Option<EmbeddedFile> {
    if files == [] then None
    else if files[0].path == path then Some(files[0])
    else SystemFile(files[1..], path)
  }

  function Slashed(path: string): string {
    if path != "" && path[|path| - 1] == '/' then path else path + "/"
  }

  predicate SystemDirExists(files: seq<EmbeddedFile>, path: string) {
    exists f <- files :: Slashed(path) <= f.path
  }

  /** The first component after the prefix, unless it is empty. */
  function ChildName(path: string, prefix: string): Option<string> {
    if prefix <= path && Split(path[|prefix|..])[0] != "" then Some(Split(path[|prefix|..])[0]) else None
  }

  lemma ChildNameIff(path: string, prefix: string, n: string)
    ensures ChildName(path, prefix) == Some(n) <==> IsName(n) && (path == prefix + n || Under(path, prefix + n))
  {
    if prefix <= path {
      var rest := path[|prefix|..];
      assert path == prefix + rest;
      SplitParts(rest);
      HeadOfSplit(rest, n);
      UnderAfter(prefix, rest, n);
    }
    if Under(path, prefix + n) {
      assert path[..|prefix|] == prefix;
    }
  }

  lemma UnderAfter(prefix: string, rest: string, n: string)
    ensures Under(prefix + rest, prefix + n) <==> Under(rest, n)
    ensures prefix + rest == prefix + n <==> rest == n
  {
    var path := prefix + rest;
    assert path[|prefix|..] == rest && (prefix + n)[|prefix|..] == n;
    if |n| <= |rest| {
      assert path[..|prefix| + |n|] == prefix + rest[..|n|];
      assert (prefix + rest[..|n|])[|prefix|..] == rest[..|n|];
    }
  }

  lemma HeadOfSplit(s: string, n: string)
    ensures NoSlash(n) ==> (Split(s)[0] == n <==> s == n || Under(s, n))
  {
    if NoSlash(n) {
      SplitNoSlash(n);
      if Under(s, n) {
        UnderSplits(s, n);
      }
      if Split(s)[0] == n {
        JoinSplit(s);
        var parts := Split(s);
        if |parts| > 1 {
          assert parts == [n] + parts[1..];
          JoinConcat([n], parts[1..]);
        }
      }
    }
  }

  /** The first file that makes the name appear under the prefix. */
  function FirstUnder(files: seq<EmbeddedFile>, prefix: string, n: string): Option<EmbeddedFile> {
    if files == [] then None
    else if ChildName(files[0].path, prefix) == Some(n) then Some(files[0])
    else FirstUnder(files[1..], prefix, n)
  }

  function SystemEntry(file: EmbeddedFile, prefix: string, n: string): StorageEntry {
    if file.path == prefix + n then StorageEntry(n, false, |file.data|) else StorageEntry(n, true, 0)
  }

  lemma {:induction false} FirstUnderSnoc(files: seq<EmbeddedFile>, last: EmbeddedFile, prefix: string, n: string)
    ensures FirstUnder(files + [last], prefix, n) ==
            if FirstUnder(files, prefix, n).Some? then FirstUnder(files, prefix, n)
            else if ChildName(last.path, prefix) == Some(n) then Some(last) else None
  {
    hide ChildName;
    if files == [] {
      assert files + [last] == [last] && [last][1..] == [];
    } else {
      assert (files + [last])[1..] == files[1..] + [last];
      FirstUnderSnoc(files[1..], last, prefix, n);
    }
  }

  /** The entries of the names found so far, each by its first file. */
  ghost predicate Found(entries: map<string, StorageEntry>, files: seq<EmbeddedFile>, prefix: string) {
    && (forall n :: n in entries <==> FirstUnder(files, prefix, n).Some?)
    && (forall n <- entries :: entries[n] == SystemEntry(FirstUnder(files, prefix, n).value, prefix, n))
  }

  lemma FoundMore(entries: map<string, StorageEntry>, files: seq<EmbeddedFile>, i: nat, prefix: string)
    requires i < |files| && Found(entries, files[..i], prefix)
    ensures var name := ChildName(files[i].path, prefix);
            Found(if name.Some? && name.value !in entries
                  then entries[name.value := SystemEntry(files[i], prefix, name.value)] else entries,
                  files[..i + 1], prefix)
  {
    hide ChildName, FirstUnder, SystemEntry;
    assert files[..i + 1] == files[..i] + [files[i]];
    forall n {
      FirstUnderSnoc(files[..i], files[i], prefix, n);
    }
  }

  method ListSystem(files: seq<EmbeddedFile>, path: string) returns (r: Result<seq<StorageEntry>, Error>)
    ensures r.Err? <==> path != "/sys" && !SystemDirExists(files, path)
    ensures r.Err? ==> r.error == NotFound(path)
    ensures r.Ok? ==> ListsSystem(r.value, files, Slashed(path))
  {
    if path != "/sys" && !SystemDirExists(files, path) {
      return Err(NotFound(path));
    }
    hide ChildName, FirstUnder, SystemEntry, Less;
    var prefix := Slashed(path);
    var entries: map<string, StorageEntry> := map[];
    NothingFound(prefix);
    for i := 0 to |files|
      invariant Found(entries, files[..i], prefix)
    {
      FoundMore(entries, files, i, prefix);
      var name := ChildName(files[i].path, prefix);
      if name.Some? && name.value !in entries {
        entries := entries[name.value := SystemEntry(files[i], prefix, name.value)];
      }
    }
    assert files[..|files|] == files;
    NamedEntries(entries, files, prefix);
    var listed := InKeyOrder(entries);
    ListsSystemFrom(listed, files, prefix, entries);
    return Ok(listed);
  }

  lemma NothingFound(prefix: string)
    ensures Found(map[], [], prefix)
  {
  }

  lemma NamedEntries(entries: map<string, StorageEntry>, files: seq<EmbeddedFile>, prefix: string)
    requires Found(entries, files, prefix)
    ensures forall n <- entries :: entries[n].name == n
  {
    hide FirstUnder;
  }

  /** The list has one entry for each name found, in strictly ascending order. */
  ghost predicate ListsSystem(r: seq<StorageEntry>, files: seq<EmbeddedFile>, prefix: string) {
    && (forall i, j | 0 <= i < j < |r| :: Less(r[i].name, r[j].name))
    && (forall e <- r :: FirstUnder(files, prefix, e.name).Some?
          && e == SystemEntry(FirstUnder(files, prefix, e.name).value, prefix, e.name))
    && (forall n | FirstUnder(files, prefix, n).Some? ::
          SystemEntry(FirstUnder(files, prefix, n).value, prefix, n) in r)
  }

  lemma ListsSystemFrom(
    r: seq<StorageEntry>, files: seq<EmbeddedFile>, prefix: string, entries: map<string, StorageEntry>)
    requires Lists(r, entries) && Found(entries, files, prefix)
    ensures ListsSystem(r, files, prefix)
  {
    hide Less, FirstUnder, SystemEntry;
    forall n | FirstUnder(files, prefix, n).Some?
      ensures SystemEntry(FirstUnder(files, prefix, n).value, prefix, n) in r
    {
      assert n in entries;
    }
  }

  /* ----- Listings agree with existence ----- */

  lemma {:induction false} FirstUnderIff(files: seq<EmbeddedFile>, prefix: string, n: string)
    ensures FirstUnder(files, prefix, n).Some? <==> exists f <- files :: ChildName(f.path, prefix) == Some(n)
    ensures FirstUnder(files, prefix, n).Some? ==>
              && FirstUnder(files, prefix, n).value in files
              && ChildName(FirstUnder(files, prefix, n).value.path, prefix) == Some(n)
  {
    hide ChildName;
    if files != [] {
      FirstUnderIff(files[1..], prefix, n);
      assert forall f :: f in files <==> f == files[0] || f in files[1..];
    }
  }

  lemma {:induction false} SystemFileIff(files: seq<EmbeddedFile>, path: string)
    ensures SystemFile(files, path).Some? <==> exists f <- files :: f.path == path
    ensures SystemFile(files, path).Some? ==> SystemFile(files, path).value in files
                                              && SystemFile(files, path).value.path == path
  {
    if files != [] {
      SystemFileIff(files[1..], path);
      assert forall f :: f in files <==> f == files[0] || f in files[1..];
    }
  }

  /** A name is listed exactly when it is one component and the joined path is a file or a directory of the table. */
  lemma ListedIffExists(files: seq<EmbeddedFile>, prefix: string, n: string)
    ensures FirstUnder(files, prefix, n).Some? <==>
            IsName(n) && (SystemFile(files, prefix + n).Some? || SystemDirExists(files, prefix + n))
  {
    hide ChildName, SystemDirExists, FirstUnder, SystemFile;
    FirstUnderIff(files, prefix, n);
    SystemFileIff(files, prefix + n);
    if IsName(n) {
      DirExistsIff(files, prefix, n);
    }
    forall f | f in files ensures ChildName(f.path, prefix) == Some(n) <==>
                                  IsName(n) && (f.path == prefix + n || Under(f.path, prefix + n))
    {
      ChildNameIff(f.path, prefix, n);
    }
  }

  lemma DirExistsIff(files: seq<EmbeddedFile>, prefix: string, n: string)
    requires IsName(n)
    ensures SystemDirExists(files, prefix + n) <==> exists f <- files :: Under(f.path, prefix + n)
  {
    var p := prefix + n;
    assert p[|p| - 1] == n[|n| - 1] && n[|n| - 1] in n;
    assert Slashed(p) == p + "/";
    forall f | f in files ensures p + "/" <= f.path <==> Under(f.path, p) {
      SlashPrefix(p, f.path);
    }
  }

  lemma SlashPrefix(p: string, path: string)
    ensures p + "/" <= path <==> Under(path, p)
  {
    if Under(path, p) {
      assert path[..|p| + 1] == p + "/";
    }
  }

  /** No file of the table is an ancestor of another. */
  predicate Unambiguous(files: seq<EmbeddedFile>) {
    forall f, g | f in files && g in files :: !Under(f.path, g.path)
  }

  /** In an unambiguous table the listed kind and length are those of what the joined path is. */
  lemma ListedKindIsRight(files: seq<EmbeddedFile>, prefix: string, n: string)
    requires Unambiguous(files) && FirstUnder(files, prefix, n).Some?
    ensures var e := SystemEntry(FirstUnder(files, prefix, n).value, prefix, n);
            && (e.isDir <==> SystemDirExists(files, prefix + n))
            && (!e.isDir <==> SystemFile(files, prefix + n).Some?)
            && (!e.isDir ==> e.len == |SystemFile(files, prefix + n).value.data|)
  {
    hide ChildName, SystemDirExists, FirstUnder, SystemFile;
    FirstUnderIff(files, prefix, n);
    SystemFileIff(files, prefix + n);
    var f := FirstUnder(files, prefix, n).value;
    ChildNameIff(f.path, prefix, n);
    DirExistsIff(files, prefix, n);
    if f.path == prefix + n {
      FirstsAgree(files, prefix, n);
    }
  }

  lemma {:induction false} FirstsAgree(files: seq<EmbeddedFile>, prefix: string, n: string)
    requires FirstUnder(files, prefix, n).Some? && FirstUnder(files, prefix, n).value.path == prefix + n
    ensures SystemFile(files, prefix + n) == FirstUnder(files, prefix, n)
  {
    hide ChildName;
    ChildNameIff(files[0].path, prefix, n);
    FirstUnderIff(files, prefix, n);
    ChildNameIff(prefix + n, prefix, n);
    if ChildName(files[0].path, prefix) != Some(n) {
      FirstsAgree(files[1..], prefix, n);
    }
  }
}
