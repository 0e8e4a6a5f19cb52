/** The snapshot format spelled out byte by byte, apart from the code that writes and reads it. */
module Format {
  import opened Wrappers
  import opened Words
  import opened Order
  import opened Codec
  import Utf8

  /** The least significant byte comes first. */
  function Word(n: nat, width: nat): seq<Byte> {
    seq(width, i requires 0 <= i < width => n / Capacity(i) % 256)
  }

  /** A string: the number of its UTF-8 bytes as a 32-bit word, and the bytes. */
  function Text(s: string): seq<Byte> {
    Word(|Utf8.Encode(s)|, 4) + Utf8.Encode(s)
  }

  function Directories(paths: seq<string>): seq<Byte> {
    if paths == [] then [] else Text(paths[0]) + Directories(paths[1..])
  }

  /** Each file: its path, the length of its content as a 64-bit word, and the content. */
  function Files(files: seq<File>): seq<Byte> {
    if files == [] then [] else Text(files[0].path) + (Word(|files[0].data|, 8) + (files[0].data + Files(files[1..])))
  }

  /** The files put into a map one after the other, so that the last of a path counts. */
  function Onto(found: map<string, seq<Byte>>, files: seq<File>): map<string, seq<Byte>>
    decreases |files|
  {
    if files == [] then found else Onto(found[files[0].path := files[0].data], files[1..])
  }

  predicate Short(path: string) {
    |Utf8.Encode(path)| <= 4096
  }

  predicate AllShort(paths: seq<string>, files: seq<File>) {
    && (forall p <- paths :: Short(p))
    && (forall f <- files :: Short(f.path) && |f.data| <= U64_MAX)
  }

  /** The directories and files, each list behind its length as a 32-bit word, within the limits of the format. */
  predicate Spells(payload: seq<Byte>, paths: seq<string>, files: seq<File>) {
    && payload == Word(|paths|, 4) + (Directories(paths) + (Word(|files|, 4) + Files(files)))
    && |paths| <= 100_000 && |files| <= 100_000 && AllShort(paths, files)
  }

  /* ----- The pieces ----- */

  lemma WordIs(n: nat, width: nat)
    ensures Word(n, width) == ToLe(n, width)
  {
    forall i | 0 <= i < width ensures Word(n, width)[i] == ToLe(n, width)[i] {
      LeByte(n, width, i);
    }
  }

  lemma TextIs(s: string)
    ensures Text(s) == PathBytes(s)
  {
    WordIs(|Utf8.Encode(s)|, 4);
  }

  lemma {:induction false} DirectoriesAre(paths: seq<string>)
    ensures Directories(paths) == PathsBytes(paths)
  {
    hide Text, PathBytes;
    if paths != [] {
      TextIs(paths[0]);
      DirectoriesAre(paths[1..]);
    }
  }

  lemma FileIs(f: File, rest: seq<Byte>)
    ensures Text(f.path) + (Word(|f.data|, 8) + (f.data + rest)) == FileBytes(f.path, f.data) + rest
  {
    TextIs(f.path);
    WordIs(|f.data|, 8);
  }

  /* ----- Reading ----- */

  lemma TakenWord(input: seq<Byte>, width: nat)
    requires TakeWord(input, width).Some?
    ensures var taken := TakeWord(input, width).value;
            input == Word(taken.value, width) + taken.rest && taken.value < Capacity(width)
  {
    hide Word, ToLe, FromLe, Capacity;
    LeBack(input[..width]);
    FromLeBound(input[..width]);
    WordIs(FromLe(input[..width]), width);
  }

  lemma TakenText(input: seq<Byte>)
    requires TakeString(input).Some?
    ensures var taken := TakeString(input).value; input == Text(taken.value) + taken.rest && Short(taken.value)
  {
    hide Word, Utf8.Encode, Utf8.Decode, FromLe, Capacity;
    TakenWord(input, 4);
    var length := TakeWord(input, 4).value;
    var bytes := TakeBytes(length.rest, length.value).value;
    Utf8.EncodeDecode(bytes.value);
    assert length.rest == bytes.value + bytes.rest;
  }

  lemma TakenFile(input: seq<Byte>)
    requires TakeFile(input).Some?
    ensures var taken := TakeFile(input).value;
            && input == Text(taken.value.path) + (Word(|taken.value.data|, 8) + (taken.value.data + taken.rest))
            && Short(taken.value.path) && |taken.value.data| <= U64_MAX
  {
    hide Word, Text, TakeString, Short;
    TakenText(input);
    var path := TakeString(input).value;
    TakenWord(path.rest, 8);
    CapacityOfWords();
    var length := TakeWord(path.rest, 8).value;
    assert length.rest == length.rest[..length.value] + length.rest[length.value..];
  }

  lemma {:induction false} TakenDirectories(input: seq<Byte>, count: nat, found: set<string>, taken: Taken<set<string>>)
    returns (paths: seq<string>)
    requires TakePaths(input, count, found) == Some(taken)
    ensures |paths| == count && input == Directories(paths) + taken.rest && AllShort(paths, [])
    ensures taken.value == found + (set p | p in paths)
    decreases count
  {
    hide Text, TakeString, Short;
    if count == 0 {
      paths := [];
      assert [] + input == input;
    } else {
      TakenText(input);
      var head := TakeString(input).value;
      var rest := TakenDirectories(head.rest, count - 1, found + {head.value}, taken);
      paths := [head.value] + rest;
      assert paths[1..] == rest;
    }
  }

  lemma {:induction false} TakenFiles(
    input: seq<Byte>, count: nat, found: map<string, seq<Byte>>, taken: Taken<map<string, seq<Byte>>>)
    returns (files: seq<File>)
    requires TakeFiles(input, count, found) == Some(taken)
    ensures |files| == count && input == Files(files) + taken.rest && AllShort([], files)
    ensures taken.value == Onto(found, files)
    decreases count
  {
    hide Text, Word, TakeFile, Short;
    if count == 0 {
      files := [];
      assert [] + input == input;
    } else {
      TakenFile(input);
      var head := TakeFile(input).value;
      var f := head.value;
      var rest := TakenFiles(head.rest, count - 1, found[f.path := f.data], taken);
      files := [f] + rest;
      assert files[1..] == rest;
      assert Files(files) + taken.rest == Text(f.path) + (Word(|f.data|, 8) + (f.data + (Files(rest) + taken.rest)));
    }
  }

  /** Whatever decodes is spelled so. */
  lemma DecodedIsSpelled(payload: seq<Byte>, tree: FileTree) returns (paths: seq<string>, files: seq<File>)
    requires TreeOf(payload) == Some(tree)
    ensures Spells(payload, paths, files) && tree == FileTree(Onto(map[], files), set p | p in paths)
  {
    hide Word, Directories, Files, TakePaths, TakeFiles, TakeWord, Short;
    TakenWord(payload, 4);
    var dirCount := TakeCount(payload).value;
    var dirs := TakePaths(dirCount.rest, dirCount.value, {}).value;
    paths := TakenDirectories(dirCount.rest, dirCount.value, {}, dirs);
    TakenWord(dirs.rest, 4);
    var fileCount := TakeCount(dirs.rest).value;
    var contents := TakeFiles(fileCount.rest, fileCount.value, map[]).value;
    files := TakenFiles(fileCount.rest, fileCount.value, map[], contents);
    assert Files(files) + [] == Files(files);
    assert {} + (set p | p in paths) == set p | p in paths;
  }

  lemma {:induction false} TakeListed(files: seq<File>, found: map<string, seq<Byte>>)
    requires AllShort([], files)
    ensures TakeFiles(Files(files), |files|, found) == Some(Taken(Onto(found, files), []))
    decreases |files|
  {
    if files != [] {
      hide Text, Word, TakeFile, FileBytes, Short;
      var f := files[0];
      assert f in files && forall g <- files[1..] :: g in files;
      FileIs(f, Files(files[1..]));
      ShortFits(f.path);
      TakeEncodedFile(f.path, f.data, Files(files[1..]));
      TakeListed(files[1..], found[f.path := f.data]);
    }
  }

  lemma ShortFits(path: string)
    ensures Short(path) <==> PathFits(path)
  {
  }

  /** And whatever is spelled so decodes. */
  lemma SpelledDecodes(payload: seq<Byte>, paths: seq<string>, files: seq<File>)
    requires Spells(payload, paths, files)
    ensures TreeOf(payload) == Some(FileTree(Onto(map[], files), set p | p in paths))
  {
    hide Word, Directories, Files, TakePaths, TakeFiles, ToLe, FromLe, Short, PathFits;
    CapacityOfWords();
    WordIs(|paths|, 4);
    WordIs(|files|, 4);
    DirectoriesAre(paths);
    forall p | p in paths ensures PathFits(p) {
      ShortFits(p);
    }
    var second := Word(|files|, 4) + Files(files);
    TakeEncodedWord(|paths|, 4, Directories(paths) + second);
    TakeEncodedPaths(paths, {}, second);
    assert {} + (set p | p in paths) == set p | p in paths;
    TakeEncodedWord(|files|, 4, Files(files));
    TakeListed(files, map[]);
  }

  /**
   * A payload decodes exactly when it spells some directories and files within the limits, in any order and with
   * repetitions, and then to the tree of those, the last file of a path counting.
   */
  lemma DecodesIff(payload: seq<Byte>, tree: FileTree)
    ensures TreeOf(payload) == Some(tree) <==>
            exists paths, files ::
              Spells(payload, paths, files) && tree == FileTree(Onto(map[], files), set p | p in paths)
  {
    hide Spells, TreeOf, Onto;
    if TreeOf(payload) == Some(tree) {
      var paths, files := DecodedIsSpelled(payload, tree);
    }
    forall paths, files | Spells(payload, paths, files)
      ensures TreeOf(payload) == Some(FileTree(Onto(map[], files), set p | p in paths))
    {
      SpelledDecodes(payload, paths, files);
    }
  }

  /* ----- Writing ----- */

  /** The files of a map, in the order of the given paths. */
  function Listed(paths: seq<string>, files: map<string, seq<Byte>>): seq<File>
    requires forall p <- paths :: p in files
  {
    seq(|paths|, i requires 0 <= i < |paths| => File(paths[i], files[paths[i]]))
  }

  lemma {:induction false} FilesAre(paths: seq<string>, files: map<string, seq<Byte>>)
    requires forall p <- paths :: p in files
    ensures Files(Listed(paths, files)) == FilesBytes(paths, files)
  {
    hide Text, Word, FileBytes;
    if paths != [] {
      var list := Listed(paths, files);
      assert list[1..] == Listed(paths[1..], files);
      FilesAre(paths[1..], files);
      FileIs(list[0], Files(list[1..]));
    }
  }

  predicate InOrderOfPaths(paths: seq<string>) {
    forall i, j | 0 <= i < j < |paths| :: Less(paths[i], paths[j])
  }

  /**
   * A tree is written exactly when it is within the limits, and then as its directories and its files, each in the
   * order of their paths.
   */
  lemma EncodesIff(tree: FileTree) returns (paths: seq<string>, names: seq<string>)
    ensures EncodeTree(tree).Ok? <==>
            && |tree.directories| <= 100_000 && |tree.files| <= 100_000
            && (forall p <- tree.directories :: Short(p))
            && (forall p <- tree.files :: Short(p) && |tree.files[p]| <= U64_MAX)
    ensures InOrderOfPaths(paths) && (forall p :: p in paths <==> p in tree.directories)
    ensures InOrderOfPaths(names) && (forall p :: p in names <==> p in tree.files)
    ensures EncodeTree(tree).Ok? ==> Spells(EncodeTree(tree).value, paths, Listed(names, tree.files))
  {
    hide Word, Directories, Files, Less, PathsBytes, FilesBytes, ToLe, Encodable, Short, Spells;
    paths, names := Ascending(tree.directories), Ascending(tree.files.Keys);
    AscendingEnumerates(tree.directories);
    AscendingEnumerates(tree.files.Keys);
    EncodableIff(tree);
    if EncodeTree(tree).Ok? {
      EncodedSpells(tree, paths, names);
    }
  }

  lemma EncodableIff(tree: FileTree)
    ensures Encodable(tree) <==>
            && |tree.directories| <= 100_000 && |tree.files| <= 100_000
            && (forall p <- tree.directories :: Short(p))
            && (forall p <- tree.files :: Short(p) && |tree.files[p]| <= U64_MAX)
  {
    hide Utf8.Encode;
  }

  lemma EncodedSpells(tree: FileTree, paths: seq<string>, names: seq<string>)
    requires Encodable(tree) && paths == Ascending(tree.directories) && names == Ascending(tree.files.Keys)
    ensures forall p <- names :: p in tree.files
    ensures Spells(TreeBytes(tree), paths, Listed(names, tree.files))
  {
    hide Word, Directories, Files, Less, PathsBytes, FilesBytes, ToLe, Encodable, Short, Ascending;
    AscendingEnumerates(tree.directories);
    AscendingEnumerates(tree.files.Keys);
    EncodableIff(tree);
    var list := Listed(names, tree.files);
    WordIs(|paths|, 4);
    WordIs(|list|, 4);
    DirectoriesAre(paths);
    FilesAre(names, tree.files);
    Regroup(ToLe(|paths|, 4), PathsBytes(paths), ToLe(|names|, 4), FilesBytes(names, tree.files));
    forall f | f in list ensures Short(f.path) && |f.data| <= U64_MAX {
      var i :| 0 <= i < |list| && list[i] == f;
      assert names[i] in names;
    }
  }
}
