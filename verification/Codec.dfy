/** The snapshot payload: how a file tree becomes bytes and comes back. */
module Codec {
  import opened Wrappers
  import opened Words
  import opened Order
  import Utf8

  const MAX_PATH_LEN: nat := 4096
  const MAX_ENTRY_COUNT: nat := 100_000

  datatype FileTree = FileTree(files: map<string, seq<Byte>>, directories: set<string>)

  const EMPTY_TREE := FileTree(map[], {})

  datatype StorageError =
    | Device
    | DeviceTooSmall
    | SnapshotTooLarge
    | CorruptSnapshot
    | UnsupportedVersion(version: nat)

  /* ----- Encoding ----- */

  predicate PathFits(path: string) {
    |Utf8.Encode(path)| <= MAX_PATH_LEN
  }

  /** The trees that the format has room for. */
  predicate Encodable(tree: FileTree) {
    && |tree.directories| <= MAX_ENTRY_COUNT
    && |tree.files| <= MAX_ENTRY_COUNT
    && (forall p <- tree.directories :: PathFits(p))
    && (forall p <- tree.files :: FileFits(p, tree.files))
  }

  function PathBytes(path: string): seq<Byte> {
    ToLe(|Utf8.Encode(path)|, 4) + Utf8.Encode(path)
  }

  function FileBytes(path: string, data: seq<Byte>): seq<Byte> {
    PathBytes(path) + ToLe(|data|, 8) + data
  }

  function PathsBytes(paths: seq<string>): seq<Byte> {
    if paths == [] then [] else PathBytes(paths[0]) + PathsBytes(paths[1..])
  }

  function FilesBytes(paths: seq<string>, files: map<string, seq<Byte>>): seq<Byte>
    requires forall p <- paths :: p in files
  {
    if paths == [] then []
    else FileBytes(paths[0], files[paths[0]]) + FilesBytes(paths[1..], files)
  }

  ghost function TreeBytes(tree: FileTree): seq<Byte> {
    AscendingEnumerates(tree.files.Keys);
    ToLe(|tree.directories|, 4) + PathsBytes(Ascending(tree.directories))
    + ToLe(|tree.files|, 4) + FilesBytes(Ascending(tree.files.Keys), tree.files)
  }

  ghost function EncodeTree(tree: FileTree): Result<seq<Byte>, StorageError> {
    if Encodable(tree) then Ok(TreeBytes(tree)) else Err(SnapshotTooLarge)
  }

  lemma {:induction false} PathsBytesSnoc(paths: seq<string>, p: string)
    ensures PathsBytes(paths + [p]) == PathsBytes(paths) + PathBytes(p)
  {
    if paths == [] {
      assert paths + [p] == [p] && [p][1..] == [];
    } else {
      assert (paths + [p])[1..] == paths[1..] + [p];
      PathsBytesSnoc(paths[1..], p);
    }
  }

  lemma {:induction false} FilesBytesSnoc(paths: seq<string>, p: string, files: map<string, seq<Byte>>)
    requires forall q <- paths :: q in files
    requires p in files
    ensures FilesBytes(paths + [p], files) == FilesBytes(paths, files) + FileBytes(p, files[p])
  {
    if paths == [] {
      assert paths + [p] == [p] && [p][1..] == [];
    } else {
      assert (paths + [p])[1..] == paths[1..] + [p];
      FilesBytesSnoc(paths[1..], p, files);
    }
  }

  method WriteCount(output: seq<Byte>, count: nat) returns (r: Result<seq<Byte>, StorageError>)
    ensures r == if count <= MAX_ENTRY_COUNT then Ok(output + ToLe(count, 4)) else Err(SnapshotTooLarge)
  {
    if count > MAX_ENTRY_COUNT {
      return Err(SnapshotTooLarge);
    }
    return Ok(output + ToLe(count, 4));
  }

  method WriteString(output: seq<Byte>, value: string) returns (r: Result<seq<Byte>, StorageError>)
    ensures r == if PathFits(value) then Ok(output + PathBytes(value)) else Err(SnapshotTooLarge)
  {
    var bytes := Utf8.Encode(value);
    if |bytes| > MAX_PATH_LEN {
      return Err(SnapshotTooLarge);
    }
    assert output + PathBytes(value) == (output + ToLe(|bytes|, 4)) + bytes;
    return Ok((output + ToLe(|bytes|, 4)) + bytes);
  }

  method WritePaths(prefix: seq<Byte>, paths: seq<string>) returns (r: Result<seq<Byte>, StorageError>)
    ensures r == if forall p <- paths :: PathFits(p) then Ok(prefix + PathsBytes(paths)) else Err(SnapshotTooLarge)
  {
    var output := prefix;
    for i := 0 to |paths|
      invariant output == prefix + PathsBytes(paths[..i])
      invariant forall p <- paths[..i] :: PathFits(p)
    {
      assert paths[..i + 1] == paths[..i] + [paths[i]];
      PathsBytesSnoc(paths[..i], paths[i]);
      assert paths[i] in paths;
      output :- WriteString(output, paths[i]);
    }
    assert paths[..|paths|] == paths;
    return Ok(output);
  }

  method WriteFile(output: seq<Byte>, path: string, files: map<string, seq<Byte>>)
    returns (r: Result<seq<Byte>, StorageError>)
    requires path in files
    ensures r == if FileFits(path, files) then Ok(output + FileBytes(path, files[path])) else Err(SnapshotTooLarge)
  {
    hide PathBytes, PathFits;
    var data := files[path];
    var extended :- WriteString(output, path);
    if |data| > U64_MAX {
      return Err(SnapshotTooLarge);
    }
    var lengthened := extended + ToLe(|data|, 8);
    assert output + FileBytes(path, data) == lengthened + data;
    return Ok(lengthened + data);
  }

  predicate FileFits(path: string, files: map<string, seq<Byte>>)
    requires path in files
  {
    PathFits(path) && |files[path]| <= U64_MAX
  }

  method WriteFiles(prefix: seq<Byte>, paths: seq<string>, files: map<string, seq<Byte>>)
    returns (r: Result<seq<Byte>, StorageError>)
    requires forall p <- paths :: p in files
    ensures r == if forall p <- paths :: FileFits(p, files)
                 then Ok(prefix + FilesBytes(paths, files)) else Err(SnapshotTooLarge)
  {
    hide FileFits, FileBytes;
    var output := prefix;
    for i := 0 to |paths|
      invariant output == prefix + FilesBytes(paths[..i], files)
      invariant forall p <- paths[..i] :: FileFits(p, files)
    {
      assert paths[..i + 1] == paths[..i] + [paths[i]];
      FilesBytesSnoc(paths[..i], paths[i], files);
      assert paths[i] in paths;
      output :- WriteFile(output, paths[i], files);
    }
    assert paths[..|paths|] == paths;
    return Ok(output);
  }

  lemma EncodableInOrder(tree: FileTree)
    ensures (forall p <- Ascending(tree.directories) :: PathFits(p)) <==> (forall p <- tree.directories :: PathFits(p))
    ensures forall p <- Ascending(tree.files.Keys) :: p in tree.files
    ensures (forall p <- Ascending(tree.files.Keys) :: FileFits(p, tree.files))
       <==> (forall p <- tree.files :: FileFits(p, tree.files))
  {
    AscendingEnumerates(tree.directories);
    AscendingEnumerates(tree.files.Keys);
  }

  method WriteTree(tree: FileTree) returns (r: Result<seq<Byte>, StorageError>)
    ensures r == EncodeTree(tree)
  {
    EncodableInOrder(tree);
    var output :- WriteCount([], |tree.directories|);
    assert output == ToLe(|tree.directories|, 4);
    var paths := InOrder(tree.directories);
    output :- WritePaths(output, paths);
    output :- WriteCount(output, |tree.files|);
    var names := InOrder(tree.files.Keys);
    output :- WriteFiles(output, names, tree.files);
    return Ok(output);
  }

  /* ----- Decoding ----- */

  /** A value read from the front of the input and what is left after it. */
  datatype Taken<T> = Taken(value: T, rest: seq<Byte>)

  function TakeBytes(input: seq<Byte>, length: nat): Option<Taken<seq<Byte>>> {
    if length <= |input| then Some(Taken(input[..length], input[length..])) else None
  }

  function TakeWord(input: seq<Byte>, width: nat): Option<Taken<nat>> {
    if width <= |input| then Some(Taken(FromLe(input[..width]), input[width..])) else None
  }

  function TakeCount(input: seq<Byte>): Option<Taken<nat>> {
    match TakeWord(input, 4)
    case None => None
    case Some(count) => if count.value <= MAX_ENTRY_COUNT then Some(count) else None
  }

  function TakeString(input: seq<Byte>): Option<Taken<string>> {
    match TakeWord(input, 4)
    case None => None
    case Some(length) =>
      if length.value > MAX_PATH_LEN then None
      else
        match TakeBytes(length.rest, length.value)
        case None => None
        case Some(bytes) =>
          match Utf8.Decode(bytes.value)
          case None => None
          case Some(s) => Some(Taken(s, bytes.rest))
  }

  datatype File = File(path: string, data: seq<Byte>)

  function TakeFile(input: seq<Byte>): Option<Taken<File>> {
    match TakeString(input)
    case None => None
    case Some(path) =>
      match TakeWord(path.rest, 8)
      case None => None
      case Some(length) =>
        match TakeBytes(length.rest, length.value)
        case None => None
        case Some(data) => Some(Taken(File(path.value, data.value), data.rest))
  }

  function TakePaths(input: seq<Byte>, count: nat, found: set<string>): Option<Taken<set<string>>>
    decreases count
  {
    if count == 0 then Some(Taken(found, input))
    else
      match TakeString(input)
      case None => None
      case Some(path) => TakePaths(path.rest, count - 1, found + {path.value})
  }

  function TakeFiles(input: seq<Byte>, count: nat, found: map<string, seq<Byte>>)
    : Option<Taken<map<string, seq<Byte>>>>
    decreases count
  {
    if count == 0 then Some(Taken(found, input))
    else
      match TakeFile(input)
      case None => None
      case Some(file) => TakeFiles(file.rest, count - 1, found[file.value.path := file.value.data])
  }

  /** The tree that a payload denotes, if the whole of it is well-formed. */
  function TreeOf(payload: seq<Byte>): Option<FileTree> {
    match TakeCount(payload)
    case None => None
    case Some(dirCount) =>
      match TakePaths(dirCount.rest, dirCount.value, {})
      case None => None
      case Some(dirs) =>
        match TakeCount(dirs.rest)
        case None => None
        case Some(fileCount) =>
          match TakeFiles(fileCount.rest, fileCount.value, map[])
          case None => None
          case Some(files) => if files.rest == [] then Some(FileTree(files.value, dirs.value)) else None
  }

  function DecodeTree(payload: seq<Byte>): Result<FileTree, StorageError> {
    match TreeOf(payload)
    case None => Err(CorruptSnapshot)
    case Some(tree) => Ok(tree)
  }

  method Take(input: seq<Byte>, cursor: nat, length: nat) returns (r: Result<seq<Byte>, StorageError>, next: nat)
    requires cursor <= |input|
    ensures next <= |input|
    ensures match TakeBytes(input[cursor..], length)
            case None => r == Err(CorruptSnapshot) && next == cursor
            case Some(taken) => r == Ok(taken.value) && input[next..] == taken.rest
  {
    var end := cursor + length;
    if end > |input| {
      return Err(CorruptSnapshot), cursor;
    }
    assert input[cursor..][..length] == input[cursor..end];
    assert input[cursor..][length..] == input[end..];
    return Ok(input[cursor..end]), end;
  }

  method ReadWord(input: seq<Byte>, cursor: nat, width: nat) returns (r: Result<nat, StorageError>, next: nat)
    requires cursor <= |input|
    ensures next <= |input|
    ensures match TakeWord(input[cursor..], width)
            case None => r == Err(CorruptSnapshot)
            case Some(taken) => r == Ok(taken.value) && input[next..] == taken.rest
  {
    var bytes;
    bytes, next := Take(input, cursor, width);
    match bytes {
      case Ok(b) => r := Ok(FromLe(b));
      case Err(e) => r := Err(e);
    }
  }

  method ReadCount(input: seq<Byte>, cursor: nat) returns (r: Result<nat, StorageError>, next: nat)
    requires cursor <= |input|
    ensures next <= |input|
    ensures match TakeCount(input[cursor..])
            case None => r == Err(CorruptSnapshot)
            case Some(taken) => r == Ok(taken.value) && input[next..] == taken.rest
  {
    r, next := ReadWord(input, cursor, 4);
    if r.Ok? && r.value > MAX_ENTRY_COUNT {
      r := Err(CorruptSnapshot);
    }
  }

  method ReadString(input: seq<Byte>, cursor: nat) returns (r: Result<string, StorageError>, next: nat)
    requires cursor <= |input|
    ensures next <= |input|
    ensures match TakeString(input[cursor..])
            case None => r == Err(CorruptSnapshot)
            case Some(taken) => r == Ok(taken.value) && input[next..] == taken.rest
  {
    var length, after := ReadWord(input, cursor, 4);
    if length.Err? {
      return Err(length.error), after;
    }
    if length.value > MAX_PATH_LEN {
      return Err(CorruptSnapshot), after;
    }
    var bytes;
    bytes, next := Take(input, after, length.value);
    if bytes.Err? {
      return Err(bytes.error), next;
    }
    match Utf8.Decode(bytes.value) {
      case None => r := Err(CorruptSnapshot);
      case Some(s) => r := Ok(s);
    }
  }

  method ReadPaths(input: seq<Byte>, start: nat, count: nat) returns (r: Result<set<string>, StorageError>, cursor: nat)
    requires start <= |input|
    ensures cursor <= |input|
    ensures match TakePaths(input[start..], count, {})
            case None => r == Err(CorruptSnapshot)
            case Some(taken) => r == Ok(taken.value) && input[cursor..] == taken.rest
  {
    cursor := start;
    var found := {};
    for i := 0 to count
      invariant cursor <= |input|
      invariant TakePaths(input[start..], count, {}) == TakePaths(input[cursor..], count - i, found)
    {
      var path;
      path, cursor := ReadString(input, cursor);
      if path.Err? {
        return Err(path.error), cursor;
      }
      found := found + {path.value};
    }
    return Ok(found), cursor;
  }

  method ReadFile(input: seq<Byte>, start: nat) returns (r: Result<File, StorageError>, cursor: nat)
    requires start <= |input|
    ensures cursor <= |input|
    ensures match TakeFile(input[start..])
            case None => r == Err(CorruptSnapshot)
            case Some(taken) => r == Ok(taken.value) && input[cursor..] == taken.rest
  {
    var path, length, data;
    path, cursor := ReadString(input, start);
    if path.Err? {
      return Err(path.error), cursor;
    }
    length, cursor := ReadWord(input, cursor, 8);
    if length.Err? {
      return Err(length.error), cursor;
    }
    data, cursor := Take(input, cursor, length.value);
    if data.Err? {
      return Err(data.error), cursor;
    }
    return Ok(File(path.value, data.value)), cursor;
  }

  method ReadFiles(input: seq<Byte>, start: nat, count: nat)
    returns (r: Result<map<string, seq<Byte>>, StorageError>, cursor: nat)
    requires start <= |input|
    ensures cursor <= |input|
    ensures match TakeFiles(input[start..], count, map[])
            case None => r == Err(CorruptSnapshot)
            case Some(taken) => r == Ok(taken.value) && input[cursor..] == taken.rest
  {
    hide TakeFile;
    cursor := start;
    var found := map[];
    for i := 0 to count
      invariant cursor <= |input|
      invariant TakeFiles(input[start..], count, map[]) == TakeFiles(input[cursor..], count - i, found)
    {
      var file;
      file, cursor := ReadFile(input, cursor);
      if file.Err? {
        return Err(file.error), cursor;
      }
      found := found[file.value.path := file.value.data];
    }
    return Ok(found), cursor;
  }

  method ReadTree(payload: seq<Byte>) returns (r: Result<FileTree, StorageError>)
    ensures r == DecodeTree(payload)
  {
    assert payload[0..] == payload;
    var dirCount, cursor := ReadCount(payload, 0);
    if dirCount.Err? {
      return Err(dirCount.error);
    }
    var directories;
    directories, cursor := ReadPaths(payload, cursor, dirCount.value);
    if directories.Err? {
      return Err(directories.error);
    }
    var fileCount;
    fileCount, cursor := ReadCount(payload, cursor);
    if fileCount.Err? {
      return Err(fileCount.error);
    }
    var files;
    files, cursor := ReadFiles(payload, cursor, fileCount.value);
    if files.Err? {
      return Err(files.error);
    }
    if cursor != |payload| {
      return Err(CorruptSnapshot);
    }
    return Ok(FileTree(files.value, directories.value));
  }

  /* ----- Round trip ----- */

  lemma TakeEncodedWord(n: nat, width: nat, rest: seq<Byte>)
    requires n < Capacity(width)
    ensures TakeWord(ToLe(n, width) + rest, width) == Some(Taken(n, rest))
  {
    LeRoundTrip(n, width);
    assert (ToLe(n, width) + rest)[..width] == ToLe(n, width);
  }

  lemma TakeEncodedString(path: string, rest: seq<Byte>)
    requires PathFits(path)
    ensures TakeString(PathBytes(path) + rest) == Some(Taken(path, rest))
  {
    var bytes := Utf8.Encode(path);
    CapacityOfWords();
    assert PathBytes(path) + rest == ToLe(|bytes|, 4) + (bytes + rest);
    TakeEncodedWord(|bytes|, 4, bytes + rest);
    assert (bytes + rest)[..|bytes|] == bytes;
    Utf8.DecodeEncode(path);
  }

  lemma TakeEncodedFile(path: string, data: seq<Byte>, rest: seq<Byte>)
    requires PathFits(path) && |data| <= U64_MAX
    ensures TakeFile(FileBytes(path, data) + rest) == Some(Taken(File(path, data), rest))
  {
    CapacityOfWords();
    var tail := ToLe(|data|, 8) + (data + rest);
    assert FileBytes(path, data) + rest == PathBytes(path) + tail;
    TakeEncodedString(path, tail);
    TakeEncodedWord(|data|, 8, data + rest);
    assert (data + rest)[..|data|] == data;
  }

  lemma TakePathsStep(path: string, count: nat, found: set<string>, rest: seq<Byte>)
    requires PathFits(path)
    ensures TakePaths(PathBytes(path) + rest, count + 1, found) == TakePaths(rest, count, found + {path})
  {
    TakeEncodedString(path, rest);
  }

  lemma TakeFilesStep(
    path: string, files: map<string, seq<Byte>>, count: nat, found: map<string, seq<Byte>>, rest: seq<Byte>)
    requires path in files && FileFits(path, files)
    ensures TakeFiles(FileBytes(path, files[path]) + rest, count + 1, found)
         == TakeFiles(rest, count, found[path := files[path]])
  {
    hide TakeFile, FileBytes;
    TakeEncodedFile(path, files[path], rest);
  }

  lemma {:induction false} TakeEncodedPaths(paths: seq<string>, found: set<string>, rest: seq<Byte>)
    requires forall p <- paths :: PathFits(p)
    ensures TakePaths(PathsBytes(paths) + rest, |paths|, found)
         == Some(Taken(found + (set p | p in paths), rest))
    decreases |paths|
  {
    if paths == [] {
      assert PathsBytes(paths) + rest == rest;
      assert found + (set p | p in paths) == found;
    } else {
      var tail := PathsBytes(paths[1..]) + rest;
      assert PathsBytes(paths) + rest == PathBytes(paths[0]) + tail;
      TakePathsStep(paths[0], |paths| - 1, found, tail);
      TakeEncodedPaths(paths[1..], found + {paths[0]}, rest);
      assert found + {paths[0]} + (set p | p in paths[1..]) == found + (set p | p in paths);
    }
  }

  function Pick(paths: seq<string>, files: map<string, seq<Byte>>): map<string, seq<Byte>>
    requires forall p <- paths :: p in files
  {
    map p | p in paths :: files[p]
  }

  lemma TakeNoFiles(files: map<string, seq<Byte>>, found: map<string, seq<Byte>>, rest: seq<Byte>)
    ensures TakeFiles(FilesBytes([], files) + rest, 0, found) == Some(Taken(found + Pick([], files), rest))
  {
    assert FilesBytes([], files) + rest == rest;
    assert found + Pick([], files) == found;
  }

  lemma FilesBytesUnfolds(paths: seq<string>, files: map<string, seq<Byte>>, rest: seq<Byte>)
    requires paths != [] && forall p <- paths :: p in files
    ensures FilesBytes(paths, files) + rest
         == FileBytes(paths[0], files[paths[0]]) + (FilesBytes(paths[1..], files) + rest)
  {
    hide FileBytes;
  }

  lemma {:induction false} TakeEncodedFiles(
    paths: seq<string>, files: map<string, seq<Byte>>, found: map<string, seq<Byte>>, rest: seq<Byte>)
    requires forall p <- paths :: p in files && FileFits(p, files)
    ensures TakeFiles(FilesBytes(paths, files) + rest, |paths|, found)
         == Some(Taken(found + Pick(paths, files), rest))
    decreases |paths|
  {
    hide *;
    if paths == [] {
      TakeNoFiles(files, found, rest);
    } else {
      var p := paths[0];
      assert p in paths;
      var data := files[p];
      var tail := FilesBytes(paths[1..], files) + rest;
      calc {
        TakeFiles(FilesBytes(paths, files) + rest, |paths|, found);
        { FilesBytesUnfolds(paths, files, rest); }
        TakeFiles(FileBytes(p, data) + tail, |paths[1..]| + 1, found);
        { TakeFilesStep(p, files, |paths[1..]|, found, tail); }
        TakeFiles(tail, |paths[1..]|, found[p := data]);
        { TakeEncodedFiles(paths[1..], files, found[p := data], rest); }
        Some(Taken(found[p := data] + Pick(paths[1..], files), rest));
        { PickStep(paths, files, found); }
        Some(Taken(found + Pick(paths, files), rest));
      }
    }
  }

  lemma PickStep(paths: seq<string>, files: map<string, seq<Byte>>, found: map<string, seq<Byte>>)
    requires paths != [] && forall p <- paths :: p in files
    ensures found[paths[0] := files[paths[0]]] + Pick(paths[1..], files) == found + Pick(paths, files)
  {
    assert forall q :: q in paths <==> q == paths[0] || q in paths[1..];
  }

  lemma TakeEncodedDirectories(tree: FileTree, rest: seq<Byte>)
    requires Encodable(tree)
    ensures TakePaths(PathsBytes(Ascending(tree.directories)) + rest, |tree.directories|, {})
         == Some(Taken(tree.directories, rest))
  {
    var dirs := Ascending(tree.directories);
    AscendingEnumerates(tree.directories);
    TakeEncodedPaths(dirs, {}, rest);
    assert {} + (set p | p in dirs) == tree.directories;
  }

  lemma TakeEncodedContents(tree: FileTree)
    requires Encodable(tree)
    ensures forall p <- Ascending(tree.files.Keys) :: p in tree.files
    ensures TakeFiles(FilesBytes(Ascending(tree.files.Keys), tree.files), |tree.files|, map[])
         == Some(Taken(tree.files, []))
  {
    hide FilesBytes, TakeFiles, FileFits, PathFits, Less;
    var names := Ascending(tree.files.Keys);
    AscendingEnumerates(tree.files.Keys);
    TakeEncodedFiles(names, tree.files, map[], []);
    assert FilesBytes(names, tree.files) + [] == FilesBytes(names, tree.files);
    assert map[] + Pick(names, tree.files) == tree.files;
  }

  lemma Regroup(a: seq<Byte>, b: seq<Byte>, c: seq<Byte>, d: seq<Byte>)
    ensures a + b + c + d == a + (b + (c + d))
  {
  }

  /** Whatever can be encoded decodes to the very same tree, with no byte left over. */
  lemma RoundTrip(tree: FileTree)
    requires Encodable(tree)
    ensures TreeOf(TreeBytes(tree)) == Some(tree)
  {
    hide PathsBytes, FilesBytes, TakePaths, TakeFiles, ToLe, FromLe;
    CapacityOfWords();
    TakeEncodedContents(tree);
    var dirBytes := PathsBytes(Ascending(tree.directories));
    var fileBytes := FilesBytes(Ascending(tree.files.Keys), tree.files);
    var second := ToLe(|tree.files|, 4) + fileBytes;
    Regroup(ToLe(|tree.directories|, 4), dirBytes, ToLe(|tree.files|, 4), fileBytes);
    TakeEncodedWord(|tree.directories|, 4, dirBytes + second);
    TakeEncodedDirectories(tree, second);
    TakeEncodedWord(|tree.files|, 4, fileBytes);
  }

  lemma EncodingInjective(s: FileTree, t: FileTree)
    requires EncodeTree(s).Ok? && EncodeTree(s) == EncodeTree(t)
    ensures s == t
  {
    RoundTrip(s);
    RoundTrip(t);
  }
}
