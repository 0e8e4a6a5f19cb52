/** A payload that decodes, canonical or not, is never shorter than the re-encoding of its tree. */
module Resave {
  import opened Wrappers
  import opened Words
  import opened Order
  import opened Codec
  import Utf8

  /** The sum of a weight over a set of keys. */
  ghost function Sum(keys: set<string>, w: string -> nat): nat
    decreases |keys|
  {
    if keys == {} then 0 else w(Least(keys)) + Sum(keys - {Least(keys)}, w)
  }

  lemma {:induction false} SumRemove(keys: set<string>, w: string -> nat, p: string)
    requires p in keys
    ensures Sum(keys, w) == w(p) + Sum(keys - {p}, w)
    decreases |keys|
  {
    var m := Least(keys);
    if p != m {
      assert m in keys - {p};
      LessTotal(m, Least(keys - {p}));
      assert Least(keys - {p}) == m;
      SumRemove(keys - {m}, w, p);
      assert keys - {m} - {p} == keys - {p} - {m};
    }
  }

  lemma SumInsert(keys: set<string>, w: string -> nat, p: string)
    ensures Sum(keys + {p}, w) <= Sum(keys, w) + w(p)
  {
    if p in keys {
      assert keys + {p} == keys;
    } else {
      SumRemove(keys + {p}, w, p);
      assert keys + {p} - {p} == keys;
    }
  }

  lemma {:induction false} SumAgree(keys: set<string>, v: string -> nat, w: string -> nat)
    requires forall k <- keys :: v(k) == w(k)
    ensures Sum(keys, v) == Sum(keys, w)
    decreases |keys|
  {
    if keys != {} {
      SumAgree(keys - {Least(keys)}, v, w);
    }
  }

  function PathWeight(p: string): nat {
    |PathBytes(p)|
  }

  function FileWeight(files: map<string, seq<Byte>>): string -> nat {
    p => if p in files then |FileBytes(p, files[p])| else 0
  }

  lemma {:induction false} PathsBytesLength(keys: set<string>)
    ensures |PathsBytes(Ascending(keys))| == Sum(keys, PathWeight)
    decreases |keys|
  {
    if keys != {} {
      PathsBytesLength(keys - {Least(keys)});
      assert Ascending(keys)[1..] == Ascending(keys - {Least(keys)});
    }
  }

  lemma {:induction false} FilesBytesLength(keys: set<string>, files: map<string, seq<Byte>>)
    requires keys <= files.Keys
    ensures forall p <- Ascending(keys) :: p in files
    ensures |FilesBytes(Ascending(keys), files)| == Sum(keys, FileWeight(files))
    decreases |keys|
  {
    AscendingEnumerates(keys);
    if keys != {} {
      FilesBytesLength(keys - {Least(keys)}, files);
      assert Ascending(keys)[1..] == Ascending(keys - {Least(keys)});
    }
  }

  /* ----- What the readers consume ----- */

  lemma TakenString(input: seq<Byte>)
    requires TakeString(input).Some?
    ensures var taken := TakeString(input).value;
            PathFits(taken.value) && |input| == |PathBytes(taken.value)| + |taken.rest|
  {
    var length := TakeWord(input, 4).value;
    var bytes := TakeBytes(length.rest, length.value).value;
    Utf8.EncodeDecode(bytes.value);
  }

  lemma TakenFile(input: seq<Byte>)
    requires TakeFile(input).Some?
    ensures var taken := TakeFile(input).value;
            && PathFits(taken.value.path) && |taken.value.data| <= U64_MAX
            && |input| == |FileBytes(taken.value.path, taken.value.data)| + |taken.rest|
  {
    TakenString(input);
    var path := TakeString(input).value;
    CapacityOfWords();
    FromLeBound(path.rest[..8]);
  }

  lemma TakePathsUnfolds(input: seq<Byte>, count: nat, found: set<string>, taken: Taken<set<string>>)
    returns (path: string, rest: seq<Byte>)
    requires count > 0 && TakePaths(input, count, found) == Some(taken)
    ensures PathFits(path) && |input| == |PathBytes(path)| + |rest|
    ensures TakePaths(rest, count - 1, found + {path}) == Some(taken)
  {
    TakenString(input);
    var head := TakeString(input).value;
    path, rest := head.value, head.rest;
  }

  lemma {:induction false} TakenPaths(input: seq<Byte>, count: nat, found: set<string>, taken: Taken<set<string>>)
    requires TakePaths(input, count, found) == Some(taken)
    requires forall p <- found :: PathFits(p)
    ensures forall p <- taken.value :: PathFits(p)
    ensures |taken.value| <= |found| + count
    ensures Sum(taken.value, PathWeight) + |taken.rest| <= Sum(found, PathWeight) + |input|
    decreases count
  {
    hide TakeString, PathFits, PathBytes, Sum;
    if count > 0 {
      var path, rest := TakePathsUnfolds(input, count, found, taken);
      SumInsert(found, PathWeight, path);
      TakenPaths(rest, count - 1, found + {path}, taken);
    }
  }

  predicate AllFit(files: map<string, seq<Byte>>) {
    forall p <- files :: FileFits(p, files)
  }

  lemma SumUpdate(files: map<string, seq<Byte>>, path: string, data: seq<Byte>)
    ensures Sum(files[path := data].Keys, FileWeight(files[path := data]))
         <= Sum(files.Keys, FileWeight(files)) + |FileBytes(path, data)|
  {
    var after := files[path := data];
    var others := files.Keys - {path};
    SumRemove(after.Keys, FileWeight(after), path);
    assert after.Keys - {path} == others;
    SumAgree(others, FileWeight(after), FileWeight(files));
    if path in files {
      SumRemove(files.Keys, FileWeight(files), path);
    } else {
      assert others == files.Keys;
    }
  }

  ghost function FilesSize(files: map<string, seq<Byte>>): nat {
    Sum(files.Keys, FileWeight(files))
  }

  /** `after` fits, and holds at most `count` files and `bytes` bytes more than `before`. */
  ghost predicate GrowsBy(before: map<string, seq<Byte>>, after: map<string, seq<Byte>>, count: nat, bytes: int) {
    AllFit(after) && |after| <= |before| + count && FilesSize(after) <= FilesSize(before) + bytes
  }

  lemma GrowsByTransitive(
    a: map<string, seq<Byte>>, b: map<string, seq<Byte>>, c: map<string, seq<Byte>>, m: nat, n: nat, i: int, j: int)
    requires GrowsBy(a, b, m, i) && GrowsBy(b, c, n, j)
    ensures GrowsBy(a, c, m + n, i + j)
  {
    hide FilesSize, AllFit;
  }

  lemma GrowsByInsert(files: map<string, seq<Byte>>, path: string, data: seq<Byte>)
    requires AllFit(files) && PathFits(path) && |data| <= U64_MAX
    ensures AllFit(files[path := data])
    ensures GrowsBy(files, files[path := data], 1, |FileBytes(path, data)|)
  {
    hide Sum, FileWeight, FileBytes, PathFits;
    SumUpdate(files, path, data);
    assert files[path := data].Keys == files.Keys + {path};
  }

  lemma TakeFilesUnfolds(
    input: seq<Byte>, count: nat, found: map<string, seq<Byte>>, taken: Taken<map<string, seq<Byte>>>)
    returns (path: string, data: seq<Byte>, rest: seq<Byte>)
    requires count > 0 && TakeFiles(input, count, found) == Some(taken)
    ensures PathFits(path) && |data| <= U64_MAX && |input| == |FileBytes(path, data)| + |rest|
    ensures TakeFiles(rest, count - 1, found[path := data]) == Some(taken)
  {
    TakenFile(input);
    var file := TakeFile(input).value;
    path, data, rest := file.value.path, file.value.data, file.rest;
  }

  lemma TakeNoMoreFiles(input: seq<Byte>, found: map<string, seq<Byte>>, taken: Taken<map<string, seq<Byte>>>)
    requires TakeFiles(input, 0, found) == Some(taken)
    requires AllFit(found)
    ensures GrowsBy(found, taken.value, 0, |input| - |taken.rest|)
  {
    hide AllFit, FilesSize;
  }

  lemma {:induction false} TakenFiles(
    input: seq<Byte>, count: nat, found: map<string, seq<Byte>>, taken: Taken<map<string, seq<Byte>>>)
    requires TakeFiles(input, count, found) == Some(taken)
    requires AllFit(found)
    ensures GrowsBy(found, taken.value, count, |input| - |taken.rest|)
    decreases count
  {
    hide *;
    if count == 0 {
      TakeNoMoreFiles(input, found, taken);
    } else {
      var path, data, rest := TakeFilesUnfolds(input, count, found, taken);
      GrowsByInsert(found, path, data);
      var next := found[path := data];
      TakenFiles(rest, count - 1, next, taken);
      GrowsByTransitive(found, next, taken.value, 1, count - 1, |FileBytes(path, data)|, |rest| - |taken.rest|);
    }
  }

  /** Re-encoding a decoded tree succeeds and needs no more room, whatever order or repetition the payload had. */
  lemma ResaveFits(payload: seq<Byte>)
    requires TreeOf(payload).Some?
    ensures EncodeTree(TreeOf(payload).value).Ok?
    ensures |EncodeTree(TreeOf(payload).value).value| <= |payload|
  {
    hide TakePaths, TakeFiles, PathsBytes, FilesBytes, Sum, FileWeight, PathFits, ToLe, FromLe;
    var tree := TreeOf(payload).value;
    var dirCount := TakeCount(payload).value;
    var dirs := TakePaths(dirCount.rest, dirCount.value, {}).value;
    TakenPaths(dirCount.rest, dirCount.value, {}, dirs);
    var fileCount := TakeCount(dirs.rest).value;
    var files := TakeFiles(fileCount.rest, fileCount.value, map[]).value;
    TakenFiles(fileCount.rest, fileCount.value, map[], files);
    SumOfNone();
    PathsBytesLength(tree.directories);
    FilesBytesLength(tree.files.Keys, tree.files);
  }

  lemma SumOfNone()
    ensures Sum({}, PathWeight) == 0 && FilesSize(map[]) == 0
  {
  }
}
