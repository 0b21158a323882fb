/**
 * duplicate-files: walk a directory tree, hash every file with SHA-1 and report each group of
 * files whose contents hash alike. SHA-1 itself is an oracle `sha1` from a file's bytes to its
 * hex digest; a file's bytes are given by `content`.
 */
module DuplicateFiles {
  import opened Wrappers
  import Paths

  // ------------------------------------------------------------------
  // get_file_hash

  const BlockSize: nat := 1024

  /** `f.read(BLOCK_SIZE)` on a file at offset `pos`: the next block, empty at the end. */
  function ReadBlock(content: seq<bv8>, pos: nat): (data: seq<bv8>)
    requires pos <= |content|
    ensures data == [] <==> pos == |content|
    ensures |data| <= BlockSize && pos + |data| <= |content|
    ensures data == content[pos..pos + |data|]
    ensures pos + |data| < |content| ==> |data| == BlockSize
  {
    if |content| - pos <= BlockSize then content[pos..] else content[pos..pos + BlockSize]
  }

  /** The blocks handed to `update`, joined back together. */
  function Concat(blocks: seq<seq<bv8>>): seq<bv8> {
    if blocks == [] then [] else Concat(blocks[..|blocks| - 1]) + blocks[|blocks| - 1]
  }

  /**
   * `get_file_hash`: reads the file block by block until an empty read and feeds each block to
   * the hash. The blocks read are non-empty and full but for the last, and together they are
   * the whole file, so the digest is the digest of the file's contents.
   */
  method GetFileHash(content: seq<bv8>, sha1: seq<bv8> -> string) returns (digest: string, ghost blocks: seq<seq<bv8>>)
    ensures Concat(blocks) == content
    ensures forall k :: 0 <= k < |blocks| ==> 0 < |blocks[k]| <= BlockSize
    ensures forall k :: 0 <= k < |blocks| - 1 ==> |blocks[k]| == BlockSize
    ensures digest == sha1(content)
  {
    var fed: seq<bv8> := [];
    var pos := 0;
    blocks := [];
    while true
      invariant pos <= |content| && fed == content[..pos] && Concat(blocks) == fed
      invariant forall k :: 0 <= k < |blocks| ==> 0 < |blocks[k]| <= BlockSize
      invariant forall k :: 0 <= k < |blocks| - 1 ==> |blocks[k]| == BlockSize
      invariant pos < |content| ==> forall k :: 0 <= k < |blocks| ==> |blocks[k]| == BlockSize
      decreases |content| - pos
    {
      var data := ReadBlock(content, pos);
      if data == [] {
        break;
      }
      assert (blocks + [data])[..|blocks|] == blocks;
      blocks := blocks + [data];
      fed := fed + data;
      pos := pos + |data|;
      assert fed == content[..pos];
    }
    assert content[..pos] == content;
    digest := sha1(fed);
  }

  // ------------------------------------------------------------------
  // grouping by hash

  /** The positions in `paths` of the files whose hash is `h`, in discovery order. */
  function Positions(paths: seq<string>, hash: string -> string, h: string): (r: seq<nat>)
    ensures forall k :: 0 <= k < |r| ==> r[k] < |paths|
  {
    if paths == [] then []
    else
      var n := |paths| - 1;
      Positions(paths[..n], hash, h) + (if hash(paths[n]) == h then [n] else [])
  }

  /** The paths at the given positions, in that order. */
  function Pick(paths: seq<string>, positions: seq<nat>): (r: seq<string>)
    requires forall k :: 0 <= k < |positions| ==> positions[k] < |paths|
    ensures |r| == |positions| && forall k :: 0 <= k < |r| ==> r[k] == paths[positions[k]]
  {
    seq(|positions|, k requires 0 <= k < |positions| => paths[positions[k]])
  }

  /** `file_hashes` after the walk found `paths`: each path appended to the list of its hash. */
  function Group(paths: seq<string>, hash: string -> string): map<string, seq<string>> {
    if paths == [] then map[]
    else
      var n := |paths| - 1;
      Insert(Group(paths[..n], hash), hash(paths[n]), paths[n])
  }

  /** `p` appended to the list of hash `h`, which is created if missing. */
  function Insert(table: map<string, seq<string>>, h: string, p: string): (r: map<string, seq<string>>)
    ensures r.Keys == table.Keys + {h}
    ensures r[h] == (if h in table then table[h] else []) + [p]
    ensures forall g :: g in table && g != h ==> r[g] == table[g]
  {
    table[h := (if h in table then table[h] else []) + [p]]
  }

  /** Finding one more file inserts it under its hash. */
  lemma {:induction false} GroupSnoc(paths: seq<string>, hash: string -> string, p: string)
    ensures Group(paths + [p], hash) == Insert(Group(paths, hash), hash(p), p)
  {
    assert (paths + [p])[..|paths|] == paths;
  }

  /** The positions of a hash are increasing, and they are exactly the files with that hash. */
  lemma {:induction false} PositionsExact(paths: seq<string>, hash: string -> string, h: string)
    ensures var r := Positions(paths, hash, h);
      (forall k, l :: 0 <= k < l < |r| ==> r[k] < r[l]) &&
      (forall i :: 0 <= i < |paths| ==> (i in r <==> hash(paths[i]) == h))
  {
    if paths != [] {
      var n := |paths| - 1;
      PositionsExact(paths[..n], hash, h);
      var r := Positions(paths[..n], hash, h);
      forall i | 0 <= i < n
        ensures hash(paths[i]) == hash(paths[..n][i])
      {
      }
    }
  }

  /** Adding a file at the end leaves the earlier positions where they were. */
  lemma {:induction false} PickPrefix(paths: seq<string>, positions: seq<nat>, n: nat)
    requires n <= |paths| && forall k :: 0 <= k < |positions| ==> positions[k] < n
    ensures Pick(paths[..n], positions) == Pick(paths, positions)
  {
  }

  /**
   * The table holds a list exactly for the hashes some file has, and each list is the files with
   * that hash in the order the walk found them.
   */
  lemma {:induction false} GroupIsPositions(paths: seq<string>, hash: string -> string)
    ensures forall h :: h in Group(paths, hash) <==> Positions(paths, hash, h) != []
    ensures forall h :: h in Group(paths, hash) ==>
      Group(paths, hash)[h] == Pick(paths, Positions(paths, hash, h))
  {
    if paths != [] {
      var n := |paths| - 1;
      var init := paths[..n];
      GroupIsPositions(init, hash);
      var table := Group(init, hash);
      var p := paths[n];
      forall h
        ensures h in Group(paths, hash) <==> Positions(paths, hash, h) != []
        ensures h in Group(paths, hash) ==> Group(paths, hash)[h] == Pick(paths, Positions(paths, hash, h))
      {
        GroupAtStep(paths, hash, h);
      }
    }
  }

  /** One more file keeps the list of hash `h` equal to the files at its positions. */
  lemma {:induction false} GroupAtStep(paths: seq<string>, hash: string -> string, h: string)
    requires paths != []
    requires var init := paths[..|paths| - 1];
      (h in Group(init, hash) <==> Positions(init, hash, h) != []) &&
      (h in Group(init, hash) ==> Group(init, hash)[h] == Pick(init, Positions(init, hash, h)))
    ensures h in Group(paths, hash) <==> Positions(paths, hash, h) != []
    ensures h in Group(paths, hash) ==> Group(paths, hash)[h] == Pick(paths, Positions(paths, hash, h))
  {
    var n := |paths| - 1;
    var p := paths[n];
    var before := Positions(paths[..n], hash, h);
    PickPrefix(paths, before, n);
    if hash(p) == h {
      assert Positions(paths, hash, h) == before + [n];
      assert Pick(paths, before + [n]) == Pick(paths, before) + [p];
    } else {
      assert Positions(paths, hash, h) == before;
    }
  }

  /** Every file lands in the list of its own hash, and every list holds only files of its hash. */
  lemma {:induction false} GroupsPartition(paths: seq<string>, hash: string -> string)
    ensures forall i :: 0 <= i < |paths| ==>
      hash(paths[i]) in Group(paths, hash) && paths[i] in Group(paths, hash)[hash(paths[i])]
    ensures forall h, p :: h in Group(paths, hash) && p in Group(paths, hash)[h] ==> p in paths && hash(p) == h
  {
    GroupIsPositions(paths, hash);
    forall i | 0 <= i < |paths|
      ensures hash(paths[i]) in Group(paths, hash) && paths[i] in Group(paths, hash)[hash(paths[i])]
    {
      var h := hash(paths[i]);
      PositionsExact(paths, hash, h);
      var r := Positions(paths, hash, h);
      var k :| 0 <= k < |r| && r[k] == i;
      assert Pick(paths, r)[k] == paths[i];
    }
    forall h, p | h in Group(paths, hash) && p in Group(paths, hash)[h]
      ensures p in paths && hash(p) == h
    {
      PositionsExact(paths, hash, h);
      var r := Positions(paths, hash, h);
      var k :| 0 <= k < |r| && Pick(paths, r)[k] == p;
      assert r[k] in r;
    }
  }

  // ------------------------------------------------------------------
  // the report

  /** The hashes reported as duplicates, with their files: those with more than one file. */
  function Duplicates(table: map<string, seq<string>>): (r: map<string, seq<string>>)
    ensures forall h :: h in r <==> h in table && |table[h]| > 1
    ensures forall h :: h in r ==> r[h] == table[h]
  {
    map h | h in table && |table[h]| > 1 :: table[h]
  }

  /** A hash is reported exactly when at least two files have it. */
  lemma {:induction false} ReportedIff(paths: seq<string>, hash: string -> string, h: string)
    ensures h in Duplicates(Group(paths, hash)) <==> |Positions(paths, hash, h)| >= 2
  {
    GroupIsPositions(paths, hash);
  }

  /** Two different files with the same hash are both reported under that hash. */
  lemma {:induction false} DuplicatesReported(paths: seq<string>, hash: string -> string, i: nat, j: nat)
    requires i < j < |paths| && hash(paths[i]) == hash(paths[j])
    ensures var h := hash(paths[i]);
      h in Duplicates(Group(paths, hash)) &&
      paths[i] in Duplicates(Group(paths, hash))[h] && paths[j] in Duplicates(Group(paths, hash))[h]
  {
    var h := hash(paths[i]);
    PositionsExact(paths, hash, h);
    TwoMembers(Positions(paths, hash, h), i, j);
    ReportedIff(paths, hash, h);
    GroupsPartition(paths, hash);
  }

  /** A sequence holding two different values has at least two elements. */
  lemma {:induction false} TwoMembers(r: seq<nat>, i: nat, j: nat)
    requires i != j && i in r && j in r
    ensures |r| >= 2
  {
    var k :| 0 <= k < |r| && r[k] == i;
    var l :| 0 <= l < |r| && r[l] == j;
    assert k != l;
  }

  /**
   * Every reported group is two or more files of the walk with the reported hash, picked at
   * their positions in walk order.
   */
  lemma {:induction false} ReportedAreDuplicates(paths: seq<string>, hash: string -> string, h: string)
    requires h in Duplicates(Group(paths, hash))
    ensures var group := Duplicates(Group(paths, hash))[h];
      |group| >= 2 && group == Pick(paths, Positions(paths, hash, h)) &&
      forall k :: 0 <= k < |group| ==> hash(group[k]) == h
  {
    GroupIsPositions(paths, hash);
    PositionsExact(paths, hash, h);
    var r := Positions(paths, hash, h);
    var group := Duplicates(Group(paths, hash))[h];
    forall k | 0 <= k < |group|
      ensures hash(group[k]) == h
    {
      assert r[k] in r;
    }
  }

  // ------------------------------------------------------------------
  // main

  /** One directory of the walk: its path and the names of the files in it. */
  datatype Dir = Dir(path: string, filenames: seq<string>)

  /** `[os.path.join(directory_name, filename) for filename in filenames]`. */
  function DirFiles(d: Dir): (r: seq<string>)
    ensures |r| == |d.filenames| && forall k :: 0 <= k < |r| ==> r[k] == Paths.Join2(d.path, d.filenames[k])
  {
    seq(|d.filenames|, k requires 0 <= k < |d.filenames| => Paths.Join2(d.path, d.filenames[k]))
  }

  /** The files of the walk, in the order `os.walk` yields them. */
  function WalkFiles(walk: seq<Dir>): seq<string> {
    if walk == [] then [] else WalkFiles(walk[..|walk| - 1]) + DirFiles(walk[|walk| - 1])
  }

  /** The hash `get_file_hash` gives each path. */
  function HashOf(content: string -> seq<bv8>, sha1: seq<bv8> -> string): string -> string {
    p => sha1(content(p))
  }

  /** The path walked: the last argument, "." without one. */
  function Root(args: seq<string>): (path: string)
    ensures args == [] ==> path == "."
    ensures args != [] ==> path == args[|args| - 1]
  {
    if args != [] then args[|args| - 1] else "."
  }

  lemma SeqAssoc<T>(a: seq<T>, b: seq<T>, c: seq<T>)
    ensures a + (b + c) == (a + b) + c
  {
  }

  /** One file of the walk: hashed, then appended to the list of its hash. */
  method AddFile(fileHashes: map<string, seq<string>>, filename: string,
                 content: string -> seq<bv8>, sha1: seq<bv8> -> string)
    returns (fileHashes': map<string, seq<string>>)
    ensures fileHashes' == Insert(fileHashes, HashOf(content, sha1)(filename), filename)
  {
    var fileHash, _ := GetFileHash(content(filename), sha1);
    if fileHash in fileHashes {
      fileHashes' := fileHashes[fileHash := fileHashes[fileHash] + [filename]];
    } else {
      assert [] + [filename] == [filename];
      fileHashes' := fileHashes[fileHash := [filename]];
    }
  }

  /** `table` after the files `paths` are inserted in turn. */
  function InsertAll(table: map<string, seq<string>>, paths: seq<string>, hash: string -> string)
    : map<string, seq<string>>
  {
    if paths == [] then table
    else
      var n := |paths| - 1;
      Insert(InsertAll(table, paths[..n], hash), hash(paths[n]), paths[n])
  }

  /** Grouping files found after others continues from the table of the earlier ones. */
  lemma {:induction false} GroupAppend(done: seq<string>, more: seq<string>, hash: string -> string)
    ensures Group(done + more, hash) == InsertAll(Group(done, hash), more, hash)
  {
    if more == [] {
      assert done + more == done;
    } else {
      var n := |more| - 1;
      GroupAppend(done, more[..n], hash);
      assert (done + more)[..|done + more| - 1] == done + more[..n];
    }
  }

  /** The inner loop over one directory's files. */
  method HashDirFiles(filenames: seq<string>, content: string -> seq<bv8>, sha1: seq<bv8> -> string,
                      fileHashes: map<string, seq<string>>)
    returns (fileHashes': map<string, seq<string>>)
    ensures fileHashes' == InsertAll(fileHashes, filenames, HashOf(content, sha1))
  {
    fileHashes' := fileHashes;
    var k := 0;
    while k < |filenames|
      invariant k <= |filenames| && fileHashes' == InsertAll(fileHashes, filenames[..k], HashOf(content, sha1))
    {
      var filename := filenames[k];
      fileHashes' := AddFile(fileHashes', filename, content, sha1);
      assert filenames[..k + 1][..k] == filenames[..k];
      k := k + 1;
    }
    assert filenames[..k] == filenames;
  }

  /** The hashing loop over the walk, building `file_hashes`. */
  method HashFiles(walk: seq<Dir>, content: string -> seq<bv8>, sha1: seq<bv8> -> string)
    returns (fileHashes: map<string, seq<string>>)
    ensures fileHashes == Group(WalkFiles(walk), HashOf(content, sha1))
  {
    fileHashes := map[];
    var d := 0;
    while d < |walk|
      invariant d <= |walk| && fileHashes == Group(WalkFiles(walk[..d]), HashOf(content, sha1))
    {
      var filenames := DirFiles(walk[d]);
      fileHashes := HashDirFiles(filenames, content, sha1, fileHashes);
      GroupAppend(WalkFiles(walk[..d]), filenames, HashOf(content, sha1));
      assert walk[..d + 1][..d] == walk[..d];
      d := d + 1;
    }
    assert walk[..d] == walk;
  }

  /**
   * `main` for the arguments `args`, with `present` the paths that exist and `walk(path)` what
   * `os.walk(path)` yields: a given path that does not exist is a usage error (`parser.error`);
   * otherwise the duplicates, by hash, of the files under the path.
   */
  method Run(args: seq<string>, present: set<string>, walk: string -> seq<Dir>,
             content: string -> seq<bv8>, sha1: seq<bv8> -> string)
    returns (r: Result<map<string, seq<string>>>)
    ensures r.Err? <==> args != [] && args[|args| - 1] !in present
    ensures r.Ok? ==> r.value == Duplicates(Group(WalkFiles(walk(Root(args))), HashOf(content, sha1)))
  {
    var path;
    if |args| > 0 {
      path := args[|args| - 1];
      if path !in present {
        return Err("Path \"" + path + "\" does not exist");
      }
    } else {
      path := ".";
    }
    var fileHashes := HashFiles(walk(path), content, sha1);
    return Ok(Duplicates(fileHashes));
  }
}
