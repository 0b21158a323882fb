/**
 * copy-playlist: copy the songs of an exported iTunes playlist into a target directory and,
 * optionally, delete the files there that are not in the playlist. The file system is a set
 * of existing paths; the user database behind `~user` is a map from user names to home
 * directories, with "" standing for the current user.
 */
module CopyPlaylist {
  import opened Wrappers
  import opened Strings
  import opened Paths

  /** The number of tab-separated fields of a playlist line; the last one is the colon path. */
  const FieldCount: nat := 27

  // ------------------------------------------------------------------
  // one playlist line

  /** The source file of a colon path: its first component is a user name, replaced by that user's home. */
  function SourcePath(colonPath: string, homes: map<string, string>): string {
    var components := Split(colonPath, ':');
    JoinAll([ExpandUser("~" + components[0], homes)] + components[1..])
  }

  /** A playlist line gives a song's source path when, without NULs and stripped, it has 27 tab-separated fields. */
  function SongPath(line: string, homes: map<string, string>): Option<string> {
    var fields := Split(Strip(DeleteChar(line, '\0')), '\t');
    if |fields| != FieldCount then None else Some(SourcePath(fields[FieldCount - 1], homes))
  }

  /** A line written as 27 tab-separated fields is read back as the song of its last field. */
  lemma {:induction false} SongPathOf(fields: seq<string>, homes: map<string, string>)
    requires |fields| == FieldCount
    requires forall i :: 0 <= i < |fields| ==> '\t' !in fields[i] && '\0' !in fields[i]
    requires fields[0] != [] && !IsSpace(fields[0][0])
    requires fields[FieldCount - 1] != [] && !IsSpace(fields[FieldCount - 1][|fields[FieldCount - 1]| - 1])
    ensures SongPath(Join(fields, '\t'), homes) == Some(SourcePath(fields[FieldCount - 1], homes))
  {
    var line := Join(fields, '\t');
    JoinNoChar(fields, '\t', '\0');
    DeleteCharAbsent(line, '\0');
    JoinLast(fields, '\t');
    assert line[0] == fields[0][0];
    StripNoOp(line);
    SplitJoin(fields, '\t');
  }

  /** Joining pieces that lack a character, with a different separator, gives a string that lacks it. */
  lemma {:induction false} JoinNoChar(parts: seq<string>, sep: char, c: char)
    requires sep != c && forall i :: 0 <= i < |parts| ==> c !in parts[i]
    ensures c !in Join(parts, sep)
  {
    if |parts| > 1 {
      JoinNoChar(parts[1..], sep, c);
    }
  }

  /** A join ends with the end of its last part. */
  lemma {:induction false} JoinLast(parts: seq<string>, sep: char)
    requires |parts| >= 1 && parts[|parts| - 1] != []
    ensures var s := Join(parts, sep);
      s != [] && s[|s| - 1] == parts[|parts| - 1][|parts[|parts| - 1]| - 1]
  {
    if |parts| > 1 {
      JoinLast(parts[1..], sep);
    }
  }

  /** The source paths of the songs of `lines`, in order; lines of the wrong shape give none. */
  function Songs(lines: seq<string>, homes: map<string, string>): (r: seq<string>)
    ensures |r| <= |lines|
  {
    if lines == [] then []
    else
      var last := SongPath(lines[|lines| - 1], homes);
      Songs(lines[..|lines| - 1], homes) + (if last.Some? then [last.value] else [])
  }

  // ------------------------------------------------------------------
  // copying

  /** One file copied: from its source into the target directory. */
  datatype Copy = Copy(source: string, target: string)

  function TargetPath(target: string, source: string): string {
    Join2(target, Basename(source))
  }

  /**
   * The copies made for the songs `paths`, in order, and the file system afterwards: a song
   * whose target already exists, or whose source is missing, is skipped.
   */
  function Copies(paths: seq<string>, target: string, fs: set<string>): (seq<Copy>, set<string>) {
    if paths == [] then ([], fs)
    else
      var (cs, now) := Copies(paths[..|paths| - 1], target, fs);
      var source := paths[|paths| - 1];
      var dest := TargetPath(target, source);
      if dest in now || source !in now then (cs, now)
      else (cs + [Copy(source, dest)], now + {dest})
  }

  function Targets(cs: seq<Copy>): set<string> {
    set i | 0 <= i < |cs| :: cs[i].target
  }

  /**
   * Copying never overwrites: every copy goes to a target that did not exist before, no target
   * is written twice, each copy's source existed, and the file system gains exactly the targets.
   */
  lemma {:induction false} CopiesSafe(paths: seq<string>, target: string, fs: set<string>)
    ensures var (cs, after) := Copies(paths, target, fs);
      after == fs + Targets(cs)
      && (forall i :: 0 <= i < |cs| ==>
            cs[i].target !in fs && cs[i].source in after && cs[i].target == TargetPath(target, cs[i].source))
      && (forall i, j :: 0 <= i < j < |cs| ==> cs[i].target != cs[j].target)
  {
    if paths != [] {
      var init := paths[..|paths| - 1];
      CopiesSafe(init, target, fs);
      var (cs, now) := Copies(init, target, fs);
      var source := paths[|paths| - 1];
      var dest := TargetPath(target, source);
      if !(dest in now || source !in now) {
        var cs' := cs + [Copy(source, dest)];
        assert Targets(cs') == Targets(cs) + {dest} by {
          assert forall i :: 0 <= i < |cs| ==> cs'[i] == cs[i];
          assert cs'[|cs|].target == dest;
        }
      }
    }
  }

  /** Every song whose source existed from the start has a file at its target afterwards. */
  lemma {:induction false} CopiesCover(paths: seq<string>, target: string, fs: set<string>)
    ensures forall k :: 0 <= k < |paths| && paths[k] in fs ==> TargetPath(target, paths[k]) in Copies(paths, target, fs).1
  {
    if paths != [] {
      var init := paths[..|paths| - 1];
      CopiesCover(init, target, fs);
      CopiesGrow(init, target, fs);
      assert forall k :: 0 <= k < |paths| - 1 ==> paths[k] == init[k];
    }
  }

  /** The file system only grows. */
  lemma {:induction false} CopiesGrow(paths: seq<string>, target: string, fs: set<string>)
    ensures fs <= Copies(paths, target, fs).1
  {
    if paths != [] {
      CopiesGrow(paths[..|paths| - 1], target, fs);
    }
  }

  /** The basenames of the songs: every song parsed counts as being in the playlist. */
  function Basenames(paths: seq<string>): (r: seq<string>)
    ensures |r| == |paths| && forall i :: 0 <= i < |paths| ==> r[i] == Basename(paths[i])
  {
    seq(|paths|, i requires 0 <= i < |paths| => Basename(paths[i]))
  }

  lemma {:induction false} BasenamesAppend(paths: seq<string>, source: string)
    ensures Basenames(paths + [source]) == Basenames(paths) + [Basename(source)]
  {
  }

  /** The playlist without its first line, a comment naming the fields. */
  function Body(lines: seq<string>): seq<string> {
    if lines == [] then [] else lines[1..]
  }

  /** Reading one more line adds its song, if it has one. */
  lemma {:induction false} SongsStep(lines: seq<string>, i: nat, homes: map<string, string>)
    requires i < |lines|
    ensures var song := SongPath(lines[i], homes);
      Songs(lines[..i + 1], homes) == Songs(lines[..i], homes) + (if song.Some? then [song.value] else [])
  {
    assert lines[..i + 1][..i] == lines[..i];
  }

  /** One more song: copied unless its target exists or its source is missing. */
  lemma {:induction false} CopiesStep(paths: seq<string>, source: string, target: string, fs: set<string>)
    ensures var (cs, now) := Copies(paths, target, fs);
      var dest := TargetPath(target, source);
      Copies(paths + [source], target, fs) ==
        if dest in now || source !in now then (cs, now) else (cs + [Copy(source, dest)], now + {dest})
  {
    assert (paths + [source])[..|paths|] == paths;
  }

  /** What the copy loop has done after the first `i` lines of the playlist's body. */
  predicate Progress(body: seq<string>, i: nat, homes: map<string, string>, target: string, fs: set<string>,
                     copied: seq<string>, copies: seq<Copy>, after: set<string>)
    requires i <= |body|
  {
    copied == Basenames(Songs(body[..i], homes)) && (copies, after) == Copies(Songs(body[..i], homes), target, fs)
  }

  lemma {:induction false} ProgressSkip(body: seq<string>, i: nat, homes: map<string, string>, target: string, fs: set<string>,
                     copied: seq<string>, copies: seq<Copy>, after: set<string>)
    requires i < |body| && Progress(body, i, homes, target, fs, copied, copies, after)
    requires SongPath(body[i], homes).None?
    ensures Progress(body, i + 1, homes, target, fs, copied, copies, after)
  {
    SongsStep(body, i, homes);
    SeqAppendEmpty(Songs(body[..i], homes));
  }

  lemma SeqAppendEmpty<T>(s: seq<T>)
    ensures s + [] == s
  {
  }

  lemma {:induction false} ProgressSong(body: seq<string>, i: nat, homes: map<string, string>, target: string, fs: set<string>,
                     copied: seq<string>, copies: seq<Copy>, after: set<string>, source: string, copy: bool)
    requires i < |body| && Progress(body, i, homes, target, fs, copied, copies, after)
    requires SongPath(body[i], homes) == Some(source)
    requires copy <==> Join2(target, Basename(source)) !in after && source in after
    ensures copy ==> Progress(body, i + 1, homes, target, fs, copied + [Basename(source)],
                              copies + [Copy(source, Join2(target, Basename(source)))],
                              after + {Join2(target, Basename(source))})
    ensures !copy ==> Progress(body, i + 1, homes, target, fs, copied + [Basename(source)], copies, after)
  {
    SongsStep(body, i, homes);
    CopiesStep(Songs(body[..i], homes), source, target, fs);
    BasenamesAppend(Songs(body[..i], homes), source);
  }

  /**
   * One turn of the copy loop of `main`: the song's basename is recorded before the checks,
   * then the song is copied unless its target exists or its source is missing.
   */
  method CopySong(body: seq<string>, i: nat, homes: map<string, string>, target: string, fs: set<string>,
                  copied: seq<string>, copies: seq<Copy>, after: set<string>)
    returns (copied': seq<string>, copies': seq<Copy>, after': set<string>)
    requires i < |body| && Progress(body, i, homes, target, fs, copied, copies, after)
    ensures Progress(body, i + 1, homes, target, fs, copied', copies', after')
  {
    copied', copies', after' := copied, copies, after;
    var song := SongPath(body[i], homes);
    if song.None? {
      ProgressSkip(body, i, homes, target, fs, copied, copies, after);
      return;
    }
    var source := song.value;
    var basename := Basename(source);
    var targetPath := Join2(target, basename);
    var copy := targetPath !in after && source in after;
    ProgressSong(body, i, homes, target, fs, copied, copies, after, source, copy);
    copied' := copied + [basename];
    if copy {
      copies' := copies + [Copy(source, targetPath)];
      after' := after + {targetPath};
    }
  }

  /** The copy loop of `main`, over the playlist after its first line. */
  method CopySongs(lines: seq<string>, homes: map<string, string>, target: string, fs: set<string>)
    returns (copied: seq<string>, copies: seq<Copy>, after: set<string>)
    ensures copied == Basenames(Songs(Body(lines), homes))
    ensures (copies, after) == Copies(Songs(Body(lines), homes), target, fs)
  {
    var body := Body(lines);
    assert body[..0] == [];
    copied, copies, after := [], [], fs;
    var i := 0;
    while i < |body|
      invariant 0 <= i <= |body|
      invariant Progress(body, i, homes, target, fs, copied, copies, after)
    {
      copied, copies, after := CopySong(body, i, homes, target, fs, copied, copies, after);
      i := i + 1;
    }
    assert body[..|body|] == body;
  }

  // ------------------------------------------------------------------
  // deleting

  /** The entries of the target not named by the playlist, in listing order. */
  function Unlisted(listing: seq<string>, copied: seq<string>): seq<string> {
    if listing == [] then []
    else Unlisted(listing[..|listing| - 1], copied)
         + (if listing[|listing| - 1] in copied then [] else [listing[|listing| - 1]])
  }

  /** An entry is deleted exactly when it is listed and not in the playlist. */
  lemma {:induction false} UnlistedMembers(listing: seq<string>, copied: seq<string>)
    ensures forall f :: f in Unlisted(listing, copied) <==> f in listing && f !in copied
  {
    if listing != [] {
      UnlistedMembers(listing[..|listing| - 1], copied);
      assert listing == listing[..|listing| - 1] + [listing[|listing| - 1]];
    }
  }

  /** The deletion loop: with `--delete`, remove each entry of the target not in the playlist. */
  method DeleteUnlisted(listing: seq<string>, copied: seq<string>, target: string, delete: bool)
    returns (removed: seq<string>)
    ensures removed == if delete then Unlisted(listing, copied) else []
  {
    removed := [];
    if !delete {
      return;
    }
    var i := 0;
    while i < |listing|
      invariant 0 <= i <= |listing|
      invariant removed == Unlisted(listing[..i], copied)
    {
      assert listing[..i + 1][..i] == listing[..i];
      if listing[i] !in copied {
        removed := removed + [listing[i]];
      }
      i := i + 1;
    }
    assert listing[..|listing|] == listing;
  }

  // ------------------------------------------------------------------
  // main

  datatype Outcome = Outcome(copies: seq<Copy>, after: set<string>, removed: seq<string>)

  /**
   * `main`: a target that does not exist, or is not a directory, is a usage error; otherwise
   * copy the songs, then delete the unlisted entries of `listing`, the target's contents after
   * copying.
   */
  method Run(lines: seq<string>, homes: map<string, string>, target: string, fs: set<string>,
             dirs: set<string>, delete: bool, listing: seq<string>)
    returns (r: Result<Outcome>)
    ensures r.Err? <==> target !in fs || target !in dirs
    ensures r.Ok? ==> (r.value.copies, r.value.after) == Copies(Songs(Body(lines), homes), target, fs)
    ensures r.Ok? ==> r.value.removed
                      == if delete then Unlisted(listing, Basenames(Songs(Body(lines), homes))) else []
  {
    if target !in fs {
      return Err("Target does not exist");
    }
    if target !in dirs {
      return Err("Target is not a directory");
    }
    var copied, copies, after := CopySongs(lines, homes, target, fs);
    var removed := DeleteUnlisted(listing, copied, target, delete);
    return Ok(Outcome(copies, after, removed));
  }

  /** A file copied in this run is never deleted by the same run. */
  lemma {:induction false} CopiedKept(lines: seq<string>, homes: map<string, string>, target: string, fs: set<string>,
                   listing: seq<string>, i: nat)
    requires var cs := Copies(Songs(Body(lines), homes), target, fs).0; i < |cs|
    ensures var cs := Copies(Songs(Body(lines), homes), target, fs).0;
      Basename(cs[i].source) !in Unlisted(listing, Basenames(Songs(Body(lines), homes)))
  {
    var paths := Songs(Body(lines), homes);
    CopiesSource(paths, target, fs, i);
    UnlistedMembers(listing, Basenames(paths));
  }

  /** Each copy is of one of the songs. */
  lemma {:induction false} CopiesSource(paths: seq<string>, target: string, fs: set<string>, i: nat)
    requires i < |Copies(paths, target, fs).0|
    ensures Copies(paths, target, fs).0[i].source in paths
  {
    var init := paths[..|paths| - 1];
    var cs := Copies(init, target, fs).0;
    if i < |cs| {
      CopiesSource(init, target, fs, i);
      assert forall s :: s in init ==> s in paths;
    }
  }
}
