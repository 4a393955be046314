/** The base `Torrent` of `torrent.py`: finding a torrent's files with their
    metadata, the metadata merge, and the two placement operations
    `create_plex_dir` and `create_plex_file`. A placement run of a movie or a
    show is described as a plan of steps, and `Run` says what executing a
    plan does to the filesystem. */
module Torrent {
  import opened Common
  import opened FileSystem
  import opened Values
  import Util

  type Metadata = map<string, Value>

  /** `PTN.parse`: an opaque, deterministic name parser. */
  type Parser = string -> Metadata

  /** `scan_for_file_paths(path, depth, extensions)`: an opaque scanner of a
      directory of the given filesystem, results in its enumeration order. */
  type Scanner = (Snapshot, Path, int, seq<string>) -> seq<Path>

  /** What every torrent is constructed from. */
  datatype Torrent = Torrent(name: string, dir: Path, overrides: Metadata)
  {
    /** `Path(torrent_dir) / torrent_name`. */
    function TorrentPath(): Path
    {
      Join(dir, name)
    }
  }

  /** The configured extensions: `config["extensions"]`. */
  datatype Extensions = Extensions(video: seq<string>, subtitle: seq<string>, subtitleDefaultLanguage: string)

  /** One entry of the list `find_files` returns: `{"path": ...}` with a
      `"metadata"` entry when metadata was asked for. */
  datatype FoundFile = FoundFile(path: Path, metadata: Option<Metadata>)

  /** The paths of found files, in order. */
  function Paths(files: seq<FoundFile>): (r: seq<Path>)
    ensures |r| == |files| && forall i | 0 <= i < |files| :: r[i] == files[i].path
  {
    if files == [] then [] else [files[0].path] + Paths(files[1..])
  }

  // ---------------------------------------------------------------------
  // get_metadata
  // ---------------------------------------------------------------------

  /** The overrides with every falsy value dropped. */
  function TruthyOverrides(overrides: Metadata): (r: Metadata)
    ensures forall k :: k in r <==> k in overrides && Truthy(overrides[k])
    ensures forall k :: k in r ==> r[k] == overrides[k]
  {
    map k | k in overrides && Truthy(overrides[k]) :: overrides[k]
  }

  /** `get_metadata(torrent_name, filename, overrides)`: the torrent name's
      parse, then the file name's parse, then the truthy overrides, each later
      source winning key by key. */
  function GetMetadata(parse: Parser, torrentName: string, fileName: string, overrides: Metadata): (r: Metadata)
    ensures r.Keys == parse(torrentName).Keys + parse(fileName).Keys + TruthyOverrides(overrides).Keys
    ensures forall k :: k in overrides && Truthy(overrides[k]) ==> r[k] == overrides[k]
    ensures forall k :: k in parse(fileName) && !(k in overrides && Truthy(overrides[k])) ==>
      r[k] == parse(fileName)[k]
    ensures forall k :: k in parse(torrentName) && k !in parse(fileName) && !(k in overrides && Truthy(overrides[k])) ==>
      r[k] == parse(torrentName)[k]
  {
    parse(torrentName) + parse(fileName) + TruthyOverrides(overrides)
  }

  /** A falsy override is as good as no override at all. */
  lemma FalsyOverrideIgnored(parse: Parser, torrentName: string, fileName: string, overrides: Metadata, k: string)
    requires k in overrides && !Truthy(overrides[k])
    ensures GetMetadata(parse, torrentName, fileName, overrides) == GetMetadata(parse, torrentName, fileName, overrides - {k})
  {
  }

  /** A truthy override is applied unchanged to every file of the torrent: an
      episode override is not incremented from file to file. */
  lemma OverrideSameForEveryFile(parse: Parser, torrentName: string, f1: string, f2: string, overrides: Metadata, k: string)
    requires k in overrides && Truthy(overrides[k])
    ensures GetMetadata(parse, torrentName, f1, overrides)[k] == GetMetadata(parse, torrentName, f2, overrides)[k] == overrides[k]
  {
  }

  // ---------------------------------------------------------------------
  // find_files
  // ---------------------------------------------------------------------

  /** The paths `find_files` collects before counting. */
  function ScannedPaths(s: Snapshot, path: Path, extensions: seq<string>, depth: int, scan: Scanner): seq<Path>
  {
    if Util.Matches(s, path, extensions) then [path]
    else if IsDir(s, path) then scan(s, path, depth, extensions)
    else []
  }

  /** `Torrent.find_files`: collect, check the count, then attach to every
      file, in order, the metadata of the torrent name and its own name. */
  method FindFiles(disk: Disk, t: Torrent, path: Path, extensions: seq<string>, depth: int,
                   maxFiles: Option<int>, minFiles: Option<int>, withMetadata: bool,
                   scan: Scanner, parse: Parser)
    returns (r: Result<seq<FoundFile>>)
    ensures var found := ScannedPaths(disk.State(), path, extensions, depth, scan);
      && (r.Ok? <==> !Util.TooMany(|found|, maxFiles) && !Util.TooFew(|found|, minFiles))
      && (r.Err? ==> Some(r.error) == Util.CountCheck(|found|, maxFiles, minFiles))
      && (r.Ok? ==> |r.value| == |found|)
      && (r.Ok? ==> forall i :: 0 <= i < |found| ==> r.value[i].path == found[i])
      && (r.Ok? && withMetadata ==> forall i :: 0 <= i < |found| ==>
            r.value[i].metadata == Some(GetMetadata(parse, t.name, Name(found[i]), t.overrides)))
      && (r.Ok? && !withMetadata ==> forall i :: 0 <= i < |found| ==> r.value[i].metadata == None)
  {
    ghost var found := ScannedPaths(disk.State(), path, extensions, depth, scan);
    var files: seq<FoundFile> := [];
    if disk.HasFile(path) && Suffix(Name(path)) in extensions {
      files := files + [FoundFile(path, None)];
    } else if disk.HasDir(path) {
      var scanned := scan(disk.State(), path, depth, extensions);
      var i := 0;
      while i < |scanned|
        invariant 0 <= i <= |scanned|
        invariant |files| == i
        invariant forall k :: 0 <= k < i ==> files[k] == FoundFile(scanned[k], None)
      {
        files := files + [FoundFile(scanned[i], None)];
        i := i + 1;
      }
    }
    assert |files| == |found|;
    if Util.IsBound(maxFiles) && |files| > maxFiles.value {
      return Err(TooManyFiles(|files|, maxFiles.value));
    }
    if Util.IsBound(minFiles) && |files| < minFiles.value {
      return Err(TooFewFiles(|files|, minFiles.value));
    }
    if withMetadata {
      var i := 0;
      while i < |files|
        invariant 0 <= i <= |files| == |found|
        invariant forall k :: 0 <= k < i ==>
          files[k] == FoundFile(found[k], Some(GetMetadata(parse, t.name, Name(found[k]), t.overrides)))
        invariant forall k :: i <= k < |files| ==> files[k] == FoundFile(found[k], None)
      {
        files := files[i := files[i].(metadata := Some(GetMetadata(parse, t.name, Name(files[i].path), t.overrides)))];
        i := i + 1;
      }
    }
    r := Ok(files);
  }

  // ---------------------------------------------------------------------
  // create_plex_dir and create_plex_file
  // ---------------------------------------------------------------------

  /** The three command-line switches every placement obeys. */
  datatype Options = Options(links: bool, overwrite: bool, dryRun: bool)

  /** `create_plex_dir(path, dry_run)`. */
  function PlexDir(s: Snapshot, path: Path, dryRun: bool): Outcome
  {
    if path in s.nodes then
      if s.nodes[path].Dir? then Outcome(s, None) else Outcome(s, Some(NotADirectory(path)))
    else if dryRun then Outcome(s, None)
    else MakeDir(s, path)
  }

  /** `create_plex_file(src_path, dst_path, links, overwrite, dry_run)`. */
  function PlexFile(s: Snapshot, src: Path, dst: Path, links: bool, overwrite: bool, dryRun: bool): Outcome
  {
    if dst in s.nodes && !s.nodes[dst].File? then Outcome(s, Some(NotAFile(dst)))
    else if dst in s.nodes && !overwrite then Outcome(s, Some(AlreadyExists(dst)))
    else if dryRun then Outcome(s, None)
    else
      var cleared := if dst in s.nodes then Unlink(s, dst) else s;
      if links then HardLink(cleared, src, dst) else CopyFile(cleared, src, dst)
  }

  /** An existing non-directory is an error, an existing directory is left
      alone, and an absent one is created only outside a dry run. */
  lemma PlexDirCases(s: Snapshot, path: Path, dryRun: bool)
    ensures path in s.nodes && !s.nodes[path].Dir? ==> PlexDir(s, path, dryRun) == Outcome(s, Some(NotADirectory(path)))
    ensures IsDir(s, path) ==> PlexDir(s, path, dryRun) == Outcome(s, None)
    ensures path !in s.nodes && dryRun ==> PlexDir(s, path, dryRun) == Outcome(s, None)
    ensures path !in s.nodes && !dryRun && path != [] && IsDir(s, Parent(path)) ==>
      PlexDir(s, path, dryRun) == Outcome(s.(nodes := s.nodes[path := Dir]), None)
    ensures path !in s.nodes && !dryRun && (path == [] || !IsDir(s, Parent(path))) ==>
      PlexDir(s, path, dryRun) == Outcome(s, Some(OsFailure(path)))
  {
  }

  /** Ensuring a directory twice is the same as ensuring it once. */
  lemma PlexDirIdempotent(s: Snapshot, path: Path, dryRun: bool)
    requires PlexDir(s, path, dryRun).error.None?
    ensures var t := PlexDir(s, path, dryRun).state; PlexDir(t, path, dryRun) == Outcome(t, None)
  {
  }

  /** A destination that exists as a non-file, or as a file without
      `overwrite`, is an error and nothing is changed, dry run or not. */
  lemma PlexFileConflicts(s: Snapshot, src: Path, dst: Path, links: bool, overwrite: bool, dryRun: bool)
    ensures dst in s.nodes && !s.nodes[dst].File? ==>
      PlexFile(s, src, dst, links, overwrite, dryRun) == Outcome(s, Some(NotAFile(dst)))
    ensures IsFile(s, dst) && !overwrite ==>
      PlexFile(s, src, dst, links, overwrite, dryRun) == Outcome(s, Some(AlreadyExists(dst)))
  {
  }

  /** A successful placement outside a dry run leaves a file at the
      destination: the source's own file for a link, a new file with the
      source's bytes for a copy; every other path keeps its node. */
  lemma PlexFilePlaced(s: Snapshot, src: Path, dst: Path, links: bool, overwrite: bool)
    requires WellFormed(s)
    requires PlexFile(s, src, dst, links, overwrite, false).error.None?
    ensures var t := PlexFile(s, src, dst, links, overwrite, false).state;
      && src != dst && IsFile(s, src) && IsFile(t, dst)
      && (links ==> t.nodes[dst] == s.nodes[src])
      && (!links ==> t.nodes[dst].content == s.nodes[src].content
                     && forall p :: p in s.nodes && s.nodes[p].File? ==> s.nodes[p].id != t.nodes[dst].id)
      && (forall p :: p != dst ==> (p in t.nodes <==> p in s.nodes) && (p in s.nodes ==> t.nodes[p] == s.nodes[p]))
  {
  }

  /** `create_plex_file` exactly as written: the error for a destination that
      exists but is not a file reports the source path instead. */
  function PlexFileAsWritten(s: Snapshot, src: Path, dst: Path, links: bool, overwrite: bool, dryRun: bool): Outcome
  {
    if dst in s.nodes && !s.nodes[dst].File? then Outcome(s, Some(NotAFile(src)))
    else PlexFile(s, src, dst, links, overwrite, dryRun)
  }

  /** As written, linking a regular file onto an existing directory reports
      that the regular file "exists and is not a file". */
  lemma AsWrittenBlamesTheSource()
    ensures var s := Snapshot(map[[] := Dir, ["movie.mkv"] := File(0, []), ["Plex"] := Dir], 1);
      && IsFile(s, ["movie.mkv"]) && !IsFile(s, ["Plex"])
      && PlexFileAsWritten(s, ["movie.mkv"], ["Plex"], true, false, false).error == Some(NotAFile(["movie.mkv"]))
  {
  }

  /** The corrected check: a `NotAFile` error always names the destination,
      which exists and is not a regular file. */
  lemma NotAFileNamesTheConflict(s: Snapshot, src: Path, dst: Path, links: bool, overwrite: bool, dryRun: bool, q: Path)
    requires PlexFile(s, src, dst, links, overwrite, dryRun).error == Some(NotAFile(q))
    ensures q == dst && q in s.nodes && !s.nodes[q].File?
  {
  }

  // ---------------------------------------------------------------------
  // Placement plans
  // ---------------------------------------------------------------------

  /** One action of a placement run: ensure a directory, place a file, or
      raise an error found while computing names. */
  datatype Step = MkDir(path: Path) | Place(src: Path, dst: Path) | Fail(error: Error)

  /** The path a step may create, replace or remove. */
  predicate Touches(step: Step, p: Path)
  {
    match step
    case MkDir(q) => q == p
    case Place(_, dst) => dst == p
    case Fail(_) => false
  }

  function Apply(s: Snapshot, step: Step, o: Options): Outcome
  {
    match step
    case MkDir(p) => PlexDir(s, p, o.dryRun)
    case Place(src, dst) => PlexFile(s, src, dst, o.links, o.overwrite, o.dryRun)
    case Fail(e) => Outcome(s, Some(e))
  }

  /** Executing a plan: steps in order, the first error ends the run and
      keeps whatever the earlier steps did. */
  function Run(s: Snapshot, steps: seq<Step>, o: Options): Outcome
    decreases |steps|
  {
    if steps == [] then Outcome(s, None)
    else
      var r := Apply(s, steps[0], o);
      if r.error.Some? then r else Run(r.state, steps[1..], o)
  }

  /** Running `a + b` is running `a` and, if it succeeded, `b` after it. */
  lemma {:induction false} RunAppend(s: Snapshot, a: seq<Step>, b: seq<Step>, o: Options)
    ensures Run(s, a + b, o) == (var r := Run(s, a, o); if r.error.Some? then r else Run(r.state, b, o))
    decreases |a|
  {
    if a != [] {
      assert (a + b)[0] == a[0] && (a + b)[1..] == a[1..] + b;
      var r := Apply(s, a[0], o);
      if r.error.None? {
        RunAppend(r.state, a[1..], b, o);
      } else {
        assert Run(s, a + b, o) == r && Run(s, a, o) == r;
      }
    } else {
      assert a + b == b;
    }
  }

  /** A dry run changes nothing, whatever the plan, `links` and `overwrite`. */
  lemma {:induction false} DryRunChangesNothing(s: Snapshot, steps: seq<Step>, o: Options)
    requires o.dryRun
    ensures Run(s, steps, o).state == s
    decreases |steps|
  {
    if steps != [] {
      var r := Apply(s, steps[0], o);
      assert r.state == s;
      DryRunChangesNothing(s, steps[1..], o);
    }
  }

  /** Every run keeps the tree well formed. */
  lemma {:induction false} RunKeepsTree(s: Snapshot, steps: seq<Step>, o: Options)
    requires WellFormed(s)
    ensures WellFormed(Run(s, steps, o).state)
    decreases |steps|
  {
    if steps != [] {
      ApplyKeepsTree(s, steps[0], o);
      var r := Apply(s, steps[0], o);
      if r.error.None? {
        RunKeepsTree(r.state, steps[1..], o);
      }
    }
  }

  lemma ApplyKeepsTree(s: Snapshot, step: Step, o: Options)
    requires WellFormed(s)
    ensures WellFormed(Apply(s, step, o).state)
  {
  }

  /** A path no step of the plan names keeps its node. */
  lemma {:induction false} RunTouchesOnlyTargets(s: Snapshot, steps: seq<Step>, o: Options, p: Path)
    requires forall k :: 0 <= k < |steps| ==> !Touches(steps[k], p)
    ensures var t := Run(s, steps, o).state;
      (p in t.nodes <==> p in s.nodes) && (p in s.nodes ==> t.nodes[p] == s.nodes[p])
    decreases |steps|
  {
    if steps != [] {
      var r := Apply(s, steps[0], o);
      assert !Touches(steps[0], p);
      assert (p in r.state.nodes <==> p in s.nodes) && (p in s.nodes ==> r.state.nodes[p] == s.nodes[p]);
      if r.error.None? {
        RunTouchesOnlyTargets(r.state, steps[1..], o, p);
      }
    }
  }

  // ---------------------------------------------------------------------
  // The operations on the live filesystem
  // ---------------------------------------------------------------------

  /** `Torrent.create_plex_dir`. */
  method CreatePlexDir(disk: Disk, path: Path, dryRun: bool) returns (err: Option<Error>)
    requires disk.Valid()
    modifies disk
    ensures disk.Valid()
    ensures Outcome(disk.State(), err) == PlexDir(old(disk.State()), path, dryRun)
  {
    if disk.Exists(path) {
      if !disk.HasDir(path) {
        return Some(NotADirectory(path));
      }
      err := None;
    } else if !dryRun {
      err := disk.Mkdir(path);
    } else {
      err := None;
    }
  }

  /** `Torrent.create_plex_file`. */
  method CreatePlexFile(disk: Disk, src: Path, dst: Path, links: bool, overwrite: bool, dryRun: bool)
    returns (err: Option<Error>)
    requires disk.Valid()
    modifies disk
    ensures disk.Valid()
    ensures Outcome(disk.State(), err) == PlexFile(old(disk.State()), src, dst, links, overwrite, dryRun)
  {
    if disk.Exists(dst) {
      if !disk.HasFile(dst) {
        return Some(NotAFile(dst));
      } else if overwrite {
        if !dryRun {
          disk.Remove(dst);
        }
      } else {
        return Some(AlreadyExists(dst));
      }
    }
    if dryRun {
      err := None;
    } else if links {
      err := disk.LinkFrom(dst, src);
    } else {
      err := disk.Copy(src, dst);
    }
  }
}
