/** Helpers of `util.py`: the directory scanner, the counted file search and
    the merge of a configuration file over the built-in defaults. */
module Util {
  import opened Common
  import opened FileSystem

  // ---------------------------------------------------------------------
  // scan_dir and find_files
  // ---------------------------------------------------------------------

  /** `entries` is what `os.scandir(dir)` yields: every child of `dir`,
      each once, in the order the OS chooses. */
  ghost predicate IsListing(s: Snapshot, dir: Path, entries: seq<Path>)
  {
    && (forall k :: 0 <= k < |entries| ==> entries[k] in s.nodes && entries[k] != [] && Parent(entries[k]) == dir)
    && (forall p :: p in s.nodes && p != [] && Parent(p) == dir ==> p in entries)
    && (forall j, k :: 0 <= j < k < |entries| ==> entries[j] != entries[k])
  }

  /** A regular file whose suffix is one of `extensions`. */
  predicate Matches(s: Snapshot, p: Path, extensions: seq<string>)
  {
    IsFile(s, p) && Suffix(Name(p)) in extensions
  }

  /** The entries that match, in listing order. */
  function MatchingEntries(s: Snapshot, entries: seq<Path>, extensions: seq<string>): seq<Path>
  {
    if entries == [] then []
    else
      var last := entries[|entries| - 1];
      MatchingEntries(s, entries[..|entries| - 1], extensions) + (if Matches(s, last, extensions) then [last] else [])
  }

  /** `a` is `b` with some elements left out, the rest in the same order. */
  predicate IsSubsequence<T(==)>(a: seq<T>, b: seq<T>)
    decreases |b|
  {
    if a == [] then true
    else if b == [] then false
    else (a[|a| - 1] == b[|b| - 1] && IsSubsequence(a[..|a| - 1], b[..|b| - 1])) || IsSubsequence(a, b[..|b| - 1])
  }

  /** The scan keeps exactly the matching entries and their order. */
  lemma {:induction false} MatchingEntriesFilter(s: Snapshot, entries: seq<Path>, extensions: seq<string>)
    ensures var r := MatchingEntries(s, entries, extensions);
      && (forall p :: p in r <==> p in entries && Matches(s, p, extensions))
      && IsSubsequence(r, entries)
    decreases |entries|
  {
    if entries != [] {
      var init := entries[..|entries| - 1];
      var last := entries[|entries| - 1];
      MatchingEntriesFilter(s, init, extensions);
      assert entries == init + [last];
      var r := MatchingEntries(s, entries, extensions);
      var r0 := MatchingEntries(s, init, extensions);
      if Matches(s, last, extensions) {
        assert r[..|r| - 1] == r0 && r[|r| - 1] == last;
      } else {
        assert r == r0;
        assert r != [] ==> IsSubsequence(r, entries[..|entries| - 1]);
      }
    }
  }

  /** Over a real listing, the scan finds the direct children that match and
      nothing deeper, whatever depth was asked for. */
  lemma DirectChildrenOnly(s: Snapshot, dir: Path, entries: seq<Path>, extensions: seq<string>, p: Path)
    requires IsListing(s, dir, entries)
    ensures p in MatchingEntries(s, entries, extensions) <==> p != [] && Parent(p) == dir && Matches(s, p, extensions)
  {
    MatchingEntriesFilter(s, entries, extensions);
  }

  /** `scan_dir(path, depth, extensions)`: `depth` is decremented and never
      read again, so only the listing of `dir` itself is looked at. */
  method ScanDir(disk: Disk, dir: Path, depth: int, extensions: seq<string>, listing: seq<Path>) returns (found: seq<Path>)
    requires IsListing(disk.State(), dir, listing)
    ensures found == MatchingEntries(disk.State(), listing, extensions)
    ensures forall p :: p in found <==> p != [] && Parent(p) == dir && Matches(disk.State(), p, extensions)
  {
    found := [];
    var i := 0;
    while i < |listing|
      invariant 0 <= i <= |listing|
      invariant found == MatchingEntries(disk.State(), listing[..i], extensions)
    {
      var entry := listing[i];
      assert listing[..i + 1][..i] == listing[..i];
      if disk.HasFile(entry) && Suffix(Name(entry)) in extensions {
        found := found + [entry];
      }
      i := i + 1;
    }
    assert listing[..i] == listing;
    forall p
      ensures p in found <==> p != [] && Parent(p) == dir && Matches(disk.State(), p, extensions)
    {
      DirectChildrenOnly(disk.State(), dir, listing, extensions, p);
    }
  }

  /** A `max_files`/`min_files` argument applies only when truthy: neither
      `None` nor 0. */
  predicate IsBound(bound: Option<int>)
  {
    bound.Some? && bound.value != 0
  }

  predicate TooMany(count: nat, maxFiles: Option<int>)
  {
    IsBound(maxFiles) && count > maxFiles.value
  }

  predicate TooFew(count: nat, minFiles: Option<int>)
  {
    IsBound(minFiles) && count < minFiles.value
  }

  /** The count check shared by both `find_files`: the maximum is checked
      first, then the minimum. */
  function CountCheck(count: nat, maxFiles: Option<int>, minFiles: Option<int>): (e: Option<Error>)
    ensures e.None? <==> !TooMany(count, maxFiles) && !TooFew(count, minFiles)
    ensures TooMany(count, maxFiles) ==> e == Some(TooManyFiles(count, maxFiles.value))
    ensures !TooMany(count, maxFiles) && TooFew(count, minFiles) ==> e == Some(TooFewFiles(count, minFiles.value))
  {
    if TooMany(count, maxFiles) then Some(TooManyFiles(count, maxFiles.value))
    else if TooFew(count, minFiles) then Some(TooFewFiles(count, minFiles.value))
    else None
  }

  /** What `find_files` collects before counting: the path itself when it is
      a matching file, the scan of it when it is a directory, else nothing. */
  function Candidates(s: Snapshot, path: Path, extensions: seq<string>, listing: seq<Path>): seq<Path>
  {
    if Matches(s, path, extensions) then [path]
    else if IsDir(s, path) then MatchingEntries(s, listing, extensions)
    else []
  }

  /** `find_files(path, extensions, depth, max_files, min_files)`; `listing`
      is what the OS lists for `path` when it is a directory. */
  method FindFiles(disk: Disk, path: Path, extensions: seq<string>, depth: int,
                   maxFiles: Option<int>, minFiles: Option<int>, listing: seq<Path>)
    returns (r: Result<seq<Path>>)
    requires IsDir(disk.State(), path) ==> IsListing(disk.State(), path, listing)
    ensures var found := Candidates(disk.State(), path, extensions, listing);
      && (r.Ok? <==> !TooMany(|found|, maxFiles) && !TooFew(|found|, minFiles))
      && (r.Ok? ==> r.value == found)
      && (r.Err? ==> Some(r.error) == CountCheck(|found|, maxFiles, minFiles))
    ensures Matches(disk.State(), path, extensions) && r.Ok? ==> r.value == [path]
    ensures !Matches(disk.State(), path, extensions) && !IsDir(disk.State(), path) ==>
      r == (if TooMany(0, maxFiles) then Err(TooManyFiles(0, maxFiles.value))
            else if TooFew(0, minFiles) then Err(TooFewFiles(0, minFiles.value))
            else Ok([]))
    ensures r.Ok? ==> forall p :: p in r.value ==> Matches(disk.State(), p, extensions)
    ensures r.Ok? && IsDir(disk.State(), path) ==>
      forall p :: p in r.value <==> p != [] && Parent(p) == path && Matches(disk.State(), p, extensions)
  {
    var foundPaths: seq<Path> := [];
    if disk.HasFile(path) && Suffix(Name(path)) in extensions {
      foundPaths := foundPaths + [path];
    } else if disk.HasDir(path) {
      var results := ScanDir(disk, path, depth, extensions, listing);
      var i := 0;
      while i < |results|
        invariant 0 <= i <= |results|
        invariant foundPaths == results[..i]
      {
        foundPaths := foundPaths + [results[i]];
        i := i + 1;
      }
      assert results[..i] == results;
      MatchingEntriesFilter(disk.State(), listing, extensions);
    }
    if IsBound(maxFiles) && |foundPaths| > maxFiles.value {
      return Err(TooManyFiles(|foundPaths|, maxFiles.value));
    }
    if IsBound(minFiles) && |foundPaths| < minFiles.value {
      return Err(TooFewFiles(|foundPaths|, minFiles.value));
    }
    r := Ok(foundPaths);
  }

  // ---------------------------------------------------------------------
  // ConfigHandler
  // ---------------------------------------------------------------------

  /** A TOML value as the decoder delivers it. */
  datatype Toml = TStr(s: string) | TInt(i: int) | TBool(b: bool) | TArray(items: seq<Toml>) | TTable(entries: map<string, Toml>)

  type Section = map<string, Toml>

  /** The built-in sections, in the order the merge visits them. */
  const Sections: seq<string> := ["movies", "tv", "extensions"]

  function Defaults(): map<string, Section>
  {
    map[
      "movies" := map[],
      "tv" := map[],
      "extensions" := map[
        "video" := TArray([TStr(".mp4"), TStr(".mkv"), TStr(".avi")]),
        "subtitle" := TArray([TStr(".srt")]),
        "subtitle_default_language" := TStr(".en"),
        "archive" := TArray([TStr(".rar")])
      ]
    ]
  }

  /** The merge of `load`, section by section in `keys` order: the file's
      table for a section is laid over the current one; a section missing
      from the file, or not a table, stops the merge there. */
  function MergeSections(config: map<string, Section>, parsed: map<string, Toml>, keys: seq<string>): (map<string, Section>, Option<Error>)
    requires forall k :: k in keys ==> k in config
  {
    if keys == [] then (config, None)
    else
      var key := keys[0];
      if key !in parsed then (config, Some(MissingKey(key)))
      else if !parsed[key].TTable? then (config, Some(NotATable(key)))
      else MergeSections(config[key := config[key] + parsed[key].entries], parsed, keys[1..])
  }

  /** A file that has every section as a table: each section's keys from the
      file override the defaults, default keys the file lacks survive, and
      the set of sections is unchanged (extra sections in the file are
      ignored). */
  lemma {:induction false} MergeComplete(config: map<string, Section>, parsed: map<string, Toml>, keys: seq<string>)
    requires forall k :: k in keys ==> k in config && k in parsed && parsed[k].TTable?
    requires forall j, k :: 0 <= j < k < |keys| ==> keys[j] != keys[k]
    ensures var (merged, err) := MergeSections(config, parsed, keys);
      && err == None
      && merged.Keys == config.Keys
      && (forall k :: k in keys ==> merged[k] == config[k] + parsed[k].entries)
      && (forall k :: k in config && k !in keys ==> merged[k] == config[k])
    decreases |keys|
  {
    if keys != [] {
      var key := keys[0];
      var next := config[key := config[key] + parsed[key].entries];
      assert forall k :: k in keys[1..] ==> k in keys && k != key by {
        forall k | k in keys[1..] ensures k in keys && k != key {
          var j :| 1 <= j < |keys| && keys[j] == k;
          assert keys[j - 1 + 1] == k;
        }
      }
      assert forall j, k :: 0 <= j < k < |keys[1..]| ==> keys[1..][j] != keys[1..][k] by {
        forall j, k | 0 <= j < k < |keys[1..]| ensures keys[1..][j] != keys[1..][k] {
          assert keys[1..][j] == keys[j + 1] && keys[1..][k] == keys[k + 1];
        }
      }
      MergeComplete(next, parsed, keys[1..]);
    }
  }

  /** The first section the file lacks raises the KeyError: the sections
      before it are already merged, it and the later ones keep their values. */
  lemma {:induction false} MergeStopsAtMissing(config: map<string, Section>, parsed: map<string, Toml>, keys: seq<string>, m: nat)
    requires forall k :: k in keys ==> k in config
    requires forall j, k :: 0 <= j < k < |keys| ==> keys[j] != keys[k]
    requires m < |keys| && keys[m] !in parsed
    requires forall j :: 0 <= j < m ==> keys[j] in parsed && parsed[keys[j]].TTable?
    ensures var (merged, err) := MergeSections(config, parsed, keys);
      && err == Some(MissingKey(keys[m]))
      && merged.Keys == config.Keys
      && (forall j :: 0 <= j < m ==> merged[keys[j]] == config[keys[j]] + parsed[keys[j]].entries)
      && (forall k :: k in config && k !in keys[..m] ==> merged[k] == config[k])
    decreases m
  {
    if m > 0 {
      var key := keys[0];
      var next := config[key := config[key] + parsed[key].entries];
      var rest := keys[1..];
      assert forall j, k :: 0 <= j < k < |rest| ==> rest[j] != rest[k] by {
        forall j, k | 0 <= j < k < |rest| ensures rest[j] != rest[k] {
          assert rest[j] == keys[j + 1] && rest[k] == keys[k + 1];
        }
      }
      assert forall j :: 0 <= j < m - 1 ==> rest[j] == keys[j + 1];
      MergeStopsAtMissing(next, parsed, rest, m - 1);
      assert keys[..m] == [key] + rest[..m - 1];
      forall k | k in config && k !in keys[..m]
        ensures MergeSections(config, parsed, keys).0[k] == config[k]
      {
        assert k != key && k !in rest[..m - 1];
      }
      forall j | 0 <= j < m
        ensures MergeSections(config, parsed, keys).0[keys[j]] == config[keys[j]] + parsed[keys[j]].entries
      {
        if j > 0 {
          assert keys[j] == rest[j - 1] && keys[j] != key;
        } else {
          var pre := rest[..m - 1];
          assert key !in pre by {
            forall i | 0 <= i < |pre| ensures pre[i] != key {
              assert pre[i] == keys[i + 1];
            }
          }
          assert key !in keys[m..] by {
            forall i | m <= i < |keys| ensures keys[i] != key { }
          }
        }
      }
    }
  }

  /** The configuration, built-in defaults first, then a file laid over them. */
  class ConfigHandler {
    var config: map<string, Section>

    /** The configuration has exactly the built-in sections, so iterating
        its keys is iterating `Sections`. */
    ghost predicate Valid()
      reads this
    {
      config.Keys == {"movies", "tv", "extensions"}
    }

    constructor ()
      ensures Valid() && config == Defaults()
    {
      config := Defaults();
    }

    /** `load(path)` after the file has been opened and decoded into `parsed`. */
    method Load(parsed: map<string, Toml>) returns (err: Option<Error>)
      requires Valid()
      modifies this
      ensures Valid()
      ensures (config, err) == MergeSections(old(config), parsed, Sections)
    {
      var i := 0;
      while i < |Sections|
        invariant 0 <= i <= |Sections| && Valid()
        invariant MergeSections(config, parsed, Sections[i..]) == MergeSections(old(config), parsed, Sections)
      {
        var key := Sections[i];
        if key !in parsed {
          return Some(MissingKey(key));
        }
        if !parsed[key].TTable? {
          return Some(NotATable(key));
        }
        config := config[key := config[key] + parsed[key].entries];
        assert Sections[i..][1..] == Sections[i + 1..];
        i := i + 1;
      }
      err := None;
    }
  }
}
