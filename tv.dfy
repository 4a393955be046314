/** `tv.py`: a TV torrent holds any number of episodes, the videos the
    scanner returns when asked for depth 2. Each is placed as
    `library/Show/Season NN/SNNENN.ext`, creating both folders on the way. */
module Tv {
  import opened Common
  import opened FileSystem
  import opened Values
  import opened Torrent

  /** A constructed TV torrent: the subtitles and the episode videos found in it. */
  datatype Tv = Tv(torrent: Torrent, subtitles: seq<FoundFile>, videos: seq<FoundFile>)

  /** What construction guarantees: every video carries its metadata. */
  predicate Constructed(tv: Tv)
  {
    forall i | 0 <= i < |tv.videos| :: tv.videos[i].metadata.Some?
  }

  /** `Tv(torrent_name, torrent_dir, overrides)`: subtitles without metadata,
      then every path the scanner returns for depth 2, with metadata. No
      bounds apply, so construction always succeeds. */
  method NewTv(disk: Disk, t: Torrent, ext: Extensions, scan: Scanner, parse: Parser) returns (tv: Tv)
    ensures var vids := ScannedPaths(disk.State(), t.TorrentPath(), ext.video, 2, scan);
            var subs := ScannedPaths(disk.State(), t.TorrentPath(), ext.subtitle, 1, scan);
      && Constructed(tv) && tv.torrent == t
      && |tv.videos| == |vids|
      && (forall i | 0 <= i < |vids| ::
            tv.videos[i] == FoundFile(vids[i], Some(GetMetadata(parse, t.name, Name(vids[i]), t.overrides))))
      && |tv.subtitles| == |subs|
      && (forall i | 0 <= i < |subs| :: tv.subtitles[i] == FoundFile(subs[i], None))
  {
    var subtitles := FindFiles(disk, t, t.TorrentPath(), ext.subtitle, 1, None, None, false, scan, parse);
    var videos := FindFiles(disk, t, t.TorrentPath(), ext.video, 2, None, None, true, scan, parse);
    tv := Tv(t, if subtitles.Ok? then subtitles.value else [], if videos.Ok? then videos.value else []);
  }

  // ---------------------------------------------------------------------
  // Names
  // ---------------------------------------------------------------------

  /** The show folder's name: `"Title (Year)"` when a year is known, else the
      title itself, which must then be a string to be joined to a path. */
  function ShowName(md: Metadata): Result<string>
  {
    if "title" !in md then Err(MissingKey("title"))
    else if "year" in md then Ok(TitleAndYear(md["title"], md["year"]))
    else if md["title"].Str? then Ok(md["title"].s)
    else Err(NotAString("title"))
  }

  /** `f"Season {season:02d}"`. */
  function SeasonFolderName(season: int): string
  {
    "Season " + Pad2(season)
  }

  /** `f"S{season:02d}E{episode:02d}{suffix}"`. */
  function EpisodeFileName(season: int, episode: int, suffix: string): string
  {
    "S" + Pad2(season) + "E" + Pad2(episode) + suffix
  }

  /** Reads a season folder's name back to its season number. */
  function ParseSeasonFolderName(name: string): Option<int>
  {
    if |name| < 7 || name[..7] != "Season " then None
    else match ReadInt(name[7..])
      case Some((n, rest)) => if rest == [] then Some(n) else None
      case None => None
  }

  /** Reads an episode file's name back to season, episode and suffix. */
  function ParseEpisodeFileName(name: string): Option<(int, int, string)>
  {
    if name == [] || name[0] != 'S' then None
    else match ReadInt(name[1..])
      case None => None
      case Some((season, rest)) =>
        if rest == [] || rest[0] != 'E' then None
        else match ReadInt(rest[1..])
          case None => None
          case Some((episode, suffix)) => Some((season, episode, suffix))
  }

  // ---------------------------------------------------------------------
  // The placement plan
  // ---------------------------------------------------------------------

  /** The episode's file, once its season folder exists. */
  function EpisodeSteps(video: FoundFile, seasonFolder: Path, season: int): seq<Step>
    requires video.metadata.Some?
  {
    var md := video.metadata.value;
    if "episode" !in md then [Fail(MissingKey("episode"))]
    else if AsInt(md["episode"]).None? then [Fail(NotFormattable("episode"))]
    else [Place(video.path, seasonFolder + [EpisodeFileName(season, AsInt(md["episode"]).value, Suffix(Name(video.path)))])]
  }

  /** The season folder and the episode's file, once the show folder exists. */
  function SeasonSteps(video: FoundFile, show: Path): seq<Step>
    requires video.metadata.Some?
  {
    var md := video.metadata.value;
    if "season" !in md then [Fail(MissingKey("season"))]
    else if AsInt(md["season"]).None? then [Fail(NotFormattable("season"))]
    else
      var season := AsInt(md["season"]).value;
      var seasonFolder := show + [SeasonFolderName(season)];
      [MkDir(seasonFolder)] + EpisodeSteps(video, seasonFolder, season)
  }

  /** One pass of `Tv.to_plex`'s loop: the show folder, then the season
      folder, then the episode. Each key is looked up only when reached; a
      file scanned without metadata fails at the first lookup. */
  function VideoSteps(video: FoundFile, library: Path): seq<Step>
  {
    match video.metadata
    case None => [Fail(MissingKey("metadata"))]
    case Some(md) =>
      match ShowName(md)
      case Err(e) => [Fail(e)]
      case Ok(name) => [MkDir(Join(library, name))] + SeasonSteps(video, Join(library, name))
  }

  /** The steps `plan` gives every video, in order. */
  function Each(videos: seq<FoundFile>, plan: FoundFile -> seq<Step>): seq<Step>
    decreases |videos|
  {
    if videos == [] then [] else plan(videos[0]) + Each(videos[1..], plan)
  }

  /** One video's pass, as a value `Each` can apply. */
  function VideoPlan(library: Path): FoundFile -> seq<Step>
  {
    video => VideoSteps(video, library)
  }

  /** `Tv.to_plex` as a plan: every video's steps, in order. */
  function TvSteps(videos: seq<FoundFile>, library: Path): seq<Step>
  {
    Each(videos, VideoPlan(library))
  }

  /** Running a plan that starts with a directory: the directory, then the
      rest unless making the directory failed. */
  lemma RunAfterDir(s: Snapshot, path: Path, rest: seq<Step>, o: Options, after: Outcome, goal: Outcome)
    requires Run(s, [MkDir(path)] + rest, o) == goal
    requires after == PlexDir(s, path, o.dryRun)
    ensures after.error.Some? ==> after == goal
    ensures after.error.None? ==> Run(after.state, rest, o) == goal
  {
  }

  /** The show, season and episode of one video. */
  method PlaceEpisode(disk: Disk, video: FoundFile, library: Path, o: Options) returns (err: Option<Error>)
    requires disk.Valid()
    modifies disk
    ensures disk.Valid()
    ensures Outcome(disk.State(), err) == Run(old(disk.State()), VideoSteps(video, library), o)
  {
    ghost var goal := Run(disk.State(), VideoSteps(video, library), o);
    var path := video.path;
    if video.metadata.None? {
      return Some(MissingKey("metadata"));
    }
    var metadata := video.metadata.value;
    if "title" !in metadata {
      return Some(MissingKey("title"));
    }
    var plexName;
    if "year" in metadata {
      plexName := TitleAndYear(metadata["title"], metadata["year"]);
    } else if metadata["title"].Str? {
      plexName := metadata["title"].s;
    } else {
      return Some(NotAString("title"));
    }
    assert ShowName(metadata) == Ok(plexName);
    var plexFolderPath := Join(library, plexName);
    ghost var here := disk.State();
    err := CreatePlexDir(disk, plexFolderPath, o.dryRun);
    RunAfterDir(here, plexFolderPath, SeasonSteps(video, plexFolderPath), o, Outcome(disk.State(), err), goal);
    if err.Some? {
      return;
    }
    if "season" !in metadata {
      return Some(MissingKey("season"));
    }
    var season := AsInt(metadata["season"]);
    if season.None? {
      return Some(NotFormattable("season"));
    }
    var plexSeasonPath := plexFolderPath + [SeasonFolderName(season.value)];
    here := disk.State();
    err := CreatePlexDir(disk, plexSeasonPath, o.dryRun);
    RunAfterDir(here, plexSeasonPath, EpisodeSteps(video, plexSeasonPath, season.value), o, Outcome(disk.State(), err), goal);
    if err.Some? {
      return;
    }
    if "episode" !in metadata {
      return Some(MissingKey("episode"));
    }
    var episode := AsInt(metadata["episode"]);
    if episode.None? {
      return Some(NotFormattable("episode"));
    }
    var plexFilePath := plexSeasonPath + [EpisodeFileName(season.value, episode.value, Suffix(Name(path)))];
    assert EpisodeSteps(video, plexSeasonPath, season.value) == [Place(path, plexFilePath)];
    err := CreatePlexFile(disk, path, plexFilePath, o.links, o.overwrite, o.dryRun);
  }

  /** Running the plan for videos: the first one's pass, then the rest's
      unless that pass failed. */
  lemma RunVideoPass(s: Snapshot, videos: seq<FoundFile>, library: Path, o: Options, after: Outcome, goal: Outcome)
    requires videos != []
    requires Run(s, TvSteps(videos, library), o) == goal
    requires after == Run(s, VideoSteps(videos[0], library), o)
    ensures after.error.Some? ==> after == goal
    ensures after.error.None? ==> Run(after.state, TvSteps(videos[1..], library), o) == goal
  {
    RunAppend(s, VideoSteps(videos[0], library), TvSteps(videos[1..], library), o);
  }

  /** `Tv.to_plex(library_path, links, overwrite, dry_run)`. */
  method ToPlex(disk: Disk, tv: Tv, library: Path, o: Options) returns (err: Option<Error>)
    requires disk.Valid()
    modifies disk
    ensures disk.Valid()
    ensures Outcome(disk.State(), err) == Run(old(disk.State()), TvSteps(tv.videos, library), o)
  {
    ghost var goal := Run(disk.State(), TvSteps(tv.videos, library), o);
    var i := 0;
    while i < |tv.videos|
      invariant 0 <= i <= |tv.videos| && disk.Valid()
      invariant Run(disk.State(), TvSteps(tv.videos[i..], library), o) == goal
    {
      ghost var rest := tv.videos[i..];
      assert rest[0] == tv.videos[i] && rest[1..] == tv.videos[i + 1..];
      ghost var here := disk.State();
      err := PlaceEpisode(disk, tv.videos[i], library, o);
      RunVideoPass(here, rest, library, o, Outcome(disk.State(), err), goal);
      if err.Some? {
        return;
      }
      i := i + 1;
    }
    err := None;
  }

  // ---------------------------------------------------------------------
  // Properties of names
  // ---------------------------------------------------------------------

  /** Round trip: an episode file's name gives back its season, episode and
      suffix, for every pair of integers and any suffix that does not start
      with a digit. */
  lemma EpisodeFileNameReadBack(season: int, episode: int, suffix: string)
    requires suffix == [] || !IsDigit(suffix[0])
    ensures ParseEpisodeFileName(EpisodeFileName(season, episode, suffix)) == Some((season, episode, suffix))
  {
    Pad2ReadBack(season, "E" + Pad2(episode) + suffix);
    Pad2ReadBack(episode, suffix);
    ParseFields(Pad2(season), Pad2(episode), suffix, season, episode);
  }

  /** The reading of an episode name, given how its two numbers read. */
  lemma ParseFields(p: string, q: string, suffix: string, season: int, episode: int)
    requires ReadInt(p + ("E" + q + suffix)) == Some((season, "E" + q + suffix))
    requires ReadInt(q + suffix) == Some((episode, suffix))
    ensures ParseEpisodeFileName("S" + p + "E" + q + suffix) == Some((season, episode, suffix))
  {
    NameFields(p, q, suffix);
  }

  /** Where an episode name's fields start. */
  lemma NameFields(p: string, q: string, suffix: string)
    ensures var name := "S" + p + "E" + q + suffix;
      name[0] == 'S' && name[1..] == p + ("E" + q + suffix)
    ensures ("E" + q + suffix)[0] == 'E' && ("E" + q + suffix)[1..] == q + suffix
  {
  }

  /** The suffix of any file name never starts with a digit. */
  lemma SuffixStartsWithoutDigit(name: string)
    ensures var x := Suffix(name); x == [] || !IsDigit(x[0])
  {
  }

  /** Two episodes of one season folder share a name exactly when they agree
      on season, episode and suffix. */
  lemma EpisodeNamesDistinct(s1: int, e1: int, p1: Path, s2: int, e2: int, p2: Path)
    ensures EpisodeFileName(s1, e1, Suffix(Name(p1))) == EpisodeFileName(s2, e2, Suffix(Name(p2)))
        <==> s1 == s2 && e1 == e2 && Suffix(Name(p1)) == Suffix(Name(p2))
  {
    SuffixStartsWithoutDigit(Name(p1));
    SuffixStartsWithoutDigit(Name(p2));
    EpisodeFileNameReadBack(s1, e1, Suffix(Name(p1)));
    EpisodeFileNameReadBack(s2, e2, Suffix(Name(p2)));
  }

  /** Round trip: the season folder's name gives back the season. */
  lemma SeasonFolderNameReadBack(season: int)
    ensures ParseSeasonFolderName(SeasonFolderName(season)) == Some(season)
  {
    var name := SeasonFolderName(season);
    Pad2ReadBack(season, []);
    assert name[..7] == "Season " && name[7..] == Pad2(season) + [];
  }

  /** The show folder is named after title and year when there is a year,
      and after the title string alone otherwise. */
  lemma ShowNameCases(md: Metadata)
    ensures "title" !in md ==> ShowName(md) == Err(MissingKey("title"))
    ensures "title" in md && "year" in md ==>
      ShowName(md) == Ok(Display(md["title"]) + " (" + Display(md["year"]) + ")")
    ensures "title" in md && "year" !in md ==>
      (ShowName(md).Ok? <==> md["title"].Str?) && (md["title"].Str? ==> ShowName(md).value == md["title"].s)
  {
  }

  // ---------------------------------------------------------------------
  // Properties of the plan
  // ---------------------------------------------------------------------

  /** With every key present and formattable, a video's plan is exactly the
      show folder, its season folder and the episode file inside that. */
  lemma VideoLayout(video: FoundFile, library: Path, name: string, season: int, episode: int)
    requires video.metadata.Some?
    requires ShowName(video.metadata.value) == Ok(name)
    requires "season" in video.metadata.value && AsInt(video.metadata.value["season"]) == Some(season)
    requires "episode" in video.metadata.value && AsInt(video.metadata.value["episode"]) == Some(episode)
    ensures var show := Join(library, name);
            var seasonFolder := show + [SeasonFolderName(season)];
      VideoSteps(video, library)
        == [MkDir(show), MkDir(seasonFolder),
            Place(video.path, seasonFolder + [EpisodeFileName(season, episode, Suffix(Name(video.path)))])]
  {
  }

  /** A missing or unformattable season still leaves the show folder made:
      Python creates it before it formats the season. */
  lemma BadSeasonAfterShowFolder(s: Snapshot, video: FoundFile, library: Path, name: string, o: Options)
    requires video.metadata.Some? && ShowName(video.metadata.value) == Ok(name)
    requires "season" !in video.metadata.value || AsInt(video.metadata.value["season"]).None?
    ensures var r := PlexDir(s, Join(library, name), o.dryRun);
            var e := if "season" !in video.metadata.value then MissingKey("season") else NotFormattable("season");
      Run(s, VideoSteps(video, library), o) == if r.error.Some? then r else Outcome(r.state, Some(e))
  {
  }

  /** `p` is `library` or lies below it. */
  predicate Under(p: Path, library: Path)
  {
    |library| <= |p| && p[..|library|] == library
  }

  /** A step that makes a folder inside the library or places a file strictly below it. */
  predicate InLibrary(step: Step, library: Path)
  {
    (step.MkDir? ==> Under(step.path, library)) && (step.Place? ==> Under(step.dst, library) && step.dst != library)
  }

  /** Every folder and file the plan names lies inside the library, and only
      the videos are placed: the subtitles are never touched. */
  lemma {:induction false} TvStaysInLibrary(videos: seq<FoundFile>, library: Path)
    ensures forall step | step in TvSteps(videos, library) ::
      InLibrary(step, library) && (step.Place? ==> step.src in Paths(videos))
    decreases |videos|
  {
    if videos != [] {
      TvStaysInLibrary(videos[1..], library);
      VideoStaysInLibrary(videos[0], library);
      assert Paths(videos) == [videos[0].path] + Paths(videos[1..]);
    }
  }

  lemma VideoStaysInLibrary(video: FoundFile, library: Path)
    ensures forall step | step in VideoSteps(video, library) ::
      InLibrary(step, library) && (step.Place? ==> step.src == video.path)
  {
    if video.metadata.None? {
      return;
    }
    match ShowName(video.metadata.value)
    case Err(e) =>
    case Ok(name) =>
      var show := Join(library, name);
      JoinUnder(library, name);
      SeasonStaysInLibrary(video, show, library);
      assert VideoSteps(video, library) == [MkDir(show)] + SeasonSteps(video, show);
  }

  lemma JoinUnder(library: Path, name: string)
    ensures Under(Join(library, name), library)
  {
  }

  lemma SeasonStaysInLibrary(video: FoundFile, show: Path, library: Path)
    requires video.metadata.Some? && Under(show, library)
    ensures forall step | step in SeasonSteps(video, show) ::
      InLibrary(step, library) && (step.Place? ==> step.src == video.path)
  {
  }

  /** Nothing outside the library changes, whatever the videos' metadata and
      however the run ends. */
  lemma TvLeavesOutsideAlone(s: Snapshot, videos: seq<FoundFile>, library: Path, o: Options, p: Path)
    requires !Under(p, library)
    ensures var t := Run(s, TvSteps(videos, library), o).state;
      (p in t.nodes <==> p in s.nodes) && (p in s.nodes ==> t.nodes[p] == s.nodes[p])
  {
    var steps := TvSteps(videos, library);
    TvStaysInLibrary(videos, library);
    forall k | 0 <= k < |steps|
      ensures !Touches(steps[k], p)
    {
      assert steps[k] in steps;
    }
    RunTouchesOnlyTargets(s, steps, o, p);
  }

  /** A torrent without videos changes nothing and succeeds. */
  lemma NoVideosNoChange(s: Snapshot, library: Path, o: Options)
    ensures Run(s, TvSteps([], library), o) == Outcome(s, None)
  {
  }

  /** The plan of `a + b` runs `a`'s videos, then `b`'s. */
  lemma TvStepsAppend(a: seq<FoundFile>, b: seq<FoundFile>, library: Path)
    ensures TvSteps(a + b, library) == TvSteps(a, library) + TvSteps(b, library)
  {
    EachAppend(a, b, VideoPlan(library));
  }

  /** A video whose pass fails ends the run: the videos after it are not
      touched, and the error is that video's. */
  lemma TvStopsAtFailure(s: Snapshot, videos: seq<FoundFile>, library: Path, o: Options, i: nat)
    requires i < |videos|
    requires var r := Run(s, TvSteps(videos[..i], library), o);
      r.error.None? && Run(r.state, VideoSteps(videos[i], library), o).error.Some?
    ensures var r := Run(s, TvSteps(videos[..i], library), o);
      Run(s, TvSteps(videos, library), o) == Run(r.state, VideoSteps(videos[i], library), o)
  {
    TvStepsAt(videos, library, i);
    RunStopsInside(s, TvSteps(videos[..i], library), VideoSteps(videos[i], library), TvSteps(videos[i + 1..], library), o);
  }

  /** The plan for all videos is that of the videos before the `i`th, then
      the `i`th's own, then that of the videos after it. */
  lemma TvStepsAt(videos: seq<FoundFile>, library: Path, i: nat)
    requires i < |videos|
    ensures TvSteps(videos, library)
         == TvSteps(videos[..i], library) + (VideoSteps(videos[i], library) + TvSteps(videos[i + 1..], library))
  {
    EachAt(videos, VideoPlan(library), i);
  }

  lemma {:induction false} EachAppend(a: seq<FoundFile>, b: seq<FoundFile>, plan: FoundFile -> seq<Step>)
    ensures Each(a + b, plan) == Each(a, plan) + Each(b, plan)
    decreases |a|
  {
    if a == [] {
      assert a + b == b;
    } else {
      assert (a + b)[0] == a[0] && (a + b)[1..] == a[1..] + b;
      EachAppend(a[1..], b, plan);
    }
  }

  lemma {:induction false} EachAt(videos: seq<FoundFile>, plan: FoundFile -> seq<Step>, i: nat)
    requires i < |videos|
    ensures Each(videos, plan) == Each(videos[..i], plan) + (plan(videos[i]) + Each(videos[i + 1..], plan))
  {
    assert videos == videos[..i] + ([videos[i]] + videos[i + 1..]);
    EachAppend(videos[..i], [videos[i]] + videos[i + 1..], plan);
    assert ([videos[i]] + videos[i + 1..])[1..] == videos[i + 1..];
  }

  /** A plan whose middle part fails ends there: what follows is not run. */
  lemma RunStopsInside(s: Snapshot, a: seq<Step>, v: seq<Step>, b: seq<Step>, o: Options)
    requires var r := Run(s, a, o); r.error.None? && Run(r.state, v, o).error.Some?
    ensures Run(s, a + (v + b), o) == Run(Run(s, a, o).state, v, o)
  {
    RunAppend(s, a, v + b, o);
    RunAppend(Run(s, a, o).state, v, b, o);
  }
}
